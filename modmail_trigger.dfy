/**
 * The ModMail trigger: every new modmail message from a user who is neither a
 * moderator nor an admin is counted in a per-user rolling window; once the
 * count goes past the configured number of messages, the conversation gets an
 * author-hidden reply and is muted for the configured number of hours.
 *
 * The Reddit API is outside the model: the fetched conversation is an input,
 * and the reply and the mute are returned as `Action` values, in the order
 * the handler issues them.
 */
module ModMailTrigger {
  import opened Wrappers
  import opened Text
  import opened RedisCounters

  /** The user who wrote the message that raised the event. */
  datatype User = User(id: string)

  /** The fields of the ModMail event the handler reads. */
  datatype ModMailEvent = ModMailEvent(conversationId: string, messageId: string, messageAuthor: Option<User>)

  /** The author of a message as the conversation reports it. */
  datatype Participant = Participant(isMod: bool, isAdmin: bool)

  datatype Message = Message(id: Option<string>, author: Option<Participant>)

  /** The messages of a conversation, in the order the API lists them. */
  datatype Conversation = Conversation(messages: seq<Message>)

  /** The reply to `getConversation`, whose conversation may be missing. */
  datatype ConversationResponse = ConversationResponse(conversation: Option<Conversation>)

  /** The installation's settings as read during one event; `None` is an unset setting. */
  datatype Settings = Settings(
    timeframe: Option<nat>,       // Y: window length in seconds
    messages: Option<nat>,        // X: messages allowed in the window
    muteTime: Option<nat>,        // Z: mute length in hours
    messageUponMute: Option<string>)

  /** The two Reddit calls the handler may make. */
  datatype Action =
    | Reply(body: string, conversationId: Option<string>, isAuthorHidden: bool)
    | MuteConversation(conversationId: Option<string>, numHours: nat)

  /** How a run of the handler ends: it returns having made the calls in
      `actions`, or it throws while reading the first message of an empty
      conversation. */
  datatype Outcome = Returned(actions: seq<Action>) | ThrewTypeError

  const DefaultMuteBody: string :=
    "You have been muted for spamming this subreddit's modmail (exceeding a message in time treshold)."
    + "\n\nplease make sure to think before you speak and send 1 message with everything you have to say instead of several."

  /** The defaults the settings form offers: one day, 4 messages, 3 days. */
  const DefaultSettings: Settings := Settings(Some(86400), Some(4), Some(72), Some(DefaultMuteBody))

  /** A JavaScript string that is present and not empty. */
  predicate Truthy(s: Option<string>) {
    s.Some? && s.value != ""
  }

  /** A numeric setting that is present and not 0. */
  predicate NonZero(n: Option<nat>) {
    n.Some? && n.value != 0
  }

  /** The conversation's message is taken to be the event's message when its id
      is non-empty and occurs inside the event's message id. */
  predicate Matches(m: Message, eventMessageId: string)
    ensures Matches(m, eventMessageId) ==> m.id.Some? && 1 <= |m.id.value| <= |eventMessageId|
  {
    Truthy(m.id) && Includes(eventMessageId, m.id.value)
  }

  /** `i` is the first message that matches (what `Array.prototype.find` picks). */
  predicate IsFirstMatch(messages: seq<Message>, eventMessageId: string, i: int) {
    && 0 <= i < |messages|
    && Matches(messages[i], eventMessageId)
    && forall j :: 0 <= j < i ==> !Matches(messages[j], eventMessageId)
  }

  /** Written by a moderator or an admin; a missing author is neither. */
  predicate Privileged(m: Message)
    ensures m.author.None? ==> !Privileged(m)
    ensures m.author.Some? && m.author.value.isMod ==> Privileged(m)
    ensures m.author.Some? && m.author.value.isAdmin ==> Privileged(m)
  {
    m.author.Some? && (m.author.value.isMod || m.author.value.isAdmin)
  }

  /** The Redis key of a user's counter. */
  function UserKey(userId: string): (key: string)
    ensures |key| == |userId| + 7 && key[..7] == "userId-" && key[7..] == userId
  {
    "userId-" + userId
  }

  /** Distinct users never share a counter. */
  lemma UserKeyInjective(a: string, b: string)
    requires UserKey(a) == UserKey(b)
    ensures a == b
  {
    assert a == UserKey(a)[7..];
  }

  /** The conversation id the Reddit calls are given: the piece after the first `_`. */
  function ConversationRef(eventConversationId: string): (r: Option<string>)
    ensures r.None? <==> '_' !in eventConversationId
  {
    SecondPiece(eventConversationId, '_')
  }

  /** Event conversation ids look like `ModmailConversation_<id>`; the calls get `<id>`. */
  lemma ConversationRefOfPrefixed(prefix: string, id: string)
    requires '_' !in prefix && '_' !in id
    ensures ConversationRef(prefix + "_" + id) == Some(id)
  {
    SecondPieceOf(prefix, '_', id);
  }

  /** Muting is switched on only when both X and Z are set and non-zero. */
  predicate MuteConfigured(settings: Settings) {
    NonZero(settings.messages) && NonZero(settings.muteTime)
  }

  /** The reply text: the configured message unless it is unset or empty. */
  function MuteBody(settings: Settings): (body: string)
    ensures Truthy(settings.messageUponMute) ==> body == settings.messageUponMute.value
    ensures !Truthy(settings.messageUponMute) ==> body == DefaultMuteBody
    ensures body != ""
  {
    if Truthy(settings.messageUponMute) then settings.messageUponMute.value else DefaultMuteBody
  }

  /**
   * The calls made once a message has been counted, given the new count: a
   * hidden reply then a mute of Z hours when both X and Z are non-zero and
   * the count is strictly above X; no call otherwise.
   */
  function MuteActions(settings: Settings, conversationId: Option<string>, count: nat): (actions: seq<Action>)
    ensures actions != [] <==> MuteConfigured(settings) && count > settings.messages.value
    ensures actions != [] ==>
      && |actions| == 2
      && actions[0].Reply? && actions[0].isAuthorHidden
      && actions[0].body == MuteBody(settings) && actions[0].conversationId == conversationId
      && actions[1].MuteConversation? && actions[1].numHours == settings.muteTime.value
      && actions[1].conversationId == conversationId
  {
    if MuteConfigured(settings) && count > settings.messages.value then
      [Reply(MuteBody(settings), conversationId, true), MuteConversation(conversationId, settings.muteTime.value)]
    else
      []
  }

  /** The event is counted: every early return is passed and the window Y is set. */
  ghost predicate Admitted(event: ModMailEvent, response: ConversationResponse, settings: Settings)
    ensures Admitted(event, response, settings) ==>
      && response.conversation.Some? && event.messageAuthor.Some?
      && response.conversation.value.messages != []
      && NonZero(settings.timeframe)
      && forall i :: IsFirstMatch(response.conversation.value.messages, event.messageId, i)
                     ==> !Privileged(response.conversation.value.messages[i])
  {
    && response.conversation.Some?
    && event.messageAuthor.Some?
    && var messages := response.conversation.value.messages;
    && |messages| > 0
    && Truthy(messages[0].id)
    && (exists i :: IsFirstMatch(messages, event.messageId, i) && !Privileged(messages[i]))
    && NonZero(settings.timeframe)
  }

  /** `find` has at most one answer. */
  lemma FirstMatchUnique(messages: seq<Message>, eventMessageId: string, i: int, j: int)
    requires IsFirstMatch(messages, eventMessageId, i) && IsFirstMatch(messages, eventMessageId, j)
    ensures i == j
  {
  }

  /** `messages.find(...)`: the index of the first matching message, if any. */
  method FindCurrentMessage(messages: seq<Message>, eventMessageId: string) returns (index: Option<nat>)
    ensures index.Some? ==> IsFirstMatch(messages, eventMessageId, index.value)
    ensures index.None? ==> forall j :: 0 <= j < |messages| ==> !Matches(messages[j], eventMessageId)
  {
    var i := 0;
    while i < |messages|
      invariant 0 <= i <= |messages|
      invariant forall j :: 0 <= j < i ==> !Matches(messages[j], eventMessageId)
    {
      var m := messages[i];
      if m.id.Some? && m.id.value != "" && Includes(eventMessageId, m.id.value) {
        return Some(i);
      }
      i := i + 1;
    }
    return None;
  }

  /**
   * The handler. An event that is dropped leaves the counters alone and makes
   * no call. An admitted event counts one message under its author's key in a
   * window of Y seconds, and its calls are those `MuteActions` gives for the
   * new count.
   */
  method OnEvent(store: CounterStore, event: ModMailEvent, response: ConversationResponse, settings: Settings)
    returns (outcome: Outcome)
    modifies store
    ensures store.now == old(store.now)
    ensures outcome.ThrewTypeError? <==>
      response.conversation.Some? && event.messageAuthor.Some? && response.conversation.value.messages == []
    ensures !Admitted(event, response, settings) ==>
      store.entries == old(store.entries) && (outcome.Returned? ==> outcome.actions == [])
    ensures Admitted(event, response, settings) ==>
      var key := UserKey(event.messageAuthor.value.id);
      && store.entries == Refreshed(old(store.entries), old(store.now), key, settings.timeframe.value)
      && outcome == Returned(MuteActions(settings, ConversationRef(event.conversationId),
                                         LiveCount(old(store.entries), old(store.now), key) + 1))
  {
    if response.conversation.None? {
      return Returned([]);
    }
    if event.messageAuthor.None? {
      return Returned([]);
    }
    var messages := response.conversation.value.messages;
    if |messages| == 0 {
      return ThrewTypeError;
    }
    if !Truthy(messages[0].id) {
      return Returned([]);
    }
    var found := FindCurrentMessage(messages, event.messageId);
    if found.None? {
      return Returned([]);
    }
    var current := messages[found.value];
    var conversationId := ConversationRef(event.conversationId);
    var key := UserKey(event.messageAuthor.value.id);
    if Privileged(current) {
      forall i | IsFirstMatch(messages, event.messageId, i) ensures Privileged(messages[i]) {
        FirstMatchUnique(messages, event.messageId, i, found.value);
      }
      return Returned([]);
    }
    if !NonZero(settings.timeframe) {
      return Returned([]);
    }
    var messagesSent := store.IncrBy(key, 1);
    var _ := store.Expire(key, settings.timeframe.value);
    var actions: seq<Action> := [];
    if NonZero(settings.messages) && NonZero(settings.muteTime) {
      if messagesSent > settings.messages.value {
        var body := MuteBody(settings);
        actions := actions + [Reply(body, conversationId, true)];
        actions := actions + [MuteConversation(conversationId, settings.muteTime.value)];
      }
    }
    return Returned(actions);
  }

  /** A message from a moderator or an admin is never admitted, so never counted. */
  lemma PrivilegedNeverAdmitted(event: ModMailEvent, response: ConversationResponse, settings: Settings, i: int)
    requires response.conversation.Some?
    requires IsFirstMatch(response.conversation.value.messages, event.messageId, i)
    requires Privileged(response.conversation.value.messages[i])
    ensures !Admitted(event, response, settings)
  {
    var messages := response.conversation.value.messages;
    forall j | IsFirstMatch(messages, event.messageId, j) ensures Privileged(messages[j]) {
      FirstMatchUnique(messages, event.messageId, i, j);
    }
  }

  /**
   * A user's run of messages against the threshold: if the last `k` of the
   * user's messages arrived less than Y seconds apart after a quiet spell,
   * the last one is answered with a reply and a mute exactly when muting is
   * configured and k > X; so every later message of the run is answered again.
   */
  lemma FloodAnswered(store: Store, key: string, times: seq<int>, settings: Settings, k: nat,
                      conversationId: Option<string>)
    requires NonZero(settings.timeframe)
    requires 1 <= k <= |times|
    requires ChainedTail(times, k, settings.timeframe.value)
    requires k == |times| ==> !Live(store, times[0], key)
    requires k < |times| ==> times[|times| - k] - times[|times| - k - 1] >= settings.timeframe.value
    ensures var before := Replay(store, key, times[..|times| - 1], settings.timeframe.value);
      var actions := MuteActions(settings, conversationId, LiveCount(before, times[|times| - 1], key) + 1);
      && LiveCount(before, times[|times| - 1], key) + 1 == k
      && (actions != [] <==> MuteConfigured(settings) && k > settings.messages.value)
  {
    var window := settings.timeframe.value;
    var n := |times|;
    var before := Replay(store, key, times[..n - 1], window);
    RollingCount(store, key, times, window, k);
    RefreshedEntry(before, times[n - 1], key, window);
  }

  /** With the default settings, the fifth message in a day from one user is
      answered with the default text and a 72-hour mute; the fourth is not. */
  lemma DefaultsMuteOnFifthMessage(store: Store, key: string, times: seq<int>, conversationId: Option<string>)
    requires |times| == 5 && !Live(store, times[0], key)
    requires ChainedTail(times, 5, 86400)
    ensures var fourth := Replay(store, key, times[..4], 86400);
      var fifth := Replay(store, key, times, 86400);
      && LiveCount(fourth, times[3], key) == 4
      && MuteActions(DefaultSettings, conversationId, 4) == []
      && LiveCount(fifth, times[4], key) == 5
      && MuteActions(DefaultSettings, conversationId, 5)
         == [Reply(DefaultMuteBody, conversationId, true), MuteConversation(conversationId, 72)]
  {
    var prefix := times[..4];
    assert ChainedTail(prefix, 4, 86400) by {
      forall i | 0 < i < 4 ensures prefix[i] - prefix[i - 1] < 86400 {
        assert prefix[i] == times[i] && prefix[i - 1] == times[i - 1];
      }
    }
    assert prefix[0] == times[0];
    RollingCount(store, key, prefix, 86400, 4);
    RollingCount(store, key, times, 86400, 5);
  }
}
