# ModMail flood muter — a Dafny model

The app watches a subreddit's modmail. Each new message raises a ModMail event.
The handler looks the conversation up and finds the event's message in it.
It ignores messages written by moderators and admins. For anyone else it counts
the message in a Redis key `userId-<id>` whose expiry is pushed `Y` seconds
ahead on every message, so the window rolls. When the count goes above `X`,
the handler posts an author-hidden reply in the conversation and mutes it for
`Z` hours. A second piece of logic checks the numeric settings: an integer in
an inclusive range, with `Infinity` allowed as the upper bound.

Modules:

- `Wrappers` (`wrappers.dfy`): `Option`, for JavaScript's `undefined`.
- `Text` (`text.dfy`): `includes`, `split`/`join` and decimal rendering of integers.
- `RedisCounters` (`counter_store.dfy`): keys with an optional TTL. A key whose
  expiry has been reached is the same as a missing key. There are pure
  functions for INCRBY and EXPIRE, the rolling-window lemmas about a run of
  messages, and the class `CounterStore` that the handler changes in place.
- `ModMailTrigger` (`modmail_trigger.dfy`): the event, conversation, settings
  and action types, the `find` search as a loop, and the handler `OnEvent`.
- `SettingsValidation` (`validate_range.dfy`): `validateRangeInt` and the two
  validators the settings form installs.

The handler's Reddit calls are not executed. `getConversation`'s answer is an
input, and the reply and the mute come back as an ordered `seq<Action>`.
Settings are a snapshot passed in: `None` stands for an unset setting, and
unset or 0 both switch a feature off, as in the code. The Redis clock is the
store's `now` field. Time moves only through `CounterStore.Advance`.

`src/main.ts` has no warning tier, no event-id deduplication, no scheduled
auto-unmute, no post-flood ban and no reset when a moderator replies. The model
has none of them either. A moderator's message is only skipped; it clears
nothing.

## Model

| member | source | states |
|---|---|---|
| `Text.Includes` | src/main.ts:64 | `s.includes(sub)` is true exactly when `sub` occurs at some index of `s` |
| `Text.Split` | src/main.ts:68 | `split` on `_` gives at least one piece, and no piece contains the separator |
| `Text.JoinSplit` | src/main.ts:68 | joining the pieces of a split with the separator gives back the original string |
| `Text.SplitJoin` | src/main.ts:68 | pieces without the separator are recovered by splitting their join |
| `Text.SplitLength` | src/main.ts:68 | a split has more than one piece exactly when the separator occurs |
| `Text.SecondPiece` | src/main.ts:68 | `split(/_/)[1]` is undefined exactly when there is no `_`; otherwise it is a piece without `_` |
| `Text.SecondPieceOf` | src/main.ts:68 | for `prefix_id` with no `_` in either part, the second piece is `id` |
| `Text.NatToDecimal` | src/main.ts:102-103 | the numeral is non-empty, all digits, with no leading zero |
| `Text.DecimalRoundTrip` | src/main.ts:102-103 | reading a rendered numeral back gives the number |
| `Text.IntToDecimal` | src/main.ts:102-103 | a rendering starts with `-` exactly when the integer is negative |
| `Text.NatToDecimalInjective` | src/main.ts:102-103 | different naturals render differently |
| `Text.IntToDecimalInjective` | src/main.ts:102-103 | different integers render differently |
| `RedisCounters.Peek` | src/main.ts:75 | a key yields a value exactly when it exists and its expiry has not been reached |
| `RedisCounters.Incremented` | src/main.ts:75 | INCRBY leaves the key live with its live count (0 if missing or expired) plus the increment, and changes no other key |
| `RedisCounters.WithExpiry` | src/main.ts:76 | EXPIRE on a live key sets its expiry to now + seconds (deletes it for a non-positive TTL) and replies true; on a missing or expired key it changes nothing and replies false |
| `RedisCounters.Refreshed` | src/main.ts:75-76 | INCRBY then EXPIRE with the window: the user's key survives exactly when the window is positive (EXPIRE 0 deletes it), and no key other than the user's is added |
| `RedisCounters.RefreshedEntry` | src/main.ts:75-76 | counting a message with a positive window sets the user's key to its previous live count + 1 (1 if missing or expired), expiring one window from now; no other key changes |
| `RedisCounters.ExpiredIsAbsent` | src/main.ts:75-76 | counting on a store whose key has expired gives the same store as counting after deleting the key |
| `RedisCounters.ReplayExpiry` | src/main.ts:76 | after a run of messages the key expires one window after the last one |
| `RedisCounters.RollingCount` | src/main.ts:75-76 | after a run of messages, the count is the length of the longest tail of the run in which consecutive messages are less than a window apart (rolling window, not a fixed bucket) |
| `RedisCounters.ReplayOtherKeys` | src/main.ts:70 | counting one user's messages leaves every other key as it was |
| `RedisCounters.CounterStore.constructor` | src/main.ts:71 | a fresh store has no keys and the given clock |
| `RedisCounters.CounterStore.Get` | src/main.ts:75 | a key yields its count exactly while it is live |
| `RedisCounters.CounterStore.IncrBy` | src/main.ts:75 | returns the live count (0 if missing or expired) plus the increment; the new keys are `Incremented` of the old; the clock is unchanged |
| `RedisCounters.CounterStore.Expire` | src/main.ts:76 | the new keys and the reply are `WithExpiry` of the old keys; the clock is unchanged |
| `RedisCounters.CounterStore.Advance` | src/main.ts:76 | the clock moves forward by the given seconds; no key is touched |
| `ModMailTrigger.UserKey` | src/main.ts:70 | the counter key is `userId-` followed by the user id |
| `ModMailTrigger.UserKeyInjective` | src/main.ts:69-70 | two users never share a counter key |
| `ModMailTrigger.Matches` | src/main.ts:64 | a message matches only when it has a non-empty id no longer than the event's message id (and that id occurs in it) |
| `ModMailTrigger.Privileged` | src/main.ts:66-67 | a message written by a moderator or by an admin is privileged; one with no author is not |
| `ModMailTrigger.ConversationRef` | src/main.ts:68 | the id given to the Reddit calls is undefined exactly when the event's conversation id has no `_` |
| `ModMailTrigger.ConversationRefOfPrefixed` | src/main.ts:68 | for `ModmailConversation_<id>` the calls get `<id>` |
| `ModMailTrigger.MuteBody` | src/main.ts:82 | the reply is the configured message when it is set and non-empty, else the built-in default text; never empty |
| `ModMailTrigger.MuteActions` | src/main.ts:80-91 | a reply then a mute are issued exactly when X and Z are both non-zero and the new count is strictly above X; the reply is author-hidden with `MuteBody`, the mute lasts Z hours, and both target the conversation id; otherwise nothing is issued |
| `ModMailTrigger.FirstMatchUnique` | src/main.ts:64 | `find` has at most one answer |
| `ModMailTrigger.FindCurrentMessage` | src/main.ts:64-65 | returns the first message with a non-empty id contained in the event's message id, or nothing when no message has one |
| `ModMailTrigger.Admitted` | src/main.ts:57-74 | an admitted event has a conversation, an author, a non-empty message list, a non-zero Y, and its first matching message is not by a moderator or an admin |
| `ModMailTrigger.OnEvent` | src/main.ts:53-93 | a missing conversation, a missing author, a first message without an id, no matching message, a moderator or admin author, or an unset or zero Y leave the counters unchanged and issue no call; an empty conversation throws with nothing changed; otherwise the author's key is counted in a window of Y seconds, no other key changes, and the calls are `MuteActions` of the new count |
| `ModMailTrigger.PrivilegedNeverAdmitted` | src/main.ts:66-72 | a message whose matched author is a moderator or an admin is never counted |
| `ModMailTrigger.FloodAnswered` | src/main.ts:75-90 | over a user's run of messages, the last one is counted as the length of its rolling run and is answered with a reply and a mute exactly when muting is configured and that length is above X, so every later message of the run is answered again |
| `ModMailTrigger.DefaultsMuteOnFifthMessage` | src/main.ts:18-45 | with the form's defaults (one day, 4 messages, 72 hours, default text), the fourth message in a day draws no call and the fifth draws the default reply and a 72-hour mute |
| `SettingsValidation.BoundText` | src/main.ts:103 | a finite bound prints as its decimal numeral |
| `SettingsValidation.BelowMinText` | src/main.ts:102 | the below-min error text, before the received value, starts with `RangeError: ` and the setting's name |
| `SettingsValidation.AboveMaxText` | src/main.ts:103 | the above-max error text, before the received value, starts with `RangeError: ` and the setting's name |
| `SettingsValidation.BelowMinMessage` | src/main.ts:102 | the below-min error text starts with `RangeError: ` and the setting's name, and ends with `, received ` and the received value |
| `SettingsValidation.AboveMaxMessage` | src/main.ts:103 | the above-max error text starts with `RangeError: ` and the setting's name, and ends with `, received ` and the received value |
| `SettingsValidation.ValidateRangeInt` | src/main.ts:97-108 | no error exactly when the value is an integer with min ≤ value ≤ max (both inclusive); a non-integer yields its conversion error; a value below min yields the below-min message, and a value above max yields the above-max message |
| `SettingsValidation.BelowMinMessageReportsValue` | src/main.ts:102 | the below-min message carries the received value exactly |
| `SettingsValidation.AboveMaxMessageReportsValue` | src/main.ts:103 | the above-max message carries the received value exactly |
| `SettingsValidation.UnboundedAboveOnlyLowerBoundFails` | src/main.ts:19 | with max = Infinity, an integer is refused exactly when it is below min |
| `SettingsValidation.ValidateTimeframe` | src/main.ts:19 | setting Y accepts exactly the integers from 500 up |
| `SettingsValidation.ValidateMessages` | src/main.ts:27 | setting X accepts exactly the integers from 2 to 20 |

## Left out

- Settings registration (`Devvit.configure`, `Devvit.addSettings`, src/main.ts:4-49) is platform configuration. Only the values matter, and they arrive as a `Settings` snapshot. The form's defaults are the constant `DefaultSettings`, and its two validators are modelled.
- The `muteTime` select allows only 72, 168 or 672 hours. The snapshot accepts any natural number, and unset stands for `+undefined`, which is NaN.
- The Reddit API calls (`getConversation`, `modMail.reply`, `muteConversation`) are foreign I/O. The conversation is an input and the calls are returned as `Action` values. If one of these calls fails, or a Redis or settings call fails, the exception ends the handler. The model does not include those failures.
- The atomicity of Redis commands under concurrent events, and the gap between INCRBY and EXPIRE, are not modelled. Each event is one sequential run of `OnEvent`.
- Redis keeps expiry times in milliseconds and rejects counts beyond 64 bits. The model uses whole seconds and unbounded counts.
- The event's `createdAt` and the `date` built from it (src/main.ts:56) are never used by the handler.
- `printLn` (src/main.ts:110-147) is debug code whose only call is commented out.
- JavaScript coercions are abstracted. A value `BigInt` cannot convert becomes `NonInteger`, carrying the engine's error text as data. Numbers compared with a BigInt are exact integers. `+muteTime` is a natural number of hours.
