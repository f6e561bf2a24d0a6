/**
 * The part of Redis the trigger uses: integer string keys with an optional
 * time-to-live. A key whose expiry instant has been reached is treated exactly
 * like a missing key (Redis deletes expired keys lazily, but no command can
 * observe them).
 */
module RedisCounters {
  import opened Wrappers

  /** One key: its integer value and, if a TTL is set, the instant (seconds) it expires. */
  datatype Entry = Entry(count: nat, expiresAt: Option<int>)

  type Store = map<string, Entry>

  /** The key exists and its TTL, if any, has not run out at `now`. */
  predicate Live(store: Store, now: int, key: string) {
    key in store && (store[key].expiresAt.None? || now < store[key].expiresAt.value)
  }

  /** What GET would return: nothing for a missing or expired key. */
  function Peek(store: Store, now: int, key: string): (r: Option<nat>)
    ensures r.Some? <==> Live(store, now, key)
  {
    if Live(store, now, key) then Some(store[key].count) else None
  }

  /** The value INCRBY starts from: a missing or expired key counts as 0. */
  function LiveCount(store: Store, now: int, key: string): (n: nat) {
    Peek(store, now, key).GetOr(0)
  }

  /** The store after INCRBY key increment: a live key keeps its TTL, a new key has none. */
  function Incremented(store: Store, now: int, key: string, increment: nat): (r: Store)
    ensures Live(r, now, key) && LiveCount(r, now, key) == LiveCount(store, now, key) + increment
    ensures r.Keys == store.Keys + {key}
    ensures forall k :: k in store && k != key ==> r[k] == store[k]
  {
    if Live(store, now, key) then store[key := Entry(store[key].count + increment, store[key].expiresAt)]
    else store[key := Entry(increment, None)]
  }

  /** The store after EXPIRE key seconds, and its reply. A missing or expired key
      is left alone (reply 0); a TTL that is not positive deletes the key. */
  function WithExpiry(store: Store, now: int, key: string, seconds: int): (r: (Store, bool))
    ensures r.1 <==> Live(store, now, key)
    ensures r.1 && seconds > 0 ==> r.0 == store[key := Entry(store[key].count, Some(now + seconds))]
    ensures r.1 && seconds <= 0 ==> r.0 == store - {key}
    ensures !r.1 ==> r.0 == store
  {
    if !Live(store, now, key) then (store, false)
    else if seconds <= 0 then (store - {key}, true)
    else (store[key := Entry(store[key].count, Some(now + seconds))], true)
  }

  /** INCRBY key 1 followed by EXPIRE key window: one message counted in a rolling window. */
  function Refreshed(store: Store, now: int, key: string, window: nat): (r: Store)
    ensures key in r <==> window > 0
    ensures r.Keys <= store.Keys + {key}
  {
    WithExpiry(Incremented(store, now, key, 1), now, key, window).0
  }

  /** With a positive window, counting a message sets the key to its previous live
      count plus one (1 if it was missing or expired), expiring `window` seconds
      from now, and touches no other key. */
  lemma RefreshedEntry(store: Store, now: int, key: string, window: nat)
    requires window > 0
    ensures var r := Refreshed(store, now, key, window);
      && key in r
      && r[key] == Entry(LiveCount(store, now, key) + 1, Some(now + window))
      && r.Keys == store.Keys + {key}
      && forall k :: k in store && k != key ==> r[k] == store[k]
  {
  }

  /** Expired is the same as absent: counting on a store whose key has expired
      gives the same store as counting after deleting that key. */
  lemma ExpiredIsAbsent(store: Store, now: int, key: string, window: nat)
    requires !Live(store, now, key)
    ensures Refreshed(store, now, key, window) == Refreshed(store - {key}, now, key, window)
  {
    assert Incremented(store, now, key, 1) == Incremented(store - {key}, now, key, 1);
  }

  /** The store after one message at each instant of `times`, in order. */
  function Replay(store: Store, key: string, times: seq<int>, window: nat): (r: Store)
    decreases |times|
  {
    if times == [] then store
    else Refreshed(Replay(store, key, times[..|times| - 1], window), times[|times| - 1], key, window)
  }

  /** After at least one message the key expires one window after the last one. */
  lemma ReplayExpiry(store: Store, key: string, times: seq<int>, window: nat)
    requires window > 0 && |times| > 0
    ensures var r := Replay(store, key, times, window);
      key in r && r[key].expiresAt == Some(times[|times| - 1] + window)
  {
    RefreshedEntry(Replay(store, key, times[..|times| - 1], window), times[|times| - 1], key, window);
  }

  /** Consecutive messages among the last `k` of `times` are less than a window apart. */
  predicate ChainedTail(times: seq<int>, k: nat, window: nat)
    requires k <= |times|
  {
    forall i :: |times| - k < i < |times| ==> times[i] - times[i - 1] < window
  }

  /**
   * The rolling window: the counter after a run of messages equals the length
   * of the longest tail of the run whose consecutive messages are less than a
   * window apart (the key was dead before that tail began: either a gap of a
   * whole window precedes it, or the key was not live at the first message).
   */
  lemma {:induction false} RollingCount(store: Store, key: string, times: seq<int>, window: nat, k: nat)
    requires window > 0
    requires 1 <= k <= |times|
    requires ChainedTail(times, k, window)
    requires k == |times| ==> !Live(store, times[0], key)
    requires k < |times| ==> times[|times| - k] - times[|times| - k - 1] >= window
    ensures var r := Replay(store, key, times, window);
      key in r && r[key] == Entry(k, Some(times[|times| - 1] + window))
    decreases |times|
  {
    var n := |times|;
    var prefix := times[..n - 1];
    var before := Replay(store, key, prefix, window);
    RefreshedEntry(before, times[n - 1], key, window);
    if k == 1 {
      if n > 1 {
        ReplayExpiry(store, key, prefix, window);
        assert !Live(before, times[n - 1], key);
      }
    } else {
      assert ChainedTail(prefix, k - 1, window) by {
        forall i | |prefix| - (k - 1) < i < |prefix| ensures prefix[i] - prefix[i - 1] < window {
          assert prefix[i] == times[i] && prefix[i - 1] == times[i - 1];
        }
      }
      RollingCount(store, key, prefix, window, k - 1);
      assert times[n - 1] - times[n - 2] < window;
      assert Live(before, times[n - 1], key);
    }
  }

  /** Counting messages for one user never changes another user's key. */
  lemma {:induction false} ReplayOtherKeys(store: Store, key: string, times: seq<int>, window: nat, other: string)
    requires window > 0 && other != key
    ensures var r := Replay(store, key, times, window);
      (other in r <==> other in store) && (other in store ==> r[other] == store[other])
    decreases |times|
  {
    if times != [] {
      ReplayOtherKeys(store, key, times[..|times| - 1], window, other);
      RefreshedEntry(Replay(store, key, times[..|times| - 1], window), times[|times| - 1], key, window);
    }
  }

  /** An in-memory stand-in for the Redis client: the keys and the server clock. */
  class CounterStore {
    var entries: Store
    var now: int

    constructor (start: int)
      ensures entries == map[] && now == start
    {
      entries := map[];
      now := start;
    }

    /** GET key: the live value, or nothing once the key has expired. */
    function Get(key: string): (r: Option<nat>)
      reads this
      ensures r.Some? <==> Live(entries, now, key)
      ensures r.Some? ==> r.value == entries[key].count
    {
      Peek(entries, now, key)
    }

    /** INCRBY key increment: returns the new value; a missing or expired key starts from 0. */
    method IncrBy(key: string, increment: nat) returns (value: nat)
      modifies this
      ensures value == LiveCount(old(entries), old(now), key) + increment
      ensures entries == Incremented(old(entries), old(now), key, increment)
      ensures now == old(now)
    {
      if Live(entries, now, key) {
        value := entries[key].count + increment;
        entries := entries[key := Entry(value, entries[key].expiresAt)];
      } else {
        value := increment;
        entries := entries[key := Entry(value, None)];
      }
    }

    /** EXPIRE key seconds: sets the key's TTL; reports whether the key existed. */
    method Expire(key: string, seconds: int) returns (applied: bool)
      modifies this
      ensures (entries, applied) == WithExpiry(old(entries), old(now), key, seconds)
      ensures now == old(now)
    {
      applied := Live(entries, now, key);
      if !applied {
        return;
      }
      if seconds <= 0 {
        entries := entries - {key};
      } else {
        entries := entries[key := Entry(entries[key].count, Some(now + seconds))];
      }
    }

    /** The clock moves on; no key is touched, but some may expire. */
    method Advance(seconds: nat)
      modifies this
      ensures now == old(now) + seconds && entries == old(entries)
    {
      now := now + seconds;
    }
  }
}
