/** A set of keys that forgets a key when it was not added again for a timeout.  Timers are
    re-armed lazily: when one fires early, it is set to the end of the idle time. */
module TimeoutCache {
  datatype AddResult = REFRESHED | ADDED | DROPPED

  const NO_LIMIT: nat := 0xFFFF_FFFF_FFFF_FFFF   // size_t max

  /** When the key was last added, and when its timer is due. */
  datatype Entry = Entry(access: int, due: int)

  /** The keys in the order of their insertion, their entries, and the timeout handler calls
      that are posted but have not run. */
  datatype Cache<T(==)> = Cache(keys: seq<T>, entries: map<T, Entry>, posted: multiset<T>)

  function Result<T>(c: Cache<T>, max: nat, key: T): AddResult {
    if key in c.entries then REFRESHED else if |c.keys| >= max then DROPPED else ADDED
  }

  function Added<T>(c: Cache<T>, timeout: nat, max: nat, key: T, now: int): Cache<T> {
    match Result(c, max, key)
    case REFRESHED => c.(entries := c.entries[key := c.entries[key].(access := now)])
    case DROPPED => c
    case ADDED => c.(keys := c.keys + [key], entries := c.entries[key := Entry(now, now + timeout)])
  }

  function Without<T(==)>(keys: seq<T>, key: T): seq<T> {
    if keys == [] then [] else if keys[0] == key then keys[1..] else [keys[0]] + Without(keys[1..], key)
  }

  /** The timer of a key fires: the key goes if it was idle for the whole timeout. */
  function Fired<T>(c: Cache<T>, timeout: nat, key: T, now: int): Cache<T>
    requires key in c.entries
  {
    var end := c.entries[key].access + timeout;
    if end > now then c.(entries := c.entries[key := c.entries[key].(due := end)])
    else Cache(Without(c.keys, key), c.entries - {key}, c.posted + multiset{key})
  }

  predicate Distinct<T(==)>(keys: seq<T>) { forall i, j | 0 <= i < j < |keys| :: keys[i] != keys[j] }

  /** The list and the map have the same keys, none is listed twice, there are not too many,
      and no timer is due after the idle time of its key ends. */
  ghost predicate Ok<T(!new)>(c: Cache<T>, timeout: nat, max: nat) {
    && Distinct(c.keys) && |c.keys| <= max
    && (forall k | k in c.keys :: k in c.entries)
    && (forall k | k in c.entries :: k in c.keys && c.entries[k].due <= c.entries[k].access + timeout)
  }

  class TimeoutCache<T(!new, ==)> {
    const timeout: nat
    const maxSize: nat
    var cache: map<T, Entry>
    var keySequence: seq<T>
    var posted: multiset<T>

    ghost function View(): Cache<T> reads this { Cache(keySequence, cache, posted) }

    ghost predicate Valid() reads this { Ok(View(), timeout, maxSize) }

    constructor (timeout: nat, maxSize: nat)
      ensures this.timeout == timeout && this.maxSize == maxSize && Valid()
      ensures View() == Cache([], map[], multiset{})
    {
      this.timeout, this.maxSize := timeout, maxSize;
      cache, keySequence, posted := map[], [], multiset{};
    }

    method Add(key: T, now: int) returns (res: AddResult)
      requires Valid() && forall k | k in cache :: cache[k].access <= now
      modifies this
      ensures res == Result(old(View()), maxSize, key)
      ensures View() == Added(old(View()), timeout, maxSize, key, now) && Valid()
    {
      AddedOk(View(), timeout, maxSize, key, now);
      if key in cache {
        cache := cache[key := cache[key].(access := now)];
        return REFRESHED;
      }
      if |keySequence| >= maxSize {
        return DROPPED;
      }
      keySequence := keySequence + [key];
      cache := cache[key := Entry(now, now + timeout)];
      return ADDED;
    }

    /** Takes a key out of the list, at the place its entry points to. */
    method Erase(key: T)
      requires Distinct(keySequence) && key in keySequence
      modifies this`keySequence
      ensures keySequence == Without(old(keySequence), key)
    {
      var i := 0;
      while keySequence[i] != key
        invariant i < |keySequence| && key in keySequence[i..]
        invariant Without(keySequence, key) == keySequence[..i] + Without(keySequence[i..], key)
        decreases |keySequence| - i
      {
        assert keySequence[i..] == [keySequence[i]] + keySequence[i + 1..];
        assert keySequence[..i + 1] == keySequence[..i] + [keySequence[i]];
        i := i + 1;
      }
      assert Without(keySequence[i..], key) == keySequence[i + 1..];
      keySequence := keySequence[..i] + keySequence[i + 1..];
    }

    method TimerHandler(key: T, now: int)
      requires Valid() && key in cache
      modifies this
      ensures View() == Fired(old(View()), timeout, key, now) && Valid()
    {
      hide Without;
      FiredOk(View(), timeout, maxSize, key, now);
      var timeToExpiry := cache[key].access + timeout - now;
      if timeToExpiry > 0 {
        cache := cache[key := cache[key].(due := now + timeToExpiry)];
        return;
      }
      Erase(key);
      cache := cache - {key};
      posted := posted + multiset{key};
    }
  }

  lemma AddedOk<T(!new)>(c: Cache<T>, timeout: nat, max: nat, key: T, now: int)
    requires Ok(c, timeout, max) && forall k | k in c.entries :: c.entries[k].access <= now
    ensures Ok(Added(c, timeout, max, key, now), timeout, max)
  {
  }

  lemma {:induction false} WithoutKeeps<T>(keys: seq<T>, key: T)
    requires Distinct(keys)
    ensures Distinct(Without(keys, key)) && |Without(keys, key)| <= |keys|
    ensures forall k :: k in Without(keys, key) <==> k in keys && k != key
    ensures keys != [] && keys[0] != key ==> Without(keys, key) != [] && Without(keys, key)[0] == keys[0]
  {
    if keys != [] && keys[0] != key {
      WithoutKeeps(keys[1..], key);
      assert forall k :: k in keys <==> k == keys[0] || k in keys[1..];
      ConsDistinct(keys[0], Without(keys[1..], key));
    } else if keys != [] {
      assert forall k :: k in keys <==> k == keys[0] || k in keys[1..];
    }
  }

  /** The other keys keep their order. */
  lemma {:induction false} OrderKept<T>(before: seq<T>, key: T, after: seq<T>)
    requires key !in before
    ensures Without(before + [key] + after, key) == before + after
  {
    var keys := before + [key] + after;
    if before == [] {
      assert keys[0] == key && keys[1..] == after;
    } else {
      OrderKept(before[1..], key, after);
      assert keys[0] == before[0] != key && keys[1..] == before[1..] + [key] + after;
    }
  }

  lemma ConsDistinct<T>(k: T, keys: seq<T>)
    requires Distinct(keys) && k !in keys
    ensures Distinct([k] + keys)
  {
    forall i, j | 0 <= i < j < |[k] + keys| ensures ([k] + keys)[i] != ([k] + keys)[j] {
      assert ([k] + keys)[j] == keys[j - 1];
    }
  }

  lemma FiredOk<T(!new)>(c: Cache<T>, timeout: nat, max: nat, key: T, now: int)
    requires Ok(c, timeout, max) && key in c.entries
    ensures Ok(Fired(c, timeout, key, now), timeout, max)
  {
    hide Without;
    WithoutKeeps(c.keys, key);
  }

  /** A key is forgotten only by its own timer, and then it was idle for the full timeout. */
  lemma ForgottenOnlyIdle<T(!new)>(c: Cache<T>, timeout: nat, max: nat, key: T, now: int, k: T)
    requires Ok(c, timeout, max) && k in c.entries
    ensures k in Added(c, timeout, max, key, now).entries
    ensures key in c.entries ==>
      (k !in Fired(c, timeout, key, now).entries <==> k == key && now >= c.entries[k].access + timeout)
  {
  }

  /** Once the idle time has passed the timer is due, and firing forgets the key and posts
      its notification. */
  lemma IdleIsForgotten<T(!new)>(c: Cache<T>, timeout: nat, max: nat, key: T, now: int)
    requires Ok(c, timeout, max) && key in c.entries && now >= c.entries[key].access + timeout
    ensures c.entries[key].due <= now
    ensures var d := Fired(c, timeout, key, now);
            && key !in d.entries && key !in d.keys && d.posted == c.posted + multiset{key}
            && forall k | k != key :: k in d.keys <==> k in c.keys
  {
    hide Without;
    WithoutKeeps(c.keys, key);
  }

  // ---- the first key ----------------------------------------------------------------------

  /** The key is first in the list and was added at time t or later. */
  predicate HeadSince<T>(c: Cache<T>, b: T, t: int) {
    c.keys != [] && c.keys[0] == b && b in c.entries && c.entries[b].access >= t
  }

  lemma AddKeepsHead<T(!new)>(c: Cache<T>, timeout: nat, max: nat, key: T, now: int, b: T, t: int)
    requires HeadSince(c, b, t) && t <= now
    ensures HeadSince(Added(c, timeout, max, key, now), b, t)
  {
  }

  /** The head stays the head until a full timeout has passed since it was added. */
  lemma FireKeepsHead<T(!new)>(c: Cache<T>, timeout: nat, max: nat, key: T, now: int, b: T, t: int)
    requires Ok(c, timeout, max) && key in c.entries && HeadSince(c, b, t)
    ensures HeadSince(Fired(c, timeout, key, now), b, t) || now >= t + timeout
  {
    hide Without;
    WithoutKeeps(c.keys, key);
  }

  /** With room for one key the list is not empty after an addition; whoever is first then
      was added just now, or is someone else. */
  lemma HeadAfterAdd<T(!new)>(c: Cache<T>, timeout: nat, max: nat, key: T, now: int)
    requires Ok(c, timeout, max) && max > 0
    ensures var d := Added(c, timeout, max, key, now);
            d.keys != [] && (d.keys[0] == key ==> HeadSince(d, key, now))
  {
    var d := Added(c, timeout, max, key, now);
    if d.keys[0] == key { assert d.keys[0] in d.keys; }
  }
}
