/** The in-memory cache: lazy eviction on Get and a sweep every 128 inserts answer
    exactly as a map with expiry times from which nothing is ever evicted. */
module Cache {
  import opened Wrappers

  const PRUNE_EVERY := 128

  datatype Entry<V> = Entry(value: V, expiresAt: int)

  /** A call, with the clock at its first and at its last reading. */
  datatype Call<V> =
    | Get(key: string, now: int)
    | Set(key: string, value: V, ttl: int, sweepAt: int, now: int)
    | Delete(key: string, now: int)

  type Store<V> = map<string, Entry<V>>

  // ---- the specification: no eviction -------------------------------------------------

  function Remembered<V>(m: Store<V>, call: Call<V>): Store<V> {
    match call
    case Get(_, _) => m
    case Set(key, value, ttl, _, now) => m[key := Entry(value, now + ttl)]
    case Delete(key, _) => m - {key}
  }

  /** An entry still answers at the very instant it expires. */
  function Answer<V>(m: Store<V>, key: string, now: int): Option<V> {
    if key in m && now <= m[key].expiresAt then Some(m[key].value) else None
  }

  function RememberedAll<V>(calls: seq<Call<V>>): Store<V> {
    if calls == [] then map[] else Remembered(RememberedAll(calls[..|calls| - 1]), calls[|calls| - 1])
  }

  /** What each Get of a run answers; the other calls answer nothing. */
  function Answers<V>(calls: seq<Call<V>>): seq<Option<V>> {
    if calls == [] then []
    else
      var last := calls[|calls| - 1];
      Answers(calls[..|calls| - 1])
      + [if last.Get? then Answer(RememberedAll(calls[..|calls| - 1]), last.key, last.now) else None]
  }

  function StartOf<V>(call: Call<V>): int {
    if call.Set? then call.sweepAt else call.now
  }

  /** The clock never goes back, within a call or between calls. */
  predicate Clocked<V>(calls: seq<Call<V>>) {
    && (forall i :: 0 <= i < |calls| ==> StartOf(calls[i]) <= calls[i].now)
    && (forall i, j :: 0 <= i < j < |calls| ==> calls[i].now <= StartOf(calls[j]))
  }

  // ---- the cache -------------------------------------------------------------------------

  /** entries is what is remembered, but for some that had expired by latest. */
  ghost predicate Holds<V(!new)>(entries: Store<V>, remembered: Store<V>, latest: Option<int>) {
    && (forall k :: k in entries ==> k in remembered && entries[k] == remembered[k])
    && (forall k :: k in remembered && k !in entries ==> latest.Some? && remembered[k].expiresAt < latest.value)
  }

  lemma HoldsLater<V(!new)>(entries: Store<V>, remembered: Store<V>, latest: Option<int>, now: int)
    requires Holds(entries, remembered, latest) && (latest.Some? ==> latest.value <= now)
    ensures Holds(entries, remembered, Some(now))
  {
  }

  lemma HoldsSet<V(!new)>(entries: Store<V>, remembered: Store<V>, latest: Option<int>, key: string, e: Entry<V>)
    requires Holds(entries, remembered, latest)
    ensures Holds(entries[key := e], remembered[key := e], latest)
    ensures |entries[key := e]| == if key in entries then |entries| else |entries| + 1
  {
    SizeSet(entries, key, e);
    StillHeld(entries, remembered, latest, key, e);
  }

  lemma SizeSet<V(!new)>(entries: Store<V>, key: string, e: Entry<V>)
    ensures |entries[key := e]| == if key in entries then |entries| else |entries| + 1
  {
    assert entries[key := e].Keys == entries.Keys + {key};
  }

  lemma StillHeld<V(!new)>(entries: Store<V>, remembered: Store<V>, latest: Option<int>, key: string, e: Entry<V>)
    requires Holds(entries, remembered, latest)
    ensures Holds(entries[key := e], remembered[key := e], latest)
  {
  }

  lemma HoldsDeleted<V(!new)>(entries: Store<V>, remembered: Store<V>, latest: Option<int>, key: string)
    requires Holds(entries, remembered, latest)
    ensures Holds(entries - {key}, remembered - {key}, latest) && |entries - {key}| <= |entries|
  {
    assert (entries - {key}).Keys == entries.Keys - {key};
  }

  lemma HoldsEvicted<V(!new)>(entries: Store<V>, remembered: Store<V>, now: int, key: string)
    requires Holds(entries, remembered, Some(now)) && key in entries && entries[key].expiresAt < now
    ensures Holds(entries - {key}, remembered, Some(now)) && |entries - {key}| <= |entries|
  {
    assert (entries - {key}).Keys == entries.Keys - {key};
  }

  lemma HeldAnswers<V(!new)>(entries: Store<V>, remembered: Store<V>, key: string, now: int)
    requires Holds(entries, remembered, Some(now))
    ensures Answer(remembered, key, now) == Answer(entries, key, now)
  {
  }

  class MemoryCache<V(!new)> {
    var entries: Store<V>
    var inserts: nat
    // everything ever stored and not deleted, the latest clock reading, and the
    // number of entries the last sweep left
    ghost var remembered: Store<V>
    ghost var latest: Option<int>
    ghost var survivors: nat

    /** Nothing that could still answer is missing, and the number of entries is
        bounded by the last sweep. */
    ghost predicate Valid()
      reads this
    {
      Holds(entries, remembered, latest) && inserts < PRUNE_EVERY && |entries| <= survivors + 1 + inserts
    }

    ghost predicate After(now: int)
      reads this
    {
      latest.Some? ==> latest.value <= now
    }

    constructor ()
      ensures Valid() && entries == map[] && remembered == map[] && latest == None
    {
      entries, inserts, remembered, latest, survivors := map[], 0, map[], None, 0;
    }

    /** An expired entry is dropped as it is found. */
    method Get(key: string, now: int) returns (r: Option<V>)
      requires Valid() && After(now)
      modifies this
      ensures Valid() && remembered == old(remembered) && latest == Some(now) && survivors == old(survivors)
      ensures r == Answer(remembered, key, now)
      ensures entries == if key in old(entries) && old(entries)[key].expiresAt < now then old(entries) - {key} else old(entries)
    {
      hide Holds;
      HoldsLater(entries, remembered, latest, now);
      latest := Some(now);
      HeldAnswers(entries, remembered, key, now);
      if key !in entries { return None; }
      var e := entries[key];
      if now > e.expiresAt {
        HoldsEvicted(entries, remembered, now, key);
        entries := entries - {key};
        return None;
      }
      r := Some(e.value);
    }

    /** Only a key that is not held counts as an insert. */
    method Set(key: string, value: V, ttl: int, sweepAt: int, now: int)
      requires Valid() && After(sweepAt) && sweepAt <= now
      modifies this
      ensures Valid() && latest == Some(now) && remembered == old(remembered)[key := Entry(value, now + ttl)]
      ensures |entries| <= survivors + 128
      ensures key in entries && entries[key] == Entry(value, now + ttl)
    {
      hide Holds;
      HoldsLater(entries, remembered, latest, sweepAt);
      latest := Some(sweepAt);
      if key !in entries {
        inserts := inserts + 1;
        if inserts >= PRUNE_EVERY {
          PruneLocked(sweepAt);
          inserts := 0;
        }
      }
      HoldsLater(entries, remembered, latest, now);
      HoldsSet(entries, remembered, Some(now), key, Entry(value, now + ttl));
      entries := entries[key := Entry(value, now + ttl)];
      remembered := remembered[key := Entry(value, now + ttl)];
      latest := Some(now);
    }

    method Delete(key: string, now: int)
      requires Valid() && After(now)
      modifies this
      ensures Valid() && latest == Some(now) && survivors == old(survivors)
      ensures remembered == old(remembered) - {key} && entries == old(entries) - {key}
    {
      hide Holds;
      HoldsLater(entries, remembered, latest, now);
      HoldsDeleted(entries, remembered, Some(now), key);
      entries := entries - {key};
      remembered := remembered - {key};
      latest := Some(now);
    }

    /** Removes exactly the entries that have expired. */
    method PruneLocked(now: int)
      requires Holds(entries, remembered, Some(now))
      modifies this`entries, this`survivors
      ensures entries == map k | k in old(entries) && now <= old(entries)[k].expiresAt :: old(entries)[k]
      ensures Holds(entries, remembered, Some(now)) && survivors == |entries|
    {
      var keys := entries.Keys;
      while keys != {}
        invariant keys <= old(entries).Keys
        invariant forall k :: k in entries <==> k in old(entries) && (k in keys || now <= old(entries)[k].expiresAt)
        invariant forall k :: k in entries ==> entries[k] == old(entries)[k]
        decreases keys
      {
        var k :| k in keys;
        keys := keys - {k};
        if now > entries[k].expiresAt { entries := entries - {k}; }
      }
      survivors := |entries|;
    }

    /** Any one call. */
    method Perform(call: Call<V>) returns (r: Option<V>)
      requires Valid() && After(StartOf(call)) && StartOf(call) <= call.now
      modifies this
      ensures Valid() && latest == Some(call.now) && remembered == Remembered(old(remembered), call)
      ensures r == if call.Get? then Answer(old(remembered), call.key, call.now) else None
      ensures |entries| <= survivors + 128
    {
      hide Holds;
      r := None;
      match call {
        case Get(key, now) => r := Get(key, now);
        case Set(key, value, ttl, sweepAt, now) => Set(key, value, ttl, sweepAt, now);
        case Delete(key, now) => Delete(key, now);
      }
    }
  }

  /** Every run of calls under a clock that does not go back answers as if nothing
      were ever evicted. */
  method Run<V(!new)>(calls: seq<Call<V>>) returns (answers: seq<Option<V>>)
    requires Clocked(calls)
    ensures answers == Answers(calls)
  {
    hide Remembered, Answer, MemoryCache.Valid;
    var cache := new MemoryCache<V>();
    answers := [];
    var i := 0;
    while i < |calls|
      invariant 0 <= i <= |calls| && fresh(cache) && cache.Valid()
      invariant cache.remembered == RememberedAll(calls[..i]) && answers == Answers(calls[..i])
      invariant cache.latest == if i == 0 then None else Some(calls[i - 1].now)
    {
      assert calls[..i + 1][..i] == calls[..i];
      var r := cache.Perform(calls[i]);
      answers := answers + [r];
      i := i + 1;
    }
    assert calls[..i] == calls;
  }

  // ---- what the answers mean -----------------------------------------------------------------

  /** The last call on a key before the end of a run, reads aside. */
  function LastWrite<V>(calls: seq<Call<V>>, key: string): Option<Call<V>> {
    if calls == [] then None
    else
      var last := calls[|calls| - 1];
      if !last.Get? && last.key == key then Some(last) else LastWrite(calls[..|calls| - 1], key)
  }

  /** A key answers with the value of its last Set, if no Delete came after and its
      time to live has not passed. */
  lemma {:induction false} AnswersLastSet<V>(calls: seq<Call<V>>, key: string, now: int)
    ensures var w := LastWrite(calls, key);
            Answer(RememberedAll(calls), key, now)
            == if w.Some? && w.value.Set? && now <= w.value.now + w.value.ttl then Some(w.value.value) else None
  {
    if calls != [] { AnswersLastSet(calls[..|calls| - 1], key, now); }
  }
}
