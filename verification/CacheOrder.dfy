/** In which order the read cache evicts. A hit moves its entry to the end, but refilling a key whose entry
    expired leaves the entry in its old place, so the entries are not always in the order of their last use. */
module CacheOrder {
  import opened Wrappers
  import opened CacheProtocol

  /** When each key was last used, by the number of the event: a hit, or the storing of an answer. */
  type Uses<!K> = map<K, nat>

  function LastUse<K>(used: Uses<K>, key: K): int { if key in used then used[key] else -1 }

  ghost predicate InUseOrder<K, V>(slots: seq<Slot<K, V>>, used: Uses<K>) {
    forall i, j :: 0 <= i < j < |slots| ==> LastUse(used, slots[i].key) < LastUse(used, slots[j].key)
  }

  predicate Writes<K, V>(s: State<K, V>, e: Event<K, V>) {
    e.ResolveEvent? && Current(s, e.id) && s.requests[e.id].started == s.epoch && e.cacheable
  }

  ghost function Used<K, V>(used: Uses<K>, s: State<K, V>, c: Config, e: Event<K, V>, t: nat): Uses<K> {
    if e.ReadEvent? && Read(s, c, e.key, e.refresh, e.now).1.Hit? then used[e.key := t]
    else if Writes(s, e) then used[s.requests[e.id].key := t]
    else used
  }

  /** The answer refills a key whose entry is there still, and is not the last one. */
  predicate KeepsOldPlace<K(==), V>(s: State<K, V>, e: Event<K, V>) {
    Writes(s, e) && Lookup(s.entries, s.requests[e.id].key).Some?
    && s.entries[|s.entries| - 1].key != s.requests[e.id].key
  }

  // ----- one operation of the map

  lemma {:induction false} DeleteKeepsOrder<K(!new), V(!new)>(slots: seq<Slot<K, V>>, key: K, used: Uses<K>)
    requires DistinctKeys(slots) && InUseOrder(slots, used)
    ensures InUseOrder(Delete(slots, key), used)
  {
    if slots != [] && slots[0].key != key {
      var rest, kept := slots[1..], Delete(slots[1..], key);
      DeleteKeepsOrder(rest, key, used);
      DeleteIs(rest, key);
      forall j | 0 <= j < |kept| ensures LastUse(used, slots[0].key) < LastUse(used, kept[j].key) {
        assert kept[j] in rest;
      }
    }
  }

  lemma {:induction false} TouchKeepsOrder<K, V>(slots: seq<Slot<K, V>>, x: Slot<K, V>, used: Uses<K>, t: nat)
    requires InUseOrder(slots, used) && forall i :: 0 <= i < |slots| ==> slots[i].key != x.key
    requires forall key :: key in used ==> used[key] < t
    ensures InUseOrder(slots + [x], used[x.key := t])
  {
  }

  lemma {:induction false} StoreKeepsKeys<K(!new), V(!new)>(slots: seq<Slot<K, V>>, key: K, entry: Entry<V>)
    requires Lookup(slots, key).Some?
    ensures |Store(slots, key, entry)| == |slots|
    ensures forall i :: 0 <= i < |slots| ==> Store(slots, key, entry)[i].key == slots[i].key
    ensures exists i :: 0 <= i < |slots| && slots[i].key == key
  {
    if slots[0].key != key {
      StoreKeepsKeys(slots[1..], key, entry);
      var i :| 0 <= i < |slots[1..]| && slots[1..][i].key == key;
      assert slots[i + 1].key == key;
    }
  }

  /** Storing keeps the order of last use exactly when the key is new or its entry is the last one. */
  lemma {:induction false} StoreOrderIs<K(!new), V(!new)>(slots: seq<Slot<K, V>>, key: K, entry: Entry<V>,
                                                          used: Uses<K>, t: nat)
    requires DistinctKeys(slots) && InUseOrder(slots, used) && forall k :: k in used ==> used[k] < t
    ensures InUseOrder(Store(slots, key, entry), used[key := t])
            <==> Lookup(slots, key).None? || slots[|slots| - 1].key == key
  {
    hide Store, Lookup, InUseOrder;
    LookupIs(slots, key);
    StoreIs(slots, key, entry);
    if Lookup(slots, key).None? {
      assert forall i :: 0 <= i < |slots| ==> slots[i].key != key;
      TouchKeepsOrder(slots, Slot(key, entry), used, t);
    } else {
      StoreKeepsKeys(slots, key, entry);
      RefillOrderIs(slots, Store(slots, key, entry), key, used, t);
    }
  }

  lemma {:induction false} RefillOrderIs<K(!new), V(!new)>(slots: seq<Slot<K, V>>, stored: seq<Slot<K, V>>, key: K,
                                                           used: Uses<K>, t: nat)
    requires DistinctKeys(slots) && InUseOrder(slots, used) && forall k :: k in used ==> used[k] < t
    requires |stored| == |slots| && forall i :: 0 <= i < |slots| ==> stored[i].key == slots[i].key
    requires exists i :: 0 <= i < |slots| && slots[i].key == key
    ensures InUseOrder(stored, used[key := t]) <==> slots[|slots| - 1].key == key
  {
    var p :| 0 <= p < |slots| && slots[p].key == key;
    if p < |slots| - 1 {
      assert stored[p].key == key && stored[|slots| - 1].key == slots[|slots| - 1].key != key;
      assert LastUse(used[key := t], stored[|slots| - 1].key) < t;
    } else {
      forall i, j | 0 <= i < j < |slots|
        ensures LastUse(used[key := t], stored[i].key) < LastUse(used[key := t], stored[j].key)
      {
        assert stored[i].key == slots[i].key != key && LastUse(used, slots[i].key) < LastUse(used, slots[j].key);
      }
    }
  }

  // ----- steps and runs

  ghost predicate Before<K>(used: Uses<K>, t: nat) { forall key :: key in used ==> used[key] < t }

  lemma {:induction false} ReadKeepsOrder<K(!new), V(!new)>(s: State<K, V>, c: Config, key: K, refresh: bool, now: int,
                                                            used: Uses<K>, t: nat)
    requires DistinctKeys(s.entries) && InUseOrder(s.entries, used) && Before(used, t)
    ensures var (s', o) := Read(s, c, key, refresh, now);
            InUseOrder(s'.entries, if o.Hit? then used[key := t] else used)
  {
    hide InUseOrder, DistinctKeys;
    var u := Refreshed(s, key, refresh);
    DeleteIs(s.entries, key);
    DeleteKeepsOrder(s.entries, key, used);
    var entry := Lookup(u.entries, key);
    if entry.Some? && Fresh(entry.value, now, c) {
      DeleteIs(u.entries, key);
      DeleteKeepsOrder(u.entries, key, used);
      var rest := Delete(u.entries, key);
      assert forall i :: 0 <= i < |rest| ==> rest[i] in rest;
      TouchKeepsOrder(rest, Slot(key, entry.value), used, t);
    }
  }

  lemma {:induction false} ResolveOrderIs<K(!new), V(!new)>(s: State<K, V>, c: Config, e: Event<K, V>, used: Uses<K>,
                                                            t: nat)
    requires Inv(s, c) && InUseOrder(s.entries, used) && Before(used, t) && Writes(s, e)
    ensures InUseOrder(Resolve(s, c, e.id, e.value, e.time, e.cacheable).entries, used[s.requests[e.id].key := t])
            <==> !KeepsOldPlace(s, e)
  {
    hide InUseOrder, DistinctKeys, Store, Lookup, Evict;
    var key, entry := s.requests[e.id].key, Entry(e.value, e.time, e.id);
    var stored := Store(s.entries, key, entry);
    StoreOrderIs(s.entries, key, entry, used, t);
    StoreIs(s.entries, key, entry);
    EvictIs(stored, c.maxEntries);
    if Lookup(s.entries, key).None? {
      SuffixKeepsOrder(stored, used[key := t], if |stored| > c.maxEntries then |stored| - c.maxEntries else 0);
    }
  }

  lemma {:induction false} SuffixKeepsOrder<K, V>(slots: seq<Slot<K, V>>, used: Uses<K>, n: nat)
    requires InUseOrder(slots, used) && n <= |slots|
    ensures InUseOrder(slots[n..], used)
  {
  }

  /** From entries in the order of their last use, exactly a refill in an old place leaves that order. */
  lemma {:induction false} StepKeepsUseOrder<K(!new), V(!new)>(s: State<K, V>, c: Config, e: Event<K, V>, used: Uses<K>,
                                                               t: nat)
    requires Inv(s, c) && Enabled(s, e) && InUseOrder(s.entries, used) && Before(used, t)
    ensures Before(Used(used, s, c, e, t), t + 1)
    ensures InUseOrder(Next(s, c, e).entries, Used(used, s, c, e, t)) <==> !KeepsOldPlace(s, e)
  {
    hide InUseOrder, DistinctKeys, Lookup, Store, Delete, Evict;
    match e
    case ReadEvent(key, refresh, now) => ReadKeepsOrder(s, c, key, refresh, now, used, t);
    case ResolveEvent(id, value, time, cacheable) =>
      if Writes(s, e) {
        ResolveOrderIs(s, c, e, used, t);
      }
    case ClearEvent => NothingIsInOrder<K, V>(used);
    case RejectEvent(id, authentication) => NothingIsInOrder<K, V>(used);
    case FinishEvent(id) =>
  }

  lemma {:induction false} NothingIsInOrder<K(!new), V(!new)>(used: Uses<K>)
    ensures InUseOrder<K, V>([], used)
  {
  }

  ghost function UsesOf<K, V>(states: seq<State<K, V>>, events: seq<Event<K, V>>, c: Config, n: nat): Uses<K>
    requires n <= |events| && |states| == |events| + 1
  {
    if n == 0 then map[] else Used(UsesOf(states, events, c, n - 1), states[n - 1], c, events[n - 1], n - 1)
  }

  lemma {:induction false} UsesAreBefore<K(!new), V(!new)>(states: seq<State<K, V>>, events: seq<Event<K, V>>,
                                                           c: Config, n: nat)
    requires n <= |events| && |states| == |events| + 1
    ensures Before(UsesOf(states, events, c, n), n)
  {
    if n > 0 {
      UsesAreBefore(states, events, c, n - 1);
    }
  }

  /** In every run the entries are in the order of their last use, up to any point, exactly when no refill up
      to that point has kept an old place. */
  lemma {:induction false} RunKeepsUseOrder<K(!new), V(!new)>(states: seq<State<K, V>>, events: seq<Event<K, V>>,
                                                              c: Config, n: nat)
    requires IsRun(states, events, c) && n <= |events|
    ensures (forall m :: 0 <= m <= n ==> InUseOrder(states[m].entries, UsesOf(states, events, c, m)))
            <==> (forall m :: 0 <= m < n ==> !KeepsOldPlace(states[m], events[m]))
  {
    hide InUseOrder, KeepsOldPlace, Used, Next, Enabled;
    if n == 0 {
      NothingIsInOrder<K, V>(map[]);
    } else {
      RunKeepsUseOrder(states, events, c, n - 1);
      if InUseOrder(states[n - 1].entries, UsesOf(states, events, c, n - 1)) {
        RunKeepsInv(states, events, c, n - 1);
        UsesAreBefore(states, events, c, n - 1);
        assert Enabled(states[n - 1], events[n - 1]) && states[n - 1 + 1] == Next(states[n - 1], c, events[n - 1]);
        StepKeepsUseOrder(states[n - 1], c, events[n - 1], UsesOf(states, events, c, n - 1), n - 1);
      }
    }
  }

  // ----- what the order is for

  /** Every entry that is gone was used before every entry that is kept. */
  ghost predicate DropsLeastUsed<K, V>(slots: seq<Slot<K, V>>, kept: seq<Slot<K, V>>, used: Uses<K>) {
    forall x, y :: x in slots && x !in kept && y in slots && y in kept ==> LastUse(used, x.key) < LastUse(used, y.key)
  }

  /** New keys are stored one after the other. */
  function StoreAll<K(==), V>(slots: seq<Slot<K, V>>, more: seq<Slot<K, V>>, maxEntries: nat): seq<Slot<K, V>> {
    if more == [] then slots
    else Evict(Store(StoreAll(slots, more[..|more| - 1], maxEntries), more[|more| - 1].key, more[|more| - 1].entry),
               maxEntries)
  }

  function LastOf<T>(s: seq<T>, n: nat): seq<T> { if |s| > n then s[|s| - n..] else s }

  lemma {:induction false} LastOfSnoc<T>(s: seq<T>, x: T, n: nat)
    ensures var t := LastOf(s, n) + [x];
            LastOf(s + [x], n) == if |t| > n then t[|t| - n..] else t
    ensures forall y :: y in LastOf(s, n) ==> y in s
  {
  }

  lemma {:induction false} StoreAllIs<K(!new), V(!new)>(slots: seq<Slot<K, V>>, more: seq<Slot<K, V>>, maxEntries: nat)
    requires DistinctKeys(slots + more) && |slots| <= maxEntries
    ensures StoreAll(slots, more, maxEntries) == LastOf(slots + more, maxEntries)
    decreases |more|
  {
    hide DistinctKeys, Store, Evict;
    if more == [] {
      assert slots + more == slots;
    } else {
      hide LastOf;
      var init, x := more[..|more| - 1], more[|more| - 1];
      assert slots + more == slots + init + [x];
      PrefixIsDistinct(slots + init, x, slots + more);
      StoreAllIs(slots, init, maxEntries);
      LastOfSnoc(slots + init, x, maxEntries);
      var before := LastOf(slots + init, maxEntries);
      assert forall i :: 0 <= i < |before| ==> before[i] in before;
      StoreNew(before, x);
      EvictIs(before + [x], maxEntries);
    }
  }

  lemma {:induction false} PrefixIsDistinct<K(!new), V(!new)>(init: seq<Slot<K, V>>, x: Slot<K, V>,
                                                              all: seq<Slot<K, V>>)
    requires all == init + [x] && DistinctKeys(all)
    ensures DistinctKeys(init) && forall y :: y in init ==> y.key != x.key
  {
    assert all[|init|] == x;
    assert forall i :: 0 <= i < |init| ==> all[i] == init[i];
  }

  lemma {:induction false} StoreNew<K(!new), V(!new)>(slots: seq<Slot<K, V>>, x: Slot<K, V>)
    requires forall i :: 0 <= i < |slots| ==> slots[i].key != x.key
    ensures Store(slots, x.key, x.entry) == slots + [x]
  {
    if slots != [] {
      StoreNew(slots[1..], x);
    }
  }

  /** What is left of the old entries after `|more|` new keys. */
  lemma {:induction false} KeptAre<K(!new), V(!new)>(slots: seq<Slot<K, V>>, more: seq<Slot<K, V>>, maxEntries: nat,
                                                     m: nat)
    requires DistinctKeys(slots + more) && |slots| <= maxEntries && |more| <= maxEntries
    requires m == if |slots| + |more| > maxEntries then |slots| + |more| - maxEntries else 0
    ensures m <= |slots|
    ensures forall i :: 0 <= i < |slots| ==> (slots[i] in StoreAll(slots, more, maxEntries) <==> m <= i)
  {
    hide DistinctKeys;
    var kept := StoreAll(slots, more, maxEntries);
    StoreAllIs(slots, more, maxEntries);
    assert slots + more == slots[..m] + (slots[m..] + more);
    assert kept == slots[m..] + more;
    forall i | 0 <= i < |slots| ensures slots[i] in kept <==> m <= i {
      if m <= i {
        assert kept[i - m] == slots[i];
      } else {
        OldIsGone(slots, more, m, i);
      }
    }
  }

  lemma {:induction false} OldIsGone<K(!new), V(!new)>(slots: seq<Slot<K, V>>, more: seq<Slot<K, V>>, m: nat, i: nat)
    requires DistinctKeys(slots + more) && i < m <= |slots|
    ensures slots[i] !in slots[m..] + more
  {
    var all := slots + more;
    assert all == slots[..m] + (slots[m..] + more);
    forall j | 0 <= j < |slots[m..] + more| ensures (slots[m..] + more)[j] != slots[i] {
      assert (slots[m..] + more)[j] == all[m + j] && all[i] == slots[i];
    }
  }

  /** Whatever number of new keys is stored next, only the least recently used entries go, exactly when the
      entries are in the order of their last use. */
  lemma {:induction false} EvictionIsByUse<K(!new), V(!new)>(slots: seq<Slot<K, V>>, newcomers: seq<Slot<K, V>>,
                                                             maxEntries: nat, used: Uses<K>)
    requires DistinctKeys(slots + newcomers) && |slots| <= maxEntries == |newcomers|
    ensures (forall n :: 0 <= n <= |newcomers|
                         ==> DropsLeastUsed(slots, StoreAll(slots, newcomers[..n], maxEntries), used))
            <==> InUseOrder(slots, used)
  {
    hide StoreAll, DistinctKeys, LastUse;
    if InUseOrder(slots, used) {
      forall n | 0 <= n <= |newcomers|
        ensures DropsLeastUsed(slots, StoreAll(slots, newcomers[..n], maxEntries), used)
      {
        FirstOnes(slots, newcomers, n);
        var m := if |slots| + n > maxEntries then |slots| + n - maxEntries else 0;
        KeptAre(slots, newcomers[..n], maxEntries, m);
      }
    }
    if forall n :: 0 <= n <= |newcomers| ==> DropsLeastUsed(slots, StoreAll(slots, newcomers[..n], maxEntries), used) {
      forall i, j | 0 <= i < j < |slots| ensures LastUse(used, slots[i].key) < LastUse(used, slots[j].key) {
        var n := maxEntries - |slots| + i + 1;
        FirstOnes(slots, newcomers, n);
        KeptAre(slots, newcomers[..n], maxEntries, i + 1);
        assert DropsLeastUsed(slots, StoreAll(slots, newcomers[..n], maxEntries), used);
      }
    }
  }

  lemma {:induction false} FirstOnes<K(!new), V(!new)>(slots: seq<Slot<K, V>>, newcomers: seq<Slot<K, V>>, n: nat)
    requires DistinctKeys(slots + newcomers) && n <= |newcomers|
    ensures DistinctKeys(slots + newcomers[..n])
  {
    var part, all := slots + newcomers[..n], slots + newcomers;
    assert forall i :: 0 <= i < |part| ==> part[i] == all[i];
  }

  // ----- a run that evicts the entry used last

  ghost predicate IsRunTo<K, V>(states: seq<State<K, V>>, events: seq<Event<K, V>>, c: Config, s: State<K, V>,
                                used: Uses<K>) {
    IsRun(states, events, c) && states[|events|] == s && UsesOf(states, events, c, |events|) == used
  }

  lemma {:induction false} SamePast<K(!new), V(!new)>(states: seq<State<K, V>>, events: seq<Event<K, V>>, c: Config,
                                                      s: State<K, V>, e: Event<K, V>, n: nat)
    requires n <= |events| && |states| == |events| + 1
    ensures UsesOf(states + [s], events + [e], c, n) == UsesOf(states, events, c, n)
  {
    if n > 0 {
      SamePast(states, events, c, s, e, n - 1);
    }
  }

  lemma {:induction false} Extended<K(!new), V(!new)>(states: seq<State<K, V>>, events: seq<Event<K, V>>, c: Config,
                                                      s: State<K, V>, used: Uses<K>, e: Event<K, V>)
    returns (states': seq<State<K, V>>, events': seq<Event<K, V>>)
    requires IsRunTo(states, events, c, s, used) && Enabled(s, e)
    ensures IsRunTo(states', events', c, Next(s, c, e), Used(used, s, c, e, |events|))
    ensures states' == states + [Next(s, c, e)] && events' == events + [e]
  {
    hide Next, Enabled, Used;
    states', events' := states + [Next(s, c, e)], events + [e];
    forall i | 0 <= i < |events'|
      ensures Enabled(states'[i], events'[i]) && states'[i + 1] == Next(states'[i], c, events'[i])
    {
      if i < |events| {
        assert states'[i] == states[i] && states'[i + 1] == states[i + 1] && events'[i] == events[i];
      }
    }
    SamePast(states, events, c, Next(s, c, e), e, |events|);
  }

  const SHORT := Config(Some(10), 2)

  type Sample = State<nat, int>

  /** Key 0 and key 1 are stored, and key 0 is asked for again once its entry expired. */
  function Asked(): Sample {
    State([Slot(0, Entry(100, 0, 0)), Slot(1, Entry(200, 5, 1))], map[1 := 1, 0 := 2], 0,
          [Request(0, 0, Resolved(100), true), Request(1, 0, Resolved(200), false), Request(0, 0, Awaited, false)])
  }

  /** Key 0 is refilled in its old place, before key 1. */
  function Refilled(): Sample {
    State([Slot(0, Entry(300, 20, 2)), Slot(1, Entry(200, 5, 1))], map[1 := 1, 0 := 2], 0,
          [Request(0, 0, Resolved(100), true), Request(1, 0, Resolved(200), false),
           Request(0, 0, Resolved(300), false)])
  }

  lemma {:induction false} AskedIsReached() returns (states: seq<Sample>, events: seq<Event<nat, int>>)
    ensures IsRunTo(states, events, SHORT, Asked(), map[0 := 1, 1 := 4]) && |events| == 6
  {
    var s0: Sample := Initial();
    var s1: Sample := State([], map[0 := 0], 0, [Request(0, 0, Awaited, false)]);
    var s2: Sample := State([Slot(0, Entry(100, 0, 0))], map[0 := 0], 0, [Request(0, 0, Resolved(100), false)]);
    var s3: Sample := State([Slot(0, Entry(100, 0, 0))], map[], 0, [Request(0, 0, Resolved(100), true)]);
    var s4: Sample := State([Slot(0, Entry(100, 0, 0))], map[1 := 1], 0,
                            [Request(0, 0, Resolved(100), true), Request(1, 0, Awaited, false)]);
    var s5: Sample := State([Slot(0, Entry(100, 0, 0)), Slot(1, Entry(200, 5, 1))], map[1 := 1], 0,
                            [Request(0, 0, Resolved(100), true), Request(1, 0, Resolved(200), false)]);
    assert Next(s0, SHORT, ReadEvent(0, false, 0)) == s1;
    assert Next(s1, SHORT, ResolveEvent(0, 100, 0, true)) == s2;
    assert Next(s2, SHORT, FinishEvent(0)) == s3;
    assert Next(s3, SHORT, ReadEvent(1, false, 5)) == s4;
    assert Next(s4, SHORT, ResolveEvent(1, 200, 5, true)) == s5;
    assert Next(s5, SHORT, ReadEvent(0, false, 20)) == Asked();
    states, events := [s0], [];
    states, events := Extended(states, events, SHORT, s0, map[], ReadEvent(0, false, 0));
    states, events := Extended(states, events, SHORT, s1, map[], ResolveEvent(0, 100, 0, true));
    states, events := Extended(states, events, SHORT, s2, map[0 := 1], FinishEvent(0));
    states, events := Extended(states, events, SHORT, s3, map[0 := 1], ReadEvent(1, false, 5));
    states, events := Extended(states, events, SHORT, s4, map[0 := 1], ResolveEvent(1, 200, 5, true));
    states, events := Extended(states, events, SHORT, s5, map[0 := 1, 1 := 4], ReadEvent(0, false, 20));
  }

  /** A new key is asked for. */
  function WithThird(answer: Answer<int>): Sample {
    State(Refilled().entries, map[1 := 1, 0 := 2, 2 := 3], 0, Refilled().requests + [Request(2, 0, answer, false)])
  }

  lemma {:induction false} AnswerEvicts()
    ensures Next(WithThird(Awaited), SHORT, ResolveEvent(3, 400, 21, true))
            == WithThird(Resolved(400)).(entries := [Slot(1, Entry(200, 5, 1)), Slot(2, Entry(400, 21, 3))])
  {
    var s := WithThird(Awaited);
    var stored := Store(s.entries, 2, Entry(400, 21, 3));
    assert stored == s.entries + [Slot(2, Entry(400, 21, 3))];
    EvictIs(stored, 2);
  }

  /** A run of a cache for two entries in which the entry that was used last is the one that goes: key 0 is
      refilled after its entry expired, and the next new key evicts it, while the older key 1 stays. */
  lemma {:induction false} LastUsedIsEvicted() returns (states: seq<Sample>, events: seq<Event<nat, int>>)
    ensures |events| == 9 && IsRun(states, events, SHORT) && KeepsOldPlace(states[6], events[6])
    ensures var before, after, used := states[8].entries, states[9].entries, UsesOf(states, events, SHORT, 8);
            && Lookup(before, 0).Some? && Lookup(before, 1).Some? && LastUse(used, 0) > LastUse(used, 1)
            && Lookup(after, 0).None? && Lookup(after, 1).Some?
  {
    var e6: Event<nat, int>, e7: Event<nat, int>, e8: Event<nat, int> :=
      ResolveEvent(2, 300, 20, true), ReadEvent(2, false, 21), ResolveEvent(3, 400, 21, true);
    var s8, s9 := WithThird(Awaited),
        WithThird(Resolved(400)).(entries := [Slot(1, Entry(200, 5, 1)), Slot(2, Entry(400, 21, 3))]);
    assert Next(Asked(), SHORT, e6) == Refilled() && KeepsOldPlace(Asked(), e6);
    assert Next(Refilled(), SHORT, e7) == s8;
    AnswerEvicts();
    states, events := AskedIsReached();
    states, events := Extended(states, events, SHORT, Asked(), map[0 := 1, 1 := 4], e6);
    states, events := Extended(states, events, SHORT, Refilled(), map[0 := 6, 1 := 4], e7);
    SamePast(states, events, SHORT, s9, e8, 8);
    states, events := Extended(states, events, SHORT, s8, map[0 := 6, 1 := 4], e8);
  }
}
