/** The shared read cache: entries with a time to live, requests shared while in flight, and barriers
    that no older result may cross. The state machine has one step for every piece of the program that
    runs without interruption; between two steps any other step may run. */
module CacheProtocol {
  import opened Wrappers

  /** A cached value, and the request whose loader produced it. */
  datatype Entry<V> = Entry(value: V, readAt: int, origin: nat)

  /** One slot of the insertion-ordered map of entries. */
  datatype Slot<K, V> = Slot(key: K, entry: Entry<V>)

  datatype Answer<V> = Awaited | Resolved(value: V) | Rejected

  /** A request is known by its number; `started` is the epoch in which it was made. */
  datatype Request<K, V> = Request(key: K, started: nat, answer: Answer<V>, finished: bool)

  datatype State<K, V> = State(
    entries: seq<Slot<K, V>>,
    pending: map<K, nat>,
    epoch: nat,
    requests: seq<Request<K, V>>)

  /** `ttl` is `None` when entries never expire. */
  datatype Config = Config(ttl: Option<int>, maxEntries: nat)

  // ----- the insertion-ordered map

  function Lookup<K(==), V>(slots: seq<Slot<K, V>>, key: K): Option<Entry<V>> {
    if slots == [] then None
    else if slots[0].key == key then Some(slots[0].entry)
    else Lookup(slots[1..], key)
  }

  function Delete<K(==), V>(slots: seq<Slot<K, V>>, key: K): seq<Slot<K, V>> {
    if slots == [] then []
    else if slots[0].key == key then slots[1..]
    else [slots[0]] + Delete(slots[1..], key)
  }

  /** A key that is present keeps its place. */
  function Store<K(==), V>(slots: seq<Slot<K, V>>, key: K, entry: Entry<V>): seq<Slot<K, V>> {
    if slots == [] then [Slot(key, entry)]
    else if slots[0].key == key then [Slot(key, entry)] + slots[1..]
    else [slots[0]] + Store(slots[1..], key, entry)
  }

  /** The oldest slots go until the limit is met. */
  function Evict<K, V>(slots: seq<Slot<K, V>>, maxEntries: nat): seq<Slot<K, V>> {
    if |slots| > maxEntries then Evict(slots[1..], maxEntries) else slots
  }

  ghost predicate DistinctKeys<K, V>(slots: seq<Slot<K, V>>) {
    forall i, j :: 0 <= i < j < |slots| ==> slots[i].key != slots[j].key
  }

  // ----- the steps

  predicate Fresh<V>(e: Entry<V>, now: int, c: Config) {
    c.ttl.None? || now - e.readAt < c.ttl.value
  }

  predicate Current<K, V>(s: State<K, V>, id: nat) {
    id < |s.requests| && s.requests[id].key in s.pending && s.pending[s.requests[id].key] == id
  }

  datatype Outcome<V> = Hit(entry: Entry<V>) | Join(id: nat) | Start(id: nat)

  function Forget<K, V>(s: State<K, V>): State<K, V> {
    s.(epoch := s.epoch + 1, entries := [], pending := map[])
  }

  function Refreshed<K(==), V>(s: State<K, V>, key: K, refresh: bool): State<K, V> {
    if refresh then s.(entries := Delete(s.entries, key), pending := s.pending - {key}) else s
  }

  function Read<K(==), V>(s: State<K, V>, c: Config, key: K, refresh: bool, now: int): (State<K, V>, Outcome<V>) {
    var t := Refreshed(s, key, refresh);
    var entry := Lookup(t.entries, key);
    if entry.Some? && Fresh(entry.value, now, c) then
      (t.(entries := Delete(t.entries, key) + [Slot(key, entry.value)]), Hit(entry.value))
    else if key in t.pending then (t, Join(t.pending[key]))
    else
      (t.(requests := t.requests + [Request(key, t.epoch, Awaited, false)], pending := t.pending[key := |t.requests|]),
       Start(|t.requests|))
  }

  function Resolve<K(==), V>(s: State<K, V>, c: Config, id: nat, value: V, now: int, cacheable: bool): State<K, V>
    requires id < |s.requests|
  {
    var r := s.requests[id];
    var t := s.(requests := s.requests[id := r.(answer := Resolved(value))]);
    if r.started == s.epoch && Current(s, id) && cacheable then
      t.(entries := Evict(Store(t.entries, r.key, Entry(value, now, id)), c.maxEntries))
    else t
  }

  /** An authentication failure of any request forgets everything. */
  function Reject<K, V>(s: State<K, V>, id: nat, authentication: bool): State<K, V>
    requires id < |s.requests|
  {
    var t := s.(requests := s.requests[id := s.requests[id].(answer := Rejected)]);
    if authentication then Forget(t) else t
  }

  function Finish<K(==), V>(s: State<K, V>, id: nat): State<K, V>
    requires id < |s.requests|
  {
    var t := s.(requests := s.requests[id := s.requests[id].(finished := true)]);
    if Current(s, id) then t.(pending := s.pending - {s.requests[id].key}) else t
  }

  datatype Event<K, V> =
    | ClearEvent
    | ReadEvent(key: K, refresh: bool, now: int)
    | ResolveEvent(id: nat, value: V, time: int, cacheable: bool)
    | RejectEvent(id: nat, authentication: bool)
    | FinishEvent(id: nat)

  /** A request is answered once, and finishes once after its answer. */
  ghost predicate Enabled<K, V>(s: State<K, V>, e: Event<K, V>) {
    match e
    case ClearEvent => true
    case ReadEvent(_, _, _) => true
    case ResolveEvent(id, _, _, _) => id < |s.requests| && s.requests[id].answer.Awaited?
    case RejectEvent(id, _) => id < |s.requests| && s.requests[id].answer.Awaited?
    case FinishEvent(id) => id < |s.requests| && !s.requests[id].answer.Awaited? && !s.requests[id].finished
  }

  ghost function Next<K, V>(s: State<K, V>, c: Config, e: Event<K, V>): State<K, V>
    requires Enabled(s, e)
  {
    match e
    case ClearEvent => Forget(s)
    case ReadEvent(key, refresh, now) => Read(s, c, key, refresh, now).0
    case ResolveEvent(id, value, time, cacheable) => Resolve(s, c, id, value, time, cacheable)
    case RejectEvent(id, authentication) => Reject(s, id, authentication)
    case FinishEvent(id) => Finish(s, id)
  }

  ghost function Initial<K, V>(): State<K, V> { State([], map[], 0, []) }

  ghost predicate IsRun<K, V>(states: seq<State<K, V>>, events: seq<Event<K, V>>, c: Config) {
    && |states| == |events| + 1 && states[0] == Initial()
    && forall i :: 0 <= i < |events| ==> Enabled(states[i], events[i]) && states[i + 1] == Next(states[i], c, events[i])
  }

  // ----- facts about the map

  lemma {:induction false} LookupIs<K(!new), V(!new)>(slots: seq<Slot<K, V>>, key: K)
    requires DistinctKeys(slots)
    ensures forall i :: 0 <= i < |slots| && slots[i].key == key ==> Lookup(slots, key) == Some(slots[i].entry)
    ensures Lookup(slots, key).Some? ==> Slot(key, Lookup(slots, key).value) in slots
  {
    if slots != [] && slots[0].key != key {
      LookupIs(slots[1..], key);
    }
  }

  lemma {:induction false} DistinctWith<K(!new), V(!new)>(x: Slot<K, V>, slots: seq<Slot<K, V>>)
    requires DistinctKeys(slots) && forall y :: y in slots ==> y.key != x.key
    ensures DistinctKeys([x] + slots) && DistinctKeys(slots + [x])
  {
    assert forall i :: 0 <= i < |slots| ==> slots[i] in slots;
  }

  lemma {:induction false} DeleteIs<K(!new), V(!new)>(slots: seq<Slot<K, V>>, key: K)
    requires DistinctKeys(slots)
    ensures DistinctKeys(Delete(slots, key))
    ensures forall x :: x in Delete(slots, key) <==> x in slots && x.key != key
    ensures |Delete(slots, key)| <= |slots| && (Lookup(slots, key).Some? ==> |Delete(slots, key)| == |slots| - 1)
  {
    if slots != [] {
      assert slots == [slots[0]] + slots[1..];
      assert forall x :: x in slots[1..] ==> x.key != slots[0].key;
      if slots[0].key != key {
        DeleteIs(slots[1..], key);
        DistinctWith(slots[0], Delete(slots[1..], key));
      }
    }
  }

  lemma {:induction false} StoreIs<K(!new), V(!new)>(slots: seq<Slot<K, V>>, key: K, entry: Entry<V>)
    requires DistinctKeys(slots)
    ensures DistinctKeys(Store(slots, key, entry))
    ensures forall x :: x in Store(slots, key, entry) <==> (x in slots && x.key != key) || x == Slot(key, entry)
    ensures |Store(slots, key, entry)| == |slots| + if Lookup(slots, key).Some? then 0 else 1
    ensures Lookup(slots, key).None? ==> Store(slots, key, entry) == slots + [Slot(key, entry)]
  {
    if slots != [] {
      assert slots == [slots[0]] + slots[1..];
      assert forall x :: x in slots[1..] ==> x.key != slots[0].key;
      if slots[0].key == key {
        DistinctWith(Slot(key, entry), slots[1..]);
      } else {
        StoreIs(slots[1..], key, entry);
        DistinctWith(slots[0], Store(slots[1..], key, entry));
      }
    }
  }

  lemma {:induction false} EvictIs<K(!new), V(!new)>(slots: seq<Slot<K, V>>, maxEntries: nat)
    ensures Evict(slots, maxEntries) == if |slots| > maxEntries then slots[|slots| - maxEntries..] else slots
  {
    if |slots| > maxEntries {
      EvictIs(slots[1..], maxEntries);
    }
  }

  /** What a store followed by its eviction pass leaves. */
  lemma {:induction false} WriteIs<K(!new), V(!new)>(slots: seq<Slot<K, V>>, key: K, entry: Entry<V>, maxEntries: nat)
    requires DistinctKeys(slots)
    ensures var kept := Evict(Store(slots, key, entry), maxEntries);
            && DistinctKeys(kept) && |kept| <= maxEntries
            && (forall x :: x in kept ==> (x in slots && x.key != key) || x == Slot(key, entry))
  {
    StoreIs(slots, key, entry);
    EvictIs(Store(slots, key, entry), maxEntries);
  }

  /** What a read leaves: nothing new, and nothing of a refreshed key. */
  lemma {:induction false} ReadIs<K(!new), V(!new)>(s: State<K, V>, c: Config, key: K, refresh: bool, now: int)
    requires DistinctKeys(s.entries)
    ensures var (t, o) := Read(s, c, key, refresh, now);
            && DistinctKeys(t.entries) && |t.entries| <= |s.entries|
            && (forall x :: x in t.entries ==> x in s.entries && (x.key == key ==> !refresh))
            && (o.Hit? ==> Slot(key, o.entry) in s.entries)
            && (refresh ==> o.Start?)
  {
    var t := Refreshed(s, key, refresh);
    DeleteIs(s.entries, key);
    assert DistinctKeys(t.entries);
    LookupIs(t.entries, key);
    DeleteIs(t.entries, key);
    var entry := Lookup(t.entries, key);
    if entry.Some? {
      DistinctWith(Slot(key, entry.value), Delete(t.entries, key));
    }
  }

  // ----- the invariant

  ghost predicate GoodEntry<K, V>(s: State<K, V>, x: Slot<K, V>) {
    && x.entry.origin < |s.requests|
    && s.requests[x.entry.origin].key == x.key
    && s.requests[x.entry.origin].started == s.epoch
    && s.requests[x.entry.origin].answer == Resolved(x.entry.value)
  }

  ghost predicate GoodPending<K, V>(s: State<K, V>, key: K)
    requires key in s.pending
  {
    && s.pending[key] < |s.requests|
    && s.requests[s.pending[key]].key == key
    && s.requests[s.pending[key]].started == s.epoch
    && !s.requests[s.pending[key]].finished
  }

  /** Every entry holds what the loader of a request for its key in this epoch returned; every pending
      request carries the current epoch; no key is stored twice and the limit is met. */
  ghost predicate Inv<K(!new), V(!new)>(s: State<K, V>, c: Config) {
    && DistinctKeys(s.entries) && |s.entries| <= c.maxEntries
    && (forall x :: x in s.entries ==> GoodEntry(s, x))
    && (forall key :: key in s.pending ==> GoodPending(s, key))
  }

  lemma {:induction false} ReadKeepsInv<K(!new), V(!new)>(s: State<K, V>, c: Config, key: K, refresh: bool, now: int)
    requires Inv(s, c)
    ensures Inv(Read(s, c, key, refresh, now).0, c)
  {
    hide DistinctKeys, Delete, Lookup;
    ReadIs(s, c, key, refresh, now);
  }

  lemma {:induction false} ResolveKeepsInv<K(!new), V(!new)>(s: State<K, V>, c: Config, id: nat, value: V, now: int,
                                                             cacheable: bool)
    requires Inv(s, c) && id < |s.requests| && s.requests[id].answer.Awaited?
    ensures Inv(Resolve(s, c, id, value, now, cacheable), c)
  {
    hide DistinctKeys, Store, Evict;
    WriteIs(s.entries, s.requests[id].key, Entry(value, now, id), c.maxEntries);
  }

  lemma {:induction false} StepKeepsInv<K(!new), V(!new)>(s: State<K, V>, c: Config, e: Event<K, V>)
    requires Inv(s, c) && Enabled(s, e)
    ensures Inv(Next(s, c, e), c)
  {
    match e
    case ClearEvent =>
    case ReadEvent(key, refresh, now) => ReadKeepsInv(s, c, key, refresh, now);
    case ResolveEvent(id, value, time, cacheable) => ResolveKeepsInv(s, c, id, value, time, cacheable);
    case RejectEvent(id, authentication) =>
    case FinishEvent(id) =>
  }

  lemma {:induction false} RunKeepsInv<K(!new), V(!new)>(states: seq<State<K, V>>, events: seq<Event<K, V>>, c: Config,
                                                         n: nat)
    requires IsRun(states, events, c) && n <= |events|
    ensures Inv(states[n], c)
  {
    if n > 0 {
      RunKeepsInv(states, events, c, n - 1);
      StepKeepsInv(states[n - 1], c, events[n - 1]);
      assert states[n - 1 + 1] == Next(states[n - 1], c, events[n - 1]);
    }
  }

  /** The epoch test before a write is implied by the test that the request is still the pending one. */
  lemma {:induction false} CurrentHasEpoch<K(!new), V(!new)>(s: State<K, V>, c: Config, id: nat)
    requires Inv(s, c) && Current(s, id)
    ensures s.requests[id].started == s.epoch && !s.requests[id].finished
  {
    assert GoodPending(s, s.requests[id].key);
  }

  /** With room for at least one entry, a value that is stored survives its own eviction pass. */
  lemma {:induction false} StoredSurvives<K(!new), V(!new)>(s: State<K, V>, c: Config, id: nat, value: V, now: int)
    requires Inv(s, c) && Current(s, id) && s.requests[id].answer.Awaited? && c.maxEntries >= 1
    ensures Lookup(Resolve(s, c, id, value, now, true).entries, s.requests[id].key) == Some(Entry(value, now, id))
  {
    var key := s.requests[id].key;
    var entry := Entry(value, now, id);
    var stored := Store(s.entries, key, entry);
    CurrentHasEpoch(s, c, id);
    StoreIs(s.entries, key, entry);
    EvictIs(stored, c.maxEntries);
    var kept := Evict(stored, c.maxEntries);
    assert Slot(key, entry) in kept by {
      if Lookup(s.entries, key).None? {
        assert kept[|kept| - 1] == Slot(key, entry);
      } else {
        assert kept == stored;
      }
    }
    ResolveKeepsInv(s, c, id, value, now, true);
    LookupIs(kept, key);
  }

  // ----- barriers

  /** Everything the cache can still give a reader of the key comes from request `n` or a later one. */
  ghost predicate Behind<K, V>(s: State<K, V>, key: K, n: nat) {
    && n <= |s.requests|
    && (forall x :: x in s.entries && x.key == key ==> x.entry.origin >= n)
    && (key in s.pending ==> s.pending[key] >= n)
  }

  ghost predicate IsBarrier<K, V>(e: Event<K, V>, key: K) {
    e == ClearEvent || (e.RejectEvent? && e.authentication) || (e.ReadEvent? && e.key == key && e.refresh)
  }

  lemma {:induction false} BarrierHolds<K(!new), V(!new)>(s: State<K, V>, c: Config, e: Event<K, V>, key: K)
    requires Inv(s, c) && Enabled(s, e) && IsBarrier(e, key)
    ensures Behind(Next(s, c, e), key, |s.requests|)
  {
    hide DistinctKeys, Delete, Lookup;
    if e.ReadEvent? {
      ReadIs(s, c, key, true, e.now);
    }
  }

  lemma {:induction false} BarrierStays<K(!new), V(!new)>(s: State<K, V>, c: Config, e: Event<K, V>, key: K, n: nat)
    requires Inv(s, c) && Enabled(s, e) && Behind(s, key, n)
    ensures Behind(Next(s, c, e), key, n)
  {
    hide DistinctKeys, Delete, Lookup, Store, Evict;
    match e
    case ClearEvent =>
    case ReadEvent(k, refresh, now) => ReadIs(s, c, k, refresh, now);
    case ResolveEvent(id, value, time, cacheable) =>
      WriteIs(s.entries, s.requests[id].key, Entry(value, time, id), c.maxEntries);
    case RejectEvent(id, authentication) =>
    case FinishEvent(id) =>
  }

  lemma {:induction false} BehindForTheRest<K(!new), V(!new)>(states: seq<State<K, V>>, events: seq<Event<K, V>>,
                                                              c: Config, key: K, i: nat, j: nat)
    requires IsRun(states, events, c) && i < j <= |events| && IsBarrier(events[i], key)
    ensures Behind(states[j], key, |states[i].requests|)
  {
    RunKeepsInv(states, events, c, j - 1);
    assert states[j - 1 + 1] == Next(states[j - 1], c, events[j - 1]);
    if j == i + 1 {
      BarrierHolds(states[i], c, events[i], key);
    } else {
      BehindForTheRest(states, events, c, key, i, j - 1);
      BarrierStays(states[j - 1], c, events[j - 1], key, |states[i].requests|);
    }
  }

  /** The request whose loader provides what a read returns. */
  ghost function Source<V>(o: Outcome<V>): nat {
    match o
    case Hit(entry) => entry.origin
    case Join(id) => id
    case Start(id) => id
  }

  lemma {:induction false} ReadStaysBehind<K(!new), V(!new)>(s: State<K, V>, c: Config, key: K, refresh: bool, now: int,
                                                             n: nat)
    requires Inv(s, c) && Behind(s, key, n)
    ensures Source(Read(s, c, key, refresh, now).1) >= n
    ensures Source(Read(s, c, key, refresh, now).1) < |Read(s, c, key, refresh, now).0.requests|
  {
    hide DistinctKeys, Delete, Lookup;
    ReadIs(s, c, key, refresh, now);
  }

  lemma {:induction false} RequestsGrow<K(!new), V(!new)>(states: seq<State<K, V>>, events: seq<Event<K, V>>, c: Config,
                                                          i: nat, j: nat)
    requires IsRun(states, events, c) && i <= j <= |events|
    ensures |states[i].requests| <= |states[j].requests|
  {
    if i < j {
      RequestsGrow(states, events, c, i, j - 1);
      assert states[j - 1 + 1] == Next(states[j - 1], c, events[j - 1]);
    }
  }

  /** Request `id` was made by event `m`. */
  ghost predicate MadeBy<K, V>(states: seq<State<K, V>>, events: seq<Event<K, V>>, c: Config, m: nat, id: nat)
    requires |states| == |events| + 1
  {
    m < |events| && events[m].ReadEvent?
    && Read(states[m], c, events[m].key, events[m].refresh, events[m].now).1 == Start(id)
  }

  /** A request that is known after event `j` but was not before event `i` was made by an event in between. */
  lemma {:induction false} MadeBetween<K(!new), V(!new)>(states: seq<State<K, V>>, events: seq<Event<K, V>>, c: Config,
                                                        i: nat, j: nat, id: nat)
    requires IsRun(states, events, c) && i <= j <= |events|
    requires |states[i].requests| <= id < |states[j].requests|
    ensures exists m :: i <= m < j && MadeBy(states, events, c, m, id)
  {
    if i < j {
      assert states[j - 1 + 1] == Next(states[j - 1], c, events[j - 1]);
      RequestsGrow(states, events, c, i, j - 1);
      if id < |states[j - 1].requests| {
        MadeBetween(states, events, c, i, j - 1, id);
      } else {
        assert MadeBy(states, events, c, j - 1, id);
      }
    }
  }

  /** Barrier theorem, over every interleaving: what a read returns after a clear, an authentication
      failure or a refresh of its key comes from a loader that was started at the barrier or later. */
  lemma {:induction false} NothingCrossesABarrier<K(!new), V(!new)>(states: seq<State<K, V>>, events: seq<Event<K, V>>,
                                                                    c: Config, i: nat, j: nat)
    requires IsRun(states, events, c) && i < j < |events|
    requires events[j].ReadEvent? && IsBarrier(events[i], events[j].key)
    ensures var o := Read(states[j], c, events[j].key, events[j].refresh, events[j].now).1;
            exists m :: i <= m <= j && MadeBy(states, events, c, m, Source(o))
  {
    var key, refresh, now := events[j].key, events[j].refresh, events[j].now;
    BehindForTheRest(states, events, c, key, i, j);
    RunKeepsInv(states, events, c, j);
    ReadStaysBehind(states[j], c, key, refresh, now, |states[i].requests|);
    assert states[j + 1] == Next(states[j], c, events[j]);
    MadeBetween(states, events, c, i, j + 1, Source(Read(states[j], c, key, refresh, now).1));
  }

  // ----- superseded requests

  /** A request that is no longer the pending one never becomes it again. */
  lemma {:induction false} SupersededStays<K(!new), V(!new)>(s: State<K, V>, c: Config, e: Event<K, V>, id: nat)
    requires Inv(s, c) && Enabled(s, e) && id < |s.requests| && !Current(s, id)
    ensures id < |Next(s, c, e).requests| && !Current(Next(s, c, e), id)
    ensures forall x :: x in Next(s, c, e).entries && x.entry.origin == id ==> x in s.entries
  {
    hide DistinctKeys, Delete, Lookup, Store, Evict;
    match e
    case ClearEvent =>
    case ReadEvent(k, refresh, now) => ReadIs(s, c, k, refresh, now);
    case ResolveEvent(other, value, time, cacheable) =>
      WriteIs(s.entries, s.requests[other].key, Entry(value, time, other), c.maxEntries);
    case RejectEvent(other, authentication) =>
    case FinishEvent(other) =>
  }

  /** From the moment a request is superseded, and in whatever order things happen, it writes no entry:
      any entry it has left was there already. */
  lemma {:induction false} SupersededNeverWrites<K(!new), V(!new)>(states: seq<State<K, V>>, events: seq<Event<K, V>>,
                                                                   c: Config, i: nat, j: nat, id: nat)
    requires IsRun(states, events, c) && i <= j <= |events|
    requires id < |states[i].requests| && !Current(states[i], id)
    ensures id < |states[j].requests| && !Current(states[j], id)
    ensures forall x :: x in states[j].entries && x.entry.origin == id ==> x in states[i].entries
  {
    if i < j {
      SupersededNeverWrites(states, events, c, i, j - 1, id);
      RunKeepsInv(states, events, c, j - 1);
      SupersededStays(states[j - 1], c, events[j - 1], id);
      assert states[j - 1 + 1] == Next(states[j - 1], c, events[j - 1]);
    }
  }

  /** Nor does it remove its successor from the requests that readers can join. */
  lemma {:induction false} SupersededRemovesNothing<K(!new), V(!new)>(s: State<K, V>, c: Config, e: Event<K, V>,
                                                                      id: nat)
    requires Enabled(s, e) && (e == FinishEvent(id) || (e.ResolveEvent? && e.id == id)) && !Current(s, id)
    ensures Next(s, c, e).pending == s.pending && Next(s, c, e).entries == s.entries && Next(s, c, e).epoch == s.epoch
  {
  }

  /** A value stored by one read is a hit for the next read of the key within the time to live, and
      readers that come while a request is pending share it. */
  lemma {:induction false} StoredIsHit<K(!new), V(!new)>(s: State<K, V>, c: Config, id: nat, value: V, now: int,
                                                         later: int)
    requires Inv(s, c) && Current(s, id) && s.requests[id].answer.Awaited? && c.maxEntries >= 1
    requires c.ttl.None? || later - now < c.ttl.value
    ensures Read(Resolve(s, c, id, value, now, true), c, s.requests[id].key, false, later).1
            == Hit(Entry(value, now, id))
    ensures Lookup(s.entries, s.requests[id].key).None?
            ==> Read(s, c, s.requests[id].key, false, later) == (s, Join(id))
  {
    StoredSurvives(s, c, id, value, now);
  }

  // ----- what each step answers and leaves

  /** The entry may still be served. */
  predicate Live<V>(e: Entry<V>, now: int, c: Config) { c.ttl.Some? ==> now < e.readAt + c.ttl.value }

  ghost predicate Served<K, V>(s: State<K, V>, c: Config, key: K, e: Entry<V>, now: int) {
    Slot(key, e) in s.entries && Live(e, now, c)
  }

  /** A read without a refresh is answered by a live entry of its key, else by the pending request of its key,
      else by a new one; a refresh always makes a new one. Nothing else about the cache changes, except that
      the entry served is the newest from then on. */
  lemma {:induction false} ReadAnswers<K(!new), V(!new)>(s: State<K, V>, c: Config, key: K, refresh: bool, now: int)
    requires DistinctKeys(s.entries)
    ensures var (t, o) := Read(s, c, key, refresh, now);
            && (forall e :: o == Hit(e) <==> !refresh && Served(s, c, key, e, now))
            && (forall id :: o == Join(id)
                             <==> !refresh && (forall e :: !Served(s, c, key, e, now)) && key in s.pending
                                  && s.pending[key] == id)
            && (o.Start? ==> o.id == |s.requests| && t.requests == s.requests + [Request(key, s.epoch, Awaited, false)]
                             && t.pending == s.pending[key := |s.requests|])
            && (!o.Start? ==> t.requests == s.requests && t.pending == s.pending)
            && t.epoch == s.epoch
            && (forall x :: x in t.entries <==> x in s.entries && !(refresh && x.key == key))
            && (o.Hit? ==> t.entries != [] && t.entries[|t.entries| - 1] == Slot(key, o.entry))
  {
    hide DistinctKeys, Delete, Lookup;
    FoundIs(s, key, refresh);
    var t := Refreshed(s, key, refresh);
    DeleteIs(t.entries, key);
  }

  lemma {:induction false} FoundIs<K(!new), V(!new)>(s: State<K, V>, key: K, refresh: bool)
    requires DistinctKeys(s.entries)
    ensures var t := Refreshed(s, key, refresh);
            && DistinctKeys(t.entries) && (forall x :: x in t.entries <==> x in s.entries && !(refresh && x.key == key))
            && (forall e :: Lookup(t.entries, key) == Some(e) <==> !refresh && Slot(key, e) in s.entries)
  {
    hide DistinctKeys, Delete;
    DeleteIs(s.entries, key);
    SlotIsFound(Refreshed(s, key, refresh).entries, key);
  }

  lemma {:induction false} SlotIsFound<K(!new), V(!new)>(slots: seq<Slot<K, V>>, key: K)
    requires DistinctKeys(slots)
    ensures forall e :: Lookup(slots, key) == Some(e) <==> Slot(key, e) in slots
  {
    LookupIs(slots, key);
    forall e | Slot(key, e) in slots ensures Lookup(slots, key) == Some(e) {
      var i :| 0 <= i < |slots| && slots[i] == Slot(key, e);
    }
  }

  /** The next read of the key, by anyone, makes a new request. */
  ghost predicate ReadsAnew<K(!new), V(!new)>(s: State<K, V>, c: Config, key: K) {
    forall refresh, now :: Read(s, c, key, refresh, now).1 == Start(|s.requests|)
  }

  /** A failure is never served again: once the request is done with, the next read asks anew. After an
      authentication failure or a clear, every read does. */
  lemma {:induction false} FailureIsForgotten<K(!new), V(!new)>(s: State<K, V>, c: Config, id: nat,
                                                                authentication: bool, key: K)
    requires id < |s.requests|
    ensures s.requests[id].key == key && Current(s, id) && Lookup(s.entries, key).None?
            ==> ReadsAnew(Finish(Reject(s, id, authentication), id), c, key)
    ensures ReadsAnew(Reject(s, id, true), c, key) && ReadsAnew(Forget(s), c, key)
    ensures var t := Reject(s, id, false); t.entries == s.entries && t.pending == s.pending && t.epoch == s.epoch
  {
    hide Fresh;
    if Lookup(s.entries, key).None? {
      DeleteAbsent(s.entries, key);
    }
  }

  lemma {:induction false} DeleteAbsent<K(!new), V(!new)>(slots: seq<Slot<K, V>>, key: K)
    requires Lookup(slots, key).None?
    ensures Delete(slots, key) == slots
  {
    if slots != [] {
      DeleteAbsent(slots[1..], key);
    }
  }

  /** An answer is stored exactly when it may be cached and its request is still the pending one; it
      displaces nothing else while there is room. */
  lemma {:induction false} AnswerIsStored<K(!new), V(!new)>(s: State<K, V>, c: Config, id: nat, value: V, now: int,
                                                            cacheable: bool)
    requires Inv(s, c) && id < |s.requests| && s.requests[id].answer.Awaited? && c.maxEntries >= 1
    ensures var t := Resolve(s, c, id, value, now, cacheable);
            && t.epoch == s.epoch && t.pending == s.pending
            && t.requests == s.requests[id := s.requests[id].(answer := Resolved(value))]
            && (Slot(s.requests[id].key, Entry(value, now, id)) in t.entries <==> cacheable && Current(s, id))
            && (!(cacheable && Current(s, id)) ==> t.entries == s.entries)
            && (|s.entries| < c.maxEntries ==> forall x :: x in s.entries && x.key != s.requests[id].key
                                                   ==> x in t.entries)
  {
    var key, entry := s.requests[id].key, Entry(value, now, id);
    if Current(s, id) {
      CurrentHasEpoch(s, c, id);
    }
    StoreIs(s.entries, key, entry);
    EvictIs(Store(s.entries, key, entry), c.maxEntries);
    if cacheable && Current(s, id) {
      StoredSurvives(s, c, id, value, now);
      var t := Resolve(s, c, id, value, now, true);
      ResolveKeepsInv(s, c, id, value, now, true);
      LookupIs(t.entries, key);
    }
    assert Slot(key, entry) in s.entries ==> GoodEntry(s, Slot(key, entry));
  }

  // ----- what may be cached

  /** If every cacheable answer satisfies a property of its key, so does every entry. */
  ghost predicate AllSatisfy<K(!new), V(!new)>(s: State<K, V>, p: (K, V) -> bool) {
    forall x :: x in s.entries ==> p(x.key, x.entry.value)
  }

  ghost predicate Answers<K, V>(s: State<K, V>, e: Event<K, V>, p: (K, V) -> bool) {
    e.ResolveEvent? && e.id < |s.requests| && e.cacheable ==> p(s.requests[e.id].key, e.value)
  }

  lemma {:induction false} EntriesSatisfy<K(!new), V(!new)>(states: seq<State<K, V>>, events: seq<Event<K, V>>,
                                                            c: Config, p: (K, V) -> bool, n: nat)
    requires IsRun(states, events, c) && n <= |events|
    requires forall i :: 0 <= i < |events| ==> Answers(states[i], events[i], p)
    ensures AllSatisfy(states[n], p)
  {
    if n > 0 {
      EntriesSatisfy(states, events, c, p, n - 1);
      RunKeepsInv(states, events, c, n - 1);
      var s, e := states[n - 1], events[n - 1];
      assert states[n - 1 + 1] == Next(s, c, e);
      assert Answers(s, e, p);
      match e
      case ClearEvent =>
      case ReadEvent(k, refresh, now) => ReadIs(s, c, k, refresh, now);
      case ResolveEvent(id, value, time, cacheable) =>
        WriteIs(s.entries, s.requests[id].key, Entry(value, time, id), c.maxEntries);
      case RejectEvent(id, authentication) =>
      case FinishEvent(id) =>
    }
  }
}

/** The cache object itself. */
module ReadCaches {
  import opened CacheProtocol

  class ReadCache<K(==), V> {
    const config: Config
    var entries: seq<Slot<K, V>>
    var pending: map<K, nat>
    var epoch: nat
    /** The promises handed out so far; the program holds them in its closures. */
    var requests: seq<Request<K, V>>

    constructor (config: Config)
      ensures this.config == config && Contents() == Initial()
    {
      this.config := config;
      entries, pending, epoch, requests := [], map[], 0, [];
    }

    ghost function Contents(): State<K, V>
      reads this
    {
      State(entries, pending, epoch, requests)
    }

    method Clear()
      modifies this
      ensures Contents() == Forget(old(Contents()))
    {
      epoch := epoch + 1;
      entries, pending := [], map[];
    }

    method ReadKey(key: K, refresh: bool, now: int) returns (o: Outcome<V>)
      modifies this
      ensures (Contents(), o) == Read(old(Contents()), config, key, refresh, now)
    {
      if refresh {
        entries := Delete(entries, key);
        pending := pending - {key};
      }
      var entry := Lookup(entries, key);
      if entry.Some? && Fresh(entry.value, now, config) {
        entries := Delete(entries, key) + [Slot(key, entry.value)];
        return Hit(entry.value);
      }
      if key in pending {
        return Join(pending[key]);
      }
      var id := |requests|;
      requests := requests + [Request(key, epoch, Awaited, false)];
      pending := pending[key := id];
      return Start(id);
    }

    method LoaderResolves(id: nat, value: V, now: int, cacheable: bool)
      requires id < |requests|
      modifies this
      ensures Contents() == Resolve(old(Contents()), config, id, value, now, cacheable)
    {
      var r := requests[id];
      requests := requests[id := r.(answer := Resolved(value))];
      if r.started == epoch && r.key in pending && pending[r.key] == id && cacheable {
        entries := Store(entries, r.key, Entry(value, now, id));
        ghost var stored := entries;
        while |entries| > config.maxEntries
          invariant Evict(entries, config.maxEntries) == Evict(stored, config.maxEntries)
          invariant pending == old(pending) && epoch == old(epoch)
          invariant requests == old(requests)[id := r.(answer := Resolved(value))]
          decreases |entries|
        {
          entries := entries[1..];
        }
      }
    }

    method LoaderRejects(id: nat, authentication: bool)
      requires id < |requests|
      modifies this
      ensures Contents() == Reject(old(Contents()), id, authentication)
    {
      requests := requests[id := requests[id].(answer := Rejected)];
      if authentication {
        Clear();
      }
    }

    method RequestFinishes(id: nat)
      requires id < |requests|
      modifies this
      ensures Contents() == Finish(old(Contents()), id)
    {
      var key := requests[id].key;
      requests := requests[id := requests[id].(finished := true)];
      if key in pending && pending[key] == id {
        pending := pending - {key};
      }
    }
  }
}

/** The read batch shared by the two usage views: a cache that keeps complete bundles of the requested scope
    only. Its time to live and size are the caller's; unless the caller says so its entries never expire. */
module ReadSession {
  import opened Wrappers
  import opened CacheProtocol

  datatype Scope = Scope(childId: string, fromDate: string, toDate: string)

  datatype Snapshot = Snapshot(childId: string, fromDate: string, toDate: string, revision: string)

  datatype Bundle = Bundle(fromDate: string, toDate: string, complete: bool, applicationRevision: Option<string>,
                           application: Option<Snapshot>)

  datatype LoadError = SelectionChanged | SourceVersionMismatch

  /** The loader's own checks on what the server returned. */
  function Checked(scope: Scope, b: Bundle): Result<Bundle, LoadError> {
    if b.fromDate != scope.fromDate || b.toDate != scope.toDate then Failure(SelectionChanged)
    else if b.application.Some?
            && (b.application.value.childId != scope.childId || b.application.value.fromDate != scope.fromDate
                || b.application.value.toDate != scope.toDate
                || Some(b.application.value.revision) != b.applicationRevision) then
      Failure(SourceVersionMismatch)
    else Success(b)
  }

  /** A request is resolved only with a bundle that passed the checks, and cached only if complete. */
  ghost predicate SessionEvent(s: State<Scope, Bundle>, e: Event<Scope, Bundle>) {
    e.ResolveEvent? && e.id < |s.requests| ==>
      Checked(s.requests[e.id].key, e.value).Success? && e.cacheable == e.value.complete
  }

  /** A complete bundle of the dates, whose snapshot of applications, if there is one, is of the child, the
      dates and the revision that the bundle names. */
  predicate Usable(scope: Scope, b: Bundle) { b.complete && OfScope(scope, b) }

  predicate OfScope(scope: Scope, b: Bundle) {
    && b.fromDate == scope.fromDate && b.toDate == scope.toDate
    && (b.application.Some? ==>
          && b.applicationRevision.Some?
          && b.application.value
             == Snapshot(scope.childId, scope.fromDate, scope.toDate, b.applicationRevision.value))
  }

  /** The loader lets through exactly the bundles of the scope, unchanged, and tells which check failed. */
  lemma {:induction false} CheckedIs(scope: Scope, b: Bundle)
    ensures Checked(scope, b) == Success(b) <==> OfScope(scope, b)
    ensures !OfScope(scope, b)
            ==> Checked(scope, b) == Failure(if b.fromDate == scope.fromDate
                                             && b.toDate == scope.toDate then SourceVersionMismatch
                                             else SelectionChanged)
  {
  }

  /** In every run of the session a cached answer is a complete bundle of the very scope that is read. */
  lemma {:induction false} SessionServesItsScope(states: seq<State<Scope, Bundle>>, events: seq<Event<Scope, Bundle>>,
                                                 c: Config, n: nat)
    requires IsRun(states, events, c) && n < |events| && events[n].ReadEvent?
    requires forall i :: 0 <= i < |events| ==> SessionEvent(states[i], events[i])
    ensures var o := Read(states[n], c, events[n].key, events[n].refresh, events[n].now).1;
            o.Hit? ==> Usable(events[n].key, o.entry.value)
  {
    forall i | 0 <= i < |events| ensures Answers(states[i], events[i], Usable) {
      assert SessionEvent(states[i], events[i]);
      if events[i].ResolveEvent? && events[i].id < |states[i].requests| {
        CheckedIs(states[i].requests[events[i].id].key, events[i].value);
      }
    }
    EntriesSatisfy(states, events, c, Usable, n);
    RunKeepsInv(states, events, c, n);
    ReadIs(states[n], c, events[n].key, events[n].refresh, events[n].now);
  }
}
