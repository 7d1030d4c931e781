/** The segments of today's timeline, rebuilt from the event log. The day is the half-open range between
    two local midnights; times are in milliseconds. */
module Timeline {
  import opened Wrappers
  import opened Text

  /** An entry whose time is not a number has no time here, and is skipped. */
  datatype Event = Event(kind: string, time: Option<real>, state: Option<string>, domain: Option<string>)

  datatype Day = Day(start: int, end: int)

  datatype Segment = Segment(startAt: real, duration: int, state: string, domain: string)

  predicate IsStart(e: Event) { e.time.Some? && e.kind == "START" }

  predicate IsEnd(e: Event) { e.time.Some? && e.kind == "END" }

  function Max(a: real, b: real): real { if a < b then b else a }

  function Min(a: real, b: real): real { if a < b then a else b }

  /** Whole seconds between the opening and the closing event, within the day. */
  function Seconds(open: Event, close: Event, day: Day): int
    requires IsStart(open) && IsEnd(close)
  {
    ((Min(close.time.value, day.end as real) - Max(open.time.value, day.start as real)) / 1000.0).Floor
  }

  predicate Listed(open: Event, close: Event, day: Day)
    requires IsStart(open) && IsEnd(close)
  {
    open.state == Some("ACTIVE") && open.domain.Some? && Trim(open.domain.value) != "" && Seconds(open, close, day) > 0
  }

  function SegmentOf(open: Event, close: Event, day: Day): Segment
    requires IsStart(open) && IsEnd(close) && Listed(open, close, day)
  {
    Segment(Max(open.time.value, day.start as real), Seconds(open, close, day), "ACTIVE", open.domain.value)
  }

  /** A pair is listed exactly when its START is ACTIVE, its domain is not blank, and at least one second lies
      between the two within the day; its segment names them and the whole seconds of that time. */
  lemma {:induction false} ListedIs(open: Event, close: Event, day: Day)
    requires IsStart(open) && IsEnd(close)
    ensures var from, to := open.time.value, close.time.value;
            && (Listed(open, close, day)
                <==> && open.state == Some("ACTIVE")
                     && (open.domain.Some? && exists i :: 0 <= i < |open.domain.value|
                                                  && !IsSpace(open.domain.value[i]))
                     && from + 1000.0 <= to && from + 1000.0 <= day.end as real
                     && day.start as real + 1000.0 <= to && day.start + 1000 <= day.end)
            && (Listed(open, close, day) ==>
                  && SegmentOf(open, close, day).state == "ACTIVE"
                  && SegmentOf(open, close, day).domain == open.domain.value)
  {
    hide Trim, IsSpace;
    if open.domain.Some? {
      BlankIs(open.domain.value);
    }
    var span := Min(close.time.value, day.end as real) - Max(open.time.value, day.start as real);
    FloorIs(span / 1000.0);
    assert span >= 1000.0 <==> (span / 1000.0).Floor >= 1;
  }

  lemma {:induction false} BlankIs(s: string)
    ensures Trim(s) != "" <==> exists i :: 0 <= i < |s| && !IsSpace(s[i])
  {
    hide IsSpace;
    if s != "" && IsSpace(s[0]) {
      BlankIs(s[1..]);
      assert forall i :: 0 <= i < |s[1..]| ==> s[1..][i] == s[i + 1];
      assert forall i :: 1 <= i < |s| ==> s[i] == s[1..][i - 1];
    } else if s != "" {
      assert !IsSpace(s[0]);
      if IsSpace(s[|s| - 1]) {
        BlankIs(s[..|s| - 1]);
        assert s[..|s| - 1][0] == s[0];
      }
    }
  }

  // ----- what the segments are

  /** The START at `i` is the latest START or END before the END at `j`. */
  ghost predicate Pair(log: seq<Event>, i: int, j: int) {
    && 0 <= i < j < |log| && IsStart(log[i]) && IsEnd(log[j])
    && forall k :: i < k < j ==> !IsStart(log[k]) && !IsEnd(log[k])
  }

  function OpenAt(log: seq<Event>, n: nat): (i: Option<nat>)
    requires n <= |log|
    ensures i.Some? ==> i.value < n && IsStart(log[i.value])
  {
    if n == 0 || IsEnd(log[n - 1]) then None
    else if IsStart(log[n - 1]) then Some(n - 1)
    else OpenAt(log, n - 1)
  }

  lemma {:induction false} OpenIs(log: seq<Event>, n: nat, i: nat)
    requires n <= |log|
    ensures OpenAt(log, n) == Some(i)
            <==> i < n && IsStart(log[i]) && forall k :: i < k < n ==> !IsStart(log[k]) && !IsEnd(log[k])
  {
    hide IsStart, IsEnd;
    if n > 0 {
      StartIsNoEnd(log[n - 1]);
      if !IsEnd(log[n - 1]) && !IsStart(log[n - 1]) {
        OpenIs(log, n - 1, i);
      }
    }
  }

  lemma {:induction false} StartIsNoEnd(e: Event)
    ensures !(IsStart(e) && IsEnd(e))
  {
    assert e.kind == "START" ==> e.kind[0] == 'S';
    assert e.kind == "END" ==> e.kind[0] == 'E';
  }

  /** What the event at `j` adds to the timeline. */
  function ClosedAt(log: seq<Event>, j: nat, day: Day): seq<Segment>
    requires j < |log|
  {
    var i := OpenAt(log, j);
    if IsEnd(log[j]) && i.Some? && Listed(log[i.value], log[j], day) then [SegmentOf(log[i.value], log[j], day)] else []
  }

  function Segments(log: seq<Event>, n: nat, day: Day): seq<Segment>
    requires n <= |log|
  {
    if n == 0 then [] else Segments(log, n - 1, day) + ClosedAt(log, n - 1, day)
  }

  method BuildTodayTimelineSegments(log: seq<Event>, day: Day) returns (segments: seq<Segment>)
    ensures segments == Segments(log, |log|, day)
  {
    hide Trim;
    segments := [];
    var openStart: Option<Event> := None;
    for n := 0 to |log|
      invariant segments == Segments(log, n, day)
      invariant openStart == if OpenAt(log, n).None? then None else Some(log[OpenAt(log, n).value])
    {
      var e := log[n];
      StartIsNoEnd(e);
      if e.time.None? {
        continue;
      }
      if e.kind == "START" {
        openStart := Some(e);
        continue;
      }
      if e.kind != "END" || openStart.None? {
        continue;
      }
      var open := openStart.value;
      openStart := None;
      if open.state != Some("ACTIVE") {
        continue;
      }
      if open.domain.None? || Trim(open.domain.value) == "" {
        continue;
      }
      var segmentStart := Max(open.time.value, day.start as real);
      var segmentEnd := Min(e.time.value, day.end as real);
      var duration := ((segmentEnd - segmentStart) / 1000.0).Floor;
      if duration > 0 {
        segments := segments + [Segment(segmentStart, duration, "ACTIVE", open.domain.value)];
      }
    }
  }

  /** A pair that makes a segment. */
  ghost predicate ListedPair(log: seq<Event>, i: int, j: int, day: Day) {
    Pair(log, i, j) && Listed(log[i], log[j], day)
  }

  lemma {:induction false} ClosedIs(log: seq<Event>, j: nat, day: Day)
    requires j < |log|
    ensures ClosedAt(log, j, day) == [] <==> forall i :: !ListedPair(log, i, j, day)
    ensures forall i :: ListedPair(log, i, j, day) ==> ClosedAt(log, j, day) == [SegmentOf(log[i], log[j], day)]
    ensures forall i :: ListedPair(log, i, j, day) ==> OpenAt(log, j) == Some(i)
  {
    hide Listed, SegmentOf, IsStart, IsEnd;
    if ClosedAt(log, j, day) != [] {
      OpenIs(log, j, OpenAt(log, j).value);
      assert ListedPair(log, OpenAt(log, j).value, j, day);
    }
    forall i | ListedPair(log, i, j, day)
      ensures OpenAt(log, j) == Some(i) && ClosedAt(log, j, day) == [SegmentOf(log[i], log[j], day)]
    {
      OpenIs(log, j, i);
    }
  }

  function ListedPairs(log: seq<Event>, n: nat, day: Day): seq<(int, int)>
    requires n <= |log|
  {
    if n == 0 then []
    else
      ListedPairs(log, n - 1, day)
      + if ClosedAt(log, n - 1, day) == [] then [] else [(OpenAt(log, n - 1).value, n - 1)]
  }

  /** The segments up to `n` are those of the pairs up to `n`, one each, in the order of the ENDs. */
  ghost predicate Enumerates(log: seq<Event>, n: nat, day: Day, pairs: seq<(int, int)>, segments: seq<Segment>)
    requires n <= |log|
  {
    && |segments| == |pairs|
    && (forall m :: 0 <= m < |pairs| ==>
          && ListedPair(log, pairs[m].0, pairs[m].1, day) && pairs[m].1 < n
          && segments[m] == SegmentOf(log[pairs[m].0], log[pairs[m].1], day))
    && (forall m, m' :: 0 <= m < m' < |pairs| ==> pairs[m].1 < pairs[m'].1)
    && (forall i, j :: ListedPair(log, i, j, day) && j < n ==> (i, j) in pairs)
  }

  lemma {:induction false} EnumerateNothing(log: seq<Event>, n: nat, day: Day, pairs: seq<(int, int)>,
                                            segments: seq<Segment>)
    requires n < |log| && Enumerates(log, n, day, pairs, segments) && ClosedAt(log, n, day) == []
    ensures Enumerates(log, n + 1, day, pairs, segments)
  {
    hide ClosedAt, SegmentOf, Listed;
    ClosedIs(log, n, day);
  }

  lemma {:induction false} EnumerateOne(log: seq<Event>, n: nat, i: int, day: Day, pairs: seq<(int, int)>,
                                        segments: seq<Segment>)
    requires n < |log| && Enumerates(log, n, day, pairs, segments)
    requires ListedPair(log, i, n, day) && OpenAt(log, n) == Some(i)
    ensures Enumerates(log, n + 1, day, pairs + [(i, n)], segments + [SegmentOf(log[i], log[n], day)])
  {
    hide ClosedAt, SegmentOf, ListedPair, OpenAt;
    ClosedIs(log, n, day);
    ListedPairsAreListed(log, day);
    forall h, j | ListedPair(log, h, j, day) && j < n + 1 ensures (h, j) in pairs + [(i, n)] {
      if j < n {
        assert (h, j) in pairs;
      } else {
        assert Some(h) == OpenAt(log, n) == Some(i);
      }
    }
  }

  /** The timeline holds exactly one segment for each pair of the latest START and the next END that is
      ACTIVE, names a domain and lasts a second within the day; the segments are in the order of the ENDs. */
  lemma {:induction false} SegmentsAreThePairs(log: seq<Event>, n: nat, day: Day)
    requires n <= |log|
    ensures Enumerates(log, n, day, ListedPairs(log, n, day), Segments(log, n, day))
  {
    hide ClosedAt, SegmentOf, ListedPair, Enumerates;
    if n > 0 {
      SegmentsAreThePairs(log, n - 1, day);
      var pairs, segments := ListedPairs(log, n - 1, day), Segments(log, n - 1, day);
      if ClosedAt(log, n - 1, day) == [] {
        EnumerateNothing(log, n - 1, day, pairs, segments);
        assert pairs + [] == pairs && segments + [] == segments;
      } else {
        ClosedHasPair(log, n - 1, day);
        EnumerateOne(log, n - 1, OpenAt(log, n - 1).value, day, pairs, segments);
      }
    } else {
      EnumerateEmpty(log, day);
    }
  }

  lemma {:induction false} EnumerateEmpty(log: seq<Event>, day: Day)
    ensures Enumerates(log, 0, day, [], [])
  {
    ListedPairsAreListed(log, day);
  }

  lemma {:induction false} ClosedHasPair(log: seq<Event>, j: nat, day: Day)
    requires j < |log| && ClosedAt(log, j, day) != []
    ensures OpenAt(log, j).Some? && ListedPair(log, OpenAt(log, j).value, j, day)
    ensures ClosedAt(log, j, day) == [SegmentOf(log[OpenAt(log, j).value], log[j], day)]
  {
    hide Listed, SegmentOf, IsStart, IsEnd;
    OpenIs(log, j, OpenAt(log, j).value);
  }

  lemma {:induction false} ListedPairsAreListed(log: seq<Event>, day: Day)
    ensures forall i, j :: ListedPair(log, i, j, day) ==> 0 <= i < j < |log|
  {
    hide Listed, IsStart, IsEnd;
  }

  // ----- order, overlap and total

  function End(s: Segment): real { s.startAt + (s.duration * 1000) as real }

  /** A segment lies within its pair and within the day, and falls short of the end by less than a second. */
  lemma {:induction false} SegmentWithin(open: Event, close: Event, day: Day)
    requires IsStart(open) && IsEnd(close) && Listed(open, close, day)
    ensures var s := SegmentOf(open, close, day);
            && s.duration >= 1 && day.start as real <= s.startAt && open.time.value <= s.startAt
            && s.startAt == Max(open.time.value, day.start as real)
            && End(s) <= Min(close.time.value, day.end as real) < End(s) + 1000.0
  {
    hide Trim;
    var s := SegmentOf(open, close, day);
    var span := Min(close.time.value, day.end as real) - Max(open.time.value, day.start as real);
    FloorIs(span / 1000.0);
    assert (s.duration * 1000) as real == s.duration as real * 1000.0;
  }

  lemma {:induction false} FloorIs(x: real)
    ensures x.Floor as real <= x < x.Floor as real + 1.0
  {
  }

  ghost predicate TimeOrdered(log: seq<Event>) {
    forall i, j :: 0 <= i < j < |log| && log[i].time.Some? && log[j].time.Some?
        ==> log[i].time.value <= log[j].time.value
  }

  ghost predicate InOrder(s: seq<Segment>) {
    forall i, j :: 0 <= i < j < |s| ==> End(s[i]) <= s[j].startAt
  }

  ghost predicate InDay(s: Segment, day: Day) {
    s.duration >= 1 && day.start as real <= s.startAt && End(s) <= day.end as real
  }

  /** Whatever the order of the log, no segment leaves the day. */
  lemma {:induction false} EachIsInDay(log: seq<Event>, n: nat, day: Day)
    requires n <= |log|
    ensures forall s :: s in Segments(log, n, day) ==> InDay(s, day)
  {
    hide Listed, SegmentOf, IsStart, IsEnd, End;
    if n > 0 {
      EachIsInDay(log, n - 1, day);
      forall s | s in ClosedAt(log, n - 1, day) ensures InDay(s, day) {
        SegmentWithin(log[OpenAt(log, n - 1).value], log[n - 1], day);
      }
    }
  }

  /** No segment ends after an event that comes later in the log. */
  lemma {:induction false} EndBefore(log: seq<Event>, n: nat, m: nat, day: Day)
    requires n <= m < |log| && TimeOrdered(log) && log[m].time.Some?
    ensures forall s :: s in Segments(log, n, day) ==> End(s) <= log[m].time.value
  {
    hide Listed, SegmentOf, End;
    if n > 0 {
      EndBefore(log, n - 1, m, day);
      forall s | s in ClosedAt(log, n - 1, day) ensures End(s) <= log[m].time.value {
        SegmentWithin(log[OpenAt(log, n - 1).value], log[n - 1], day);
      }
    }
  }

  /** While a START is open nothing is added. */
  lemma {:induction false} SinceOpen(log: seq<Event>, n: nat, day: Day)
    requires n <= |log| && OpenAt(log, n).Some?
    ensures Segments(log, n, day) == Segments(log, OpenAt(log, n).value, day)
  {
    hide Listed, SegmentOf, IsStart, IsEnd;
    StartIsNoEnd(log[n - 1]);
    if !IsStart(log[n - 1]) {
      SinceOpen(log, n - 1, day);
    }
  }

  /** On a log in order of time the segments are in order and never overlap. */
  lemma {:induction false} SegmentsAreDisjoint(log: seq<Event>, n: nat, day: Day)
    requires n <= |log| && TimeOrdered(log)
    ensures InOrder(Segments(log, n, day))
  {
    hide Listed, SegmentOf, IsStart, IsEnd, End, TimeOrdered;
    if n > 0 {
      SegmentsAreDisjoint(log, n - 1, day);
      if ClosedAt(log, n - 1, day) != [] {
        var i := OpenAt(log, n - 1).value;
        var last := SegmentOf(log[i], log[n - 1], day);
        SinceOpen(log, n - 1, day);
        assert log[i].time.Some? by { StartHasTime(log[i]); }
        EndBefore(log, i, i, day);
        SegmentWithin(log[i], log[n - 1], day);
        assert forall s :: s in Segments(log, n - 1, day) ==> End(s) <= last.startAt;
      }
    }
  }

  /** The pairs are listed one directly after the other. */
  ghost predicate Successive(log: seq<Event>, i: int, j: int, i': int, j': int, day: Day) {
    && ListedPair(log, i, j, day) && ListedPair(log, i', j', day) && j < j'
    && forall h, k :: j < k < j' ==> !ListedPair(log, h, k, day)
  }

  /** The second pair opens, within the day, no earlier than the whole seconds of the first one are over. */
  predicate OpensLater(first: Event, end: Event, next: Event, day: Day)
    requires IsStart(first) && IsEnd(end) && IsStart(next)
  {
    Max(first.time.value, day.start as real) + (Seconds(first, end, day) * 1000) as real
    <= Max(next.time.value, day.start as real)
  }

  lemma {:induction false} OpensLaterIs(first: Event, end: Event, next: Event, last: Event, day: Day)
    requires IsStart(first) && IsEnd(end) && Listed(first, end, day)
    requires IsStart(next) && IsEnd(last) && Listed(next, last, day)
    ensures OpensLater(first, end, next, day)
            <==> End(SegmentOf(first, end, day)) <= SegmentOf(next, last, day).startAt
  {
    hide Trim;
  }

  lemma {:induction false} NeighboursSuffice(s: seq<Segment>, i: nat, j: nat)
    requires i < j < |s| && forall x :: x in s ==> x.duration >= 1
    requires forall m, m' :: 0 <= m && m' == m + 1 < |s| ==> End(s[m]) <= s[m'].startAt
    ensures End(s[i]) <= s[j].startAt
  {
    if i + 1 < j {
      NeighboursSuffice(s, i, j - 1);
      assert s[j - 1] in s;
      assert End(s[j - 1]) <= s[j].startAt;
    }
  }

  ghost predicate InTurn(log: seq<Event>, n: nat, day: Day) {
    forall i, j, i', j' :: Successive(log, i, j, i', j', day) && j' < n ==> OpensLater(log[i], log[j], log[i'], day)
  }

  lemma {:induction false} InOrderIsInTurn(log: seq<Event>, n: nat, day: Day)
    requires n <= |log| && InOrder(Segments(log, n, day))
    ensures InTurn(log, n, day)
  {
    hide Listed, SegmentOf, OpensLater, IsStart, IsEnd, Segments, ListedPairs, End;
    var pairs := ListedPairs(log, n, day);
    SegmentsAreThePairs(log, n, day);
    forall i, j, i', j' | Successive(log, i, j, i', j', day) && j' < n
      ensures OpensLater(log[i], log[j], log[i'], day)
    {
      var m :| 0 <= m < |pairs| && pairs[m] == (i, j);
      var m' :| 0 <= m' < |pairs| && pairs[m'] == (i', j');
      PairIsListed(log, i, j, day);
      PairIsListed(log, i', j', day);
      OpensLaterIs(log[i], log[j], log[i'], log[j'], day);
    }
  }

  lemma {:induction false} InTurnIsInOrder(log: seq<Event>, n: nat, day: Day)
    requires n <= |log| && InTurn(log, n, day)
    ensures InOrder(Segments(log, n, day))
  {
    hide Listed, SegmentOf, OpensLater, IsStart, IsEnd, Segments, ListedPairs, End;
    var s, pairs := Segments(log, n, day), ListedPairs(log, n, day);
    SegmentsAreThePairs(log, n, day);
    forall m, m' | 0 <= m && m' == m + 1 < |s| ensures End(s[m]) <= s[m'].startAt {
      ListedNeighbours(log, n, m, day);
      var (i, j) := pairs[m];
      var (i', j') := pairs[m'];
      PairIsListed(log, i, j, day);
      PairIsListed(log, i', j', day);
      OpensLaterIs(log[i], log[j], log[i'], log[j'], day);
    }
    EachIsInDay(log, n, day);
    forall i, j | 0 <= i < j < |s| ensures End(s[i]) <= s[j].startAt {
      NeighboursSuffice(s, i, j);
    }
  }

  /** On any log, in whatever order, the segments are in order and never overlap exactly when each listed
      pair opens after the one listed before it. */
  lemma {:induction false} OverlapIsExact(log: seq<Event>, n: nat, day: Day)
    requires n <= |log|
    ensures InOrder(Segments(log, n, day)) <==> InTurn(log, n, day)
  {
    hide InOrder, InTurn, Segments;
    if InOrder(Segments(log, n, day)) {
      InOrderIsInTurn(log, n, day);
    }
    if InTurn(log, n, day) {
      InTurnIsInOrder(log, n, day);
    }
  }

  lemma {:induction false} PairIsListed(log: seq<Event>, i: int, j: int, day: Day)
    requires ListedPair(log, i, j, day)
    ensures 0 <= i < j < |log| && IsStart(log[i]) && IsEnd(log[j]) && Listed(log[i], log[j], day)
  {
  }

  lemma {:induction false} ListedNeighbours(log: seq<Event>, n: nat, m: nat, day: Day)
    requires n <= |log| && m + 1 < |ListedPairs(log, n, day)|
    ensures var pairs := ListedPairs(log, n, day);
            Successive(log, pairs[m].0, pairs[m].1, pairs[m + 1].0, pairs[m + 1].1, day)
  {
    hide ListedPair, ListedPairs, Segments, SegmentOf;
    var pairs := ListedPairs(log, n, day);
    SegmentsAreThePairs(log, n, day);
    forall h, k | pairs[m].1 < k < pairs[m + 1].1 ensures !ListedPair(log, h, k, day) {
      assert ListedPair(log, h, k, day) && k < n ==> (h, k) in pairs;
    }
  }

  lemma {:induction false} StartHasTime(e: Event)
    requires IsStart(e)
    ensures e.time.Some?
  {
  }

  function Total(s: seq<Segment>): int {
    if s == [] then 0 else Total(s[..|s| - 1]) + s[|s| - 1].duration
  }

  lemma {:induction false} TotalIsBounded(s: seq<Segment>, day: Day)
    requires InOrder(s) && forall x :: x in s ==> InDay(x, day)
    ensures (Total(s) * 1000) as real <= if s == [] then 0.0 else End(s[|s| - 1]) - day.start as real
    decreases |s|
  {
    if s != [] {
      var init, last := s[..|s| - 1], s[|s| - 1];
      assert last in s && InDay(last, day);
      TotalIsBounded(init, day);
      if init != [] {
        assert End(s[|s| - 2]) <= last.startAt;
      }
    }
  }

  /** Together the segments never exceed the day. */
  lemma {:induction false} WithinTheDay(log: seq<Event>, day: Day)
    requires TimeOrdered(log) && day.start <= day.end
    ensures Total(Segments(log, |log|, day)) * 1000 <= day.end - day.start
  {
    var s := Segments(log, |log|, day);
    SegmentsAreDisjoint(log, |log|, day);
    EachIsInDay(log, |log|, day);
    TotalIsBounded(s, day);
    if s != [] {
      assert s[|s| - 1] in s;
    }
  }

  /** A log out of order can produce the same minutes twice. */
  lemma {:induction false} OrderIsNeeded()
    ensures var at := (kind: string, t: real) => Event(kind, Some(t), Some("ACTIVE"), Some("site"));
            var log := [at("START", 0.0), at("END", 60000.0), at("START", 0.0), at("END", 60000.0)];
            !TimeOrdered(log) && !InOrder(Segments(log, 4, Day(0, 86400000)))
  {
    var day := Day(0, 86400000);
    var s, e := Event("START", Some(0.0), Some("ACTIVE"), Some("site")),
        Event("END", Some(60000.0), Some("ACTIVE"), Some("site"));
    var log := [s, e, s, e];
    StartIsNoEnd(s);
    StartIsNoEnd(e);
    assert !TimeOrdered(log) by { assert log[1].time.value > log[2].time.value; }
    assert Trim("site") == "site";
    assert Seconds(s, e, day) == 60;
    var segment := SegmentOf(s, e, day);
    assert ClosedAt(log, 0, day) == [] && ClosedAt(log, 2, day) == [];
    assert ClosedAt(log, 1, day) == [segment] && ClosedAt(log, 3, day) == [segment];
    hide ClosedAt;
    assert Segments(log, 1, day) == [];
    assert Segments(log, 2, day) == [segment];
    assert Segments(log, 3, day) == [segment];
    var all := Segments(log, 4, day);
    assert all == [segment, segment];
    assert End(all[0]) > all[1].startAt;
  }
}
