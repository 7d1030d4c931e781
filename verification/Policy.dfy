/** Time windows of a runtime policy: parsed, ordered and checked for overlap. */
module TimeWindows {
  import opened Wrappers
  import opened Sequences
  import opened Ordering

  datatype Window = Window(start: string, end: string)

  datatype WindowError = BadTime | EndNotAfterStart | Overlap | SlotMissing

  predicate Digit(c: char) { '0' <= c <= '9' }

  function DigitValue(c: char): int
    requires Digit(c)
  {
    c as int - '0' as int
  }

  /** The shape `HH:mm` of a 24-hour clock. */
  predicate IsClock(s: string) {
    |s| == 5 && s[2] == ':' && Digit(s[1]) && '0' <= s[3] <= '5' && Digit(s[4])
    && (s[0] == '0' || s[0] == '1' || (s[0] == '2' && s[1] <= '3'))
  }

  function Minute(s: string, allowEndOfDay: bool): (r: Option<int>)
    ensures r.Some? ==> 0 <= r.value <= 1440 && (!allowEndOfDay ==> r.value < 1440)
  {
    if allowEndOfDay && s == "24:00" then Some(1440)
    else if IsClock(s) then
      Some((DigitValue(s[0]) * 10 + DigitValue(s[1])) * 60 + DigitValue(s[3]) * 10 + DigitValue(s[4]))
    else None
  }

  function DigitOf(n: int): char
    requires 0 <= n < 10
  {
    ('0' as int + n) as char
  }

  /** The time of day that is `n` minutes after midnight. */
  function ClockText(n: int): string
    requires 0 <= n < 1440
  {
    var hour, part := n / 60, n % 60;
    [DigitOf(hour / 10), DigitOf(hour % 10), ':', DigitOf(part / 10), DigitOf(part % 10)]
  }

  /** Reading is the inverse of writing, in both directions: every minute of the day has exactly one text. */
  lemma {:induction false} ClockRoundTrips(n: int, s: string, allowEndOfDay: bool)
    requires 0 <= n < 1440
    ensures Minute(s, allowEndOfDay) == Some(n) <==> s == ClockText(n)
    ensures Minute(s, allowEndOfDay) == Some(1440) <==> allowEndOfDay && s == "24:00"
  {
    var hour, part := n / 60, n % 60;
    assert IsClock(ClockText(n));
    if IsClock(s) {
      var h, m := DigitValue(s[0]) * 10 + DigitValue(s[1]), DigitValue(s[3]) * 10 + DigitValue(s[4]);
      assert s == [s[0], s[1], s[2], s[3], s[4]];
      assert 0 <= h < 24 && 0 <= m < 60;
      if h * 60 + m == n {
        assert h == hour && m == part;
      }
    }
  }

  /** A window with both ends in minutes. */
  datatype Span = Span(window: Window, from: int, to: int)

  function SpanOf(w: Window): Result<Span, WindowError> {
    var start, end := Minute(w.start, false), Minute(w.end, true);
    if start.None? || end.None? then Failure(BadTime)
    else if end.value <= start.value then Failure(EndNotAfterStart)
    else Success(Span(w, start.value, end.value))
  }

  function Spans(ws: seq<Window>): Result<seq<Span>, WindowError> {
    if ws == [] then Success([])
    else
      var init := Spans(ws[..|ws| - 1]);
      if init.Failure? then init
      else
        match SpanOf(ws[|ws| - 1])
        case Failure(e) => Failure(e)
        case Success(s) => Success(init.value + [s])
  }

  predicate SpanOrder(a: Span, b: Span) { a.from < b.from || (a.from == b.from && a.to <= b.to) }

  /** The test between neighbours, which is all the program compares. */
  predicate NeighboursApart(s: seq<Span>) {
    forall i :: 0 <= i < |s| - 1 ==> s[i].to <= s[i + 1].from
  }

  function WindowsOf(s: seq<Span>): seq<Window> { Map(s, (x: Span) => x.window) }

  function Normalized(ws: seq<Window>): Result<seq<Window>, WindowError> {
    match Spans(ws)
    case Failure(e) => Failure(e)
    case Success(spans) =>
      var sorted := SortBy(spans, SpanOrder);
      if NeighboursApart(sorted) then Success(WindowsOf(sorted)) else Failure(Overlap)
  }

  method NormalizeWindows(ws: seq<Window>) returns (r: Result<seq<Window>, WindowError>)
    ensures r == Normalized(ws)
  {
    var spans: seq<Span> := [];
    for i := 0 to |ws|
      invariant Spans(ws[..i]) == Success(spans)
    {
      assert ws[..i + 1][..i] == ws[..i];
      var s := SpanOf(ws[i]);
      if s.Failure? {
        SpansFail(ws, i + 1);
        return Failure(s.error);
      }
      spans := spans + [s.value];
    }
    assert ws[..|ws|] == ws;
    var sorted := SortBy(spans, SpanOrder);
    var i := 0;
    while i + 1 < |sorted|
      invariant forall j :: 0 <= j < i && j + 1 < |sorted| ==> sorted[j].to <= sorted[j + 1].from
    {
      if sorted[i + 1].from < sorted[i].to {
        return Failure(Overlap);
      }
      i := i + 1;
    }
    return Success(WindowsOf(sorted));
  }

  lemma {:induction false} SpansFail(ws: seq<Window>, n: nat)
    requires n <= |ws| && Spans(ws[..n]).Failure?
    ensures Spans(ws) == Spans(ws[..n])
    decreases |ws|
  {
    if n == |ws| {
      assert ws[..n] == ws;
    } else {
      assert ws[..|ws| - 1][..n] == ws[..n];
      SpansFail(ws[..|ws| - 1], n);
    }
  }

  lemma {:induction false} SpansAre(ws: seq<Window>)
    ensures Spans(ws).Success? <==> forall w :: w in ws ==> SpanOf(w).Success?
    ensures Spans(ws).Success? ==>
              |Spans(ws).value| == |ws| && forall i :: 0 <= i < |ws| ==> SpanOf(ws[i]) == Success(Spans(ws).value[i])
    decreases |ws|
  {
    if ws != [] {
      var init, last := ws[..|ws| - 1], ws[|ws| - 1];
      SpansAre(init);
      hide SpanOf;
      assert ws == init + [last];
    }
  }

  /** A window is accepted exactly when both ends are times of the day in this order; only its end may be the
      end of the day. */
  lemma {:induction false} SpanIs(w: Window, s: Span)
    ensures SpanOf(w) == Success(s)
            <==> && s.window == w && 0 <= s.from < s.to <= 1440
                 && w.start == ClockText(s.from) && w.end == (if s.to == 1440 then "24:00" else ClockText(s.to))
  {
    hide Minute, ClockText;
    if SpanOf(w).Success? {
      var x := SpanOf(w).value;
      MinuteInRange(w.start, false);
      ClockRoundTrips(x.from, w.start, false);
      MinuteInRange(w.end, true);
      if x.to == 1440 {
        ClockRoundTrips(0, w.end, true);
      } else {
        ClockRoundTrips(x.to, w.end, true);
      }
    }
    if s.window == w && 0 <= s.from < s.to <= 1440 {
      ClockRoundTrips(s.from, w.start, false);
      ClockRoundTrips(if s.to == 1440 then 0 else s.to, w.end, true);
    }
  }

  lemma {:induction false} MinuteInRange(s: string, allowEndOfDay: bool)
    ensures Minute(s, allowEndOfDay).Some? ==> 0 <= Minute(s, allowEndOfDay).value <= 1440
    ensures !allowEndOfDay && Minute(s, allowEndOfDay).Some? ==> Minute(s, allowEndOfDay).value < 1440
  {
  }

  // ----- the neighbour test is enough

  ghost predicate Apart(a: Span, b: Span) { a.to <= b.from || b.to <= a.from }

  ghost predicate PairwiseApart(s: seq<Span>) { forall i, j :: 0 <= i < j < |s| ==> Apart(s[i], s[j]) }

  predicate Proper(s: Span) { 0 <= s.from < s.to <= 1440 }

  lemma {:induction false} SpanOrderIsTotal()
    ensures TotalPreorder(SpanOrder)
  {
  }

  lemma {:induction false} NeighboursSuffice(s: seq<Span>, i: nat, j: nat)
    requires NeighboursApart(s) && i < j < |s| && forall x :: x in s ==> Proper(x)
    ensures s[i].to <= s[j].from
  {
    if i + 1 < j {
      NeighboursSuffice(s, i, j - 1);
      assert s[j - 1].to <= s[j - 1 + 1].from && s[j - 1] in s;
    } else {
      assert s[i].to <= s[i + 1].from;
    }
  }

  lemma {:induction false} SortedApart(s: seq<Span>)
    requires SortedBy(s, SpanOrder) && forall x :: x in s ==> Proper(x)
    ensures NeighboursApart(s) <==> PairwiseApart(s)
  {
    if NeighboursApart(s) {
      forall i, j | 0 <= i < j < |s| ensures Apart(s[i], s[j]) {
        NeighboursSuffice(s, i, j);
      }
    }
    if PairwiseApart(s) {
      forall i | 0 <= i < |s| - 1 ensures s[i].to <= s[i + 1].from {
        assert Apart(s[i], s[i + 1]) && SpanOrder(s[i], s[i + 1]) && s[i] in s && s[i + 1] in s;
      }
    }
  }

  /** Being pairwise apart does not depend on the order. */
  lemma {:induction false} ApartPermutes(s: seq<Span>, t: seq<Span>)
    requires multiset(s) == multiset(t) && PairwiseApart(s) && forall x :: x in s ==> Proper(x)
    ensures PairwiseApart(t)
  {
    SameMembers(s, t);
    SpansDistinct(s);
    DistinctPermutes(s, t);
    forall i, j | 0 <= i < j < |t| ensures Apart(t[i], t[j]) {
      assert t[i] in s && t[j] in s;
      var a :| 0 <= a < |s| && s[a] == t[i];
      var b :| 0 <= b < |s| && s[b] == t[j];
      assert a != b;
      assert if a < b then Apart(s[a], s[b]) else Apart(s[b], s[a]);
    }
  }

  lemma {:induction false} SpansDistinct(s: seq<Span>)
    requires PairwiseApart(s) && forall x :: x in s ==> Proper(x)
    ensures Distinct(s)
  {
    forall i, j | 0 <= i < j < |s| ensures s[i] != s[j] {
      assert Apart(s[i], s[j]) && s[i] in s && s[j] in s;
    }
  }

  lemma {:induction false} SpansAreProper(ws: seq<Window>)
    requires Spans(ws).Success?
    ensures forall x :: x in Spans(ws).value ==> Proper(x) && SpanOf(x.window) == Success(x)
  {
    SpansAre(ws);
    var spans := Spans(ws).value;
    forall x | x in spans ensures Proper(x) && SpanOf(x.window) == Success(x) {
      var i :| 0 <= i < |spans| && spans[i] == x;
      assert SpanOf(ws[i]) == Success(x);
    }
  }

  /** A list of windows is accepted exactly when all are well formed and no two of them overlap. */
  lemma {:induction false} AcceptedIs(ws: seq<Window>)
    ensures Normalized(ws).Success?
            <==> (forall w :: w in ws ==> SpanOf(w).Success?) && Spans(ws).Success? && PairwiseApart(Spans(ws).value)
  {
    SpansAre(ws);
    if Spans(ws).Success? {
      var spans := Spans(ws).value;
      var sorted := SortBy(spans, SpanOrder);
      SpansAreProper(ws);
      SpanOrderIsTotal();
      SortSorts(spans, SpanOrder);
      SameMembers(spans, sorted);
      hide SpanOf, PairwiseApart, NeighboursApart, SortBy;
      SortedApart(sorted);
      if PairwiseApart(spans) {
        ApartPermutes(spans, sorted);
      }
      if PairwiseApart(sorted) {
        ApartPermutes(sorted, spans);
      }
    }
  }

  // ----- normalising twice, and the length of a day

  lemma {:induction false} SpansOfWindows(s: seq<Span>)
    requires forall x :: x in s ==> SpanOf(x.window) == Success(x)
    ensures Spans(WindowsOf(s)) == Success(s)
    decreases |s|
  {
    hide SpanOf, Map;
    if s != [] {
      var init, last := s[..|s| - 1], s[|s| - 1];
      SpansOfWindows(init);
      assert last in s && SpanOf(last.window) == Success(last);
      assert s == init + [last];
      MapConcat(init, [last], (x: Span) => x.window);
      SpansSnoc(WindowsOf(init), last.window);
    }
  }

  lemma {:induction false} SpansSnoc(ws: seq<Window>, w: Window)
    requires Spans(ws).Success? && SpanOf(w).Success?
    ensures Spans(ws + [w]) == Success(Spans(ws).value + [SpanOf(w).value])
  {
    hide SpanOf;
    assert (ws + [w])[..|ws|] == ws;
  }

  /** The result is in order, lists the same windows, and normalising it again changes nothing. */
  lemma {:induction false} NormalizedIsStable(ws: seq<Window>)
    requires Normalized(ws).Success?
    ensures multiset(Normalized(ws).value) == multiset(ws)
    ensures Normalized(Normalized(ws).value) == Normalized(ws)
  {
    hide SpanOf, SpanOrder, NeighboursApart, Spans, SortBy;
    var spans := Spans(ws).value;
    var sorted := SortBy(spans, SpanOrder);
    SpansAreProper(ws);
    SpanOrderIsTotal();
    SortSorts(spans, SpanOrder);
    SameMembers(spans, sorted);
    SpansOfWindows(sorted);
    SortOfSorted(sorted, SpanOrder);
    WindowsOfSpans(ws);
    MapPermutes(spans, sorted, (x: Span) => x.window);
  }

  lemma {:induction false} WindowsOfSpans(ws: seq<Window>)
    requires Spans(ws).Success?
    ensures WindowsOf(Spans(ws).value) == ws
  {
    SpansAre(ws);
    var spans := Spans(ws).value;
    forall i | 0 <= i < |ws| ensures WindowsOf(spans)[i] == ws[i] {
      assert SpanOf(ws[i]) == Success(spans[i]);
    }
  }

  /** The windows come out one after the other: each ends before the next begins. */
  lemma {:induction false} NormalizedIsInOrder(ws: seq<Window>, i: nat, j: nat, a: Span, b: Span)
    requires Normalized(ws).Success? && i < j < |Normalized(ws).value|
    requires SpanOf(Normalized(ws).value[i]) == Success(a) && SpanOf(Normalized(ws).value[j]) == Success(b)
    ensures a.to <= b.from
  {
    hide SpanOf, Spans, SpanOrder, SortBy;
    var spans := Spans(ws).value;
    var sorted := SortBy(spans, SpanOrder);
    SpansAreProper(ws);
    SameMembers(spans, sorted);
    NeighboursSuffice(sorted, i, j);
    assert sorted[i] in sorted && sorted[j] in sorted;
  }

  function Total(s: seq<Span>): int {
    if s == [] then 0 else Total(s[..|s| - 1]) + (s[|s| - 1].to - s[|s| - 1].from)
  }

  lemma {:induction false} TotalIsBounded(s: seq<Span>)
    requires NeighboursApart(s) && forall x :: x in s ==> Proper(x)
    ensures Total(s) <= if s == [] then 0 else s[|s| - 1].to
  {
    if |s| > 0 {
      var init := s[..|s| - 1];
      assert s[|s| - 1] in s;
      assert forall x :: x in init ==> x in s;
      forall i | 0 <= i < |init| - 1 ensures init[i].to <= init[i + 1].from {
        assert s[i].to <= s[i + 1].from;
      }
      TotalIsBounded(init);
      if |s| > 1 {
        assert s[|s| - 2].to <= s[|s| - 2 + 1].from;
      }
    }
  }

  /** The windows of one category of a day never add up to more than the day. */
  lemma {:induction false} WithinTheDay(ws: seq<Window>)
    requires Normalized(ws).Success?
    ensures Total(SortBy(Spans(ws).value, SpanOrder)) <= 1440
  {
    var sorted := SortBy(Spans(ws).value, SpanOrder);
    SpansAreProper(ws);
    SameMembers(sorted, Spans(ws).value);
    TotalIsBounded(sorted);
    if sorted != [] {
      assert sorted[|sorted| - 1] in sorted;
    }
  }
}

/** The whole policy: normalising, exporting and comparing. `localeCompare` is a parameter: any total
    preorder on keys. */
module Policies {
  import opened Wrappers
  import opened Sequences
  import opened Ordering
  import opened TimeWindows

  datatype Slot = Slot(day: nat, category: nat)

  const DAYS := 7
  const CATEGORIES := 4

  datatype Classification = Classification(platform: string, runtimeIdentity: string, displayName: Option<string>,
                                           class_: string)

  datatype AppQuota = AppQuota(platform: string, runtimeIdentity: string, minutes: int)

  datatype Quotas = Quotas(daily: map<string, Option<int>>, weekly: Option<int>, perApplication: Option<seq<AppQuota>>)

  /** A policy before or after normalising; a part that is absent is `None`. */
  datatype Policy = Policy(
    classifications: Option<seq<Classification>>,
    quotas: Quotas,
    timeWindows: Option<map<Slot, seq<Window>>>)

  type Order = (string, string) -> bool

  const CLASSES := {"study", "composite", "restrictedEntertainment", "unclassified", "other", "blocked"}

  const NO_DAILY: map<string, Option<int>> :=
    map["study" := None, "composite" := None, "restrictedEntertainment" := None, "unclassified" := None]

  predicate ValidClassification(c: Classification) {
    c.platform in {"windows", "macos"} && c.runtimeIdentity != "" && c.class_ in CLASSES
  }

  function KeyOf(c: Classification): string { c.platform + "\n" + c.runtimeIdentity }

  function QuotaKey(q: AppQuota): string { q.platform + "\n" + q.runtimeIdentity }

  function SortedClassifications(cs: seq<Classification>, le: Order): seq<Classification> {
    SortBy(cs, (a: Classification, b: Classification) => le(KeyOf(a), KeyOf(b)))
  }

  function SortedQuotas(qs: seq<AppQuota>, le: Order): seq<AppQuota> {
    SortBy(qs, (a: AppQuota, b: AppQuota) => le(QuotaKey(a), QuotaKey(b)))
  }

  function NormalizedClassifications(cs: Option<seq<Classification>>, le: Order): seq<Classification> {
    if cs.None? then [] else SortedClassifications(Filter(cs.value, (c: Classification) => ValidClassification(c)), le)
  }

  function NormalizedQuotas(q: Quotas, le: Order): Quotas {
    Quotas(NO_DAILY + q.daily, q.weekly,
           Some(if q.perApplication.None? then [] else SortedQuotas(q.perApplication.value, le)))
  }

  // ----- time windows of the week

  predicate ValidSlot(s: Slot) { s.day < DAYS && s.category < CATEGORIES }

  function AllOpen(): map<Slot, seq<Window>> {
    map d, c | 0 <= d < DAYS && 0 <= c < CATEGORIES :: Slot(d, c) := [Window("00:00", "24:00")]
  }

  /** Every slot of the week is present and acceptable. */
  ghost predicate WeekAccepted(value: map<Slot, seq<Window>>) {
    forall s :: ValidSlot(s) ==> s in value && Normalized(value[s]).Success?
  }

  ghost predicate IsNormalizedWeek(result: map<Slot, seq<Window>>, value: map<Slot, seq<Window>>) {
    && (forall s :: s in result <==> ValidSlot(s))
    && (forall s :: ValidSlot(s) ==>
          s in value && Normalized(value[s]).Success? && result[s] == Normalized(value[s]).value)
  }

  method NormalizeTimeWindows(value: Option<map<Slot, seq<Window>>>)
      returns (r: Result<map<Slot, seq<Window>>, WindowError>)
    ensures value.None? ==> r == Success(AllOpen())
    ensures value.Some? ==> (r.Success? <==> WeekAccepted(value.value))
    ensures value.Some? && r.Success? ==> IsNormalizedWeek(r.value, value.value)
  {
    hide Normalized, AllOpen, IsNormalizedWeek;
    if value.None? {
      return Success(AllOpen());
    }
    var week := value.value;
    var result: map<Slot, seq<Window>> := map[];
    for day := 0 to DAYS
      invariant forall s :: s in result <==> ValidSlot(s) && s.day < day
      invariant forall s :: s in result
                    ==> s in week && Normalized(week[s]).Success? && result[s] == Normalized(week[s]).value
    {
      for category := 0 to CATEGORIES
        invariant forall s :: s in result <==> ValidSlot(s) && (s.day < day || (s.day == day && s.category < category))
        invariant forall s :: s in result
                      ==> s in week && Normalized(week[s]).Success? && result[s] == Normalized(week[s]).value
      {
        var slot := Slot(day, category);
        if slot !in week {
          NotAccepted(week, slot);
          return Failure(SlotMissing);
        }
        var windows := NormalizeWindows(week[slot]);
        if windows.Failure? {
          NotAccepted(week, slot);
          return Failure(windows.error);
        }
        result := result[slot := windows.value];
      }
    }
    IsWeek(result, week);
    return Success(result);
  }

  lemma {:induction false} NotAccepted(value: map<Slot, seq<Window>>, slot: Slot)
    requires ValidSlot(slot) && (slot in value ==> Normalized(value[slot]).Failure?)
    ensures !WeekAccepted(value)
  {
    hide Normalized;
  }

  lemma {:induction false} IsWeek(result: map<Slot, seq<Window>>, value: map<Slot, seq<Window>>)
    requires forall s :: s in result <==> ValidSlot(s)
    requires forall s :: s in result
                 ==> s in value && Normalized(value[s]).Success? && result[s] == Normalized(value[s]).value
    ensures IsNormalizedWeek(result, value) && WeekAccepted(value)
  {
    hide Normalized;
  }

  function NormalizedWeek(value: map<Slot, seq<Window>>): map<Slot, seq<Window>> {
    map s | s in value && ValidSlot(s) && Normalized(value[s]).Success? :: Normalized(value[s]).value
  }

  function Week(value: Option<map<Slot, seq<Window>>>): map<Slot, seq<Window>> {
    if value.None? then AllOpen() else NormalizedWeek(value.value)
  }

  lemma {:induction false} NormalizedWeekIs(result: map<Slot, seq<Window>>, value: map<Slot, seq<Window>>)
    requires IsNormalizedWeek(result, value)
    ensures WeekAccepted(value) && result == NormalizedWeek(value)
  {
    hide Normalized;
  }

  // ----- the normaliser

  ghost predicate Acceptable(p: Policy) { p.timeWindows.Some? ==> WeekAccepted(p.timeWindows.value) }

  function NormalizedPolicy(p: Policy, le: Order): Policy {
    Policy(Some(NormalizedClassifications(p.classifications, le)), NormalizedQuotas(p.quotas, le),
           Some(Week(p.timeWindows)))
  }

  method Normalize(p: Policy, le: Order) returns (r: Result<Policy, WindowError>)
    ensures r.Success? <==> Acceptable(p)
    ensures r.Success? ==> r.value == NormalizedPolicy(p, le)
  {
    hide AllOpen, WeekAccepted, NormalizedWeek, NormalizedClassifications, NormalizedQuotas, IsNormalizedWeek;
    var week := NormalizeTimeWindows(p.timeWindows);
    if week.Failure? {
      return Failure(week.error);
    }
    if p.timeWindows.Some? {
      NormalizedWeekIs(week.value, p.timeWindows.value);
    }
    return Success(Policy(Some(NormalizedClassifications(p.classifications, le)), NormalizedQuotas(p.quotas, le),
                          Some(week.value)));
  }

  /** The platforms and classes of the program. */
  predicate Supported(c: Classification) {
    && (c.platform == "windows" || c.platform == "macos") && |c.runtimeIdentity| > 0
    && (|| c.class_ == "study" || c.class_ == "composite" || c.class_ == "restrictedEntertainment"
        || c.class_ == "unclassified" || c.class_ == "other" || c.class_ == "blocked")
  }

  /** The normal form lists exactly the supported classifications and all application quotas, each list in
      the order of its keys, fills in the daily categories that are missing, and keeps the rest. */
  lemma {:induction false} NormalFormIs(p: Policy, le: Order)
    requires TotalPreorder(le)
    ensures var n := NormalizedPolicy(p, le);
            && n.classifications.Some? && n.quotas.perApplication.Some? && n.timeWindows.Some?
            && multiset(n.classifications.value)
               == (if p.classifications.None? then multiset{}
                   else multiset(Filter(p.classifications.value, (c: Classification) => Supported(c))))
            && (forall i, j :: 0 <= i < j < |n.classifications.value| ==>
                  le(KeyOf(n.classifications.value[i]), KeyOf(n.classifications.value[j])))
            && multiset(n.quotas.perApplication.value)
               == (if p.quotas.perApplication.None? then multiset{} else multiset(p.quotas.perApplication.value))
            && (forall i, j :: 0 <= i < j < |n.quotas.perApplication.value| ==>
                  le(QuotaKey(n.quotas.perApplication.value[i]), QuotaKey(n.quotas.perApplication.value[j])))
            && n.quotas.weekly == p.quotas.weekly
  {
    hide Week, KeyOf, QuotaKey, ValidClassification, Supported;
    KeyOrderIsTotal(le);
    if p.classifications.Some? {
      forall c ensures ValidClassification(c) <==> Supported(c) {
        SupportedIs(c);
      }
      FilterAgree(p.classifications.value, (c: Classification) => ValidClassification(c),
                  (c: Classification) => Supported(c));
      SortSorts(Filter(p.classifications.value, (c: Classification) => ValidClassification(c)),
                (a: Classification, b: Classification) => le(KeyOf(a), KeyOf(b)));
    }
    if p.quotas.perApplication.Some? {
      SortSorts(p.quotas.perApplication.value, (a: AppQuota, b: AppQuota) => le(QuotaKey(a), QuotaKey(b)));
    }
  }

  lemma {:induction false} SupportedIs(c: Classification)
    ensures ValidClassification(c) <==> Supported(c)
  {
  }

  /** A daily limit that the policy gives stays; one of the four scheduled categories that it does not give is
      there without a limit, and nothing else is. */
  lemma {:induction false} DailyLimitsAre(p: Policy, le: Order, category: string)
    ensures var daily := NormalizedPolicy(p, le).quotas.daily;
            && (category in p.quotas.daily ==> category in daily && daily[category] == p.quotas.daily[category])
            && (category !in p.quotas.daily ==>
                  (category in daily
                   <==> category == "study" || category == "composite" || category == "restrictedEntertainment"
                        || category == "unclassified")
                  && (category in daily ==> daily[category] == None))
  {
    hide NormalizedClassifications, Week;
  }

  /** The week of a policy without time windows is open all day, every day and for every category; otherwise
      each of the 28 slots holds the normal form of its own windows. */
  lemma {:induction false} WeekIs(p: Policy, le: Order, day: nat, category: nat)
    requires Acceptable(p)
    ensures var week := NormalizedPolicy(p, le).timeWindows.value;
            && (Slot(day, category) in week <==> day < 7 && category < 4)
            && (day < 7 && category < 4 ==>
                  if p.timeWindows.None? then week[Slot(day, category)] == [Window("00:00", "24:00")]
                  else Normalized(p.timeWindows.value[Slot(day, category)]) == Success(week[Slot(day, category)]))
  {
    hide NormalizedClassifications, NormalizedQuotas, Normalized;
    assert day < 7 && category < 4 <==> ValidSlot(Slot(day, category));
  }

  // ----- normalising twice

  lemma {:induction false} KeyOrderIsTotal(le: Order)
    requires TotalPreorder(le)
    ensures TotalPreorder((a: Classification, b: Classification) => le(KeyOf(a), KeyOf(b)))
    ensures TotalPreorder((a: AppQuota, b: AppQuota) => le(QuotaKey(a), QuotaKey(b)))
  {
    OrderByKey(le, KeyOf, (a: Classification, b: Classification) => le(KeyOf(a), KeyOf(b)));
    OrderByKey(le, QuotaKey, (a: AppQuota, b: AppQuota) => le(QuotaKey(a), QuotaKey(b)));
  }

  lemma {:induction false} OrderByKey<T(!new)>(le: Order, key: T -> string, order: (T, T) -> bool)
    requires TotalPreorder(le) && forall a, b :: order(a, b) == le(key(a), key(b))
    ensures TotalPreorder(order)
  {
    forall a, b ensures order(a, b) || order(b, a) {
      assert le(key(a), key(b)) || le(key(b), key(a));
    }
    forall a, b, c | order(a, b) && order(b, c) ensures order(a, c) {
      assert le(key(a), key(b)) && le(key(b), key(c));
    }
  }

  lemma {:induction false} ClassificationsAreStable(cs: Option<seq<Classification>>, le: Order)
    requires TotalPreorder(le)
    ensures NormalizedClassifications(Some(NormalizedClassifications(cs, le)), le) == NormalizedClassifications(cs, le)
  {
    KeyOrderIsTotal(le);
    var once := NormalizedClassifications(cs, le);
    if cs.Some? {
      var kept := Filter(cs.value, (c: Classification) => ValidClassification(c));
      SameMembers(once, kept);
      SortSorts(kept, (a: Classification, b: Classification) => le(KeyOf(a), KeyOf(b)));
    }
    FilterAll(once, (c: Classification) => ValidClassification(c));
    SortOfSorted(once, (a: Classification, b: Classification) => le(KeyOf(a), KeyOf(b)));
  }

  lemma {:induction false} QuotasAreStable(q: Quotas, le: Order)
    requires TotalPreorder(le)
    ensures NormalizedQuotas(NormalizedQuotas(q, le), le) == NormalizedQuotas(q, le)
  {
    KeyOrderIsTotal(le);
    assert NO_DAILY + (NO_DAILY + q.daily) == NO_DAILY + q.daily;
    if q.perApplication.Some? {
      SortSorts(q.perApplication.value, (a: AppQuota, b: AppQuota) => le(QuotaKey(a), QuotaKey(b)));
      SortOfSorted(SortedQuotas(q.perApplication.value, le),
                   (a: AppQuota, b: AppQuota) => le(QuotaKey(a), QuotaKey(b)));
    }
  }

  lemma {:induction false} OpenDayIsNormal()
    ensures Normalized([Window("00:00", "24:00")]) == Success([Window("00:00", "24:00")])
  {
    var w := Window("00:00", "24:00");
    assert Minute(w.start, false) == Some(0) && Minute(w.end, true) == Some(1440);
    var span := Span(w, 0, 1440);
    assert SpanOf(w) == Success(span);
    SpansOfWindows([span]);
    assert WindowsOf([span]) == [w];
    SortOfSorted([span], SpanOrder);
  }

  lemma {:induction false} WeekIsStable(value: Option<map<Slot, seq<Window>>>)
    requires value.Some? ==> WeekAccepted(value.value)
    ensures WeekAccepted(Week(value)) && NormalizedWeek(Week(value)) == Week(value)
  {
    hide Normalized;
    OpenDayIsNormal();
    var once := Week(value);
    forall s | ValidSlot(s) ensures s in once && Normalized(once[s]) == Success(once[s]) {
      if value.Some? {
        NormalizedIsStable(value.value[s]);
      } else {
        assert s == Slot(s.day, s.category) && s in AllOpen();
      }
    }
  }

  /** Normalising a normalised policy is accepted and changes nothing. */
  lemma {:induction false} NormalizingIsIdempotent(p: Policy, le: Order)
    requires TotalPreorder(le) && Acceptable(p)
    ensures Acceptable(NormalizedPolicy(p, le))
    ensures NormalizedPolicy(NormalizedPolicy(p, le), le) == NormalizedPolicy(p, le)
  {
    hide Week, NormalizedWeek, NormalizedClassifications, NormalizedQuotas, WeekAccepted;
    ClassificationsAreStable(p.classifications, le);
    QuotasAreStable(p.quotas, le);
    WeekIsStable(p.timeWindows);
    assert Week(Some(Week(p.timeWindows)))
           == NormalizedWeek(Week(p.timeWindows)) by { WeekOfSome(Week(p.timeWindows)); }
  }

  lemma {:induction false} WeekOfSome(value: map<Slot, seq<Window>>)
    ensures Week(Some(value)) == NormalizedWeek(value)
  {
  }

  // ----- export and import

  datatype Payload = Payload(
    schemaVersion: int,
    classifications: Option<seq<Classification>>,
    perApplication: Option<seq<AppQuota>>,
    quotas: Quotas,
    timeWindows: Option<map<Slot, seq<Window>>>)

  const NO_QUOTAS := Quotas(map[], None, None)

  function ExportPayload(p: Policy, le: Order): Payload {
    var n := NormalizedPolicy(p, le);
    Payload(3, n.classifications, n.quotas.perApplication, NO_QUOTAS, None)
  }

  /** The policy an import leads to, before it is normalised. Schema 3 replaces two parts of the current
      policy; the older schemas replace all of it, and the first has no time windows of its own. */
  function Imported(before: Policy, incoming: Payload): Policy {
    if incoming.schemaVersion == 3 then
      before.(classifications := incoming.classifications,
              quotas := before.quotas.(perApplication := incoming.perApplication))
    else
      Policy(incoming.classifications, incoming.quotas,
             if incoming.schemaVersion == 1 then Some(AllOpen()) else incoming.timeWindows)
  }

  /** Schema 3 takes the classifications and the application quotas of the file and keeps all else; schema 2
      takes everything, and schema 1 everything but the windows, which are open all week. */
  lemma {:induction false} ImportTakes(before: Policy, file: Payload)
    ensures var p := Imported(before, file);
            && p.classifications == file.classifications
            && (file.schemaVersion == 3 ==>
                  p.timeWindows == before.timeWindows
                  && p.quotas == Quotas(before.quotas.daily, before.quotas.weekly, file.perApplication))
            && (file.schemaVersion != 3 ==> p.quotas == file.quotas)
            && (file.schemaVersion == 2 ==> p.timeWindows == file.timeWindows)
            && (file.schemaVersion == 1 ==>
                  p.timeWindows.Some?
                  && forall s :: s in p.timeWindows.value ==> p.timeWindows.value[s] == [Window("00:00", "24:00")])
  {
  }

  /** The last classification of a key counts. */
  function ClassMap(cs: seq<Classification>): map<string, string> {
    if cs == [] then map[] else ClassMap(cs[..|cs| - 1])[KeyOf(cs[|cs| - 1]) := cs[|cs| - 1].class_]
  }

  // ----- classifying one application

  datatype Application = Application(platform: string, runtimeIdentity: string, displayName: Option<string>)

  datatype ClassifyError = UnknownClass | BadPolicy(error: WindowError)

  function ItemFor(app: Application, class_: string): Classification {
    Classification(app.platform, app.runtimeIdentity, if app.displayName == Some("") then None else app.displayName,
                   class_)
  }

  function WithItem(cs: seq<Classification>, item: Classification): seq<Classification> {
    Filter(cs, (c: Classification) => KeyOf(c) != KeyOf(item)) + [item]
  }

  function ClassifiedPolicy(p: Policy, app: Application, class_: string, le: Order): Policy {
    var next := NormalizedPolicy(p, le);
    NormalizedPolicy(next.(classifications := Some(WithItem(NormalizedClassifications(p.classifications, le),
                                                            ItemFor(app, class_)))), le)
  }

  method Classify(p: Policy, app: Application, class_: string, le: Order) returns (r: Result<Policy, ClassifyError>)
    requires TotalPreorder(le)
    ensures r.Success? <==> class_ in CLASSES && Acceptable(p)
    ensures r.Success? ==> r.value == ClassifiedPolicy(p, app, class_, le)
  {
    hide Week, NormalizedClassifications, NormalizedQuotas, WeekAccepted, WithItem, ItemFor;
    if class_ !in CLASSES {
      return Failure(UnknownClass);
    }
    var next := Normalize(p, le);
    if next.Failure? {
      return Failure(BadPolicy(next.error));
    }
    NormalizingIsIdempotent(p, le);
    var edited := next.value.(classifications := Some(WithItem(next.value.classifications.value,
                                                               ItemFor(app, class_))));
    assert Acceptable(edited);
    var result := Normalize(edited, le);
    return Success(result.value);
  }

  /** The same application is the same platform and the same identity there. */
  lemma {:induction false} KeyIs(c: Classification, d: Classification)
    requires ValidClassification(c) && ValidClassification(d)
    ensures KeyOf(c) == KeyOf(d) <==> c.platform == d.platform && c.runtimeIdentity == d.runtimeIdentity
    ensures QuotaKey(AppQuota(c.platform, c.runtimeIdentity, 0)) == KeyOf(c)
  {
    assert "windows"[0] != "macos"[0];
    assert KeyOf(c)[0] == c.platform[0] && KeyOf(d)[0] == d.platform[0];
    if c.platform == d.platform {
      assert KeyOf(c)[|c.platform| + 1..] == c.runtimeIdentity && KeyOf(d)[|d.platform| + 1..] == d.runtimeIdentity;
    }
  }

  /** The entry of an application names it by its display name, if it has one that is not empty. */
  lemma {:induction false} ItemIs(app: Application, class_: string)
    ensures var item := ItemFor(app, class_);
            && item.platform == app.platform && item.runtimeIdentity == app.runtimeIdentity && item.class_ == class_
            && (forall name :: item.displayName == Some(name) <==> app.displayName == Some(name) && name != "")
  {
  }

  predicate HasKey(k: string, c: Classification) { KeyOf(c) == k }

  function OfKey(cs: seq<Classification>, k: string): seq<Classification> {
    Filter(cs, (c: Classification) => HasKey(k, c))
  }

  lemma {:induction false} ClassMapIs(cs: seq<Classification>, k: string)
    ensures k in ClassMap(cs) <==> OfKey(cs, k) != []
    ensures k in ClassMap(cs) ==> ClassMap(cs)[k] == OfKey(cs, k)[|OfKey(cs, k)| - 1].class_
    decreases |cs|
  {
    hide KeyOf, Filter;
    if cs != [] {
      var init, last := cs[..|cs| - 1], cs[|cs| - 1];
      ClassMapIs(init, k);
      assert cs == init + [last];
      FilterSnoc(init, last, (c: Classification) => HasKey(k, c));
    }
  }

  lemma {:induction false} ClassificationSortIsStable(cs: seq<Classification>, le: Order, k: string)
    requires TotalPreorder(le)
    ensures OfKey(SortedClassifications(cs, le), k) == OfKey(cs, k)
  {
    assert le(k, k);
    SortIsStable(cs, (a: Classification, b: Classification) => le(KeyOf(a), KeyOf(b)),
                 (c: Classification) => HasKey(k, c));
  }

  lemma {:induction false} FilterWithin(cs: seq<Classification>, k: string, other: string)
    ensures OfKey(Filter(cs, (c: Classification) => KeyOf(c) != other), k) == if k == other then [] else OfKey(cs, k)
    decreases |cs|
  {
    if cs != [] {
      FilterWithin(cs[1..], k, other);
    }
  }

  /** Classifying an application gives its key that class (or no class, when the application itself is
      not one the policy accepts) and leaves every other key, the quotas and the time windows. */
  lemma {:induction false} ClassifyReplaces(p: Policy, app: Application, class_: string, le: Order)
    requires TotalPreorder(le) && Acceptable(p)
    ensures var before := NormalizedPolicy(p, le);
            var after := ClassifiedPolicy(p, app, class_, le);
            var item := ItemFor(app, class_);
            && ClassMap(after.classifications.value)
               == (if ValidClassification(item) then ClassMap(before.classifications.value)[KeyOf(item) := class_]
                   else ClassMap(before.classifications.value) - {KeyOf(item)})
            && after.quotas == before.quotas && after.timeWindows == before.timeWindows
  {
    hide Week, NormalizedQuotas, WeekAccepted, NormalizedClassifications, ClassMap, WithItem, ItemFor,
         ValidClassification, KeyOf;
    NormalizingIsIdempotent(p, le);
    var b := NormalizedClassifications(p.classifications, le);
    var item := ItemFor(app, class_);
    var after := NormalizedClassifications(Some(WithItem(b, item)), le);
    assert item.class_ == class_ by { ItemHasClass(app, class_); }
    assert forall c :: c in b ==> ValidClassification(c) by { NormalizedAreValid(p.classifications, le); }
    ClassMapAfterEdit(b, item, le);
  }

  lemma {:induction false} ItemHasClass(app: Application, class_: string)
    ensures ItemFor(app, class_).class_ == class_
  {
  }

  lemma {:induction false} NormalizedAreValid(cs: Option<seq<Classification>>, le: Order)
    ensures forall c :: c in NormalizedClassifications(cs, le) ==> ValidClassification(c)
  {
    hide ValidClassification;
    if cs.Some? {
      var kept := Filter(cs.value, (c: Classification) => ValidClassification(c));
      SameMembers(kept, SortedClassifications(kept, le));
    }
  }

  lemma {:induction false} ClassMapAfterEdit(b: seq<Classification>, item: Classification, le: Order)
    requires TotalPreorder(le) && forall c :: c in b ==> ValidClassification(c)
    ensures ClassMap(NormalizedClassifications(Some(WithItem(b, item)), le))
            == if ValidClassification(item) then ClassMap(b)[KeyOf(item) := item.class_]
               else ClassMap(b) - {KeyOf(item)}
  {
    hide ValidClassification, ClassMap, KeyOf, SortedClassifications, TotalPreorder, WithItem;
    KeptItems(b, item);
    ClassMapWithout(b, KeyOf(item));
    var rest := Filter(b, (c: Classification) => KeyOf(c) != KeyOf(item));
    ClassMapSorted(rest, le);
    ClassMapSorted(WithItem(b, item), le);
    ClassMapWithItem(b, item);
    assert (ClassMap(b) - {KeyOf(item)})[KeyOf(item) := item.class_] == ClassMap(b)[KeyOf(item) := item.class_];
  }

  lemma {:induction false} ClassMapWithItem(b: seq<Classification>, item: Classification)
    ensures ClassMap(WithItem(b, item))
            == ClassMap(Filter(b, (c: Classification) => KeyOf(c) != KeyOf(item)))[KeyOf(item) := item.class_]
  {
    hide KeyOf;
    var cs := WithItem(b, item);
    assert cs[..|cs| - 1] == Filter(b, (c: Classification) => KeyOf(c) != KeyOf(item));
  }

  lemma {:induction false} ClassMapWithout(b: seq<Classification>, key: string)
    ensures ClassMap(Filter(b, (c: Classification) => KeyOf(c) != key)) == ClassMap(b) - {key}
  {
    hide KeyOf, ClassMap, OfKey;
    var rest := Filter(b, (c: Classification) => KeyOf(c) != key);
    forall k
      ensures k in ClassMap(rest) <==> k in ClassMap(b) && k != key
      ensures k in ClassMap(rest) ==> ClassMap(rest)[k] == ClassMap(b)[k]
    {
      ClassMapIs(b, k);
      ClassMapIs(rest, k);
      FilterWithin(b, k, key);
    }
  }

  lemma {:induction false} ClassMapSorted(cs: seq<Classification>, le: Order)
    requires TotalPreorder(le)
    ensures ClassMap(SortedClassifications(cs, le)) == ClassMap(cs)
  {
    hide KeyOf, ClassMap, OfKey, SortedClassifications, TotalPreorder;
    var sorted := SortedClassifications(cs, le);
    forall k
      ensures k in ClassMap(sorted) <==> k in ClassMap(cs)
      ensures k in ClassMap(sorted) ==> ClassMap(sorted)[k] == ClassMap(cs)[k]
    {
      ClassMapIs(cs, k);
      ClassMapIs(sorted, k);
      ClassificationSortIsStable(cs, le, k);
    }
  }

  lemma {:induction false} KeptItems(b: seq<Classification>, item: Classification)
    requires forall c :: c in b ==> ValidClassification(c)
    ensures Filter(WithItem(b, item), (c: Classification) => ValidClassification(c))
            == if ValidClassification(item) then WithItem(b, item)
               else Filter(b, (c: Classification) => KeyOf(c) != KeyOf(item))
  {
    hide ValidClassification, KeyOf;
    var rest := Filter(b, (c: Classification) => KeyOf(c) != KeyOf(item));
    FilterAll(rest, (c: Classification) => ValidClassification(c));
    FilterSnoc(rest, item, (c: Classification) => ValidClassification(c));
  }

  datatype Difference = Difference(policy: Policy, added: nat, changed: nat, removed: nat, quotasChanged: bool,
                                   windowsChanged: bool)

  datatype ImportError = UnsupportedFile | BadWindows(error: WindowError)

  function Added(before: map<string, string>, after: map<string, string>): set<string> { after.Keys - before.Keys }

  function Removed(before: map<string, string>, after: map<string, string>): set<string> { before.Keys - after.Keys }

  function Changed(before: map<string, string>, after: map<string, string>): set<string> {
    set k | k in before && k in after && before[k] != after[k]
  }

  method CountChanges(before: map<string, string>, after: map<string, string>)
      returns (added: nat, changed: nat, removed: nat)
    ensures added == |Added(before, after)| && changed == |Changed(before, after)|
            && removed == |Removed(before, after)|
  {
    added, changed := CountEntered(before, after);
    removed := CountLeft(before, after);
  }

  method CountEntered(before: map<string, string>, after: map<string, string>) returns (added: nat, changed: nat)
    ensures added == |Added(before, after)| && changed == |Changed(before, after)|
  {
    hide Added, Changed;
    added, changed := 0, 0;
    ghost var entering, differing := Added(before, after), Changed(before, after);
    var rest := after.Keys;
    ghost var done: set<string> := {};
    while rest != {}
      invariant done + rest == after.Keys && done !! rest
      invariant added == |done * entering| && changed == |done * differing|
      decreases rest
    {
      var k :| k in rest;
      AddOne(done, k, entering);
      AddOne(done, k, differing);
      EnteredIs(before, after, k);
      if k in before {
        if before[k] != after[k] {
          changed := changed + 1;
        }
      } else {
        added := added + 1;
      }
      rest, done := rest - {k}, done + {k};
    }
    assert done == after.Keys;
    EnteredAreKeys(before, after);
  }

  lemma {:induction false} EnteredIs(before: map<string, string>, after: map<string, string>, k: string)
    requires k in after
    ensures k in Added(before, after) <==> k !in before
    ensures k in Changed(before, after) <==> k in before && before[k] != after[k]
  {
  }

  lemma {:induction false} EnteredAreKeys(before: map<string, string>, after: map<string, string>)
    ensures after.Keys * Added(before, after) == Added(before, after)
    ensures after.Keys * Changed(before, after) == Changed(before, after)
  {
  }

  method CountLeft(before: map<string, string>, after: map<string, string>) returns (removed: nat)
    ensures removed == |Removed(before, after)|
  {
    hide Removed;
    removed := 0;
    var rest := before.Keys;
    ghost var done: set<string> := {};
    while rest != {}
      invariant done + rest == before.Keys && done !! rest
      invariant removed == |done * Removed(before, after)|
      decreases rest
    {
      var k :| k in rest;
      AddOne(done, k, Removed(before, after));
      LeftIs(before, after, k);
      if k !in after {
        removed := removed + 1;
      }
      rest, done := rest - {k}, done + {k};
    }
    assert done == before.Keys;
    LeftAreKeys(before, after);
  }

  lemma {:induction false} LeftIs(before: map<string, string>, after: map<string, string>, k: string)
    requires k in before
    ensures k in Removed(before, after) <==> k !in after
  {
  }

  lemma {:induction false} LeftAreKeys(before: map<string, string>, after: map<string, string>)
    ensures before.Keys * Removed(before, after) == Removed(before, after)
  {
  }

  lemma {:induction false} AddOne(done: set<string>, k: string, s: set<string>)
    requires k !in done
    ensures |(done + {k}) * s| == |done * s| + if k in s then 1 else 0
  {
    if k in s {
      assert (done + {k}) * s == done * s + {k};
    } else {
      assert (done + {k}) * s == done * s;
    }
  }

  ghost function ExpectedDifference(before: Policy, after: Policy, schemaVersion: int): Difference
    requires before.classifications.Some? && after.classifications.Some?
  {
    var b, a := ClassMap(before.classifications.value), ClassMap(after.classifications.value);
    Difference(after, |Added(b, a)|, |Changed(b, a)|, |Removed(b, a)|,
               before.quotas.perApplication != after.quotas.perApplication,
               schemaVersion != 3 && before.timeWindows != after.timeWindows)
  }

  method ImportDiff(current: Policy, incoming: Payload, le: Order) returns (r: Result<Difference, ImportError>)
    ensures r.Success? <==> incoming.schemaVersion in {1, 2, 3} && Acceptable(current)
                            && Acceptable(Imported(NormalizedPolicy(current, le), incoming))
    ensures r.Success? ==>
              r.value == ExpectedDifference(NormalizedPolicy(current, le),
                                            NormalizedPolicy(Imported(NormalizedPolicy(current, le), incoming), le),
                                            incoming.schemaVersion)
  {
    hide Week, NormalizedClassifications, NormalizedQuotas, WeekAccepted, ClassMap, AllOpen;
    if incoming.schemaVersion !in {1, 2, 3} {
      return Failure(UnsupportedFile);
    }
    var before := Normalize(current, le);
    if before.Failure? {
      return Failure(BadWindows(before.error));
    }
    var after := Normalize(Imported(before.value, incoming), le);
    if after.Failure? {
      return Failure(BadWindows(after.error));
    }
    var b, a := ClassMap(before.value.classifications.value), ClassMap(after.value.classifications.value);
    var added, changed, removed := CountChanges(b, a);
    return Success(Difference(after.value, added, changed, removed,
                              before.value.quotas.perApplication != after.value.quotas.perApplication,
                              incoming.schemaVersion != 3 && before.value.timeWindows != after.value.timeWindows));
  }

  /** The counts balance: the keys after are the keys before, plus the added, minus the removed. */
  lemma {:induction false} CountsBalance(before: map<string, string>, after: map<string, string>)
    ensures |after| == |before| + |Added(before, after)| - |Removed(before, after)|
    ensures before == after
            <==> Added(before, after) == {} && Removed(before, after) == {} && Changed(before, after) == {}
  {
    hide Changed;
    NoChange(before, after);
    SetsBalance(before.Keys, after.Keys);
  }

  lemma {:induction false} SetsBalance(before: set<string>, after: set<string>)
    ensures |after| == |before| + |after - before| - |before - after|
  {
    assert before == before * after + (before - after);
    assert after == before * after + (after - before);
  }

  lemma {:induction false} NoChange(before: map<string, string>, after: map<string, string>)
    ensures before == after
            <==> Added(before, after) == {} && Removed(before, after) == {} && Changed(before, after) == {}
  {
    if Added(before, after) == {} && Removed(before, after) == {} && Changed(before, after) == {} {
      forall k | k in before ensures k in after && before[k] == after[k] {
        assert k !in Removed(before, after) && k !in Changed(before, after);
      }
      forall k | k in after ensures k in before {
        assert k !in Added(before, after);
      }
    }
  }

  /** Importing one's own export is accepted, and it changes nothing. */
  lemma {:induction false} ExportRoundTrips(p: Policy, le: Order)
    requires TotalPreorder(le) && Acceptable(p)
    ensures var before := NormalizedPolicy(p, le);
            var after := Imported(before, ExportPayload(p, le));
            && Acceptable(after)
            && NormalizedPolicy(after, le) == before
            && ExpectedDifference(before, NormalizedPolicy(after, le), 3) == Difference(before, 0, 0, 0, false, false)
  {
    NormalizingIsIdempotent(p, le);
    var before := NormalizedPolicy(p, le);
    hide NormalizedClassifications, NormalizedQuotas, Week, ClassMap, WeekAccepted;
    assert Imported(before, ExportPayload(p, le)) == before;
    var b := ClassMap(before.classifications.value);
    assert Added(b, b) == {} && Removed(b, b) == {} && Changed(b, b) == {};
  }
}
