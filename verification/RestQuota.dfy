/** Borrowing rest time from tomorrow. Days are numbered; day 0 is a Monday, and a date string of the
    program stands for a day number. */
module RestBorrowing {
  import opened Wrappers

  datatype Borrow = Borrow(from: int, amount: int, repaid: bool)

  datatype Ledger = Ledger(borrow: Option<Borrow>, lastReset: Option<int>)

  function Base(dailyRestQuota: Option<int>): int {
    if dailyRestQuota.Some? then dailyRestQuota.value else 120
  }

  predicate Sunday(day: int) { day % 7 == 6 }

  predicate Outstanding(l: Ledger) { l.borrow.Some? && !l.borrow.value.repaid }

  function Min(a: int, b: int): int { if a < b then a else b }

  function Max(a: int, b: int): int { if a > b then a else b }

  /** The rest minutes allowed on a day. */
  function EffectiveLimit(base: int, l: Ledger, today: int): int {
    if !Outstanding(l) then base
    else if today == l.borrow.value.from then base + l.borrow.value.amount
    else if today == l.borrow.value.from + 1 then Max(0, base - l.borrow.value.amount)
    else base
  }

  datatype Answer = Granted(amount: int) | AlreadyBorrowed | NoCrossWeek | WeeklyQuotaExceeded

  predicate WeekSpent(base: int, weeklyRestQuota: Option<int>, weekRestSeconds: int) {
    var limit := (if weeklyRestQuota.Some? then weeklyRestQuota.value else base * 7) * 60;
    limit > 0 && weekRestSeconds >= limit
  }

  function TryBorrow(base: int, l: Ledger, today: int, weeklyRestQuota: Option<int>, weekRestSeconds: int): (Ledger,
          Answer) {
    if Outstanding(l) then (l, AlreadyBorrowed)
    else if Sunday(today) then (l, NoCrossWeek)
    else if WeekSpent(base, weeklyRestQuota, weekRestSeconds) then (l, WeeklyQuotaExceeded)
    else (l.(borrow := Some(Borrow(today, Min(60, base), false))), Granted(Min(60, base)))
  }

  /** Once a day, or whenever it is forced, a borrow whose repayment day has passed is closed. */
  function Reset(l: Ledger, today: int, force: bool): Ledger {
    if !force && l.lastReset == Some(today) then l
    else
      var t := l.(lastReset := Some(today));
      if Outstanding(t) && today > t.borrow.value.from + 1 then
        t.(borrow := Some(t.borrow.value.(repaid := true)))
      else t
  }

  // ----- whole runs

  datatype Event = BorrowEvent(weeklyRestQuota: Option<int>, weekRestSeconds: int) | ResetEvent(force: bool)

  function Next(base: int, l: Ledger, today: int, e: Event): Ledger {
    match e
    case BorrowEvent(weekly, seconds) => TryBorrow(base, l, today, weekly, seconds).0
    case ResetEvent(force) => Reset(l, today, force)
  }

  function EndOfDay(base: int, l: Ledger, today: int, events: seq<Event>): Ledger
    decreases |events|
  {
    if events == [] then l else EndOfDay(base, Next(base, l, today, events[0]), today, events[1..])
  }

  /** The ledger at the end of each day of a run that begins without a borrow on the day `first`. */
  function LedgerAfter(base: int, first: int, days: seq<seq<Event>>, n: nat): Ledger
    requires n <= |days|
  {
    if n == 0 then Ledger(None, None)
    else EndOfDay(base, LedgerAfter(base, first, days, n - 1), first + n - 1, days[n - 1])
  }

  /** The limit in force at the end of the `n`th day. */
  function LimitOn(base: int, first: int, days: seq<seq<Event>>, n: nat): int
    requires n < |days|
  {
    EffectiveLimit(base, LedgerAfter(base, first, days, n + 1), first + n)
  }

  function SumOfLimits(base: int, first: int, days: seq<seq<Event>>, a: nat, b: nat): int
    requires a <= b <= |days|
  {
    if a == b then 0 else SumOfLimits(base, first, days, a, b - 1) + LimitOn(base, first, days, b - 1)
  }

  // ----- conservation

  predicate BorrowedOn(l: Ledger, day: int) { Outstanding(l) && l.borrow.value.from == day }

  /** What every borrow looks like, whatever happened before. */
  predicate Regular(base: int, l: Ledger, today: int) {
    l.borrow.Some? ==>
      l.borrow.value.amount == Min(60, base) && l.borrow.value.from <= today && !Sunday(l.borrow.value.from)
  }

  /** On the day after a borrow nothing can close or replace it. */
  lemma {:induction false} DayKeepsBorrow(base: int, l: Ledger, today: int, events: seq<Event>)
    requires Regular(base, l, today)
    ensures Regular(base, EndOfDay(base, l, today, events), today)
    ensures BorrowedOn(l, today - 1) ==> EndOfDay(base, l, today, events).borrow == l.borrow
    ensures BorrowedOn(EndOfDay(base, l, today, events), today - 1) ==> BorrowedOn(l, today - 1)
    decreases |events|
  {
    if events != [] {
      var l' := Next(base, l, today, events[0]);
      DayKeepsBorrow(base, l', today, events[1..]);
    }
  }

  lemma {:induction false} RunIsRegular(base: int, first: int, days: seq<seq<Event>>, n: nat)
    requires n <= |days|
    ensures Regular(base, LedgerAfter(base, first, days, n), first + n - 1)
  {
    if n > 0 {
      RunIsRegular(base, first, days, n - 1);
      DayKeepsBorrow(base, LedgerAfter(base, first, days, n - 1), first + n - 1, days[n - 1]);
    }
  }

  /** How much of the amount is on loan at the end of the day before the `n`th. */
  function OnLoan(base: int, first: int, days: seq<seq<Event>>, n: nat): int
    requires n <= |days|
  {
    if BorrowedOn(LedgerAfter(base, first, days, n), first + n - 1) then Min(60, base) else 0
  }

  /** A day's limit differs from the base by what is borrowed on it and what is repaid on it. */
  lemma {:induction false} LimitIsBalanced(base: int, first: int, days: seq<seq<Event>>, n: nat)
    requires base >= 0 && n < |days|
    ensures LimitOn(base, first, days, n) == base + OnLoan(base, first, days, n + 1) - OnLoan(base, first, days, n)
  {
    var l := LedgerAfter(base, first, days, n);
    RunIsRegular(base, first, days, n);
    RunIsRegular(base, first, days, n + 1);
    DayKeepsBorrow(base, l, first + n, days[n]);
    assert LedgerAfter(base, first, days, n + 1) == EndOfDay(base, l, first + n, days[n]);
  }

  /** Over any stretch of days the limits add up to the base, up to the loans open at its two ends. */
  lemma {:induction false} LimitsTelescope(base: int, first: int, days: seq<seq<Event>>, a: nat, b: nat)
    requires base >= 0 && a <= b <= |days|
    ensures SumOfLimits(base, first, days, a, b)
            == (b - a) * base + OnLoan(base, first, days, b) - OnLoan(base, first, days, a)
  {
    if a < b {
      LimitsTelescope(base, first, days, a, b - 1);
      LimitIsBalanced(base, first, days, b - 1);
      assert (b - 1 - a) * base + base == (b - a) * base;
    }
  }

  /** Any run of days allows the base per day, to within one hour in total. */
  lemma {:induction false} WithinOneHour(base: int, first: int, days: seq<seq<Event>>, a: nat, b: nat)
    requires base >= 0 && a <= b <= |days|
    ensures -60 <= SumOfLimits(base, first, days, a, b) - (b - a) * base <= 60
  {
    LimitsTelescope(base, first, days, a, b);
  }

  /** Every week from Monday to Sunday allows exactly seven times the base. */
  lemma {:induction false} WeekIsConserved(base: int, first: int, days: seq<seq<Event>>, a: nat)
    requires base >= 0 && a + 7 <= |days| && (first + a) % 7 == 0
    ensures SumOfLimits(base, first, days, a, a + 7) == 7 * base
  {
    RunIsRegular(base, first, days, a);
    RunIsRegular(base, first, days, a + 7);
    LimitsTelescope(base, first, days, a, a + 7);
    assert Sunday(first + a - 1) && Sunday(first + a + 7 - 1);
  }

  /** At most one borrow is outstanding: between two grants the earlier one has been closed, which
      takes until its repayment day has passed. */
  lemma {:induction false} GrantsAreApart(base: int, l: Ledger, today: int, later: int, between: seq<(int, Event)>,
                                          weekly: Option<int>, seconds: int)
    requires BorrowedOn(l, today)
    requires forall i :: 0 <= i < |between| ==> between[i].0 <= later
    requires TryBorrow(base, After(base, l, between), later, weekly, seconds).1.Granted?
    ensures later >= today + 2
    decreases |between|
  {
    if between != [] {
      var (day, e) := between[0];
      var l' := Next(base, l, day, e);
      assert l'.borrow == l.borrow || (day > today + 1 && e.ResetEvent?);
      assert forall i :: 0 <= i < |between[1..]| ==> between[1..][i] == between[i + 1];
      if l'.borrow == l.borrow {
        GrantsAreApart(base, l', today, later, between[1..], weekly, seconds);
      }
    }
  }

  function After(base: int, l: Ledger, events: seq<(int, Event)>): Ledger
    decreases |events|
  {
    if events == [] then l else After(base, Next(base, l, events[0].0, events[0].1), events[1..])
  }

  // ----- when a borrow is granted

  /** A borrow is granted exactly when none is outstanding, the day is not the last of its week and the week's
      rest is not used up; it is of one hour, or of the whole base where that is less. */
  lemma {:induction false} BorrowIsGranted(base: int, l: Ledger, today: int, weekly: Option<int>, seconds: int)
    ensures var (l', answer) := TryBorrow(base, l, today, weekly, seconds);
            var owes := l.borrow.Some? && !l.borrow.value.repaid;
            var week := if weekly.Some? then weekly.value else 7 * base;
            && (answer.Granted? <==> !owes && (today + 1) % 7 != 0 && (week > 0 ==> seconds < 60 * week))
            && (answer == AlreadyBorrowed <==> owes)
            && (answer == NoCrossWeek <==> !owes && (today + 1) % 7 == 0)
            && (answer.Granted? ==> answer.amount <= 60 && answer.amount <= base
                                    && (answer.amount == 60 || answer.amount == base)
                                    && l' == Ledger(Some(Borrow(today, answer.amount, false)), l.lastReset))
            && (!answer.Granted? ==> l' == l)
  {
  }

  /** A borrow raises the limit of its day and lowers that of the next by the same, and no other day's. */
  lemma {:induction false} BorrowMovesTime(base: int, l: Ledger, today: int, weekly: Option<int>, seconds: int,
                                           day: int)
    requires base >= 0 && TryBorrow(base, l, today, weekly, seconds).1.Granted?
    ensures var (l', answer) := TryBorrow(base, l, today, weekly, seconds);
            EffectiveLimit(base, l', day)
            == base + (if day == today then answer.amount else if day == today + 1 then -answer.amount else 0)
  {
  }

  /** A setting that is missing allows two hours a day. */
  lemma {:induction false} BaseIs(quota: Option<int>)
    ensures Base(quota) == 120 <==> quota in {None, Some(120)}
    ensures quota.Some? ==> Base(quota) == quota.value
  {
  }

  /** A reset that is not the first of its day does nothing unless it is forced; any other one is noted and
      closes a borrow exactly when the day after it has passed, keeping its day and its amount. */
  lemma {:induction false} ResetCloses(l: Ledger, today: int, force: bool)
    ensures var t := Reset(l, today, force);
            if l.lastReset == Some(today) && !force then t == l
            else
              && t.lastReset == Some(today) && (t.borrow.Some? <==> l.borrow.Some?)
              && (l.borrow.Some? ==>
                    && t.borrow.value.from == l.borrow.value.from && t.borrow.value.amount == l.borrow.value.amount
                    && (t.borrow.value.repaid <==> l.borrow.value.repaid || l.borrow.value.from <= today - 2))
  {
  }

  // ----- what the limit does on the repayment day

  predicate RestLockedByDay(limit: int, restMinutes: int) { limit > 0 && restMinutes >= limit }

  /** A limit of zero switches the daily lock off, so repaying is enforced exactly when more than the
      borrowed hour is left: with a base of at most 60 minutes the repayment day has no daily lock. */
  lemma {:induction false} RepaymentIsEnforced(base: int, l: Ledger, today: int)
    requires base >= 0 && Regular(base, l, today) && BorrowedOn(l, today - 1)
    ensures (exists m :: RestLockedByDay(EffectiveLimit(base, l, today), m)) <==> base > 60
  {
    if base > 60 {
      assert RestLockedByDay(EffectiveLimit(base, l, today), base);
    }
  }
}

/** The worker's handlers over its stored configuration. */
module RestWorker {
  import opened Wrappers
  import opened RestBorrowing

  /** The quota locks that are in force. */
  datatype Locks = Locks(online: bool, study: bool, rest: bool, undetermined: bool, weeklyRest: bool)

  const NO_LOCKS := Locks(false, false, false, false, false)

  /** A grant lifts the lock on resting, whatever set it. */
  function AfterGrant(locks: Locks): Locks {
    if locks.rest then locks.(rest := false, weeklyRest := false) else locks
  }

  /** A new day lifts every lock. */
  function AfterNewDay(locks: Locks): Locks {
    if locks.online || locks.study || locks.rest || locks.undetermined then NO_LOCKS else locks
  }

  /** A grant lifts the locks on resting if resting is locked, and no other; a new day lifts every lock unless
      only the note is left that the week was used up. */
  lemma {:induction false} LocksAfter(locks: Locks)
    ensures var t := AfterGrant(locks);
            && !t.rest && (t.weeklyRest <==> locks.weeklyRest && !locks.rest)
            && t.online == locks.online && t.study == locks.study && t.undetermined == locks.undetermined
    ensures var t := AfterNewDay(locks);
            && !t.online && !t.study && !t.rest && !t.undetermined
            && (t.weeklyRest <==> locks == Locks(false, false, false, false, true))
  {
  }

  class RestWorker {
    var dailyRestQuota: Option<int>
    var borrow: Option<Borrow>
    var lastReset: Option<int>
    var locks: Locks
    var lockedDomains: seq<string>

    constructor (dailyRestQuota: Option<int>)
      ensures this.dailyRestQuota == dailyRestQuota && Contents() == Ledger(None, None)
      ensures locks == NO_LOCKS && lockedDomains == []
    {
      this.dailyRestQuota, borrow, lastReset := dailyRestQuota, None, None;
      locks, lockedDomains := NO_LOCKS, [];
    }

    function Contents(): Ledger
      reads this
    {
      Ledger(borrow, lastReset)
    }

    method BorrowRestQuota(today: int, weeklyRestQuota: Option<int>, weekRestSeconds: int) returns (answer: Answer)
      modifies this`borrow, this`locks
      ensures (Contents(), answer) == TryBorrow(Base(dailyRestQuota), old(Contents()), today, weeklyRestQuota,
                                                weekRestSeconds)
      ensures locks == if answer.Granted? then AfterGrant(old(locks)) else old(locks)
      ensures answer.Granted? ==> !locks.rest
    {
      if borrow.Some? && !borrow.value.repaid {
        return AlreadyBorrowed;
      }
      if Sunday(today) {
        return NoCrossWeek;
      }
      var dailyLimit := Base(dailyRestQuota);
      if WeekSpent(dailyLimit, weeklyRestQuota, weekRestSeconds) {
        return WeeklyQuotaExceeded;
      }
      var amount := Min(60, dailyLimit);
      borrow := Some(Borrow(today, amount, false));
      if locks.rest {
        locks := locks.(rest := false, weeklyRest := false);
      }
      return Granted(amount);
    }

    method ResetDailyLockedDomains(today: int, force: bool)
      modifies this`borrow, this`lastReset, this`locks, this`lockedDomains
      ensures Contents() == Reset(old(Contents()), today, force)
      ensures if !force && old(lastReset) == Some(today) then locks == old(locks) && lockedDomains == old(lockedDomains)
              else locks == AfterNewDay(old(locks)) && lockedDomains == []
      ensures force || old(lastReset) != Some(today)
              ==> !locks.online && !locks.study && !locks.rest && !locks.undetermined
    {
      if !force && lastReset == Some(today) {
        return;
      }
      lastReset := Some(today);
      if lockedDomains != [] {
        lockedDomains := [];
      }
      if locks.online || locks.study || locks.rest || locks.undetermined {
        locks := NO_LOCKS;
      }
      if borrow.Some? && !borrow.value.repaid {
        if today > borrow.value.from + 1 {
          borrow := Some(borrow.value.(repaid := true));
        }
      }
    }
  }
}
