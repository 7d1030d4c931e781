/** Foreground ("condition A") time: a start point that is set while the user looks at a known page.
    Each handler runs without interruption at a time in milliseconds. Times are positive, as those of a clock
    are: the worker takes a start point of 0 for none. */
module ForegroundTime {
  import opened Wrappers

  /** `domain` is empty when no web page is active; `stats` holds the seconds credited so far. */
  datatype State = State(
    start: Option<int>,
    tab: Option<int>,
    domain: string,
    focused: bool,
    idle: bool,
    stats: map<string, int>)

  function Credited(s: State, d: string): int { if d in s.stats then s.stats[d] else 0 }

  function AddDomainTime(s: State, seconds: int): State {
    s.(stats := s.stats[s.domain := Credited(s, s.domain) + seconds])
  }

  // ----- the two building blocks

  function Flush(s: State, now: int): State {
    if s.start.None? || s.domain == "" then s
    else
      var elapsed := (now - s.start.value) / 1000;
      var t := s.(start := None);
      if elapsed <= 0 then t else AddDomainTime(t, elapsed)
  }

  function Resume(s: State, now: int): State {
    if s.focused && !s.idle && s.domain != "" then s.(start := Some(now)) else s
  }

  // ----- the handlers

  /** The active tab of a window that gains the focus. Its address may be none of a site, and there may be no tab. */
  datatype Page = NoPage | SpecialPage(id: int) | SitePage(id: int, site: string)

  /** What the page on screen is, and whether it is looked at: the active tab of the window that had the focus
      last, its site (empty for a page of no site), whether that window has the focus still, and whether the
      user is idle. */
  datatype View = View(tab: Option<int>, site: string, focused: bool, idle: bool)

  /** A tab can be activated in the window in front or in another one; the handler does not ask which. `Woken`
      is a worker that was stopped and begins again with its defaults, and `Unseen` a change of what is on
      screen that no handler hears of, such as a tab that moves to another window. */
  datatype Event =
    | Tick
    | KeepAlive
    | IdleChanged(active: bool)
    | TabActivated(id: int, site: string, inFront: bool)
    | TabRemoved(id: int)
    | TabUpdated(id: int, site: string)
    | FocusLost
    | FocusGained(page: Page)
    | Woken
    | Unseen(view: View)

  function TickTimer(s: State, now: int): State {
    if s.start.None? || s.domain == "" then s
    else
      var elapsed := (now - s.start.value) / 1000;
      var t := if elapsed > 0 then AddDomainTime(s, elapsed) else s;
      t.(start := if s.focused && !s.idle then Some(now) else None)
  }

  function Next(s: State, now: int, e: Event): State {
    match e
    case Tick => TickTimer(s, now)
    case KeepAlive => Resume(Flush(s, now), now)
    case IdleChanged(active) => if active then Resume(s.(idle := false), now) else Flush(s, now).(idle := true)
    case TabActivated(id, site, _) => Resume(Flush(s, now).(tab := Some(id), domain := site), now)
    case TabRemoved(id) => if s.tab == Some(id) then Flush(s, now).(tab := None, domain := "") else s
    case TabUpdated(id, site) =>
      if s.tab == Some(id) && site != s.domain then Resume(Flush(s, now).(domain := site), now) else s
    case FocusLost => Flush(s, now).(focused := false)
    case FocusGained(page) =>
      var t := s.(focused := true);
      var u := if page.SitePage? && (s.tab != Some(page.id) || page.site != s.domain)
               then Flush(t, now).(tab := Some(page.id), domain := page.site) else t;
      Resume(u, now)
    case Woken => State(None, None, "", true, false, s.stats)
    case Unseen(_) => s
  }

  // ----- invariant

  predicate Watching(s: State) { s.focused && !s.idle && s.domain != "" }

  /** The start point is set exactly while the window is focused, the user is not idle and the page is known. */
  predicate Inv(s: State, now: int) {
    (s.start.Some? <==> Watching(s)) && (s.start.Some? ==> s.start.value <= now)
  }

  lemma {:induction false} StepKeepsInv(s: State, before: int, now: int, e: Event)
    requires Inv(s, before) && before <= now
    ensures Inv(Next(s, now, e), now)
  {
  }

  // ----- runs

  /** Handlers run at times that never go back. */
  predicate Ordered(start: int, events: seq<(int, Event)>)
    decreases |events|
  {
    events != [] ==> start <= events[0].0 && Ordered(events[0].0, events[1..])
  }

  function After(s: State, events: seq<(int, Event)>): State
    decreases |events|
  {
    if events == [] then s else After(Next(s, events[0].0, events[0].1), events[1..])
  }

  /** The time of the last event. */
  function Until(start: int, events: seq<(int, Event)>): int {
    if events == [] then start else events[|events| - 1].0
  }

  /** Milliseconds during which the worker held the domain for the active one, the window was focused and the
      user not idle. */
  function Watched(s: State, start: int, events: seq<(int, Event)>, d: string): int
    decreases |events|
  {
    if events == [] then 0
    else
      (if Watching(s) && s.domain == d then events[0].0 - start else 0)
      + Watched(Next(s, events[0].0, events[0].1), events[0].0, events[1..], d)
  }

  /** Milliseconds since the start point, not credited yet. */
  function Running(s: State, d: string, now: int): int {
    if s.start.Some? && s.domain == d then now - s.start.value else 0
  }

  function Account(s: State, d: string, now: int): int { 1000 * Credited(s, d) + Running(s, d, now) }

  // ----- what is lost

  /** A handler that sets a new start point without crediting the time since the old one. */
  predicate BareRestart(s: State, e: Event) {
    s.start.Some?
    && ((e.IdleChanged? && e.active)
        || (e.FocusGained? && (!e.page.SitePage? || (s.tab == Some(e.page.id) && e.page.site == s.domain))))
  }

  /** A bare restart, or a worker that is stopped while time is running. */
  predicate Drops(s: State, e: Event) { BareRestart(s, e) || (e.Woken? && s.start.Some?) }

  /** The milliseconds that are dropped. */
  function Dropped(s: State, now: int, e: Event, d: string): int {
    if Drops(s, e) then Running(s, d, now) else 0
  }

  function Lost(s: State, events: seq<(int, Event)>, d: string): int
    decreases |events|
  {
    if events == [] then 0
    else
      Dropped(s, events[0].0, events[0].1, d) + Lost(Next(s, events[0].0, events[0].1), events[1..], d)
  }

  lemma {:induction false} TimePasses(s: State, before: int, now: int, d: string)
    requires Inv(s, before) && before <= now
    ensures Account(s, d, now) == Account(s, d, before) + if Watching(s) && s.domain == d then now - before else 0
  {
  }

  lemma {:induction false} FlushAccounts(s: State, now: int, d: string)
    requires s.start.Some? ==> s.start.value <= now && s.domain != ""
    ensures var t := Flush(s, now);
            && t == s.(start := t.start, stats := t.stats) && t.start.None?
            && Account(s, d, now) - 999 <= Account(t, d, now) <= Account(s, d, now)
  {
  }

  lemma {:induction false} TickAccounts(s: State, now: int, d: string)
    requires Inv(s, now)
    ensures Account(s, d, now) - 999 <= Account(TickTimer(s, now), d, now) <= Account(s, d, now)
  {
  }

  lemma {:induction false} DropAccounts(s: State, now: int, e: Event, d: string)
    requires Inv(s, now) && Drops(s, e)
    ensures Account(Next(s, now, e), d, now) == Account(s, d, now) - Running(s, d, now)
  {
  }

  /** A handler loses what it drops and, apart from that, less than a second; it never gains. */
  lemma {:induction false} StepAccounts(s: State, before: int, now: int, e: Event, d: string)
    requires Inv(s, before) && before <= now
    ensures Account(s, d, now) - 999 <= Account(Next(s, now, e), d, now) + Dropped(s, now, e, d) <= Account(s, d, now)
  {
    if Drops(s, e) {
      DropAccounts(s, now, e, d);
    } else {
      CreditingStepAccounts(s, now, e, d);
    }
  }

  lemma {:induction false} CreditingStepAccounts(s: State, now: int, e: Event, d: string)
    requires Inv(s, now) && !Drops(s, e)
    ensures Account(s, d, now) - 999 <= Account(Next(s, now, e), d, now) <= Account(s, d, now)
  {
    hide Flush, AddDomainTime;
    TickAccounts(s, now, d);
    FlushAccounts(s, now, d);
    FlushAccounts(s.(focused := true), now, d);
  }

  /** Only rounding is lost in a step exactly when it drops nothing, or no more than 999 milliseconds. */
  lemma {:induction false} StepLosesOnlyRounding(s: State, before: int, now: int, e: Event)
    requires Inv(s, before) && before <= now
    ensures Account(s, s.domain, now) - 999 <= Account(Next(s, now, e), s.domain, now)
            <==> !Drops(s, e) || now - s.start.value <= 999
  {
    if Drops(s, e) {
      DropAccounts(s, now, e, s.domain);
    } else {
      CreditingStepAccounts(s, now, e, s.domain);
    }
  }

  /** The time of every run is accounted for: what is credited and what is dropped add up to the time
      watched, less the part of a second that each handler rounds away. */
  lemma {:induction false} OnlyRoundingIsLost(s: State, start: int, events: seq<(int, Event)>, d: string)
    requires Inv(s, start) && Ordered(start, events)
    ensures Account(s, d, start) + Watched(s, start, events, d) - 999 * |events|
            <= Account(After(s, events), d, Until(start, events)) + Lost(s, events, d)
            <= Account(s, d, start) + Watched(s, start, events, d)
    decreases |events|
  {
    hide Next, Account, Dropped;
    if events != [] {
      var (now, e) := events[0];
      StepKeepsInv(s, start, now, e);
      TimePasses(s, start, now, d);
      StepAccounts(s, start, now, e, d);
      OnlyRoundingIsLost(Next(s, now, e), now, events[1..], d);
      assert Until(start, events) == Until(now, events[1..]);
    }
  }

  lemma {:induction false} RunKeepsInv(s: State, start: int, events: seq<(int, Event)>)
    requires Inv(s, start) && Ordered(start, events)
    ensures Inv(After(s, events), Until(start, events))
    decreases |events|
  {
    if events != [] {
      StepKeepsInv(s, start, events[0].0, events[0].1);
      hide Next;
      RunKeepsInv(Next(s, events[0].0, events[0].1), events[0].0, events[1..]);
      assert Until(start, events) == Until(events[0].0, events[1..]);
    }
  }

  lemma {:induction false} LostIsNat(s: State, start: int, events: seq<(int, Event)>, d: string)
    requires Inv(s, start) && Ordered(start, events)
    ensures Lost(s, events, d) >= 0
    decreases |events|
  {
    if events != [] {
      StepKeepsInv(s, start, events[0].0, events[0].1);
      hide Next;
      LostIsNat(Next(s, events[0].0, events[0].1), events[0].0, events[1..], d);
    }
  }

  // ----- the page on screen

  /** The focus arrives at the page. */
  function Shown(page: Page, idle: bool): View {
    match page
    case NoPage => View(None, "", true, idle)
    case SpecialPage(id) => View(Some(id), "", true, idle)
    case SitePage(id, site) => View(Some(id), site, true, idle)
  }

  /** How an event changes what is on screen, whether or not the worker takes notice. */
  function Look(v: View, e: Event): View {
    match e
    case IdleChanged(active) => v.(idle := !active)
    case TabActivated(id, site, inFront) => if inFront then v.(tab := Some(id), site := site) else v
    case TabRemoved(id) => if v.tab == Some(id) then v.(tab := None, site := "") else v
    case TabUpdated(id, site) => if v.tab == Some(id) then v.(site := site) else v
    case FocusLost => v.(focused := false)
    case FocusGained(page) => Shown(page, v.idle)
    case Unseen(view) => view
    case _ => v
  }

  /** The user looks at a page of the domain. */
  predicate Showing(v: View, d: string) { v.focused && !v.idle && v.site == d }

  /** Milliseconds during which a page of the domain was on screen, its window focused and the user not idle. */
  function OnScreen(v: View, start: int, events: seq<(int, Event)>, d: string): int
    decreases |events|
  {
    if events == [] then 0
    else
      (if Showing(v, d) then events[0].0 - start else 0) + OnScreen(Look(v, events[0].1), events[0].0, events[1..], d)
  }

  /** Milliseconds watched for the domain while the user did not look at it. */
  function Astray(s: State, v: View, start: int, events: seq<(int, Event)>, d: string): int
    decreases |events|
  {
    if events == [] then 0
    else
      (if Watching(s) && s.domain == d && !Showing(v, d) then events[0].0 - start else 0)
      + Astray(Next(s, events[0].0, events[0].1), Look(v, events[0].1), events[0].0, events[1..], d)
  }

  /** Milliseconds on screen that are not watched for the domain. */
  function Missed(s: State, v: View, start: int, events: seq<(int, Event)>, d: string): int
    decreases |events|
  {
    if events == [] then 0
    else
      (if Showing(v, d) && !(Watching(s) && s.domain == d) then events[0].0 - start else 0)
      + Missed(Next(s, events[0].0, events[0].1), Look(v, events[0].1), events[0].0, events[1..], d)
  }

  lemma {:induction false} WatchedIsOnScreen(s: State, v: View, start: int, events: seq<(int, Event)>, d: string)
    requires Ordered(start, events)
    ensures Watched(s, start, events, d) + Missed(s, v, start, events, d)
            == OnScreen(v, start, events, d) + Astray(s, v, start, events, d)
    ensures Missed(s, v, start, events, d) >= 0
    decreases |events|
  {
    hide Next, Look;
    if events != [] {
      WatchedIsOnScreen(Next(s, events[0].0, events[0].1), Look(v, events[0].1), events[0].0, events[1..], d);
    }
  }

  /** The worker follows the tab in front, of a focused window, and takes the user for active only if so. */
  predicate Tracked(s: State, v: View) {
    v.focused && s.tab == v.tab && s.domain in {"", v.site} && (v.idle ==> s.idle)
  }

  predicate FollowsNone(s: State) { s.tab == None && s.domain == "" }

  /** Nothing can be credited wrongly yet: the worker takes the window for unfocused, or follows no tab, or
      knows what is on screen. */
  predicate Safe(s: State, v: View) { !s.focused || FollowsNone(s) || Tracked(s, v) }

  /** An event that leaves the worker with a tab that the user does not look at:
      a page of no site gets the focus while another tab is followed; a tab is activated that is not in
      front; either happens to a site while the worker wrongly takes the user for active, or to a worker
      that wrongly takes the window for focused; or the screen changes unseen. */
  predicate Blind(s: State, v: View, e: Event) {
    match e
    case FocusGained(SitePage(_, _)) => v.idle && !s.idle
    case FocusGained(page) =>
      !FollowsNone(s) && !(s.domain == "" && s.tab == Shown(page, v.idle).tab && (v.idle ==> s.idle))
    case TabActivated(id, site, inFront) =>
      s.focused && !(v.focused && (v.idle ==> s.idle) && (inFront || (v.tab == Some(id) && site in {"", v.site})))
    case Unseen(view) => !Safe(s, view)
    case _ => false
  }

  /** An event after which the worker at once watches what the user does not look at. */
  predicate Misleads(s: State, v: View, e: Event) {
    match e
    case FocusGained(SitePage(_, site)) => site != "" && !s.idle && v.idle
    case FocusGained(_) => s.domain != "" && !s.idle
    case TabActivated(_, site, inFront) =>
      s.focused && !s.idle && site != "" && !(v.focused && !v.idle && (inFront || v.site == site))
    case Unseen(view) => Watching(s) && !Showing(view, s.domain)
    case _ => false
  }

  predicate AnyBlind(s: State, v: View, events: seq<(int, Event)>)
    decreases |events|
  {
    events != []
    && (Blind(s, v, events[0].1) || AnyBlind(Next(s, events[0].0, events[0].1), Look(v, events[0].1), events[1..]))
  }

  lemma {:induction false} FlushFollows(s: State, now: int)
    ensures var t := Flush(s, now);
            t.tab == s.tab && t.domain == s.domain && t.focused == s.focused && t.idle == s.idle
  {
  }

  /** What the worker takes the tab, the domain, the focus and the idleness for after an event. */
  lemma {:induction false} NextFollows(s: State, now: int, e: Event)
    ensures var t := Next(s, now, e);
            && t.focused == (if e.FocusLost? then false else if e.FocusGained? || e.Woken? then true else s.focused)
            && t.idle == (if e.IdleChanged? then !e.active else if e.Woken? then false else s.idle)
            && t.tab == (if e.TabActivated? then Some(e.id)
                         else if e.FocusGained? && e.page.SitePage? then Some(e.page.id)
                         else if e.Woken? || (e.TabRemoved? && s.tab == Some(e.id)) then None else s.tab)
            && t.domain == (if e.TabActivated? || (e.TabUpdated? && s.tab == Some(e.id)) then e.site
                            else if e.FocusGained? && e.page.SitePage? then e.page.site
                            else if e.Woken? || (e.TabRemoved? && s.tab == Some(e.id)) then "" else s.domain)
  {
    hide AddDomainTime, Flush;
    FlushFollows(s, now);
    FlushFollows(s.(focused := true), now);
    TickFollows(s, now);
  }

  lemma {:induction false} TickFollows(s: State, now: int)
    ensures var t := TickTimer(s, now);
            t.tab == s.tab && t.domain == s.domain && t.focused == s.focused && t.idle == s.idle
  {
  }

  /** From a safe state exactly a blind event leaves the safe states, and exactly a misleading one makes the
      worker watch at once what the user does not look at. */
  lemma {:induction false} StepKeepsSafe(s: State, v: View, now: int, e: Event)
    requires Safe(s, v)
    ensures Safe(Next(s, now, e), Look(v, e)) <==> !Blind(s, v, e)
    ensures Watching(Next(s, now, e)) && !Showing(Look(v, e), Next(s, now, e).domain) <==> Misleads(s, v, e)
  {
    hide Next;
    NextFollows(s, now, e);
  }

  /** In any state: activating a tab in front or focusing a window that shows a site puts right which page
      the worker follows, a change of focus puts right the focus, and a change of idleness the idleness. */
  lemma {:induction false} StepRestoresTracking(s: State, v: View, now: int, e: Event)
    ensures (e.TabActivated? && e.inFront) || (e.FocusGained? && e.page.SitePage?)
            ==> Next(s, now, e).tab == Look(v, e).tab && Next(s, now, e).domain == Look(v, e).site
    ensures e.FocusGained? || e.FocusLost? ==> Next(s, now, e).focused == Look(v, e).focused
    ensures e.IdleChanged? ==> Next(s, now, e).idle == Look(v, e).idle
  {
  }

  lemma {:induction false} NeverAstray(s: State, v: View, start: int, events: seq<(int, Event)>, d: string)
    requires Safe(s, v) && !AnyBlind(s, v, events)
    ensures Astray(s, v, start, events, d) == 0
    decreases |events|
  {
    hide Next, Look, Blind;
    if events != [] {
      var (now, e) := events[0];
      StepKeepsSafe(s, v, now, e);
      NeverAstray(Next(s, now, e), Look(v, e), now, events[1..], d);
    }
  }

  /** Without a blind event no domain is credited with more than its time on screen. */
  lemma {:induction false} OnScreenBound(s: State, v: View, start: int, events: seq<(int, Event)>, d: string)
    requires Inv(s, start) && Ordered(start, events) && Safe(s, v) && !AnyBlind(s, v, events)
    ensures Account(After(s, events), d, Until(start, events)) + Lost(s, events, d)
            <= Account(s, d, start) + OnScreen(v, start, events, d)
  {
    hide Account, Safe;
    OnlyRoundingIsLost(s, start, events, d);
    WatchedIsOnScreen(s, v, start, events, d);
    NeverAstray(s, v, start, events, d);
  }

  // ----- runs of a worker

  /** A worker that starts asks for the focused window, its page and the idle state. */
  function Started(focused: bool, page: Page, idle: bool, now: int): State {
    var known := focused && page.SitePage?;
    Resume(State(None, if known then Some(page.id) else None, if known then page.site else "", focused, idle, map[]),
           now)
  }

  /** A started worker follows the page of the focused window if it shows a site, and has credited nothing. */
  lemma {:induction false} StartedFollows(focused: bool, page: Page, idle: bool, now: int)
    ensures var s := Started(focused, page, idle, now);
            && s.focused == focused && s.idle == idle && s.stats == map[] && Inv(s, now)
            && (focused ==> s.domain == Shown(page, idle).site)
            && (focused && page.SitePage? ==> s.tab == Shown(page, idle).tab)
            && (focused && s.domain != "" && !idle ==> s.start == Some(now))
  {
  }

  /** The whole account of a run from the start of a worker: the seconds credited, the time dropped and the
      time on screen that was missed add up to the time on screen and the time astray. */
  lemma {:induction false} CreditIsExplained(focused: bool, page: Page, idle: bool, v: View, start: int,
                                             events: seq<(int, Event)>, d: string)
    requires Ordered(start, events)
    ensures var s := Started(focused, page, idle, start);
            var credit := Account(After(s, events), d, Until(start, events));
            var explained := OnScreen(v, start, events, d) + Astray(s, v, start, events, d);
            explained - 999 * |events| <= credit + Lost(s, events, d) + Missed(s, v, start, events, d) <= explained
  {
    var s := Started(focused, page, idle, start);
    OnlyRoundingIsLost(s, start, events, d);
    WatchedIsOnScreen(s, v, start, events, d);
  }

  /** From the start of a worker and without a blind event, the seconds credited to a domain never exceed
      the time it was on screen. What is on screen while no window is focused at the start does not matter. */
  lemma {:induction false} CreditIsBounded(focused: bool, page: Page, idle: bool, v: View, start: int,
                                           events: seq<(int, Event)>, d: string)
    requires Ordered(start, events) && (focused ==> v == Shown(page, idle))
    requires !AnyBlind(Started(focused, page, idle, start), v, events)
    ensures var s := Started(focused, page, idle, start);
            1000 * Credited(After(s, events), d) <= OnScreen(v, start, events, d)
  {
    var s := Started(focused, page, idle, start);
    OnScreenBound(s, v, start, events, d);
    LostIsNat(s, start, events, d);
    RunKeepsInv(s, start, events);
  }

  // ----- the condition is exact

  /** Every continuation of the event stays within the time on screen. */
  ghost predicate StaysBounded(s: State, v: View, now: int, e: Event) {
    forall more: seq<(int, Event)>, d ::
      Ordered(now, more) && !AnyBlind(Next(s, now, e), Look(v, e), more) ==> WithinScreen(s, v, now, e, more, d)
  }

  predicate WithinScreen(s: State, v: View, now: int, e: Event, more: seq<(int, Event)>, d: string)
    requires Ordered(now, more)
  {
    Account(After(Next(s, now, e), more), d, Until(now, more))
    <= Account(s, d, now) + OnScreen(Look(v, e), now, more, d)
  }

  // ----- runs of three events

  function Time(counts: bool, dt: int): int { if counts then dt else 0 }

  lemma {:induction false} ThreeEvents(s: State, v: View, start: int, a: (int, Event), b: (int, Event), c: (int, Event),
                                       d: string)
    ensures var events := [a, b, c];
            var s1 := Next(s, a.0, a.1);
            var s2 := Next(s1, b.0, b.1);
            var v1 := Look(v, a.1);
            var v2 := Look(v1, b.1);
            && After(s, events) == Next(s2, c.0, c.1) && Until(start, events) == c.0
            && (Ordered(start, events) <==> start <= a.0 <= b.0 <= c.0)
            && (AnyBlind(s, v, events) <==> Blind(s, v, a.1) || Blind(s1, v1, b.1) || Blind(s2, v2, c.1))
            && Watched(s, start, events, d)
               == Time(Watching(s) && s.domain == d, a.0 - start) + Time(Watching(s1) && s1.domain == d, b.0 - a.0)
                  + Time(Watching(s2) && s2.domain == d, c.0 - b.0)
            && OnScreen(v, start, events, d)
               == Time(Showing(v, d), a.0 - start) + Time(Showing(v1, d), b.0 - a.0) + Time(Showing(v2, d), c.0 - b.0)
            && Lost(s, events, d) == Dropped(s, a.0, a.1, d) + Dropped(s1, b.0, b.1, d) + Dropped(s2, c.0, c.1, d)
  {
    hide Next, Look, Blind, Dropped, Showing;
    var events := [a, b, c];
    var rest := events[1..];
    var last := rest[1..];
    assert rest == [b, c] && last == [c] && last[1..] == [];
    var s1 := Next(s, a.0, a.1);
    var s2 := Next(s1, b.0, b.1);
    var v2 := Look(Look(v, a.1), b.1);
    var s3 := Next(s2, c.0, c.1);
    assert After(s2, last) == After(s3, []) == s3;
    assert Lost(s2, last, d) == Dropped(s2, c.0, c.1, d) + Lost(s3, [], d);
    assert OnScreen(v2, b.0, last, d) == Time(Showing(v2, d), c.0 - b.0);
    assert Watched(s2, b.0, last, d) == Time(Watching(s2) && s2.domain == d, c.0 - b.0);
    assert AnyBlind(s2, v2, last) <==> Blind(s2, v2, c.1);
    assert Ordered(b.0, last) <==> b.0 <= c.0;
  }

  /** A state that is not safe leads astray: the user comes back, a page loads in the tab that is followed but
      not looked at (or in the tab that is looked at but not followed), and time passes. */
  function Trap(s: State, v: View, now: int, end: int): seq<(int, Event)> {
    [(now, Return(s)), (now, Load(s, v)), (end, Tick)]
  }

  function Return(s: State): Event { if s.idle then IdleChanged(true) else KeepAlive }

  function OtherSite(site: string): string { if site == "site" then "other" else "site" }

  function Load(s: State, v: View): Event {
    if s.domain == "" && s.tab.Some? then TabUpdated(s.tab.value, OtherSite(v.site))
    else if s.domain != v.site || s.tab == v.tab then KeepAlive
    else if s.tab.Some? then TabUpdated(s.tab.value, OtherSite(v.site))
    else if v.tab.Some? then TabUpdated(v.tab.value, OtherSite(v.site))
    else KeepAlive
  }

  lemma {:induction false} ReturnIs(s: State, v: View, now: int)
    requires Inv(s, now)
    ensures var s', v' := Next(s, now, Return(s)), Look(v, Return(s));
            && s' == s.(start := s'.start, stats := s'.stats, idle := false) && Inv(s', now)
            && v' == (if s.idle then v.(idle := false) else v)
            && !Blind(s, v, Return(s))
  {
    hide AddDomainTime;
    FlushAccounts(s, now, "");
  }

  lemma {:induction false} LoadIs(s: State, v: View, now: int, e: Event)
    requires Inv(s, now) && (e.KeepAlive? || (e.TabUpdated? && e.site != ""))
    ensures var s', v' := Next(s, now, e), Look(v, e);
            && s' == s.(start := s'.start, stats := s'.stats,
                        domain := if e.TabUpdated? && s.tab == Some(e.id) then e.site else s.domain)
            && v' == (if e.TabUpdated? && v.tab == Some(e.id) then v.(site := e.site) else v)
            && Inv(s', now) && !Blind(s, v, e)
  {
    hide AddDomainTime;
    FlushAccounts(s, now, "");
  }

  lemma {:induction false} TrapIsSet(s: State, v: View, now: int)
    requires Inv(s, now) && !Safe(s, v)
    ensures var s1, v1 := Next(s, now, Return(s)), Look(v, Return(s));
            var s2, v2 := Next(s1, now, Load(s, v)), Look(v1, Load(s, v));
            && Watching(s2) && Inv(s2, now) && !Showing(v2, s2.domain)
            && !Blind(s, v, Return(s)) && !Blind(s1, v1, Load(s, v)) && !Blind(s2, v2, Tick)
  {
    hide Next, Look;
    ReturnIs(s, v, now);
    LoadIs(Next(s, now, Return(s)), Look(v, Return(s)), now, Load(s, v));
  }

  /** No handler takes back what it has credited. */
  lemma {:induction false} CreditStays(s: State, now: int, e: Event, d: string)
    requires Inv(s, now)
    ensures Credited(Next(s, now, e), d) >= Credited(s, d)
  {
  }

  lemma {:induction false} BlindGoesAstray(s: State, v: View, now: int, e: Event)
      returns (more: seq<(int, Event)>, d: string)
    requires Inv(s, now) && Safe(s, v) && Blind(s, v, e)
    ensures Ordered(now, more) && !AnyBlind(Next(s, now, e), Look(v, e), more)
    ensures !WithinScreen(s, v, now, e, more, d)
  {
    hide Next, Dropped, Look, Blind, Safe, Showing, Return, Load;
    StepKeepsSafe(s, v, now, e);
    var s0, v0 := Next(s, now, e), Look(v, e);
    StepKeepsInv(s, now, now, e);
    TrapIsSet(s0, v0, now);
    var s1 := Next(s0, now, Return(s0));
    var s2 := Next(s1, now, Load(s0, v0));
    d := s2.domain;
    var end := now + 1000 + Running(s, d, now);
    more := Trap(s0, v0, now, end);
    ThreeEvents(s0, v0, now, (now, Return(s0)), (now, Load(s0, v0)), (end, Tick), d);
    StepKeepsInv(s0, now, now, Return(s0));
    CreditStays(s, now, e, d);
    CreditStays(s0, now, Return(s0), d);
    CreditStays(s1, now, Load(s0, v0), d);
    TimePasses(s2, now, end, d);
    CreditingStepAccounts(s2, end, Tick, d);
  }

  /** The bound survives an event in every continuation exactly when the event is not blind. */
  lemma {:induction false} BlindIsExact(s: State, v: View, now: int, e: Event)
    requires Inv(s, now) && Safe(s, v)
    ensures StaysBounded(s, v, now, e) <==> !Blind(s, v, e)
  {
    hide Blind, Next, Look, WithinScreen, AnyBlind, Safe, Ordered;
    if Blind(s, v, e) {
      var more, d := BlindGoesAstray(s, v, now, e);
      assert !StaysBounded(s, v, now, e);
    } else {
      forall more: seq<(int, Event)>, d: string | Ordered(now, more) && !AnyBlind(Next(s, now, e), Look(v, e), more)
        ensures WithinScreen(s, v, now, e, more, d)
      {
        NotBlindIsBounded(s, v, now, e, more, d);
      }
    }
  }

  lemma {:induction false} NotBlindIsBounded(s: State, v: View, now: int, e: Event, more: seq<(int, Event)>, d: string)
    requires Inv(s, now) && Safe(s, v) && !Blind(s, v, e)
    requires Ordered(now, more) && !AnyBlind(Next(s, now, e), Look(v, e), more)
    ensures WithinScreen(s, v, now, e, more, d)
  {
    hide Next, Blind, Account, Look, Safe;
    var s' := Next(s, now, e);
    StepKeepsInv(s, now, now, e);
    StepKeepsSafe(s, v, now, e);
    StepAccounts(s, now, now, e, d);
    DroppedIsNat(s, now, e, d);
    OnScreenBound(s', Look(v, e), now, more, d);
    LostIsNat(s', now, more, d);
  }

  lemma {:induction false} DroppedIsNat(s: State, now: int, e: Event, d: string)
    requires Inv(s, now)
    ensures Dropped(s, now, e, d) >= 0
  {
  }

  // ----- runs that go wrong

  /** A special page is credited to the site behind it: the user leaves the browser, comes back to a window
      that shows a settings page and stays for 90 seconds, all of which the site that was open before gets. */
  lemma {:induction false} SpecialPageIsCredited()
    ensures var page := SitePage(1, "site");
            var s := Started(true, page, false, 1000);
            var events := [(1000, FocusLost), (2000, FocusGained(SpecialPage(2))), (92000, Tick)];
            Ordered(1000, events) && Credited(After(s, events), "site") == 90
            && OnScreen(Shown(page, false), 1000, events, "site") == 0
  {
    var s, v := Started(true, SitePage(1, "site"), false, 1000), View(Some(1), "site", true, false);
    var a, b, c := (1000, FocusLost), (2000, FocusGained(SpecialPage(2))), (92000, Tick);
    ThreeEvents(s, v, 1000, a, b, c, "site");
    assert s == State(Some(1000), Some(1), "site", true, false, map[]);
    var s1 := Next(s, 1000, FocusLost);
    assert s1 == State(None, Some(1), "site", false, false, map[]);
    var s2 := Next(s1, 2000, FocusGained(SpecialPage(2)));
    assert s2 == State(Some(2000), Some(1), "site", true, false, map[]);
    assert Next(s2, 92000, Tick) == State(Some(92000), Some(1), "site", true, false, map["site" := 90]);
  }

  /** A tab that a script or another user interface activates in a window behind gets the time of the page in
      front, and no change of focus is needed for it. */
  lemma {:induction false} TabBehindIsCredited()
    ensures var page := SitePage(1, "site");
            var s := Started(true, page, false, 1000);
            var events := [(1000, TabActivated(3, "behind", false)), (61000, Tick), (61000, FocusLost)];
            Ordered(1000, events) && Credited(After(s, events), "behind") == 60
            && OnScreen(Shown(page, false), 1000, events, "behind") == 0
            && OnScreen(Shown(page, false), 1000, events, "site") == 60000
  {
    var s, v := Started(true, SitePage(1, "site"), false, 1000), View(Some(1), "site", true, false);
    var a, b, c := (1000, TabActivated(3, "behind", false)), (61000, Tick), (61000, FocusLost);
    ThreeEvents(s, v, 1000, a, b, c, "behind");
    ThreeEvents(s, v, 1000, a, b, c, "site");
    assert Look(v, a.1) == v && Look(v, b.1) == v;
    assert "site"[0] != "behind"[0];
    assert s == State(Some(1000), Some(1), "site", true, false, map[]);
    var s1 := Next(s, a.0, a.1);
    assert s1 == State(Some(1000), Some(3), "behind", true, false, map[]);
    var s2 := Next(s1, b.0, b.1);
    assert s2 == State(Some(61000), Some(3), "behind", true, false, map["behind" := 60]);
    assert Next(s2, c.0, c.1) == State(None, Some(3), "behind", false, false, map["behind" := 60]);
  }

  /** A worker that is stopped while no window has the focus, and woken by a tab, takes the window for focused
      and credits the tab. */
  lemma {:induction false} WokenWorkerCredits()
    ensures var s := Started(false, NoPage, false, 1000);
            var events := [(2000, Woken), (3000, TabActivated(3, "site", true)), (63000, Tick)];
            Ordered(1000, events) && Credited(After(s, events), "site") == 60
            && OnScreen(View(None, "", false, false), 1000, events, "site") == 0
  {
    var s, v := Started(false, NoPage, false, 1000), View(None, "", false, false);
    var a, b, c := (2000, Woken), (3000, TabActivated(3, "site", true)), (63000, Tick);
    ThreeEvents(s, v, 1000, a, b, c, "site");
    assert s == State(None, None, "", false, false, map[]);
    var s1 := Next(s, a.0, a.1);
    assert s1 == State(None, None, "", true, false, map[]);
    var s2 := Next(s1, b.0, b.1);
    assert s2 == State(Some(3000), Some(3), "site", true, false, map[]);
    assert Next(s2, c.0, c.1) == State(Some(63000), Some(3), "site", true, false, map["site" := 60]);
  }

  /** A bare restart really loses time: a user who changes after 90 seconds to a window that shows a settings
      page takes them from the site that was looked at. */
  lemma {:induction false} RestartLosesTime()
    ensures var page := SitePage(1, "site");
            var s := Started(true, page, false, 1000);
            var events := [(91000, FocusGained(SpecialPage(2))), (91000, Tick), (91000, FocusLost)];
            Ordered(1000, events) && Credited(After(s, events), "site") == 0
            && OnScreen(Shown(page, false), 1000, events, "site") == 90000
            && Watched(s, 1000, events, "site") == 90000 && Lost(s, events, "site") == 90000
  {
    var s, v := Started(true, SitePage(1, "site"), false, 1000), View(Some(1), "site", true, false);
    var a, b, c := (91000, FocusGained(SpecialPage(2))), (91000, Tick), (91000, FocusLost);
    ThreeEvents(s, v, 1000, a, b, c, "site");
    assert s == State(Some(1000), Some(1), "site", true, false, map[]);
    var s1 := Next(s, a.0, a.1);
    assert s1 == s.(start := Some(91000));
    assert Next(s1, b.0, b.1) == s1;
    assert Next(s1, c.0, c.1) == State(None, Some(1), "site", false, false, map[]);
  }
}

/** The worker's timing state and its handlers. */
module ForegroundTimer {
  import opened Wrappers
  import opened ForegroundTime

  class ForegroundTimer {
    var domainActiveStartTime: Option<int>
    var activeTabId: Option<int>
    var activeTabDomain: string
    var windowHasFocus: bool
    var userIsIdle: bool
    var stats: map<string, int>

    constructor (focused: bool, page: Page, idle: bool, now: int)
      ensures Contents() == Started(focused, page, idle, now)
    {
      domainActiveStartTime, activeTabId, activeTabDomain := None, None, "";
      windowHasFocus, userIsIdle, stats := focused, idle, map[];
      new;
      if focused && page.SitePage? {
        activeTabId := Some(page.id);
        activeTabDomain := page.site;
      }
      ResumeActiveTime(now);
    }

    /** A worker that is woken evaluates its module again; only the stored statistics are left. */
    constructor Wake(stats: map<string, int>)
      ensures forall was: State, now :: was.stats == stats ==> Contents() == Next(was, now, Woken)
    {
      domainActiveStartTime, activeTabId, activeTabDomain := None, None, "";
      windowHasFocus, userIsIdle, this.stats := true, false, stats;
    }

    function Contents(): State
      reads this
    {
      State(domainActiveStartTime, activeTabId, activeTabDomain, windowHasFocus, userIsIdle, stats)
    }

    method Credit(seconds: int)
      modifies this`stats
      ensures Contents() == AddDomainTime(old(Contents()), seconds)
    {
      var before := if activeTabDomain in stats then stats[activeTabDomain] else 0;
      stats := stats[activeTabDomain := before + seconds];
    }

    method FlushActiveTime(now: int)
      modifies this
      ensures Contents() == Flush(old(Contents()), now)
    {
      if domainActiveStartTime.None? || activeTabDomain == "" {
        return;
      }
      var elapsed := (now - domainActiveStartTime.value) / 1000;
      domainActiveStartTime := None;
      if elapsed <= 0 {
        return;
      }
      Credit(elapsed);
    }

    method ResumeActiveTime(now: int)
      modifies this
      ensures Contents() == Resume(old(Contents()), now)
    {
      if windowHasFocus && !userIsIdle && activeTabDomain != "" {
        domainActiveStartTime := Some(now);
      }
    }

    method HandleTickTimer(now: int)
      modifies this
      ensures Contents() == Next(old(Contents()), now, Tick)
    {
      if domainActiveStartTime.Some? && activeTabDomain != "" {
        var elapsed := (now - domainActiveStartTime.value) / 1000;
        if elapsed > 0 {
          Credit(elapsed);
        }
        domainActiveStartTime := if windowHasFocus && !userIsIdle then Some(now) else None;
      }
    }

    method OnKeepAlive(now: int)
      modifies this
      ensures Contents() == Next(old(Contents()), now, KeepAlive)
    {
      FlushActiveTime(now);
      ResumeActiveTime(now);
    }

    method OnIdleStateChanged(active: bool, now: int)
      modifies this
      ensures Contents() == Next(old(Contents()), now, IdleChanged(active))
    {
      if !active {
        FlushActiveTime(now);
        userIsIdle := true;
      } else {
        userIsIdle := false;
        ResumeActiveTime(now);
      }
    }

    /** The window of the tab is not looked at. */
    method OnTabActivated(tabId: int, site: string, ghost inFront: bool, now: int)
      modifies this
      ensures Contents() == Next(old(Contents()), now, TabActivated(tabId, site, inFront))
    {
      FlushActiveTime(now);
      activeTabId := Some(tabId);
      activeTabDomain := site;
      ResumeActiveTime(now);
    }

    method OnTabRemoved(tabId: int, now: int)
      modifies this
      ensures Contents() == Next(old(Contents()), now, TabRemoved(tabId))
    {
      if activeTabId == Some(tabId) {
        FlushActiveTime(now);
        activeTabId := None;
        activeTabDomain := "";
      }
    }

    method OnTabUpdated(tabId: int, site: string, now: int)
      modifies this
      ensures Contents() == Next(old(Contents()), now, TabUpdated(tabId, site))
    {
      if activeTabId == Some(tabId) && site != activeTabDomain {
        FlushActiveTime(now);
        activeTabDomain := site;
        ResumeActiveTime(now);
      }
    }

    method OnFocusLost(now: int)
      modifies this
      ensures Contents() == Next(old(Contents()), now, FocusLost)
    {
      FlushActiveTime(now);
      windowHasFocus := false;
    }

    method OnFocusGained(page: Page, now: int)
      modifies this
      ensures Contents() == Next(old(Contents()), now, FocusGained(page))
    {
      windowHasFocus := true;
      if page.SitePage? {
        if activeTabId != Some(page.id) || page.site != activeTabDomain {
          FlushActiveTime(now);
          activeTabId := Some(page.id);
          activeTabDomain := page.site;
        }
      }
      ResumeActiveTime(now);
    }
  }
}
