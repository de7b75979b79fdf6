/**
 The schedule columns of the tests table under one scheduler goroutine, with
 configuration requests that compute a row's replacement in one step and write
 it in a later one. One event is one statement or one computation.
 */
module Backlog {
  import opened Common
  import opened Tests
  import opened Scheduler

  /** Who computed a row's next_run_at, for which moment and from which cron. */
  datatype Origin = ByFire(at: int, cron: string) | ByRequest(at: int, cron: string)

  /** A replacement computed at `at` and not yet written. */
  datatype Request =
    | Config(id: string, update: ConfigUpdate, at: int)
    | Upload(id: string, row: TestRow, at: int)
  {
    function Cron(): string { if Config? then update.cron else row.cron }
    function Value(): Option<int> { if Config? then update.nextRunAt else row.nextRunAt }
  }

  /** A row of the page as listed: fire uses these values, not the row's current ones. */
  datatype Listed = Listed(id: string, cron: string, due: int, origin: Origin)

  /** A successful UpdateNextRunAt: the test, as listed, and the tick's moment. */
  datatype Firing = Firing(test: Listed, tick: int)

  /** origin and firings are bookkeeping; now is the current tick's moment and clock the latest one seen. */
  datatype State = State(
    tests: Table,
    origin: map<string, Origin>,
    requests: map<nat, Request>,
    page: seq<Listed>,
    now: int,
    clock: int,
    paused: bool,
    firings: seq<Firing>)

  datatype Event =
    | Pause
    | Resume
    | TickStart(now: int, ids: seq<string>)
    | Fire(updateFails: bool)
    | Compute(n: nat, request: Request)
    | Write(n: nat)
    | Delete(id: string)

  function Start(clock: int): State {
    State(map[], map[], map[], [], clock, clock, false, [])
  }

  /** A request's next_run_at, when not NULL, is what the cron library returned for the moment it was computed. */
  predicate WellComputed(next: Calendar, r: Request) {
    r.Value().Some? ==> next(r.Cron(), r.at) == r.Value()
  }

  ghost predicate Enabled(next: Calendar, s: State, e: Event) {
    match e
    case Pause => true
    case Resume => true
    case TickStart(now, ids) => s.page == [] && !s.paused && s.clock <= now && IsDuePage(ids, s.tests, now)
    case Fire(_) => s.page != []
    case Compute(n, r) => n !in s.requests && s.clock <= r.at && WellComputed(next, r)
    case Write(n) => n in s.requests
    case Delete(_) => true
  }

  function OriginOf(s: State, id: string): Origin {
    if id in s.origin then s.origin[id] else ByRequest(s.clock, "")
  }

  function List(s: State, ids: seq<string>): seq<Listed> {
    seq(|ids|, i requires 0 <= i < |ids| =>
      Listed(ids[i], if ids[i] in s.tests then s.tests[ids[i]].cron else "",
             DueAt(s.tests, ids[i]), OriginOf(s, ids[i])))
  }

  function Written(t: Table, r: Request): Table {
    match r
    case Config(id, update, _) => AfterConfig(t, id, update)
    case Upload(id, row, _) => if id in t then t else t[id := row]
  }

  /** A write takes effect on an existing row, or creates a missing one. */
  predicate Lands(t: Table, r: Request) {
    r.Config? <==> r.id in t
  }

  function Faulty(id: string, fails: bool): Faults {
    Faults(false, if fails then {id} else {}, {}, {})
  }

  function Next(next: Calendar, s: State, e: Event): State
    requires match e case Fire(_) => s.page != [] case Write(n) => n in s.requests case _ => true
  {
    match e
    case Pause => s.(paused := true)
    case Resume => s.(paused := false)
    case TickStart(now, ids) => s.(page := List(s, ids), now := now, clock := now)
    case Fire(fails) =>
      var test := s.page[0];
      var faults := Faulty(test.id, fails);
      var s' := s.(page := s.page[1..], tests := AfterFire(s.tests, test.id, test.cron, next, faults, s.now));
      if Advances(test.id, test.cron, next, faults, s.now)
      then s'.(origin := s.origin[test.id := ByFire(s.now, test.cron)], firings := s.firings + [Firing(test, s.now)])
      else s'
    case Compute(n, r) => s.(requests := s.requests[n := r], clock := r.at)
    case Write(n) =>
      var r := s.requests[n];
      var s' := s.(requests := s.requests - {n}, tests := Written(s.tests, r));
      if Lands(s.tests, r) then s'.(origin := s.origin[r.id := ByRequest(r.at, r.Cron())]) else s'
    case Delete(id) => s.(tests := s.tests - {id})
  }

  ghost predicate IsRun(next: Calendar, s: State, es: seq<Event>)
    decreases |es|, 0
  {
    es == [] || (IsRun(next, s, es[..|es| - 1]) && Enabled(next, After(next, s, es[..|es| - 1]), es[|es| - 1]))
  }

  ghost function After(next: Calendar, s: State, es: seq<Event>): State
    requires IsRun(next, s, es)
    decreases |es|, 1
  {
    if es == [] then s else Next(next, After(next, s, es[..|es| - 1]), es[|es| - 1])
  }

  /** Ticks that listed a page. */
  function Ticks(es: seq<Event>): nat {
    if es == [] then 0 else Ticks(es[..|es| - 1]) + if es[|es| - 1].TickStart? then 1 else 0
  }

  // ---------- No starvation ----------

  /** The ids a page names. */
  ghost function Named(page: seq<Listed>): set<string> {
    set test | test in page :: test.id
  }

  /** Tests due no later than `due`, apart from those in stuck. */
  ghost function Waiting(t: Table, due: int, stuck: set<string>): set<string> {
    DueIds(t, due) - stuck
  }

  /** The cron library gives the first test of the page a time past `due`. */
  predicate Passes(next: Calendar, s: State, due: int)
    requires s.page != []
  {
    var upcoming := next(s.page[0].cron, s.now);
    upcoming.Some? && upcoming.value > due
  }

  /**
   What the bound asks of one event: outside stuck, a fire moves its test past
   `due`, and a write carries no time up to `due`; the test itself is neither
   written, deleted nor fired.
   */
  ghost predicate Calm(next: Calendar, s: State, e: Event, test: string, due: int, stuck: set<string>)
    requires Enabled(next, s, e)
  {
    match e
    case Fire(fails) => s.page[0].id != test && (s.page[0].id in stuck || (!fails && Passes(next, s, due)))
    case Write(n) =>
      var r := s.requests[n];
      r.id != test && (r.id in stuck || r.Value().None? || r.Value().value > due)
    case Delete(id) => id != test
    case _ => true
  }

  ghost predicate IsCalmRun(next: Calendar, s: State, es: seq<Event>, test: string, due: int, stuck: set<string>)
    requires IsRun(next, s, es)
    decreases |es|
  {
    es == [] ||
    (IsCalmRun(next, s, es[..|es| - 1], test, due, stuck) &&
     Calm(next, After(next, s, es[..|es| - 1]), es[|es| - 1], test, due, stuck))
  }

  ghost predicate RequestsComputed(next: Calendar, s: State) {
    forall n :: n in s.requests ==> WellComputed(next, s.requests[n])
  }

  /** The test is due at `due`, on some page or not, and the moments in play are past `due`. */
  ghost predicate Awaits(next: Calendar, s: State, test: string, due: int) {
    && test in s.tests && IsDue(s.tests[test], due) && DueAt(s.tests, test) == due
    && due <= s.clock && (s.page != [] ==> due <= s.now)
  }

  lemma StepKeepsAwaits(next: Calendar, s: State, e: Event, test: string, due: int, stuck: set<string>)
    requires Enabled(next, s, e) && Awaits(next, s, test, due) && Calm(next, s, e, test, due, stuck)
    ensures Awaits(next, Next(next, s, e), test, due)
  {
  }

  lemma SetLoss<T>(a: set<T>, gone: set<T>, stuck: set<T>)
    requires gone - stuck <= a && a !! stuck
    ensures |a - gone| + |gone| <= |a| + |stuck|
  {
    SubsetSize(gone - stuck, a);
    SubsetSize(gone * stuck, stuck);
    assert gone == (gone - stuck) + gone * stuck;
    assert a - gone == a - (gone - stuck);
  }

  lemma ProperSubsetIsSmaller<T>(a: set<T>, b: set<T>, extra: T)
    requires a <= b && extra in b - a
    ensures |a| < |b|
  {
    SubsetSize(a + {extra}, b);
  }

  /** A tick that does not list the test lists 100 tests due no later. */
  lemma TickTakesAHundred(next: Calendar, s: State, e: Event, test: string, due: int, stuck: set<string>)
    requires e.TickStart? && Enabled(next, s, e) && Awaits(next, s, test, due)
    requires test !in e.ids
    ensures Named(Next(next, s, e).page) == Ids(e.ids)
    ensures Ids(e.ids) <= DueIds(s.tests, due) && |Ids(e.ids)| == PAGE_SIZE
  {
    var ids := e.ids;
    assert test in DueIds(s.tests, e.now) - Ids(ids);
    forall id | id in Ids(ids) ensures id in DueIds(s.tests, due) {
      assert DueNoLater(s.tests, id, DueIds(s.tests, e.now) - Ids(ids));
      assert id in DueIds(s.tests, e.now);
    }
    ProperSubsetIsSmaller(Ids(ids), DueIds(s.tests, e.now), test);
    var page := Next(next, s, e).page;
    forall id | id in Ids(ids) ensures id in Named(page) {
      var i :| 0 <= i < |ids| && ids[i] == id;
      assert page[i] in page && page[i].id == id;
    }
  }

  /** Between tick starts nothing joins the tests waiting outside the page. */
  lemma NothingJoins(next: Calendar, s: State, e: Event, test: string, due: int, stuck: set<string>)
    requires !e.TickStart? && Enabled(next, s, e) && Awaits(next, s, test, due) && Calm(next, s, e, test, due, stuck)
    ensures var s' := Next(next, s, e);
      Waiting(s'.tests, due, stuck) - Named(s'.page) <= Waiting(s.tests, due, stuck) - Named(s.page)
  {
    var s' := Next(next, s, e);
    if e.Fire? {
      assert s.page == [s.page[0]] + s'.page;
    }
  }

  lemma {:induction false} NamedKeepsTest(next: Calendar, s: State, e: Event, test: string, due: int,
                                          stuck: set<string>)
    requires Enabled(next, s, e) && Calm(next, s, e, test, due, stuck) && !e.TickStart?
    ensures test in Named(s.page) <==> test in Named(Next(next, s, e).page)
  {
    if e.Fire? {
      assert s.page == [s.page[0]] + s.page[1..];
    }
  }

  /** Tests waiting outside the page. */
  ghost function Outside(s: State, due: int, stuck: set<string>): set<string> {
    Waiting(s.tests, due, stuck) - Named(s.page)
  }

  /** What `ticks` ticks take from the backlog at least. */
  function Taken(stuck: set<string>, ticks: nat): int {
    (PAGE_SIZE - |stuck|) * ticks
  }

  /** The test is on the page, or ticks have cost the tests waiting outside it their share. */
  ghost predicate Bounded(s: State, test: string, due: int, stuck: set<string>, ticks: nat, r: nat) {
    test in Named(s.page) ||
    |Outside(s, due, stuck)| + Taken(stuck, ticks) <= r
  }

  lemma TickKeepsBounded(next: Calendar, s: State, e: Event, test: string, due: int, stuck: set<string>, ticks: nat,
                         r: nat)
    requires e.TickStart? && Enabled(next, s, e) && Awaits(next, s, test, due)
    requires Bounded(s, test, due, stuck, ticks, r)
    ensures Bounded(Next(next, s, e), test, due, stuck, ticks + 1, r)
  {
    var s' := Next(next, s, e);
    if test !in e.ids {
      var w := Waiting(s.tests, due, stuck);
      TickTakesAHundred(next, s, e, test, due, stuck);
      SetLoss(w, Ids(e.ids), stuck);
      assert Named(s.page) == {};
      assert w - {} == w;
      OneMoreTimes(ticks, PAGE_SIZE - |stuck|);
    } else {
      var i :| 0 <= i < |e.ids| && e.ids[i] == test;
      assert s'.page[i] in s'.page;
    }
  }

  lemma OtherStepsKeepBounded(next: Calendar, s: State, e: Event, test: string, due: int, stuck: set<string>,
                              ticks: nat, r: nat)
    requires !e.TickStart? && Enabled(next, s, e) && Awaits(next, s, test, due) && Calm(next, s, e, test, due, stuck)
    requires Bounded(s, test, due, stuck, ticks, r)
    ensures Bounded(Next(next, s, e), test, due, stuck, ticks, r)
  {
    var s' := Next(next, s, e);
    NamedKeepsTest(next, s, e, test, due, stuck);
    NothingJoins(next, s, e, test, due, stuck);
    SubsetSize(Waiting(s'.tests, due, stuck) - Named(s'.page), Waiting(s.tests, due, stuck) - Named(s.page));
  }

  lemma StepKeepsBounded(next: Calendar, s: State, e: Event, s': State, test: string, due: int, stuck: set<string>,
                         ticks: nat, ticks': nat, r: nat)
    requires Enabled(next, s, e) && Awaits(next, s, test, due) && Calm(next, s, e, test, due, stuck)
    requires Bounded(s, test, due, stuck, ticks, r)
    requires s' == Next(next, s, e) && ticks' == ticks + if e.TickStart? then 1 else 0
    ensures Awaits(next, s', test, due) && Bounded(s', test, due, stuck, ticks', r)
  {
    StepKeepsAwaits(next, s, e, test, due, stuck);
    if e.TickStart? {
      TickKeepsBounded(next, s, e, test, due, stuck, ticks, r);
    } else {
      OtherStepsKeepBounded(next, s, e, test, due, stuck, ticks, r);
    }
  }

  lemma BoundedAtStart(s: State, test: string, due: int, stuck: set<string>)
    requires s.page == []
    ensures Bounded(s, test, due, stuck, 0, |Waiting(s.tests, due, stuck)|)
  {
    assert Waiting(s.tests, due, stuck) - Named(s.page) == Waiting(s.tests, due, stuck);
  }

  lemma {:induction false} BacklogShrinks(next: Calendar, s: State, es: seq<Event>, test: string, due: int,
                                          stuck: set<string>)
    requires s.page == [] && Awaits(next, s, test, due) && IsRun(next, s, es)
    requires IsCalmRun(next, s, es, test, due, stuck)
    ensures Awaits(next, After(next, s, es), test, due)
    ensures Bounded(After(next, s, es), test, due, stuck, Ticks(es), |Waiting(s.tests, due, stuck)|)
    decreases |es|
  {
    var r := |Waiting(s.tests, due, stuck)|;
    if es == [] {
      BoundedAtStart(s, test, due, stuck);
    } else {
      var prefix := es[..|es| - 1];
      BacklogShrinks(next, s, prefix, test, due, stuck);
      StepKeepsBounded(next, After(next, s, prefix), es[|es| - 1], After(next, s, es), test, due, stuck,
                       Ticks(prefix), Ticks(es), r);
    }
  }

  /**
   No starvation. A test due when the window opens, with r tests due no later of
   which those in stuck never move, is fired before ticks complete that would
   take r at a rate of 100 less the stuck ones. With nothing stuck the bound is
   that fewer than r / 100 ticks can pass it by.
   */
  lemma {:induction false} NoStarvation(next: Calendar, s: State, es: seq<Event>, test: string, due: int,
                                        stuck: set<string>)
    requires s.page == [] && Awaits(next, s, test, due) && test !in stuck
    requires IsRun(next, s, es) && IsCalmRun(next, s, es, test, due, stuck)
    requires After(next, s, es).page == []
    ensures (PAGE_SIZE - |stuck|) * Ticks(es) < |Waiting(s.tests, due, stuck)|
  {
    BacklogShrinks(next, s, es, test, due, stuck);
    var s' := After(next, s, es);
    assert Named(s'.page) == {};
    assert test in Waiting(s'.tests, due, stuck) - Named(s'.page);
  }

  // ---------- A hundred stuck rows starve the rest ----------

  /** The row is due before `due`, and the library never gives its cron a time from `due` on. */
  ghost predicate IsStuck(next: Calendar, t: Table, id: string, due: int) {
    && id in t && IsDue(t[id], due) && DueAt(t, id) < due
    && forall now: int :: next(t[id].cron, now).Some? ==> next(t[id].cron, now).value < due
  }

  ghost predicate AllStuck(next: Calendar, t: Table, stuck: set<string>, due: int) {
    forall id :: id in stuck ==> IsStuck(next, t, id, due)
  }

  /** Nothing but ticks, fires, and requests being computed. */
  predicate OnlyTicks(es: seq<Event>) {
    forall i :: 0 <= i < |es| ==> !es[i].Write? && !es[i].Delete?
  }

  /** Pages list the rows with the crons they hold while no write intervenes. */
  ghost predicate PageIsCurrent(s: State) {
    forall listed :: listed in s.page ==> listed.id in s.tests && s.tests[listed.id].cron == listed.cron
  }

  lemma OneStuckIsUnlisted(stuck: set<string>, ids: seq<string>, test: string) returns (id: string)
    requires |stuck| >= PAGE_SIZE >= |Ids(ids)| && test in ids && test !in stuck
    ensures id in stuck && id !in ids
  {
    if stuck <= Ids(ids) {
      ProperSubsetIsSmaller(stuck, Ids(ids), test);
      assert false;
    }
    assert exists id :: id in stuck && id !in Ids(ids);
    id :| id in stuck && id !in ids;
  }

  lemma ListedComesFirst(t: Table, ids: seq<string>, now: int, id: string, other: string)
    requires IsDuePage(ids, t, now) && id in ids && other !in ids && other in t && IsDue(t[other], now)
    ensures DueAt(t, id) <= DueAt(t, other)
  {
    assert DueNoLater(t, id, DueIds(t, now) - Ids(ids));
  }

  lemma StuckPageMisses(next: Calendar, s: State, ids: seq<string>, now: int, test: string, due: int,
                        stuck: set<string>)
    requires |stuck| >= PAGE_SIZE && AllStuck(next, s.tests, stuck, due) && test !in stuck
    requires DueAt(s.tests, test) == due <= now && IsDuePage(ids, s.tests, now)
    ensures test !in ids
  {
    if test in ids {
      var id := OneStuckIsUnlisted(stuck, ids, test);
      ListedComesFirst(s.tests, ids, now, test, id);
    }
  }

  /**
   The bound on stuck rows is sharp: with 100 of them ahead of a due test, no
   run of ticks ever lists it, so it never fires.
   */
  lemma {:induction false} HundredStuckRowsStarve(next: Calendar, s: State, es: seq<Event>, test: string, due: int,
                                                  stuck: set<string>)
    requires s.page == [] && |stuck| >= PAGE_SIZE && AllStuck(next, s.tests, stuck, due)
    requires Awaits(next, s, test, due) && test !in stuck
    requires IsRun(next, s, es) && OnlyTicks(es)
    ensures var s' := After(next, s, es);
      && AllStuck(next, s'.tests, stuck, due) && Awaits(next, s', test, due)
      && test !in Named(s'.page) && PageIsCurrent(s')
    decreases |es|
  {
    if es != [] {
      var prefix, e := es[..|es| - 1], es[|es| - 1];
      HundredStuckRowsStarve(next, s, prefix, test, due, stuck);
      var s1 := After(next, s, prefix);
      var s2 := Next(next, s1, e);
      if e.TickStart? {
        StuckPageMisses(next, s1, e.ids, e.now, test, due, stuck);
        StuckTick(next, s1, e, test);
      } else if e.Fire? {
        StuckFire(next, s1, e, test, due, stuck);
      }
    }
  }

  lemma StuckTick(next: Calendar, s: State, e: Event, test: string)
    requires e.TickStart? && Enabled(next, s, e) && test !in e.ids
    ensures test !in Named(Next(next, s, e).page) && PageIsCurrent(Next(next, s, e))
  {
    var page := Next(next, s, e).page;
    forall i | 0 <= i < |page| ensures page[i].id != test && page[i].id in s.tests {
      assert page[i].id == e.ids[i];
      assert e.ids[i] in Ids(e.ids);
    }
  }

  lemma StuckFire(next: Calendar, s: State, e: Event, test: string, due: int, stuck: set<string>)
    requires e.Fire? && Enabled(next, s, e) && test !in Named(s.page) && PageIsCurrent(s)
    requires AllStuck(next, s.tests, stuck, due) && Awaits(next, s, test, due)
    ensures var s' := Next(next, s, e);
      && AllStuck(next, s'.tests, stuck, due) && Awaits(next, s', test, due)
      && test !in Named(s'.page) && PageIsCurrent(s')
  {
    var s' := Next(next, s, e);
    assert s.page[0] in s.page;
    forall id | id in stuck ensures IsStuck(next, s'.tests, id, due) {
      assert IsStuck(next, s.tests, id, due);
    }
  }

  /** The next event fires the test, with an update that succeeds and a cron that parses. */
  predicate Fires(next: Calendar, s: State, e: Event, test: string) {
    e == Fire(false) && s.page != [] && s.page[0].id == test && next(s.page[0].cron, s.now).Some?
  }

  /** Calm, except that the test itself may be fired. */
  ghost predicate Orderly(next: Calendar, s: State, e: Event, test: string, due: int, stuck: set<string>)
    requires Enabled(next, s, e)
  {
    Fires(next, s, e, test) || Calm(next, s, e, test, due, stuck)
  }

  ghost predicate IsOrderlyRun(next: Calendar, s: State, es: seq<Event>, test: string, due: int, stuck: set<string>)
    requires IsRun(next, s, es)
    decreases |es|
  {
    es == [] ||
    (IsOrderlyRun(next, s, es[..|es| - 1], test, due, stuck) &&
     Orderly(next, After(next, s, es[..|es| - 1]), es[|es| - 1], test, due, stuck))
  }

  lemma {:induction false} CalmUntilFired(next: Calendar, s: State, es: seq<Event>, test: string, due: int,
                                          stuck: set<string>)
    returns (i: nat)
    requires IsRun(next, s, es) && IsOrderlyRun(next, s, es, test, due, stuck)
    ensures i <= |es|
    ensures i == |es| ==> IsCalmRun(next, s, es, test, due, stuck)
    ensures i < |es| ==> IsRun(next, s, es[..i]) && Fires(next, After(next, s, es[..i]), es[i], test)
    decreases |es|
  {
    if es == [] {
      return 0;
    }
    var prefix := es[..|es| - 1];
    i := CalmUntilFired(next, s, prefix, test, due, stuck);
    if i < |prefix| {
      assert prefix[..i] == es[..i];
    } else if !Fires(next, After(next, s, prefix), es[|es| - 1], test) {
      i := |es|;
    }
  }

  lemma {:induction false} PrefixIsRun(next: Calendar, s: State, es: seq<Event>, k: nat)
    requires IsRun(next, s, es) && k <= |es|
    ensures IsRun(next, s, es[..k])
    decreases |es|
  {
    if k < |es| {
      PrefixIsRun(next, s, es[..|es| - 1], k);
      assert es[..|es| - 1][..k] == es[..k];
    } else {
      assert es[..k] == es;
    }
  }

  lemma FiresOnRecord(next: Calendar, s: State, es: seq<Event>, i: nat, test: string)
    requires IsRun(next, s, es) && i < |es| && IsRun(next, s, es[..i])
    requires Fires(next, After(next, s, es[..i]), es[i], test)
    ensures IsRun(next, s, es[..i + 1])
    ensures var before, after := After(next, s, es[..i]), After(next, s, es[..i + 1]);
      after.firings == before.firings + [Firing(before.page[0], before.now)]
  {
    PrefixIsRun(next, s, es, i + 1);
    assert es[..i + 1][..i] == es[..i];
  }

  /** The positive form: among enough completed ticks there is one that fires the test, and it is on record. */
  lemma {:induction false} DueTestsAreFired(next: Calendar, s: State, es: seq<Event>, test: string, due: int,
                                            stuck: set<string>)
    returns (i: nat)
    requires s.page == [] && Awaits(next, s, test, due) && test !in stuck
    requires IsRun(next, s, es) && IsOrderlyRun(next, s, es, test, due, stuck) && After(next, s, es).page == []
    requires (PAGE_SIZE - |stuck|) * Ticks(es) >= |Waiting(s.tests, due, stuck)|
    ensures i < |es| && IsRun(next, s, es[..i]) && Fires(next, After(next, s, es[..i]), es[i], test)
    ensures IsRun(next, s, es[..i + 1])
    ensures var before, after := After(next, s, es[..i]), After(next, s, es[..i + 1]);
      after.firings == before.firings + [Firing(before.page[0], before.now)]
  {
    i := CalmUntilFired(next, s, es, test, due, stuck);
    if i == |es| {
      NoStarvation(next, s, es, test, due, stuck);
    }
    FiresOnRecord(next, s, es, i, test);
  }

  /** While the scheduler stays paused no page is listed, and only a page already listed is still fired. */
  lemma {:induction false} PausedListsNothing(next: Calendar, s: State, es: seq<Event>)
    requires s.paused && IsRun(next, s, es) && Resume !in es
    ensures After(next, s, es).paused && Ticks(es) == 0
    ensures |After(next, s, es).page| <= |s.page|
    ensures |After(next, s, es).firings| + |After(next, s, es).page| <= |s.firings| + |s.page|
    decreases |es|
  {
    if es != [] {
      PausedListsNothing(next, s, es[..|es| - 1]);
    }
  }

  /** After a resume the next tick lists again whatever has come due. */
  lemma ResumedListsAgain(next: Calendar, s: State, now: int, ids: seq<string>)
    requires s.page == [] && s.clock <= now && IsDuePage(ids, s.tests, now)
    ensures var paused := Next(next, s, Pause); var resumed := Next(next, paused, Resume);
      && !Enabled(next, paused, TickStart(now, ids)) && Enabled(next, resumed, TickStart(now, ids))
      && paused.tests == s.tests && resumed.tests == s.tests
  {
  }

  /** A deleted test is gone and cannot be listed; every other row stays. */
  lemma DeletedTestsAreGone(next: Calendar, s: State, id: string, now: int, ids: seq<string>)
    ensures Next(next, s, Delete(id)).tests == s.tests - {id}
    ensures IsDuePage(ids, Next(next, s, Delete(id)).tests, now) ==> id !in ids
  {
    if IsDuePage(ids, Next(next, s, Delete(id)).tests, now) && id in ids {
      PageIsHundredEarliest(ids, s.tests - {id}, now);
    }
  }

  // ---------- One occurrence, one firing ----------

  /** A stored time is what the library answered its origin. */
  predicate Given(next: Calendar, o: Origin, due: int) {
    next(o.cron, o.at) == Some(due)
  }

  ghost predicate RowsGiven(next: Calendar, s: State) {
    forall id :: id in s.tests && s.tests[id].nextRunAt.Some? ==>
      id in s.origin && Given(next, s.origin[id], s.tests[id].nextRunAt.value)
  }

  ghost predicate ListedGiven(next: Calendar, s: State) {
    forall i :: 0 <= i < |s.page| ==> Given(next, s.page[i].origin, s.page[i].due) && s.page[i].due <= s.now
  }

  ghost predicate ListedOnce(s: State) {
    forall i, j :: 0 <= i < j < |s.page| ==> s.page[i].id != s.page[j].id
  }

  ghost predicate FiringsGiven(next: Calendar, s: State) {
    forall i :: 0 <= i < |s.firings| ==>
      var f := s.firings[i]; Given(next, f.test.origin, f.test.due) && f.test.due <= f.tick <= s.now
  }

  /** A value the scheduler wrote after firing f belongs to f's tick or a later one. */
  predicate NotBefore(f: Firing, o: Origin) {
    f.tick <= o.at || o.ByRequest?
  }

  ghost predicate RowsFollow(s: State) {
    forall i, id :: 0 <= i < |s.firings| && s.firings[i].test.id == id && id in s.origin ==>
      NotBefore(s.firings[i], s.origin[id])
  }

  ghost predicate ListedFollow(s: State) {
    forall i, j :: 0 <= i < |s.firings| && 0 <= j < |s.page| && s.firings[i].test.id == s.page[j].id ==>
      NotBefore(s.firings[i], s.page[j].origin)
  }

  ghost predicate FiringsFollow(s: State) {
    forall i, j :: 0 <= i < j < |s.firings| && s.firings[i].test.id == s.firings[j].test.id ==>
      NotBefore(s.firings[i], s.firings[j].test.origin)
  }

  ghost predicate Ordered(next: Calendar, s: State) {
    && RequestsComputed(next, s) && s.now <= s.clock
    && RowsGiven(next, s) && ListedGiven(next, s) && ListedOnce(s) && FiringsGiven(next, s)
    && RowsFollow(s) && ListedFollow(s) && FiringsFollow(s)
  }

  lemma StepKeepsRequests(next: Calendar, s: State, e: Event)
    requires Enabled(next, s, e) && RequestsComputed(next, s) && s.now <= s.clock
    ensures RequestsComputed(next, Next(next, s, e)) && Next(next, s, e).now <= Next(next, s, e).clock
  {
  }

  lemma StepKeepsRowsGiven(next: Calendar, s: State, e: Event)
    requires Enabled(next, s, e) && RequestsComputed(next, s) && RowsGiven(next, s)
    ensures RowsGiven(next, Next(next, s, e))
  {
    var s' := Next(next, s, e);
    forall id | id in s'.tests && s'.tests[id].nextRunAt.Some?
      ensures id in s'.origin && Given(next, s'.origin[id], s'.tests[id].nextRunAt.value)
    {
      if e.Write? {
        WrittenIsGiven(next, s, e.n, id);
      }
    }
  }

  lemma WrittenIsGiven(next: Calendar, s: State, n: nat, id: string)
    requires n in s.requests && WellComputed(next, s.requests[n]) && RowsGiven(next, s)
    ensures var s' := Next(next, s, Write(n));
      id in s'.tests && s'.tests[id].nextRunAt.Some? ==>
        id in s'.origin && Given(next, s'.origin[id], s'.tests[id].nextRunAt.value)
  {
  }

  lemma StepKeepsListed(next: Calendar, s: State, e: Event)
    requires Enabled(next, s, e) && RowsGiven(next, s) && ListedGiven(next, s) && ListedOnce(s)
    ensures ListedGiven(next, Next(next, s, e)) && ListedOnce(Next(next, s, e))
  {
    if e.TickStart? {
      var page := Next(next, s, e).page;
      forall i | 0 <= i < |page| ensures Given(next, page[i].origin, page[i].due) && page[i].due <= e.now {
        assert e.ids[i] in Ids(e.ids);
      }
      forall i, j | 0 <= i < j < |page| ensures page[i].id != page[j].id {
        RepeatFree(e.ids, j);
        assert e.ids[i] in e.ids[..j];
      }
    }
  }

  lemma StepKeepsFirings(next: Calendar, s: State, e: Event)
    requires Enabled(next, s, e) && s.now <= s.clock && ListedGiven(next, s) && FiringsGiven(next, s)
    ensures FiringsGiven(next, Next(next, s, e))
  {
  }

  lemma StepKeepsRowsFollow(next: Calendar, s: State, e: Event)
    requires Enabled(next, s, e) && RowsFollow(s) && FiringsGiven(next, s)
    ensures RowsFollow(Next(next, s, e))
  {
  }

  lemma StepKeepsListedFollow(next: Calendar, s: State, e: Event)
    requires Enabled(next, s, e) && RowsGiven(next, s) && RowsFollow(s) && ListedOnce(s) && ListedFollow(s)
    ensures ListedFollow(Next(next, s, e))
  {
    if e.TickStart? {
      var page := Next(next, s, e).page;
      forall i, j | 0 <= i < |s.firings| && 0 <= j < |page| && s.firings[i].test.id == page[j].id
        ensures NotBefore(s.firings[i], page[j].origin)
      {
        assert e.ids[j] in Ids(e.ids);
      }
    }
  }

  lemma StepKeepsFiringsFollow(next: Calendar, s: State, e: Event)
    requires Enabled(next, s, e) && ListedFollow(s) && FiringsFollow(s)
    ensures FiringsFollow(Next(next, s, e))
  {
  }

  lemma {:induction false} RunsStayOrdered(next: Calendar, clock: int, es: seq<Event>)
    requires IsRun(next, Start(clock), es)
    ensures Ordered(next, After(next, Start(clock), es))
    decreases |es|
  {
    if es != [] {
      var prefix, e := es[..|es| - 1], es[|es| - 1];
      RunsStayOrdered(next, clock, prefix);
      var s := After(next, Start(clock), prefix);
      StepKeepsRequests(next, s, e);
      StepKeepsRowsGiven(next, s, e);
      StepKeepsListed(next, s, e);
      StepKeepsFirings(next, s, e);
      StepKeepsRowsFollow(next, s, e);
      StepKeepsListedFollow(next, s, e);
      StepKeepsFiringsFollow(next, s, e);
    }
  }

  /** The firing acts on an occurrence that tick n1 had already covered. */
  predicate Repeats(n1: int, f: Firing) {
    f.test.due <= n1
  }

  /** The library answered the firing's origin with a time up to n1. */
  predicate IsAnsweredBy(next: Calendar, n1: int, o: Origin) {
    next(o.cron, o.at).Some? && next(o.cron, o.at).value <= n1
  }

  /** A request wrote the time, and its answer was that old. */
  predicate IsFromStaleRequest(next: Calendar, n1: int, f: Firing) {
    f.test.origin.ByRequest? && IsAnsweredBy(next, n1, f.test.origin)
  }

  /** A fire from tick n1 on wrote the time, and the library answered it with one that was over. */
  predicate IsFromStuckCron(next: Calendar, n1: int, f: Firing) {
    f.test.origin.ByFire? && n1 <= f.test.origin.at && IsAnsweredBy(next, n1, f.test.origin)
  }

  /**
   Of two firings of one test, the later repeats an occurrence the earlier tick
   had covered exactly when a request with an answer that old wrote its time, or
   the library has no later time for the cron and answers every fire that way.
   Otherwise it acts on a new occurrence, and however many passed since the
   earlier tick share this one firing.
   */
  lemma {:induction false} FiringsNeedNewOccurrences(next: Calendar, clock: int, es: seq<Event>, i: nat, j: nat)
    requires IsRun(next, Start(clock), es)
    requires i < j < |After(next, Start(clock), es).firings|
    requires var fs := After(next, Start(clock), es).firings; fs[i].test.id == fs[j].test.id
    ensures var fs := After(next, Start(clock), es).firings; var n1 := fs[i].tick;
      && (Repeats(n1, fs[j]) <==> IsFromStaleRequest(next, n1, fs[j]) || IsFromStuckCron(next, n1, fs[j]))
      && fs[j].test.due <= fs[j].tick
  {
    RunsStayOrdered(next, clock, es);
    var fs := After(next, Start(clock), es).firings;
    assert NotBefore(fs[i], fs[j].test.origin);
    assert Given(next, fs[j].test.origin, fs[j].test.due);
  }

  /** The value a firing acted on was computed for a moment from tick n1 on, and lies in (n1, its own tick]. */
  predicate ComputedBetween(n1: int, f: Firing) {
    n1 <= f.test.origin.at < f.test.due <= f.tick
  }

  /** The value came from a request that computed it before tick n1, though it was written after that tick's fire. */
  predicate Straddles(n1: int, f: Firing) {
    f.test.origin.ByRequest? && f.test.origin.at < n1
  }

  /**
   The later firing's time was computed between the two ticks exactly when no
   request straddled the earlier one and the library answered with a later moment
   than it was asked about.
   */
  lemma {:induction false} ValuesAreComputedBetween(next: Calendar, clock: int, es: seq<Event>, i: nat, j: nat)
    requires IsRun(next, Start(clock), es)
    requires i < j < |After(next, Start(clock), es).firings|
    requires var fs := After(next, Start(clock), es).firings; fs[i].test.id == fs[j].test.id
    ensures var fs := After(next, Start(clock), es).firings; var o := fs[j].test.origin;
      ComputedBetween(fs[i].tick, fs[j]) <==> !Straddles(fs[i].tick, fs[j]) && !IsAnsweredBy(next, o.at, o)
  {
    RunsStayOrdered(next, clock, es);
    var fs := After(next, Start(clock), es).firings;
    assert NotBefore(fs[i], fs[j].test.origin);
    assert Given(next, fs[j].test.origin, fs[j].test.due);
  }

  // ---------- A straddling request does repeat an occurrence ----------

  /** A calendar with one occurrence a minute. */
  function EveryMinute(cron: string, now: int): Option<int> {
    if cron == "" then None else Some(now - now % 60 + 60)
  }

  lemma Extend(next: Calendar, s: State, es: seq<Event>, e: Event)
    requires IsRun(next, s, es) && Enabled(next, After(next, s, es), e)
    ensures IsRun(next, s, es + [e]) && After(next, s, es + [e]) == Next(next, After(next, s, es), e)
  {
    assert (es + [e])[..|es|] == es;
  }

  lemma SinglePage(t: Table, id: string, now: int)
    requires t.Keys == {id} && IsDue(t[id], now)
    ensures IsDuePage([id], t, now)
  {
    assert DueIds(t, now) == {id} == Ids([id]);
  }

  function RowOf(timeout: int, nextRunAt: int): TestRow {
    TestRow("t", timeout, "* * * * *", true, Some(nextRunAt), "", "", 3, true, None, 0, false)
  }

  const STALE := Config("t", ConfigUpdate(60, "* * * * *", true, Some(60), "", "", 3, true, None), 59)

  /** A test due at 60, and a request computed at 59 that has yet to write. */
  const BEFORE := State(
    map["t" := RowOf(30, 60)], map["t" := ByRequest(0, "* * * * *")], map[1 := STALE], [], 0, 59, false, [])

  const LISTED := Listed("t", "* * * * *", 60, ByRequest(0, "* * * * *"))

  /** The tick at 60 has listed the test. */
  const TICKED := BEFORE.(page := [LISTED], now := 60, clock := 60)

  /** The tick at 60 has fired. */
  const BETWEEN := State(
    map["t" := RowOf(30, 120)], map["t" := ByFire(60, "* * * * *")], map[1 := STALE], [], 60, 60, false,
    [Firing(LISTED, 60)])

  lemma ReachesBefore() returns (es: seq<Event>)
    ensures IsRun(EveryMinute, Start(0), es) && After(EveryMinute, Start(0), es) == BEFORE
  {
    var s := Start(0);
    es := [];
    es, s := Grow(EveryMinute, es, s, Compute(0, Upload("t", RowOf(30, 60), 0)));
    es, s := Grow(EveryMinute, es, s, Write(0));
    es, s := Grow(EveryMinute, es, s, Compute(1, STALE));
    assert s.requests == map[1 := STALE];
    assert s == BEFORE;
  }

  lemma ReachesTicked() returns (es: seq<Event>)
    ensures IsRun(EveryMinute, Start(0), es) && After(EveryMinute, Start(0), es) == TICKED
  {
    es := ReachesBefore();
    SinglePage(BEFORE.tests, "t", 60);
    var s;
    es, s := Grow(EveryMinute, es, BEFORE, TickStart(60, ["t"]));
    assert s.page == [LISTED];
  }

  lemma ReachesBetween() returns (es: seq<Event>)
    ensures IsRun(EveryMinute, Start(0), es) && After(EveryMinute, Start(0), es) == BETWEEN
  {
    es := ReachesTicked();
    var s;
    es, s := Grow(EveryMinute, es, TICKED, Fire(false));
    assert s.page == [] && s.tests == map["t" := RowOf(30, 120)];
  }

  /** The request is computed at 59 for 60; tick 60 fires; the write puts 60 back; tick 90 fires 60 again. */
  lemma StraddlingRequestRepeatsOccurrence() returns (es: seq<Event>)
    ensures IsRun(EveryMinute, Start(0), es)
    ensures var fs := After(EveryMinute, Start(0), es).firings;
      && |fs| == 2 && fs[0].test.id == fs[1].test.id && fs[0].tick < fs[1].tick
      && fs[0].test.due == fs[1].test.due && IsFromStaleRequest(EveryMinute, fs[0].tick, fs[1])
  {
    es := ReachesBetween();
    var s := BETWEEN;
    es, s := Grow(EveryMinute, es, s, Write(1));
    assert s.tests == map["t" := RowOf(60, 60)];
    SinglePage(s.tests, "t", 90);
    es, s := Grow(EveryMinute, es, s, TickStart(90, ["t"]));
    assert s.page == [Listed("t", "* * * * *", 60, ByRequest(59, "* * * * *"))];
    es, s := Grow(EveryMinute, es, s, Fire(false));
  }

  lemma Grow(next: Calendar, es: seq<Event>, s: State, e: Event) returns (es': seq<Event>, s': State)
    requires IsRun(next, Start(0), es) && s == After(next, Start(0), es) && Enabled(next, s, e)
    ensures es' == es + [e] && s' == Next(next, s, e)
    ensures IsRun(next, Start(0), es') && s' == After(next, Start(0), es')
    ensures Ticks(es') == Ticks(es) + if e.TickStart? then 1 else 0
  {
    Extend(next, Start(0), es, e);
    es', s' := es + [e], Next(next, s, e);
    assert es'[..|es|] == es;
  }

  // ---------- A cron without a next time repeats at every tick ----------

  /** The library's zero time, year 1, which it gives for an expression that never comes due. */
  const ZERO := -62135596800

  function NeverDue(cron: string, now: int): Option<int> {
    if cron == "" then None else Some(ZERO)
  }

  const NEVER := "0 0 30 2 *"

  function NeverRow(): TestRow {
    TestRow("t", 30, NEVER, true, Some(ZERO), "", "", 3, true, None, 0, false)
  }

  /** The row between ticks, last written by the origin o, with these firings. */
  function NeverState(o: Origin, now: int, firings: seq<Firing>): State {
    State(map["t" := NeverRow()], map["t" := o], map[], [], now, now, false, firings)
  }

  /** One tick lists the row, fires it, and leaves it as due as before. */
  lemma NeverTick(es: seq<Event>, o: Origin, now: int, firings: seq<Firing>, later: int) returns (es': seq<Event>)
    requires IsRun(NeverDue, Start(0), es) && now <= later && ZERO <= later
    requires After(NeverDue, Start(0), es) == NeverState(o, now, firings)
    ensures IsRun(NeverDue, Start(0), es') && Ticks(es') == Ticks(es) + 1
    ensures After(NeverDue, Start(0), es') ==
            NeverState(ByFire(later, NEVER), later, firings + [Firing(Listed("t", NEVER, ZERO, o), later)])
  {
    var s := NeverState(o, now, firings);
    SinglePage(s.tests, "t", later);
    es', s := Grow(NeverDue, es, s, TickStart(later, ["t"]));
    assert s.page == [Listed("t", NEVER, ZERO, o)];
    es', s := Grow(NeverDue, es', s, Fire(false));
    assert NeverRow().(nextRunAt := Some(ZERO)) == NeverRow();
  }

  /** Who wrote the row's time after n ticks. */
  function NeverOrigin(n: nat): Origin {
    if n == 0 then ByRequest(0, NEVER) else ByFire(n, NEVER)
  }

  /** What tick i + 1 fires. */
  function NeverFiring(i: nat): Firing {
    Firing(Listed("t", NEVER, ZERO, NeverOrigin(i)), i + 1)
  }

  function NeverFirings(n: nat): (fs: seq<Firing>)
    ensures |fs| == n && forall i :: 0 <= i < n ==> fs[i] == NeverFiring(i)
  {
    if n == 0 then [] else NeverFirings(n - 1) + [NeverFiring(n - 1)]
  }

  lemma NeverUpload() returns (es: seq<Event>)
    ensures IsRun(NeverDue, Start(0), es) && Ticks(es) == 0
    ensures After(NeverDue, Start(0), es) == NeverState(NeverOrigin(0), 0, [])
  {
    var s := Start(0);
    es := [];
    es, s := Grow(NeverDue, es, s, Compute(0, Upload("t", NeverRow(), 0)));
    es, s := Grow(NeverDue, es, s, Write(0));
    assert s.requests == map[] && s.tests == map["t" := NeverRow()];
  }

  /** However many ticks come, each fires the row again for the same occurrence, with no request involved. */
  lemma {:induction false} NeverDueFiresEveryTick(n: nat) returns (es: seq<Event>)
    ensures IsRun(NeverDue, Start(0), es) && Ticks(es) == n
    ensures After(NeverDue, Start(0), es) == NeverState(NeverOrigin(n), n, NeverFirings(n))
  {
    if n == 0 {
      es := NeverUpload();
    } else {
      var front := NeverDueFiresEveryTick(n - 1);
      es := NeverTick(front, NeverOrigin(n - 1), n - 1, NeverFirings(n - 1), n);
    }
  }

  /** Each of those firings repeats what all the ticks before had covered. */
  lemma NeverDueRepeats(i: nat, j: nat)
    requires i < j
    ensures var n1, f := NeverFiring(i).tick, NeverFiring(j);
      Repeats(n1, f) && IsFromStuckCron(NeverDue, n1, f) && f.test.due == NeverFiring(i).test.due
  {
  }
}
