/**
 The life of a job as an interleaving of everything that touches the jobs
 table: HTTP enqueues, the one scheduler, dequeues by any number of worker
 pools, their job handlers, stop and delete requests, the stale sweep, the
 retention prune and process crashes. One event is one SQL statement (or one
 local move of a handler); events interleave freely.
 */
module Lifecycle {
  import opened Common
  import opened Jobs

  // ---------- State ----------

  /** Why a handler is about to write: an ordinary end (with its last status read), or the recover block. */
  datatype Cause = Ended(readFailed: bool, readAt: nat) | Panicked(panickedAt: nat)

  /** Program counter of handleJob. */
  datatype Pc = Starting | Executing | Executed(passed: bool) | Writing(outcome: Status, cause: Cause) | Gone

  datatype Handler = Handler(job: string, worker: string, pc: Pc)

  /** fire: checking for an active job, then enqueuing, as two statements. */
  datatype SchedulerPc = Idle | Checking(testId: string) | Enqueuing(testId: string)

  /** How often each kind of write has hit a row since it was queued. */
  datatype Trail = Trail(claims: nat, cancels: nat, sweeps: nat, writes: nat)

  const UNTOUCHED := Trail(0, 0, 0, 0)

  /** trail, cancelledAt and steps are bookkeeping: no step of the program reads them. */
  datatype State = State(
    jobs: Table,
    handlers: seq<Handler>,
    sched: SchedulerPc,
    trail: map<string, Trail>,
    cancelledAt: map<string, nat>,
    steps: nat)

  const INIT := State(map[], [], Idle, map[], map[], 0)

  // ---------- Events ----------

  datatype Event =
    | EnqueueManual(id: string, testId: string, now: int)
    | SchedulerFires(testId: string)
    | SchedulerChecks(fails: bool)
    | SchedulerEnqueues(id: string, now: int, fails: bool)
    | Dequeue(id: string, worker: string, locked: set<string>, now: int, delivered: bool)
    | FirstRead(h: nat, fails: bool)
    | ExecuteEnds(h: nat, passed: bool)
    | Panic(h: nat)
    | LastRead(h: nat, fails: bool)
    | WriteBack(h: nat, message: string, now: int, fails: bool)
    | CancelTest(testId: string, reason: string, now: int)
    | StaleSweep(timeouts: map<string, int>, grace: int, now: int)
    | DeleteTest(testId: string)
    | Prune(cutoff: int)
    | Crash(worker: string)

  predicate At(s: State, h: nat, pc: Pc) {
    h < |s.handlers| && s.handlers[h].pc == pc
  }

  /** Job ids are fresh UUIDs, so an insert never meets an id used before. */
  ghost predicate Enabled(s: State, e: Event) {
    match e
    case EnqueueManual(id, _, _) => id !in s.trail
    case SchedulerFires(_) => s.sched.Idle?
    case SchedulerChecks(_) => s.sched.Checking?
    case SchedulerEnqueues(id, _, _) => s.sched.Enqueuing? && id !in s.trail
    case Dequeue(id, _, locked, _, _) => Claimable(s.jobs, locked, id)
    case FirstRead(h, _) => At(s, h, Starting)
    case ExecuteEnds(h, _) => At(s, h, Executing)
    case Panic(h) => h < |s.handlers| && (s.handlers[h].pc in {Starting, Executing} || s.handlers[h].pc.Executed?)
    case LastRead(h, _) => h < |s.handlers| && s.handlers[h].pc.Executed?
    case WriteBack(h, _, _, _) => h < |s.handlers| && s.handlers[h].pc.Writing?
    case _ => true
  }

  function Goto(s: State, h: nat, pc: Pc): State
    requires h < |s.handlers|
  {
    s.(handlers := s.handlers[h := s.handlers[h].(pc := pc)])
  }

  function Counted(trail: map<string, Trail>, ids: set<string>, hit: Trail): map<string, Trail> {
    map id | id in trail ::
      var t := trail[id];
      if id in ids
      then Trail(t.claims + hit.claims, t.cancels + hit.cancels, t.sweeps + hit.sweeps, t.writes + hit.writes)
      else t
  }

  predicate SeenCancelled(s: State, h: nat)
    requires h < |s.handlers|
  {
    var id := s.handlers[h].job;
    id in s.jobs && s.jobs[id].status.Cancelled?
  }

  ghost function Effect(s: State, e: Event): State
    requires Enabled(s, e)
  {
    match e
    case EnqueueManual(id, testId, now) =>
      s.(jobs := AfterInsert(s.jobs, id, testId, Manual, now), trail := s.trail[id := UNTOUCHED])
    case SchedulerFires(testId) => s.(sched := Checking(testId))
    case SchedulerChecks(fails) =>
      s.(sched := if fails || ActiveFor(s.jobs, s.sched.testId) != {} then Idle else Enqueuing(s.sched.testId))
    case SchedulerEnqueues(id, now, fails) =>
      if fails then s.(sched := Idle)
      else s.(jobs := AfterInsert(s.jobs, id, s.sched.testId, Scheduled, now),
              trail := s.trail[id := UNTOUCHED], sched := Idle)
    case Dequeue(id, worker, _, now, delivered) =>
      // delivered is false when the statement committed but its reply was lost: claimed, with no handler
      s.(jobs := AfterClaim(s.jobs, id, worker, now),
         trail := Counted(s.trail, {id}, Trail(1, 0, 0, 0)),
         handlers := if delivered then s.handlers + [Handler(id, worker, Starting)] else s.handlers)
    case FirstRead(h, fails) => Goto(s, h, if !fails && SeenCancelled(s, h) then Gone else Executing)
    case ExecuteEnds(h, passed) => Goto(s, h, Executed(passed))
    case Panic(h) => Goto(s, h, Writing(Failed, Panicked(s.steps)))
    case LastRead(h, fails) =>
      // a failed read leaves current nil, and the check is skipped
      Goto(s, h, if !fails && SeenCancelled(s, h) then Gone
                 else Writing(if s.handlers[h].pc.passed then Completed else Failed, Ended(fails, s.steps)))
    case WriteBack(h, message, now, fails) =>
      var id := s.handlers[h].job;
      if fails then Goto(s, h, Gone)
      else Goto(s, h, Gone).(
        jobs := AfterWrite(s.jobs, id, s.handlers[h].pc.outcome,
                           if s.handlers[h].pc.outcome.Failed? then Some(message) else None, now),
        trail := if id in s.jobs then Counted(s.trail, {id}, Trail(0, 0, 0, 1)) else s.trail)
    case CancelTest(testId, reason, now) =>
      s.(jobs := AfterCancel(s.jobs, testId, reason, now),
         trail := Counted(s.trail, ActiveFor(s.jobs, testId), Trail(0, 1, 0, 0)),
         cancelledAt := s.cancelledAt + map id | id in ActiveFor(s.jobs, testId) :: s.steps)
    case StaleSweep(timeouts, grace, now) =>
      s.(jobs := AfterSweep(s.jobs, timeouts, grace, now),
         trail := Counted(s.trail, StaleIds(s.jobs, timeouts, grace, now), Trail(0, 0, 1, 0)))
    case DeleteTest(testId) => s.(jobs := AfterDrop(s.jobs, testId))
    case Prune(cutoff) => s.(jobs := AfterPrune(s.jobs, cutoff))
    case Crash(worker) =>
      s.(handlers := seq(|s.handlers|, i requires 0 <= i < |s.handlers| =>
                       if s.handlers[i].worker == worker then s.handlers[i].(pc := Gone) else s.handlers[i]))
  }

  ghost function Next(s: State, e: Event): State
    requires Enabled(s, e)
  {
    Effect(s, e).(steps := s.steps + 1)
  }

  // ---------- Runs ----------

  ghost predicate IsRun(es: seq<Event>)
    decreases |es|, 0
  {
    es == [] || (IsRun(es[..|es| - 1]) && Enabled(After(es[..|es| - 1]), es[|es| - 1]))
  }

  /** The state a run leads to. */
  ghost function After(es: seq<Event>): State
    requires IsRun(es)
    decreases |es|, 1
  {
    if es == [] then INIT else Next(After(es[..|es| - 1]), es[|es| - 1])
  }

  // ---------- Invariants ----------

  predicate Legal(t: Trail) {
    t.claims <= 1 && t.cancels + t.sweeps <= 1 && t.sweeps <= t.claims && t.writes <= t.claims
  }

  /** The history decides the status, up to what the handler wrote. */
  predicate Fits(t: Trail, status: Status) {
    match status
    case Queued => t == UNTOUCHED
    case Running => t == Trail(1, 0, 0, 0)
    case Cancelled => t.cancels == 1 && t.writes == 0
    case Completed => t.writes == 1
    case Failed => t.writes + t.sweeps >= 1
  }

  ghost predicate RowOk(s: State, id: string) {
    && id in s.trail
    && Legal(s.trail[id])
    && (id in s.jobs ==> Fits(s.trail[id], s.jobs[id].status))
    && (id in s.jobs && s.jobs[id].status.Running? ==> s.jobs[id].startedAt.Some?)
  }

  ghost predicate RowsOk(s: State) {
    forall id :: id in s.trail || id in s.jobs ==> RowOk(s, id)
  }

  ghost predicate HandlersOk(s: State) {
    && (forall h :: 0 <= h < |s.handlers| ==>
          && s.handlers[h].job in s.trail
          && s.trail[s.handlers[h].job].claims == 1
          && (!s.handlers[h].pc.Gone? ==> s.trail[s.handlers[h].job].writes == 0)
          && (s.handlers[h].pc.Writing? ==> s.handlers[h].pc.outcome in {Completed, Failed}))
    && (forall g, h :: 0 <= g < h < |s.handlers| ==> s.handlers[g].job != s.handlers[h].job)
  }

  /** A handler that read the status successfully saw the row uncancelled at that moment. */
  ghost predicate ReadOk(s: State, h: nat)
    requires h < |s.handlers|
  {
    var pc, id := s.handlers[h].pc, s.handlers[h].job;
    pc.Writing? && pc.cause.Ended? ==>
      && pc.cause.readAt < s.steps
      && (!pc.cause.readFailed && SeenCancelled(s, h) ==> id in s.cancelledAt && pc.cause.readAt < s.cancelledAt[id])
  }

  ghost predicate CancelOk(s: State, id: string) {
    id in s.jobs && s.jobs[id].status.Cancelled? ==> id in s.cancelledAt && s.cancelledAt[id] < s.steps
  }

  ghost predicate ReadsOk(s: State) {
    && (forall id :: id in s.jobs ==> CancelOk(s, id))
    && (forall h :: 0 <= h < |s.handlers| ==> ReadOk(s, h))
  }

  ghost predicate ActiveScheduled(s: State, id: string, testId: string) {
    IsActive(s.jobs, id) && s.jobs[id].trigger.Scheduled? && s.jobs[id].testId == testId
  }

  ghost predicate SchedulerOk(s: State) {
    && (forall a, b, t :: ActiveScheduled(s, a, t) && ActiveScheduled(s, b, t) ==> a == b)
    && (s.sched.Enqueuing? ==> forall a :: !ActiveScheduled(s, a, s.sched.testId))
  }

  ghost predicate Inv(s: State) {
    RowsOk(s) && HandlersOk(s) && ReadsOk(s) && SchedulerOk(s)
  }

  /** What a step asks of row id: it is in order, and a write to it is its handler's first. */
  ghost predicate RowReady(s: State, e: Event, id: string)
    requires Enabled(s, e)
  {
    && s.jobs.Keys <= s.trail.Keys && (id in s.trail ==> RowOk(s, id))
    && (e.WriteBack? && s.handlers[e.h].job == id ==>
          && id in s.trail && s.trail[id].writes == 0 && s.trail[id].claims == 1
          && s.handlers[e.h].pc.outcome in {Completed, Failed})
  }

  lemma StepKeepsTrail(s: State, e: Event, id: string)
    requires Enabled(s, e) && RowReady(s, e, id) && (id in Next(s, e).trail || id in Next(s, e).jobs)
    ensures id in Next(s, e).trail && Legal(Next(s, e).trail[id])
  {
  }

  lemma StepKeepsFit(s: State, e: Event, id: string)
    requires Enabled(s, e) && RowReady(s, e, id) && id in Next(s, e).trail && id in Next(s, e).jobs
    ensures Fits(Next(s, e).trail[id], Next(s, e).jobs[id].status)
    ensures Next(s, e).jobs[id].status.Running? ==> Next(s, e).jobs[id].startedAt.Some?
  {
  }

  lemma StepKeepsRow(s: State, e: Event, id: string)
    requires Enabled(s, e) && RowReady(s, e, id) && (id in Next(s, e).trail || id in Next(s, e).jobs)
    ensures RowOk(Next(s, e), id)
  {
    StepKeepsTrail(s, e, id);
    if id in Next(s, e).jobs {
      StepKeepsFit(s, e, id);
    }
  }

  lemma StepKeepsRows(s: State, e: Event)
    requires Inv(s) && Enabled(s, e)
    ensures RowsOk(Next(s, e))
  {
    forall id | id in Next(s, e).trail || id in Next(s, e).jobs ensures RowOk(Next(s, e), id) {
      StepKeepsRow(s, e, id);
    }
  }

  /** Counters never fall, and only a handler's own write-back counts a write. */
  lemma TrailGrows(s: State, e: Event, id: string)
    requires Inv(s) && Enabled(s, e) && id in s.trail
    ensures id in Next(s, e).trail
    ensures s.trail[id].claims <= Next(s, e).trail[id].claims
    ensures s.trail[id].cancels <= Next(s, e).trail[id].cancels
    ensures (e.WriteBack? && s.handlers[e.h].job == id) || Next(s, e).trail[id].writes == s.trail[id].writes
  {
  }

  /** Handlers keep their job; only a dequeue adds one. */
  lemma HandlersStay(s: State, e: Event, h: nat)
    requires Inv(s) && Enabled(s, e) && h < |s.handlers|
    ensures |s.handlers| <= |Next(s, e).handlers|
    ensures Next(s, e).handlers[h].job == s.handlers[h].job
    ensures s.handlers[h].pc.Gone? ==> Next(s, e).handlers[h].pc.Gone?
    ensures e.WriteBack? && e.h == h ==> Next(s, e).handlers[h].pc.Gone?
    ensures Next(s, e).handlers[h].pc.Writing? ==> Next(s, e).handlers[h].pc.outcome in {Completed, Failed}
  {
  }

  lemma OnlyDequeueAddsHandlers(s: State, e: Event)
    requires Inv(s) && Enabled(s, e)
    ensures |Next(s, e).handlers| > |s.handlers| ==>
              e.Dequeue? && Next(s, e).handlers == s.handlers + [Handler(e.id, e.worker, Starting)]
  {
  }

  lemma StepKeepsHandlers(s: State, e: Event)
    requires Inv(s) && Enabled(s, e)
    ensures HandlersOk(Next(s, e))
  {
    var s' := Next(s, e);
    StepKeepsRows(s, e);
    OnlyDequeueAddsHandlers(s, e);
    forall h | 0 <= h < |s'.handlers|
      ensures s'.handlers[h].job in s'.trail && s'.trail[s'.handlers[h].job].claims == 1
      ensures !s'.handlers[h].pc.Gone? ==> s'.trail[s'.handlers[h].job].writes == 0
      ensures s'.handlers[h].pc.Writing? ==> s'.handlers[h].pc.outcome in {Completed, Failed}
      ensures h < |s.handlers| ==> s'.handlers[h].job == s.handlers[h].job
    {
      if h < |s.handlers| {
        HandlersStay(s, e, h);
        TrailGrows(s, e, s.handlers[h].job);
      }
    }
    if |s'.handlers| > |s.handlers| {
      assert s.trail[e.id] == UNTOUCHED;
    }
  }

  lemma StepKeepsCancel(s: State, e: Event, id: string)
    requires Enabled(s, e) && id in Next(s, e).jobs && CancelOk(s, id)
    requires e.WriteBack? ==> s.handlers[e.h].pc.outcome in {Completed, Failed}
    ensures CancelOk(Next(s, e), id)
  {
  }

  lemma StepKeepsRead(s: State, e: Event, h: nat)
    requires Enabled(s, e) && h < |s.handlers| && ReadOk(s, h) && CancelOk(s, s.handlers[h].job)
    requires s.handlers[h].job in s.trail && |s.handlers| <= |Next(s, e).handlers|
    requires e.WriteBack? ==> s.handlers[e.h].pc.outcome in {Completed, Failed}
    ensures ReadOk(Next(s, e), h)
  {
  }

  lemma StepKeepsReads(s: State, e: Event)
    requires Inv(s) && Enabled(s, e)
    ensures ReadsOk(Next(s, e))
  {
    forall id | id in Next(s, e).jobs ensures CancelOk(Next(s, e), id) {
      StepKeepsCancel(s, e, id);
    }
    OnlyDequeueAddsHandlers(s, e);
    forall h | 0 <= h < |Next(s, e).handlers| ensures ReadOk(Next(s, e), h) {
      if h < |s.handlers| {
        HandlersStay(s, e, h);
        assert CancelOk(s, s.handlers[h].job);
        StepKeepsRead(s, e, h);
      }
    }
  }

  /** Only the scheduler's own insert makes a scheduled job active. */
  lemma ActiveScheduledOnlyFromScheduler(s: State, e: Event, id: string, testId: string)
    requires Inv(s) && Enabled(s, e) && ActiveScheduled(Next(s, e), id, testId)
    ensures ActiveScheduled(s, id, testId) ||
            (e.SchedulerEnqueues? && s.sched == Enqueuing(testId) && e.id == id)
  {
  }

  lemma StepKeepsScheduler(s: State, e: Event)
    requires Inv(s) && Enabled(s, e)
    ensures SchedulerOk(Next(s, e))
  {
    var s' := Next(s, e);
    forall a, t | ActiveScheduled(s', a, t)
      ensures ActiveScheduled(s, a, t) || (e.SchedulerEnqueues? && s.sched == Enqueuing(t) && e.id == a)
    {
      ActiveScheduledOnlyFromScheduler(s, e, a, t);
    }
    if s'.sched.Enqueuing? {
      assert forall a :: ActiveScheduled(s, a, s'.sched.testId) ==> a in ActiveFor(s.jobs, s'.sched.testId);
    }
  }

  // ---------- Theorems over every run ----------

  lemma {:induction false} RunsKeepInv(es: seq<Event>)
    requires IsRun(es)
    ensures Inv(After(es)) && After(es).steps == |es|
  {
    if es != [] {
      var front, e := es[..|es| - 1], es[|es| - 1];
      RunsKeepInv(front);
      StepKeepsRows(After(front), e);
      StepKeepsHandlers(After(front), e);
      StepKeepsReads(After(front), e);
      StepKeepsScheduler(After(front), e);
    }
  }

  lemma {:induction false} PrefixIsRun(es: seq<Event>, k: nat)
    requires IsRun(es) && k <= |es|
    ensures IsRun(es[..k])
    decreases |es| - k
  {
    if k < |es| {
      PrefixIsRun(es, k + 1);
      assert es[..k + 1][..k] == es[..k];
    } else {
      assert es[..k] == es;
    }
  }

  /** Every row is claimed at most once and takes at most two terminal writes: one cancel or sweep, one by a handler. */
  lemma RowHistories(es: seq<Event>, id: string)
    requires IsRun(es) && id in After(es).trail
    ensures var t := After(es).trail[id];
            t.claims <= 1 && t.cancels + t.sweeps <= 1 && t.writes <= t.claims && t.cancels + t.sweeps + t.writes <= 2
  {
    RunsKeepInv(es);
  }

  /** No two handlers, alive or gone, ever hold the same job. */
  lemma HandlersHoldDistinctJobs(es: seq<Event>, g: nat, h: nat)
    requires IsRun(es) && g < |After(es).handlers| && h < |After(es).handlers| && g != h
    ensures After(es).handlers[g].job != After(es).handlers[h].job
  {
    RunsKeepInv(es);
  }

  predicate IsWaiting(s: State, id: string) {
    id in s.jobs && s.jobs[id].status.Queued?
  }

  lemma WaitingStepsBack(s: State, e: Event, id: string)
    requires Inv(s) && Enabled(s, e) && id in s.trail && IsWaiting(Next(s, e), id)
    ensures IsWaiting(s, id) && s.jobs[id].queuedAt == Next(s, e).jobs[id].queuedAt
  {
  }

  /** A row that waits now has waited, under one queued_at, ever since it was enqueued. */
  lemma {:induction false} WaitingGoesBack(es: seq<Event>, k: nat, id: string)
    requires IsRun(es) && k <= |es| && IsRun(es[..k]) && IsWaiting(After(es), id) && id in After(es[..k]).trail
    ensures IsWaiting(After(es[..k]), id) && After(es[..k]).jobs[id].queuedAt == After(es).jobs[id].queuedAt
    ensures id in After(es).trail
    decreases |es|
  {
    if k == |es| {
      assert es[..k] == es;
    } else {
      var front := es[..|es| - 1];
      assert front[..k] == es[..k];
      RunsKeepInv(front);
      TrailStays(front, k, id);
      WaitingStepsBack(After(front), es[|es| - 1], id);
      WaitingGoesBack(front, k, id);
      TrailGrows(After(front), es[|es| - 1], id);
    }
  }

  lemma {:induction false} TrailStays(es: seq<Event>, k: nat, id: string)
    requires IsRun(es) && k <= |es| && IsRun(es[..k]) && id in After(es[..k]).trail
    ensures id in After(es).trail
    decreases |es|
  {
    if k == |es| {
      assert es[..k] == es;
    } else {
      var front := es[..|es| - 1];
      assert front[..k] == es[..k];
      TrailStays(front, k, id);
      RunsKeepInv(front);
      TrailGrows(After(front), es[|es| - 1], id);
    }
  }

  lemma LastStepIsEnabled(es: seq<Event>)
    requires es != [] && IsRun(es)
    ensures IsRun(es[..|es| - 1]) && Enabled(After(es[..|es| - 1]), es[|es| - 1])
  {
  }

  lemma StepIsEnabled(es: seq<Event>, i: nat)
    requires IsRun(es) && i < |es|
    ensures IsRun(es[..i]) && Enabled(After(es[..i]), es[i])
  {
    PrefixIsRun(es, i + 1);
    LastStepIsEnabled(es[..i + 1]);
    assert es[..i + 1][..i] == es[..i] && es[..i + 1][i] == es[i];
  }

  lemma ClaimIsNoYounger(s: State, e: Event, id: string)
    requires Enabled(s, e) && e.Dequeue? && IsWaiting(s, id) && id !in e.locked
    ensures e.id in s.jobs && s.jobs[e.id].queuedAt <= s.jobs[id].queuedAt
  {
    assert id in Visible(s.jobs, e.locked);
  }

  /**
   First in, first out: a row that still waits has been passed over only by
   claims of rows queued no later, unless it was locked at such a claim.
   */
  lemma ClaimsFollowTheQueue(es: seq<Event>, i: nat, id: string)
    requires IsRun(es) && i < |es| && es[i].Dequeue? && IsWaiting(After(es), id)
    requires IsRun(es[..i]) && id in After(es[..i]).trail && id !in es[i].locked
    ensures es[i].id in After(es[..i]).jobs
    ensures After(es[..i]).jobs[es[i].id].queuedAt <= After(es).jobs[id].queuedAt
  {
    StepIsEnabled(es, i);
    WaitingGoesBack(es, i, id);
    ClaimIsNoYounger(After(es[..i]), es[i], id);
  }

  lemma StepKeepsRetired(s: State, e: Event, id: string)
    requires Inv(s) && Enabled(s, e) && id in s.trail && !IsActive(s.jobs, id)
    ensures id in Next(s, e).trail && !IsActive(Next(s, e).jobs, id)
  {
  }

  /** A row that has left queued and running, or was deleted, never becomes active again. */
  lemma {:induction false} RetiredRowsStayRetired(es: seq<Event>, k: nat, id: string)
    requires IsRun(es) && k <= |es| && IsRun(es[..k])
    requires id in After(es[..k]).trail && !IsActive(After(es[..k]).jobs, id)
    ensures id in After(es).trail && !IsActive(After(es).jobs, id)
  {
    if k == |es| {
      assert es[..k] == es;
    } else {
      var front := es[..|es| - 1];
      assert front[..k] == es[..k];
      RetiredRowsStayRetired(front, k, id);
      RunsKeepInv(front);
      StepKeepsRetired(After(front), es[|es| - 1], id);
    }
  }

  // ---------- Overwriting a cancelled row ----------

  /** A step of handler h's own. */
  predicate Moves(e: Event, h: nat) {
    match e
    case FirstRead(g, _) => g == h
    case ExecuteEnds(g, _) => g == h
    case Panic(g) => g == h
    case LastRead(g, _) => g == h
    case WriteBack(g, _, _, _) => g == h
    case _ => false
  }

  /** At step k handler h came to the decision it is about to write: a panic or its last read, and no move since. */
  predicate Decides(es: seq<Event>, h: nat, k: nat) {
    && k < |es|
    && (es[k] == Panic(h) || (es[k].LastRead? && es[k].h == h))
    && forall i :: k < i < |es| ==> !Moves(es[i], h)
  }

  predicate CauseIsIn(es: seq<Event>, h: nat, cause: Cause) {
    match cause
    case Ended(failed, at) => Decides(es, h, at) && es[at] == LastRead(h, failed)
    case Panicked(at) => Decides(es, h, at) && es[at] == Panic(h)
  }

  /** Step c cancels row id, which is active just before it. */
  ghost predicate CancelHits(es: seq<Event>, c: nat, id: string) {
    c < |es| && IsRun(es[..c]) && es[c].CancelTest? && id in ActiveFor(After(es[..c]).jobs, es[c].testId)
  }

  /** What the bookkeeping fields of the state refer to, in the run that led there. */
  ghost predicate Recorded(es: seq<Event>, s: State) {
    && (forall h :: 0 <= h < |s.handlers| && s.handlers[h].pc.Writing? ==> CauseIsIn(es, h, s.handlers[h].pc.cause))
    && (forall id :: id in s.cancelledAt ==> CancelIsIn(es, s, id, s.cancelledAt[id]))
  }

  ghost predicate CancelIsIn(es: seq<Event>, s: State, id: string, at: nat) {
    id in s.trail && CancelHits(es, at, id) && (id in s.jobs ==> es[at].testId == s.jobs[id].testId)
  }

  lemma CauseOfStep(es: seq<Event>, s: State, e: Event, h: nat)
    requires Inv(s) && Enabled(s, e) && Recorded(es, s) && s.steps == |es|
    requires h < |Next(s, e).handlers| && Next(s, e).handlers[h].pc.Writing?
    ensures CauseIsIn(es + [e], h, Next(s, e).handlers[h].pc.cause)
  {
    OnlyDequeueAddsHandlers(s, e);
    if Next(s, e).handlers[h].pc != s.handlers[h].pc {
      assert e == Panic(h) || (e.LastRead? && e.h == h);
    } else {
      assert !Moves(e, h);
      assert CauseIsIn(es, h, s.handlers[h].pc.cause);
    }
  }

  lemma TestOfRowStays(s: State, e: Event, id: string)
    requires Inv(s) && Enabled(s, e) && id in s.trail && id in Next(s, e).jobs
    ensures id in s.jobs && Next(s, e).jobs[id].testId == s.jobs[id].testId
  {
  }

  lemma HitsStay(es: seq<Event>, e: Event, c: nat, id: string)
    requires CancelHits(es, c, id)
    ensures CancelHits(es + [e], c, id) && (es + [e])[c] == es[c]
  {
    assert (es + [e])[..c] == es[..c];
  }

  lemma HitNow(es: seq<Event>, e: Event, id: string)
    requires IsRun(es) && e.CancelTest? && id in ActiveFor(After(es).jobs, e.testId)
    ensures CancelHits(es + [e], |es|, id)
  {
    assert (es + [e])[..|es|] == es;
  }

  /** The latest cancel of a row is the one before, or the step at hand. */
  lemma CancelSource(s: State, e: Event, id: string)
    requires Enabled(s, e) && id in Next(s, e).cancelledAt
    ensures || (e.CancelTest? && id in ActiveFor(s.jobs, e.testId) && Next(s, e).cancelledAt[id] == s.steps)
            || (id in s.cancelledAt && Next(s, e).cancelledAt[id] == s.cancelledAt[id])
  {
  }

  lemma CancelOfStep(es: seq<Event>, e: Event, id: string)
    requires IsRun(es) && Inv(After(es)) && Enabled(After(es), e) && Recorded(es, After(es)) && After(es).steps == |es|
    requires id in Next(After(es), e).cancelledAt
    ensures CancelIsIn(es + [e], Next(After(es), e), id, Next(After(es), e).cancelledAt[id])
  {
    var s := After(es);
    CancelSource(s, e, id);
    if e.CancelTest? && id in ActiveFor(s.jobs, e.testId) && Next(s, e).cancelledAt[id] == s.steps {
      HitNow(es, e, id);
    } else {
      HitsStay(es, e, s.cancelledAt[id], id);
    }
    assert id in s.trail;
    TrailGrows(s, e, id);
    if id in Next(s, e).jobs {
      TestOfRowStays(s, e, id);
    }
  }

  lemma StepIsRecorded(es: seq<Event>, e: Event)
    requires IsRun(es) && Inv(After(es)) && Enabled(After(es), e) && Recorded(es, After(es)) && After(es).steps == |es|
    ensures Recorded(es + [e], Next(After(es), e))
  {
    var s := After(es);
    forall h | 0 <= h < |Next(s, e).handlers| && Next(s, e).handlers[h].pc.Writing?
      ensures CauseIsIn(es + [e], h, Next(s, e).handlers[h].pc.cause)
    {
      CauseOfStep(es, s, e, h);
    }
    forall id | id in Next(s, e).cancelledAt
      ensures CancelIsIn(es + [e], Next(s, e), id, Next(s, e).cancelledAt[id])
    {
      CancelOfStep(es, e, id);
    }
  }

  lemma {:induction false} RunsAreRecorded(es: seq<Event>)
    requires IsRun(es)
    ensures Recorded(es, After(es))
  {
    if es != [] {
      var front, e := es[..|es| - 1], es[|es| - 1];
      RunsAreRecorded(front);
      RunsKeepInv(front);
      StepIsRecorded(front, e);
      assert es == front + [e];
    }
  }

  lemma HitCounts(s: State, e: Event, id: string)
    requires Enabled(s, e) && e.CancelTest? && id in s.trail && id in ActiveFor(s.jobs, e.testId)
    ensures id in Next(s, e).trail && Next(s, e).trail[id].cancels >= 1
  {
  }

  /** A cancel that hit a row stays in its history. */
  lemma {:induction false} HitsAreCounted(es: seq<Event>, c: nat, id: string)
    requires IsRun(es) && CancelHits(es, c, id)
    ensures id in After(es).trail && After(es).trail[id].cancels >= 1
    decreases |es|
  {
    var front, e := es[..|es| - 1], es[|es| - 1];
    RunsKeepInv(front);
    if c == |front| {
      assert RowOk(After(front), id);
      HitCounts(After(front), e, id);
    } else {
      assert front[..c] == es[..c];
      HitsAreCounted(front, c, id);
      TrailGrows(After(front), e, id);
    }
  }

  /** Row id was cancelled at c; h decided at k to write it, by a panic, a failed read, or a read before c. */
  ghost predicate RaceAt(es: seq<Event>, h: nat, id: string, c: nat, k: nat) {
    && CancelHits(es, c, id) && Decides(es, h, k)
    && (es[k] == LastRead(h, false) ==> k < c)
  }

  lemma CancelledRowWasHit(es: seq<Event>, h: nat)
    requires IsRun(es) && h < |After(es).handlers| && After(es).handlers[h].pc.Writing? && SeenCancelled(After(es), h)
    ensures exists c, k :: RaceAt(es, h, After(es).handlers[h].job, c, k)
  {
    RunsKeepInv(es);
    RunsAreRecorded(es);
    var s := After(es);
    var id, cause := s.handlers[h].job, s.handlers[h].pc.cause;
    assert ReadOk(s, h) && CancelOk(s, id) && CauseIsIn(es, h, cause);
    var c := s.cancelledAt[id];
    assert CancelIsIn(es, s, id, c);
    assert RaceAt(es, h, id, c, match cause case Ended(_, at) => at case Panicked(at) => at);
  }

  lemma HitRowIsCancelled(es: seq<Event>, h: nat, c: nat)
    requires IsRun(es) && h < |After(es).handlers| && After(es).handlers[h].pc.Writing?
    requires After(es).handlers[h].job in After(es).jobs && CancelHits(es, c, After(es).handlers[h].job)
    ensures SeenCancelled(After(es), h)
  {
    RunsKeepInv(es);
    var id := After(es).handlers[h].job;
    HitsAreCounted(es, c, id);
    assert RowOk(After(es), id);
  }

  /**
   When a handler about to write overwrites a cancel: exactly when some cancel
   hit its row while that was active, and the handler had panicked, or its last
   read failed, or that read came before the cancel.
   */
  lemma CancelIsOverwrittenIff(es: seq<Event>, h: nat, message: string, now: int)
    requires IsRun(es) && Enabled(After(es), WriteBack(h, message, now, false))
    requires After(es).handlers[h].job in After(es).jobs
    ensures SeenCancelled(After(es), h) <==> exists c, k :: RaceAt(es, h, After(es).handlers[h].job, c, k)
  {
    if SeenCancelled(After(es), h) {
      CancelledRowWasHit(es, h);
    }
    if c, k :| RaceAt(es, h, After(es).handlers[h].job, c, k) {
      HitRowIsCancelled(es, h, c);
    }
  }

  // ---------- What a handler writes ----------

  /** h's execution passed, and h did not panic then or later. */
  predicate Succeeds(es: seq<Event>, h: nat) {
    ExecuteEnds(h, true) in es && Panic(h) !in es
  }

  /** A program counter agrees with whether an execution has passed, has failed, and a panic has happened. */
  predicate Agrees(pc: Pc, passed: bool, failed: bool, panicked: bool) {
    match pc
    case Starting => !passed && !failed && !panicked
    case Executing => !passed && !failed && !panicked
    case Executed(ok) => passed == ok && failed == !ok && !panicked
    case Writing(outcome, _) => outcome == if passed && !panicked then Completed else Failed
    case Gone => true
  }

  /** What handler h remembers of its execution is what happened. */
  ghost predicate Remembers(es: seq<Event>, s: State, h: nat) {
    if h >= |s.handlers| then forall e :: e in es ==> !Moves(e, h)
    else Agrees(s.handlers[h].pc, ExecuteEnds(h, true) in es, ExecuteEnds(h, false) in es, Panic(h) in es)
  }

  lemma MoveIsRemembered(s: State, e: Event, h: nat, passed: bool, failed: bool, panicked: bool)
    requires Enabled(s, e) && Moves(e, h) && h < |s.handlers| && Agrees(s.handlers[h].pc, passed, failed, panicked)
    ensures h < |Next(s, e).handlers|
    ensures Agrees(Next(s, e).handlers[h].pc, passed || e == ExecuteEnds(h, true), failed || e == ExecuteEnds(h, false),
                   panicked || e == Panic(h))
  {
  }

  lemma MoverExists(s: State, e: Event, h: nat)
    requires Enabled(s, e) && Moves(e, h)
    ensures h < |s.handlers|
  {
  }

  lemma CrashStops(s: State, e: Event, h: nat)
    requires Enabled(s, e) && h < |s.handlers| && e == Crash(s.handlers[h].worker)
    ensures h < |Next(s, e).handlers| && Next(s, e).handlers[h].pc.Gone?
  {
  }

  lemma OwnStep(es: seq<Event>, e: Event, h: nat)
    ensures ExecuteEnds(h, true) in es + [e] <==> ExecuteEnds(h, true) in es || e == ExecuteEnds(h, true)
    ensures ExecuteEnds(h, false) in es + [e] <==> ExecuteEnds(h, false) in es || e == ExecuteEnds(h, false)
    ensures Panic(h) in es + [e] <==> Panic(h) in es || e == Panic(h)
  {
  }

  lemma NewHandlerStarts(es: seq<Event>, s: State, e: Event, h: nat)
    requires Inv(s) && Enabled(s, e) && !Moves(e, h) && h >= |s.handlers| && Remembers(es, s, h)
    ensures Remembers(es + [e], Next(s, e), h)
  {
    OnlyDequeueAddsHandlers(s, e);
    OwnStep(es, e, h);
    assert forall f :: f in es + [e] ==> f in es || f == e;
  }

  lemma StepIsRemembered(es: seq<Event>, s: State, e: Event, h: nat)
    requires Inv(s) && Enabled(s, e) && Remembers(es, s, h)
    ensures Remembers(es + [e], Next(s, e), h)
  {
    OwnStep(es, e, h);
    if Moves(e, h) {
      MoverExists(s, e, h);
      MoveIsRemembered(s, e, h, ExecuteEnds(h, true) in es, ExecuteEnds(h, false) in es, Panic(h) in es);
    } else if h >= |s.handlers| {
      NewHandlerStarts(es, s, e, h);
    } else if e == Crash(s.handlers[h].worker) {
      CrashStops(s, e, h);
    } else {
      HandlersMoveAlone(s, e, h);
    }
  }

  lemma {:induction false} RunsAreRemembered(es: seq<Event>, h: nat)
    requires IsRun(es)
    ensures Remembers(es, After(es), h)
  {
    if es != [] {
      var front, e := es[..|es| - 1], es[|es| - 1];
      RunsAreRemembered(front, h);
      RunsKeepInv(front);
      StepIsRemembered(front, After(front), e, h);
      assert es == front + [e];
    }
  }

  /**
   A write-back that succeeds tells how the execution ended: the row is completed
   without an error exactly when the execution passed and the handler did not
   panic, and is failed with the message otherwise. It changes no other column and
   no other row.
   */
  lemma WriteBackTellsTheOutcome(es: seq<Event>, h: nat, message: string, now: int)
    requires IsRun(es) && Enabled(After(es), WriteBack(h, message, now, false))
    requires After(es).handlers[h].job in After(es).jobs
    ensures var id := After(es).handlers[h].job;
      var before, after := After(es).jobs, Next(After(es), WriteBack(h, message, now, false)).jobs;
      && after.Keys == before.Keys
      && (forall other :: other in before && other != id ==> after[other] == before[other])
      && after[id].finishedAt == Some(now)
      && (Succeeds(es, h) ==> after[id].status == Completed && after[id].error == None)
      && (!Succeeds(es, h) ==> after[id].status == Failed && after[id].error == Some(message))
      && after[id] == before[id].(status := after[id].status, finishedAt := Some(now), error := after[id].error)
  {
    RunsKeepInv(es);
    RunsAreRemembered(es, h);
  }

  /**
   A handler stops at a read exactly when the read succeeds and shows the row
   cancelled; a failed read counts as not cancelled.
   */
  lemma ReadsDecide(es: seq<Event>, h: nat, fails: bool)
    requires IsRun(es)
    ensures var s := After(es);
      At(s, h, Starting) ==>
        Next(s, FirstRead(h, fails)).handlers[h].pc == if !fails && SeenCancelled(s, h) then Gone else Executing
    ensures var s := After(es);
      h < |s.handlers| && s.handlers[h].pc.Executed? ==>
        (Next(s, LastRead(h, fails)).handlers[h].pc.Gone? <==> !fails && SeenCancelled(s, h))
  {
  }

  lemma GoneStays(s: State, e: Event, h: nat)
    requires Inv(s) && Enabled(s, e) && h < |s.handlers| && s.handlers[h].pc.Gone?
    ensures !Moves(e, h) && h < |Next(s, e).handlers| && Next(s, e).handlers[h].pc.Gone?
  {
    HandlersStay(s, e, h);
  }

  lemma {:induction false} GoneForGood(es: seq<Event>, k: nat, h: nat)
    requires IsRun(es) && k <= |es| && IsRun(es[..k])
    requires h < |After(es[..k]).handlers| && After(es[..k]).handlers[h].pc.Gone?
    ensures h < |After(es).handlers| && After(es).handlers[h].pc.Gone?
    decreases |es|
  {
    if k == |es| {
      assert es[..k] == es;
    } else {
      var front, e := es[..|es| - 1], es[|es| - 1];
      assert front[..k] == es[..k];
      GoneForGood(front, k, h);
      RunsKeepInv(front);
      GoneStays(After(front), e, h);
    }
  }

  /** A handler that has stopped makes no move any more: it neither executes nor writes. */
  lemma GoneHandlersRest(es: seq<Event>, k: nat, i: nat, h: nat)
    requires IsRun(es) && k <= i < |es| && IsRun(es[..k])
    requires h < |After(es[..k]).handlers| && After(es[..k]).handlers[h].pc.Gone?
    ensures !Moves(es[i], h)
  {
    StepIsEnabled(es, i);
    assert es[..i][..k] == es[..k];
    GoneForGood(es[..i], k, h);
    RunsKeepInv(es[..i]);
    GoneStays(After(es[..i]), es[i], h);
  }

  /** Nothing moves a handler but its own steps and a crash of its worker. */
  lemma HandlersMoveAlone(s: State, e: Event, h: nat)
    requires Inv(s) && Enabled(s, e) && h < |s.handlers| && !Moves(e, h) && e != Crash(s.handlers[h].worker)
    ensures h < |Next(s, e).handlers| && Next(s, e).handlers[h] == s.handlers[h]
  {
  }

  lemma Extend(es: seq<Event>, e: Event)
    requires IsRun(es) && Enabled(After(es), e)
    ensures IsRun(es + [e]) && After(es + [e]) == Next(After(es), e)
  {
    assert (es + [e])[..|es|] == es;
  }

  lemma Grow(es: seq<Event>, s: State, e: Event) returns (es': seq<Event>, s': State)
    requires IsRun(es) && s == After(es) && Enabled(s, e)
    ensures es' == es + [e] && s' == Next(s, e) && IsRun(es') && s' == After(es')
  {
    Extend(es, e);
    es', s' := es + [e], Next(s, e);
  }

  const RAN := Job("t", Running, Manual, 0, Some(1), None, Some("w"), None)

  lemma RunUpToClaim() returns (es: seq<Event>)
    ensures IsRun(es)
    ensures After(es) == RunningAt(Starting, 2)
  {
    var s := INIT;
    es := [];
    es, s := Grow(es, s, EnqueueManual("j", "t", 0));
    assert Visible(s.jobs, {}) == {"j"};
    es, s := Grow(es, s, Dequeue("j", "w", {}, 1, true));
  }

  function RunningAt(pc: Pc, steps: nat): State {
    State(map["j" := RAN], [Handler("j", "w", pc)], Idle, map["j" := Trail(1, 0, 0, 0)], map[], steps)
  }

  lemma RunUpToExecuting() returns (es: seq<Event>)
    ensures IsRun(es) && After(es) == RunningAt(Executing, 3)
  {
    es := RunUpToClaim();
    var s;
    es, s := Grow(es, RunningAt(Starting, 2), FirstRead(0, false));
    assert s.handlers == [Handler("j", "w", Executing)];
  }

  lemma RunUpToLastRead() returns (es: seq<Event>)
    ensures IsRun(es)
    ensures After(es) == RunningAt(Writing(Completed, Ended(false, 4)), 5)
  {
    es := RunUpToExecuting();
    var s;
    es, s := Grow(es, RunningAt(Executing, 3), ExecuteEnds(0, true));
    assert s.handlers == [Handler("j", "w", Executed(true))];
    es, s := Grow(es, s, LastRead(0, false));
  }

  /** The race is real: a run that stops a job and still ends with the row completed. */
  lemma StopCanLoseTheRace() returns (es: seq<Event>)
    ensures IsRun(es) && "j" in After(es).jobs && "j" in After(es).trail
    ensures After(es).jobs["j"].status.Completed?
    ensures After(es).trail["j"] == Trail(1, 1, 0, 1)
  {
    es := RunUpToLastRead();
    var stop := CancelTest("t", "stopped by user", 2);
    Extend(es, stop);
    assert ActiveFor(After(es).jobs, "t") == {"j"};
    es := es + [stop];
    Extend(es, WriteBack(0, "", 3, false));
    es := es + [WriteBack(0, "", 3, false)];
  }

  // ---------- The scheduler and the table ----------

  /** Check and enqueue are separate statements, yet no test ever has two active scheduled jobs. */
  lemma AtMostOneActiveScheduledJob(es: seq<Event>, a: string, b: string, testId: string)
    requires IsRun(es) && ActiveScheduled(After(es), a, testId) && ActiveScheduled(After(es), b, testId)
    ensures a == b
  {
    RunsKeepInv(es);
  }

  ghost predicate HasHandler(s: State, id: string) {
    exists h :: 0 <= h < |s.handlers| && s.handlers[h].job == id
  }

  lemma StepKeepsUnheld(s: State, e: Event, id: string)
    requires Inv(s) && Enabled(s, e) && id in s.trail && s.trail[id].claims >= 1 && !HasHandler(s, id)
    ensures !HasHandler(Next(s, e), id)
  {
    OnlyDequeueAddsHandlers(s, e);
    forall h | 0 <= h < |Next(s, e).handlers| ensures Next(s, e).handlers[h].job != id {
      if h < |s.handlers| {
        HandlersStay(s, e, h);
      } else {
        assert RowOk(s, e.id);
      }
    }
  }

  lemma ClaimLosesReply(s: State, e: Event)
    requires Inv(s) && Enabled(s, e) && e.Dequeue? && !e.delivered
    ensures !HasHandler(Next(s, e), e.id) && e.id in Next(s, e).trail && Next(s, e).trail[e.id].claims >= 1
    ensures e.id in Next(s, e).jobs && Next(s, e).jobs[e.id].status == Running
    ensures Next(s, e).jobs[e.id].startedAt == Some(e.now)
  {
    assert RowOk(s, e.id);
  }

  /** A claim whose reply is lost leaves a running row that no handler ever holds. */
  lemma {:induction false} LostClaimIsNeverHandled(es: seq<Event>, k: nat)
    requires IsRun(es) && k < |es| && es[k].Dequeue? && !es[k].delivered
    ensures !HasHandler(After(es), es[k].id)
    ensures es[k].id in After(es).trail && After(es).trail[es[k].id].claims >= 1
    decreases |es|
  {
    var front, e := es[..|es| - 1], es[|es| - 1];
    RunsKeepInv(front);
    if k == |front| {
      ClaimLosesReply(After(front), e);
    } else {
      assert front[k] == es[k];
      LostClaimIsNeverHandled(front, k);
      StepKeepsUnheld(After(front), e, es[k].id);
      TrailGrows(After(front), e, es[k].id);
    }
  }

  /** A claim that arrives starts a handler for the job, under its worker. */
  lemma DeliveredClaimIsHandled(es: seq<Event>, e: Event)
    requires IsRun(es) && Enabled(After(es), e) && e.Dequeue? && e.delivered
    ensures Next(After(es), e).handlers == After(es).handlers + [Handler(e.id, e.worker, Starting)]
  {
  }

  /** Deleting a test takes exactly its rows, pruning exactly the finished ones that are old enough. */
  lemma RowsLeave(s: State, e: Event, id: string)
    requires Enabled(s, e) && id in s.jobs && (e.DeleteTest? || e.Prune?)
    ensures id in Next(s, e).jobs ==> Next(s, e).jobs[id] == s.jobs[id]
    ensures e.DeleteTest? ==> (id in Next(s, e).jobs <==> s.jobs[id].testId != e.testId)
    ensures e.Prune? ==>
              (id !in Next(s, e).jobs <==>
                s.jobs[id].status in {Completed, Failed, Cancelled} && s.jobs[id].finishedAt.Some?
                && s.jobs[id].finishedAt.value < e.cutoff)
  {
  }

  /** A fire enqueues for a test with no active job, and leaves a test with one alone. */
  lemma FireEnqueuesWhenFree(es: seq<Event>, testId: string, id: string, now: int)
    requires IsRun(es) && After(es).sched.Idle? && id !in After(es).trail
    ensures var checked := es + [SchedulerFires(testId)] + [SchedulerChecks(false)];
      && IsRun(checked) && After(checked).jobs == After(es).jobs
      && (ActiveFor(After(es).jobs, testId) != {} ==> After(checked).sched.Idle?)
      && (ActiveFor(After(es).jobs, testId) == {} ==>
            && IsRun(checked + [SchedulerEnqueues(id, now, false)])
            && After(checked + [SchedulerEnqueues(id, now, false)]).sched.Idle?
            && After(checked + [SchedulerEnqueues(id, now, false)]).jobs
               == After(es).jobs[id := Job(testId, Queued, Scheduled, now, None, None, None, None)])
  {
    var fired := es + [SchedulerFires(testId)];
    Extend(es, SchedulerFires(testId));
    Extend(fired, SchedulerChecks(false));
    if ActiveFor(After(es).jobs, testId) == {} {
      Extend(fired + [SchedulerChecks(false)], SchedulerEnqueues(id, now, false));
    }
  }

  /** A manual request enqueues whatever else is active. */
  lemma ManualEnqueues(es: seq<Event>, id: string, testId: string, now: int)
    requires IsRun(es) && id !in After(es).trail
    ensures IsRun(es + [EnqueueManual(id, testId, now)])
    ensures After(es + [EnqueueManual(id, testId, now)]).jobs
            == After(es).jobs[id := Job(testId, Queued, Manual, now, None, None, None, None)]
  {
    Extend(es, EnqueueManual(id, testId, now));
  }

  /** A job left running by a crash stops blocking its test at the first sweep past timeout and grace. */
  lemma SweepUnblocksCrashedTest(es: seq<Event>, testId: string, timeouts: map<string, int>, grace: int, now: int)
    requires IsRun(es) && After(es).sched.Idle? && testId in timeouts
    requires forall id :: id in ActiveFor(After(es).jobs, testId) ==>
               && After(es).jobs[id].status.Running?
               && (After(es).jobs[id].startedAt.Some? ==>
                     After(es).jobs[id].startedAt.value + timeouts[testId] + grace < now)
    ensures var run := es + [StaleSweep(timeouts, grace, now)] + [SchedulerFires(testId)] + [SchedulerChecks(false)];
            IsRun(run) && After(run).sched == Enqueuing(testId)
  {
    RunsKeepInv(es);
    var swept := es + [StaleSweep(timeouts, grace, now)];
    Extend(es, StaleSweep(timeouts, grace, now));
    assert ActiveFor(After(swept).jobs, testId) == {};
    var fired := swept + [SchedulerFires(testId)];
    Extend(swept, SchedulerFires(testId));
    Extend(fired, SchedulerChecks(false));
  }
}
