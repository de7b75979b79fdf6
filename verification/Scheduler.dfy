/**
 One scheduler tick: list the due tests, and for each advance next_run_at
 before looking for an active job and enqueueing. Nothing else runs during the
 tick here; Backlog and Lifecycle interleave its steps with everyone else's.
 */
module Scheduler {
  import opened Common
  import opened Tests
  import J = Jobs

  /** The cron library: the next occurrence after a moment, None for an expression it rejects. */
  type Calendar = (string, int) -> Option<int>

  /** Which statements of a tick fail; a failed statement changes nothing. */
  datatype Faults = Faults(list: bool, update: set<string>, check: set<string>, enqueue: set<string>)

  /** fire gets past its UpdateNextRunAt. */
  predicate Advances(id: string, cron: string, next: Calendar, faults: Faults, now: int) {
    next(cron, now).Some? && id !in faults.update
  }

  predicate Starts(t: Table, j: J.Table, id: string, cron: string, next: Calendar, faults: Faults, now: int) {
    && Advances(id, cron, next, faults, now)
    && id !in faults.check && id !in faults.enqueue
    && id in t && J.ActiveFor(j, id) == {}
  }

  /** The tests table after firing one listed test. */
  function AfterFire(t: Table, id: string, cron: string, next: Calendar, faults: Faults, now: int): Table {
    if Advances(id, cron, next, faults, now) then AfterNextRun(t, id, next(cron, now).value) else t
  }

  function AfterFires(t: Table, fired: set<string>, next: Calendar, faults: Faults, now: int): Table {
    map id | id in t ::
      if id in fired && Advances(id, t[id].cron, next, faults, now)
      then t[id].(nextRunAt := next(t[id].cron, now)) else t[id]
  }

  function ScheduledJob(id: string, now: int): J.Job {
    J.Job(id, J.Queued, J.Scheduled, now, None, None, None, None)
  }

  /** after is before plus one scheduled job for each id in started, under the name uuid gives it. */
  ghost predicate Enqueued(before: J.Table, after: J.Table, started: set<string>, uuid: string -> string, now: int) {
    && (forall j :: j in before ==> j in after && after[j] == before[j])
    && (forall id :: id in started ==> uuid(id) in after && after[uuid(id)] == ScheduledJob(id, now))
    && (forall j :: j in after && j !in before ==> exists id :: id in started && j == uuid(id))
  }

  /** Fresh, distinct names for the jobs a tick may create. */
  ghost predicate FreshNames(uuid: string -> string, j: J.Table) {
    && (forall id :: uuid(id) !in j)
    && (forall a, b :: uuid(a) == uuid(b) ==> a == b)
  }

  lemma EnqueuedActive(before: J.Table, after: J.Table, started: set<string>, uuid: string -> string, now: int,
                       id: string)
    requires Enqueued(before, after, started, uuid, now) && FreshNames(uuid, before)
    ensures id !in started ==> J.ActiveFor(after, id) == J.ActiveFor(before, id)
    ensures id in started ==> J.ActiveFor(after, id) == J.ActiveFor(before, id) + {uuid(id)}
  {
    forall j | j in J.ActiveFor(after, id) ensures j in J.ActiveFor(before, id) || (id in started && j == uuid(id)) {
      if j !in before {
        var other :| other in started && j == uuid(other);
      }
    }
  }

  /** A tick that has fired the tests in done. */
  ghost predicate TickedTo(t0: Table, j0: J.Table, t: Table, j: J.Table, done: seq<string>, started: set<string>,
                           next: Calendar, faults: Faults, uuid: string -> string, now: int) {
    && t == AfterFires(t0, Ids(done), next, faults, now)
    && (forall id :: id in started <==> id in done && id in t0 && Starts(t0, j0, id, t0[id].cron, next, faults, now))
    && Enqueued(j0, j, started, uuid, now)
  }

  lemma FireTicksOneMore(t0: Table, j0: J.Table, t: Table, j: J.Table, done: seq<string>, started: set<string>,
                         next: Calendar, faults: Faults, uuid: string -> string, now: int, id: string)
    requires TickedTo(t0, j0, t, j, done, started, next, faults, uuid, now) && FreshNames(uuid, j0)
    requires id in t0 && id !in done
    ensures id in t && t[id].cron == t0[id].cron && uuid(id) !in j
    ensures var begins := Starts(t, j, id, t[id].cron, next, faults, now);
      TickedTo(t0, j0, AfterFire(t, id, t[id].cron, next, faults, now),
               if begins then j[uuid(id) := ScheduledJob(id, now)] else j,
               done + [id], if begins then started + {id} else started, next, faults, uuid, now)
  {
    assert Ids(done + [id]) == Ids(done) + {id};
    EnqueuedActive(j0, j, started, uuid, now, id);
    EnqueueAddsOne(j0, j, started, uuid, now, id);
    FireAddsOne(t0, Ids(done), next, faults, now, id);
  }

  /** The test has an active job after the tick; if it had none before, one new scheduled one queued at the tick. */
  ghost predicate HasItsJob(before: J.Table, after: J.Table, id: string, now: int) {
    && J.ActiveFor(after, id) != {}
    && (J.ActiveFor(before, id) == {} ==>
          exists j :: IsNewJob(before, after, j, id, now) && J.ActiveFor(after, id) == {j})
  }

  predicate IsNewJob(before: J.Table, after: J.Table, j: string, id: string, now: int) {
    j !in before && j in after && after[j] == J.Job(id, J.Queued, J.Scheduled, now, None, None, None, None)
  }

  /** Every job there was is there unchanged; a new one is the scheduled job of now of one of these tests. */
  ghost predicate OnlyNewJobs(before: J.Table, after: J.Table, page: seq<string>, now: int) {
    && (forall j :: j in before ==> j in after && after[j] == before[j])
    && (forall j :: j in after && j !in before ==>
          after[j].testId in page && IsNewJob(before, after, j, after[j].testId, now)
          && J.ActiveFor(before, after[j].testId) == {})
  }

  /** Only next_run_at changes, and only for tests of the page. */
  ghost predicate OnlyNextRunMoves(before: Table, after: Table, page: seq<string>) {
    && after.Keys == before.Keys
    && (forall id :: id in before ==> after[id] == before[id].(nextRunAt := after[id].nextRunAt))
    && (forall id :: id in before && id !in page ==> after[id] == before[id])
  }

  /** A test of the page moves on if the library answers and the write succeeds, and gets its job if nothing fails. */
  ghost predicate IsFired(before: Table, after: Table, j0: J.Table, j: J.Table, id: string, next: Calendar,
                          faults: Faults, now: int) {
    && id in before && id in after
    && (if next(before[id].cron, now).None? || id in faults.update then after[id] == before[id]
        else after[id].nextRunAt == next(before[id].cron, now))
    && (if next(before[id].cron, now).None? || id in faults.update + faults.check + faults.enqueue
        then J.ActiveFor(j, id) == J.ActiveFor(j0, id)
        else HasItsJob(j0, j, id, now))
  }

  lemma TickedTests(t0: Table, j0: J.Table, t: Table, j: J.Table, page: seq<string>, started: set<string>,
                    next: Calendar, faults: Faults, uuid: string -> string, now: int)
    requires TickedTo(t0, j0, t, j, page, started, next, faults, uuid, now)
    ensures OnlyNextRunMoves(t0, t, page)
    ensures forall id :: id in page && id in t0 ==>
              && id in t
              && t[id].nextRunAt == (if next(t0[id].cron, now).None? || id in faults.update then t0[id].nextRunAt
                                     else next(t0[id].cron, now))
  {
    assert forall id :: id in page <==> id in Ids(page);
  }

  lemma TickedJobs(t0: Table, j0: J.Table, t: Table, j: J.Table, page: seq<string>, started: set<string>,
                   next: Calendar, faults: Faults, uuid: string -> string, now: int)
    requires TickedTo(t0, j0, t, j, page, started, next, faults, uuid, now) && FreshNames(uuid, j0)
    ensures OnlyNewJobs(j0, j, page, now)
  {
    forall k | k in j && k !in j0
      ensures j[k].testId in page && IsNewJob(j0, j, k, j[k].testId, now) && J.ActiveFor(j0, j[k].testId) == {}
    {
      var id :| id in started && k == uuid(id);
    }
  }

  lemma TickedTestIsFired(t0: Table, j0: J.Table, t: Table, j: J.Table, page: seq<string>, started: set<string>,
                          next: Calendar, faults: Faults, uuid: string -> string, now: int, id: string)
    requires TickedTo(t0, j0, t, j, page, started, next, faults, uuid, now) && FreshNames(uuid, j0)
    requires id in page && id in t0
    ensures IsFired(t0, t, j0, j, id, next, faults, now)
  {
    TickedTests(t0, j0, t, j, page, started, next, faults, uuid, now);
    EnqueuedActive(j0, j, started, uuid, now, id);
    if id in started {
      assert IsNewJob(j0, j, uuid(id), id, now);
    }
  }

  class Scheduler {
    const tests: TestRepository
    const jobs: J.JobRepository
    const next: Calendar
    var paused: bool

    constructor (tests: TestRepository, jobs: J.JobRepository, next: Calendar)
      ensures this.tests == tests && this.jobs == jobs && this.next == next && !paused
    {
      this.tests, this.jobs, this.next, paused := tests, jobs, next, false;
    }

    method Pause()
      modifies this
      ensures paused
    {
      paused := true;
    }

    method Resume()
      modifies this
      ensures !paused
    {
      paused := false;
    }

    /** next_run_at moves on first, so a crash before the enqueue skips a run rather than repeating it. */
    method Fire(id: string, cron: string, now: int, faults: Faults, jobId: string) returns (started: bool)
      requires jobId !in jobs.jobs
      modifies tests, jobs
      ensures tests.tests == AfterFire(old(tests.tests), id, cron, next, faults, now)
      ensures started <==> Starts(old(tests.tests), old(jobs.jobs), id, cron, next, faults, now)
      ensures started <==>
                && next(cron, now).Some? && id !in faults.update + faults.check + faults.enqueue
                && id in old(tests.tests)
                && forall j :: j in old(jobs.jobs) && old(jobs.jobs)[j].testId == id ==>
                                 old(jobs.jobs)[j].status !in {J.Queued, J.Running}
      ensures jobs.jobs == if started then old(jobs.jobs)[jobId := ScheduledJob(id, now)] else old(jobs.jobs)
    {
      started := false;
      var upcoming := next(cron, now);
      if upcoming.None? || id in faults.update {
        return;
      }
      tests.UpdateNextRunAt(id, upcoming.value);
      if id in faults.check {
        return;
      }
      var active := jobs.HasActiveJob(id);
      if active {
        ghost var j :| J.IsActive(jobs.jobs, j) && jobs.jobs[j].testId == id;
        assert j in J.ActiveFor(jobs.jobs, id);
        return;
      }
      assert forall j :: j in J.ActiveFor(jobs.jobs, id) ==> J.IsActive(jobs.jobs, j);
      if id in faults.enqueue {
        return;
      }
      started := jobs.Create(jobId, id, J.Scheduled, now, tests.tests.Keys);
    }

    /**
     A paused tick does nothing. Any other takes up to 100 due tests, earliest
     first, moves next_run_at of those whose cron parses, and starts one job for
     each of them that had none active.
     */
    method Tick(now: int, faults: Faults, uuid: string -> string) returns (page: seq<string>, started: set<string>)
      requires FreshNames(uuid, jobs.jobs)
      modifies tests, jobs
      ensures paused || faults.list ==> page == []
      ensures !paused && !faults.list ==>
                IsDuePage(page, old(tests.tests), now) && IsHundredEarliest(page, old(tests.tests), now)
      ensures tests.tests == AfterFires(old(tests.tests), Ids(page), next, faults, now)
      ensures forall id :: id in started <==>
                id in page && id in old(tests.tests)
                && Starts(old(tests.tests), old(jobs.jobs), id, old(tests.tests)[id].cron, next, faults, now)
      ensures Enqueued(old(jobs.jobs), jobs.jobs, started, uuid, now)
      ensures forall id :: id in started ==> J.ActiveFor(jobs.jobs, id) == {uuid(id)}
      ensures forall id :: id !in started ==> J.ActiveFor(jobs.jobs, id) == J.ActiveFor(old(jobs.jobs), id)
      ensures OnlyNewJobs(old(jobs.jobs), jobs.jobs, page, now)
      ensures OnlyNextRunMoves(old(tests.tests), tests.tests, page)
      ensures forall id :: id in page ==>
                IsFired(old(tests.tests), tests.tests, old(jobs.jobs), jobs.jobs, id, next, faults, now)
    {
      page, started := [], {};
      ghost var t0, j0 := tests.tests, jobs.jobs;
      if !paused && !faults.list {
        page := tests.ListDueScheduled(now);
        started := FireAll(page, now, faults, uuid);
      } else {
        NothingTicked(t0, j0, next, faults, uuid, now);
      }
      TickEnds(t0, j0, tests.tests, jobs.jobs, page, started, next, faults, uuid, now);
      TickedJobs(t0, j0, tests.tests, jobs.jobs, page, started, next, faults, uuid, now);
      TickedTests(t0, j0, tests.tests, jobs.jobs, page, started, next, faults, uuid, now);
      forall id | id in page ensures IsFired(t0, tests.tests, j0, jobs.jobs, id, next, faults, now) {
        TickedTestIsFired(t0, j0, tests.tests, jobs.jobs, page, started, next, faults, uuid, now, id);
      }
    }

    /** The loop of Tick over a page without repeats. */
    method FireAll(page: seq<string>, now: int, faults: Faults, uuid: string -> string) returns (started: set<string>)
      requires FreshNames(uuid, jobs.jobs) && |Ids(page)| == |page| && Ids(page) <= tests.tests.Keys
      modifies tests, jobs
      ensures TickedTo(old(tests.tests), old(jobs.jobs), tests.tests, jobs.jobs, page, started, next, faults, uuid, now)
    {
      started := {};
      ghost var t0, j0 := tests.tests, jobs.jobs;
      NothingTicked(t0, j0, next, faults, uuid, now);
      for i := 0 to |page|
        invariant TickedTo(t0, j0, tests.tests, jobs.jobs, page[..i], started, next, faults, uuid, now)
      {
        var id := page[i];
        assert page[..i + 1] == page[..i] + [id];
        assert id in Ids(page);
        RepeatFree(page, i);
        FireTicksOneMore(t0, j0, tests.tests, jobs.jobs, page[..i], started, next, faults, uuid, now, id);
        var startedNow := Fire(id, tests.tests[id].cron, now, faults, uuid(id));
        if startedNow {
          started := started + {id};
        }
      }
      assert page[..|page|] == page;
    }
  }

  lemma NothingTicked(t0: Table, j0: J.Table, next: Calendar, faults: Faults, uuid: string -> string, now: int)
    ensures TickedTo(t0, j0, t0, j0, [], {}, next, faults, uuid, now)
  {
  }

  lemma TickEnds(t0: Table, j0: J.Table, t: Table, j: J.Table, page: seq<string>, started: set<string>,
                 next: Calendar, faults: Faults, uuid: string -> string, now: int)
    requires TickedTo(t0, j0, t, j, page, started, next, faults, uuid, now) && FreshNames(uuid, j0)
    ensures forall id :: id in started ==> J.ActiveFor(j, id) == {uuid(id)}
    ensures forall id :: id !in started ==> J.ActiveFor(j, id) == J.ActiveFor(j0, id)
  {
    forall id ensures id in started ==> J.ActiveFor(j, id) == {uuid(id)}
              ensures id !in started ==> J.ActiveFor(j, id) == J.ActiveFor(j0, id) {
      EnqueuedActive(j0, j, started, uuid, now, id);
    }
  }

  /** Firing one more test of the page. */
  lemma FireAddsOne(t: Table, fired: set<string>, next: Calendar, faults: Faults, now: int, id: string)
    requires id !in fired
    ensures id in t ==> AfterFire(AfterFires(t, fired, next, faults, now), id, t[id].cron, next, faults, now)
                        == AfterFires(t, fired + {id}, next, faults, now)
  {
  }

  lemma EnqueueAddsOne(before: J.Table, after: J.Table, started: set<string>, uuid: string -> string, now: int,
                       id: string)
    requires Enqueued(before, after, started, uuid, now) && FreshNames(uuid, before) && id !in started
    ensures uuid(id) !in after
    ensures Enqueued(before, after[uuid(id) := ScheduledJob(id, now)], started + {id}, uuid, now)
  {
    var after' := after[uuid(id) := ScheduledJob(id, now)];
    forall j | j in after' && j !in before ensures exists other :: other in started + {id} && j == uuid(other) {
      if j == uuid(id) {
        assert id in started + {id};
      } else {
        var other :| other in started && j == uuid(other);
        assert other in started + {id};
      }
    }
  }
}
