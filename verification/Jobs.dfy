/**
 The jobs table. Each SQL statement is one function on the table's contents;
 JobRepository runs the statements on the table it holds.
 */
module Jobs {
  import opened Common

  datatype Status = Queued | Running | Completed | Failed | Cancelled {
    predicate Active() { Queued? || Running? }
  }

  datatype Trigger = Manual | Scheduled

  datatype Job = Job(
    testId: string, status: Status, trigger: Trigger, queuedAt: int,
    startedAt: Option<int>, finishedAt: Option<int>, worker: Option<string>, error: Option<string>)

  /** Job id to row; ids are the primary key. */
  type Table = map<string, Job>

  predicate IsActive(t: Table, id: string) {
    id in t && t[id].status.Active()
  }

  function ActiveFor(t: Table, testId: string): set<string> {
    set id | id in t && t[id].testId == testId && t[id].status.Active()
  }

  // ---------- The statements ----------

  function AfterInsert(t: Table, id: string, testId: string, trigger: Trigger, now: int): Table {
    t[id := Job(testId, Queued, trigger, now, None, None, None, None)]
  }

  /** Rows the dequeue sub-select may see: queued, and not locked by another transaction (SKIP LOCKED). */
  function Visible(t: Table, locked: set<string>): set<string> {
    set id | id in t && t[id].status.Queued? && id !in locked
  }

  ghost predicate Claimable(t: Table, locked: set<string>, id: string) {
    id in Visible(t, locked) && forall other :: other in Visible(t, locked) ==> t[id].queuedAt <= t[other].queuedAt
  }

  function AfterClaim(t: Table, id: string, worker: string, now: int): Table
    requires id in t
  {
    t[id := t[id].(status := Running, startedAt := Some(now), worker := Some(worker))]
  }

  /** UpdateStatus has no guard on the current status and touches no row when the id is gone. */
  function AfterWrite(t: Table, id: string, status: Status, error: Option<string>, now: int): Table {
    if id in t then t[id := t[id].(status := status, finishedAt := Some(now), error := error)] else t
  }

  function AfterCancel(t: Table, testId: string, reason: string, now: int): Table {
    map id | id in t ::
      if t[id].testId == testId && t[id].status.Active()
      then t[id].(status := Cancelled, finishedAt := Some(now), error := Some(reason))
      else t[id]
  }

  /** Past its test's timeout plus the grace period; timeouts holds timeout_seconds of the tests that exist. */
  predicate IsStale(j: Job, timeouts: map<string, int>, grace: int, now: int) {
    && j.status.Running?
    && j.testId in timeouts
    && j.startedAt.Some?
    && j.startedAt.value + timeouts[j.testId] + grace < now
  }

  function StaleIds(t: Table, timeouts: map<string, int>, grace: int, now: int): set<string> {
    set id | id in t && IsStale(t[id], timeouts, grace, now)
  }

  const ABANDONED := "job abandoned: worker stopped or crashed before finishing"

  function AfterSweep(t: Table, timeouts: map<string, int>, grace: int, now: int): Table {
    map id | id in t ::
      if IsStale(t[id], timeouts, grace, now)
      then t[id].(status := Failed, finishedAt := Some(now), error := Some(ABANDONED))
      else t[id]
  }

  predicate Prunable(j: Job, cutoff: int) {
    !j.status.Active() && j.finishedAt.Some? && j.finishedAt.value < cutoff
  }

  function AfterPrune(t: Table, cutoff: int): Table {
    map id | id in t && !Prunable(t[id], cutoff) :: t[id]
  }

  function AfterDrop(t: Table, testId: string): Table {
    map id | id in t && t[id].testId != testId :: t[id]
  }

  lemma OldestVisibleExists(t: Table, ids: set<string>) returns (id: string)
    requires ids <= t.Keys && ids != {}
    ensures id in ids && forall other :: other in ids ==> t[id].queuedAt <= t[other].queuedAt
  {
    var key := (id: string) => if id in t then t[id].queuedAt else 0;
    id := LeastExists(ids, key);
    assert forall other :: other in ids ==> key(other) == t[other].queuedAt;
  }

  /** Some row is claimable exactly when a queued, unlocked row exists. */
  lemma ClaimableExists(t: Table, locked: set<string>)
    ensures (exists id :: Claimable(t, locked, id)) <==> Visible(t, locked) != {}
  {
    if Visible(t, locked) != {} {
      var id := OldestVisibleExists(t, Visible(t, locked));
      assert Claimable(t, locked, id);
    }
  }

  lemma PruneTakes(t: Table, cutoff: int)
    ensures |set id | id in t && Prunable(t[id], cutoff)| == |t| - |AfterPrune(t, cutoff)|
  {
    var gone := set id | id in t && Prunable(t[id], cutoff);
    assert t.Keys == AfterPrune(t, cutoff).Keys + gone;
  }

  class JobRepository {
    var jobs: Table

    constructor ()
      ensures jobs == map[]
    {
      jobs := map[];
    }

    /** Fails on a reused id (primary key) or an unknown test (foreign key). */
    method Create(id: string, testId: string, trigger: Trigger, now: int, tests: set<string>) returns (ok: bool)
      modifies this
      ensures ok <==> id !in old(jobs) && testId in tests
      ensures jobs == if ok then AfterInsert(old(jobs), id, testId, trigger, now) else old(jobs)
      ensures ok ==> jobs == old(jobs)[id := Job(testId, Queued, trigger, now, None, None, None, None)]
    {
      ok := id !in jobs && testId in tests;
      if ok {
        jobs := jobs[id := Job(testId, Queued, trigger, now, None, None, None, None)];
      }
    }

    method Dequeue(worker: string, locked: set<string>, now: int) returns (claimed: Option<string>)
      modifies this
      ensures claimed.None? <==> Visible(old(jobs), locked) == {}
      ensures claimed.Some? ==> Claimable(old(jobs), locked, claimed.value)
      ensures jobs == if claimed.Some? then AfterClaim(old(jobs), claimed.value, worker, now) else old(jobs)
      ensures claimed.None? <==> forall id :: id in old(jobs) && old(jobs)[id].status == Queued ==> id in locked
      ensures claimed.Some? ==>
                && claimed.value in old(jobs) && old(jobs)[claimed.value].status == Queued && claimed.value !in locked
                && jobs == old(jobs)[claimed.value := old(jobs)[claimed.value].(
                             status := Running, startedAt := Some(now), worker := Some(worker))]
      ensures claimed.Some? ==> forall id :: id in old(jobs) && old(jobs)[id].status == Queued && id !in locked ==>
                old(jobs)[claimed.value].queuedAt <= old(jobs)[id].queuedAt
    {
      var candidates := Visible(jobs, locked);
      assert forall id :: id in candidates <==> id in jobs && jobs[id].status == Queued && id !in locked;
      if candidates == {} {
        return None;
      }
      var _ := OldestVisibleExists(jobs, candidates);
      var id :| id in candidates && forall other :: other in candidates ==> jobs[id].queuedAt <= jobs[other].queuedAt;
      jobs := jobs[id := jobs[id].(status := Running, startedAt := Some(now), worker := Some(worker))];
      claimed := Some(id);
    }

    method UpdateStatus(id: string, status: Status, error: Option<string>, now: int)
      modifies this
      ensures jobs == AfterWrite(old(jobs), id, status, error, now)
      ensures jobs.Keys == old(jobs).Keys
      ensures forall other :: other in jobs && other != id ==> jobs[other] == old(jobs)[other]
      ensures id in jobs ==> jobs[id] == old(jobs)[id].(status := status, finishedAt := Some(now), error := error)
    {
      if id in jobs {
        jobs := jobs[id := jobs[id].(status := status, finishedAt := Some(now), error := error)];
      }
    }

    method CancelActiveForTest(testId: string, reason: string, now: int) returns (affected: nat)
      modifies this
      ensures jobs == AfterCancel(old(jobs), testId, reason, now)
      ensures jobs.Keys == old(jobs).Keys
      ensures forall id :: id in jobs ==> var j := old(jobs)[id];
                jobs[id] == if j.testId == testId && (j.status == Queued || j.status == Running)
                            then j.(status := Cancelled, finishedAt := Some(now), error := Some(reason)) else j
      ensures affected == |ActiveFor(old(jobs), testId)|
      ensures ActiveFor(jobs, testId) == {}
    {
      affected := |ActiveFor(jobs, testId)|;
      jobs := AfterCancel(jobs, testId, reason, now);
    }

    method HasActiveJob(testId: string) returns (active: bool)
      ensures active <==> exists id :: IsActive(jobs, id) && jobs[id].testId == testId
    {
      active := ActiveFor(jobs, testId) != {};
      if active {
        var id :| id in ActiveFor(jobs, testId);
        assert IsActive(jobs, id);
      } else {
        assert forall id :: IsActive(jobs, id) && jobs[id].testId == testId ==> id in ActiveFor(jobs, testId);
      }
    }

    method FailStale(timeouts: map<string, int>, grace: int, now: int) returns (ids: set<string>)
      modifies this
      ensures jobs == AfterSweep(old(jobs), timeouts, grace, now)
      ensures ids == StaleIds(old(jobs), timeouts, grace, now)
      ensures forall id :: id in ids ==> !IsActive(jobs, id)
      ensures jobs.Keys == old(jobs).Keys
      ensures forall id :: id in jobs ==> var j := old(jobs)[id];
                jobs[id] == if j.status == Running && j.testId in timeouts && j.startedAt.Some?
                               && now > j.startedAt.value + timeouts[j.testId] + grace
                            then j.(status := Failed, finishedAt := Some(now),
                                    error := Some("job abandoned: worker stopped or crashed before finishing"))
                            else j
      ensures forall id :: id in ids <==> id in jobs && jobs[id] != old(jobs)[id]
    {
      ids := StaleIds(jobs, timeouts, grace, now);
      jobs := AfterSweep(jobs, timeouts, grace, now);
    }

    method DeleteFinishedJobsBefore(cutoff: int) returns (affected: nat)
      modifies this
      ensures jobs == AfterPrune(old(jobs), cutoff)
      ensures affected == |old(jobs)| - |jobs|
      ensures forall id :: id in jobs ==> id in old(jobs) && jobs[id] == old(jobs)[id]
      ensures forall id :: id in old(jobs) ==> var j := old(jobs)[id];
                id !in jobs <==>
                  j.status in {Completed, Failed, Cancelled} && j.finishedAt.Some? && j.finishedAt.value < cutoff
    {
      affected := |set id | id in jobs && Prunable(jobs[id], cutoff)|;
      PruneTakes(jobs, cutoff);
      jobs := AfterPrune(jobs, cutoff);
    }
  }
}
