/** Stopping a test's jobs, and deleting a test with its rows and stored objects. */
module Requests {
  import opened Common
  import J = Jobs
  import opened Tests
  import opened Retention
  import S = Sweeper

  datatype Reply = Done | NotFound | ServerError

  datatype StopFaults = StopFaults(list: bool, cancel: bool)

  /** Which steps of a deletion fail: its listings, its cancel, its transaction, and single object deletions. */
  datatype Faults = Faults(listRuns: bool, listJobs: bool, cancel: bool, rows: bool, prefix: bool, objects: set<string>)

  /** What others do to the rows between the cancel and the deleting transaction. */
  datatype Meanwhile = Meanwhile(jobs: J.Table -> J.Table, runs: set<Run> -> set<Run>)

  function Prefix(testId: string): string {
    testId + "/"
  }

  /** Log objects the test's runs name outside the test's own folder. */
  function LegacyLogs(runs: set<Run>, testId: string): set<string> {
    set r | r in runs && r.testId == testId && r.logUrl != "" && !(Prefix(testId) <= r.logUrl) :: r.logUrl
  }

  /** Objects that go with the test. */
  predicate BelongsTo(runs: set<Run>, testId: string, artifactKey: string, key: string) {
    Prefix(testId) <= key || (artifactKey != "" && key == artifactKey) || key in LegacyLogs(runs, testId)
  }

  /** The objects of one deletion are gone, but for those whose deletion failed; nothing else is. */
  ghost predicate ObjectsGone(before: set<string>, after: set<string>, runs: set<Run>, testId: string,
                              artifactKey: string, faults: Faults) {
    && after <= before
    && (forall key :: key in before && !BelongsTo(runs, testId, artifactKey, key) ==> key in after)
    && (!faults.prefix ==> forall key :: key in after ==> !(Prefix(testId) <= key))
    && (artifactKey != "" && artifactKey !in faults.objects && !(Prefix(testId) <= artifactKey) ==>
          artifactKey !in after)
    && (forall key :: key in LegacyLogs(runs, testId) && key !in faults.objects ==> key !in after)
  }

  class Handler {
    const tests: TestRepository
    const jobs: J.JobRepository
    const runs: S.RetentionRepository
    const storage: S.ObjectStore

    constructor (tests: TestRepository, jobs: J.JobRepository, runs: S.RetentionRepository, storage: S.ObjectStore)
      ensures this.tests == tests && this.jobs == jobs && this.runs == runs && this.storage == storage
    {
      this.tests, this.jobs, this.runs, this.storage := tests, jobs, runs, storage;
    }

    /**
     Lists, kills the processes it can find (killable), and cancels. Between the
     listing and the cancel, meanwhile is what others do to the table: a job listed
     as running may have ended by then.
     */
    method Stop(testId: string, killable: set<string>, now: int, meanwhile: J.Table -> J.Table, faults: StopFaults)
      returns (reply: Reply, cancelled: nat, killed: nat)
      modifies jobs
      ensures reply.NotFound? <==> testId !in tests.tests
      ensures reply.ServerError? <==> testId in tests.tests && (faults.list || faults.cancel)
      ensures reply.Done? ==>
                && jobs.jobs == J.AfterCancel(meanwhile(old(jobs.jobs)), testId, "stopped by user", now)
                && cancelled == |J.ActiveFor(meanwhile(old(jobs.jobs)), testId)|
                && J.ActiveFor(jobs.jobs, testId) == {}
                && killed == |Killed(old(jobs.jobs), testId, killable)|
      ensures !reply.Done? ==>
                jobs.jobs == if testId in tests.tests && !faults.list then meanwhile(old(jobs.jobs)) else old(jobs.jobs)
    {
      if testId !in tests.tests {
        return NotFound, 0, 0;
      }
      if faults.list {
        return ServerError, 0, 0;
      }
      killed := Kill(testId, killable);
      jobs.jobs := meanwhile(jobs.jobs);
      if faults.cancel {
        return ServerError, 0, killed;
      }
      cancelled := jobs.CancelActiveForTest(testId, "stopped by user", now);
      reply := Done;
    }

    method Kill(testId: string, killable: set<string>) returns (killed: nat)
      ensures killed == |Killed(jobs.jobs, testId, killable)| <= |J.ActiveFor(jobs.jobs, testId)|
    {
      killed := 0;
      var active := J.ActiveFor(jobs.jobs, testId);
      var rest := active;
      ghost var hits := Killed(jobs.jobs, testId, killable);
      while rest != {}
        invariant rest <= active && killed == |hits - rest|
        decreases |rest|
      {
        var id :| id in rest;
        OneLess(hits, rest, id);
        if jobs.jobs[id].status.Running? && id in killable {
          killed := killed + 1;
        }
        rest := rest - {id};
      }
      assert hits - {} == hits;
      SubsetSize(hits, active);
    }

    /**
     Lists runs and jobs, cancels the jobs, deletes the rows in one transaction,
     then the objects; a failed object deletion is only logged. The transaction takes
     the rows as it finds them after what others did meanwhile; the logs are those
     listed before.
     */
    method DeleteTest(testId: string, artifactKey: string, now: int, meanwhile: Meanwhile, faults: Faults)
      returns (reply: Reply)
      modifies tests, jobs, runs, storage
      ensures reply.NotFound? <==> testId !in old(tests.tests)
      ensures reply.Done? <==> testId in old(tests.tests) && !Stops(faults)
      ensures reply.Done? ==>
                && tests.tests == old(tests.tests) - {testId}
                && jobs.jobs == J.AfterDrop(
                     meanwhile.jobs(J.AfterCancel(old(jobs.jobs), testId, "test deleted", now)), testId)
                && runs.runs == Others(meanwhile.runs(old(runs.runs)), testId)
                && ObjectsGone(old(storage.objects), storage.objects, old(runs.runs), testId, artifactKey, faults)
      ensures reply.Done? ==>
                && (forall r :: r in runs.runs <==> r in meanwhile.runs(old(runs.runs)) && r.testId != testId)
                && (forall id :: id in jobs.jobs ==> jobs.jobs[id].testId != testId)
      ensures !reply.Done? ==> tests.tests == old(tests.tests) && storage.objects == old(storage.objects)
      ensures reply.NotFound? || faults.listRuns || faults.listJobs || faults.cancel ==>
                runs.runs == old(runs.runs) && jobs.jobs == old(jobs.jobs)
      ensures reply.ServerError? && !faults.listRuns && !faults.listJobs && !faults.cancel ==>
                && jobs.jobs == meanwhile.jobs(J.AfterCancel(old(jobs.jobs), testId, "test deleted", now))
                && runs.runs == meanwhile.runs(old(runs.runs))
    {
      if testId !in tests.tests {
        return NotFound;
      }
      if faults.listRuns {
        return ServerError;
      }
      var listed := runs.runs;
      if faults.listJobs || faults.cancel {
        return ServerError;
      }
      var _ := jobs.CancelActiveForTest(testId, "test deleted", now);
      jobs.jobs, runs.runs := meanwhile.jobs(jobs.jobs), meanwhile.runs(runs.runs);
      if faults.rows {
        return ServerError;
      }
      runs.runs := Others(runs.runs, testId);
      jobs.jobs := J.AfterDrop(jobs.jobs, testId);
      var _ := tests.Delete(testId);
      DeleteObjects(testId, artifactKey, listed, faults);
      reply := Done;
    }

    /** The folder, then the artifact and each distinct log that lie outside it. */
    method DeleteObjects(testId: string, artifactKey: string, listed: set<Run>, faults: Faults)
      modifies storage
      ensures ObjectsGone(old(storage.objects), storage.objects, listed, testId, artifactKey, faults)
    {
      ghost var before := storage.objects;
      var _ := storage.DeletePrefix(Prefix(testId), faults.prefix);
      if artifactKey != "" && !(Prefix(testId) <= artifactKey) {
        var _ := storage.DeleteObject(artifactKey, artifactKey in faults.objects);
      }
      ghost var cleared := storage.objects;
      var rest := LegacyLogs(listed, testId);
      ghost var all := rest;
      while rest != {}
        invariant rest <= all && storage.objects <= cleared
        invariant forall key :: key in cleared && key !in all ==> key in storage.objects
        invariant forall key :: key in all - rest && key !in faults.objects ==> key !in storage.objects
        decreases |rest|
      {
        var log :| log in rest;
        var _ := storage.DeleteObject(log, log in faults.objects);
        rest := rest - {log};
      }
    }
  }

  /** Active jobs of the test that run and have a process to kill. */
  function Killed(jobs: J.Table, testId: string, killable: set<string>): set<string> {
    set id | id in J.ActiveFor(jobs, testId) && jobs[id].status.Running? && id in killable
  }

  lemma OneLess(hits: set<string>, rest: set<string>, id: string)
    requires id in rest
    ensures id in hits ==> |hits - (rest - {id})| == |hits - rest| + 1
    ensures id !in hits ==> hits - (rest - {id}) == hits - rest
  {
    if id in hits {
      assert hits - (rest - {id}) == (hits - rest) + {id};
    } else {
      assert hits - (rest - {id}) == hits - rest;
    }
  }

  /** Dropping a test's rows leaves every other row as it was. */
  lemma OtherRowsStay(jobs: J.Table, testId: string, now: int, id: string)
    requires id in jobs && jobs[id].testId != testId
    ensures var after := J.AfterDrop(J.AfterCancel(jobs, testId, "test deleted", now), testId);
      id in after && after[id] == jobs[id]
  {
  }

  lemma KilledAre(jobs: J.Table, testId: string, killable: set<string>, id: string)
    ensures id in Killed(jobs, testId, killable) <==>
              id in jobs && jobs[id].testId == testId && jobs[id].status == J.Running && id in killable
  {
  }

  /**
   What goes with a test: the keys under its id and a slash, its artifact, and the
   logs its listed runs name. Nothing else goes, and of these only what failed stays.
   */
  lemma DeletedObjectsAre(before: set<string>, after: set<string>, runs: set<Run>, testId: string, artifactKey: string,
                          faults: Faults, key: string)
    requires ObjectsGone(before, after, runs, testId, artifactKey, faults) && key in before
    ensures !(testId + "/" <= key) && key != artifactKey && !IsLogOf(runs, testId, key) ==> key in after
    ensures testId + "/" <= key && !faults.prefix ==> key !in after
    ensures !(testId + "/" <= key) && key !in faults.objects && key != "" ==>
              key == artifactKey || IsLogOf(runs, testId, key) ==> key !in after
  {
    if !(Prefix(testId) <= key) && key != "" && IsLogOf(runs, testId, key) {
      var r :| r in runs && r.testId == testId && r.logUrl == key;
      assert key in LegacyLogs(runs, testId);
    }
  }

  ghost predicate IsLogOf(runs: set<Run>, testId: string, key: string) {
    exists r :: r in runs && r.testId == testId && r.logUrl == key
  }

  function Others(runs: set<Run>, testId: string): set<Run> {
    set r | r in runs && r.testId != testId
  }

  predicate Stops(faults: Faults) {
    faults.listRuns || faults.listJobs || faults.cancel || faults.rows
  }

  /**
   Deleting one test leaves the objects of every other test alone: whatever
   lies in another test's folder survives, unless a run or the artifact of the
   deleted test names it.
   */
  lemma OtherTestsKeepTheirObjects(before: set<string>, after: set<string>, runs: set<Run>, testId: string,
                                   artifactKey: string,
                                   faults: Faults, other: string, key: string)
    requires ObjectsGone(before, after, runs, testId, artifactKey, faults)
    requires SlashFree(testId) && SlashFree(other) && other != testId
    requires key in before && Prefix(other) <= key && key != artifactKey && key !in LegacyLogs(runs, testId)
    ensures key in after
  {
    if Prefix(testId) <= key {
      var x, y := key[|Prefix(testId)|..], key[|Prefix(other)|..];
      assert testId + "/" + x == key == other + "/" + y;
      SlashFreePrefixIsUnique(testId, other, x, y);
    }
  }
}
