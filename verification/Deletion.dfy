/**
 Deleting a test while jobs of it still run. A worker reads the test first, then
 uploads its log, inserts its run, and uploads screenshots; the deletion drops
 the rows and then clears the test's folder, and nothing makes one wait for the
 other. The state is that of one test; keys are those under its folder.
 */
module Deletion {
  import opened Common

  /** Where executeJob stands, counting the steps that touch the test's rows or folder. */
  datatype Pc = Executing | Uploaded | Stored | Gone

  datatype Worker = Worker(run: string, pc: Pc)

  /** runs are the run rows of the test; cleared says that the folder has been cleared. */
  datatype State = State(
    testExists: bool, runs: set<string>, objects: set<string>, workers: seq<Worker>, cleared: bool)

  datatype Event =
    | Starts(run: string)
    | UploadsLog(h: nat, ok: bool)
    | InsertsRun(h: nat, fails: bool)
    | UploadsShot(h: nat, name: string)
    | Ends(h: nat)
    | DropsRows
    | ClearsFolder(missed: set<string>)

  /** A test as uploaded: its artifact, and nothing else yet. */
  function Start(artifact: set<string>): State {
    State(true, {}, artifact, [], false)
  }

  function LogKey(run: string): string {
    "log/" + run + "/log"
  }

  function ShotKey(run: string, name: string): string {
    "log/" + run + "/" + name
  }

  predicate At(s: State, h: nat, pc: Pc) {
    h < |s.workers| && s.workers[h].pc == pc
  }

  predicate Enabled(s: State, e: Event) {
    match e
    case Starts(_) => s.testExists
    case UploadsLog(h, _) => At(s, h, Executing)
    case InsertsRun(h, _) => At(s, h, Uploaded)
    case UploadsShot(h, _) => At(s, h, Stored)
    case Ends(h) => h < |s.workers|
    case DropsRows => s.testExists
    case ClearsFolder(_) => !s.testExists && !s.cleared
  }

  function Moved(s: State, h: nat, pc: Pc): State
    requires h < |s.workers|
  {
    s.(workers := s.workers[h := s.workers[h].(pc := pc)])
  }

  /** The object an event puts into the folder. */
  function Put(s: State, e: Event): Option<string>
    requires Enabled(s, e)
  {
    match e
    case UploadsLog(h, ok) => if ok then Some(LogKey(s.workers[h].run)) else None
    case UploadsShot(h, name) => Some(ShotKey(s.workers[h].run, name))
    case _ => None
  }

  function Next(s: State, e: Event): State
    requires Enabled(s, e)
  {
    match e
    case Starts(run) => s.(workers := s.workers + [Worker(run, Executing)])
    case UploadsLog(h, ok) =>
      // a failed upload is logged, and the run is inserted all the same
      Moved(s, h, Uploaded).(objects := s.objects + if ok then {LogKey(s.workers[h].run)} else {})
    case InsertsRun(h, fails) =>
      if fails || !s.testExists then Moved(s, h, Gone)
      else Moved(s, h, Stored).(runs := s.runs + {s.workers[h].run})
    case UploadsShot(h, name) => s.(objects := s.objects + {ShotKey(s.workers[h].run, name)})
    case Ends(h) => Moved(s, h, Gone)
    case DropsRows => s.(testExists := false, runs := {})
    case ClearsFolder(missed) => s.(objects := s.objects * missed, cleared := true)
  }

  predicate IsRun(s: State, es: seq<Event>)
    decreases |es|, 0
  {
    es == [] || (IsRun(s, es[..|es| - 1]) && Enabled(After(s, es[..|es| - 1]), es[|es| - 1]))
  }

  function After(s: State, es: seq<Event>): State
    requires IsRun(s, es)
    decreases |es|, 1
  {
    if es == [] then s else Next(After(s, es[..|es| - 1]), es[|es| - 1])
  }

  // ---------- What a deletion leaves ----------

  /** Step i of the run puts key into the folder. */
  predicate PutsAt(s: State, es: seq<Event>, i: nat, key: string) {
    i < |es| && IsRun(s, es[..i]) && Enabled(After(s, es[..i]), es[i]) && Put(After(s, es[..i]), es[i]) == Some(key)
  }

  lemma StepMovesObjects(s: State, e: Event, key: string)
    requires Enabled(s, e) && s.cleared
    ensures Next(s, e).cleared
    ensures key in Next(s, e).objects <==> key in s.objects || Put(s, e) == Some(key)
  {
  }

  lemma PutsStay(s: State, es: seq<Event>, e: Event, i: nat, key: string)
    requires IsRun(s, es + [e])
    ensures i < |es| ==> (PutsAt(s, es + [e], i, key) <==> PutsAt(s, es, i, key))
    ensures IsRun(s, es) && Enabled(After(s, es), e)
    ensures PutsAt(s, es + [e], |es|, key) <==> Put(After(s, es), e) == Some(key)
  {
    assert (es + [e])[..|es|] == es;
    if i < |es| {
      assert (es + [e])[..i] == es[..i];
    }
  }

  /** Once the folder is cleared, an object is there exactly when the clearing missed it or an upload came after. */
  lemma {:induction false} LeftoversAre(s: State, es: seq<Event>, key: string)
    requires s.cleared && IsRun(s, es)
    ensures After(s, es).cleared
    ensures key in After(s, es).objects <==> key in s.objects || exists i :: PutsAt(s, es, i, key)
    decreases |es|
  {
    if es != [] {
      var front, e := es[..|es| - 1], es[|es| - 1];
      assert es == front + [e];
      LeftoversAre(s, front, key);
      StepMovesObjects(After(s, front), e, key);
      PutsStay(s, front, e, 0, key);
      if i :| PutsAt(s, front, i, key) {
        PutsStay(s, front, e, i, key);
      }
      if i :| PutsAt(s, es, i, key) {
        PutsStay(s, front, e, i, key);
      }
    }
  }

  /** A worker that may still put something: its log, or, its run being in, screenshots. */
  predicate MayPut(s: State, h: nat) {
    At(s, h, Executing) || At(s, h, Stored)
  }

  ghost predicate NoneMayPut(s: State) {
    forall h :: 0 <= h < |s.workers| ==> !MayPut(s, h)
  }

  lemma StepStaysQuiet(s: State, e: Event)
    requires !s.testExists && s.cleared && NoneMayPut(s) && Enabled(s, e)
    ensures !Next(s, e).testExists && NoneMayPut(Next(s, e)) && Next(s, e).objects == s.objects
  {
    assert e.UploadsLog? || e.UploadsShot? ==> MayPut(s, e.h);
    forall h | 0 <= h < |Next(s, e).workers| ensures !MayPut(Next(s, e), h) {
      assert !MayPut(s, h);
    }
  }

  lemma {:induction false} QuietStays(s: State, es: seq<Event>)
    requires !s.testExists && s.cleared && NoneMayPut(s) && IsRun(s, es)
    ensures !After(s, es).testExists && NoneMayPut(After(s, es)) && After(s, es).objects == s.objects
    decreases |es|
  {
    if es != [] {
      QuietStays(s, es[..|es| - 1]);
      LeftoversAre(s, es[..|es| - 1], "");
      StepStaysQuiet(After(s, es[..|es| - 1]), es[|es| - 1]);
    }
  }

  lemma OneStep(s: State, e: Event)
    requires Enabled(s, e)
    ensures IsRun(s, [e]) && After(s, [e]) == Next(s, e)
  {
    assert [e][..0] == [];
    assert IsRun(s, [e][..0]) && After(s, [e][..0]) == s;
  }

  /** Run rows go with the test, and the folder is cleared after that. */
  lemma {:induction false} RowsNeedTest(artifact: set<string>, es: seq<Event>)
    requires IsRun(Start(artifact), es)
    ensures var s := After(Start(artifact), es); (s.runs != {} ==> s.testExists) && (s.cleared ==> !s.testExists)
    decreases |es|
  {
    if es != [] {
      RowsNeedTest(artifact, es[..|es| - 1]);
    }
  }

  ghost predicate StaysEmpty(s: State, es: seq<Event>) {
    IsRun(s, es) ==> After(s, es).objects == {}
  }

  /**
   When a deletion leaves nothing for good: when it cleared the whole folder, and
   no worker was left that had yet to upload. A worker that had can leave an object
   that no row names.
   */
  lemma DeletionIsCleanIff(artifact: set<string>, pre: seq<Event>)
    requires IsRun(Start(artifact), pre) && After(Start(artifact), pre).cleared
    ensures var s := After(Start(artifact), pre);
      (forall es :: StaysEmpty(s, es)) <==> s.objects == {} && NoneMayPut(s)
  {
    var s := After(Start(artifact), pre);
    RowsNeedTest(artifact, pre);
    if s.objects != {} {
      assert !StaysEmpty(s, []);
    } else if NoneMayPut(s) {
      forall es ensures StaysEmpty(s, es) {
        if IsRun(s, es) {
          QuietStays(s, es);
        }
      }
    } else {
      var h :| 0 <= h < |s.workers| && MayPut(s, h);
      var e := if At(s, h, Executing) then UploadsLog(h, true) else UploadsShot(h, "");
      OneStep(s, e);
      assert Put(s, e).value in After(s, [e]).objects;
      assert !StaysEmpty(s, [e]);
    }
  }

  // ---------- Who leaves it, and that nothing refers to it ----------

  /** No worker starts once the rows are gone, and no run row comes back. */
  lemma {:induction false} DroppedStays(s: State, es: seq<Event>)
    requires !s.testExists && s.runs == {} && IsRun(s, es)
    ensures !After(s, es).testExists && After(s, es).runs == {}
    ensures |After(s, es).workers| == |s.workers|
    ensures forall h :: 0 <= h < |s.workers| ==> After(s, es).workers[h].run == s.workers[h].run
    decreases |es|
  {
    if es != [] {
      DroppedStays(s, es[..|es| - 1]);
    }
  }

  predicate KeyOf(run: string, key: string) {
    "log/" + run + "/" <= key
  }

  /**
   What is put after the rows are gone was put by a worker that had read the test
   before, under a run that has no row: nothing will ever list or delete it.
   */
  lemma LeftoversAreOrphans(artifact: set<string>, pre: seq<Event>, es: seq<Event>, i: nat, key: string)
    requires IsRun(Start(artifact), pre) && !After(Start(artifact), pre).testExists
    requires var s := After(Start(artifact), pre); IsRun(s, es) && PutsAt(s, es, i, key)
    ensures var s := After(Start(artifact), pre);
      && After(s, es).runs == {}
      && exists h :: 0 <= h < |s.workers| && KeyOf(s.workers[h].run, key)
  {
    var s := After(Start(artifact), pre);
    RowsNeedTest(artifact, pre);
    DroppedStays(s, es);
    DroppedStays(s, es[..i]);
    assert KeyOf(s.workers[es[i].h].run, key);
  }

  // ---------- Both happen ----------

  lemma Grow(artifact: set<string>, es: seq<Event>, s: State, e: Event) returns (es': seq<Event>, s': State)
    requires IsRun(Start(artifact), es) && s == After(Start(artifact), es) && Enabled(s, e)
    ensures es' == es + [e] && s' == Next(s, e)
    ensures IsRun(Start(artifact), es') && s' == After(Start(artifact), es')
  {
    es', s' := es + [e], Next(s, e);
    assert es'[..|es|] == es;
  }

  /** A worker that read the test before its deletion and uploads after it leaves its log under a run without a row. */
  lemma DeletionCanLeaveAnOrphan(artifact: set<string>, run: string) returns (es: seq<Event>)
    ensures IsRun(Start(artifact), es)
    ensures var s := After(Start(artifact), es);
      s.cleared && !s.testExists && s.runs == {} && s.objects == {"log/" + run + "/log"}
  {
    var s := Start(artifact);
    es := [];
    es, s := Grow(artifact, es, s, Starts(run));
    es, s := Grow(artifact, es, s, DropsRows);
    es, s := Grow(artifact, es, s, ClearsFolder({}));
    assert s.objects == {};
    es, s := Grow(artifact, es, s, UploadsLog(0, true));
  }

  /** Left in peace, a worker stores its log, its run and its screenshots, and a deletion then takes them for good. */
  lemma UndisturbedJobIsStoredThenDeleted(artifact: set<string>, run: string, name: string)
    returns (es: seq<Event>, more: seq<Event>)
    ensures IsRun(Start(artifact), es) && IsRun(Start(artifact), more)
    ensures var s := After(Start(artifact), es);
      s.runs == {run} && s.objects == artifact + {"log/" + run + "/log"} + {"log/" + run + "/" + name}
    ensures After(Start(artifact), more).runs == {} && After(Start(artifact), more).objects == {}
    ensures NoneMayPut(After(Start(artifact), more))
  {
    var s := Start(artifact);
    es := [];
    es, s := Grow(artifact, es, s, Starts(run));
    es, s := Grow(artifact, es, s, UploadsLog(0, true));
    es, s := Grow(artifact, es, s, InsertsRun(0, false));
    es, s := Grow(artifact, es, s, UploadsShot(0, name));
    assert s.runs == {run};
    more, s := Grow(artifact, es, s, Ends(0));
    more, s := Grow(artifact, more, s, DropsRows);
    more, s := Grow(artifact, more, s, ClearsFolder({}));
  }
}
