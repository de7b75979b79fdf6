/**
 Environment variables under concurrent Upsert transactions, unlocked Deletes,
 and tests that come and go. A transaction's statements are separate steps; it
 holds the test's row lock from its first statement, if the row was there.
 */
module EnvVars {
  import opened Common

  datatype Key = Key(testId: string, name: string)

  datatype Value = Value(text: string, isSecret: bool)

  type Table = map<Key, Value>

  datatype Outcome = Stored | TooMany | NoTest | Aborted

  function Names(vars: Table, testId: string): set<string> {
    set k | k in vars && k.testId == testId :: k.name
  }

  // ---------- The repository, one call at a time ----------

  /** What Upsert answers when it runs alone; a missing test shows only as a broken foreign key. */
  function Answer(vars: Table, tests: set<string>, maxVars: nat, key: Key): Outcome {
    if key !in vars && |Names(vars, key.testId)| >= maxVars then TooMany
    else if key.testId !in tests then NoTest
    else Stored
  }

  class EnvRepository {
    var vars: Table

    constructor ()
      ensures vars == map[]
    {
      vars := map[];
    }

    method Upsert(key: Key, value: Value, maxVars: nat, tests: set<string>) returns (out: Outcome)
      modifies this
      ensures out == Answer(old(vars), tests, maxVars, key)
      ensures out.Stored? <==>
                key.testId in tests && (key in old(vars) || |VariablesOf(old(vars), key.testId)| < maxVars)
      ensures out.TooMany? <==> key !in old(vars) && |VariablesOf(old(vars), key.testId)| >= maxVars
      ensures out.Stored? || out.TooMany? || out.NoTest?
      ensures vars == if out.Stored? then old(vars)[key := value] else old(vars)
      ensures |Names(old(vars), key.testId)| <= maxVars ==> |Names(vars, key.testId)| <= maxVars
    {
      NamesCountVariables(vars, key.testId);
      if key !in vars {
        var n := |Names(vars, key.testId)|;
        if n >= maxVars {
          return TooMany;
        }
      }
      if key.testId !in tests {
        return NoTest;
      }
      NamesAfterStore(vars, key, value, key.testId);
      vars := vars[key := value];
      out := Stored;
    }

    method Delete(key: Key) returns (found: bool)
      modifies this
      ensures found <==> key in old(vars)
      ensures vars == old(vars) - {key}
    {
      found := key in vars;
      vars := vars - {key};
    }
  }

  lemma NamesAfterStore(vars: Table, key: Key, value: Value, testId: string)
    ensures Names(vars[key := value], testId) == Names(vars, testId) + if key.testId == testId then {key.name} else {}
    ensures key.name in Names(vars, key.testId) <==> key in vars
  {
    var vars' := vars[key := value];
    forall name | name in Names(vars, testId) ensures name in Names(vars', testId) {
      assert Key(testId, name) in vars;
      assert Key(testId, name) in vars';
    }
    if key.testId == testId {
      assert key in vars' && key == Key(testId, key.name);
    }
  }

  function VariablesOf(vars: Table, testId: string): set<Key> {
    set k | k in vars && k.testId == testId
  }

  lemma OneVariableLess(vars: Table, k: Key)
    requires k in vars
    ensures Names(vars - {k}, k.testId) == Names(vars, k.testId) - {k.name} && k.name in Names(vars, k.testId)
  {
    var fewer := vars - {k};
    forall name | name in Names(vars, k.testId) - {k.name} ensures name in Names(fewer, k.testId) {
      assert Key(k.testId, name) in fewer;
    }
    forall name | name in Names(fewer, k.testId) ensures name in Names(vars, k.testId) - {k.name} {
      assert Key(k.testId, name) in fewer && Key(k.testId, name) in vars;
    }
  }

  /** Counting names counts the test's variables. */
  lemma {:induction false} NamesCountVariables(vars: Table, testId: string)
    ensures |Names(vars, testId)| == |VariablesOf(vars, testId)|
    decreases |VariablesOf(vars, testId)|
  {
    if VariablesOf(vars, testId) == {} {
      forall name ensures name !in Names(vars, testId) {
        assert Key(testId, name) !in VariablesOf(vars, testId);
      }
    } else {
      var k :| k in VariablesOf(vars, testId);
      var fewer := vars - {k};
      OneVariableLess(vars, k);
      assert VariablesOf(fewer, testId) == VariablesOf(vars, testId) - {k};
      NamesCountVariables(fewer, testId);
    }
  }

  lemma NamesAfterRemoval(vars: Table, vars': Table, testId: string)
    requires vars'.Keys <= vars.Keys
    ensures Names(vars', testId) <= Names(vars, testId)
  {
    forall name | name in Names(vars', testId) ensures name in Names(vars, testId) {
      assert Key(testId, name) in vars';
    }
  }

  // ---------- The transactions ----------

  /** Between the statements of one Upsert; locked says whether the first one found the row to lock. */
  datatype Pc =
    | Begun
    | Looked(locked: bool)
    | Checked(locked: bool, exists_: bool)
    | Cleared(locked: bool)
    | Pending
    | Done(out: Outcome)

  datatype Tx = Tx(key: Key, value: Value, pc: Pc)

  /** A new test gets an id that no transaction names: ids are random. */
  datatype State = State(maxVars: nat, tests: set<string>, vars: Table, txs: seq<Tx>)

  datatype Event =
    | Begin(key: Key, value: Value)
    | Lock(i: nat)
    | Check(i: nat)
    | Count(i: nat)
    | Insert(i: nat)
    | Commit(i: nat)
    | Abort(i: nat)
    | DeleteVar(key: Key)
    | CreateTest(id: string)
    | DeleteTest(id: string)

  function Start(maxVars: nat): State {
    State(maxVars, {}, map[], [])
  }

  predicate Holds(tx: Tx) {
    match tx.pc
    case Looked(locked) => locked
    case Checked(locked, _) => locked
    case Cleared(locked) => locked
    case Pending => true
    case _ => false
  }

  predicate IsLocked(s: State, testId: string) {
    exists i :: 0 <= i < |s.txs| && s.txs[i].key.testId == testId && Holds(s.txs[i])
  }

  /** The row a pending transaction updated is locked against deletion. */
  predicate IsPending(s: State, key: Key) {
    exists i :: 0 <= i < |s.txs| && s.txs[i].key == key && s.txs[i].pc.Pending?
  }

  predicate Enabled(s: State, e: Event) {
    match e
    case Begin(_, _) => true
    case Lock(i) =>
      i < |s.txs| && s.txs[i].pc.Begun? && (s.txs[i].key.testId in s.tests ==> !IsLocked(s, s.txs[i].key.testId))
    case Check(i) => i < |s.txs| && s.txs[i].pc.Looked?
    case Count(i) => i < |s.txs| && s.txs[i].pc.Checked?
    case Insert(i) => i < |s.txs| && s.txs[i].pc.Cleared?
    case Commit(i) => i < |s.txs| && s.txs[i].pc.Pending?
    case Abort(i) => i < |s.txs| && !s.txs[i].pc.Done?
    case DeleteVar(key) => key in s.vars ==> !IsPending(s, key)
    case CreateTest(id) => id !in s.tests && forall i :: 0 <= i < |s.txs| ==> s.txs[i].key.testId != id
    case DeleteTest(id) => !IsLocked(s, id)
  }

  function At(s: State, i: nat, pc: Pc): State
    requires i < |s.txs|
  {
    s.(txs := s.txs[i := s.txs[i].(pc := pc)])
  }

  function Next(s: State, e: Event): State
    requires Enabled(s, e)
  {
    match e
    case Begin(key, value) => s.(txs := s.txs + [Tx(key, value, Begun)])
    case Lock(i) => At(s, i, Looked(s.txs[i].key.testId in s.tests))
    case Check(i) => At(s, i, Checked(s.txs[i].pc.locked, s.txs[i].key in s.vars))
    case Count(i) =>
      var tx := s.txs[i];
      if !tx.pc.exists_ && |Names(s.vars, tx.key.testId)| >= s.maxVars then At(s, i, Done(TooMany))
      else At(s, i, Cleared(tx.pc.locked))
    case Insert(i) => At(s, i, if s.txs[i].key.testId in s.tests then Pending else Done(NoTest))
    case Commit(i) => At(s, i, Done(Stored)).(vars := s.vars[s.txs[i].key := s.txs[i].value])
    case Abort(i) => At(s, i, Done(Aborted))
    case DeleteVar(key) => s.(vars := s.vars - {key})
    case CreateTest(id) => s.(tests := s.tests + {id})
    case DeleteTest(id) => s.(tests := s.tests - {id}, vars := map k | k in s.vars && k.testId != id :: s.vars[k])
  }

  predicate IsRun(s: State, es: seq<Event>)
    decreases |es|, 0
  {
    es == [] || (IsRun(s, es[..|es| - 1]) && Enabled(After(s, es[..|es| - 1]), es[|es| - 1]))
  }

  function After(s: State, es: seq<Event>): State
    requires IsRun(s, es)
    decreases |es|, 1
  {
    if es == [] then s else Next(After(s, es[..|es| - 1]), es[|es| - 1])
  }

  // ---------- The invariant ----------

  ghost predicate Capped(s: State) {
    forall testId :: |Names(s.vars, testId)| <= s.maxVars
  }

  ghost predicate KeysValid(s: State) {
    forall k :: k in s.vars ==> k.testId in s.tests
  }

  ghost predicate LocksExclude(s: State) {
    forall i, j :: 0 <= i < j < |s.txs| && Holds(s.txs[i]) && Holds(s.txs[j]) ==>
      s.txs[i].key.testId != s.txs[j].key.testId
  }

  /** A transaction holds the lock exactly while its test exists. */
  predicate LockMatchesTest(tx: Tx, tests: set<string>) {
    !tx.pc.Begun? && !tx.pc.Done? ==> (Holds(tx) <==> tx.key.testId in tests)
  }

  ghost predicate LocksMatch(s: State) {
    forall i :: 0 <= i < |s.txs| ==> LockMatchesTest(s.txs[i], s.tests)
  }

  /** There is room for the name a cleared transaction is about to write, and an absent name stays absent. */
  ghost predicate HasRoom(vars: Table, maxVars: nat, tx: Tx) {
    && ((tx.pc.Checked? && tx.pc.exists_) || tx.pc.Cleared? || tx.pc.Pending? ==>
          |Names(vars, tx.key.testId) + {tx.key.name}| <= maxVars)
    && (tx.pc.Checked? && !tx.pc.exists_ ==> tx.key !in vars)
  }

  ghost predicate RoomKept(s: State) {
    forall i :: 0 <= i < |s.txs| ==> HasRoom(s.vars, s.maxVars, s.txs[i])
  }

  ghost predicate Inv(s: State) {
    Capped(s) && KeysValid(s) && LocksExclude(s) && LocksMatch(s) && RoomKept(s)
  }

  lemma StepKeepsLocks(s: State, e: Event)
    requires Enabled(s, e) && LocksExclude(s) && LocksMatch(s)
    ensures LocksExclude(Next(s, e))
  {
  }

  lemma StepKeepsMatch(s: State, e: Event)
    requires Enabled(s, e) && LocksMatch(s)
    ensures LocksMatch(Next(s, e))
  {
  }

  lemma StepKeepsKeys(s: State, e: Event)
    requires Enabled(s, e) && LocksMatch(s) && KeysValid(s)
    ensures KeysValid(Next(s, e))
  {
  }

  lemma StepKeepsCap(s: State, e: Event)
    requires Enabled(s, e) && Capped(s) && RoomKept(s)
    ensures Capped(Next(s, e))
  {
    var vars' := Next(s, e).vars;
    forall testId ensures |Names(vars', testId)| <= s.maxVars {
      if e.Commit? {
        assert HasRoom(s.vars, s.maxVars, s.txs[e.i]);
        StoreKeepsCap(s.vars, s.maxVars, s.txs[e.i], testId);
      } else {
        assert vars'.Keys <= s.vars.Keys;
        NamesAfterRemoval(s.vars, vars', testId);
        SubsetSize(Names(vars', testId), Names(s.vars, testId));
      }
    }
  }

  lemma StoreKeepsCap(vars: Table, maxVars: nat, tx: Tx, testId: string)
    requires tx.pc.Pending? && HasRoom(vars, maxVars, tx) && |Names(vars, testId)| <= maxVars
    ensures |Names(vars[tx.key := tx.value], testId)| <= maxVars
  {
    NamesAfterStore(vars, tx.key, tx.value, testId);
    assert Names(vars, testId) + {} == Names(vars, testId);
  }

  /** Room survives any step that adds no name to the transaction's test. */
  lemma RoomSurvives(vars: Table, vars': Table, maxVars: nat, tx: Tx)
    requires HasRoom(vars, maxVars, tx)
    requires Names(vars', tx.key.testId) <= Names(vars, tx.key.testId) && (tx.key in vars' ==> tx.key in vars)
    ensures HasRoom(vars', maxVars, tx)
  {
    SubsetSize(Names(vars', tx.key.testId) + {tx.key.name}, Names(vars, tx.key.testId) + {tx.key.name});
  }

  /** The step that moves a transaction leaves room for it: Check and Count decide, later ones inherit. */
  lemma MoverHasRoom(s: State, e: Event, i: nat)
    requires Enabled(s, e) && Capped(s) && i < |s.txs| && HasRoom(s.vars, s.maxVars, s.txs[i])
    requires e in {Lock(i), Check(i), Count(i), Insert(i), Commit(i), Abort(i)}
    ensures HasRoom(Next(s, e).vars, s.maxVars, Next(s, e).txs[i])
  {
    var key := s.txs[i].key;
    var names := Names(s.vars, key.testId);
    if e.Check? {
      NamesAfterStore(s.vars, key, s.txs[i].value, key.testId);
      if key in s.vars {
        assert names + {key.name} == names;
      }
    }
  }

  lemma CommitKeepsOthersRoom(vars: Table, maxVars: nat, tests: set<string>, committing: Tx, tx: Tx)
    requires committing.pc.Pending? && HasRoom(vars, maxVars, tx)
    requires LockMatchesTest(committing, tests) && LockMatchesTest(tx, tests)
    requires Holds(tx) ==> tx.key.testId != committing.key.testId
    ensures HasRoom(vars[committing.key := committing.value], maxVars, tx)
  {
    NamesAfterStore(vars, committing.key, committing.value, tx.key.testId);
    if committing.key.testId != tx.key.testId {
      RoomSurvives(vars, vars[committing.key := committing.value], maxVars, tx);
    }
  }

  lemma OthersKeepRoom(s: State, e: Event, j: nat)
    requires Enabled(s, e) && j < |s.txs| && e !in {Lock(j), Check(j), Count(j), Insert(j), Commit(j), Abort(j)}
    requires HasRoom(s.vars, s.maxVars, s.txs[j]) && LocksExclude(s) && LocksMatch(s)
    ensures HasRoom(Next(s, e).vars, s.maxVars, Next(s, e).txs[j])
  {
    if e.Commit? {
      CommitKeepsOthersRoom(s.vars, s.maxVars, s.tests, s.txs[e.i], s.txs[j]);
    } else {
      OnlyCommitAdds(s, e);
      RemovalKeepsRoom(s.vars, Next(s, e).vars, s.maxVars, s.txs[j]);
    }
    OthersStayPut(s, e, j);
  }

  lemma OnlyCommitAdds(s: State, e: Event)
    requires Enabled(s, e) && !e.Commit?
    ensures Next(s, e).vars.Keys <= s.vars.Keys
  {
  }

  lemma OthersStayPut(s: State, e: Event, j: nat)
    requires Enabled(s, e) && j < |s.txs| && e !in {Lock(j), Check(j), Count(j), Insert(j), Commit(j), Abort(j)}
    ensures |Next(s, e).txs| >= |s.txs| && Next(s, e).txs[j] == s.txs[j]
  {
  }

  lemma RemovalKeepsRoom(vars: Table, vars': Table, maxVars: nat, tx: Tx)
    requires HasRoom(vars, maxVars, tx) && vars'.Keys <= vars.Keys
    ensures HasRoom(vars', maxVars, tx)
  {
    NamesAfterRemoval(vars, vars', tx.key.testId);
    RoomSurvives(vars, vars', maxVars, tx);
  }

  lemma TxKeepsRoom(s: State, e: Event, j: nat)
    requires Enabled(s, e) && Inv(s) && j < |Next(s, e).txs|
    ensures HasRoom(Next(s, e).vars, s.maxVars, Next(s, e).txs[j])
  {
    if j < |s.txs| {
      assert HasRoom(s.vars, s.maxVars, s.txs[j]);
      if e in {Lock(j), Check(j), Count(j), Insert(j), Commit(j), Abort(j)} {
        MoverHasRoom(s, e, j);
      } else {
        OthersKeepRoom(s, e, j);
      }
    }
  }

  lemma StepKeepsRoom(s: State, e: Event)
    requires Enabled(s, e) && Inv(s)
    ensures RoomKept(Next(s, e))
  {
    forall j | 0 <= j < |Next(s, e).txs| ensures HasRoom(Next(s, e).vars, s.maxVars, Next(s, e).txs[j]) {
      TxKeepsRoom(s, e, j);
    }
  }

  lemma {:induction false} RunsKeepInv(maxVars: nat, es: seq<Event>)
    requires IsRun(Start(maxVars), es)
    ensures Inv(After(Start(maxVars), es)) && After(Start(maxVars), es).maxVars == maxVars
    decreases |es|
  {
    if es != [] {
      RunsKeepInv(maxVars, es[..|es| - 1]);
      var s := After(Start(maxVars), es[..|es| - 1]);
      StepKeepsLocks(s, es[|es| - 1]);
      StepKeepsMatch(s, es[|es| - 1]);
      StepKeepsKeys(s, es[|es| - 1]);
      StepKeepsCap(s, es[|es| - 1]);
      StepKeepsRoom(s, es[|es| - 1]);
    }
  }

  // ---------- What holds in every run ----------

  /** No interleaving takes a test above the cap, and every variable belongs to a test. */
  lemma {:induction false} CapHolds(maxVars: nat, es: seq<Event>, testId: string)
    requires IsRun(Start(maxVars), es)
    ensures |VariablesOf(After(Start(maxVars), es).vars, testId)| <= maxVars
    ensures |Names(After(Start(maxVars), es).vars, testId)| <= maxVars
    ensures testId !in After(Start(maxVars), es).tests ==> Names(After(Start(maxVars), es).vars, testId) == {}
  {
    RunsKeepInv(maxVars, es);
    NamesCountVariables(After(Start(maxVars), es).vars, testId);
  }

  /** A variable changes only by a commit for it, by its own deletion, or with its test. */
  lemma VariablesKeepToThemselves(s: State, e: Event, k: Key)
    requires Enabled(s, e)
    requires e.Commit? ==> s.txs[e.i].key != k
    requires e.DeleteVar? ==> e.key != k
    requires e.DeleteTest? ==> e.id != k.testId
    ensures k in Next(s, e).vars <==> k in s.vars
    ensures k in s.vars ==> Next(s, e).vars[k] == s.vars[k]
  {
  }

  /** And deletions do delete. */
  lemma DeletionsDelete(s: State, e: Event, k: Key)
    requires Enabled(s, e) && (e == DeleteVar(k) || e == DeleteTest(k.testId))
    ensures k !in Next(s, e).vars
  {
  }

  /** Transaction i has answered Stored or Aborted exactly if that step of it is in the run. */
  ghost predicate AnswersTell(s: State, es: seq<Event>, i: nat) {
    && (Commit(i) in es <==> i < |s.txs| && s.txs[i].pc == Done(Stored))
    && (Abort(i) in es <==> i < |s.txs| && s.txs[i].pc == Done(Aborted))
  }

  lemma OneMoreAnswer(s: State, es: seq<Event>, e: Event, i: nat)
    requires Enabled(s, e) && AnswersTell(s, es, i)
    ensures AnswersTell(Next(s, e), es + [e], i)
  {
    assert Commit(i) in es + [e] <==> Commit(i) in es || e == Commit(i);
    assert Abort(i) in es + [e] <==> Abort(i) in es || e == Abort(i);
  }

  /** A transaction is answered Stored exactly when it committed, and Aborted exactly when it was aborted. */
  lemma {:induction false} StoredMeansCommitted(maxVars: nat, es: seq<Event>, i: nat)
    requires IsRun(Start(maxVars), es)
    ensures AnswersTell(After(Start(maxVars), es), es, i)
    decreases |es|
  {
    if es != [] {
      var front, e := es[..|es| - 1], es[|es| - 1];
      StoredMeansCommitted(maxVars, front, i);
      OneMoreAnswer(After(Start(maxVars), front), front, e, i);
      assert es == front + [e];
    }
  }

  /** The step gives transaction i its answer, other than by aborting it. */
  predicate Answers(s: State, e: Event, i: nat)
    requires Enabled(s, e)
  {
    i < |s.txs| && !s.txs[i].pc.Done? && e != Abort(i) && Next(s, e).txs[i].pc.Done?
  }

  /** A cleared transaction that is the first to write its name finds a test below the cap. */
  lemma RoomForNew(vars: Table, maxVars: nat, tx: Tx)
    requires HasRoom(vars, maxVars, tx) && (tx.pc.Cleared? || tx.pc.Pending?) && tx.key !in vars
    ensures |Names(vars, tx.key.testId)| < maxVars
  {
    NamesAfterStore(vars, tx.key, tx.value, tx.key.testId);
    assert |Names(vars, tx.key.testId) + {tx.key.name}| == |Names(vars, tx.key.testId)| + 1;
  }

  lemma AnswerIsAtomic(s: State, e: Event, i: nat)
    requires Enabled(s, e) && Answers(s, e, i)
    requires LockMatchesTest(s.txs[i], s.tests) && HasRoom(s.vars, s.maxVars, s.txs[i])
    ensures var s' := Next(s, e);
      && s'.txs[i].pc.out == Answer(s.vars, s.tests, s.maxVars, s.txs[i].key)
      && s'.vars == if s'.txs[i].pc.out.Stored? then s.vars[s.txs[i].key := s.txs[i].value] else s.vars
  {
    var tx := s.txs[i];
    if !tx.pc.Checked? && tx.key !in s.vars {
      RoomForNew(s.vars, s.maxVars, tx);
    }
  }

  /**
   Upserts are atomic: at the step that settles a transaction, its answer and
   its effect are those of an Upsert run alone at that moment, and no other
   step of a transaction touches the variables.
   */
  lemma {:induction false} UpsertsAreAtomic(maxVars: nat, es: seq<Event>, e: Event, i: nat)
    requires IsRun(Start(maxVars), es) && Enabled(After(Start(maxVars), es), e)
    ensures var s := After(Start(maxVars), es); var s' := Next(s, e);
      Answers(s, e, i) ==>
        && s'.txs[i].pc.out == Answer(s.vars, s.tests, maxVars, s.txs[i].key)
        && s'.vars == if s'.txs[i].pc.out.Stored? then s.vars[s.txs[i].key := s.txs[i].value] else s.vars
    ensures var s := After(Start(maxVars), es);
      e.Commit? || e.DeleteVar? || e.DeleteTest? || Next(s, e).vars == s.vars
  {
    RunsKeepInv(maxVars, es);
    var s := After(Start(maxVars), es);
    OnlyCommitsWrite(s, e);
    if Answers(s, e, i) {
      assert LockMatchesTest(s.txs[i], s.tests) && HasRoom(s.vars, s.maxVars, s.txs[i]);
      AnswerIsAtomic(s, e, i);
    }
  }

  lemma OnlyCommitsWrite(s: State, e: Event)
    requires Enabled(s, e)
    ensures e.Commit? || e.DeleteVar? || e.DeleteTest? || Next(s, e).vars == s.vars
  {
  }

  // ---------- A transaction left in peace ----------

  lemma Grow(maxVars: nat, es: seq<Event>, s: State, e: Event) returns (es': seq<Event>, s': State)
    requires IsRun(Start(maxVars), es) && s == After(Start(maxVars), es) && Enabled(s, e)
    ensures es' == es + [e] && s' == Next(s, e)
    ensures IsRun(Start(maxVars), es') && s' == After(Start(maxVars), es')
  {
    es', s' := es + [e], Next(s, e);
    assert es'[..|es|] == es;
  }

  function With(s: State, tx: Tx): State {
    s.(txs := s.txs + [tx])
  }

  /** A new transaction for an unlocked test gets as far as its count. */
  lemma ReachesCount(maxVars: nat, es: seq<Event>, key: Key, value: Value) returns (es': seq<Event>)
    requires IsRun(Start(maxVars), es)
    requires var s := After(Start(maxVars), es); key.testId in s.tests ==> !IsLocked(s, key.testId)
    ensures IsRun(Start(maxVars), es')
    ensures var s := After(Start(maxVars), es);
      After(Start(maxVars), es') == With(s, Tx(key, value, Checked(key.testId in s.tests, key in s.vars)))
  {
    var s0 := After(Start(maxVars), es);
    var i, s := |s0.txs|, s0;
    es', s := Grow(maxVars, es, s0, Begin(key, value));
    assert IsLocked(s, key.testId) ==> IsLocked(s0, key.testId);
    es', s := Grow(maxVars, es', s, Lock(i));
    assert s == With(s0, Tx(key, value, Looked(key.testId in s0.tests)));
    es', s := Grow(maxVars, es', s, Check(i));
  }

  /** Once cleared it stores the variable, if the test is there. */
  lemma ReachesCommit(maxVars: nat, es: seq<Event>, s0: State, key: Key, value: Value) returns (es': seq<Event>)
    requires IsRun(Start(maxVars), es)
    requires After(Start(maxVars), es) == With(s0, Tx(key, value, Cleared(key.testId in s0.tests)))
    ensures IsRun(Start(maxVars), es')
    ensures After(Start(maxVars), es') ==
            if key.testId in s0.tests
            then With(s0, Tx(key, value, Done(Stored))).(vars := s0.vars[key := value])
            else With(s0, Tx(key, value, Done(NoTest)))
  {
    var i, s := |s0.txs|, With(s0, Tx(key, value, Cleared(key.testId in s0.tests)));
    es', s := Grow(maxVars, es, s, Insert(i));
    if key.testId in s0.tests {
      assert s == With(s0, Tx(key, value, Pending));
      es', s := Grow(maxVars, es', s, Commit(i));
    }
  }

  /** And so to the answer and the effect of an Upsert that runs alone. */
  lemma UndisturbedUpsert(maxVars: nat, es: seq<Event>, key: Key, value: Value) returns (es': seq<Event>)
    requires IsRun(Start(maxVars), es)
    requires var s := After(Start(maxVars), es); key.testId in s.tests ==> !IsLocked(s, key.testId)
    ensures IsRun(Start(maxVars), es')
    ensures var s, s' := After(Start(maxVars), es), After(Start(maxVars), es');
      var out := Answer(s.vars, s.tests, maxVars, key);
      && s'.txs == s.txs + [Tx(key, value, Done(out))] && s'.tests == s.tests
      && (out.Stored? ==> s'.vars == s.vars[key := value])
      && (!out.Stored? ==> s'.vars == s.vars)
  {
    RunsKeepInv(maxVars, es);
    var s0 := After(Start(maxVars), es);
    var i := |s0.txs|;
    es' := ReachesCount(maxVars, es, key, value);
    var s := With(s0, Tx(key, value, Checked(key.testId in s0.tests, key in s0.vars)));
    es', s := Grow(maxVars, es', s, Count(i));
    if s.txs[i].pc.Cleared? {
      assert s == With(s0, Tx(key, value, Cleared(key.testId in s0.tests)));
      es' := ReachesCommit(maxVars, es', s0, key, value);
    }
  }

  /** A new test starts without variables and can be given its first one. */
  lemma NewTestTakesVariables(maxVars: nat, id: string, name: string, value: Value) returns (es: seq<Event>)
    requires maxVars > 0
    ensures IsRun(Start(maxVars), es) && After(Start(maxVars), es).vars == map[Key(id, name) := value]
  {
    var s;
    es, s := Grow(maxVars, [], Start(maxVars), CreateTest(id));
    var key := Key(id, name);
    assert Names(s.vars, id) == {};
    assert s.txs == [];
    es := UndisturbedUpsert(maxVars, es, key, value);
  }
}
