/** The sweeper: batches of expired runs, their files first, then their rows. */
module Sweeper {
  import opened Common
  import opened Retention
  import Jobs

  const BATCH_SIZE := 200
  const MAX_BATCHES := 25

  datatype Policy = Policy(maxRunsPerTest: int, maxAge: int)

  /** What the surroundings do during one sweep, by batch number: cancellation and errors. */
  datatype Faults = Faults(
    ctxDone: nat -> bool,
    listFails: nat -> bool,
    prefixFails: (nat, Run) -> bool,
    objectFails: (nat, Run) -> bool,
    deleteFails: nat -> bool,
    ctxDoneAtEnd: bool,
    pruneFails: bool)
  {
    /** deleteStorage returns an error for r in batch i. */
    predicate StorageFails(i: nat, r: Run) {
      prefixFails(i, r) || (HasLegacyLog(r) && objectFails(i, r))
    }

    /** Those of a batch whose files can be deleted. */
    ghost function Deletable(i: nat, batch: seq<Run>): set<Run> {
      set r | r in batch && !StorageFails(i, r)
    }

    /** Runs whose files cannot be deleted. */
    ghost function Broken(table: set<Run>): set<Run> {
      set r | r in table && StorageFails(0, r)
    }

    /** Nothing fails except the files of the broken runs, and those fail every time. */
    ghost predicate Steady(table: set<Run>) {
      && (forall i: nat :: !ctxDone(i) && !listFails(i) && !deleteFails(i))
      && (forall i: nat, r :: r in table ==> (StorageFails(i, r) <==> StorageFails(0, r)))
    }
  }

  class ObjectStore {
    var objects: set<string>

    /** On an error the deletion may have been partial. */
    method DeletePrefix(prefix: string, fails: bool) returns (ok: bool)
      modifies this
      ensures ok == !fails
      ensures objects <= old(objects)
      ensures forall o :: o in old(objects) && !(prefix <= o) ==> o in objects
      ensures ok ==> forall o :: o in objects ==> !(prefix <= o)
    {
      var matching := set o | o in objects && prefix <= o;
      if fails {
        var reached: set<string> :| reached <= matching;
        objects := objects - reached;
      } else {
        objects := objects - matching;
      }
      ok := !fails;
    }

    method DeleteObject(name: string, fails: bool) returns (ok: bool)
      modifies this
      ensures ok == !fails
      ensures objects == old(objects) - {name} || (fails && objects == old(objects))
    {
      var removed: bool := *;
      if !fails || removed {
        objects := objects - {name};
      }
      ok := !fails;
    }
  }

  class RetentionRepository {
    var runs: set<Run>
    const jobs: Jobs.JobRepository

    constructor (runs: set<Run>, jobs: Jobs.JobRepository)
      ensures this.runs == runs && this.jobs == jobs
    {
      this.runs, this.jobs := runs, jobs;
    }

    method ListExpiredRuns(w: Window, limit: nat) returns (out: seq<Run>)
      ensures IsBatch(out, Expired(runs, w), limit)
    {
      var rest := Expired(runs, w);
      ghost var all := rest;
      out := [];
      while |out| < limit && rest != {}
        invariant |out| <= limit && rest == all - Elems(out) && IsBatch(out, all, |out|)
        decreases |rest|
      {
        var next := Earliest(rest);
        BatchGrows(out, all, next);
        RestShrinks(out, all, next);
        out, rest := out + [next], rest - {next};
      }
      BatchIsFull(out, all, limit);
    }

    method DeleteRuns(ids: seq<string>)
      modifies this
      ensures runs == set r | r in old(runs) && r.id !in ids
    {
      runs := set r | r in runs && r.id !in ids;
    }
  }

  method Earliest(runs: set<Run>) returns (first: Run)
    requires runs != {}
    ensures first in runs && NoLater(first, runs)
  {
    ghost var _ := LeastExists(runs, (r: Run) => r.startedAt);
    first :| first in runs && forall y :: y in runs ==> first.startedAt <= y.startedAt;
  }

  // ---------- What a sweep achieves ----------

  /** Runs of `stuck` that every batch holding r holds too. */
  ghost function StrictlyAhead(stuck: set<Run>, r: Run): set<Run> {
    set b | b in stuck && b.startedAt < r.startedAt
  }

  /** Runs of `stuck` that a batch may hold without holding r. */
  ghost function NotBehind(stuck: set<Run>, r: Run): set<Run> {
    set b | b in stuck && b.startedAt <= r.startedAt
  }

  /** Deletable expired runs with at most m undeletable ones at or before them. */
  ghost function Reach(e: set<Run>, broken: set<Run>, m: nat): set<Run> {
    set r | r in e - broken && |NotBehind(e * broken, r)| <= m
  }

  /** Nothing goes that has a whole batch of undeletable runs before it. */
  ghost predicate Unblocked(e: set<Run>, gone: set<Run>, broken: set<Run>) {
    forall r :: r in gone ==> |StrictlyAhead(e * broken, r)| < BATCH_SIZE
  }

  /** What Reach(e, broken, m) promises: it is gone, or the batches so far took 200 - m runs each. */
  ghost predicate Reached(e: set<Run>, gone: set<Run>, broken: set<Run>, m: nat, batches: nat) {
    Reach(e, broken, m) <= gone || |gone| >= batches * (BATCH_SIZE - m)
  }

  ghost predicate ReachInv(e: set<Run>, gone: set<Run>, broken: set<Run>, batches: nat, stop: bool) {
    && gone <= e - broken && Unblocked(e, gone, broken)
    && (!stop ==> forall m: nat :: m < BATCH_SIZE ==> Reached(e, gone, broken, m, batches))
    && (stop ==> forall m: nat :: m < BATCH_SIZE ==> Reach(e, broken, m) <= gone)
  }

  lemma BatchUnblocked(e: set<Run>, gone: set<Run>, broken: set<Run>, batch: seq<Run>, r: Run)
    requires gone <= e - broken && IsBatch(batch, e - gone, BATCH_SIZE) && r in Elems(batch) - broken
    ensures |StrictlyAhead(e * broken, r)| < BATCH_SIZE
  {
    var ahead := StrictlyAhead(e * broken, r);
    assert NoLater(r, (e - gone) - Elems(batch));
    DistinctSize(batch);
    SubsetSize(ahead + {r}, Elems(batch));
  }

  /** A deletable run left out of a batch has the batch's undeletable runs at or before it. */
  lemma HeldIsNotBehind(e: set<Run>, gone: set<Run>, broken: set<Run>, batch: seq<Run>, r: Run)
    requires IsBatch(batch, e - gone, BATCH_SIZE) && r in (e - gone) - Elems(batch)
    ensures Elems(batch) * broken <= NotBehind(e * broken, r)
  {
    forall b | b in Elems(batch) * broken ensures b in NotBehind(e * broken, r) {
      assert NoLater(b, (e - gone) - Elems(batch));
    }
  }

  lemma BatchReaches(e: set<Run>, gone: set<Run>, broken: set<Run>, batch: seq<Run>, deleted: set<Run>, m: nat)
    requires gone <= e - broken && IsBatch(batch, e - gone, BATCH_SIZE) && deleted == Elems(batch) - broken
    ensures Reach(e, broken, m) <= gone + deleted || |deleted| >= BATCH_SIZE - m
  {
    BatchProgress(batch, e - gone, BATCH_SIZE, broken);
    if r :| r in Reach(e, broken, m) && r !in gone + deleted {
      HeldIsNotBehind(e, gone, broken, batch, r);
      HealthySize(Elems(batch), broken, NotBehind(e * broken, r));
    }
  }

  lemma BatchKeepsReached(e: set<Run>, gone: set<Run>, broken: set<Run>, batches: nat, batch: seq<Run>,
                          deleted: set<Run>, m: nat)
    requires gone <= e - broken && IsBatch(batch, e - gone, BATCH_SIZE) && deleted == Elems(batch) - broken
    requires m < BATCH_SIZE && Reached(e, gone, broken, m, batches)
    ensures Reached(e, gone + deleted, broken, m, batches + 1)
    ensures deleted == {} ==> Reach(e, broken, m) <= gone
  {
    BatchReaches(e, gone, broken, batch, deleted, m);
    OneMoreTimes(batches, BATCH_SIZE - m);
    assert gone !! deleted;
    assert |gone + deleted| == |gone| + |deleted|;
    assert deleted == {} ==> gone + deleted == gone;
  }

  lemma BatchKeepsReach(e: set<Run>, gone: set<Run>, broken: set<Run>, batches: nat, batch: seq<Run>, deleted: set<Run>)
    requires ReachInv(e, gone, broken, batches, false)
    requires IsBatch(batch, e - gone, BATCH_SIZE) && deleted == Elems(batch) - broken
    ensures ReachInv(e, gone + deleted, broken, batches + 1, false)
    ensures deleted == {} ==> ReachInv(e, gone, broken, batches + 1, true)
  {
    forall r | r in gone + deleted ensures |StrictlyAhead(e * broken, r)| < BATCH_SIZE {
      if r in deleted {
        BatchUnblocked(e, gone, broken, batch, r);
      }
    }
    forall m: nat | m < BATCH_SIZE
      ensures Reached(e, gone + deleted, broken, m, batches + 1)
      ensures deleted == {} ==> Reach(e, broken, m) <= gone
    {
      BatchKeepsReached(e, gone, broken, batches, batch, deleted, m);
    }
  }

  /** How far one sweep gets, however many runs are undeletable. */
  ghost predicate SweepReach(e: set<Run>, gone: set<Run>, broken: set<Run>) {
    && Unblocked(e, gone, broken)
    && forall m: nat :: m < BATCH_SIZE ==> Reached(e, gone, broken, m, MAX_BATCHES)
  }

  /** The effect of one sweep in which exactly the files of `broken` cannot be deleted. */
  ghost predicate SweepOutcome(w: Window, before: set<Run>, after: set<Run>, total: nat, broken: set<Run>) {
    var e := Expired(before, w);
    && after <= before
    && before - after <= e - broken
    && total == |before - after| <= BATCH_SIZE * MAX_BATCHES
    && (forall r, q :: r in before - after && q in (e - broken) * after ==> r.startedAt <= q.startedAt)
    && (|e * broken| < BATCH_SIZE ==> total >= Min(|e - broken|, MAX_BATCHES * (BATCH_SIZE - |e * broken|)))
    && SweepReach(e, before - after, broken)
  }

  /** The state between batches: what has gone, and how far that is. */
  ghost predicate Progress(e: set<Run>, gone: set<Run>, batches: nat, broken: set<Run>) {
    && gone <= e - broken
    && |gone| <= BATCH_SIZE * batches
    && (forall r, q :: r in gone && q in e - broken - gone ==> r.startedAt <= q.startedAt)
    && (|e * broken| < BATCH_SIZE ==> gone == e - broken || |gone| >= batches * (BATCH_SIZE - |e * broken|))
  }

  lemma BatchKeepsOrder(e: set<Run>, gone: set<Run>, broken: set<Run>, batch: seq<Run>, deleted: set<Run>, r: Run,
                        q: Run)
    requires forall x, y :: x in gone && y in e - broken - gone ==> x.startedAt <= y.startedAt
    requires IsBatch(batch, e - gone, BATCH_SIZE) && deleted == Elems(batch) - broken
    requires r in gone + deleted && q in e - broken - (gone + deleted)
    ensures r.startedAt <= q.startedAt
  {
    assert q in e - broken - gone && q in (e - gone) - Elems(batch);
    assert r in gone || NoLater(r, (e - gone) - Elems(batch));
  }

  lemma BatchCounts(e: set<Run>, gone: set<Run>, broken: set<Run>, batch: seq<Run>, deleted: set<Run>)
    requires gone <= e - broken
    requires IsBatch(batch, e - gone, BATCH_SIZE) && deleted == Elems(batch) - broken
    ensures |gone + deleted| == |gone| + |deleted| && |deleted| <= BATCH_SIZE
    ensures gone + deleted == e - broken || |deleted| >= BATCH_SIZE - |e * broken|
  {
    BatchProgress(batch, e - gone, BATCH_SIZE, broken);
    assert gone !! deleted;
    SubsetSize(deleted, Elems(batch));
    assert (e - gone) * broken == e * broken;
  }

  lemma BatchKeepsProgress(e: set<Run>, gone: set<Run>, batches: nat, broken: set<Run>, batch: seq<Run>,
                           deleted: set<Run>)
    requires Progress(e, gone, batches, broken)
    requires IsBatch(batch, e - gone, BATCH_SIZE) && deleted == Elems(batch) - broken
    ensures Progress(e, gone + deleted, batches + 1, broken)
    ensures deleted == {} && |e * broken| < BATCH_SIZE ==> gone == e - broken
  {
    BatchCounts(e, gone, broken, batch, deleted);
    forall r, q | r in gone + deleted && q in e - broken - (gone + deleted) ensures r.startedAt <= q.startedAt {
      BatchKeepsOrder(e, gone, broken, batch, deleted, r, q);
    }
    if gone == e - broken {
      assert gone + deleted == e - broken;
    }
    assert deleted == {} ==> gone + deleted == gone;
  }

  /** Nothing deletable is left (if the broken runs do not fill a whole batch). */
  ghost predicate CaughtUp(e: set<Run>, gone: set<Run>, broken: set<Run>) {
    && gone <= e - broken
    && |gone| <= BATCH_SIZE * MAX_BATCHES
    && (forall r, q :: r in gone && q in e - broken - gone ==> r.startedAt <= q.startedAt)
    && (|e * broken| < BATCH_SIZE ==> gone == e - broken)
  }

  lemma SweepFromProgress(w: Window, before: set<Run>, after: set<Run>, total: nat, broken: set<Run>, i: nat,
                          stop: bool)
    requires after <= before && total == |before - after| && (i == MAX_BATCHES || stop)
    requires if stop then CaughtUp(Expired(before, w), before - after, broken)
             else Progress(Expired(before, w), before - after, i, broken)
    requires ReachInv(Expired(before, w), before - after, broken, i, stop)
    ensures SweepOutcome(w, before, after, total, broken)
  {
    assert (Expired(before, w) - broken) * after == Expired(before, w) - broken - (before - after);
  }

  /** With no failures a sweep removes the oldest min(5000, |expired|) expired runs and nothing else. */
  lemma FailureFreeSweepIsExact(w: Window, before: set<Run>, after: set<Run>, total: nat)
    requires SweepOutcome(w, before, after, total, {})
    ensures total == Min(|Expired(before, w)|, 5000)
    ensures |Expired(before, w)| <= 5000 ==> after == before - Expired(before, w)
    ensures forall r, q :: r in before - after && q in Expired(before, w) * after ==> r.startedAt <= q.startedAt
  {
    var e := Expired(before, w);
    assert e - {} == e && e * {} == {};
    SubsetSize(before - after, e);
    if |e| <= BATCH_SIZE * MAX_BATCHES {
      assert e - (before - after) == {};
    }
  }

  lemma Remaining(e: set<Run>, gone: set<Run>, broken: set<Run>)
    requires gone <= e - broken
    ensures (e - gone) * broken == e * broken
    ensures |(e - gone) - broken| == |e - broken| - |gone|
  {
    assert (e - gone) - broken == (e - broken) - gone;
    SubsetSize(gone, e - broken);
  }

  /** A sweep leaves the undeletable expired runs, and of the others those it did not delete. */
  lemma SweepLeaves(w: Window, before: set<Run>, after: set<Run>, total: nat, broken: set<Run>)
    requires SweepOutcome(w, before, after, total, broken)
    ensures Expired(after, w) == Expired(before, w) - (before - after)
    ensures Expired(after, w) * broken == Expired(before, w) * broken
    ensures |Expired(after, w) - broken| == |Expired(before, w) - broken| - |before - after|
  {
    DeletingExpiredIsStable(before, w, before - after);
    assert before - (before - after) == after;
    Remaining(Expired(before, w), before - after, broken);
  }

  lemma OneSweepCatchesUp(w: Window, before: set<Run>, after: set<Run>, total: nat, broken: set<Run>)
    requires SweepOutcome(w, before, after, total, broken) && |Expired(before, w) * broken| < BATCH_SIZE
    ensures Expired(after, w) * broken == Expired(before, w) * broken
    ensures |Expired(after, w) - broken|
            <= Max(0, |Expired(before, w) - broken| - 25 * (200 - |Expired(before, w) * broken|))
  {
    SweepLeaves(w, before, after, total, broken);
  }

  // ---------- Sweep after sweep ----------

  /** One sweep of a longer history: its window and the table around it. */
  datatype Pass = Pass(w: Window, before: set<Run>, after: set<Run>)

  ghost function Due(p: Pass): set<Run> {
    Expired(p.before, p.w)
  }

  ghost function Gone(p: Pass): set<Run> {
    p.before - p.after
  }

  /** What a sweep that fails on exactly the files of `broken` does, as far as later sweeps care. */
  ghost predicate IsPass(p: Pass, broken: set<Run>) {
    p.after <= p.before && Gone(p) <= Due(p) - broken && SweepReach(Due(p), Gone(p), broken)
  }

  /** Every sweep is one. */
  lemma SweepIsPass(w: Window, before: set<Run>, after: set<Run>, total: nat, broken: set<Run>)
    requires SweepOutcome(w, before, after, total, broken)
    ensures IsPass(Pass(w, before, after), broken)
  {
  }

  /** Between two sweeps time passes and runs are added. */
  ghost predicate Precedes(p: Pass, q: Pass) {
    p.after <= q.before && IsLater(p.w, q.w)
  }

  /** Sweeps that each fail on exactly the files of `broken`. What is deleted does not come back. */
  ghost predicate AreSweeps(ps: seq<Pass>, broken: set<Run>) {
    && (forall k :: 0 <= k < |ps| ==> IsPass(ps[k], broken))
    && (forall j, k :: 0 <= j < k < |ps| ==> Gone(ps[j]) !! ps[k].before)
    && (forall j, k :: 0 <= j < k < |ps| && k == j + 1 ==> Precedes(ps[j], ps[k]))
  }

  /** Everything the first n sweeps deleted. */
  ghost function GoneBy(ps: seq<Pass>, n: nat): set<Run>
    requires n <= |ps|
  {
    if n == 0 then {} else GoneBy(ps, n - 1) + Gone(ps[n - 1])
  }

  /** Whatever was expired at the start is, until it is deleted. */
  lemma PassLeavesDue(p: Pass, q: Pass, broken: set<Run>)
    requires IsPass(p, broken) && Precedes(p, q)
    ensures Due(p) - Gone(p) <= Due(q) && Gone(p) <= Due(p) - broken
  {
    DeletingExpiredIsStable(p.before, p.w, Gone(p));
    assert p.before - Gone(p) == p.after;
    ExpiredGrows(p.after, p.w, q.before, q.w);
  }

  lemma {:induction false} DueUntilGone(ps: seq<Pass>, broken: set<Run>, n: nat, r: Run)
    requires AreSweeps(ps, broken) && n < |ps| && r in Due(ps[0]) && r !in GoneBy(ps, n)
    ensures r in Due(ps[n])
  {
    if n > 0 {
      DueUntilGone(ps, broken, n - 1, r);
      PassLeavesDue(ps[n - 1], ps[n], broken);
    }
  }

  lemma PassSparesBroken(p: Pass, broken: set<Run>)
    requires IsPass(p, broken)
    ensures Gone(p) !! broken && Gone(p) <= Due(p)
  {
  }

  lemma {:induction false} WhichPass(ps: seq<Pass>, n: nat, r: Run) returns (k: nat)
    requires n <= |ps| && r in GoneBy(ps, n)
    ensures k < n && r in Gone(ps[k])
  {
    k := n - 1;
    if r !in Gone(ps[k]) {
      k := WhichPass(ps, n - 1, r);
    }
  }

  lemma GoneByIsSwept(ps: seq<Pass>, broken: set<Run>, n: nat, k: nat)
    requires AreSweeps(ps, broken) && n <= k < |ps|
    ensures GoneBy(ps, n) !! ps[k].before && GoneBy(ps, n) !! broken
  {
    forall r | r in GoneBy(ps, n) ensures r !in ps[k].before && r !in broken {
      var j := WhichPass(ps, n, r);
      PassSparesBroken(ps[j], broken);
    }
  }

  /** When the 200 oldest expired runs are broken, every batch is all broken. */
  lemma BrokenBatchBlocks(e: set<Run>, broken: set<Run>, batch: seq<Run>)
    requires broken <= e && |broken| >= BATCH_SIZE && IsBatch(batch, e, BATCH_SIZE)
    requires forall b, q :: b in broken && q in e - broken ==> b.startedAt < q.startedAt
    ensures Elems(batch) <= broken
  {
    if x :| x in batch && x !in broken {
      DistinctSize(batch);
      SubsetSize(broken, e);
      SubsetSize(Elems(batch) * broken, Elems(batch) - {x});
      SubsetSize(Elems(batch) * broken, broken);
      var b :| b in broken - Elems(batch) * broken;
      assert NoLater(x, e - Elems(batch)) && b in e - Elems(batch);
    }
  }

  /** When every deletable expired run has 200 broken ones before it, a sweep deletes nothing. */
  lemma BlockedSweepDeletesNothing(w: Window, before: set<Run>, after: set<Run>, total: nat, broken: set<Run>)
    requires SweepOutcome(w, before, after, total, broken)
    requires var e := Expired(before, w);
      forall r :: r in e - broken ==> |StrictlyAhead(e * broken, r)| >= BATCH_SIZE
    ensures total == 0 && after == before
  {
    var gone := before - after;
    assert forall r :: r in gone ==> r in Expired(before, w) - broken;
    assert gone == {};
  }

  /** Ties settled, a sweep deletes nothing in no other case. */
  lemma SweepDeletesNothingIff(w: Window, before: set<Run>, after: set<Run>, total: nat, broken: set<Run>)
    requires SweepOutcome(w, before, after, total, broken) && TiesSettled(Expired(before, w), broken)
    ensures var e := Expired(before, w);
      total == 0 <==> forall r :: r in e - broken ==> |StrictlyAhead(e * broken, r)| >= 200
  {
    var e, gone := Expired(before, w), before - after;
    if r :| r in e - broken && |StrictlyAhead(e * broken, r)| < BATCH_SIZE {
      assert NotBehind(e * broken, r) == StrictlyAhead(e * broken, r);
      assert r in Reach(e, broken, BATCH_SIZE - 1);
      assert Reached(e, gone, broken, BATCH_SIZE - 1, MAX_BATCHES);
      assert r in gone || |gone| >= MAX_BATCHES;
    } else {
      BlockedSweepDeletesNothing(w, before, after, total, broken);
    }
  }

  lemma PassSparesBlocked(p: Pass, broken: set<Run>, stuck: set<Run>, r: Run)
    requires IsPass(p, broken) && stuck <= Due(p) * broken && |StrictlyAhead(stuck, r)| >= BATCH_SIZE
    ensures r !in Gone(p)
  {
    SubsetSize(StrictlyAhead(stuck, r), StrictlyAhead(Due(p) * broken, r));
    assert Unblocked(Due(p), Gone(p), broken);
  }

  /** A run with 200 broken ones before it when the sweeps begin is never deleted. */
  lemma BlockedStay(ps: seq<Pass>, broken: set<Run>, n: nat, r: Run)
    requires AreSweeps(ps, broken) && n < |ps| && r in Due(ps[0]) - broken
    requires |StrictlyAhead(Due(ps[0]) * broken, r)| >= BATCH_SIZE
    ensures r !in GoneBy(ps, n) && r in Due(ps[n])
  {
    if r in GoneBy(ps, n) {
      var k := WhichPass(ps, n, r);
      BrokenAreDue(ps, broken, k);
      PassSparesBlocked(ps[k], broken, Due(ps[0]) * broken, r);
    }
    DueUntilGone(ps, broken, n, r);
  }

  lemma BrokenAreDue(ps: seq<Pass>, broken: set<Run>, n: nat)
    requires AreSweeps(ps, broken) && n < |ps|
    ensures Due(ps[0]) * broken <= Due(ps[n]) * broken
  {
    forall b | b in Due(ps[0]) * broken ensures b in Due(ps[n]) {
      GoneByIsSwept(ps, broken, n, n);
      DueUntilGone(ps, broken, n, b);
    }
  }

  /** ever holds all that is expired at some sweep. */
  ghost predicate Covers(ever: set<Run>, ps: seq<Pass>) {
    forall k :: 0 <= k < |ps| ==> Due(ps[k]) <= ever
  }

  /** One sweep deletes r, or its quota. */
  lemma PassTakesQuota(p: Pass, broken: set<Run>, ever: set<Run>, m: nat, r: Run)
    requires IsPass(p, broken) && Due(p) <= ever && m < BATCH_SIZE
    requires r in Due(p) - broken && |NotBehind(ever * broken, r)| <= m
    ensures r in Gone(p) || |Gone(p)| >= MAX_BATCHES * (BATCH_SIZE - m)
  {
    SubsetSize(NotBehind(Due(p) * broken, r), NotBehind(ever * broken, r));
    assert r in Reach(Due(p), broken, m);
    assert Reached(Due(p), Gone(p), broken, m, MAX_BATCHES);
  }

  /** r is gone, or each of n sweeps has deleted its quota. */
  ghost predicate Taken(gone: set<Run>, m: nat, n: nat, r: Run) {
    r in gone || |gone| >= n * (MAX_BATCHES * (BATCH_SIZE - m))
  }

  lemma OneMorePass(before: set<Run>, gone: set<Run>, m: nat, n: nat, r: Run)
    requires m < BATCH_SIZE && before !! gone && Taken(before, m, n, r)
    requires r in before || r in gone || |gone| >= MAX_BATCHES * (BATCH_SIZE - m)
    ensures Taken(before + gone, m, n + 1, r)
  {
    OneMoreTimes(n, MAX_BATCHES * (BATCH_SIZE - m));
    DisjointSizes(before, gone);
  }

  lemma {:induction false} QuotaIsTaken(ps: seq<Pass>, broken: set<Run>, ever: set<Run>, m: nat, n: nat, r: Run)
    requires AreSweeps(ps, broken) && Covers(ever, ps) && n < |ps| && m < BATCH_SIZE
    requires r in Due(ps[0]) - broken && |NotBehind(ever * broken, r)| <= m
    ensures GoneBy(ps, n) <= ever - broken && Taken(GoneBy(ps, n), m, n, r)
  {
    if n > 0 {
      QuotaIsTaken(ps, broken, ever, m, n - 1, r);
      GoneByIsSwept(ps, broken, n - 1, n - 1);
      if r !in GoneBy(ps, n - 1) {
        DueUntilGone(ps, broken, n - 1, r);
      }
      OneMoreTaken(GoneBy(ps, n - 1), ps[n - 1], broken, ever, m, n - 1, r);
    }
  }

  lemma OneMoreTaken(before: set<Run>, p: Pass, broken: set<Run>, ever: set<Run>, m: nat, n: nat, r: Run)
    requires IsPass(p, broken) && Due(p) <= ever && m < BATCH_SIZE && |NotBehind(ever * broken, r)| <= m
    requires before !! p.before && before <= ever - broken && Taken(before, m, n, r)
    requires r !in broken && (r in before || r in Due(p))
    ensures before + Gone(p) <= ever - broken && Taken(before + Gone(p), m, n + 1, r)
  {
    if r !in before {
      PassTakesQuota(p, broken, ever, m, r);
    }
    OneMorePass(before, Gone(p), m, n, r);
  }

  lemma DisjointSizes(a: set<Run>, b: set<Run>)
    requires a !! b
    ensures |a + b| == |a| + |b|
  {
  }

  /**
   A run expired when the sweeps begin, with at most m < 200 broken ones ever at or
   before it, is deleted by the time the sweeps could have deleted all that was ever
   deletable at 25 * (200 - m) a sweep.
   */
  lemma ReachIsSwept(ps: seq<Pass>, broken: set<Run>, ever: set<Run>, m: nat, n: nat, r: Run)
    requires AreSweeps(ps, broken) && Covers(ever, ps) && n < |ps| && m < BATCH_SIZE
    requires r in Due(ps[0]) - broken && |NotBehind(ever * broken, r)| <= m
    requires n * (MAX_BATCHES * (BATCH_SIZE - m)) >= |ever - broken|
    ensures r in GoneBy(ps, n) && r !in ps[n].before
  {
    QuotaIsTaken(ps, broken, ever, m, n, r);
    GoneByIsSwept(ps, broken, n, n);
    if r !in GoneBy(ps, n) {
      assert r in ever - broken;
      SubsetSize(GoneBy(ps, n) + {r}, ever - broken);
    }
  }

  /** No broken run ties with a deletable one, so every batch takes the same side. */
  ghost predicate TiesSettled(e: set<Run>, broken: set<Run>) {
    forall b, r :: b in e * broken && r in e - broken ==> b.startedAt != r.startedAt
  }

  lemma UnblockedAreSwept(ps: seq<Pass>, broken: set<Run>, ever: set<Run>, n: nat, r: Run)
    requires AreSweeps(ps, broken) && Covers(ever, ps) && n < |ps|
    requires TiesSettled(Due(ps[0]), broken) && ever * broken == Due(ps[0]) * broken
    requires n * MAX_BATCHES >= |ever - broken|
    requires r in Due(ps[0]) - broken && |StrictlyAhead(Due(ps[0]) * broken, r)| < BATCH_SIZE
    ensures r !in Due(ps[n])
  {
    assert NotBehind(ever * broken, r) == StrictlyAhead(Due(ps[0]) * broken, r);
    ReachIsSwept(ps, broken, ever, BATCH_SIZE - 1, n, r);
  }

  /** No deletable run has 200 broken ones before it. */
  ghost predicate NoneBlocked(e: set<Run>, broken: set<Run>) {
    forall r :: r in e - broken ==> |StrictlyAhead(e * broken, r)| < BATCH_SIZE
  }

  /**
   When repeated sweeps leave, of the runs expired at the start, exactly the broken
   ones: when no deletable one has 200 broken ones before it. Cutoffs advance and
   runs are added in between, but no further broken run expires. Until then each
   sweep deletes at least 25, so that n of them suffice.
   */
  lemma SweepsConvergeIff(ps: seq<Pass>, broken: set<Run>, ever: set<Run>, n: nat)
    requires AreSweeps(ps, broken) && Covers(ever, ps) && n < |ps|
    requires TiesSettled(Due(ps[0]), broken) && ever * broken == Due(ps[0]) * broken
    requires n * MAX_BATCHES >= |ever - broken|
    ensures Due(ps[0]) * Due(ps[n]) == Due(ps[0]) * broken <==> NoneBlocked(Due(ps[0]), broken)
    ensures ever == Due(ps[0]) ==> Due(ps[n]) <= Due(ps[0])
  {
    var e := Due(ps[0]);
    if NoneBlocked(e, broken) {
      BrokenAreDue(ps, broken, n);
      forall r | r in e - broken ensures r !in Due(ps[n]) {
        UnblockedAreSwept(ps, broken, ever, n, r);
      }
      assert e * Due(ps[n]) == e * broken;
    } else {
      var r :| r in e - broken && |StrictlyAhead(e * broken, r)| >= BATCH_SIZE;
      BlockedStay(ps, broken, n, r);
      assert r in e * Due(ps[n]) && r !in e * broken;
    }
    assert Due(ps[n]) <= ever;
  }

  /** Below 200 broken runs in all, ties do not matter and the rate is better. */
  lemma SweepsConverge(ps: seq<Pass>, broken: set<Run>, ever: set<Run>, n: nat)
    requires AreSweeps(ps, broken) && Covers(ever, ps) && n < |ps| && |ever * broken| < BATCH_SIZE
    requires n * (25 * (200 - |ever * broken|)) >= |ever - broken|
    ensures Due(ps[0]) * Due(ps[n]) == Due(ps[0]) * broken
    ensures ever == Due(ps[0]) ==> Due(ps[n]) == Due(ps[0]) * broken
  {
    var e := Due(ps[0]);
    BrokenAreDue(ps, broken, n);
    forall r | r in e - broken ensures r !in Due(ps[n]) {
      SubsetSize(NotBehind(ever * broken, r), ever * broken);
      ReachIsSwept(ps, broken, ever, |ever * broken|, n, r);
    }
    assert Due(ps[n]) <= ever;
  }

  /** runs is the table after part of the expired runs e has gone. */
  ghost predicate Swept(before: set<Run>, e: set<Run>, runs: set<Run>) {
    UniqueIds(runs) && runs <= before && before - runs <= e
  }

  ghost predicate Shrinking(tables: seq<set<Run>>) {
    forall i :: 0 < i < |tables| ==> tables[i] < tables[i - 1]
  }

  lemma Shrinks(tables: seq<set<Run>>, next: set<Run>)
    requires Shrinking(tables) && tables != [] && next < tables[|tables| - 1]
    ensures Shrinking(tables + [next])
  {
  }

  /** The next batch is drawn from what is left of the expired runs. */
  lemma NextBatch(before: set<Run>, w: Window, runs: set<Run>)
    requires Swept(before, Expired(before, w), runs)
    ensures Expired(runs, w) == Expired(before, w) - (before - runs)
    ensures Expired(runs, w) <= runs
  {
    DeletingExpiredIsStable(before, w, before - runs);
    assert before - (before - runs) == runs;
  }

  lemma BatchSweeps(before: set<Run>, e: set<Run>, runs: set<Run>, deleted: set<Run>)
    requires Swept(before, e, runs) && deleted <= runs && deleted <= e && deleted != {}
    ensures Swept(before, e, runs - deleted) && runs - deleted < runs
    ensures before - (runs - deleted) == (before - runs) + deleted
    ensures |before - (runs - deleted)| == |before - runs| + |deleted|
  {
    assert before - (runs - deleted) == (before - runs) + deleted;
  }

  lemma FilesSweptChain(a: set<string>, b: set<string>, c: set<string>, d1: set<Run>, d2: set<Run>, t: set<Run>,
                        all: set<Run>)
    requires FilesSwept(a, b, d1, all) && FilesSwept(b, c, d2, t) && t <= all
    ensures FilesSwept(a, c, d1 + d2, all) && FilesSwept(a, c, d1, all)
  {
    forall key | key in a && Unowned(all, key) ensures key in c {
      assert Unowned(t, key);
    }
  }

  lemma HealthyPart(before: set<Run>, i: nat, faults: Faults, batch: seq<Run>, deleted: set<Run>)
    requires faults.Steady(before) && Elems(batch) <= before
    requires deleted == faults.Deletable(i, batch)
    ensures deleted == Elems(batch) - faults.Broken(before)
  {
    assert forall r :: r in batch ==> r in Elems(batch);
  }

  lemma SteadyBatch(before: set<Run>, e: set<Run>, runs: set<Run>, i: nat, faults: Faults, batch: seq<Run>,
                    deleted: set<Run>)
    requires faults.Steady(before) && i < MAX_BATCHES && e <= before
    requires IsBatch(batch, e - (before - runs), BATCH_SIZE)
    requires deleted == faults.Deletable(i, batch)
    requires Progress(e, before - runs, i, faults.Broken(before))
    requires ReachInv(e, before - runs, faults.Broken(before), i, false)
    ensures Progress(e, (before - runs) + deleted, i + 1, faults.Broken(before))
    ensures deleted == {} ==> CaughtUp(e, before - runs, faults.Broken(before))
    ensures ReachInv(e, (before - runs) + deleted, faults.Broken(before), i + 1, false)
    ensures deleted == {} ==> ReachInv(e, before - runs, faults.Broken(before), i + 1, true)
  {
    HealthyPart(before, i, faults, batch, deleted);
    BatchKeepsProgress(e, before - runs, i, faults.Broken(before), batch, deleted);
    BatchKeepsReach(e, before - runs, faults.Broken(before), i, batch, deleted);
  }

  /**
   after is before less `total` of its expired runs e. tables lists the table at the start and
   after each pass that deleted rows: every pass of the loop but the last strictly shrinks it.
   */
  ghost predicate RowsSwept(e: set<Run>, before: set<Run>, after: set<Run>, total: nat, tables: seq<set<Run>>,
                            passes: nat) {
    && Swept(before, e, after) && total == |before - after|
    && tables != [] && tables[0] == before && tables[|tables| - 1] == after && Shrinking(tables)
    && passes <= |tables| && passes <= MAX_BATCHES
  }

  /** What the loop of Sweep keeps. */
  ghost predicate LoopInv(before: set<Run>, e: set<Run>, broken: set<Run>, steady: bool,
                          runs: set<Run>, i: nat, stop: bool, total: nat, tables: seq<set<Run>>)
  {
    && i <= MAX_BATCHES
    && |tables| == (if stop then i else i + 1) && tables != []
    && tables[0] == before && tables[|tables| - 1] == runs && Shrinking(tables)
    && Swept(before, e, runs) && total == |before - runs|
    && (steady ==> if stop then CaughtUp(e, before - runs, broken) else Progress(e, before - runs, i, broken))
    && (steady ==> ReachInv(e, before - runs, broken, i, stop))
  }

  lemma LoopStep(before: set<Run>, e: set<Run>, runs: set<Run>, i: nat, total: nat, tables: seq<set<Run>>,
                 faults: Faults, batch: seq<Run>, deleted: set<Run>, stop: bool)
    requires LoopInv(before, e, faults.Broken(before), faults.Steady(before), runs, i, false, total, tables)
    requires i < MAX_BATCHES && e <= before && e - (before - runs) <= runs
    requires faults.listFails(i) || IsBatch(batch, e - (before - runs), BATCH_SIZE)
    requires deleted == faults.Deletable(i, batch)
    requires deleted <= Elems(batch) <= e - (before - runs)
    requires stop <==> faults.listFails(i) || deleted == {} || faults.deleteFails(i)
    ensures stop ==> LoopInv(before, e, faults.Broken(before), faults.Steady(before), runs, i + 1, true, total, tables)
    ensures !stop ==> LoopInv(before, e, faults.Broken(before), faults.Steady(before), runs - deleted, i + 1, false,
                              total + |deleted|, tables + [runs - deleted])
    ensures !stop ==> before - (runs - deleted) == (before - runs) + deleted
  {
    if faults.Steady(before) {
      SteadyBatch(before, e, runs, i, faults, batch, deleted);
    }
    if !stop {
      BatchSweeps(before, e, runs, deleted);
      Shrinks(tables, runs - deleted);
    }
  }

  lemma PassKeeps(before: set<Run>, w: Window, runs: set<Run>, i: nat, total: nat, tables: seq<set<Run>>,
                  faults: Faults, batch: seq<Run>, deleted: set<Run>, stop: bool,
                  start: set<string>, objects: set<string>, objects': set<string>)
    requires LoopInv(before, Expired(before, w), faults.Broken(before), faults.Steady(before),
                     runs, i, false, total, tables)
    requires i < MAX_BATCHES && FilesSwept(start, objects, before - runs, Expired(before, w))
    requires faults.listFails(i) || IsBatch(batch, Expired(runs, w), BATCH_SIZE)
    requires faults.listFails(i) ==> batch == []
    requires deleted == faults.Deletable(i, batch)
    requires stop <==> faults.listFails(i) || deleted == {} || faults.deleteFails(i)
    requires FilesSwept(objects, objects', deleted, Elems(batch))
    ensures stop ==>
              && LoopInv(before, Expired(before, w), faults.Broken(before), faults.Steady(before),
                         runs, i + 1, true, total, tables)
              && FilesSwept(start, objects', before - runs, Expired(before, w))
    ensures !stop ==>
              && LoopInv(before, Expired(before, w), faults.Broken(before), faults.Steady(before),
                         runs - deleted, i + 1, false, total + |deleted|, tables + [runs - deleted])
              && FilesSwept(start, objects', before - (runs - deleted), Expired(before, w))
  {
    NextBatch(before, w, runs);
    FilesSweptChain(start, objects, objects', before - runs, deleted, Elems(batch), Expired(before, w));
    LoopStep(before, Expired(before, w), runs, i, total, tables, faults, batch, deleted, stop);
  }

  lemma LoopEnds(before: set<Run>, w: Window, broken: set<Run>, steady: bool,
                 after: set<Run>, i: nat, stop: bool, total: nat, tables: seq<set<Run>>)
    requires LoopInv(before, Expired(before, w), broken, steady, after, i, stop, total, tables)
    ensures RowsSwept(Expired(before, w), before, after, total, tables, i)
    ensures steady && (stop || i == MAX_BATCHES) ==> SweepOutcome(w, before, after, total, broken)
  {
    if steady && (stop || i == MAX_BATCHES) {
      SweepFromProgress(w, before, after, total, broken, i, stop);
    }
  }

  /** The first k runs of a batch have been tried: deleted holds those whose files are gone, ok their ids. */
  ghost predicate FilesDone(runs: set<Run>, batch: seq<Run>, k: nat, i: nat, faults: Faults, ok: seq<string>,
                            deleted: set<Run>, start: set<string>, objects: set<string>)
    requires k <= |batch|
  {
    && deleted == faults.Deletable(i, batch[..k])
    && |ok| == |deleted|
    && (forall r :: r in runs ==> (r.id in ok <==> r in deleted))
    && FilesSwept(start, objects, deleted, Elems(batch))
  }

  lemma OneMoreDeletable(faults: Faults, i: nat, batch: seq<Run>, k: nat)
    requires k < |batch| && Distinct(batch)
    ensures var before, after := faults.Deletable(i, batch[..k]), faults.Deletable(i, batch[..k + 1]);
      && batch[k] !in before
      && (faults.StorageFails(i, batch[k]) ==> after == before)
      && (!faults.StorageFails(i, batch[k]) ==> after == before + {batch[k]})
  {
    assert batch[..k + 1] == batch[..k] + [batch[k]];
  }

  lemma OneMoreSwept(start: set<string>, objects: set<string>, objects': set<string>, deleted: set<Run>,
                     more: set<Run>, r: Run, batch: set<Run>)
    requires FilesSwept(start, objects, deleted, batch) && FilesSwept(objects, objects', more, {r}) && r in batch
    ensures FilesSwept(start, objects', deleted + more, batch)
  {
    forall key | key in start && Unowned(batch, key) ensures key in objects' {
      assert Unowned({r}, key);
    }
  }

  lemma OneMoreFile(runs: set<Run>, batch: seq<Run>, k: nat, i: nat, faults: Faults, ok: seq<string>,
                    deleted: set<Run>, start: set<string>, objects: set<string>, objects': set<string>)
    requires k < |batch| && Distinct(batch) && UniqueIds(runs) && Elems(batch) <= runs
    requires FilesDone(runs, batch, k, i, faults, ok, deleted, start, objects)
    requires FilesSwept(objects, objects', if faults.StorageFails(i, batch[k]) then {} else {batch[k]}, {batch[k]})
    ensures faults.StorageFails(i, batch[k]) ==>
              FilesDone(runs, batch, k + 1, i, faults, ok, deleted, start, objects')
    ensures !faults.StorageFails(i, batch[k]) ==>
              FilesDone(runs, batch, k + 1, i, faults, ok + [batch[k].id], deleted + {batch[k]}, start, objects')
  {
    var r := batch[k];
    assert r in Elems(batch);
    OneMoreDeletable(faults, i, batch, k);
    if faults.StorageFails(i, r) {
      OneMoreSwept(start, objects, objects', deleted, {}, r, Elems(batch));
      assert deleted + {} == deleted;
    } else {
      OneMoreSwept(start, objects, objects', deleted, {r}, r, Elems(batch));
    }
  }

  // ---------- What the policy promises ----------

  /** Runs of the same test started later, or at the same moment under an id that sorts first. */
  ghost function NewerOfTest(table: set<Run>, r: Run): set<Run> {
    set q | q in table && q.testId == r.testId
            && (q.startedAt > r.startedAt || (q.startedAt == r.startedAt && LexLess(q.id, r.id)))
  }

  /** r is not the newest run of its test, and it is over the age limit or has as many newer ones as may be kept. */
  ghost predicate IsPastLimits(table: set<Run>, policy: Policy, now: int, r: Run) {
    && NewerOfTest(table, r) != {}
    && (|| (policy.maxAge > 0 && r.startedAt < now - policy.maxAge)
        || (policy.maxRunsPerTest > 0 && |NewerOfTest(table, r)| >= policy.maxRunsPerTest))
  }

  ghost function PastLimits(table: set<Run>, policy: Policy, now: int): set<Run> {
    set r | r in table && IsPastLimits(table, policy, now, r)
  }

  predicate IsWindowOf(w: Window, policy: Policy, now: int) {
    && w.maxRuns == policy.maxRunsPerTest
    && (policy.maxAge > 0 ==> w.cutoff.Some? && w.cutoff.value == now - policy.maxAge)
    && (policy.maxAge <= 0 ==> w.cutoff.None?)
  }

  /** What the ranking query selects is what the policy lets go. */
  lemma ExpiredIsPastLimits(table: set<Run>, policy: Policy, now: int, w: Window)
    requires IsWindowOf(w, policy, now)
    ensures Expired(table, w) == PastLimits(table, policy, now)
  {
    forall r | r in table ensures IsExpired(table, w, r) <==> IsPastLimits(table, policy, now, r) {
      assert Ahead(table, r) == NewerOfTest(table, r);
      assert NewerOfTest(table, r) == {} <==> |NewerOfTest(table, r)| == 0;
    }
  }

  /** No key under a removed run's folder is left, nor the log it names. */
  ghost predicate FilesAreGone(removed: set<Run>, objects: set<string>) {
    forall r, key :: r in removed && key in objects ==>
      !(r.testId + "/log/" + r.id + "/" <= key) && (r.logUrl != "" ==> key != r.logUrl)
  }

  /** The key is neither under the folder of one of these runs nor named as its log. */
  ghost predicate IsForeign(runs: set<Run>, key: string) {
    forall r :: r in runs ==> !(r.testId + "/log/" + r.id + "/" <= key) && (r.logUrl != "" ==> key != r.logUrl)
  }

  lemma SweptFiles(before: set<string>, after: set<string>, removed: set<Run>, touched: set<Run>)
    requires FilesSwept(before, after, removed, touched)
    ensures FilesAreGone(removed, after)
    ensures forall key :: key in before && IsForeign(touched, key) ==> key in after
  {
    forall r, key | r in removed && key in after
      ensures !(r.testId + "/log/" + r.id + "/" <= key) && (r.logUrl != "" ==> key != r.logUrl)
    {
      assert Unowned(removed, key) && !Owns(r, key);
    }
    forall key | key in before && IsForeign(touched, key) ensures key in after {
      assert forall r :: r in touched ==> !Owns(r, key);
      assert Unowned(touched, key);
    }
  }

  /** Without any failure a sweep that found at most 5000 removes them all, and leaves none. */
  lemma NothingPastLimitsIsLeft(before: set<Run>, after: set<Run>, policy: Policy, now: int, w: Window, total: nat)
    requires IsWindowOf(w, policy, now)
    requires SweepOutcome(w, before, after, total, {}) && |PastLimits(before, policy, now)| <= 5000
    ensures after == before - PastLimits(before, policy, now) && PastLimits(after, policy, now) == {}
  {
    ExpiredIsPastLimits(before, policy, now, w);
    ExpiredIsPastLimits(after, policy, now, w);
    FailureFreeSweepIsExact(w, before, after, total);
    SweepLeaves(w, before, after, total, {});
  }

  /** A sweep removes only runs past the limits; if nothing fails and they are at most 5000, it leaves none. */
  ghost predicate KeepsPolicy(before: set<Run>, after: set<Run>, policy: Policy, now: int, faultFree: bool) {
    && after <= before && before - after <= PastLimits(before, policy, now)
    && (faultFree && |PastLimits(before, policy, now)| <= 5000 ==>
          after == before - PastLimits(before, policy, now) && PastLimits(after, policy, now) == {})
  }

  lemma PolicyIsKept(before: set<Run>, after: set<Run>, policy: Policy, now: int, w: Window, total: nat,
                     broken: set<Run>, steady: bool)
    requires IsWindowOf(w, policy, now)
    requires after <= before && before - after <= Expired(before, w)
    requires steady ==> SweepOutcome(w, before, after, total, broken)
    ensures KeepsPolicy(before, after, policy, now, steady && broken == {})
  {
    ExpiredIsPastLimits(before, policy, now, w);
    if steady && broken == {} && |PastLimits(before, policy, now)| <= 5000 {
      NothingPastLimitsIsLeft(before, after, policy, now, w, total);
    }
  }

  class Sweeper {
    const repo: RetentionRepository
    const storage: ObjectStore
    const policy: Policy

    constructor (repo: RetentionRepository, storage: ObjectStore, policy: Policy)
      ensures this.repo == repo && this.storage == storage && this.policy == policy
    {
      this.repo, this.storage, this.policy := repo, storage, policy;
    }

    function WindowAt(now: int): Window {
      Window(policy.maxRunsPerTest, if policy.maxAge > 0 then Some(now - policy.maxAge) else None)
    }

    /** Removes everything stored for one run. */
    method DeleteStorage(r: Run, batch: nat, faults: Faults) returns (ok: bool)
      modifies storage
      ensures ok == !faults.StorageFails(batch, r)
      ensures FilesSwept(old(storage.objects), storage.objects, if ok then {r} else {}, {r})
    {
      ok := storage.DeletePrefix(Folder(r), faults.prefixFails(batch, r));
      if ok && HasLegacyLog(r) {
        ok := storage.DeleteObject(r.logUrl, faults.objectFails(batch, r));
      }
    }

    /** Deletes the files of a batch; returns the ids whose files are gone. */
    method DeleteFiles(batch: seq<Run>, i: nat, faults: Faults) returns (ok: seq<string>, ghost deleted: set<Run>)
      requires Distinct(batch) && UniqueIds(repo.runs) && Elems(batch) <= repo.runs
      modifies storage
      ensures deleted == faults.Deletable(i, batch)
      ensures |ok| == |deleted| && (ok == [] <==> deleted == {})
      ensures forall r :: r in repo.runs ==> (r.id in ok <==> r in deleted)
      ensures FilesSwept(old(storage.objects), storage.objects, deleted, Elems(batch))
    {
      ok, deleted := [], {};
      ghost var start := storage.objects;
      for k := 0 to |batch|
        invariant FilesDone(repo.runs, batch, k, i, faults, ok, deleted, start, storage.objects)
      {
        ghost var objects := storage.objects;
        var done := DeleteStorage(batch[k], i, faults);
        OneMoreFile(repo.runs, batch, k, i, faults, ok, deleted, start, objects, storage.objects);
        if done {
          ok, deleted := ok + [batch[k].id], deleted + {batch[k]};
        }
      }
      assert batch[..|batch|] == batch;
    }

    /** One pass through the loop of Sweep; stop means it breaks out. */
    method RunBatch(w: Window, i: nat, faults: Faults) returns (n: nat, stop: bool, ghost batch: seq<Run>,
                    ghost deleted: set<Run>)
      requires UniqueIds(repo.runs)
      modifies repo, storage
      ensures faults.listFails(i) || IsBatch(batch, Expired(old(repo.runs), w), BATCH_SIZE)
      ensures faults.listFails(i) ==> batch == []
      ensures deleted == faults.Deletable(i, batch)
      ensures stop <==> faults.listFails(i) || deleted == {} || faults.deleteFails(i)
      ensures stop ==> n == 0 && repo.runs == old(repo.runs)
      ensures !stop ==> n == |deleted| && repo.runs == old(repo.runs) - deleted
      ensures FilesSwept(old(storage.objects), storage.objects, deleted, Elems(batch))
    {
      batch, deleted := [], {};
      if faults.listFails(i) {
        return 0, true, batch, deleted;
      }
      var expired := repo.ListExpiredRuns(w, BATCH_SIZE);
      batch := expired;
      if |expired| == 0 {
        return 0, true, batch, deleted;
      }
      var ok;
      ok, deleted := DeleteFiles(expired, i, faults);
      if |ok| == 0 {
        return 0, true, batch, deleted;
      }
      if faults.deleteFails(i) {
        return 0, true, batch, deleted;
      }
      repo.DeleteRuns(ok);
      return |ok|, false, batch, deleted;
    }

    /** The batch loop of Sweep. */
    method SweepRuns(w: Window, faults: Faults) returns (total: nat, ghost tables: seq<set<Run>>, ghost passes: nat)
      requires UniqueIds(repo.runs)
      modifies repo, storage
      ensures RowsSwept(Expired(old(repo.runs), w), old(repo.runs), repo.runs, total, tables, passes)
      ensures FilesSwept(old(storage.objects), storage.objects, old(repo.runs) - repo.runs, Expired(old(repo.runs), w))
      ensures faults.Steady(old(repo.runs)) ==>
                SweepOutcome(w, old(repo.runs), repo.runs, total, faults.Broken(old(repo.runs)))
    {
      ghost var before, start := repo.runs, storage.objects;
      ghost var e, broken, steady := Expired(before, w), faults.Broken(before), faults.Steady(before);
      total, tables := 0, [before];
      var i, stop := 0, false;
      assert before - before == {};
      while i < MAX_BATCHES && !faults.ctxDone(i) && !stop
        invariant LoopInv(before, e, broken, steady, repo.runs, i, stop, total, tables)
        invariant FilesSwept(start, storage.objects, before - repo.runs, e)
      {
        ghost var runs, objects := repo.runs, storage.objects;
        var n: nat;
        ghost var batch, deleted;
        n, stop, batch, deleted := RunBatch(w, i, faults);
        PassKeeps(before, w, runs, i, total, tables, faults, batch, deleted, stop, start, objects, storage.objects);
        total := total + n;
        if !stop {
          tables := tables + [repo.runs];
        }
        i := i + 1;
      }
      passes := i;
      LoopEnds(before, w, broken, steady, repo.runs, i, stop, total, tables);
    }

    /** Finished jobs past the age limit go too, if there is one and the context still stands. */
    method PruneJobs(now: int, faults: Faults)
      modifies repo.jobs
      ensures repo.jobs.jobs ==
              if policy.maxAge > 0 && !faults.ctxDoneAtEnd && !faults.pruneFails
              then Jobs.AfterPrune(old(repo.jobs.jobs), now - policy.maxAge) else old(repo.jobs.jobs)
    {
      if policy.maxAge > 0 && !faults.ctxDoneAtEnd && !faults.pruneFails {
        var _ := repo.jobs.DeleteFinishedJobsBefore(now - policy.maxAge);
      }
    }

    /** Runs first, then the finished jobs past the age limit. */
    method Sweep(now: int, faults: Faults) returns (total: nat, ghost tables: seq<set<Run>>, ghost passes: nat)
      requires UniqueIds(repo.runs)
      modifies repo, storage, repo.jobs
      ensures RowsSwept(Expired(old(repo.runs), WindowAt(now)), old(repo.runs), repo.runs, total, tables, passes)
      ensures FilesSwept(old(storage.objects), storage.objects, old(repo.runs) - repo.runs,
                         Expired(old(repo.runs), WindowAt(now)))
      ensures faults.Steady(old(repo.runs)) ==>
                SweepOutcome(WindowAt(now), old(repo.runs), repo.runs, total, faults.Broken(old(repo.runs)))
      ensures KeepsPolicy(old(repo.runs), repo.runs, policy, now,
                          faults.Steady(old(repo.runs)) && faults.Broken(old(repo.runs)) == {})
      ensures repo.jobs.jobs ==
              if policy.maxAge > 0 && !faults.ctxDoneAtEnd && !faults.pruneFails
              then Jobs.AfterPrune(old(repo.jobs.jobs), now - policy.maxAge) else old(repo.jobs.jobs)
    {
      var w := WindowAt(now);
      total, tables, passes := SweepRuns(w, faults);
      PolicyIsKept(old(repo.runs), repo.runs, policy, now, w, total,
                   faults.Broken(old(repo.runs)), faults.Steady(old(repo.runs)));
      PruneJobs(now, faults);
    }
  }
}
