/**
 Retention: which runs have expired, and what one sweep does to the runs table
 and to object storage.
 */
module Retention {
  import opened Common

  datatype Run = Run(id: string, testId: string, startedAt: int, logUrl: string)

  /** The window of one sweep: a per-test cap (0 = none) and an age cutoff. */
  datatype Window = Window(maxRuns: int, cutoff: Option<int>)

  // ---------- The ranking query ----------

  /** q comes before r in ORDER BY started_at DESC, uuid. */
  predicate Newer(q: Run, r: Run) {
    q.startedAt > r.startedAt || (q.startedAt == r.startedAt && LexLess(q.id, r.id))
  }

  function Ahead(table: set<Run>, r: Run): set<Run> {
    set q | q in table && q.testId == r.testId && Newer(q, r)
  }

  /** ROW_NUMBER() of r within its test. */
  function RowNumber(table: set<Run>, r: Run): nat {
    1 + |Ahead(table, r)|
  }

  predicate TooOld(w: Window, r: Run) {
    w.cutoff.Some? && r.startedAt < w.cutoff.value
  }

  predicate IsExpired(table: set<Run>, w: Window, r: Run) {
    RowNumber(table, r) > 1 && ((w.maxRuns > 0 && RowNumber(table, r) > w.maxRuns) || TooOld(w, r))
  }

  function Expired(table: set<Run>, w: Window): set<Run> {
    set r | r in table && IsExpired(table, w, r)
  }

  lemma AheadIsTransitive(table: set<Run>, d: Run, r: Run)
    requires d in table && d in Ahead(table, r)
    ensures Ahead(table, d) + {d} <= Ahead(table, r)
    ensures RowNumber(table, d) < RowNumber(table, r)
  {
    forall q | q in Ahead(table, d) ensures q in Ahead(table, r) {
      if q.startedAt == d.startedAt == r.startedAt {
        LexLessIsTransitive(q.id, d.id, r.id);
      }
    }
    LexLessIsIrreflexive(d.id);
    assert d !in Ahead(table, d);
    SubsetSize(Ahead(table, d) + {d}, Ahead(table, r));
  }

  lemma RowNumberAfterDelete(table: set<Run>, d: Run, r: Run)
    requires d in table
    ensures RowNumber(table - {d}, r) == RowNumber(table, r) - (if d in Ahead(table, r) then 1 else 0)
  {
    assert Ahead(table - {d}, r) == Ahead(table, r) - {d};
  }

  lemma ExpiryAfterDelete(table: set<Run>, w: Window, d: Run, r: Run)
    requires d in Expired(table, w) && r in table && r != d
    ensures IsExpired(table - {d}, w, r) <==> IsExpired(table, w, r)
  {
    RowNumberAfterDelete(table, d, r);
    if d in Ahead(table, r) {
      AheadIsTransitive(table, d, r);
    }
  }

  /** Deleting part of the expired set changes the status of nothing else. */
  lemma {:induction false} DeletingExpiredIsStable(table: set<Run>, w: Window, gone: set<Run>)
    requires gone <= Expired(table, w)
    ensures Expired(table - gone, w) == Expired(table, w) - gone
    decreases |gone|
  {
    if gone == {} {
      assert table - gone == table;
    } else {
      var d :| d in gone;
      forall r | r in table && r != d ensures IsExpired(table - {d}, w, r) <==> IsExpired(table, w, r) {
        ExpiryAfterDelete(table, w, d, r);
      }
      assert Expired(table - {d}, w) == Expired(table, w) - {d};
      DeletingExpiredIsStable(table - {d}, w, gone - {d});
      assert table - {d} - (gone - {d}) == table - gone;
    }
  }

  /** The same cap and a cutoff no earlier: time has passed under one policy. */
  predicate IsLater(v: Window, w: Window) {
    v.maxRuns == w.maxRuns && (v.cutoff.Some? ==> w.cutoff.Some? && v.cutoff.value <= w.cutoff.value)
  }

  /** Time passing and runs being added make nothing unexpired. */
  lemma ExpiredGrows(table: set<Run>, v: Window, larger: set<Run>, w: Window)
    requires table <= larger && IsLater(v, w)
    ensures Expired(table, v) <= Expired(larger, w)
  {
    forall r | r in Expired(table, v) ensures r in Expired(larger, w) {
      SubsetSize(Ahead(table, r), Ahead(larger, r));
    }
  }

  /** The newest run of every test survives any sweep. */
  lemma NewestIsNeverExpired(table: set<Run>, w: Window, r: Run)
    requires r in table && forall q :: q in table && q.testId == r.testId ==> q == r || !Newer(q, r)
    ensures r !in Expired(table, w)
  {
    LexLessIsIrreflexive(r.id);
    assert Ahead(table, r) == {};
  }

  lemma {:induction false} LexLessIsTotal(a: string, b: string)
    requires a != b
    ensures LexLess(a, b) || LexLess(b, a)
  {
    if a != [] && b != [] && a[0] == b[0] {
      assert a == [a[0]] + a[1..] && b == [b[0]] + b[1..];
      LexLessIsTotal(a[1..], b[1..]);
    }
  }

  ghost predicate UniqueIds(table: set<Run>) {
    forall q, r :: q in table && r in table && q.id == r.id ==> q == r
  }

  lemma NewerIsTotal(table: set<Run>, q: Run, r: Run)
    requires UniqueIds(table) && q in table && r in table && q != r
    ensures Newer(q, r) || Newer(r, q)
  {
    LexLessIsTotal(q.id, r.id);
  }

  ghost function OfTest(table: set<Run>, testId: string): set<Run> {
    set r | r in table && r.testId == testId
  }

  /** Some run of a nonempty set has all the others ahead of it. */
  lemma {:induction false} OldestExists(table: set<Run>, s: set<Run>) returns (last: Run)
    requires UniqueIds(table) && s <= table && s != {}
    ensures last in s && forall q :: q in s && q != last ==> Newer(q, last)
    decreases |s|
  {
    var r :| r in s;
    if s == {r} {
      last := r;
    } else {
      var l := OldestExists(table, s - {r});
      NewerIsTotal(table, r, l);
      if Newer(r, l) {
        last := l;
      } else {
        last := r;
        forall q | q in s && q != r && q != l ensures Newer(q, r) {
          assert q in s - {r};
          if q.startedAt == l.startedAt == r.startedAt {
            LexLessIsTransitive(q.id, l.id, r.id);
          }
        }
      }
    }
  }

  /** Once nothing is expired, the cap holds: no test keeps more than maxRuns runs (or its newest). */
  lemma CapHoldsWhenNothingIsExpired(table: set<Run>, w: Window, testId: string)
    requires UniqueIds(table) && w.maxRuns > 0 && Expired(table, w) == {}
    ensures |OfTest(table, testId)| <= w.maxRuns
  {
    var mine := OfTest(table, testId);
    if mine != {} {
      var last := OldestExists(table, mine);
      LexLessIsIrreflexive(last.id);
      assert Ahead(table, last) == mine - {last};
      assert last !in Expired(table, w);
    }
  }

  // ---------- One batch ----------

  ghost function Elems(s: seq<Run>): set<Run> {
    set r | r in s
  }

  ghost predicate Distinct(s: seq<Run>) {
    forall i, j :: 0 <= i < j < |s| ==> s[i] != s[j]
  }

  ghost predicate InOrder(s: seq<Run>) {
    forall i, j :: 0 <= i < j < |s| ==> s[i].startedAt <= s[j].startedAt
  }

  ghost predicate NoLater(x: Run, rest: set<Run>) {
    forall y :: y in rest ==> x.startedAt <= y.startedAt
  }

  /** s is what ORDER BY started_at LIMIT limit may return from e; ties come in any order. */
  ghost predicate IsBatch(s: seq<Run>, e: set<Run>, limit: nat) {
    && Distinct(s)
    && Elems(s) <= e
    && |s| == (if |e| < limit then |e| else limit)
    && InOrder(s)
    && (forall x :: x in s ==> NoLater(x, e - Elems(s)))
  }

  lemma {:induction false} DistinctSize(s: seq<Run>)
    requires Distinct(s)
    ensures |Elems(s)| == |s|
  {
    if s != [] {
      var front, last := s[..|s| - 1], s[|s| - 1];
      assert Distinct(front) && last !in front;
      DistinctSize(front);
      assert s == front + [last];
      assert Elems(s) == Elems(front) + {last};
    }
  }

  /** Taking the earliest remaining run keeps a batch a batch. */
  lemma BatchGrows(s: seq<Run>, e: set<Run>, next: Run)
    requires IsBatch(s, e, |s|) && next in e - Elems(s) && NoLater(next, e - Elems(s))
    ensures Elems(s + [next]) == Elems(s) + {next}
    ensures IsBatch(s + [next], e, |s| + 1)
  {
    var t := s + [next];
    assert Elems(t) == Elems(s) + {next};
    assert Distinct(t);
    assert InOrder(t) by {
      forall i | 0 <= i < |s| ensures s[i].startedAt <= next.startedAt {
        assert s[i] in s && NoLater(s[i], e - Elems(s));
      }
    }
    forall x | x in t ensures NoLater(x, e - Elems(t)) {
      assert x == next || x in s;
    }
    DistinctSize(t);
    SubsetSize(Elems(t), e);
  }

  lemma RestShrinks(s: seq<Run>, e: set<Run>, next: Run)
    ensures e - Elems(s + [next]) == e - Elems(s) - {next}
  {
    assert Elems(s + [next]) == Elems(s) + {next};
  }

  /** A batch that is as long as the limit, or has taken everything, is the batch asked for. */
  lemma BatchIsFull(s: seq<Run>, e: set<Run>, limit: nat)
    requires IsBatch(s, e, |s|) && |s| <= limit && (|s| == limit || e - Elems(s) == {})
    ensures IsBatch(s, e, limit)
  {
    DistinctSize(s);
    SubsetSize(Elems(s), e);
  }

  /** What deleting the healthy part of a batch achieves, when the runs in `broken` cannot be deleted. */
  lemma BatchProgress(s: seq<Run>, e: set<Run>, limit: nat, broken: set<Run>)
    requires IsBatch(s, e, limit)
    ensures |e| <= limit ==> Elems(s) == e
    ensures |e| > limit ==> |Elems(s) - broken| >= limit - |e * broken|
    ensures |Elems(s)| == |s|
  {
    DistinctSize(s);
    if |e| <= limit {
      SubsetSize(Elems(s), e);
    } else {
      HealthySize(Elems(s), broken, e * broken);
    }
  }

  lemma HealthySize(batch: set<Run>, broken: set<Run>, stuck: set<Run>)
    requires batch * broken <= stuck
    ensures |batch - broken| >= |batch| - |stuck|
  {
    SubsetSize(batch * broken, stuck);
    SubsetSize(batch * broken, batch);
    assert batch - broken == batch - batch * broken;
  }

  // ---------- Storage keys ----------

  predicate SlashFree(s: string) {
    '/' !in s
  }

  /** A run's log and screenshots live under <test>/log/<run>/. */
  function Folder(r: Run): string {
    r.testId + "/log/" + r.id + "/"
  }

  /** Older runs may have their log outside the folder. */
  predicate HasLegacyLog(r: Run) {
    r.logUrl != "" && !(Folder(r) <= r.logUrl)
  }

  predicate Owns(r: Run, key: string) {
    Folder(r) <= key || (HasLegacyLog(r) && key == r.logUrl)
  }

  ghost predicate Unowned(runs: set<Run>, key: string) {
    forall r :: r in runs ==> !Owns(r, key)
  }

  /** The keys of `deleted` are gone, and no key outside those of `touched` is. */
  ghost predicate FilesSwept(before: set<string>, after: set<string>, deleted: set<Run>, touched: set<Run>) {
    && after <= before
    && (forall key :: key in after ==> Unowned(deleted, key))
    && (forall key :: key in before && Unowned(touched, key) ==> key in after)
  }

  lemma {:induction false} SlashFreePrefixIsUnique(a: string, b: string, x: string, y: string)
    requires SlashFree(a) && SlashFree(b)
    requires a + "/" + x == b + "/" + y
    ensures a == b && x == y
  {
    if a == [] || b == [] {
      assert (a + "/" + x)[0] == (b + "/" + y)[0];
      assert (a + "/" + x)[1..] == (b + "/" + y)[1..];
    } else {
      assert a[0] == (a + "/" + x)[0] == (b + "/" + y)[0] == b[0];
      assert a[1..] + "/" + x == (a + "/" + x)[1..];
      assert b[1..] + "/" + y == (b + "/" + y)[1..];
      SlashFreePrefixIsUnique(a[1..], b[1..], x, y);
    }
  }

  /** A key in the folder of r, part by part. */
  lemma FolderParts(r: Run, key: string) returns (x: string)
    requires Folder(r) <= key
    ensures key == r.testId + "/" + ("log/" + (r.id + "/" + x))
  {
    x := key[|Folder(r)|..];
    assert key == Folder(r) + x;
  }

  lemma SamePrefix(prefix: string, a: string, b: string)
    requires prefix + a == prefix + b
    ensures a == b
  {
    assert (prefix + a)[|prefix|..] == a && (prefix + b)[|prefix|..] == b;
  }

  /** No key lies in the folders of two different runs. */
  lemma FoldersAreDisjoint(q: Run, r: Run, key: string)
    requires SlashFree(q.testId) && SlashFree(q.id) && SlashFree(r.testId) && SlashFree(r.id)
    requires Folder(q) <= key && Folder(r) <= key
    ensures q.testId == r.testId && q.id == r.id
  {
    var x := FolderParts(q, key);
    var y := FolderParts(r, key);
    SlashFreePrefixIsUnique(q.testId, r.testId, "log/" + (q.id + "/" + x), "log/" + (r.id + "/" + y));
    SamePrefix("log/", q.id + "/" + x, r.id + "/" + y);
    SlashFreePrefixIsUnique(q.id, r.id, x, y);
  }

  /** A sweep leaves everything in the folder of a run it does not touch, unless a touched run names it as its log. */
  lemma KeptRunsKeepTheirFiles(before: set<string>, after: set<string>, deleted: set<Run>, touched: set<Run>, r: Run,
                               key: string)
    requires FilesSwept(before, after, deleted, touched) && SlashFree(r.testId) && SlashFree(r.id)
    requires forall q :: q in touched ==> SlashFree(q.testId) && SlashFree(q.id) && q.id != r.id && q.logUrl != key
    requires key in before && Folder(r) <= key
    ensures key in after
  {
    forall q | q in touched ensures !Owns(q, key) {
      if Folder(q) <= key {
        FoldersAreDisjoint(q, r, key);
      }
    }
  }
}
