/** Small shared vocabulary: optional values, string order, finite sets. */
module Common {

  datatype Option<+T> = None | Some(value: T)

  /** Lexicographic order on text; on the fixed-width text of a UUID this is PostgreSQL's uuid order. */
  predicate LexLess(a: string, b: string) {
    if a == [] then b != []
    else b != [] && (a[0] < b[0] || (a[0] == b[0] && LexLess(a[1..], b[1..])))
  }

  /** At the first difference the smaller character comes first; a proper prefix comes before its extensions. */
  lemma {:induction false} LexLessMeans(a: string, b: string)
    ensures LexLess(a, b) <==>
              exists k: nat :: k <= |a| && k < |b| && a[..k] == b[..k] && (k == |a| || a[k] < b[k])
  {
    if a != [] && b != [] && a[0] == b[0] {
      LexLessMeans(a[1..], b[1..]);
      if k: nat :|
        k <= |a[1..]| && k < |b[1..]| && a[1..][..k] == b[1..][..k] && (k == |a[1..]| || a[1..][k] < b[1..][k]) {
        assert a[..k + 1] == [a[0]] + a[1..][..k] && b[..k + 1] == [b[0]] + b[1..][..k];
      }
      if k: nat :| k <= |a| && k < |b| && a[..k] == b[..k] && (k == |a| || a[k] < b[k]) {
        assert a[1..][..k - 1] == a[..k][1..] && b[1..][..k - 1] == b[..k][1..];
      }
    } else if b != [] && (a == [] || a[0] < b[0]) {
      assert a[..0] == b[..0];
    }
  }

  lemma {:induction false} LexLessIsTransitive(a: string, b: string, c: string)
    requires LexLess(a, b) && LexLess(b, c)
    ensures LexLess(a, c)
  {
    if a != [] && a[0] == b[0] == c[0] {
      LexLessIsTransitive(a[1..], b[1..], c[1..]);
    }
  }

  lemma {:induction false} LexLessIsIrreflexive(a: string)
    ensures !LexLess(a, a)
  {
    if a != [] {
      LexLessIsIrreflexive(a[1..]);
    }
  }

  function Min(a: int, b: int): int {
    if a < b then a else b
  }

  function Max(a: int, b: int): int {
    if a < b then b else a
  }

  lemma OneMoreTimes(n: int, step: int)
    ensures (n + 1) * step == n * step + step
  {
  }

  /** Some element of a nonempty finite set has the least key. */
  lemma {:induction false} LeastExists<T(!new)>(s: set<T>, key: T -> int) returns (least: T)
    requires s != {}
    ensures least in s && forall y :: y in s ==> key(least) <= key(y)
    decreases |s|
  {
    least :| least in s;
    if s != {least} {
      var other := LeastExists(s - {least}, key);
      assert forall y :: y in s ==> y == least || y in s - {least};
      least := if key(least) <= key(other) then least else other;
    }
  }

  lemma SubsetSize<T>(a: set<T>, b: set<T>)
    requires a <= b
    ensures |a| <= |b|
    ensures |b - a| == |b| - |a|
  {
    assert b == a + (b - a);
  }
}
