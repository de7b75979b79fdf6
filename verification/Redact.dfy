/**
 Log redaction: secret values and their base64 and URL-escaped forms are
 replaced by three stars, longest first.
 */
module Redact {

  newtype Byte = x: int | 0 <= x < 256
  type Bytes = seq<Byte>

  const STAR: Byte := '*' as Byte
  const STARS: Bytes := [STAR, STAR, STAR]

  // ---------- The three forms of a secret ----------

  /** The base64 alphabet of section 4 of RFC 4648. */
  function Symbol(sextet: Byte): (b: Byte)
    requires 0 <= sextet < 64
    ensures b != STAR
  {
    if sextet < 26 then sextet + 'A' as Byte
    else if sextet < 52 then sextet - 26 + 'a' as Byte
    else if sextet < 62 then sextet - 52 + '0' as Byte
    else if sextet == 62 then '+' as Byte
    else '/' as Byte
  }

  const PAD: Byte := '=' as Byte

  /** The four sextets of three bytes. */
  function Sextet1(x: Byte): (a: Byte)
    ensures 0 <= a < 64
  {
    x / 4
  }

  function Sextet2(x: Byte, y: Byte): (b: Byte)
    ensures 0 <= b < 64
  {
    x % 4 * 16 + y / 16
  }

  function Sextet3(y: Byte, z: Byte): (c: Byte)
    ensures 0 <= c < 64
  {
    y % 16 * 4 + z / 64
  }

  function Sextet4(z: Byte): (d: Byte)
    ensures 0 <= d < 64
  {
    z % 64
  }

  /** What is written for three bytes. */
  function Group(x: Byte, y: Byte, z: Byte): (g: Bytes)
    ensures |g| == 4 && STAR !in g
  {
    [Symbol(Sextet1(x)), Symbol(Sextet2(x, y)), Symbol(Sextet3(y, z)), Symbol(Sextet4(z))]
  }

  /** What is written for two bytes at the end. */
  function Pair(x: Byte, y: Byte): (g: Bytes)
    ensures |g| == 4 && STAR !in g
  {
    [Symbol(Sextet1(x)), Symbol(Sextet2(x, y)), Symbol(Sextet3(y, 0)), PAD]
  }

  /** What is written for one byte at the end. */
  function Single(x: Byte): (g: Bytes)
    ensures |g| == 4 && STAR !in g
  {
    [Symbol(Sextet1(x)), Symbol(Sextet2(x, 0)), PAD, PAD]
  }

  function Base64(v: Bytes): (r: Bytes)
    ensures STAR !in r
    ensures |r| >= |v| && (v != [] ==> |r| > |v|)
  {
    if |v| == 0 then []
    else if |v| == 1 then Single(v[0])
    else if |v| == 2 then Pair(v[0], v[1])
    else Group(v[0], v[1], v[2]) + Base64(v[3..])
  }

  predicate Unreserved(b: Byte) {
    || 'a' as Byte <= b <= 'z' as Byte || 'A' as Byte <= b <= 'Z' as Byte || '0' as Byte <= b <= '9' as Byte
    || b in {'-' as Byte, '_' as Byte, '.' as Byte, '~' as Byte}
  }

  function HexDigit(n: Byte): (b: Byte)
    requires 0 <= n < 16
    ensures b != STAR
  {
    if n < 10 then n + '0' as Byte else n - 10 + 'A' as Byte
  }

  function QueryEscape(v: Bytes): (r: Bytes)
    ensures STAR !in r
    ensures |v| <= |r|
  {
    if v == [] then []
    else (if Unreserved(v[0]) then [v[0]]
          else if v[0] == ' ' as Byte then ['+' as Byte]
          else ['%' as Byte, HexDigit(v[0] / 16), HexDigit(v[0] % 16)])
         + QueryEscape(v[1..])
  }

  // ---------- Replacement ----------

  /** strings.ReplaceAll: leftmost, non-overlapping occurrences of a non-empty needle become three stars. */
  function ReplaceAll(s: Bytes, n: Bytes): Bytes
    requires n != []
  {
    if |s| < |n| then s
    else if n <= s then STARS + ReplaceAll(s[|n|..], n)
    else [s[0]] + ReplaceAll(s[1..], n)
  }

  ghost predicate OccursAt(n: Bytes, s: Bytes, i: int) {
    0 <= i <= |s| - |n| && s[i..i + |n|] == n
  }

  ghost predicate Occurs(n: Bytes, s: Bytes) {
    exists i :: OccursAt(n, s, i)
  }

  /** A needle that three inserted stars can never help to complete. */
  ghost predicate Inert(n: Bytes) {
    n != [] && n[0] != STAR && n[|n| - 1] != STAR && !Occurs(STARS, n)
  }

  lemma OccursInTail(n: Bytes, s: Bytes, k: nat)
    requires k <= |s| && Occurs(n, s[k..])
    ensures Occurs(n, s)
  {
    var i :| OccursAt(n, s[k..], i);
    assert s[k + i..k + i + |n|] == s[k..][i..i + |n|];
    assert OccursAt(n, s, k + i);
  }

  lemma OccursPastHead(n: Bytes, head: Bytes, rest: Bytes, i: int)
    requires OccursAt(n, head + rest, i) && i >= |head|
    ensures OccursAt(n, rest, i - |head|)
  {
    assert (head + rest)[i..i + |n|] == rest[i - |head|..i - |head| + |n|];
  }

  lemma StarsInFront(w: Bytes, rest: Bytes)
    requires w != [] && w <= STARS + rest && w[|w| - 1] != STAR
    ensures Occurs(STARS, w)
  {
    assert w[|w| - 1] == (STARS + rest)[|w| - 1];
    assert OccursAt(STARS, w, 0);
  }

  /** Text without three stars in a row, ending in no star, is only ever a prefix of the output where it was kept. */
  lemma {:induction false} PrefixIsKept(s: Bytes, m: Bytes, w: Bytes)
    requires m != [] && w <= ReplaceAll(s, m)
    requires w == [] || w[|w| - 1] != STAR
    requires !Occurs(STARS, w)
    ensures w <= s
  {
    if |s| >= |m| && w != [] {
      if m <= s {
        StarsInFront(w, ReplaceAll(s[|m|..], m));
      } else {
        if Occurs(STARS, w[1..]) {
          OccursInTail(STARS, w, 1);
        }
        PrefixIsKept(s[1..], m, w[1..]);
        assert s == [s[0]] + s[1..] && w == [s[0]] + w[1..];
      }
    }
  }

  /** An inert needle found in the output was there before, and was not the needle replaced. */
  lemma {:induction false} OccurrenceIsOld(s: Bytes, m: Bytes, n: Bytes, i: int)
    requires m != [] && Inert(n) && OccursAt(n, ReplaceAll(s, m), i)
    ensures Occurs(n, s) && m != n
  {
    if |s| < |m| {
      assert OccursAt(n, s, i);
    } else if m <= s {
      var rest := ReplaceAll(s[|m|..], m);
      assert n[0] == (STARS + rest)[i];
      OccursPastHead(n, STARS, rest, i);
      OccurrenceIsOld(s[|m|..], m, n, i - 3);
      OccursInTail(n, s, |m|);
    } else if i == 0 {
      PrefixIsKept(s, m, n);
      assert OccursAt(n, s, 0);
    } else {
      OccursPastHead(n, [s[0]], ReplaceAll(s[1..], m), i);
      OccurrenceIsOld(s[1..], m, n, i - 1);
      OccursInTail(n, s, 1);
    }
  }

  // ---------- Exactly which needles one replacement removes ----------

  lemma ByteOfOccurrence(n: Bytes, s: Bytes, i: int, k: nat)
    requires OccursAt(n, s, i) && k < |n|
    ensures s[i + k] == n[k]
  {
    assert s[i..i + |n|][k] == n[k];
  }

  lemma Shift(n: Bytes, s: Bytes, p: nat)
    requires s != []
    ensures OccursAt(n, s[1..], p) <==> OccursAt(n, s, p + 1)
  {
    if p + 1 + |n| <= |s| {
      assert s[1..][p..p + |n|] == s[p + 1..p + 1 + |n|];
    }
  }

  ghost predicate NoneBefore(n: Bytes, s: Bytes, at: nat) {
    forall p :: 0 <= p < at ==> !OccursAt(n, s, p)
  }

  lemma StepPast(s: Bytes, n: Bytes)
    requires n != [] && |n| <= |s| && !OccursAt(n, s, 0)
    ensures ReplaceAll(s, n) == [s[0]] + ReplaceAll(s[1..], n)
  {
    assert s[0..|n|] == s[..|n|];
  }

  /** The scan keeps everything before the first occurrence. */
  lemma {:induction false} FirstOccurrence(x: Bytes, n: Bytes, y: Bytes)
    requires n != [] && NoneBefore(n, x + n + y, |x|)
    ensures ReplaceAll(x + n + y, n) == x + STARS + ReplaceAll(y, n)
  {
    var s := x + n + y;
    if x == [] {
      assert n <= s && s[|n|..] == y;
    } else {
      assert s[1..] == x[1..] + n + y;
      forall p | 0 <= p < |x| - 1 ensures !OccursAt(n, s[1..], p) {
        Shift(n, s, p);
      }
      FirstOccurrence(x[1..], n, y);
      StepPast(s, n);
      assert x == [s[0]] + x[1..];
    }
  }

  /** With x + n + y, where y is too short to hold n, the output is x, three stars, y. */
  lemma Sandwich(x: Bytes, n: Bytes, y: Bytes)
    requires n != [] && |y| < |n| && NoneBefore(n, x + n + y, |x|)
    ensures ReplaceAll(x + n + y, n) == x + STARS + y
  {
    FirstOccurrence(x, n, y);
  }

  lemma OccursBetween(a: Bytes, n: Bytes, b: Bytes)
    ensures Occurs(n, a + n + b)
  {
    assert (a + n + b)[|a|..|a| + |n|] == n;
    assert OccursAt(n, a + n + b, |a|);
  }

  lemma LeadingStarLeaks(n: Bytes) returns (s: Bytes)
    requires n != [] && n[0] == STAR
    ensures Occurs(n, ReplaceAll(s, n)) && s == n[..0] + n + n[1..]
  {
    s := [] + n + n[1..];
    Sandwich([], n, n[1..]);
    assert ReplaceAll(s, n) == [STAR, STAR] + n + [];
    OccursBetween([STAR, STAR], n, []);
  }

  /** An early match would put n's last star on its p-th byte, and that byte on its first. */
  lemma EarlyMatchStartsWithStar(n: Bytes, x: Bytes, p: int)
    requires n == x + [STAR] && 0 <= p < |x| && OccursAt(n, x + n + [], p)
    ensures n[0] == STAR
  {
    ByteOfOccurrence(n, x + n + [], p, |x|);
    ByteOfOccurrence(n, x + n + [], p, 0);
  }

  lemma TrailingStarLeaks(n: Bytes) returns (s: Bytes)
    requires n != [] && n[0] != STAR && n[|n| - 1] == STAR
    ensures Occurs(n, ReplaceAll(s, n)) && s == n[..|n| - 1] + n + n[|n|..]
  {
    var x := n[..|n| - 1];
    s := x + n + [];
    forall p | 0 <= p < |x| ensures !OccursAt(n, s, p) {
      if OccursAt(n, s, p) {
        EarlyMatchStartsWithStar(n, x, p);
      }
    }
    Sandwich(x, n, []);
    assert ReplaceAll(s, n) == [] + n + [STAR, STAR];
    OccursBetween([], n, [STAR, STAR]);
  }

  lemma StarsAt(n: Bytes, i: nat)
    ensures OccursAt(STARS, n, i) <==> i + 3 <= |n| && n[i] == n[i + 1] == n[i + 2] == STAR
  {
    if i + 3 <= |n| {
      assert n[i..i + 3] == [n[i], n[i + 1], n[i + 2]];
    }
  }

  lemma {:induction false} FirstStars(n: Bytes, i: nat) returns (a: nat)
    requires n != [] && n[0] != STAR && OccursAt(STARS, n, i)
    ensures 0 < a && OccursAt(STARS, n, a) && NoneBefore(STARS, n, a) && n[a - 1] != STAR
    decreases i
  {
    StarsAt(n, i);
    if p :| 0 <= p < i && OccursAt(STARS, n, p) {
      a := FirstStars(n, p);
    } else {
      a := i;
      StarsAt(n, i - 1);
    }
  }

  /** An early match would put three stars before the first three stars of n. */
  lemma EarlyMatchMovesStars(n: Bytes, a: nat, s: Bytes, p: nat)
    requires 0 < a && OccursAt(STARS, n, a) && n[a - 1] != STAR
    requires s == n[..a] + n + n[a + 3..] && p < a && OccursAt(n, s, p)
    ensures OccursAt(STARS, n, p)
  {
    StarsAt(n, a);
    StarsAt(n, p);
    ByteOfOccurrence(n, s, p, a);
    ByteOfOccurrence(n, s, p, a + 1);
    ByteOfOccurrence(n, s, p, a + 2);
    assert forall j {:trigger n[j]} :: 0 <= j < |n| ==> s[a + j] == n[j];
    assert s[a + (a - 1)] == n[a - 1];
    assert s[p + a] == STAR && s[p + a + 1] == STAR && s[p + a + 2] == STAR;
    assert s[a + p] == n[p];
  }

  /** The first three stars of n, after something else. */
  ghost predicate FirstStarsAt(n: Bytes, a: nat) {
    0 < a && OccursAt(STARS, n, a) && NoneBefore(STARS, n, a) && n[a - 1] != STAR
  }

  lemma InnerStarsLeak(n: Bytes, a: nat) returns (s: Bytes)
    requires n != [] && FirstStarsAt(n, a)
    ensures Occurs(n, ReplaceAll(s, n)) && s == n[..a] + n + n[a + 3..]
  {
    var x, y := n[..a], n[a + 3..];
    assert n[a..a + 3] == STARS;
    assert n == x + STARS + y;
    s := x + n + y;
    forall p | 0 <= p < |x| ensures !OccursAt(n, s, p) {
      if OccursAt(n, s, p) {
        EarlyMatchMovesStars(n, a, s, p);
      }
    }
    Sandwich(x, n, y);
    assert ReplaceAll(s, n) == [] + n + [];
    OccursBetween([], n, []);
  }

  /** n between a beginning and an end of itself. */
  function Around(n: Bytes, i: nat, j: nat): Bytes
    requires i <= |n| && j <= |n|
  {
    n[..i] + n + n[j..]
  }

  lemma InnerStarsExist(n: Bytes)
    requires n != [] && !Inert(n) && n[0] != STAR && n[|n| - 1] != STAR
    ensures exists a :: FirstStarsAt(n, a)
  {
    var k :| OccursAt(STARS, n, k);
    var a := FirstStars(n, k);
    assert FirstStarsAt(n, a);
  }

  ghost function InnerStars(n: Bytes): (a: nat)
    requires n != [] && !Inert(n) && n[0] != STAR && n[|n| - 1] != STAR
    ensures FirstStarsAt(n, a)
  {
    InnerStarsExist(n);
    var a: nat :| FirstStarsAt(n, a);
    a
  }

  /** A text in which n, collapsed, leaves a star or three that complete it again. */
  ghost function LeakText(n: Bytes): Bytes
    requires n != [] && !Inert(n)
  {
    if n[0] == STAR then Around(n, 0, 1)
    else if n[|n| - 1] == STAR then Around(n, |n| - 1, |n|)
    else Around(n, InnerStars(n), InnerStars(n) + 3)
  }

  lemma Leaks(n: Bytes)
    requires n != [] && !Inert(n)
    ensures Occurs(n, ReplaceAll(LeakText(n), n))
  {
    if n[0] == STAR {
      var s := LeadingStarLeaks(n);
    } else if n[|n| - 1] == STAR {
      var s := TrailingStarLeaks(n);
    } else {
      var s := InnerStarsLeak(n, InnerStars(n));
    }
  }

  /** One replacement of n leaves no trace of n in s. */
  ghost predicate Cleans(n: Bytes, s: Bytes)
    requires n != []
  {
    !Occurs(n, ReplaceAll(s, n))
  }

  /** ReplaceAll leaves no trace of n, whatever the text, exactly when n is inert. */
  lemma ReplaceAllIsClean(n: Bytes)
    requires n != []
    ensures (forall s :: Cleans(n, s)) <==> Inert(n)
  {
    if Inert(n) {
      forall s ensures Cleans(n, s) {
        if i :| OccursAt(n, ReplaceAll(s, n), i) {
          OccurrenceIsOld(s, n, n, i);
        }
      }
    } else {
      Leaks(n);
      assert !Cleans(n, LeakText(n));
    }
  }

  // ---------- Redact ----------

  function Needles(secretValues: seq<Bytes>): seq<Bytes> {
    if secretValues == [] then []
    else
      var v := secretValues[|secretValues| - 1];
      Needles(secretValues[..|secretValues| - 1]) + if v == [] then [] else [v, Base64(v), QueryEscape(v)]
  }

  predicate NonEmpty(ns: seq<Bytes>) {
    forall i :: 0 <= i < |ns| ==> ns[i] != []
  }

  lemma {:induction false} NeedlesAreNonEmpty(secretValues: seq<Bytes>)
    ensures NonEmpty(Needles(secretValues))
  {
    if secretValues != [] {
      NeedlesAreNonEmpty(secretValues[..|secretValues| - 1]);
    }
  }

  /** The needles one after another. */
  function Redacted(s: Bytes, ns: seq<Bytes>): Bytes
    requires NonEmpty(ns)
  {
    if ns == [] then s else ReplaceAll(Redacted(s, ns[..|ns| - 1]), ns[|ns| - 1])
  }

  ghost predicate LongestFirst(ns: seq<Bytes>) {
    forall i, j :: 0 <= i < j < |ns| ==> |ns[i]| >= |ns[j]|
  }

  /** What an unstable sort by descending length may return. */
  ghost predicate IsLengthOrder(order: seq<Bytes>, needles: seq<Bytes>) {
    multiset(order) == multiset(needles) && LongestFirst(order)
  }

  lemma {:induction false} LongestExists(ms: multiset<Bytes>) returns (n: Bytes)
    requires ms != multiset{}
    ensures n in ms && forall m :: m in ms ==> |m| <= |n|
    decreases |ms|
  {
    n :| n in ms;
    var rest := ms - multiset{n};
    if rest != multiset{} {
      var other := LongestExists(rest);
      n := if |other| > |n| then other else n;
    }
    assert forall m :: m in ms ==> m in rest || m in multiset{n} || |m| <= |n|;
  }

  ghost predicate NoneLonger(ms: multiset<Bytes>, n: Bytes) {
    forall m :: m in ms ==> |m| <= |n|
  }

  /** order holds the longest needles, rest what is still to be placed. */
  ghost predicate HalfSorted(order: seq<Bytes>, rest: multiset<Bytes>, needles: seq<Bytes>) {
    && multiset(order) + rest == multiset(needles)
    && LongestFirst(order)
    && forall i :: 0 <= i < |order| ==> NoneLonger(rest, order[i])
  }

  lemma PlaceNext(order: seq<Bytes>, rest: multiset<Bytes>, needles: seq<Bytes>, n: Bytes)
    requires HalfSorted(order, rest, needles) && n in rest && NoneLonger(rest, n)
    ensures HalfSorted(order + [n], rest - multiset{n}, needles)
  {
    forall i | 0 <= i < |order| ensures |n| <= |order[i]| && NoneLonger(rest - multiset{n}, order[i]) {
      assert NoneLonger(rest, order[i]);
    }
  }

  method SortByLength(needles: seq<Bytes>) returns (order: seq<Bytes>)
    ensures IsLengthOrder(order, needles)
  {
    var rest := multiset(needles);
    order := [];
    while rest != multiset{}
      invariant HalfSorted(order, rest, needles)
      decreases |rest|
    {
      ghost var _ := LongestExists(rest);
      var n :| n in rest && forall m :: m in rest ==> |m| <= |n|;
      PlaceNext(order, rest, needles, n);
      order, rest := order + [n], rest - multiset{n};
    }
  }

  method CollectNeedles(secretValues: seq<Bytes>) returns (needles: seq<Bytes>)
    ensures needles == Needles(secretValues)
  {
    needles := [];
    for i := 0 to |secretValues|
      invariant needles == Needles(secretValues[..i])
    {
      var v := secretValues[i];
      assert secretValues[..i + 1][..i] == secretValues[..i];
      if v != [] {
        needles := needles + [v, Base64(v), QueryEscape(v)];
      }
    }
    assert secretValues[..|secretValues|] == secretValues;
  }

  method Redact(output: Bytes, secretValues: seq<Bytes>) returns (r: Bytes, ghost order: seq<Bytes>)
    ensures IsLengthOrder(order, Needles(secretValues)) && NonEmpty(order)
    ensures r == Redacted(output, order)
    ensures forall n :: n in Needles(secretValues) && Inert(n) ==> !Occurs(n, r)
  {
    var needles := CollectNeedles(secretValues);
    var sorted := SortByLength(needles);
    order := sorted;
    OrderIsNonEmpty(order, secretValues);
    r := output;
    for i := 0 to |sorted|
      invariant r == Redacted(output, sorted[..i])
    {
      assert sorted[..i + 1][..i] == sorted[..i];
      r := ReplaceAll(r, sorted[i]);
    }
    assert sorted[..|sorted|] == sorted;
    NoneLeft(output, order, needles);
  }

  lemma OrderIsNonEmpty(order: seq<Bytes>, secretValues: seq<Bytes>)
    requires multiset(order) == multiset(Needles(secretValues))
    ensures NonEmpty(order)
  {
    NeedlesAreNonEmpty(secretValues);
    forall i | 0 <= i < |order| ensures order[i] != [] {
      assert order[i] in multiset(order);
    }
  }

  lemma NoneLeft(s: Bytes, order: seq<Bytes>, needles: seq<Bytes>)
    requires NonEmpty(order) && multiset(order) == multiset(needles)
    ensures forall n :: n in needles && Inert(n) ==> !Occurs(n, Redacted(s, order))
  {
    forall n | n in needles && Inert(n) ensures !Occurs(n, Redacted(s, order)) {
      assert n in multiset(needles);
      NoNeedleLeft(s, order, n);
    }
  }

  /** Whatever the order, no needle that stars cannot complete is left in the output. */
  lemma {:induction false} NoNeedleLeft(s: Bytes, ns: seq<Bytes>, n: Bytes)
    requires NonEmpty(ns) && Inert(n) && (n in ns || !Occurs(n, s))
    ensures !Occurs(n, Redacted(s, ns))
  {
    if ns != [] {
      var front, last := ns[..|ns| - 1], ns[|ns| - 1];
      if i :| OccursAt(n, Redacted(s, ns), i) {
        OccurrenceIsOld(Redacted(s, front), last, n, i);
        assert n in front || !Occurs(n, s);
        NoNeedleLeft(s, front, n);
      }
    }
  }

  lemma StarFreeIsInert(n: Bytes)
    requires n != [] && STAR !in n
    ensures Inert(n)
  {
    if i :| OccursAt(STARS, n, i) {
      StarsAt(n, i);
    }
  }

  /** The encoded forms of any secret are inert, and so is a secret without a star. */
  lemma FormsAreInert(v: Bytes)
    requires v != []
    ensures Inert(Base64(v)) && Inert(QueryEscape(v))
    ensures STAR !in v ==> Inert(v)
  {
    StarFreeIsInert(Base64(v));
    StarFreeIsInert(QueryEscape(v));
    if STAR !in v {
      StarFreeIsInert(v);
    }
  }

  lemma {:induction false} AbsentNeedleChangesNothing(s: Bytes, n: Bytes)
    requires n != [] && !Occurs(n, s)
    ensures ReplaceAll(s, n) == s
  {
    if |s| >= |n| {
      assert !OccursAt(n, s, 0);
      StepPast(s, n);
      if Occurs(n, s[1..]) {
        OccursInTail(n, s, 1);
      }
      AbsentNeedleChangesNothing(s[1..], n);
    }
  }

  ghost predicate AllInert(ns: seq<Bytes>) {
    forall n :: n in ns ==> Inert(n)
  }

  lemma {:induction false} RedactedText(s: Bytes, ns: seq<Bytes>)
    requires NonEmpty(ns) && forall n :: n in ns ==> !Occurs(n, s)
    ensures Redacted(s, ns) == s
  {
    if ns != [] {
      RedactedText(s, ns[..|ns| - 1]);
      AbsentNeedleChangesNothing(s, ns[|ns| - 1]);
    }
  }

  /** Redacting redacted text again, in any order of the needles, changes nothing. */
  lemma RedactIsIdempotent(s: Bytes, first: seq<Bytes>, again: seq<Bytes>)
    requires NonEmpty(first) && NonEmpty(again) && AllInert(first) && forall n :: n in again ==> n in first
    ensures Redacted(Redacted(s, first), again) == Redacted(s, first)
  {
    forall n | n in again ensures !Occurs(n, Redacted(s, first)) {
      NoNeedleLeft(s, first, n);
    }
    RedactedText(Redacted(s, first), again);
  }

  lemma {:induction false} FormsAreNeedles(secretValues: seq<Bytes>, v: Bytes)
    requires v in secretValues && v != []
    ensures v in Needles(secretValues) && Base64(v) in Needles(secretValues) && QueryEscape(v) in Needles(secretValues)
  {
    if v != secretValues[|secretValues| - 1] {
      FormsAreNeedles(secretValues[..|secretValues| - 1], v);
    }
  }

  predicate IsFormOf(n: Bytes, v: Bytes) {
    v != [] && (n == v || n == Base64(v) || n == QueryEscape(v))
  }

  /** Nothing else is a needle. */
  lemma {:induction false} NeedlesAreForms(secretValues: seq<Bytes>, n: Bytes)
    requires n in Needles(secretValues)
    ensures exists v :: v in secretValues && IsFormOf(n, v)
  {
    var front, last := secretValues[..|secretValues| - 1], secretValues[|secretValues| - 1];
    if n in Needles(front) {
      NeedlesAreForms(front, n);
      var v :| v in front && IsFormOf(n, v);
      assert v in secretValues;
    } else {
      assert last in secretValues && IsFormOf(n, last);
    }
  }

  lemma {:induction false} StarFreeNeedles(secretValues: seq<Bytes>)
    requires forall v :: v in secretValues ==> STAR !in v
    ensures AllInert(Needles(secretValues))
  {
    if secretValues != [] {
      var last := secretValues[|secretValues| - 1];
      StarFreeNeedles(secretValues[..|secretValues| - 1]);
      if last != [] {
        FormsAreInert(last);
      }
    }
  }

  /**
   The promise: when no secret contains a star, the output shows no secret in any
   of its three forms, and redacting it again changes nothing, whatever the order
   of needles of equal length.
   */
  lemma StarFreeSecretsNeverShow(s: Bytes, secretValues: seq<Bytes>, order: seq<Bytes>, again: seq<Bytes>, v: Bytes)
    requires forall u :: u in secretValues ==> STAR !in u
    requires NonEmpty(order) && IsLengthOrder(order, Needles(secretValues))
    requires NonEmpty(again) && IsLengthOrder(again, Needles(secretValues))
    requires v in secretValues && v != []
    ensures var r := Redacted(s, order);
      && !Occurs(v, r) && !Occurs(Base64(v), r) && !Occurs(QueryEscape(v), r)
      && Redacted(r, again) == r
  {
    var needles := Needles(secretValues);
    StarFreeNeedles(secretValues);
    FormsAreNeedles(secretValues, v);
    NoneLeft(s, order, needles);
    assert forall n :: n in order <==> n in multiset(order);
    assert forall n :: n in again <==> n in multiset(again);
    assert forall n :: n in needles <==> n in multiset(needles);
    RedactIsIdempotent(s, order, again);
  }

  // ---------- What the output is made of ----------

  /** The input cut into bytes that stayed and occurrences of needles that were collapsed. */
  datatype Pieces = End | Keep(b: Byte, rest: Pieces) | Cut(needle: Bytes, rest: Pieces)

  function Source(p: Pieces): Bytes {
    match p
    case End => []
    case Keep(b, rest) => [b] + Source(rest)
    case Cut(n, rest) => n + Source(rest)
  }

  function Shown(p: Pieces): Bytes {
    match p
    case End => []
    case Keep(b, rest) => [b] + Shown(rest)
    case Cut(_, rest) => STARS + Shown(rest)
  }

  predicate CutsAre(p: Pieces, ns: seq<Bytes>) {
    match p
    case End => true
    case Keep(_, rest) => CutsAre(rest, ns)
    case Cut(n, rest) => n in ns && CutsAre(rest, ns)
  }

  function AllKept(s: Bytes): (p: Pieces)
    ensures Source(p) == Shown(p) == s && CutsAre(p, [])
  {
    if s == [] then End else Keep(s[0], AllKept(s[1..]))
  }

  lemma {:induction false} MoreCuts(p: Pieces, ns: seq<Bytes>, more: seq<Bytes>)
    requires CutsAre(p, ns) && forall n :: n in ns ==> n in more
    ensures CutsAre(p, more)
  {
    if !p.End? {
      MoreCuts(p.rest, ns, more);
    }
  }

  lemma KeepInFront(b: Byte, w: Bytes, source: Bytes, shown: Bytes)
    ensures [b] + (w + source) == ([b] + w) + source
    ensures [b] + (w + shown) == ([b] + w) + shown
  {
  }

  /** Text with no three stars in a row, ending in no star, can only be shown by pieces that were kept. */
  lemma {:induction false} PrefixIsKeptPieces(p: Pieces, w: Bytes, ns: seq<Bytes>) returns (rest: Pieces)
    requires w <= Shown(p) && (w == [] || w[|w| - 1] != STAR) && !Occurs(STARS, w) && CutsAre(p, ns)
    ensures Source(p) == w + Source(rest) && Shown(p) == w + Shown(rest) && CutsAre(rest, ns)
    ensures if w == [] then rest == p else rest < p
    decreases p
  {
    rest := p;
    if w != [] {
      if p.Cut? {
        StarsInFront(w, Shown(p.rest));
      } else {
        if Occurs(STARS, w[1..]) {
          OccursInTail(STARS, w, 1);
        }
        assert w == [p.b] + w[1..];
        rest := PrefixIsKeptPieces(p.rest, w[1..], ns);
        KeepInFront(p.b, w[1..], Source(rest), Shown(rest));
      }
    }
  }

  lemma ReplaceAllPastStar(rest: Bytes, m: Bytes)
    requires m != [] && m[0] != STAR
    ensures ReplaceAll([STAR] + rest, m) == [STAR] + ReplaceAll(rest, m)
  {
    assert ([STAR] + rest)[1..] == rest;
  }

  lemma ThreeStars(r: Bytes)
    ensures STARS + r == [STAR] + ([STAR] + ([STAR] + r))
  {
  }

  lemma ReplaceAllPastStars(rest: Bytes, m: Bytes)
    requires Inert(m)
    ensures ReplaceAll(STARS + rest, m) == STARS + ReplaceAll(rest, m)
  {
    var one := [STAR] + rest;
    var two := [STAR] + one;
    ReplaceAllPastStar(rest, m);
    ReplaceAllPastStar(one, m);
    ReplaceAllPastStar(two, m);
    ThreeStars(rest);
    ThreeStars(ReplaceAll(rest, m));
  }

  lemma ReplaceAllPastByte(b: Byte, rest: Bytes, m: Bytes)
    requires m != [] && !(m <= [b] + rest)
    ensures ReplaceAll([b] + rest, m) == [b] + ReplaceAll(rest, m)
  {
    assert ([b] + rest)[1..] == rest;
  }

  lemma ReplaceAllAtMatch(m: Bytes, rest: Bytes)
    requires m != []
    ensures ReplaceAll(m + rest, m) == STARS + ReplaceAll(rest, m)
  {
    assert (m + rest)[|m|..] == rest;
  }

  /** One replacement collapses whole runs of kept pieces. */
  lemma {:induction false} PassOverPieces(p: Pieces, m: Bytes, ns: seq<Bytes>) returns (q: Pieces)
    requires Inert(m) && m in ns && CutsAre(p, ns)
    ensures Source(q) == Source(p) && Shown(q) == ReplaceAll(Shown(p), m) && CutsAre(q, ns)
    decreases p
  {
    if p.End? {
      q := p;
    } else if m <= Shown(p) {
      var after := PrefixIsKeptPieces(p, m, ns);
      ReplaceAllAtMatch(m, Shown(after));
      var rest := PassOverPieces(after, m, ns);
      q := Cut(m, rest);
    } else {
      var rest := PassOverPieces(p.rest, m, ns);
      if p.Cut? {
        ReplaceAllPastStars(Shown(p.rest), m);
        q := Cut(p.needle, rest);
      } else {
        ReplaceAllPastByte(p.b, Shown(p.rest), m);
        q := Keep(p.b, rest);
      }
    }
  }

  /** The output is the input with disjoint occurrences of needles each collapsed to three stars. */
  lemma {:induction false} OutputIsCollapsedInput(s: Bytes, ns: seq<Bytes>) returns (p: Pieces)
    requires NonEmpty(ns) && AllInert(ns)
    ensures Source(p) == s && Shown(p) == Redacted(s, ns) && CutsAre(p, ns)
  {
    if ns == [] {
      p := AllKept(s);
    } else {
      var front := ns[..|ns| - 1];
      assert forall n :: n in front ==> n in ns;
      var before := OutputIsCollapsedInput(s, front);
      MoreCuts(before, front, ns);
      p := PassOverPieces(before, ns[|ns| - 1], ns);
    }
  }

  // ---------- Longest first ----------

  lemma MatchEndsBeforeStars(x: Bytes, z: Bytes, m: Bytes)
    requires Inert(m) && STARS <= z && m <= x + z
    ensures m <= x
  {
    if |m| > |x| {
      assert z[0] == z[1] == z[2] == STAR;
      assert m[|m| - 1] == (x + z)[|m| - 1];
      StarsAt(m, |x|);
    }
  }

  lemma SplitAfterMatch(m: Bytes, t: Bytes, z: Bytes)
    requires m != [] && ReplaceAll(t + z, m) == ReplaceAll(t, m) + ReplaceAll(z, m)
    ensures ReplaceAll(m + (t + z), m) == ReplaceAll(m + t, m) + ReplaceAll(z, m)
  {
    ReplaceAllAtMatch(m, t);
    ReplaceAllAtMatch(m, t + z);
  }

  lemma SplitAfterByte(b: Byte, t: Bytes, z: Bytes, m: Bytes)
    requires m != [] && ReplaceAll(t + z, m) == ReplaceAll(t, m) + ReplaceAll(z, m)
    requires !(m <= [b] + (t + z)) && !(m <= [b] + t)
    ensures ReplaceAll([b] + (t + z), m) == ReplaceAll([b] + t, m) + ReplaceAll(z, m)
  {
    ReplaceAllPastByte(b, t, m);
    ReplaceAllPastByte(b, t + z, m);
  }

  lemma PrefixOfLonger(m: Bytes, x: Bytes, z: Bytes)
    requires m <= x
    ensures m <= x + z
  {
    assert x == m + x[|m|..];
    assert x + z == m + (x[|m|..] + z);
  }

  /** Inert needles never match across stars that are already there. */
  lemma {:induction false} SplitBeforeStars(x: Bytes, z: Bytes, m: Bytes)
    requires Inert(m) && STARS <= z
    ensures ReplaceAll(x + z, m) == ReplaceAll(x, m) + ReplaceAll(z, m)
    decreases |x|
  {
    if x == [] {
      assert x + z == z;
    } else if m <= x + z {
      MatchEndsBeforeStars(x, z, m);
      var t := x[|m|..];
      assert x == m + t && x + z == m + (t + z);
      SplitBeforeStars(t, z, m);
      SplitAfterMatch(m, t, z);
    } else {
      if m <= x {
        PrefixOfLonger(m, x, z);
      }
      var t := x[1..];
      assert x == [x[0]] + t && x + z == [x[0]] + (t + z);
      SplitBeforeStars(t, z, m);
      SplitAfterByte(x[0], t, z, m);
    }
  }

  lemma ReplaceAllSplitsAtStars(x: Bytes, y: Bytes, m: Bytes)
    requires Inert(m)
    ensures ReplaceAll(x + STARS + y, m) == ReplaceAll(x, m) + STARS + ReplaceAll(y, m)
  {
    assert x + STARS + y == x + (STARS + y);
    SplitBeforeStars(x, STARS + y, m);
    ReplaceAllPastStars(y, m);
  }

  lemma {:induction false} RedactedSplitsAtStars(x: Bytes, y: Bytes, ns: seq<Bytes>)
    requires NonEmpty(ns) && AllInert(ns)
    ensures Redacted(x + STARS + y, ns) == Redacted(x, ns) + STARS + Redacted(y, ns)
  {
    if ns != [] {
      var front := ns[..|ns| - 1];
      assert forall n :: n in front ==> n in ns;
      RedactedSplitsAtStars(x, y, front);
      ReplaceAllSplitsAtStars(Redacted(x, front), Redacted(y, front), ns[|ns| - 1]);
    }
  }

  lemma {:induction false} RedactedConcat(s: Bytes, a: seq<Bytes>, b: seq<Bytes>)
    requires NonEmpty(a) && NonEmpty(b)
    ensures NonEmpty(a + b) && Redacted(s, a + b) == Redacted(Redacted(s, a), b)
  {
    if b == [] {
      assert a + b == a;
    } else {
      assert (a + b)[..|a + b| - 1] == a + b[..|b| - 1];
      RedactedConcat(s, a, b[..|b| - 1]);
    }
  }

  /**
   Why the longest go first: an occurrence of n that no other needle of its length or more
   touches is collapsed whole, even when shorter needles sit inside it.
   */
  lemma LongestFirstLeavesNoTail(x: Bytes, n: Bytes, y: Bytes, order: seq<Bytes>)
    requires NonEmpty(order) && AllInert(order) && LongestFirst(order) && n in order
    requires forall m :: m in order && |m| >= |n| && m != n ==> !Occurs(m, x + n + y)
    requires NoneBefore(n, x + n + y, |x|) && !Occurs(n, y)
    ensures Redacted(x + n + y, order) == Redacted(x, order) + STARS + Redacted(y, order)
  {
    var i :| 0 <= i < |order| && order[i] == n;
    var k := FirstIndex(order, n, i);
    var head, tail := order[..k], order[k + 1..];
    assert order == head + ([n] + tail);
    PartOfOrder(order, 0, k);
    PartOfOrder(order, k + 1, |order|);
    HeadIsLonger(order, n, k);
    NoTail(x, n, y, head, tail);
  }

  lemma NoTail(x: Bytes, n: Bytes, y: Bytes, head: seq<Bytes>, tail: seq<Bytes>)
    requires n != [] && NonEmpty(head) && NonEmpty(tail) && AllInert(tail)
    requires forall m :: m in head ==> !Occurs(m, x + n + y)
    requires NoneBefore(n, x + n + y, |x|) && !Occurs(n, y)
    ensures var order := head + ([n] + tail);
            NonEmpty(order) && Redacted(x + n + y, order) == Redacted(x, order) + STARS + Redacted(y, order)
  {
    PartsOf(x, n, y, head);
    RedactedText(x + n + y, head);
    RedactedText(x, head);
    RedactedText(y, head);
    Middle(x + n + y, head, n, tail);
    Middle(x, head, n, tail);
    Middle(y, head, n, tail);
    FirstOccurrence(x, n, y);
    AbsentNeedleChangesNothing(y, n);
    NotBefore(x, n, y);
    AbsentNeedleChangesNothing(x, n);
    RedactedSplitsAtStars(x, y, tail);
  }

  /** Before the first n in the order there are only other needles at least as long. */
  lemma HeadIsLonger(order: seq<Bytes>, n: Bytes, k: nat)
    requires LongestFirst(order) && k < |order| && order[k] == n && forall i :: 0 <= i < k ==> order[i] != n
    ensures forall m :: m in order[..k] ==> |m| >= |n| && m != n
  {
    forall m | m in order[..k] ensures |m| >= |n| && m != n {
      var i :| 0 <= i < k && order[i] == m;
    }
  }

  lemma PartOfOrder(order: seq<Bytes>, lo: nat, hi: nat)
    requires lo <= hi <= |order| && NonEmpty(order) && AllInert(order)
    ensures NonEmpty(order[lo..hi]) && AllInert(order[lo..hi])
    ensures forall m :: m in order[lo..hi] ==> m in order
  {
    forall m | m in order[lo..hi] ensures m in order {
      var i :| 0 <= i < hi - lo && order[lo..hi][i] == m;
      assert order[lo + i] == m;
    }
  }

  lemma {:induction false} FirstIndex(order: seq<Bytes>, n: Bytes, k: nat) returns (k0: nat)
    requires k < |order| && order[k] == n
    ensures k0 < |order| && order[k0] == n && forall i :: 0 <= i < k0 ==> order[i] != n
    decreases k
  {
    if i :| 0 <= i < k && order[i] == n {
      k0 := FirstIndex(order, n, i);
    } else {
      k0 := k;
    }
  }

  lemma Middle(s: Bytes, head: seq<Bytes>, n: Bytes, tail: seq<Bytes>)
    requires NonEmpty(head) && NonEmpty(tail) && n != [] && Redacted(s, head) == s
    ensures NonEmpty(head + ([n] + tail)) && Redacted(s, head + ([n] + tail)) == Redacted(ReplaceAll(s, n), tail)
  {
    RedactedConcat(s, head, [n] + tail);
    RedactedConcat(s, [n], tail);
    assert [n][..0] == [];
  }

  lemma PartsOf(x: Bytes, n: Bytes, y: Bytes, ms: seq<Bytes>)
    requires forall m :: m in ms ==> !Occurs(m, x + n + y)
    ensures forall m :: m in ms ==> !Occurs(m, x) && !Occurs(m, y)
  {
    forall m | m in ms ensures !Occurs(m, x) && !Occurs(m, y) {
      if i :| OccursAt(m, x, i) {
        assert (x + n + y)[i..i + |m|] == x[i..i + |m|];
        assert OccursAt(m, x + n + y, i);
      }
      assert (x + n + y)[|x + n|..] == y;
      if Occurs(m, y) {
        OccursInTail(m, x + n + y, |x + n|);
      }
    }
  }

  lemma NotBefore(x: Bytes, n: Bytes, y: Bytes)
    requires NoneBefore(n, x + n + y, |x|) && n != []
    ensures !Occurs(n, x)
  {
    if i :| OccursAt(n, x, i) {
      assert (x + n + y)[i..i + |n|] == x[i..i + |n|];
      assert OccursAt(n, x + n + y, i);
    }
  }

  // ---------- One secret ----------

  lemma {:induction false} EscapedStarIsLonger(v: Bytes)
    requires STAR in v
    ensures |QueryEscape(v)| > |v|
  {
    if v[0] != STAR {
      EscapedStarIsLonger(v[1..]);
    }
  }

  /** A needle shorter than all the others comes last. */
  lemma ShortestComesLast(order: seq<Bytes>, a: Bytes, b: Bytes, v: Bytes)
    requires IsLengthOrder(order, [v, a, b]) && |v| < |a| && |v| < |b|
    ensures |order| == 3 && order[2] == v && {order[0], order[1]} == {a, b}
  {
    assert |order| == |multiset(order)| == |multiset([v, a, b])| == 3;
    assert order == [order[0], order[1], order[2]];
    assert v in multiset(order) && a in multiset(order) && b in multiset(order);
    forall i | 0 <= i < 3 ensures order[i] in [v, a, b] {
      assert order[i] in multiset(order);
    }
  }

  lemma AbsentFormsChangeNothing(s: Bytes, order: seq<Bytes>)
    requires |order| == 3 && NonEmpty(order) && !Occurs(order[0], s) && !Occurs(order[1], s)
    ensures Redacted(s, order) == ReplaceAll(s, order[2])
  {
    assert order[..2][..1] == order[..1] && order[..1][..0] == [];
    AbsentNeedleChangesNothing(s, order[0]);
    AbsentNeedleChangesNothing(s, order[1]);
    assert Redacted(s, order[..1]) == s;
    assert Redacted(s, order[..2]) == s;
  }

  ghost predicate IsFormFree(v: Bytes, s: Bytes) {
    !Occurs(Base64(v), s) && !Occurs(QueryEscape(v), s)
  }

  ghost predicate HidesIn(v: Bytes, s: Bytes, order: seq<Bytes>)
    requires NonEmpty(order)
  {
    !Occurs(v, Redacted(s, order))
  }

  lemma OneSecretNeedles(v: Bytes)
    requires v != []
    ensures Needles([v]) == [v, Base64(v), QueryEscape(v)]
  {
    assert [v][..0] == [];
  }

  /** The needles of one secret with a star: its two forms, then the secret itself. */
  lemma StarredSecretIsLast(v: Bytes, order: seq<Bytes>)
    requires STAR in v && NonEmpty(order) && IsLengthOrder(order, Needles([v]))
    ensures |order| == 3 && order[2] == v && {order[0], order[1]} == {Base64(v), QueryEscape(v)}
    ensures |Base64(v)| > |v| && |QueryEscape(v)| > |v|
  {
    OneSecretNeedles(v);
    EscapedStarIsLonger(v);
    ShortestComesLast(order, Base64(v), QueryEscape(v), v);
  }

  lemma OneSecretLeaks(v: Bytes, order: seq<Bytes>)
    requires v != [] && !Inert(v) && IsFormFree(v, LeakText(v))
    requires NonEmpty(order) && IsLengthOrder(order, Needles([v]))
    ensures !HidesIn(v, LeakText(v), order)
  {
    if STAR !in v {
      StarFreeIsInert(v);
    }
    StarredSecretIsLast(v, order);
    Leaks(v);
    assert order[0] in {order[0], order[1]} && order[1] in {order[0], order[1]};
    AbsentFormsChangeNothing(LeakText(v), order);
  }

  // ---------- Secrets with a star at an end ----------

  /** Output that begins with a star-free x and a star comes from x and a star, or from x and a needle. */
  lemma {:induction false} StarAfterKept(t: Bytes, v: Bytes, x: Bytes)
    requires v != [] && STAR !in x && x + [STAR] <= ReplaceAll(t, v)
    ensures x <= t
    ensures x + [STAR] <= t || v <= t[|x|..]
    decreases |x|
  {
    if x == [] {
      assert [STAR] <= ReplaceAll(t, v);
      assert ReplaceAll(t, v)[0] == STAR;
      assert |t| >= |v| && !(v <= t) ==> ReplaceAll(t, v)[0] == t[0];
      assert t[0..] == t;
    } else if |t| >= |v| {
      assert (x + [STAR])[0] == x[0] && x[0] in x;
      assert x[1..] + [STAR] == (x + [STAR])[1..];
      StarAfterKept(t[1..], v, x[1..]);
      assert t == [t[0]] + t[1..] && x == [x[0]] + x[1..];
      assert t[1..][|x| - 1..] == t[|x|..];
    } else {
      assert x <= x + [STAR];
    }
  }

  lemma OccursAtStart(n: Bytes, t: Bytes)
    requires n <= t
    ensures Occurs(n, t)
  {
    assert OccursAt(n, t, 0);
  }

  /** A secret with its one star in front survives only where it was followed by the rest of itself. */
  lemma {:induction false} LeadingStarNeedsMore(t: Bytes, v: Bytes)
    requires v != [] && v[0] == STAR && STAR !in v[1..] && Occurs(v, ReplaceAll(t, v))
    ensures Occurs(v + v[1..], t)
    decreases |t|
  {
    var w := v[1..];
    var i :| OccursAt(v, ReplaceAll(t, v), i);
    if |t| >= |v| && v <= t {
      var rest := t[|v|..];
      LeadingStarInOutput(rest, v, i);
      assert t == v + rest;
      if w <= rest {
        assert t == (v + w) + rest[|w|..];
        OccursAtStart(v + w, t);
      } else {
        LeadingStarNeedsMore(rest, v);
        OccursInTail(v + w, t, |v|);
      }
    } else if |t| >= |v| {
      if i == 0 {
        KeptLeadingStar(t, v);
      } else {
        OccursPastHead(v, [t[0]], ReplaceAll(t[1..], v), i);
        assert Occurs(v, ReplaceAll(t[1..], v));
        LeadingStarNeedsMore(t[1..], v);
        OccursInTail(v + w, t, 1);
      }
    }
  }

  /** After a collapse the secret shows across the stars, or further on. */
  lemma LeadingStarInOutput(rest: Bytes, v: Bytes, i: int)
    requires v != [] && v[0] == STAR && STAR !in v[1..] && OccursAt(v, STARS + ReplaceAll(rest, v), i)
    ensures v[1..] <= rest || Occurs(v, ReplaceAll(rest, v))
  {
    var w, out := v[1..], ReplaceAll(rest, v);
    if w != [] && i < 3 {
      ByteOfOccurrence(v, STARS + out, i, 1);
      assert v[1] in w;
      assert i == 2;
      assert (STARS + out)[3..3 + |w|] == out[..|w|];
      assert v[1..] == (STARS + out)[2..2 + |v|][1..];
      assert w <= out;
      StarFreeHasNoStars(w);
      assert w[|w| - 1] in w;
      PrefixIsKept(rest, v, w);
    } else if i >= 3 {
      OccursPastHead(v, STARS, out, i);
      assert OccursAt(v, out, i - 3);
    }
  }

  lemma StarFreeHasNoStars(w: Bytes)
    requires STAR !in w
    ensures !Occurs(STARS, w)
  {
    if i :| OccursAt(STARS, w, i) {
      StarsAt(w, i);
    }
  }

  lemma TailOfMatch(v: Bytes, b: Byte, out: Bytes)
    requires v != [] && OccursAt(v, [b] + out, 0)
    ensures v[0] == b && v[1..] <= out
  {
    assert v == ([b] + out)[..|v|];
    assert v[1..] == out[..|v| - 1];
  }

  /** A star that was not collapsed does not begin the secret in the output, or it would have been. */
  lemma KeptLeadingStar(t: Bytes, v: Bytes)
    requires v != [] && v[0] == STAR && STAR !in v[1..] && |t| >= |v| && !(v <= t)
    ensures !OccursAt(v, ReplaceAll(t, v), 0)
  {
    var w, out := v[1..], ReplaceAll(t[1..], v);
    if OccursAt(v, [t[0]] + out, 0) {
      TailOfMatch(v, t[0], out);
      StarFreeHasNoStars(w);
      PrefixIsKept(t[1..], v, w);
    }
  }

  /** What does not begin with a star shows only past the stars. */
  lemma PastStars(v: Bytes, out: Bytes, i: int)
    requires v != [] && v[0] != STAR && OccursAt(v, STARS + out, i)
    ensures Occurs(v, out)
  {
    ByteOfOccurrence(v, STARS + out, i, 0);
    assert i >= 3;
    OccursPastHead(v, STARS, out, i);
    assert OccursAt(v, out, i - 3);
  }

  lemma PrefixOfRest(x: Bytes, v: Bytes, t: Bytes)
    requires x <= t && v <= t[|x|..]
    ensures x + v <= t
  {
    assert t == x + t[|x|..];
  }

  lemma TrailingStarAtFront(t: Bytes, x: Bytes)
    requires STAR !in x && !(x + [STAR] <= t) && x + [STAR] <= ReplaceAll(t, x + [STAR])
    ensures x + (x + [STAR]) <= t
  {
    StarAfterKept(t, x + [STAR], x);
    PrefixOfRest(x, x + [STAR], t);
  }

  /** A secret with its one star at the end survives only where the rest of itself came before it. */
  lemma {:induction false} TrailingStarNeedsMore(t: Bytes, v: Bytes)
    requires v != [] && v[|v| - 1] == STAR && STAR !in v[..|v| - 1] && |v| > 1 && Occurs(v, ReplaceAll(t, v))
    ensures Occurs(v[..|v| - 1] + v, t)
    decreases |t|
  {
    var x := v[..|v| - 1];
    assert v == x + [STAR] && v[0] in x;
    var i :| OccursAt(v, ReplaceAll(t, v), i);
    if |t| >= |v| && v <= t {
      PastStars(v, ReplaceAll(t[|v|..], v), i);
      TrailingStarNeedsMore(t[|v|..], v);
      OccursInTail(x + v, t, |v|);
    } else if |t| >= |v| {
      if i == 0 {
        assert v == ReplaceAll(t, v)[..|v|];
        TrailingStarAtFront(t, x);
        OccursAtStart(x + v, t);
      } else {
        OccursPastHead(v, [t[0]], ReplaceAll(t[1..], v), i);
        assert Occurs(v, ReplaceAll(t[1..], v));
        TrailingStarNeedsMore(t[1..], v);
        OccursInTail(x + v, t, 1);
      }
    }
  }

  lemma StarInOccurrence(n: Bytes, s: Bytes, i: int, p: nat)
    requires OccursAt(n, s, i) && i <= p < i + |n| && s[p] == STAR
    ensures STAR in n
  {
    ByteOfOccurrence(n, s, i, p - i);
  }

  /** Two stars less than |form| apart leave no room for a star-free form between, before or after them. */
  lemma StarsCutForms(form: Bytes, text: Bytes, k: nat, n: nat)
    requires STAR !in form && |form| > n && |text| <= 2 * n && k < n && k + n - 1 < |text|
    requires text[k] == STAR && text[k + n - 1] == STAR
    ensures !Occurs(form, text)
  {
    if i :| OccursAt(form, text, i) {
      StarInOccurrence(form, text, i, if i <= k then k else k + n - 1);
    }
  }

  lemma TwoStarsFreeText(v: Bytes, text: Bytes, k: nat)
    requires STAR in v && |text| <= 2 * |v| && k < |v| && k + |v| - 1 < |text|
    requires text[k] == STAR && text[k + |v| - 1] == STAR
    ensures IsFormFree(v, text)
  {
    EscapedStarIsLonger(v);
    StarsCutForms(Base64(v), text, k, |v|);
    StarsCutForms(QueryEscape(v), text, k, |v|);
  }

  lemma SecondLeadingStar(v: Bytes)
    requires v != [] && v[0] == STAR && STAR in v[1..]
    ensures IsFormFree(v, v + v[1..])
  {
    var k :| 0 <= k < |v| - 1 && v[1..][k] == STAR;
    TwoStarsFreeText(v, v + v[1..], k + 1);
  }

  lemma SecondTrailingStar(v: Bytes)
    requires v != [] && v[|v| - 1] == STAR && STAR in v[..|v| - 1]
    ensures IsFormFree(v, v[..|v| - 1] + v)
  {
    var k :| 0 <= k < |v| - 1 && v[..|v| - 1][k] == STAR;
    TwoStarsFreeText(v, v[..|v| - 1] + v, k);
  }

  lemma LeakTextAtEnds(v: Bytes)
    requires v != [] && !Inert(v)
    ensures v[0] == STAR ==> LeakText(v) == v + v[1..]
    ensures v[0] != STAR && v[|v| - 1] == STAR ==> LeakText(v) == v[..|v| - 1] + v
  {
    assert v[..0] + v == v && v[|v|..] == [];
  }

  lemma OccursWithin(f: Bytes, text: Bytes, t: Bytes)
    requires Occurs(f, text) && Occurs(text, t)
    ensures Occurs(f, t)
  {
    var i :| OccursAt(f, text, i);
    var j :| OccursAt(text, t, j);
    var tail := t[j..];
    assert tail[..|text|] == text;
    assert tail[i..i + |f|] == text[i..i + |f|];
    assert OccursAt(f, tail, i);
    OccursInTail(f, t, j);
  }

  /** No text without the encoded forms shows a star-ended secret whose leaking text has one of them. */
  lemma FormsShieldSecret(t: Bytes, v: Bytes)
    requires v != [] && !Inert(v) && (v[0] == STAR || v[|v| - 1] == STAR)
    requires IsFormFree(v, t) && !IsFormFree(v, LeakText(v))
    ensures !Occurs(v, ReplaceAll(t, v))
  {
    LeakTextAtEnds(v);
    if Occurs(v, ReplaceAll(t, v)) {
      if v[0] == STAR {
        if STAR in v[1..] {
          SecondLeadingStar(v);
        }
        LeadingStarNeedsMore(t, v);
      } else {
        if STAR in v[..|v| - 1] {
          SecondTrailingStar(v);
        }
        TrailingStarNeedsMore(t, v);
      }
      FormInLeakText(v, t);
    }
  }

  lemma FormInLeakText(v: Bytes, t: Bytes)
    requires v != [] && !Inert(v) && !IsFormFree(v, LeakText(v)) && Occurs(LeakText(v), t)
    ensures !IsFormFree(v, t)
  {
    if Occurs(Base64(v), LeakText(v)) {
      OccursWithin(Base64(v), LeakText(v), t);
    } else {
      OccursWithin(QueryEscape(v), LeakText(v), t);
    }
  }

  /** A star-ended secret whose leaking text has an encoded form is hidden in every text. */
  lemma ShieldedSecretHides(v: Bytes, order: seq<Bytes>, s: Bytes)
    requires v != [] && !Inert(v) && (v[0] == STAR || v[|v| - 1] == STAR) && !IsFormFree(v, LeakText(v))
    requires NonEmpty(order) && IsLengthOrder(order, Needles([v]))
    ensures HidesIn(v, s, order)
  {
    StarredSecretIsLast(v, order);
    var front := order[..2];
    assert front == [order[0], order[1]];
    FormsAreInert(v);
    assert Base64(v) in front && QueryEscape(v) in front by {
      assert Base64(v) in {order[0], order[1]} && QueryEscape(v) in {order[0], order[1]};
    }
    NoNeedleLeft(s, front, Base64(v));
    NoNeedleLeft(s, front, QueryEscape(v));
    FormsShieldSecret(Redacted(s, front), v);
    assert Redacted(s, order) == ReplaceAll(Redacted(s, front), v);
  }

  /** A whole redaction with one secret hides it in every text. */
  ghost predicate HidesEverywhere(v: Bytes, order: seq<Bytes>)
    requires NonEmpty(order)
  {
    forall s :: HidesIn(v, s, order)
  }

  /**
   When a whole redaction with one secret hides it in every text: if it is inert; if
   it is not, then only when an encoded form shows in its leaking text, and for a
   secret with a star at an end exactly then.
   */
  lemma OneSecretHidesIff(v: Bytes, order: seq<Bytes>)
    requires v != [] && NonEmpty(order) && IsLengthOrder(order, Needles([v]))
    ensures Inert(v) ==> HidesEverywhere(v, order)
    ensures !Inert(v) && HidesEverywhere(v, order) ==> !IsFormFree(v, LeakText(v))
    ensures !Inert(v) && (v[0] == STAR || v[|v| - 1] == STAR) ==>
              (HidesEverywhere(v, order) <==> !IsFormFree(v, LeakText(v)))
  {
    if Inert(v) {
      OneSecretNeedles(v);
      assert v in multiset(order);
      forall s ensures HidesIn(v, s, order) {
        NoNeedleLeft(s, order, v);
      }
    } else if IsFormFree(v, LeakText(v)) {
      OneSecretLeaks(v, order);
    } else if v[0] == STAR || v[|v| - 1] == STAR {
      forall s ensures HidesIn(v, s, order) {
        ShieldedSecretHides(v, order, s);
      }
    }
  }

  // ---------- A secret that leaks ----------

  /** The secret *a. */
  const STARRED: Bytes := [STAR, 'a' as Byte]

  lemma StarredNeedles()
    ensures Needles([STARRED]) == [STARRED, Base64(STARRED), QueryEscape(STARRED)]
    ensures |Base64(STARRED)| == |QueryEscape(STARRED)| == 4
  {
    assert [STARRED][..0] == [];
    assert QueryEscape(STARRED[1..]) == ['a' as Byte] + QueryEscape(STARRED[1..][1..]);
  }

  lemma StarredComesLast(order: seq<Bytes>)
    requires IsLengthOrder(order, Needles([STARRED]))
    ensures |order| == 3 && order[2] == STARRED && |order[0]| == |order[1]| == 4
  {
    StarredNeedles();
    var needles := Needles([STARRED]);
    assert |order| == |multiset(order)| == |multiset(needles)| == 3;
    assert multiset(order)[STARRED] == 1;
    assert order == [order[0], order[1], order[2]];
    forall i | 0 <= i < 3 ensures order[i] == STARRED || |order[i]| == 4 {
      assert order[i] in multiset(order);
      assert order[i] in needles;
    }
  }

  /** With the secret *a, the text *aa still shows *a after redaction. */
  lemma StarSecretLeaks(order: seq<Bytes>)
    requires IsLengthOrder(order, Needles([STARRED])) && NonEmpty(order)
    ensures Occurs(STARRED, Redacted(STARRED + STARRED[1..], order))
  {
    StarredComesLast(order);
    var s := STARRED + STARRED[1..];
    assert order[..2][..1] == order[..1] && order[..1][..0] == [];
    assert Redacted(s, order[..1]) == s;
    assert Redacted(s, order[..2]) == s;
    Sandwich([], STARRED, STARRED[1..]);
    assert [] + STARRED + STARRED[1..] == s;
    assert Redacted(s, order) == [STAR, STAR] + STARRED + [];
    OccursBetween([STAR, STAR], STARRED, []);
  }
}
