/**
 The base64 and URL-query forms of a secret against the published alphabets:
 each form can be read back by a decoder that knows only the alphabet.
 */
module Encodings {
  import opened Redact

  const UPPER := "ABCDEFGHIJKLMNOPQRSTUVWXYZ"
  const LOWER := "abcdefghijklmnopqrstuvwxyz"
  const DIGITS := "0123456789"

  /** Section 4 of RFC 4648, in order. */
  const ALPHABET := UPPER + LOWER + DIGITS + "+/"

  /** Section 2.1 of RFC 3986, in the upper case it recommends. */
  const HEX := DIGITS + "ABCDEF"

  /** The unreserved characters of section 2.3 of RFC 3986. */
  const PLAIN := UPPER + LOWER + DIGITS + "-_.~"

  /** Position of b in text, or |text|. */
  function IndexOf(text: string, b: Byte): (i: nat)
    ensures i <= |text|
    ensures i < |text| ==> text[i] as int == b as int
    ensures forall j :: 0 <= j < i ==> text[j] as int != b as int
  {
    if text == "" then 0 else if text[0] as int == b as int then 0 else 1 + IndexOf(text[1..], b)
  }

  /** The i-th character of text is the one i places after c. */
  predicate CountsFrom(text: string, c: char, n: nat) {
    |text| == n && forall i :: 0 <= i < n ==> text[i] as int == c as int + i
  }

  lemma DigitsCount()
    ensures CountsFrom(DIGITS, '0', 10)
  {
  }

  lemma UpperCounts()
    ensures CountsFrom(UPPER, 'A', 26)
  {
  }

  lemma LowerCounts()
    ensures CountsFrom(LOWER, 'a', 26)
  {
  }

  // ---------- Base64 ----------

  /** Symbol reads off the alphabet. */
  predicate IsAlphabet(alphabet: string) {
    |alphabet| == 64 && forall i: Byte :: 0 <= i < 64 ==> alphabet[i as int] as int == Symbol(i) as int
  }

  lemma FourRanges(upper: string, lower: string, digits: string, rest: string)
    requires CountsFrom(upper, 'A', 26) && CountsFrom(lower, 'a', 26) && CountsFrom(digits, '0', 10) && rest == "+/"
    ensures IsAlphabet(upper + lower + digits + rest)
  {
    var all := upper + lower + digits + rest;
    forall i: Byte | 0 <= i < 64 ensures all[i as int] as int == Symbol(i) as int {
      var k := i as int;
      if k < 26 {
        assert all[k] == upper[k];
      } else if k < 52 {
        assert all[k] == lower[k - 26];
      } else if k < 62 {
        assert all[k] == digits[k - 52];
      } else {
        assert all[k] == rest[k - 62];
      }
    }
  }

  /** Symbol(i) is the i-th character of the published alphabet. */
  lemma SymbolsAreTheAlphabet()
    ensures IsAlphabet(ALPHABET)
  {
    UpperCounts();
    LowerCounts();
    DigitsCount();
    FourRanges(UPPER, LOWER, DIGITS, "+/");
  }

  /** The value of a base64 symbol, by its position in the alphabet. */
  function Value(alphabet: string, b: Byte): (v: nat)
    ensures v < 64
  {
    IndexOf(alphabet, b) % 64
  }

  lemma SymbolsDiffer(i: Byte, j: Byte)
    requires 0 <= i < j < 64
    ensures Symbol(i) != Symbol(j)
  {
  }

  lemma ValueOfSymbol(alphabet: string, i: Byte)
    requires IsAlphabet(alphabet) && 0 <= i < 64
    ensures Value(alphabet, Symbol(i)) == i as int
  {
    var k := IndexOf(alphabet, Symbol(i));
    assert alphabet[i as int] as int == Symbol(i) as int;
    if k < i as int {
      SymbolsDiffer(k as Byte, i);
    }
  }

  function First(a: nat, b: nat): Byte
    requires a < 64 && b < 64
  {
    (a * 4 + b / 16) as Byte
  }

  function Second(b: nat, c: nat): Byte
    requires b < 64 && c < 64
  {
    (b % 16 * 16 + c / 4) as Byte
  }

  function Third(c: nat, d: nat): Byte
    requires c < 64 && d < 64
  {
    (c % 4 * 64 + d) as Byte
  }

  /** Three bytes from four symbols; one or two paddings at the end stand for missing bytes. */
  function FromBase64(alphabet: string, r: Bytes): Bytes
    decreases |r|
  {
    if |r| < 4 then []
    else
      var a, b, c, d := Value(alphabet, r[0]), Value(alphabet, r[1]), Value(alphabet, r[2]), Value(alphabet, r[3]);
      if r[2] == PAD then [First(a, b)]
      else if r[3] == PAD then [First(a, b), Second(b, c)]
      else [First(a, b), Second(b, c), Third(c, d)] + FromBase64(alphabet, r[4..])
  }

  lemma SymbolIsNoPadding(i: Byte)
    requires 0 <= i < 64
    ensures Symbol(i) != PAD
  {
  }

  /** Splitting three bytes into sextets loses nothing. */
  lemma Sextets(x: Byte, y: Byte, z: Byte)
    ensures First(Sextet1(x) as int, Sextet2(x, y) as int) == x
    ensures Second(Sextet2(x, y) as int, Sextet3(y, z) as int) == y
    ensures Third(Sextet3(y, z) as int, Sextet4(z) as int) == z
  {
  }

  lemma FirstOfSextets(x: Byte, y: Byte)
    ensures First(Sextet1(x) as int, Sextet2(x, y) as int) == x
  {
  }

  /** Reading four symbols that are no padding, then the rest. */
  lemma ReadFour(alphabet: string, p: Byte, q: Byte, r: Byte, t: Byte, rest: Bytes)
    requires r != PAD && t != PAD
    ensures FromBase64(alphabet, [p, q, r, t] + rest)
            == [First(Value(alphabet, p), Value(alphabet, q)), Second(Value(alphabet, q), Value(alphabet, r)),
                Third(Value(alphabet, r), Value(alphabet, t))] + FromBase64(alphabet, rest)
  {
    var all := [p, q, r, t] + rest;
    assert all[4..] == rest;
    assert all[0] == p && all[1] == q && all[2] == r && all[3] == t;
  }

  lemma FourSymbols(alphabet: string, a: Byte, b: Byte, c: Byte, d: Byte, rest: Bytes)
    requires IsAlphabet(alphabet) && 0 <= a < 64 && 0 <= b < 64 && 0 <= c < 64 && 0 <= d < 64
    ensures FromBase64(alphabet, [Symbol(a), Symbol(b), Symbol(c), Symbol(d)] + rest)
            == [First(a as int, b as int), Second(b as int, c as int), Third(c as int, d as int)]
               + FromBase64(alphabet, rest)
  {
    ValueOfSymbol(alphabet, a);
    ValueOfSymbol(alphabet, b);
    ValueOfSymbol(alphabet, c);
    ValueOfSymbol(alphabet, d);
    SymbolIsNoPadding(c);
    SymbolIsNoPadding(d);
    ReadFour(alphabet, Symbol(a), Symbol(b), Symbol(c), Symbol(d), rest);
  }

  lemma TwoSymbols(alphabet: string, a: Byte, b: Byte)
    requires IsAlphabet(alphabet) && 0 <= a < 64 && 0 <= b < 64
    ensures FromBase64(alphabet, [Symbol(a), Symbol(b), PAD, PAD]) == [First(a as int, b as int)]
  {
    ValueOfSymbol(alphabet, a);
    ValueOfSymbol(alphabet, b);
  }

  lemma ThreeSymbols(alphabet: string, a: Byte, b: Byte, c: Byte)
    requires IsAlphabet(alphabet) && 0 <= a < 64 && 0 <= b < 64 && 0 <= c < 64
    ensures FromBase64(alphabet, [Symbol(a), Symbol(b), Symbol(c), PAD])
            == [First(a as int, b as int), Second(b as int, c as int)]
  {
    ValueOfSymbol(alphabet, a);
    ValueOfSymbol(alphabet, b);
    ValueOfSymbol(alphabet, c);
    SymbolIsNoPadding(c);
  }

  lemma GroupReadsBack(alphabet: string, x: Byte, y: Byte, z: Byte, tail: Bytes)
    requires IsAlphabet(alphabet)
    ensures FromBase64(alphabet, Group(x, y, z) + tail) == [x, y, z] + FromBase64(alphabet, tail)
  {
    Sextets(x, y, z);
    FourSymbols(alphabet, Sextet1(x), Sextet2(x, y), Sextet3(y, z), Sextet4(z), tail);
  }

  lemma PairReadsBack(alphabet: string, x: Byte, y: Byte)
    requires IsAlphabet(alphabet)
    ensures FromBase64(alphabet, Pair(x, y)) == [x, y]
  {
    Sextets(x, y, 0);
    ThreeSymbols(alphabet, Sextet1(x), Sextet2(x, y), Sextet3(y, 0));
  }

  lemma SingleReadsBack(alphabet: string, x: Byte)
    requires IsAlphabet(alphabet)
    ensures FromBase64(alphabet, Single(x)) == [x]
  {
    FirstOfSextets(x, 0);
    TwoSymbols(alphabet, Sextet1(x), Sextet2(x, 0));
  }

  /** The text r reads back as v. */
  predicate Reads(alphabet: string, r: Bytes, v: Bytes) {
    FromBase64(alphabet, r) == v
  }

  lemma GroupAndRest(alphabet: string, v: Bytes, tail: Bytes)
    requires IsAlphabet(alphabet) && |v| >= 3 && Reads(alphabet, tail, v[3..])
    ensures Reads(alphabet, Group(v[0], v[1], v[2]) + tail, v)
  {
    GroupReadsBack(alphabet, v[0], v[1], v[2], tail);
    assert v == [v[0], v[1], v[2]] + v[3..];
  }

  lemma PairOnly(alphabet: string, v: Bytes)
    requires IsAlphabet(alphabet) && |v| == 2
    ensures Reads(alphabet, Pair(v[0], v[1]), v)
  {
    PairReadsBack(alphabet, v[0], v[1]);
    assert v == [v[0], v[1]];
  }

  lemma SingleOnly(alphabet: string, v: Bytes)
    requires IsAlphabet(alphabet) && |v| == 1
    ensures Reads(alphabet, Single(v[0]), v)
  {
    SingleReadsBack(alphabet, v[0]);
    assert v == [v[0]];
  }

  lemma {:induction false} ReadsBack(alphabet: string, v: Bytes)
    requires IsAlphabet(alphabet)
    ensures Reads(alphabet, Base64(v), v)
    decreases |v|
  {
    if |v| >= 3 {
      ReadsBack(alphabet, v[3..]);
      GroupAndRest(alphabet, v, Base64(v[3..]));
    } else if |v| == 2 {
      PairOnly(alphabet, v);
    } else if |v| == 1 {
      SingleOnly(alphabet, v);
    }
  }

  /** Decoding a secret's base64 form by the published alphabet gives the secret back. */
  lemma Base64RoundTrip(v: Bytes)
    ensures FromBase64(ALPHABET, Base64(v)) == v
  {
    SymbolsAreTheAlphabet();
    ReadsBack(ALPHABET, v);
  }

  // ---------- URL query ----------

  predicate IsIn(b: Byte, text: string) {
    exists i :: 0 <= i < |text| && text[i] as int == b as int
  }

  lemma InRange(b: Byte, text: string, c: char, n: nat)
    requires CountsFrom(text, c, n)
    ensures IsIn(b, text) <==> c as int <= b as int < c as int + n
  {
    if c as int <= b as int < c as int + n {
      assert text[b as int - c as int] as int == b as int;
    }
  }

  lemma InConcat(b: Byte, x: string, y: string)
    ensures IsIn(b, x + y) <==> IsIn(b, x) || IsIn(b, y)
  {
    if i :| 0 <= i < |x| && x[i] as int == b as int {
      assert (x + y)[i] as int == b as int;
    }
    if i :| 0 <= i < |y| && y[i] as int == b as int {
      assert (x + y)[|x| + i] as int == b as int;
    }
  }

  lemma InMarks(b: Byte)
    ensures IsIn(b, "-_.~") <==> b in {'-' as Byte, '_' as Byte, '.' as Byte, '~' as Byte}
  {
    var marks := "-_.~";
    assert marks[0] == '-' && marks[1] == '_' && marks[2] == '.' && marks[3] == '~';
  }

  /** What stays unescaped is exactly the unreserved characters. */
  lemma PlainIsUnreserved(b: Byte)
    ensures Unreserved(b) <==> IsIn(b, PLAIN)
  {
    UpperCounts();
    LowerCounts();
    DigitsCount();
    InRange(b, UPPER, 'A', 26);
    InRange(b, LOWER, 'a', 26);
    InRange(b, DIGITS, '0', 10);
    InMarks(b);
    InConcat(b, UPPER, LOWER);
    InConcat(b, UPPER + LOWER, DIGITS);
    InConcat(b, UPPER + LOWER + DIGITS, "-_.~");
  }

  predicate IsHex(hex: string) {
    |hex| == 16 && forall i: Byte :: 0 <= i < 16 ==> hex[i as int] as int == HexDigit(i) as int
  }

  lemma TwoRanges(digits: string, letters: string)
    requires CountsFrom(digits, '0', 10) && CountsFrom(letters, 'A', 6)
    ensures IsHex(digits + letters)
  {
    var all := digits + letters;
    forall i: Byte | 0 <= i < 16 ensures all[i as int] as int == HexDigit(i) as int {
      if i < 10 {
        assert all[i as int] == digits[i as int];
      } else {
        assert all[i as int] == letters[i as int - 10];
      }
    }
  }

  lemma HexDigitsAreHex()
    ensures IsHex(HEX)
  {
    DigitsCount();
    TwoRanges(DIGITS, "ABCDEF");
  }

  function HexValue(hex: string, b: Byte): (v: nat)
    ensures v < 16
  {
    IndexOf(hex, b) % 16
  }

  lemma HexDigitsDiffer(i: Byte, j: Byte)
    requires 0 <= i < j < 16
    ensures HexDigit(i) != HexDigit(j)
  {
  }

  lemma HexValueOfDigit(hex: string, i: Byte)
    requires IsHex(hex) && 0 <= i < 16
    ensures HexValue(hex, HexDigit(i)) == i as int
  {
    var k := IndexOf(hex, HexDigit(i));
    assert hex[i as int] as int == HexDigit(i) as int;
    if k < i as int {
      HexDigitsDiffer(k as Byte, i);
    }
  }

  const PERCENT: Byte := '%' as Byte

  /** A plus is a space, a percent sign is followed by two hex digits, anything else is itself. */
  function Unescape(hex: string, r: Bytes): Bytes
    decreases |r|
  {
    if r == [] then []
    else if r[0] == '+' as Byte then [' ' as Byte] + Unescape(hex, r[1..])
    else if r[0] == PERCENT && |r| >= 3 then
      [(HexValue(hex, r[1]) * 16 + HexValue(hex, r[2])) as Byte] + Unescape(hex, r[3..])
    else [r[0]] + Unescape(hex, r[1..])
  }

  lemma ReadSelf(hex: string, b: Byte, rest: Bytes)
    requires b != '+' as Byte && b != PERCENT
    ensures Unescape(hex, [b] + rest) == [b] + Unescape(hex, rest)
  {
    assert ([b] + rest)[1..] == rest;
  }

  lemma ReadPlus(hex: string, rest: Bytes)
    ensures Unescape(hex, ['+' as Byte] + rest) == [' ' as Byte] + Unescape(hex, rest)
  {
    assert (['+' as Byte] + rest)[1..] == rest;
  }

  lemma ReadPercent(hex: string, high: Byte, low: Byte, rest: Bytes)
    ensures Unescape(hex, [PERCENT, high, low] + rest)
            == [(HexValue(hex, high) * 16 + HexValue(hex, low)) as Byte] + Unescape(hex, rest)
  {
    var all := [PERCENT, high, low] + rest;
    assert all[3..] == rest && all[0] == PERCENT && all[1] == high && all[2] == low;
  }

  lemma HexPair(hex: string, b: Byte)
    requires IsHex(hex)
    ensures (HexValue(hex, HexDigit(b / 16)) * 16 + HexValue(hex, HexDigit(b % 16))) as Byte == b
  {
    HexValueOfDigit(hex, b / 16);
    HexValueOfDigit(hex, b % 16);
  }

  /** One byte as QueryEscape writes it. */
  function Escaped(b: Byte): Bytes {
    if Unreserved(b) then [b] else if b == ' ' as Byte then ['+' as Byte]
    else [PERCENT, HexDigit(b / 16), HexDigit(b % 16)]
  }

  /** A byte is left alone exactly if it is unreserved; a space becomes a plus, any other byte its two hex digits. */
  lemma EscapedMeans(b: Byte)
    ensures IsIn(b, PLAIN) <==> Escaped(b) == [b]
    ensures b == ' ' as Byte <==> Escaped(b) == ['+' as Byte]
    ensures !IsIn(b, PLAIN) && b != ' ' as Byte ==>
              |Escaped(b)| == 3 && Escaped(b)[0] == PERCENT
  {
    PlainIsUnreserved(b);
  }

  lemma EscapesByteByByte(v: Bytes)
    requires v != []
    ensures QueryEscape(v) == Escaped(v[0]) + QueryEscape(v[1..])
  {
  }

  lemma UnescapeOne(hex: string, b: Byte, rest: Bytes)
    requires IsHex(hex)
    ensures Unescape(hex, Escaped(b) + rest) == [b] + Unescape(hex, rest)
  {
    if Unreserved(b) {
      ReadSelf(hex, b, rest);
    } else if b == ' ' as Byte {
      ReadPlus(hex, rest);
    } else {
      HexPair(hex, b);
      ReadPercent(hex, HexDigit(b / 16), HexDigit(b % 16), rest);
    }
  }

  lemma {:induction false} ReadsBackQuery(hex: string, v: Bytes)
    requires IsHex(hex)
    ensures Unescape(hex, QueryEscape(v)) == v
    decreases |v|
  {
    if v != [] {
      ReadsBackQuery(hex, v[1..]);
      EscapesByteByByte(v);
      UnescapeOne(hex, v[0], QueryEscape(v[1..]));
      assert v == [v[0]] + v[1..];
    }
  }

  /** Unescaping a secret's URL-query form gives the secret back. */
  lemma QueryRoundTrip(v: Bytes)
    ensures Unescape(HEX, QueryEscape(v)) == v
  {
    HexDigitsAreHex();
    ReadsBackQuery(HEX, v);
  }
}
