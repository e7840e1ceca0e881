/** Python's `str` as a sequence of code points, lone surrogates included. */
module Texts {

  type Code = c: int | 0 <= c < 0x11_0000

  type Text = seq<Code>

  type Byte = b: int | 0 <= b < 256

  type Bytes = seq<Byte>

  datatype Option<+T> = None | Some(value: T)

  /** A Dafny literal as a text; Dafny characters are never surrogates. */
  function Lit(s: string): (t: Text)
    ensures |t| == |s|
  {
    seq(|s|, i requires 0 <= i < |s| => s[i] as int)
  }

  predicate IsHigh(c: int) { 0xD800 <= c < 0xDC00 }

  predicate IsLow(c: int) { 0xDC00 <= c < 0xE000 }

  /** No surrogate occurs, so the text has an encoding. */
  predicate Scalar(t: Text) {
    forall i | 0 <= i < |t| :: !IsHigh(t[i]) && !IsLow(t[i])
  }

  /** Python compares strings code point by code point. */
  predicate LexLe(a: Text, b: Text) {
    || a == []
    || (b != [] && (a[0] < b[0] || (a[0] == b[0] && LexLe(a[1..], b[1..]))))
  }

  lemma {:induction false} LexTotal(a: Text, b: Text)
    ensures LexLe(a, b) || LexLe(b, a)
  {
    if a != [] && b != [] {
      LexTotal(a[1..], b[1..]);
    }
  }

  lemma {:induction false} LexTransitive(a: Text, b: Text, c: Text)
    requires LexLe(a, b) && LexLe(b, c)
    ensures LexLe(a, c)
  {
    if a != [] && a[0] == b[0] == c[0] {
      LexTransitive(a[1..], b[1..], c[1..]);
    }
  }

  lemma {:induction false} LexAntisymmetric(a: Text, b: Text)
    requires LexLe(a, b) && LexLe(b, a)
    ensures a == b
  {
    if a != [] {
      LexAntisymmetric(a[1..], b[1..]);
      assert a == [a[0]] + a[1..] && b == [b[0]] + b[1..];
    }
  }

  /** `str.lower` on the letters it can turn into one of the words compared with here. */
  function LowerCode(c: Code): Code {
    if 'A' as int <= c <= 'Z' as int then c + 32 else c
  }

  function Lower(t: Text): (r: Text)
    ensures |r| == |t|
  {
    seq(|t|, i requires 0 <= i < |t| => LowerCode(t[i]))
  }

  predicate StartsWith(t: Text, prefix: Text) {
    prefix <= t
  }

  predicate IsDigit(c: int) { '0' as int <= c <= '9' as int }

  /** Decimal digits of a natural number, most significant first, as `str(n)` prints them. */
  function Decimal(n: nat): (t: Text)
    ensures |t| > 0
    ensures forall i | 0 <= i < |t| :: IsDigit(t[i])
  {
    if n < 10 then [48 + n] else Decimal(n / 10) + [48 + n % 10]
  }

  /** `int` of a run of digits. */
  function ReadDecimal(t: Text): nat
    requires forall i | 0 <= i < |t| :: IsDigit(t[i])
  {
    if t == [] then 0 else assert IsDigit(t[|t| - 1]); ReadDecimal(t[..|t| - 1]) * 10 + (t[|t| - 1] - 48)
  }

  lemma {:induction false} DecimalRoundTrip(n: nat)
    ensures ReadDecimal(Decimal(n)) == n
  {
    if n >= 10 {
      DecimalRoundTrip(n / 10);
      assert Decimal(n)[..|Decimal(n)| - 1] == Decimal(n / 10);
    }
  }

  /** A number other than zero is printed without a leading zero. */
  lemma {:induction false} DecimalLeadingDigit(n: nat)
    ensures n > 0 ==> Decimal(n)[0] != 48
    ensures n == 0 ==> Decimal(n) == [48]
  {
    if n >= 10 {
      DecimalLeadingDigit(n / 10);
    }
  }

  /** The longest run of digits at the front of a text. */
  function DigitRun(t: Text): (r: Text)
    ensures r <= t
    ensures forall i | 0 <= i < |r| :: IsDigit(r[i])
    ensures |r| < |t| ==> !IsDigit(t[|r|])
  {
    if t == [] || !IsDigit(t[0]) then [] else
      var rest := DigitRun(t[1..]);
      assert forall i | 0 < i < |rest| + 1 :: ([t[0]] + rest)[i] == rest[i - 1];
      [t[0]] + rest
  }

  lemma {:induction false} DigitRunOf(digits: Text, rest: Text)
    requires forall i | 0 <= i < |digits| :: IsDigit(digits[i])
    requires rest == [] || !IsDigit(rest[0])
    ensures DigitRun(digits + rest) == digits
  {
    if digits == [] {
      assert digits + rest == rest;
    } else {
      assert (digits + rest)[1..] == digits[1..] + rest;
      DigitRunOf(digits[1..], rest);
    }
  }

  /** `str.isspace`, code point by code point. */
  predicate IsSpace(c: int) {
    9 <= c <= 13 || 28 <= c <= 32 || c == 0x85 || c == 0xA0 || c == 0x1680 || 0x2000 <= c <= 0x200A
    || c == 0x2028 || c == 0x2029 || c == 0x202F || c == 0x205F || c == 0x3000
  }

  function StripLeft(t: Text, p: int -> bool): (r: Text)
    ensures |r| <= |t|
  {
    if t != [] && p(t[0]) then StripLeft(t[1..], p) else t
  }

  function StripRight(t: Text, p: int -> bool): (r: Text)
    ensures |r| <= |t|
  {
    if t != [] && p(t[|t| - 1]) then StripRight(t[..|t| - 1], p) else t
  }

  /** `str.strip`. */
  function StripBlanks(t: Text): Text {
    StripRight(StripLeft(t, IsSpace), IsSpace)
  }

  /** `str.split` on one character. */
  function Split(t: Text, sep: Code): (r: seq<Text>)
    ensures r != []
  {
    if t == [] then [[]]
    else if t[0] == sep then [[]] + Split(t[1..], sep)
    else
      var r := Split(t[1..], sep);
      [[t[0]] + r[0]] + r[1..]
  }

  /** A separator ends the first part. */
  lemma {:induction false} SplitFirst(part: Text, sep: Code, rest: Text)
    requires sep !in part
    ensures Split(part + [sep] + rest, sep) == [part] + Split(rest, sep)
  {
    var t := part + [sep] + rest;
    if part == [] {
      assert t[1..] == rest;
    } else {
      assert t[1..] == part[1..] + [sep] + rest;
      SplitFirst(part[1..], sep, rest);
      assert part == [part[0]] + part[1..];
    }
  }

  lemma {:induction false} SplitNone(part: Text, sep: Code)
    requires sep !in part
    ensures Split(part, sep) == [part]
  {
    if part != [] {
      SplitNone(part[1..], sep);
      assert part == [part[0]] + part[1..];
    }
  }

  lemma ScalarConcat(a: Text, b: Text)
    ensures Scalar(a + b) <==> Scalar(a) && Scalar(b)
  {
    if Scalar(a + b) {
      forall i | 0 <= i < |a| ensures !IsHigh(a[i]) && !IsLow(a[i]) {
        assert (a + b)[i] == a[i];
      }
      forall i | 0 <= i < |b| ensures !IsHigh(b[i]) && !IsLow(b[i]) {
        assert (a + b)[|a| + i] == b[i];
      }
    }
  }

  /** Capitals of the basic alphabet become small letters and nothing else changes. */
  lemma LowerMeans(t: Text, i: int)
    requires 0 <= i < |t|
    ensures 65 <= t[i] <= 90 ==> Lower(t)[i] == t[i] + 32
    ensures !(65 <= t[i] <= 90) ==> Lower(t)[i] == t[i]
  {
  }

  /** The texts agree before a place and the first one is smaller there. */
  predicate SmallerAt(a: Text, b: Text, k: nat) {
    k < |a| && k < |b| && a[..k] == b[..k] && a[k] < b[k]
  }

  ghost predicate Smaller(a: Text, b: Text) {
    exists k: nat :: SmallerAt(a, b, k)
  }

  /** The order of texts: a beginning comes first, and otherwise the first place that differs decides. */
  lemma {:induction false} LexMeans(a: Text, b: Text)
    ensures LexLe(a, b) <==> a <= b || Smaller(a, b)
  {
    if a != [] && b != [] {
      if a[0] == b[0] {
        LexMeans(a[1..], b[1..]);
        assert a == [a[0]] + a[1..] && b == [b[0]] + b[1..];
        assert a <= b <==> a[1..] <= b[1..];
        SmallerTail(a, b);
      } else {
        assert a[0] < b[0] ==> SmallerAt(a, b, 0);
        FirstDecides(a, b);
      }
    }
  }

  lemma FirstDecides(a: Text, b: Text)
    requires a != [] && b != []
    ensures Smaller(a, b) ==> a[0] <= b[0]
  {
    forall k: nat | SmallerAt(a, b, k) ensures a[0] <= b[0] {
      assert k > 0 ==> a[0] == a[..k][0] && b[0] == b[..k][0];
    }
  }

  lemma SmallerTail(a: Text, b: Text)
    requires a != [] && b != [] && a[0] == b[0]
    ensures Smaller(a, b) <==> Smaller(a[1..], b[1..])
  {
    if k: nat :| SmallerAt(a, b, k) {
      assert a[1..][..k - 1] == a[..k][1..] && b[1..][..k - 1] == b[..k][1..];
      assert SmallerAt(a[1..], b[1..], k - 1);
    }
    if k: nat :| SmallerAt(a[1..], b[1..], k) {
      assert a[..k + 1] == [a[0]] + a[1..][..k] && b[..k + 1] == [b[0]] + b[1..][..k];
      assert SmallerAt(a, b, k + 1);
    }
  }
}
