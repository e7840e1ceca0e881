/** Base64 in the standard and the URL alphabet, and `binascii.a2b_base64`. */
module Base64 {
  import opened Texts

  const PAD: Code := 61

  /** Tables 1 and 2 of RFC 4648. */
  function Digit(d: int, url: bool): Code
    requires 0 <= d < 64
  {
    if d < 26 then 65 + d
    else if d < 52 then 71 + d
    else if d < 62 then d - 4
    else if d == 62 then (if url then 45 else 43)
    else if url then 95 else 47
  }

  /** The decoding table; the URL decoder accepts both alphabets. */
  function Value(c: Code, url: bool): (r: Option<int>)
    ensures r.Some? ==> 0 <= r.value < 64
  {
    if 65 <= c <= 90 then Some(c - 65)
    else if 97 <= c <= 122 then Some(c - 71)
    else if 48 <= c <= 57 then Some(c + 4)
    else if c == 43 || (url && c == 45) then Some(62)
    else if c == 47 || (url && c == 95) then Some(63)
    else None
  }

  function Encode(b: Bytes, url: bool): Text {
    if b == [] then []
    else if |b| == 1 then [Digit(b[0] / 4, url), Digit(b[0] % 4 * 16, url), PAD, PAD]
    else if |b| == 2 then
      [Digit(b[0] / 4, url), Digit(b[0] % 4 * 16 + b[1] / 16, url), Digit(b[1] % 16 * 4, url), PAD]
    else Quad(b[0], b[1], b[2], url) + Encode(b[3..], url)
  }

  function Quad(x: Byte, y: Byte, z: Byte, url: bool): (r: Text)
    ensures |r| == 4
  {
    [Digit(x / 4, url), Digit(x % 4 * 16 + y / 16, url), Digit(y % 16 * 4 + z / 64, url), Digit(z % 64, url)]
  }

  function Prepend(b: Byte, r: Option<Bytes>): Option<Bytes> {
    if r.Some? then Some([b] + r.value) else None
  }

  /** The decoder's state: position in the quad, bits left over, pads seen since the last digit, any pad seen. */
  datatype State = State(quad: int, left: int, pads: nat, padded: bool) {
    predicate Valid() {
      0 <= quad < 4 && 0 <= left < (if quad == 1 then 64 else if quad == 2 then 16 else if quad == 3 then 4 else 1)
    }
  }

  const START := State(0, 0, 0, false)

  function Digested(st: State, d: int): (r: State)
    requires st.Valid() && 0 <= d < 64
    ensures r.Valid()
  {
    match st.quad
    case 0 => State(1, d, 0, st.padded)
    case 1 => State(2, d % 16, 0, st.padded)
    case 2 => State(3, d % 4, 0, st.padded)
    case _ => State(0, 0, 0, st.padded)
  }

  /** The byte a digit completes, when it completes one. */
  function Completed(st: State, d: int): Byte
    requires st.Valid() && 0 <= d < 64
  {
    match st.quad
    case 1 => st.left * 4 + d / 16
    case 2 => st.left * 16 + d / 4
    case _ => if st.quad == 3 then st.left * 64 + d else 0
  }

  /** `a2b_base64`; `strict` is `strict_mode`, otherwise characters outside the alphabet are skipped. */
  function Scan(s: Text, url: bool, strict: bool, st: State): Option<Bytes>
    requires st.Valid()
  {
    if s == [] then (if st.quad == 0 then Some([]) else None)
    else if s[0] == PAD then
      if st.quad >= 2 && st.quad + st.pads + 1 >= 4 then
        (if strict && |s| > 1 then None else Some([]))
      else Scan(s[1..], url, strict, st.(pads := if st.quad >= 2 then st.pads + 1 else st.pads, padded := true))
    else
      match Value(s[0], url)
      case None => if strict then None else Scan(s[1..], url, strict, st)
      case Some(d) =>
        if strict && st.padded then None
        else
          var rest := Scan(s[1..], url, strict, Digested(st, d));
          if st.quad == 0 then rest else Prepend(Completed(st, d), rest)
  }

  predicate IsAscii(s: Text) {
    forall i | 0 <= i < |s| :: s[i] < 128
  }

  /** A `str` outside ASCII raises before the scan starts. */
  function Decode(s: Text, url: bool, strict: bool): Option<Bytes> {
    if !IsAscii(s) then None
    else if strict && s != [] && s[0] == PAD then None else Scan(s, url, strict, START)
  }

  lemma DigitValue(d: int, url: bool)
    requires 0 <= d < 64
    ensures Value(Digit(d, url), url) == Some(d) && Digit(d, url) != PAD
  {
  }

  lemma ScanDigit(d: int, rest: Text, url: bool, strict: bool, st: State)
    requires 0 <= d < 64 && st.Valid() && !st.padded
    ensures Scan([Digit(d, url)] + rest, url, strict, st)
      == var tail := Scan(rest, url, strict, Digested(st, d));
         if st.quad == 0 then tail else Prepend(Completed(st, d), tail)
  {
    DigitValue(d, url);
    assert ([Digit(d, url)] + rest)[1..] == rest;
  }

  /** The bits of three bytes, regrouped by six and back. */
  lemma Regroup(x: Byte, y: Byte, z: Byte)
    ensures var b, c, d := x % 4 * 16 + y / 16, y % 16 * 4 + z / 64, z % 64;
      && 0 <= x / 4 < 64 && 0 <= b < 64 && 0 <= c < 64 && 0 <= d < 64
      && x / 4 * 4 + b / 16 == x
      && b % 16 * 16 + c / 4 == y
      && c % 4 * 64 + d == z
  {
  }

  lemma ScanQuad(x: Byte, y: Byte, z: Byte, rest: Text, url: bool, strict: bool)
    ensures Scan(Quad(x, y, z, url) + rest, url, strict, START)
         == Prepend(x, Prepend(y, Prepend(z, Scan(rest, url, strict, START))))
  {
    hide Scan, Digit;
    var a, b, c, d := x / 4, x % 4 * 16 + y / 16, y % 16 * 4 + z / 64, z % 64;
    Regroup(x, y, z);
    var r3 := [Digit(d, url)] + rest;
    var r2 := [Digit(c, url)] + r3;
    var r1 := [Digit(b, url)] + r2;
    assert Quad(x, y, z, url) + rest == [Digit(a, url)] + r1;
    ScanDigit(a, r1, url, strict, START);
    ScanDigit(b, r2, url, strict, State(1, a, 0, false));
    ScanDigit(c, r3, url, strict, State(2, b % 16, 0, false));
    ScanDigit(d, rest, url, strict, State(3, c % 4, 0, false));
  }

  lemma ScanOne(x: Byte, url: bool, strict: bool)
    ensures Scan(Encode([x], url), url, strict, START) == Some([x])
  {
    hide Scan, Digit;
    var tail := [Digit(x % 4 * 16, url)] + [PAD, PAD];
    assert Encode([x], url) == [Digit(x / 4, url)] + tail;
    Regroup(x, 0, 0);
    ScanDigit(x / 4, tail, url, strict, START);
    ScanDigit(x % 4 * 16, [PAD, PAD], url, strict, State(1, x / 4, 0, false));
    ScanPads(url, strict, 0);
    assert [x] + [] == [x];
  }

  lemma ScanTwo(x: Byte, y: Byte, url: bool, strict: bool)
    ensures Scan(Encode([x, y], url), url, strict, START) == Some([x, y])
  {
    hide Scan, Digit;
    Regroup(x, y, 0);
    var b := x % 4 * 16 + y / 16;
    var r2 := [Digit(y % 16 * 4, url)] + [PAD];
    var r1 := [Digit(b, url)] + r2;
    assert Encode([x, y], url) == [Digit(x / 4, url)] + r1;
    ScanDigit(x / 4, r1, url, strict, START);
    ScanDigit(b, r2, url, strict, State(1, x / 4, 0, false));
    ScanDigit(y % 16 * 4, [PAD], url, strict, State(2, b % 16, 0, false));
    ScanPads(url, strict, 0);
    assert [x] + ([y] + []) == [x, y];
  }

  lemma ScanPads(url: bool, strict: bool, left: int)
    requires 0 <= left < 4
    ensures Scan([PAD], url, strict, State(3, left, 0, false)) == Some([])
    ensures Scan([PAD, PAD], url, strict, State(2, left, 0, false)) == Some([])
  {
    assert [PAD, PAD][1..] == [PAD];
  }

  /** Decoding undoes encoding, in either alphabet and either mode. */
  lemma {:induction false} ScanEncode(b: Bytes, url: bool, strict: bool)
    ensures Scan(Encode(b, url), url, strict, START) == Some(b)
  {
    if b == [] {
    } else if |b| == 1 {
      assert b == [b[0]];
      ScanOne(b[0], url, strict);
    } else if |b| == 2 {
      assert b == [b[0], b[1]];
      ScanTwo(b[0], b[1], url, strict);
    } else {
      hide Scan, Quad;
      ScanEncode(b[3..], url, strict);
      ScanQuad(b[0], b[1], b[2], Encode(b[3..], url), url, strict);
      assert b == [b[0]] + ([b[1]] + ([b[2]] + b[3..]));
    }
  }

  lemma {:induction false} EncodeAscii(b: Bytes, url: bool)
    ensures IsAscii(Encode(b, url))
  {
    if |b| >= 3 {
      EncodeAscii(b[3..], url);
    }
  }

  lemma RoundTrip(b: Bytes, url: bool, strict: bool)
    ensures Decode(Encode(b, url), url, strict) == Some(b)
  {
    EncodeAscii(b, url);
    ScanEncode(b, url, strict);
    if b != [] {
      DigitValue(b[0] / 4, url);
    }
  }

  // ------------------------------------------------------------- padding

  /** `rstrip("=")`. */
  function Strip(s: Text): Text {
    if s != [] && s[|s| - 1] == PAD then Strip(s[..|s| - 1]) else s
  }

  /** `s + "=" * (-len(s) % 4)`. */
  function Repad(s: Text): Text {
    s + seq((4 - |s| % 4) % 4, _ => PAD)
  }

  /** Digits that carry data: eight bits a byte, six bits a digit. */
  function DataDigits(n: nat): nat {
    n / 3 * 4 + (if n % 3 == 0 then 0 else n % 3 + 1)
  }

  /** The first `n` characters are digits and the others pads that fill the last quad. */
  predicate Shaped(s: Text, n: nat) {
    && |s| == n + (4 - n % 4) % 4
    && n % 4 != 1
    && (forall i | 0 <= i < n :: s[i] != PAD)
    && (forall i | n <= i < |s| :: s[i] == PAD)
  }

  lemma ShapedQuad(quad: Text, s: Text, n: nat)
    requires Shaped(s, n) && |quad| == 4 && forall i | 0 <= i < 4 :: quad[i] != PAD
    ensures Shaped(quad + s, n + 4)
  {
  }

  lemma QuadDigits(x: Byte, y: Byte, z: Byte, url: bool)
    ensures forall i | 0 <= i < 4 :: Quad(x, y, z, url)[i] != PAD
  {
    hide Digit;
    Regroup(x, y, z);
    DigitValue(x / 4, url);
    DigitValue(x % 4 * 16 + y / 16, url);
    DigitValue(y % 16 * 4 + z / 64, url);
    DigitValue(z % 64, url);
  }

  /** An encoding is its data digits and the pads that fill the last quad. */
  lemma {:induction false} EncodeShape(b: Bytes, url: bool)
    ensures Shaped(Encode(b, url), DataDigits(|b|))
  {
    hide Digit;
    if |b| >= 3 {
      hide Shaped, Quad;
      EncodeShape(b[3..], url);
      assert DataDigits(|b|) == 4 + DataDigits(|b[3..]|);
      QuadDigits(b[0], b[1], b[2], url);
      ShapedQuad(Quad(b[0], b[1], b[2], url), Encode(b[3..], url), DataDigits(|b[3..]|));
    } else if |b| == 1 {
      DigitValue(b[0] / 4, url);
      DigitValue(b[0] % 4 * 16, url);
    } else if |b| == 2 {
      DigitValue(b[0] / 4, url);
      DigitValue(b[0] % 4 * 16 + b[1] / 16, url);
      DigitValue(b[1] % 16 * 4, url);
    }
  }

  lemma {:induction false} StripTo(s: Text, n: nat)
    requires n <= |s| && (n > 0 ==> s[n - 1] != PAD)
    requires forall i | n <= i < |s| :: s[i] == PAD
    ensures Strip(s) == s[..n]
  {
    if |s| > n {
      StripTo(s[..|s| - 1], n);
      assert s[..|s| - 1][..n] == s[..n];
    } else {
      assert s[..n] == s;
    }
  }

  /** Re-padding restores exactly what was stripped, and no stripped encoding has length 1 mod 4. */
  lemma RepadStrip(b: Bytes, url: bool)
    ensures Repad(Strip(Encode(b, url))) == Encode(b, url)
    ensures |Strip(Encode(b, url))| == DataDigits(|b|)
    ensures |Strip(Encode(b, url))| % 4 != 1
    ensures forall c | c in Strip(Encode(b, url)) :: c != PAD
  {
    var s, n := Encode(b, url), DataDigits(|b|);
    EncodeShape(b, url);
    StripTo(s, n);
    assert s == s[..n] + s[n..];
    assert s[n..] == seq((4 - n % 4) % 4, _ => PAD);
  }

  // ------------------------------------------------------------- published vectors

  /** The vectors of section 10 of RFC 4648, and the two digits in which the alphabets differ. */
  lemma Vectors()
    ensures Encode([], false) == []
    ensures Encode([102], false) == Lit("Zg==")
    ensures Encode([102, 111], false) == Lit("Zm8=")
    ensures Encode([102, 111, 111], false) == Lit("Zm9v")
    ensures Encode([102, 111, 111, 98, 97, 114], false) == Lit("Zm9vYmFy")
    ensures Encode([251, 255, 190], false) == Lit("+/++")
    ensures Encode([251, 255, 190], true) == Lit("-_--")
  {
    assert [102, 111, 111, 98, 97, 114][3..] == [98, 97, 114];
    assert [102, 111, 111][3..] == [] && [98, 97, 114][3..] == [] && [251, 255, 190][3..] == [];
    assert Quad(102, 111, 111, false) == Lit("Zm9v");
    assert Quad(98, 97, 114, false) == Lit("YmFy");
    assert Quad(251, 255, 190, false) == Lit("+/++");
    assert Quad(251, 255, 190, true) == Lit("-_--");
    assert Encode([98, 97, 114], false) == Quad(98, 97, 114, false) + [];
  }

  // ------------------------------------------------------- what strict decoding takes

  /** The digits of the standard alphabet a text starts with. */
  function DigitsOf(s: Text): (n: nat)
    ensures n <= |s|
  {
    if s == [] || Value(s[0], false).None? then 0 else 1 + DigitsOf(s[1..])
  }

  predicate AllPads(s: Text) {
    forall i | 0 <= i < |s| :: s[i] == PAD
  }

  lemma PadsFirst(s: Text)
    requires s != []
    ensures AllPads(s) <==> s[0] == PAD && AllPads(s[1..])
  {
    if s[0] == PAD && AllPads(s[1..]) {
      forall i | 0 <= i < |s| ensures s[i] == PAD {
        assert i > 0 ==> s[i] == s[1..][i - 1];
      }
    }
  }

  /** Once a pad has been seen, only the missing pads may follow, or any number behind whole groups. */
  lemma {:induction false} StrictPads(s: Text, st: State)
    requires st.Valid() && st.padded && (st.quad < 2 ==> st.pads == 0) && (st.quad >= 2 ==> st.quad + st.pads < 4)
    ensures Scan(s, false, true, st).Some?
      <==> AllPads(s) && st.quad != 1 && (st.quad >= 2 ==> |s| == 4 - st.quad - st.pads)
  {
    if s != [] {
      PadsFirst(s);
      if s[0] == PAD && !(st.quad >= 2 && st.quad + st.pads + 1 >= 4) {
        StrictPads(s[1..], st.(pads := if st.quad >= 2 then st.pads + 1 else st.pads, padded := true));
      }
    }
  }

  /** Pads alone, as many as the last group lacks after this many digits; any number behind whole groups. */
  predicate Filled(quad: int, digits: nat, tail: Text) {
    var last := (quad + digits) % 4;
    AllPads(tail) && last != 1 && (last >= 2 ==> |tail| == 4 - last)
  }

  lemma FilledNext(quad: int, digits: nat, tail: Text)
    requires 0 <= quad < 4
    ensures Filled(quad, digits + 1, tail) <==> Filled(if quad == 3 then 0 else quad + 1, digits, tail)
  {
  }

  lemma FilledNow(quad: int, tail: Text)
    requires 0 <= quad < 4
    ensures Filled(quad, 0, tail) <==> AllPads(tail) && quad != 1 && (quad >= 2 ==> |tail| == 4 - quad)
  {
  }

  lemma {:induction false} StrictScan(s: Text, st: State)
    requires st.Valid() && !st.padded && st.pads == 0
    ensures Scan(s, false, true, st).Some? <==> Filled(st.quad, DigitsOf(s), s[DigitsOf(s)..])
  {
    hide Filled, Value;
    FilledNow(st.quad, s);
    if s == [] {
      assert s[0..] == s;
    } else if s[0] == PAD {
      PadsFirst(s);
      PadIsNoDigit();
      assert s[0..] == s;
      if !(st.quad >= 2 && st.quad + 1 >= 4) {
        StrictPads(s[1..], st.(pads := if st.quad >= 2 then 1 else 0, padded := true));
      }
    } else if Value(s[0], false).Some? {
      StrictScan(s[1..], Digested(st, Value(s[0], false).value));
      FilledNext(st.quad, DigitsOf(s[1..]), s[1..][DigitsOf(s[1..])..]);
      assert s[DigitsOf(s)..] == s[1..][DigitsOf(s[1..])..];
    } else {
      PadsFirst(s);
      assert s[0..] == s;
    }
  }

  lemma PadIsNoDigit()
    ensures Value(PAD, false).None?
  {
  }

  /**
   * Strict decoding takes digits followed by the pads that fill the last group, and nothing between or behind
   * them; behind whole groups it takes any number of pads.
   */
  lemma StrictMeans(s: Text)
    ensures Decode(s, false, true).Some?
      <==> (var n := DigitsOf(s);
            && (n == 0 ==> s == []) && AllPads(s[n..])
            && n % 4 != 1 && (n % 4 >= 2 ==> |s| - n == 4 - n % 4))
  {
    hide Scan, Value;
    StrictScan(s, START);
    DigitsAscii(s);
    PadIsNoDigit();
    if s != [] {
      assert s[0..] == s;
      PadsFirst(s);
    }
  }

  lemma {:induction false} DigitsAscii(s: Text)
    ensures AllPads(s[DigitsOf(s)..]) ==> IsAscii(s)
  {
    if s != [] {
      if Value(s[0], false).Some? {
        DigitsAscii(s[1..]);
        assert s[DigitsOf(s)..] == s[1..][DigitsOf(s[1..])..];
        assert s == [s[0]] + s[1..];
      } else {
        assert s[0..] == s;
      }
    }
  }
}
