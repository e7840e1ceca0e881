/** The `Base64urlUInt` of a JSON Web Key, and the payload segment of a bearer token. */
module Jwk {
  import opened Texts
  import opened Json
  import opened JsonLaws
  import opened JsonBytes
  import Base64
  import Utf8

  /** `int.bit_length` of a natural number. */
  function BitLength(n: nat): nat {
    if n == 0 then 0 else 1 + BitLength(n / 2)
  }

  function ByteLength(n: nat): nat {
    (BitLength(n) + 7) / 8
  }

  /** `n.to_bytes(length, "big")`; a number that does not fit raises `OverflowError`. */
  function ToBytes(n: nat, length: nat): Option<Bytes> {
    if length == 0 then (if n == 0 then Some([]) else None)
    else
      var high := ToBytes(n / 256, length - 1);
      if high.Some? then Some(high.value + [n % 256]) else None
  }

  /** `int.from_bytes(b, "big")`. */
  function FromBytes(b: Bytes): nat {
    if b == [] then 0 else FromBytes(b[..|b| - 1]) * 256 + b[|b| - 1]
  }

  /** `_b64url_uint`; a negative value raises `OverflowError`. */
  function B64UrlUint(value: int): Option<Text> {
    if value < 0 then None
    else
      var raw := ToBytes(value, ByteLength(value));
      if raw.Some? then Some(Base64.Strip(Base64.Encode(raw.value, true))) else None
  }

  /** The reader's side: pad the text back, decode it, read the number. */
  function ReadB64UrlUint(t: Text): Option<nat> {
    var raw := Base64.Decode(Base64.Repad(t), true, false);
    if raw.Some? then Some(FromBytes(raw.value)) else None
  }

  lemma Halve(n: nat)
    requires n > 0
    ensures BitLength(n) == 1 + BitLength(n / 2)
  {
  }

  lemma EightBits(n: nat)
    ensures n >= 256 ==> BitLength(n) == 8 + BitLength(n / 256)
    ensures 0 < n < 256 ==> 1 <= BitLength(n) <= 8
  {
    hide BitLength;
    var a, b, c, d := n / 2, n / 4, n / 8, n / 16;
    var e, f, g, h := n / 32, n / 64, n / 128, n / 256;
    assert b == a / 2 && c == b / 2 && d == c / 2 && e == d / 2 && f == e / 2 && g == f / 2 && h == g / 2;
    if n > 0 { Halve(n); }
    if a > 0 { Halve(a); }
    if b > 0 { Halve(b); }
    if c > 0 { Halve(c); }
    if d > 0 { Halve(d); }
    if e > 0 { Halve(e); }
    if f > 0 { Halve(f); }
    if g > 0 { Halve(g); }
    assert BitLength(0) == 0 by { NoBits(); }
  }

  lemma NoBits()
    ensures BitLength(0) == 0 && ByteLength(0) == 0
  {
  }

  /** Dropping the low octet drops eight bits. */
  lemma ByteLengthStep(n: nat)
    requires n > 0
    ensures ByteLength(n) == 1 + ByteLength(n / 256)
  {
    EightBits(n);
    NoBits();
  }

  /** The bytes fit, have no leading zero octet, and read back as the number. */
  lemma {:induction false} ToBytesRoundTrip(n: nat)
    ensures var raw := ToBytes(n, ByteLength(n));
      && raw.Some? && FromBytes(raw.value) == n
      && |raw.value| == ByteLength(n)
      && (n > 0 ==> raw.value[0] != 0)
  {
    if n > 0 {
      ByteLengthStep(n);
      ToBytesRoundTrip(n / 256);
      var high, raw := ToBytes(n / 256, ByteLength(n / 256)).value, ToBytes(n, ByteLength(n)).value;
      assert raw == high + [n % 256] && raw[..|raw| - 1] == high;
      if n < 256 {
        assert high == [];
      }
    }
  }

  lemma LastOctet(high: nat, last: nat, n: nat)
    requires last < 256 && n == high * 256 + last
    ensures n / 256 == high && n % 256 == last
  {
  }

  lemma FromBytesStep(b: Bytes)
    ensures FromBytes(b) == if b == [] then 0 else FromBytes(b[..|b| - 1]) * 256 + b[|b| - 1]
  {
  }

  lemma ToBytesStep(n: nat, length: nat)
    ensures n == 0 && length == 0 ==> ToBytes(n, length) == Some([])
    ensures length > 0 && ToBytes(n / 256, length - 1).Some?
      ==> ToBytes(n, length) == Some(ToBytes(n / 256, length - 1).value + [n % 256])
  {
  }

  /** No other byte string without a leading zero octet reads as the number. */
  lemma {:induction false} ToBytesUnique(b: Bytes)
    requires b != [] ==> b[0] != 0
    ensures ToBytes(FromBytes(b), ByteLength(FromBytes(b))) == Some(b)
    ensures b != [] ==> FromBytes(b) > 0
  {
    hide FromBytes, ByteLength, ToBytes;
    FromBytesStep(b);
    NoBits();
    ToBytesStep(FromBytes(b), ByteLength(FromBytes(b)));
    if b != [] {
      var n, high := FromBytes(b), b[..|b| - 1];
      ToBytesUnique(high);
      FromBytesStep(high);
      LastOctet(FromBytes(high), b[|b| - 1], n);
      ByteLengthStep(n);
      assert b == high + [b[|b| - 1]];
    }
  }

  /** Every natural number survives printing, re-padding and decoding. */
  lemma UintRoundTrip(n: nat)
    ensures B64UrlUint(n).Some?
    ensures ReadB64UrlUint(B64UrlUint(n).value) == Some(n)
    ensures Base64.PAD !in B64UrlUint(n).value && |B64UrlUint(n).value| % 4 != 1
  {
    hide Base64.Encode, Base64.Decode, Base64.Strip, Base64.Repad, FromBytes, ToBytes;
    ToBytesRoundTrip(n);
    var raw := ToBytes(n, ByteLength(n)).value;
    Base64.RepadStrip(raw, true);
    Base64.RoundTrip(raw, true, false);
  }

  /** Section 2 of RFC 7518: the fewest octets that hold the number, and one octet for zero. */
  ghost predicate IsBase64UrlUint(t: Text, n: nat) {
    exists b: Bytes :: IsMinimal(b, n) && t == Base64.Strip(Base64.Encode(b, true))
  }

  ghost predicate IsMinimal(b: Bytes, n: nat) {
    |b| >= 1 && FromBytes(b) == n && (|b| > 1 ==> b[0] != 0)
  }

  /** The printed form is the standard's for every number but zero, which prints as the empty text. */
  lemma StandardForm(n: nat)
    ensures B64UrlUint(n).Some? && (IsBase64UrlUint(B64UrlUint(n).value, n) <==> n > 0)
    ensures n == 0 ==> B64UrlUint(n) == Some([])
  {
    ToBytesRoundTrip(n);
    var raw := ToBytes(n, ByteLength(n)).value;
    if n > 0 {
      assert raw != [];
      assert IsMinimal(raw, n);
    } else {
      assert raw == [];
      forall b: Bytes | IsMinimal(b, n) ensures Base64.Strip(Base64.Encode(b, true)) != [] {
        Base64.RepadStrip(b, true);
      }
    }
  }

  // ------------------------------------------------------ bearer token payload

  /** The claims `_describe_token` reads, when it can read any. */
  function Claims(token: Text): Option<Doc> {
    var parts := Split(token, 46);
    if |parts| < 2 then None
    else
      match Base64.Decode(Base64.Repad(parts[1]), true, false)
      case None => None
      case Some(raw) =>
        match Utf8.Decode(raw)
        case None => None
        case Some(text) => Parse(text)
  }

  /** A signing library's segment: base64url without padding. */
  function Segment(raw: Bytes): Text {
    Base64.Strip(Base64.Encode(raw, true))
  }

  lemma {:induction false} DigitsHoldNoDot(b: Bytes, i: int)
    requires 0 <= i < |Base64.Encode(b, true)|
    ensures Base64.Encode(b, true)[i] != 46
  {
    if |b| >= 3 && i >= 4 {
      DigitsHoldNoDot(b[3..], i - 4);
    }
  }

  lemma SegmentHoldsNoDot(raw: Bytes)
    ensures 46 !in Segment(raw)
  {
    hide Base64.Encode, Base64.Strip;
    Base64.EncodeShape(raw, true);
    Base64.StripTo(Base64.Encode(raw, true), Base64.DataDigits(|raw|));
    forall i | 0 <= i < |Segment(raw)| ensures Segment(raw)[i] != 46 {
      DigitsHoldNoDot(raw, i);
    }
  }

  /** Claims printed in any style, encoded and put between two dots are read back whole. */
  lemma ClaimsRoundTrip(header: Text, claims: Doc, st: Style, signature: Text)
    requires WellFormed(claims) && Readable(claims, st)
    requires st.ascii || AllTexts(claims, Scalar)
    requires 46 !in header
    ensures var text := Print(claims, st, 0);
      && Utf8.Encode(text).Some?
      && Claims(header + [46] + (Segment(Utf8.Encode(text).value) + [46] + signature)) == Some(claims)
  {
    hide Base64.Encode, Base64.Decode, Base64.Strip, Base64.Repad, Utf8.Decode, Utf8.EncodeScalar, Split,
      Print, Parse, ParseValue, AllTexts;
    var text := Print(claims, st, 0);
    if st.ascii {
      PrintPlain(claims, st, 0);
    } else {
      PrintScalar(claims, st, 0);
    }
    assert Scalar(text);
    var raw := Utf8.Encode(text).value;
    Utf8.DecodeEncode(text);
    Base64.RepadStrip(raw, true);
    Base64.RoundTrip(raw, true, false);
    SegmentHoldsNoDot(raw);
    SplitFirst(header, 46, Segment(raw) + [46] + signature);
    SplitFirst(Segment(raw), 46, signature);
    ParsePrint(claims, st);
  }

  lemma ParsePrint(d: Doc, st: Style)
    requires WellFormed(d) && Readable(d, st)
    ensures Parse(Print(d, st, 0)) == Some(d)
  {
    hide ParseValue, Print;
    ValueRoundTrip(d, st, 0, []);
    var s := Print(d, st, 0);
    assert s + [] == s && [] + s == s;
    SkipBlankRun([], s);
  }

  /** The exponent every key carries, as in appendix A.1 of RFC 7517. */
  lemma PublicExponent()
    ensures B64UrlUint(65537) == Some(Lit("AQAB"))
  {
    hide ByteLength, BitLength, ToBytes, Base64.Strip;
    NoBits();
    ByteLengthStep(65537);
    ByteLengthStep(256);
    ByteLengthStep(1);
    assert 65537 / 256 == 256 && 256 / 256 == 1 && 1 / 256 == 0;
    assert ByteLength(65537) == 3;
    assert [] + [1] == [1] && [1] + [0] == [1, 0] && [1, 0] + [1] == [1, 0, 1];
    ToBytesStep(0, 0);
    ToBytesStep(1, 1);
    assert ToBytes(1, 1) == Some([1]);
    ToBytesStep(256, 2);
    assert ToBytes(256, 2) == Some([1, 0]);
    ToBytesStep(65537, 3);
    assert ToBytes(65537, 3) == Some([1, 0, 1]);
    assert Base64.Encode([1, 0, 1], true) == Lit("AQAB") by {
      assert [1, 0, 1][3..] == [];
      assert Base64.Quad(1, 0, 1, true) == Lit("AQAB");
    }
    assert Lit("AQAB")[3] == 66 && Lit("AQAB")[..4] == Lit("AQAB");
    Base64.StripTo(Lit("AQAB"), 4);
    assert Base64.Strip(Lit("AQAB")) == Lit("AQAB");
  }
}
