/** `str.encode("utf-8")` and strict `bytes.decode("utf-8")` (section 3 of RFC 3629). */
module Utf8 {
  import opened Texts

  function EncodeCode(c: Code): (r: Bytes)
    requires !IsHigh(c) && !IsLow(c)
    ensures |r| > 0
  {
    if c < 0x80 then [c]
    else if c < 0x800 then [0xC0 + c / 64, 0x80 + c % 64]
    else if c < 0x1_0000 then [0xE0 + c / 4096, 0x80 + c / 64 % 64, 0x80 + c % 64]
    else [0xF0 + c / 262144, 0x80 + c / 4096 % 64, 0x80 + c / 64 % 64, 0x80 + c % 64]
  }

  function EncodeScalar(t: Text): Bytes
    requires Scalar(t)
  {
    if t == [] then [] else EncodeCode(t[0]) + EncodeScalar(t[1..])
  }

  /** A surrogate raises `UnicodeEncodeError`. */
  function Encode(t: Text): Option<Bytes> {
    if Scalar(t) then Some(EncodeScalar(t)) else None
  }

  predicate IsTail(b: Bytes, i: int) {
    0 <= i < |b| && 0x80 <= b[i] < 0xC0
  }

  function TailBits(b: Bytes, i: int): (r: int)
    requires IsTail(b, i)
    ensures 0 <= r < 64
  {
    b[i] - 0x80
  }

  /** The first code point and the number of bytes it takes; overlong forms and surrogates are refused. */
  function DecodeFirst(b: Bytes): (r: Option<(Code, int)>)
    requires b != []
    ensures r.Some? ==> 0 < r.value.1 <= |b|
  {
    var lead: int := b[0];
    if lead < 0x80 then Some((lead, 1))
    else if 0xC2 <= lead < 0xE0 && IsTail(b, 1) then Some(((lead - 0xC0) * 64 + TailBits(b, 1), 2))
    else if 0xE0 <= lead < 0xF0 && IsTail(b, 1) && IsTail(b, 2) then
      var c := (lead - 0xE0) * 4096 + TailBits(b, 1) * 64 + TailBits(b, 2);
      if c >= 0x800 && !IsHigh(c) && !IsLow(c) then Some((c, 3)) else None
    else if 0xF0 <= lead < 0xF5 && IsTail(b, 1) && IsTail(b, 2) && IsTail(b, 3) then
      var c := (lead - 0xF0) * 262144 + TailBits(b, 1) * 4096 + TailBits(b, 2) * 64 + TailBits(b, 3);
      if 0x1_0000 <= c < 0x11_0000 then Some((c, 4)) else None
    else None
  }

  function Decode(b: Bytes): Option<Text> {
    if b == [] then Some([])
    else
      match DecodeFirst(b)
      case None => None
      case Some((c, n)) =>
        var rest := Decode(b[n..]);
        if rest.Some? then Some([c] + rest.value) else None
  }

  lemma Places(c: int)
    requires 0 <= c < 0x11_0000
    ensures c / 64 * 64 + c % 64 == c
    ensures c / 4096 * 4096 + c / 64 % 64 * 64 + c % 64 == c
    ensures c / 262144 * 262144 + c / 4096 % 64 * 4096 + c / 64 % 64 * 64 + c % 64 == c
  {
    var a, b := c / 64, c / 4096;
    assert b == a / 64 && c / 262144 == b / 64;
  }

  lemma DecodeFirstOfCode(c: Code, rest: Bytes)
    requires !IsHigh(c) && !IsLow(c)
    ensures DecodeFirst(EncodeCode(c) + rest) == Some((c, |EncodeCode(c)|))
  {
    var e := EncodeCode(c);
    var b := e + rest;
    assert forall i | 0 <= i < |e| :: b[i] == e[i];
    Places(c);
  }

  lemma {:induction false} DecodeEncode(t: Text)
    requires Scalar(t)
    ensures Decode(EncodeScalar(t)) == Some(t)
  {
    if t != [] {
      hide DecodeFirst, EncodeCode;
      var rest := EncodeScalar(t[1..]);
      DecodeEncode(t[1..]);
      DecodeFirstOfCode(t[0], rest);
      assert (EncodeCode(t[0]) + rest)[|EncodeCode(t[0])|..] == rest;
      assert t == [t[0]] + t[1..];
    }
  }

  /** Two texts never share an encoding. */
  lemma EncodeInjective(a: Text, b: Text)
    requires Encode(a).Some?
    ensures Encode(a) == Encode(b) <==> a == b
  {
    DecodeEncode(a);
    if Scalar(b) {
      DecodeEncode(b);
    }
  }

  /** The code points of the examples in section 7 of RFC 3629, one for each length. */
  lemma Examples()
    ensures EncodeCode(0x41) == [0x41]
    ensures EncodeCode(0x391) == [0xCE, 0x91]
    ensures EncodeCode(0x2262) == [0xE2, 0x89, 0xA2]
    ensures EncodeCode(0x2_33B4) == [0xF0, 0xA3, 0x8E, 0xB4]
  {
  }

  // ------------------------------------------------- nothing but encodings decodes

  lemma CodeOfDecode(b: Bytes)
    requires b != [] && DecodeFirst(b).Some?
    ensures var (c, n) := DecodeFirst(b).value;
      !IsHigh(c) && !IsLow(c) && b[..n] == EncodeCode(c)
  {
    var (c, n) := DecodeFirst(b).value;
    var lead: int := b[0];
    if n == 2 {
      Digits64(lead - 0xC0, TailBits(b, 1));
    } else if n == 3 {
      Digits64((lead - 0xE0) * 64 + TailBits(b, 1), TailBits(b, 2));
      Digits64(lead - 0xE0, TailBits(b, 1));
      assert c / 4096 == c / 64 / 64;
    } else if n == 4 {
      Digits64(((lead - 0xF0) * 64 + TailBits(b, 1)) * 64 + TailBits(b, 2), TailBits(b, 3));
      Digits64((lead - 0xF0) * 64 + TailBits(b, 1), TailBits(b, 2));
      Digits64(lead - 0xF0, TailBits(b, 1));
      assert c / 4096 == c / 64 / 64 && c / 262144 == c / 4096 / 64;
    }
  }

  lemma Digits64(high: int, low: int)
    requires 0 <= high && 0 <= low < 64
    ensures (high * 64 + low) / 64 == high && (high * 64 + low) % 64 == low
  {
  }

  lemma DecodeStep(b: Bytes)
    requires Decode(b).Some?
    ensures Scalar([]) && EncodeScalar([]) == []
    ensures b == [] ==> Decode(b) == Some([])
    ensures b != [] ==> DecodeFirst(b).Some? && var (c, n) := DecodeFirst(b).value;
      Decode(b[n..]).Some? && Decode(b) == Some([c] + Decode(b[n..]).value)
  {
    hide DecodeFirst;
  }

  lemma CodeConcat(c: Code, rest: Text)
    requires !IsHigh(c) && !IsLow(c) && Scalar(rest)
    ensures Scalar([c] + rest) && EncodeScalar([c] + rest) == EncodeCode(c) + EncodeScalar(rest)
  {
    hide EncodeCode;
    assert ([c] + rest)[1..] == rest;
  }

  lemma {:induction false} EncodeDecode(b: Bytes)
    requires Decode(b).Some?
    ensures Scalar(Decode(b).value) && EncodeScalar(Decode(b).value) == b
  {
    hide Decode, DecodeFirst, EncodeCode, EncodeScalar, Scalar;
    DecodeStep(b);
    if b != [] {
      var (c, n) := DecodeFirst(b).value;
      CodeOfDecode(b);
      EncodeDecode(b[n..]);
      var rest := Decode(b[n..]).value;
      CodeConcat(c, rest);
      assert b == b[..n] + b[n..];
    }
  }

  /** Bytes decode to a text exactly when they are its encoding: no overlong form and no surrogate passes. */
  lemma DecodeMeans(b: Bytes, t: Text)
    ensures Decode(b) == Some(t) <==> Encode(t) == Some(b)
  {
    if Decode(b).Some? {
      EncodeDecode(b);
    }
    if Scalar(t) {
      DecodeEncode(t);
    }
  }
}
