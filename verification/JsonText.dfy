/** String literals of JSON as `json.dumps` writes and `json.loads` reads them. */
module JsonText {
  import opened Texts

  const QUOTE: Code := 34
  const BACKSLASH: Code := 92
  const SOLIDUS: Code := 47
  const SPACE: Code := 32
  const TILDE: Code := 126

  const BACKSPACE: Code := 8
  const TAB: Code := 9
  const LINE_FEED: Code := 10
  const FORM_FEED: Code := 12
  const CARRIAGE_RETURN: Code := 13

  const LETTER_B: Code := 98
  const LETTER_F: Code := 102
  const LETTER_N: Code := 110
  const LETTER_R: Code := 114
  const LETTER_T: Code := 116
  const LETTER_U: Code := 117

  datatype Parsed<+T> = Fail | Done(value: T, rest: Text)

  function HexDigit(d: int): Code
    requires 0 <= d < 16
  {
    if d < 10 then 48 + d else 87 + d
  }

  function HexValue(c: Code): Option<int> {
    if 48 <= c <= 57 then Some(c - 48)
    else if 97 <= c <= 102 then Some(c - 87)
    else if 65 <= c <= 70 then Some(c - 55)
    else None
  }

  /** `\uXXXX`, in lower-case hexadecimal. */
  function UnicodeEscape(n: int): (r: Text)
    requires 0 <= n < 0x1_0000
    ensures |r| == 6
  {
    [BACKSLASH, LETTER_U, HexDigit(n / 4096), HexDigit(n / 256 % 16), HexDigit(n / 16 % 16), HexDigit(n % 16)]
  }

  /** One code point inside a string literal; `ascii` is `ensure_ascii`. */
  function Escape(c: Code, ascii: bool): (r: Text)
    ensures |r| > 0
  {
    if c == QUOTE then [BACKSLASH, QUOTE]
    else if c == BACKSLASH then [BACKSLASH, BACKSLASH]
    else if c == LINE_FEED then [BACKSLASH, LETTER_N]
    else if c == CARRIAGE_RETURN then [BACKSLASH, LETTER_R]
    else if c == TAB then [BACKSLASH, LETTER_T]
    else if c == FORM_FEED then [BACKSLASH, LETTER_F]
    else if c == BACKSPACE then [BACKSLASH, LETTER_B]
    else if c < SPACE then UnicodeEscape(c)
    else if !ascii || c <= TILDE then [c]
    else if c < 0x1_0000 then UnicodeEscape(c)
    else UnicodeEscape(HighOf(c)) + UnicodeEscape(LowOf(c))
  }

  /** The surrogates a code point beyond the basic plane is written with. */
  function HighOf(c: int): (r: int)
    requires 0x1_0000 <= c < 0x11_0000
    ensures IsHigh(r)
  {
    0xD800 + (c - 0x1_0000) / 1024
  }

  function LowOf(c: int): (r: int)
    requires 0x1_0000 <= c < 0x11_0000
    ensures IsLow(r)
  {
    0xDC00 + (c - 0x1_0000) % 1024
  }

  function Combine(high: int, low: int): (r: int)
    requires IsHigh(high) && IsLow(low)
    ensures 0x1_0000 <= r < 0x11_0000
  {
    0x1_0000 + (high - 0xD800) * 1024 + (low - 0xDC00)
  }

  function Escapes(t: Text, ascii: bool): Text {
    if t == [] then [] else Escape(t[0], ascii) + Escapes(t[1..], ascii)
  }

  function Quote(t: Text, ascii: bool): Text {
    [QUOTE] + Escapes(t, ascii) + [QUOTE]
  }

  /** Four hexadecimal digits, of either case. */
  function Hex4(s: Text): (r: Option<int>)
    ensures r.Some? ==> |s| >= 4 && 0 <= r.value < 0x1_0000
  {
    if |s| < 4 then None else
      match (HexValue(s[0]), HexValue(s[1]), HexValue(s[2]), HexValue(s[3]))
      case (Some(a), Some(b), Some(c), Some(d)) =>
        if 0 <= a < 16 && 0 <= b < 16 && 0 <= c < 16 && 0 <= d < 16
        then Some(a * 4096 + b * 256 + c * 16 + d) else None
      case _ => None
  }

  /** The escapes of one letter, the optional `\/` among them. */
  function Unescape(c: Code): Option<Code> {
    if c == QUOTE || c == BACKSLASH || c == SOLIDUS then Some(c)
    else if c == LETTER_B then Some(BACKSPACE)
    else if c == LETTER_F then Some(FORM_FEED)
    else if c == LETTER_N then Some(LINE_FEED)
    else if c == LETTER_R then Some(CARRIAGE_RETURN)
    else if c == LETTER_T then Some(TAB)
    else None
  }

  function Push(c: Code, p: Parsed<Text>): Parsed<Text> {
    if p.Done? then Done([c] + p.value, p.rest) else Fail
  }

  predicate LowEscapeNext(s: Text) {
    |s| >= 6 && s[0] == BACKSLASH && s[1] == LETTER_U && Hex4(s[2..]).Some? && IsLow(Hex4(s[2..]).value)
  }

  /** Read up to the closing quote, joining the two escapes of a surrogate pair. */
  function ReadBody(s: Text): (r: Parsed<Text>)
    ensures r.Done? ==> |r.rest| < |s|
  {
    if s == [] then Fail
    else if s[0] == QUOTE then Done([], s[1..])
    else if s[0] == BACKSLASH then
      if |s| < 2 then Fail
      else if s[1] == LETTER_U then
        match Hex4(s[2..])
        case None => Fail
        case Some(h) =>
          if IsHigh(h) && LowEscapeNext(s[6..]) then
            Push(Combine(h, Hex4(s[8..]).value), ReadBody(s[12..]))
          else Push(h, ReadBody(s[6..]))
      else
        match Unescape(s[1])
        case None => Fail
        case Some(c) => Push(c, ReadBody(s[2..]))
    else if s[0] < SPACE then Fail
    else Push(s[0], ReadBody(s[1..]))
  }

  /** What reading leaves of a text: adjacent surrogates become the code point they encode. */
  function Join(t: Text): Text {
    if t == [] then []
    else if |t| >= 2 && IsHigh(t[0]) && IsLow(t[1]) then [Combine(t[0], t[1])] + Join(t[2..])
    else [t[0]] + Join(t[1..])
  }

  /** No high surrogate stands right before a low one. */
  predicate Unsplit(t: Text) {
    forall i | 0 <= i < |t| - 1 :: !(IsHigh(t[i]) && IsLow(t[i + 1]))
  }

  lemma {:induction false} JoinLength(t: Text)
    ensures |Join(t)| <= |t|
  {
    if t != [] {
      JoinLength(t[1..]);
      if |t| >= 2 {
        JoinLength(t[2..]);
      }
    }
  }

  lemma {:induction false} JoinUnsplit(t: Text)
    ensures Unsplit(Join(t))
    ensures t != [] ==> Join(t) != [] && (Join(t)[0] == t[0] || !(IsLow(Join(t)[0])))
  {
    if t != [] {
      var pair := |t| >= 2 && IsHigh(t[0]) && IsLow(t[1]);
      var rest := if pair then t[2..] else t[1..];
      JoinUnsplit(rest);
      assert Join(t) == [if pair then Combine(t[0], t[1]) else t[0]] + Join(rest);
      forall i | 0 <= i < |Join(t)| - 1 ensures !(IsHigh(Join(t)[i]) && IsLow(Join(t)[i + 1])) {
        if i > 0 {
          assert Join(t)[i] == Join(rest)[i - 1] && Join(t)[i + 1] == Join(rest)[i];
        }
      }
    }
  }

  /** The ASCII style writes a text and its joined form alike. */
  lemma {:induction false} EscapesJoin(t: Text)
    ensures Escapes(Join(t), true) == Escapes(t, true)
    decreases |t|
  {
    hide Escape, Escapes, UnicodeEscape;
    if t != [] {
      EscapesFirst(t);
      if |t| >= 2 && IsHigh(t[0]) && IsLow(t[1]) {
        EscapesJoin(t[2..]);
        EscapePair(t[0], t[1]);
        EscapesFirst(t[1..]);
        assert Join(t) == [Combine(t[0], t[1])] + Join(t[2..]) && t[1..][1..] == t[2..];
      } else {
        EscapesJoin(t[1..]);
        assert Join(t) == [t[0]] + Join(t[1..]);
      }
      EscapesFirst(Join(t));
    }
  }

  lemma EscapesFirst(t: Text)
    requires t != []
    ensures Escapes(t, true) == Escape(t[0], true) + Escapes(t[1..], true)
  {
    hide Escape;
  }

  lemma EscapePair(high: Code, low: Code)
    requires IsHigh(high) && IsLow(low)
    ensures Escape(Combine(high, low), true) == Escape(high, true) + Escape(low, true)
  {
    hide UnicodeEscape;
    var c := Combine(high, low);
    assert HighOf(c) == high && LowOf(c) == low;
  }

  /** Joining changes exactly the texts that hold a split pair. */
  lemma {:induction false} JoinIdentity(t: Text)
    ensures Join(t) == t <==> Unsplit(t)
  {
    if t != [] {
      if |t| >= 2 && IsHigh(t[0]) && IsLow(t[1]) {
        JoinLength(t[2..]);
        assert !Unsplit(t);
      } else {
        JoinIdentity(t[1..]);
        assert t == [t[0]] + t[1..];
        assert Unsplit(t) <==> Unsplit(t[1..]) by {
          forall i | 0 <= i < |t| - 1 && Unsplit(t[1..]) ensures !(IsHigh(t[i]) && IsLow(t[i + 1])) {
            if i > 0 {
              assert t[i] == t[1..][i - 1] && t[i + 1] == t[1..][i];
            }
          }
          forall i | 0 <= i < |t[1..]| - 1 && Unsplit(t) ensures !(IsHigh(t[1..][i]) && IsLow(t[1..][i + 1])) {
            assert t[i + 1] == t[1..][i] && t[i + 2] == t[1..][i + 1];
          }
        }
        assert Join(t)[1..] == Join(t[1..]);
      }
    }
  }

  lemma HexRoundTrip(d: int)
    requires 0 <= d < 16
    ensures HexValue(HexDigit(d)) == Some(d)
  {
  }

  lemma HexPlaces(n: int)
    requires 0 <= n < 0x1_0000
    ensures n / 4096 * 4096 + n / 256 % 16 * 256 + n / 16 % 16 * 16 + n % 16 == n
  {
    var a, b := n / 16, n / 256;
    assert b == a / 16 && n / 4096 == b / 16;
  }

  lemma Hex4OfEscape(n: int, s: Text)
    requires 0 <= n < 0x1_0000
    ensures Hex4((UnicodeEscape(n) + s)[2..]) == Some(n)
  {
    var u := (UnicodeEscape(n) + s)[2..];
    var a, b, c, d := n / 4096, n / 256 % 16, n / 16 % 16, n % 16;
    assert u[0] == HexDigit(a) && u[1] == HexDigit(b) && u[2] == HexDigit(c) && u[3] == HexDigit(d);
    HexRoundTrip(a);
    HexRoundTrip(b);
    HexRoundTrip(c);
    HexRoundTrip(d);
    HexPlaces(n);
  }

  lemma ReadUnicode(n: int, s: Text)
    requires 0 <= n < 0x1_0000 && !(IsHigh(n) && LowEscapeNext(s))
    ensures ReadBody(UnicodeEscape(n) + s) == Push(n, ReadBody(s))
  {
    Hex4OfEscape(n, s);
    assert (UnicodeEscape(n) + s)[6..] == s;
  }

  lemma ReadPair(high: int, low: int, s: Text)
    requires IsHigh(high) && IsLow(low)
    ensures ReadBody(UnicodeEscape(high) + UnicodeEscape(low) + s) == Push(Combine(high, low), ReadBody(s))
  {
    var e := UnicodeEscape(low) + s;
    var u := UnicodeEscape(high) + e;
    assert UnicodeEscape(high) + UnicodeEscape(low) + s == u;
    Hex4OfEscape(high, e);
    Hex4OfEscape(low, s);
    assert u[6..] == e && u[8..] == e[2..] && u[12..] == s;
  }

  /** Reading undoes the writing of one code point. */
  lemma ReadEscape(c: Code, ascii: bool, s: Text)
    requires !(ascii && IsHigh(c) && LowEscapeNext(s))
    ensures ReadBody(Escape(c, ascii) + s) == Push(c, ReadBody(s))
  {
    var e := Escape(c, ascii);
    if |e| <= 2 {
      assert (e + s)[|e|..] == s;
    } else if |e| == 6 {
      ReadUnicode(c, s);
    } else {
      assert Combine(HighOf(c), LowOf(c)) == c;
      ReadPair(HighOf(c), LowOf(c), s);
    }
  }

  /** Only a low surrogate is written as an escape that a high one would join with. */
  lemma NextEscape(c: Code, s: Text)
    requires !IsLow(c)
    ensures !LowEscapeNext(Escape(c, true) + s)
  {
    var e := Escape(c, true);
    assert (e + s)[0] == e[0];
    if |e| == 2 {
      assert (e + s)[1] == e[1];
    } else if |e| == 6 {
      Hex4OfEscape(c, s);
    } else if |e| == 12 {
      Hex4OfEscape(HighOf(c), UnicodeEscape(LowOf(c)) + s);
      assert e + s == UnicodeEscape(HighOf(c)) + (UnicodeEscape(LowOf(c)) + s);
    }
  }

  function Literal(t: Text, ascii: bool, rest: Text): (r: Text)
    ensures |r| > 0
  {
    Escapes(t, ascii) + [QUOTE] + rest
  }

  lemma LiteralStep(t: Text, ascii: bool, rest: Text)
    requires t != []
    ensures Literal(t, ascii, rest) == Escape(t[0], ascii) + Literal(t[1..], ascii, rest)
  {
  }

  predicate SplitPair(t: Text) {
    |t| >= 2 && IsHigh(t[0]) && IsLow(t[1])
  }

  lemma ReadPairFirst(t: Text, rest: Text)
    requires SplitPair(t)
    ensures ReadBody(Literal(t, true, rest)) == Push(Combine(t[0], t[1]), ReadBody(Literal(t[2..], true, rest)))
  {
    LiteralStep(t, true, rest);
    LiteralStep(t[1..], true, rest);
    assert t[1..][1..] == t[2..];
    var tail := Literal(t[2..], true, rest);
    assert Literal(t, true, rest) == UnicodeEscape(t[0]) + UnicodeEscape(t[1]) + tail;
    ReadPair(t[0], t[1], tail);
  }

  lemma ReadOneFirst(t: Text, ascii: bool, rest: Text)
    requires t != [] && !(ascii && SplitPair(t))
    ensures ReadBody(Literal(t, ascii, rest)) == Push(t[0], ReadBody(Literal(t[1..], ascii, rest)))
  {
    LiteralStep(t, ascii, rest);
    if ascii && IsHigh(t[0]) {
      if |t| > 1 {
        LiteralStep(t[1..], true, rest);
        NextEscape(t[1], Literal(t[1..][1..], true, rest));
      } else {
        assert Literal(t[1..], true, rest)[0] == QUOTE;
      }
    }
    ReadEscape(t[0], ascii, Literal(t[1..], ascii, rest));
  }

  /** Reading a written literal: exact in UTF-8 style, joined in ASCII style. */
  lemma {:induction false} StringRoundTrip(t: Text, ascii: bool, rest: Text)
    ensures ReadBody(Literal(t, ascii, rest)) == Done(if ascii then Join(t) else t, rest)
    decreases |t|
  {
    if t == [] {
      assert Literal(t, ascii, rest)[1..] == rest;
    } else if ascii && SplitPair(t) {
      StringRoundTrip(t[2..], true, rest);
      ReadPairFirst(t, rest);
    } else {
      StringRoundTrip(t[1..], ascii, rest);
      ReadOneFirst(t, ascii, rest);
      assert t == [t[0]] + t[1..];
    }
  }

  /** The ASCII style forgets how a code point beyond the basic plane was spelled. */
  lemma SplitPairCollides()
    ensures Quote([0xD83D, 0xDE00], true) == Quote([0x1_F600], true)
    ensures Quote([0xD83D, 0xDE00], false) != Quote([0x1_F600], false)
  {
    assert [0xD83D, 0xDE00][1..] == [0xDE00];
    assert Escapes([0xDE00], true) == UnicodeEscape(0xDE00) + Escapes([], true);
    assert Escapes([0xD83D, 0xDE00], true) == UnicodeEscape(0xD83D) + UnicodeEscape(0xDE00);
    assert Escapes([0x1_F600], true) == UnicodeEscape(0xD83D) + UnicodeEscape(0xDE00);
    assert Quote([0xD83D, 0xDE00], false)[1] != Quote([0x1_F600], false)[1];
  }

  /** A code point stands for itself unless it is a control, a quote, a backslash or, in the ASCII form, beyond `~`. */
  lemma StandsForItself(c: Code, ascii: bool)
    ensures Escape(c, ascii) == [c] <==> c >= 32 && c != 34 && c != 92 && (ascii ==> c <= 126)
  {
  }

  /** The hexadecimal escapes are in small letters, and a code point beyond the basic plane takes two of them. */
  lemma HexEscapes()
    ensures Escape(31, false) == Lit("\\u001f")
    ensures Escape(0xEBCD, true) == Lit("\\uebcd")
    ensures Escape(0x1_F600, true) == Lit("\\ud83d") + Lit("\\ude00")
  {
    assert UnicodeEscape(31) == Lit("\\u001f");
    assert UnicodeEscape(0xEBCD) == Lit("\\uebcd");
    assert HighOf(0x1_F600) == 0xD83D && LowOf(0x1_F600) == 0xDE00;
    assert UnicodeEscape(0xD83D) == Lit("\\ud83d");
    assert UnicodeEscape(0xDE00) == Lit("\\ude00");
    hide UnicodeEscape, Lit;
  }

  /** A raw control character inside a string refuses it, whatever stands before and behind. */
  lemma {:induction false} ControlRefused(t: Text, c: Code, rest: Text)
    requires c < 32
    ensures ReadBody(Escapes(t, false) + ([c] + rest)) == Fail
  {
    if t == [] {
      assert Escapes(t, false) + ([c] + rest) == [c] + rest;
    } else {
      hide Escape, ReadBody;
      ControlRefused(t[1..], c, rest);
      var tail := Escapes(t[1..], false) + ([c] + rest);
      assert Escapes(t, false) + ([c] + rest) == Escape(t[0], false) + tail;
      ReadEscape(t[0], false, tail);
    }
  }

  /** A solidus may be escaped, though the writer never does; any letter but `bfnrtu` may not. */
  lemma OtherEscapes(c: Code, rest: Text)
    ensures c == 47 ==> ReadBody([92, c] + rest) == Push(47, ReadBody(rest))
    ensures c !in {34, 47, 92, 98, 102, 110, 114, 116, 117} ==> ReadBody([92, c] + rest) == Fail
  {
    assert ([92, c] + rest)[2..] == rest;
  }
}
