/** Canonical JSON as bytes: when it exists, and what it identifies. */
module JsonBytes {
  import opened Texts
  import opened JsonText
  import opened Json
  import opened JsonLaws
  import Utf8

  /** `json.dumps(value, sort_keys=True, separators=(",", ":"), ensure_ascii=False).encode("utf-8")`. */
  function CanonicalJson(d: Doc): Option<Bytes> {
    Utf8.Encode(Dump(d, COMPACT))
  }

  // -------------------------------------------------- ASCII output is plain

  predicate Plain(t: Text) {
    forall i | 0 <= i < |t| :: t[i] == LINE_FEED || SPACE <= t[i] <= TILDE
  }

  lemma {:induction false} EscapesPlain(t: Text)
    ensures Plain(Escapes(t, true))
  {
    if t != [] {
      hide Escape;
      EscapesPlain(t[1..]);
      EscapePlain(t[0]);
    }
  }

  lemma EscapePlain(c: Code)
    ensures Plain(Escape(c, true))
  {
  }

  lemma DigitsPlain(n: int)
    ensures Plain(PrintInt(n))
  {
    var t := PrintInt(n);
    if n < 0 {
      assert forall i | 0 < i < |t| :: t[i] == Decimal(-n)[i - 1];
    }
  }

  lemma PlainConcat(a: Text, b: Text)
    requires Plain(a) && Plain(b)
    ensures Plain(a + b)
  {
  }

  lemma NewLinePlain(st: Style, level: nat)
    ensures Plain(NewLine(st, level)) && Plain(Colon(st)) && Plain([COMMA])
  {
  }

  lemma BracketedPlain(open: Code, body: Text, close: Code, st: Style, level: nat)
    requires Plain([open]) && Plain([close]) && Plain(body)
    ensures Plain([open] + NewLine(st, level + 1) + body + NewLine(st, level) + [close])
  {
    hide Plain;
    NewLinePlain(st, level);
    NewLinePlain(st, level + 1);
    PlainConcat([open], NewLine(st, level + 1));
    PlainConcat([open] + NewLine(st, level + 1), body);
    PlainConcat([open] + NewLine(st, level + 1) + body, NewLine(st, level));
    PlainConcat([open] + NewLine(st, level + 1) + body + NewLine(st, level), [close]);
  }

  lemma {:induction false} PrintPlain(d: Doc, st: Style, level: nat)
    requires st.ascii
    ensures Plain(Print(d, st, level))
    decreases d, 0
  {
    match d
    case Int(n) => DigitsPlain(n);
    case Str(t) => EscapesPlain(t);
    case Arr(items) =>
      hide PrintItems, NewLine;
      if items != [] {
        ItemsPlain(items, st, level + 1);
        BracketedPlain(OPEN_BRACKET, PrintItems(items, st, level + 1), CLOSE_BRACKET, st, level);
      }
    case Obj(ms) =>
      hide PrintMembers, NewLine;
      if ms != [] {
        MembersPlain(ms, st, level + 1);
        BracketedPlain(OPEN_BRACE, PrintMembers(ms, st, level + 1), CLOSE_BRACE, st, level);
      }
    case _ =>
  }

  lemma {:induction false} ItemsPlain(items: seq<Doc>, st: Style, level: nat)
    requires st.ascii && items != []
    ensures Plain(PrintItems(items, st, level))
    decreases items, 1
  {
    hide Print, NewLine, Plain;
    PrintPlain(items[0], st, level);
    var first := Print(items[0], st, level);
    if |items| > 1 {
      ItemsPlain(items[1..], st, level);
      NewLinePlain(st, level);
      PlainConcat([COMMA], NewLine(st, level));
      PlainConcat([COMMA] + NewLine(st, level), PrintItems(items[1..], st, level));
      PlainConcat(first, [COMMA] + NewLine(st, level) + PrintItems(items[1..], st, level));
    } else {
      assert first + [] == first;
    }
  }

  lemma QuotePlain(t: Text)
    ensures Plain(Quote(t, true))
  {
    EscapesPlain(t);
  }

  lemma {:induction false} MembersPlain(ms: seq<Member>, st: Style, level: nat)
    requires st.ascii && ms != []
    ensures Plain(PrintMembers(ms, st, level))
    decreases ms, 1
  {
    hide Print, Quote, NewLine, Colon, Plain;
    var key, value := Quote(ms[0].key, true), Print(ms[0].value, st, level);
    QuotePlain(ms[0].key);
    PrintPlain(ms[0].value, st, level);
    NewLinePlain(st, level);
    PlainConcat(key, Colon(st));
    PlainConcat(key + Colon(st), value);
    var head := key + Colon(st) + value;
    if |ms| > 1 {
      MembersPlain(ms[1..], st, level);
      PlainConcat([COMMA], NewLine(st, level));
      PlainConcat([COMMA] + NewLine(st, level), PrintMembers(ms[1..], st, level));
      PlainConcat(head, [COMMA] + NewLine(st, level) + PrintMembers(ms[1..], st, level));
    } else {
      assert head + [] == head;
    }
  }

  // ------------------------------------------- UTF-8 output and surrogates

  lemma {:induction false} EscapesScalar(t: Text)
    ensures Scalar(Escapes(t, false)) <==> Scalar(t)
  {
    if t != [] {
      EscapesScalar(t[1..]);
      ScalarConcat(Escape(t[0], false), Escapes(t[1..], false));
      ScalarConcat([t[0]], t[1..]);
      assert t == [t[0]] + t[1..];
      EscapeScalar(t[0]);
    }
  }

  lemma EscapeScalar(c: Code)
    ensures Scalar(Escape(c, false)) <==> Scalar([c])
  {
    if IsHigh(c) || IsLow(c) {
      assert Escape(c, false) == [c];
    } else {
      assert [c][0] == c;
    }
  }

  lemma QuoteScalar(t: Text)
    ensures Scalar(Quote(t, false)) <==> Scalar(t)
  {
    EscapesScalar(t);
    ScalarConcat([QUOTE], Escapes(t, false));
    ScalarConcat([QUOTE] + Escapes(t, false), [QUOTE]);
  }

  /** The text has an encoding exactly when every string in the document does. */
  lemma {:induction false} PrintScalar(d: Doc, st: Style, level: nat)
    requires !st.ascii
    ensures Scalar(Print(d, st, level)) <==> AllTexts(d, Scalar)
    decreases d, 0
  {
    match d
    case Int(n) => DigitsPlain(n);
    case Str(t) => QuoteScalar(t);
    case Arr(items) => ArrScalar(items, st, level);
    case Obj(ms) => ObjScalar(ms, st, level);
    case _ =>
  }

  lemma {:induction false} ArrScalar(items: seq<Doc>, st: Style, level: nat)
    requires !st.ascii
    ensures Scalar(Print(Arr(items), st, level)) <==> AllTexts(Arr(items), Scalar)
    decreases items, 2
  {
    if items != [] {
      hide PrintItems, AllTexts, Scalar, NewLine;
      ItemsScalar(items, st, level + 1);
      Bracketed(OPEN_BRACKET, PrintItems(items, st, level + 1), CLOSE_BRACKET, st, level);
    }
  }

  lemma {:induction false} ObjScalar(ms: seq<Member>, st: Style, level: nat)
    requires !st.ascii
    ensures Scalar(Print(Obj(ms), st, level)) <==> AllTexts(Obj(ms), Scalar)
    decreases ms, 2
  {
    if ms != [] {
      hide PrintMembers, AllTexts, Scalar, NewLine;
      MembersScalar(ms, st, level + 1);
      Bracketed(OPEN_BRACE, PrintMembers(ms, st, level + 1), CLOSE_BRACE, st, level);
    }
  }

  lemma Bracketed(open: Code, body: Text, close: Code, st: Style, level: nat)
    requires open < 128 && close < 128
    ensures Scalar([open] + NewLine(st, level + 1) + body + NewLine(st, level) + [close]) <==> Scalar(body)
  {
    var front, back := [open] + NewLine(st, level + 1), NewLine(st, level) + [close];
    assert Scalar(front) && Scalar(back);
    hide Scalar;
    ScalarConcat(front, body + back);
    ScalarConcat(body, back);
    assert [open] + NewLine(st, level + 1) + body + NewLine(st, level) + [close] == front + (body + back);
  }

  lemma {:induction false} ItemsScalar(items: seq<Doc>, st: Style, level: nat)
    requires !st.ascii && items != []
    ensures Scalar(PrintItems(items, st, level)) <==> AllTexts(Arr(items), Scalar)
    decreases items, 1
  {
    hide Print, Scalar, AllTexts;
    var first := Print(items[0], st, level);
    PrintScalar(items[0], st, level);
    ArrTexts(items);
    if |items| > 1 {
      var comma, more := [COMMA] + NewLine(st, level), PrintItems(items[1..], st, level);
      ItemsScalar(items[1..], st, level);
      SeparatorScalar(st, level);
      assert PrintItems(items, st, level) == first + (comma + more);
      ScalarConcat(first, comma + more);
      ScalarConcat(comma, more);
    } else {
      assert PrintItems(items, st, level) == first + [] == first;
    }
  }

  lemma SeparatorScalar(st: Style, level: nat)
    ensures Scalar([COMMA] + NewLine(st, level)) && Scalar(Colon(st))
  {
    hide NewLine;
    NewLineScalar(st, level);
  }

  lemma NewLineScalar(st: Style, level: nat)
    ensures Scalar(NewLine(st, level))
  {
    if st.indent.Some? {
      var n := st.indent.value * level;
      assert Scalar([LINE_FEED] + seq(n, _ => SPACE));
    }
  }

  lemma ArrTexts(items: seq<Doc>)
    requires items != []
    ensures AllTexts(Arr(items), Scalar)
      <==> AllTexts(items[0], Scalar) && (|items| > 1 ==> AllTexts(Arr(items[1..]), Scalar))
  {
    if AllTexts(items[0], Scalar) && (|items| > 1 ==> AllTexts(Arr(items[1..]), Scalar)) {
      forall i | 0 <= i < |items| ensures AllTexts(items[i], Scalar) {
        if i > 0 {
          assert items[i] == items[1..][i - 1];
        }
      }
    }
  }

  lemma ObjTexts(ms: seq<Member>)
    requires ms != []
    ensures AllTexts(Obj(ms), Scalar)
      <==> Scalar(ms[0].key) && AllTexts(ms[0].value, Scalar) && (|ms| > 1 ==> AllTexts(Obj(ms[1..]), Scalar))
  {
    if Scalar(ms[0].key) && AllTexts(ms[0].value, Scalar) && (|ms| > 1 ==> AllTexts(Obj(ms[1..]), Scalar)) {
      forall i | 0 <= i < |ms| ensures Scalar(ms[i].key) && AllTexts(ms[i].value, Scalar) {
        if i > 0 {
          assert ms[i] == ms[1..][i - 1];
        }
      }
    }
  }

  lemma {:induction false} MembersScalar(ms: seq<Member>, st: Style, level: nat)
    requires !st.ascii && ms != []
    ensures Scalar(PrintMembers(ms, st, level)) <==> AllTexts(Obj(ms), Scalar)
    decreases ms, 1
  {
    hide Print, Scalar, AllTexts, Quote, Colon;
    var key, value := Quote(ms[0].key, false), Print(ms[0].value, st, level);
    QuoteScalar(ms[0].key);
    PrintScalar(ms[0].value, st, level);
    ObjTexts(ms);
    SeparatorScalar(st, level);
    ScalarConcat(key, Colon(st));
    ScalarConcat(key + Colon(st), value);
    var head := key + Colon(st) + value;
    if |ms| > 1 {
      var comma, more := [COMMA] + NewLine(st, level), PrintMembers(ms[1..], st, level);
      MembersScalar(ms[1..], st, level);
      assert PrintMembers(ms, st, level) == head + (comma + more);
      ScalarConcat(head, comma + more);
      ScalarConcat(comma, more);
    } else {
      assert PrintMembers(ms, st, level) == head + [] == head;
    }
  }

  lemma {:induction false} CanonTexts(d: Doc)
    requires WellFormed(d)
    ensures AllTexts(Canon(d), Scalar) <==> AllTexts(d, Scalar)
  {
    match d
    case Arr(items) =>
      forall i | 0 <= i < |items| ensures AllTexts(Canon(items[i]), Scalar) <==> AllTexts(items[i], Scalar) {
        CanonTexts(items[i]);
      }
      if AllTexts(Canon(d), Scalar) {
        forall i | 0 <= i < |items| ensures AllTexts(items[i], Scalar) {
          assert Canon(d).items[i] == Canon(items[i]);
        }
      }
    case Obj(ms) =>
      forall i | 0 <= i < |ms| ensures AllTexts(Canon(ms[i].value), Scalar) <==> AllTexts(ms[i].value, Scalar) {
        CanonTexts(ms[i].value);
      }
      CanonMembers(ms);
      PermutedTexts(Canon(d).members, ms);
    case _ =>
  }

  lemma PermutedTexts(c: seq<Member>, ms: seq<Member>)
    requires multiset(c) == multiset(Entries(ms))
    requires forall i | 0 <= i < |ms| :: AllTexts(Canon(ms[i].value), Scalar) <==> AllTexts(ms[i].value, Scalar)
    ensures AllTexts(Obj(c), Scalar) <==> AllTexts(Obj(ms), Scalar)
  {
    hide Canon;
    forall j | 0 <= j < |c| && AllTexts(Obj(ms), Scalar) ensures Scalar(c[j].key) && AllTexts(c[j].value, Scalar) {
      assert c[j] in multiset(Entries(ms));
      var i :| 0 <= i < |ms| && Entries(ms)[i] == c[j];
    }
    forall i | 0 <= i < |ms| && AllTexts(Obj(c), Scalar)
      ensures Scalar(ms[i].key) && AllTexts(ms[i].value, Scalar)
    {
      assert Entries(ms)[i] in multiset(c);
      var j :| 0 <= j < |c| && c[j] == Entries(ms)[i];
    }
  }

  /** Canonical bytes exist exactly for the documents without surrogates. */
  lemma CanonicalDefined(d: Doc)
    requires WellFormed(d)
    ensures CanonicalJson(d).Some? <==> AllTexts(d, Scalar)
  {
    CanonTexts(d);
    PrintScalar(Canon(d), COMPACT, 0);
  }

  /** Two documents have the same canonical bytes exactly when they are equal up to member order. */
  lemma CanonicalIdentifies(a: Doc, b: Doc)
    requires WellFormed(a) && WellFormed(b) && CanonicalJson(a).Some?
    ensures CanonicalJson(a) == CanonicalJson(b) <==> Same(a, b)
  {
    hide Dump, Utf8.EncodeScalar, Same;
    Utf8.EncodeInjective(Dump(a, COMPACT), Dump(b, COMPACT));
    DumpIdentifies(a, b, COMPACT);
  }
}
