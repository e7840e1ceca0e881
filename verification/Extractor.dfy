/** The brace-depth scanner that reads a tool result back out of a prompt. */
module Extractor {
  import opened Texts
  import opened JsonText
  import opened Json
  import opened JsonLaws
  import Jwk

  const MARKER := Lit("tool: tests.execute")
  const RESULT := Lit("result:")

  /** `str.find`. */
  function Find(t: Text, needle: Text): (r: Option<nat>)
    ensures r.Some? ==> r.value <= |t| && needle <= t[r.value..]
  {
    if needle <= t then Some(0)
    else if t == [] then None
    else
      match Find(t[1..], needle)
      case None => None
      case Some(i) => Some(i + 1)
  }

  /** Opening braces less closing ones, wherever they stand. */
  function Depth(t: Text): int {
    if t == [] then 0
    else Depth(t[..|t| - 1]) + (if t[|t| - 1] == OPEN_BRACE then 1 else if t[|t| - 1] == CLOSE_BRACE then -1 else 0)
  }

  /** The first prefix, not empty, whose braces balance. */
  predicate ShortestBalanced(t: Text, k: nat) {
    0 < k <= |t| && Depth(t[..k]) == 0 && forall j | 0 < j < k :: Depth(t[..j]) != 0
  }

  /** Where the loop stops: at the first balanced prefix, or never. */
  predicate Scanned(t: Text, end: Option<nat>) {
    match end
    case Some(k) => ShortestBalanced(t, k)
    case None => forall j | 0 < j <= |t| :: Depth(t[..j]) != 0
  }

  /** The character loop, from the first brace on. */
  method Scan(t: Text) returns (end: Option<nat>)
    ensures Scanned(t, end)
  {
    var depth := 0;
    for i := 0 to |t|
      invariant depth == Depth(t[..i])
      invariant forall j | 0 < j <= i :: Depth(t[..j]) != 0
    {
      assert t[..i + 1][..i] == t[..i];
      if t[i] == OPEN_BRACE {
        depth := depth + 1;
      }
      if t[i] == CLOSE_BRACE {
        depth := depth - 1;
      }
      if depth == 0 {
        return Some(i + 1);
      }
    }
    return None;
  }

  /** The parsed prefix; a prompt without one, or one that does not parse, gives the empty object. */
  function ReadPrefix(t: Text, end: Option<nat>): Doc
    requires end.Some? ==> end.value <= |t|
  {
    match end
    case None => Obj([])
    case Some(k) => match Parse(t[..k]) case None => Obj([]) case Some(d) => d
  }

  /** Where the scan starts: the first brace after the first `result:` after the marker. */
  function ResultBlock(prompt: Text): Option<Text> {
    match Find(prompt, MARKER)
    case None => None
    case Some(i) =>
      match Find(prompt[i..], RESULT)
      case None => None
      case Some(j) =>
        match Find(prompt[i..][j..], [OPEN_BRACE])
        case None => None
        case Some(k) => Some(prompt[i..][j..][k..])
  }

  /** `_extract_run`. */
  method ExtractRun(prompt: Text) returns (run: Doc)
    ensures ResultBlock(prompt).None? ==> run == Obj([])
    ensures ResultBlock(prompt).Some? ==>
      var block := ResultBlock(prompt).value;
      exists end: Option<nat> :: Scanned(block, end) && run == ReadPrefix(block, end)
  {
    match ResultBlock(prompt)
    case None => return Obj([]);
    case Some(block) =>
      var end := Scan(block);
      return ReadPrefix(block, end);
  }

  lemma BalancedUnique(t: Text, j: nat, k: nat)
    requires ShortestBalanced(t, j) && ShortestBalanced(t, k)
    ensures j == k
  {
  }

  // ------------------------------------------------------------ braces and depth

  predicate IsBrace(c: int) {
    c == OPEN_BRACE || c == CLOSE_BRACE
  }

  /** The braces of a text, in order; they alone decide its depth. */
  function Braces(t: Text): Text {
    if t == [] then []
    else Braces(t[..|t| - 1]) + (if IsBrace(t[|t| - 1]) then [t[|t| - 1]] else [])
  }

  /** As many closing braces as opening ones, and never more of them so far. */
  predicate Balanced(t: Text) {
    Depth(t) == 0 && forall k | 0 <= k <= |t| :: Depth(t[..k]) >= 0
  }

  predicate BraceFree(t: Text) {
    forall i | 0 <= i < |t| :: !IsBrace(t[i])
  }

  lemma {:induction false} DepthConcat(a: Text, b: Text)
    ensures Depth(a + b) == Depth(a) + Depth(b)
  {
    if b == [] {
      assert a + b == a;
    } else {
      assert (a + b)[..|a + b| - 1] == a + b[..|b| - 1];
      DepthConcat(a, b[..|b| - 1]);
    }
  }

  lemma {:induction false} BracesConcat(a: Text, b: Text)
    ensures Braces(a + b) == Braces(a) + Braces(b)
  {
    if b == [] {
      assert a + b == a;
    } else {
      assert (a + b)[..|a + b| - 1] == a + b[..|b| - 1];
      BracesConcat(a, b[..|b| - 1]);
    }
  }

  lemma {:induction false} BracesDepth(t: Text)
    ensures Depth(Braces(t)) == Depth(t)
  {
    if t != [] {
      var front, c := t[..|t| - 1], t[|t| - 1];
      BracesDepth(front);
      if IsBrace(c) {
        assert (Braces(front) + [c])[..|Braces(front)|] == Braces(front);
      } else {
        assert Braces(front) + [] == Braces(front);
      }
    }
  }

  lemma {:induction false} BracesOfFree(t: Text)
    requires BraceFree(t)
    ensures Braces(t) == []
  {
    if t != [] {
      BracesOfFree(t[..|t| - 1]);
    }
  }

  lemma BracesOfOne(c: Code)
    ensures Braces([c]) == if IsBrace(c) then [c] else []
    ensures Braces([]) == []
  {
    assert [c][..0] == [];
  }

  /** Every stretch of the braces is that of some prefix of the text, in full. */
  lemma {:induction false} BracesReached(t: Text, i: nat) returns (j: nat)
    requires i <= |Braces(t)|
    ensures j <= |t| && Braces(t[..j]) == Braces(t)[..i]
  {
    if i == |Braces(t)| {
      j := |t|;
      assert t[..j] == t;
    } else {
      var front := t[..|t| - 1];
      j := BracesReached(front, i);
      assert t[..j] == front[..j];
    }
  }

  lemma BracesSplit(t: Text, j: nat)
    requires j <= |t|
    ensures Braces(t) == Braces(t[..j]) + Braces(t[j..])
  {
    assert t == t[..j] + t[j..];
    BracesConcat(t[..j], t[j..]);
  }

  /** Balance is a matter of the braces alone. */
  lemma BalancedBraces(t: Text)
    ensures Balanced(t) <==> Balanced(Braces(t))
  {
    BracesDepth(t);
    if Balanced(t) {
      forall i | 0 <= i <= |Braces(t)| ensures Depth(Braces(t)[..i]) >= 0 {
        var j := BracesReached(t, i);
        BracesDepth(t[..j]);
      }
    }
    if Balanced(Braces(t)) {
      forall j | 0 <= j <= |t| ensures Depth(t[..j]) >= 0 {
        BracesSplit(t, j);
        assert Braces(t)[..|Braces(t[..j])|] == Braces(t[..j]);
        BracesDepth(t[..j]);
      }
    }
  }

  /** Between two braces, what stands among the others decides nothing. */
  lemma ShortestBraces(t: Text)
    requires |t| >= 2 && IsBrace(t[0]) && IsBrace(t[|t| - 1])
    ensures ShortestBalanced(t, |t|) <==> ShortestBalanced(Braces(t), |Braces(t)|)
  {
    hide Depth;
    var b := Braces(t);
    assert t[..|t|] == t && b[..|b|] == b;
    BracesDepth(t);
    EndsInBraces(t, 1);
    if ShortestBalanced(t, |t|) {
      forall i | 0 < i < |b| ensures Depth(b[..i]) != 0 {
        var j := BracesReached(t, i);
        BracesDepth(t[..j]);
        assert j != |t|;
        BracesOfOne(t[0]);
        assert t[..0] == [];
      }
    }
    if ShortestBalanced(b, |b|) {
      forall j | 0 < j < |t| ensures Depth(t[..j]) != 0 {
        EndsInBraces(t, j);
        BracesDepth(t[..j]);
        assert b[..|Braces(t[..j])|] == Braces(t[..j]);
      }
    }
  }

  lemma EndsInBraces(t: Text, j: nat)
    requires 0 < j < |t| && IsBrace(t[0]) && IsBrace(t[|t| - 1])
    ensures Braces(t) == Braces(t[..j]) + Braces(t[j..]) && Braces(t[..j]) != [] && Braces(t[j..]) != []
  {
    hide Braces;
    BracesSplit(t, j);
    BracesSplit(t[..j], 1);
    BracesOfOne(t[0]);
    assert t[..j][..1] == [t[0]];
    BracesSplit(t[j..], |t| - j - 1);
    BracesOfOne(t[|t| - 1]);
    assert t[j..][|t| - j - 1..] == [t[|t| - 1]];
  }

  /** A pair of braces closes at its end and not before exactly when what is inside balances. */
  lemma WrappedExact(inner: Text)
    ensures var t := [OPEN_BRACE] + inner + [CLOSE_BRACE];
      ShortestBalanced(t, |t|) <==> Balanced(inner)
  {
    var t := [OPEN_BRACE] + inner + [CLOSE_BRACE];
    DepthOne();
    WrappedPrefix(inner, |inner|);
    DepthConcat([OPEN_BRACE] + inner, [CLOSE_BRACE]);
    assert inner[..|inner|] == inner && t[..|inner| + 1] == [OPEN_BRACE] + inner && t[..|t|] == t;
    if ShortestBalanced(t, |t|) {
      forall k | 0 <= k <= |inner| ensures Depth(inner[..k]) >= 0 {
        if Depth(inner[..k]) < 0 {
          var i := FirstDip(inner, k);
          WrappedPrefix(inner, i);
        }
      }
    }
    if Balanced(inner) {
      forall k | 0 < k < |t| ensures Depth(t[..k]) != 0 {
        WrappedPrefix(inner, k - 1);
      }
    }
  }

  lemma WrappedPrefix(inner: Text, k: nat)
    requires k <= |inner|
    ensures Depth(([OPEN_BRACE] + inner + [CLOSE_BRACE])[..k + 1]) == 1 + Depth(inner[..k])
  {
    assert ([OPEN_BRACE] + inner + [CLOSE_BRACE])[..k + 1] == [OPEN_BRACE] + inner[..k];
    DepthOne();
    DepthConcat([OPEN_BRACE], inner[..k]);
  }

  lemma DepthOne()
    ensures Depth([OPEN_BRACE]) == 1 && Depth([CLOSE_BRACE]) == -1 && Depth([]) == 0
  {
    assert [OPEN_BRACE][..0] == [] && [CLOSE_BRACE][..0] == [];
  }

  lemma {:induction false} FirstDip(t: Text, j: nat) returns (i: nat)
    requires j <= |t| && Depth(t[..j]) < 0
    ensures i <= j && Depth(t[..i]) == -1
  {
    if Depth(t[..j]) == -1 {
      i := j;
    } else {
      assert t[..j][..j - 1] == t[..j - 1];
      i := FirstDip(t, j - 1);
    }
  }

  // --------------------------------------------------------- braces of a document

  /** The braces a print shows: those of keys and strings, and a pair around every object. */
  function BracesOf(d: Doc): Text {
    match d
    case Str(t) => Braces(t)
    case Arr(items) => BracesOfItems(items)
    case Obj(ms) => [OPEN_BRACE] + BracesOfMembers(ms) + [CLOSE_BRACE]
    case _ => []
  }

  function BracesOfItems(items: seq<Doc>): Text {
    if items == [] then [] else BracesOf(items[0]) + BracesOfItems(items[1..])
  }

  function BracesOfMembers(ms: seq<Member>): Text {
    if ms == [] then [] else Braces(ms[0].key) + BracesOf(ms[0].value) + BracesOfMembers(ms[1..])
  }

  lemma BracesOfEscape(c: Code, ascii: bool)
    ensures Braces(Escape(c, ascii)) == Braces([c])
  {
    BracesOfOne(c);
    if IsBrace(c) {
      assert Escape(c, ascii) == [c];
    } else {
      EscapeBraceFree(c, ascii);
      BracesOfFree(Escape(c, ascii));
    }
  }

  lemma EscapeBraceFree(c: Code, ascii: bool)
    requires !IsBrace(c)
    ensures BraceFree(Escape(c, ascii))
  {
  }

  /** Escaping keeps every brace where it is among the others. */
  lemma {:induction false} BracesOfEscapes(t: Text, ascii: bool)
    ensures Braces(Escapes(t, ascii)) == Braces(t)
  {
    if t != [] {
      hide Escape, Braces;
      BracesOfEscapes(t[1..], ascii);
      BracesOfEscape(t[0], ascii);
      BracesConcat(Escape(t[0], ascii), Escapes(t[1..], ascii));
      BracesConcat([t[0]], t[1..]);
      assert t == [t[0]] + t[1..];
    }
  }

  lemma BracesOfQuote(t: Text, ascii: bool)
    ensures Braces(Quote(t, ascii)) == Braces(t)
  {
    hide Escapes, Braces;
    BracesOfEscapes(t, ascii);
    BracesOfOne(QUOTE);
    BracesConcat([QUOTE], Escapes(t, ascii));
    BracesConcat([QUOTE] + Escapes(t, ascii), [QUOTE]);
  }

  lemma BracesOfMarks(st: Style, level: nat)
    ensures Braces(NewLine(st, level)) == [] && Braces(Colon(st)) == []
    ensures Braces([COMMA]) == [] && Braces([OPEN_BRACKET]) == [] && Braces([CLOSE_BRACKET]) == []
    ensures Braces([OPEN_BRACE]) == [OPEN_BRACE] && Braces([CLOSE_BRACE]) == [CLOSE_BRACE]
  {
    BracesOfFree(NewLine(st, level));
    BracesOfFree(Colon(st));
    BracesOfOne(COMMA);
    BracesOfOne(OPEN_BRACKET);
    BracesOfOne(CLOSE_BRACKET);
    BracesOfOne(OPEN_BRACE);
    BracesOfOne(CLOSE_BRACE);
  }

  /** The braces of a print do not depend on its style. */
  lemma {:induction false} PrintBraces(d: Doc, st: Style, level: nat)
    ensures Braces(Print(d, st, level)) == BracesOf(d)
    decreases d, 0
  {
    match d
    case Null => BracesOfFree(Lit("null"));
    case Bool(b) => BracesOfFree(Print(d, st, level));
    case Int(n) =>
      IntBraceFree(n);
      BracesOfFree(PrintInt(n));
    case Str(t) => BracesOfQuote(t, st.ascii);
    case Arr(items) => ArrBraces(items, st, level);
    case Obj(ms) => ObjBraces(ms, st, level);
  }

  lemma IntBraceFree(n: int)
    ensures BraceFree(PrintInt(n))
  {
    if n < 0 {
      assert forall i | 0 < i < |PrintInt(n)| :: PrintInt(n)[i] == Decimal(-n)[i - 1];
    }
  }

  lemma BracketedBraces(open: Code, body: Text, close: Code, st: Style, level: nat)
    ensures Braces([open] + NewLine(st, level + 1) + body + NewLine(st, level) + [close])
         == Braces([open]) + Braces(body) + Braces([close])
  {
    hide Braces, NewLine;
    BracesOfMarks(st, level);
    BracesOfMarks(st, level + 1);
    BracesConcat([open], NewLine(st, level + 1));
    BracesConcat([open] + NewLine(st, level + 1), body);
    BracesConcat([open] + NewLine(st, level + 1) + body, NewLine(st, level));
    BracesConcat([open] + NewLine(st, level + 1) + body + NewLine(st, level), [close]);
  }

  lemma {:induction false} ArrBraces(items: seq<Doc>, st: Style, level: nat)
    ensures Braces(Print(Arr(items), st, level)) == BracesOfItems(items)
    decreases items, 2
  {
    hide Braces, NewLine, PrintItems;
    BracesOfMarks(st, level);
    if items == [] {
      BracesConcat([OPEN_BRACKET], [CLOSE_BRACKET]);
      assert [OPEN_BRACKET] + [CLOSE_BRACKET] == [OPEN_BRACKET, CLOSE_BRACKET];
    } else {
      ItemsBraces(items, st, level + 1);
      BracketedBraces(OPEN_BRACKET, PrintItems(items, st, level + 1), CLOSE_BRACKET, st, level);
    }
  }

  lemma {:induction false} ItemsBraces(items: seq<Doc>, st: Style, level: nat)
    requires items != []
    ensures Braces(PrintItems(items, st, level)) == BracesOfItems(items)
    decreases items, 1
  {
    hide Braces, NewLine, Print, BracesOf;
    PrintBraces(items[0], st, level);
    var first := Print(items[0], st, level);
    if |items| > 1 {
      ItemsBraces(items[1..], st, level);
      BracesOfMarks(st, level);
      var more := PrintItems(items[1..], st, level);
      BracesConcat([COMMA], NewLine(st, level));
      BracesConcat([COMMA] + NewLine(st, level), more);
      BracesConcat(first, [COMMA] + NewLine(st, level) + more);
    } else {
      assert first + [] == first && items[1..] == [];
    }
  }

  lemma {:induction false} ObjBraces(ms: seq<Member>, st: Style, level: nat)
    ensures Braces(Print(Obj(ms), st, level)) == [OPEN_BRACE] + BracesOfMembers(ms) + [CLOSE_BRACE]
    decreases ms, 2
  {
    hide Braces, NewLine, PrintMembers;
    BracesOfMarks(st, level);
    if ms == [] {
      BracesConcat([OPEN_BRACE], [CLOSE_BRACE]);
      assert [OPEN_BRACE] + [CLOSE_BRACE] == [OPEN_BRACE, CLOSE_BRACE];
    } else {
      MembersBraces(ms, st, level + 1);
      BracketedBraces(OPEN_BRACE, PrintMembers(ms, st, level + 1), CLOSE_BRACE, st, level);
    }
  }

  lemma {:induction false} MembersBraces(ms: seq<Member>, st: Style, level: nat)
    requires ms != []
    ensures Braces(PrintMembers(ms, st, level)) == BracesOfMembers(ms)
    decreases ms, 1
  {
    hide Braces, NewLine, Print, BracesOf, Quote, Colon;
    BracesOfQuote(ms[0].key, st.ascii);
    PrintBraces(ms[0].value, st, level);
    BracesOfMarks(st, level);
    var key, value := Quote(ms[0].key, st.ascii), Print(ms[0].value, st, level);
    BracesConcat(key, Colon(st));
    BracesConcat(key + Colon(st), value);
    var head := key + Colon(st) + value;
    if |ms| > 1 {
      MembersBraces(ms[1..], st, level);
      var more := PrintMembers(ms[1..], st, level);
      BracesConcat([COMMA], NewLine(st, level));
      BracesConcat([COMMA] + NewLine(st, level), more);
      BracesConcat(head, [COMMA] + NewLine(st, level) + more);
    } else {
      assert head + [] == head && ms[1..] == [];
    }
  }

  // ------------------------------------------------------- what the scan returns

  /**
   * The print of an object, in any style and at any depth, closes at its end and not before exactly when
   * the braces of its keys, strings and nested objects balance in the order they are printed in.
   */
  lemma ObjectClosesExactly(ms: seq<Member>, st: Style, level: nat)
    ensures var text := Print(Obj(ms), st, level);
      ShortestBalanced(text, |text|) <==> Balanced(BracesOfMembers(ms))
  {
    hide Braces, BracesOfMembers, ShortestBalanced, Balanced;
    var text := Print(Obj(ms), st, level);
    ObjectEnds(ms, st, level);
    ShortestBraces(text);
    ObjBraces(ms, st, level);
    WrappedExact(BracesOfMembers(ms));
  }

  lemma ObjectEnds(ms: seq<Member>, st: Style, level: nat)
    ensures var text := Print(Obj(ms), st, level);
      |text| >= 2 && text[0] == OPEN_BRACE && text[|text| - 1] == CLOSE_BRACE
  {
    hide PrintMembers, NewLine;
  }

  lemma BalancedPrefix(text: Text, rest: Text)
    requires text != []
    ensures ShortestBalanced(text + rest, |text|) <==> ShortestBalanced(text, |text|)
  {
    assert (text + rest)[..|text|] == text[..|text|];
    forall j | 0 < j < |text| ensures (text + rest)[..j] == text[..j] {
    }
  }

  /** The scan stops behind the object exactly when its braces balance, whatever follows it. */
  lemma ScanEndsExactly(d: Doc, st: Style, rest: Text, end: Option<nat>)
    requires d.Obj? && Scanned(Print(d, st, 0) + rest, end)
    ensures end == Some(|Print(d, st, 0)|) <==> Balanced(BracesOfMembers(d.members))
  {
    hide Print, Balanced, BracesOfMembers;
    var text := Print(d, st, 0);
    ObjectClosesExactly(d.members, st, 0);
    BalancedPrefix(text, rest);
    assert (text + rest)[..|text|] == text;
    if end.Some? && ShortestBalanced(text + rest, |text|) {
      BalancedUnique(text + rest, end.value, |text|);
    }
  }

  /** An object cut short does not parse. */
  lemma CutShort(d: Doc, st: Style, k: nat)
    requires d.Obj? && WellFormed(d) && Readable(d, st) && 0 < k < |Print(d, st, 0)|
    ensures Parse(Print(d, st, 0)[..k]).None?
  {
    hide Print, ParseValue, WellFormed, Readable;
    var text := Print(d, st, 0);
    var p, q := text[..k], text[k..];
    PrintOfObject(d, st);
    ValueRoundTrip(d, st, 0, []);
    assert text + [] == text && p + q == text && SkipBlanks(p) == p;
    if Parse(p).Some? {
      ObjectValue(p);
      ValueMore(p, q);
    }
  }

  /** An object with more than blanks behind it does not parse. */
  lemma CutLong(d: Doc, st: Style, more: Text)
    requires d.Obj? && WellFormed(d) && Readable(d, st) && more != [] && !IsBlank(more[|more| - 1])
    ensures Parse(Print(d, st, 0) + more).None?
  {
    hide Print, ParseValue, WellFormed, Readable;
    var text := Print(d, st, 0);
    PrintOfObject(d, st);
    ValueRoundTrip(d, st, 0, []);
    assert text + [] == text && [] + more == more;
    ValueMore(text, more);
    assert SkipBlanks(text + more) == text + more;
    SkipStops(more);
  }

  lemma PrintOfObject(d: Doc, st: Style)
    requires d.Obj?
    ensures Print(d, st, 0) != [] && Print(d, st, 0)[0] == OPEN_BRACE
  {
    ObjectEnds(d.members, st, 0);
  }

  lemma ObjectValue(s: Text)
    requires s != [] && s[0] == OPEN_BRACE && ParseValue(s).Done?
    ensures ParseValue(s).value.Obj?
  {
    hide ParseMembers, SkipBlanks;
  }

  lemma LastIsBrace(t: Text, k: nat)
    requires ShortestBalanced(t, k) && k > 1
    ensures IsBrace(t[k - 1])
  {
    assert t[..k][..k - 1] == t[..k - 1];
  }

  /**
   * A printed object, in any style and with anything behind it, is what the scan reads back exactly when
   * the braces of its keys, strings and nested objects balance in print order.
   */
  lemma ScanReturnsObject(d: Doc, st: Style, rest: Text, end: Option<nat>)
    requires d.Obj? && WellFormed(d) && Readable(d, st) && Scanned(Print(d, st, 0) + rest, end)
    ensures ReadPrefix(Print(d, st, 0) + rest, end) == d <==> Balanced(BracesOfMembers(d.members))
  {
    hide Print, Parse, Balanced, WellFormed, Readable, Depth;
    var text := Print(d, st, 0);
    PrintOfObject(d, st);
    ScanEndsExactly(d, st, rest, end);
    EmptyBalances();
    if end.Some? {
      var k := end.value;
      if k < |text| {
        assert (text + rest)[..k] == text[..k];
        CutShort(d, st, k);
      } else if k == |text| {
        assert (text + rest)[..k] == text;
        Jwk.ParsePrint(d, st);
      } else {
        var more := rest[..k - |text|];
        assert (text + rest)[..k] == text + more;
        LastIsBrace(text + rest, k);
        CutLong(d, st, more);
      }
    }
  }

  lemma EmptyBalances()
    ensures Balanced(BracesOfMembers([]))
  {
    DepthOne();
  }

  // ------------------------------------------------------------ when braces balance

  lemma BalancedConcat(a: Text, b: Text)
    requires Balanced(a) && Balanced(b)
    ensures Balanced(a + b)
  {
    DepthConcat(a, b);
    forall k | 0 <= k <= |a + b| ensures Depth((a + b)[..k]) >= 0 {
      if k <= |a| {
        assert (a + b)[..k] == a[..k];
      } else {
        assert (a + b)[..k] == a + b[..k - |a|];
        DepthConcat(a, b[..k - |a|]);
      }
    }
  }

  lemma BalancedWrap(inner: Text)
    requires Balanced(inner)
    ensures Balanced([OPEN_BRACE] + inner + [CLOSE_BRACE])
  {
    var t := [OPEN_BRACE] + inner + [CLOSE_BRACE];
    DepthOne();
    DepthConcat([OPEN_BRACE], inner);
    DepthConcat([OPEN_BRACE] + inner, [CLOSE_BRACE]);
    assert t[..|t|] == t && t[..0] == [];
    forall k | 0 < k < |t| ensures Depth(t[..k]) >= 0 {
      WrappedPrefix(inner, k - 1);
    }
  }

  /** Strings that balance one by one balance together. */
  lemma {:induction false} TextsBalance(d: Doc)
    requires AllTexts(d, Balanced)
    ensures Balanced(BracesOf(d))
    ensures d.Obj? ==> Balanced(BracesOfMembers(d.members))
    decreases d, 0
  {
    hide Balanced;
    match d
    case Str(t) => BalancedBraces(t);
    case Arr(items) => ItemsBalance(items);
    case Obj(ms) =>
      MembersBalance(ms);
      BalancedWrap(BracesOfMembers(ms));
    case _ => EmptyBalances();
  }

  lemma {:induction false} ItemsBalance(items: seq<Doc>)
    requires AllTexts(Arr(items), Balanced)
    ensures Balanced(BracesOfItems(items))
    decreases items, 1
  {
    hide Balanced, BracesOf;
    if items == [] {
      EmptyBalances();
    } else {
      TextsBalance(items[0]);
      ItemsBalance(items[1..]);
      BalancedConcat(BracesOf(items[0]), BracesOfItems(items[1..]));
    }
  }

  lemma {:induction false} MembersBalance(ms: seq<Member>)
    requires AllTexts(Obj(ms), Balanced)
    ensures Balanced(BracesOfMembers(ms))
    decreases ms, 1
  {
    hide Balanced, BracesOf;
    if ms == [] {
      EmptyBalances();
    } else {
      BalancedBraces(ms[0].key);
      TextsBalance(ms[0].value);
      MembersBalance(ms[1..]);
      BalancedConcat(Braces(ms[0].key), BracesOf(ms[0].value));
      BalancedConcat(Braces(ms[0].key) + BracesOf(ms[0].value), BracesOfMembers(ms[1..]));
    }
  }

  lemma {:induction false} BraceFreeBalanced(t: Text)
    requires BraceFree(t)
    ensures Balanced(t)
  {
    BracesOfFree(t);
    BalancedBraces(t);
    EmptyBalances();
  }

  /** Strings without braces are the common case of balanced ones. */
  lemma BraceFreeTexts(d: Doc)
    requires AllTexts(d, BraceFree)
    ensures AllTexts(d, Balanced)
  {
    match d
    case Str(t) => BraceFreeBalanced(t);
    case Arr(items) =>
      forall i | 0 <= i < |items| ensures AllTexts(items[i], Balanced) {
        BraceFreeTexts(items[i]);
      }
    case Obj(ms) =>
      forall i | 0 <= i < |ms| ensures Balanced(ms[i].key) && AllTexts(ms[i].value, Balanced) {
        BraceFreeBalanced(ms[i].key);
        BraceFreeTexts(ms[i].value);
      }
    case _ =>
  }

  /** `{"a": "{", "b": "}"}` or, with the strings exchanged, `{"a": "}", "b": "{"}`. */
  function TwoBraces(first: Code, second: Code): seq<Member> {
    [Member(Lit("a"), Str([first])), Member(Lit("b"), Str([second]))]
  }

  lemma TwoBracesShow(first: Code, second: Code)
    requires IsBrace(first) && IsBrace(second)
    ensures BracesOfMembers(TwoBraces(first, second)) == [first, second]
  {
    hide Braces;
    var ms := TwoBraces(first, second);
    BracesOfFree(ms[0].key);
    BracesOfFree(ms[1].key);
    BracesOfOne(first);
    BracesOfOne(second);
    assert ms[1..] == [ms[1]] && [ms[1]][1..] == [];
  }

  /** Strings that balance only together: read back whole, though neither balances. */
  lemma OpenedThenClosed()
    ensures Balanced(BracesOfMembers(TwoBraces(OPEN_BRACE, CLOSE_BRACE)))
    ensures !Balanced([OPEN_BRACE]) && !Balanced([CLOSE_BRACE])
  {
    DepthOne();
    TwoBracesShow(OPEN_BRACE, CLOSE_BRACE);
    EmptyBalances();
    BalancedWrap([]);
    assert [OPEN_BRACE] + [] + [CLOSE_BRACE] == [OPEN_BRACE, CLOSE_BRACE];
  }

  /** The same strings the other way round: whatever the style and whatever follows, the object is lost. */
  lemma ClosedThenOpened(st: Style, rest: Text, end: Option<nat>)
    requires Scanned(Print(Obj(TwoBraces(CLOSE_BRACE, OPEN_BRACE)), st, 0) + rest, end)
    ensures ReadPrefix(Print(Obj(TwoBraces(CLOSE_BRACE, OPEN_BRACE)), st, 0) + rest, end)
         != Obj(TwoBraces(CLOSE_BRACE, OPEN_BRACE))
  {
    hide Print, ReadPrefix, Scanned, TwoBraces, BracesOfMembers, WellFormed, Readable, Balanced;
    var ms := TwoBraces(CLOSE_BRACE, OPEN_BRACE);
    TwoBracesDip();
    TwoBracesReadable(CLOSE_BRACE, OPEN_BRACE, st);
    ScanReturnsObject(Obj(ms), st, rest, end);
  }

  lemma TwoBracesDip()
    ensures !Balanced(BracesOfMembers(TwoBraces(CLOSE_BRACE, OPEN_BRACE)))
  {
    DepthOne();
    TwoBracesShow(CLOSE_BRACE, OPEN_BRACE);
    assert [CLOSE_BRACE, OPEN_BRACE][..1] == [CLOSE_BRACE];
  }

  lemma TwoBracesReadable(first: Code, second: Code, st: Style)
    requires IsBrace(first) && IsBrace(second)
    ensures WellFormed(Obj(TwoBraces(first, second))) && Readable(Obj(TwoBraces(first, second)), st)
  {
    assert Lit("a")[0] != Lit("b")[0];
  }

  // ----------------------------------------------------------------- the prompt

  /** The needle stands here and nowhere before. */
  predicate FirstAt(t: Text, needle: Text, i: int) {
    0 <= i <= |t| && needle <= t[i..] && forall j | 0 <= j < i :: !(needle <= t[j..])
  }

  lemma {:induction false} FindIsFirst(t: Text, needle: Text)
    ensures Find(t, needle).Some? ==> FirstAt(t, needle, Find(t, needle).value)
    ensures Find(t, needle).None? ==> forall j | 0 <= j <= |t| :: !(needle <= t[j..])
  {
    assert t[0..] == t;
    if !(needle <= t) && t != [] {
      FindIsFirst(t[1..], needle);
      assert forall j | 0 < j <= |t| :: t[j..] == t[1..][j - 1..];
    }
  }

  /** The block starts at the first brace after the first `result:` after the first marker. */
  lemma BlockFound(prompt: Text, i: nat, j: nat, k: nat)
    requires FirstAt(prompt, Lit("tool: tests.execute"), i) && FirstAt(prompt[i..], Lit("result:"), j)
    requires FirstAt(prompt[i..][j..], [OPEN_BRACE], k)
    ensures ResultBlock(prompt) == Some(prompt[i..][j..][k..])
  {
    hide Find;
    FindAt(prompt, MARKER, i);
    FindAt(prompt[i..], RESULT, j);
    FindAt(prompt[i..][j..], [OPEN_BRACE], k);
  }

  lemma FindAt(t: Text, needle: Text, i: nat)
    requires FirstAt(t, needle, i)
    ensures Find(t, needle) == Some(i)
  {
    FindIsFirst(t, needle);
  }

  /** From the prompt on: what the tool printed is what is read back, exactly when its braces balance. */
  lemma PromptRoundTrip(prompt: Text, i: nat, j: nat, k: nat, d: Doc, st: Style, rest: Text)
    requires d.Obj? && WellFormed(d) && Readable(d, st)
    requires FirstAt(prompt, Lit("tool: tests.execute"), i) && FirstAt(prompt[i..], Lit("result:"), j)
    requires FirstAt(prompt[i..][j..], [OPEN_BRACE], k)
    requires prompt[i..][j..][k..] == Print(d, st, 0) + rest
    ensures ResultBlock(prompt).Some?
    ensures forall end: Option<nat> | Scanned(ResultBlock(prompt).value, end) ::
      ReadPrefix(ResultBlock(prompt).value, end) == d <==> Balanced(BracesOfMembers(d.members))
  {
    BlockFound(prompt, i, j, k);
    hide Print, ReadPrefix, WellFormed, Readable, FirstAt, ResultBlock, Balanced, BracesOfMembers, Scanned;
    forall end: Option<nat> | Scanned(ResultBlock(prompt).value, end)
      ensures ReadPrefix(ResultBlock(prompt).value, end) == d <==> Balanced(BracesOfMembers(d.members))
    {
      ScanReturnsObject(d, st, rest, end);
    }
  }
}
