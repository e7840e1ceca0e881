/** JSON documents without floats: `json.dumps` in its styles, and `json.loads`. */
module Json {
  import opened Texts
  import opened JsonText
  import opened Sorting

  const OPEN_BRACKET: Code := 91
  const CLOSE_BRACKET: Code := 93
  const OPEN_BRACE: Code := 123
  const CLOSE_BRACE: Code := 125
  const COMMA: Code := 44
  const COLON: Code := 58
  const MINUS: Code := 45
  const POINT: Code := 46
  const UPPER_E: Code := 69
  const LOWER_E: Code := 101
  const ZERO: Code := 48

  /** A Python value; an object keeps the insertion order of its dict. */
  datatype Doc =
    | Null
    | Bool(b: bool)
    | Int(n: int)
    | Str(text: Text)
    | Arr(items: seq<Doc>)
    | Obj(members: seq<Member>)

  datatype Member = Member(key: Text, value: Doc)

  /** `indent` and `ensure_ascii`; without an indent the separators are the compact ones. */
  datatype Style = Style(indent: Option<nat>, ascii: bool)

  const COMPACT := Style(None, false)

  function Pretty(indent: nat): Style {
    Style(Some(indent), true)
  }

  predicate DistinctKeys(ms: seq<Member>) {
    forall i, j | 0 <= i < j < |ms| :: ms[i].key != ms[j].key
  }

  /** Every object is a dict: no key twice. */
  predicate WellFormed(d: Doc) {
    match d
    case Arr(items) => forall i | 0 <= i < |items| :: WellFormed(items[i])
    case Obj(ms) => DistinctKeys(ms) && forall i | 0 <= i < |ms| :: WellFormed(ms[i].value)
    case _ => true
  }

  /** A property of every string and key of a document. */
  predicate AllTexts(d: Doc, p: Text -> bool) {
    match d
    case Str(t) => p(t)
    case Arr(items) => forall i | 0 <= i < |items| :: AllTexts(items[i], p)
    case Obj(ms) => forall i | 0 <= i < |ms| :: p(ms[i].key) && AllTexts(ms[i].value, p)
    case _ => true
  }

  /** Equality that ignores the order of object members; a boolean is never an integer here, as it is in Python. */
  predicate Same(a: Doc, b: Doc)
    decreases a
  {
    match (a, b)
    case (Arr(x), Arr(y)) => |x| == |y| && forall i | 0 <= i < |x| :: Same(x[i], y[i])
    case (Obj(x), Obj(y)) =>
      && (forall j | 0 <= j < |y| :: HasKey(x, y[j].key))
      && (forall i | 0 <= i < |x| :: HasKey(y, x[i].key))
      && (forall i, j | 0 <= i < |x| && 0 <= j < |y| && x[i].key == y[j].key :: Same(x[i].value, y[j].value))
    case _ => a == b
  }

  predicate HasKey(ms: seq<Member>, key: Text) {
    exists i | 0 <= i < |ms| :: ms[i].key == key
  }

  predicate KeyLe(a: Member, b: Member) {
    LexLe(a.key, b.key)
  }

  /** `sort_keys`, at every level. */
  function Canon(d: Doc): Doc {
    match d
    case Arr(items) => Arr(seq(|items|, i requires 0 <= i < |items| => Canon(items[i])))
    case Obj(ms) =>
      Obj(Sort(KeyLe, seq(|ms|, i requires 0 <= i < |ms| => Member(ms[i].key, Canon(ms[i].value)))))
    case _ => d
  }

  // ------------------------------------------------------------- printing

  function NewLine(st: Style, level: nat): Text {
    if st.indent.None? then [] else [LINE_FEED] + seq(st.indent.value * level, _ => SPACE)
  }

  function Colon(st: Style): Text {
    if st.indent.None? then [COLON] else [COLON, SPACE]
  }

  function PrintInt(n: int): Text {
    if n < 0 then [MINUS] + Decimal(-n) else Decimal(n)
  }

  /** First code point of a printed value: neither blank nor a closing bracket. */
  predicate Opens(c: int) {
    || c == QUOTE || c == OPEN_BRACKET || c == OPEN_BRACE || c == MINUS || IsDigit(c)
    || c == LETTER_N || c == LETTER_T || c == LETTER_F
  }

  /** A document in the order it is given in. */
  function Print(d: Doc, st: Style, level: nat): (r: Text)
    ensures r != [] && Opens(r[0])
  {
    match d
    case Null => Lit("null")
    case Bool(b) => if b then Lit("true") else Lit("false")
    case Int(n) => PrintInt(n)
    case Str(t) => Quote(t, st.ascii)
    case Arr(items) =>
      if items == [] then [OPEN_BRACKET, CLOSE_BRACKET]
      else
        [OPEN_BRACKET] + NewLine(st, level + 1) + PrintItems(items, st, level + 1) + NewLine(st, level) + [CLOSE_BRACKET]
    case Obj(ms) =>
      if ms == [] then [OPEN_BRACE, CLOSE_BRACE]
      else
        [OPEN_BRACE] + NewLine(st, level + 1) + PrintMembers(ms, st, level + 1) + NewLine(st, level) + [CLOSE_BRACE]
  }

  function PrintItems(items: seq<Doc>, st: Style, level: nat): (r: Text)
    requires items != []
    ensures r != [] && Opens(r[0])
  {
    Print(items[0], st, level) +
    (if |items| == 1 then [] else [COMMA] + NewLine(st, level) + PrintItems(items[1..], st, level))
  }

  function PrintMembers(ms: seq<Member>, st: Style, level: nat): (r: Text)
    requires ms != []
    ensures r != [] && r[0] == QUOTE
  {
    Quote(ms[0].key, st.ascii) + Colon(st) + Print(ms[0].value, st, level) +
    (if |ms| == 1 then [] else [COMMA] + NewLine(st, level) + PrintMembers(ms[1..], st, level))
  }

  /** `json.dumps(value, sort_keys=True)` in a style. */
  function Dump(d: Doc, st: Style): Text {
    Print(Canon(d), st, 0)
  }

  // -------------------------------------------------------------- parsing

  predicate IsBlank(c: int) { c == SPACE || c == TAB || c == LINE_FEED || c == CARRIAGE_RETURN }

  function SkipBlanks(s: Text): (r: Text)
    ensures |r| <= |s|
  {
    if s != [] && IsBlank(s[0]) then SkipBlanks(s[1..]) else s
  }

  /** `d[key] = value` on a Python dict. */
  function DictSet(ms: seq<Member>, key: Text, value: Doc): seq<Member> {
    if ms == [] then [Member(key, value)]
    else if ms[0].key == key then [Member(key, value)] + ms[1..]
    else [ms[0]] + DictSet(ms[1..], key, value)
  }

  /** `dict(pairs)`: the last value of a repeated key wins. */
  function DictOf(pairs: seq<Member>): seq<Member> {
    if pairs == [] then []
    else
      var last := pairs[|pairs| - 1];
      DictSet(DictOf(pairs[..|pairs| - 1]), last.key, last.value)
  }

  /** A fraction or an exponent would make the number a float. */
  predicate FloatNext(s: Text) {
    s != [] && (s[0] == POINT || s[0] == UPPER_E || s[0] == LOWER_E)
  }

  function ParseNat(s: Text): (r: Parsed<nat>)
    ensures r.Done? ==> |r.rest| < |s|
  {
    var digits := DigitRun(s);
    if digits == [] then Fail
    else
      var run := if digits[0] == ZERO then [ZERO] else digits;
      if FloatNext(s[|run|..]) then Fail else
        assert forall i | 0 <= i < |run| :: IsDigit(run[i]);
        Done(ReadDecimal(run), s[|run|..])
  }

  function ParseValue(s: Text): (r: Parsed<Doc>)
    ensures r.Done? ==> |r.rest| < |s|
    decreases |s|, 1
  {
    if s == [] then Fail
    else if s[0] == QUOTE then
      var body := ReadBody(s[1..]);
      if body.Done? then Done(Str(body.value), body.rest) else Fail
    else if s[0] == OPEN_BRACKET then
      var inside := SkipBlanks(s[1..]);
      if inside != [] && inside[0] == CLOSE_BRACKET then Done(Arr([]), inside[1..])
      else
        var p := ParseItems(inside);
        if p.Done? then Done(Arr(p.value), p.rest) else Fail
    else if s[0] == OPEN_BRACE then
      var inside := SkipBlanks(s[1..]);
      if inside != [] && inside[0] == CLOSE_BRACE then Done(Obj([]), inside[1..])
      else
        var p := ParseMembers(inside);
        if p.Done? then Done(Obj(DictOf(p.value)), p.rest) else Fail
    else if s[0] == MINUS then
      var p := ParseNat(s[1..]);
      if p.Done? then Done(Int(0 - p.value), p.rest) else Fail
    else if IsDigit(s[0]) then
      var p := ParseNat(s);
      if p.Done? then Done(Int(p.value), p.rest) else Fail
    else if StartsWith(s, Lit("null")) then Done(Null, s[4..])
    else if StartsWith(s, Lit("true")) then Done(Bool(true), s[4..])
    else if StartsWith(s, Lit("false")) then Done(Bool(false), s[5..])
    else Fail
  }

  function ParseItems(s: Text): (r: Parsed<seq<Doc>>)
    ensures r.Done? ==> |r.rest| < |s|
    decreases |s|, 2
  {
    var item := ParseValue(s);
    if item.Fail? then Fail
    else
      var after := SkipBlanks(item.rest);
      if after == [] then Fail
      else if after[0] == CLOSE_BRACKET then Done([item.value], after[1..])
      else if after[0] == COMMA then
        var more := ParseItems(SkipBlanks(after[1..]));
        if more.Done? then Done([item.value] + more.value, more.rest) else Fail
      else Fail
  }

  function ParseMembers(s: Text): (r: Parsed<seq<Member>>)
    ensures r.Done? ==> |r.rest| < |s|
    decreases |s|, 2
  {
    if s == [] || s[0] != QUOTE then Fail
    else
      var key := ReadBody(s[1..]);
      if key.Fail? then Fail
      else
        var colon := SkipBlanks(key.rest);
        if colon == [] || colon[0] != COLON then Fail
        else
          var item := ParseValue(SkipBlanks(colon[1..]));
          if item.Fail? then Fail
          else
            var after := SkipBlanks(item.rest);
            if after == [] then Fail
            else if after[0] == CLOSE_BRACE then Done([Member(key.value, item.value)], after[1..])
            else if after[0] == COMMA then
              var more := ParseMembers(SkipBlanks(after[1..]));
              if more.Done? then Done([Member(key.value, item.value)] + more.value, more.rest) else Fail
            else Fail
  }

  /** `json.loads`: one value with nothing but blanks around it. */
  function Parse(s: Text): Option<Doc> {
    var p := ParseValue(SkipBlanks(s));
    if p.Done? && SkipBlanks(p.rest) == [] then Some(p.value) else None
  }

  // -------------------------------------------------------------- the two layouts

  lemma TwoItems(v: Doc, w: Doc, st: Style, level: nat)
    ensures PrintItems([v, w], st, level) == Print(v, st, level) + ([COMMA] + NewLine(st, level) + Print(w, st, level))
  {
    hide Print, NewLine;
    assert [v, w][1..] == [w];
    LastItem(w, st, level);
  }

  lemma LastItem(w: Doc, st: Style, level: nat)
    ensures PrintItems([w], st, level) == Print(w, st, level)
  {
  }

  lemma TwoMembers(a: Member, b: Member, st: Style, level: nat)
    ensures PrintMembers([a, b], st, level)
         == Quote(a.key, st.ascii) + Colon(st) + Print(a.value, st, level)
            + ([COMMA] + NewLine(st, level) + (Quote(b.key, st.ascii) + Colon(st) + Print(b.value, st, level)))
  {
    hide Print, NewLine, Colon;
    assert [a, b][1..] == [b];
    LastMember(b, st, level);
  }

  lemma LastMember(b: Member, st: Style, level: nat)
    ensures PrintMembers([b], st, level) == Quote(b.key, st.ascii) + Colon(st) + Print(b.value, st, level)
  {
  }

  lemma ArrayStep(items: seq<Doc>, st: Style, level: nat)
    requires items != []
    ensures Print(Arr(items), st, level)
         == [OPEN_BRACKET] + NewLine(st, level + 1) + PrintItems(items, st, level + 1) + NewLine(st, level) + [CLOSE_BRACKET]
  {
  }

  lemma ObjectStep(ms: seq<Member>, st: Style, level: nat)
    requires ms != []
    ensures Print(Obj(ms), st, level)
         == [OPEN_BRACE] + NewLine(st, level + 1) + PrintMembers(ms, st, level + 1) + NewLine(st, level) + [CLOSE_BRACE]
  {
  }

  /** Without an indent nothing but commas, colons and brackets stands between the values. */
  lemma CompactArray(v: Doc, w: Doc, level: nat)
    ensures Print(Arr([v, w]), COMPACT, level)
         == Lit("[") + Print(v, COMPACT, level + 1) + Lit(",") + Print(w, COMPACT, level + 1) + Lit("]")
  {
    hide Print, PrintItems;
    ArrayStep([v, w], COMPACT, level);
    TwoItems(v, w, COMPACT, level + 1);
  }

  lemma CompactObject(j: Text, v: Doc, k: Text, w: Doc, level: nat)
    ensures Print(Obj([Member(j, v), Member(k, w)]), COMPACT, level)
         == Lit("{") + (Quote(j, false) + Lit(":") + Print(v, COMPACT, level + 1)) + Lit(",")
            + (Quote(k, false) + Lit(":") + Print(w, COMPACT, level + 1)) + Lit("}")
  {
    hide Print, PrintMembers, Quote;
    ObjectStep([Member(j, v), Member(k, w)], COMPACT, level);
    TwoMembers(Member(j, v), Member(k, w), COMPACT, level + 1);
    assert Colon(COMPACT) == Lit(":") && [COMMA] == Lit(",") && [OPEN_BRACE] == Lit("{") && [CLOSE_BRACE] == Lit("}");
    hide Lit, Colon;
  }

  /** With one, each value has its own line, indented by the level, and a blank stands behind the colon. */
  lemma IndentedArray(v: Doc, w: Doc)
    ensures Print(Arr([v, w]), Pretty(2), 0)
         == Lit("[\n  ") + Print(v, Pretty(2), 1) + Lit(",\n  ") + Print(w, Pretty(2), 1) + Lit("\n]")
  {
    hide Print, PrintItems, NewLine, Lit;
    Breaks();
    ArrayStep([v, w], Pretty(2), 0);
    TwoItems(v, w, Pretty(2), 1);
  }

  lemma IndentedObject(j: Text, v: Doc, k: Text, w: Doc)
    ensures Print(Obj([Member(j, v), Member(k, w)]), Pretty(2), 0)
         == Lit("{\n  ") + (Quote(j, true) + Lit(": ") + Print(v, Pretty(2), 1)) + Lit(",\n  ")
            + (Quote(k, true) + Lit(": ") + Print(w, Pretty(2), 1)) + Lit("\n}")
  {
    hide Print, PrintMembers, Quote, NewLine, Lit, Colon;
    Breaks();
    ObjectStep([Member(j, v), Member(k, w)], Pretty(2), 0);
    TwoMembers(Member(j, v), Member(k, w), Pretty(2), 1);
  }

  lemma Breaks()
    ensures [OPEN_BRACKET] + NewLine(Pretty(2), 1) == Lit("[\n  ") && [OPEN_BRACE] + NewLine(Pretty(2), 1) == Lit("{\n  ")
    ensures [COMMA] + NewLine(Pretty(2), 1) == Lit(",\n  ") && Colon(Pretty(2)) == Lit(": ")
    ensures NewLine(Pretty(2), 0) + [CLOSE_BRACKET] == Lit("\n]") && NewLine(Pretty(2), 0) + [CLOSE_BRACE] == Lit("\n}")
  {
  }
}
