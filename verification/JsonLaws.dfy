/** The parser inverts every style of the printer, so a print identifies its document. */
module JsonLaws {
  import opened Texts
  import opened JsonText
  import opened Sorting
  import opened Json

  /** Documents whose strings survive the style: all of them, except split pairs in ASCII. */
  predicate Readable(d: Doc, st: Style) {
    st.ascii ==> AllTexts(d, Unsplit)
  }

  /** What may follow a value: nothing a number would run on into. */
  predicate Ends(rest: Text) {
    rest == [] || (!IsDigit(rest[0]) && !FloatNext(rest))
  }

  lemma {:induction false} SkipBlankRun(blanks: Text, s: Text)
    requires forall i | 0 <= i < |blanks| :: IsBlank(blanks[i])
    requires s == [] || !IsBlank(s[0])
    ensures SkipBlanks(blanks + s) == s
  {
    if blanks == [] {
      assert blanks + s == s;
    } else {
      assert (blanks + s)[1..] == blanks[1..] + s;
      SkipBlankRun(blanks[1..], s);
    }
  }

  lemma SkipNewLine(st: Style, level: nat, s: Text)
    requires s != [] && !IsBlank(s[0])
    ensures SkipBlanks(NewLine(st, level) + s) == s
  {
    SkipBlankRun(NewLine(st, level), s);
  }

  lemma QuoteRoundTrip(t: Text, ascii: bool, rest: Text)
    requires ascii ==> Unsplit(t)
    ensures Quote(t, ascii) + rest == [QUOTE] + Literal(t, ascii, rest)
    ensures ReadBody(Literal(t, ascii, rest)) == Done(t, rest)
  {
    hide Escapes, ReadBody, Join, Unsplit;
    StringRoundTrip(t, ascii, rest);
    JoinIdentity(t);
  }

  lemma NatRoundTrip(n: nat, rest: Text)
    requires Ends(rest)
    ensures ParseNat(Decimal(n) + rest) == Done(n, rest)
  {
    var digits := Decimal(n);
    DigitRunOf(digits, rest);
    DecimalRoundTrip(n);
    DecimalLeadingDigit(n);
    assert (digits + rest)[|digits|..] == rest;
  }

  lemma IntRoundTrip(n: int, rest: Text)
    requires Ends(rest)
    ensures ParseValue(PrintInt(n) + rest) == Done(Int(n), rest)
  {
    hide Decimal, ParseNat, ReadBody, ParseItems, ParseMembers, SkipBlanks;
    if n < 0 {
      NatRoundTrip(-n, rest);
      assert (PrintInt(n) + rest)[1..] == Decimal(-n) + rest;
    } else {
      NatRoundTrip(n, rest);
      assert IsDigit((PrintInt(n) + rest)[0]);
    }
  }

  // One step of the parser on each kind of value, with the rest of the input abstract.

  lemma StringStep(x: Text)
    requires ReadBody(x).Done?
    ensures ParseValue([QUOTE] + x) == Done(Str(ReadBody(x).value), ReadBody(x).rest)
  {
    hide ReadBody, ParseItems, ParseMembers, SkipBlanks;
    assert ([QUOTE] + x)[1..] == x;
  }

  lemma EmptyStep(rest: Text)
    ensures ParseValue([OPEN_BRACKET, CLOSE_BRACKET] + rest) == Done(Arr([]), rest)
    ensures ParseValue([OPEN_BRACE, CLOSE_BRACE] + rest) == Done(Obj([]), rest)
  {
    hide ReadBody, ParseItems, ParseMembers;
    assert ([OPEN_BRACKET, CLOSE_BRACKET] + rest)[1..] == [CLOSE_BRACKET] + rest;
    assert ([CLOSE_BRACKET] + rest)[1..] == rest;
    assert ([OPEN_BRACE, CLOSE_BRACE] + rest)[1..] == [CLOSE_BRACE] + rest && ([CLOSE_BRACE] + rest)[1..] == rest;
  }

  lemma ArrStep(x: Text)
    requires x != [] && ParseItems(SkipBlanks(x)).Done?
    requires SkipBlanks(x) != [] && SkipBlanks(x)[0] != CLOSE_BRACKET
    ensures ParseValue([OPEN_BRACKET] + x) == Done(Arr(ParseItems(SkipBlanks(x)).value), ParseItems(SkipBlanks(x)).rest)
  {
    hide ReadBody, ParseItems, ParseMembers, SkipBlanks;
    assert ([OPEN_BRACKET] + x)[1..] == x;
  }

  lemma ObjStep(x: Text)
    requires x != [] && ParseMembers(SkipBlanks(x)).Done?
    requires SkipBlanks(x) != [] && SkipBlanks(x)[0] != CLOSE_BRACE
    ensures ParseValue([OPEN_BRACE] + x)
         == Done(Obj(DictOf(ParseMembers(SkipBlanks(x)).value)), ParseMembers(SkipBlanks(x)).rest)
  {
    hide ReadBody, ParseItems, ParseMembers, SkipBlanks, DictOf;
    assert ([OPEN_BRACE] + x)[1..] == x;
  }

  /** The last item of an array, and one with more behind it. */
  lemma ItemsStep(s: Text, item: Doc, blanks: Text, tail: Text)
    requires ParseValue(s) == Done(item, blanks + tail)
    requires forall i | 0 <= i < |blanks| :: IsBlank(blanks[i])
    requires tail != []
    ensures tail[0] == CLOSE_BRACKET ==> ParseItems(s) == Done([item], tail[1..])
    ensures tail[0] == COMMA && ParseItems(SkipBlanks(tail[1..])).Done?
      ==> var more := ParseItems(SkipBlanks(tail[1..])); ParseItems(s) == Done([item] + more.value, more.rest)
  {
    if tail[0] == CLOSE_BRACKET || tail[0] == COMMA {
      SkipBlankRun(blanks, tail);
    }
    hide ParseValue, SkipBlanks;
  }

  /** The last member of an object, and one with more behind it. */
  lemma MembersStep(s: Text, m: Member, colon: Text, value: Text, blanks: Text, tail: Text)
    requires s != [] && s[0] == QUOTE && ReadBody(s[1..]) == Done(m.key, colon)
    requires SkipBlanks(colon) == colon && colon != [] && colon[0] == COLON
    requires SkipBlanks(colon[1..]) == value && ParseValue(value) == Done(m.value, blanks + tail)
    requires forall i | 0 <= i < |blanks| :: IsBlank(blanks[i])
    requires tail != []
    ensures tail[0] == CLOSE_BRACE ==> ParseMembers(s) == Done([m], tail[1..])
    ensures tail[0] == COMMA && ParseMembers(SkipBlanks(tail[1..])).Done?
      ==> var more := ParseMembers(SkipBlanks(tail[1..])); ParseMembers(s) == Done([m] + more.value, more.rest)
  {
    if tail[0] == CLOSE_BRACE || tail[0] == COMMA {
      SkipBlankRun(blanks, tail);
    }
    hide ParseValue, SkipBlanks, ReadBody;
  }

  /** Parsing a printed value gives it back and stops right behind it. */
  lemma {:induction false} ValueRoundTrip(d: Doc, st: Style, level: nat, rest: Text)
    requires WellFormed(d) && Readable(d, st) && Ends(rest)
    ensures ParseValue(Print(d, st, level) + rest) == Done(d, rest)
    decreases d, 0
  {
    var s := Print(d, st, level) + rest;
    match d
    case Null =>
      hide ReadBody, ParseItems, ParseMembers, SkipBlanks;
      assert s[4..] == rest;
    case Bool(b) =>
      hide ReadBody, ParseItems, ParseMembers, SkipBlanks;
      assert s[if b then 4 else 5..] == rest;
    case Int(n) => IntRoundTrip(n, rest);
    case Str(t) =>
      hide ParseValue, ReadBody, Escapes;
      QuoteRoundTrip(t, st.ascii, rest);
      StringStep(Literal(t, st.ascii, rest));
    case Arr(items) => ArrRoundTrip(items, st, level, rest);
    case Obj(ms) => ObjRoundTrip(ms, st, level, rest);
  }

  function ItemsTail(items: seq<Doc>, st: Style, level: nat, outer: nat, rest: Text): (r: Text)
    requires items != []
    ensures r != [] && Opens(r[0])
  {
    PrintItems(items, st, level) + (NewLine(st, outer) + ([CLOSE_BRACKET] + rest))
  }

  lemma {:induction false} ArrRoundTrip(items: seq<Doc>, st: Style, level: nat, rest: Text)
    requires WellFormed(Arr(items)) && Readable(Arr(items), st)
    ensures ParseValue(Print(Arr(items), st, level) + rest) == Done(Arr(items), rest)
    decreases items, 2
  {
    hide ParseValue, ParseItems, SkipBlanks, PrintItems, NewLine;
    if items == [] {
      EmptyStep(rest);
    } else {
      var body := ItemsTail(items, st, level + 1, level, rest);
      assert Print(Arr(items), st, level) + rest == [OPEN_BRACKET] + (NewLine(st, level + 1) + body);
      SkipNewLine(st, level + 1, body);
      ItemsRoundTrip(items, st, level + 1, level, rest);
      ArrStep(NewLine(st, level + 1) + body);
    }
  }

  lemma ItemsParts(items: seq<Doc>, st: Style)
    requires items != [] && WellFormed(Arr(items)) && Readable(Arr(items), st)
    ensures WellFormed(items[0]) && Readable(items[0], st)
    ensures WellFormed(Arr(items[1..])) && Readable(Arr(items[1..]), st)
  {
  }

  lemma ItemsTailStep(items: seq<Doc>, st: Style, level: nat, outer: nat, rest: Text)
    requires items != []
    ensures ItemsTail(items, st, level, outer, rest) == Print(items[0], st, level) +
      (if |items| == 1 then NewLine(st, outer) + ([CLOSE_BRACKET] + rest)
       else [COMMA] + (NewLine(st, level) + ItemsTail(items[1..], st, level, outer, rest)))
  {
    hide Print, NewLine;
  }

  lemma {:induction false} ItemsRoundTrip(items: seq<Doc>, st: Style, level: nat, outer: nat, rest: Text)
    requires items != [] && WellFormed(Arr(items)) && Readable(Arr(items), st)
    ensures ParseItems(ItemsTail(items, st, level, outer, rest)) == Done(items, rest)
    decreases items, 1
  {
    hide ParseValue, ParseItems, SkipBlanks, Print, PrintItems, WellFormed, Readable, ItemsTail, NewLine;
    var s := ItemsTail(items, st, level, outer, rest);
    var blanks, after := NewLine(st, outer), [CLOSE_BRACKET] + rest;
    ItemsParts(items, st);
    ItemsTailStep(items, st, level, outer, rest);
    if |items| == 1 {
      NewLineEnds(st, outer, after);
      ValueRoundTrip(items[0], st, level, blanks + after);
      ItemsStep(s, items[0], blanks, after);
      assert after[1..] == rest && items == [items[0]];
    } else {
      var more := ItemsTail(items[1..], st, level, outer, rest);
      blanks, after := [], [COMMA] + (NewLine(st, level) + more);
      ValueRoundTrip(items[0], st, level, after);
      TailOpens(items[1..], st, level, outer, rest);
      SkipNewLine(st, level, more);
      ItemsRoundTrip(items[1..], st, level, outer, rest);
      assert after[1..] == NewLine(st, level) + more && blanks + after == after;
      ItemsStep(s, items[0], blanks, after);
      assert items == [items[0]] + items[1..];
    }
  }

  lemma NewLineEnds(st: Style, level: nat, after: Text)
    requires Ends(after)
    ensures Ends(NewLine(st, level) + after)
    ensures forall i | 0 <= i < |NewLine(st, level)| :: IsBlank(NewLine(st, level)[i])
  {
    if st.indent.Some? {
      var n := st.indent.value * level;
      var spaces: Text := seq(n, _ => SPACE);
      assert NewLine(st, level) == [LINE_FEED] + spaces;
      assert forall i | 0 <= i < n :: spaces[i] == SPACE;
    } else {
      assert [] + after == after;
    }
  }

  lemma TailOpens(items: seq<Doc>, st: Style, level: nat, outer: nat, rest: Text)
    requires items != []
    ensures var t := ItemsTail(items, st, level, outer, rest); t != [] && !IsBlank(t[0])
  {
  }

  function MembersTail(ms: seq<Member>, st: Style, level: nat, outer: nat, rest: Text): (r: Text)
    requires ms != []
    ensures r != [] && r[0] == QUOTE
  {
    PrintMembers(ms, st, level) + (NewLine(st, outer) + ([CLOSE_BRACE] + rest))
  }

  lemma {:induction false} ObjRoundTrip(ms: seq<Member>, st: Style, level: nat, rest: Text)
    requires WellFormed(Obj(ms)) && Readable(Obj(ms), st)
    ensures ParseValue(Print(Obj(ms), st, level) + rest) == Done(Obj(ms), rest)
    decreases ms, 2
  {
    hide ParseValue, ParseMembers, SkipBlanks, PrintMembers, NewLine, DictOf;
    if ms == [] {
      EmptyStep(rest);
    } else {
      var body := MembersTail(ms, st, level + 1, level, rest);
      assert Print(Obj(ms), st, level) + rest == [OPEN_BRACE] + (NewLine(st, level + 1) + body);
      SkipNewLine(st, level + 1, body);
      MembersRoundTrip(ms, st, level + 1, level, rest);
      ObjStep(NewLine(st, level + 1) + body);
      DictOfDistinct(ms);
    }
  }

  lemma MembersParts(ms: seq<Member>, st: Style)
    requires ms != [] && WellFormed(Obj(ms)) && Readable(Obj(ms), st)
    ensures WellFormed(ms[0].value) && Readable(ms[0].value, st) && (st.ascii ==> Unsplit(ms[0].key))
    ensures WellFormed(Obj(ms[1..])) && Readable(Obj(ms[1..]), st)
  {
    hide Unsplit;
  }

  lemma MembersTailStep(ms: seq<Member>, st: Style, level: nat, outer: nat, rest: Text)
    requires ms != []
    ensures MembersTail(ms, st, level, outer, rest) == Quote(ms[0].key, st.ascii) + (Colon(st) +
      (Print(ms[0].value, st, level) +
       (if |ms| == 1 then NewLine(st, outer) + ([CLOSE_BRACE] + rest)
        else [COMMA] + (NewLine(st, level) + MembersTail(ms[1..], st, level, outer, rest)))))
  {
    hide Print, NewLine, Quote, Colon;
  }

  lemma {:induction false} MembersRoundTrip(ms: seq<Member>, st: Style, level: nat, outer: nat, rest: Text)
    requires ms != [] && WellFormed(Obj(ms)) && Readable(Obj(ms), st)
    ensures ParseMembers(MembersTail(ms, st, level, outer, rest)) == Done(ms, rest)
    decreases ms, 1
  {
    hide ParseValue, ParseMembers, SkipBlanks, Print, PrintMembers, ReadBody, Escapes, Quote, WellFormed, Readable,
      MembersTail, Unsplit, NewLine, Colon;
    var s := MembersTail(ms, st, level, outer, rest);
    var blanks, after := NewLine(st, outer), [CLOSE_BRACE] + rest;
    MembersParts(ms, st);
    MembersTailStep(ms, st, level, outer, rest);
    if |ms| == 1 {
      var value := Print(ms[0].value, st, level) + (blanks + after);
      MemberKey(ms[0], st, value);
      NewLineEnds(st, outer, after);
      ValueRoundTrip(ms[0].value, st, level, blanks + after);
      MembersStep(s, ms[0], Colon(st) + value, value, blanks, after);
      assert after[1..] == rest && ms == [ms[0]];
    } else {
      var more := MembersTail(ms[1..], st, level, outer, rest);
      blanks, after := [], [COMMA] + (NewLine(st, level) + more);
      var value := Print(ms[0].value, st, level) + after;
      MemberKey(ms[0], st, value);
      ValueRoundTrip(ms[0].value, st, level, after);
      MembersTailOpens(ms[1..], st, level, outer, rest);
      SkipNewLine(st, level, more);
      MembersRoundTrip(ms[1..], st, level, outer, rest);
      assert after[1..] == NewLine(st, level) + more && blanks + after == after;
      MembersStep(s, ms[0], Colon(st) + value, value, blanks, after);
      assert ms == [ms[0]] + ms[1..];
    }
  }

  lemma MembersTailOpens(ms: seq<Member>, st: Style, level: nat, outer: nat, rest: Text)
    requires ms != []
    ensures var t := MembersTail(ms, st, level, outer, rest); t != [] && !IsBlank(t[0])
  {
  }

  /** The key and its colon are read off, leaving the printed value. */
  lemma MemberKey(m: Member, st: Style, value: Text)
    requires st.ascii ==> Unsplit(m.key)
    requires value != [] && Opens(value[0])
    ensures var tail := Colon(st) + value;
      var s := Quote(m.key, st.ascii) + tail;
      && s[0] == QUOTE
      && ReadBody(s[1..]) == Done(m.key, tail)
      && SkipBlanks(tail) == tail && tail[0] == COLON
      && SkipBlanks(tail[1..]) == value
  {
    hide ReadBody, Escapes, Unsplit;
    var tail := Colon(st) + value;
    QuoteRoundTrip(m.key, st.ascii, tail);
    assert ([QUOTE] + Literal(m.key, st.ascii, tail))[1..] == Literal(m.key, st.ascii, tail);
    assert tail[1..] == Colon(st)[1..] + value;
    SkipBlankRun(Colon(st)[1..], value);
  }

  lemma {:induction false} DictSetNew(ms: seq<Member>, key: Text, value: Doc)
    requires forall i | 0 <= i < |ms| :: ms[i].key != key
    ensures DictSet(ms, key, value) == ms + [Member(key, value)]
  {
    if ms != [] {
      DictSetNew(ms[1..], key, value);
    }
  }

  lemma {:induction false} DictOfDistinct(ms: seq<Member>)
    requires DistinctKeys(ms)
    ensures DictOf(ms) == ms
  {
    if ms != [] {
      var front, last := ms[..|ms| - 1], ms[|ms| - 1];
      DictOfDistinct(front);
      DictSetNew(front, last.key, last.value);
      assert ms == front + [last];
    }
  }

  // ------------------------------------------------------------ canonical form

  /** The members an object is sorted from. */
  function Entries(ms: seq<Member>): seq<Member> {
    seq(|ms|, i requires 0 <= i < |ms| => Member(ms[i].key, Canon(ms[i].value)))
  }

  lemma KeyLePreorder()
    ensures TotalPreorder(KeyLe)
  {
    forall x: Member, y: Member ensures KeyLe(x, y) || KeyLe(y, x) {
      LexTotal(x.key, y.key);
    }
    forall x: Member, y: Member, z: Member | KeyLe(x, y) && KeyLe(y, z) ensures KeyLe(x, z) {
      LexTransitive(x.key, y.key, z.key);
    }
  }

  lemma KeyLeAntisymmetric(ms: seq<Member>)
    requires DistinctKeys(ms)
    ensures Antisymmetric(KeyLe, ms)
  {
    forall x, y | x in ms && y in ms && KeyLe(x, y) && KeyLe(y, x) ensures x == y {
      LexAntisymmetric(x.key, y.key);
    }
  }

  lemma DistinctKeysOf(ms: seq<Member>)
    ensures DistinctKeys(ms) ==> Distinct(ms) && DistinctKeys(Entries(ms)) && Distinct(Entries(ms))
  {
  }

  lemma DistinctKeysPermuted(a: seq<Member>, b: seq<Member>)
    requires multiset(a) == multiset(b) && DistinctKeys(a)
    ensures DistinctKeys(b)
  {
    forall i, j | 0 <= i < j < |b| ensures b[i].key != b[j].key {
      assert b[i] in multiset(a) && b[j] in multiset(a);
      Multiplicity(a, b[i]);
      if b[i] == b[j] {
        TwicePresent(b, i, j);
      }
    }
  }

  /** Canonical members are the given ones with canonical values, in key order. */
  lemma CanonMembers(ms: seq<Member>)
    requires DistinctKeys(ms)
    ensures var c := Canon(Obj(ms));
      && c.Obj? && c.members == Sort(KeyLe, Entries(ms))
      && multiset(c.members) == multiset(Entries(ms))
      && Sorted(KeyLe, c.members) && DistinctKeys(c.members)
  {
    KeyLePreorder();
    SortFacts(KeyLe, Entries(ms));
    DistinctKeysOf(ms);
    DistinctKeysPermuted(Entries(ms), Sort(KeyLe, Entries(ms)));
  }

  lemma {:induction false} CanonWellFormed(d: Doc, st: Style)
    requires WellFormed(d) && Readable(d, st)
    ensures WellFormed(Canon(d)) && Readable(Canon(d), st)
  {
    match d
    case Arr(items) =>
      forall i | 0 <= i < |items| ensures WellFormed(Canon(items[i])) && Readable(Canon(items[i]), st) {
        CanonWellFormed(items[i], st);
      }
    case Obj(ms) =>
      forall i | 0 <= i < |ms| ensures WellFormed(Canon(ms[i].value)) && Readable(Canon(ms[i].value), st) {
        CanonWellFormed(ms[i].value, st);
      }
      CanonMembers(ms);
      PermutedWellFormed(ms, Canon(d).members, st);
    case _ =>
  }

  lemma PermutedWellFormed(ms: seq<Member>, c: seq<Member>, st: Style)
    requires multiset(c) == multiset(Entries(ms)) && DistinctKeys(c) && Readable(Obj(ms), st)
    requires forall i | 0 <= i < |ms| :: WellFormed(Canon(ms[i].value)) && Readable(Canon(ms[i].value), st)
    ensures WellFormed(Obj(c)) && Readable(Obj(c), st)
  {
    hide Canon, Unsplit;
    forall i | 0 <= i < |c|
      ensures WellFormed(c[i].value) && Readable(c[i].value, st) && (st.ascii ==> Unsplit(c[i].key))
    {
      assert c[i] in multiset(Entries(ms));
      var j :| 0 <= j < |ms| && Entries(ms)[j] == c[i];
    }
  }

  /** `json.loads(json.dumps(d, sort_keys=True))` is the document with its keys sorted, whatever the blanks after it. */
  lemma DumpRoundTrip(d: Doc, st: Style, after: Text)
    requires WellFormed(d) && Readable(d, st)
    requires forall i | 0 <= i < |after| :: IsBlank(after[i])
    ensures Parse(Dump(d, st) + after) == Some(Canon(d))
  {
    hide ParseValue, Print, Canon;
    CanonWellFormed(d, st);
    ValueRoundTrip(Canon(d), st, 0, after);
    var s := Dump(d, st) + after;
    assert [] + s == s;
    SkipBlankRun([], s);
    assert after + [] == after;
    SkipBlankRun(after, []);
  }

  lemma EntryOf(x: seq<Member>, y: seq<Member>, i: int, j: int)
    requires DistinctKeys(y) && 0 <= i < |x| && 0 <= j < |y| && x[i].key == y[j].key
    requires Entries(x)[i] in Entries(y)
    ensures Canon(x[i].value) == Canon(y[j].value)
  {
    var k :| 0 <= k < |y| && Entries(y)[k] == Entries(x)[i];
    assert k == j;
  }

  // -------------------------------------------- what the ASCII style reads back as

  /** The document with the surrogates of its string values joined. */
  function Joined(d: Doc): Doc {
    match d
    case Str(t) => Str(Join(t))
    case Arr(items) => Arr(seq(|items|, i requires 0 <= i < |items| => Joined(items[i])))
    case Obj(ms) => Obj(seq(|ms|, i requires 0 <= i < |ms| => Member(ms[i].key, Joined(ms[i].value))))
    case _ => d
  }

  /** No key, at any level, holds a split pair. */
  predicate KeysUnsplit(d: Doc) {
    match d
    case Arr(items) => forall i | 0 <= i < |items| :: KeysUnsplit(items[i])
    case Obj(ms) => forall i | 0 <= i < |ms| :: Unsplit(ms[i].key) && KeysUnsplit(ms[i].value)
    case _ => true
  }

  lemma {:induction false} JoinedFacts(d: Doc)
    requires WellFormed(d) && KeysUnsplit(d)
    ensures WellFormed(Joined(d)) && AllTexts(Joined(d), Unsplit)
  {
    match d
    case Str(t) => JoinUnsplit(t);
    case Arr(items) =>
      forall i | 0 <= i < |items| ensures WellFormed(Joined(items[i])) && AllTexts(Joined(items[i]), Unsplit) {
        JoinedFacts(items[i]);
      }
    case Obj(ms) =>
      forall i | 0 <= i < |ms|
        ensures WellFormed(Joined(ms[i].value)) && AllTexts(Joined(ms[i].value), Unsplit)
      {
        JoinedFacts(ms[i].value);
      }
    case _ =>
  }

  /** Joining changes nothing exactly in the documents whose strings hold no split pair. */
  lemma {:induction false} JoinedIdentity(d: Doc)
    requires KeysUnsplit(d)
    ensures Joined(d) == d <==> AllTexts(d, Unsplit)
  {
    match d
    case Str(t) => JoinIdentity(t);
    case Arr(items) =>
      var r := Joined(d).items;
      forall i | 0 <= i < |items| ensures r[i] == items[i] <==> AllTexts(items[i], Unsplit) {
        JoinedIdentity(items[i]);
      }
      assert r == items <==> forall i | 0 <= i < |items| :: r[i] == items[i];
    case Obj(ms) =>
      var r := Joined(d).members;
      forall i | 0 <= i < |ms| ensures r[i] == ms[i] <==> AllTexts(ms[i].value, Unsplit) {
        JoinedIdentity(ms[i].value);
      }
      assert r == ms <==> forall i | 0 <= i < |ms| :: r[i] == ms[i];
    case _ =>
  }

  lemma {:induction false} PrintJoined(d: Doc, st: Style, level: nat)
    requires st.ascii
    ensures Print(Joined(d), st, level) == Print(d, st, level)
    decreases d, 0
  {
    match d
    case Str(t) => EscapesJoin(t);
    case Arr(items) =>
      if items != [] {
        PrintItemsJoined(items, Joined(d).items, st, level + 1);
      }
    case Obj(ms) =>
      if ms != [] {
        PrintMembersJoined(ms, Joined(d).members, st, level + 1);
      }
    case _ =>
  }

  lemma {:induction false} PrintItemsJoined(items: seq<Doc>, joined: seq<Doc>, st: Style, level: nat)
    requires st.ascii && items != [] && |joined| == |items|
    requires forall i | 0 <= i < |items| :: joined[i] == Joined(items[i])
    ensures PrintItems(joined, st, level) == PrintItems(items, st, level)
    decreases items, 1
  {
    hide Print, NewLine, Joined;
    PrintJoined(items[0], st, level);
    if |items| > 1 {
      PrintItemsJoined(items[1..], joined[1..], st, level);
    }
  }

  lemma {:induction false} PrintMembersJoined(ms: seq<Member>, joined: seq<Member>, st: Style, level: nat)
    requires st.ascii && ms != [] && |joined| == |ms|
    requires forall i | 0 <= i < |ms| :: joined[i] == Member(ms[i].key, Joined(ms[i].value))
    ensures PrintMembers(joined, st, level) == PrintMembers(ms, st, level)
    decreases ms, 1
  {
    hide Print, NewLine, Joined, Quote, Colon;
    PrintJoined(ms[0].value, st, level);
    if |ms| > 1 {
      PrintMembersJoined(ms[1..], joined[1..], st, level);
    }
  }

  function JoinMember(): Member -> Member {
    (m: Member) => Member(m.key, Joined(m.value))
  }

  /** Joining and sorting keys commute, at every level. */
  lemma {:induction false} CanonJoined(d: Doc)
    ensures Canon(Joined(d)) == Joined(Canon(d))
  {
    match d
    case Arr(items) =>
      forall i | 0 <= i < |items| ensures Canon(Joined(items[i])) == Joined(Canon(items[i])) {
        CanonJoined(items[i]);
      }
    case Obj(ms) =>
      var joined := Joined(d).members;
      forall i | 0 <= i < |ms| ensures Entries(joined)[i] == JoinMember()(Entries(ms)[i]) {
        CanonJoined(ms[i].value);
      }
      assert Entries(joined) == Map(JoinMember(), Entries(ms));
      SortMap(KeyLe, JoinMember(), Entries(ms));
      assert Joined(Obj(Sort(KeyLe, Entries(ms)))).members == Map(JoinMember(), Sort(KeyLe, Entries(ms)));
    case _ =>
  }

  /** Written in ASCII and read back, a document has every string value joined, and nothing else changed. */
  lemma DumpJoins(d: Doc, st: Style, after: Text)
    requires WellFormed(d) && KeysUnsplit(d) && st.ascii
    requires forall i | 0 <= i < |after| :: IsBlank(after[i])
    ensures Parse(Dump(d, st) + after) == Some(Canon(Joined(d)))
  {
    JoinedFacts(d);
    CanonJoined(d);
    PrintJoined(Canon(d), st, 0);
    hide Print, Parse, Canon, Joined, AllTexts;
    DumpRoundTrip(Joined(d), st, after);
  }

  /** Documents equal up to member order are exactly those with one canonical form. */
  lemma {:induction false} SameIffCanon(a: Doc, b: Doc)
    requires WellFormed(a) && WellFormed(b)
    ensures Same(a, b) <==> Canon(a) == Canon(b)
    decreases a
  {
    match (a, b)
    case (Arr(x), Arr(y)) =>
      if |x| == |y| {
        forall i | 0 <= i < |x| ensures Same(x[i], y[i]) <==> Canon(x[i]) == Canon(y[i]) {
          SameIffCanon(x[i], y[i]);
        }
        if Canon(a) == Canon(b) {
          forall i | 0 <= i < |x| ensures Canon(x[i]) == Canon(y[i]) {
            assert Canon(a).items[i] == Canon(b).items[i];
          }
        }
      } else {
        assert |Canon(a).items| != |Canon(b).items|;
      }
    case (Obj(x), Obj(y)) =>
      forall i, j | 0 <= i < |x| && 0 <= j < |y|
        ensures Same(x[i].value, y[j].value) <==> Canon(x[i].value) == Canon(y[j].value)
      {
        SameIffCanon(x[i].value, y[j].value);
      }
      CanonMembers(x);
      CanonMembers(y);
      if Same(a, b) {
        SameEntries(x, y);
      } else if Canon(a) == Canon(b) {
        EqualEntries(x, y);
      }
    case _ =>
  }

  lemma {:induction false} CanonIdempotent(d: Doc)
    requires WellFormed(d)
    ensures Canon(Canon(d)) == Canon(d)
  {
    match d
    case Arr(items) =>
      forall i | 0 <= i < |items| ensures Canon(Canon(items[i])) == Canon(items[i]) {
        CanonIdempotent(items[i]);
      }
      assert Canon(Canon(d)).items == Canon(d).items;
    case Obj(ms) =>
      CanonMembers(ms);
      var c := Canon(d).members;
      forall i | 0 <= i < |c| ensures Canon(c[i].value) == c[i].value {
        assert c[i] in multiset(Entries(ms));
        var j :| 0 <= j < |ms| && Entries(ms)[j] == c[i];
        CanonIdempotent(ms[j].value);
      }
      assert Entries(c) == c;
      SortOfSorted(KeyLe, c);
      assert Canon(Obj(c)) == Obj(Sort(KeyLe, Entries(c)));
    case _ =>
  }

  /** Members that agree key by key sort to the same sequence. */
  lemma SameEntries(x: seq<Member>, y: seq<Member>)
    requires DistinctKeys(x) && DistinctKeys(y) && Same(Obj(x), Obj(y))
    requires forall i, j | 0 <= i < |x| && 0 <= j < |y| ::
      Same(x[i].value, y[j].value) <==> Canon(x[i].value) == Canon(y[j].value)
    ensures Sort(KeyLe, Entries(x)) == Sort(KeyLe, Entries(y))
  {
    var ex, ey := Entries(x), Entries(y);
    forall i | 0 <= i < |x| ensures ex[i] in ey {
      assert HasKey(y, x[i].key);
      var j :| 0 <= j < |y| && y[j].key == x[i].key;
      assert ey[j] == ex[i];
    }
    forall j | 0 <= j < |y| ensures ey[j] in ex {
      assert HasKey(x, y[j].key);
      var i :| 0 <= i < |x| && x[i].key == y[j].key;
      assert ex[i] == ey[j];
    }
    DistinctKeysOf(x);
    DistinctKeysOf(y);
    SameElements(ex, ey);
    KeyLePreorder();
    KeyLeAntisymmetric(ex);
    SortOrderFree(KeyLe, ex, ey);
  }

  lemma EntriesCover(x: seq<Member>, y: seq<Member>)
    requires multiset(Entries(x)) == multiset(Entries(y))
    ensures forall i | 0 <= i < |x| :: Entries(x)[i] in Entries(y) && HasKey(y, x[i].key)
  {
    hide Canon;
    forall i | 0 <= i < |x| ensures Entries(x)[i] in Entries(y) && HasKey(y, x[i].key) {
      assert Entries(x)[i] in multiset(Entries(y));
      var j :| 0 <= j < |y| && Entries(y)[j] == Entries(x)[i];
      assert y[j].key == x[i].key;
    }
  }

  /** Members with the same canonical entries agree key by key. */
  lemma EqualEntries(x: seq<Member>, y: seq<Member>)
    requires DistinctKeys(x) && DistinctKeys(y) && multiset(Entries(x)) == multiset(Entries(y))
    requires forall i, j | 0 <= i < |x| && 0 <= j < |y| ::
      Same(x[i].value, y[j].value) <==> Canon(x[i].value) == Canon(y[j].value)
    ensures Same(Obj(x), Obj(y))
  {
    EntriesCover(x, y);
    EntriesCover(y, x);
    hide Canon, HasKey, Entries;
    forall i, j | 0 <= i < |x| && 0 <= j < |y| && x[i].key == y[j].key ensures Same(x[i].value, y[j].value) {
      EntryOf(x, y, i, j);
    }
  }

  /** A canonical print identifies its document, and depends on nothing but its contents. */
  lemma DumpIdentifies(a: Doc, b: Doc, st: Style)
    requires WellFormed(a) && WellFormed(b) && Readable(a, st) && Readable(b, st)
    ensures Dump(a, st) == Dump(b, st) <==> Same(a, b)
  {
    DumpRoundTrip(a, st, []);
    DumpRoundTrip(b, st, []);
    assert Dump(a, st) + [] == Dump(a, st) && Dump(b, st) + [] == Dump(b, st);
    SameIffCanon(a, b);
  }

  // ------------------------------------------------- what the parser returns

  lemma {:induction false} DictSetKeys(ms: seq<Member>, key: Text, value: Doc)
    requires DistinctKeys(ms)
    ensures DistinctKeys(DictSet(ms, key, value))
    ensures forall k :: HasKey(DictSet(ms, key, value), k) <==> HasKey(ms, k) || k == key
    ensures forall m | m in DictSet(ms, key, value) :: m in ms || m == Member(key, value)
  {
    if ms != [] && ms[0].key != key {
      DictSetKeys(ms[1..], key, value);
      var rest := DictSet(ms[1..], key, value);
      HeadKeys(ms[0], ms[1..]);
      HeadKeys(ms[0], rest);
      assert ms == [ms[0]] + ms[1..];
    } else if ms != [] {
      HeadKeys(ms[0], ms[1..]);
      HeadKeys(Member(key, value), ms[1..]);
      assert ms == [ms[0]] + ms[1..];
    } else {
      HeadKeys(Member(key, value), []);
      assert [Member(key, value)] + [] == [Member(key, value)];
    }
  }

  lemma HeadKeys(m: Member, ms: seq<Member>)
    ensures forall k :: HasKey([m] + ms, k) <==> m.key == k || HasKey(ms, k)
    ensures DistinctKeys([m] + ms) <==> DistinctKeys(ms) && !HasKey(ms, m.key)
  {
    var all := [m] + ms;
    forall k | m.key == k || HasKey(ms, k) ensures HasKey(all, k) {
      if m.key == k {
        assert all[0].key == k;
      } else {
        var i :| 0 <= i < |ms| && ms[i].key == k;
        assert all[i + 1].key == k;
      }
    }
    if DistinctKeys(all) {
      forall i | 0 <= i < |ms| ensures ms[i].key != m.key {
        assert all[i + 1] == ms[i] && all[0] == m;
      }
      forall i, j | 0 <= i < j < |ms| ensures ms[i].key != ms[j].key {
        assert all[i + 1] == ms[i] && all[j + 1] == ms[j];
      }
    }
  }

  predicate WellFormedValues(ms: seq<Member>) {
    forall i | 0 <= i < |ms| :: WellFormed(ms[i].value)
  }

  lemma {:induction false} DictOfWellFormed(pairs: seq<Member>)
    requires WellFormedValues(pairs)
    ensures WellFormed(Obj(DictOf(pairs)))
  {
    if pairs != [] {
      var front, last := pairs[..|pairs| - 1], pairs[|pairs| - 1];
      DictOfWellFormed(front);
      DictSetKeys(DictOf(front), last.key, last.value);
      var ms := DictOf(pairs);
      forall i | 0 <= i < |ms| ensures WellFormed(ms[i].value) {
        assert ms[i] in ms;
      }
    }
  }

  /** Whatever `json.loads` accepts is a document without repeated keys. */
  lemma {:induction false} ParseWellFormed(s: Text)
    ensures ParseValue(s).Done? ==> WellFormed(ParseValue(s).value)
    decreases |s|, 1
  {
    if s != [] && s[0] == OPEN_BRACKET {
      ItemsWellFormed(SkipBlanks(s[1..]));
    } else if s != [] && s[0] == OPEN_BRACE {
      MembersWellFormed(SkipBlanks(s[1..]));
      var p := ParseMembers(SkipBlanks(s[1..]));
      if p.Done? {
        DictOfWellFormed(p.value);
      }
    }
  }

  lemma {:induction false} ItemsWellFormed(s: Text)
    ensures ParseItems(s).Done? ==> WellFormed(Arr(ParseItems(s).value))
    decreases |s|, 2
  {
    hide ParseValue, SkipBlanks;
    ParseWellFormed(s);
    var item := ParseValue(s);
    if item.Done? {
      var after := SkipBlanks(item.rest);
      if after != [] {
        ItemsWellFormed(SkipBlanks(after[1..]));
      }
    }
  }

  lemma {:induction false} MembersWellFormed(s: Text)
    ensures ParseMembers(s).Done? ==> WellFormedValues(ParseMembers(s).value)
    decreases |s|, 2
  {
    hide ParseValue, SkipBlanks, ReadBody;
    if s != [] && s[0] == QUOTE && ReadBody(s[1..]).Done? {
      var colon := SkipBlanks(ReadBody(s[1..]).rest);
      if colon != [] {
        ParseWellFormed(SkipBlanks(colon[1..]));
        var item := ParseValue(SkipBlanks(colon[1..]));
        if item.Done? && SkipBlanks(item.rest) != [] {
          MembersWellFormed(SkipBlanks(SkipBlanks(item.rest)[1..]));
        }
      }
    }
  }

  // ------------------------------------------------------- reading with more behind

  lemma {:induction false} SkipMore(s: Text, more: Text)
    requires SkipBlanks(s) != []
    ensures SkipBlanks(s + more) == SkipBlanks(s) + more
  {
    if IsBlank(s[0]) {
      assert (s + more)[1..] == s[1..] + more;
      SkipMore(s[1..], more);
    }
  }

  lemma {:induction false} SkipStops(s: Text)
    requires s != [] && !IsBlank(s[|s| - 1])
    ensures SkipBlanks(s) != []
  {
    if IsBlank(s[0]) {
      SkipStops(s[1..]);
    }
  }

  lemma HexMore(s: Text, more: Text)
    requires Hex4(s).Some?
    ensures Hex4(s + more) == Hex4(s)
  {
  }

  /** A closed string literal closes at the same place. */
  lemma {:induction false} BodyMore(s: Text, more: Text)
    requires ReadBody(s).Done?
    ensures ReadBody(s + more) == Done(ReadBody(s).value, ReadBody(s).rest + more)
    decreases |s|
  {
    hide Hex4, Unescape, Combine;
    var t := s + more;
    if s[0] == QUOTE {
      assert t[1..] == s[1..] + more;
    } else if s[0] == BACKSLASH && s[1] == LETTER_U {
      assert t[2..] == s[2..] + more;
      HexMore(s[2..], more);
      assert t[6..] == s[6..] + more;
      LowEscapeMore(s[6..], more);
      if IsHigh(Hex4(s[2..]).value) && LowEscapeNext(s[6..]) {
        assert t[8..] == s[8..] + more && t[12..] == s[12..] + more;
        assert s[6..][2..] == s[8..];
        HexMore(s[8..], more);
        BodyMore(s[12..], more);
      } else {
        BodyMore(s[6..], more);
      }
    } else if s[0] == BACKSLASH {
      assert t[2..] == s[2..] + more;
      BodyMore(s[2..], more);
    } else {
      assert t[1..] == s[1..] + more;
      BodyMore(s[1..], more);
    }
  }

  lemma LowEscapeMore(s: Text, more: Text)
    requires ReadBody(s).Done?
    ensures LowEscapeNext(s + more) == LowEscapeNext(s)
  {
    if |s| >= 2 && s[0] == BACKSLASH && s[1] == LETTER_U {
      assert (s + more)[2..] == s[2..] + more;
      HexMore(s[2..], more);
    }
  }

  lemma {:induction false} DigitRunMore(s: Text, more: Text)
    requires |DigitRun(s)| < |s|
    ensures DigitRun(s + more) == DigitRun(s)
  {
    if IsDigit(s[0]) {
      assert (s + more)[1..] == s[1..] + more;
      DigitRunMore(s[1..], more);
    }
  }

  lemma {:induction false} DigitRunFirst(s: Text)
    ensures DigitRun(s) != [] <==> s != [] && IsDigit(s[0])
    ensures DigitRun(s) != [] ==> DigitRun(s)[0] == s[0]
  {
  }

  lemma NatMore(s: Text, more: Text)
    requires ParseNat(s).Done? && ParseNat(s).rest != []
    ensures ParseNat(s + more) == Done(ParseNat(s).value, ParseNat(s).rest + more)
  {
    DigitRunFirst(s);
    DigitRunFirst(s + more);
    if DigitRun(s)[0] != ZERO {
      DigitRunMore(s, more);
    }
    var run := if DigitRun(s)[0] == ZERO then [ZERO] else DigitRun(s);
    assert (s + more)[|run|..] == s[|run|..] + more;
  }

  /** A value that ends is read the same with more behind it; a number must not be the end of the text. */
  lemma {:induction false} ValueMore(s: Text, more: Text)
    requires ParseValue(s).Done? && (ParseValue(s).value.Int? ==> ParseValue(s).rest != [])
    ensures ParseValue(s + more) == Done(ParseValue(s).value, ParseValue(s).rest + more)
    decreases |s|, 1
  {
    hide ParseNat, ReadBody, ParseItems, ParseMembers, SkipBlanks, DictOf;
    var t := s + more;
    assert t[1..] == s[1..] + more;
    if s[0] == QUOTE {
      BodyMore(s[1..], more);
    } else if s[0] == OPEN_BRACKET {
      var inside := SkipBlanks(s[1..]);
      assert inside == [] ==> ParseItems(inside).Fail? by { NothingParses(); }
      SkipMore(s[1..], more);
      assert (inside + more)[1..] == inside[1..] + more;
      if inside[0] != CLOSE_BRACKET {
        ItemsMore(inside, more);
      }
    } else if s[0] == OPEN_BRACE {
      var inside := SkipBlanks(s[1..]);
      assert inside == [] ==> ParseMembers(inside).Fail? by { NothingParses(); }
      SkipMore(s[1..], more);
      assert (inside + more)[1..] == inside[1..] + more;
      if inside[0] != CLOSE_BRACE {
        MembersMore(inside, more);
      }
    } else if s[0] == MINUS {
      NatMore(s[1..], more);
    } else if IsDigit(s[0]) {
      NatMore(s, more);
    } else {
      WordMore(s, more);
    }
  }

  lemma NothingParses()
    ensures ParseItems([]).Fail? && ParseMembers([]).Fail?
  {
  }

  lemma WordMore(s: Text, more: Text)
    requires s != [] && ParseValue(s).Done?
    requires s[0] != QUOTE && s[0] != OPEN_BRACKET && s[0] != OPEN_BRACE && s[0] != MINUS && !IsDigit(s[0])
    ensures ParseValue(s + more) == Done(ParseValue(s).value, ParseValue(s).rest + more)
  {
    hide ParseNat, ReadBody, ParseItems, ParseMembers, SkipBlanks;
    var t := s + more;
    assert |s| >= 4 ==> t[..4] == s[..4] && t[4..] == s[4..] + more;
    assert |s| >= 5 ==> t[..5] == s[..5] && t[5..] == s[5..] + more;
    assert Lit("null")[0] == LETTER_N && Lit("true")[0] == LETTER_T && Lit("false")[0] == LETTER_F;
  }

  lemma {:induction false} ItemsMore(s: Text, more: Text)
    requires ParseItems(s).Done?
    ensures ParseItems(s + more) == Done(ParseItems(s).value, ParseItems(s).rest + more)
    decreases |s|, 2
  {
    hide ParseValue;
    var item := ParseValue(s);
    var after := SkipBlanks(item.rest);
    ValueMore(s, more);
    SkipMore(item.rest, more);
    assert (after + more)[1..] == after[1..] + more;
    if after[0] == COMMA {
      var next := SkipBlanks(after[1..]);
      assert next == [] ==> ParseItems(next).Fail? by { NothingParses(); }
      SkipMore(after[1..], more);
      ItemsMore(next, more);
    }
  }

  lemma {:induction false} MembersMore(s: Text, more: Text)
    requires ParseMembers(s).Done?
    ensures ParseMembers(s + more) == Done(ParseMembers(s).value, ParseMembers(s).rest + more)
    decreases |s|, 2
  {
    hide ParseValue, ReadBody;
    assert (s + more)[1..] == s[1..] + more;
    BodyMore(s[1..], more);
    var key := ReadBody(s[1..]);
    var colon := SkipBlanks(key.rest);
    SkipMore(key.rest, more);
    assert (colon + more)[1..] == colon[1..] + more;
    var start := SkipBlanks(colon[1..]);
    assert start == [] ==> ParseValue(start).Fail? by { NoValue(); }
    SkipMore(colon[1..], more);
    var item := ParseValue(start);
    var after := SkipBlanks(item.rest);
    ValueMore(start, more);
    SkipMore(item.rest, more);
    assert (after + more)[1..] == after[1..] + more;
    if after[0] == COMMA {
      var next := SkipBlanks(after[1..]);
      assert next == [] ==> ParseMembers(next).Fail? by { NothingParses(); }
      SkipMore(after[1..], more);
      MembersMore(next, more);
    }
  }

  lemma NoValue()
    ensures ParseValue([]).Fail?
  {
  }

  // ------------------------------------------------------- what sorted keys are

  /** In every object each key comes before the next ones: it begins them or is smaller where they first differ. */
  ghost predicate Ascending(d: Doc) {
    match d
    case Arr(items) => forall i | 0 <= i < |items| :: Ascending(items[i])
    case Obj(ms) => KeysAscend(ms) && forall i | 0 <= i < |ms| :: Ascending(ms[i].value)
    case _ => true
  }

  ghost predicate KeysAscend(ms: seq<Member>) {
    forall i, j | 0 <= i < j < |ms| :: ms[i].key < ms[j].key || Smaller(ms[i].key, ms[j].key)
  }

  lemma AscendingMeans(ms: seq<Member>)
    ensures KeysAscend(ms) <==> Sorted(KeyLe, ms) && DistinctKeys(ms)
  {
    hide LexLe, Smaller;
    forall i, j | 0 <= i < j < |ms|
      ensures ms[i].key < ms[j].key || Smaller(ms[i].key, ms[j].key)
          <==> KeyLe(ms[i], ms[j]) && ms[i].key != ms[j].key
    {
      LexMeans(ms[i].key, ms[j].key);
      SmallerDiffers(ms[i].key, ms[j].key);
    }
  }

  lemma SmallerDiffers(a: Text, b: Text)
    ensures Smaller(a, b) ==> a != b
  {
  }

  /** The sorted form has its keys in ascending order at every level, and a document that has them keeps its form. */
  lemma {:induction false} CanonAscends(d: Doc)
    requires WellFormed(d)
    ensures Ascending(Canon(d))
    ensures Ascending(d) ==> Canon(d) == d
  {
    match d
    case Arr(items) =>
      forall i | 0 <= i < |items| ensures Ascends(items[i]) {
        CanonAscends(items[i]);
      }
      assert Ascending(d) ==> Canon(d).items == items;
    case Obj(ms) =>
      forall i | 0 <= i < |ms| ensures Ascends(ms[i].value) {
        CanonAscends(ms[i].value);
      }
      MembersAscend(ms);
    case _ =>
  }

  ghost predicate Ascends(d: Doc) {
    Ascending(Canon(d)) && (Ascending(d) ==> Canon(d) == d)
  }

  lemma MembersAscend(ms: seq<Member>)
    requires DistinctKeys(ms) && forall i | 0 <= i < |ms| :: Ascends(ms[i].value)
    ensures Ascends(Obj(ms))
  {
    hide KeysAscend, Canon, KeyLe;
    CanonMembers(ms);
    var c := Canon(Obj(ms)).members;
    AscendingMeans(c);
    AscendingMeans(ms);
    forall i | 0 <= i < |c| ensures Ascending(c[i].value) {
      assert c[i] in multiset(Entries(ms));
      var j :| 0 <= j < |ms| && Entries(ms)[j] == c[i];
    }
    if Ascending(Obj(ms)) {
      assert Entries(ms) == ms;
      SortOfSorted(KeyLe, ms);
    }
  }

  // ------------------------------------------------- what is refused, what is kept

  lemma {:induction false} AllSkipped(after: Text)
    ensures SkipBlanks(after) == [] <==> forall i | 0 <= i < |after| :: after[i] in {9, 10, 13, 32}
  {
    if after != [] {
      AllSkipped(after[1..]);
      assert after == [after[0]] + after[1..];
      if IsBlank(after[0]) && SkipBlanks(after) == [] {
        forall i | 0 <= i < |after| ensures after[i] in {9, 10, 13, 32} {
          assert i > 0 ==> after[i] == after[1..][i - 1];
        }
      }
    }
  }

  /** Behind a document only spaces, tabs and line ends may follow. */
  lemma TrailingText(d: Doc, st: Style, after: Text)
    requires WellFormed(d) && Readable(d, st) && Ends(after)
    ensures Parse(Print(d, st, 0) + after)
         == if forall i | 0 <= i < |after| :: after[i] in {9, 10, 13, 32} then Some(d) else None
  {
    hide ParseValue, Print, Ends;
    ValueRoundTrip(d, st, 0, after);
    AllSkipped(after);
    var s := Print(d, st, 0) + after;
    assert [] + s == s;
    SkipBlankRun([], s);
  }

  /** `dict(pairs)` has the keys of the pairs, each with the value of its last pair. */
  lemma {:induction false} DictOfMeans(pairs: seq<Member>, k: int)
    requires 0 <= k < |pairs| && forall j | k < j < |pairs| :: pairs[j].key != pairs[k].key
    ensures pairs[k] in DictOf(pairs)
  {
    var front, last := pairs[..|pairs| - 1], pairs[|pairs| - 1];
    if k == |pairs| - 1 {
      DictSetHolds(DictOf(front), last.key, last.value);
    } else {
      DictOfMeans(front, k);
      assert front[k] == pairs[k];
      DictSetKeeps(DictOf(front), last.key, last.value, pairs[k]);
    }
  }

  lemma {:induction false} DictSetHolds(ms: seq<Member>, key: Text, value: Doc)
    ensures Member(key, value) in DictSet(ms, key, value)
  {
    if ms != [] && ms[0].key != key {
      DictSetHolds(ms[1..], key, value);
    }
  }

  lemma {:induction false} DictSetKeeps(ms: seq<Member>, key: Text, value: Doc, m: Member)
    requires m in ms && m.key != key
    ensures m in DictSet(ms, key, value)
  {
    if ms[0].key == key {
      assert m in ms[1..];
    } else if m != ms[0] {
      assert m in ms[1..];
      DictSetKeeps(ms[1..], key, value, m);
    }
  }

  lemma {:induction false} DictOfKeys(pairs: seq<Member>, key: Text)
    ensures HasKey(DictOf(pairs), key) <==> HasKey(pairs, key)
  {
    if pairs != [] {
      var front, last := pairs[..|pairs| - 1], pairs[|pairs| - 1];
      DictOfKeys(front, key);
      DictOfDistinctKeys(front);
      DictSetKeys(DictOf(front), last.key, last.value);
      if i :| 0 <= i < |pairs| && pairs[i].key == key {
        assert i < |front| ==> front[i].key == key;
      }
      if i :| 0 <= i < |front| && front[i].key == key {
        assert pairs[i].key == key;
      }
    }
  }

  lemma {:induction false} DictOfDistinctKeys(pairs: seq<Member>)
    ensures DistinctKeys(DictOf(pairs))
  {
    if pairs != [] {
      var front, last := pairs[..|pairs| - 1], pairs[|pairs| - 1];
      DictOfDistinctKeys(front);
      DictSetKeys(DictOf(front), last.key, last.value);
    }
  }
}
