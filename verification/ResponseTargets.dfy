/** Response targets read out of the commitments table of a markdown page. */
module ResponseTargets {
  import opened Texts

  // ------------------------------------------------------------- str.splitlines

  predicate IsBreak(c: int) {
    10 <= c <= 13 || 28 <= c <= 30 || c == 0x85 || c == 0x2028 || c == 0x2029
  }

  /** A line and what follows its break; `\r\n` is one break. */
  function FirstLine(t: Text): (r: (Text, Text))
    ensures |r.0| + |r.1| <= |t| && (t != [] ==> |r.1| < |t|)
  {
    if t == [] then ([], [])
    else if IsBreak(t[0]) then ([], if |t| > 1 && t[0] == 13 && t[1] == 10 then t[2..] else t[1..])
    else
      var (line, rest) := FirstLine(t[1..]);
      ([t[0]] + line, rest)
  }

  function SplitLines(t: Text): seq<Text>
    decreases |t|
  {
    if t == [] then []
    else
      var (line, rest) := FirstLine(t);
      [line] + SplitLines(rest)
  }

  predicate IsPipe(c: int) { c == 124 }

  function StripPipes(t: Text): Text {
    StripRight(StripLeft(t, IsPipe), IsPipe)
  }

  // ------------------------------------------------------------------- parser

  const HEADING_MARK := Lit("## ")
  const COMMITMENTS := Lit("## customer response commitments")
  const HOUR := Lit("hour")
  const BUSINESS_DAY := Lit("business day")

  datatype Target = Target(priority: Text, hours: nat)

  predicate IsHeading(stripped: Text) {
    StartsWith(stripped, HEADING_MARK)
  }

  predicate OpensTable(stripped: Text) {
    StartsWith(Lower(stripped), COMMITMENTS)
  }

  /** `re.fullmatch(r"P[1-4]", cell)`. */
  predicate IsPriority(cell: Text) {
    |cell| == 2 && cell[0] == 80 && 49 <= cell[1] <= 52
  }

  /** The hours of `(\d+)\s*(hour|business day)` at the start of a cell. */
  function HoursOf(cell: Text): Option<nat> {
    var digits := DigitRun(cell);
    var unit := Lower(StripLeft(cell[|digits|..], IsSpace));
    if digits == [] then None
    else if StartsWith(unit, HOUR) then Some(ReadDecimal(digits))
    else if StartsWith(unit, BUSINESS_DAY) then Some(ReadDecimal(digits) * 24)
    else None
  }

  /** The target of one table line, if it states one. */
  function RowTarget(stripped: Text): Option<Target> {
    if !StartsWith(stripped, [124]) then None
    else
      var cells := Split(StripPipes(stripped), 124);
      if |cells| < 2 || !IsPriority(StripBlanks(cells[0])) then None
      else
        match HoursOf(StripBlanks(cells[1]))
        case None => None
        case Some(h) => Some(Target(StripBlanks(cells[0]), h))
  }

  /** The flag after a line. */
  function FlagAfter(line: Text, inTable: bool): bool {
    var stripped := StripBlanks(line);
    if IsHeading(stripped) then OpensTable(stripped) else inTable
  }

  /** What a line adds. */
  function Added(line: Text, inTable: bool): seq<Target> {
    var stripped := StripBlanks(line);
    if IsHeading(stripped) || !inTable then []
    else
      match RowTarget(stripped)
      case None => []
      case Some(t) => [t]
  }

  function ParseLines(lines: seq<Text>, inTable: bool): seq<Target> {
    if lines == [] then [] else Added(lines[0], inTable) + ParseLines(lines[1..], FlagAfter(lines[0], inTable))
  }

  function FlagAfterAll(lines: seq<Text>, inTable: bool): bool {
    if lines == [] then inTable else FlagAfterAll(lines[1..], FlagAfter(lines[0], inTable))
  }

  /** `_documented_response_targets`. */
  method ResponseTargetsOf(markdown: Text) returns (targets: seq<Target>)
    ensures targets == ParseLines(SplitLines(markdown), false)
  {
    var lines := SplitLines(markdown);
    var inTable := false;
    targets := [];
    for i := 0 to |lines|
      invariant inTable == FlagAfterAll(lines[..i], false)
      invariant targets == ParseLines(lines[..i], false)
    {
      ParseAppend(lines[..i], [lines[i]], false);
      assert lines[..i + 1] == lines[..i] + [lines[i]];
      ParseOne(lines[i], inTable);
      var stripped := StripBlanks(lines[i]);
      if IsHeading(stripped) {
        inTable := OpensTable(stripped);
        continue;
      }
      if !inTable || !StartsWith(stripped, [124]) {
        continue;
      }
      var cells := Split(StripPipes(stripped), 124);
      if |cells| < 2 || !IsPriority(StripBlanks(cells[0])) {
        continue;
      }
      var hours := HoursOf(StripBlanks(cells[1]));
      if hours.None? {
        continue;
      }
      targets := targets + [Target(StripBlanks(cells[0]), hours.value)];
    }
    assert lines[..|lines|] == lines;
  }

  lemma ParseOne(line: Text, inTable: bool)
    ensures ParseLines([line], inTable) == Added(line, inTable)
    ensures FlagAfterAll([line], inTable) == FlagAfter(line, inTable)
  {
    assert [line][1..] == [];
  }

  // -------------------------------------------------------------- composition

  lemma {:induction false} ParseAppend(a: seq<Text>, b: seq<Text>, inTable: bool)
    ensures ParseLines(a + b, inTable) == ParseLines(a, inTable) + ParseLines(b, FlagAfterAll(a, inTable))
    ensures FlagAfterAll(a + b, inTable) == FlagAfterAll(b, FlagAfterAll(a, inTable))
    decreases |a|
  {
    hide FlagAfter, Added, ParseLines, FlagAfterAll;
    if a == [] {
      assert a + b == b;
      ParseNone(inTable);
    } else {
      assert (a + b)[1..] == a[1..] + b;
      ParseStep(a, inTable);
      ParseStep(a + b, inTable);
      ParseAppend(a[1..], b, FlagAfter(a[0], inTable));
    }
  }

  lemma ParseNone(inTable: bool)
    ensures ParseLines([], inTable) == [] && FlagAfterAll([], inTable) == inTable
  {
  }

  lemma ParseStep(lines: seq<Text>, inTable: bool)
    requires lines != []
    ensures ParseLines(lines, inTable) == Added(lines[0], inTable) + ParseLines(lines[1..], FlagAfter(lines[0], inTable))
    ensures FlagAfterAll(lines, inTable) == FlagAfterAll(lines[1..], FlagAfter(lines[0], inTable))
  {
    hide FlagAfter, Added;
  }

  /** Past a heading the flag before it is forgotten. */
  lemma HeadingForgets(lines: seq<Text>, flag: bool)
    requires lines != [] && IsHeading(StripBlanks(lines[0]))
    ensures ParseLines(lines, flag) == ParseLines(lines, false)
  {
  }

  lemma {:induction false} FirstLineBreak(a: Text, b: Text)
    requires a != [] && IsBreak(a[|a| - 1]) && (b == [] || b[0] != 10)
    ensures FirstLine(a + b) == (FirstLine(a).0, FirstLine(a).1 + b)
    ensures FirstLine(a).1 == [] || IsBreak(FirstLine(a).1[|FirstLine(a).1| - 1])
  {
    if IsBreak(a[0]) {
      if |a| > 1 && a[0] == 13 && a[1] == 10 {
        assert (a + b)[2..] == a[2..] + b;
      } else {
        assert (a + b)[1..] == a[1..] + b;
      }
    } else {
      assert (a + b)[1..] == a[1..] + b;
      FirstLineBreak(a[1..], b);
    }
  }

  lemma {:induction false} SplitLinesAppend(a: Text, b: Text)
    requires a == [] || IsBreak(a[|a| - 1])
    requires b == [] || b[0] != 10
    ensures SplitLines(a + b) == SplitLines(a) + SplitLines(b)
    decreases |a|
  {
    if a == [] {
      assert a + b == b;
    } else {
      FirstLineBreak(a, b);
      SplitLinesAppend(FirstLine(a).1, b);
    }
  }

  lemma {:induction false} FirstLineStart(t: Text, prefix: Text)
    requires prefix <= t && forall i | 0 <= i < |prefix| :: !IsBreak(prefix[i])
    ensures prefix <= FirstLine(t).0
  {
    if prefix != [] {
      assert t[0] == prefix[0];
      assert prefix[1..] <= t[1..];
      FirstLineStart(t[1..], prefix[1..]);
      assert prefix == [prefix[0]] + prefix[1..];
    }
  }

  /** Stripping keeps a prefix that begins and ends with marks, and a blank inside it. */
  lemma {:induction false} StripRightKeeps(t: Text, n: nat)
    requires n < |t| && !IsSpace(t[n])
    ensures |StripRight(t, IsSpace)| > n && StripRight(t, IsSpace) == t[..|StripRight(t, IsSpace)|]
  {
    if IsSpace(t[|t| - 1]) {
      StripRightKeeps(t[..|t| - 1], n);
    }
  }

  lemma HeadingLine(line: Text, n: nat)
    requires HEADING_MARK <= line && 3 <= n < |line| && !IsSpace(line[n])
    ensures IsHeading(StripBlanks(line))
  {
    assert line[0] == 35;
    StripRightKeeps(line, n);
  }

  /** Two pages joined at a level-two heading yield the targets of the one and then of the other. */
  lemma ParseJoined(a: Text, b: Text, n: nat)
    requires a == [] || IsBreak(a[|a| - 1])
    requires HEADING_MARK <= b && 3 <= n < |FirstLine(b).0| && !IsSpace(FirstLine(b).0[n])
    ensures ParseLines(SplitLines(a + b), false)
         == ParseLines(SplitLines(a), false) + ParseLines(SplitLines(b), false)
  {
    SplitLinesAppend(a, b);
    FirstLineStart(b, HEADING_MARK);
    HeadingLine(FirstLine(b).0, n);
    hide ParseLines, IsHeading;
    ParseAppend(SplitLines(a), SplitLines(b), false);
    HeadingForgets(SplitLines(b), FlagAfterAll(SplitLines(a), false));
  }

  /** Without the commitments heading nothing is read, whatever tables there are. */
  lemma {:induction false} NothingOutsideSection(lines: seq<Text>)
    requires forall l | l in lines :: !OpensTable(StripBlanks(l))
    ensures ParseLines(lines, false) == []
  {
    if lines != [] {
      assert lines[0] in lines;
      NothingOutsideSection(lines[1..]);
    }
  }

  /** Another level-two heading closes the section: what follows it adds nothing, whatever came before. */
  lemma ClosedSection(before: seq<Text>, heading: Text, lines: seq<Text>, flag: bool)
    requires IsHeading(StripBlanks(heading)) && !OpensTable(StripBlanks(heading))
    requires forall l | l in lines :: !OpensTable(StripBlanks(l))
    ensures ParseLines(before + ([heading] + lines), flag) == ParseLines(before, flag)
  {
    hide StripBlanks, IsHeading, OpensTable, ParseLines, FlagAfterAll;
    var section := [heading] + lines;
    var reached := FlagAfterAll(before, flag);
    ParseAppend(before, section, flag);
    HeadingForgets(section, reached);
    NothingOutsideSection(section);
    assert ParseLines(before, flag) + [] == ParseLines(before, flag);
  }

  /** A deeper heading neither closes the section nor adds a target. */
  lemma DeeperHeadingKeepsSection(line: Text, rest: seq<Text>, flag: bool)
    requires Lit("### ") <= line
    ensures ParseLines([line] + rest, flag) == ParseLines(rest, flag)
  {
    assert line[0] == 35 && line[1] == 35 && line[2] == 35;
    StripRightKeeps(line, 2);
    var stripped := StripBlanks(line);
    assert stripped[0] == 35 && stripped[2] == 35;
    assert ([line] + rest)[1..] == rest;
  }

  // --------------------------------------------------------------- round trip

  datatype Unit = Hours | BusinessDays

  datatype Commitment = Commitment(priority: int, amount: nat, unit: Unit)

  predicate ValidCommitment(c: Commitment) {
    1 <= c.priority <= 4
  }

  function UnitText(u: Unit): Text {
    if u.Hours? then Lit("hours") else Lit("business days")
  }

  function PriorityText(c: Commitment): Text
    requires ValidCommitment(c)
  {
    [80, 48 + c.priority]
  }

  /** `| P1 | 8 hours |`. */
  function RowText(c: Commitment): Text
    requires ValidCommitment(c)
  {
    [124, 32] + PriorityText(c) + [32, 124, 32] + Decimal(c.amount) + [32] + UnitText(c.unit) + [32, 124]
  }

  function RowsText(cs: seq<Commitment>): seq<Text>
    requires forall c | c in cs :: ValidCommitment(c)
  {
    if cs == [] then [] else [RowText(cs[0])] + RowsText(cs[1..])
  }

  /** A line of prose, a table's header or its rule: no heading and no target. */
  predicate IsProse(line: Text) {
    !IsHeading(StripBlanks(line)) && RowTarget(StripBlanks(line)).None?
  }

  /** The section: its heading, whatever introduces the table, and a row for each commitment. */
  function PageLines(preamble: seq<Text>, cs: seq<Commitment>): seq<Text>
    requires forall c | c in cs :: ValidCommitment(c)
  {
    [Lit("## Customer response commitments")] + (preamble + RowsText(cs))
  }

  function TargetOf(c: Commitment): Target
    requires ValidCommitment(c)
  {
    Target(PriorityText(c), if c.unit.Hours? then c.amount else c.amount * 24)
  }

  function TargetsOf(cs: seq<Commitment>): seq<Target>
    requires forall c | c in cs :: ValidCommitment(c)
  {
    if cs == [] then [] else [TargetOf(cs[0])] + TargetsOf(cs[1..])
  }

  lemma StripSame(t: Text)
    requires t != [] && !IsSpace(t[0]) && !IsSpace(t[|t| - 1])
    ensures StripBlanks(t) == t
  {
  }

  lemma StripAround(c: Code, t: Text, p: int -> bool)
    requires p(c) && t != [] && !p(t[0]) && !p(t[|t| - 1])
    ensures StripRight(StripLeft([c] + t + [c], p), p) == t
  {
    var u := t + [c];
    assert [c] + t + [c] == [c] + u;
    assert ([c] + u)[1..] == u;
    assert StripLeft(u, p) == u;
    assert StripLeft([c] + u, p) == u;
    assert u[..|u| - 1] == t;
    assert StripRight(t, p) == t;
  }

  lemma StripPadded(t: Text)
    requires t != [] && !IsSpace(t[0]) && !IsSpace(t[|t| - 1])
    ensures StripBlanks([32] + t + [32]) == t
  {
    StripAround(32, t, IsSpace);
  }

  lemma StripOuterPipes(t: Text)
    requires t != [] && t[0] != 124 && t[|t| - 1] != 124
    ensures StripPipes([124] + t + [124]) == t
  {
    StripAround(124, t, IsPipe);
  }

  lemma UnitFacts(u: Unit)
    ensures UnitText(u) != [] && !IsSpace(UnitText(u)[0]) && !IsDigit(UnitText(u)[0]) && UnitText(u)[0] != 124
    ensures !IsSpace(UnitText(u)[|UnitText(u)| - 1]) && 124 !in UnitText(u)
    ensures if u.Hours? then StartsWith(Lower(UnitText(u)), HOUR)
      else StartsWith(Lower(UnitText(u)), BUSINESS_DAY) && !StartsWith(Lower(UnitText(u)), HOUR)
  {
    if u.Hours? {
      assert Lower(UnitText(u)) == Lit("hours");
    } else {
      assert Lower(UnitText(u)) == Lit("business days");
      assert Lit("business days")[0] == 98 && HOUR[0] == 104;
    }
  }

  lemma HoursRoundTrip(c: Commitment)
    requires ValidCommitment(c)
    ensures HoursOf(Decimal(c.amount) + [32] + UnitText(c.unit)) == Some(TargetOf(c).hours)
  {
    var digits, unit := Decimal(c.amount), UnitText(c.unit);
    var cell := digits + [32] + unit;
    UnitFacts(c.unit);
    assert cell == digits + ([32] + unit);
    DigitRunOf(digits, [32] + unit);
    DecimalRoundTrip(c.amount);
    assert cell[|digits|..] == [32] + unit;
    assert ([32] + unit)[1..] == unit;
    assert StripLeft([32] + unit, IsSpace) == unit;
  }

  /** Two cells between pipes are split and stripped. */
  lemma TwoCells(p: Text, h: Text)
    requires p != [] && !IsSpace(p[0]) && !IsSpace(p[|p| - 1]) && 124 !in p
    requires h != [] && !IsSpace(h[0]) && !IsSpace(h[|h| - 1]) && 124 !in h
    ensures var row := [124] + ([32] + p + [32] + [124] + ([32] + h + [32])) + [124];
      && StripBlanks(row) == row && !IsHeading(row) && StartsWith(row, [124])
      && Split(StripPipes(row), 124) == [[32] + p + [32], [32] + h + [32]]
      && StripBlanks([32] + p + [32]) == p && StripBlanks([32] + h + [32]) == h
  {
    hide Split, StripLeft, StripRight;
    var inner := [32] + p + [32] + [124] + ([32] + h + [32]);
    var row := [124] + inner + [124];
    StripSame(row);
    assert row[0] == 124;
    StripOuterPipes(inner);
    SplitFirst([32] + p + [32], 124, [32] + h + [32]);
    SplitNone([32] + h + [32], 124);
    StripPadded(p);
    StripPadded(h);
  }

  lemma TwoCellRow(p: Text, h: Text)
    requires p != [] && !IsSpace(p[0]) && !IsSpace(p[|p| - 1]) && 124 !in p
    requires h != [] && !IsSpace(h[0]) && !IsSpace(h[|h| - 1]) && 124 !in h
    ensures var row := [124] + ([32] + p + [32] + [124] + ([32] + h + [32])) + [124];
      && FlagAfter(row, true)
      && Added(row, true) == if IsPriority(p) && HoursOf(h).Some? then [Target(p, HoursOf(h).value)] else []
  {
    TwoCells(p, h);
    hide Split, StripBlanks, StripPipes, HoursOf, IsPriority, IsHeading;
  }

  /** A printed row reads back as its target. */
  lemma RowRoundTrip(c: Commitment)
    requires ValidCommitment(c)
    ensures Added(RowText(c), true) == [TargetOf(c)] && FlagAfter(RowText(c), true)
  {
    hide Added, FlagAfter, HoursOf, UnitText, Decimal, IsSpace, IsHeading;
    var p, h := PriorityText(c), Decimal(c.amount) + [32] + UnitText(c.unit);
    CellFacts(c);
    HoursRoundTrip(c);
    assert RowText(c) == [124] + ([32] + p + [32] + [124] + ([32] + h + [32])) + [124];
    TwoCellRow(p, h);
  }

  lemma CellFacts(c: Commitment)
    requires ValidCommitment(c)
    ensures var p := PriorityText(c); !IsSpace(p[0]) && !IsSpace(p[|p| - 1]) && 124 !in p && IsPriority(p)
    ensures var h := Decimal(c.amount) + [32] + UnitText(c.unit);
      h != [] && !IsSpace(h[0]) && !IsSpace(h[|h| - 1]) && 124 !in h
  {
    var h := Decimal(c.amount) + [32] + UnitText(c.unit);
    UnitFacts(c.unit);
    hide UnitText, Decimal;
    assert h[0] == Decimal(c.amount)[0] && IsDigit(h[0]);
    assert h[|h| - 1] == UnitText(c.unit)[|UnitText(c.unit)| - 1];
    assert forall x | x in Decimal(c.amount) :: IsDigit(x);
  }

  lemma {:induction false} RowsRoundTrip(cs: seq<Commitment>)
    requires forall c | c in cs :: ValidCommitment(c)
    ensures ParseLines(RowsText(cs), true) == TargetsOf(cs)
  {
    if cs != [] {
      hide Added, FlagAfter, RowText, TargetOf;
      assert cs[0] in cs;
      RowRoundTrip(cs[0]);
      RowsRoundTrip(cs[1..]);
      assert RowsText(cs)[1..] == RowsText(cs[1..]);
    }
  }

  lemma HeadingOpens()
    ensures var heading := Lit("## Customer response commitments");
      FlagAfter(heading, false) && Added(heading, false) == []
  {
    var heading := Lit("## Customer response commitments");
    StripSame(heading);
    assert Lower(heading) == COMMITMENTS;
  }

  lemma {:induction false} PreambleAddsNothing(preamble: seq<Text>, rest: seq<Text>)
    requires forall l | l in preamble :: IsProse(l)
    ensures ParseLines(preamble + rest, true) == ParseLines(rest, true)
    decreases |preamble|
  {
    if preamble == [] {
      assert preamble + rest == rest;
    } else {
      assert preamble[0] in preamble;
      assert (preamble + rest)[1..] == preamble[1..] + rest;
      PreambleAddsNothing(preamble[1..], rest);
    }
  }

  /** A printed page reads back as its targets, in order, whatever prose introduces the table. */
  lemma PageRoundTrip(preamble: seq<Text>, cs: seq<Commitment>)
    requires forall l | l in preamble :: IsProse(l)
    requires forall c | c in cs :: ValidCommitment(c)
    ensures ParseLines(PageLines(preamble, cs), false) == TargetsOf(cs)
  {
    hide Added, FlagAfter, RowsText, TargetsOf, IsProse;
    HeadingOpens();
    RowsRoundTrip(cs);
    PreambleAddsNothing(preamble, RowsText(cs));
    assert PageLines(preamble, cs)[1..] == preamble + RowsText(cs);
  }

  /** Lines with a line feed after each. */
  function JoinLines(lines: seq<Text>): Text {
    if lines == [] then [] else lines[0] + ([10] + JoinLines(lines[1..]))
  }

  predicate OneLine(t: Text) {
    forall i | 0 <= i < |t| :: !IsBreak(t[i])
  }

  lemma JoinStep(lines: seq<Text>)
    ensures JoinLines(lines) == if lines == [] then [] else lines[0] + ([10] + JoinLines(lines[1..]))
  {
  }

  lemma SplitStep(t: Text)
    ensures SplitLines(t) == if t == [] then [] else [FirstLine(t).0] + SplitLines(FirstLine(t).1)
  {
  }

  lemma {:induction false} SplitJoin(lines: seq<Text>)
    requires forall l | l in lines :: OneLine(l)
    ensures SplitLines(JoinLines(lines)) == lines
  {
    hide FirstLine, OneLine, SplitLines, JoinLines;
    JoinStep(lines);
    SplitStep(JoinLines(lines));
    if lines != [] {
      assert lines[0] in lines;
      SplitJoin(lines[1..]);
      LineEnds(lines[0], 10, JoinLines(lines[1..]));
      assert lines == [lines[0]] + lines[1..];
    }
  }

  lemma {:induction false} RowsAreLines(cs: seq<Commitment>)
    requires forall c | c in cs :: ValidCommitment(c)
    ensures forall l | l in RowsText(cs) :: OneLine(l)
  {
    if cs != [] {
      assert cs[0] in cs;
      RowsAreLines(cs[1..]);
      RowIsLine(cs[0]);
      hide RowText, OneLine;
    }
  }

  lemma RowIsLine(c: Commitment)
    requires ValidCommitment(c)
    ensures OneLine(RowText(c))
  {
    hide Decimal;
    var d, u := Decimal(c.amount), UnitText(c.unit);
    assert OneLine(d) && OneLine(PriorityText(c));
    assert OneLine(u);
    var front := [124, 32] + PriorityText(c) + [32, 124, 32];
    assert OneLine(front);
    assert OneLine(front + d);
    assert RowText(c) == front + d + ([32] + u + [32, 124]);
  }

  /** The page as text, whole. */
  lemma PageTextRoundTrip(preamble: seq<Text>, cs: seq<Commitment>)
    requires forall l | l in preamble :: IsProse(l) && OneLine(l)
    requires forall c | c in cs :: ValidCommitment(c)
    ensures ParseLines(SplitLines(JoinLines(PageLines(preamble, cs))), false) == TargetsOf(cs)
  {
    assert OneLine(Lit("## Customer response commitments"));
    RowsAreLines(cs);
    hide OneLine, RowsText, ParseLines, TargetsOf, IsProse;
    var heading := Lit("## Customer response commitments");
    assert PageLines(preamble, cs) == [heading] + (preamble + RowsText(cs));
    SplitJoin(PageLines(preamble, cs));
    PageRoundTrip(preamble, cs);
  }

  // -------------------------------------------------- what a cell and a heading must be

  /** The priorities are `P1` to `P4`, in capitals and with nothing else in the cell. */
  lemma PriorityMeans(cell: Text)
    ensures IsPriority(cell) <==> cell in {Lit("P1"), Lit("P2"), Lit("P3"), Lit("P4")}
  {
    assert Lit("P1") == [80, 49] && Lit("P2") == [80, 50] && Lit("P3") == [80, 51] && Lit("P4") == [80, 52];
    if |cell| == 2 {
      assert cell == [cell[0], cell[1]];
    }
  }

  /** A number, blanks or none, and a word that starts with a unit, in any case of its letters. */
  lemma HoursMean(digits: Text, blanks: Text, rest: Text)
    requires digits != [] && forall i | 0 <= i < |digits| :: IsDigit(digits[i])
    requires forall i | 0 <= i < |blanks| :: IsSpace(blanks[i])
    requires rest == [] || !(IsSpace(rest[0]) || IsDigit(rest[0]))
    ensures HoursOf(digits + blanks + rest)
         == if Lit("hour") <= Lower(rest) then Some(ReadDecimal(digits))
            else if Lit("business day") <= Lower(rest) then Some(ReadDecimal(digits) * 24)
            else None
  {
    hide Lit, Lower, ReadDecimal, StripLeft;
    var t := digits + blanks + rest;
    assert t == digits + (blanks + rest);
    assert blanks + rest == [] || !IsDigit((blanks + rest)[0]) by {
      assert blanks == [] ==> blanks + rest == rest;
      assert blanks != [] ==> (blanks + rest)[0] == blanks[0] && IsSpace(blanks[0]);
    }
    DigitRunOf(digits, blanks + rest);
    assert t[|digits|..] == blanks + rest;
    StripRun(blanks, rest);
  }

  lemma {:induction false} StripRun(blanks: Text, rest: Text)
    requires forall i | 0 <= i < |blanks| :: IsSpace(blanks[i])
    requires rest == [] || !IsSpace(rest[0])
    ensures StripLeft(blanks + rest, IsSpace) == rest
  {
    if blanks == [] {
      assert blanks + rest == rest;
    } else {
      assert (blanks + rest)[1..] == blanks[1..] + rest;
      StripRun(blanks[1..], rest);
    }
  }

  /** A cell that starts with no digit states no hours. */
  lemma HoursNeedNumber(cell: Text)
    requires cell == [] || !IsDigit(cell[0])
    ensures HoursOf(cell) == None
  {
    hide Lit, Lower, ReadDecimal, StripLeft;
  }

  /** A line opens the section, closes it or leaves it as it is, by its first characters and their case. */
  lemma HeadingMeans(line: Text, inTable: bool)
    ensures FlagAfter(line, inTable)
      <==> if Lit("## ") <= StripBlanks(line) then Lit("## customer response commitments") <= Lower(StripBlanks(line))
           else inTable
  {
    hide Lit, Lower, StripBlanks;
  }

  /** A line adds a target only inside the section, from a row of two cells or more, the first two of which state it. */
  lemma AddedMeans(line: Text, inTable: bool)
    ensures var row := StripBlanks(line);
      var cells := Split(StripPipes(row), 124);
      Added(line, inTable)
        == if inTable && !(Lit("## ") <= row) && [124] <= row && |cells| >= 2 && IsPriority(StripBlanks(cells[0]))
             && HoursOf(StripBlanks(cells[1])).Some?
           then [Target(StripBlanks(cells[0]), HoursOf(StripBlanks(cells[1])).value)] else []
  {
    hide Lit, StripBlanks, StripPipes, Split, IsPriority, HoursOf;
  }

  lemma {:induction false} StripRightRun(t: Text, blanks: Text)
    requires forall i | 0 <= i < |blanks| :: IsSpace(blanks[i])
    requires t == [] || !IsSpace(t[|t| - 1])
    ensures StripRight(t + blanks, IsSpace) == t
    decreases |blanks|
  {
    if blanks == [] {
      assert t + blanks == t;
    } else {
      var front := blanks[..|blanks| - 1];
      assert (t + blanks)[..|t + blanks| - 1] == t + front;
      StripRightRun(t, front);
    }
  }

  /** Stripping takes the blanks at both ends and nothing else. */
  lemma StripMeans(left: Text, t: Text, right: Text)
    requires forall i | 0 <= i < |left| :: IsSpace(left[i])
    requires forall i | 0 <= i < |right| :: IsSpace(right[i])
    requires t != [] && !IsSpace(t[0]) && !IsSpace(t[|t| - 1])
    ensures StripBlanks(left + t + right) == t
  {
    assert left + t + right == left + (t + right);
    StripRun(left, t + right);
    StripRightRun(t, right);
  }

  /** A line ends at the first break; a carriage return takes a line feed behind it along. */
  lemma {:induction false} LineMeans(line: Text, b: Code, rest: Text)
    requires forall i | 0 <= i < |line| :: line[i] !in {10, 11, 12, 13, 28, 29, 30, 0x85, 0x2028, 0x2029}
    requires b in {10, 11, 12, 13, 28, 29, 30, 0x85, 0x2028, 0x2029}
    ensures SplitLines(line + ([b] + rest))
         == [line] + SplitLines(if b == 13 && rest != [] && rest[0] == 10 then rest[1..] else rest)
  {
    hide SplitLines;
    SplitStep(line + ([b] + rest));
    LineEnds(line, b, rest);
  }

  lemma {:induction false} LineEnds(line: Text, b: Code, rest: Text)
    requires OneLine(line) && IsBreak(b)
    ensures FirstLine(line + ([b] + rest)) == (line, if b == 13 && rest != [] && rest[0] == 10 then rest[1..] else rest)
  {
    var t := line + ([b] + rest);
    if line == [] {
      assert t == [b] + rest;
      assert t[1..] == rest && (rest != [] ==> t[2..] == rest[1..]);
    } else {
      assert t[0] == line[0] && !IsBreak(line[0]);
      assert t[1..] == line[1..] + ([b] + rest);
      LineEnds(line[1..], b, rest);
      assert line == [line[0]] + line[1..];
    }
  }

  /** Without a break the text is its own only line. */
  lemma {:induction false} LastLine(line: Text)
    requires line != [] && OneLine(line)
    ensures SplitLines(line) == [line]
  {
    LastLineEnds(line);
    SplitStep(line);
  }

  lemma {:induction false} LastLineEnds(line: Text)
    requires OneLine(line)
    ensures FirstLine(line) == (line, [])
  {
    if line != [] {
      LastLineEnds(line[1..]);
      assert line == [line[0]] + line[1..];
    }
  }
}
