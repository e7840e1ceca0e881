/** The generated ledger: orders drawn down into invoices, payment runs and their totals, in cents. */
module Ledger {
  import opened Texts
  import opened Counting
  import opened Sorting
  import opened Rounding
  import opened Dates

  // ------------------------------------------------------------ payment runs

  datatype PaymentRun = PaymentRun(name: Text, closes: Date)

  function RunOf2026(month: nat, day: nat): PaymentRun {
    PaymentRun(Lit("PR-RUN-2026") + Pad(month, 2), Date(2026, month, day))
  }

  const CLOSING_DAYS: seq<nat> := [26, 30, 29, 28, 29, 30, 28]

  /** The runs of February to August. */
  const PAYMENT_RUNS: seq<PaymentRun> :=
    seq(7, i requires 0 <= i < 7 => RunOf2026(i + 2, CLOSING_DAYS[i]))

  predicate ValidRuns(runs: seq<PaymentRun>) {
    runs != [] && forall r | r in runs :: Valid(r.closes)
  }

  /** `item[1]` of the dict items: the closing date as text. */
  predicate ClosesLe(a: PaymentRun, b: PaymentRun) {
    if Valid(a.closes) && Valid(b.closes) then LexLe(Iso(a.closes), Iso(b.closes))
    else !Valid(b.closes)
  }

  predicate NameLe(a: PaymentRun, b: PaymentRun) {
    LexLe(a.name, b.name)
  }

  /** `max(PAYMENT_RUN_DATES)`: the greatest name. */
  function LastNamed(runs: seq<PaymentRun>): (r: PaymentRun)
    requires runs != []
    ensures r in runs
  {
    if |runs| == 1 then runs[0]
    else
      var best := LastNamed(runs[..|runs| - 1]);
      if NameLe(runs[|runs| - 1], best) then best else runs[|runs| - 1]
  }

  lemma ClosesLePreorder()
    ensures TotalPreorder(ClosesLe)
  {
    forall x: PaymentRun, y: PaymentRun ensures ClosesLe(x, y) || ClosesLe(y, x) {
      if Valid(x.closes) && Valid(y.closes) {
        LexTotal(Iso(x.closes), Iso(y.closes));
      }
    }
    forall x: PaymentRun, y: PaymentRun, z: PaymentRun | ClosesLe(x, y) && ClosesLe(y, z) ensures ClosesLe(x, z) {
      if Valid(x.closes) && Valid(y.closes) && Valid(z.closes) {
        LexTransitive(Iso(x.closes), Iso(y.closes), Iso(z.closes));
      }
    }
  }

  /** The earliest run that closes on or after a day. */
  predicate EarliestOpen(runs: seq<PaymentRun>, d: Date, r: PaymentRun) {
    && r in runs && Ordinal(d) <= Ordinal(r.closes)
    && forall other | other in runs && Ordinal(d) <= Ordinal(other.closes) :: Ordinal(r.closes) <= Ordinal(other.closes)
  }

  /** The earliest run still open, or the last-named one when every run has closed. */
  predicate ChosenRun(runs: seq<PaymentRun>, d: Date, r: PaymentRun)
    requires runs != []
  {
    EarliestOpen(runs, d, r)
    || (r == LastNamed(runs) && forall other | other in runs :: Ordinal(other.closes) < Ordinal(d))
  }

  lemma RunsByClosing(runs: seq<PaymentRun>)
    ensures var sorted := Sort(ClosesLe, runs);
      Sorted(ClosesLe, sorted) && forall x :: x in sorted <==> x in runs
  {
    ClosesLePreorder();
    SortFacts(ClosesLe, runs);
    hide Sort, Sorted, ClosesLe;
    assert forall x :: x in Sort(ClosesLe, runs) <==> x in multiset(Sort(ClosesLe, runs));
    assert forall x :: x in runs <==> x in multiset(runs);
  }

  /** `_payment_run_for`. */
  method PaymentRunFor(runs: seq<PaymentRun>, d: Date) returns (r: PaymentRun)
    requires ValidRuns(runs) && Valid(d)
    ensures r in runs && ChosenRun(runs, d, r)
  {
    hide Ordinal, Sort, Sorted, LastNamed, ClosesLe, Valid, EarliestOpen;
    var sorted := Sort(ClosesLe, runs);
    RunsByClosing(runs);
    for i := 0 to |sorted|
      invariant forall j | 0 <= j < i :: Ordinal(sorted[j].closes) < Ordinal(d)
    {
      if Ordinal(d) <= Ordinal(sorted[i].closes) {
        FirstOpen(runs, sorted, d, i);
        return sorted[i];
      }
    }
    return LastNamed(runs);
  }

  lemma FirstOpen(runs: seq<PaymentRun>, sorted: seq<PaymentRun>, d: Date, i: int)
    requires ValidRuns(runs) && Sorted(ClosesLe, sorted) && forall x :: x in sorted <==> x in runs
    requires 0 <= i < |sorted| && Ordinal(d) <= Ordinal(sorted[i].closes)
    requires forall j | 0 <= j < i :: Ordinal(sorted[j].closes) < Ordinal(d)
    ensures EarliestOpen(runs, d, sorted[i])
  {
    hide Ordinal, Iso, Valid;
    assert sorted[i] in runs;
    forall other | other in runs && Ordinal(d) <= Ordinal(other.closes)
      ensures Ordinal(sorted[i].closes) <= Ordinal(other.closes)
    {
      assert other in sorted;
      var k :| 0 <= k < |sorted| && sorted[k] == other;
      IsoOrder(sorted[i].closes, sorted[k].closes);
      assert k == i || ClosesLe(sorted[i], sorted[k]);
    }
  }

  /** The greatest name closes last. */
  predicate NamesFollowDates(runs: seq<PaymentRun>)
    requires runs != []
  {
    forall r | r in runs :: Ordinal(r.closes) <= Ordinal(LastNamed(runs).closes)
  }

  /** A later invoice never falls into an earlier run, for a table whose last name closes last. */
  lemma RunMonotone(runs: seq<PaymentRun>, d1: Date, d2: Date, r1: PaymentRun, r2: PaymentRun)
    requires runs != [] && NamesFollowDates(runs) && Ordinal(d1) <= Ordinal(d2)
    requires ChosenRun(runs, d1, r1) && ChosenRun(runs, d2, r2)
    ensures Ordinal(r1.closes) <= Ordinal(r2.closes)
  {
  }

  /** The run closes after the date exactly when some run does and none closes on the very day. */
  lemma ClosesAfterExactly(runs: seq<PaymentRun>, d: Date, r: PaymentRun)
    requires runs != [] && ChosenRun(runs, d, r)
    ensures Ordinal(d) < Ordinal(r.closes)
      <==> ((exists other | other in runs :: Ordinal(d) < Ordinal(other.closes))
            && forall other | other in runs :: Ordinal(other.closes) != Ordinal(d))
  {
    hide Ordinal, LastNamed;
  }

  /** An invoice dated the day its run closes, and one dated after the last run has closed. */
  lemma ClosesTooEarly(onTheDay: PaymentRun, afterAll: PaymentRun)
    requires ChosenRun(PAYMENT_RUNS, Date(2026, 7, 30), onTheDay)
    requires ChosenRun(PAYMENT_RUNS, Date(2026, 9, 1), afterAll)
    ensures onTheDay == PAYMENT_RUNS[5] && Ordinal(onTheDay.closes) == Ordinal(Date(2026, 7, 30))
    ensures afterAll == PAYMENT_RUNS[6] && Ordinal(afterAll.closes) < Ordinal(Date(2026, 9, 1))
  {
    hide Ordinal, ChosenRun;
    assert PAYMENT_RUNS[5].closes == Date(2026, 7, 30) && PAYMENT_RUNS[6].closes == Date(2026, 8, 28);
    BeforeMeansEarlier(PAYMENT_RUNS[6].closes, Date(2026, 9, 1));
    ChosenAt(5, Date(2026, 7, 30), onTheDay);
    ChosenAfter(Date(2026, 9, 1), afterAll);
  }

  lemma ChosenAt(i: int, d: Date, r: PaymentRun)
    requires 0 <= i < 7 && Ordinal(d) == Ordinal(PAYMENT_RUNS[i].closes) && ChosenRun(PAYMENT_RUNS, d, r)
    ensures r == PAYMENT_RUNS[i]
  {
    hide Ordinal, LastNamed;
    assert PAYMENT_RUNS[i] in PAYMENT_RUNS;
    assert EarliestOpen(PAYMENT_RUNS, d, r);
    var j :| 0 <= j < |PAYMENT_RUNS| && PAYMENT_RUNS[j] == r;
    RunsAt(i, j);
    RunsAt(j, i);
  }

  lemma ChosenAfter(d: Date, r: PaymentRun)
    requires Ordinal(PAYMENT_RUNS[6].closes) < Ordinal(d) && ChosenRun(PAYMENT_RUNS, d, r)
    ensures r == PAYMENT_RUNS[6]
  {
    hide Ordinal, LastNamed;
    PaymentRunsFacts();
    forall j | 0 <= j < |PAYMENT_RUNS| ensures Ordinal(PAYMENT_RUNS[j].closes) < Ordinal(d) {
      RunsAt(j, 6);
    }
  }

  lemma {:induction false} LexPrefix(p: Text, a: Text, b: Text)
    ensures LexLe(p + a, p + b) <==> LexLe(a, b)
  {
    if p == [] {
      assert p + a == a && p + b == b;
    } else {
      assert (p + a)[1..] == p[1..] + a && (p + b)[1..] == p[1..] + b;
      LexPrefix(p[1..], a, b);
    }
  }

  lemma RunNames(a: nat, b: nat, x: nat, y: nat)
    requires a <= 99 && b <= 99
    ensures NameLe(RunOf2026(a, x), RunOf2026(b, y)) <==> a <= b
  {
    WidthFits(a, b, 2);
    LexPrefix(Lit("PR-RUN-2026"), Pad(a, 2), Pad(b, 2));
    PadOrder(a, b, 2, [], []);
    assert Pad(a, 2) + [] == Pad(a, 2) && Pad(b, 2) + [] == Pad(b, 2);
  }

  lemma RunsAt(i: int, j: int)
    requires 0 <= i < |PAYMENT_RUNS| && 0 <= j < |PAYMENT_RUNS|
    ensures Valid(PAYMENT_RUNS[i].closes)
    ensures NameLe(PAYMENT_RUNS[i], PAYMENT_RUNS[j]) <==> i <= j
    ensures Ordinal(PAYMENT_RUNS[i].closes) <= Ordinal(PAYMENT_RUNS[j].closes) <==> i <= j
  {
    hide NameLe, Ordinal;
    RunNames(i + 2, j + 2, CLOSING_DAYS[i], CLOSING_DAYS[j]);
    ClosingDay(i);
    ClosingDay(j);
    if i < j {
      BeforeMeansEarlier(PAYMENT_RUNS[i].closes, PAYMENT_RUNS[j].closes);
    } else if j < i {
      BeforeMeansEarlier(PAYMENT_RUNS[j].closes, PAYMENT_RUNS[i].closes);
    }
  }

  lemma ClosingDay(i: int)
    requires 0 <= i < 7
    ensures Valid(Date(2026, i + 2, CLOSING_DAYS[i]))
  {
  }

  predicate DistinctRuns(runs: seq<PaymentRun>) {
    forall i, j | 0 <= i < j < |runs| :: runs[i].name != runs[j].name
  }

  /** The table in use is one of those: its names are distinct and its last name closes last. */
  lemma PaymentRunsFacts()
    ensures ValidRuns(PAYMENT_RUNS) && NamesFollowDates(PAYMENT_RUNS) && DistinctRuns(PAYMENT_RUNS)
    ensures LastNamed(PAYMENT_RUNS) == PAYMENT_RUNS[6]
  {
    hide NameLe, Ordinal, Valid, LastNamed;
    var runs := PAYMENT_RUNS;
    forall i, j | 0 <= i < |runs| && 0 <= j < |runs|
      ensures NameLe(runs[i], runs[j]) <==> i <= j
      ensures Ordinal(runs[i].closes) <= Ordinal(runs[j].closes) <==> i <= j
      ensures Valid(runs[i].closes)
    {
      RunsAt(i, j);
    }
    LastOfAscending(runs);
    forall i, j | 0 <= i < j < |runs| ensures runs[i].name != runs[j].name {
      assert NameLe(runs[i], runs[j]) && !NameLe(runs[j], runs[i]);
      SameNames(runs[i], runs[j]);
    }
  }

  lemma SameNames(a: PaymentRun, b: PaymentRun)
    ensures a.name == b.name ==> (NameLe(a, b) <==> NameLe(b, a))
  {
  }

  lemma {:induction false} LastOfAscending(runs: seq<PaymentRun>)
    requires runs != [] && forall i, j | 0 <= i < |runs| && 0 <= j < |runs| :: NameLe(runs[i], runs[j]) <==> i <= j
    ensures LastNamed(runs) == runs[|runs| - 1]
  {
    if |runs| > 1 {
      var front := runs[..|runs| - 1];
      LastOfAscending(front);
      assert LastNamed(front) == runs[|runs| - 2];
    }
  }

  // --------------------------------------------------------------- draw-down

  /** One invoice's random share of its order, and its date. */
  datatype Draw = Draw(fraction: real, on: Date)

  datatype Order = Order(id: Text, cents: nat, draws: seq<Draw>)

  datatype Invoice = Invoice(id: Text, orderId: Text, cents: int, on: Date, run: Text)

  predicate ValidOrder(o: Order) {
    o.draws != [] && forall d | d in o.draws :: d.fraction >= 0.0 && Valid(d.on)
  }

  function Cents(): Invoice -> int {
    (i: Invoice) => i.cents
  }

  function InRun(name: Text): Invoice -> bool {
    (i: Invoice) => i.run == name
  }

  predicate NonNegative(rows: seq<Invoice>) {
    forall r | r in rows :: r.cents >= 0
  }

  predicate Listed(runs: seq<PaymentRun>, name: Text) {
    exists i | 0 <= i < |runs| :: runs[i].name == name
  }

  /** The row carries the name of the run its date falls in. */
  predicate Placed(runs: seq<PaymentRun>, row: Invoice) {
    runs != [] && exists r | r in runs :: r.name == row.run && ChosenRun(runs, row.on, r)
  }

  predicate AllPlaced(runs: seq<PaymentRun>, rows: seq<Invoice>) {
    forall r | r in rows :: Placed(runs, r)
  }

  lemma PlacedListed(runs: seq<PaymentRun>, row: Invoice)
    requires Placed(runs, row)
    ensures Listed(runs, row.run)
  {
    var r :| r in runs && r.name == row.run;
    var i :| 0 <= i < |runs| && runs[i] == r;
  }

  /** `round(amount * fraction, 2)`. */
  function Part(cents: nat, fraction: real): int {
    RoundHalfEven(cents as real * fraction)
  }

  /** What the draws before the `i`-th took from the order. */
  function Drawn(o: Order, i: nat): int
    requires i <= |o.draws|
    decreases i, 0
  {
    if i == 0 then 0 else Drawn(o, i - 1) + ShareOf(o, i - 1)
  }

  /** A draw takes its fraction of the order, the last one the rest, and none more than is left. */
  function ShareOf(o: Order, i: nat): int
    requires i < |o.draws|
    decreases i, 1
  {
    var left := o.cents - Drawn(o, i);
    var share := if i == |o.draws| - 1 then left else Part(o.cents, o.draws[i].fraction);
    if share <= left then share else left
  }

  function InvoiceId(number: nat): Text {
    Lit("INV-") + Decimal(number)
  }

  /** One more row in its run: its cents join the sum. */
  lemma RowAdded(runs: seq<PaymentRun>, rows: seq<Invoice>, row: Invoice, run: PaymentRun)
    requires AllPlaced(runs, rows) && run in runs && row.run == run.name && ChosenRun(runs, row.on, run)
    ensures AllPlaced(runs, rows + [row])
    ensures Sum(Cents(), rows + [row]) == Sum(Cents(), rows) + row.cents
  {
    SumConcat(Cents(), rows, [row]);
    SumOne(Cents(), row);
  }

  /** The loop over one order's draws: the shares are never negative and add up to the order, to the cent. */
  method DrawDown(runs: seq<PaymentRun>, o: Order, number: nat) returns (rows: seq<Invoice>)
    requires ValidRuns(runs) && ValidOrder(o)
    ensures |rows| == |o.draws| >= 1 && NonNegative(rows) && AllPlaced(runs, rows)
    ensures Sum(Cents(), rows) == o.cents
    ensures NumberedFrom(rows, number)
    ensures forall i | 0 <= i < |rows| ::
      rows[i].orderId == o.id && rows[i].on == o.draws[i].on && rows[i].cents == ShareOf(o, i)
  {
    hide AllPlaced, ValidRuns, Valid, Sum, ChosenRun, LastNamed, InvoiceId, Part, NumberedFrom;
    rows := [];
    var remaining := o.cents;
    NonePlaced(runs);
    NoneNumbered(number);
    for i := 0 to |o.draws|
      invariant |rows| == i && NonNegative(rows) && AllPlaced(runs, rows)
      invariant 0 <= remaining == o.cents - Drawn(o, i) && Sum(Cents(), rows) + remaining == o.cents
      invariant i == |o.draws| ==> remaining == 0
      invariant NumberedFrom(rows, number)
      invariant forall j | 0 <= j < i ::
        rows[j].orderId == o.id && rows[j].on == o.draws[j].on && rows[j].cents == ShareOf(o, j)
    {
      var d := o.draws[i];
      assert d in o.draws;
      var share := if i == |o.draws| - 1 then remaining else Part(o.cents, d.fraction);
      ShareNonNegative(o.cents, d.fraction);
      share := if share <= remaining then share else remaining;
      remaining := remaining - share;
      assert share >= 0;
      var run := PaymentRunFor(runs, d.on);
      var row := Invoice(InvoiceId(number + i), o.id, share, d.on, run.name);
      assert forall r | r in rows + [row] :: r in rows || r == row;
      RowAdded(runs, rows, row, run);
      NumberedNext(rows, row, number);
      rows := rows + [row];
    }
  }

  lemma NonePlaced(runs: seq<PaymentRun>)
    ensures AllPlaced(runs, []) && Sum(Cents(), []) == 0
  {
  }

  lemma ShareNonNegative(cents: nat, fraction: real)
    requires fraction >= 0.0
    ensures Part(cents, fraction) >= 0
  {
    var x := cents as real * fraction;
    assert x >= 0.0;
    RoundingMonotone(0.0, x);
  }

  function OrderCents(): Order -> int {
    (o: Order) => o.cents
  }

  function DrawCount(): Order -> int {
    (o: Order) => |o.draws|
  }

  // -------------------------------------------------------------- the ledger

  datatype Line = Line(orderId: Text, cents: int, on: Date)

  function LineCents(): Line -> int {
    (l: Line) => l.cents
  }

  /** The invoice a line makes, its run aside. */
  predicate IsLine(row: Invoice, l: Line, prefix: Text, number: nat) {
    row.id == prefix + Decimal(number) && row.orderId == l.orderId && row.cents == l.cents && row.on == l.on
  }

  /** Orphan invoices and credit notes, appended line by line under a prefix. */
  method AppendLines(runs: seq<PaymentRun>, rows: seq<Invoice>, lines: seq<Line>, prefix: Text, number: nat)
    returns (all: seq<Invoice>)
    requires ValidRuns(runs) && AllPlaced(runs, rows) && forall l | l in lines :: Valid(l.on)
    ensures rows <= all && |all| == |rows| + |lines| && AllPlaced(runs, all)
    ensures forall i | 0 <= i < |lines| :: IsLine(all[|rows| + i], lines[i], prefix, number + i)
    ensures Sum(Cents(), all) == Sum(Cents(), rows) + Sum(LineCents(), lines)
  {
    hide AllPlaced, ValidRuns, Valid, ChosenRun, LastNamed, Decimal;
    all := rows;
    for i := 0 to |lines|
      invariant rows <= all && |all| == |rows| + i && AllPlaced(runs, all)
      invariant forall j | 0 <= j < i :: IsLine(all[|rows| + j], lines[j], prefix, number + j)
      invariant Sum(Cents(), all) == Sum(Cents(), rows) + Sum(LineCents(), lines[..i])
    {
      var l := lines[i];
      assert l in lines;
      var run := PaymentRunFor(runs, l.on);
      var row := Invoice(prefix + Decimal(number + i), l.orderId, l.cents, l.on, run.name);
      RowAdded(runs, all, row, run);
      SumNext(LineCents(), lines, i);
      all := all + [row];
    }
    assert lines[..|lines|] == lines;
  }

  lemma SumNext<T>(f: T -> int, s: seq<T>, i: int)
    requires 0 <= i < |s|
    ensures Sum(f, s[..i + 1]) == Sum(f, s[..i]) + f(s[i])
  {
    assert s[..i + 1] == s[..i] + [s[i]];
    SumConcat(f, s[..i], [s[i]]);
    SumOne(f, s[i]);
  }

  const DUPLICATED_ROW := 118
  const FIRST_NUMBER := 9100

  /** The sort key `(invoice_date, invoice_id)`. */
  predicate RowLe(a: Invoice, b: Invoice) {
    if Valid(a.on) && Valid(b.on) then
      LexLe(Iso(a.on), Iso(b.on)) && (LexLe(Iso(b.on), Iso(a.on)) ==> LexLe(a.id, b.id))
    else !Valid(b.on)
  }

  /** The draws of all the orders, in order. */
  method DrawAll(runs: seq<PaymentRun>, orders: seq<Order>) returns (rows: seq<Invoice>)
    requires ValidRuns(runs) && forall o | o in orders :: ValidOrder(o)
    ensures |rows| >= |orders| && NonNegative(rows) && AllPlaced(runs, rows)
    ensures |rows| == Sum(DrawCount(), orders) && Sum(Cents(), rows) == Sum(OrderCents(), orders)
    ensures NumberedFrom(rows, 9100)
  {
    hide AllPlaced, ValidRuns, Valid, ValidOrder, ShareOf, NumberedFrom, Sum;
    rows := [];
    NonePlaced(runs);
    NoOrders(orders);
    for i := 0 to |orders|
      invariant |rows| >= i && NonNegative(rows) && AllPlaced(runs, rows)
      invariant |rows| == Sum(DrawCount(), orders[..i])
      invariant Sum(Cents(), rows) == Sum(OrderCents(), orders[..i])
      invariant NumberedFrom(rows, 9100)
    {
      assert orders[i] in orders;
      var drawn := DrawDown(runs, orders[i], FIRST_NUMBER + |rows|);
      SumConcat(Cents(), rows, drawn);
      SumNext(OrderCents(), orders, i);
      SumNext(DrawCount(), orders, i);
      PlacedConcat(runs, rows, drawn);
      NumberedConcat(rows, drawn, 9100);
      rows := rows + drawn;
    }
    assert orders[..|orders|] == orders;
  }

  predicate NumberedFrom(rows: seq<Invoice>, number: nat) {
    forall i | 0 <= i < |rows| :: rows[i].id == Lit("INV-") + Decimal(number + i)
  }

  lemma NumberedNext(rows: seq<Invoice>, row: Invoice, number: nat)
    requires NumberedFrom(rows, number) && row.id == InvoiceId(number + |rows|)
    ensures NumberedFrom(rows + [row], number)
  {
    hide Lit, Decimal;
  }

  lemma NoneNumbered(number: nat)
    ensures NumberedFrom([], number)
  {
  }

  lemma NoOrders(orders: seq<Order>)
    ensures Sum(DrawCount(), orders[..0]) == 0 && Sum(OrderCents(), orders[..0]) == 0 && NumberedFrom([], 9100)
  {
  }

  lemma NumberedConcat(a: seq<Invoice>, b: seq<Invoice>, number: nat)
    requires NumberedFrom(a, number) && NumberedFrom(b, number + |a|)
    ensures NumberedFrom(a + b, number)
  {
    hide Lit, Decimal;
    forall i | 0 <= i < |a + b| ensures (a + b)[i].id == Lit("INV-") + Decimal(number + i) {
      if i >= |a| {
        assert (a + b)[i] == b[i - |a|];
      }
    }
  }

  lemma PlacedConcat(runs: seq<PaymentRun>, a: seq<Invoice>, b: seq<Invoice>)
    requires AllPlaced(runs, a) && AllPlaced(runs, b)
    ensures AllPlaced(runs, a + b)
  {
  }

  lemma SortKeepsRows(runs: seq<PaymentRun>, rows: seq<Invoice>)
    requires AllPlaced(runs, rows)
    ensures AllPlaced(runs, Sort(RowLe, rows)) && Sum(Cents(), Sort(RowLe, rows)) == Sum(Cents(), rows)
    ensures multiset(Sort(RowLe, rows)) == multiset(rows) && Sorted(RowLe, Sort(RowLe, rows))
    ensures |Sort(RowLe, rows)| == |rows|
  {
    hide RowLe, Sort, Sorted, Sum, Placed;
    var sorted := Sort(RowLe, rows);
    RowLePreorder();
    SortFacts(RowLe, rows);
    SumPermuted(Cents(), rows, sorted);
    assert forall x :: x in sorted <==> x in multiset(sorted);
    assert forall x :: x in rows <==> x in multiset(rows);
  }

  /** The invoice rows of `write_finance`: draws, orphans, credits, and one line entered twice. */
  method InvoiceRows(runs: seq<PaymentRun>, orders: seq<Order>, orphans: seq<Line>, credits: seq<Line>)
    returns (rows: seq<Invoice>, twice: Invoice, ghost entered: seq<Invoice>)
    requires ValidRuns(runs) && forall o | o in orders :: ValidOrder(o)
    requires forall l | l in orphans :: Valid(l.on)
    requires forall l | l in credits :: Valid(l.on)
    requires Sum(DrawCount(), orders) + |orphans| + |credits| > DUPLICATED_ROW
    ensures AllPlaced(runs, rows) && Sorted(RowLe, rows)
    ensures |entered| == Sum(DrawCount(), orders) + |orphans| + |credits| && twice == entered[118]
    ensures multiset(rows) == multiset(entered + [twice])
    ensures var n := Sum(DrawCount(), orders) + |orphans|;
      && 0 <= n <= |entered| && NumberedFrom(entered[..n], 9100)
      && forall i | 0 <= i < |credits| :: IsLine(entered[n + i], credits[i], Lit("CN-"), 9100 + n + i)
    ensures multiset(rows)[twice] >= 2 && (Sum(DrawCount(), orders) > DUPLICATED_ROW ==> twice.cents >= 0)
    ensures |rows| == Sum(DrawCount(), orders) + |orphans| + |credits| + 1
    ensures Sum(Cents(), rows)
         == Sum(OrderCents(), orders) + Sum(LineCents(), orphans) + Sum(LineCents(), credits) + twice.cents
  {
    hide AllPlaced, ValidRuns, Valid, ValidOrder, RowLe, Sort, Sorted, Sum, NumberedFrom, IsLine;
    rows := DrawAll(runs, orders);
    ghost var drawn := rows;
    ghost var invoices;
    rows := AppendLines(runs, rows, orphans, Lit("INV-"), FIRST_NUMBER + |rows|);
    NumberedLines(drawn, rows, orphans);
    invoices := rows;
    rows := AppendLines(runs, rows, credits, Lit("CN-"), FIRST_NUMBER + |rows|);
    assert drawn <= rows && rows[..|invoices|] == invoices;
    twice, entered := rows[DUPLICATED_ROW], rows;
    rows := rows + [twice];
    DuplicateAdded(runs, rows[..|rows| - 1], twice);
    assert rows == rows[..|rows| - 1] + [twice];
    SortKeepsRows(runs, rows);
    assert rows[DUPLICATED_ROW] == twice;
    rows := Sort(RowLe, rows);
  }

  lemma NumberedLines(drawn: seq<Invoice>, all: seq<Invoice>, lines: seq<Line>)
    requires NumberedFrom(drawn, 9100) && drawn <= all && |all| == |drawn| + |lines|
    requires forall i | 0 <= i < |lines| :: IsLine(all[|drawn| + i], lines[i], Lit("INV-"), 9100 + |drawn| + i)
    ensures NumberedFrom(all, 9100)
  {
    hide Lit, Decimal;
    forall i | 0 <= i < |all| ensures all[i].id == Lit("INV-") + Decimal(9100 + i) {
      if i >= |drawn| {
        assert IsLine(all[|drawn| + (i - |drawn|)], lines[i - |drawn|], Lit("INV-"), 9100 + |drawn| + (i - |drawn|));
      } else {
        assert all[i] == drawn[i];
      }
    }
  }

  lemma DuplicateAdded(runs: seq<PaymentRun>, rows: seq<Invoice>, row: Invoice)
    requires AllPlaced(runs, rows) && row in rows
    ensures AllPlaced(runs, rows + [row]) && Sum(Cents(), rows + [row]) == Sum(Cents(), rows) + row.cents
  {
    SumConcat(Cents(), rows, [row]);
    SumOne(Cents(), row);
  }

  lemma RowLePreorder()
    ensures TotalPreorder(RowLe)
  {
    forall x: Invoice, y: Invoice ensures RowLe(x, y) || RowLe(y, x) {
      if Valid(x.on) && Valid(y.on) {
        LexTotal(Iso(x.on), Iso(y.on));
        LexTotal(x.id, y.id);
      }
    }
    forall x: Invoice, y: Invoice, z: Invoice | RowLe(x, y) && RowLe(y, z) ensures RowLe(x, z) {
      RowLeTransitive(x, y, z);
    }
  }

  lemma RowLeTransitive(x: Invoice, y: Invoice, z: Invoice)
    requires RowLe(x, y) && RowLe(y, z)
    ensures RowLe(x, z)
  {
    if Valid(x.on) && Valid(y.on) && Valid(z.on) {
      hide Iso, LexLe, Valid;
      LexTransitive(Iso(x.on), Iso(y.on), Iso(z.on));
      if LexLe(Iso(z.on), Iso(x.on)) {
        LexTransitive(Iso(y.on), Iso(z.on), Iso(x.on));
        LexTransitive(Iso(z.on), Iso(x.on), Iso(y.on));
        LexTransitive(x.id, y.id, z.id);
      }
    }
  }

  datatype RunTotal = RunTotal(count: int, cents: int)

  function TotalAt(m: map<Text, RunTotal>, name: Text): RunTotal {
    if name in m then m[name] else RunTotal(0, 0)
  }

  /** The run summary: each run's own rows, counted and summed. */
  method RunTotals(rows: seq<Invoice>) returns (totals: map<Text, RunTotal>)
    ensures forall name: Text ::
      TotalAt(totals, name) == RunTotal(Count(InRun(name), rows), Sum(Cents(), Filter(InRun(name), rows)))
  {
    totals := map[];
    for i := 0 to |rows|
      invariant forall name: Text ::
        TotalAt(totals, name) == RunTotal(Count(InRun(name), rows[..i]), Sum(Cents(), Filter(InRun(name), rows[..i])))
    {
      var row, before := rows[i], totals;
      var t := TotalAt(totals, row.run);
      totals := totals[row.run := RunTotal(t.count + 1, t.cents + row.cents)];
      forall name: Text
        ensures TotalAt(totals, name)
          == RunTotal(Count(InRun(name), rows[..i + 1]), Sum(Cents(), Filter(InRun(name), rows[..i + 1])))
      {
        assert TotalAt(before, name)
          == RunTotal(Count(InRun(name), rows[..i]), Sum(Cents(), Filter(InRun(name), rows[..i])));
        FilterNext(InRun(name), rows, i);
        SumConcat(Cents(), Filter(InRun(name), rows[..i]), [row]);
        SumOne(Cents(), row);
      }
    }
    assert rows[..|rows|] == rows;
  }

  /** The sheet's columns, added up over its runs. */
  function SheetCount(runs: seq<PaymentRun>, rows: seq<Invoice>): int {
    if runs == [] then 0 else Count(InRun(runs[0].name), rows) + SheetCount(runs[1..], rows)
  }

  function SheetCents(runs: seq<PaymentRun>, rows: seq<Invoice>): int {
    if runs == [] then 0 else Sum(Cents(), Filter(InRun(runs[0].name), rows)) + SheetCents(runs[1..], rows)
  }

  lemma {:induction false} SheetOfNone(runs: seq<PaymentRun>)
    ensures SheetCount(runs, []) == 0 && SheetCents(runs, []) == 0
  {
    if runs != [] {
      SheetOfNone(runs[1..]);
    }
  }

  lemma {:induction false} SheetNext(runs: seq<PaymentRun>, row: Invoice, rest: seq<Invoice>)
    requires DistinctRuns(runs)
    ensures SheetCount(runs, [row] + rest) == SheetCount(runs, rest) + (if Listed(runs, row.run) then 1 else 0)
    ensures SheetCents(runs, [row] + rest) == SheetCents(runs, rest) + (if Listed(runs, row.run) then row.cents else 0)
  {
    if runs != [] {
      SheetNext(runs[1..], row, rest);
      ListedHead(runs, row.run);
      hide Listed;
      RunNext(runs[0].name, row, rest);
    }
  }

  lemma ListedHead(runs: seq<PaymentRun>, name: Text)
    requires runs != [] && DistinctRuns(runs)
    ensures Listed(runs, name) <==> runs[0].name == name || Listed(runs[1..], name)
    ensures !(runs[0].name == name && Listed(runs[1..], name))
  {
    if i :| 0 <= i < |runs[1..]| && runs[1..][i].name == name {
      assert runs[i + 1].name == name;
    }
    if i :| 0 <= i < |runs| && runs[i].name == name {
      if i > 0 {
        assert runs[1..][i - 1].name == name;
      }
    }
  }

  lemma RunNext(name: Text, row: Invoice, rest: seq<Invoice>)
    ensures Count(InRun(name), [row] + rest) == Count(InRun(name), rest) + (if row.run == name then 1 else 0)
    ensures Sum(Cents(), Filter(InRun(name), [row] + rest))
         == Sum(Cents(), Filter(InRun(name), rest)) + (if row.run == name then row.cents else 0)
  {
    assert ([row] + rest)[1..] == rest;
    var mine := Filter(InRun(name), rest);
    assert ([row] + mine)[1..] == mine;
  }

  lemma {:induction false} SheetConserves(runs: seq<PaymentRun>, rows: seq<Invoice>)
    requires DistinctRuns(runs) && AllPlaced(runs, rows)
    ensures SheetCount(runs, rows) == |rows| && SheetCents(runs, rows) == Sum(Cents(), rows)
  {
    if rows == [] {
      SheetOfNone(runs);
    } else {
      assert rows == [rows[0]] + rows[1..];
      assert rows[0] in rows;
      PlacedListed(runs, rows[0]);
      SheetConserves(runs, rows[1..]);
      SheetNext(runs, rows[0], rows[1..]);
    }
  }

  /** The sheet accounts for every row and every cent: orders, orphans, credits and the duplicate. */
  method PaymentRunSheet(orders: seq<Order>, orphans: seq<Line>, credits: seq<Line>)
    returns (rows: seq<Invoice>, totals: map<Text, RunTotal>, twice: Invoice)
    requires forall o | o in orders :: ValidOrder(o)
    requires forall l | l in orphans :: Valid(l.on)
    requires forall l | l in credits :: Valid(l.on)
    requires Sum(DrawCount(), orders) + |orphans| + |credits| > DUPLICATED_ROW
    ensures forall name: Text ::
      TotalAt(totals, name) == RunTotal(Count(InRun(name), rows), Sum(Cents(), Filter(InRun(name), rows)))
    ensures SheetCount(PAYMENT_RUNS, rows) == |rows|
    ensures SheetCents(PAYMENT_RUNS, rows)
         == Sum(OrderCents(), orders) + Sum(LineCents(), orphans) + Sum(LineCents(), credits) + twice.cents
    ensures AllPlaced(PAYMENT_RUNS, rows) && multiset(rows)[twice] >= 2
  {
    PaymentRunsFacts();
    hide AllPlaced, ValidRuns, Valid, ValidOrder, DistinctRuns, SheetCount, SheetCents, Sum, RowLe;
    ghost var entered;
    rows, twice, entered := InvoiceRows(PAYMENT_RUNS, orders, orphans, credits);
    totals := RunTotals(rows);
    SheetConserves(PAYMENT_RUNS, rows);
  }

  // ------------------------------------------------- on the inputs' own fields

  /** A draw's part of the order is its fraction to the nearest cent, the even one of two. */
  lemma PartMeans(cents: nat, fraction: real)
    ensures var exact := cents as real * fraction;
      && -0.5 <= Part(cents, fraction) as real - exact <= 0.5
      && (exact - Part(cents, fraction) as real == 0.5 || Part(cents, fraction) as real - exact == 0.5
          ==> Part(cents, fraction) % 2 == 0)
  {
    RoundingError(cents as real * fraction);
  }

  /** What is drawn never exceeds the order, and each draw but the last takes its part or all that is left. */
  lemma ShareMeans(o: Order, i: nat)
    requires i < |o.draws|
    ensures var left := o.cents - Drawn(o, i);
      && Drawn(o, i + 1) == Drawn(o, i) + ShareOf(o, i)
      && (i == |o.draws| - 1 ==> ShareOf(o, i) == left)
      && (i < |o.draws| - 1 && Part(o.cents, o.draws[i].fraction) <= left
          ==> ShareOf(o, i) == Part(o.cents, o.draws[i].fraction))
      && (i < |o.draws| - 1 && Part(o.cents, o.draws[i].fraction) > left ==> ShareOf(o, i) == left)
  {
    hide Part;
  }

  /** The runs in use, by name and closing date. */
  lemma TableMeans()
    ensures |PAYMENT_RUNS| == 7
    ensures PAYMENT_RUNS[0] == PaymentRun(Lit("PR-RUN-202602"), Date(2026, 2, 26))
    ensures PAYMENT_RUNS[1] == PaymentRun(Lit("PR-RUN-202603"), Date(2026, 3, 30))
    ensures PAYMENT_RUNS[2] == PaymentRun(Lit("PR-RUN-202604"), Date(2026, 4, 29))
    ensures PAYMENT_RUNS[3] == PaymentRun(Lit("PR-RUN-202605"), Date(2026, 5, 28))
    ensures PAYMENT_RUNS[4] == PaymentRun(Lit("PR-RUN-202606"), Date(2026, 6, 29))
    ensures PAYMENT_RUNS[5] == PaymentRun(Lit("PR-RUN-202607"), Date(2026, 7, 30))
    ensures PAYMENT_RUNS[6] == PaymentRun(Lit("PR-RUN-202608"), Date(2026, 8, 28))
  {
    RunNamed(2, "PR-RUN-202602");
    RunNamed(3, "PR-RUN-202603");
    RunNamed(4, "PR-RUN-202604");
    RunNamed(5, "PR-RUN-202605");
    RunNamed(6, "PR-RUN-202606");
    RunNamed(7, "PR-RUN-202607");
    RunNamed(8, "PR-RUN-202608");
    hide Lit, Pad;
  }

  lemma RunNamed(month: nat, name: string)
    requires 1 <= month <= 9 && name == "PR-RUN-20260" + [(48 + month) as char]
    ensures Lit("PR-RUN-2026") + Pad(month, 2) == Lit(name)
  {
    assert Pad(month, 2) == [48, 48 + month] by {
      assert Pad(0, 1) == [48];
    }
  }

  /** Rows are ordered by date and then by number. */
  lemma RowOrder(a: Invoice, b: Invoice)
    requires Valid(a.on) && Valid(b.on)
    ensures RowLe(a, b) <==> Ordinal(a.on) < Ordinal(b.on) || (a.on == b.on && LexLe(a.id, b.id))
  {
    hide LexLe, Ordinal, Iso;
    IsoOrder(a.on, b.on);
    IsoOrder(b.on, a.on);
    LexTotal(Iso(a.on), Iso(b.on));
    if LexLe(Iso(a.on), Iso(b.on)) && LexLe(Iso(b.on), Iso(a.on)) {
      LexAntisymmetric(Iso(a.on), Iso(b.on));
    }
    assert a.on == b.on ==> Ordinal(a.on) == Ordinal(b.on);
  }

  /** The last-named run has the greatest name of the table. */
  lemma {:induction false} LastNamedMeans(runs: seq<PaymentRun>, r: PaymentRun)
    requires r in runs
    ensures LexLe(r.name, LastNamed(runs).name)
  {
    hide LexLe;
    if |runs| == 1 {
      LexTotal(r.name, r.name);
    } else {
      var front, last := runs[..|runs| - 1], runs[|runs| - 1];
      assert runs == front + [last];
      var best := LastNamed(front);
      LexTotal(last.name, best.name);
      LexTotal(r.name, r.name);
      if r in front {
        LastNamedMeans(front, r);
        if !NameLe(last, best) {
          LexTransitive(r.name, best.name, last.name);
        }
      }
    }
  }
}
