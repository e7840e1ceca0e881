/** What an audit cost, what a larger one would, and how many a budget buys, in exact numbers. */
module Economics {
  import opened Texts
  import opened Counting
  import opened Sorting
  import opened Rounding

  /** A recorded span; `None` is an attribute that is absent, null or empty. */
  datatype Span = Span(name: Text, model: Option<Text>, input: Option<int>, output: Option<int>)

  datatype ModelUsage = ModelUsage(model: Text, calls: nat, input: int, output: int)

  datatype Price = Price(input: real, output: real)

  const MODEL_SPAN := Lit("assuranceos.model.generate")
  const PRICED_MODEL := Lit("gemini-3.7-flash")

  /** USD per million tokens; a model without a published price costs nothing. */
  function ListPrice(model: Text): Price {
    if model == PRICED_MODEL then Price(1.5, 7.5) else Price(0.0, 0.0)
  }

  function IntroductoryPrice(model: Text): Price {
    if model == PRICED_MODEL then Price(0.75, 3.75) else Price(0.0, 0.0)
  }

  function Tokens(n: Option<int>): int {
    if n.Some? then n.value else 0
  }

  /** `attributes.get("gen_ai.response.model") or "unknown"`. */
  function ServedBy(s: Span): Text {
    if s.model.None? || s.model.value == [] then Lit("unknown") else s.model.value
  }

  predicate IsMetered(model: Text) {
    model != Lit("scripted") && model != Lit("unknown") && model != []
  }

  function IsModelSpan(): Span -> bool {
    (s: Span) => s.name == MODEL_SPAN
  }

  function ServedSpan(model: Text): Span -> bool {
    (s: Span) => s.name == MODEL_SPAN && ServedBy(s) == model
  }

  function ModelSpans(spans: seq<Span>): seq<Span> {
    Filter(IsModelSpan(), spans)
  }

  // ------------------------------------------------------------------- usage

  /** `setdefault` and the three additions on the totals of one model. */
  function AddSpan(totals: seq<ModelUsage>, s: Span): seq<ModelUsage> {
    if totals == [] then [ModelUsage(ServedBy(s), 1, Tokens(s.input), Tokens(s.output))]
    else if totals[0].model == ServedBy(s) then
      [ModelUsage(totals[0].model, totals[0].calls + 1, totals[0].input + Tokens(s.input),
                  totals[0].output + Tokens(s.output))] + totals[1..]
    else [totals[0]] + AddSpan(totals[1..], s)
  }

  function TotalsOf(spans: seq<Span>): seq<ModelUsage> {
    if spans == [] then []
    else
      var front, last := TotalsOf(spans[..|spans| - 1]), spans[|spans| - 1];
      if last.name == MODEL_SPAN then AddSpan(front, last) else front
  }

  predicate ModelLe(a: ModelUsage, b: ModelUsage) {
    LexLe(a.model, b.model)
  }

  function UsageOf(spans: seq<Span>): seq<ModelUsage> {
    Sort(ModelLe, TotalsOf(spans))
  }

  /** `_usage`. */
  method Usage(spans: seq<Span>) returns (usage: seq<ModelUsage>)
    ensures usage == UsageOf(spans)
  {
    var totals: seq<ModelUsage> := [];
    for i := 0 to |spans|
      invariant totals == TotalsOf(spans[..i])
    {
      assert spans[..i + 1][..i] == spans[..i];
      if spans[i].name != MODEL_SPAN {
        continue;
      }
      totals := AddSpan(totals, spans[i]);
    }
    assert spans[..|spans|] == spans;
    usage := Sort(ModelLe, totals);
  }

  function Calls(): ModelUsage -> int { (u: ModelUsage) => u.calls }
  function Input(): ModelUsage -> int { (u: ModelUsage) => u.input }
  function Output(): ModelUsage -> int { (u: ModelUsage) => u.output }
  function SpanInput(): Span -> int { (s: Span) => Tokens(s.input) }
  function SpanOutput(): Span -> int { (s: Span) => Tokens(s.output) }

  /** The measured totals of `_measured`. */
  datatype Measured = Measured(calls: nat, input: int, output: int)

  function MeasuredOf(spans: seq<Span>): Measured {
    var model := ModelSpans(spans);
    Measured(|model|, Sum(SpanInput(), model), Sum(SpanOutput(), model))
  }

  predicate DistinctModels(totals: seq<ModelUsage>) {
    forall i, j | 0 <= i < j < |totals| :: totals[i].model != totals[j].model
  }

  predicate HasModel(totals: seq<ModelUsage>, model: Text) {
    exists i | 0 <= i < |totals| :: totals[i].model == model
  }

  lemma {:induction false} AddSpanFacts(totals: seq<ModelUsage>, s: Span)
    requires DistinctModels(totals)
    ensures DistinctModels(AddSpan(totals, s))
    ensures forall m: Text :: HasModel(AddSpan(totals, s), m) <==> HasModel(totals, m) || m == ServedBy(s)
    ensures Sum(Calls(), AddSpan(totals, s)) == Sum(Calls(), totals) + 1
    ensures Sum(Input(), AddSpan(totals, s)) == Sum(Input(), totals) + Tokens(s.input)
    ensures Sum(Output(), AddSpan(totals, s)) == Sum(Output(), totals) + Tokens(s.output)
  {
    var next := AddSpan(totals, s);
    if totals == [] {
      HasModelHead(next[0], []);
      SumOne(Calls(), next[0]);
      SumOne(Input(), next[0]);
      SumOne(Output(), next[0]);
      assert next == [next[0]] + [];
    } else {
      assert next == [next[0]] + next[1..] && totals == [totals[0]] + totals[1..];
      HasModelHead(totals[0], totals[1..]);
      HasModelHead(next[0], next[1..]);
      if totals[0].model != ServedBy(s) {
        AddSpanFacts(totals[1..], s);
      } else {
        assert next[1..] == totals[1..];
      }
    }
  }

  lemma HasModelHead(u: ModelUsage, rest: seq<ModelUsage>)
    ensures forall m: Text :: HasModel([u] + rest, m) <==> u.model == m || HasModel(rest, m)
    ensures DistinctModels([u] + rest) <==> DistinctModels(rest) && !HasModel(rest, u.model)
  {
    var all := [u] + rest;
    forall m: Text | u.model == m || HasModel(rest, m) ensures HasModel(all, m) {
      if u.model == m {
        assert all[0].model == m;
      } else {
        var i :| 0 <= i < |rest| && rest[i].model == m;
        assert all[i + 1].model == m;
      }
    }
    if DistinctModels(all) {
      forall i | 0 <= i < |rest| ensures rest[i].model != u.model {
        assert all[i + 1] == rest[i] && all[0] == u;
      }
      forall i, j | 0 <= i < j < |rest| ensures rest[i].model != rest[j].model {
        assert all[i + 1] == rest[i] && all[j + 1] == rest[j];
      }
    }
  }

  predicate Serves(spans: seq<Span>, model: Text) {
    exists s | s in ModelSpans(spans) :: ServedBy(s) == model
  }

  lemma {:induction false} TotalsFacts(spans: seq<Span>)
    ensures var totals, measured := TotalsOf(spans), MeasuredOf(spans);
      && DistinctModels(totals)
      && Sum(Calls(), totals) == measured.calls
      && Sum(Input(), totals) == measured.input
      && Sum(Output(), totals) == measured.output
      && forall m: Text :: HasModel(totals, m) <==> Serves(spans, m)
  {
    if spans != [] {
      var front, last := spans[..|spans| - 1], spans[|spans| - 1];
      TotalsFacts(front);
      AddSpanFacts(TotalsOf(front), last);
      FilterNext(IsModelSpan(), spans, |front|);
      assert spans[..|spans|] == spans;
      SumConcat(SpanInput(), ModelSpans(front), [last]);
      SumConcat(SpanOutput(), ModelSpans(front), [last]);
      SumOne(SpanInput(), last);
      SumOne(SpanOutput(), last);
      forall m: Text
        ensures Serves(spans, m) <==> Serves(front, m) || (last.name == MODEL_SPAN && ServedBy(last) == m)
      {
        assert last.name == MODEL_SPAN ==> ModelSpans(spans) == ModelSpans(front) + [last];
        if last.name == MODEL_SPAN {
          assert last in ModelSpans(spans);
        }
        if Serves(front, m) {
          var s :| s in ModelSpans(front) && ServedBy(s) == m;
          assert s in ModelSpans(spans);
        }
      }
    }
  }

  lemma ModelLePreorder()
    ensures TotalPreorder(ModelLe)
  {
    forall x: ModelUsage, y: ModelUsage ensures ModelLe(x, y) || ModelLe(y, x) {
      LexTotal(x.model, y.model);
    }
    forall x: ModelUsage, y: ModelUsage, z: ModelUsage | ModelLe(x, y) && ModelLe(y, z) ensures ModelLe(x, z) {
      LexTransitive(x.model, y.model, z.model);
    }
  }

  lemma DistinctModelsPermuted(a: seq<ModelUsage>, b: seq<ModelUsage>)
    requires multiset(a) == multiset(b) && DistinctModels(a)
    ensures DistinctModels(b) && forall m: Text :: HasModel(a, m) <==> HasModel(b, m)
  {
    forall i, j | 0 <= i < j < |b| ensures b[i].model != b[j].model {
      assert b[i] in multiset(a) && b[j] in multiset(a);
      Multiplicity(a, b[i]);
      if b[i] == b[j] {
        TwicePresent(b, i, j);
      }
    }
    forall m: Text ensures HasModel(a, m) <==> HasModel(b, m) {
      if i :| 0 <= i < |a| && a[i].model == m {
        assert a[i] in multiset(b);
      }
      if j :| 0 <= j < |b| && b[j].model == m {
        assert b[j] in multiset(a);
      }
    }
  }

  /** Usage per model adds up to the measured totals, one strictly ordered entry for each model that served. */
  lemma UsageConserved(spans: seq<Span>)
    ensures var usage, measured := UsageOf(spans), MeasuredOf(spans);
      && Sum(Calls(), usage) == measured.calls
      && Sum(Input(), usage) == measured.input
      && Sum(Output(), usage) == measured.output
      && (forall i, j | 0 <= i < j < |usage| ::
           LexLe(usage[i].model, usage[j].model) && usage[i].model != usage[j].model)
      && forall m: Text :: HasModel(usage, m) <==> Serves(spans, m)
  {
    var totals := TotalsOf(spans);
    TotalsFacts(spans);
    ModelLePreorder();
    SortFacts(ModelLe, totals);
    SumPermuted(Calls(), totals, UsageOf(spans));
    SumPermuted(Input(), totals, UsageOf(spans));
    SumPermuted(Output(), totals, UsageOf(spans));
    DistinctModelsPermuted(totals, UsageOf(spans));
    var usage := UsageOf(spans);
    forall i, j | 0 <= i < j < |usage| ensures LexLe(usage[i].model, usage[j].model) {
      assert ModelLe(usage[i], usage[j]);
    }
  }

  /** The first entry of a model, or an empty one. */
  function EntryAt(totals: seq<ModelUsage>, model: Text): ModelUsage {
    if totals == [] then ModelUsage(model, 0, 0, 0)
    else if totals[0].model == model then totals[0]
    else EntryAt(totals[1..], model)
  }

  lemma {:induction false} EntryNext(totals: seq<ModelUsage>, s: Span, model: Text)
    ensures var was := EntryAt(totals, model);
      EntryAt(AddSpan(totals, s), model)
        == if ServedBy(s) != model then was
           else ModelUsage(model, was.calls + 1, was.input + Tokens(s.input), was.output + Tokens(s.output))
  {
    hide ServedBy;
    if totals != [] && totals[0].model != ServedBy(s) {
      EntryNext(totals[1..], s, model);
    }
  }

  lemma {:induction false} EntryOfMember(totals: seq<ModelUsage>, u: ModelUsage)
    requires DistinctModels(totals) && u in totals
    ensures EntryAt(totals, u.model) == u
  {
    var i :| 0 <= i < |totals| && totals[i] == u;
    if i > 0 {
      assert totals[1..][i - 1] == u;
      EntryOfMember(totals[1..], u);
    }
  }

  /** What the spans a model served add up to. */
  function OwnUsage(spans: seq<Span>, model: Text): ModelUsage {
    var own := Filter(ServedSpan(model), spans);
    ModelUsage(model, |own|, Sum(SpanInput(), own), Sum(SpanOutput(), own))
  }

  lemma {:induction false} TotalsPerModel(spans: seq<Span>, model: Text)
    ensures EntryAt(TotalsOf(spans), model) == OwnUsage(spans, model)
  {
    if spans != [] {
      hide AddSpan, EntryAt, ServedBy;
      var front, last := spans[..|spans| - 1], spans[|spans| - 1];
      TotalsPerModel(front, model);
      EntryNext(TotalsOf(front), last, model);
      FilterNext(ServedSpan(model), spans, |front|);
      assert spans[..|spans|] == spans;
      var own := Filter(ServedSpan(model), front);
      SumConcat(SpanInput(), own, [last]);
      SumConcat(SpanOutput(), own, [last]);
      SumOne(SpanInput(), last);
      SumOne(SpanOutput(), last);
    }
  }

  /** Each entry holds the calls and tokens of the spans its own model served, and of no others. */
  lemma UsagePerModel(spans: seq<Span>, u: ModelUsage)
    requires u in UsageOf(spans)
    ensures u == OwnUsage(spans, u.model)
  {
    var totals := TotalsOf(spans);
    ModelLePreorder();
    SortFacts(ModelLe, totals);
    hide Sort, TotalsOf, OwnUsage, ModelLe;
    TotalsFacts(spans);
    assert u in multiset(UsageOf(spans));
    EntryOfMember(totals, u);
    TotalsPerModel(spans, u.model);
  }

  // ------------------------------------------------------- basis and caveat

  datatype Basis = NoBasis | Scripted | Mixed | Metered

  function MeteredUsage(): ModelUsage -> bool {
    (u: ModelUsage) => IsMetered(u.model)
  }

  function BasisOf(usage: seq<ModelUsage>): Basis {
    if usage == [] then NoBasis
    else
      var metered := Filter(MeteredUsage(), usage);
      if metered == [] then Scripted else if |metered| != |usage| then Mixed else Metered
  }

  datatype Caveat = NoCalls | AllScripted | SomeScripted | ServedByOthers(models: seq<Text>)

  function Models(usage: seq<ModelUsage>): seq<Text> {
    if usage == [] then [] else [usage[0].model] + Models(usage[1..])
  }

  /** `_caveat`; the entries arrive sorted and distinct, so they are the served models as they stand. */
  function CaveatOf(basis: Basis, usage: seq<ModelUsage>, pricedAs: Text): Option<Caveat> {
    match basis
    case NoBasis => Some(NoCalls)
    case Scripted => Some(AllScripted)
    case Mixed => Some(SomeScripted)
    case Metered => if Models(usage) != [pricedAs] then Some(ServedByOthers(Models(usage))) else None
  }

  lemma {:induction false} FilterAll<T>(p: T -> bool, s: seq<T>)
    ensures Filter(p, s) == s <==> forall x | x in s :: p(x)
    ensures |Filter(p, s)| == |s| <==> forall x | x in s :: p(x)
    ensures |Filter(p, s)| <= |s|
  {
    if s != [] {
      FilterAll(p, s[1..]);
      assert s == [s[0]] + s[1..];
    }
  }

  /** Usage is metered exactly when there was a model call and every one named a real model. */
  lemma MeteredMeans(spans: seq<Span>)
    ensures BasisOf(UsageOf(spans)) == Metered
      <==> ModelSpans(spans) != [] && forall s | s in ModelSpans(spans) :: IsMetered(ServedBy(s))
  {
    var usage := UsageOf(spans);
    UsageConserved(spans);
    FilterAll(MeteredUsage(), usage);
    if forall u | u in usage :: IsMetered(u.model) {
      forall s | s in ModelSpans(spans) ensures IsMetered(ServedBy(s)) {
        assert Serves(spans, ServedBy(s));
        var i :| 0 <= i < |usage| && usage[i].model == ServedBy(s);
        assert usage[i] in usage;
      }
    }
    if forall s | s in ModelSpans(spans) :: IsMetered(ServedBy(s)) {
      forall u | u in usage ensures IsMetered(u.model) {
        assert HasModel(usage, u.model);
        var s :| s in ModelSpans(spans) && ServedBy(s) == u.model;
      }
    }
    if usage != [] {
      assert HasModel(usage, usage[0].model);
    }
    if ModelSpans(spans) != [] {
      assert ModelSpans(spans)[0] in ModelSpans(spans);
      assert Serves(spans, ServedBy(ModelSpans(spans)[0]));
    }
  }

  /** The caveat is dropped exactly when calls were made and the priced model itself served every one. */
  lemma CaveatHonest(spans: seq<Span>, pricedAs: Text)
    ensures CaveatOf(BasisOf(UsageOf(spans)), UsageOf(spans), pricedAs).None?
      <==> (ModelSpans(spans) != [] && IsMetered(pricedAs)
            && forall s | s in ModelSpans(spans) :: ServedBy(s) == pricedAs)
  {
    var usage := UsageOf(spans);
    UsageConserved(spans);
    MeteredMeans(spans);
    if Models(usage) == [pricedAs] {
      ModelsLength(usage);
      assert usage[0].model == Models(usage)[0] == pricedAs;
      forall s | s in ModelSpans(spans) ensures ServedBy(s) == pricedAs {
        assert Serves(spans, ServedBy(s));
      }
    }
    if ModelSpans(spans) != [] && forall s | s in ModelSpans(spans) :: ServedBy(s) == pricedAs {
      assert ModelSpans(spans)[0] in ModelSpans(spans);
      assert Serves(spans, pricedAs);
      assert forall i | 0 <= i < |usage| :: HasModel(usage, usage[i].model);
      assert |usage| == 1;
      assert usage[1..] == [];
      assert Models(usage) == [usage[0].model];
    }
    if usage != [] && Models(usage) == [pricedAs] && BasisOf(usage) == Metered {
      assert ModelSpans(spans)[0] in ModelSpans(spans);
    }
  }

  lemma {:induction false} ModelsLength(usage: seq<ModelUsage>)
    ensures |Models(usage)| == |usage|
  {
    if usage != [] {
      ModelsLength(usage[1..]);
    }
  }

  // -------------------------------------------------------------------- cost

  function Cost(input: int, output: int, price: Price): real {
    input as real * price.input + output as real * price.output
  }

  /** `_cost`, in millionths of a dollar: tokens at dollars per million, rounded to six places. */
  function MicroUsd(usage: seq<ModelUsage>, price: Price): int {
    RoundHalfEven(Cost(Sum(Input(), usage), Sum(Output(), usage), price))
  }

  /** The two rounded prices stay within a millionth of the two-to-one ratio of the rates. */
  lemma IntroductoryIsHalf(usage: seq<ModelUsage>, pricedAs: Text)
    ensures -1 <= 2 * MicroUsd(usage, IntroductoryPrice(pricedAs)) - MicroUsd(usage, ListPrice(pricedAs)) <= 1
  {
    var i, o := Sum(Input(), usage) as real, Sum(Output(), usage) as real;
    var x, y := Cost(Sum(Input(), usage), Sum(Output(), usage), IntroductoryPrice(pricedAs)),
      Cost(Sum(Input(), usage), Sum(Output(), usage), ListPrice(pricedAs));
    assert y == 2.0 * x by {
      assert i * 1.5 == 2.0 * (i * 0.75) && o * 7.5 == 2.0 * (o * 3.75);
      assert i * 0.0 == 0.0 && o * 0.0 == 0.0;
    }
    RoundingError(x);
    RoundingError(y);
  }

  // -------------------------------------------------------------- projection

  const MINIMUM_PASSES := 2.0
  const BYTES_PER_TOKEN := 3.5
  const OVERHEAD_TOKENS := 6000.0
  const ASSUMED_OUTPUT := 1500

  function MeanBytes(sizes: seq<int>): real {
    var positive := Filter((n: int) => n > 0, sizes);
    if positive == [] then 0.0 else Sum((n: int) => n, positive) as real / |positive| as real
  }

  function TokensPerDocument(meanBytes: real): int {
    if meanBytes != 0.0 then RoundHalfEven(meanBytes / BYTES_PER_TOKEN) else 0
  }

  function MeasuredOutput(spans: seq<Span>, basis: Basis): real {
    var model := ModelSpans(spans);
    if model != [] && basis == Metered then Sum(SpanOutput(), model) as real / |model| as real else 0.0
  }

  /** `round(measured * passes) or 1500`. */
  function OutputPerAudit(measured: real): int {
    var rounded := RoundHalfEven(measured * MINIMUM_PASSES);
    if rounded != 0 then rounded else ASSUMED_OUTPUT
  }

  function InputTokens(documents: nat, tokensPerDocument: int): int {
    RoundHalfEven(documents as real * tokensPerDocument as real * MINIMUM_PASSES + OVERHEAD_TOKENS)
  }

  datatype Point = Point(documents: nat, input: int, output: int, usd: int, introductory: int)

  /** One projected size, with prices in ten-thousandths of a dollar. */
  function PointAt(documents: nat, tokensPerDocument: int, output: int, pricedAs: Text): Point {
    var input := InputTokens(documents, tokensPerDocument);
    Point(documents, input, output,
          RoundHalfEven(Cost(input, output, ListPrice(pricedAs)) / 100.0),
          RoundHalfEven(Cost(input, output, IntroductoryPrice(pricedAs)) / 100.0))
  }

  const PROJECTION_POINTS: seq<nat> := [50, 500, 5000]

  lemma MeanNonNegative(sizes: seq<int>)
    ensures MeanBytes(sizes) >= 0.0 && TokensPerDocument(MeanBytes(sizes)) >= 0
  {
    var positive := Filter((n: int) => n > 0, sizes);
    hide RoundHalfEven;
    forall n | n in positive ensures n > 0 {
      FilterMembers((n: int) => n > 0, sizes, n);
    }
    SumPositive(positive);
    RoundingExact(0);
    RoundingMonotone(0.0, MeanBytes(sizes) / BYTES_PER_TOKEN);
  }

  lemma {:induction false} SumPositive(s: seq<int>)
    requires forall n | n in s :: n > 0
    ensures Sum((n: int) => n, s) >= 0
  {
    if s != [] {
      assert s[0] in s && forall n | n in s[1..] :: n in s;
      SumPositive(s[1..]);
    }
  }

  /** `(input_tokens / 1e6) * list_in + (output_tokens / 1e6) * list_out`. */
  function Dollars(input: int, output: int, price: Price): real {
    input as real / 1_000_000.0 * price.input + output as real / 1_000_000.0 * price.output
  }

  /** A price in dollars, rounded to four places, is the exact one in ten-thousandths, rounded. */
  lemma PointPrice(input: int, output: int, price: Price)
    ensures Dollars(input, output, price) * 10_000.0 == Cost(input, output, price) / 100.0
  {
    var i, o := input as real, output as real;
    assert i / 1_000_000.0 * price.input == i * price.input / 1_000_000.0;
    assert o / 1_000_000.0 * price.output == o * price.output / 1_000_000.0;
  }

  /** `_projection`: three sizes, each with its tokens and two prices, and no larger size is cheaper. */
  method Projection(spans: seq<Span>, sizes: seq<int>, pricedAs: Text, basis: Basis) returns (points: seq<Point>)
    ensures |points| == 3
    ensures points[0].documents == 50 && points[1].documents == 500 && points[2].documents == 5000
    ensures var tokens, output := TokensPerDocument(MeanBytes(sizes)), OutputPerAudit(MeasuredOutput(spans, basis));
      forall i | 0 <= i < 3 ::
        && points[i] == PointAt(PROJECTION_POINTS[i], tokens, output, pricedAs)
        && points[i].input == 2 * (PROJECTION_POINTS[i] * tokens) + 6000
    ensures forall i, j | 0 <= i < j < 3 ::
      points[i].usd <= points[j].usd && points[i].introductory <= points[j].introductory
  {
    var tokensPerDocument := TokensPerDocument(MeanBytes(sizes));
    var output := OutputPerAudit(MeasuredOutput(spans, basis));
    var list, introductory := ListPrice(pricedAs), IntroductoryPrice(pricedAs);
    MeanNonNegative(sizes);
    hide TokensPerDocument, MeanBytes, OutputPerAudit, MeasuredOutput, RoundHalfEven, ListPrice, IntroductoryPrice,
      Cost, Dollars;
    points := [];
    for i := 0 to |PROJECTION_POINTS|
      invariant |points| == i
      invariant forall j | 0 <= j < i ::
        && points[j] == PointAt(PROJECTION_POINTS[j], tokensPerDocument, output, pricedAs)
        && points[j].input == 2 * (PROJECTION_POINTS[j] * tokensPerDocument) + 6000
    {
      var documents := PROJECTION_POINTS[i];
      var input := RoundHalfEven(documents as real * tokensPerDocument as real * MINIMUM_PASSES + OVERHEAD_TOKENS);
      var usd := RoundHalfEven(Dollars(input, output, list) * 10_000.0);
      var reduced := RoundHalfEven(Dollars(input, output, introductory) * 10_000.0);
      InputExact(documents, tokensPerDocument);
      PointPrice(input, output, list);
      PointPrice(input, output, introductory);
      points := points + [Point(documents, input, output, usd, reduced)];
    }
    forall i, j | 0 <= i < j < 3
      ensures points[i].usd <= points[j].usd && points[i].introductory <= points[j].introductory
    {
      ProjectionMonotone(PROJECTION_POINTS[i], PROJECTION_POINTS[j], tokensPerDocument, tokensPerDocument,
                         output, output, pricedAs);
    }
  }

  lemma InputExact(documents: nat, tokensPerDocument: int)
    ensures InputTokens(documents, tokensPerDocument) == 2 * (documents * tokensPerDocument) + 6000
  {
    var n := 2 * (documents * tokensPerDocument) + 6000;
    assert (documents * tokensPerDocument) as real == documents as real * tokensPerDocument as real;
    RoundingExact(n);
  }

  /** A projected price never falls when documents, tokens a document or output grow. */
  lemma ProjectionMonotone(d1: nat, d2: nat, t1: int, t2: int, o1: int, o2: int, pricedAs: Text)
    requires d1 <= d2 && 0 <= t1 <= t2 && o1 <= o2
    ensures PointAt(d1, t1, o1, pricedAs).usd <= PointAt(d2, t2, o2, pricedAs).usd
    ensures PointAt(d1, t1, o1, pricedAs).introductory <= PointAt(d2, t2, o2, pricedAs).introductory
  {
    InputExact(d1, t1);
    InputExact(d2, t2);
    var i1, i2 := InputTokens(d1, t1), InputTokens(d2, t2);
    ProductMonotone(d1, d2, t1, t2);
    hide InputTokens, Cost, RoundHalfEven, ListPrice, IntroductoryPrice;
    CostMonotone(i1, i2, o1, o2, pricedAs);
    RoundingMonotone(Cost(i1, o1, ListPrice(pricedAs)) / 100.0, Cost(i2, o2, ListPrice(pricedAs)) / 100.0);
    RoundingMonotone(Cost(i1, o1, IntroductoryPrice(pricedAs)) / 100.0,
                     Cost(i2, o2, IntroductoryPrice(pricedAs)) / 100.0);
  }

  lemma ProductMonotone(d1: nat, d2: nat, t1: int, t2: int)
    requires d1 <= d2 && 0 <= t1 <= t2
    ensures d1 * t1 <= d2 * t2
  {
    assert (d2 - d1) * t1 >= 0 && d2 * (t2 - t1) >= 0;
  }

  lemma CostMonotone(i1: int, i2: int, o1: int, o2: int, pricedAs: Text)
    requires i1 <= i2 && o1 <= o2
    ensures Cost(i1, o1, ListPrice(pricedAs)) <= Cost(i2, o2, ListPrice(pricedAs))
    ensures Cost(i1, o1, IntroductoryPrice(pricedAs)) <= Cost(i2, o2, IntroductoryPrice(pricedAs))
  {
    var a, b, c, d := i1 as real, i2 as real, o1 as real, o2 as real;
    assert a * 1.5 <= b * 1.5 && c * 7.5 <= d * 7.5 && a * 0.75 <= b * 0.75 && c * 3.75 <= d * 3.75;
    assert a * 0.0 == 0.0 == b * 0.0 && c * 0.0 == 0.0 == d * 0.0;
  }

  /** The output estimate grows with the measurement, except across the measurements that round to nothing. */
  lemma OutputMonotone(x: real, y: real)
    requires x <= y
    ensures OutputPerAudit(x) <= OutputPerAudit(y)
      <==> !(RoundHalfEven(x * MINIMUM_PASSES) == 0 && 0 < RoundHalfEven(y * MINIMUM_PASSES) < ASSUMED_OUTPUT)
  {
    RoundingMonotone(x * MINIMUM_PASSES, y * MINIMUM_PASSES);
  }

  lemma OutputFallsBelowDefault()
    ensures OutputPerAudit(0.25) == 1500 && OutputPerAudit(1.0) == 2
  {
  }

  // -------------------------------------------------------------- comparison

  /** `int(budget // per_run)`, with the run's price in ten-thousandths of a dollar. */
  function EquivalentRuns(usd: int, budget: real, basis: Basis): Option<int> {
    if usd > 0 && basis == Metered then Some((budget * 10000.0 / usd as real).Floor) else None
  }

  /** The quotient is the number of whole runs the budget pays for. */
  lemma RunsFitBudget(usd: int, budget: real, basis: Basis)
    requires EquivalentRuns(usd, budget, basis).Some?
    ensures var r := EquivalentRuns(usd, budget, basis).value;
      r as real * usd as real <= budget * 10000.0 < (r + 1) as real * usd as real
  {
    QuotientBounds(budget * 10000.0, usd as real, EquivalentRuns(usd, budget, basis).value);
  }

  lemma QuotientBounds(b: real, c: real, r: int)
    requires c > 0.0 && r == (b / c).Floor
    ensures r as real * c <= b < (r + 1) as real * c
  {
    var q := b / c;
    var low, high := r as real, (r + 1) as real;
    assert q * c == b;
    Scaled(low, q, c);
    Scaled(high, q, c);
    assert low <= q && !(high <= q);
    assert low * c <= b;
    assert b < high * c;
  }

  lemma Scaled(x: real, y: real, c: real)
    requires c > 0.0
    ensures x <= y <==> x * c <= y * c
  {
    assert (y - x) * c == y * c - x * c;
    if x <= y {
      assert (y - x) * c >= 0.0;
    } else {
      assert (x - y) * c > 0.0;
    }
  }

  /** Larger documents never buy more audits, and never make the comparison disappear. */
  lemma RunsAntitone(t1: int, t2: int, output: int, budget: real, pricedAs: Text, basis: Basis)
    requires 0 <= t1 <= t2 && budget >= 0.0
    ensures var runs1 := EquivalentRuns(PointAt(500, t1, output, pricedAs).usd, budget, basis);
      var runs2 := EquivalentRuns(PointAt(500, t2, output, pricedAs).usd, budget, basis);
      runs1.Some? ==> runs2.Some? && runs2.value <= runs1.value
  {
    ProjectionMonotone(500, 500, t1, t2, output, output, pricedAs);
    hide PointAt;
    if EquivalentRuns(PointAt(500, t1, output, pricedAs).usd, budget, basis).Some? {
      var c1, c2 := PointAt(500, t1, output, pricedAs).usd as real, PointAt(500, t2, output, pricedAs).usd as real;
      QuotientAntitone(budget * 10000.0, c1, c2);
    }
  }

  lemma QuotientAntitone(b: real, c1: real, c2: real)
    requires b >= 0.0 && 0.0 < c1 <= c2
    ensures b / c2 <= b / c1
  {
    var q1, q2 := b / c1, b / c2;
    assert q1 * c1 == b && q2 * c2 == b;
    assert q2 >= 0.0;
    assert q2 * c1 <= q2 * c2 by {
      assert q2 * (c2 - c1) >= 0.0;
      assert q2 * (c2 - c1) == q2 * c2 - q2 * c1;
    }
    Scaled(q2, q1, c1);
  }

  // ------------------------------------------------- on the spans' own fields

  /** A recorded model call. */
  predicate IsCall(s: Span) {
    s.name == Lit("assuranceos.model.generate")
  }

  /** The call names the model that served it, and that is a real one. */
  predicate NamesRealModel(s: Span) {
    s.model.Some? && s.model.value != [] && s.model.value != Lit("scripted") && s.model.value != Lit("unknown")
  }

  lemma CallsMean(spans: seq<Span>)
    ensures forall s :: s in ModelSpans(spans) <==> s in spans && IsCall(s)
    ensures forall s | s in spans :: IsMetered(ServedBy(s)) <==> NamesRealModel(s)
  {
    forall s: Span ensures s in ModelSpans(spans) <==> s in spans && IsCall(s) {
      FilterMembers(IsModelSpan(), spans, s);
    }
    assert Lit("unknown") != [];
    hide Lit;
    forall s | s in spans ensures IsMetered(ServedBy(s)) <==> NamesRealModel(s) {
    }
  }

  lemma UsageEmpty(spans: seq<Span>)
    ensures UsageOf(spans) == [] <==> ModelSpans(spans) == []
    ensures forall u | u in UsageOf(spans) :: Serves(spans, u.model)
    ensures forall s | s in ModelSpans(spans) :: exists u | u in UsageOf(spans) :: u.model == ServedBy(s)
  {
    hide UsageOf, ModelSpans, MeasuredOf, ServedBy, LexLe, Sum;
    UsageConserved(spans);
    var usage := UsageOf(spans);
    forall u | u in usage ensures Serves(spans, u.model) {
      var i :| 0 <= i < |usage| && usage[i] == u;
      assert HasModel(usage, u.model);
    }
    forall s | s in ModelSpans(spans) ensures exists u | u in usage :: u.model == ServedBy(s) {
      assert Serves(spans, ServedBy(s));
      var i :| 0 <= i < |usage| && usage[i].model == ServedBy(s);
      assert usage[i] in usage;
    }
    if usage != [] {
      assert Serves(spans, usage[0].model);
    }
    if ModelSpans(spans) != [] {
      assert ModelSpans(spans)[0] in ModelSpans(spans);
    }
  }

  /** The basis is what the calls' own models make it. */
  lemma BasisMeans(spans: seq<Span>)
    ensures BasisOf(UsageOf(spans)) == NoBasis <==> forall s | s in spans :: !IsCall(s)
    ensures BasisOf(UsageOf(spans)) == Metered
      <==> ((exists s | s in spans :: IsCall(s)) && forall s | s in spans && IsCall(s) :: NamesRealModel(s))
    ensures BasisOf(UsageOf(spans)) == Scripted
      <==> ((exists s | s in spans :: IsCall(s)) && forall s | s in spans && IsCall(s) :: !NamesRealModel(s))
    ensures BasisOf(UsageOf(spans)) == Mixed
      <==> ((exists s | s in spans :: IsCall(s) && NamesRealModel(s))
            && exists s | s in spans :: IsCall(s) && !NamesRealModel(s))
  {
    hide UsageOf, ModelSpans, IsMetered, ServedBy, IsCall, NamesRealModel;
    CallsMean(spans);
    UsageEmpty(spans);
    var usage := UsageOf(spans);
    if ModelSpans(spans) != [] {
      assert ModelSpans(spans)[0] in ModelSpans(spans);
    }
    FilterAll(MeteredUsage(), usage);
    forall u: ModelUsage ensures u in Filter(MeteredUsage(), usage) <==> u in usage && IsMetered(u.model) {
      FilterMembers(MeteredUsage(), usage, u);
    }
    assert Filter(MeteredUsage(), usage) == [] <==> forall u | u in usage :: !IsMetered(u.model) by {
      if Filter(MeteredUsage(), usage) != [] {
        assert Filter(MeteredUsage(), usage)[0] in Filter(MeteredUsage(), usage);
      }
    }
  }

  /** Equivalent runs are drawn when calls were made and each named a real model, and the run has a price. */
  lemma ComparisonDrawn(spans: seq<Span>, usd: int, budget: real)
    ensures EquivalentRuns(usd, budget, BasisOf(UsageOf(spans))).Some?
      <==> (usd > 0 && (exists s | s in spans :: IsCall(s))
            && forall s | s in spans && IsCall(s) :: NamesRealModel(s))
  {
    hide UsageOf, BasisOf, IsCall, NamesRealModel;
    BasisMeans(spans);
  }

  /** No caveat when calls were made and each named the priced model, a real one; otherwise the basis says which. */
  lemma CaveatMeans(spans: seq<Span>, pricedAs: Text)
    ensures var caveat := CaveatOf(BasisOf(UsageOf(spans)), UsageOf(spans), pricedAs);
      && (caveat == None
          <==> ((exists s | s in spans :: IsCall(s))
                && forall s | s in spans && IsCall(s) :: NamesRealModel(s) && s.model == Some(pricedAs)))
      && (caveat == Some(NoCalls) <==> forall s | s in spans :: !IsCall(s))
      && (caveat == Some(AllScripted) <==> BasisOf(UsageOf(spans)) == Scripted)
      && (caveat == Some(SomeScripted) <==> BasisOf(UsageOf(spans)) == Mixed)
  {
    hide UsageOf, BasisOf, ModelSpans, IsMetered, IsCall, NamesRealModel, Models;
    CaveatHonest(spans, pricedAs);
    BasisMeans(spans);
    CallsMean(spans);
    if ModelSpans(spans) != [] {
      assert ModelSpans(spans)[0] in ModelSpans(spans);
    }
    forall s | s in spans && NamesRealModel(s) ensures ServedBy(s) == pricedAs <==> s.model == Some(pricedAs) {
      RealModelServes(s);
    }
    forall s | s in ModelSpans(spans) && ServedBy(s) == pricedAs && IsMetered(pricedAs) ensures NamesRealModel(s) {
      assert s in spans && IsMetered(ServedBy(s));
    }
  }

  lemma RealModelServes(s: Span)
    requires NamesRealModel(s)
    ensures ServedBy(s) == s.model.value && IsMetered(s.model.value)
  {
  }

  /** The model of a call, `unknown` where it names none. */
  predicate ServedAs(s: Span, model: Text) {
    IsCall(s) && (if s.model.Some? && s.model.value != [] then s.model.value == model else model == Lit("unknown"))
  }

  /** Each entry counts the calls its model served and adds up their tokens, none where a call records none. */
  lemma UsageMeans(spans: seq<Span>, u: ModelUsage)
    requires u in UsageOf(spans)
    ensures u.calls == Count((s: Span) => ServedAs(s, u.model), spans) > 0
    ensures u.input == Sum((s: Span) => if ServedAs(s, u.model) && s.input.Some? then s.input.value else 0, spans)
    ensures u.output == Sum((s: Span) => if ServedAs(s, u.model) && s.output.Some? then s.output.value else 0, spans)
  {
    hide UsageOf, ServedAs, ServedBy, Sum, Filter, ModelSpans;
    UsagePerModel(spans, u);
    OwnMeans(spans, u.model);
    UsageEmpty(spans);
    var s :| s in ModelSpans(spans) && ServedBy(s) == u.model;
    CallsMean(spans);
    FilterMembers(ServedSpan(u.model), spans, s);
    assert Filter(ServedSpan(u.model), spans) != [];
  }

  lemma {:induction false} OwnMeans(spans: seq<Span>, model: Text)
    ensures var own := OwnUsage(spans, model);
      && own.calls == Count((s: Span) => ServedAs(s, model), spans)
      && own.input == Sum((s: Span) => if ServedAs(s, model) && s.input.Some? then s.input.value else 0, spans)
      && own.output == Sum((s: Span) => if ServedAs(s, model) && s.output.Some? then s.output.value else 0, spans)
  {
    hide Lit;
    if spans != [] {
      OwnMeans(spans[1..], model);
      var rest := Filter(ServedSpan(model), spans[1..]);
      assert ServedSpan(model)(spans[0]) <==> ServedAs(spans[0], model);
      assert ServedAs(spans[0], model) ==> ([spans[0]] + rest)[1..] == rest;
    }
  }

  function CallInput(): Span -> int {
    (s: Span) => if IsCall(s) && s.input.Some? then s.input.value else 0
  }

  function CallOutput(): Span -> int {
    (s: Span) => if IsCall(s) && s.output.Some? then s.output.value else 0
  }

  lemma {:induction false} CallSums(spans: seq<Span>)
    ensures Sum(SpanInput(), ModelSpans(spans)) == Sum(CallInput(), spans)
    ensures Sum(SpanOutput(), ModelSpans(spans)) == Sum(CallOutput(), spans)
    ensures |ModelSpans(spans)| == Count((s: Span) => IsCall(s), spans)
  {
    hide Lit;
    if spans != [] {
      CallSums(spans[1..]);
      var rest := ModelSpans(spans[1..]);
      assert IsCall(spans[0]) ==> ModelSpans(spans) == [spans[0]] + rest && ([spans[0]] + rest)[1..] == rest;
      assert !IsCall(spans[0]) ==> ModelSpans(spans) == rest;
    }
  }

  /** The two prices of the calls' own tokens: 1.50 and 7.50 dollars a million, and half of that. */
  lemma CostMeans(spans: seq<Span>, pricedAs: Text)
    ensures var i, o := Sum(CallInput(), spans) as real, Sum(CallOutput(), spans) as real;
      var list := MicroUsd(UsageOf(spans), ListPrice(pricedAs));
      var introductory := MicroUsd(UsageOf(spans), IntroductoryPrice(pricedAs));
      if pricedAs == Lit("gemini-3.7-flash")
      then list == RoundHalfEven(i * 1.5 + o * 7.5) && introductory == RoundHalfEven(i * 0.75 + o * 3.75)
      else list == 0 && introductory == 0
  {
    hide UsageOf, ModelSpans, Sum, RoundHalfEven, Lit;
    UsageConserved(spans);
    CallSums(spans);
    var i, o := Sum(CallInput(), spans) as real, Sum(CallOutput(), spans) as real;
    assert i * 0.0 == 0.0 && o * 0.0 == 0.0;
    RoundingExact(0);
  }

  /** What the projection measures: the mean of the sizes above zero, and of the output tokens of metered calls. */
  lemma MeasuresMean(spans: seq<Span>, sizes: seq<int>, basis: Basis)
    ensures var n, total := Count((size: int) => size > 0, sizes), Sum((size: int) => if size > 0 then size else 0, sizes);
      if n == 0 then MeanBytes(sizes) == 0.0 else MeanBytes(sizes) * n as real == total as real
    ensures var n := Count((s: Span) => IsCall(s), spans);
      if n == 0 || basis != Metered then MeasuredOutput(spans, basis) == 0.0
      else MeasuredOutput(spans, basis) * n as real == Sum(CallOutput(), spans) as real
  {
    hide Lit, ModelSpans, Sum, Count, Filter;
    CallSums(spans);
    PositiveSizes(sizes);
    assert ModelSpans(spans) == [] <==> |ModelSpans(spans)| == 0;
  }

  lemma {:induction false} PositiveSizes(sizes: seq<int>)
    ensures var positive := Filter((n: int) => n > 0, sizes);
      && |positive| == Count((size: int) => size > 0, sizes)
      && Sum((n: int) => n, positive) == Sum((size: int) => if size > 0 then size else 0, sizes)
  {
    if sizes != [] {
      PositiveSizes(sizes[1..]);
      var rest := Filter((n: int) => n > 0, sizes[1..]);
      assert sizes[0] > 0 ==> ([sizes[0]] + rest)[1..] == rest;
    }
  }

  /** Tokens a document and output an audit, to the nearest: 3.5 bytes a token, two passes, 1500 for nothing. */
  lemma EstimatesMean(meanBytes: real, measured: real)
    ensures -0.5 <= TokensPerDocument(meanBytes) as real - meanBytes / 3.5 <= 0.5
    ensures OutputPerAudit(measured) == 1500 || -0.5 <= OutputPerAudit(measured) as real - measured * 2.0 <= 0.5
    ensures -0.5 < measured * 2.0 < 0.5 ==> OutputPerAudit(measured) == 1500
  {
    RoundingError(meanBytes / 3.5);
    RoundingError(measured * 2.0);
  }
}
