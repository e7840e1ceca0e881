/** The CodeQL gate: every result in one bucket, and the exit status the buckets decide. */
module Sarif {
  import opened Texts
  import opened Counting
  import opened Rounding

  datatype Exclusion = Exclusion(rule: Text, path: Text, reason: Text) {
    predicate Covers(ruleId: Text, uri: Option<Text>) {
      ruleId == rule && uri == Some(path)
    }
  }

  /** A rule as listed by the driver or an extension; one without a numeric severity has none. */
  datatype Rule = Rule(id: Option<Text>, severity: Option<real>)

  datatype Location = Location(uri: Option<Text>, line: Option<int>)

  datatype Result = Result(ruleId: Option<Text>, locations: seq<Location>, message: Text, suppressed: bool)

  datatype RunLog = RunLog(rules: seq<Rule>, results: seq<Result>)

  type Document = seq<RunLog>

  /** What the report prints of a result. */
  datatype Entry = Entry(rule: Text, location: Option<Location>, message: Text)

  /** A result in the light of its run's rules. */
  datatype Finding = Finding(entry: Entry, uri: Option<Text>, severity: Option<real>, suppressed: bool)

  datatype Bucket = Suppressed | Excluded(index: nat) | Blocking | Reported(tenths: Option<int>)

  function RuleIdOf(r: Result): Text {
    if r.ruleId.Some? then r.ruleId.value else Lit("(unknown rule)")
  }

  /** `_rule_index(run).get(id)`: the last rule of an identifier wins. */
  function SeverityOf(rules: seq<Rule>, id: Text): Option<real> {
    if rules == [] then None
    else
      var last := rules[|rules| - 1];
      if last.id == Some(id) then last.severity else SeverityOf(rules[..|rules| - 1], id)
  }

  /** The first location that names a file. */
  function FirstLocation(locations: seq<Location>): Option<Location> {
    if locations == [] then None
    else if locations[0].uri.Some? && locations[0].uri.value != [] then Some(locations[0])
    else FirstLocation(locations[1..])
  }

  function FindingOf(rules: seq<Rule>, r: Result): Finding {
    var location := FirstLocation(r.locations);
    Finding(Entry(RuleIdOf(r), location, r.message),
            if location.Some? then location.value.uri else None,
            SeverityOf(rules, RuleIdOf(r)),
            r.suppressed)
  }

  /** The exclusion that claims a finding: the first that covers it. */
  function Declared(exclusions: seq<Exclusion>, f: Finding): Option<nat> {
    DeclaredFrom(exclusions, f, 0)
  }

  function DeclaredFrom(exclusions: seq<Exclusion>, f: Finding, i: nat): (r: Option<nat>)
    requires i <= |exclusions|
    ensures r.Some? ==> i <= r.value < |exclusions| && exclusions[r.value].Covers(f.entry.rule, f.uri)
    ensures forall j | i <= j < (if r.Some? then r.value else |exclusions|) :: !exclusions[j].Covers(f.entry.rule, f.uri)
    decreases |exclusions| - i
  {
    if i == |exclusions| then None
    else if exclusions[i].Covers(f.entry.rule, f.uri) then Some(i)
    else DeclaredFrom(exclusions, f, i + 1)
  }

  /** `f"{severity:.1f}"`, in tenths. */
  function Label(severity: Option<real>): Option<int> {
    if severity.Some? then Some(RoundHalfEven(severity.value * 10.0)) else None
  }

  function BucketOf(exclusions: seq<Exclusion>, threshold: real, f: Finding): Bucket {
    if f.suppressed then Suppressed
    else if Declared(exclusions, f).Some? then Excluded(Declared(exclusions, f).value)
    else if f.severity.Some? && f.severity.value >= threshold then Blocking
    else Reported(Label(f.severity))
  }

  function RunFindings(rules: seq<Rule>, results: seq<Result>): seq<Finding> {
    seq(|results|, i requires 0 <= i < |results| => FindingOf(rules, results[i]))
  }

  function DocumentFindings(d: Document): seq<Finding> {
    if d == [] then []
    else DocumentFindings(d[..|d| - 1]) + RunFindings(d[|d| - 1].rules, d[|d| - 1].results)
  }

  /** Every result of every run of every document, in order. */
  function Findings(documents: seq<Document>): seq<Finding> {
    if documents == [] then []
    else Findings(documents[..|documents| - 1]) + DocumentFindings(documents[|documents| - 1])
  }

  function Into(exclusions: seq<Exclusion>, threshold: real, b: Bucket): Finding -> bool {
    (f: Finding) => BucketOf(exclusions, threshold, f) == b
  }

  /** The entries of one bucket, in the order their results were read. */
  function Bucketed(exclusions: seq<Exclusion>, threshold: real, fs: seq<Finding>, b: Bucket): seq<Entry> {
    var mine := Filter(Into(exclusions, threshold, b), fs);
    seq(|mine|, i requires 0 <= i < |mine| => mine[i].entry)
  }

  class Outcome {
    var blocking: seq<Entry>
    var suppressed: seq<Entry>
    var excluded: map<nat, seq<Entry>>
    var reported: map<Option<int>, seq<Entry>>

    constructor ()
      ensures blocking == [] && suppressed == [] && excluded == map[] && reported == map[]
    {
      blocking, suppressed, excluded, reported := [], [], map[], map[];
    }

    /** The list a bucket holds; a `defaultdict` has an empty one where it has none. */
    function Entries(b: Bucket): seq<Entry>
      reads this
    {
      match b
      case Suppressed => suppressed
      case Blocking => blocking
      case Excluded(i) => if i in excluded then excluded[i] else []
      case Reported(l) => if l in reported then reported[l] else []
    }

    /** What `total` adds up. */
    ghost function Size(): int
      reads this
    {
      |blocking| + |suppressed| + MapSum(Lengths(excluded)) + MapSum(Lengths(reported))
    }

    method Total() returns (n: int)
      ensures n == Size()
    {
      var inExcluded := SumLengths(excluded);
      var inReported := SumLengths(reported);
      n := |blocking| + |suppressed| + inExcluded + inReported;
    }

    method File(b: Bucket, entry: Entry)
      modifies this
      ensures forall c: Bucket :: Entries(c) == if c == b then old(Entries(c)) + [entry] else old(Entries(c))
      ensures Size() == old(Size()) + 1
    {
      if b.Excluded? {
        LengthsNext(excluded, b.index, entry);
      } else if b.Reported? {
        LengthsNext(reported, b.tenths, entry);
      }
      match b
      case Suppressed => suppressed := suppressed + [entry];
      case Blocking => blocking := blocking + [entry];
      case Excluded(i) => excluded := excluded[i := (if i in excluded then excluded[i] else []) + [entry]];
      case Reported(l) => reported := reported[l := (if l in reported then reported[l] else []) + [entry]];
    }
  }

  function Lengths<K>(m: map<K, seq<Entry>>): map<K, int> {
    map k | k in m :: |m[k]|
  }

  lemma LengthsNext<K>(m: map<K, seq<Entry>>, k: K, entry: Entry)
    ensures MapSum(Lengths(m[k := (if k in m then m[k] else []) + [entry]])) == MapSum(Lengths(m)) + 1
  {
    var list := (if k in m then m[k] else []) + [entry];
    MapSumUpdate(Lengths(m), k, |list|);
    assert Lengths(m[k := list]) == Lengths(m)[k := |list|];
  }

  /** `sum(len(items) for items in m.values())`. */
  method SumLengths<K(==)>(m: map<K, seq<Entry>>) returns (n: int)
    ensures n == MapSum(Lengths(m))
  {
    n := 0;
    var rest := m;
    while rest != map[]
      invariant n + MapSum(Lengths(rest)) == MapSum(Lengths(m))
      decreases |rest|
    {
      assert rest.Keys != {};
      var k :| k in rest.Keys;
      MapSumRemove(Lengths(rest), k);
      assert Lengths(rest) - {k} == Lengths(rest - {k});
      n := n + |rest[k]|;
      rest := rest - {k};
    }
  }

  lemma BucketedNext(exclusions: seq<Exclusion>, threshold: real, fs: seq<Finding>, f: Finding, b: Bucket)
    ensures Bucketed(exclusions, threshold, fs + [f], b)
         == Bucketed(exclusions, threshold, fs, b) + if BucketOf(exclusions, threshold, f) == b then [f.entry] else []
  {
    FilterConcat(Into(exclusions, threshold, b), fs, [f]);
    FilterOne(Into(exclusions, threshold, b), f);
  }

  lemma NothingRead(exclusions: seq<Exclusion>, threshold: real)
    ensures Findings([]) == [] && DocumentFindings([]) == []
    ensures forall b: Bucket :: Bucketed(exclusions, threshold, [], b) == []
  {
  }

  lemma FindingsNext(documents: seq<Document>, d: int)
    requires 0 <= d < |documents|
    ensures Findings(documents[..d + 1]) == Findings(documents[..d]) + DocumentFindings(documents[d])
  {
    assert documents[..d + 1][..d] == documents[..d];
  }

  lemma DocumentFindingsNext(document: Document, r: int)
    requires 0 <= r < |document|
    ensures DocumentFindings(document[..r + 1])
         == DocumentFindings(document[..r]) + RunFindings(document[r].rules, document[r].results)
    ensures |RunFindings(document[r].rules, document[r].results)| == |document[r].results|
  {
    assert document[..r + 1][..r] == document[..r];
  }

  /** `classify`: afterwards every bucket lists its own findings and nothing else. */
  method Classify(documents: seq<Document>, threshold: real, exclusions: seq<Exclusion>) returns (outcome: Outcome)
    ensures fresh(outcome)
    ensures forall b: Bucket :: outcome.Entries(b) == Bucketed(exclusions, threshold, Findings(documents), b)
    ensures outcome.Size() == |Findings(documents)|
  {
    hide Bucketed, Findings, DocumentFindings, RunFindings;
    outcome := new Outcome();
    NothingRead(exclusions, threshold);
    for d := 0 to |documents|
      invariant fresh(outcome)
      invariant forall b: Bucket :: outcome.Entries(b) == Bucketed(exclusions, threshold, Findings(documents[..d]), b)
      invariant outcome.Size() == |Findings(documents[..d])|
    {
      FindingsNext(documents, d);
      var document := documents[d];
      var before := Findings(documents[..d]);
      assert document[..0] == [] && before + [] == before;
      for r := 0 to |document|
        invariant fresh(outcome)
        invariant forall b: Bucket ::
          outcome.Entries(b) == Bucketed(exclusions, threshold, before + DocumentFindings(document[..r]), b)
        invariant outcome.Size() == |before + DocumentFindings(document[..r])|
      {
        DocumentFindingsNext(document, r);
        ClassifyRun(outcome, document[r], threshold, exclusions, before + DocumentFindings(document[..r]));
        assert before + DocumentFindings(document[..r]) + RunFindings(document[r].rules, document[r].results)
            == before + DocumentFindings(document[..r + 1]);
      }
      assert document[..|document|] == document;
    }
    assert documents[..|documents|] == documents;
  }

  method ClassifyRun(outcome: Outcome, run: RunLog, threshold: real, exclusions: seq<Exclusion>, ghost before: seq<Finding>)
    requires forall b: Bucket :: outcome.Entries(b) == Bucketed(exclusions, threshold, before, b)
    modifies outcome
    ensures outcome.Size() == old(outcome.Size()) + |run.results|
    ensures forall b: Bucket ::
      outcome.Entries(b) == Bucketed(exclusions, threshold, before + RunFindings(run.rules, run.results), b)
  {
    var results := run.results;
    ghost var done := before;
    assert before + RunFindings(run.rules, results[..0]) == before;
    for i := 0 to |results|
      invariant done == before + RunFindings(run.rules, results[..i])
      invariant outcome.Size() == old(outcome.Size()) + i
      invariant forall b: Bucket :: outcome.Entries(b) == Bucketed(exclusions, threshold, done, b)
    {
      var f := FindingOf(run.rules, results[i]);
      forall b: Bucket
        ensures Bucketed(exclusions, threshold, done + [f], b)
             == Bucketed(exclusions, threshold, done, b) + if BucketOf(exclusions, threshold, f) == b then [f.entry] else []
      {
        BucketedNext(exclusions, threshold, done, f, b);
      }
      outcome.File(BucketOf(exclusions, threshold, f), f.entry);
      done := done + [f];
    }
    assert results[..|results|] == results;
  }

  // ------------------------------------------------------------- exit status

  predicate Stale(exclusions: seq<Exclusion>, threshold: real, fs: seq<Finding>, i: nat) {
    Bucketed(exclusions, threshold, fs, Excluded(i)) == []
  }

  /** The status `report` returns, as a function of the findings. */
  function ExitStatus(exclusions: seq<Exclusion>, threshold: real, fs: seq<Finding>): int {
    if exists i: nat | i < |exclusions| :: Stale(exclusions, threshold, fs, i) then 1
    else if Bucketed(exclusions, threshold, fs, Blocking) != [] then 1
    else 0
  }

  /** `report` on a classified outcome. */
  method Report(outcome: Outcome, exclusions: seq<Exclusion>, ghost threshold: real, ghost fs: seq<Finding>)
    returns (status: int)
    requires forall b: Bucket :: outcome.Entries(b) == Bucketed(exclusions, threshold, fs, b)
    ensures status == ExitStatus(exclusions, threshold, fs)
  {
    var stale: seq<Exclusion> := [];
    for i := 0 to |exclusions|
      invariant stale != [] <==> exists j: nat | j < i :: Stale(exclusions, threshold, fs, j)
    {
      assert outcome.Entries(Excluded(i)) == Bucketed(exclusions, threshold, fs, Excluded(i));
      if outcome.Entries(Excluded(i)) == [] {
        assert Stale(exclusions, threshold, fs, i);
        stale := stale + [exclusions[i]];
      }
    }
    assert outcome.Entries(Blocking) == outcome.blocking;
    if stale != [] {
      return 1;
    }
    return if outcome.blocking != [] then 1 else 0;
  }

  lemma BucketedMembers(exclusions: seq<Exclusion>, threshold: real, fs: seq<Finding>, b: Bucket)
    ensures Bucketed(exclusions, threshold, fs, b) != [] <==> exists f | f in fs :: BucketOf(exclusions, threshold, f) == b
  {
    var mine := Filter(Into(exclusions, threshold, b), fs);
    if mine != [] {
      FilterMembers(Into(exclusions, threshold, b), fs, mine[0]);
    }
    if f :| f in fs && BucketOf(exclusions, threshold, f) == b {
      FilterMembers(Into(exclusions, threshold, b), fs, f);
    }
  }

  /** An exclusion earns its place by being the first to match some finding that is not suppressed. */
  predicate Earned(exclusions: seq<Exclusion>, fs: seq<Finding>, i: nat)
    requires i < |exclusions|
  {
    exists f | f in fs ::
      && !f.suppressed && exclusions[i].Covers(f.entry.rule, f.uri)
      && forall j: nat | j < i :: !exclusions[j].Covers(f.entry.rule, f.uri)
  }

  /** A finding that no suppression and no exclusion excuses, at or above the threshold. */
  predicate Blocks(exclusions: seq<Exclusion>, threshold: real, f: Finding) {
    && !f.suppressed && f.severity.Some? && f.severity.value >= threshold
    && forall j: nat | j < |exclusions| :: !exclusions[j].Covers(f.entry.rule, f.uri)
  }

  lemma DeclaredIs(exclusions: seq<Exclusion>, f: Finding, i: nat)
    requires i < |exclusions|
    ensures Declared(exclusions, f) == Some(i)
      <==> exclusions[i].Covers(f.entry.rule, f.uri) && forall j: nat | j < i :: !exclusions[j].Covers(f.entry.rule, f.uri)
  {
  }

  /** The build passes exactly when nothing blocks and every exclusion is earned. */
  lemma PassMeans(exclusions: seq<Exclusion>, threshold: real, fs: seq<Finding>)
    ensures ExitStatus(exclusions, threshold, fs) == 0
      <==> ((forall f | f in fs :: !Blocks(exclusions, threshold, f))
            && forall i: nat | i < |exclusions| :: Earned(exclusions, fs, i))
  {
    hide Bucketed;
    forall i: nat | i < |exclusions| ensures Stale(exclusions, threshold, fs, i) <==> !Earned(exclusions, fs, i) {
      BucketedMembers(exclusions, threshold, fs, Excluded(i));
      forall f | f in fs
        ensures BucketOf(exclusions, threshold, f) == Excluded(i) <==> !f.suppressed && Declared(exclusions, f) == Some(i)
      {
        DeclaredIs(exclusions, f, i);
      }
      EarnedMeans(exclusions, fs, i);
    }
    BucketedMembers(exclusions, threshold, fs, Blocking);
    forall f | f in fs ensures BucketOf(exclusions, threshold, f) == Blocking <==> Blocks(exclusions, threshold, f) {
    }
  }

  lemma EarnedMeans(exclusions: seq<Exclusion>, fs: seq<Finding>, i: nat)
    requires i < |exclusions|
    ensures Earned(exclusions, fs, i) <==> exists f | f in fs :: !f.suppressed && Declared(exclusions, f) == Some(i)
  {
    forall f | f in fs
      ensures Declared(exclusions, f) == Some(i)
        <==> (exclusions[i].Covers(f.entry.rule, f.uri)
              && forall j: nat | j < i :: !exclusions[j].Covers(f.entry.rule, f.uri))
    {
      DeclaredIs(exclusions, f, i);
    }
  }

  /** A rule and path declared twice can never pass: the second is never the first match. */
  lemma DuplicateExclusionFails(exclusions: seq<Exclusion>, threshold: real, fs: seq<Finding>, i: nat, j: nat)
    requires i < j < |exclusions| && exclusions[i].rule == exclusions[j].rule && exclusions[i].path == exclusions[j].path
    ensures ExitStatus(exclusions, threshold, fs) == 1
  {
    PassMeans(exclusions, threshold, fs);
    assert !Earned(exclusions, fs, j) by {
      assert forall f: Finding :: exclusions[j].Covers(f.entry.rule, f.uri) ==> exclusions[i].Covers(f.entry.rule, f.uri);
    }
  }

  /** Raising the threshold moves findings from blocking to reported and touches no other bucket. */
  lemma ThresholdMoves(exclusions: seq<Exclusion>, low: real, high: real, f: Finding)
    requires low <= high
    ensures BucketOf(exclusions, high, f) == BucketOf(exclusions, low, f)
      || (BucketOf(exclusions, low, f) == Blocking && BucketOf(exclusions, high, f) == Reported(Label(f.severity)))
    ensures BucketOf(exclusions, high, f) != BucketOf(exclusions, low, f)
      <==> Blocks(exclusions, low, f) && f.severity.value < high
  {
  }

  /** Raising the threshold never turns a pass into a failure. */
  lemma ThresholdMonotone(exclusions: seq<Exclusion>, low: real, high: real, fs: seq<Finding>)
    requires low <= high && ExitStatus(exclusions, low, fs) == 0
    ensures ExitStatus(exclusions, high, fs) == 0
  {
    PassMeans(exclusions, low, fs);
    PassMeans(exclusions, high, fs);
    forall f | f in fs ensures !Blocks(exclusions, high, f) {
      assert !Blocks(exclusions, low, f);
    }
  }

  predicate SomeDocumentHas(documents: seq<Document>, f: Finding) {
    exists d | d in documents :: f in DocumentFindings(d)
  }

  lemma {:induction false} FindingsFrom(documents: seq<Document>, f: Finding)
    ensures f in Findings(documents) <==> SomeDocumentHas(documents, f)
  {
    if documents != [] {
      var front, last := documents[..|documents| - 1], documents[|documents| - 1];
      assert documents == front + [last];
      FindingsFrom(front, f);
      if SomeDocumentHas(front, f) {
        var d :| d in front && f in DocumentFindings(d);
        assert d in documents;
      }
      assert last in documents;
    }
  }

  lemma SameMembersSameStatus(exclusions: seq<Exclusion>, threshold: real, x: seq<Finding>, y: seq<Finding>)
    requires forall f :: f in x <==> f in y
    ensures ExitStatus(exclusions, threshold, x) == ExitStatus(exclusions, threshold, y)
  {
    PassMeans(exclusions, threshold, x);
    PassMeans(exclusions, threshold, y);
    assert forall i: nat | i < |exclusions| :: Earned(exclusions, x, i) <==> Earned(exclusions, y, i);
    StatusIsBinary(exclusions, threshold, x);
    StatusIsBinary(exclusions, threshold, y);
    hide ExitStatus;
  }

  /** The exit status does not depend on the order in which the reports are read. */
  lemma DocumentOrderFree(exclusions: seq<Exclusion>, threshold: real, a: seq<Document>, b: seq<Document>)
    requires multiset(a) == multiset(b)
    ensures ExitStatus(exclusions, threshold, Findings(a)) == ExitStatus(exclusions, threshold, Findings(b))
  {
    assert forall d :: d in a <==> d in multiset(a);
    assert forall d :: d in b <==> d in multiset(b);
    forall f: Finding ensures f in Findings(a) <==> f in Findings(b) {
      FindingsFrom(a, f);
      FindingsFrom(b, f);
    }
    SameMembersSameStatus(exclusions, threshold, Findings(a), Findings(b));
  }

  lemma StatusIsBinary(exclusions: seq<Exclusion>, threshold: real, fs: seq<Finding>)
    ensures ExitStatus(exclusions, threshold, fs) == 0 || ExitStatus(exclusions, threshold, fs) == 1
  {
  }

  // --------------------------------------------- the gate, in the reports' own fields

  /** The identifier of the rule a result names, `(unknown rule)` where it names none. */
  predicate OfRule(r: Result, id: Text) {
    r.ruleId == Some(id) || (r.ruleId.None? && id == Lit("(unknown rule)"))
  }

  predicate NamesFile(l: Location) {
    l.uri.Some? && l.uri.value != []
  }

  /** The first location that names a file names this one. */
  predicate InFile(r: Result, path: Text) {
    exists k | 0 <= k < |r.locations| :: FirstNamed(r.locations, path, k)
  }

  predicate FirstNamed(locations: seq<Location>, path: Text, k: int) {
    && 0 <= k < |locations| && NamesFile(locations[k]) && locations[k].uri == Some(path)
    && forall j | 0 <= j < k :: !NamesFile(locations[j])
  }

  predicate Excuses(x: Exclusion, r: Result) {
    OfRule(r, x.rule) && InFile(r, x.path)
  }

  function WithId(id: Text): Rule -> bool {
    (rule: Rule) => rule.id == Some(id)
  }

  /** The last rule of an identifier has this severity. */
  predicate RuleSeverity(rules: seq<Rule>, id: Text, severity: real) {
    exists k | 0 <= k < |rules| :: LastAt(WithId(id), rules, k) && rules[k].severity == Some(severity)
  }

  /** The severity of an identifier is that of its last rule, and none without a rule of it. */
  lemma {:induction false} SeverityMeans(rules: seq<Rule>, id: Text)
    ensures forall k | LastAt(WithId(id), rules, k) :: SeverityOf(rules, id) == rules[k].severity
    ensures (forall k | 0 <= k < |rules| :: rules[k].id != Some(id)) ==> SeverityOf(rules, id) == None
    ensures SeverityOf(rules, id).Some? ==> RuleSeverity(rules, id, SeverityOf(rules, id).value)
  {
    if rules != [] {
      var front := rules[..|rules| - 1];
      SeverityMeans(front, id);
      forall k ensures LastAt(WithId(id), rules, k)
        <==> if rules[|front|].id == Some(id) then k == |front| else LastAt(WithId(id), front, k)
      {
        LastOfFront(WithId(id), rules, k);
      }
      if rules[|front|].id == Some(id) {
        assert LastAt(WithId(id), rules, |front|);
      } else if SeverityOf(front, id).Some? {
        var k :| 0 <= k < |front| && LastAt(WithId(id), front, k) && front[k].severity == SeverityOf(front, id);
        assert LastAt(WithId(id), rules, k) && rules[k].severity == SeverityOf(rules, id);
      }
    }
  }

  /** The rule the result names has, by its last listing, this severity. */
  ghost predicate HasSeverity(rules: seq<Rule>, r: Result, severity: real) {
    exists id: Text :: OfRule(r, id) && RuleSeverity(rules, id, severity)
  }

  lemma ResultSeverity(rules: seq<Rule>, r: Result, severity: real)
    ensures FindingOf(rules, r).severity == Some(severity) <==> HasSeverity(rules, r, severity)
  {
    hide Lit, SeverityOf, FirstLocation;
    SeverityMeans(rules, RuleIdOf(r));
    assert OfRule(r, RuleIdOf(r));
    if HasSeverity(rules, r, severity) {
      var id: Text :| OfRule(r, id) && RuleSeverity(rules, id, severity);
      assert id == RuleIdOf(r);
    }
  }

  lemma {:induction false} FirstLocationMeans(locations: seq<Location>, path: Text)
    ensures (FirstLocation(locations).Some? && FirstLocation(locations).value.uri == Some(path))
      <==> exists k :: FirstNamed(locations, path, k)
  {
    if locations != [] {
      FirstLocationMeans(locations[1..], path);
      assert NamesFile(locations[0]) ==> forall k | FirstNamed(locations, path, k) :: k == 0;
      assert NamesFile(locations[0]) && locations[0].uri == Some(path) ==> FirstNamed(locations, path, 0);
      if !NamesFile(locations[0]) {
        if k :| FirstNamed(locations[1..], path, k) {
          assert forall j | 0 < j <= k + 1 :: locations[j] == locations[1..][j - 1];
          assert FirstNamed(locations, path, k + 1);
        }
        if k :| FirstNamed(locations, path, k) {
          assert FirstNamed(locations[1..], path, k - 1);
        }
      }
    }
  }

  lemma CoversMeans(rules: seq<Rule>, r: Result, x: Exclusion)
    ensures x.Covers(FindingOf(rules, r).entry.rule, FindingOf(rules, r).uri) <==> Excuses(x, r)
  {
    hide Lit, SeverityOf, FirstLocation;
    FirstLocationMeans(r.locations, x.path);
  }

  /** A run of some report holds the result. */
  predicate Holds(documents: seq<Document>, run: RunLog, r: Result) {
    r in run.results && exists d | d in documents :: run in d
  }

  lemma {:induction false} RunsOf(d: Document, f: Finding)
    ensures f in DocumentFindings(d)
      <==> exists run, r | run in d && r in run.results :: f == FindingOf(run.rules, r)
  {
    if d != [] {
      var n := |d| - 1;
      RunsOf(d[..n], f);
      hide FindingOf;
      assert d == d[..n] + [d[n]];
      var last := RunFindings(d[n].rules, d[n].results);
      if run, r :| run in d && r in run.results && f == FindingOf(run.rules, r) {
        if run == d[n] {
          var i :| 0 <= i < |d[n].results| && d[n].results[i] == r;
          assert last[i] == f;
        }
      }
      if f in last {
        var i :| 0 <= i < |last| && last[i] == f;
        assert d[n].results[i] in d[n].results && d[n] in d;
      }
    }
  }

  lemma FindingsMean(documents: seq<Document>, f: Finding)
    ensures f in Findings(documents) <==> exists run, r | Holds(documents, run, r) :: f == FindingOf(run.rules, r)
  {
    hide FindingOf, Findings, DocumentFindings;
    FindingsFrom(documents, f);
    forall d | d in documents
      ensures f in DocumentFindings(d) <==> exists run, r | run in d && r in run.results :: f == FindingOf(run.rules, r)
    {
      RunsOf(d, f);
    }
    if run, r :| Holds(documents, run, r) && f == FindingOf(run.rules, r) {
      var d :| d in documents && run in d;
      assert f in DocumentFindings(d);
    }
    if SomeDocumentHas(documents, f) {
      var d :| d in documents && f in DocumentFindings(d);
      var run, r :| run in d && r in run.results && f == FindingOf(run.rules, r);
      assert Holds(documents, run, r);
    }
  }

  /** Not suppressed, excused by no exclusion, and of a rule whose last listing is at or above the threshold. */
  ghost predicate Stops(exclusions: seq<Exclusion>, threshold: real, run: RunLog, r: Result) {
    && !r.suppressed
    && (exists severity | severity >= threshold :: HasSeverity(run.rules, r, severity))
    && forall x | x in exclusions :: !Excuses(x, r)
  }

  /** Not suppressed, and excused by this exclusion before any other. */
  predicate Earns(exclusions: seq<Exclusion>, i: nat, r: Result)
    requires i < |exclusions|
  {
    !r.suppressed && Excuses(exclusions[i], r) && forall j: nat | j < i :: !Excuses(exclusions[j], r)
  }

  lemma StopsMeans(exclusions: seq<Exclusion>, threshold: real, run: RunLog, r: Result)
    ensures Blocks(exclusions, threshold, FindingOf(run.rules, r)) <==> Stops(exclusions, threshold, run, r)
  {
    hide FirstLocation, SeverityOf, HasSeverity, Excuses;
    var f := FindingOf(run.rules, r);
    forall x: Exclusion ensures x.Covers(f.entry.rule, f.uri) <==> Excuses(x, r) {
      CoversMeans(run.rules, r, x);
    }
    forall severity: real ensures f.severity == Some(severity) <==> HasSeverity(run.rules, r, severity) {
      ResultSeverity(run.rules, r, severity);
    }
    assert f.suppressed == r.suppressed;
    assert f.severity.Some? ==> HasSeverity(run.rules, r, f.severity.value);
    assert (forall j: nat | j < |exclusions| :: !exclusions[j].Covers(f.entry.rule, f.uri))
      <==> forall x | x in exclusions :: !Excuses(x, r);
  }

  /** Some result of the reports earns the exclusion its place. */
  ghost predicate EarnedBy(documents: seq<Document>, exclusions: seq<Exclusion>, i: nat)
    requires i < |exclusions|
  {
    exists run, r :: Holds(documents, run, r) && Earns(exclusions, i, r)
  }

  lemma EarnsFinding(exclusions: seq<Exclusion>, i: nat, run: RunLog, r: Result)
    requires i < |exclusions|
    ensures var f := FindingOf(run.rules, r);
      Earns(exclusions, i, r)
      <==> (!f.suppressed && exclusions[i].Covers(f.entry.rule, f.uri)
            && forall j: nat | j < i :: !exclusions[j].Covers(f.entry.rule, f.uri))
  {
    hide FindingOf, Excuses;
    SuppressedKept(run.rules, r);
    forall j: nat | j < |exclusions|
      ensures exclusions[j].Covers(FindingOf(run.rules, r).entry.rule, FindingOf(run.rules, r).uri)
        <==> Excuses(exclusions[j], r)
    {
      CoversMeans(run.rules, r, exclusions[j]);
    }
  }

  lemma EarnsMeans(exclusions: seq<Exclusion>, documents: seq<Document>, i: nat)
    requires i < |exclusions|
    ensures Earned(exclusions, Findings(documents), i) <==> EarnedBy(documents, exclusions, i)
  {
    hide FindingOf, Findings, Earns, Holds;
    if Earned(exclusions, Findings(documents), i) {
      var f :| f in Findings(documents) && !f.suppressed && exclusions[i].Covers(f.entry.rule, f.uri)
        && forall j: nat | j < i :: !exclusions[j].Covers(f.entry.rule, f.uri);
      FindingsMean(documents, f);
      var run, r :| Holds(documents, run, r) && f == FindingOf(run.rules, r);
      EarnsFinding(exclusions, i, run, r);
    }
    if EarnedBy(documents, exclusions, i) {
      var run, r :| Holds(documents, run, r) && Earns(exclusions, i, r);
      FindingsMean(documents, FindingOf(run.rules, r));
      EarnsFinding(exclusions, i, run, r);
      assert FindingOf(run.rules, r) in Findings(documents);
    }
  }

  lemma SuppressedKept(rules: seq<Rule>, r: Result)
    ensures FindingOf(rules, r).suppressed == r.suppressed
  {
  }

  /** The bucket of a result: suppressed, excused, stopping the build, or reported under its severity in tenths. */
  lemma BucketMeans(exclusions: seq<Exclusion>, threshold: real, run: RunLog, r: Result)
    ensures var b := BucketOf(exclusions, threshold, FindingOf(run.rules, r));
      && (b == Suppressed <==> r.suppressed)
      && (b == Blocking <==> Stops(exclusions, threshold, run, r))
      && (forall i: nat :: b == Excluded(i) <==> (i < |exclusions| && Earns(exclusions, i, r)))
      && (b == Reported(None) ==> forall severity: real :: !HasSeverity(run.rules, r, severity))
      && (forall severity: real | HasSeverity(run.rules, r, severity) && b.Reported? ::
            b.tenths.Some? && -0.5 <= b.tenths.value as real - severity * 10.0 <= 0.5)
  {
    hide FindingOf, Stops, Earns, HasSeverity, RoundHalfEven, Exclusion.Covers;
    var f := FindingOf(run.rules, r);
    SuppressedKept(run.rules, r);
    StopsMeans(exclusions, threshold, run, r);
    forall i: nat ensures Declared(exclusions, f) == Some(i) && !f.suppressed
      <==> (i < |exclusions| && Earns(exclusions, i, r))
    {
      if i < |exclusions| {
        DeclaredIs(exclusions, f, i);
        EarnsFinding(exclusions, i, run, r);
      }
    }
    forall severity: real ensures f.severity == Some(severity) <==> HasSeverity(run.rules, r, severity) {
      ResultSeverity(run.rules, r, severity);
    }
    if f.severity.Some? {
      RoundingError(f.severity.value * 10.0);
      assert HasSeverity(run.rules, r, f.severity.value);
    }
  }

  /** The entry shows the result's own rule, message and first named file. */
  lemma EntryMeans(rules: seq<Rule>, r: Result)
    ensures var entry := FindingOf(rules, r).entry;
      && OfRule(r, entry.rule) && entry.message == r.message
      && (entry.location.Some? ==> entry.location.value in r.locations)
      && forall path: Text | InFile(r, path) :: entry.location.Some? && entry.location.value.uri == Some(path)
  {
    hide Lit, SeverityOf;
    FirstLocationIn(r.locations);
    forall path: Text | InFile(r, path)
      ensures FirstLocation(r.locations).Some? && FirstLocation(r.locations).value.uri == Some(path)
    {
      FirstLocationMeans(r.locations, path);
    }
  }

  lemma {:induction false} FirstLocationIn(locations: seq<Location>)
    ensures FirstLocation(locations).Some? ==> FirstLocation(locations).value in locations
  {
    if locations != [] {
      FirstLocationIn(locations[1..]);
    }
  }

  /** The build passes exactly when no result of any report stops it and every exclusion is earned by one. */
  lemma GateMeans(documents: seq<Document>, threshold: real, exclusions: seq<Exclusion>)
    ensures ExitStatus(exclusions, threshold, Findings(documents)) == 0
      <==> ((forall run, r | Holds(documents, run, r) :: !Stops(exclusions, threshold, run, r))
            && forall i: nat | i < |exclusions| :: EarnedBy(documents, exclusions, i))
  {
    hide FindingOf, Findings, Blocks, Stops, Earned, EarnedBy, Holds, ExitStatus;
    var fs := Findings(documents);
    PassMeans(exclusions, threshold, fs);
    forall run: RunLog, r: Result
      ensures Blocks(exclusions, threshold, FindingOf(run.rules, r)) <==> Stops(exclusions, threshold, run, r)
    {
      StopsMeans(exclusions, threshold, run, r);
    }
    forall f: Finding ensures f in fs <==> exists run, r | Holds(documents, run, r) :: f == FindingOf(run.rules, r) {
      FindingsMean(documents, f);
    }
    forall i: nat | i < |exclusions| ensures Earned(exclusions, fs, i) <==> EarnedBy(documents, exclusions, i) {
      EarnsMeans(exclusions, documents, i);
    }
    forall run, r | Holds(documents, run, r) ensures FindingOf(run.rules, r) in fs {
    }
  }
}
