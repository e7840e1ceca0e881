/** The backfill of per-stream sequence numbers that makes the later unique constraint hold. */
module Backfill {
  import opened Texts
  import opened Counting
  import opened Sorting

  /** A row of `audit_events`; the two added columns start out null. */
  datatype Event = Event(
    id: Text,
    tenant: Text,
    engagement: Option<Text>,
    task: Option<Text>,
    occurredAt: int,
    stream: Option<Text>,
    sequence: Option<nat>)

  predicate IsEmpty(t: Option<Text>) {
    t.None? || t.value == []
  }

  /** `task_id or engagement_id or f"tenant:{tenant_id}"`. */
  function StreamOf(e: Event): Text {
    if !IsEmpty(e.task) then e.task.value
    else if !IsEmpty(e.engagement) then e.engagement.value
    else Lit("tenant:") + e.tenant
  }

  /** `ORDER BY occurred_at, event_id`. */
  predicate EventLe(a: Event, b: Event) {
    if a.occurredAt != b.occurredAt then a.occurredAt < b.occurredAt else LexLe(a.id, b.id)
  }

  predicate SameStream(a: Event, b: Event) {
    a.tenant == b.tenant && StreamOf(a) == StreamOf(b)
  }

  function InStream(e: Event): Event -> bool {
    (x: Event) => SameStream(x, e)
  }

  /** The events of the same tenant and stream that come strictly before. */
  function EarlierInStream(e: Event): Event -> bool {
    (x: Event) => SameStream(x, e) && x.id != e.id && EventLe(x, e)
  }

  /** One plus the number of earlier events of the stream. */
  function SequenceOf(rows: seq<Event>, e: Event): nat {
    1 + Count(EarlierInStream(e), rows)
  }

  function Numbered(rows: seq<Event>, e: Event): Event {
    e.(stream := Some(StreamOf(e)), sequence := Some(SequenceOf(rows, e)))
  }

  /** `event_id` is the primary key. */
  predicate DistinctIds(rows: seq<Event>) {
    forall i, j | 0 <= i < j < |rows| :: rows[i].id != rows[j].id
  }

  lemma EventLePreorder()
    ensures TotalPreorder(EventLe)
  {
    forall x: Event, y: Event ensures EventLe(x, y) || EventLe(y, x) {
      LexTotal(x.id, y.id);
    }
    forall x: Event, y: Event, z: Event | EventLe(x, y) && EventLe(y, z) ensures EventLe(x, z) {
      if LexLe(x.id, y.id) && LexLe(y.id, z.id) {
        LexTransitive(x.id, y.id, z.id);
      }
    }
  }

  lemma EventLeAntisymmetric(x: Event, y: Event)
    requires EventLe(x, y) && EventLe(y, x)
    ensures x.id == y.id
  {
    LexAntisymmetric(x.id, y.id);
  }

  lemma DistinctIdsPermuted(a: seq<Event>, b: seq<Event>)
    requires multiset(a) == multiset(b) && DistinctIds(a)
    ensures DistinctIds(b)
  {
    forall i, j | 0 <= i < j < |b| ensures b[i].id != b[j].id {
      assert b[i] in multiset(a) && b[j] in multiset(a);
      Multiplicity(a, b[i]);
      if b[i] == b[j] {
        TwicePresent(b, i, j);
      }
    }
  }

  /** In order, an event is preceded by exactly the earlier events of its stream. */
  lemma EarlierArePreceding(rows: seq<Event>, sorted: seq<Event>, j: int)
    requires multiset(sorted) == multiset(rows) && DistinctIds(sorted) && Sorted(EventLe, sorted)
    requires 0 <= j < |sorted|
    ensures Count(EarlierInStream(sorted[j]), rows) == Count(InStream(sorted[j]), sorted[..j])
  {
    var e := sorted[j];
    FilterPermuted(EarlierInStream(e), sorted, rows);
    assert sorted == sorted[..j] + sorted[j..];
    FilterConcat(EarlierInStream(e), sorted[..j], sorted[j..]);
    forall x | x in sorted[..j] ensures EarlierInStream(e)(x) <==> InStream(e)(x) {
      var i :| 0 <= i < j && sorted[i] == x;
      assert EventLe(sorted[i], sorted[j]);
    }
    FilterSame(EarlierInStream(e), InStream(e), sorted[..j]);
    forall x | x in sorted[j..] ensures !EarlierInStream(e)(x) {
      var i :| 0 <= i < |sorted[j..]| && sorted[j..][i] == x;
      assert x == sorted[i + j];
      if i > 0 && EventLe(x, e) {
        assert EventLe(sorted[j], sorted[i + j]);
        EventLeAntisymmetric(x, e);
      }
    }
    CountZero(EarlierInStream(e), sorted[j..]);
  }

  type Counters = map<(Text, Text), nat>

  /** `counters.get(key, 0)`. */
  function CounterAt(counters: Counters, e: Event): nat {
    var key := (e.tenant, StreamOf(e));
    if key in counters then counters[key] else 0
  }

  ghost predicate CountersHold(counters: Counters, done: seq<Event>) {
    forall e: Event :: CounterAt(counters, e) == Count(InStream(e), done)
  }

  /** The rows already visited are numbered and the others untouched. */
  ghost predicate RowsHold(rows: seq<Event>, before: seq<Event>, done: seq<Event>) {
    |rows| == |before|
    && forall k | 0 <= k < |rows| :: rows[k] == if before[k] in done then Numbered(before, before[k]) else before[k]
  }

  /** The row of an identifier, and no other, gets the two values. */
  predicate IsUpdated(rows: seq<Event>, was: seq<Event>, id: Text, stream: Text, sequence: nat) {
    |rows| == |was|
    && forall k | 0 <= k < |rows| ::
      rows[k] == if was[k].id == id then was[k].(stream := Some(stream), sequence := Some(sequence)) else was[k]
  }

  lemma CountersNext(counters: Counters, ordered: seq<Event>, n: int)
    requires 0 <= n < |ordered| && CountersHold(counters, ordered[..n])
    ensures var row := ordered[n];
      CountersHold(counters[(row.tenant, StreamOf(row)) := CounterAt(counters, row) + 1], ordered[..n + 1])
  {
    var row := ordered[n];
    var next := counters[(row.tenant, StreamOf(row)) := CounterAt(counters, row) + 1];
    forall e: Event ensures CounterAt(next, e) == Count(InStream(e), ordered[..n + 1]) {
      FilterNext(InStream(e), ordered, n);
      assert CounterAt(counters, e) == Count(InStream(e), ordered[..n]);
      assert CounterAt(counters, row) == Count(InStream(row), ordered[..n]);
    }
  }

  lemma RowsNext(rows: seq<Event>, was: seq<Event>, before: seq<Event>, ordered: seq<Event>, n: int)
    requires 0 <= n < |ordered| && RowsHold(was, before, ordered[..n])
    requires multiset(ordered) == multiset(before) && DistinctIds(before)
    requires IsUpdated(rows, was, ordered[n].id, StreamOf(ordered[n]), SequenceOf(before, ordered[n]))
    ensures RowsHold(rows, before, ordered[..n + 1])
  {
    hide SequenceOf, StreamOf;
    forall k | 0 <= k < |rows|
      ensures rows[k] == if before[k] in ordered[..n + 1] then Numbered(before, before[k]) else before[k]
    {
      assert ordered[..n + 1] == ordered[..n] + [ordered[n]];
      SameIdSameRow(before, ordered, k, n);
      assert was[k].id == before[k].id;
    }
  }

  lemma SameIdSameRow(before: seq<Event>, ordered: seq<Event>, k: int, n: int)
    requires multiset(ordered) == multiset(before) && DistinctIds(before)
    requires 0 <= k < |before| && 0 <= n < |ordered|
    ensures before[k].id == ordered[n].id <==> before[k] == ordered[n]
  {
    assert ordered[n] in multiset(before);
    var i :| 0 <= i < |before| && before[i] == ordered[n];
  }

  lemma AllVisited(rows: seq<Event>, before: seq<Event>, ordered: seq<Event>)
    requires RowsHold(rows, before, ordered[..|ordered|]) && multiset(ordered) == multiset(before)
    ensures forall k | 0 <= k < |rows| :: rows[k] == Numbered(before, before[k])
  {
    assert ordered[..|ordered|] == ordered;
    forall k | 0 <= k < |rows| ensures before[k] in ordered {
      assert before[k] in multiset(ordered);
    }
  }

  class AuditEvents {
    var rows: seq<Event>

    constructor (rows: seq<Event>)
      ensures this.rows == rows
    {
      this.rows := rows;
    }

    /** `UPDATE audit_events SET stream_id, sequence_no WHERE event_id`. */
    method Update(id: Text, stream: Text, sequence: nat)
      modifies this
      ensures IsUpdated(rows, old(rows), id, stream, sequence)
    {
      var updated: seq<Event> := [];
      for k := 0 to |rows|
        invariant |updated| == k && rows == old(rows)
        invariant forall i | 0 <= i < k ::
          updated[i] == if rows[i].id == id then rows[i].(stream := Some(stream), sequence := Some(sequence)) else rows[i]
      {
        var e := rows[k];
        updated := updated + [if e.id == id then e.(stream := Some(stream), sequence := Some(sequence)) else e];
      }
      rows := updated;
    }

    /** The loop of `upgrade`: every row is numbered within its stream, and nothing else about it changes. */
    method Upgrade()
      requires DistinctIds(rows)
      modifies this
      ensures |rows| == |old(rows)|
      ensures forall k | 0 <= k < |rows| :: rows[k] == Numbered(old(rows), old(rows)[k])
    {
      hide CountersHold, IsUpdated, Sort, StreamOf, EventLe;
      ghost var before := rows;
      var ordered := Sort(EventLe, rows);
      EventLePreorder();
      SortFacts(EventLe, rows);
      DistinctIdsPermuted(rows, ordered);
      var counters: Counters := map[];
      NoneCounted();
      for n := 0 to |ordered|
        invariant CountersHold(counters, ordered[..n])
        invariant RowsHold(rows, before, ordered[..n])
      {
        var row := ordered[n];
        var sequence := CounterAt(counters, row) + 1;
        NextNumber(counters, before, ordered, n);
        ghost var was := rows;
        CountersNext(counters, ordered, n);
        counters := counters[(row.tenant, StreamOf(row)) := sequence];
        Update(row.id, StreamOf(row), sequence);
        RowsNext(rows, was, before, ordered, n);
      }
      AllVisited(rows, before, ordered);
    }
  }

  lemma NoneCounted()
    ensures CountersHold(map[], [])
  {
  }

  /** The counter gives a row the number its place in the stream calls for. */
  lemma NextNumber(counters: Counters, before: seq<Event>, ordered: seq<Event>, n: int)
    requires multiset(ordered) == multiset(before) && DistinctIds(ordered) && Sorted(EventLe, ordered)
    requires 0 <= n < |ordered| && CountersHold(counters, ordered[..n])
    ensures CounterAt(counters, ordered[n]) + 1 == SequenceOf(before, ordered[n])
  {
    EarlierArePreceding(before, ordered, n);
  }

  // -------------------------------------------------------- what the numbers are

  lemma {:induction false} FilterSorted(p: Event -> bool, s: seq<Event>)
    requires Sorted(EventLe, s) && DistinctIds(s)
    ensures Sorted(EventLe, Filter(p, s)) && DistinctIds(Filter(p, s))
  {
    if s != [] {
      var rest := Filter(p, s[1..]);
      FilterSorted(p, s[1..]);
      forall i | 0 <= i < |rest| ensures EventLe(s[0], rest[i]) && rest[i].id != s[0].id {
        assert rest[i] in rest;
        FilterMembers(p, s[1..], rest[i]);
        var j :| 0 <= j < |s[1..]| && s[1..][j] == rest[i];
        assert s[j + 1] == rest[i];
      }
    }
  }

  lemma {:induction false} FilterTwice(p: Event -> bool, q: Event -> bool, s: seq<Event>)
    requires forall x | x in s :: q(x) ==> p(x)
    ensures Filter(q, Filter(p, s)) == Filter(q, s)
  {
    if s != [] {
      assert s[0] in s;
      FilterTwice(p, q, s[1..]);
      var rest := Filter(p, s[1..]);
      assert ([s[0]] + rest)[1..] == rest;
    }
  }

  /** The events of one stream in order: the n-th carries the number n. */
  lemma StreamNumbers(rows: seq<Event>, e: Event, n: int)
    requires DistinctIds(rows)
    requires 0 <= n < Count(InStream(e), rows)
    ensures |Filter(InStream(e), Sort(EventLe, rows))| == Count(InStream(e), rows)
    ensures var x := Filter(InStream(e), Sort(EventLe, rows))[n];
      x in rows && SameStream(x, e) && SequenceOf(rows, x) == n + 1
  {
    var sorted := Sort(EventLe, rows);
    EventLePreorder();
    SortFacts(EventLe, rows);
    DistinctIdsPermuted(rows, sorted);
    FilterPermuted(InStream(e), sorted, rows);
    var mine := Filter(InStream(e), sorted);
    FilterSorted(InStream(e), sorted);
    var x := mine[n];
    FilterMembers(InStream(e), sorted, x);
    assert x in multiset(sorted);
    EarlierArePreceding(mine, mine, n);
    FilterTwice(InStream(e), EarlierInStream(x), sorted);
    FilterPermuted(EarlierInStream(x), sorted, rows);
    forall y | y in mine[..n] ensures InStream(x)(y) {
      assert y in mine;
      FilterMembers(InStream(e), sorted, y);
    }
    CountAll(InStream(x), mine[..n]);
  }

  lemma {:induction false} CountAll(p: Event -> bool, s: seq<Event>)
    requires forall x | x in s :: p(x)
    ensures Count(p, s) == |s|
  {
    if s != [] {
      assert s[0] in s;
      CountAll(p, s[1..]);
    }
  }

  /** Every number from one to the size of the stream is taken. */
  lemma StreamGapless(rows: seq<Event>, e: Event, number: nat)
    requires DistinctIds(rows) && 1 <= number <= Count(InStream(e), rows)
    ensures exists x | x in rows :: SameStream(x, e) && SequenceOf(rows, x) == number
  {
    StreamNumbers(rows, e, number - 1);
  }

  /** No number is beyond the size of the stream. */
  lemma StreamBounded(rows: seq<Event>, e: Event)
    requires DistinctIds(rows) && e in rows
    ensures 1 <= SequenceOf(rows, e) <= Count(InStream(e), rows)
  {
    FilterTwice(InStream(e), EarlierInStream(e), rows);
    var mine := Filter(InStream(e), rows);
    FilterMembers(InStream(e), rows, e);
    CountComplement(EarlierInStream(e), (x: Event) => !EarlierInStream(e)(x), mine);
    CountZero((x: Event) => !EarlierInStream(e)(x), mine);
  }

  /** A later event of a stream has a larger number. */
  lemma NumbersFollowOrder(rows: seq<Event>, x: Event, y: Event)
    requires DistinctIds(rows) && x in rows && y in rows && SameStream(x, y)
    ensures SequenceOf(rows, x) < SequenceOf(rows, y) <==> x.id != y.id && EventLe(x, y)
  {
    if x.id != y.id && EventLe(x, y) {
      EarlierGrows(rows, x, y);
    } else if x.id != y.id {
      LexTotal(x.id, y.id);
      EarlierGrows(rows, y, x);
    } else {
      var i :| 0 <= i < |rows| && rows[i] == x;
      var j :| 0 <= j < |rows| && rows[j] == y;
      assert x == y;
    }
  }

  lemma EarlierGrows(rows: seq<Event>, x: Event, y: Event)
    requires DistinctIds(rows) && x in rows && y in rows && SameStream(x, y) && x.id != y.id && EventLe(x, y)
    ensures Count(EarlierInStream(x), rows) < Count(EarlierInStream(y), rows)
  {
    EventLePreorder();
    forall z | z in rows && EarlierInStream(x)(z) ensures EarlierInStream(y)(z) {
      if z.id == y.id {
        assert z == y;
        EventLeAntisymmetric(x, y);
      }
    }
    CountGrows(EarlierInStream(x), EarlierInStream(y), rows, x);
  }

  lemma {:induction false} CountGrows(p: Event -> bool, q: Event -> bool, s: seq<Event>, w: Event)
    requires forall z | z in s && p(z) :: q(z)
    ensures Count(p, s) <= Count(q, s)
    ensures w in s && q(w) && !p(w) ==> Count(p, s) < Count(q, s)
  {
    if s != [] {
      assert s == [s[0]] + s[1..];
      CountGrows(p, q, s[1..], w);
    }
  }

  /** The constraint added afterwards: tenant, stream and number name one row. */
  lemma UniqueConstraintHolds(rows: seq<Event>, x: Event, y: Event)
    requires DistinctIds(rows) && x in rows && y in rows
    requires x.tenant == y.tenant && Numbered(rows, x).stream == Numbered(rows, y).stream
    requires Numbered(rows, x).sequence == Numbered(rows, y).sequence
    ensures x == y
  {
    NumbersFollowOrder(rows, x, y);
    NumbersFollowOrder(rows, y, x);
    LexTotal(x.id, y.id);
    var i :| 0 <= i < |rows| && rows[i] == x;
    var j :| 0 <= j < |rows| && rows[j] == y;
  }

  // --------------------------------------------------- on the rows' own fields

  /** The stream is the task, else the engagement, else the tenant under a prefix. */
  lemma StreamMeans(e: Event)
    ensures e.task.Some? && e.task.value != [] ==> StreamOf(e) == e.task.value
    ensures (e.task.None? || e.task.value == []) && e.engagement.Some? && e.engagement.value != []
      ==> StreamOf(e) == e.engagement.value
    ensures (e.task.None? || e.task.value == []) && (e.engagement.None? || e.engagement.value == [])
      ==> StreamOf(e) == Lit("tenant:") + e.tenant
  {
    hide Lit;
  }

  /** Earlier in time, or at the same time with the smaller identifier. */
  predicate Before(x: Event, e: Event) {
    x.occurredAt < e.occurredAt || (x.occurredAt == e.occurredAt && x.id != e.id && LexLe(x.id, e.id))
  }

  /** The number is one more than the rows of the tenant and the stream before it. */
  lemma SequenceMeans(rows: seq<Event>, e: Event)
    requires DistinctIds(rows) && e in rows
    ensures SequenceOf(rows, e)
         == 1 + Count((x: Event) => x.tenant == e.tenant && StreamOf(x) == StreamOf(e) && Before(x, e), rows)
  {
    hide StreamOf, LexLe;
    forall x | x in rows
      ensures EarlierInStream(e)(x) <==> x.tenant == e.tenant && StreamOf(x) == StreamOf(e) && Before(x, e)
    {
    }
    FilterSame(EarlierInStream(e), (x: Event) => x.tenant == e.tenant && StreamOf(x) == StreamOf(e) && Before(x, e), rows);
  }
}
