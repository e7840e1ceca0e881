/** Filters and counts over sequences: order-freeness and double counting. */
module Counting {

  /** `[x for x in s if p(x)]`. */
  function Filter<T>(p: T -> bool, s: seq<T>): seq<T> {
    if s == [] then [] else if p(s[0]) then [s[0]] + Filter(p, s[1..]) else Filter(p, s[1..])
  }

  function Count<T>(p: T -> bool, s: seq<T>): nat {
    |Filter(p, s)|
  }

  lemma {:induction false} FilterConcat<T>(p: T -> bool, a: seq<T>, b: seq<T>)
    ensures Filter(p, a + b) == Filter(p, a) + Filter(p, b)
  {
    if a == [] {
      assert a + b == b;
    } else {
      assert (a + b)[1..] == a[1..] + b;
      FilterConcat(p, a[1..], b);
    }
  }

  /** A loop that has filtered a prefix takes in the next element. */
  lemma FilterNext<T>(p: T -> bool, s: seq<T>, i: int)
    requires 0 <= i < |s|
    ensures Filter(p, s[..i + 1]) == if p(s[i]) then Filter(p, s[..i]) + [s[i]] else Filter(p, s[..i])
  {
    assert s[..i + 1] == s[..i] + [s[i]];
    FilterConcat(p, s[..i], [s[i]]);
    assert [s[i]][1..] == [];
  }

  lemma {:induction false} FilterMembers<T>(p: T -> bool, s: seq<T>, x: T)
    ensures x in Filter(p, s) <==> x in s && p(x)
  {
    if s != [] {
      assert s == [s[0]] + s[1..];
      FilterMembers(p, s[1..], x);
    }
  }

  /** Taking one element out of the middle takes it out of the multiset. */
  lemma Without<T>(s: seq<T>, i: int)
    requires 0 <= i < |s|
    ensures multiset(s) == multiset(s[..i] + s[i + 1..]) + multiset{s[i]}
    ensures s == s[..i] + ([s[i]] + s[i + 1..])
  {
    assert s == s[..i] + ([s[i]] + s[i + 1..]);
  }

  lemma FilterWithout<T>(p: T -> bool, s: seq<T>, i: int)
    requires 0 <= i < |s|
    ensures multiset(Filter(p, s))
         == multiset(Filter(p, s[..i] + s[i + 1..])) + (if p(s[i]) then multiset{s[i]} else multiset{})
  {
    hide Filter;
    Without(s, i);
    FilterConcat(p, s[..i], [s[i]] + s[i + 1..]);
    FilterConcat(p, [s[i]], s[i + 1..]);
    FilterConcat(p, s[..i], s[i + 1..]);
    FilterOne(p, s[i]);
  }

  lemma FilterOne<T>(p: T -> bool, x: T)
    ensures Filter(p, [x]) == if p(x) then [x] else []
  {
    assert [x][1..] == [];
  }

  lemma {:induction false} FilterPermuted<T>(p: T -> bool, a: seq<T>, b: seq<T>)
    requires multiset(a) == multiset(b)
    ensures multiset(Filter(p, a)) == multiset(Filter(p, b)) && Count(p, a) == Count(p, b)
    decreases |a|
  {
    hide Filter;
    if a == [] {
      assert |multiset(b)| == |b|;
    } else {
      assert a[0] in multiset(b);
      var i :| 0 <= i < |b| && b[i] == a[0];
      RestSame(a, b, i);
      FilterPermuted(p, a[1..], b[..i] + b[i + 1..]);
      assert a[..0] + a[1..] == a[1..];
      FilterWithout(p, a, 0);
      FilterWithout(p, b, i);
    }
    assert |multiset(Filter(p, a))| == Count(p, a) && |multiset(Filter(p, b))| == Count(p, b);
  }

  lemma {:induction false} FilterSame<T>(p: T -> bool, q: T -> bool, s: seq<T>)
    requires forall x | x in s :: p(x) <==> q(x)
    ensures Filter(p, s) == Filter(q, s)
  {
    if s != [] {
      assert s[0] in s;
      FilterSame(p, q, s[1..]);
    }
  }

  /** Two filters, one after the other, are the filter for both. */
  lemma {:induction false} FilterOfFilter<T>(p: T -> bool, q: T -> bool, both: T -> bool, s: seq<T>)
    requires forall x | x in s :: both(x) <==> p(x) && q(x)
    ensures Filter(q, Filter(p, s)) == Filter(both, s) && Count(q, Filter(p, s)) == Count(both, s)
  {
    if s != [] {
      assert s[0] in s;
      FilterOfFilter(p, q, both, s[1..]);
      assert p(s[0]) ==> ([s[0]] + Filter(p, s[1..]))[1..] == Filter(p, s[1..]);
    }
  }

  lemma {:induction false} CountComplement<T>(p: T -> bool, q: T -> bool, s: seq<T>)
    requires forall x | x in s :: p(x) <==> !q(x)
    ensures Count(p, s) + Count(q, s) == |s|
  {
    if s != [] {
      assert s[0] in s;
      CountComplement(p, q, s[1..]);
    }
  }

  // -------------------------------------------------------- double counting

  /** Elements a row takes, and rows an element falls into. */
  function RowCount<R, T>(p: (R, T) -> bool, r: R, xs: seq<T>): nat {
    if xs == [] then 0 else (if p(r, xs[0]) then 1 else 0) + RowCount(p, r, xs[1..])
  }

  function ColumnCount<R, T>(p: (R, T) -> bool, rs: seq<R>, x: T): nat {
    if rs == [] then 0 else (if p(rs[0], x) then 1 else 0) + ColumnCount(p, rs[1..], x)
  }

  function SumRows<R, T>(p: (R, T) -> bool, rs: seq<R>, xs: seq<T>): nat {
    if rs == [] then 0 else RowCount(p, rs[0], xs) + SumRows(p, rs[1..], xs)
  }

  function SumColumns<R, T>(p: (R, T) -> bool, rs: seq<R>, xs: seq<T>): nat {
    if xs == [] then 0 else ColumnCount(p, rs, xs[0]) + SumColumns(p, rs, xs[1..])
  }

  lemma {:induction false} SumColumnsSplit<R, T>(p: (R, T) -> bool, r: R, rs: seq<R>, xs: seq<T>)
    ensures SumColumns(p, [r] + rs, xs) == RowCount(p, r, xs) + SumColumns(p, rs, xs)
  {
    if xs != [] {
      assert ([r] + rs)[1..] == rs;
      SumColumnsSplit(p, r, rs, xs[1..]);
    }
  }

  /** Counting by rows and by columns gives one total. */
  lemma {:induction false} DoubleCount<R, T>(p: (R, T) -> bool, rs: seq<R>, xs: seq<T>)
    ensures SumRows(p, rs, xs) == SumColumns(p, rs, xs)
  {
    if rs == [] {
      NoRows(p, rs, xs);
    } else {
      DoubleCount(p, rs[1..], xs);
      SumColumnsSplit(p, rs[0], rs[1..], xs);
      assert rs == [rs[0]] + rs[1..];
    }
  }

  lemma {:induction false} NoRows<R, T>(p: (R, T) -> bool, rs: seq<R>, xs: seq<T>)
    requires rs == []
    ensures SumColumns(p, rs, xs) == 0
  {
    if xs != [] {
      NoRows(p, rs, xs[1..]);
    }
  }

  /** Columns that hold one row where `q` holds and none elsewhere add up to the count of `q`. */
  lemma {:induction false} SumOfUnits<R, T>(p: (R, T) -> bool, q: T -> bool, rs: seq<R>, xs: seq<T>)
    requires forall x | x in xs :: ColumnCount(p, rs, x) == if q(x) then 1 else 0
    ensures SumColumns(p, rs, xs) == Count(q, xs)
  {
    if xs != [] {
      assert xs[0] in xs;
      SumOfUnits(p, q, rs, xs[1..]);
    }
  }

  /** Among distinct rows, an element that belongs to the rows equal to one of two names falls into 0, 1 or 2. */
  lemma {:induction false} ColumnOfNames<R, T>(p: (R, T) -> bool, rs: seq<R>, x: T, names: set<R>)
    requires forall i, j | 0 <= i < j < |rs| :: rs[i] != rs[j]
    requires forall r | r in rs :: p(r, x) <==> r in names
    ensures ColumnCount(p, rs, x) == |set r | r in names && r in rs|
  {
    var here := set r | r in names && r in rs;
    if rs == [] {
      assert here == {};
    } else {
      var rest := set r | r in names && r in rs[1..];
      assert rs[0] in rs && rs[0] !in rs[1..];
      assert rs == [rs[0]] + rs[1..];
      ColumnOfNames(p, rs[1..], x, names);
      assert here == if rs[0] in names then rest + {rs[0]} else rest;
    }
  }

  lemma {:induction false} RowCountFilter<R, T>(p: (R, T) -> bool, q: T -> bool, r: R, xs: seq<T>)
    requires forall x | x in xs :: p(r, x) <==> q(x)
    ensures RowCount(p, r, xs) == Count(q, xs)
  {
    if xs != [] {
      assert xs[0] in xs;
      RowCountFilter(p, q, r, xs[1..]);
    }
  }

  /** Columns of at most two: each element once, and the doubled ones once more. */
  lemma {:induction false} SumOfOnesAndTwos<R, T>(p: (R, T) -> bool, once: T -> bool, twice: T -> bool,
    rs: seq<R>, xs: seq<T>)
    requires forall x | x in xs ::
      ColumnCount(p, rs, x) == (if once(x) then 1 else 0) + (if twice(x) then 1 else 0)
    ensures SumColumns(p, rs, xs) == Count(once, xs) + Count(twice, xs)
  {
    if xs != [] {
      assert xs[0] in xs;
      SumOfOnesAndTwos(p, once, twice, rs, xs[1..]);
    }
  }

  lemma {:induction false} CountZero<T>(p: T -> bool, s: seq<T>)
    ensures Count(p, s) == 0 <==> forall x | x in s :: !p(x)
  {
    if s != [] {
      assert s == [s[0]] + s[1..];
      CountZero(p, s[1..]);
    }
  }

  // ------------------------------------------------------------ the last that matches

  /** The last element with a property stands here, as the one a dict built in order keeps. */
  predicate LastAt<T>(p: T -> bool, s: seq<T>, k: int) {
    0 <= k < |s| && p(s[k]) && forall j | k < j < |s| :: !p(s[j])
  }

  lemma LastOfFront<T>(p: T -> bool, s: seq<T>, k: int)
    requires s != []
    ensures p(s[|s| - 1]) ==> (LastAt(p, s, k) <==> k == |s| - 1)
    ensures !p(s[|s| - 1]) ==> (LastAt(p, s, k) <==> LastAt(p, s[..|s| - 1], k))
  {
    var front := s[..|s| - 1];
    if LastAt(p, front, k) && !p(s[|s| - 1]) {
      forall j | k < j < |s| ensures !p(s[j]) {
        assert j < |front| ==> front[j] == s[j];
      }
    }
  }

  // ------------------------------------------------------------------- sums

  /** `sum(f(x) for x in s)`. */
  function Sum<T>(f: T -> int, s: seq<T>): int {
    if s == [] then 0 else f(s[0]) + Sum(f, s[1..])
  }

  lemma {:induction false} SumConcat<T>(f: T -> int, a: seq<T>, b: seq<T>)
    ensures Sum(f, a + b) == Sum(f, a) + Sum(f, b)
  {
    if a == [] {
      assert a + b == b;
    } else {
      assert (a + b)[1..] == a[1..] + b;
      SumConcat(f, a[1..], b);
    }
  }

  lemma SumOne<T>(f: T -> int, x: T)
    ensures Sum(f, [x]) == f(x)
  {
    assert [x][1..] == [];
  }

  lemma RestSame<T>(a: seq<T>, b: seq<T>, i: int)
    requires multiset(a) == multiset(b) && a != [] && 0 <= i < |b| && b[i] == a[0]
    ensures multiset(a[1..]) == multiset(b[..i] + b[i + 1..])
  {
    Without(b, i);
    Without(a, 0);
    assert a[..0] + a[1..] == a[1..];
    assert multiset(a[1..]) == multiset(a) - multiset{a[0]};
    assert multiset(b[..i] + b[i + 1..]) == multiset(b) - multiset{b[i]};
  }

  lemma {:induction false} SumPermuted<T>(f: T -> int, a: seq<T>, b: seq<T>)
    requires multiset(a) == multiset(b)
    ensures Sum(f, a) == Sum(f, b)
    decreases |a|
  {
    hide Sum;
    if a == [] {
      assert |multiset(b)| == |b|;
    } else {
      assert a[0] in multiset(b);
      var i :| 0 <= i < |b| && b[i] == a[0];
      var rest := b[..i] + b[i + 1..];
      RestSame(a, b, i);
      SumPermuted(f, a[1..], rest);
      SumWithout(f, a, 0);
      assert a[..0] + a[1..] == a[1..];
      SumWithout(f, b, i);
    }
  }

  lemma SumWithout<T>(f: T -> int, s: seq<T>, i: int)
    requires 0 <= i < |s|
    ensures Sum(f, s) == f(s[i]) + Sum(f, s[..i] + s[i + 1..])
  {
    hide Sum;
    SumConcat(f, s[..i], [s[i]] + s[i + 1..]);
    SumConcat(f, [s[i]], s[i + 1..]);
    SumConcat(f, s[..i], s[i + 1..]);
    SumOne(f, s[i]);
    assert s == s[..i] + ([s[i]] + s[i + 1..]);
  }

  // --------------------------------------------------------------- map sums

  /** `sum(m.values())`. */
  ghost function MapSum<K>(m: map<K, int>): int {
    if m == map[] then 0
    else
      var k :| k in m;
      m[k] + MapSum(m - {k})
  }

  /** The order in which the keys are taken does not matter. */
  lemma {:induction false} MapSumRemove<K>(m: map<K, int>, k: K)
    requires k in m
    ensures MapSum(m) == m[k] + MapSum(m - {k})
    decreases |m|
  {
    var first :| first in m && MapSum(m) == m[first] + MapSum(m - {first});
    if first != k {
      MapSumRemove(m - {first}, k);
      MapSumRemove(m - {k}, first);
      assert m - {first} - {k} == m - {k} - {first};
    }
  }

  lemma MapSumUpdate<K>(m: map<K, int>, k: K, v: int)
    ensures MapSum(m[k := v]) == MapSum(m) + v - if k in m then m[k] else 0
  {
    MapSumRemove(m[k := v], k);
    assert m[k := v] - {k} == m - {k};
    if k in m {
      MapSumRemove(m, k);
    } else {
      assert m - {k} == m;
    }
  }
}
