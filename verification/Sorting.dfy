/** Python's stable `sorted`, and when its result does not depend on the order of its input. */
module Sorting {

  ghost predicate TotalPreorder<T(!new)>(leq: (T, T) -> bool) {
    && (forall x, y :: leq(x, y) || leq(y, x))
    && (forall x, y, z :: leq(x, y) && leq(y, z) ==> leq(x, z))
  }

  ghost predicate Sorted<T>(leq: (T, T) -> bool, s: seq<T>) {
    forall i, j | 0 <= i < j < |s| :: leq(s[i], s[j])
  }

  /** Equal keys are equal elements, among the elements of a sequence. */
  ghost predicate Antisymmetric<T>(leq: (T, T) -> bool, s: seq<T>) {
    forall x, y | x in s && y in s && leq(x, y) && leq(y, x) :: x == y
  }

  function Insert<T>(leq: (T, T) -> bool, x: T, s: seq<T>): seq<T> {
    if s == [] || leq(x, s[0]) then [x] + s else [s[0]] + Insert(leq, x, s[1..])
  }

  /** An element goes in front of the later ones it ties with, so the sort is stable. */
  function Sort<T>(leq: (T, T) -> bool, s: seq<T>): seq<T> {
    if s == [] then [] else Insert(leq, s[0], Sort(leq, s[1..]))
  }

  lemma PreorderAt<T(!new)>(leq: (T, T) -> bool, x: T, y: T, z: T)
    requires TotalPreorder(leq)
    ensures leq(x, y) || leq(y, x)
    ensures leq(x, y) && leq(y, z) ==> leq(x, z)
  {
  }

  lemma SortedCons<T>(leq: (T, T) -> bool, y: T, r: seq<T>)
    requires Sorted(leq, r) && forall z | z in r :: leq(y, z)
    ensures Sorted(leq, [y] + r)
  {
  }

  lemma {:induction false} InsertFacts<T(!new)>(leq: (T, T) -> bool, x: T, s: seq<T>)
    requires TotalPreorder(leq) && Sorted(leq, s)
    ensures Sorted(leq, Insert(leq, x, s))
    ensures multiset(Insert(leq, x, s)) == multiset(s) + multiset{x}
    decreases |s|, 1
  {
    hide TotalPreorder;
    if s == [] {
      assert [x] + s == [x];
    } else {
      assert s == [s[0]] + s[1..];
      PreorderAt(leq, x, s[0], x);
      if leq(x, s[0]) {
        forall z | z in s ensures leq(x, z) {
          var k :| 0 <= k < |s| && s[k] == z;
          PreorderAt(leq, x, s[0], z);
          assert k == 0 || leq(s[0], s[k]);
        }
        SortedCons(leq, x, s);
      } else {
        InsertBelow(leq, x, s);
      }
    }
  }

  lemma {:induction false} InsertBelow<T(!new)>(leq: (T, T) -> bool, x: T, s: seq<T>)
    requires TotalPreorder(leq) && Sorted(leq, s) && s != [] && !leq(x, s[0]) && leq(s[0], x)
    ensures Sorted(leq, Insert(leq, x, s))
    ensures multiset(Insert(leq, x, s)) == multiset(s) + multiset{x}
    decreases |s|, 0
  {
    hide TotalPreorder;
    var rest, r := s[1..], Insert(leq, x, s[1..]);
    assert s == [s[0]] + rest;
    InsertFacts(leq, x, rest);
    forall z | z in r ensures leq(s[0], z) {
      assert z in multiset(r);
      if z != x {
        var k :| 0 <= k < |rest| && rest[k] == z;
        assert leq(s[0], s[k + 1]);
      }
    }
    SortedCons(leq, s[0], r);
  }

  lemma {:induction false} SortFacts<T(!new)>(leq: (T, T) -> bool, s: seq<T>)
    requires TotalPreorder(leq)
    ensures Sorted(leq, Sort(leq, s))
    ensures multiset(Sort(leq, s)) == multiset(s)
    ensures |Sort(leq, s)| == |s|
  {
    hide TotalPreorder, Insert, Sorted;
    if s == [] {
      assert Sorted(leq, Sort(leq, s)) by { SortedNil(leq, Sort(leq, s)); }
    } else {
      SortFacts(leq, s[1..]);
      InsertFacts(leq, s[0], Sort(leq, s[1..]));
      assert s == [s[0]] + s[1..];
    }
    assert |multiset(Sort(leq, s))| == |Sort(leq, s)| && |multiset(s)| == |s|;
  }

  lemma SortedNil<T>(leq: (T, T) -> bool, s: seq<T>)
    requires s == []
    ensures Sorted(leq, s)
  {
  }

  lemma SameFirst<T>(leq: (T, T) -> bool, a: seq<T>, b: seq<T>)
    requires Sorted(leq, a) && Sorted(leq, b) && a != [] && b != []
    requires forall x | x in a :: leq(x, x)
    requires multiset(a) == multiset(b) && Antisymmetric(leq, a)
    ensures a[0] == b[0]
  {
    assert a[0] in multiset(b) && b[0] in multiset(a);
    var i :| 0 <= i < |b| && b[i] == a[0];
    var j :| 0 <= j < |a| && a[j] == b[0];
    assert leq(a[0], a[j]) && leq(b[0], b[i]);
  }

  lemma TailFacts<T>(leq: (T, T) -> bool, a: seq<T>)
    requires a != [] && Sorted(leq, a)
    ensures Sorted(leq, a[1..])
    ensures Antisymmetric(leq, a) ==> Antisymmetric(leq, a[1..])
    ensures multiset(a[1..]) == multiset(a) - multiset{a[0]}
    ensures forall x | x in a[1..] :: x in a
  {
    assert a == [a[0]] + a[1..];
  }

  /** Two sorted arrangements of the same elements are equal when ties are. */
  lemma {:induction false} SortedUnique<T>(leq: (T, T) -> bool, a: seq<T>, b: seq<T>)
    requires Sorted(leq, a) && Sorted(leq, b)
    requires forall x | x in a :: leq(x, x)
    requires multiset(a) == multiset(b) && Antisymmetric(leq, a)
    ensures a == b
    decreases |a|
  {
    assert |multiset(a)| == |a| && |multiset(b)| == |b|;
    if a != [] {
      assert a == [a[0]] + a[1..] && b == [b[0]] + b[1..];
      SameFirst(leq, a, b);
      TailFacts(leq, a);
      TailFacts(leq, b);
      SortedUnique(leq, a[1..], b[1..]);
    }
  }

  /** Sorting forgets the order of its input when no two elements tie. */
  lemma SortOrderFree<T(!new)>(leq: (T, T) -> bool, a: seq<T>, b: seq<T>)
    requires TotalPreorder(leq) && Antisymmetric(leq, a)
    requires multiset(a) == multiset(b)
    ensures Sort(leq, a) == Sort(leq, b)
  {
    hide Sort, Sorted;
    SortFacts(leq, a);
    SortFacts(leq, b);
    forall x | x in Sort(leq, a) ensures x in a {
      assert x in multiset(Sort(leq, a));
    }
    SortedUnique(leq, Sort(leq, a), Sort(leq, b));
  }

  /** Sorting leaves a sorted sequence alone. */
  lemma {:induction false} SortOfSorted<T>(leq: (T, T) -> bool, s: seq<T>)
    requires Sorted(leq, s)
    ensures Sort(leq, s) == s
  {
    if s != [] {
      SortOfSorted(leq, s[1..]);
      assert s == [s[0]] + s[1..];
    }
  }

  ghost predicate Distinct<T>(s: seq<T>) {
    forall i, j | 0 <= i < j < |s| :: s[i] != s[j]
  }

  lemma {:induction false} Multiplicity<T>(s: seq<T>, x: T)
    requires Distinct(s)
    ensures multiset(s)[x] == if x in s then 1 else 0
  {
    if s != [] {
      assert s == [s[0]] + s[1..];
      Multiplicity(s[1..], x);
    }
  }

  lemma TwicePresent<T>(s: seq<T>, i: int, j: int)
    requires 0 <= i < j < |s| && s[i] == s[j]
    ensures multiset(s)[s[i]] >= 2
  {
    assert s == s[..j] + [s[j]] + s[j + 1..];
    assert s[..j][i] == s[i];
    assert s[i] in multiset(s[..j]);
  }

  /** Without repetitions, the same members make the same multiset. */
  lemma SameElements<T>(a: seq<T>, b: seq<T>)
    requires Distinct(a) && Distinct(b)
    requires forall x :: x in a <==> x in b
    ensures multiset(a) == multiset(b)
  {
    forall x: T ensures multiset(a)[x] == multiset(b)[x] {
      Multiplicity(a, x);
      Multiplicity(b, x);
    }
  }

  // ------------------------------------------------- sorting commutes with a change

  function Map<T, U>(f: T -> U, s: seq<T>): (r: seq<U>)
    ensures |r| == |s| && forall i | 0 <= i < |s| :: r[i] == f(s[i])
  {
    if s == [] then [] else [f(s[0])] + Map(f, s[1..])
  }

  lemma {:induction false} InsertMap<T>(leq: (T, T) -> bool, f: T -> T, x: T, s: seq<T>)
    requires forall a, b :: leq(f(a), f(b)) == leq(a, b)
    ensures Insert(leq, f(x), Map(f, s)) == Map(f, Insert(leq, x, s))
  {
    if s != [] {
      assert leq(f(x), f(s[0])) == leq(x, s[0]);
      assert Map(f, s)[1..] == Map(f, s[1..]);
      if leq(x, s[0]) {
        assert ([x] + s)[1..] == s;
      } else {
        InsertMap(leq, f, x, s[1..]);
        assert ([s[0]] + Insert(leq, x, s[1..]))[1..] == Insert(leq, x, s[1..]);
      }
    }
  }

  /** A change that leaves the sort key alone can come before or after the sort. */
  lemma {:induction false} SortMap<T>(leq: (T, T) -> bool, f: T -> T, s: seq<T>)
    requires forall a, b :: leq(f(a), f(b)) == leq(a, b)
    ensures Sort(leq, Map(f, s)) == Map(f, Sort(leq, s))
  {
    if s != [] {
      SortMap(leq, f, s[1..]);
      assert Map(f, s)[1..] == Map(f, s[1..]);
      InsertMap(leq, f, s[0], Sort(leq, s[1..]));
    }
  }
}
