/** Filtering, as `std::remove_if` and the erase loops of the source leave a vector. */
module Sequences {

  ghost predicate Distinct<T>(s: seq<T>) {
    forall i, j :: 0 <= i < j < |s| ==> s[i] != s[j]
  }

  lemma {:induction false} DistinctCounts<T>(s: seq<T>)
    ensures Distinct(s) <==> forall x :: x in s ==> multiset(s)[x] == 1
  {
    if s != [] {
      var rest := s[1..];
      DistinctCounts(rest);
      assert s == [s[0]] + rest;
      if Distinct(s) {
        assert Distinct(rest) && s[0] !in rest;
      } else if Distinct(rest) {
        assert s[0] in rest;
        assert multiset(s)[s[0]] >= 2;
      } else {
        var x :| x in rest && multiset(rest)[x] != 1;
        assert x in s && multiset(s)[x] != 1;
      }
    }
  }

  lemma DistinctCons<T>(x: T, s: seq<T>)
    ensures Distinct([x] + s) <==> x !in s && Distinct(s)
  {
    var all := [x] + s;
    if Distinct(all) {
      forall i, j | 0 <= i < j < |s|
        ensures s[i] != s[j]
      {
        assert all[i + 1] == s[i] && all[j + 1] == s[j];
      }
      forall i | 0 <= i < |s|
        ensures s[i] != x
      {
        assert all[0] == x && all[i + 1] == s[i];
      }
    }
  }

  lemma DistinctSnoc<T>(s: seq<T>, x: T)
    ensures Distinct(s) && x !in s ==> Distinct(s + [x])
  {
  }

  function Not<T>(p: T -> bool): T -> bool {
    x => !p(x)
  }

  function And<T>(p: T -> bool, q: T -> bool): T -> bool {
    x => p(x) && q(x)
  }

  function Filter<T>(s: seq<T>, keep: T -> bool): seq<T> {
    if s == [] then []
    else (if keep(s[0]) then [s[0]] else []) + Filter(s[1..], keep)
  }

  lemma {:induction false} FilterAppend<T>(a: seq<T>, b: seq<T>, keep: T -> bool)
    ensures Filter(a + b, keep) == Filter(a, keep) + Filter(b, keep)
  {
    if a == [] {
      assert a + b == b;
    } else {
      FilterAppend(a[1..], b, keep);
      assert (a + b)[1..] == a[1..] + b && (a + b)[0] == a[0];
      var head := if keep(a[0]) then [a[0]] else [];
      Associate(head, Filter(a[1..], keep), Filter(b, keep));
    }
  }

  lemma Associate<T>(a: seq<T>, b: seq<T>, c: seq<T>)
    ensures a + (b + c) == (a + b) + c
  {
  }

  lemma FilterOne<T>(x: T, keep: T -> bool)
    ensures Filter([x], keep) == if keep(x) then [x] else []
    ensures Filter([], keep) == []
  {
  }

  // One turn of a loop that filters.
  lemma FilterNext<T>(s: seq<T>, i: nat, keep: T -> bool)
    requires i < |s|
    ensures Filter(s[..i + 1], keep) == Filter(s[..i], keep) + if keep(s[i]) then [s[i]] else []
  {
    hide Filter;
    assert s[..i + 1] == s[..i] + [s[i]];
    FilterAppend(s[..i], [s[i]], keep);
    FilterOne(s[i], keep);
  }

  lemma FilterCut<T>(s: seq<T>, n: nat, keep: T -> bool)
    requires n <= |s|
    ensures Filter(s, keep) == Filter(s[..n], keep) + Filter(s[n..], keep)
  {
    hide Filter;
    assert s[..n] + s[n..] == s;
    FilterAppend(s[..n], s[n..], keep);
  }

  // One element erased.
  lemma FilterErase<T>(s: seq<T>, i: nat, keep: T -> bool)
    requires i < |s|
    ensures Filter(s, keep) == Filter(s[..i], keep) + (if keep(s[i]) then [s[i]] else []) + Filter(s[i + 1..], keep)
    ensures Filter(s[..i] + s[i + 1..], keep) == Filter(s[..i], keep) + Filter(s[i + 1..], keep)
  {
    hide Filter;
    FilterCut(s, i + 1, keep);
    FilterNext(s, i, keep);
    FilterAppend(s[..i], s[i + 1..], keep);
  }

  lemma {:induction false} FilterHolds<T>(s: seq<T>, keep: T -> bool)
    ensures forall x :: x in Filter(s, keep) <==> x in s && keep(x)
  {
    if s != [] {
      FilterHolds(s[1..], keep);
      assert s == [s[0]] + s[1..];
    }
  }

  lemma {:induction false} FilterSame<T>(s: seq<T>, p: T -> bool, q: T -> bool)
    requires forall x :: x in s ==> p(x) == q(x)
    ensures Filter(s, p) == Filter(s, q)
  {
    if s != [] {
      assert s[0] in s;
      FilterSame(s[1..], p, q);
    }
  }

  lemma {:induction false} FilterTwice<T>(s: seq<T>, p: T -> bool, q: T -> bool)
    ensures Filter(Filter(s, p), q) == Filter(s, And(p, q))
  {
    if s != [] {
      FilterTwice(s[1..], p, q);
      FilterAppend(if p(s[0]) then [s[0]] else [], Filter(s[1..], p), q);
    }
  }

  lemma {:induction false} FilterAll<T>(s: seq<T>, keep: T -> bool)
    requires forall x :: x in s ==> keep(x)
    ensures Filter(s, keep) == s
  {
    if s != [] {
      assert s[0] in s;
      FilterAll(s[1..], keep);
    }
  }

  lemma {:induction false} FilterNone<T>(s: seq<T>, keep: T -> bool)
    requires forall x :: x in s ==> !keep(x)
    ensures Filter(s, keep) == []
  {
    if s != [] {
      assert s[0] in s;
      FilterNone(s[1..], keep);
    }
  }

  function Map<T, U>(f: T -> U, s: seq<T>): (r: seq<U>)
    ensures |r| == |s|
  {
    seq(|s|, i requires 0 <= i < |s| => f(s[i]))
  }

  lemma MapAppend<T, U>(f: T -> U, a: seq<T>, b: seq<T>)
    ensures Map(f, a + b) == Map(f, a) + Map(f, b)
  {
  }

  /** The images of a filter and of its complement make up the image of the whole, counted with
      multiplicity. */
  lemma {:induction false} FilterSplits<T, U>(s: seq<T>, keep: T -> bool, f: T -> U)
    ensures multiset(Map(f, Filter(s, keep))) + multiset(Map(f, Filter(s, Not(keep)))) == multiset(Map(f, s))
  {
    if s != [] {
      var kept, other := Filter(s[1..], keep), Filter(s[1..], Not(keep));
      FilterSplits(s[1..], keep, f);
      assert s == [s[0]] + s[1..];
      MapCons(f, s[0], s[1..]);
      MapCons(f, s[0], kept);
      MapCons(f, s[0], other);
      assert Filter(s, keep) == if keep(s[0]) then [s[0]] + kept else kept;
      assert Filter(s, Not(keep)) == if keep(s[0]) then other else [s[0]] + other;
      hide Filter, Map;
    }
  }

  lemma MapCons<T, U>(f: T -> U, x: T, s: seq<T>)
    ensures multiset(Map(f, [x] + s)) == multiset{f(x)} + multiset(Map(f, s))
  {
    assert Map(f, [x] + s) == [f(x)] + Map(f, s);
  }
}
