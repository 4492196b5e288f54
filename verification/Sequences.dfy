/** Options, results, and the few facts about sequences that several modules share. */
module Sequences {

  datatype Option<+T> = None | Some(value: T)

  datatype Result<+T, +E> = Ok(value: T) | Err(error: E)

  /** The elements of `s` satisfying `p`, in order. */
  function Filter<T>(s: seq<T>, p: T -> bool): (r: seq<T>)
    ensures |r| <= |s|
  {
    if s == [] then [] else (if p(s[0]) then [s[0]] else []) + Filter(s[1..], p)
  }

  function Take<T>(s: seq<T>, n: nat): seq<T> {
    if |s| <= n then s else s[..n]
  }

  function Reverse<T>(s: seq<T>): (r: seq<T>)
    ensures |r| == |s|
    ensures forall i :: 0 <= i < |s| ==> r[i] == s[|s| - 1 - i]
  {
    if s == [] then [] else Reverse(s[1..]) + [s[0]]
  }

  /** Where the first element satisfying `p` is. */
  function Find<T>(s: seq<T>, p: T -> bool): (r: Option<nat>)
    ensures r.Some? ==> r.value < |s| && p(s[r.value])
    ensures r.None? ==> forall i :: 0 <= i < |s| ==> !p(s[i])
  {
    if s == [] then None
    else if p(s[0]) then Some(0)
    else
      match Find(s[1..], p)
      case None => None
      case Some(i) => Some(i + 1)
  }

  ghost predicate Distinct<T(!new)>(s: seq<T>) {
    forall i, j :: 0 <= i < j < |s| ==> s[i] != s[j]
  }

  /** Every earlier element is `lt` every later one. */
  ghost predicate Ordered<T(!new)>(s: seq<T>, lt: (T, T) -> bool) {
    forall i, j :: 0 <= i < j < |s| ==> lt(s[i], s[j])
  }

  ghost predicate Asymmetric<T(!new)>(lt: (T, T) -> bool) {
    forall x, y :: lt(x, y) ==> !lt(y, x)
  }

  ghost predicate Transitive<T(!new)>(lt: (T, T) -> bool) {
    forall x, y, z :: lt(x, y) && lt(y, z) ==> lt(x, z)
  }

  /** `lt` decides every pair of different elements of `s`. */
  ghost predicate TotalOn<T(!new)>(s: seq<T>, lt: (T, T) -> bool) {
    forall x, y :: x in s && y in s && x != y ==> lt(x, y) || lt(y, x)
  }

  /** A stable ascending sort by `lt`. */
  function SortBy<T>(s: seq<T>, lt: (T, T) -> bool): seq<T> {
    if s == [] then [] else Insert(s[0], SortBy(s[1..], lt), lt)
  }

  function Insert<T>(x: T, s: seq<T>, lt: (T, T) -> bool): seq<T> {
    if s == [] then [x]
    else if lt(s[0], x) then [s[0]] + Insert(x, s[1..], lt)
    else [x] + s
  }

  // ---------- Filter ----------

  lemma {:induction false} FilterMembers<T>(s: seq<T>, p: T -> bool)
    ensures forall x :: x in Filter(s, p) <==> x in s && p(x)
  {
    if s != [] {
      FilterMembers(s[1..], p);
      assert s == [s[0]] + s[1..];
    }
  }

  lemma FilterCons<T>(x: T, s: seq<T>, p: T -> bool)
    ensures Filter([x] + s, p) == (if p(x) then [x] else []) + Filter(s, p)
  {
    assert ([x] + s)[1..] == s;
  }

  lemma Associative<T>(a: seq<T>, b: seq<T>, c: seq<T>)
    ensures (a + b) + c == a + (b + c)
  {
  }

  lemma {:induction false} FilterConcat<T>(a: seq<T>, b: seq<T>, p: T -> bool)
    ensures Filter(a + b, p) == Filter(a, p) + Filter(b, p)
  {
    if a == [] {
      assert a + b == b;
    } else {
      var x, rest := a[0], a[1..];
      assert a == [x] + rest;
      Associative([x], rest, b);
      FilterCons(x, rest, p);
      FilterCons(x, rest + b, p);
      FilterConcat(rest, b, p);
      Associative(if p(x) then [x] else [], Filter(rest, p), Filter(b, p));
    }
  }

  lemma {:induction false} FilterAll<T>(s: seq<T>, p: T -> bool)
    requires forall x :: x in s ==> p(x)
    ensures Filter(s, p) == s
  {
    if s != [] {
      FilterAll(s[1..], p);
    }
  }

  lemma {:induction false} FilterNone<T>(s: seq<T>, p: T -> bool)
    requires forall x :: x in s ==> !p(x)
    ensures Filter(s, p) == []
  {
    if s != [] {
      FilterNone(s[1..], p);
    }
  }

  /** Two predicates that agree on the elements select the same ones. */
  lemma {:induction false} FilterAgree<T>(s: seq<T>, p: T -> bool, q: T -> bool)
    requires forall x :: x in s ==> p(x) == q(x)
    ensures Filter(s, p) == Filter(s, q)
  {
    if s != [] {
      FilterAgree(s[1..], p, q);
    }
  }

  lemma {:induction false} FilterOrdered<T(!new)>(s: seq<T>, p: T -> bool, lt: (T, T) -> bool)
    requires Ordered(s, lt)
    ensures Ordered(Filter(s, p), lt)
  {
    if s != [] {
      FilterOrdered(s[1..], p, lt);
      FilterMembers(s[1..], p);
      var rest := Filter(s[1..], p);
      forall i | 0 <= i < |rest| ensures lt(s[0], rest[i]) {
        assert rest[i] in s[1..];
      }
    }
  }

  lemma {:induction false} FilterDistinct<T(!new)>(s: seq<T>, p: T -> bool)
    requires Distinct(s)
    ensures Distinct(Filter(s, p))
  {
    if s != [] {
      FilterDistinct(s[1..], p);
      FilterMembers(s[1..], p);
      assert forall x :: x in s[1..] ==> x != s[0];
    }
  }

  lemma {:induction false} FilterTwice<T>(s: seq<T>, p: T -> bool, q: T -> bool, both: T -> bool)
    requires forall x :: x in s ==> (both(x) <==> p(x) && q(x))
    ensures Filter(Filter(s, p), q) == Filter(s, both)
  {
    if s != [] {
      var x, rest := s[0], s[1..];
      FilterTwice(rest, p, q, both);
      if p(x) {
        FilterCons(x, Filter(rest, p), q);
      } else {
        assert [] + Filter(rest, p) == Filter(rest, p);
      }
    }
  }

  /** Counting by two disjoint conditions counts by their union. */
  lemma {:induction false} FilterDisjointUnion<T>(s: seq<T>, p: T -> bool, q: T -> bool, both: T -> bool)
    requires forall x :: x in s ==> !(p(x) && q(x)) && (both(x) <==> p(x) || q(x))
    ensures |Filter(s, both)| == |Filter(s, p)| + |Filter(s, q)|
  {
    if s != [] {
      FilterDisjointUnion(s[1..], p, q, both);
    }
  }

  // ---------- Ordered sequences ----------

  /** An ordered sequence is determined by its elements. */
  lemma {:induction false} OrderedUnique<T(!new)>(s: seq<T>, t: seq<T>, lt: (T, T) -> bool)
    requires Asymmetric(lt) && Ordered(s, lt) && Ordered(t, lt)
    requires forall x :: x in s <==> x in t
    ensures s == t
  {
    assert s != [] ==> s[0] in s && s[0] in t;
    assert t != [] ==> t[0] in t && t[0] in s;
    if s != [] {
      HeadSplits(s, lt);
      HeadSplits(t, lt);
      assert s[0] == t[0];
      OrderedUnique(s[1..], t[1..], lt);
    }
  }

  lemma HeadSplits<T(!new)>(s: seq<T>, lt: (T, T) -> bool)
    requires s != [] && Asymmetric(lt) && Ordered(s, lt)
    ensures forall x :: x in s[1..] <==> x in s && x != s[0]
    ensures forall x :: x in s[1..] ==> lt(s[0], x)
  {
    assert s == [s[0]] + s[1..];
    assert forall x :: x in s[1..] ==> lt(s[0], x);
  }

  lemma {:induction false} InsertFacts<T(!new)>(x: T, s: seq<T>, lt: (T, T) -> bool)
    ensures forall y :: y in Insert(x, s, lt) <==> y == x || y in s
    ensures Transitive(lt) && Ordered(s, lt) && (forall y :: y in s ==> lt(x, y) || lt(y, x)) ==>
              Ordered(Insert(x, s, lt), lt)
  {
    if s != [] {
      InsertFacts(x, s[1..], lt);
      assert s == [s[0]] + s[1..];
      var tail := Insert(x, s[1..], lt);
      if Transitive(lt) && Ordered(s, lt) && (forall y :: y in s ==> lt(x, y) || lt(y, x)) {
        if lt(s[0], x) {
          forall i | 0 <= i < |tail| ensures lt(s[0], tail[i]) {
            assert tail[i] in tail;
          }
        } else {
          forall i | 0 <= i < |s| ensures lt(x, s[i]) {
            assert lt(x, s[0]);
          }
        }
      }
    }
  }

  /** Sorting keeps exactly the elements, and orders distinct ones. */
  lemma {:induction false} SortFacts<T(!new)>(s: seq<T>, lt: (T, T) -> bool)
    ensures forall y :: y in SortBy(s, lt) <==> y in s
    ensures Transitive(lt) && Distinct(s) && TotalOn(s, lt) ==> Ordered(SortBy(s, lt), lt)
  {
    if s != [] {
      SortFacts(s[1..], lt);
      InsertFacts(s[0], SortBy(s[1..], lt), lt);
      assert s == [s[0]] + s[1..];
      assert forall y :: y in s[1..] ==> y in s;
      if Distinct(s) {
        assert forall y :: y in s[1..] ==> y != s[0];
      }
    }
  }
}
