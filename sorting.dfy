/**
  `Array.prototype.sort` with a comparator. The engine's sort is stable, so for a
  comparator that is a total preorder its result is the stable sorted order of
  the input; that order is computed here by insertion sort. `le(a, b)` stands
  for `compare(a, b) <= 0`.
 */
module Sorting {

  /** The comparator is consistent: every two elements compare, and comparison chains. */
  ghost predicate TotalPreorder<T(!new)>(le: (T, T) -> bool) {
    (forall a, b :: le(a, b) || le(b, a)) &&
    (forall a, b, c :: le(a, b) && le(b, c) ==> le(a, c))
  }

  ghost predicate Sorted<T>(s: seq<T>, le: (T, T) -> bool) {
    forall i, j :: 0 <= i < j < |s| ==> le(s[i], s[j])
  }

  /** The comparator returns 0 for `a` and `b`. */
  predicate Tied<T>(le: (T, T) -> bool, a: T, b: T) {
    le(a, b) && le(b, a)
  }

  /** The elements of `s` that tie with `k`, in their order in `s`. */
  function TiedWith<T>(s: seq<T>, k: T, le: (T, T) -> bool): seq<T> {
    if s == [] then []
    else (if Tied(le, k, s[0]) then [s[0]] else []) + TiedWith(s[1..], k, le)
  }

  /** Places `x` before the first element it does not sort after. */
  function Insert<T>(x: T, s: seq<T>, le: (T, T) -> bool): (r: seq<T>)
    ensures |r| == |s| + 1
  {
    if s == [] || le(x, s[0]) then [x] + s
    else [s[0]] + Insert(x, s[1..], le)
  }

  /** `[...s].sort(compare)`: the stable sorted order of `s`. */
  function SortBy<T>(s: seq<T>, le: (T, T) -> bool): (r: seq<T>)
    ensures |r| == |s|
  {
    if s == [] then [] else Insert(s[0], SortBy(s[1..], le), le)
  }

  lemma {:induction false} InsertPermutation<T>(x: T, s: seq<T>, le: (T, T) -> bool)
    ensures multiset(Insert(x, s, le)) == multiset(s) + multiset{x}
  {
    if s != [] && !le(x, s[0]) {
      InsertPermutation(x, s[1..], le);
      assert s == [s[0]] + s[1..];
    }
  }

  /** Sorting rearranges: the result is a permutation of the input. */
  lemma {:induction false} SortByPermutation<T>(s: seq<T>, le: (T, T) -> bool)
    ensures multiset(SortBy(s, le)) == multiset(s)
  {
    if s != [] {
      SortByPermutation(s[1..], le);
      InsertPermutation(s[0], SortBy(s[1..], le), le);
      assert s == [s[0]] + s[1..];
    }
  }

  lemma {:induction false} InsertSorted<T(!new)>(x: T, s: seq<T>, le: (T, T) -> bool)
    requires TotalPreorder(le) && Sorted(s, le)
    ensures Sorted(Insert(x, s, le), le)
  {
    if s != [] && !le(x, s[0]) {
      var t := Insert(x, s[1..], le);
      InsertSorted(x, s[1..], le);
      InsertPermutation(x, s[1..], le);
      forall j | 0 <= j < |t| ensures le(s[0], t[j]) {
        assert t[j] in multiset(t);
      }
    }
  }

  /** Sorting orders: no element comes before one that must precede it. */
  lemma {:induction false} SortBySorted<T(!new)>(s: seq<T>, le: (T, T) -> bool)
    requires TotalPreorder(le)
    ensures Sorted(SortBy(s, le), le)
  {
    if s != [] {
      SortBySorted(s[1..], le);
      InsertSorted(s[0], SortBy(s[1..], le), le);
    }
  }

  lemma {:induction false} InsertTiedWith<T(!new)>(x: T, s: seq<T>, k: T, le: (T, T) -> bool)
    requires TotalPreorder(le)
    ensures TiedWith(Insert(x, s, le), k, le) == (if Tied(le, k, x) then [x] else []) + TiedWith(s, k, le)
  {
    var X := if Tied(le, k, x) then [x] else [];
    if s == [] || le(x, s[0]) {
      assert ([x] + s)[1..] == s;
    } else {
      var t := Insert(x, s[1..], le);
      var A := if Tied(le, k, s[0]) then [s[0]] else [];
      assert ([s[0]] + t)[1..] == t;
      InsertTiedWith(x, s[1..], k, le);
      if Tied(le, k, x) && Tied(le, k, s[0]) {
        assert false;
      }
      assert A + X == X + A;
      calc {
        TiedWith(Insert(x, s, le), k, le);
        A + TiedWith(t, k, le);
        A + (X + TiedWith(s[1..], k, le));
        X + (A + TiedWith(s[1..], k, le));
        X + TiedWith(s, k, le);
      }
    }
  }

  /**
    Sorting is stable: the elements that compare equal to any given one keep
    their relative order.
   */
  lemma {:induction false} SortByStable<T(!new)>(s: seq<T>, k: T, le: (T, T) -> bool)
    requires TotalPreorder(le)
    ensures TiedWith(SortBy(s, le), k, le) == TiedWith(s, k, le)
  {
    if s != [] {
      SortByStable(s[1..], k, le);
      InsertTiedWith(s[0], SortBy(s[1..], le), k, le);
    }
  }

  /** The first element of the sorted order is a least element of the input. */
  lemma SortByHeadLeast<T(!new)>(s: seq<T>, le: (T, T) -> bool)
    requires TotalPreorder(le) && s != []
    ensures forall y :: y in s ==> le(SortBy(s, le)[0], y)
  {
    var t := SortBy(s, le);
    SortBySorted(s, le);
    SortByPermutation(s, le);
    forall y | y in s ensures le(t[0], y) {
      assert y in multiset(t);
      var m :| 0 <= m < |t| && t[m] == y;
      assert m == 0 || le(t[0], t[m]);
    }
  }

  /**
    The first element of the sorted order is a least element of the input, and
    every element before its first occurrence sorts strictly after it: among
    tied least elements the earliest wins.
   */
  lemma {:induction false} SortByFirst<T(!new)>(s: seq<T>, le: (T, T) -> bool) returns (i: nat)
    requires TotalPreorder(le) && s != []
    ensures i < |s| && s[i] == SortBy(s, le)[0]
    ensures forall y :: y in s ==> le(SortBy(s, le)[0], y)
    ensures forall j :: 0 <= j < i ==> !le(s[j], s[i])
  {
    SortByHeadLeast(s, le);
    var t := SortBy(s[1..], le);
    if t == [] || le(s[0], t[0]) {
      i := 0;
    } else {
      var i' := SortByFirst(s[1..], le);
      i := i' + 1;
    }
  }
}
