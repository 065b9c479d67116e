/**
  Sequence operations the JavaScript code takes from `Array.prototype`:
  `indexOf`, `splice(i, 1)` of a found element, and `filter`.
 */
module Seqs {

  /** No element occurs twice (a container's children, timer handles, object keys). */
  predicate NoDuplicates<T(==)>(s: seq<T>) {
    forall i, j :: 0 <= i < j < |s| ==> s[i] != s[j]
  }

  /**
    `r` can be obtained from `s` by deleting elements: every element of `r`
    occurs in `s`, in the same relative order.
   */
  ghost predicate IsSubsequence<T>(r: seq<T>, s: seq<T>) {
    r == [] || (s != [] && ((r[0] == s[0] && IsSubsequence(r[1..], s[1..])) || IsSubsequence(r, s[1..])))
  }

  /** `Array.prototype.indexOf`: the position of the first occurrence of `x`, or -1. */
  function IndexOf<T(==)>(s: seq<T>, x: T): (i: int)
    ensures -1 <= i < |s|
    ensures i == -1 <==> x !in s
    ensures 0 <= i ==> s[i] == x && x !in s[..i]
  {
    if |s| == 0 then -1
    else if s[0] == x then 0
    else
      var j := IndexOf(s[1..], x);
      if j == -1 then -1
      else
        assert s[..j + 1] == [s[0]] + s[1..][..j];
        j + 1
  }

  /** In a sequence without duplicates an element is found exactly where it stands. */
  lemma IndexOfUnique<T>(s: seq<T>, i: int)
    requires NoDuplicates(s) && 0 <= i < |s|
    ensures IndexOf(s, s[i]) == i
  {
  }

  /**
    `const index = s.indexOf(x); if (index > -1) s.splice(index, 1);`:
    removes the first occurrence of `x`, if any.
   */
  function RemoveFirst<T(==)>(s: seq<T>, x: T): (r: seq<T>)
    ensures x !in s ==> r == s
    ensures x in s ==> |r| == |s| - 1
  {
    var i := IndexOf(s, x);
    if i == -1 then s else s[..i] + s[i + 1..]
  }

  /** Removing the first occurrence takes exactly one copy of `x` out of the multiset of elements. */
  lemma RemoveFirstMultiset<T>(s: seq<T>, x: T)
    ensures multiset(RemoveFirst(s, x)) == multiset(s) - multiset{x}
  {
    var i := IndexOf(s, x);
    if i != -1 {
      assert s == s[..i] + [s[i]] + s[i + 1..];
    }
  }

  /** The elements before the first occurrence stay put; those after it move one place left. */
  lemma RemoveFirstAt<T>(s: seq<T>, x: T, k: int)
    requires x in s && 0 <= k < |s| - 1
    ensures RemoveFirst(s, x)[k] == s[if k < IndexOf(s, x) then k else k + 1]
  {
    var i := IndexOf(s, x);
    var pre, post := s[..i], s[i + 1..];
    assert RemoveFirst(s, x) == pre + post;
    if k < i {
      assert (pre + post)[k] == pre[k];
    } else {
      assert (pre + post)[k] == post[k - i];
    }
  }

  /** Dropping one position leaves a subsequence. */
  lemma {:induction false} DropIsSubsequence<T>(s: seq<T>, i: nat)
    requires i < |s|
    ensures IsSubsequence(s[..i] + s[i + 1..], s)
  {
    var r := s[..i] + s[i + 1..];
    if i == 0 {
      assert r == s[1..];
      SubsequenceReflexive(s[1..]);
    } else {
      var t := s[1..];
      assert r[0] == s[0];
      assert r[1..] == t[..i - 1] + t[i..];
      DropIsSubsequence(t, i - 1);
    }
  }

  /** Removing one occurrence keeps the order of everything else. */
  lemma RemoveFirstIsSubsequence<T>(s: seq<T>, x: T)
    ensures IsSubsequence(RemoveFirst(s, x), s)
  {
    if x in s {
      DropIsSubsequence(s, IndexOf(s, x));
    } else {
      SubsequenceReflexive(s);
    }
  }

  /** A sequence without duplicates stays without duplicates after a removal. */
  lemma RemoveFirstNoDuplicates<T>(s: seq<T>, x: T)
    requires NoDuplicates(s)
    ensures NoDuplicates(RemoveFirst(s, x))
    ensures x !in RemoveFirst(s, x)
  {
    var r := RemoveFirst(s, x);
    if x in s {
      var i := IndexOf(s, x);
      forall a, b | 0 <= a < b < |r| ensures r[a] != r[b] {
        var a', b' := if a < i then a else a + 1, if b < i then b else b + 1;
        assert r[a] == s[a'] && r[b] == s[b'];
      }
      forall k | 0 <= k < |r| ensures r[k] != x {
        var k' := if k < i then k else k + 1;
        assert r[k] == s[k'];
      }
    }
  }

  /** In a sequence without duplicates, a removal drops exactly the removed element. */
  lemma RemoveFirstMembers<T>(s: seq<T>, x: T)
    requires NoDuplicates(s)
    ensures forall y :: y in RemoveFirst(s, x) <==> y in s && y != x
  {
    RemoveFirstNoDuplicates(s, x);
    RemoveFirstMultiset(s, x);
    var r := RemoveFirst(s, x);
    forall y ensures y in r <==> y in s && y != x {
      assert (y in r) == (y in multiset(r));
      assert (y in s) == (y in multiset(s));
    }
  }

  lemma {:induction false} SubsequenceReflexive<T>(s: seq<T>)
    ensures IsSubsequence(s, s)
  {
    if s != [] {
      SubsequenceReflexive(s[1..]);
    }
  }

  /** `Array.prototype.filter`: the elements satisfying `p`, in their order. */
  function Filter<T>(s: seq<T>, p: T -> bool): (r: seq<T>)
    ensures |r| <= |s|
  {
    if s == [] then []
    else (if p(s[0]) then [s[0]] else []) + Filter(s[1..], p)
  }

  /** The result holds exactly the elements of the input that satisfy `p`. */
  lemma {:induction false} FilterMembers<T>(s: seq<T>, p: T -> bool)
    ensures forall x :: x in Filter(s, p) <==> x in s && p(x)
  {
    if s != [] {
      FilterMembers(s[1..], p);
      assert s == [s[0]] + s[1..];
    }
  }

  /** Each element satisfying `p` occurs as often in the result as in the input; the others not at all. */
  lemma {:induction false} FilterCount<T>(s: seq<T>, p: T -> bool)
    ensures forall x :: multiset(Filter(s, p))[x] == if p(x) then multiset(s)[x] else 0
  {
    if s != [] {
      FilterCount(s[1..], p);
      assert s == [s[0]] + s[1..];
      assert multiset(s) == multiset{s[0]} + multiset(s[1..]);
    }
  }

  /** The result keeps the input's order. */
  lemma {:induction false} FilterIsSubsequence<T>(s: seq<T>, p: T -> bool)
    ensures IsSubsequence(Filter(s, p), s)
  {
    if s != [] {
      FilterIsSubsequence(s[1..], p);
      var r := Filter(s, p);
      if p(s[0]) {
        assert r[0] == s[0] && r[1..] == Filter(s[1..], p);
      } else {
        assert r == Filter(s[1..], p);
      }
    }
  }

  /**
    What `filter` promises: exactly the elements satisfying `p`, each as many
    times as in the input, in the input's order.
   */
  lemma FilterSpec<T>(s: seq<T>, p: T -> bool)
    ensures forall x :: x in Filter(s, p) <==> x in s && p(x)
    ensures forall x :: multiset(Filter(s, p))[x] == if p(x) then multiset(s)[x] else 0
    ensures IsSubsequence(Filter(s, p), s)
  {
    FilterMembers(s, p);
    FilterCount(s, p);
    FilterIsSubsequence(s, p);
  }

  /** Filtering distributes over concatenation. */
  lemma {:induction false} FilterAppend<T>(a: seq<T>, b: seq<T>, p: T -> bool)
    ensures Filter(a + b, p) == Filter(a, p) + Filter(b, p)
  {
    if a != [] {
      var h := if p(a[0]) then [a[0]] else [];
      assert (a + b)[0] == a[0] && (a + b)[1..] == a[1..] + b;
      calc {
        Filter(a + b, p);
        h + Filter(a[1..] + b, p);
        { FilterAppend(a[1..], b, p); }
        h + (Filter(a[1..], p) + Filter(b, p));
        (h + Filter(a[1..], p)) + Filter(b, p);
      }
    } else {
      assert a + b == b;
    }
  }

  /** Every element of the result satisfies `p`. */
  lemma FilterAll<T>(s: seq<T>, p: T -> bool)
    ensures forall k :: 0 <= k < |Filter(s, p)| ==> p(Filter(s, p)[k])
  {
    FilterMembers(s, p);
    forall k | 0 <= k < |Filter(s, p)| ensures p(Filter(s, p)[k]) {
      assert Filter(s, p)[k] in Filter(s, p);
    }
  }

  /** Filtering keeps distinct elements distinct. */
  lemma {:induction false} FilterNoDuplicates<T>(s: seq<T>, p: T -> bool)
    requires NoDuplicates(s)
    ensures NoDuplicates(Filter(s, p))
  {
    if s != [] {
      assert NoDuplicates(s[1..]);
      FilterNoDuplicates(s[1..], p);
      FilterMembers(s[1..], p);
      assert s[0] !in s[1..];
    }
  }

  /** Taking the same element out of two permutations of each other leaves permutations. */
  lemma PermutationRemove<T>(a: seq<T>, b: seq<T>, i: int)
    requires multiset(a) == multiset(b) && a != [] && 0 <= i < |b| && b[i] == a[0]
    ensures multiset(a[1..]) == multiset(b[..i] + b[i + 1..])
  {
    var x, pre, post := a[0], b[..i], b[i + 1..];
    assert b == pre + [x] + post;
    assert a == [x] + a[1..];
    assert multiset(pre + post) == multiset(pre) + multiset(post);
    var L, R := multiset(pre + post), multiset(a[1..]);
    forall y ensures L[y] == R[y] {
      assert multiset(a)[y] == multiset(b)[y];
    }
    assert L == R;
  }

  /** Permutations of each other keep the same number of elements satisfying `p`. */
  lemma {:induction false} FilterPermutationLength<T>(a: seq<T>, b: seq<T>, p: T -> bool)
    requires multiset(a) == multiset(b)
    ensures |Filter(a, p)| == |Filter(b, p)|
    decreases |a|
  {
    if a == [] {
      assert |multiset(b)| == 0;
    } else {
      var x := a[0];
      assert x in multiset(b);
      var i :| 0 <= i < |b| && b[i] == x;
      var pre, post := b[..i], b[i + 1..];
      PermutationRemove(a, b, i);
      FilterPermutationLength(a[1..], pre + post, p);
      assert b == pre + [x] + post;
      FilterAppend(pre + [x], post, p);
      FilterAppend(pre, [x], p);
      FilterAppend(pre, post, p);
    }
  }

  /** Two positions satisfying `p` give at least two elements in the filtered sequence. */
  lemma {:induction false} FilterTwo<T>(s: seq<T>, p: T -> bool, i: int, j: int)
    requires 0 <= i < j < |s| && p(s[i]) && p(s[j])
    ensures |Filter(s, p)| >= 2
  {
    if i == 0 {
      FilterMembers(s[1..], p);
      assert s[1..][j - 1] == s[j];
      assert s[j] in Filter(s[1..], p);
    } else {
      FilterTwo(s[1..], p, i - 1, j - 1);
    }
  }

  /** In a sequence without duplicates, removing the element at `j` splices out position `j`. */
  lemma RemoveFirstAtIndex<T>(s: seq<T>, j: int)
    requires NoDuplicates(s) && 0 <= j < |s|
    ensures RemoveFirst(s, s[j]) == s[..j] + s[j + 1..]
  {
    IndexOfUnique(s, j);
  }

  /** Removing `x` from `a + [x] + b` where `a` does not hold `x` leaves `a + b`. */
  lemma RemoveFirstAfter<T>(a: seq<T>, x: T, b: seq<T>)
    requires x !in a
    ensures RemoveFirst(a + [x] + b, x) == a + b
  {
    var s := a + [x] + b;
    assert s[..|a|] == a && s[|a| + 1..] == b;
  }

  /** Two sequences that agree up to and including the first `x` find it at the same place. */
  lemma IndexOfSamePrefix<T>(s: seq<T>, t: seq<T>, x: T)
    requires 0 <= IndexOf(s, x) < |t| && t[..IndexOf(s, x) + 1] == s[..IndexOf(s, x) + 1]
    ensures IndexOf(t, x) == IndexOf(s, x)
  {
    var i := IndexOf(s, x);
    assert t[i] == s[..i + 1][i] == x;
  }

  /** Appending a new element keeps the elements distinct. */
  lemma NoDuplicatesSnoc<T>(s: seq<T>, x: T)
    requires NoDuplicates(s) && x !in s
    ensures NoDuplicates(s + [x])
  {
  }

  /** Slicing out a middle part keeps distinct elements distinct. */
  lemma NoDuplicatesSplice<T>(s: seq<T>, i: int, j: int)
    requires NoDuplicates(s) && 0 <= i <= j <= |s|
    ensures NoDuplicates(s[..i] + s[j..])
  {
    var r := s[..i] + s[j..];
    forall a, b | 0 <= a < b < |r| ensures r[a] != r[b] {
      var a', b' := if a < i then a else a + j - i, if b < i then b else b + j - i;
      assert r[a] == s[a'] && r[b] == s[b'];
    }
  }

  /** Inserting distinct new elements into a sequence without duplicates keeps it without duplicates. */
  lemma NoDuplicatesInsert<T>(s: seq<T>, i: int, run: seq<T>)
    requires NoDuplicates(s) && NoDuplicates(run) && 0 <= i <= |s|
    requires forall x :: x in run ==> x !in s
    ensures NoDuplicates(s[..i] + run + s[i..])
  {
    var r := s[..i] + run + s[i..];
    forall a, b | 0 <= a < b < |r| ensures r[a] != r[b] {
      var inRunA, inRunB := i <= a < i + |run|, i <= b < i + |run|;
      var xa := if a < i then s[a] else if inRunA then run[a - i] else s[a - |run|];
      var xb := if b < i then s[b] else if inRunB then run[b - i] else s[b - |run|];
      assert r[a] == xa && r[b] == xb;
      if inRunA && !inRunB {
        assert xa in run && xb in s;
      } else if !inRunA && inRunB {
        assert xb in run && xa in s;
      }
    }
  }
}
