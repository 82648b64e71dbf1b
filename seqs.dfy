/** Facts about sequences shared by the line transformers. */
module Seqs {

  /** The elements of `s`, as a set. */
  function ToSet<T>(s: seq<T>): set<T> {
    set x | x in s
  }

  /** Appending the next element of `s` to `a` and its first `k` elements. */
  lemma AppendTakeSnoc<T>(a: seq<T>, s: seq<T>, k: nat)
    requires k < |s|
    ensures a + s[..k + 1] == a + s[..k] + [s[k]]
  {
    assert s[..k + 1] == s[..k] + [s[k]];
  }

  lemma ToSetAppend<T>(s: seq<T>, x: T)
    ensures ToSet(s + [x]) == ToSet(s) + {x}
  {
    assert forall y :: y in s + [x] <==> y in s || y == x;
  }

  /** No element of `s` occurs twice. */
  predicate Distinct<T(==)>(s: seq<T>) {
    forall i, j | 0 <= i < j < |s| :: s[i] != s[j]
  }

  /** A sequence of distinct elements has as many elements as its set. */
  lemma {:induction false} DistinctCard<T>(s: seq<T>)
    requires Distinct(s)
    ensures |ToSet(s)| == |s|
  {
    if s != [] {
      var init := s[..|s| - 1];
      assert s == init + [s[|s| - 1]];
      DistinctCard(init);
      ToSetAppend(init, s[|s| - 1]);
      assert s[|s| - 1] !in init by {
        forall i | 0 <= i < |init| ensures init[i] != s[|s| - 1] {
          assert s[i] != s[|s| - 1];
        }
      }
    }
  }

  /** `a` is `b` with some elements left out, in the same order. */
  predicate IsSubsequence<T(==)>(a: seq<T>, b: seq<T>)
    decreases |b|
  {
    if a == [] then true
    else if b == [] then false
    else if a[|a| - 1] == b[|b| - 1] then IsSubsequence(a[..|a| - 1], b[..|b| - 1])
    else IsSubsequence(a, b[..|b| - 1])
  }

  lemma {:induction false} SubsequenceLength<T>(a: seq<T>, b: seq<T>)
    requires IsSubsequence(a, b)
    ensures |a| <= |b|
    decreases |b|
  {
    if a != [] {
      if a[|a| - 1] == b[|b| - 1] {
        SubsequenceLength(a[..|a| - 1], b[..|b| - 1]);
      } else {
        SubsequenceLength(a, b[..|b| - 1]);
      }
    }
  }

  lemma {:induction false} SubsequenceExtendLeft<T>(a: seq<T>, b: seq<T>, c: seq<T>)
    requires IsSubsequence(a, b)
    ensures IsSubsequence(a, c + b)
    decreases |b|
  {
    if a == [] {
    } else if b == [] {
    } else {
      var a', b' := a[..|a| - 1], b[..|b| - 1];
      assert (c + b)[..|c + b| - 1] == c + b';
      if a[|a| - 1] == b[|b| - 1] {
        SubsequenceExtendLeft(a', b', c);
      } else {
        SubsequenceExtendLeft(a, b', c);
      }
    }
  }

  lemma SubsequenceRefl<T>(a: seq<T>)
    ensures IsSubsequence(a, a)
    decreases |a|
  {
    if a != [] {
      SubsequenceRefl(a[..|a| - 1]);
    }
  }

  /** Subsequences of the parts give a subsequence of the whole. */
  lemma {:induction false} SubsequenceConcat<T>(a1: seq<T>, b1: seq<T>, a2: seq<T>, b2: seq<T>)
    requires IsSubsequence(a1, b1) && IsSubsequence(a2, b2)
    ensures IsSubsequence(a1 + a2, b1 + b2)
    decreases |b2|
  {
    if a2 == [] {
      assert a1 + a2 == a1;
      SubsequenceAppendRight(a1, b1, b2);
    } else {
      var a2', b2' := a2[..|a2| - 1], b2[..|b2| - 1];
      assert (a1 + a2)[..|a1 + a2| - 1] == a1 + a2';
      assert (b1 + b2)[..|b1 + b2| - 1] == b1 + b2';
      if a2[|a2| - 1] == b2[|b2| - 1] {
        SubsequenceConcat(a1, b1, a2', b2');
      } else {
        SubsequenceConcat(a1, b1, a2, b2');
      }
    }
  }

  /** Appending one element to the larger sequence keeps a subsequence. */
  lemma SubsequenceSnoc<T>(a: seq<T>, b: seq<T>, x: T)
    requires IsSubsequence(a, b)
    ensures IsSubsequence(a, b + [x])
  {
    assert (b + [x])[..|b|] == b;
    if a != [] && a[|a| - 1] == x {
      SubsequenceDropLast(a, b);
    }
  }

  lemma {:induction false} SubsequenceAppendRight<T>(a: seq<T>, b: seq<T>, c: seq<T>)
    requires IsSubsequence(a, b)
    ensures IsSubsequence(a, b + c)
    decreases |c|
  {
    if c == [] {
      assert b + c == b;
    } else {
      var c' := c[..|c| - 1];
      assert b + c == (b + c') + [c[|c| - 1]];
      SubsequenceAppendRight(a, b, c');
      SubsequenceSnoc(a, b + c', c[|c| - 1]);
    }
  }

  lemma {:induction false} SubsequenceDropLast<T>(a: seq<T>, b: seq<T>)
    requires a != [] && IsSubsequence(a, b)
    ensures IsSubsequence(a[..|a| - 1], b)
    decreases |b|
  {
    var a', b' := a[..|a| - 1], b[..|b| - 1];
    if a' != [] {
      assert a'[..|a'| - 1] == a[..|a| - 2];
      if a[|a| - 1] == b[|b| - 1] {
        if a'[|a'| - 1] == b[|b| - 1] {
          SubsequenceDropLast(a', b');
        }
      } else {
        SubsequenceDropLast(a, b');
        if a'[|a'| - 1] == b[|b| - 1] {
          SubsequenceDropLast(a', b');
        }
      }
    }
  }

  /** The position of the first occurrence of `x` in `s`. */
  function FirstIndex<T(==)>(s: seq<T>, x: T): (k: nat)
    requires x in s
    ensures k < |s| && s[k] == x && x !in s[..k]
  {
    if s[0] == x then 0
    else
      var k := FirstIndex(s[1..], x);
      assert s[..k + 1] == [s[0]] + s[1..][..k];
      k + 1
  }

  /** Appending an element does not move a first occurrence already there. */
  lemma FirstIndexSnoc<T>(s: seq<T>, y: T, x: T)
    requires x in s
    ensures FirstIndex(s + [y], x) == FirstIndex(s, x)
  {
    var k := FirstIndex(s, x);
    assert (s + [y])[k] == x && (s + [y])[..k] == s[..k];
  }

  /** A suffix is a subsequence. */
  lemma SuffixIsSubsequence<T>(s: seq<T>, r: seq<T>)
    requires |r| <= |s| && r == s[|s| - |r|..]
    ensures IsSubsequence(r, s)
  {
    var p := s[..|s| - |r|];
    assert s == p + r;
    SubsequenceRefl(r);
    SubsequenceExtendLeft(r, r, p);
  }
}
