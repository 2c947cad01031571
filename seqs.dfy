/** Order-preserving selection over sequences (`Array.prototype.filter`). */
module Seqs {

  /** The elements of `s` that satisfy `p`, in their original order. */
  function Filter<T(!new)>(p: T -> bool, s: seq<T>): (r: seq<T>)
    ensures |r| <= |s|
    ensures forall i :: 0 <= i < |r| ==> p(r[i])
    decreases |s|
  {
    if s == [] then []
    else
      var last := s[|s| - 1];
      assert s == s[..|s| - 1] + [last];
      Filter(p, s[..|s| - 1]) + (if p(last) then [last] else [])
  }

  /** An element is kept exactly when it occurs and passes. */
  lemma {:induction false} FilterMembers<T(!new)>(p: T -> bool, s: seq<T>, x: T)
    ensures x in Filter(p, s) <==> x in s && p(x)
    decreases |s|
  {
    if s != [] {
      var init, last := s[..|s| - 1], s[|s| - 1];
      FilterMembers(p, init, x);
      assert s == init + [last];
    }
  }

  /** Filtering a concatenation filters each side and keeps them in order. */
  lemma {:induction false} FilterAppend<T(!new)>(p: T -> bool, a: seq<T>, b: seq<T>)
    ensures Filter(p, a + b) == Filter(p, a) + Filter(p, b)
    decreases |b|
  {
    if b != [] {
      var b' := b[..|b| - 1];
      assert (a + b)[..|a + b| - 1] == a + b';
      FilterAppend(p, a, b');
    } else {
      assert a + b == a;
    }
  }

  /** A sequence whose elements all pass is kept whole. */
  lemma {:induction false} FilterKeepsAll<T(!new)>(p: T -> bool, s: seq<T>)
    requires forall i :: 0 <= i < |s| ==> p(s[i])
    ensures Filter(p, s) == s
    decreases |s|
  {
    if s != [] {
      var init, last := s[..|s| - 1], s[|s| - 1];
      FilterKeepsAll(p, init);
      assert p(last);
      assert Filter(p, s) == init + [last];
      assert init + [last] == s;
    }
  }

  /** An element that fails is left out in place. */
  lemma FilterSkips<T(!new)>(p: T -> bool, a: seq<T>, x: T, b: seq<T>)
    requires !p(x)
    ensures Filter(p, a + [x] + b) == Filter(p, a + b)
  {
    assert Filter(p, [x]) == [] by { assert [x][..0] == []; }
    FilterAppend(p, a, [x]);
    assert Filter(p, a + [x]) == Filter(p, a);
    FilterAppend(p, a + [x], b);
    FilterAppend(p, a, b);
  }

  /** An element that passes is kept in place. */
  lemma FilterKeeps<T(!new)>(p: T -> bool, a: seq<T>, x: T, b: seq<T>)
    requires p(x)
    ensures Filter(p, a + [x] + b) == Filter(p, a) + [x] + Filter(p, b)
  {
    assert Filter(p, [x]) == [x] by { assert [x][..0] == []; }
    FilterAppend(p, a, [x]);
    FilterAppend(p, a + [x], b);
  }
}
