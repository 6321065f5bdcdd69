/** Counting over sequences, and the fact that a count does not depend on
    the order of the elements: what lets results that arrive in any
    completion order be tallied as if they arrived in submission order. */
module Seqs {

  /** The number of elements of `s` that satisfy `p`. */
  function Count<T>(s: seq<T>, p: T -> bool): (n: nat)
    ensures n <= |s|
  {
    if s == [] then 0 else Count(s[..|s| - 1], p) + (if p(s[|s| - 1]) then 1 else 0)
  }

  lemma {:induction false} CountAppend<T>(a: seq<T>, b: seq<T>, p: T -> bool)
    ensures Count(a + b, p) == Count(a, p) + Count(b, p)
  {
    if b != [] {
      var b' := b[..|b| - 1];
      assert (a + b)[..|a + b| - 1] == a + b';
      CountAppend(a, b', p);
    } else {
      assert a + b == a;
    }
  }

  /** Extending a prefix by one element adds that element's share. */
  lemma CountPrefix<T>(s: seq<T>, k: nat, p: T -> bool)
    requires k < |s|
    ensures Count(s[..k + 1], p) == Count(s[..k], p) + (if p(s[k]) then 1 else 0)
  {
    assert s[..k + 1][..k] == s[..k];
  }

  /** Removing one occurrence: the count drops by that element's own share. */
  lemma CountRemove<T>(s: seq<T>, k: nat, p: T -> bool)
    requires k < |s|
    ensures Count(s, p) == Count(s[..k] + s[k + 1..], p) + (if p(s[k]) then 1 else 0)
  {
    var front, y, back := s[..k], s[k], s[k + 1..];
    SplitAt(s, k);
    CountAppend(front, [y] + back, p);
    CountAppend([y], back, p);
    CountAppend(front, back, p);
    CountSingleton(y, p);
  }

  lemma CountSingleton<T>(y: T, p: T -> bool)
    ensures Count([y], p) == if p(y) then 1 else 0
  {
    assert [y][..0] == [];
  }

  lemma MultisetRemove<T>(s: seq<T>, k: nat)
    requires k < |s|
    ensures multiset(s[..k] + s[k + 1..]) == multiset(s) - multiset{s[k]}
  {
    SplitAt(s, k);
  }

  /** `s` is its part before `k`, its element `k` and its part after. */
  lemma SplitAt<T>(s: seq<T>, k: nat)
    requires k < |s|
    ensures s == s[..k] + ([s[k]] + s[k + 1..])
  {
    assert s == s[..k] + s[k..];
    assert s[k..] == [s[k]] + s[k + 1..];
  }

  /** Every element satisfies `p` exactly when all of them are counted. */
  lemma {:induction false} CountAll<T>(s: seq<T>, p: T -> bool)
    ensures Count(s, p) == |s| <==> forall k | 0 <= k < |s| :: p(s[k])
  {
    if s != [] {
      var init := s[..|s| - 1];
      CountAll(init, p);
      assert forall k | 0 <= k < |init| :: init[k] == s[k];
    }
  }

  /** Any position of `x` in a sequence that holds it. */
  lemma IndexOf<T>(s: seq<T>, x: T) returns (k: nat)
    requires x in s
    ensures k < |s| && s[k] == x
  {
    k :| 0 <= k < |s| && s[k] == x;
  }

  /** Two sequences with the same elements, counted with multiplicity, have
      the same count for every property. */
  lemma {:induction false} CountPermutation<T>(a: seq<T>, b: seq<T>, p: T -> bool)
    requires multiset(a) == multiset(b)
    ensures Count(a, p) == Count(b, p)
    decreases |a|
  {
    if a != [] {
      var x := a[|a| - 1];
      var a' := a[..|a| - 1];
      assert a == a' + [x];
      assert x in multiset(b);
      var k := IndexOf(b, x);
      var b' := b[..k] + b[k + 1..];
      MultisetRemove(b, k);
      assert multiset(a') == multiset(b');
      CountPermutation(a', b', p);
      CountRemove(b, k, p);
    } else {
      assert |b| == |multiset(b)|;
    }
  }

  /** `[x for x in s if p(x)]`. */
  function Filter<T>(s: seq<T>, p: T -> bool): (r: seq<T>)
    ensures |r| <= |s|
    ensures forall k | 0 <= k < |r| :: p(r[k])
  {
    if s == [] then [] else Filter(s[..|s| - 1], p) + (if p(s[|s| - 1]) then [s[|s| - 1]] else [])
  }

  /** A filter keeps as many elements as the property counts. */
  lemma {:induction false} FilterCount<T>(s: seq<T>, p: T -> bool)
    ensures |Filter(s, p)| == Count(s, p)
  {
    if s != [] {
      FilterCount(s[..|s| - 1], p);
    }
  }

  /** Two filters by exclusive properties take disjoint parts of `s`: the
      two results together are a sub-multiset of `s`. */
  lemma {:induction false} FiltersDisjoint<T>(s: seq<T>, p: T -> bool, q: T -> bool)
    requires forall k | 0 <= k < |s| :: !(p(s[k]) && q(s[k]))
    ensures multiset(Filter(s, p)) + multiset(Filter(s, q)) <= multiset(s)
  {
    if s != [] {
      var init, last := s[..|s| - 1], s[|s| - 1];
      assert forall k | 0 <= k < |init| :: init[k] == s[k];
      FiltersDisjoint(init, p, q);
      var fp, fq := Filter(init, p), Filter(init, q);
      assert multiset(s) == multiset(init) + multiset{last} by {
        assert s == init + [last];
      }
      if p(last) {
        assert Filter(s, p) == fp + [last] && Filter(s, q) == fq;
      } else if q(last) {
        assert Filter(s, p) == fp && Filter(s, q) == fq + [last];
      } else {
        assert Filter(s, p) == fp && Filter(s, q) == fq;
      }
    }
  }

  /** Elements of `a` have `p` and not `q`, elements of `b` the other way
      round: `a + b` has `|a|` elements with `p` and `|b|` with `q`. */
  lemma CountSplit<T>(a: seq<T>, b: seq<T>, p: T -> bool, q: T -> bool)
    requires forall k | 0 <= k < |a| :: p(a[k]) && !q(a[k])
    requires forall k | 0 <= k < |b| :: q(b[k]) && !p(b[k])
    ensures Count(a + b, p) == |a| && Count(a + b, q) == |b|
  {
    CountAll(a, p);
    CountAll(b, q);
    CountNone(a, q);
    CountNone(b, p);
    CountAppend(a, b, p);
    CountAppend(a, b, q);
  }

  /** A property implied by another counts at least as many elements. */
  lemma {:induction false} CountMonotone<T>(s: seq<T>, p: T -> bool, q: T -> bool)
    requires forall k | 0 <= k < |s| :: p(s[k]) ==> q(s[k])
    ensures Count(s, p) <= Count(s, q)
  {
    if s != [] {
      var init := s[..|s| - 1];
      assert forall k | 0 <= k < |init| :: init[k] == s[k];
      CountMonotone(init, p, q);
    }
  }

  /** A property no element has counts nothing. */
  lemma {:induction false} CountNone<T>(s: seq<T>, p: T -> bool)
    requires forall k | 0 <= k < |s| :: !p(s[k])
    ensures Count(s, p) == 0
  {
    if s != [] {
      var init := s[..|s| - 1];
      assert forall k | 0 <= k < |init| :: init[k] == s[k];
      CountNone(init, p);
    }
  }

  /** A common front can be cancelled from two equal concatenations. */
  lemma DropPrefix<T>(p: seq<T>, x: seq<T>, y: seq<T>)
    requires p + x == p + y
    ensures x == y
  {
    assert x == (p + x)[|p|..];
    assert y == (p + y)[|p|..];
  }
}
