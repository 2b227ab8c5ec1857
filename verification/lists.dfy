/** `Array.prototype.filter` and the notion of an order-preserving
    subsequence, which every store getter of the application is built on. */
module Lists {

  /** `r` is `s` with some elements left out and the rest kept in their
      original order (decided by matching greedily from the front). */
  predicate IsSubsequence<T(==,!new)>(r: seq<T>, s: seq<T>)
    decreases |s|
  {
    if r == [] then true
    else if s == [] then false
    else if r[0] == s[0] then IsSubsequence(r[1..], s[1..])
    else IsSubsequence(r, s[1..])
  }

  /** `s.filter(p)`: exactly the elements satisfying `p`, each as often as
      in `s`, in their original order. */
  function Filter<T(==,!new)>(p: T -> bool, s: seq<T>): (r: seq<T>)
    ensures IsSubsequence(r, s)
    ensures forall x :: x in r <==> x in s && p(x)
    ensures forall x :: multiset(r)[x] == if p(x) then multiset(s)[x] else 0
    ensures |r| <= |s|
  {
    if s == [] then []
    else
      assert s == [s[0]] + s[1..];
      if p(s[0]) then [s[0]] + Filter(p, s[1..]) else Filter(p, s[1..])
  }

  /** A filter that every element passes returns the list itself. */
  lemma {:induction false} FilterKeepsAll<T(!new)>(p: T -> bool, s: seq<T>)
    requires forall x :: x in s ==> p(x)
    ensures Filter(p, s) == s
  {
    if s != [] {
      assert forall x :: x in s[1..] ==> x in s;
      FilterKeepsAll(p, s[1..]);
    }
  }

  /** Keeping the same first element preserves being a subsequence. */
  lemma SubsequenceKeep<T(!new)>(x: T, r: seq<T>, s: seq<T>)
    requires IsSubsequence(r, s)
    ensures IsSubsequence([x] + r, [x] + s)
  {
    assert ([x] + r)[1..] == r;
    assert ([x] + s)[1..] == s;
  }

  /** Skipping a first element that `r` does not start with preserves being
      a subsequence. */
  lemma SubsequenceSkip<T(!new)>(x: T, r: seq<T>, s: seq<T>)
    requires IsSubsequence(r, s)
    requires r == [] || r[0] != x
    ensures IsSubsequence(r, [x] + s)
  {
    assert ([x] + s)[1..] == s;
  }

  /** A subsequence stays one when the list grows at the end. */
  lemma {:induction false} SubsequenceExtend<T(!new)>(r: seq<T>, s: seq<T>, y: T)
    requires IsSubsequence(r, s)
    ensures IsSubsequence(r, s + [y])
    decreases |s|
  {
    if r != [] && s != [] {
      assert (s + [y])[1..] == s[1..] + [y];
      if r[0] == s[0] {
        SubsequenceExtend(r[1..], s[1..], y);
      } else {
        SubsequenceExtend(r, s[1..], y);
      }
    }
  }

  /** A subsequence grows by the element both lists end with. */
  lemma {:induction false} SubsequenceAppend<T(!new)>(r: seq<T>, s: seq<T>, x: T)
    requires IsSubsequence(r, s)
    ensures IsSubsequence(r + [x], s + [x])
    decreases |s|
  {
    assert (s + [x])[1..] == (if s == [] then [] else s[1..] + [x]);
    if r == [] {
      if s != [] && s[0] != x {
        SubsequenceAppend(r, s[1..], x);
      }
    } else {
      assert (r + [x])[1..] == r[1..] + [x];
      if r[0] == s[0] {
        SubsequenceAppend(r[1..], s[1..], x);
      } else {
        SubsequenceAppend(r, s[1..], x);
      }
    }
  }
}
