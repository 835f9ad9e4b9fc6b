/**
 Concatenating what a function yields for each element of a list.  Reordering the
 list only reorders the outcome.
 */
module Bags {

  function FlatMap<T, U>(f: T -> seq<U>, s: seq<T>): (r: seq<U>)
  {
    if s == [] then [] else FlatMap(f, s[..|s| - 1]) + f(s[|s| - 1])
  }

  lemma FlatMapNext<T, U>(f: T -> seq<U>, s: seq<T>, k: nat)
    requires k < |s|
    ensures FlatMap(f, s[..k + 1]) == FlatMap(f, s[..k]) + f(s[k])
  {
    assert s[..k + 1][..k] == s[..k];
  }

  lemma {:induction false} FlatMapConcat<T, U>(f: T -> seq<U>, a: seq<T>, b: seq<T>)
    ensures FlatMap(f, a + b) == FlatMap(f, a) + FlatMap(f, b)
  {
    if b == [] {
      assert a + b == a;
    } else {
      FlatMapConcat(f, a, b[..|b| - 1]);
      assert (a + b)[..|a + b| - 1] == a + b[..|b| - 1];
    }
  }

  lemma {:induction false} FlatMapMember<T, U>(f: T -> seq<U>, s: seq<T>, y: U)
    ensures y in FlatMap(f, s) <==> exists x :: x in s && y in f(x)
  {
    if s != [] {
      var init, last := s[..|s| - 1], s[|s| - 1];
      assert s == init + [last];
      FlatMapMember(f, init, y);
    }
  }

  /** Taking one occurrence of the last element of `a` out of a permutation `b` of it. */
  lemma RemoveLast<T>(a: seq<T>, b: seq<T>) returns (front: seq<T>, back: seq<T>)
    requires multiset(a) == multiset(b) && a != []
    ensures b == front + [a[|a| - 1]] + back
    ensures multiset(a[..|a| - 1]) == multiset(front + back)
  {
    var init, last := a[..|a| - 1], a[|a| - 1];
    assert a == init + [last];
    assert last in multiset(b);
    var j :| 0 <= j < |b| && b[j] == last;
    front, back := b[..j], b[j + 1..];
    assert b == front + [last] + back;
    assert multiset(b) == multiset(front) + multiset{last} + multiset(back);
    assert multiset(init) == multiset(a) - multiset{last};
  }

  lemma {:induction false} FlatMapPermute<T, U>(f: T -> seq<U>, a: seq<T>, b: seq<T>)
    requires multiset(a) == multiset(b)
    ensures multiset(FlatMap(f, a)) == multiset(FlatMap(f, b))
  {
    if a == [] {
      assert |b| == |multiset(b)| == 0;
    } else {
      var last := a[|a| - 1];
      var front, back := RemoveLast(a, b);
      FlatMapPermute(f, a[..|a| - 1], front + back);
      FlatMapConcat(f, front, back);
      FlatMapConcat(f, front + [last], back);
      FlatMapConcat(f, front, [last]);
      assert FlatMap(f, [last]) == FlatMap(f, []) + f(last);
    }
  }

  /** Elements a function treats alike give the same concatenation. */
  lemma {:induction false} FlatMapAgree<T, U>(f: T -> seq<U>, g: T -> seq<U>, s: seq<T>)
    requires forall x :: x in s ==> f(x) == g(x)
    ensures FlatMap(f, s) == FlatMap(g, s)
  {
    if s != [] {
      FlatMapAgree(f, g, s[..|s| - 1]);
    }
  }

  /** An ascending list with a larger number behind it. */
  lemma Appended(init: seq<nat>, n: nat)
    requires (forall k :: k in init ==> k < n) && forall i, j :: 0 <= i < j < |init| ==> init[i] < init[j]
    ensures var more := init + [n]; (forall i, j :: 0 <= i < j < |more| ==> more[i] < more[j]) && forall k :: k in more <==> k in init || k == n
  {
    assert forall i :: 0 <= i < |init| ==> init[i] in init;
  }
}
