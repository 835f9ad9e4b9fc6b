/**
 Lexicographic string order, sorting and canonical listings.

 The program compares strings byte-wise; on text this is the lexicographic order
 of the characters.  Everything the program sorts (node ids, task ids, journal
 lines, actions) goes through `SortBy`, and the results below say that what it
 returns depends on the contents alone: an arrangement sorted by an order that
 separates the elements is unique.
 */
module Order {

  predicate Less(a: string, b: string)
  {
    |b| != 0 && (|a| == 0 || a[0] < b[0] || (a[0] == b[0] && Less(a[1..], b[1..])))
  }

  predicate Leq(a: string, b: string) {
    a == b || Less(a, b)
  }

  ghost predicate FirstDiffers(a: string, b: string, k: nat) {
    k <= |a| && k < |b| && a[..k] == b[..k] && (k == |a| || a[k] < b[k])
  }

  /** A proper prefix, or a smaller character where the two first differ. */
  lemma {:induction false} LessExactly(a: string, b: string)
    ensures Less(a, b) <==> exists k: nat :: FirstDiffers(a, b, k)
  {
    if a != "" && b != "" && a[0] == b[0] {
      LessExactly(a[1..], b[1..]);
      if k: nat :| FirstDiffers(a[1..], b[1..], k) {
        assert a[..k + 1] == [a[0]] + a[1..][..k] && b[..k + 1] == [b[0]] + b[1..][..k];
        assert FirstDiffers(a, b, k + 1);
      }
      if k: nat :| FirstDiffers(a, b, k) {
        assert a[..k] == b[..k] && k > 0;
        assert a[1..][..k - 1] == a[..k][1..] && b[1..][..k - 1] == b[..k][1..];
        assert FirstDiffers(a[1..], b[1..], k - 1);
      }
    } else {
      if Less(a, b) {
        assert FirstDiffers(a, b, 0);
      }
      if k: nat :| FirstDiffers(a, b, k) {
        assert a[..k] == b[..k] && (k > 0 ==> a[..k][0] == b[..k][0]);
      }
    }
  }

  lemma {:induction false} LessIrreflexive(a: string)
    ensures !Less(a, a)
  {
    if a != [] {
      LessIrreflexive(a[1..]);
    }
  }

  lemma {:induction false} LessTransitive(a: string, b: string, c: string)
    requires Less(a, b) && Less(b, c)
    ensures Less(a, c)
  {
    if a != [] && a[0] == b[0] == c[0] {
      LessTransitive(a[1..], b[1..], c[1..]);
    }
  }

  lemma {:induction false} LessTotal(a: string, b: string)
    ensures Less(a, b) || a == b || Less(b, a)
  {
    if a != [] && b != [] && a[0] == b[0] {
      LessTotal(a[1..], b[1..]);
      if a[1..] == b[1..] {
        assert a == [a[0]] + a[1..] && b == [b[0]] + b[1..];
      }
    }
  }

  lemma LessAsymmetric(a: string, b: string)
    requires Less(a, b)
    ensures !Less(b, a)
  {
    if Less(b, a) {
      LessTransitive(a, b, a);
      LessIrreflexive(a);
    }
  }

  /** A total preorder: every two elements compare, and comparison is transitive. */
  ghost predicate Ordering<T(!new)>(leq: (T, T) -> bool) {
    && (forall x, y :: leq(x, y) || leq(y, x))
    && (forall x, y, z :: leq(x, y) && leq(y, z) ==> leq(x, z))
  }

  lemma LeqOrdering()
    ensures Ordering(Leq)
    ensures forall x, y :: Leq(x, y) && Leq(y, x) ==> x == y
  {
    forall x: string, y: string
      ensures Leq(x, y) || Leq(y, x)
      ensures Leq(x, y) && Leq(y, x) ==> x == y
    {
      LessTotal(x, y);
      if Less(x, y) {
        LessAsymmetric(x, y);
      }
    }
    forall x: string, y: string, z: string | Leq(x, y) && Leq(y, z)
      ensures Leq(x, z)
    {
      if Less(x, y) && Less(y, z) {
        LessTransitive(x, y, z);
      }
    }
  }

  ghost predicate SortedBy<T>(leq: (T, T) -> bool, s: seq<T>) {
    forall i, j :: 0 <= i < j < |s| ==> leq(s[i], s[j])
  }

  /** The order tells any two different elements of s apart. */
  ghost predicate Separates<T>(leq: (T, T) -> bool, s: seq<T>) {
    forall x, y :: x in s && y in s && leq(x, y) && leq(y, x) ==> x == y
  }

  function InsertBy<T>(leq: (T, T) -> bool, x: T, s: seq<T>): (r: seq<T>)
    ensures multiset(r) == multiset([x] + s)
  {
    if s == [] || leq(x, s[0]) then
      [x] + s
    else
      assert s == [s[0]] + s[1..];
      [s[0]] + InsertBy(leq, x, s[1..])
  }

  function SortBy<T>(leq: (T, T) -> bool, s: seq<T>): (r: seq<T>)
    ensures multiset(r) == multiset(s)
  {
    if s == [] then
      []
    else
      assert s == [s[0]] + s[1..];
      InsertBy(leq, s[0], SortBy(leq, s[1..]))
  }

  lemma {:induction false} InsertBySorted<T(!new)>(leq: (T, T) -> bool, x: T, s: seq<T>)
    requires Ordering(leq) && SortedBy(leq, s)
    ensures SortedBy(leq, InsertBy(leq, x, s))
  {
    if s != [] && !leq(x, s[0]) {
      InsertBySorted(leq, x, s[1..]);
      var rest := InsertBy(leq, x, s[1..]);
      forall y | y in rest
        ensures leq(s[0], y)
      {
        assert y in multiset(rest);
        assert y in multiset([x] + s[1..]);
      }
    }
  }

  lemma {:induction false} SortBySorted<T(!new)>(leq: (T, T) -> bool, s: seq<T>)
    requires Ordering(leq)
    ensures SortedBy(leq, SortBy(leq, s))
  {
    if s != [] {
      SortBySorted(leq, s[1..]);
      InsertBySorted(leq, s[0], SortBy(leq, s[1..]));
    }
  }

  lemma SortedHead<T(!new)>(leq: (T, T) -> bool, a: seq<T>, x: T)
    requires SortedBy(leq, a) && x in a
    ensures x == a[0] || leq(a[0], x)
  {
  }

  lemma HeadsAgree<T(!new)>(leq: (T, T) -> bool, a: seq<T>, b: seq<T>)
    requires SortedBy(leq, a) && SortedBy(leq, b) && Separates(leq, a)
    requires a != [] && b != [] && a[0] in b && b[0] in a
    ensures a[0] == b[0]
  {
    SortedHead(leq, a, b[0]);
    SortedHead(leq, b, a[0]);
  }

  lemma SortedTail<T(!new)>(leq: (T, T) -> bool, a: seq<T>)
    requires a != []
    ensures SortedBy(leq, a) ==> SortedBy(leq, a[1..])
    ensures Separates(leq, a) ==> Separates(leq, a[1..])
    ensures multiset(a[1..]) == multiset(a) - multiset{a[0]}
  {
    assert a == [a[0]] + a[1..];
  }

  /** Two sorted arrangements of the same elements are the same sequence. */
  lemma {:induction false} SortedUnique<T(!new)>(leq: (T, T) -> bool, a: seq<T>, b: seq<T>)
    requires SortedBy(leq, a) && SortedBy(leq, b) && Separates(leq, a)
    requires multiset(a) == multiset(b)
    ensures a == b
  {
    assert |a| == |multiset(a)| == |multiset(b)| == |b|;
    if a != [] {
      assert a[0] in multiset(b) && b[0] in multiset(a);
      HeadsAgree(leq, a, b);
      SortedTail(leq, a);
      SortedTail(leq, b);
      SortedUnique(leq, a[1..], b[1..]);
      assert a == [a[0]] + a[1..] && b == [b[0]] + b[1..];
    }
  }

  /** Sorting depends on the contents alone, not on the order they arrive in. */
  lemma SortCanonical<T(!new)>(leq: (T, T) -> bool, a: seq<T>, b: seq<T>)
    requires Ordering(leq) && Separates(leq, a) && multiset(a) == multiset(b)
    ensures SortBy(leq, a) == SortBy(leq, b)
  {
    SortBySorted(leq, a);
    SortBySorted(leq, b);
    forall x, y | x in SortBy(leq, a) && y in SortBy(leq, a) && leq(x, y) && leq(y, x)
      ensures x == y
    {
      assert x in multiset(a) && y in multiset(a);
    }
    SortedUnique(leq, SortBy(leq, a), SortBy(leq, b));
  }

  function SortStrings(s: seq<string>): (r: seq<string>)
    ensures multiset(r) == multiset(s)
    ensures |r| == |s|
    ensures forall x :: x in r <==> x in s
  {
    var r := SortBy(Leq, s);
    assert |r| == |multiset(r)| == |multiset(s)| == |s|;
    assert forall x :: x in r <==> x in multiset(r);
    r
  }

  ghost predicate NoDuplicates<T>(s: seq<T>) {
    forall i, j :: 0 <= i < j < |s| ==> s[i] != s[j]
  }

  /** Ascending without repeats: the one listing of a set of strings. */
  ghost predicate Ascending(s: seq<string>) {
    forall i, j :: 0 <= i < j < |s| ==> Less(s[i], s[j])
  }

  lemma AscendingNoDuplicates(s: seq<string>)
    requires Ascending(s)
    ensures NoDuplicates(s)
  {
    forall i, j | 0 <= i < j < |s|
      ensures s[i] != s[j]
    {
      LessIrreflexive(s[i]);
    }
  }

  lemma {:induction false} NoDuplicatesMultiset<T>(s: seq<T>)
    requires NoDuplicates(s)
    ensures forall x :: x in s ==> multiset(s)[x] == 1
    ensures multiset(s) == multiset(set x | x in s)
  {
    if s != [] {
      assert s == [s[0]] + s[1..];
      assert forall i :: 0 <= i < |s| - 1 ==> s[1..][i] == s[i + 1];
      NoDuplicatesMultiset(s[1..]);
      forall x | x in s
        ensures multiset(s)[x] == 1
      {
        if x == s[0] {
          assert x !in s[1..];
        }
      }
    }
  }

  lemma {:induction false} MultisetNoDuplicates<T>(s: seq<T>)
    requires forall x :: x in s ==> multiset(s)[x] == 1
    ensures NoDuplicates(s)
  {
    forall i, j | 0 <= i < j < |s|
      ensures s[i] != s[j]
    {
      assert s == s[..j] + s[j..];
      assert s[i] in s[..j] && s[j] in s[j..];
      assert multiset(s) == multiset(s[..j]) + multiset(s[j..]);
      assert s[i] in multiset(s[..j]) && s[j] in multiset(s[j..]);
      assert multiset(s)[s[i]] == 1 && multiset(s)[s[j]] == 1;
    }
  }

  /** Sorting a duplicate-free list gives the ascending listing of its set. */
  lemma SortStringsAscending(s: seq<string>)
    requires NoDuplicates(s)
    ensures Ascending(SortStrings(s))
  {
    LeqOrdering();
    SortBySorted(Leq, s);
    NoDuplicatesMultiset(s);
    var r := SortStrings(s);
    MultisetNoDuplicates(r);
    forall i, j | 0 <= i < j < |r|
      ensures Less(r[i], r[j])
    {
      assert Leq(r[i], r[j]);
    }
  }

  lemma AscendingUnique(a: seq<string>, b: seq<string>)
    requires Ascending(a) && Ascending(b)
    requires forall x :: x in a <==> x in b
    ensures a == b
  {
    LeqOrdering();
    AscendingNoDuplicates(a);
    AscendingNoDuplicates(b);
    NoDuplicatesMultiset(a);
    NoDuplicatesMultiset(b);
    assert (set x | x in a) == (set x | x in b);
    SortedUnique(Leq, a, b);
  }

  /** The ascending listing of a finite set: what collecting map keys and sorting them gives. */
  method SortedKeys(keys: set<string>) returns (r: seq<string>)
    ensures Ascending(r)
    ensures forall x :: x in r <==> x in keys
    ensures |r| == |keys|
  {
    var todo := keys;
    var out: seq<string> := [];
    while todo != {}
      invariant todo <= keys
      invariant NoDuplicates(out)
      invariant forall x :: x in out <==> x in keys - todo
      invariant |out| + |todo| == |keys|
    {
      var k :| k in todo;
      assert k !in out;
      out := out + [k];
      todo := todo - {k};
    }
    SortStringsAscending(out);
    r := SortStrings(out);
  }

  lemma ListingExists(s: set<string>) returns (r: seq<string>)
    ensures Ascending(r) && forall x :: x in r <==> x in s
  {
    var out: seq<string> := [];
    var todo := s;
    while todo != {}
      invariant todo <= s && NoDuplicates(out)
      invariant forall x :: x in out <==> x in s - todo
    {
      var k :| k in todo;
      assert k !in out;
      out := out + [k];
      todo := todo - {k};
    }
    SortStringsAscending(out);
    r := SortStrings(out);
  }

  lemma ListingFact(s: set<string>)
    ensures exists r :: Ascending(r) && forall x :: x in r <==> x in s
  {
    var r := ListingExists(s);
  }

  /** The one ascending listing of a finite set. */
  ghost function Listing(s: set<string>): (r: seq<string>)
    ensures Ascending(r) && forall x :: x in r <==> x in s
  {
    ListingFact(s);
    var r :| Ascending(r) && forall x :: x in r <==> x in s;
    r
  }

  lemma ListingIs(r: seq<string>, s: set<string>)
    requires Ascending(r) && forall x :: x in r <==> x in s
    ensures r == Listing(s)
  {
    AscendingUnique(r, Listing(s));
  }
}
