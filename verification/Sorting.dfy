/** The library sort: some ascending arrangement by a numeric key.  Elements with equal keys may come in
    any order as far as its contract goes. */
module Sorting {
  predicate Ascending<T>(s: seq<T>, key: T -> real) {
    forall i, j {:trigger s[i], s[j]} :: 0 <= i < j < |s| ==> key(s[i]) <= key(s[j])
  }

  lemma InsertedElements<T>(s: seq<T>, x: T, i: nat)
    requires i <= |s|
    ensures multiset(s[..i] + [x] + s[i..]) == multiset(s) + multiset{x}
  {
    assert s == s[..i] + s[i..];
  }

  lemma InsertedAscending<T>(s: seq<T>, x: T, i: nat, key: T -> real)
    requires Ascending(s, key) && i <= |s|
    requires forall j :: i <= j < |s| ==> key(x) < key(s[j])
    requires i > 0 ==> key(s[i - 1]) <= key(x)
    ensures Ascending(s[..i] + [x] + s[i..], key)
  {
    var out := s[..i] + [x] + s[i..];
    forall j, k | 0 <= j < k < |out|
      ensures key(out[j]) <= key(out[k])
    {
      assert out[j] == if j < i then s[j] else if j == i then x else s[j - 1];
      assert out[k] == if k < i then s[k] else if k == i then x else s[k - 1];
      if j < i {
        assert key(s[j]) <= key(s[i - 1]);
      }
    }
  }

  method Insert<T>(s: seq<T>, x: T, key: T -> real) returns (out: seq<T>)
    requires Ascending(s, key)
    ensures Ascending(out, key) && multiset(out) == multiset(s) + multiset{x}
  {
    var i := |s|;
    while i > 0 && key(x) < key(s[i - 1])
      invariant 0 <= i <= |s|
      invariant forall j :: i <= j < |s| ==> key(x) < key(s[j])
    {
      i := i - 1;
    }
    out := s[..i] + [x] + s[i..];
    InsertedElements(s, x, i);
    InsertedAscending(s, x, i, key);
  }

  method SortBy<T>(xs: seq<T>, key: T -> real) returns (sorted: seq<T>)
    ensures Ascending(sorted, key) && multiset(sorted) == multiset(xs)
  {
    sorted := [];
    var i := 0;
    while i < |xs|
      invariant 0 <= i <= |xs|
      invariant Ascending(sorted, key) && multiset(sorted) == multiset(xs[..i])
    {
      sorted := Insert(sorted, xs[i], key);
      assert xs[..i + 1] == xs[..i] + [xs[i]];
      i := i + 1;
    }
    assert xs[..i] == xs;
  }
}
