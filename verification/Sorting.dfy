/** The library sort on strings: byte-wise lexicographic order, and a list that
    is fixed by the set of strings it has to hold. */
module Sorting {

  /** The library's "<=" on strings. */
  predicate StringLeq(a: string, b: string) {
    if a == [] then true
    else if b == [] then false
    else if a[0] != b[0] then a[0] < b[0]
    else StringLeq(a[1..], b[1..])
  }

  lemma {:induction false} StringLeqTotal(a: string, b: string)
    ensures StringLeq(a, b) || StringLeq(b, a)
  {
    if a != [] && b != [] && a[0] == b[0] {
      StringLeqTotal(a[1..], b[1..]);
    }
  }

  lemma {:induction false} StringLeqAntisymmetric(a: string, b: string)
    requires StringLeq(a, b) && StringLeq(b, a)
    ensures a == b
  {
    if a != [] && b != [] {
      StringLeqAntisymmetric(a[1..], b[1..]);
      assert a == [a[0]] + a[1..] && b == [b[0]] + b[1..];
    }
  }

  lemma {:induction false} StringLeqTransitive(a: string, b: string, c: string)
    requires StringLeq(a, b) && StringLeq(b, c)
    ensures StringLeq(a, c)
  {
    if a != [] && b[0] == a[0] && c[0] == a[0] {
      StringLeqTransitive(a[1..], b[1..], c[1..]);
    }
  }

  /** Sorted, with equal neighbours allowed. */
  ghost predicate Sorted(s: seq<string>) {
    forall i, j | 0 <= i < j < |s| :: StringLeq(s[i], s[j])
  }

  ghost predicate NoDuplicates<T>(s: seq<T>) {
    forall i, j | 0 <= i < j < |s| :: s[i] != s[j]
  }

  ghost function Elements<T>(s: seq<T>): set<T> {
    set x | x in s
  }

  /** The list that holds exactly the strings of `members`, sorted and once each. */
  ghost predicate SortedListing(s: seq<string>, members: set<string>) {
    Sorted(s) && NoDuplicates(s) && Elements(s) == members
  }

  /** Sorting as the library promises it: an ordered permutation. */
  function Sort(s: seq<string>): (r: seq<string>)
    ensures Sorted(r)
    ensures multiset(r) == multiset(s)
    ensures |r| == |s|
  {
    if s == [] then []
    else
      assert s == s[..|s| - 1] + [s[|s| - 1]];
      InsertSorted(Sort(s[..|s| - 1]), s[|s| - 1])
  }

  function InsertSorted(s: seq<string>, x: string): (r: seq<string>)
    requires Sorted(s)
    ensures Sorted(r)
    ensures multiset(r) == multiset(s) + multiset{x}
    ensures |r| == |s| + 1
  {
    if s == [] then [x]
    else if StringLeq(s[|s| - 1], x) then
      assert Sorted(s + [x]) by { AppendKeepsSorted(s, x); }
      s + [x]
    else
      var last := s[|s| - 1];
      var init := s[..|s| - 1];
      assert s == init + [last];
      var r := InsertSorted(init, x);
      assert Sorted(r + [last]) by {
        StringLeqTotal(last, x);
        forall y | y in r ensures StringLeq(y, last) {
          assert y in multiset(r);
          assert y == x || y in multiset(init);
          assert y == x || y in init;
        }
        AppendBound(r, last);
      }
      r + [last]
  }

  lemma AppendKeepsSorted(s: seq<string>, x: string)
    requires Sorted(s) && s != [] && StringLeq(s[|s| - 1], x)
    ensures Sorted(s + [x])
  {
    forall y | y in s ensures StringLeq(y, x) {
      var i :| 0 <= i < |s| && s[i] == y;
      if i < |s| - 1 {
        StringLeqTransitive(y, s[|s| - 1], x);
      }
    }
    AppendBound(s, x);
  }

  lemma AppendBound(s: seq<string>, x: string)
    requires Sorted(s) && forall y | y in s :: StringLeq(y, x)
    ensures Sorted(s + [x])
  {
    var r := s + [x];
    forall i, j | 0 <= i < j < |r| ensures StringLeq(r[i], r[j]) {
      if j == |s| {
        assert r[i] in s;
      }
    }
  }

  lemma SortIsListing(s: seq<string>)
    requires NoDuplicates(s)
    ensures SortedListing(Sort(s), Elements(s))
  {
    var r := Sort(s);
    SameMultisetSameElements(s, r);
    NoDuplicatesIsMultiset(s);
    forall i, j | 0 <= i < j < |r| ensures r[i] != r[j] {
      assert multiset(r)[r[i]] <= 1;
      if r[i] == r[j] {
        TwoOccurrences(r, i, j);
      }
    }
  }

  lemma SameMultisetSameElements<T>(s: seq<T>, r: seq<T>)
    requires multiset(s) == multiset(r)
    ensures Elements(s) == Elements(r)
  {
    forall x ensures x in s <==> x in r {
      assert x in s <==> x in multiset(s);
      assert x in r <==> x in multiset(r);
    }
  }

  lemma {:induction false} NoDuplicatesIsMultiset<T>(s: seq<T>)
    requires NoDuplicates(s)
    ensures forall x :: multiset(s)[x] <= 1
  {
    if s != [] {
      var init := s[..|s| - 1];
      NoDuplicatesIsMultiset(init);
      assert s == init + [s[|s| - 1]];
      assert s[|s| - 1] !in init;
      assert s[|s| - 1] !in multiset(init);
    }
  }

  lemma TwoOccurrences<T>(r: seq<T>, i: nat, j: nat)
    requires i < j < |r| && r[i] == r[j]
    ensures multiset(r)[r[i]] >= 2
  {
    assert r == r[..j] + [r[j]] + r[j + 1..];
    assert r[..j][i] in multiset(r[..j]);
  }

  /** A sorted, duplicate-free list is determined by its members, so the order in
      which they were collected cannot be observed. */
  lemma {:induction false} SortedListingUnique(s: seq<string>, t: seq<string>, members: set<string>)
    requires SortedListing(s, members) && SortedListing(t, members)
    ensures s == t
  {
    assert t != [] ==> t[0] in Elements(t);
    if s != [] {
      assert s[0] in Elements(s);
      assert s[0] in t;
      assert t[0] in Elements(t);
      assert t[0] in s;
      assert StringLeq(s[0], t[0]) by {
        var i :| 0 <= i < |s| && s[i] == t[0];
        if i == 0 { StringLeqTotal(s[0], s[0]); }
      }
      assert StringLeq(t[0], s[0]) by {
        var i :| 0 <= i < |t| && t[i] == s[0];
        if i == 0 { StringLeqTotal(t[0], t[0]); }
      }
      StringLeqAntisymmetric(s[0], t[0]);
      assert Elements(s[1..]) == members - {s[0]} by { TailElements(s); }
      assert Elements(t[1..]) == members - {s[0]} by { TailElements(t); }
      SortedListingUnique(s[1..], t[1..], members - {s[0]});
      assert s == [s[0]] + s[1..] && t == [t[0]] + t[1..];
    }
  }

  lemma ElementsConcat<T>(a: seq<T>, b: seq<T>)
    ensures Elements(a + b) == Elements(a) + Elements(b)
  {
    forall x ensures x in a + b <==> x in a || x in b {}
  }

  lemma NextElement(s: seq<string>, i: nat)
    requires NoDuplicates(s) && i < |s|
    ensures s[i] in Elements(s) && s[i] !in Elements(s[..i]) && Elements(s[..i + 1]) == Elements(s[..i]) + {s[i]}
  {
    assert s[..i + 1] == s[..i] + [s[i]];
    ElementsConcat(s[..i], [s[i]]);
  }

  lemma TailElements<T>(s: seq<T>)
    requires s != [] && NoDuplicates(s)
    ensures Elements(s[1..]) == Elements(s) - {s[0]}
  {
    forall x ensures x in s[1..] <==> x in s && x != s[0] {
      if x in s && x != s[0] {
        var i :| 0 <= i < |s| && s[i] == x;
        assert s[1..][i - 1] == x;
      }
      if x in s[1..] {
        var i :| 0 <= i < |s[1..]| && s[1..][i] == x;
        assert s[i + 1] == x;
      }
    }
  }

  /** The sorted list of a set of strings. */
  ghost function Listing(s: set<string>): (r: seq<string>)
    ensures SortedListing(r, s)
  {
    ListingExists(s);
    var r :| SortedListing(r, s);
    r
  }

  lemma {:induction false} Enumerated(s: set<string>) returns (r: seq<string>)
    ensures NoDuplicates(r) && Elements(r) == s
  {
    if s == {} {
      r := [];
    } else {
      var x :| x in s;
      r := Enumerated(s - {x});
      assert x !in Elements(r);
      ElementsConcat(r, [x]);
      r := r + [x];
    }
  }

  lemma ListingExists(s: set<string>)
    ensures exists r :: SortedListing(r, s)
  {
    var r := Enumerated(s);
    SortIsListing(r);
  }

  /** The members of a set as a sorted list; they are gathered in any order. */
  method CollectSorted(members: set<string>) returns (sorted: seq<string>)
    ensures SortedListing(sorted, members)
  {
    var list: seq<string> := [];
    var todo := members;
    while todo != {}
      invariant NoDuplicates(list) && Elements(list) !! todo && Elements(list) + todo == members
      decreases todo
    {
      var m :| m in todo;
      list := list + [m];
      todo := todo - {m};
    }
    SortIsListing(list);
    sorted := Sort(list);
  }
}
