/** Stable sorting by an integer key, and when a sorted list is the only one. */
module Sorting {

  ghost predicate SortedBy<T>(key: T -> int, s: seq<T>) {
    forall i, j :: 0 <= i < j < |s| ==> key(s[i]) <= key(s[j])
  }

  /** Behind its equals. */
  function Insert<T>(key: T -> int, x: T, s: seq<T>): seq<T> {
    if s == [] || key(x) < key(s[0]) then [x] + s else [s[0]] + Insert(key, x, s[1..])
  }

  function SortBy<T>(key: T -> int, s: seq<T>): seq<T> {
    if s == [] then [] else Insert(key, s[|s| - 1], SortBy(key, s[..|s| - 1]))
  }

  lemma {:induction false} InsertHolds<T>(key: T -> int, x: T, s: seq<T>)
    ensures multiset(Insert(key, x, s)) == multiset(s) + multiset{x}
  {
    if s != [] && key(s[0]) <= key(x) {
      InsertHolds(key, x, s[1..]);
      assert s == [s[0]] + s[1..];
    }
  }

  lemma {:induction false} InsertSorted<T>(key: T -> int, x: T, s: seq<T>)
    requires SortedBy(key, s)
    ensures SortedBy(key, Insert(key, x, s))
  {
    if s != [] && key(s[0]) <= key(x) {
      InsertSorted(key, x, s[1..]);
      InsertHolds(key, x, s[1..]);
      var r := Insert(key, x, s[1..]);
      forall j | 0 <= j < |r| ensures key(s[0]) <= key(r[j]) {
        assert r[j] in multiset(r);
        assert r[j] == x || r[j] in s[1..];
      }
    }
  }

  /** Sorting permutes into order. */
  lemma SortSorts<T>(key: T -> int, s: seq<T>)
    ensures multiset(SortBy(key, s)) == multiset(s) && SortedBy(key, SortBy(key, s))
  {
    SortHolds(key, s);
    SortOrders(key, s);
  }

  lemma {:induction false} SortHolds<T>(key: T -> int, s: seq<T>)
    ensures multiset(SortBy(key, s)) == multiset(s)
  {
    if s != [] {
      var n := |s| - 1;
      SortHolds(key, s[..n]);
      InsertHolds(key, s[n], SortBy(key, s[..n]));
      LastHeld(s);
    }
  }

  lemma LastHeld<T>(s: seq<T>)
    requires s != []
    ensures multiset(s) == multiset(s[..|s| - 1]) + multiset{s[|s| - 1]}
  {
    assert s == s[..|s| - 1] + [s[|s| - 1]];
  }

  lemma {:induction false} SortOrders<T>(key: T -> int, s: seq<T>)
    ensures SortedBy(key, SortBy(key, s))
  {
    if s != [] {
      var n := |s| - 1;
      SortOrders(key, s[..n]);
      InsertSorted(key, s[n], SortBy(key, s[..n]));
    }
  }

  lemma SameMembers<T>(a: seq<T>, b: seq<T>)
    requires multiset(a) == multiset(b)
    ensures |a| == |b| && forall x :: x in a <==> x in b
  {
    assert |a| == |multiset(a)| && |b| == |multiset(b)|;
    forall x ensures x in a <==> x in b {
      assert x in a <==> x in multiset(a);
      assert x in b <==> x in multiset(b);
    }
  }

  /** The key tells elements apart. */
  ghost predicate KeyTells<T>(key: T -> int, a: seq<T>) {
    forall x, y :: x in a && y in a && key(x) == key(y) ==> x == y
  }

  lemma KeyTellsKept<T>(key: T -> int, a: seq<T>, b: seq<T>)
    requires KeyTells(key, a) && multiset(a) == multiset(b)
    ensures KeyTells(key, b)
  {
    SameMembers(a, b);
    forall x, y | x in b && y in b && key(x) == key(y) ensures x == y {
      assert x in a && y in a;
    }
  }

  /** Where the key tells elements apart, a multiset has one sorted arrangement. */
  lemma {:induction false} SortedUnique<T>(key: T -> int, a: seq<T>, b: seq<T>)
    requires SortedBy(key, a) && SortedBy(key, b) && multiset(a) == multiset(b)
    requires KeyTells(key, a)
    ensures a == b
  {
    SameMembers(a, b);
    if a != [] {
      SameFirst(key, a, b);
      RestSame(a, b);
      RestTells(key, a);
      SortedUnique(key, a[1..], b[1..]);
      assert a == [a[0]] + a[1..] && b == [b[0]] + b[1..];
    }
  }

  lemma RestSame<T>(a: seq<T>, b: seq<T>)
    requires a != [] && b != [] && a[0] == b[0] && multiset(a) == multiset(b)
    ensures multiset(a[1..]) == multiset(b[1..])
  {
    assert a == [a[0]] + a[1..] && b == [b[0]] + b[1..];
    Cancel(multiset(a[1..]), multiset(b[1..]), a[0]);
  }

  lemma RestTells<T>(key: T -> int, a: seq<T>)
    requires a != [] && KeyTells(key, a)
    ensures KeyTells(key, a[1..])
  {
  }

  lemma SameFirst<T>(key: T -> int, a: seq<T>, b: seq<T>)
    requires a != [] && b != [] && SortedBy(key, a) && SortedBy(key, b) && forall x :: x in a <==> x in b
    requires KeyTells(key, a)
    ensures a[0] == b[0]
  {
    assert a[0] in b && b[0] in a;
    var i :| 0 <= i < |b| && b[i] == a[0];
    var j :| 0 <= j < |a| && a[j] == b[0];
    assert key(a[0]) <= key(a[j]) && key(b[0]) <= key(b[i]);
  }

  lemma Cancel<T>(a: multiset<T>, b: multiset<T>, x: T)
    requires multiset{x} + a == multiset{x} + b
    ensures a == b
  {
    forall y ensures a[y] == b[y] {
      assert (multiset{x} + a)[y] == (multiset{x} + b)[y];
    }
  }

  lemma SortLength<T>(key: T -> int, s: seq<T>)
    ensures |SortBy(key, s)| == |s|
  {
    SortSorts(key, s);
    SameMembers(SortBy(key, s), s);
  }

  /** Lists are rearrangements of each other if, and with such a key only if, they sort alike. */
  lemma SortAlike<T>(key: T -> int, a: seq<T>, b: seq<T>)
    ensures SortBy(key, a) == SortBy(key, b) ==> multiset(a) == multiset(b)
    ensures KeyTells(key, a) && multiset(a) == multiset(b) ==> SortBy(key, a) == SortBy(key, b)
  {
    SortSorts(key, a);
    SortSorts(key, b);
    if KeyTells(key, a) && multiset(a) == multiset(b) {
      KeyTellsKept(key, a, SortBy(key, a));
      SortedUnique(key, SortBy(key, a), SortBy(key, b));
    }
  }

  // ----- Lists without repeats ------------------------------------------------------------

  ghost predicate Distinct<T>(s: seq<T>) {
    forall i, j :: 0 <= i < j < |s| ==> s[i] != s[j]
  }

  lemma {:induction false} DistinctOnce<T>(s: seq<T>, x: T)
    requires Distinct(s)
    ensures multiset(s)[x] == if x in s then 1 else 0
  {
    if s != [] {
      DistinctOnce(s[1..], x);
      assert s == [s[0]] + s[1..];
    }
  }

  lemma TwiceCounts<T>(s: seq<T>, i: nat, j: nat)
    requires i < j < |s| && s[i] == s[j]
    ensures multiset(s)[s[i]] >= 2
  {
    assert s == s[..j] + s[j..] && s[..j][i] in multiset(s[..j]) && s[j..][0] in multiset(s[j..]);
  }

  /** Rearranging makes no repeats. */
  lemma DistinctKept<T>(a: seq<T>, b: seq<T>)
    requires Distinct(a) && multiset(a) == multiset(b)
    ensures Distinct(b)
  {
    forall i, j | 0 <= i < j < |b| ensures b[i] != b[j] {
      DistinctOnce(a, b[i]);
      if b[i] == b[j] {
        TwiceCounts(b, i, j);
      }
    }
  }

  /** Lists without repeats are rearrangements of each other if and only if they have the
      same members. */
  lemma DistinctSame<T>(a: seq<T>, b: seq<T>)
    requires Distinct(a) && Distinct(b)
    ensures multiset(a) == multiset(b) <==> forall x :: x in a <==> x in b
  {
    if multiset(a) == multiset(b) {
      SameMembers(a, b);
    }
    if forall x :: x in a <==> x in b {
      forall x ensures multiset(a)[x] == multiset(b)[x] {
        DistinctOnce(a, x);
        DistinctOnce(b, x);
      }
    }
  }

  lemma DistinctConcat<T>(a: seq<T>, b: seq<T>)
    requires Distinct(a) && Distinct(b) && forall x :: x in a ==> x !in b
    ensures Distinct(a + b)
  {
    var s := a + b;
    forall i, j | 0 <= i < j < |s| ensures s[i] != s[j] {
      if i < |a| <= j {
        assert s[i] in a && s[j] in b;
      }
    }
  }
}
