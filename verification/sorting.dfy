/** Stable sorting by an integer key, as the client uses it (client.go calls Go's slices package). */
module Sorting {

  function Insert<T>(key: T -> int, x: T, s: seq<T>): seq<T> {
    if s == [] || key(x) <= key(s[0]) then [x] + s else [s[0]] + Insert(key, x, s[1..])
  }

  /** Sorted by key; elements with the same key keep their order. */
  function SortBy<T>(key: T -> int, s: seq<T>): seq<T> {
    if s == [] then [] else Insert(key, s[0], SortBy(key, s[1..]))
  }

  predicate Ordered<T>(key: T -> int, s: seq<T>) {
    forall i, j :: 0 <= i < j < |s| ==> key(s[i]) <= key(s[j])
  }

  predicate Strict<T>(key: T -> int, s: seq<T>) {
    forall i, j :: 0 <= i < j < |s| ==> key(s[i]) < key(s[j])
  }

  predicate DistinctKeys<T>(key: T -> int, s: seq<T>) {
    forall i, j :: 0 <= i < j < |s| ==> key(s[i]) != key(s[j])
  }

  lemma {:induction false} InsertMember<T>(key: T -> int, x: T, s: seq<T>, y: T)
    ensures y in Insert(key, x, s) <==> y == x || y in s
  {
    if !(s == [] || key(x) <= key(s[0])) {
      InsertMember(key, x, s[1..], y);
      assert s == [s[0]] + s[1..];
    }
  }

  lemma {:induction false} InsertOrdered<T>(key: T -> int, x: T, s: seq<T>)
    requires Ordered(key, s)
    ensures Ordered(key, Insert(key, x, s))
  {
    if !(s == [] || key(x) <= key(s[0])) {
      var rest := Insert(key, x, s[1..]);
      InsertOrdered(key, x, s[1..]);
      forall i | 0 <= i < |rest| ensures key(s[0]) <= key(rest[i]) {
        InsertMember(key, x, s[1..], rest[i]);
        assert rest[i] in rest;
      }
      hide Insert;
      OrderedCons(key, s[0], rest);
    }
  }

  lemma OrderedCons<T>(key: T -> int, x: T, s: seq<T>)
    requires forall i :: 0 <= i < |s| ==> key(x) <= key(s[i])
    ensures Ordered(key, s) ==> Ordered(key, [x] + s)
    ensures Strict(key, s) && (forall i :: 0 <= i < |s| ==> key(x) != key(s[i])) ==> Strict(key, [x] + s)
  {
  }

  lemma {:induction false} InsertStrict<T>(key: T -> int, x: T, s: seq<T>)
    requires Strict(key, s) && forall y :: y in s ==> key(y) != key(x)
    ensures Strict(key, Insert(key, x, s))
  {
    if s == [] || key(x) <= key(s[0]) {
      forall i | 0 <= i < |s| ensures key(x) < key(s[i]) {
        assert s[i] in s && key(s[0]) <= key(s[i]);
      }
      OrderedCons(key, x, s);
    } else {
      var rest := Insert(key, x, s[1..]);
      InsertStrict(key, x, s[1..]);
      forall i | 0 <= i < |rest| ensures key(s[0]) < key(rest[i]) {
        InsertMember(key, x, s[1..], rest[i]);
        assert rest[i] in rest;
      }
      hide Insert;
      OrderedCons(key, s[0], rest);
    }
  }

  lemma {:induction false} SortMember<T>(key: T -> int, s: seq<T>, y: T)
    ensures y in SortBy(key, s) <==> y in s
  {
    if s != [] {
      SortMember(key, s[1..], y);
      InsertMember(key, s[0], SortBy(key, s[1..]), y);
      assert s == [s[0]] + s[1..];
    }
  }

  lemma {:induction false} SortOrdered<T>(key: T -> int, s: seq<T>)
    ensures Ordered(key, SortBy(key, s))
  {
    if s != [] {
      SortOrdered(key, s[1..]);
      InsertOrdered(key, s[0], SortBy(key, s[1..]));
    }
  }

  lemma {:induction false} SortStrict<T>(key: T -> int, s: seq<T>)
    requires DistinctKeys(key, s)
    ensures Strict(key, SortBy(key, s))
  {
    if s != [] {
      SortStrict(key, s[1..]);
      forall y | y in SortBy(key, s[1..]) ensures key(y) != key(s[0]) {
        SortMember(key, s[1..], y);
      }
      InsertStrict(key, s[0], SortBy(key, s[1..]));
    }
  }

  /** The first of a strictly sorted list is its only element with the least key. */
  lemma HeadIsLeast<T>(key: T -> int, s: seq<T>, x: T)
    requires Strict(key, s) && x in s
    ensures key(s[0]) <= key(x) && (key(s[0]) == key(x) ==> s[0] == x)
  {
  }

  /** Two strictly sorted lists with the same members are equal. */
  lemma {:induction false} StrictUnique<T>(key: T -> int, a: seq<T>, b: seq<T>)
    requires Strict(key, a) && Strict(key, b)
    requires forall x :: x in a <==> x in b
    ensures a == b
  {
    if a != [] {
      assert a[0] in a;
    }
    if b != [] {
      assert b[0] in b;
    }
    if a != [] {
      HeadIsLeast(key, a, b[0]);
      HeadIsLeast(key, b, a[0]);
      forall x ensures x in a[1..] <==> x in b[1..] {
        TailMembers(key, a, x);
        TailMembers(key, b, x);
      }
      StrictUnique(key, a[1..], b[1..]);
    }
  }

  lemma TailMembers<T>(key: T -> int, s: seq<T>, x: T)
    requires Strict(key, s) && s != []
    ensures x in s[1..] <==> x in s && x != s[0]
  {
    assert s == [s[0]] + s[1..];
    if x in s[1..] {
      var i :| 0 <= i < |s[1..]| && s[1..][i] == x;
      assert key(s[0]) < key(s[i + 1]);
    }
  }

  /** Sorting any arrangement of a list with distinct keys gives one and the same result. */
  lemma SortUnique<T>(key: T -> int, s: seq<T>, sorted: seq<T>)
    requires Strict(key, sorted) && DistinctKeys(key, s)
    requires forall x :: x in s <==> x in sorted
    ensures SortBy(key, s) == sorted
  {
    SortStrict(key, s);
    forall x ensures x in SortBy(key, s) <==> x in s {
      SortMember(key, s, x);
    }
    StrictUnique(key, SortBy(key, s), sorted);
  }

  lemma SizesAgree<T>(a: seq<T>, b: seq<T>)
    requires multiset(a) == multiset(b)
    ensures |a| == |b|
  {
    assert |multiset(a)| == |multiset(b)|;
  }

  lemma SameMembers<T>(a: seq<T>, b: seq<T>)
    requires multiset(a) == multiset(b)
    ensures forall x :: x in a <==> x in b
  {
    forall x ensures x in a <==> x in b {
      assert x in a <==> x in multiset(a);
      assert x in b <==> x in multiset(b);
    }
  }

  lemma Twice<T>(s: seq<T>, i: nat, j: nat)
    requires i < j < |s| && s[i] == s[j]
    ensures multiset(s)[s[i]] >= 2
  {
    assert s == s[..i] + [s[i]] + s[i + 1..j] + [s[j]] + s[j + 1..];
  }

  lemma {:induction false} AtMostOnce<T>(key: T -> int, s: seq<T>, x: T)
    requires Strict(key, s)
    ensures multiset(s)[x] <= 1
  {
    if s != [] {
      assert s == [s[0]] + s[1..];
      AtMostOnce(key, s[1..], x);
      if s[0] == x {
        TailMembers(key, s, x);
        assert x !in multiset(s[1..]);
      }
    }
  }

  lemma SameKeySame<T>(key: T -> int, s: seq<T>, x: T, y: T)
    requires Strict(key, s) && x in s && y in s && key(x) == key(y)
    ensures x == y
  {
    var a :| 0 <= a < |s| && s[a] == x;
    var b :| 0 <= b < |s| && s[b] == y;
    assert a < b || b < a || a == b;
  }

  /** An arrangement of a strictly sorted list has distinct keys. */
  lemma DistinctArrangement<T>(key: T -> int, s: seq<T>, sorted: seq<T>)
    requires multiset(s) == multiset(sorted) && Strict(key, sorted)
    ensures DistinctKeys(key, s)
  {
    forall i, j | 0 <= i < j < |s| ensures key(s[i]) != key(s[j]) {
      SameMembers(s, sorted);
      AtMostOnce(key, sorted, s[i]);
      assert s[i] in s && s[j] in s;
      if key(s[i]) == key(s[j]) {
        SameKeySame(key, sorted, s[i], s[j]);
        Twice(s, i, j);
      }
    }
  }

  /** Distinct keys do not depend on the arrangement. */
  lemma DistinctArranged<T>(key: T -> int, s: seq<T>, t: seq<T>)
    requires multiset(s) == multiset(t) && DistinctKeys(key, s)
    ensures DistinctKeys(key, t)
  {
    SortStrict(key, s);
    SortMultiset(key, s);
    hide SortBy, DistinctKeys, Strict;
    DistinctArrangement(key, t, SortBy(key, s));
  }

  lemma DistinctAppend<T>(key: T -> int, a: seq<T>, b: seq<T>)
    requires DistinctKeys(key, a) && DistinctKeys(key, b)
    requires forall i, j :: 0 <= i < |a| && 0 <= j < |b| ==> key(a[i]) != key(b[j])
    ensures DistinctKeys(key, a + b)
  {
  }

  lemma StrictAppend<T>(key: T -> int, a: seq<T>, b: seq<T>)
    requires Strict(key, a) && Strict(key, b)
    requires forall i, j :: 0 <= i < |a| && 0 <= j < |b| ==> key(a[i]) < key(b[j])
    ensures Strict(key, a + b)
  {
  }

  lemma {:induction false} InsertMultiset<T>(key: T -> int, x: T, s: seq<T>)
    ensures multiset(Insert(key, x, s)) == multiset{x} + multiset(s)
  {
    if !(s == [] || key(x) <= key(s[0])) {
      InsertMultiset(key, x, s[1..]);
      assert s == [s[0]] + s[1..];
    }
  }

  /** Sorting neither loses nor repeats anything. */
  lemma {:induction false} SortMultiset<T>(key: T -> int, s: seq<T>)
    ensures multiset(SortBy(key, s)) == multiset(s)
  {
    if s != [] {
      SortMultiset(key, s[1..]);
      InsertMultiset(key, s[0], SortBy(key, s[1..]));
      assert s == [s[0]] + s[1..];
    }
  }

  lemma OrderedDistinct<T>(key: T -> int, s: seq<T>)
    requires Ordered(key, s) && DistinctKeys(key, s)
    ensures Strict(key, s)
  {
  }

  /** With distinct keys, even an unstable sort has only one possible result. */
  lemma SortedUnique<T>(key: T -> int, s: seq<T>, sorted: seq<T>)
    requires DistinctKeys(key, s) && Ordered(key, sorted) && multiset(sorted) == multiset(s)
    ensures sorted == SortBy(key, s)
  {
    SortStrict(key, s);
    SortMultiset(key, s);
    hide SortBy;
    DistinctArrangement(key, sorted, SortBy(key, s));
    OrderedDistinct(key, sorted);
    SameMembers(sorted, SortBy(key, s));
    StrictUnique(key, sorted, SortBy(key, s));
  }

  lemma OrderedHead<T>(key: T -> int, s: seq<T>, x: T)
    requires Ordered(key, s) && x in s
    ensures key(s[0]) <= key(x)
  {
  }

  lemma OrderedTail<T>(key: T -> int, s: seq<T>)
    requires Ordered(key, s) && s != []
    ensures Ordered(key, s[1..]) && multiset(s) == multiset{s[0]} + multiset(s[1..])
  {
    assert s == [s[0]] + s[1..];
  }

  /** Elements with the same key are equal. */
  ghost predicate KeyDetermines<T(!new)>(key: T -> int, s: multiset<T>) {
    forall x, y :: x in s && y in s && key(x) == key(y) ==> x == y
  }

  /** Ordered lists of the same elements begin alike. */
  lemma SameHead<T(!new)>(key: T -> int, a: seq<T>, b: seq<T>)
    requires Ordered(key, a) && Ordered(key, b) && multiset(a) == multiset(b)
    requires KeyDetermines(key, multiset(a)) && a != []
    ensures b != [] && a[0] == b[0] && multiset(a[1..]) == multiset(b[1..])
    ensures Ordered(key, a[1..]) && Ordered(key, b[1..])
    ensures KeyDetermines(key, multiset(a[1..]))
  {
    SizesAgree(a, b);
    FirstEqual(key, a, b);
    OrderedTail(key, a);
    OrderedTail(key, b);
    TailDetermined(key, a);
    hide Ordered, KeyDetermines;
    assert multiset(a[1..]) == multiset(a) - multiset{a[0]};
    assert multiset(b[1..]) == multiset(b) - multiset{b[0]};
  }

  lemma FirstEqual<T(!new)>(key: T -> int, a: seq<T>, b: seq<T>)
    requires Ordered(key, a) && Ordered(key, b) && multiset(a) == multiset(b)
    requires KeyDetermines(key, multiset(a)) && a != [] && b != []
    ensures a[0] == b[0]
  {
    assert a[0] in multiset(a) && b[0] in multiset(b);
    SameMembers(a, b);
    hide Ordered;
    assert a[0] in a && b[0] in b;
    OrderedHead(key, a, b[0]);
    OrderedHead(key, b, a[0]);
  }

  lemma TailDetermined<T(!new)>(key: T -> int, s: seq<T>)
    requires KeyDetermines(key, multiset(s)) && s != []
    ensures KeyDetermines(key, multiset(s[1..]))
  {
    assert s == [s[0]] + s[1..];
    assert forall x :: x in multiset(s[1..]) ==> x in multiset(s);
  }

  /** Ordered lists of the same elements are equal, if elements with the same key are. */
  lemma {:induction false} OrderedUnique<T(!new)>(key: T -> int, a: seq<T>, b: seq<T>)
    requires Ordered(key, a) && Ordered(key, b) && multiset(a) == multiset(b)
    requires KeyDetermines(key, multiset(a))
    ensures a == b
    decreases |a|
  {
    hide Ordered, KeyDetermines;
    SizesAgree(a, b);
    if a != [] {
      SameHead(key, a, b);
      OrderedUnique(key, a[1..], b[1..]);
      assert a == [a[0]] + a[1..] && b == [b[0]] + b[1..];
    }
  }

  /** Sorting does not depend on the arrangement, if elements with the same key are equal. */
  lemma SortArranged<T(!new)>(key: T -> int, s: seq<T>, t: seq<T>)
    requires multiset(s) == multiset(t)
    requires KeyDetermines(key, multiset(s))
    ensures SortBy(key, s) == SortBy(key, t)
  {
    SortOrdered(key, s);
    SortOrdered(key, t);
    SortMultiset(key, s);
    SortMultiset(key, t);
    hide SortBy, KeyDetermines, Ordered;
    OrderedUnique(key, SortBy(key, s), SortBy(key, t));
  }
}
