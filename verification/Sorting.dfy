/**
 Python's `sorted`, and the one fact the evidence checkers rely on: under a total order a
 multiset has exactly one sorted arrangement, so comparing sorted lists compares multisets.
 */
module Sorting {

  ghost predicate TotalOrder<T(!new)>(le: (T, T) -> bool) {
    && (forall x, y :: le(x, y) || le(y, x))
    && (forall x, y :: le(x, y) && le(y, x) ==> x == y)
    && (forall x, y, z :: le(x, y) && le(y, z) ==> le(x, z))
  }

  predicate SortedBy<T>(le: (T, T) -> bool, s: seq<T>) {
    forall i, j :: 0 <= i < j < |s| ==> le(s[i], s[j])
  }

  function Insert<T>(x: T, s: seq<T>, le: (T, T) -> bool): (r: seq<T>)
    ensures multiset(r) == multiset{x} + multiset(s)
  {
    if s == [] then [x]
    else if le(x, s[0]) then [x] + s
    else
      assert s == [s[0]] + s[1..];
      [s[0]] + Insert(x, s[1..], le)
  }

  function Sort<T>(s: seq<T>, le: (T, T) -> bool): (r: seq<T>)
    ensures multiset(r) == multiset(s)
    ensures |r| == |s|
  {
    if s == [] then []
    else
      assert s == [s[0]] + s[1..];
      var r := Insert(s[0], Sort(s[1..], le), le);
      MultisetLength(r, s);
      r
  }

  lemma MultisetLength<T>(a: seq<T>, b: seq<T>)
    requires multiset(a) == multiset(b)
    ensures |a| == |b|
  {
    assert |multiset(a)| == |a| && |multiset(b)| == |b|;
  }

  lemma {:induction false} InsertSorted<T(!new)>(x: T, s: seq<T>, le: (T, T) -> bool)
    requires TotalOrder(le) && SortedBy(le, s)
    ensures SortedBy(le, Insert(x, s, le))
  {
    if s == [] || le(x, s[0]) {
    } else {
      InsertSorted(x, s[1..], le);
      var t := Insert(x, s[1..], le);
      forall j | 0 <= j < |t| ensures le(s[0], t[j]) {
        assert t[j] in multiset(t);
        assert t[j] == x || t[j] in s[1..];
      }
    }
  }

  lemma {:induction false} SortSorted<T(!new)>(s: seq<T>, le: (T, T) -> bool)
    requires TotalOrder(le)
    ensures SortedBy(le, Sort(s, le))
  {
    if s != [] {
      SortSorted(s[1..], le);
      InsertSorted(s[0], Sort(s[1..], le), le);
    }
  }

  /** Two sorted lists with the same multiset of elements are the same list. */
  lemma {:induction false} SortedUnique<T(!new)>(a: seq<T>, b: seq<T>, le: (T, T) -> bool)
    requires TotalOrder(le) && SortedBy(le, a) && SortedBy(le, b)
    requires multiset(a) == multiset(b)
    ensures a == b
  {
    MultisetLength(a, b);
    if a != [] {
      assert a[0] in multiset(b) && b[0] in multiset(a);
      assert le(a[0], b[0]) && le(b[0], a[0]);
      assert a == [a[0]] + a[1..] && b == [b[0]] + b[1..];
      assert multiset(a[1..]) == multiset(a) - multiset{a[0]};
      assert multiset(b[1..]) == multiset(b) - multiset{b[0]};
      SortedUnique(a[1..], b[1..], le);
    }
  }

  /** Sorting forgets the input order and nothing else. */
  lemma SortCanonical<T(!new)>(a: seq<T>, b: seq<T>, le: (T, T) -> bool)
    requires TotalOrder(le)
    ensures Sort(a, le) == Sort(b, le) <==> multiset(a) == multiset(b)
  {
    if multiset(a) == multiset(b) {
      SortSorted(a, le);
      SortSorted(b, le);
      SortedUnique(Sort(a, le), Sort(b, le), le);
    }
  }

  /** Sorting a sorted list changes nothing. */
  lemma SortFixed<T(!new)>(s: seq<T>, le: (T, T) -> bool)
    requires TotalOrder(le) && SortedBy(le, s)
    ensures Sort(s, le) == s
  {
    SortSorted(s, le);
    SortedUnique(Sort(s, le), s, le);
  }

  lemma SortMembers<T>(s: seq<T>, le: (T, T) -> bool)
    ensures forall x :: x in Sort(s, le) <==> x in s
  {
    forall x ensures x in Sort(s, le) <==> x in s {
      assert x in multiset(Sort(s, le)) <==> x in multiset(s);
    }
  }

  /** Code-point order on strings, which is also byte order on byte strings. */
  predicate StringLe(a: string, b: string) {
    a == [] || (b != [] && (a[0] < b[0] || (a[0] == b[0] && StringLe(a[1..], b[1..]))))
  }

  lemma {:induction false} StringLeTotal(a: string, b: string)
    ensures StringLe(a, b) || StringLe(b, a)
    ensures StringLe(a, b) && StringLe(b, a) ==> a == b
  {
    if a != [] && b != [] {
      StringLeTotal(a[1..], b[1..]);
      assert a == [a[0]] + a[1..] && b == [b[0]] + b[1..];
    }
  }

  lemma {:induction false} StringLeTransitive(a: string, b: string, c: string)
    requires StringLe(a, b) && StringLe(b, c)
    ensures StringLe(a, c)
  {
    if a != [] && b != [] && c != [] && a[0] == b[0] == c[0] {
      StringLeTransitive(a[1..], b[1..], c[1..]);
    }
  }

  lemma StringOrder()
    ensures TotalOrder(StringLe)
  {
    forall a, b ensures (StringLe(a, b) || StringLe(b, a)) && (StringLe(a, b) && StringLe(b, a) ==> a == b) {
      StringLeTotal(a, b);
    }
    forall a, b, c | StringLe(a, b) && StringLe(b, c) ensures StringLe(a, c) {
      StringLeTransitive(a, b, c);
    }
  }

  function SortStrings(s: seq<string>): (r: seq<string>)
    ensures multiset(r) == multiset(s)
    ensures |r| == |s|
  {
    Sort(s, StringLe)
  }

  predicate Distinct<T(==)>(s: seq<T>) {
    forall i, j :: 0 <= i < j < |s| ==> s[i] != s[j]
  }

  /** A list without repetition is determined, up to order, by its set of members. */
  lemma {:induction false} DistinctMultiset<T>(a: seq<T>, b: seq<T>)
    requires Distinct(a) && Distinct(b)
    requires forall x :: x in a <==> x in b
    ensures multiset(a) == multiset(b)
  {
    forall x ensures multiset(a)[x] == multiset(b)[x] {
      DistinctCount(a, x);
      DistinctCount(b, x);
    }
  }

  lemma {:induction false} DistinctCount<T>(a: seq<T>, x: T)
    requires Distinct(a)
    ensures multiset(a)[x] == if x in a then 1 else 0
  {
    if a != [] {
      DistinctCount(a[1..], x);
      assert a == [a[0]] + a[1..];
      assert multiset(a) == multiset{a[0]} + multiset(a[1..]);
      if x == a[0] {
        assert x !in a[1..];
      }
    }
  }

  /** Distinctness is a property of the multiset, so sorting keeps it. */
  lemma DistinctPermutation<T>(a: seq<T>, b: seq<T>)
    requires Distinct(a) && multiset(a) == multiset(b)
    ensures Distinct(b)
  {
    forall i, j | 0 <= i < j < |b| ensures b[i] != b[j] {
      DistinctCount(a, b[i]);
      assert b == b[..j] + [b[j]] + b[j + 1..];
      assert multiset(b)[b[j]] == multiset(b[..j])[b[j]] + 1 + multiset(b[j + 1..])[b[j]];
      assert b[..j][i] == b[i] && b[i] in multiset(b[..j]);
    }
  }

  lemma DistinctSnoc<T>(s: seq<T>, x: T)
    requires Distinct(s) && x !in s
    ensures Distinct(s + [x])
  {
  }

  /** `len(set(items)) == len(items)`, found while the set is built. */
  method AllDistinct<T(==)>(items: seq<T>) returns (distinct: bool)
    ensures distinct <==> Distinct(items)
  {
    var seen: set<T> := {};
    for i := 0 to |items|
      invariant seen == set x | x in items[..i]
      invariant Distinct(items[..i])
    {
      assert items[..i + 1] == items[..i] + [items[i]];
      if items[i] in seen {
        var j :| 0 <= j < i && items[j] == items[i];
        return false;
      }
      seen := seen + {items[i]};
    }
    assert items[..|items|] == items;
    return true;
  }

  /** The set of members of a list without repetition has as many elements as the list. */
  lemma {:induction false} DistinctSize<T>(a: seq<T>)
    requires Distinct(a)
    ensures |set x | x in a| == |a|
  {
    if a != [] {
      DistinctSize(a[1..]);
      assert (set x | x in a) == {a[0]} + set x | x in a[1..];
      assert a[0] !in (set x | x in a[1..]);
    }
  }

  function MapSeq<A, B>(f: A -> B, s: seq<A>): (r: seq<B>)
    ensures |r| == |s| && forall i :: 0 <= i < |s| ==> r[i] == f(s[i])
  {
    seq(|s|, i requires 0 <= i < |s| => f(s[i]))
  }

  ghost predicate Injective<A(!new), B>(f: A -> B) {
    forall x, y :: f(x) == f(y) ==> x == y
  }

  lemma {:induction false} MapCount<A(!new), B>(f: A -> B, s: seq<A>, x: A)
    requires Injective(f)
    ensures multiset(MapSeq(f, s))[f(x)] == multiset(s)[x]
  {
    if s == [] {
      assert MapSeq(f, s) == [];
    } else {
      MapCount(f, s[1..], x);
      assert s == [s[0]] + s[1..];
      assert MapSeq(f, s) == [f(s[0])] + MapSeq(f, s[1..]);
    }
  }

  /** An injective map neither merges nor splits multisets. */
  lemma MapMultiset<A(!new), B>(f: A -> B, a: seq<A>, b: seq<A>)
    requires Injective(f)
    ensures multiset(MapSeq(f, a)) == multiset(MapSeq(f, b)) <==> multiset(a) == multiset(b)
  {
    forall x ensures multiset(MapSeq(f, a))[f(x)] == multiset(a)[x] && multiset(MapSeq(f, b))[f(x)] == multiset(b)[x] {
      MapCount(f, a, x);
      MapCount(f, b, x);
    }
    if multiset(a) == multiset(b) {
      forall y ensures multiset(MapSeq(f, a))[y] == multiset(MapSeq(f, b))[y] {
        if x :| f(x) == y {
          assert multiset(MapSeq(f, a))[f(x)] == multiset(MapSeq(f, b))[f(x)];
        } else {
          assert forall i :: 0 <= i < |a| ==> f(a[i]) != y;
          assert forall i :: 0 <= i < |b| ==> f(b[i]) != y;
        }
      }
    }
    if multiset(MapSeq(f, a)) == multiset(MapSeq(f, b)) {
      forall x ensures multiset(a)[x] == multiset(b)[x] {
        assert multiset(MapSeq(f, a))[f(x)] == multiset(MapSeq(f, b))[f(x)];
      }
    }
  }

  function Without<T>(s: seq<T>, k: nat): (r: seq<T>)
    requires k < |s|
    ensures |r| == |s| - 1
  {
    s[..k] + s[k + 1..]
  }

  lemma WithoutAt<T>(s: seq<T>, k: nat)
    requires k < |s|
    ensures multiset(Without(s, k)) == multiset(s) - multiset{s[k]}
  {
    assert s == s[..k] + [s[k]] + s[k + 1..];
    assert multiset(s) == multiset(s[..k]) + multiset{s[k]} + multiset(s[k + 1..]);
  }

  lemma MapAround<A, B>(f: A -> B, s: seq<A>, k: nat)
    requires k < |s|
    ensures multiset(MapSeq(f, s)) == multiset{f(s[k])} + multiset(MapSeq(f, Without(s, k)))
  {
    assert MapSeq(f, s) == MapSeq(f, s[..k]) + [f(s[k])] + MapSeq(f, s[k + 1..]);
    assert MapSeq(f, Without(s, k)) == MapSeq(f, s[..k]) + MapSeq(f, s[k + 1..]);
  }

  /** Mapping a permutation permutes the images. */
  lemma {:induction false} MapPermuted<A, B>(f: A -> B, a: seq<A>, b: seq<A>)
    requires multiset(a) == multiset(b)
    ensures multiset(MapSeq(f, a)) == multiset(MapSeq(f, b))
    decreases |a|
  {
    hide Without;
    MultisetLength(a, b);
    if a != [] {
      assert a[0] in multiset(b);
      var k :| 0 <= k < |b| && b[k] == a[0];
      WithoutAt(a, 0);
      WithoutAt(b, k);
      MapPermuted(f, Without(a, 0), Without(b, k));
      MapAround(f, a, 0);
      MapAround(f, b, k);
    } else {
      assert MapSeq(f, a) == MapSeq(f, b) == [];
    }
  }

  /** A subset as large as the whole is the whole. */
  lemma SubsetOfSameSize<T>(a: set<T>, b: set<T>)
    requires a <= b && |a| == |b|
    ensures a == b
  {
    if x :| x in b && x !in a {
      assert a <= b - {x};
      SubsetSize(a, b - {x});
    }
  }

  lemma {:induction false} SubsetSize<T>(a: set<T>, b: set<T>)
    requires a <= b
    ensures |a| <= |b|
    decreases a
  {
    if a != {} {
      var x :| x in a;
      SubsetSize(a - {x}, b - {x});
    }
  }
}
