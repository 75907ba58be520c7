/** Lexicographic order on strings, and sort.Strings / sort.Slice as an insertion sort. */
module Sorting {

  predicate StringLess(a: string, b: string)
  {
    if b == "" then false
    else if a == "" then true
    else a[0] < b[0] || (a[0] == b[0] && StringLess(a[1..], b[1..]))
  }

  lemma {:induction false} StringLessTransitive(a: string, b: string, c: string)
    requires StringLess(a, b) && StringLess(b, c)
    ensures StringLess(a, c)
  {
    if a != "" && a[0] == b[0] && b[0] == c[0] {
      StringLessTransitive(a[1..], b[1..], c[1..]);
    }
  }

  lemma {:induction false} StringLessTotal(a: string, b: string)
    ensures StringLess(a, b) || StringLess(b, a) || a == b
    ensures !(StringLess(a, b) && StringLess(b, a)) && !StringLess(a, a)
  {
    if a != "" {
      StringLessTotal(a[1..], a[1..]);
      if b != "" && a[0] == b[0] {
        StringLessTotal(a[1..], b[1..]);
        if a[1..] == b[1..] {
          assert a == [a[0]] + a[1..] && b == [b[0]] + b[1..];
        }
      }
    }
  }

  function Insert<T>(less: (T, T) -> bool, x: T, sorted: seq<T>): (r: seq<T>)
    ensures multiset(r) == multiset(sorted) + multiset{x}
    ensures |r| == |sorted| + 1
  {
    if sorted == [] then [x]
    else if less(x, sorted[0]) then [x] + sorted
    else
      assert sorted == [sorted[0]] + sorted[1..];
      [sorted[0]] + Insert(less, x, sorted[1..])
  }

  function Sort<T>(less: (T, T) -> bool, items: seq<T>): (r: seq<T>)
    ensures multiset(r) == multiset(items)
    ensures |r| == |items|
  {
    if items == [] then []
    else
      assert items == [items[0]] + items[1..];
      Insert(less, items[0], Sort(less, items[1..]))
  }

  /** Nothing later in the sequence is less than anything earlier. */
  ghost predicate Sorted<T>(less: (T, T) -> bool, items: seq<T>)
  {
    forall a, b :: 0 <= a < b < |items| ==> !less(items[b], items[a])
  }

  /** What a comparison needs for its sorted sequences to be sorted. */
  ghost predicate WeakOrder<T(!new)>(less: (T, T) -> bool)
  {
    && (forall x, y :: less(x, y) ==> !less(y, x))
    && (forall x, y, z :: !less(y, x) && !less(z, y) ==> !less(z, x))
  }

  lemma {:induction false} InsertSorted<T(!new)>(less: (T, T) -> bool, x: T, sorted: seq<T>)
    requires WeakOrder(less) && Sorted(less, sorted)
    ensures Sorted(less, Insert(less, x, sorted))
  {
    if sorted != [] {
      if less(x, sorted[0]) {
        var r := [x] + sorted;
        forall a, b | 0 <= a < b < |r| ensures !less(r[b], r[a]) {
          if a == 0 {
            assert !less(sorted[0], x);
            assert b > 1 ==> !less(sorted[b - 1], sorted[0]);
          }
        }
      } else {
        InsertSorted(less, x, sorted[1..]);
        var tail := Insert(less, x, sorted[1..]);
        var r := [sorted[0]] + tail;
        forall a, b | 0 <= a < b < |r| ensures !less(r[b], r[a]) {
          if a == 0 {
            assert r[b] in multiset(tail);
            assert r[b] in multiset(sorted[1..]) || r[b] == x;
            if r[b] != x {
              var k :| 0 <= k < |sorted[1..]| && sorted[1..][k] == r[b];
              assert r[b] == sorted[k + 1];
            }
          }
        }
      }
    }
  }

  lemma {:induction false} SortSorts<T(!new)>(less: (T, T) -> bool, items: seq<T>)
    requires WeakOrder(less)
    ensures Sorted(less, Sort(less, items))
  {
    if items != [] {
      SortSorts(less, items[1..]);
      InsertSorted(less, items[0], Sort(less, items[1..]));
    }
  }

  /** Where an insertion lands. */
  lemma {:induction false} InsertPosition<T>(less: (T, T) -> bool, x: T, sorted: seq<T>) returns (k: nat)
    ensures k <= |sorted| && Insert(less, x, sorted) == sorted[..k] + [x] + sorted[k..]
  {
    if sorted == [] || less(x, sorted[0]) {
      k := 0;
    } else {
      var tail := InsertPosition(less, x, sorted[1..]);
      k := tail + 1;
      assert sorted[..k] == [sorted[0]] + sorted[1..][..tail];
    }
  }

  /** No two positions hold related elements. */
  ghost predicate Apart<T>(related: (T, T) -> bool, items: seq<T>)
  {
    forall a, b :: 0 <= a < b < |items| ==> !related(items[a], items[b])
  }

  /** Sorting keeps a symmetric relation's elements apart. */
  lemma {:induction false} SortApart<T(!new)>(less: (T, T) -> bool, related: (T, T) -> bool, items: seq<T>)
    requires Apart(related, items) && forall x, y :: related(x, y) <==> related(y, x)
    ensures Apart(related, Sort(less, items))
  {
    if items != [] {
      var rest := Sort(less, items[1..]);
      SortApart(less, related, items[1..]);
      SameElements(rest, items[1..]);
      forall y | y in rest ensures !related(items[0], y) {
        var j :| 0 <= j < |items[1..]| && items[1..][j] == y;
        assert items[j + 1] == y;
      }
      var k := InsertPosition(less, items[0], rest);
    }
  }

  lemma SameElements<T>(a: seq<T>, b: seq<T>)
    requires multiset(a) == multiset(b)
    ensures forall x :: x in a <==> x in b
  {
    forall x ensures x in a <==> x in b {
      assert x in a <==> x in multiset(a);
      assert x in b <==> x in multiset(b);
    }
  }

  lemma StringOrder()
    ensures WeakOrder(StringLess)
  {
    forall x, y | StringLess(x, y) ensures !StringLess(y, x) {
      StringLessTotal(x, y);
    }
    forall x, y, z | !StringLess(y, x) && !StringLess(z, y) ensures !StringLess(z, x) {
      StringLessTotal(x, y);
      StringLessTotal(y, z);
      StringLessTotal(x, z);
      if StringLess(z, x) {
        if StringLess(x, y) { StringLessTransitive(z, x, y); }
      }
    }
  }
}
