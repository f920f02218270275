/** Sorting and adjacent deduplication, as `Vec::sort` followed by `Vec::dedup`
    perform them, over any total order. */
module Ordering {
  import opened Collections

  /** Any two elements compare, and comparisons chain; distinct elements may tie. */
  ghost predicate TotalPreorder<T(!new)>(le: (T, T) -> bool) {
    && (forall x, y :: le(x, y) || le(y, x))
    && (forall x, y, z :: le(x, y) && le(y, z) ==> le(x, z))
  }

  ghost predicate TotalOrder<T(!new)>(le: (T, T) -> bool) {
    TotalPreorder(le) && forall x, y :: le(x, y) && le(y, x) ==> x == y
  }

  ghost predicate Sorted<T>(le: (T, T) -> bool, items: seq<T>) {
    forall i, j :: 0 <= i < j < |items| ==> le(items[i], items[j])
  }

  ghost predicate StrictlySorted<T>(le: (T, T) -> bool, items: seq<T>) {
    forall i, j :: 0 <= i < j < |items| ==> le(items[i], items[j]) && items[i] != items[j]
  }

  function Insert<T>(le: (T, T) -> bool, x: T, items: seq<T>): seq<T> {
    if items == [] || le(x, items[0]) then [x] + items
    else [items[0]] + Insert(le, x, items[1..])
  }

  function Sort<T>(le: (T, T) -> bool, items: seq<T>): seq<T> {
    if items == [] then [] else Insert(le, items[0], Sort(le, items[1..]))
  }

  /** Drops every element equal to its predecessor. */
  function Dedup<T(==)>(items: seq<T>): (d: seq<T>)
    ensures |d| <= |items|
    ensures items != [] ==> d != [] && d[0] == items[0]
  {
    if |items| <= 1 then items
    else if items[0] == items[1] then Dedup(items[1..])
    else [items[0]] + Dedup(items[1..])
  }

  lemma {:induction false} InsertAdds<T>(le: (T, T) -> bool, x: T, items: seq<T>)
    ensures multiset(Insert(le, x, items)) == multiset(items) + multiset{x}
  {
    if items != [] && !le(x, items[0]) {
      InsertAdds(le, x, items[1..]);
      assert items == [items[0]] + items[1..];
    }
  }

  /** Sorting permutes, whatever the comparison. */
  lemma {:induction false} SortPermutes<T>(le: (T, T) -> bool, items: seq<T>)
    ensures multiset(Sort(le, items)) == multiset(items)
  {
    if items != [] {
      SortPermutes(le, items[1..]);
      InsertAdds(le, items[0], Sort(le, items[1..]));
      assert items == [items[0]] + items[1..];
    }
  }

  lemma {:induction false} InsertSorts<T(!new)>(le: (T, T) -> bool, x: T, items: seq<T>)
    requires TotalPreorder(le) && Sorted(le, items)
    ensures Sorted(le, Insert(le, x, items))
  {
    if items != [] && !le(x, items[0]) {
      var tail := items[1..];
      InsertSorts(le, x, tail);
      InsertAdds(le, x, tail);
      assert items == [items[0]] + tail;
      var rest := Insert(le, x, tail);
      forall i | 0 <= i < |rest| ensures le(items[0], rest[i]) {
        assert rest[i] in multiset(rest);
        assert rest[i] in tail || rest[i] == x;
      }
    }
  }

  lemma {:induction false} SortSorts<T(!new)>(le: (T, T) -> bool, items: seq<T>)
    requires TotalPreorder(le)
    ensures Sorted(le, Sort(le, items)) && multiset(Sort(le, items)) == multiset(items)
  {
    SortPermutes(le, items);
    if items != [] {
      SortSorts(le, items[1..]);
      InsertSorts(le, items[0], Sort(le, items[1..]));
    }
  }

  lemma {:induction false} DedupOfSorted<T(!new)>(le: (T, T) -> bool, items: seq<T>)
    requires TotalOrder(le) && Sorted(le, items)
    ensures StrictlySorted(le, Dedup(items))
    ensures forall x :: x in Dedup(items) <==> x in items
    ensures |Dedup(items)| == |items| <==> NoDuplicates(items)
  {
    if |items| > 1 {
      var tail := items[1..];
      DedupOfSorted(le, tail);
      assert items == [items[0]] + tail;
      if items[0] == items[1] {
      } else {
        var d := Dedup(tail);
        forall j | 0 <= j < |d| ensures le(items[0], d[j]) && items[0] != d[j] {
          assert d[j] in tail;
          var k :| 0 <= k < |tail| && tail[k] == d[j];
          assert le(tail[0], tail[k]) || k == 0;
        }
        if NoDuplicates(tail) {
          forall j | 0 <= j < |tail| ensures items[0] != tail[j] {
            assert le(tail[0], tail[j]) || j == 0;
          }
        }
      }
    }
  }

  function SortDedup<T(==)>(le: (T, T) -> bool, items: seq<T>): seq<T> {
    Dedup(Sort(le, items))
  }

  lemma SameMultisetSameDuplicates<T>(a: seq<T>, b: seq<T>)
    requires multiset(a) == multiset(b) && NoDuplicates(a)
    ensures NoDuplicates(b)
  {
    forall i, j | 0 <= i < j < |b| ensures b[i] != b[j] {
      if b[i] == b[j] {
        assert b == b[..i] + [b[i]] + b[i + 1..j] + [b[j]] + b[j + 1..];
        assert multiset(b)[b[i]] >= 2;
        OccursOnce(a, b[i]);
      }
    }
  }

  lemma {:induction false} OccursOnce<T>(a: seq<T>, x: T)
    requires NoDuplicates(a)
    ensures multiset(a)[x] <= 1
  {
    if a != [] {
      assert a == [a[0]] + a[1..];
      OccursOnce(a[1..], x);
      if x == a[0] {
        assert x !in a[1..];
      }
    }
  }

  /** Sort-and-dedup yields the strictly sorted list of the elements, and loses
      length exactly when an element was repeated. */
  lemma SortDedupSpec<T(!new)>(le: (T, T) -> bool, items: seq<T>)
    requires TotalOrder(le)
    ensures StrictlySorted(le, SortDedup(le, items))
    ensures forall x :: x in SortDedup(le, items) <==> x in items
    ensures |SortDedup(le, items)| == |items| <==> NoDuplicates(items)
  {
    SortSorts(le, items);
    var sorted := Sort(le, items);
    DedupOfSorted(le, sorted);
    forall x ensures x in sorted <==> x in items {
      assert x in multiset(sorted) <==> x in multiset(items);
    }
    assert |sorted| == |multiset(sorted)| == |items|;
    if NoDuplicates(items) { SameMultisetSameDuplicates(items, sorted); }
    if NoDuplicates(sorted) { SameMultisetSameDuplicates(sorted, items); }
  }

  /** A strictly sorted list is determined by its elements. */
  lemma {:induction false} StrictlySortedUnique<T(!new)>(le: (T, T) -> bool, a: seq<T>, b: seq<T>)
    requires TotalOrder(le) && StrictlySorted(le, a) && StrictlySorted(le, b)
    requires forall x :: x in a <==> x in b
    ensures a == b
  {
    assert b != [] ==> b[0] in b;
    if a != [] {
      assert a[0] in b && b[0] in a;
      assert a[0] == b[0];
      forall x ensures x in a[1..] <==> x in b[1..] {
        assert x in a <==> x == a[0] || x in a[1..];
        assert x in b <==> x == b[0] || x in b[1..];
      }
      StrictlySortedUnique(le, a[1..], b[1..]);
      assert a == [a[0]] + a[1..] && b == [b[0]] + b[1..];
    }
  }

  /** Comparison of strings, first difference first. */
  predicate LexAtMost(a: string, b: string) {
    a == [] || (b != [] && (a[0] < b[0] || (a[0] == b[0] && LexAtMost(a[1..], b[1..]))))
  }

  lemma {:induction false} LexTotal(a: string, b: string)
    ensures LexAtMost(a, b) || LexAtMost(b, a)
    ensures LexAtMost(a, b) && LexAtMost(b, a) ==> a == b
  {
    if a != [] && b != [] {
      LexTotal(a[1..], b[1..]);
      assert a == [a[0]] + a[1..] && b == [b[0]] + b[1..];
    }
  }

  lemma {:induction false} LexTransitive(a: string, b: string, c: string)
    requires LexAtMost(a, b) && LexAtMost(b, c)
    ensures LexAtMost(a, c)
  {
    if a != [] && b[0] == a[0] && c[0] == a[0] {
      LexTransitive(a[1..], b[1..], c[1..]);
    }
  }

  lemma LexIsTotalOrder()
    ensures TotalOrder(LexAtMost)
  {
    forall a, b ensures (LexAtMost(a, b) || LexAtMost(b, a)) && (LexAtMost(a, b) && LexAtMost(b, a) ==> a == b) {
      LexTotal(a, b);
    }
    forall a, b, c | LexAtMost(a, b) && LexAtMost(b, c) ensures LexAtMost(a, c) {
      LexTransitive(a, b, c);
    }
  }
}
