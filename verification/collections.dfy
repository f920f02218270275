/** Sequence vocabulary shared by the model. */
module Collections {

  function Before<T>(items: seq<T>): seq<T>
    requires items != []
  {
    items[..|items| - 1]
  }

  function Last<T>(items: seq<T>): T
    requires items != []
  {
    items[|items| - 1]
  }

  function FirstN<T>(items: seq<T>, n: nat): seq<T> {
    if |items| <= n then items else items[..n]
  }

  function LastN<T>(items: seq<T>, n: nat): seq<T> {
    if |items| <= n then items else items[|items| - n..]
  }

  ghost predicate NoDuplicates<T>(items: seq<T>) {
    forall i, j :: 0 <= i < j < |items| ==> items[i] != items[j]
  }

  /** Each element at its first occurrence, in order of first occurrence. */
  function Distinct<T(==,!new)>(items: seq<T>): (d: seq<T>)
    ensures NoDuplicates(d)
    ensures forall x :: x in d <==> x in items
  {
    if items == [] then []
    else
      var d := Distinct(Before(items));
      assert items == Before(items) + [Last(items)];
      if Last(items) in d then d else d + [Last(items)]
  }

  /** The position of the first occurrence. */
  function FirstIndex<T(==)>(items: seq<T>, x: T): (i: nat)
    requires x in items
    ensures i < |items| && items[i] == x && x !in items[..i]
  {
    if items[0] == x then 0
    else
      var i := FirstIndex(items[1..], x);
      assert items[..i + 1] == [items[0]] + items[1..][..i];
      i + 1
  }

  lemma FirstIndexOfPrefix<T>(items: seq<T>, x: T, y: T)
    requires x in items
    ensures FirstIndex(items + [y], x) == FirstIndex(items, x)
  {
    var i, j := FirstIndex(items, x), FirstIndex(items + [y], x);
    assert (items + [y])[i] == x;
  }

  /** `Distinct` keeps first occurrences in their order. */
  lemma {:induction false} DistinctInFirstOccurrenceOrder<T(!new)>(items: seq<T>)
    ensures forall i, j :: 0 <= i < j < |Distinct(items)| ==>
              FirstIndex(items, Distinct(items)[i]) < FirstIndex(items, Distinct(items)[j])
  {
    if items != [] {
      var prefix, x := Before(items), Last(items);
      DistinctInFirstOccurrenceOrder(prefix);
      assert items == prefix + [x];
      forall y | y in prefix ensures FirstIndex(items, y) == FirstIndex(prefix, y) {
        FirstIndexOfPrefix(prefix, y, x);
      }
      if x !in prefix {
        assert FirstIndex(items, x) == |prefix|;
      }
      forall i, j | 0 <= i < j < |Distinct(items)|
        ensures FirstIndex(items, Distinct(items)[i]) < FirstIndex(items, Distinct(items)[j])
      {
        assert Distinct(items)[i] in prefix by { assert Distinct(items)[i] == Distinct(prefix)[i]; }
      }
    }
  }

  /** A duplicate-free list of elements of another list is no longer than it. */
  lemma {:induction false} DistinctSublistIsShorter<T>(items: seq<T>, within: seq<T>)
    requires NoDuplicates(items) && forall i :: 0 <= i < |items| ==> items[i] in within
    ensures |items| <= |within|
  {
    if items != [] {
      var x := Last(items);
      var k :| 0 <= k < |within| && within[k] == x;
      var others := within[..k] + within[k + 1..];
      forall i | 0 <= i < |items| - 1 ensures Before(items)[i] in others {
        var m :| 0 <= m < |within| && within[m] == items[i];
        assert others[if m < k then m else m - 1] == items[i];
      }
      DistinctSublistIsShorter(Before(items), others);
    }
  }
}
