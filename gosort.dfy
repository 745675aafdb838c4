// sort.Strings: sorts a slice of strings in place, in increasing byte-wise order.
// The model is an insertion sort over an array; what it promises (sorted, and a
// permutation of what was there) is what sort.Strings promises.

module GoSort {
  import opened GoStd

  predicate Sorted(s: seq<string>)
  {
    forall i, j :: 0 <= i < j < |s| ==> StrLe(s[i], s[j])
  }

  /** The first n elements of the array are in order. */
  ghost predicate SortedPrefix(a: array<string>, n: nat)
    reads a
  {
    forall p, q :: 0 <= p < q < n && q < a.Length ==> StrLe(a[p], a[q])
  }

  method SortStrings(a: array<string>)
    modifies a
    ensures Sorted(a[..])
    ensures multiset(a[..]) == old(multiset(a[..]))
  {
    var i := 0;
    while i < a.Length
      invariant 0 <= i <= a.Length
      invariant SortedPrefix(a, i)
      invariant multiset(a[..]) == old(multiset(a[..]))
    {
      InsertLast(a, i);
      i := i + 1;
    }
  }

  /** Moves a[i] down into the sorted prefix before it. */
  method InsertLast(a: array<string>, i: nat)
    requires i < a.Length && SortedPrefix(a, i)
    modifies a
    ensures SortedPrefix(a, i + 1)
    ensures multiset(a[..]) == old(multiset(a[..]))
  {
    var j := i;
    while j > 0 && !StrLe(a[j - 1], a[j])
      invariant 0 <= j <= i
      invariant forall p, q :: 0 <= p < q <= i && p != j && q != j ==> StrLe(a[p], a[q])
      invariant forall q :: j < q <= i ==> StrLe(a[j], a[q])
      invariant 0 < j < i ==> StrLe(a[j - 1], a[j + 1])
      invariant multiset(a[..]) == old(multiset(a[..]))
    {
      StrLeTotal(a[j - 1], a[j]);
      a[j - 1], a[j] := a[j], a[j - 1];
      j := j - 1;
    }
    forall p | 0 <= p < j ensures StrLe(a[p], a[j]) {
      if p < j - 1 {
        StrLeTransitive(a[p], a[j - 1], a[j]);
      }
    }
  }
}
