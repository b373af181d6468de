/** The Python list operations the montage scripts are built from. */
module PyList {

  function Min(a: int, b: int): int
  {
    if a <= b then a else b
  }

  /** `sum(lists, [])`: a left fold of list concatenation, starting at `[]`.
      It neither drops nor duplicates an element. */
  function Sum<T>(lists: seq<seq<T>>): (r: seq<T>)
    ensures |r| == TotalLength(lists)
  {
    if lists == [] then [] else Sum(lists[..|lists| - 1]) + lists[|lists| - 1]
  }

  /** The number of elements over all the lists. */
  function TotalLength<T>(lists: seq<seq<T>>): nat
  {
    if lists == [] then 0 else TotalLength(lists[..|lists| - 1]) + |lists[|lists| - 1]|
  }

  /** `s[lo:hi]` for non-negative bounds: bounds past the end are clamped,
      and `lo >= hi` gives the empty list. */
  function Slice<T>(s: seq<T>, lo: nat, hi: nat): (r: seq<T>)
    ensures |r| == if lo < hi && lo < |s| then Min(hi, |s|) - lo else 0
    ensures forall k :: 0 <= k < |r| ==> r[k] == s[lo + k]
  {
    if lo < hi && lo < |s| then s[lo..Min(hi, |s|)] else []
  }

  /** Adding one more list to the sum appends its elements at the end. */
  lemma SumSnoc<T>(lists: seq<seq<T>>, last: seq<T>)
    ensures Sum(lists + [last]) == Sum(lists) + last
  {
    assert (lists + [last])[..|lists|] == lists;
  }

  /** A prefix slice `s[:k]` is the first `min(k, len(s))` elements. */
  lemma PrefixSlice<T>(s: seq<T>, k: nat)
    ensures Slice(s, 0, k) == s[..Min(k, |s|)]
  {
  }
}
