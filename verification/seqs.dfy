/** Small sequence operations shared by the viewer's array-interpretation rules. */
module Seqs {
  import opened Outcomes

  /** No element occurs twice. */
  predicate NoDups<T(==)>(s: seq<T>) {
    forall i, j :: 0 <= i < j < |s| ==> s[i] != s[j]
  }

  /** Python's `list.pop(i)`: the list without its element at position `i`. */
  function RemoveAt<T>(s: seq<T>, i: nat): (r: seq<T>)
    requires i < |s|
    ensures |r| == |s| - 1
    ensures forall k :: 0 <= k < |r| ==> r[k] == (if k < i then s[k] else s[k + 1])
  {
    s[..i] + s[i + 1..]
  }

  /** Index of the first element satisfying `p`, where a loop over the positions that returns at the
      first match stops; `None` when no element does. */
  function FirstIndex<T>(s: seq<T>, p: T -> bool): (r: Option<nat>)
    ensures r.Some? ==> r.value < |s| && p(s[r.value])
    ensures r.Some? ==> forall j :: 0 <= j < r.value ==> !p(s[j])
    ensures r.None? <==> forall j :: 0 <= j < |s| ==> !p(s[j])
  {
    if |s| == 0 then None
    else if p(s[0]) then Some(0)
    else match FirstIndex(s[1..], p)
      case None => None
      case Some(k) => Some(k + 1)
  }

  /** numpy's `argmin`: the first position of the smallest element; `None` for an empty sequence,
      where numpy raises `ValueError`. */
  function ArgMin(s: seq<int>): (r: Option<nat>)
    ensures r.None? <==> |s| == 0
    ensures r.Some? ==> r.value < |s|
    ensures r.Some? ==> forall j :: 0 <= j < |s| ==> s[r.value] <= s[j]
    ensures r.Some? ==> forall j :: 0 <= j < r.value ==> s[r.value] < s[j]
  {
    if |s| == 0 then None
    else match ArgMin(s[1..])
      case None => Some(0)
      case Some(k) => if s[0] <= s[k + 1] then Some(0) else Some(k + 1)
  }

  /** The head and tail of a concatenation whose first part is not empty. */
  lemma TailOfConcat<T>(a: seq<T>, b: seq<T>)
    requires |a| > 0
    ensures (a + b)[0] == a[0] && (a + b)[1..] == a[1..] + b
  {
  }

  /** Concatenation is associative. */
  lemma ConcatAssoc<T>(x: seq<T>, y: seq<T>, z: seq<T>)
    ensures (x + y) + z == x + (y + z)
  {
  }
}
