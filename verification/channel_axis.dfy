/** Choosing the colour/spectral axis of a three-dimensional array (`_infer_channel_axis`) and three
    representative channels out of many (`_select_representative_indices`). */
module ChannelAxis {
  import opened Outcomes
  import opened Seqs
  import opened Text

  /** `_CHANNEL_KEYWORDS`. */
  const ChannelKeywords: seq<string> := ["band", "spectral", "wavelength", "color", "colour", "channel"]

  /** `_SPATIAL_KEYWORDS`. */
  const SpatialKeywords: seq<string> := ["line", "sample", "row", "column", "col", "x", "y"]

  /** The lowered name mentions a channel keyword. */
  predicate ChannelNamed(name: string) {
    ContainsAny(Lower(name), ChannelKeywords)
  }

  /** The lowered name mentions no spatial keyword. The source also tests for a name equal to a
      keyword, which containment already covers. */
  predicate NonSpatialNamed(name: string) {
    !ContainsAny(Lower(name), SpatialKeywords)
  }

  /** A dimension small enough to be colour channels: a size from 1 to 4. */
  predicate SmallDim(size: int) {
    1 <= size <= 4
  }

  /** `_infer_channel_axis(shape, axis_names)`. The rules are tried in turn: the first name with a
      channel keyword, the first name with no spatial keyword, the first dimension of size 1 to 4,
      the first smallest dimension. `None` stands for numpy's `ValueError` on the `argmin` of an
      empty shape. */
  function InferChannelAxis(shape: seq<int>, names: Option<seq<string>>): (r: Option<nat>)
    // Rule 1: a channel keyword decides.
    ensures names.Some? && (exists i :: 0 <= i < |names.value| && ChannelNamed(names.value[i])) ==>
              && r.Some? && r.value < |names.value| && ChannelNamed(names.value[r.value])
              && forall j :: 0 <= j < r.value ==> !ChannelNamed(names.value[j])
    // Rule 2: otherwise the first name that is not spatial.
    ensures names.Some? && (forall i :: 0 <= i < |names.value| ==> !ChannelNamed(names.value[i]))
              && (exists i :: 0 <= i < |names.value| && NonSpatialNamed(names.value[i])) ==>
              && r.Some? && r.value < |names.value| && NonSpatialNamed(names.value[r.value])
              && forall j :: 0 <= j < r.value ==> !NonSpatialNamed(names.value[j])
    // Rules 3 and 4 apply only when no name decided.
    ensures NoNameDecides(names) && (exists i :: 0 <= i < |shape| && SmallDim(shape[i])) ==>
              && r.Some? && r.value < |shape| && SmallDim(shape[r.value])
              && forall j :: 0 <= j < r.value ==> !SmallDim(shape[j])
    ensures NoNameDecides(names) && (forall i :: 0 <= i < |shape| ==> !SmallDim(shape[i])) ==>
              && (r.None? <==> |shape| == 0)
              && (r.Some? ==>
                    && r.value < |shape|
                    && (forall j :: 0 <= j < |shape| ==> shape[r.value] <= shape[j])
                    && (forall j :: 0 <= j < r.value ==> shape[r.value] < shape[j]))
  {
    var byName :=
      if names.Some? then
        match FirstIndex(names.value, ChannelNamed)
        case Some(i) => Some(i)
        case None => FirstIndex(names.value, NonSpatialNamed)
      else None;
    if byName.Some? then byName
    else match FirstIndex(shape, SmallDim)
      case Some(i) => Some(i)
      case None => ArgMin(shape)
  }

  /** Neither name rule picks an axis: there are no names, or every name is spatial and none is a
      channel name. */
  predicate NoNameDecides(names: Option<seq<string>>) {
    names.None? || forall i :: 0 <= i < |names.value| ==> !ChannelNamed(names.value[i]) && !NonSpatialNamed(names.value[i])
  }

  /** Python's `round(m / 2)`, which rounds halves to the even neighbour. */
  function RoundHalf(m: int): (r: int)
    ensures -1 <= 2 * r - m <= 1
    ensures m % 2 == 1 ==> r % 2 == 0
    ensures m % 2 == 0 ==> 2 * r == m
  {
    if m % 2 == 0 then m / 2
    else if (m / 2) % 2 == 0 then m / 2
    else m / 2 + 1
  }

  /** The values of `np.linspace(0, n - 1, num=3)`, each rounded with `round` and clamped to
      `[0, n - 1]`. For the channel counts that occur the middle value `(n - 1) / 2` is exact in
      double precision. */
  function RoundedSpread(n: int): (r: seq<int>)
    ensures |r| == 3
    ensures n >= 1 ==> r == [0, RoundHalf(n - 1), n - 1]
    ensures forall k :: 0 <= k < 3 ==> 0 <= r[k] && (n >= 1 ==> r[k] < n)
  {
    [Clamp(0, n), Clamp(RoundHalf(n - 1), n), Clamp(n - 1, n)]
  }

  /** An index forced into `[0, n - 1]`: the upper bound is applied first, then the lower one, so an
      empty range (`n <= 0`) yields 0. */
  function Clamp(idx: int, n: int): (r: int)
    ensures 0 <= r && (n >= 1 ==> r < n)
    ensures 0 <= idx < n ==> r == idx
    ensures idx < 0 || n <= 0 ==> r == 0
    ensures n >= 1 && idx >= n ==> r == n - 1
  {
    if idx > n - 1 then (if n - 1 < 0 then 0 else n - 1) else if idx < 0 then 0 else idx
  }

  /** The position of the first occurrence of `x` in `s`. */
  function Position(s: seq<int>, x: int): (r: nat)
    requires x in s
    ensures r < |s| && s[r] == x
    ensures forall j :: 0 <= j < r ==> s[j] != x
  {
    if s[0] == x then 0 else Position(s[1..], x) + 1
  }

  /** Each value of `s` is kept once, at its first occurrence, and later repeats are skipped. */
  function Dedup(s: seq<int>): (r: seq<int>)
    ensures NoDups(r)
    ensures forall x :: x in r <==> x in s
    ensures |r| <= |s|
  {
    if |s| == 0 then []
    else
      var prefix := Dedup(s[..|s| - 1]);
      if s[|s| - 1] in prefix then prefix else prefix + [s[|s| - 1]]
  }

  /** A value occurring in a prefix has its first occurrence there. */
  lemma PositionInPrefix(s: seq<int>, n: nat, x: int)
    requires n <= |s| && x in s[..n]
    ensures Position(s[..n], x) == Position(s, x)
  {
    var p := Position(s[..n], x);
    assert s[p] == x;
  }

  /** `Dedup` keeps the values in the order of their first occurrences. */
  lemma {:induction false} DedupKeepsFirstOrder(s: seq<int>)
    ensures forall k, m :: 0 <= k < m < |Dedup(s)| ==> Position(s, Dedup(s)[k]) < Position(s, Dedup(s)[m])
  {
    if |s| > 0 {
      var n := |s| - 1;
      var prefix := Dedup(s[..n]);
      DedupKeepsFirstOrder(s[..n]);
      var r := Dedup(s);
      forall k | 0 <= k < |prefix|
        ensures Position(s, prefix[k]) == Position(s[..n], prefix[k])
      {
        PositionInPrefix(s, n, prefix[k]);
      }
      if s[n] !in prefix {
        assert s[n] !in s[..n];
        assert Position(s, s[n]) == n;
        assert r == prefix + [s[n]];
      }
    }
  }

  /** Unused indices from `i` on are appended in ascending order until there are three. */
  function TopUp(indices: seq<int>, n: int, i: nat): (r: seq<int>)
    requires NoDups(indices)
    ensures NoDups(r) && indices <= r
    ensures forall x :: x in r && x !in indices ==> i <= x < n
    ensures |r| >= 3 || forall x :: i <= x < n ==> x in r
    decreases n - i
  {
    if i >= n then indices
    else
      var next := if i in indices then indices else indices + [i];
      assert i in next;
      if |next| == 3 then next else TopUp(next, n, i + 1)
  }

  /** Started below three, the top-up stops at three. */
  lemma {:induction false} TopUpAtMostThree(indices: seq<int>, n: int, i: nat)
    requires NoDups(indices) && |indices| < 3
    ensures |TopUp(indices, n, i)| <= 3
    decreases n - i
  {
    if i < n {
      var next := if i in indices then indices else indices + [i];
      if |next| != 3 {
        TopUpAtMostThree(next, n, i + 1);
      }
    }
  }

  /** The indices the top-up adds come after the given ones, are new, and are at least `i`. */
  lemma TopUpAdditions(indices: seq<int>, n: int, i: nat)
    requires NoDups(indices)
    ensures var r := TopUp(indices, n, i);
      forall k :: |indices| <= k < |r| ==> r[k] !in indices && i <= r[k] < n
  {
    var r := TopUp(indices, n, i);
    forall k | |indices| <= k < |r|
      ensures r[k] !in indices && i <= r[k] < n
    {
      forall j | 0 <= j < |indices|
        ensures indices[j] != r[k]
      {
        assert indices[j] == r[j];
      }
    }
  }

  /** The indices the top-up adds ascend. */
  lemma {:induction false} TopUpAscends(indices: seq<int>, n: int, i: nat)
    requires NoDups(indices)
    ensures var r := TopUp(indices, n, i);
      forall k, m :: |indices| <= k < m < |r| ==> r[k] < r[m]
    decreases n - i
  {
    if i < n {
      var next := if i in indices then indices else indices + [i];
      var r := TopUp(indices, n, i);
      if |next| != 3 {
        assert r == TopUp(next, n, i + 1);
        TopUpAscends(next, n, i + 1);
        TopUpAdditions(next, n, i + 1);
        if i !in indices {
          assert r[..|next|] == next;
          assert r[|indices|] == i;
        }
      }
    }
  }

  /** No unused index below an added one is skipped: the additions are the smallest unused indices. */
  lemma {:induction false} TopUpSkipsNoUnused(indices: seq<int>, n: int, i: nat)
    requires NoDups(indices)
    ensures var r := TopUp(indices, n, i);
      forall k, y :: |indices| <= k < |r| && i <= y < r[k] && y !in indices ==> y in r
    decreases n - i
  {
    if i < n {
      var next := if i in indices then indices else indices + [i];
      var r := TopUp(indices, n, i);
      if |next| != 3 {
        assert r == TopUp(next, n, i + 1);
        TopUpSkipsNoUnused(next, n, i + 1);
        TopUpAdditions(next, n, i + 1);
        if i !in indices {
          assert r[..|next|] == next;
          assert r[|indices|] == i;
        }
      }
    }
  }

  /** Fewer than three indices are topped up with the smallest unused ones from `0..n-1`; three or
      more are left alone. */
  function FillToThree(indices: seq<int>, n: int): (r: seq<int>)
    requires NoDups(indices)
    ensures |indices| >= 3 ==> r == indices
    ensures NoDups(r) && indices <= r
    ensures forall x :: x in r && x !in indices ==> 0 <= x < n
    ensures |indices| < 3 ==> |r| <= 3 && (|r| == 3 || forall x :: 0 <= x < n ==> x in r)
  {
    if |indices| < 3 then TopUpAtMostThree(indices, n, 0); TopUp(indices, n, 0) else indices
  }

  /** The first three elements, or all of them when there are fewer. */
  function TakeThree(s: seq<int>): (r: seq<int>)
    ensures |r| == if |s| < 3 then |s| else 3
    ensures r <= s
  {
    if |s| <= 3 then s else s[..3]
  }

  /** `_select_representative_indices(channel_count)`. */
  function SelectRepresentativeIndices(n: int): (r: seq<int>)
    ensures n <= 3 ==> |r| == (if n < 0 then 0 else n) && forall i :: 0 <= i < |r| ==> r[i] == i
    ensures n > 3 ==> r == [0, RoundHalf(n - 1), n - 1]
    ensures n > 3 ==> 0 < r[1] < n - 1
    ensures NoDups(r) && forall i :: 0 <= i < |r| ==> 0 <= r[i] < n
  {
    if n <= 3 then seq(if n < 0 then 0 else n, i => i)
    else
      var spread := RoundedSpread(n);
      var m := RoundHalf(n - 1);
      assert spread == [0, m, n - 1] && 0 < m < n - 1;
      assert spread[..1] == [0] && spread[..2] == [0, m] && spread[..2][..1] == [0];
      assert Dedup([0]) == [0];
      assert Dedup([0, m]) == [0, m];
      var indices := Dedup(spread);
      assert indices == [0, m, n - 1];
      TakeThree(FillToThree(indices, n))
  }
}
