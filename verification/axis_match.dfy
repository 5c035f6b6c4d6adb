/** `_match_axis_order`: reorder a label's axis names so that the known axis lengths agree with the
    shape numpy reports for the data. The Python code walks `itertools.permutations` in its
    lexicographic order and returns the first permutation that fits; the model searches depth-first,
    pruning a partial permutation as soon as one position disagrees, and the lemmas below prove that
    this finds exactly that first fitting permutation. */
module AxisMatch {
  import opened Outcomes

  /** One axis of a label: its name and, when the label gives a parseable `elements`, its length. */
  datatype Axis = Axis(name: string, length: Option<int>)

  /** A known length must equal the dimension it is placed at; an unknown length fits anywhere. */
  predicate Compatible(length: Option<int>, dim: int) {
    length.None? || length.value == dim
  }

  /** `p` lists each of `0..n-1` exactly once. */
  ghost predicate IsPermutation(p: seq<nat>, n: nat) {
    && |p| == n
    && (forall d :: 0 <= d < |p| ==> p[d] < n)
    && (forall d, e :: 0 <= d < e < |p| ==> p[d] != p[e])
  }

  /** Putting axis `p[d]` at dimension `d`, for every `d`, agrees with `target`. */
  ghost predicate Fits(axes: seq<Axis>, target: seq<int>, p: seq<nat>)
    requires |axes| == |target|
  {
    && IsPermutation(p, |axes|)
    && forall d :: 0 <= d < |p| ==> Compatible(axes[p[d]].length, target[d])
  }

  /** A prefix of a fitting permutation: distinct axes, each compatible with its dimension. */
  ghost predicate PartialFit(axes: seq<Axis>, target: seq<int>, prefix: seq<nat>)
    requires |axes| == |target|
  {
    && |prefix| <= |axes|
    && (forall d :: 0 <= d < |prefix| ==> prefix[d] < |axes|)
    && (forall d, e :: 0 <= d < e < |prefix| ==> prefix[d] != prefix[e])
    && forall d :: 0 <= d < |prefix| ==> Compatible(axes[prefix[d]].length, target[d])
  }

  /** Lexicographic order on index sequences of one length, the order `itertools.permutations`
      produces its results in. */
  ghost predicate LexLe(a: seq<nat>, b: seq<nat>) {
    a == b || exists k :: 0 <= k < |a| && k < |b| && a[..k] == b[..k] && a[k] < b[k]
  }

  /** The first fitting permutation that extends `prefix`, if any. */
  function Search(axes: seq<Axis>, target: seq<int>, prefix: seq<nat>): (r: Option<seq<nat>>)
    requires |axes| == |target| && |prefix| <= |axes|
    ensures r.Some? ==> prefix <= r.value && |r.value| == |axes|
    decreases |axes| - |prefix|, |axes| + 1
  {
    if |prefix| == |axes| then Some(prefix) else TryFrom(axes, target, prefix, 0)
  }

  /** The first fitting permutation extending `prefix` whose next axis is `i` or later. */
  function TryFrom(axes: seq<Axis>, target: seq<int>, prefix: seq<nat>, i: nat): (r: Option<seq<nat>>)
    requires |axes| == |target| && |prefix| < |axes| && i <= |axes|
    ensures r.Some? ==> prefix <= r.value && |r.value| == |axes| && i <= r.value[|prefix|] < |axes|
    decreases |axes| - |prefix|, |axes| - i
  {
    if i == |axes| then None
    else if i !in prefix && Compatible(axes[i].length, target[|prefix|]) then
      var found := Search(axes, target, prefix + [i]);
      if found.Some? then found else TryFrom(axes, target, prefix, i + 1)
    else TryFrom(axes, target, prefix, i + 1)
  }

  /** What `Search` finds extends `prefix` and fits. */
  lemma {:induction false} SearchSound(axes: seq<Axis>, target: seq<int>, prefix: seq<nat>)
    requires |axes| == |target| && PartialFit(axes, target, prefix)
    ensures var r := Search(axes, target, prefix);
      r.Some? ==> prefix <= r.value && Fits(axes, target, r.value)
    decreases |axes| - |prefix|, |axes| + 1
  {
    if |prefix| < |axes| {
      TryFromSound(axes, target, prefix, 0);
    }
  }

  /** What `TryFrom` finds extends `prefix`, fits, and continues with `i` or a later axis. */
  lemma {:induction false} TryFromSound(axes: seq<Axis>, target: seq<int>, prefix: seq<nat>, i: nat)
    requires |axes| == |target| && PartialFit(axes, target, prefix)
    requires |prefix| < |axes| && i <= |axes|
    ensures var r := TryFrom(axes, target, prefix, i);
      r.Some? ==> prefix <= r.value && Fits(axes, target, r.value) && r.value[|prefix|] >= i
    decreases |axes| - |prefix|, |axes| - i
  {
    if i < |axes| {
      if i !in prefix && Compatible(axes[i].length, target[|prefix|]) {
        var next := prefix + [i];
        SearchSound(axes, target, next);
        if Search(axes, target, next).Some? {
          assert next[|prefix|] == i;
          return;
        }
      }
      TryFromSound(axes, target, prefix, i + 1);
    }
  }

  /** What `Search` finds is at most every fit extending `prefix`; when it finds nothing, no fit
      extends `prefix`. */
  lemma {:induction false} SearchLeast(axes: seq<Axis>, target: seq<int>, prefix: seq<nat>)
    requires |axes| == |target| && |prefix| <= |axes|
    ensures var r := Search(axes, target, prefix);
      && (r.Some? ==> forall q :: Fits(axes, target, q) && prefix <= q ==> LexLe(r.value, q))
      && (r.None? ==> forall q :: Fits(axes, target, q) ==> !(prefix <= q))
    decreases |axes| - |prefix|, |axes| + 1
  {
    if |prefix| == |axes| {
      forall q | Fits(axes, target, q) && prefix <= q
        ensures LexLe(prefix, q)
      {
        assert q == prefix;
      }
    } else {
      TryFromLeast(axes, target, prefix, 0);
    }
  }

  /** What `TryFrom` finds is at most every fit extending `prefix` whose next axis is `i` or later;
      when it finds nothing, every fit extending `prefix` continues with an axis before `i`. */
  lemma {:induction false} TryFromLeast(axes: seq<Axis>, target: seq<int>, prefix: seq<nat>, i: nat)
    requires |axes| == |target| && |prefix| < |axes| && i <= |axes|
    ensures var r := TryFrom(axes, target, prefix, i);
      && (r.Some? ==> forall q :: Fits(axes, target, q) && prefix <= q && q[|prefix|] >= i ==> LexLe(r.value, q))
      && (r.None? ==> forall q :: Fits(axes, target, q) && prefix <= q ==> q[|prefix|] < i)
    decreases |axes| - |prefix|, |axes| - i
  {
    var k := |prefix|;
    if i == |axes| {
      return;
    }
    var ok := i !in prefix && Compatible(axes[i].length, target[k]);
    // A fitting permutation that extends `prefix` with `i` next shows that `i` is a candidate.
    forall q | Fits(axes, target, q) && prefix <= q && q[k] == i
      ensures ok
    {
    }
    if ok {
      var next := prefix + [i];
      SearchLeast(axes, target, next);
      var found := Search(axes, target, next);
      if found.Some? {
        assert TryFrom(axes, target, prefix, i) == found;
        FirstWithNextIsLeast(axes, target, prefix, i, found.value);
      } else {
        assert TryFrom(axes, target, prefix, i) == TryFrom(axes, target, prefix, i + 1);
        PrefixThroughNext(prefix, i);
        TryFromLeast(axes, target, prefix, i + 1);
      }
    } else {
      assert TryFrom(axes, target, prefix, i) == TryFrom(axes, target, prefix, i + 1);
      TryFromLeast(axes, target, prefix, i + 1);
    }
  }

  /** A sequence that extends `prefix` and continues with `i` extends `prefix + [i]`. */
  lemma PrefixThroughNext(prefix: seq<nat>, i: nat)
    ensures forall q: seq<nat> :: prefix <= q && |prefix| < |q| && q[|prefix|] == i ==> prefix + [i] <= q
  {
    forall q: seq<nat> | prefix <= q && |prefix| < |q| && q[|prefix|] == i
      ensures prefix + [i] <= q
    {
      assert q[..|prefix| + 1] == prefix + [i];
    }
  }

  /** `Search` from the empty prefix finds exactly the lexicographically first fitting permutation,
      and finds nothing only when no permutation fits. */
  lemma SearchIsFirstFit(axes: seq<Axis>, target: seq<int>)
    requires |axes| == |target|
    ensures var r := Search(axes, target, []);
      && (r.Some? ==> Fits(axes, target, r.value) && forall q :: Fits(axes, target, q) ==> LexLe(r.value, q))
      && (r.None? ==> forall q :: !Fits(axes, target, q))
  {
    SearchSound(axes, target, []);
    SearchLeast(axes, target, []);
  }

  /** The least fit extending `prefix + [i]` is also at most every fit extending `prefix` whose next
      value is `i` or later. */
  lemma FirstWithNextIsLeast(axes: seq<Axis>, target: seq<int>, prefix: seq<nat>, i: nat, found: seq<nat>)
    requires |axes| == |target| && |prefix| < |axes| && i < |axes|
    requires prefix + [i] <= found
    requires forall q :: Fits(axes, target, q) && prefix + [i] <= q ==> LexLe(found, q)
    ensures forall q :: Fits(axes, target, q) && prefix <= q && q[|prefix|] >= i ==> LexLe(found, q)
  {
    var k := |prefix|;
    forall q | Fits(axes, target, q) && prefix <= q && q[k] >= i
      ensures LexLe(found, q)
    {
      if q[k] == i {
        assert prefix + [i] <= q;
      } else {
        assert found[..k] == q[..k];
      }
    }
  }

  /** `_match_axis_order(names, lengths, target_shape)`: `None` when the counts differ or no
      permutation fits, else the names in the order of the first fitting permutation. */
  function MatchAxisOrder(axes: seq<Axis>, target: seq<int>): (r: Option<seq<string>>)
    ensures |axes| != |target| ==> r.None?
    ensures r.None? && |axes| == |target| ==> forall p :: !Fits(axes, target, p)
    ensures r.Some? ==> |axes| == |target| && exists p ::
              && Fits(axes, target, p)
              && (forall q :: Fits(axes, target, q) ==> LexLe(p, q))
              && r.value == seq(|p|, d requires 0 <= d < |p| => axes[p[d]].name)
  {
    if |axes| != |target| then None
    else
      SearchIsFirstFit(axes, target);
      match Search(axes, target, [])
      case None => None
      case Some(p) => Some(seq(|p|, d requires 0 <= d < |p| => axes[p[d]].name))
  }

  /** A permutation that agrees with the identity below `k` holds at `k` a value of at least `k`:
      every smaller value is already used. */
  lemma {:induction false} IdentityPrefixForcesUpper(p: seq<nat>, n: nat, k: nat)
    requires IsPermutation(p, n) && k < n
    requires forall j :: 0 <= j < k ==> p[j] == j
    ensures p[k] >= k
  {
    // Were `p[k] < k`, position `p[k]` would already hold the value `p[k]`.
    var v := p[k];
    var atV := p[v];
  }

  /** No permutation other than the identity is lexicographically at most the identity. */
  lemma {:induction false} IdentityIsLeast(p: seq<nat>, n: nat)
    requires IsPermutation(p, n)
    requires LexLe(p, seq(n, d requires 0 <= d < n => d))
    ensures p == seq(n, d requires 0 <= d < n => d)
  {
    var id: seq<nat> := seq(n, d requires 0 <= d < n => d);
    if p != id {
      var k :| 0 <= k < |p| && k < |id| && p[..k] == id[..k] && p[k] < id[k];
      IdentityPrefixForcesUpper(p, n, k);
      assert false;
    }
  }

  /** The order the label gives is kept whenever it already fits: the identity permutation is the
      first one `itertools.permutations` yields. */
  lemma IdentityOrderWins(axes: seq<Axis>, target: seq<int>)
    requires |axes| == |target|
    requires forall d :: 0 <= d < |axes| ==> Compatible(axes[d].length, target[d])
    ensures MatchAxisOrder(axes, target) == Some(seq(|axes|, d requires 0 <= d < |axes| => axes[d].name))
  {
    var n := |axes|;
    var id: seq<nat> := seq(n, d requires 0 <= d < n => d);
    assert Fits(axes, target, id);
    SearchIsFirstFit(axes, target);
    var p := Search(axes, target, []).value;
    IdentityIsLeast(p, n);
    assert seq(|p|, d requires 0 <= d < |p| => axes[p[d]].name) == seq(n, d requires 0 <= d < n => axes[d].name);
  }
}
