/** `prepare_display_array` and `array_to_image` on array shapes and axis names: which axes survive,
    which one holds the channels, which channels are shown and in which PIL mode. Pixel values and
    their scaling are not modelled. */
module Display {
  import opened Outcomes
  import opened Seqs
  import opened ChannelAxis

  /** The PIL image modes the viewer produces. */
  datatype Mode = L | RGB | RGBA

  /** The errors numpy raises on the way. */
  datatype DisplayError =
    | EmptyLeadingAxis  // indexing the first element of a leading axis of length 0 while dropping it
    | EmptyArgMin       // `np.argmin` of the empty shape left after squeezing an all-ones array
    | NothingToStack    // `np.stack` of an empty channel list, when the channel axis has length 0
    | UnsupportedRank   // `array_to_image` on an array that is neither 2- nor 3-dimensional

  /** The `info` dictionary of `prepare_display_array`, plus the shape of the returned array. */
  datatype DisplayInfo = DisplayInfo(
    effectiveNames: Option<seq<string>>,
    channelAxisIndex: Option<nat>,
    channelAxisName: Option<string>,
    channelCount: nat,
    displayChannels: seq<nat>,
    mode: Mode,
    displayShape: seq<nat>)

  /** `squeeze_axes`: the positions of the size-1 dimensions, ascending. */
  function UnitAxes(shape: seq<nat>): (r: seq<nat>)
    ensures forall k :: 0 <= k < |r| ==> r[k] < |shape| && shape[r[k]] == 1
    ensures forall k, m :: 0 <= k < m < |r| ==> r[k] < r[m]
  {
    if |shape| == 0 then []
    else
      var init := UnitAxes(shape[..|shape| - 1]);
      if shape[|shape| - 1] == 1 then init + [|shape| - 1] else init
  }

  /** Every size-1 dimension is listed among the squeezed axes. */
  lemma {:induction false} UnitAxesComplete(shape: seq<nat>)
    ensures forall i :: 0 <= i < |shape| && shape[i] == 1 ==> i in UnitAxes(shape)
  {
    if |shape| > 0 {
      var n := |shape| - 1;
      UnitAxesComplete(shape[..n]);
      var init := UnitAxes(shape[..n]);
      assert forall x :: x in init ==> x in UnitAxes(shape);
      forall i | 0 <= i < n && shape[i] == 1
        ensures i in UnitAxes(shape)
      {
        assert shape[..n][i] == 1;
      }
    }
  }

  /** The elements of `s` at the positions where `shape` is not 1: what `np.squeeze` keeps. */
  function KeepNonUnit<T>(s: seq<T>, shape: seq<nat>): (r: seq<T>)
    requires |s| == |shape|
    ensures |r| == NonUnitCount(shape)
  {
    if |shape| == 0 then []
    else
      var n := |shape| - 1;
      KeepNonUnit(s[..n], shape[..n]) + (if shape[n] == 1 then [] else [s[n]])
  }

  /** How many dimensions differ from 1. */
  function NonUnitCount(shape: seq<nat>): (r: nat)
    ensures r == 0 <==> forall i :: 0 <= i < |shape| ==> shape[i] == 1
  {
    if |shape| == 0 then 0
    else NonUnitCount(shape[..|shape| - 1]) + (if shape[|shape| - 1] == 1 then 0 else 1)
  }

  /** Remove the names at the given ascending positions, the highest position first, so that each
      removal leaves the positions still to be removed unchanged. */
  function PopAll<T>(names: seq<T>, axes: seq<nat>): (r: seq<T>)
    requires forall k :: 0 <= k < |axes| ==> axes[k] < |names|
    requires forall k, m :: 0 <= k < m < |axes| ==> axes[k] < axes[m]
    ensures |r| == |names| - |axes|
  {
    if |axes| == 0 then names
    else
      var last := axes[|axes| - 1];
      PopAll(RemoveAt(names, last), axes[..|axes| - 1])
  }

  lemma {:induction false} PopAllAppend<T>(a: seq<T>, b: seq<T>, axes: seq<nat>)
    requires forall k :: 0 <= k < |axes| ==> axes[k] < |a|
    requires forall k, m :: 0 <= k < m < |axes| ==> axes[k] < axes[m]
    ensures PopAll(a + b, axes) == PopAll(a, axes) + b
  {
    if |axes| > 0 {
      var last := axes[|axes| - 1];
      assert RemoveAt(a + b, last) == RemoveAt(a, last) + b;
      PopAllAppend(RemoveAt(a, last), b, axes[..|axes| - 1]);
    }
  }

  /** Popping the squeezed axes from the back, as the viewer does, leaves exactly the names of the
      dimensions `np.squeeze` keeps, in order: every name stays with its dimension. */
  lemma {:induction false} PopSqueezedKeepsNonUnit<T>(names: seq<T>, shape: seq<nat>)
    requires |names| == |shape|
    ensures PopAll(names, UnitAxes(shape)) == KeepNonUnit(names, shape)
  {
    if |shape| > 0 {
      var n := |shape| - 1;
      PopSqueezedKeepsNonUnit(names[..n], shape[..n]);
      if shape[n] == 1 {
        PopLastUnit(names, shape);
      } else {
        var init := UnitAxes(shape[..n]);
        assert UnitAxes(shape) == init;
        PopAllKeepsTail(names, n, init);
        KeepNonUnitLastKept(names, shape);
      }
    }
  }

  /** Step of the induction when the last dimension has size 1: it is popped first. */
  lemma PopLastUnit<T>(names: seq<T>, shape: seq<nat>)
    requires |names| == |shape| > 0 && shape[|shape| - 1] == 1
    requires var n := |shape| - 1;
      PopAll(names[..n], UnitAxes(shape[..n])) == KeepNonUnit(names[..n], shape[..n])
    ensures PopAll(names, UnitAxes(shape)) == KeepNonUnit(names, shape)
  {
    var n := |shape| - 1;
    var init := UnitAxes(shape[..n]);
    var axes := init + [n];
    assert UnitAxes(shape) == axes;
    assert axes[..|axes| - 1] == init;
    assert RemoveAt(names, n) == names[..n];
  }

  /** A last dimension that is kept contributes its own element after the others. */
  lemma KeepNonUnitLastKept<T>(names: seq<T>, shape: seq<nat>)
    requires |names| == |shape| > 0 && shape[|shape| - 1] != 1
    ensures var n := |shape| - 1; KeepNonUnit(names, shape) == KeepNonUnit(names[..n], shape[..n]) + names[n..]
  {
    var n := |shape| - 1;
    assert names[n..] == [names[n]];
  }

  /** Pops that all fall before position `n` leave the tail from `n` on untouched. */
  lemma PopAllKeepsTail<T>(names: seq<T>, n: nat, axes: seq<nat>)
    requires n <= |names|
    requires forall k :: 0 <= k < |axes| ==> axes[k] < n
    requires forall k, m :: 0 <= k < m < |axes| ==> axes[k] < axes[m]
    ensures PopAll(names, axes) == PopAll(names[..n], axes) + names[n..]
  {
    assert names == names[..n] + names[n..];
    PopAllAppend(names[..n], names[n..], axes);
  }

  /** `np.squeeze` leaves no dimension of size 1. */
  lemma {:induction false} SqueezedHasNoUnit(shape: seq<nat>)
    ensures forall i :: 0 <= i < |KeepNonUnit(shape, shape)| ==> KeepNonUnit(shape, shape)[i] != 1
  {
    if |shape| > 0 {
      var n := |shape| - 1;
      SqueezedHasNoUnit(shape[..n]);
    }
  }

  /** Leading axes are discarded one at a time, together with their names, until at most three
      remain: only the last three survive. */
  function DropLeading<T>(s: seq<T>): (r: seq<T>)
    ensures |s| <= 3 ==> r == s
    ensures |s| > 3 ==> r == s[|s| - 3..]
  {
    if |s| > 3 then DropLeading(s[1..]) else s
  }

  /** Discarding a leading axis takes the array's first element along it, which fails on an axis of
      length 0: the dropping fails exactly when one of the discarded axes is empty. */
  function DropLeadingChecked(s: seq<nat>): (r: Result<seq<nat>, DisplayError>)
    ensures r.Failure? <==> exists k :: 0 <= k < |s| - 3 && s[k] == 0
    ensures r.Failure? ==> r.error == EmptyLeadingAxis
    ensures r.Success? ==> r.value == DropLeading(s)
  {
    if |s| <= 3 then Success(s)
    else if s[0] == 0 then Failure(EmptyLeadingAxis)
    else
      var r := DropLeadingChecked(s[1..]);
      assert forall k :: 0 <= k < |s| - 4 ==> s[1..][k] == s[k + 1];
      r
  }

  /** The element at position `c` taken out and put last, the others keeping their order: what happens
      both to the channel axis's name and, on a three-dimensional shape, to the axis itself. */
  function MoveToEnd<T>(s: seq<T>, c: nat): (r: seq<T>)
    requires c < |s|
    ensures |r| == |s| && r[|r| - 1] == s[c]
    ensures forall k :: 0 <= k < |s| - 1 ==> r[k] == s[if k < c then k else k + 1]
    ensures multiset(r) == multiset(s)
  {
    assert s == s[..c] + [s[c]] + s[c + 1..];
    RemoveAt(s, c) + [s[c]]
  }

  /** The `channel_count` table: which source channels are shown, and in which mode. */
  function ChannelTable(count: nat): (r: Result<(seq<nat>, Mode), DisplayError>)
    ensures r.Failure? <==> count == 0
    ensures r.Success? ==> forall k :: 0 <= k < |r.value.0| ==> r.value.0[k] < count
    ensures r.Success? ==> (r.value.1 == L <==> count == 1) && r.value.1 != RGBA
    ensures r.Success? && r.value.1 == L ==> r.value.0 == [0]
    ensures r.Success? && r.value.1 == RGB ==> |r.value.0| == 3
    ensures count == 2 ==> r.value.0 == [0, 1, 1]
    ensures count == 3 || count == 4 ==> r.value.0 == [0, 1, 2]
    ensures count >= 5 ==> r.value.0 == [0, RoundHalf(count - 1) as nat, count - 1]
  {
    if count == 0 then Failure(NothingToStack)
    else if count == 1 then Success(([0], L))
    else if count == 2 then Success(([0, 1, 1], RGB))
    else if count <= 4 then Success(([0, 1, 2], RGB))
    else
      var picked := SelectRepresentativeIndices(count);
      Success((seq(3, k requires 0 <= k < 3 => picked[k] as nat), RGB))
  }

  /** A three-dimensional reduced shape whose inferred channel axis has length 0: the channel list
      handed to `np.stack` is empty. */
  predicate EmptyChannelAxis(shape2: seq<nat>, names2: Option<seq<string>>) {
    && |shape2| == 3
    && var c := InferChannelAxis(shape2, names2);
       c.Some? && c.value < 3 && shape2[c.value] == 0
  }

  /** The shape of the shown array when axis `c` holds the channels: that axis is moved last, and
      it becomes three colours, or disappears when it holds a single channel. */
  function ShownShape(shape2: seq<nat>, c: nat): seq<nat>
    requires c < |shape2|
  {
    MoveToEnd(shape2, c)[..|shape2| - 1] + (if shape2[c] == 1 then [] else [3])
  }

  /** The shape and names after squeezing and dropping leading axes: at most three dimensions, none
      of size 1, and names (when kept) still one per dimension and each with its dimension. */
  function Reduce(shape: seq<nat>, axisNames: Option<seq<string>>): (r: Result<(seq<nat>, Option<seq<string>>), DisplayError>)
    // Dropping fails exactly on an empty axis among those discarded after squeezing.
    ensures var squeezed := KeepNonUnit(shape, shape);
      r.Failure? <==> exists k :: 0 <= k < |squeezed| - 3 && squeezed[k] == 0
    ensures r.Failure? ==> r.error == EmptyLeadingAxis
    ensures r.Success? ==> r.value.0 == DropLeading(KeepNonUnit(shape, shape))
    ensures r.Success? ==> |r.value.0| <= 3 && forall i :: 0 <= i < |r.value.0| ==> r.value.0[i] != 1
    ensures r.Success? ==> (|r.value.0| == 0 <==> forall i :: 0 <= i < |shape| ==> shape[i] == 1)
    // Names survive exactly when there is one per dimension of the raw array, and then each name
    // stays with its dimension.
    ensures r.Success? ==> (r.value.1.Some? <==> axisNames.Some? && |axisNames.value| == |shape|)
    ensures r.Success? && r.value.1.Some? ==>
              && axisNames.Some? && |axisNames.value| == |shape|
              && r.value.1.value == DropLeading(KeepNonUnit(axisNames.value, shape))
              && |r.value.1.value| == |r.value.0|
  {
    var names0 := if axisNames.Some? && |axisNames.value| == |shape| then axisNames else None;
    var squeezed := KeepNonUnit(shape, shape);
    SqueezedHasNoUnit(shape);
    match DropLeadingChecked(squeezed)
    case Failure(e) => Failure(e)
    case Success(shape2) =>
      var names1 := if names0.Some? && |names0.value| > 0 then Some(PopAll(names0.value, UnitAxes(shape))) else names0;
      var names2 := if names1.Some? && |names1.value| > 0 then Some(DropLeading(names1.value)) else names1;
      assert names0.Some? ==> PopAll(names0.value, UnitAxes(shape)) == KeepNonUnit(names0.value, shape) by {
        if names0.Some? { PopSqueezedKeepsNonUnit(names0.value, shape); }
      }
      Success((shape2, names2))
  }

  /** `prepare_display_array(array, axis_names)` on the array's shape. */
  function PrepareDisplay(shape: seq<nat>, axisNames: Option<seq<string>>): (r: Result<DisplayInfo, DisplayError>)
    // A leading axis of length 0 among those dropped after squeezing cannot be indexed.
    ensures var squeezed := KeepNonUnit(shape, shape);
      r.Failure? && r.error == EmptyLeadingAxis <==> exists k :: 0 <= k < |squeezed| - 3 && squeezed[k] == 0
    // An array whose dimensions are all 1 squeezes to nothing and `argmin` fails.
    ensures r.Failure? && r.error == EmptyArgMin <==> forall i :: 0 <= i < |shape| ==> shape[i] == 1
    ensures r.Failure? ==> r.error != UnsupportedRank
    // Every other reduced shape is shown, except one whose channel axis is empty.
    ensures var red := Reduce(shape, axisNames);
      r.Success? <==> red.Success? && |red.value.0| > 0 && !EmptyChannelAxis(red.value.0, red.value.1)
    ensures var red := Reduce(shape, axisNames);
      r.Failure? && r.error == NothingToStack <==> red.Success? && EmptyChannelAxis(red.value.0, red.value.1)
    // Names are kept exactly when there is one per dimension of the raw array.
    ensures r.Success? ==> (r.value.effectiveNames.Some? <==> axisNames.Some? && |axisNames.value| == |shape|)
    ensures r.Success? ==> r.value.channelCount >= 1
    ensures r.Success? ==> forall k :: 0 <= k < |r.value.displayChannels| ==> r.value.displayChannels[k] < r.value.channelCount
    ensures r.Success? ==> (r.value.mode == L <==> r.value.channelCount == 1) && r.value.mode != RGBA
    // Shown channels and mode follow the channel-count table.
    ensures r.Success? ==> ChannelTable(r.value.channelCount) == Success((r.value.displayChannels, r.value.mode))
    // Below rank 3 the data is a single channel with no channel axis, and the names are those of the
    // remaining axes.
    ensures r.Success? ==> Reduce(shape, axisNames).Success?
    ensures r.Success? && |Reduce(shape, axisNames).value.0| < 3 ==>
              && r.value.channelAxisIndex.None? && r.value.channelAxisName.None?
              && r.value.channelCount == 1
              && r.value.effectiveNames == Reduce(shape, axisNames).value.1
              && r.value.displayShape == (if |Reduce(shape, axisNames).value.0| == 1 then [1] else []) + Reduce(shape, axisNames).value.0
    // At rank 3 the channel axis is the inferred one, the channel count is its length, and its name
    // is moved after the others.
    ensures r.Success? && |Reduce(shape, axisNames).value.0| == 3 ==>
              var (shape2, names2) := Reduce(shape, axisNames).value;
              && r.value.channelAxisIndex == InferChannelAxis(shape2, names2)
              && r.value.channelAxisIndex.Some? && r.value.channelAxisIndex.value < 3
              && r.value.channelCount == shape2[r.value.channelAxisIndex.value]
              && r.value.displayShape == ShownShape(shape2, r.value.channelAxisIndex.value)
              && (names2.Some? ==>
                    && r.value.effectiveNames == Some(MoveToEnd(names2.value, r.value.channelAxisIndex.value))
                    && r.value.channelAxisName == Some(names2.value[r.value.channelAxisIndex.value]))
    // The channel axis, when named, ends up last among the effective names.
    ensures r.Success? && r.value.channelAxisName.Some? ==>
              && r.value.effectiveNames.Some? && |r.value.effectiveNames.value| == 3
              && r.value.effectiveNames.value[2] == r.value.channelAxisName.value
  {
    match Reduce(shape, axisNames)
    case Failure(e) =>
      assert NonUnitCount(shape) > 3;
      Failure(e)
    case Success((shape2, names2)) => PrepareReduced(shape2, names2)
  }

  /** The display of the reduced shape and names: one- and two-dimensional data is a single channel,
      anything else goes through the channel axis. */
  function PrepareReduced(shape2: seq<nat>, names2: Option<seq<string>>): (r: Result<DisplayInfo, DisplayError>)
    requires |shape2| <= 3
    requires names2.Some? ==> |names2.value| == |shape2|
    ensures r.Failure? <==> |shape2| == 0 || EmptyChannelAxis(shape2, names2)
    ensures r.Failure? && r.error == EmptyArgMin <==> |shape2| == 0
    ensures r.Failure? && r.error == NothingToStack <==> EmptyChannelAxis(shape2, names2)
    ensures r.Failure? ==> r.error == EmptyArgMin || r.error == NothingToStack
    ensures r.Success? ==> (r.value.effectiveNames.Some? <==> names2.Some?)
    ensures r.Success? ==> ChannelTable(r.value.channelCount) == Success((r.value.displayChannels, r.value.mode))
    // A row vector is shown as a one-row image; a two-dimensional array as it is.
    ensures r.Success? && |shape2| < 3 ==>
              && r.value.channelAxisIndex.None? && r.value.channelAxisName.None?
              && r.value.channelCount == 1
              && r.value.effectiveNames == names2
              && r.value.displayShape == (if |shape2| == 1 then [1] else []) + shape2
    ensures r.Success? && |shape2| == 3 ==>
              && r.value.channelAxisIndex == InferChannelAxis(shape2, names2)
              && r.value.channelAxisIndex.Some? && r.value.channelAxisIndex.value < 3
              && r.value.channelCount == shape2[r.value.channelAxisIndex.value]
              && r.value.displayShape == ShownShape(shape2, r.value.channelAxisIndex.value)
              && (names2.Some? ==>
                    && r.value.effectiveNames == Some(MoveToEnd(names2.value, r.value.channelAxisIndex.value))
                    && r.value.channelAxisName == Some(names2.value[r.value.channelAxisIndex.value]))
              && (names2.None? ==> r.value.channelAxisName.None?)
  {
    if |shape2| == 1 then
      var names3 := if names2.Some? && |names2.value| > 0 then Some([names2.value[|names2.value| - 1]]) else names2;
      assert names2.Some? ==> names2.value == [names2.value[0]];
      assert [1] + shape2 == [1, shape2[0]];
      Success(DisplayInfo(names3, None, None, 1, [0], L, [1, shape2[0]]))
    else if |shape2| == 2 then
      Success(DisplayInfo(names2, None, None, 1, [0], L, shape2))
    else
      PrepareChannels(shape2, names2)
  }

  /** The three-dimensional case (and the empty shape, where `argmin` fails): one axis is taken as the
      channel axis, moved last with its name, and the shown channels are picked from the table. */
  function PrepareChannels(shape2: seq<nat>, names2: Option<seq<string>>): (r: Result<DisplayInfo, DisplayError>)
    requires |shape2| == 0 || |shape2| == 3
    requires names2.Some? ==> |names2.value| == |shape2|
    ensures r.Failure? <==> |shape2| == 0 || EmptyChannelAxis(shape2, names2)
    ensures r.Failure? && r.error == EmptyArgMin <==> |shape2| == 0
    ensures r.Failure? && r.error == NothingToStack <==> EmptyChannelAxis(shape2, names2)
    ensures r.Failure? ==> r.error == EmptyArgMin || r.error == NothingToStack
    ensures r.Success? ==>
              && |shape2| == 3
              && r.value.channelAxisIndex == InferChannelAxis(shape2, names2)
              && r.value.channelAxisIndex.Some? && r.value.channelAxisIndex.value < 3
              && r.value.channelCount == shape2[r.value.channelAxisIndex.value]
              && r.value.displayShape == ShownShape(shape2, r.value.channelAxisIndex.value)
              && ChannelTable(r.value.channelCount) == Success((r.value.displayChannels, r.value.mode))
              && (r.value.effectiveNames.Some? <==> names2.Some?)
    ensures r.Success? && names2.Some? ==>
              && r.value.effectiveNames == Some(MoveToEnd(names2.value, r.value.channelAxisIndex.value))
              && r.value.channelAxisName == Some(names2.value[r.value.channelAxisIndex.value])
    ensures r.Success? && names2.None? ==> r.value.channelAxisName.None?
  {
    match InferChannelAxis(shape2, names2)
    case None => Failure(EmptyArgMin)
    case Some(c) => ChannelInfo(shape2, names2, c)
  }

  /** The display of a three-dimensional shape whose channel axis is `c`. */
  function ChannelInfo(shape2: seq<nat>, names2: Option<seq<string>>, c: nat): (r: Result<DisplayInfo, DisplayError>)
    requires c < |shape2| == 3
    requires names2.Some? ==> |names2.value| == 3
    ensures r.Failure? <==> shape2[c] == 0
    ensures r.Failure? ==> r.error == NothingToStack
    ensures r.Success? ==>
              && r.value.channelAxisIndex == Some(c)
              && r.value.channelCount == shape2[c]
              && r.value.displayShape == ShownShape(shape2, c)
              && ChannelTable(r.value.channelCount) == Success((r.value.displayChannels, r.value.mode))
    ensures r.Success? && names2.Some? ==>
              && r.value.effectiveNames == Some(MoveToEnd(names2.value, c))
              && r.value.channelAxisName == Some(names2.value[c])
    ensures r.Success? && names2.None? ==> r.value.effectiveNames.None? && r.value.channelAxisName.None?
  {
    var channelName := if names2.Some? && |names2.value| > 0 then Some(names2.value[c]) else None;
    var names3 := if c != 2 && names2.Some? && |names2.value| > 0 then Some(MoveToEnd(names2.value, c)) else names2;
    assert names2.Some? ==> MoveToEnd(names2.value, 2) == names2.value by {
      if names2.Some? { MoveLastIsIdentity(names2.value); }
    }
    ChannelResult(shape2, c, names3, channelName)
  }

  /** The channel table applied to the length of the channel axis `c`; the displayed shape has the
      channel axis last, as three colours unless there is a single channel. */
  function ChannelResult(shape2: seq<nat>, c: nat, names3: Option<seq<string>>, channelName: Option<string>): (r: Result<DisplayInfo, DisplayError>)
    requires c < |shape2|
    ensures r.Failure? <==> ChannelTable(shape2[c]).Failure?
    ensures r.Failure? ==> r.error == NothingToStack
    ensures r.Success? ==>
              && r.value == DisplayInfo(names3, Some(c), channelName, shape2[c], ChannelTable(shape2[c]).value.0,
                                        ChannelTable(shape2[c]).value.1, r.value.displayShape)
              && |r.value.displayShape| == |shape2| - (if shape2[c] == 1 then 1 else 0)
    // The shown array is the channel axis moved last, then narrowed to the shown channels.
    ensures r.Success? ==> r.value.displayShape == ShownShape(shape2, c)
  {
    var count := shape2[c];
    assert MoveToEnd(shape2, c)[..|shape2| - 1] == RemoveAt(shape2, c);
    match ChannelTable(count)
    case Failure(e) => Failure(e)
    case Success((channels, mode)) =>
      var rest := RemoveAt(shape2, c);
      var displayShape := if count == 1 then rest else rest + [3];
      Success(DisplayInfo(names3, Some(c), channelName, count, channels, mode, displayShape))
  }

  /** Moving the last element to the end changes nothing. */
  lemma MoveLastIsIdentity<T>(s: seq<T>)
    requires |s| > 0
    ensures MoveToEnd(s, |s| - 1) == s
  {
  }

  /** The mode `array_to_image` picks for an array of the given shape. */
  function ArrayToImage(shape: seq<nat>): (r: Result<Mode, DisplayError>)
    ensures r.Failure? <==> |shape| != 2 && |shape| != 3
    ensures r == Success(RGBA) <==> |shape| == 3 && shape[2] == 4
    ensures r == Success(L) <==> |shape| == 2 || (|shape| == 3 && shape[2] == 1)
  {
    if |shape| == 2 then Success(L)
    else if |shape| == 3 then
      if shape[2] == 3 then Success(RGB)
      else if shape[2] == 4 then Success(RGBA)
      else if shape[2] == 1 then Success(L)
      else Success(RGB)
    else Failure(UnsupportedRank)
  }

  /** The image PIL builds from the prepared array has exactly the mode recorded in `info`. */
  lemma DisplayModeAgrees(shape: seq<nat>, axisNames: Option<seq<string>>)
    requires PrepareDisplay(shape, axisNames).Success?
    ensures var info := PrepareDisplay(shape, axisNames).value;
      ArrayToImage(info.displayShape) == Success(info.mode)
  {
  }
}
