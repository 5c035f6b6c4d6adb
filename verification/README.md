# PDS4 viewer and CCD composite generator: a Dafny model

This project models the integer, sequence and string logic of two offline Python helpers. Both
work on the planetary remote-sensing image products of a viewer for geo-referenced spectra.

* **The PDS4 image viewer** (`public/assets/raw/visualize_pds4_images.py`). It decides how a raw
  array is shown. The model covers:
  * choosing the axis names of a label: the entries' sort order, the skipping of empty names, and
    the first array object whose axis lengths can be permuted onto the data shape;
  * guessing which axis holds the colour or spectral channels;
  * choosing three representative channels out of many;
  * squeezing size-1 axes, dropping leading axes and moving the channel axis last, all on shapes
    and axis names;
  * the table from channel count to displayed channels and PIL mode;
  * the wrap-around of the "next" and "previous" buttons.
* **The composite generator** (`generate_composite_images.py`). It covers:
  * decoding a colour-CCD cube file: 8 bands × 681 lines × 681 samples of little-endian 32-bit
    words, band-major with the sample varying fastest. Only the first 8·681·681·4 bytes are
    decoded: trailing bytes are ignored, and a shorter file fails inside `struct.unpack`;
  * picking three whole bands as the red, green and blue channels;
  * the table of configured composites;
  * the phase angles 0, 5, …, 355 and the zero-padded file names built from them.

The pixel values are modelled as 32-bit words: their bit patterns, never their floating-point
meaning. Shapes, indices and names are unbounded integers and strings. Python errors become the
`Failure`/`None` cases of `Outcomes.Result` and `Outcomes.Option`.

Module layout:

| file | module | models |
|---|---|---|
| outcomes.dfy | `Outcomes` | `Option` and `Result` |
| seqs.dfy | `Seqs` | first index satisfying a test, numpy `argmin`, duplicate-freedom |
| text.dfy | `Text` | `str.strip`, `str.lower` (ASCII), substring search |
| arith.dfy | `Arith` | uniqueness of Euclidean quotient and remainder |
| axis_match.dfy | `AxisMatch` | `_match_axis_order` |
| axis_labels.dfy | `AxisLabels` | `extract_axis_names` on already-parsed axis entries |
| channel_axis.dfy | `ChannelAxis` | `_infer_channel_axis`, `_select_representative_indices` |
| display.dfy | `Display` | `prepare_display_array` on shapes and names; `array_to_image` mode choice |
| navigation.dfy | `Navigation` | `show_next`, `show_previous` |
| ccd_cube.dfy | `CcdCube` | `read_ccd_image` |
| composite.dfy | `Composite` | `create_composite` layer selection, the `composites` table |
| phase_files.dfy | `PhaseFiles` | phase angles, padded names, the per-angle generation loop |

## Model

| member | source | states |
|---|---|---|
| AxisMatch.MatchAxisOrder | public/assets/raw/visualize_pds4_images.py:122-143 | A name count different from the shape's rank gives `None`. `None` otherwise means no permutation fits. A result is the names in the order of a fitting permutation that is lexicographically at most every fitting permutation. This is the first one `itertools.permutations` yields. Fitting means a known length equals its target dimension and an unknown length fits anywhere. |
| AxisMatch.SearchIsFirstFit | public/assets/raw/visualize_pds4_images.py:130-141 | The depth-first search from the empty prefix returns a fitting permutation that is lexicographically least among all fitting ones. It returns nothing only when none fits. |
| AxisMatch.Search | public/assets/raw/visualize_pds4_images.py:130-141 | A result extends the prefix and is complete: one axis per dimension. |
| AxisMatch.TryFrom | public/assets/raw/visualize_pds4_images.py:131-141 | A result extends the prefix and is complete, and its next axis is `i` or later and in range. |
| AxisMatch.SearchSound | public/assets/raw/visualize_pds4_images.py:131-139 | Whatever the search returns extends its prefix, is a permutation, and agrees with every known length. |
| AxisMatch.TryFromSound | public/assets/raw/visualize_pds4_images.py:131-139 | The same, for the search that starts the next position at axis `i` or later; the axis chosen there is at least `i`. |
| AxisMatch.SearchLeast | public/assets/raw/visualize_pds4_images.py:130-141 | What the search returns is lexicographically at most every fit that extends the prefix. When it returns nothing, no fit extends the prefix. |
| AxisMatch.TryFromLeast | public/assets/raw/visualize_pds4_images.py:130-141 | Starting at axis `i`, the result is at most every fit whose next axis is `i` or later. When there is no result, every fit continues with an axis below `i`. |
| AxisMatch.FirstWithNextIsLeast | public/assets/raw/visualize_pds4_images.py:130-141 | The least fit extending `prefix + [i]` is at most every fit extending `prefix` whose next axis is `i` or later. |
| AxisMatch.IdentityPrefixForcesUpper | public/assets/raw/visualize_pds4_images.py:129-130 | A permutation that agrees with the identity below `k` holds a value of at least `k` at position `k`. |
| AxisMatch.IdentityIsLeast | public/assets/raw/visualize_pds4_images.py:129-130 | The identity is the only permutation lexicographically at most the identity, so `permutations(range(n))` yields it first. |
| AxisMatch.IdentityOrderWins | public/assets/raw/visualize_pds4_images.py:129-141 | When the label's own axis order already fits the shape, the names come back in that order. |
| AxisLabels.SortEntriesIsStableSort | public/assets/raw/visualize_pds4_images.py:104 | The sort by `(sequence is None, sequence)`: the result is ordered by that key, and it is a rearrangement of the input. Entries with equal keys keep their label order, and entries without a sequence number come after all numbered ones. |
| AxisLabels.SortEntries | public/assets/raw/visualize_pds4_images.py:104 | The result is sorted by key and is a rearrangement of the input. |
| AxisLabels.Insert | public/assets/raw/visualize_pds4_images.py:104 | One entry longer, holding the old entries and the new one. |
| AxisLabels.SortEntriesKeepsKeyOrder | public/assets/raw/visualize_pds4_images.py:104 | For every key, the entries with that key appear in the same order before and after sorting, so the sort is stable. |
| AxisLabels.InsertSorted | public/assets/raw/visualize_pds4_images.py:104 | Inserting one entry into a sorted list keeps it sorted, and the new head is the entry or the old head. |
| AxisLabels.InsertKeepsKeyOrder | public/assets/raw/visualize_pds4_images.py:104 | Inserting puts the new entry before all entries of its own key that follow it in the input, so ties keep their order. |
| AxisLabels.SortedCons | public/assets/raw/visualize_pds4_images.py:104 | An entry whose key is at most the head key of a sorted list can be put in front of it. |
| AxisLabels.CleanKeepsOnlyNamed | public/assets/raw/visualize_pds4_images.py:75-99 | Every kept axis entry is the whitespace-stripped form of an entry whose name is not empty. |
| AxisLabels.CleanKeepsEveryNamed | public/assets/raw/visualize_pds4_images.py:75-99 | Every entry with a non-empty name is kept, with its name stripped. |
| AxisLabels.FromNamedTail | public/assets/raw/visualize_pds4_images.py:75-78 | An entry taken from a later part of the array's axis list belongs to the whole list. |
| AxisLabels.Clean | public/assets/raw/visualize_pds4_images.py:75-99 | Nothing is added. When every name is non-empty, everything is kept. When every name is empty, nothing is kept. Which entries are kept, and in what order, is stated by `CleanKeepsOnlyNamed`, `CleanKeepsEveryNamed`, `CleanKeepsOrder` and `CleanSingle`. |
| AxisLabels.CleanKeepsOrder | public/assets/raw/visualize_pds4_images.py:75-99 | Cleaning two lists one after the other is cleaning their concatenation, so kept entries stay in label order. |
| AxisLabels.CleanSingle | public/assets/raw/visualize_pds4_images.py:77-99 | One entry is kept, stripped, exactly when its name is not empty. |
| AxisLabels.Candidate | public/assets/raw/visualize_pds4_images.py:101-107 | A candidate is never empty. `CandidateOfSortedEntries` states what it holds. |
| AxisLabels.CandidateOfSortedEntries | public/assets/raw/visualize_pds4_images.py:101-107 | No candidate exactly when no entry has a name, which is exactly when nothing is kept. Otherwise the candidate has one axis per kept entry, in sorted order, with its stripped name and its length. |
| AxisLabels.Candidates | public/assets/raw/visualize_pds4_images.py:70-107 | At most one candidate per array object, and none of them empty. `CandidatesKeepOrder` and `CandidatesSingle` state which candidates appear, and in what order. |
| AxisLabels.CandidatesKeepOrder | public/assets/raw/visualize_pds4_images.py:70-107 | Candidates of two lists of array objects, one after the other, are the candidates of their concatenation, so candidates follow the order of their array objects. |
| AxisLabels.CandidatesSingle | public/assets/raw/visualize_pds4_images.py:101-107 | One array object contributes exactly its candidate, or nothing when it has none. |
| AxisLabels.ExtractAxisNames | public/assets/raw/visualize_pds4_images.py:109-119 | With a target shape, the result is the reordered names of the first candidate whose match is a non-empty list. Without a target shape, or when no candidate matches, it is the names of the first candidate. It is `[]` when no candidate exists. |
| AxisLabels.Names | public/assets/raw/visualize_pds4_images.py:105 | One name per axis, in axis order. |
| Text.Strip | public/assets/raw/visualize_pds4_images.py:99 | The result is a contiguous slice of the input. Everything outside the slice is whitespace, and the slice neither starts nor ends with whitespace. |
| Text.Lower | public/assets/raw/visualize_pds4_images.py:150 | Same length as the input. ASCII capitals become lower case and every other character is kept. |
| Seqs.FirstIndex | public/assets/raw/visualize_pds4_images.py:151-153 | The result is the first index whose element passes the test. `None` means no element passes. |
| Seqs.ArgMin | public/assets/raw/visualize_pds4_images.py:164 | `None` only for the empty sequence. Otherwise the result is the first index of a minimum element. |
| Seqs.RemoveAt | public/assets/raw/visualize_pds4_images.py:263 | `list.pop(i)`: one element shorter; elements before `i` stay, and later ones shift down by one. |
| ChannelAxis.InferChannelAxis | public/assets/raw/visualize_pds4_images.py:146-165 | The rules are tried in turn: the first name containing a channel keyword, else the first name with no spatial keyword, else the first dimension of size 1 to 4, else the first index of the smallest dimension. Argmin of an empty shape fails. |
| ChannelAxis.RoundHalf | public/assets/raw/visualize_pds4_images.py:176-177 | `round(m / 2)`: within one half of `m / 2`, and an exact half goes to the even neighbour. |
| ChannelAxis.RoundedSpread | public/assets/raw/visualize_pds4_images.py:174-178 | Three values. For `n >= 1` they are `0`, `round((n-1)/2)` and `n-1`, all in `[0, n-1]`. |
| ChannelAxis.Clamp | public/assets/raw/visualize_pds4_images.py:178 | Never negative and, for `n >= 1`, below `n`. An index already in range is unchanged. A negative index, or any index when `n <= 0`, gives 0. An index `n` or above gives `n-1`. |
| ChannelAxis.Dedup | public/assets/raw/visualize_pds4_images.py:179-180 | The result has no duplicates and holds exactly the input's elements. `DedupKeepsFirstOrder` states their order. |
| ChannelAxis.DedupKeepsFirstOrder | public/assets/raw/visualize_pds4_images.py:176-180 | The kept values appear in the order of their first occurrences in the input. |
| ChannelAxis.TopUp | public/assets/raw/visualize_pds4_images.py:182-187 | Only unused indices from `range(n)` are added, and what was there is kept first. It stops at three indices or once every index is present. |
| ChannelAxis.TopUpAtMostThree | public/assets/raw/visualize_pds4_images.py:182-187 | Started with fewer than three indices, the result has at most three. |
| ChannelAxis.TopUpAscends | public/assets/raw/visualize_pds4_images.py:183-185 | The added indices are in ascending order. |
| ChannelAxis.TopUpSkipsNoUnused | public/assets/raw/visualize_pds4_images.py:183-187 | No unused index below an added one is skipped, so the additions are the smallest unused indices. |
| ChannelAxis.FillToThree | public/assets/raw/visualize_pds4_images.py:182-187 | Three or more indices are left unchanged. Fewer are kept first and topped up with unused indices from `0..n-1` to at most three, or to every index when `n` is small. |
| ChannelAxis.TakeThree | public/assets/raw/visualize_pds4_images.py:189 | `indices[:3]`: a prefix of at most three. |
| ChannelAxis.SelectRepresentativeIndices | public/assets/raw/visualize_pds4_images.py:168-189 | For `n <= 3` the result is `0..n-1`. For `n > 3` it is exactly `[0, round((n-1)/2), n-1]`, three distinct indices with the middle one strictly inside. The indices are always distinct and in range. |
| Display.ChannelTable | public/assets/raw/visualize_pds4_images.py:305-333 | Count 0 fails in `np.stack`. Count 1 shows `[0]` in mode L. Count 2 shows `[0,1,1]`, counts 3 and 4 show `[0,1,2]`, and counts of 5 or more show the three representative indices, all in RGB. Every shown channel exists. |
| Display.UnitAxes | public/assets/raw/visualize_pds4_images.py:258 | Ascending positions of dimensions of size 1. `UnitAxesComplete` states that none is missed. |
| Display.UnitAxesComplete | public/assets/raw/visualize_pds4_images.py:258 | Every dimension of size 1 is among the squeezed positions. |
| Display.NonUnitCount | public/assets/raw/visualize_pds4_images.py:259 | Zero exactly when every dimension is 1. |
| Display.PopSqueezedKeepsNonUnit | public/assets/raw/visualize_pds4_images.py:258-263 | Popping the squeezed positions in reverse order leaves exactly the names of the dimensions `np.squeeze` keeps, in order. |
| Display.KeepNonUnit | public/assets/raw/visualize_pds4_images.py:259 | `np.squeeze` keeps one element per dimension that is not 1. |
| Display.PopAll | public/assets/raw/visualize_pds4_images.py:260-263 | Popping the squeezed positions from the back removes exactly one name per position. |
| Display.DropLeading | public/assets/raw/visualize_pds4_images.py:265-268 | The last three dimensions are left, in order. A rank of 3 or less is untouched. |
| Display.DropLeadingChecked | public/assets/raw/visualize_pds4_images.py:265-268 | Dropping fails exactly when one of the dropped leading axes has length 0. Otherwise it leaves the last three dimensions. |
| Display.PopAllAppend | public/assets/raw/visualize_pds4_images.py:261-263 | Popping a list of positions is popping the last one first, then the rest. |
| Display.SqueezedHasNoUnit | public/assets/raw/visualize_pds4_images.py:259 | No dimension left after squeezing is 1. |
| Display.MoveToEnd | public/assets/raw/visualize_pds4_images.py:296-300 | The channel name ends up last. The other names keep their relative order, and no name is lost. |
| Display.Reduce | public/assets/raw/visualize_pds4_images.py:254-268 | It fails exactly when one of the leading axes dropped after squeezing has length 0. Otherwise the shape left is the last three squeezed dimensions. There are at most three, none of size 1, and none at all exactly when every dimension was 1. Names survive exactly when there was one per dimension. The surviving names are the last three names of the squeezed dimensions, so each name stays with its dimension. |
| Display.PrepareDisplay | public/assets/raw/visualize_pds4_images.py:222-333 | It succeeds exactly when reducing succeeds, something is left, and a three-dimensional result does not have an empty channel axis. It fails on an empty dropped leading axis exactly as `Reduce` does. An all-ones shape fails in `argmin`, and `np.stack` fails exactly on an empty channel axis. Names survive exactly when their count equals the rank. Data left with one or two dimensions has no channel axis and one channel. It keeps the reduced names and is shown as a one-row image or as it is. At rank 3 the channel axis is the one `InferChannelAxis` picks, and the channel count is that axis's length. The effective names are the reduced names with the channel name moved last. The shown array has that axis moved last and narrowed to the shown channels. The shown channels and the mode follow the channel-count table. Every shown channel is a real channel, mode L holds exactly for a single channel, and RGBA never occurs. |
| Display.PrepareReduced | public/assets/raw/visualize_pds4_images.py:270-333 | It fails exactly on the empty reduced shape (in `argmin`) or on a three-dimensional shape with an empty channel axis (in `np.stack`). One or two dimensions give a single channel, no channel axis and unchanged names. A row vector gets a leading axis of 1. Three dimensions give the inferred channel axis, its length as the count, the channel name moved last and the shown shape. Shown channels and mode follow the table. |
| Display.PrepareChannels | public/assets/raw/visualize_pds4_images.py:289-333 | It fails exactly when the shape is empty (in `argmin`) or the inferred channel axis is empty (in `np.stack`). At rank 3 the channel axis is the inferred one and the channel count is its length. The names are moved so that the channel name comes last, and the shown array has that axis last. |
| Display.ChannelInfo | public/assets/raw/visualize_pds4_images.py:292-333 | For channel axis `c`: failure exactly when axis `c` is empty. Otherwise the names have `c`'s name moved last, and the count is axis `c`'s length. The shown shape is the shape with `c` moved last, narrowed to the shown channels. Channels and mode follow the table. |
| Display.ChannelResult | public/assets/raw/visualize_pds4_images.py:305-333 | It fails exactly when the channel-count table does (an empty channel axis). Otherwise the info records axis `c`, its length and the table's channels and mode. The returned array is the shape with axis `c` moved last. That axis becomes the single plane (one channel, `[..., 0]`) or three colours (the stacked composite, or `[..., :3]`). |
| Display.ArrayToImage | public/assets/raw/visualize_pds4_images.py:336-358 | Ranks other than 2 and 3 fail. RGBA holds exactly for 4 channels. L holds exactly for rank 2 or a single channel. |
| Display.DisplayModeAgrees | public/assets/raw/visualize_pds4_images.py:305-358 | The mode that `array_to_image` derives from a prepared array is the mode `prepare_display_array` recorded. |
| Navigation.ShowNext | public/assets/raw/visualize_pds4_images.py:500-506 | An empty list selects nothing. Otherwise the next index is selected, wrapping to 0, and no selection also goes to 0. |
| Navigation.ShowPrevious | public/assets/raw/visualize_pds4_images.py:508-514 | An empty list selects nothing. Otherwise the previous index is selected, wrapping from 0 to the last, and no selection also goes to the last. |
| Navigation.NextPreviousInverse | public/assets/raw/visualize_pds4_images.py:500-514 | Next then previous, or previous then next, returns to the same label. |
| Navigation.NextTimes | public/assets/raw/visualize_pds4_images.py:500-506 | Pressing next any number of times stays on a valid index. |
| Navigation.NextTimesWraps | public/assets/raw/visualize_pds4_images.py:500-506 | Pressing next `k` times moves from `i` to `(i + k) mod count`. |
| Navigation.ModAddOne | public/assets/raw/visualize_pds4_images.py:505 | Reducing before or after adding one gives the same index. |
| CcdCube.ReadCcd | generate_composite_images.py:11-34 | Fails exactly when the file has fewer than 8·681·681·4 bytes. Otherwise it gives an 8×681×681 cube whose element `[b][l][s]` is the little-endian word at flat index `b·681·681 + l·681 + s`. |
| CcdCube.WordAt | generate_composite_images.py:28 | Word `i` encodes back to exactly the four bytes at offset `4i`. |
| CcdCube.DecodeWordDigits | generate_composite_images.py:28 | The first byte is the least significant base-256 digit of the word and the last byte the most significant. |
| CcdCube.TrailingBytesIgnored | generate_composite_images.py:28 | Bytes after the first 8·681·681·4 change nothing. The result depends only on that prefix. |
| CcdCube.CoordinatesOfFlatIndex | generate_composite_images.py:30-32 | Every in-range `(band, line, sample)` has a flat index below 8·681·681, and div/mod recover the triple from it. |
| CcdCube.FlatIndexOfCoordinates | generate_composite_images.py:30-32 | Every flat index below 8·681·681 splits by div/mod into an in-range triple whose flat index is the original. With the previous row, the layout is a bijection. |
| CcdCube.FlattenReshape | generate_composite_images.py:28-32 | Reshaping the word sequence into a cube and reading it back in file order gives the sequence. |
| CcdCube.ReshapeFlatten | generate_composite_images.py:28-32 | Reading a cube out in file order and reshaping gives the cube. |
| CcdCube.DecodeEncodeWord | generate_composite_images.py:28 | Any 32-bit word written as four little-endian bytes decodes back to itself. |
| CcdCube.EncodeDecodeWord | generate_composite_images.py:28 | Any four bytes decoded as a little-endian word encode back to the same bytes. |
| CcdCube.Words | generate_composite_images.py:28 | Exactly 8·681·681 words. |
| CcdCube.Reshape | generate_composite_images.py:32 | The result has the 8×681×681 shape. |
| Composite.BandIndex | generate_composite_images.py:76-78 | Python indexing of the 8 bands: −8 to 7 are valid, and the chosen band is congruent to the index modulo 8. Anything else raises. |
| Composite.CreateComposite | generate_composite_images.py:62-84 | Fails exactly when one of the three indices is outside the bands. It reports the first invalid one in red, green, blue order, as the indexing raises. Otherwise each pixel holds red, green and blue from the three chosen bands at the same line and sample, in that order. |
| Composite.Stack | generate_composite_images.py:81 | The stacked image has the plane's 681×681 shape. |
| Composite.ChannelsOfStack | generate_composite_images.py:81 | Each channel of the stacked image is the whole plane it was made from. |
| Composite.CompositesAgreeWithLayers | generate_composite_images.py:97-111 | Every configured index lies in 0..7 and is its documented 1-based layer number minus 1. The keys are distinct. |
| Composite.CompositesNeverFail | generate_composite_images.py:97-135 | Every configured composite can be built from any cube. |
| PhaseFiles.Range | generate_composite_images.py:94 | `range(start, stop, step)`: every element lies in `[start, stop)`. It is empty exactly when `start >= stop`. |
| PhaseFiles.RangeAt | generate_composite_images.py:94 | The `i`-th element is `start + i·step`. |
| PhaseFiles.RangeReachesStop | generate_composite_images.py:94 | The range goes on until one more step reaches `stop`. |
| PhaseFiles.PhaseAnglesAreMultiplesOfFive | generate_composite_images.py:94 | There are 72 phase angles and the `i`-th is `5·i`. An angle is listed exactly when it is a multiple of 5 in 0..359. |
| PhaseFiles.Digits | generate_composite_images.py:114 | At least one character, all of them decimal digits. |
| PhaseFiles.ParseDigits | generate_composite_images.py:114 | The digits of `n` read back as `n`. |
| PhaseFiles.DigitsLength | generate_composite_images.py:114 | `n` needs at most `k` digits exactly when `n < 10^k`. |
| PhaseFiles.LeadingZero | generate_composite_images.py:114 | A leading zero does not change the value. |
| PhaseFiles.PadLeft | generate_composite_images.py:114 | The padded length is the width, or the original length when that is longer. |
| PhaseFiles.PadLeftContents | generate_composite_images.py:114 | Padding places exactly `width - length` pad characters before the unchanged string. |
| PhaseFiles.ParsePadded | generate_composite_images.py:114 | Zero padding keeps the value. |
| PhaseFiles.Pad3 | generate_composite_images.py:114 | `f'{n:03d}'`: at least three characters, all digits. |
| PhaseFiles.Pad3RoundTrip | generate_composite_images.py:114 | The padded phase is exactly three characters iff the angle is below 1000, and it always parses back to the angle. |
| PhaseFiles.InputName | generate_composite_images.py:115 | The name is `2012_A0.1_p`, then the padded phase, then `_colorCCD.img`. It has 27 characters for angles below 1000. |
| PhaseFiles.OutputName | generate_composite_images.py:138 | The name is `2012_A0.1_p`, then the padded phase, then `_` and the composite key, then `.png`. Its length is exact. |
| PhaseFiles.AngleOfNames | generate_composite_images.py:114-138 | The angle can be read back from both names. |
| PhaseFiles.NamesAreInjective | generate_composite_images.py:114-138 | Different angles give different input names. Different (angle, key) pairs give different output names. |
| PhaseFiles.AngleOutputs | generate_composite_images.py:113-141 | A missing or undecodable cube yields no images. Otherwise there is one image per composite, in table order, named from the angle and key. Each image is that composite built from the decoded cube. |
| PhaseFiles.Generate | generate_composite_images.py:113-145 | At most one image per composite and angle, and each image belongs to one of the given angles. |
| PhaseFiles.GenerateOutputsAreFromReadableCubes | generate_composite_images.py:113-145 | Every written image belongs to a listed angle whose cube exists and decodes. It uses a configured key and carries that angle's and key's name. |
| PhaseFiles.AngleOutputsDistinct | generate_composite_images.py:129-140 | The images of one angle have different names. |
| PhaseFiles.ConcatDistinct | generate_composite_images.py:113-141 | Two name-distinct batches with no common name stay distinct together. |
| PhaseFiles.GenerateNamesDistinct | generate_composite_images.py:113-145 | Over distinct angles below 1000, no two written images share a file name. |
| PhaseFiles.ReadableCount | generate_composite_images.py:113-126 | At most one readable cube per angle. |
| PhaseFiles.GenerateLength | generate_composite_images.py:113-145 | The run writes one image per composite for each readable angle, and nothing else. |
| PhaseFiles.PhaseAngleRun | generate_composite_images.py:93-145 | Over the 72 phase angles, two images are written per readable cube, at most 144 in all, and all their names differ. |

## Left out

- The Tk window: `PDS4ImageViewer.__init__`, `_build_ui`, `_on_select`, `_display_image` and `_select_index`. They are UI glue. Navigation is reduced to the list length and the selected index.
- `_get_cached_image`: a dictionary cache tied to the window's lifetime.
- `load_image_from_label`, `pds4_read`, `discover_label_files`, `parse_args` and `main`. They are file and library I/O.
- XML parsing in `extract_axis_names` (`ET.parse`, `findall`, `findtext`) and the `int()` parsing of `sequence_number` and `elements`. The model starts from the parsed `(sequence, name, elements)` entries of each array object, in `ARRAY_ELEMENT_TAGS` order. A parse failure returning `[]` is likewise outside the model.
- `_scale_single_channel`, `normalize_layer` and the numpy and PIL pixel operations (`np.squeeze`, `np.moveaxis`, `np.stack` on data, `Image.fromarray`, `save`). These are floating-point and library work. Only shapes, indices and names are modelled, and composites hold the selected bands' raw words.
- The IEEE-754 meaning of the 32-bit words read from a cube file. Only their bit patterns are modelled.
- File existence, reading and writing in `generate_composites_for_all_angles`. A failed `save` and the printed messages are not modelled. The directory is a map from file names to contents.
- Text.Lower: covers ASCII letters only. Python's `str.lower` also maps other Unicode letters, which cannot change whether an ASCII keyword occurs.
- ChannelAxis.SelectRepresentativeIndices: `np.linspace(0, n-1, 3)` is taken to be exact, giving `(n-1)/2` as the middle point. This holds for every channel count below 2^53.
- Display.ArrayToImage: models the `mode` chosen in the code. `Image.fromarray` infers its own mode from the payload, and the two agree on every array `prepare_display_array` returns.
