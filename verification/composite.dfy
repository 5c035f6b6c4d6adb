/** `create_composite` and the `composites` table: three whole bands of a cube stacked as the red,
    green and blue channels of one image. The per-band percentile normalisation applied before
    stacking is floating-point work and is not part of this model; the stacked planes here hold the
    selected bands' words. */
module Composite {
  import opened Outcomes
  import opened CcdCube

  /** One pixel of a stacked image, in `np.stack(..., axis=-1)` order. */
  datatype Rgb<T> = Rgb(red: T, green: T, blue: T)

  /** A `lines × samples` plane of one band. */
  type Plane<T> = seq<seq<T>>

  predicate IsPlane<T>(p: Plane<T>) {
    |p| == Lines && forall l :: 0 <= l < Lines ==> |p[l]| == Samples
  }

  /** Python's `ccd_data[i]` on the 8 bands: `-8..-1` count from the end, anything else is an
      `IndexError`. */
  function BandIndex(i: int): (r: Option<nat>)
    ensures r.Some? <==> -(Bands as int) <= i < Bands as int
    ensures r.Some? ==> r.value < Bands && (r.value as int - i) % Bands as int == 0
  {
    if 0 <= i < Bands as int then Some(i as nat)
    else if -(Bands as int) <= i < 0 then Some((i + Bands as int) as nat)
    else None
  }

  /** Three planes combined pixel by pixel into colour triples. */
  function Stack<T>(red: Plane<T>, green: Plane<T>, blue: Plane<T>): (img: Plane<Rgb<T>>)
    requires IsPlane(red) && IsPlane(green) && IsPlane(blue)
    ensures IsPlane(img)
  {
    seq(Lines, l requires 0 <= l < Lines =>
      seq(Samples, s requires 0 <= s < Samples => Rgb(red[l][s], green[l][s], blue[l][s])))
  }

  datatype Colour = Red | Green | Blue

  function Pick<T>(px: Rgb<T>, c: Colour): T {
    match c
    case Red => px.red
    case Green => px.green
    case Blue => px.blue
  }

  /** One channel of a stacked image, `img[..., c]`. */
  function Channel<T>(img: Plane<Rgb<T>>, c: Colour): (p: Plane<T>)
    requires IsPlane(img)
    ensures IsPlane(p)
  {
    seq(Lines, l requires 0 <= l < Lines =>
      seq(Samples, s requires 0 <= s < Samples => Pick(img[l][s], c)))
  }

  /** Stacking loses nothing: each channel of the stacked image is the plane it was made from. */
  lemma ChannelsOfStack<T>(red: Plane<T>, green: Plane<T>, blue: Plane<T>)
    requires IsPlane(red) && IsPlane(green) && IsPlane(blue)
    ensures Channel(Stack(red, green, blue), Red) == red
    ensures Channel(Stack(red, green, blue), Green) == green
    ensures Channel(Stack(red, green, blue), Blue) == blue
  {
    var img := Stack(red, green, blue);
    forall l | 0 <= l < Lines
      ensures Channel(img, Red)[l] == red[l]
      ensures Channel(img, Green)[l] == green[l]
      ensures Channel(img, Blue)[l] == blue[l]
    {
    }
  }

  /** `create_composite(ccd_data, red, green, blue)` before normalisation: each channel is one whole
      band, picked in red, green, blue order; an index outside the 8 bands raises. */
  function CreateComposite(cube: Cube, red: int, green: int, blue: int): (r: Result<Plane<Rgb<Word>>, int>)
    requires IsCube(cube)
    ensures r.Failure? <==> BandIndex(red).None? || BandIndex(green).None? || BandIndex(blue).None?
    ensures r.Failure? ==>
              BandIndex(r.error).None? && (r.error == red || r.error == green || r.error == blue)
    // The first invalid index in red, green, blue order is the one reported.
    ensures r.Failure? ==>
              r.error == (if BandIndex(red).None? then red else if BandIndex(green).None? then green else blue)
    ensures r.Success? ==> IsPlane(r.value) && forall l, s :: 0 <= l < Lines && 0 <= s < Samples ==>
              r.value[l][s] == Rgb(cube[BandIndex(red).value][l][s],
                                   cube[BandIndex(green).value][l][s],
                                   cube[BandIndex(blue).value][l][s])
  {
    match (BandIndex(red), BandIndex(green), BandIndex(blue))
    case (None, _, _) => Failure(red)
    case (_, None, _) => Failure(green)
    case (_, _, None) => Failure(blue)
    case (Some(r), Some(g), Some(b)) => Success(Stack(cube[r], cube[g], cube[b]))
  }

  /** One entry of the `composites` table. */
  datatype Config = Config(key: string, name: string, red: int, green: int, blue: int)

  /** The `composites` table, in insertion order. */
  const Composites: seq<Config> := [
    Config("5_2_1.3", "5, 2, 1.3 \U{00B5}m", 7, 4, 2),
    Config("2_1.6_1.3", "2, 1.6, 1.3 \U{00B5}m", 4, 3, 2)
  ]

  /** The layers the table's comments name, counted from 1: red, green, blue. */
  const DocumentedLayers: seq<(nat, nat, nat)> := [(8, 5, 3), (5, 4, 3)]

  /** Every configured index is a band index, is one less than the documented 1-based layer, and
      the keys are distinct (they become distinct file names). */
  lemma CompositesAgreeWithLayers()
    ensures |Composites| == |DocumentedLayers|
    ensures forall i :: 0 <= i < |Composites| ==>
              var c := Composites[i];
              var (lr, lg, lb) := DocumentedLayers[i];
              && 0 <= c.red < Bands && 0 <= c.green < Bands && 0 <= c.blue < Bands
              && c.red == lr - 1 && c.green == lg - 1 && c.blue == lb - 1
    ensures forall i, j :: 0 <= i < j < |Composites| ==> Composites[i].key != Composites[j].key
  {
  }

  /** Every configured composite can be made from any cube. */
  lemma CompositesNeverFail(cube: Cube, i: nat)
    requires IsCube(cube) && i < |Composites|
    ensures CreateComposite(cube, Composites[i].red, Composites[i].green, Composites[i].blue).Success?
  {
    CompositesAgreeWithLayers();
  }
}
