/** `read_ccd_image`: a colour-CCD cube file holds 8 bands of 681 lines of 681 samples, each a
    little-endian 32-bit float, band-major with the sample varying fastest. The floats are modelled
    as their 32-bit patterns; what they mean as numbers plays no part here. */
module CcdCube {
  import opened Outcomes
  import Arith

  newtype byte = x: int | 0 <= x < 256

  /** The bit pattern of one `float32`. */
  type Word = x: nat | x < 0x1_0000_0000

  const Bands: nat := 8
  const Lines: nat := 681
  const Samples: nat := 681
  /** Words in one band. */
  const PlaneSize: nat := Lines * Samples
  /** `total_elements`. */
  const WordCount: nat := Bands * Lines * Samples
  /** The bytes `struct.unpack` is given: `total_elements * 4`. */
  const ByteCount: nat := WordCount * 4

  /** A decoded cube: `[band][line][sample]`. */
  type Cube = seq<seq<seq<Word>>>

  datatype CcdError = ShortBuffer   // `struct.error`: fewer bytes than the format needs

  /** The cube has the fixed 8 × 681 × 681 shape. */
  predicate IsCube(c: Cube) {
    && |c| == Bands
    && (forall b :: 0 <= b < Bands ==> |c[b]| == Lines)
    && (forall b, l :: 0 <= b < Bands && 0 <= l < Lines ==> |c[b][l]| == Samples)
  }

  /** `<f`: the word whose least significant byte comes first. */
  function DecodeWord(b0: byte, b1: byte, b2: byte, b3: byte): Word {
    b0 as nat + 0x100 * b1 as nat + 0x1_0000 * b2 as nat + 0x100_0000 * b3 as nat
  }

  /** Byte `k` of the four is digit `k` of the word in base 256: the first byte is the least
      significant, the last the most significant. */
  lemma DecodeWordDigits(b0: byte, b1: byte, b2: byte, b3: byte)
    ensures var r := DecodeWord(b0, b1, b2, b3);
      && r % 0x100 == b0 as int
      && r / 0x100 % 0x100 == b1 as int
      && r / 0x1_0000 % 0x100 == b2 as int
      && r / 0x100_0000 == b3 as int
  {
    var w := DecodeWord(b0, b1, b2, b3);
    Arith.DivModUnique(w, 0x100, b1 as int + 0x100 * b2 as int + 0x1_0000 * b3 as int, b0 as int);
    Arith.DivModUnique(w / 0x100, 0x100, b2 as int + 0x100 * b3 as int, b1 as int);
    Arith.DivModUnique(w, 0x1_0000, b2 as int + 0x100 * b3 as int, b0 as int + 0x100 * b1 as int);
    Arith.DivModUnique(w / 0x1_0000, 0x100, b3 as int, b2 as int);
    Arith.DivModUnique(w, 0x100_0000, b3 as int, b0 as int + 0x100 * b1 as int + 0x1_0000 * b2 as int);
  }

  /** The four bytes of a word, least significant first. */
  function EncodeWord(w: Word): seq<byte> {
    var w1 := w / 0x100;
    var w2 := w1 / 0x100;
    var w3 := w2 / 0x100;
    [(w % 0x100) as byte, (w1 % 0x100) as byte, (w2 % 0x100) as byte, (w3 % 0x100) as byte]
  }

  /** Decoding the encoding of a word gives the word back. */
  lemma DecodeEncodeWord(w: Word)
    ensures var e := EncodeWord(w); DecodeWord(e[0], e[1], e[2], e[3]) == w
  {
    var w1 := w / 0x100;
    var w2 := w1 / 0x100;
    var w3 := w2 / 0x100;
    assert w == 0x100 * w1 + w % 0x100;
    assert w1 == 0x100 * w2 + w1 % 0x100;
    assert w2 == 0x100 * w3 + w2 % 0x100;
    assert w3 < 0x100;
  }

  /** Encoding the decoding of four bytes gives the bytes back: the four bytes and the word carry the
      same information. */
  lemma EncodeDecodeWord(b0: byte, b1: byte, b2: byte, b3: byte)
    ensures EncodeWord(DecodeWord(b0, b1, b2, b3)) == [b0, b1, b2, b3]
  {
    var w := DecodeWord(b0, b1, b2, b3);
    Arith.DivModUnique(w, 0x100, b1 as int + 0x100 * b2 as int + 0x1_0000 * b3 as int, b0 as int);
    Arith.DivModUnique(w / 0x100, 0x100, b2 as int + 0x100 * b3 as int, b1 as int);
    Arith.DivModUnique(w / 0x100 / 0x100, 0x100, b3 as int, b2 as int);
    Arith.DivModUnique(w / 0x100 / 0x100 / 0x100, 0x100, 0, b3 as int);
  }

  /** The `i`-th 4-byte word of `data`. */
  function WordAt(data: seq<byte>, i: nat): (r: Word)
    requires 4 * i + 4 <= |data|
    ensures EncodeWord(r) == data[4 * i..4 * i + 4]
  {
    EncodeDecodeWord(data[4 * i], data[4 * i + 1], data[4 * i + 2], data[4 * i + 3]);
    DecodeWord(data[4 * i], data[4 * i + 1], data[4 * i + 2], data[4 * i + 3])
  }

  /** A buffer of exactly `ByteCount` bytes read as consecutive little-endian 4-byte words. */
  function Words(data: seq<byte>): (r: seq<Word>)
    requires |data| == ByteCount
    ensures |r| == WordCount
  {
    seq(WordCount, i requires 0 <= i < WordCount => WordAt(data, i))
  }

  /** The position of `[b][l][s]` in the file's word order. */
  function FlatIndex(b: nat, l: nat, s: nat): nat {
    b * PlaneSize + l * Samples + s
  }

  /** The `(band, line, sample)` of the `i`-th word of the file. */
  function Coordinates(i: nat): (nat, nat, nat) {
    (i / PlaneSize, (i / Samples) % Lines, i % Samples)
  }

  /** Every in-range `(band, line, sample)` has a flat index in range, from which div/mod recover it. */
  lemma CoordinatesOfFlatIndex(b: nat, l: nat, s: nat)
    requires b < Bands && l < Lines && s < Samples
    ensures FlatIndex(b, l, s) < WordCount
    ensures Coordinates(FlatIndex(b, l, s)) == (b, l, s)
  {
    var i := FlatIndex(b, l, s);
    Arith.DivModUnique(i, PlaneSize, b, l * Samples + s);
    Arith.DivModUnique(i, Samples, b * Lines + l, s);
    Arith.DivModUnique(b * Lines + l, Lines, b, l);
  }

  /** Every flat index in range splits into an in-range `(band, line, sample)` that maps back to it:
      together with the lemma above, the layout is a bijection. */
  lemma FlatIndexOfCoordinates(i: nat)
    requires i < WordCount
    ensures var (b, l, s) := Coordinates(i);
      b < Bands && l < Lines && s < Samples && FlatIndex(b, l, s) == i
  {
    var q := i / Samples;
    var s := i % Samples;
    var l := q % Lines;
    var b0 := q / Lines;
    assert i == b0 * PlaneSize + (l * Samples + s);
    Arith.DivModUnique(i, PlaneSize, b0, l * Samples + s);
  }

  /** numpy's `reshape((8, 681, 681))` of the word sequence. */
  function Reshape(flat: seq<Word>): (c: Cube)
    requires |flat| == WordCount
    ensures IsCube(c)
  {
    seq(Bands, b requires 0 <= b < Bands =>
      seq(Lines, l requires 0 <= l < Lines =>
        seq(Samples, s requires 0 <= s < Samples =>
          CoordinatesOfFlatIndex(b, l, s); flat[FlatIndex(b, l, s)])))
  }

  /** The cube's words in file order. */
  function Flatten(c: Cube): (flat: seq<Word>)
    requires IsCube(c)
    ensures |flat| == WordCount
  {
    seq(WordCount, i requires 0 <= i < WordCount =>
      FlatIndexOfCoordinates(i); c[i / PlaneSize][(i / Samples) % Lines][i % Samples])
  }

  /** Flattening a reshaped word sequence gives the sequence back. */
  lemma FlattenReshape(flat: seq<Word>)
    requires |flat| == WordCount
    ensures Flatten(Reshape(flat)) == flat
  {
    var c := Reshape(flat);
    forall i | 0 <= i < WordCount
      ensures Flatten(c)[i] == flat[i]
    {
      FlatIndexOfCoordinates(i);
    }
  }

  /** Reshaping a flattened cube gives the cube back. */
  lemma ReshapeFlatten(c: Cube)
    requires IsCube(c)
    ensures Reshape(Flatten(c)) == c
  {
    var flat := Flatten(c);
    var d := Reshape(flat);
    forall b, l, s | 0 <= b < Bands && 0 <= l < Lines && 0 <= s < Samples
      ensures d[b][l][s] == c[b][l][s]
    {
      CoordinatesOfFlatIndex(b, l, s);
    }
    forall b, l | 0 <= b < Bands && 0 <= l < Lines
      ensures d[b][l] == c[b][l]
    {
    }
    forall b | 0 <= b < Bands
      ensures d[b] == c[b]
    {
    }
  }

  /** `read_ccd_image` on the file's bytes: only the first `ByteCount` bytes are decoded, and a
      shorter buffer fails. */
  function ReadCcd(data: seq<byte>): (r: Result<Cube, CcdError>)
    ensures r.Failure? <==> |data| < ByteCount
    ensures r.Success? ==> IsCube(r.value)
    ensures r.Success? ==> forall b, l, s :: 0 <= b < Bands && 0 <= l < Lines && 0 <= s < Samples ==>
              FlatIndex(b, l, s) < WordCount && r.value[b][l][s] == WordAt(data, FlatIndex(b, l, s))
  {
    if |data| < ByteCount then Failure(ShortBuffer)
    else
      var prefix := data[..ByteCount];
      var c := Reshape(Words(prefix));
      assert forall b, l, s :: 0 <= b < Bands && 0 <= l < Lines && 0 <= s < Samples ==>
               FlatIndex(b, l, s) < WordCount && c[b][l][s] == WordAt(data, FlatIndex(b, l, s)) by {
        forall b, l, s | 0 <= b < Bands && 0 <= l < Lines && 0 <= s < Samples
          ensures FlatIndex(b, l, s) < WordCount && c[b][l][s] == WordAt(data, FlatIndex(b, l, s))
        {
          CoordinatesOfFlatIndex(b, l, s);
        }
      }
      Success(c)
  }

  /** Bytes after the first `ByteCount` never change the result. */
  lemma TrailingBytesIgnored(data: seq<byte>, extra: seq<byte>)
    requires |data| >= ByteCount
    ensures ReadCcd(data + extra) == ReadCcd(data)
    ensures ReadCcd(data) == ReadCcd(data[..ByteCount])
  {
    assert (data + extra)[..ByteCount] == data[..ByteCount];
    assert data[..ByteCount][..ByteCount] == data[..ByteCount];
  }
}
