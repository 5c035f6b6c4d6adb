/** The loop of `generate_composites_for_all_angles`: phase angles `range(0, 360, 5)`, each written
    as three zero-padded digits into the input and output file names. */
module PhaseFiles {
  import opened Outcomes
  import Seqs
  import Arith
  import opened CcdCube
  import opened Composite

  /** Python's `range(start, stop, step)` for a positive step. */
  function Range(start: int, stop: int, step: int): (r: seq<int>)
    requires step > 0
    ensures forall i :: 0 <= i < |r| ==> start <= r[i] < stop
    ensures |r| == 0 <==> start >= stop
    decreases stop - start
  {
    if start >= stop then [] else [start] + Range(start + step, stop, step)
  }

  /** The `i`-th element of a range is `start + i * step`. */
  lemma {:induction false} RangeAt(start: int, stop: int, step: int, i: nat)
    requires step > 0 && i < |Range(start, stop, step)|
    ensures Range(start, stop, step)[i] == start + i * step
    decreases i
  {
    if i > 0 {
      RangeAt(start + step, stop, step, i - 1);
      assert (i - 1) * step + step == i * step;
    }
  }

  /** A range runs up to `stop`: one more step past its last element reaches `stop`. */
  lemma {:induction false} RangeReachesStop(start: int, stop: int, step: int)
    requires step > 0
    ensures start + |Range(start, stop, step)| * step >= stop
    decreases stop - start
  {
    if start < stop {
      RangeReachesStop(start + step, stop, step);
      var n := |Range(start + step, stop, step)|;
      assert (n + 1) * step == n * step + step;
    }
  }

  /** The phase angles: 0 to 355 degrees in steps of 5. */
  const PhaseAngles: seq<nat> := Range(0, 360, 5)

  /** There are 72 phase angles, the `i`-th is `5 * i`, and an angle is in the list exactly when it
      is a multiple of 5 in `0..359`. */
  lemma PhaseAnglesAreMultiplesOfFive()
    ensures |PhaseAngles| == 72
    ensures forall i :: 0 <= i < 72 ==> PhaseAngles[i] == 5 * i
    ensures forall a :: a in PhaseAngles <==> 0 <= a < 360 && a % 5 == 0
  {
    var n := |PhaseAngles|;
    RangeReachesStop(0, 360, 5);
    RangeAt(0, 360, 5, n - 1);
    assert n == 72;
    forall i | 0 <= i < 72
      ensures PhaseAngles[i] == 5 * i
    {
      RangeAt(0, 360, 5, i);
    }
    forall a | 0 <= a < 360 && a % 5 == 0
      ensures a in PhaseAngles
    {
      Arith.DivModUnique(a, 5, a / 5, 0);
      assert PhaseAngles[a / 5] == a;
    }
    forall a | a in PhaseAngles
      ensures 0 <= a < 360 && a % 5 == 0
    {
      var i :| 0 <= i < 72 && PhaseAngles[i] == a;
      Arith.DivModUnique(a, 5, i, 0);
    }
  }

  predicate IsDigit(c: char) {
    '0' <= c <= '9'
  }

  function DigitChar(d: nat): (c: char)
    requires d < 10
    ensures IsDigit(c)
  {
    ('0' as int + d) as char
  }

  /** The value of a digit character; anything else counts as 0 and never occurs below. */
  function DigitValue(c: char): (d: nat)
    ensures d < 10
    ensures IsDigit(c) ==> DigitChar(d) == c
  {
    if IsDigit(c) then (c as int - '0' as int) as nat else 0
  }

  /** The decimal digits of `n`, most significant first, without leading zeros. */
  function Digits(n: nat): (s: string)
    ensures |s| >= 1 && forall i :: 0 <= i < |s| ==> IsDigit(s[i])
  {
    if n < 10 then [DigitChar(n)] else Digits(n / 10) + [DigitChar(n % 10)]
  }

  /** The number a string of decimal digits spells, as `int(s)` reads it. */
  function ParseDecimal(s: string): nat
  {
    if s == [] then 0 else ParseDecimal(s[..|s| - 1]) * 10 + DigitValue(s[|s| - 1])
  }

  function Pow10(k: nat): (r: nat)
    ensures r >= 1
  {
    if k == 0 then 1 else 10 * Pow10(k - 1)
  }

  /** Reading back the digits of `n` gives `n`. */
  lemma {:induction false} ParseDigits(n: nat)
    ensures ParseDecimal(Digits(n)) == n
  {
    if n >= 10 {
      ParseDigits(n / 10);
      var s := Digits(n);
      assert s[..|s| - 1] == Digits(n / 10);
    }
  }

  /** `n` needs at most `k` digits exactly when it is below `10^k`. */
  lemma {:induction false} DigitsLength(n: nat, k: nat)
    requires k >= 1
    ensures |Digits(n)| <= k <==> n < Pow10(k)
    decreases k
  {
    if n >= 10 {
      if k == 1 {
        assert |Digits(n)| >= 2;
      } else {
        DigitsLength(n / 10, k - 1);
      }
    }
  }

  /** A leading `'0'` does not change the number. */
  lemma {:induction false} LeadingZero(s: string)
    ensures ParseDecimal(['0'] + s) == ParseDecimal(s)
    decreases |s|
  {
    if s != [] {
      var t := ['0'] + s;
      assert t[..|t| - 1] == ['0'] + s[..|s| - 1];
      LeadingZero(s[..|s| - 1]);
    }
  }

  /** `s` padded on the left with `pad` up to `width` characters; a longer `s` is left alone. */
  function PadLeft(s: string, width: nat, pad: char): (r: string)
    ensures |r| == if |s| >= width then |s| else width
    decreases width - |s|
  {
    if |s| >= width then s else [pad] + PadLeft(s, width - 1, pad)
  }

  /** Padding puts `width - |s|` copies of `pad` in front of a shorter `s`. */
  lemma {:induction false} PadLeftContents(s: string, width: nat, pad: char)
    requires |s| < width
    ensures PadLeft(s, width, pad) == seq(width - |s|, _ => pad) + s
    decreases width - |s|
  {
    var k := width - |s|;
    assert seq(k, _ => pad) == [pad] + seq(k - 1, _ => pad);
    if k > 1 {
      PadLeftContents(s, width - 1, pad);
    }
  }

  /** The decimal digits of a non-negative `n`, padded on the left with zeros to at least three
      characters. */
  function Pad3(n: nat): (r: string)
    ensures |r| >= 3
    ensures forall i :: 0 <= i < |r| ==> IsDigit(r[i])
  {
    var d := Digits(n);
    var r := PadLeft(d, 3, '0');
    if |d| < 3 then
      PadLeftContents(d, 3, '0');
      r
    else r
  }

  lemma PadOneMore(s: string, width: nat)
    requires |s| < width
    ensures PadLeft(s, width, '0') == ['0'] + PadLeft(s, width - 1, '0')
  {
  }

  /** Zero padding keeps the value. */
  lemma {:induction false} ParsePadded(s: string, width: nat)
    ensures ParseDecimal(PadLeft(s, width, '0')) == ParseDecimal(s)
    decreases width - |s|
  {
    if |s| < width {
      var t := PadLeft(s, width - 1, '0');
      ParsePadded(s, width - 1);
      LeadingZero(t);
      PadOneMore(s, width);
    }
  }

  /** The padded phase is three digits for every angle below 1000, and always parses back to the
      angle. */
  lemma Pad3RoundTrip(n: nat)
    ensures |Pad3(n)| == 3 <==> n < 1000
    ensures ParseDecimal(Pad3(n)) == n
  {
    DigitsLength(n, 3);
    ParsePadded(Digits(n), 3);
    ParseDigits(n);
  }

  const NamePrefix: string := "2012_A0.1_p"

  /** `img_filename`: the cube read for one phase angle. */
  function InputName(angle: nat): (r: string)
    ensures |r| >= |NamePrefix| + 3 + 13
    ensures angle < 1000 ==> |r| == |NamePrefix| + 3 + 13
    ensures r[..|NamePrefix|] == NamePrefix && r[|r| - 13..] == "_colorCCD.img"
    ensures r[|NamePrefix|..|r| - 13] == Pad3(angle)
  {
    var p := Pad3(angle);
    DigitsLength(angle, 3);
    var r := NamePrefix + p + "_colorCCD.img";
    assert r[..|NamePrefix|] == NamePrefix;
    assert r[|r| - 13..] == "_colorCCD.img";
    r
  }

  /** `output_filename`: the image written for one phase angle and composite key. */
  function OutputName(angle: nat, key: string): (r: string)
    ensures |r| >= |NamePrefix| + 3 + 1 + |key| + 4
    ensures |r| == |NamePrefix| + |Pad3(angle)| + 1 + |key| + 4
    ensures r[..|NamePrefix|] == NamePrefix && r[|r| - 4..] == ".png"
    // Between them: the padded phase, then an underscore and the composite key.
    ensures r[|NamePrefix|..|NamePrefix| + |Pad3(angle)|] == Pad3(angle)
    ensures r[|NamePrefix| + |Pad3(angle)|..|r| - 4] == "_" + key
    ensures angle < 1000 ==> r[|NamePrefix|..|NamePrefix| + 3] == Pad3(angle) && r[|NamePrefix| + 3..|r| - 4] == "_" + key
  {
    var p := Pad3(angle);
    DigitsLength(angle, 3);
    var r := NamePrefix + p + "_" + key + ".png";
    assert r[|NamePrefix|..|NamePrefix| + |p|] == p;
    assert r[|NamePrefix| + |p|..|r| - 4] == "_" + key;
    r
  }

  /** The angle written into a file name by `InputName` or `OutputName`. */
  function AngleOfName(name: string): Option<nat> {
    var start := |NamePrefix|;
    if |name| < start + 3 then None
    else
      var digits := name[start..start + 3];
      if forall i :: 0 <= i < 3 ==> IsDigit(digits[i]) then Some(ParseDecimal(digits)) else None
  }

  /** The phase angle can be read back from either name. */
  lemma AngleOfNames(angle: nat, key: string)
    requires angle < 1000
    ensures AngleOfName(InputName(angle)) == Some(angle)
    ensures AngleOfName(OutputName(angle, key)) == Some(angle)
  {
    Pad3RoundTrip(angle);
    var p := Pad3(angle);
    var start := |NamePrefix|;
    assert InputName(angle)[start..start + 3] == p;
    assert OutputName(angle, key)[start..start + 3] == p;
  }

  /** Different angles below 1000 get different input names; different (angle, key) pairs get
      different output names. */
  lemma NamesAreInjective(a: nat, b: nat, k: string, k': string)
    requires a < 1000 && b < 1000
    ensures InputName(a) == InputName(b) ==> a == b
    ensures OutputName(a, k) == OutputName(b, k') ==> a == b && k == k'
  {
    AngleOfNames(a, k);
    AngleOfNames(b, k');
    if OutputName(a, k) == OutputName(b, k') {
      Pad3RoundTrip(a);
      var n := OutputName(a, k);
      var head := |NamePrefix| + 4;
      assert n[head..|n| - 4] == k;
      assert OutputName(b, k')[head..|n| - 4] == k';
    }
  }

  /** One image written by the loop. */
  datatype Output = Output(name: string, angle: nat, key: string, image: Plane<Rgb<Word>>)

  /** The angle's cube file exists and decodes. */
  predicate Readable(files: map<string, seq<byte>>, angle: nat) {
    InputName(angle) in files && ReadCcd(files[InputName(angle)]).Success?
  }

  /** `key` is the key of a configured composite. */
  predicate ConfiguredKey(key: string) {
    exists i :: 0 <= i < |Composites| && Composites[i].key == key
  }

  /** What the loop does for one angle: a missing file is skipped, a file that cannot be decoded is
      reported and skipped, and otherwise every composite is written. `files` stands for the
      contents of `public/assets/raw`. */
  function AngleOutputs(files: map<string, seq<byte>>, angle: nat): (r: seq<Output>)
    ensures |r| == if Readable(files, angle) then |Composites| else 0
    ensures forall i :: 0 <= i < |r| ==>
              && r[i].angle == angle && r[i].key == Composites[i].key
              && r[i].name == OutputName(angle, Composites[i].key)
    // Each image is the composite of the angle's decoded cube with that configuration's bands.
    ensures forall i :: 0 <= i < |r| ==>
              && InputName(angle) in files && ReadCcd(files[InputName(angle)]).Success?
              && var c := Composites[i];
                 r[i].image == CreateComposite(ReadCcd(files[InputName(angle)]).value, c.red, c.green, c.blue).value
  {
    var name := InputName(angle);
    if name !in files then []
    else match ReadCcd(files[name])
      case Failure(_) => []
      case Success(cube) =>
        assert forall i :: 0 <= i < |Composites| ==>
                 CreateComposite(cube, Composites[i].red, Composites[i].green, Composites[i].blue).Success? by {
          forall i | 0 <= i < |Composites|
            ensures CreateComposite(cube, Composites[i].red, Composites[i].green, Composites[i].blue).Success?
          {
            CompositesNeverFail(cube, i);
          }
        }
        seq(|Composites|, i requires 0 <= i < |Composites| =>
          var c := Composites[i];
          Output(OutputName(angle, c.key), angle, c.key, CreateComposite(cube, c.red, c.green, c.blue).value))
  }

  /** `generate_composites_for_all_angles` over the given phase angles, in order. */
  function Generate(files: map<string, seq<byte>>, angles: seq<nat>): (r: seq<Output>)
    ensures |r| <= |Composites| * |angles|
    ensures forall k :: 0 <= k < |r| ==> r[k].angle in angles
  {
    if angles == [] then [] else AngleOutputs(files, angles[0]) + Generate(files, angles[1..])
  }

  /** Every output belongs to one of the given angles whose cube file exists and decodes, carries
      that angle's name, and uses a configured composite key. */
  lemma {:induction false} GenerateOutputsAreFromReadableCubes(files: map<string, seq<byte>>, angles: seq<nat>)
    ensures forall o :: o in Generate(files, angles) ==>
              && o.angle in angles && Readable(files, o.angle)
              && ConfiguredKey(o.key) && o.name == OutputName(o.angle, o.key)
    decreases |angles|
  {
    if angles != [] {
      GenerateOutputsAreFromReadableCubes(files, angles[1..]);
      var here := AngleOutputs(files, angles[0]);
      forall j | 0 <= j < |here|
        ensures && here[j].angle == angles[0] && Readable(files, angles[0])
                && ConfiguredKey(here[j].key) && here[j].name == OutputName(angles[0], here[j].key)
      {
      }
    }
  }

  /** No two outputs share a file name. */
  predicate DistinctNames(r: seq<Output>) {
    forall i, j :: 0 <= i < j < |r| ==> r[i].name != r[j].name
  }

  /** The outputs for one angle all carry that angle and have different names. */
  lemma AngleOutputsDistinct(files: map<string, seq<byte>>, angle: nat)
    requires angle < 1000
    ensures forall o :: o in AngleOutputs(files, angle) ==> o.angle == angle
    ensures DistinctNames(AngleOutputs(files, angle))
  {
    var r := AngleOutputs(files, angle);
    forall i, j | 0 <= i < j < |r|
      ensures r[i].name != r[j].name
    {
      CompositesAgreeWithLayers();
      NamesAreInjective(angle, angle, Composites[i].key, Composites[j].key);
    }
  }

  /** Joining two name-distinct output lists with no name in common keeps the names distinct. */
  lemma ConcatDistinct(x: seq<Output>, y: seq<Output>)
    requires DistinctNames(x) && DistinctNames(y)
    requires forall o, o' :: o in x && o' in y ==> o.name != o'.name
    ensures DistinctNames(x + y)
  {
    var r := x + y;
    forall i, j | 0 <= i < j < |r|
      ensures r[i].name != r[j].name
    {
      if i < |x| && j >= |x| {
        assert r[i] in x && r[j] in y;
      }
    }
  }

  /** Over distinct angles below 1000 (such as the phase angles), no two outputs share a file name. */
  lemma {:induction false} GenerateNamesDistinct(files: map<string, seq<byte>>, angles: seq<nat>)
    requires Seqs.NoDups(angles)
    requires forall i :: 0 <= i < |angles| ==> angles[i] < 1000
    ensures DistinctNames(Generate(files, angles))
    decreases |angles|
  {
    if angles != [] {
      var a := angles[0];
      var rest := angles[1..];
      assert Seqs.NoDups(rest) by {
        forall i, j | 0 <= i < j < |rest|
          ensures rest[i] != rest[j]
        {
          assert rest[i] == angles[i + 1] && rest[j] == angles[j + 1];
        }
      }
      assert a !in rest;
      GenerateNamesDistinct(files, rest);
      GenerateOutputsAreFromReadableCubes(files, rest);
      AngleOutputsDistinct(files, a);
      var here := AngleOutputs(files, a);
      var tail := Generate(files, rest);
      forall o, o' | o in here && o' in tail
        ensures o.name != o'.name
      {
        NamesAreInjective(a, o'.angle, o.key, o'.key);
      }
      ConcatDistinct(here, tail);
    }
  }

  /** How many of `angles` have a readable cube. */
  function ReadableCount(files: map<string, seq<byte>>, angles: seq<nat>): (n: nat)
    ensures n <= |angles|
  {
    if angles == [] then 0
    else (if Readable(files, angles[0]) then 1 else 0) + ReadableCount(files, angles[1..])
  }

  /** Each readable angle contributes one image per composite, and no other angle contributes any. */
  lemma {:induction false} GenerateLength(files: map<string, seq<byte>>, angles: seq<nat>)
    ensures |Generate(files, angles)| == |Composites| * ReadableCount(files, angles)
    decreases |angles|
  {
    if angles != [] {
      GenerateLength(files, angles[1..]);
    }
  }

  /** The whole run: two images for each of the 72 angles whose cube exists and decodes, all with
      different names. */
  lemma PhaseAngleRun(files: map<string, seq<byte>>)
    ensures |Generate(files, PhaseAngles)| == 2 * ReadableCount(files, PhaseAngles) <= 2 * 72
    ensures DistinctNames(Generate(files, PhaseAngles))
  {
    PhaseAnglesAreMultiplesOfFive();
    GenerateNamesDistinct(files, PhaseAngles);
    GenerateLength(files, PhaseAngles);
  }
}
