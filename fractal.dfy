/**
 * The fractal-noise grid builders: `makeLine`, `makeRectangle`,
 * `makeCuboid`, `makeCylinderSurface` and `makeSphereSurface` allocate a
 * one-, two- or three-level array and fill every cell with an octave sum
 * of a caller-supplied noise function, divided by a normaliser and passed
 * through the optional `scale` callback.
 *
 * Numbers are reals.  The noise functions and `scale` are parameters; the
 * trigonometric mapping from a cylinder column or a sphere cell to the
 * point sampled is a parameter too (`around`, `surface`).  A cell whose
 * normaliser is zero holds `NaN`.
 */
module FractalNoise {
  import opened Wrappers

  /** A cell value: a number, or the `NaN` of a division of zero by zero. */
  datatype Sample = Num(value: real) | NaN

  /** The options object, with `scale` absent or present. */
  datatype Options = Options(amplitude: real, frequency: real, octaves: nat, persistence: real, scale: Option<real -> real>)

  /** `defaultAmplitude`, `defaultFrequency`, `defaultOctaves`, `defaultPersistence`, no `scale`. */
  const Defaults: Options := Options(1.0, 1.0, 1, 0.5, None)

  /** `Math.pow(b, n)` for a whole exponent. */
  function Pow(b: real, n: nat): real {
    if n == 0 then 1.0 else b * Pow(b, n - 1)
  }

  /** `frequency * Math.pow(2, octaves)`: the one frequency `makeLine` samples at. */
  function LineFrequency(o: Options): real {
    o.frequency * Pow(2.0, o.octaves)
  }

  /** `frequency * Math.pow(2, octave)`. */
  function Frequency(o: Options, octave: nat): real {
    o.frequency * Pow(2.0, octave)
  }

  /**
   * `2 - 1 / Math.pow(2, octaves - 1)`.  With no octaves this is
   * `2 - 1 / 0.5`, zero.
   */
  function Divisor(octaves: nat): real {
    if octaves == 0 then 0.0 else PowPositive(octaves - 1); 2.0 - 1.0 / Pow(2.0, octaves - 1)
  }

  /** `amplitude · persistence^octave`: the weight of one octave. */
  function OctaveWeight(amplitude: real, persistence: real, octave: nat): real {
    amplitude * Pow(persistence, octave)
  }

  /** `Σ_{o < n} amplitude · persistence^o`: the total weight of `n` octaves. */
  function Weights(amplitude: real, persistence: real, n: nat): real {
    if n == 0 then 0.0 else Weights(amplitude, persistence, n - 1) + OctaveWeight(amplitude, persistence, n - 1)
  }

  /** `Σ_{o < n} sample(o) · amplitude · persistence^o`: the value after `n` rounds of the octave loop. */
  function OctaveSum(sample: nat -> real, amplitude: real, persistence: real, n: nat): real {
    if n == 0 then 0.0
    else OctaveSum(sample, amplitude, persistence, n - 1) + sample(n - 1) * OctaveWeight(amplitude, persistence, n - 1)
  }

  /**
   * A finished cell: the octave sum over the divisor, then `scale` when
   * one is given; `NaN` exactly when there are no octaves.
   */
  function Cell(sample: nat -> real, o: Options): (s: Sample)
    ensures s.NaN? <==> o.octaves == 0
  {
    if o.octaves == 0 then NaN
    else
      DivisorAtLeastOne(o.octaves);
      var v := OctaveSum(sample, o.amplitude, o.persistence, o.octaves) / Divisor(o.octaves);
      match o.scale
      case None => Num(v)
      case Some(scale) => Num(scale(v))
  }

  /**
   * The octave loop of one cell and the assignments after it.
   * `sample(octave)` is the noise value the loop body reads.
   */
  method FillCell(sample: nat -> real, o: Options) returns (s: Sample)
    ensures s == Cell(sample, o)
  {
    var value := 0.0;
    for octave := 0 to o.octaves
      invariant value == OctaveSum(sample, o.amplitude, o.persistence, octave)
    {
      value := value + sample(octave) * OctaveWeight(o.amplitude, o.persistence, octave);
    }
    var d := Divisor(o.octaves);
    if d == 0.0 {
      DivisorAtLeastOne(o.octaves);
      s := NaN;
    } else {
      DivisorAtLeastOne(o.octaves);
      s := Num(value / d);
      if o.scale.Some? {
        s := Num(o.scale.value(s.value));
      }
    }
  }

  // ---------------------------------------------------------------------
  // The points each builder samples
  // ---------------------------------------------------------------------

  /** `noise1(x * freq)`, where `makeLine` passes `freq = LineFrequency(o)`: the same for every octave. */
  function LineOctave(noise1: real -> real, freq: real, x: nat): nat -> real {
    (octave: nat) => noise1(x as real * freq)
  }

  /** `noise2(x * freq, y * freq)`. */
  function RectangleOctave(noise2: (real, real) -> real, o: Options, x: nat, y: nat): nat -> real {
    (octave: nat) => noise2(x as real * Frequency(o, octave), y as real * Frequency(o, octave))
  }

  /** `noise3(x * freq, y * freq, z * freq)`. */
  function CuboidOctave(noise3: (real, real, real) -> real, o: Options, x: nat, y: nat, z: nat): nat -> real {
    (octave: nat) => noise3(x as real * Frequency(o, octave), y as real * Frequency(o, octave), z as real * Frequency(o, octave))
  }

  /** `noise3(a * freq, b * freq, y * freq)`, where `(a, b) = around(x)` is column `x`'s point on the circle. */
  function CylinderOctave(noise3: (real, real, real) -> real, around: nat -> (real, real), o: Options, x: nat, y: nat): nat -> real {
    (octave: nat) => noise3(around(x).0 * Frequency(o, octave), around(x).1 * Frequency(o, octave), y as real * Frequency(o, octave))
  }

  /** `noise3(a * freq, b * freq, d * freq)`, where `(a, b, d) = surface(x, y)` is cell `(x, y)`'s point on the sphere. */
  function SphereOctave(noise3: (real, real, real) -> real, surface: (nat, nat) -> (real, real, real), o: Options, x: nat, y: nat): nat -> real {
    (octave: nat) => noise3(surface(x, y).0 * Frequency(o, octave), surface(x, y).1 * Frequency(o, octave), surface(x, y).2 * Frequency(o, octave))
  }

  // ---------------------------------------------------------------------
  // Builders
  // ---------------------------------------------------------------------

  /** `makeLine`: `length` cells. */
  method MakeLine(length: nat, noise1: real -> real, o: Options) returns (field: array<Sample>)
    ensures fresh(field) && field.Length == length
    ensures forall x | 0 <= x < length :: field[x] == Cell(LineOctave(noise1, LineFrequency(o), x), o)
  {
    field := new Sample[length](_ => NaN);
    for x := 0 to length
      invariant forall a | 0 <= a < x :: field[a] == Cell(LineOctave(noise1, LineFrequency(o), a), o)
    {
      field[x] := FillCell(LineOctave(noise1, LineFrequency(o), x), o);
    }
  }

  /** One column `field[x]` of `makeRectangle`: `height` cells. */
  method RectangleColumn(noise2: (real, real) -> real, o: Options, x: nat, height: nat) returns (column: array<Sample>)
    ensures fresh(column) && column.Length == height
    ensures forall y | 0 <= y < height :: column[y] == Cell(RectangleOctave(noise2, o, x, y), o)
  {
    column := new Sample[height](_ => NaN);
    for y := 0 to height
      invariant forall b | 0 <= b < y :: column[b] == Cell(RectangleOctave(noise2, o, x, b), o)
    {
      column[y] := FillCell(RectangleOctave(noise2, o, x, y), o);
    }
  }

  /** `makeRectangle`: `width` columns of `height` cells. */
  method MakeRectangle(width: nat, height: nat, noise2: (real, real) -> real, o: Options) returns (field: array<array<Sample>>)
    ensures fresh(field) && field.Length == width
    ensures forall x | 0 <= x < width :: (field[x].Length == height
      && forall y | 0 <= y < height :: field[x][y] == Cell(RectangleOctave(noise2, o, x, y), o))
  {
    var empty := new Sample[0];
    field := new array<Sample>[width](_ => empty);
    for x := 0 to width
      invariant forall a | 0 <= a < x :: (field[a].Length == height
        && forall y | 0 <= y < height :: field[a][y] == Cell(RectangleOctave(noise2, o, a, y), o))
    {
      var column := RectangleColumn(noise2, o, x, height);
      field[x] := column;
    }
  }

  /** One column `field[x]` of `makeCylinderSurface`: `height` cells. */
  method CylinderColumn(noise3: (real, real, real) -> real, around: nat -> (real, real), o: Options, x: nat, height: nat)
    returns (column: array<Sample>)
    ensures fresh(column) && column.Length == height
    ensures forall y | 0 <= y < height :: column[y] == Cell(CylinderOctave(noise3, around, o, x, y), o)
  {
    column := new Sample[height](_ => NaN);
    for y := 0 to height
      invariant forall b | 0 <= b < y :: column[b] == Cell(CylinderOctave(noise3, around, o, x, b), o)
    {
      column[y] := FillCell(CylinderOctave(noise3, around, o, x, y), o);
    }
  }

  /** `makeCylinderSurface`: `circumference` columns of `height` cells. */
  method MakeCylinderSurface(circumference: nat, height: nat, noise3: (real, real, real) -> real, around: nat -> (real, real), o: Options)
    returns (field: array<array<Sample>>)
    ensures fresh(field) && field.Length == circumference
    ensures forall x | 0 <= x < circumference :: (field[x].Length == height
      && forall y | 0 <= y < height :: field[x][y] == Cell(CylinderOctave(noise3, around, o, x, y), o))
  {
    var empty := new Sample[0];
    field := new array<Sample>[circumference](_ => empty);
    for x := 0 to circumference
      invariant forall a | 0 <= a < x :: (field[a].Length == height
        && forall y | 0 <= y < height :: field[a][y] == Cell(CylinderOctave(noise3, around, o, a, y), o))
    {
      var column := CylinderColumn(noise3, around, o, x, height);
      field[x] := column;
    }
  }

  /** One column `field[x]` of `makeSphereSurface`: `rows` cells. */
  method SphereColumn(noise3: (real, real, real) -> real, surface: (nat, nat) -> (real, real, real), o: Options, x: nat, rows: nat)
    returns (column: array<Sample>)
    ensures fresh(column) && column.Length == rows
    ensures forall y | 0 <= y < rows :: column[y] == Cell(SphereOctave(noise3, surface, o, x, y), o)
  {
    column := new Sample[rows](_ => NaN);
    for y := 0 to rows
      invariant forall b | 0 <= b < y :: column[b] == Cell(SphereOctave(noise3, surface, o, x, b), o)
    {
      column[y] := FillCell(SphereOctave(noise3, surface, o, x, y), o);
    }
  }

  /** The error `new Array` throws for a length that is not a whole number. */
  datatype RangeError = InvalidArrayLength

  /**
   * `makeSphereSurface`: `circumference` columns of `circumference / 2`
   * cells.  An odd circumference makes that length a fraction, and the
   * first column's `new Array` throws.
   */
  method MakeSphereSurface(circumference: nat, noise3: (real, real, real) -> real, surface: (nat, nat) -> (real, real, real), o: Options)
    returns (r: Result<array<array<Sample>>, RangeError>)
    ensures r.Failure? <==> circumference % 2 == 1
    ensures r.Success? ==> var field := r.value;
      fresh(field) && field.Length == circumference
      && forall x | 0 <= x < circumference :: (field[x].Length == circumference / 2
        && forall y | 0 <= y < circumference / 2 :: field[x][y] == Cell(SphereOctave(noise3, surface, o, x, y), o))
  {
    var empty := new Sample[0];
    var field := new array<Sample>[circumference](_ => empty);
    for x := 0 to circumference
      invariant x > 0 ==> circumference % 2 == 0
      invariant forall a | 0 <= a < x :: (field[a].Length == circumference / 2
        && forall y | 0 <= y < circumference / 2 :: field[a][y] == Cell(SphereOctave(noise3, surface, o, a, y), o))
    {
      if circumference % 2 == 1 {
        return Failure(InvalidArrayLength);
      }
      var column := SphereColumn(noise3, surface, o, x, circumference / 2);
      field[x] := column;
    }
    r := Success(field);
  }

  /** One row `field[x][y]` of `makeCuboid`: `depth` cells. */
  method CuboidRow(noise3: (real, real, real) -> real, o: Options, x: nat, y: nat, depth: nat) returns (row: array<Sample>)
    ensures fresh(row) && row.Length == depth
    ensures forall z | 0 <= z < depth :: row[z] == Cell(CuboidOctave(noise3, o, x, y, z), o)
  {
    row := new Sample[depth](_ => NaN);
    for z := 0 to depth
      invariant forall c | 0 <= c < z :: row[c] == Cell(CuboidOctave(noise3, o, x, y, c), o)
    {
      row[z] := FillCell(CuboidOctave(noise3, o, x, y, z), o);
    }
  }

  /** Whether `plane` is slice `x` of a cuboid: `height` rows of `depth` cells. */
  ghost predicate Slice(plane: array<array<Sample>>, noise3: (real, real, real) -> real, o: Options, x: nat, height: nat, depth: nat)
    reads plane, set y | 0 <= y < plane.Length :: plane[y]
  {
    plane.Length == height
    && forall y | 0 <= y < height :: (plane[y].Length == depth
      && forall z | 0 <= z < depth :: plane[y][z] == Cell(CuboidOctave(noise3, o, x, y, z), o))
  }

  /** One slice `field[x]` of `makeCuboid`: `height` rows of `depth` cells. */
  method CuboidSlice(noise3: (real, real, real) -> real, o: Options, x: nat, height: nat, depth: nat) returns (plane: array<array<Sample>>)
    ensures fresh(plane) && Slice(plane, noise3, o, x, height, depth)
  {
    var empty := new Sample[0];
    plane := new array<Sample>[height](_ => empty);
    for y := 0 to height
      invariant forall b | 0 <= b < y :: (plane[b].Length == depth
        && forall z | 0 <= z < depth :: plane[b][z] == Cell(CuboidOctave(noise3, o, x, b, z), o))
    {
      var row := CuboidRow(noise3, o, x, y, depth);
      plane[y] := row;
    }
  }

  /** `makeCuboid`: `width` slices of `height` rows of `depth` cells. */
  method MakeCuboid(width: nat, height: nat, depth: nat, noise3: (real, real, real) -> real, o: Options)
    returns (field: array<array<array<Sample>>>)
    ensures fresh(field) && field.Length == width
    ensures forall x | 0 <= x < width :: Slice(field[x], noise3, o, x, height, depth)
  {
    var empty := new array<Sample>[0];
    field := new array<array<Sample>>[width](_ => empty);
    for x := 0 to width
      invariant forall a | 0 <= a < x :: Slice(field[a], noise3, o, a, height, depth)
    {
      var plane := CuboidSlice(noise3, o, x, height, depth);
      field[x] := plane;
    }
  }

  // ---------------------------------------------------------------------
  // Properties
  // ---------------------------------------------------------------------

  lemma {:induction false} PowPositive(n: nat)
    ensures Pow(2.0, n) >= 1.0
  {
    if n > 0 {
      PowPositive(n - 1);
    }
  }

  /** With at least one octave the divisor lies in [1, 2). */
  lemma DivisorAtLeastOne(octaves: nat)
    ensures octaves > 0 ==> 1.0 <= Divisor(octaves) < 2.0
  {
    if octaves > 0 {
      PowPositive(octaves - 1);
    }
  }

  lemma {:induction false} PowHalf(n: nat)
    ensures Pow(0.5, n) * Pow(2.0, n) == 1.0
  {
    if n > 0 {
      PowHalf(n - 1);
      calc {
        Pow(0.5, n) * Pow(2.0, n);
        (0.5 * Pow(0.5, n - 1)) * (2.0 * Pow(2.0, n - 1));
        Pow(0.5, n - 1) * Pow(2.0, n - 1);
      }
    }
  }

  /**
   * The divisor is the total weight of the octaves at the default
   * persistence: `Σ_{o < n} 0.5^o = 2 - 1 / 2^(n-1)`.
   */
  lemma {:induction false} DivisorIsWeights(n: nat)
    requires n >= 1
    ensures Divisor(n) == Weights(1.0, 0.5, n)
  {
    if n > 1 {
      DivisorIsWeights(n - 1);
      PowHalf(n - 1);
      PowHalf(n - 2);
      PowPositive(n - 2);
      var p := Pow(2.0, n - 2);
      assert Pow(2.0, n - 1) == 2.0 * p;
      assert Pow(0.5, n - 1) == 1.0 / (2.0 * p);
      assert Weights(1.0, 0.5, n) == 2.0 - 1.0 / p + 1.0 / (2.0 * p);
    }
  }

  /** Noise values in [-1, 1] keep the octave sum within the total weight. */
  lemma {:induction false} OctaveSumBound(sample: nat -> real, amplitude: real, persistence: real, n: nat)
    requires amplitude >= 0.0 && persistence >= 0.0
    requires forall octave: nat :: -1.0 <= sample(octave) <= 1.0
    ensures -Weights(amplitude, persistence, n) <= OctaveSum(sample, amplitude, persistence, n) <= Weights(amplitude, persistence, n)
  {
    if n > 0 {
      OctaveSumBound(sample, amplitude, persistence, n - 1);
      PowNonNegative(persistence, n - 1);
      ProductNonNegative(amplitude, Pow(persistence, n - 1));
      BoundStep(OctaveSum(sample, amplitude, persistence, n - 1), Weights(amplitude, persistence, n - 1),
                sample(n - 1), OctaveWeight(amplitude, persistence, n - 1));
    }
  }

  /** One more octave: a sample in [-1, 1] at weight `w` widens the bound by `w`. */
  lemma BoundStep(sum: real, bound: real, a: real, w: real)
    requires -bound <= sum <= bound && -1.0 <= a <= 1.0 && w >= 0.0
    ensures -(bound + w) <= sum + a * w <= bound + w
  {
    ScaledBound(a, w);
    AddBounds(sum, bound, a * w, w);
  }

  lemma AddBounds(s: real, bound: real, t: real, w: real)
    requires -bound <= s <= bound && -w <= t <= w
    ensures -(bound + w) <= s + t <= bound + w
  {
  }

  lemma ProductNonNegative(a: real, b: real)
    requires a >= 0.0 && b >= 0.0
    ensures a * b >= 0.0
  {
  }

  lemma ScaledBound(a: real, w: real)
    requires -1.0 <= a <= 1.0 && w >= 0.0
    ensures -w <= a * w <= w
  {
  }

  lemma {:induction false} PowNonNegative(b: real, n: nat)
    requires b >= 0.0
    ensures Pow(b, n) >= 0.0
  {
    if n > 0 {
      PowNonNegative(b, n - 1);
    }
  }

  /**
   * With unit amplitude, the default persistence and no `scale`, noise
   * values in [-1, 1] give cells in [-1, 1]: the divisor normalises the
   * octave sum.
   */
  lemma Normalised(sample: nat -> real, o: Options)
    requires o.amplitude == 1.0 && o.persistence == 0.5 && o.octaves >= 1 && o.scale.None?
    requires forall octave: nat :: -1.0 <= sample(octave) <= 1.0
    ensures Cell(sample, o).Num? && -1.0 <= Cell(sample, o).value <= 1.0
  {
    OctaveSumBound(sample, o.amplitude, o.persistence, o.octaves);
    DivisorIsWeights(o.octaves);
    DivisorAtLeastOne(o.octaves);
    var s, d := OctaveSum(sample, o.amplitude, o.persistence, o.octaves), Divisor(o.octaves);
    assert -d <= s <= d;
    QuotientBound(s, d);
  }

  lemma QuotientBound(s: real, d: real)
    requires d > 0.0 && -d <= s <= d
    ensures -1.0 <= s / d <= 1.0
  {
  }

  /** With the default options a cell is the raw noise value at its point. */
  lemma DefaultsGiveRawNoise(sample: nat -> real)
    ensures Cell(sample, Defaults) == Num(sample(0))
  {
    assert OctaveSum(sample, 1.0, 0.5, 1) == sample(0) * OctaveWeight(1.0, 0.5, 0);
  }

  lemma {:induction false} ConstantOctaveSum(sample: nat -> real, c: real, amplitude: real, persistence: real, n: nat)
    requires forall octave: nat :: sample(octave) == c
    ensures OctaveSum(sample, amplitude, persistence, n) == c * Weights(amplitude, persistence, n)
  {
    if n > 0 {
      ConstantOctaveSum(sample, c, amplitude, persistence, n - 1);
    }
  }

  lemma LineOctaveConstant(noise1: real -> real, freq: real, x: nat)
    ensures forall octave: nat :: LineOctave(noise1, freq, x)(octave) == noise1(x as real * freq)
  {
  }

  /**
   * `makeLine` samples every octave at frequency `frequency · 2^octaves`,
   * so a cell is one noise value times the summed weights over the
   * divisor; with the default amplitude and persistence and no `scale` it
   * is exactly that one noise value.
   */
  lemma LineSamplesOneFrequency(noise1: real -> real, o: Options, x: nat)
    requires o.octaves >= 1 && o.scale.None?
    ensures var v := noise1(x as real * LineFrequency(o));
      var cell := Cell(LineOctave(noise1, LineFrequency(o), x), o);
      cell.Num? && cell.value * Divisor(o.octaves) == v * Weights(o.amplitude, o.persistence, o.octaves)
      && (o.amplitude == 1.0 && o.persistence == 0.5 ==> cell == Num(v))
  {
    var v := noise1(x as real * LineFrequency(o));
    var sample := LineOctave(noise1, LineFrequency(o), x);
    LineOctaveConstant(noise1, LineFrequency(o), x);
    ConstantOctaveSum(sample, v, o.amplitude, o.persistence, o.octaves);
    DivisorAtLeastOne(o.octaves);
    var d := Divisor(o.octaves);
    var s := OctaveSum(sample, o.amplitude, o.persistence, o.octaves);
    assert Cell(sample, o) == Num(s / d);
    assert s / d * d == s;
    if o.amplitude == 1.0 && o.persistence == 0.5 {
      DivisorIsWeights(o.octaves);
      assert s == v * d;
    }
  }
}
