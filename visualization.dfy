/**
  The colour-grid generator of the visualizer: sample points and quads over a
  three-axis integer grid whose step counts are the settings' `hcl_adjust`,
  the mesh built for each quad, and the dispatch that turns one crate colour
  into a position and a display colour. Crate calls go through `ColorCrate`.
*/
module Visualization {
  import opened Primitives
  import opened ColorCrate
  import opened GridWalk

  datatype RotationDirection = None | Clockwise | Counterclockwise

  datatype SlicingMethod = Radial | Axial | Concentric

  /** The settings fields the generator reads (the GUI's `VisualizationSettings`). */
  datatype Settings = Settings(
    componentLimit: (real, real, real),
    gamma: (real, real, real),
    hclAdjust: (u8, u8, u8),
    isChromaLuma: bool,
    colorModel: ColorModel,
    colorSpace: ColorSpace,
    quadShape: SlicingMethod,
    gammaDeform: bool,
    discreteColor: bool,
    colorSpaceModel: ColorModel,
    modelRotation: RotationDirection,
    modelMirrored: bool
  )

  /** One entry of a slicing method's offset table: a unit step per axis. */
  datatype Offset = Offset(a: real, b: real, c: real) {
    function At(i: nat): real
      requires i < 3
    {
      if i == 0 then a else if i == 1 then b else c
    }
  }

  /** Number of axes on which `p` and `q` differ. */
  function ChangedAxes(p: Offset, q: Offset): nat {
    (if p.a != q.a then 1 else 0) + (if p.b != q.b then 1 else 0) + (if p.c != q.c then 1 else 0)
  }

  /** The axis a slicing method holds fixed across its four corners. */
  function HeldAxis(m: SlicingMethod): nat {
    match m
    case Radial => 0
    case Concentric => 1
    case Axial => 2
  }

  /** `SlicingMethod::get_offsets`: the four corners of a unit square in the
      two axes the method varies, starting at the base point and walking the
      square as a cycle. */
  function GetOffsets(m: SlicingMethod): (r: seq<Offset>)
    ensures |r| == 4
    ensures r[0] == Offset(0.0, 0.0, 0.0)
    ensures forall n, i | 0 <= n < 4 && 0 <= i < 3 :: r[n].At(i) == 0.0 || r[n].At(i) == 1.0
    ensures forall n | 0 <= n < 4 :: r[n].At(HeldAxis(m)) == 0.0
    ensures forall i | 0 <= i < 3 && i != HeldAxis(m) :: r[2].At(i) == 1.0
    ensures ChangedAxes(r[0], r[1]) == ChangedAxes(r[1], r[2]) == 1
    ensures ChangedAxes(r[2], r[3]) == ChangedAxes(r[3], r[0]) == 1
    ensures r[2] == Offset(r[1].a + r[3].a, r[1].b + r[3].b, r[1].c + r[3].c)
  {
    match m
    case Radial =>
      [Offset(0.0, 0.0, 0.0), Offset(0.0, 1.0, 0.0), Offset(0.0, 1.0, 1.0), Offset(0.0, 0.0, 1.0)]
    case Concentric =>
      [Offset(0.0, 0.0, 0.0), Offset(1.0, 0.0, 0.0), Offset(1.0, 0.0, 1.0), Offset(0.0, 0.0, 1.0)]
    case Axial =>
      [Offset(0.0, 0.0, 0.0), Offset(1.0, 0.0, 0.0), Offset(1.0, 1.0, 0.0), Offset(0.0, 1.0, 0.0)]
  }

  // ---------------------------------------------------------------------------
  // Grid constants

  /** `1. / steps`. A zero step count has no exact value (f32 gives +inf); it
      never reaches a coordinate, because the loop over that axis is then empty. */
  function Step(steps: u8): real {
    if steps == 0 then 0.0 else 1.0 / steps as real
  }

  /** The b and c loops start at 1 in HWB mode, at 0 in chroma-luma mode. */
  function HwbOffset(s: Settings): u8 {
    if s.isChromaLuma then 0 else 1
  }

  /** Quads extend up the b and c axes in chroma-luma mode, down them in HWB mode. */
  function QuadDirection(s: Settings): real {
    if s.isChromaLuma then 1.0 else -1.0
  }

  /** Luma-chroma models centre the b and c axes on zero. */
  function YuvOffset(s: Settings, k: ColorCrate): real {
    if k.isLumaChroma(s.colorModel) then -0.5 else 0.0
  }

  /** The u8 loop bounds `b_steps + hwb_offset` and `c_steps + hwb_offset` do
      not overflow. */
  predicate BoundsFit(s: Settings) {
    s.hclAdjust.1 as int + HwbOffset(s) as int <= 255 && s.hclAdjust.2 as int + HwbOffset(s) as int <= 255
  }

  /** The step counts the GUI sliders allow. */
  predicate SliderSteps(s: Settings) {
    1 <= s.hclAdjust.0 <= 48 && 1 <= s.hclAdjust.1 <= 24 && 1 <= s.hclAdjust.2 <= 24
  }

  /** The loop ranges of `generate_point_colors`. */
  function PointRanges(s: Settings): Ranges {
    var hwb := HwbOffset(s) as int;
    Ranges(s.hclAdjust.0 as int, hwb, s.hclAdjust.1 as int + hwb, hwb, s.hclAdjust.2 as int + hwb)
  }

  /** The loop ranges of `generate_quads`: the c loop starts at twice the offset. */
  function QuadRanges(s: Settings): Ranges {
    var hwb := HwbOffset(s) as int;
    Ranges(s.hclAdjust.0 as int, hwb, s.hclAdjust.1 as int + hwb, 2 * hwb, s.hclAdjust.2 as int + hwb)
  }

  // ---------------------------------------------------------------------------
  // Sample points

  /** The abstract colour coordinate of grid cell `(a, b, c)`. */
  function PointCoord(s: Settings, k: ColorCrate, a: int, b: int, c: int): Coord4 {
    var yuv := YuvOffset(s, k);
    Coord4(a as real * Step(s.hclAdjust.0),
           b as real * Step(s.hclAdjust.1) + yuv,
           c as real * Step(s.hclAdjust.2) + yuv,
           1.0)
  }

  /** The colour `generate_point_colors` emits for cell `(a, b, c)`. */
  function PointCell(s: Settings, k: ColorCrate): (int, int, int) -> PColor {
    (a, b, c) => k.intoColor(PointCoord(s, k, a, b, c), s.colorModel)
  }

  /** `generate_point_colors`: one colour per grid cell, a outer, b middle, c inner. */
  method GeneratePointColors(s: Settings, k: ColorCrate) returns (points: seq<PColor>)
    requires BoundsFit(s)
    ensures points == Cells(PointCell(s, k), PointRanges(s))
    ensures |points| == s.hclAdjust.0 as int * s.hclAdjust.1 as int * s.hclAdjust.2 as int
    ensures forall a, b, c | InRanges(PointRanges(s), a, b, c) ::
              0 <= Position(PointRanges(s), a, b, c) < |points| &&
              points[Position(PointRanges(s), a, b, c)] == k.intoColor(PointCoord(s, k, a, b, c), s.colorModel)
  {
    var (aSteps, bSteps, cSteps) := s.hclAdjust;
    var hwbOffset: u8 := if s.isChromaLuma then 0 else 1;
    // for a in 0..a_steps, b in hwb..b_steps + hwb, c in hwb..c_steps + hwb (u8 bounds)
    var ranges := Ranges(aSteps as int, (0 + hwbOffset) as int, (bSteps + hwbOffset) as int,
                         (0 + hwbOffset) as int, (cSteps + hwbOffset) as int);
    points := Collect(PointCell(s, k), ranges);
    PointsLayout(s, k);
  }

  /** The sample list is one colour per cell, each at its row-major position. */
  lemma PointsLayout(s: Settings, k: ColorCrate)
    ensures |Cells(PointCell(s, k), PointRanges(s))| == s.hclAdjust.0 as int * s.hclAdjust.1 as int * s.hclAdjust.2 as int
    ensures forall a, b, c | InRanges(PointRanges(s), a, b, c) ::
              0 <= Position(PointRanges(s), a, b, c) < |Cells(PointCell(s, k), PointRanges(s))| &&
              Cells(PointCell(s, k), PointRanges(s))[Position(PointRanges(s), a, b, c)]
                == k.intoColor(PointCoord(s, k, a, b, c), s.colorModel)
  {
    PointCount(s);
    forall a, b, c | InRanges(PointRanges(s), a, b, c)
      ensures 0 <= Position(PointRanges(s), a, b, c) < |Cells(PointCell(s, k), PointRanges(s))| &&
              Cells(PointCell(s, k), PointRanges(s))[Position(PointRanges(s), a, b, c)]
                == k.intoColor(PointCoord(s, k, a, b, c), s.colorModel)
    {
      PointAt(s, k, a, b, c);
    }
  }

  /** There is exactly one sample per cell of the `a_steps × b_steps × c_steps` grid. */
  lemma PointCount(s: Settings)
    ensures Count(PointRanges(s)) == s.hclAdjust.0 as int * s.hclAdjust.1 as int * s.hclAdjust.2 as int
  {
    MulAssoc(s.hclAdjust.0 as int, s.hclAdjust.1 as int, s.hclAdjust.2 as int);
  }

  /** The sample for cell `(a, b, c)` sits at its row-major position. */
  lemma PointAt(s: Settings, k: ColorCrate, a: int, b: int, c: int)
    requires InRanges(PointRanges(s), a, b, c)
    ensures 0 <= Position(PointRanges(s), a, b, c) < |Cells(PointCell(s, k), PointRanges(s))|
    ensures Cells(PointCell(s, k), PointRanges(s))[Position(PointRanges(s), a, b, c)]
              == k.intoColor(PointCoord(s, k, a, b, c), s.colorModel)
  {
    CellsAt(PointCell(s, k), PointRanges(s), a, b, c);
  }

  // ---------------------------------------------------------------------------
  // Quads

  /** A colour that stands in for "any value" where a witness is needed. */
  const Blank: PColor := PColor(ColorModel(""), Coord4(0.0, 0.0, 0.0, 0.0))

  /** Exactly four corner colours (Rust's `[P_Color; 4]`). */
  type Corners = q: seq<PColor> | |q| == 4 witness [Blank, Blank, Blank, Blank]

  /** `ColorQuad`: the four corners of one face, in offset-table order. */
  datatype ColorQuad = ColorQuad(points: Corners)

  /** The colour coordinate of the quad corner at offset `o` from cell `(a, b, c)`. */
  function QuadCorner(s: Settings, k: ColorCrate, o: Offset, a: int, b: int, c: int): Coord4 {
    var dir, yuv := QuadDirection(s), YuvOffset(s, k);
    Coord4((a as real + o.a) * Step(s.hclAdjust.0),
           (b as real + o.b * dir) * Step(s.hclAdjust.1) + yuv,
           (c as real + o.c * dir) * Step(s.hclAdjust.2) + yuv,
           1.0)
  }

  /** The quad `generate_quads` emits for cell `(a, b, c)`. */
  function QuadAt(s: Settings, k: ColorCrate, a: int, b: int, c: int): ColorQuad {
    var offsets := GetOffsets(s.quadShape);
    var points := seq(4, n requires 0 <= n < 4 => k.intoColor(QuadCorner(s, k, offsets[n], a, b, c), s.colorModel));
    assert |points| == 4;
    ColorQuad(points)
  }

  function QuadCell(s: Settings, k: ColorCrate): (int, int, int) -> ColorQuad {
    (a, b, c) => QuadAt(s, k, a, b, c)
  }

  /** `generate_quads`: one quad per cell of the quad ranges, a outer, b
      middle, c inner; the c loop starts at `2 * hwb_offset`, so HWB mode
      yields one layer fewer than there are c steps. */
  method GenerateQuads(s: Settings, k: ColorCrate) returns (quads: seq<ColorQuad>)
    requires BoundsFit(s)
    ensures quads == Cells(QuadCell(s, k), QuadRanges(s))
    ensures |quads| == s.hclAdjust.0 as int * s.hclAdjust.1 as int * Width(HwbOffset(s) as int, s.hclAdjust.2 as int)
    ensures forall a, b, c | InRanges(QuadRanges(s), a, b, c) ::
              0 <= Position(QuadRanges(s), a, b, c) < |quads| &&
              quads[Position(QuadRanges(s), a, b, c)] == QuadAt(s, k, a, b, c)
  {
    var (aSteps, bSteps, cSteps) := s.hclAdjust;
    var hwbOffset: u8 := if s.isChromaLuma then 0 else 1;
    // for a in 0..a_steps, b in hwb..b_steps + hwb, c in 2 * hwb..c_steps + hwb (u8 bounds)
    var ranges := Ranges(aSteps as int, (0 + hwbOffset) as int, (bSteps + hwbOffset) as int,
                         (0 + hwbOffset * 2) as int, (cSteps + hwbOffset) as int);
    quads := Collect(QuadCell(s, k), ranges);
    QuadsLayout(s, k);
  }

  /** The quad list is one quad per cell, each at its row-major position. */
  lemma QuadsLayout(s: Settings, k: ColorCrate)
    ensures |Cells(QuadCell(s, k), QuadRanges(s))|
              == s.hclAdjust.0 as int * s.hclAdjust.1 as int * Width(HwbOffset(s) as int, s.hclAdjust.2 as int)
    ensures forall a, b, c | InRanges(QuadRanges(s), a, b, c) ::
              0 <= Position(QuadRanges(s), a, b, c) < |Cells(QuadCell(s, k), QuadRanges(s))| &&
              Cells(QuadCell(s, k), QuadRanges(s))[Position(QuadRanges(s), a, b, c)] == QuadAt(s, k, a, b, c)
  {
    QuadCount(s);
    forall a, b, c | InRanges(QuadRanges(s), a, b, c)
      ensures 0 <= Position(QuadRanges(s), a, b, c) < |Cells(QuadCell(s, k), QuadRanges(s))| &&
              Cells(QuadCell(s, k), QuadRanges(s))[Position(QuadRanges(s), a, b, c)] == QuadAt(s, k, a, b, c)
    {
      CellsAt(QuadCell(s, k), QuadRanges(s), a, b, c);
    }
  }

  /** `a_steps * b_steps * (c_steps - hwb_offset)` quads, none when that is negative. */
  lemma QuadCount(s: Settings)
    ensures Count(QuadRanges(s))
              == s.hclAdjust.0 as int * s.hclAdjust.1 as int * Width(HwbOffset(s) as int, s.hclAdjust.2 as int)
  {
    var r := QuadRanges(s);
    assert Width(r.cLo, r.cHi) == Width(HwbOffset(s) as int, s.hclAdjust.2 as int);
    MulAssoc(s.hclAdjust.0 as int, s.hclAdjust.1 as int, Width(HwbOffset(s) as int, s.hclAdjust.2 as int));
  }

  /** Every corner of a quad is itself a sample-grid coordinate: corner `n`
      of cell `(a, b, c)` is the point of cell `(a + o.a, b + dir*o.b, c + dir*o.c)`
      for its offset `o`, so neighbouring quads share their corners. */
  lemma QuadCornerIsGridPoint(s: Settings, k: ColorCrate, n: nat, a: int, b: int, c: int)
    requires n < 4
    ensures var o := GetOffsets(s.quadShape)[n];
            var dir := if s.isChromaLuma then 1 else -1;
            QuadCorner(s, k, o, a, b, c)
              == PointCoord(s, k, a + o.a.Floor, b + dir * o.b.Floor, c + dir * o.c.Floor)
  {
    var o := GetOffsets(s.quadShape)[n];
    assert o.At(0) == 0.0 || o.At(0) == 1.0;
    assert o.At(1) == 0.0 || o.At(1) == 1.0;
    assert o.At(2) == 0.0 || o.At(2) == 1.0;
    UnitCornerIsGridPoint(s, k, o, a, b, c);
  }

  /** The same for any unit offset. */
  lemma UnitCornerIsGridPoint(s: Settings, k: ColorCrate, o: Offset, a: int, b: int, c: int)
    requires o.a in {0.0, 1.0} && o.b in {0.0, 1.0} && o.c in {0.0, 1.0}
    ensures var dir := if s.isChromaLuma then 1 else -1;
            QuadCorner(s, k, o, a, b, c)
              == PointCoord(s, k, a + o.a.Floor, b + dir * o.b.Floor, c + dir * o.c.Floor)
  {
    var dir := if s.isChromaLuma then 1 else -1;
    var (xa, xb, xc) := (a + o.a.Floor, b + dir * o.b.Floor, c + dir * o.c.Floor);
    UnitShiftUp(a, o.a);
    UnitShift(b, o.b, dir, QuadDirection(s));
    UnitShift(c, o.c, dir, QuadDirection(s));
    var p, q := QuadCorner(s, k, o, a, b, c), PointCoord(s, k, xa, xb, xc);
    assert p.a == q.a;
    assert p.b == q.b;
    assert p.c == q.c;
  }

  /** A unit offset `o` taken in direction `dir` moves a grid index by a whole step. */
  lemma UnitShift(x: int, o: real, dir: int, d: real)
    requires o in {0.0, 1.0} && dir in {1, -1} && d == dir as real
    ensures (x + dir * o.Floor) as real == x as real + o * d
  {
    assert o == o.Floor as real;
  }

  /** The same for the a axis, which always moves up. */
  lemma UnitShiftUp(x: int, o: real)
    requires o in {0.0, 1.0}
    ensures (x + o.Floor) as real == x as real + o
  {
    assert o == o.Floor as real;
  }

  /** Corner 0 of every quad is the sample point of its own cell. */
  lemma QuadCornerZeroIsPoint(s: Settings, k: ColorCrate, a: int, b: int, c: int)
    ensures QuadAt(s, k, a, b, c).points[0] == k.intoColor(PointCoord(s, k, a, b, c), s.colorModel)
  {
    QuadCornerIsGridPoint(s, k, 0, a, b, c);
  }

  /** In HWB mode with a single c step the c loop of `generate_quads` is empty. */
  lemma HwbSingleLayerHasNoQuads(s: Settings, k: ColorCrate)
    requires !s.isChromaLuma && s.hclAdjust.2 <= 1
    ensures Cells(QuadCell(s, k), QuadRanges(s)) == []
  {
    QuadCount(s);
  }

  /** In chroma-luma mode there is one quad per sample point. */
  lemma ChromaLumaQuadPerPoint(s: Settings, k: ColorCrate)
    requires s.isChromaLuma
    ensures |Cells(QuadCell(s, k), QuadRanges(s))| == |Cells(PointCell(s, k), PointRanges(s))|
  {
    QuadCount(s);
    PointCount(s);
  }

  /** The GUI's slider ranges keep the u8 loop bounds from overflowing and
      every step `1 / steps` positive. */
  lemma SliderStepsFit(s: Settings)
    requires SliderSteps(s)
    ensures BoundsFit(s)
    ensures 0.0 < Step(s.hclAdjust.0) && 0.0 < Step(s.hclAdjust.1) && 0.0 < Step(s.hclAdjust.2)
  {
  }

  /** With the default HWB step counts `(12, 8, 8)` there are 768 samples
      and 672 quads. */
  lemma DefaultGridSizes(s: Settings)
    requires s.hclAdjust == (12, 8, 8) && !s.isChromaLuma
    ensures Count(PointRanges(s)) == 768 && Count(QuadRanges(s)) == 672
  {
    PointCount(s);
    QuadCount(s);
  }

  /** `i * (1 / n)` lies in `[0, 1]` for `0 <= i <= n`. */
  lemma StepFraction(i: int, n: u8)
    requires 0 <= i <= n as int
    ensures 0.0 <= i as real * Step(n) <= 1.0
    ensures i < n as int ==> i as real * Step(n) < 1.0
    ensures 0 < i ==> 0.0 < i as real * Step(n)
  {
    if n != 0 {
      var q := 1.0 / n as real;
      assert q * n as real == 1.0;
      assert i as real * q <= n as real * q;
      if i < n as int {
        assert i as real * q < n as real * q;
      }
    }
  }

  /** Every sample coordinate lies in the unit cube, shifted by the luma-chroma
      offset on the b and c axes; in HWB mode the b and c coordinates are never 0. */
  lemma PointInUnitCube(s: Settings, k: ColorCrate, a: int, b: int, c: int)
    requires InRanges(PointRanges(s), a, b, c)
    ensures var p, yuv := PointCoord(s, k, a, b, c), YuvOffset(s, k);
            0.0 <= p.a < 1.0 && yuv <= p.b <= 1.0 + yuv && yuv <= p.c <= 1.0 + yuv && p.alpha == 1.0
    ensures var p, yuv := PointCoord(s, k, a, b, c), YuvOffset(s, k);
            !s.isChromaLuma ==> yuv < p.b && yuv < p.c
  {
    PointA(s, k, a, b, c);
    PointB(s, k, a, b, c);
    PointC(s, k, a, b, c);
  }

  lemma PointA(s: Settings, k: ColorCrate, a: int, b: int, c: int)
    requires InRanges(PointRanges(s), a, b, c)
    ensures 0.0 <= PointCoord(s, k, a, b, c).a < 1.0
  {
    var n := s.hclAdjust.0;
    StepFraction(a, n);
    assert PointCoord(s, k, a, b, c).a == a as real * Step(n);
  }

  lemma PointB(s: Settings, k: ColorCrate, a: int, b: int, c: int)
    requires InRanges(PointRanges(s), a, b, c)
    ensures YuvOffset(s, k) <= PointCoord(s, k, a, b, c).b <= 1.0 + YuvOffset(s, k)
    ensures !s.isChromaLuma ==> YuvOffset(s, k) < PointCoord(s, k, a, b, c).b
  {
    var n := s.hclAdjust.1;
    SideFraction(b, n, HwbOffset(s) as int);
    assert PointCoord(s, k, a, b, c).b == b as real * Step(n) + YuvOffset(s, k);
  }

  lemma PointC(s: Settings, k: ColorCrate, a: int, b: int, c: int)
    requires InRanges(PointRanges(s), a, b, c)
    ensures YuvOffset(s, k) <= PointCoord(s, k, a, b, c).c <= 1.0 + YuvOffset(s, k)
    ensures !s.isChromaLuma ==> YuvOffset(s, k) < PointCoord(s, k, a, b, c).c
  {
    var n := s.hclAdjust.2;
    SideFraction(c, n, HwbOffset(s) as int);
    assert PointCoord(s, k, a, b, c).c == c as real * Step(n) + YuvOffset(s, k);
  }

  /** A b or c loop index, which runs over `lo..steps + lo`, scales into
      `[0, 1]`, and never to 0 when the loop starts at 1. */
  lemma SideFraction(x: int, steps: u8, lo: int)
    requires 0 <= lo <= 1 && lo <= x < steps as int + lo
    ensures 0.0 <= x as real * Step(steps) <= 1.0
    ensures lo == 1 ==> 0.0 < x as real * Step(steps)
  {
    StepFraction(x, steps);
  }

  /** Every quad corner lies in the same shifted unit cube as the samples. */
  lemma QuadCornerInUnitCube(s: Settings, k: ColorCrate, n: nat, a: int, b: int, c: int)
    requires n < 4 && InRanges(QuadRanges(s), a, b, c)
    ensures var p, yuv := QuadCorner(s, k, GetOffsets(s.quadShape)[n], a, b, c), YuvOffset(s, k);
            0.0 <= p.a <= 1.0 && yuv <= p.b <= 1.0 + yuv && yuv <= p.c <= 1.0 + yuv && p.alpha == 1.0
  {
    var o := GetOffsets(s.quadShape)[n];
    assert o.At(0) == 0.0 || o.At(0) == 1.0;
    assert o.At(1) == 0.0 || o.At(1) == 1.0;
    assert o.At(2) == 0.0 || o.At(2) == 1.0;
    CornerBounds(s, k, o, a, b, c);
  }

  /** The corner bound for one unit offset `o`. */
  lemma CornerBounds(s: Settings, k: ColorCrate, o: Offset, a: int, b: int, c: int)
    requires o.a in {0.0, 1.0} && o.b in {0.0, 1.0} && o.c in {0.0, 1.0}
    requires InRanges(QuadRanges(s), a, b, c)
    ensures var p, yuv := QuadCorner(s, k, o, a, b, c), YuvOffset(s, k);
            0.0 <= p.a <= 1.0 && yuv <= p.b <= 1.0 + yuv && yuv <= p.c <= 1.0 + yuv && p.alpha == 1.0
  {
    CornerA(s, k, o, a, b, c);
    CornerB(s, k, o, a, b, c);
    CornerC(s, k, o, a, b, c);
  }

  /** The a coordinate of a quad corner stays within `[0, 1]`. */
  lemma CornerA(s: Settings, k: ColorCrate, o: Offset, a: int, b: int, c: int)
    requires o.a in {0.0, 1.0} && InRanges(QuadRanges(s), a, b, c)
    ensures 0.0 <= QuadCorner(s, k, o, a, b, c).a <= 1.0
  {
    var n := s.hclAdjust.0;
    CornerAxis(a, o.a, n);
    assert QuadCorner(s, k, o, a, b, c).a == (a as real + o.a) * Step(n);
  }

  /** The b coordinate of a quad corner stays within the shifted unit range. */
  lemma CornerB(s: Settings, k: ColorCrate, o: Offset, a: int, b: int, c: int)
    requires o.b in {0.0, 1.0} && InRanges(QuadRanges(s), a, b, c)
    ensures YuvOffset(s, k) <= QuadCorner(s, k, o, a, b, c).b <= 1.0 + YuvOffset(s, k)
  {
    var n := s.hclAdjust.1;
    CornerSideAxis(b, o.b, QuadDirection(s), n, QuadRanges(s).bLo);
    assert QuadCorner(s, k, o, a, b, c).b == (b as real + o.b * QuadDirection(s)) * Step(n) + YuvOffset(s, k);
  }

  /** The c coordinate of a quad corner stays within the shifted unit range. */
  lemma CornerC(s: Settings, k: ColorCrate, o: Offset, a: int, b: int, c: int)
    requires o.c in {0.0, 1.0} && InRanges(QuadRanges(s), a, b, c)
    ensures YuvOffset(s, k) <= QuadCorner(s, k, o, a, b, c).c <= 1.0 + YuvOffset(s, k)
  {
    var n := s.hclAdjust.2;
    CornerSideAxis(c, o.c, QuadDirection(s), n, QuadRanges(s).cLo);
    assert QuadCorner(s, k, o, a, b, c).c == (c as real + o.c * QuadDirection(s)) * Step(n) + YuvOffset(s, k);
  }

  /** A b or c corner coordinate: the index moves one step up (chroma-luma,
      whose loop starts at 0) or down (HWB, whose loop starts at 1 or 2). */
  lemma CornerSideAxis(x: int, o: real, dir: real, steps: u8, lo: int)
    requires o in {0.0, 1.0}
    requires (dir == 1.0 && lo == 0 && 0 <= x < steps as int) || (dir == -1.0 && 1 <= lo <= x <= steps as int)
    ensures 0.0 <= (x as real + o * dir) * Step(steps) <= 1.0
  {
    if dir == 1.0 {
      assert o * dir == o;
    } else {
      assert o * dir == -o;
    }
    CornerAxis(x, o * dir, steps);
  }

  /** One axis of a quad corner: a grid index moved by at most one step stays
      a fraction in `[0, 1]` while the moved index stays within `0..=steps`. */
  lemma CornerAxis(x: int, d: real, steps: u8)
    requires d in {-1.0, 0.0, 1.0}
    requires 0.0 <= x as real + d <= steps as real
    ensures 0.0 <= (x as real + d) * Step(steps) <= 1.0
  {
    var e: int := if d == 0.0 then 0 else if d == 1.0 then 1 else -1;
    assert d == e as real;
    StepFraction(x + e, steps);
  }

  // ---------------------------------------------------------------------------
  // Position and display colour of one crate colour

  /** The gamma exponents `g / 2.2`, with unit gamma when the space is deformed. */
  function GammaExponents(s: Settings): (g: (real, real, real))
    ensures s.gammaDeform ==> g == (1.0 / 2.2, 1.0 / 2.2, 1.0 / 2.2)
    ensures !s.gammaDeform ==> g.0 * 2.2 == s.gamma.0 && g.1 * 2.2 == s.gamma.1 && g.2 * 2.2 == s.gamma.2
  {
    var (rGamma, gGamma, bGamma) := if s.gammaDeform then (1.0, 1.0, 1.0) else s.gamma;
    (rGamma / 2.2, gGamma / 2.2, bGamma / 2.2)
  }

  /** A colour re-expressed in the settings' colour-space model and moved
      from the settings' colour space to XYZ. */
  function SpacePoint(color: PColor, s: Settings, k: ColorCrate): PColor {
    k.fromSpaceToSpace(k.toColor(color, s.colorSpaceModel), s.colorSpace, XYZ)
  }

  /** The model rotation, then the mirror when `model_mirrored` is set. */
  function Orient(point: PColor, s: Settings, k: ColorCrate): PColor {
    var point := match s.modelRotation
      case None => point
      case Clockwise => k.rotateClockwise(point)
      case Counterclockwise => k.rotateCounterclockwise(point);
    if s.modelMirrored then k.mirror(point) else point
  }

  /** The `x, y, z` of a crate tuple, dropping alpha. */
  function ToVec3(t: Coord4): Vec3 {
    Vec3(t.a, t.b, t.c)
  }

  /** The display colour: the raw RGB remapped against the component limits
      with the base colour's component 1 as chroma, then gamma-transformed. */
  function DisplayColor(base: PColor, s: Settings, k: ColorCrate): PColor {
    var g := GammaExponents(s);
    var raw := k.toRgb(base);
    var chroma := k.toArray(base).b;
    var (limR, limG, limB) := s.componentLimit;
    k.componentGammaTransform(k.remapRgbComponents(raw, chroma, limR, limG, limB), g.0, g.1, g.2)
  }

  /** `get_point_and_color`: where a colour is drawn and how it is shaded. */
  function PointAndColor(base: PColor, s: Settings, k: ColorCrate): (r: (Vec3, PColor))
    ensures r.1 == DisplayColor(base, s, k)
    ensures !s.gammaDeform ==> r.0 == ToVec3(k.toTuple(Orient(SpacePoint(base, s, k), s, k)))
    ensures s.gammaDeform ==> r.0 == ToVec3(k.toTuple(SpacePoint(r.1, s, k)))
  {
    var color := DisplayColor(base, s, k);
    var point := ToVec3(k.toTuple(Orient(SpacePoint(base, s, k), s, k)));
    if s.gammaDeform then (ToVec3(k.toTuple(SpacePoint(color, s, k))), color) else (point, color)
  }

  /** The display colour depends only on the base colour, the component
      limits and the gamma settings, never on how the space is placed. */
  lemma ColorIgnoresPlacement(base: PColor, s: Settings, t: Settings, k: ColorCrate)
    requires s.componentLimit == t.componentLimit && s.gammaDeform == t.gammaDeform
    requires s.gammaDeform || s.gamma == t.gamma
    ensures PointAndColor(base, s, k).1 == PointAndColor(base, t, k).1
  {
  }

  /** With a deformed space the position ignores the rotation, the mirror
      and the gamma settings. */
  lemma DeformIgnoresOrientation(base: PColor, s: Settings, t: Settings, k: ColorCrate)
    requires s.gammaDeform && t == s.(modelRotation := t.modelRotation, modelMirrored := t.modelMirrored, gamma := t.gamma)
    ensures PointAndColor(base, s, k) == PointAndColor(base, t, k)
  {
  }

  /** Without rotation, mirror or deformation, the position is the plain
      transform of the base colour into XYZ. */
  lemma PlainPlacement(base: PColor, s: Settings, k: ColorCrate)
    requires !s.gammaDeform && s.modelRotation == None && !s.modelMirrored
    ensures PointAndColor(base, s, k).0 == ToVec3(k.toTuple(SpacePoint(base, s, k)))
  {
  }

  // ---------------------------------------------------------------------------
  // Meshes

  /** The parts of Bevy's `Mesh` that `create_quad` fills in. */
  datatype Mesh = Mesh(positions: seq<Vec3>, colors: seq<Coord4>, normals: seq<Vec3>, indices: seq<nat>)

  /** Corner `y` follows corner `x` along the quad's cycle `0, 1, 2, 3`
      (directly, or across the diagonal). */
  predicate Forward(x: nat, y: nat) {
    y == (x + 1) % 4 || y == (x + 2) % 4
  }

  /** The slot after slot `i` of a triangle list, wrapping within its triangle. */
  function NextInTriangle(i: nat): nat {
    if i % 3 == 2 then i - 2 else i + 1
  }

  /** The triangle-list index buffer of a quad: triangles `0, 1, 2` and
      `2, 3, 0`. */
  function QuadIndices(): (ix: seq<nat>)
    ensures |ix| == 6 && forall i | 0 <= i < 6 :: ix[i] < 4
    ensures {ix[0], ix[1], ix[2]} * {ix[3], ix[4], ix[5]} == {0, 2}
    ensures {ix[0], ix[1], ix[2]} + {ix[3], ix[4], ix[5]} == {0, 1, 2, 3}
    ensures forall i | 0 <= i < 6 :: Forward(ix[i], ix[NextInTriangle(i)])
  {
    [0, 1, 2, 2, 3, 0]
  }

  /** `create_quad`: four vertices in corner order, one normal per vertex,
      the two-triangle index buffer, and one colour per vertex taken from
      corner 0 alone when `discrete_color` is set. */
  function CreateQuad(q: ColorQuad, s: Settings, k: ColorCrate): (m: Mesh)
    ensures |m.positions| == 4 && forall n | 0 <= n < 4 :: m.positions[n] == PointAndColor(q.points[n], s, k).0
    ensures |m.colors| == 4 && forall n | 0 <= n < 4 ::
              m.colors[n] == k.toArray(PointAndColor(q.points[if s.discreteColor then 0 else n], s, k).1)
    ensures m.normals == [Vec3(1.0, 1.0, 1.0), Vec3(1.0, 1.0, 1.0), Vec3(1.0, 1.0, 1.0), Vec3(1.0, 1.0, 1.0)]
    ensures m.indices == QuadIndices()
  {
    var (p0, c0) := PointAndColor(q.points[0], s, k);
    var (p1, c1) := PointAndColor(q.points[1], s, k);
    var (p2, c2) := PointAndColor(q.points[2], s, k);
    var (p3, c3) := PointAndColor(q.points[3], s, k);
    var colors := if s.discreteColor
      then [k.toArray(c0), k.toArray(c0), k.toArray(c0), k.toArray(c0)]
      else [k.toArray(c0), k.toArray(c1), k.toArray(c2), k.toArray(c3)];
    var normal := Vec3(1.0, 1.0, 1.0);
    Mesh([p0, p1, p2, p3], colors, [normal, normal, normal, normal], QuadIndices())
  }

  /** A discrete-colour quad is drawn in one flat colour, that of the cell's
      own sample point. */
  lemma DiscreteQuadIsFlat(s: Settings, k: ColorCrate, a: int, b: int, c: int)
    requires s.discreteColor
    ensures var m := CreateQuad(QuadAt(s, k, a, b, c), s, k);
            forall n | 0 <= n < 4 :: m.colors[n]
              == k.toArray(DisplayColor(k.intoColor(PointCoord(s, k, a, b, c), s.colorModel), s, k))
  {
    QuadCornerZeroIsPoint(s, k, a, b, c);
  }
}
