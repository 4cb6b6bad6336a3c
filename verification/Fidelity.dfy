/** What a decoded file shows: its coefficients, taken block by block in the order and with the step
    tables that its own header names, are those of the JFIF colours of the source picture.

    Nothing here mentions how the encoder converts, averages, transforms, quantises or orders; the
    error terms are all that is left of it. */
module Fidelity {
  import opened Bits
  import C = Cosine
  import D = Dct
  import E = EntropyCoding
  import F = JpegFormat
  import I = Image
  import Q = Quantisation
  import R = JpegRoundTrip
  import T = StandardTables

  // ----- samples

  /** The source pixel at column x of line y, or the nearest one. */
  function Nearest(g: I.Geometry, rows: seq<seq<byte>>, x: nat, y: nat): Rgb
    requires I.AreScanlines(g, rows) && rows != []
  {
    I.ColourOf(g, rows[I.Min(y, |rows| - 1)], I.Min(x, g.width - 1))
  }

  /** Component c summed over the first n pixels of an area w wide, its corner at (x, y). */
  function AreaSum(g: I.Geometry, rows: seq<seq<byte>>, c: nat, x: nat, y: nat, w: nat, n: nat): real
    requires I.AreScanlines(g, rows) && rows != [] && w > 0
  {
    if n == 0 then 0.0
    else
      AreaSum(g, rows, c, x, y, w, n - 1)
      + I.JfifValue(Nearest(g, rows, x + (n - 1) % w, y + (n - 1) / w), c)
  }

  /** Rounding of one colour, and of the mean of n. */
  function Tolerance(n: nat): real { if n == 1 then 0.503 else 1.26 }

  /** Sample (x, y) of a plane that has one sample for w x h pixels is their mean, less 128 (T.81,
      sections A.1.1 and A.3.1). */
  ghost predicate IsMean(g: I.Geometry, rows: seq<seq<byte>>, c: nat, w: nat, h: nat, x: nat, y: nat, s: int)
    requires I.AreScanlines(g, rows) && rows != []
  {
    w > 0 && I.Near(w * h * (s + 128), AreaSum(g, rows, c, w * x, h * y, w, w * h), (w * h) as real * Tolerance(w * h))
  }

  /** s holds the samples of block (bc, bl) of the plane. */
  ghost predicate IsBlock(g: I.Geometry, rows: seq<seq<byte>>, c: nat, w: nat, h: nat, bc: nat, bl: nat, s: D.Samples)
    requires I.AreScanlines(g, rows) && rows != []
  {
    forall v: nat, u: nat :: v < 8 && u < 8 ==> IsSample(g, rows, c, w, h, bc, bl, s, v, u)
  }

  ghost predicate IsSample(g: I.Geometry, rows: seq<seq<byte>>, c: nat, w: nat, h: nat, bc: nat, bl: nat, s: D.Samples,
                           v: nat, u: nat)
    requires I.AreScanlines(g, rows) && rows != [] && v < 8 && u < 8
  {
    IsMean(g, rows, c, w, h, 8 * bc + u, 8 * bl + v, s[8 * v + u])
  }

  // ----- coefficients

  /** Dequantised, the block is the DCT of the samples, each coefficient to half a step and one. */
  ghost predicate Codes(s: D.Samples, steps: seq<byte>, block: E.Block) {
    |steps| == 64 && forall cos: int -> real, u: nat, v: nat :: C.IsCosine(cos) && u < 8 && v < 8 ==>
      CodesAt(cos, s, steps, block, u, v)
  }

  ghost predicate CodesAt(cos: int -> real, s: D.Samples, steps: seq<byte>, block: E.Block, u: nat, v: nat)
    requires |steps| == 64 && u < 8 && v < 8
  {
    var k := Q.ZigZagIndex(v, u);
    && 0 <= k < 64
    && I.Near(steps[k] * block[k], C.Coefficient(cos, s, u, v), steps[k] as real / 2.0 + 1.0)
  }

  /** Place of a block in the scan: h x v blocks of each component in turn make an MCU, and the MCUs
      follow row by row (T.81, section A.2.3). */
  function Place(h: F.Header, my: nat, mx: nat, c: nat, br: nat, i: nat): nat
    requires c < |h.frame|
  {
    var across := F.CeilDiv(h.width, 8 * I.Max(1, F.MaxH(h.frame)));
    F.Times(F.Times(my, across) + mx, |F.McuComponents(h.frame)|) + |F.McuComponents(h.frame[..c])|
    + F.Times(br, h.frame[c].h) + i
  }

  /** Block i of row br of component c in MCU (mx, my) shows its part of the picture. */
  ghost predicate Shown(g: I.Geometry, rows: seq<seq<byte>>, p: F.Picture, my: nat, mx: nat, c: nat, br: nat, i: nat)
    requires I.AreScanlines(g, rows) && rows != [] && c < |p.header.frame|
  {
    var f, n := p.header.frame[c], Place(p.header, my, mx, c, br, i);
    && f.h > 0 && f.v > 0 && f.quant in p.header.quant && n < |p.units| && p.units[n].component == c
    && exists s: D.Samples ::
         && IsBlock(g, rows, c, F.MaxH(p.header.frame) / f.h, F.MaxV(p.header.frame) / f.v, f.h * mx + i,
                    f.v * my + br, s)
         && Codes(s, p.header.quant[f.quant], p.units[n].block)
  }

  /** The decoded picture shows the scanlines: every block of every component of every MCU does, and
      there are no others. */
  ghost predicate Shows(g: I.Geometry, rows: seq<seq<byte>>, p: F.Picture)
    requires I.AreScanlines(g, rows) && rows != []
  {
    var h := p.header;
    && h.width == g.width && h.height == g.height && |h.frame| == g.Components()
    && |p.units| == F.Times(F.McuCount(h), |F.McuComponents(h.frame)|)
    && forall my: nat, mx: nat, c: nat, br: nat, i: nat ::
         && my < F.CeilDiv(h.height, 8 * I.Max(1, F.MaxV(h.frame)))
         && mx < F.CeilDiv(h.width, 8 * I.Max(1, F.MaxH(h.frame)))
         && c < |h.frame| && br < h.frame[c].v && i < h.frame[c].h ==>
           Shown(g, rows, p, my, mx, c, br, i)
  }

  // ----- the samples are means of colours

  /** One pixel of the band under the sample. */
  lemma PixelNear(g: I.Geometry, rows: seq<seq<byte>>, my: nat, c: nat, x: nat, y: nat)
    requires I.AreScanlines(g, rows) && rows != [] && c < g.Components() && x < g.XMcu() && y < g.McuY()
    ensures I.Near(I.At(g, I.Band(g, rows, my), c, x, y), I.JfifValue(Nearest(g, rows, x, g.Top(my) + y), c), 0.503)
  {
    hide I.PixelAt, I.Band, I.At, I.JfifValue, I.ColourOf;
    I.BandReplicatesEdges(g, rows, my, c, x, y);
    I.PixelIsJfif(g, rows[I.Min(g.Top(my) + y, |rows| - 1)], I.Min(x, g.width - 1));
    assert c == 0 || c == 1 || c == 2;
  }

  lemma OnePixel(g: I.Geometry, rows: seq<seq<byte>>, c: nat, x: nat, y: nat)
    requires I.AreScanlines(g, rows) && rows != []
    ensures AreaSum(g, rows, c, x, y, 1, 1) == I.JfifValue(Nearest(g, rows, x, y), c)
  {
    hide I.JfifValue, Nearest;
    assert AreaSum(g, rows, c, x, y, 1, 0) == 0.0;
  }

  lemma TwoPixels(g: I.Geometry, rows: seq<seq<byte>>, c: nat, x: nat, y: nat)
    requires I.AreScanlines(g, rows) && rows != []
    ensures AreaSum(g, rows, c, x, y, 2, 2)
         == I.JfifValue(Nearest(g, rows, x, y), c) + I.JfifValue(Nearest(g, rows, x + 1, y), c)
  {
    hide I.JfifValue, Nearest;
    assert AreaSum(g, rows, c, x, y, 2, 0) == 0.0;
    assert AreaSum(g, rows, c, x, y, 2, 1) == I.JfifValue(Nearest(g, rows, x, y), c);
  }

  lemma FourPixels(g: I.Geometry, rows: seq<seq<byte>>, c: nat, x: nat, y: nat)
    requires I.AreScanlines(g, rows) && rows != []
    ensures AreaSum(g, rows, c, x, y, 2, 4)
         == I.JfifValue(Nearest(g, rows, x, y), c) + I.JfifValue(Nearest(g, rows, x + 1, y), c)
            + I.JfifValue(Nearest(g, rows, x, y + 1), c) + I.JfifValue(Nearest(g, rows, x + 1, y + 1), c)
  {
    TwoPixels(g, rows, c, x, y);
    hide I.JfifValue, Nearest;
    assert AreaSum(g, rows, c, x, y, 2, 3)
        == AreaSum(g, rows, c, x, y, 2, 2) + I.JfifValue(Nearest(g, rows, x, y + 1), c);
  }

  /** Sample (x, y) of the band under MCU row my, of a plane as fine as the picture. */
  lemma FullMean(g: I.Geometry, rows: seq<seq<byte>>, my: nat, c: nat, x: nat, y: nat)
    requires I.AreScanlines(g, rows) && rows != [] && c < g.Components()
    requires x < 8 * g.BlocksWide(c) && y < 8 * g.V(c) && (c == 0 || g.sub == I.H1V1)
    ensures IsMean(g, rows, c, 1, 1, x, g.Top(my) + y, I.PlaneSample(g, I.Band(g, rows, my), c, x, y))
  {
    hide I.Band, I.At, I.JfifValue, Nearest, AreaSum, I.PlaneSample, I.IsBand, I.AreScanlines;
    I.PlaneFull(g, I.Band(g, rows, my), c, x, y);
    PixelNear(g, rows, my, c, x, y);
    OnePixel(g, rows, c, x, g.Top(my) + y);
  }

  /** The same for half the columns. */
  lemma HalfMean(g: I.Geometry, rows: seq<seq<byte>>, my: nat, c: nat, x: nat, y: nat)
    requires I.AreScanlines(g, rows) && rows != [] && c < g.Components()
    requires x < 8 * g.BlocksWide(c) && y < 8 * g.V(c) && c > 0 && g.sub == I.H2V1
    ensures IsMean(g, rows, c, 2, 1, x, g.Top(my) + y, I.PlaneSample(g, I.Band(g, rows, my), c, x, y))
  {
    hide I.Band, I.At, I.JfifValue, Nearest, AreaSum, I.PlaneSample, I.IsBand, I.AreScanlines;
    I.PlaneHalf(g, I.Band(g, rows, my), c, x, y);
    PixelNear(g, rows, my, c, 2 * x, y);
    PixelNear(g, rows, my, c, 2 * x + 1, y);
    TwoPixels(g, rows, c, 2 * x, g.Top(my) + y);
  }

  /** The same for half the columns and lines. */
  lemma QuarterMean(g: I.Geometry, rows: seq<seq<byte>>, my: nat, c: nat, x: nat, y: nat)
    requires I.AreScanlines(g, rows) && rows != [] && c < g.Components()
    requires x < 8 * g.BlocksWide(c) && y < 8 * g.V(c) && c > 0 && g.sub == I.H2V2
    ensures IsMean(g, rows, c, 2, 2, x, 8 * my + y, I.PlaneSample(g, I.Band(g, rows, my), c, x, y))
  {
    hide I.Band, I.At, I.JfifValue, Nearest, AreaSum, I.PlaneSample, I.IsBand, I.AreScanlines;
    I.PlaneQuarter(g, I.Band(g, rows, my), c, x, y);
    PixelNear(g, rows, my, c, 2 * x, 2 * y);
    PixelNear(g, rows, my, c, 2 * x + 1, 2 * y);
    PixelNear(g, rows, my, c, 2 * x, 2 * y + 1);
    PixelNear(g, rows, my, c, 2 * x + 1, 2 * y + 1);
    FourPixels(g, rows, c, 2 * x, g.Top(my) + 2 * y);
  }

  /** Sample (x, y) of the band under MCU row my. */
  lemma SampleIsMean(g: I.Geometry, rows: seq<seq<byte>>, my: nat, c: nat, x: nat, y: nat)
    requires I.AreScanlines(g, rows) && rows != [] && c < g.Components()
    requires x < 8 * g.BlocksWide(c) && y < 8 * g.V(c)
    ensures IsMean(g, rows, c, g.H(0) / g.H(c), g.V(0) / g.V(c), x, 8 * (g.V(c) * my) + y,
                   I.PlaneSample(g, I.Band(g, rows, my), c, x, y))
  {
    hide I.Band, IsMean, I.PlaneSample, I.IsBand, I.AreScanlines;
    assert g.H(0) / g.H(c) == if c > 0 && g.Wide() then 2 else 1;
    assert g.V(0) / g.V(c) == if c > 0 && g.Tall() then 2 else 1;
    if c == 0 || g.sub == I.H1V1 {
      FullMean(g, rows, my, c, x, y);
    } else if g.sub == I.H2V1 {
      HalfMean(g, rows, my, c, x, y);
    } else {
      QuarterMean(g, rows, my, c, x, y);
    }
  }

  lemma BlockIsMean(g: I.Geometry, rows: seq<seq<byte>>, my: nat, c: nat, bc: nat, br: nat)
    requires I.AreScanlines(g, rows) && rows != [] && c < g.Components() && bc < g.BlocksWide(c) && br < g.V(c)
    ensures IsBlock(g, rows, c, g.H(0) / g.H(c), g.V(0) / g.V(c), bc, g.V(c) * my + br,
                    I.BlockSamples(g, I.Band(g, rows, my), c, bc, br))
  {
    hide I.Band, IsMean, I.PlaneSample, I.AreScanlines;
    var s := I.BlockSamples(g, I.Band(g, rows, my), c, bc, br);
    var w, h := g.H(0) / g.H(c), g.V(0) / g.V(c);
    var bl := g.V(c) * my + br;
    forall v: nat, u: nat | v < 8 && u < 8
      ensures IsSample(g, rows, c, w, h, bc, bl, s, v, u)
    {
      SampleIsMean(g, rows, my, c, 8 * bc + u, 8 * br + v);
      assert (8 * v + u) / 8 == v && (8 * v + u) % 8 == u;
    }
  }

  // ----- the coefficients are those of the DCT

  lemma BlockCodes(s: D.Samples, steps: Q.Steps)
    requires D.InByteRange(s)
    ensures Codes(s, R.StepBytes(steps), Q.QuantiseBlock(D.Transform(s), steps))
  {
    hide C.IsCosine, CodesAt, D.Transform, D.InByteRange, Q.QuantiseBlock;
    forall cos: int -> real, u: nat, v: nat | C.IsCosine(cos) && u < 8 && v < 8
      ensures CodesAt(cos, s, R.StepBytes(steps), Q.QuantiseBlock(D.Transform(s), steps), u, v)
    {
      CoefficientCodes(cos, s, steps, u, v);
    }
  }

  lemma CoefficientCodes(cos: int -> real, s: D.Samples, steps: Q.Steps, u: nat, v: nat)
    requires C.IsCosine(cos) && D.InByteRange(s) && u < 8 && v < 8
    ensures CodesAt(cos, s, R.StepBytes(steps), Q.QuantiseBlock(D.Transform(s), steps), u, v)
  {
    hide C.IsCosine, D.Transform, D.InByteRange, Q.QuantiseBlock, Q.Zag, Q.ZigZagIndex, C.Coefficient;
    var k := Q.ZigZagIndex(v, u);
    Q.ZagFinds(v, u);
    Q.DequantiseError(D.Transform(s), steps, k);
    D.TransformIsDct(cos, s, u, v);
  }

  // ----- every block stands at its place

  lemma NextTimes(a: nat, p: nat)
    ensures F.Times(a + 1, p) == F.Times(a, p) + p
  {
  }

  lemma {:induction false} TimesOrder(a: nat, b: nat, p: nat)
    requires a <= b
    ensures F.Times(a, p) <= F.Times(b, p)
    decreases b
  {
    if a < b {
      TimesOrder(a, b - 1, p);
      NextTimes(b - 1, p);
    }
  }

  lemma MulSteps(a: nat, b: nat, k: nat, p: nat)
    requires a < b && k < p
    ensures F.Times(a, p) + k < F.Times(b, p) && F.Times(a + 1, p) == F.Times(a, p) + p
  {
    hide F.Times;
    NextTimes(a, p);
    TimesOrder(a + 1, b, p);
  }

  /** Blocks of components before c in an MCU. */
  function Before(g: I.Geometry, c: nat): nat {
    if c == 0 then 0 else g.H(0) * g.V(0) + c - 1
  }

  lemma McuUnitsAt(g: I.Geometry, steps: I.StepTables, band: seq<I.Line>, mx: nat, c: nat, br: nat, i: nat)
    requires I.IsBand(g, band) && mx < g.McusPerRow() && c < g.Components() && br < g.V(c) && i < g.H(c)
    ensures |I.McuUnits(g, steps, band, mx)| == Before(g, g.Components())
    ensures Before(g, c) + F.Times(br, g.H(c)) + i < Before(g, g.Components())
    ensures I.McuUnits(g, steps, band, mx)[Before(g, c) + F.Times(br, g.H(c)) + i]
         == I.UnitAt(g, steps, band, c, g.H(c) * mx + i, br)
  {
    hide I.UnitAt, I.IsBand;
  }

  lemma McuUnitsSize(g: I.Geometry, steps: I.StepTables, band: seq<I.Line>, mx: nat)
    requires I.IsBand(g, band) && mx < g.McusPerRow()
    ensures |I.McuUnits(g, steps, band, mx)| == Before(g, g.Components())
  {
    hide I.UnitAt, I.IsBand;
  }

  lemma {:induction false} BandUnitsAt(g: I.Geometry, steps: I.StepTables, band: seq<I.Line>, n: nat, mx: nat, k: nat)
    requires I.IsBand(g, band) && n <= g.McusPerRow() && k < Before(g, g.Components())
    ensures |I.BandUnits(g, steps, band, n)| == F.Times(n, Before(g, g.Components()))
    ensures mx < n ==>
      var at := F.Times(mx, Before(g, g.Components())) + k;
      at < |I.BandUnits(g, steps, band, n)| && |I.McuUnits(g, steps, band, mx)| == Before(g, g.Components())
      && I.BandUnits(g, steps, band, n)[at] == I.McuUnits(g, steps, band, mx)[k]
  {
    hide I.McuUnits, I.IsBand, Before, F.Times, I.Geometry.McusPerRow, I.Geometry.Components;
    var p := Before(g, g.Components());
    if n == 0 {
      NoTimes(p);
    } else {
      BandUnitsAt(g, steps, band, n - 1, mx, k);
      MulSteps(n - 1, n, k, p);
      McuUnitsSize(g, steps, band, n - 1);
      if mx < n - 1 {
        MulSteps(mx, n - 1, k, p);
      }
    }
  }

  lemma NoTimes(p: nat)
    ensures F.Times(0, p) == 0
  {
  }

  lemma TimesTimes(a: nat, b: nat, p: nat)
    ensures F.Times(F.Times(a, b), p) == F.Times(a, F.Times(b, p))
    ensures forall m: nat :: F.Times(F.Times(a, b) + m, p) == F.Times(a, F.Times(b, p)) + F.Times(m, p)
  {
    forall m: nat
      ensures F.Times(F.Times(a, b) + m, p) == F.Times(a, F.Times(b, p)) + F.Times(m, p)
    {
      assert (a * b + m) * p == a * (b * p) + m * p;
    }
  }

  lemma {:induction false} ImageUnitsAt(g: I.Geometry, steps: I.StepTables, rows: seq<seq<byte>>, n: nat,
                                        my: nat, mx: nat, k: nat)
    requires I.AreScanlines(g, rows) && rows != [] && mx < g.McusPerRow() && k < Before(g, g.Components())
    ensures |I.ImageUnits(g, steps, rows, n)| == F.Times(n, F.Times(g.McusPerRow(), Before(g, g.Components())))
    ensures my < n ==>
      var p := Before(g, g.Components());
      var at, units := F.Times(my, F.Times(g.McusPerRow(), p)) + (F.Times(mx, p) + k),
                       I.McuUnits(g, steps, I.Band(g, rows, my), mx);
      at < |I.ImageUnits(g, steps, rows, n)| && |units| == p && I.ImageUnits(g, steps, rows, n)[at] == units[k]
  {
    hide I.McuUnits, I.BandUnits, I.Band, I.IsBand, I.AreScanlines, Before, F.Times;
    var p, m := Before(g, g.Components()), g.McusPerRow();
    if n == 0 {
      NoTimes(F.Times(m, p));
    } else {
      var j := F.Times(mx, p) + k;
      MulSteps(mx, m, k, p);
      ImageUnitsAt(g, steps, rows, n - 1, my, mx, k);
      BandUnitsAt(g, steps, I.Band(g, rows, n - 1), m, mx, k);
      MulSteps(n - 1, n, j, F.Times(m, p));
      if my < n - 1 {
        MulSteps(my, n - 1, j, F.Times(m, p));
      }
    }
  }

  // ----- what the header says

  lemma FactorsRead(g: I.Geometry, steps: I.StepTables, c: nat)
    requires c < g.Components()
    ensures var f := R.Expected(g, steps).frame;
      |f| == g.Components() && f[c] == F.FrameComponent(c + 1, g.H(c), g.V(c), if c == 0 then 0 else 1)
  {
    hide R.WithSteps, R.WithTables;
    R.ExpectedFrame(g, steps);
  }

  lemma StepsRead(g: I.Geometry, steps: I.StepTables, c: nat)
    requires c < g.Components()
    ensures var q := if c == 0 then 0 else 1;
      q in R.Expected(g, steps).quant && R.Expected(g, steps).quant[q] == R.StepBytes(steps.For(c))
  {
    hide T.Lum, T.Chroma, R.Frame, R.Scan, R.StepBytes;
  }

  lemma LargestRead(g: I.Geometry, steps: I.StepTables)
    ensures var f := R.Expected(g, steps).frame; F.MaxH(f) == g.H(0) && F.MaxV(f) == g.V(0)
  {
    hide R.WithSteps, R.WithTables;
    R.ExpectedFrame(g, steps);
    R.MaxRead(g);
    AtLeastOne(R.Frame(g));
  }

  lemma AtLeastOne(f: seq<F.FrameComponent>)
    ensures F.MaxH(f) >= 1 && F.MaxV(f) >= 1
  {
  }

  lemma OneMore(f: seq<F.FrameComponent>, c: nat)
    requires 0 < c <= |f|
    ensures |F.McuComponents(f[..c])| == |F.McuComponents(f[..c - 1])| + f[c - 1].h * f[c - 1].v
  {
    assert f[..c][..c - 1] == f[..c - 1];
  }

  lemma BeforeNext(g: I.Geometry, c: nat)
    requires 0 < c
    ensures Before(g, c) == Before(g, c - 1) + g.H(c - 1) * g.V(c - 1)
  {
  }

  lemma NoneBefore(g: I.Geometry, f: seq<F.FrameComponent>)
    ensures |F.McuComponents(f[..0])| == Before(g, 0)
  {
  }

  lemma {:induction false} OrderRead(g: I.Geometry, steps: I.StepTables, c: nat)
    requires c <= g.Components()
    ensures var f := R.Expected(g, steps).frame;
      |f| == g.Components() && |F.McuComponents(f[..c])| == Before(g, c)
  {
    hide R.Expected, F.McuComponents, Before;
    FactorsRead(g, steps, 0);
    NoneBefore(g, R.Expected(g, steps).frame);
    if c > 0 {
      var f := R.Expected(g, steps).frame;
      FactorsRead(g, steps, c - 1);
      OrderRead(g, steps, c - 1);
      OneMore(f, c);
      BeforeNext(g, c);
    }
  }

  lemma GridRead(g: I.Geometry, steps: I.StepTables)
    requires g.Valid()
    ensures var h := R.Expected(g, steps);
      && F.CeilDiv(h.width, 8 * I.Max(1, F.MaxH(h.frame))) == g.McusPerRow()
      && F.CeilDiv(h.height, 8 * I.Max(1, F.MaxV(h.frame))) == g.McuRows()
  {
    hide R.Expected, F.MaxH, F.MaxV, F.CeilDiv, I.Geometry.McusPerRow, I.Geometry.McuRows;
    LargestRead(g, steps);
    R.ExpectedFrame(g, steps);
    GridCells(g);
  }

  lemma GridCells(g: I.Geometry)
    ensures F.CeilDiv(g.width, 8 * I.Max(1, g.H(0))) == g.McusPerRow()
    ensures F.CeilDiv(g.height, 8 * I.Max(1, g.V(0))) == g.McuRows()
  {
    I.RoundedUp(g.width);
  }

  // ----- the whole picture

  lemma UnitIsShown(g: I.Geometry, steps: I.StepTables, rows: seq<seq<byte>>, my: nat, c: nat, bc: nat, br: nat)
    requires I.AreScanlines(g, rows) && rows != [] && c < g.Components() && bc < g.BlocksWide(c) && br < g.V(c)
    ensures var u := I.UnitAt(g, steps, I.Band(g, rows, my), c, bc, br);
      && u.component == c
      && exists s: D.Samples ::
           && IsBlock(g, rows, c, g.H(0) / g.H(c), g.V(0) / g.V(c), bc, g.V(c) * my + br, s)
           && Codes(s, R.StepBytes(steps.For(c)), u.block)
  {
    hide I.Band, IsBlock, Codes, D.Transform, Q.QuantiseBlock, I.StepTables.For, R.StepBytes, D.InByteRange;
    var s := I.BlockSamples(g, I.Band(g, rows, my), c, bc, br);
    BlockIsMean(g, rows, my, c, bc, br);
    BlockCodes(s, steps.For(c));
  }

  lemma PlaceRead(g: I.Geometry, steps: I.StepTables, my: nat, mx: nat, c: nat, br: nat, i: nat)
    requires g.Valid() && c < g.Components()
    ensures var h, p := R.Expected(g, steps), Before(g, g.Components());
      && |h.frame| == g.Components() && |F.McuComponents(h.frame)| == p
      && Place(h, my, mx, c, br, i)
         == F.Times(my, F.Times(g.McusPerRow(), p)) + (F.Times(mx, p) + (Before(g, c) + F.Times(br, g.H(c)) + i))
  {
    hide R.Expected, F.MaxH, F.MaxV, F.Times, F.McuComponents, Before, F.CeilDiv;
    var h := R.Expected(g, steps);
    FactorsRead(g, steps, c);
    OrderRead(g, steps, c);
    OrderRead(g, steps, g.Components());
    assert h.frame[..|h.frame|] == h.frame;
    GridRead(g, steps);
    TimesTimes(my, g.McusPerRow(), Before(g, g.Components()));
  }

  lemma PlaceShown(g: I.Geometry, steps: I.StepTables, rows: seq<seq<byte>>, my: nat, mx: nat, c: nat, br: nat, i: nat)
    requires I.AreScanlines(g, rows) && rows != [] && my < g.McuRows() && mx < g.McusPerRow()
    requires c < g.Components() && br < g.V(c) && i < g.H(c)
    ensures c < |R.Expected(g, steps).frame|
    ensures Shown(g, rows, F.Picture(R.Expected(g, steps), R.PictureUnits(g, steps, rows)), my, mx, c, br, i)
  {
    hide R.Expected, F.MaxH, F.MaxV, F.Times, Before, Place, I.McuUnits, I.UnitAt, I.ImageUnits, I.Band, I.IsBand,
      IsBlock, Codes, I.StepTables.For, R.StepBytes, I.AreScanlines;
    var k := Before(g, c) + F.Times(br, g.H(c)) + i;
    RowsValid(g, rows);
    FactorsRead(g, steps, c);
    StepsRead(g, steps, c);
    LargestRead(g, steps);
    PlaceRead(g, steps, my, mx, c, br, i);
    McuUnitsAt(g, steps, I.Band(g, rows, my), mx, c, br, i);
    ImageUnitsAt(g, steps, rows, g.McuRows(), my, mx, k);
    BlockInside(g, mx, c, i);
    UnitIsShown(g, steps, rows, my, c, g.H(c) * mx + i, br);
  }

  lemma RowsValid(g: I.Geometry, rows: seq<seq<byte>>)
    requires I.AreScanlines(g, rows)
    ensures g.Valid()
  {
  }

  lemma BlockInside(g: I.Geometry, mx: nat, c: nat, i: nat)
    requires mx < g.McusPerRow() && i < g.H(c)
    ensures g.H(c) * mx + i < g.BlocksWide(c)
  {
  }

  /** What the coded units decode to shows the scanlines. */
  lemma PictureShows(g: I.Geometry, steps: I.StepTables, rows: seq<seq<byte>>)
    requires I.AreScanlines(g, rows) && rows != []
    ensures Shows(g, rows, F.Picture(R.Expected(g, steps), R.PictureUnits(g, steps, rows)))
  {
    hide R.Expected, F.MaxH, F.MaxV, F.McuComponents, F.CeilDiv, F.Times, Before, Shown, I.ImageUnits;
    var h := R.Expected(g, steps);
    GridRead(g, steps);
    R.ExpectedFrame(g, steps);
    PlaceRead(g, steps, 0, 0, 0, 0, 0);
    R.McuCountRead(g, steps);
    SizeRead(g, steps, rows);
    forall my: nat, mx: nat, c: nat, br: nat, i: nat |
      my < g.McuRows() && mx < g.McusPerRow() && c < |h.frame| && br < h.frame[c].v && i < h.frame[c].h
      ensures Shown(g, rows, F.Picture(h, R.PictureUnits(g, steps, rows)), my, mx, c, br, i)
    {
      FactorsRead(g, steps, c);
      PlaceShown(g, steps, rows, my, mx, c, br, i);
    }
  }

  lemma SizeRead(g: I.Geometry, steps: I.StepTables, rows: seq<seq<byte>>)
    requires I.AreScanlines(g, rows) && rows != []
    ensures |R.PictureUnits(g, steps, rows)|
         == F.Times(F.Times(g.McusPerRow(), g.McuRows()), Before(g, g.Components()))
  {
    hide F.Times, I.ImageUnits;
    ImageUnitsAt(g, steps, rows, g.McuRows(), 0, 0, 0);
    TimesSwap(g.McuRows(), g.McusPerRow(), Before(g, g.Components()));
  }

  lemma TimesSwap(a: nat, b: nat, p: nat)
    ensures F.Times(a, F.Times(b, p)) == F.Times(F.Times(b, a), p)
  {
  }
}
