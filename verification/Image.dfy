/** The picture as the encoder sees it: colour conversion, edge replication, subsampled component
    planes, and the order in which their 8 x 8 blocks are coded (T.81, sections A.2.3 and A.2.4). */
module Image {
  import opened Bits
  import D = Dct
  import Q = Quantisation
  import E = EntropyCoding

  datatype Subsampling = YOnly | H1V1 | H2V1 | H2V2

  /** Size of the picture, bytes per source pixel, and subsampling. */
  datatype Geometry = Geometry(width: nat, height: nat, bpp: nat, sub: Subsampling) {
    predicate Valid() {
      width >= 1 && height >= 1 && (bpp == 1 || bpp == 3 || bpp == 4)
    }

    function Components(): (n: nat)
      ensures n == 1 || n == 3
    {
      if sub == YOnly then 1 else 3
    }

    /** MCUs are 16 pixels wide, or tall, where chrominance is halved. */
    predicate Wide() { sub == H2V1 || sub == H2V2 }

    predicate Tall() { sub == H2V2 }

    /** Horizontal and vertical sampling factor of component c. */
    function H(c: nat): nat { if c == 0 && Wide() then 2 else 1 }

    function V(c: nat): nat { if c == 0 && Tall() then 2 else 1 }

    function McuX(): nat { if Wide() then 16 else 8 }

    function McuY(): nat { if Tall() then 16 else 8 }

    /** Width rounded up to whole MCUs: (x + m - 1) & ~(m - 1) for a power of two m. */
    function XMcu(): nat {
      var x := width + McuX() - 1;
      if Wide() then x - x % 16 else x - x % 8
    }

    function McusPerRow(): nat { if Wide() then XMcu() / 16 else XMcu() / 8 }

    function McuRows(): nat { if Tall() then (height + 15) / 16 else (height + 7) / 8 }

    /** Blocks of component c across the picture. */
    function BlocksWide(c: nat): nat { if c == 0 && Wide() then 2 * McusPerRow() else McusPerRow() }

    /** First scanline of MCU row my. */
    function Top(my: nat): nat { if Tall() then 16 * my else 8 * my }

    /** Where pixel x starts in a converted line. */
    function Slot(x: nat): nat { if sub == YOnly then x else 3 * x }

    function LineBytes(): nat { Slot(XMcu()) }

    function ScanlineBytes(): nat {
      if bpp == 1 then width else if bpp == 3 then 3 * width else 4 * width
    }
  }

  /** A source scanline holds bpp bytes a pixel. */
  predicate IsScanline(g: Geometry, src: seq<byte>) {
    |src| == g.ScanlineBytes()
  }

  // ----- colour conversion

  function ClampByte(i: int): byte {
    if i < 0 then 0 else if i > 255 then 255 else i
  }

  function Luma(r: byte, g: byte, b: byte): byte {
    (r * 19595 + g * 38470 + b * 7471 + 32768) / 65536
  }

  function ChromaBlue(r: byte, g: byte, b: byte): byte {
    ClampByte(128 + (r * -11059 + g * -21709 + b * 32768 + 32768) / 65536)
  }

  function ChromaRed(r: byte, g: byte, b: byte): byte {
    ClampByte(128 + (r * 32768 + g * -27439 + b * -5329 + 32768) / 65536)
  }

  /** Component c of a colour in JFIF, exactly: Y = 0.299 R + 0.587 G + 0.114 B,
      Cb = 128 + (B - Y) / 1.772 and Cr = 128 + (R - Y) / 1.402. */
  function JfifValue(p: Rgb, c: nat): real {
    var y := 0.299 * p.r as real + 0.587 * p.g as real + 0.114 * p.b as real;
    if c == 0 then y else if c == 1 then 128.0 + (p.b as real - y) / 1.772 else 128.0 + (p.r as real - y) / 1.402
  }

  ghost predicate Near(v: int, exact: real, error: real) {
    -error <= v as real - exact <= error
  }

  /** y, cb and cr are the JFIF colour of p, each rounded; grey stays the same grey. */
  ghost predicate IsJfif(p: Rgb, y: int, cb: int, cr: int) {
    && Near(y, JfifValue(p, 0), 0.503) && Near(cb, JfifValue(p, 1), 0.503) && Near(cr, JfifValue(p, 2), 0.503)
    && (p.Grey() ==> y == p.r && cb == cr == 128)
  }

  lemma ColourIsJfif(p: Rgb)
    ensures IsJfif(p, Luma(p.r, p.g, p.b), ChromaBlue(p.r, p.g, p.b), ChromaRed(p.r, p.g, p.b))
  {
    hide Luma, ChromaBlue, ChromaRed;
    LumaRounds(p);
    BlueRounds(p);
    RedRounds(p);
    GreyStays(p.r);
  }

  /** A thousand times the luminance. */
  function Luminance(p: Rgb): int { 299 * p.r + 587 * p.g + 114 * p.b }

  lemma LumaRounds(p: Rgb)
    ensures -1003 <= 2 * (1000 * Luma(p.r, p.g, p.b) - Luminance(p)) <= 1003
  {
  }

  lemma BlueRounds(p: Rgb)
    ensures -1782 <= 2 * (1772 * (ChromaBlue(p.r, p.g, p.b) - 128) - 1000 * p.b + Luminance(p)) <= 1782
  {
  }

  lemma RedRounds(p: Rgb)
    ensures -1404 <= 2 * (1402 * (ChromaRed(p.r, p.g, p.b) - 128) - 1000 * p.r + Luminance(p)) <= 1404
  {
  }

  lemma GreyStays(v: byte)
    ensures Luma(v, v, v) == v && ChromaBlue(v, v, v) == 128 && ChromaRed(v, v, v) == 128
  {
  }

  /** Component c of pixel x. A source that is not RGB is read as one grey byte a pixel. */
  function PixelAt(g: Geometry, src: seq<byte>, x: nat, c: nat): byte
    requires g.Valid() && IsScanline(g, src) && x < g.width
  {
    if g.bpp == 3 then
      var red, green, blue := src[3 * x], src[3 * x + 1], src[3 * x + 2];
      if c == 0 then Luma(red, green, blue)
      else if c == 1 then ChromaBlue(red, green, blue)
      else ChromaRed(red, green, blue)
    else if c == 0 then src[x]
    else 128
  }

  /** The colour of pixel x of a scanline: red first, or one grey byte. */
  function ColourOf(g: Geometry, src: seq<byte>, x: nat): Rgb
    requires g.Valid() && IsScanline(g, src) && x < g.width
  {
    if g.bpp == 3 then Rgb(src[3 * x], src[3 * x + 1], src[3 * x + 2]) else Rgb(src[x], src[x], src[x])
  }

  /** Pixels are converted to JFIF. */
  lemma PixelIsJfif(g: Geometry, src: seq<byte>, x: nat)
    requires g.Valid() && IsScanline(g, src) && x < g.width
    ensures IsJfif(ColourOf(g, src, x), PixelAt(g, src, x, 0), PixelAt(g, src, x, 1), PixelAt(g, src, x, 2))
  {
    hide Luma, ChromaBlue, ChromaRed;
    var p := ColourOf(g, src, x);
    ColourIsJfif(p);
    GreyStays(p.r);
  }

  function Min(a: nat, b: nat): nat { if a < b then a else b }

  function Max(a: nat, b: nat): nat { if a > b then a else b }

  // ----- lines and bands

  type Line = seq<byte>

  /** A converted line, its last pixel repeated up to a whole number of MCUs. */
  function PaddedLine(g: Geometry, src: seq<byte>): (l: Line)
    requires g.Valid() && IsScanline(g, src)
    ensures |l| == g.LineBytes()
  {
    seq(g.LineBytes(), k requires 0 <= k < g.LineBytes() =>
      if g.sub == YOnly then PixelAt(g, src, Min(k, g.width - 1), 0)
      else PixelAt(g, src, Min(k / 3, g.width - 1), k % 3))
  }

  /** Every pixel of the line is the JFIF colour of the source pixel nearest to it. */
  ghost predicate HasColours(g: Geometry, src: seq<byte>, l: Line)
    requires g.Valid() && IsScanline(g, src)
  {
    |l| == g.LineBytes() && forall x: nat :: x < g.XMcu() ==> ColourHeld(g, src, l, x)
  }

  ghost predicate ColourHeld(g: Geometry, src: seq<byte>, l: Line, x: nat)
    requires g.Valid() && IsScanline(g, src) && |l| == g.LineBytes() && x < g.XMcu()
  {
    var p := ColourOf(g, src, Min(x, g.width - 1));
    if g.sub == YOnly then Near(l[x], JfifValue(p, 0), 0.503)
    else IsJfif(p, l[3 * x], l[3 * x + 1], l[3 * x + 2])
  }

  lemma PaddedColours(g: Geometry, src: seq<byte>)
    requires g.Valid() && IsScanline(g, src)
    ensures HasColours(g, src, PaddedLine(g, src))
  {
    hide PixelAt, ColourOf, JfifValue;
    forall x: nat | x < g.XMcu()
      ensures ColourHeld(g, src, PaddedLine(g, src), x)
    {
      PixelIsJfif(g, src, Min(x, g.width - 1));
    }
  }

  /** The lines under one row of MCUs. */
  predicate IsBand(g: Geometry, band: seq<Line>) {
    |band| == g.McuY() && forall j :: 0 <= j < |band| ==> |band[j]| == g.LineBytes()
  }

  function At(g: Geometry, band: seq<Line>, c: nat, x: nat, y: nat): byte
    requires IsBand(g, band) && c < g.Components() && x < g.XMcu() && y < g.McuY()
  {
    band[y][g.Slot(x) + c]
  }

  // ----- planes and blocks

  /** Sample (x, y) of component plane c, level-shifted. Chrominance planes average the pixels they
      cover; the 2 x 2 average rounds down and up in a checkerboard. */
  function PlaneSample(g: Geometry, band: seq<Line>, c: nat, x: nat, y: nat): (s: int)
    requires IsBand(g, band) && c < g.Components()
    requires x < 8 * g.BlocksWide(c) && y < 8 * g.V(c)
    ensures -128 <= s <= 127
  {
    PlaneInside(g, c, x);
    if c == 0 || g.sub == H1V1 then At(g, band, c, x, y) - 128
    else if g.sub == H2V1 then (At(g, band, c, 2 * x, y) + At(g, band, c, 2 * x + 1, y)) / 2 - 128
    else
      (At(g, band, c, 2 * x, 2 * y) + At(g, band, c, 2 * x + 1, 2 * y)
       + At(g, band, c, 2 * x, 2 * y + 1) + At(g, band, c, 2 * x + 1, 2 * y + 1)
       + (if (x + y) % 2 == 0 then 0 else 2)) / 4 - 128
  }

  /** A plane sample covers pixels inside the padded line. */
  lemma PlaneInside(g: Geometry, c: nat, x: nat)
    requires c < g.Components() && x < 8 * g.BlocksWide(c)
    ensures c == 0 || g.sub == H1V1 ==> x < g.XMcu()
    ensures c > 0 && g.sub != H1V1 ==> 2 * x + 1 < g.XMcu()
  {
  }

  lemma PlaneFull(g: Geometry, band: seq<Line>, c: nat, x: nat, y: nat)
    requires IsBand(g, band) && c < g.Components() && x < 8 * g.BlocksWide(c) && y < 8 * g.V(c)
    requires c == 0 || g.sub == H1V1
    ensures x < g.XMcu() && y < g.McuY() && PlaneSample(g, band, c, x, y) == At(g, band, c, x, y) - 128
  {
    PlaneInside(g, c, x);
  }

  lemma PlaneHalf(g: Geometry, band: seq<Line>, c: nat, x: nat, y: nat)
    requires IsBand(g, band) && c < g.Components() && x < 8 * g.BlocksWide(c) && y < 8 * g.V(c)
    requires c > 0 && g.sub == H2V1
    ensures 2 * x + 1 < g.XMcu() && y < g.McuY()
    ensures PlaneSample(g, band, c, x, y) == (At(g, band, c, 2 * x, y) + At(g, band, c, 2 * x + 1, y)) / 2 - 128
  {
    PlaneInside(g, c, x);
  }

  lemma PlaneQuarter(g: Geometry, band: seq<Line>, c: nat, x: nat, y: nat)
    requires IsBand(g, band) && c < g.Components() && x < 8 * g.BlocksWide(c) && y < 8 * g.V(c)
    requires c > 0 && g.sub == H2V2
    ensures 2 * x + 1 < g.XMcu() && 2 * y + 1 < g.McuY()
    ensures PlaneSample(g, band, c, x, y)
         == (At(g, band, c, 2 * x, 2 * y) + At(g, band, c, 2 * x + 1, 2 * y) + At(g, band, c, 2 * x, 2 * y + 1)
             + At(g, band, c, 2 * x + 1, 2 * y + 1) + (if (x + y) % 2 == 0 then 0 else 2)) / 4 - 128
  {
    PlaneInside(g, c, x);
  }

  /** The average of a two by two area is rounded down at even places and to the nearest at odd ones. */
  lemma CheckerRounding(g: Geometry, band: seq<Line>, c: nat, x: nat, y: nat)
    requires IsBand(g, band) && c < g.Components() && x < 8 * g.BlocksWide(c) && y < 8 * g.V(c)
    requires c > 0 && g.sub == H2V2
    ensures 2 * x + 1 < g.XMcu() && 2 * y + 1 < g.McuY()
    ensures var sum := At(g, band, c, 2 * x, 2 * y) + At(g, band, c, 2 * x + 1, 2 * y)
                     + At(g, band, c, 2 * x, 2 * y + 1) + At(g, band, c, 2 * x + 1, 2 * y + 1);
      var mean := PlaneSample(g, band, c, x, y) + 128;
      if (x + y) % 2 == 0 then 4 * mean <= sum < 4 * mean + 4 else sum - 2 < 4 * mean <= sum + 2
  {
    hide At, IsBand, PlaneSample;
    PlaneQuarter(g, band, c, x, y);
  }

  /** Block (bc, br) of component c. */
  function BlockSamples(g: Geometry, band: seq<Line>, c: nat, bc: nat, br: nat): (s: D.Samples)
    requires IsBand(g, band) && c < g.Components() && bc < g.BlocksWide(c) && br < g.V(c)
    ensures D.InByteRange(s)
  {
    seq(64, k requires 0 <= k < 64 => PlaneSample(g, band, c, 8 * bc + k % 8, 8 * br + k / 8))
  }

  /** Quantisation steps: the first table for component 0, the second for the others. */
  datatype StepTables = StepTables(lum: Q.Steps, chroma: Q.Steps) {
    function For(c: nat): Q.Steps { if c == 0 then lum else chroma }
  }

  function UnitAt(g: Geometry, steps: StepTables, band: seq<Line>, c: nat, bc: nat, br: nat): E.CodedUnit
    requires IsBand(g, band) && c < g.Components() && bc < g.BlocksWide(c) && br < g.V(c)
  {
    E.CodedUnit(c, Q.QuantiseBlock(D.Transform(BlockSamples(g, band, c, bc, br)), steps.For(c)))
  }

  /** The blocks of component c in MCU mx: H x V of them, row by row (T.81, section A.2.3). */
  function ComponentUnits(g: Geometry, steps: StepTables, band: seq<Line>, mx: nat, c: nat): seq<E.CodedUnit>
    requires IsBand(g, band) && mx < g.McusPerRow() && c < g.Components()
  {
    UnitRow(g, steps, band, mx, c, 0) + (if g.V(c) == 2 then UnitRow(g, steps, band, mx, c, 1) else [])
  }

  function UnitRow(g: Geometry, steps: StepTables, band: seq<Line>, mx: nat, c: nat, br: nat): seq<E.CodedUnit>
    requires IsBand(g, band) && mx < g.McusPerRow() && c < g.Components() && br < g.V(c)
  {
    if g.H(c) == 2 then
      [UnitAt(g, steps, band, c, 2 * mx, br), UnitAt(g, steps, band, c, 2 * mx + 1, br)]
    else [UnitAt(g, steps, band, c, mx, br)]
  }

  function McuUnits(g: Geometry, steps: StepTables, band: seq<Line>, mx: nat): seq<E.CodedUnit>
    requires IsBand(g, band) && mx < g.McusPerRow()
  {
    ComponentUnits(g, steps, band, mx, 0) +
    (if g.Components() == 1 then []
     else ComponentUnits(g, steps, band, mx, 1) + ComponentUnits(g, steps, band, mx, 2))
  }

  /** The first n MCUs of a band. */
  function BandUnits(g: Geometry, steps: StepTables, band: seq<Line>, n: nat): seq<E.CodedUnit>
    requires IsBand(g, band) && n <= g.McusPerRow()
  {
    if n == 0 then [] else BandUnits(g, steps, band, n - 1) + McuUnits(g, steps, band, n - 1)
  }

  ghost predicate AreScanlines(g: Geometry, rows: seq<seq<byte>>) {
    g.Valid() && forall y :: 0 <= y < |rows| ==> IsScanline(g, rows[y])
  }

  /** The lines of MCU row my; below the last scanline the last one is repeated. */
  function Band(g: Geometry, rows: seq<seq<byte>>, my: nat): (band: seq<Line>)
    requires AreScanlines(g, rows) && rows != []
    ensures IsBand(g, band)
    ensures forall j :: 0 <= j < g.McuY() ==> band[j] == PaddedLine(g, rows[Min(g.Top(my) + j, |rows| - 1)])
  {
    var band := seq(g.McuY(), j requires 0 <= j < g.McuY() => PaddedLine(g, rows[Min(g.Top(my) + j, |rows| - 1)]));
    assert forall j :: 0 <= j < g.McuY() ==> band[j] == PaddedLine(g, rows[Min(g.Top(my) + j, |rows| - 1)]);
    band
  }

  /** The first n rows of MCUs. */
  function ImageUnits(g: Geometry, steps: StepTables, rows: seq<seq<byte>>, n: nat): seq<E.CodedUnit>
    requires AreScanlines(g, rows) && rows != []
  {
    if n == 0 then []
    else ImageUnits(g, steps, rows, n - 1) + BandUnits(g, steps, Band(g, rows, n - 1), g.McusPerRow())
  }

  // ----- facts

  /** Lines are padded to whole MCUs, and to no more of them than the picture needs. */
  lemma WholeMcus(g: Geometry)
    ensures g.XMcu() == g.McuX() * g.McusPerRow() && g.width <= g.XMcu() < g.width + g.McuX()
    ensures g.height <= g.McuY() * g.McuRows() < g.height + g.McuY()
    ensures g.McuX() == 8 * g.H(0) && g.McuY() == 8 * g.V(0)
  {
    RoundedUp(g.width);
    RoundedUp(g.height);
  }

  lemma RoundedUp(n: nat)
    ensures var x := n + 15; x - x % 16 == 16 * ((x - x % 16) / 16) == 16 * (x / 16) && n <= 16 * (x / 16) < n + 16
    ensures var x := n + 7; x - x % 8 == 8 * ((x - x % 8) / 8) == 8 * (x / 8) && n <= 8 * (x / 8) < n + 8
  {
    Sixteens((n + 15) / 16, (n + 15) % 16);
    Eights((n + 7) / 8, (n + 7) % 8);
  }

  lemma Sixteens(q: nat, r: nat)
    ensures (16 * q) / 16 == q
    ensures r < 16 ==> (16 * q + r) / 16 == q && (16 * q + r) % 16 == r
  {
  }

  lemma Eights(q: nat, r: nat)
    ensures (8 * q) / 8 == q
    ensures r < 8 ==> (8 * q + r) / 8 == q && (8 * q + r) % 8 == r
  {
  }

  /** Edge replication: every line the blocks are cut from holds, at column x of MCU row my, the
      converted source pixel nearest to it. */
  lemma BandReplicatesEdges(g: Geometry, rows: seq<seq<byte>>, my: nat, c: nat, x: nat, y: nat)
    requires AreScanlines(g, rows) && rows != []
    requires c < g.Components() && x < g.XMcu() && y < g.McuY()
    ensures At(g, Band(g, rows, my), c, x, y)
         == PixelAt(g, rows[Min(g.Top(my) + y, |rows| - 1)], Min(x, g.width - 1), c)
  {
    assert (3 * x + c) / 3 == x && (3 * x + c) % 3 == c;
  }

  /** Whole MCU rows do not depend on scanlines that come later. */
  lemma BandPrefix(g: Geometry, rows: seq<seq<byte>>, more: seq<seq<byte>>, my: nat)
    requires AreScanlines(g, rows + more) && rows != [] && g.Top(my + 1) <= |rows|
    ensures AreScanlines(g, rows) && Band(g, rows + more, my) == Band(g, rows, my)
  {
    assert forall y :: 0 <= y < |rows| ==> rows[y] == (rows + more)[y];
    forall j | 0 <= j < g.McuY()
      ensures Band(g, rows + more, my)[j] == Band(g, rows, my)[j]
    {
      assert g.Top(my) + j < |rows|;
    }
  }

  lemma {:induction false} ImageUnitsPrefix(g: Geometry, steps: StepTables, rows: seq<seq<byte>>, more: seq<seq<byte>>,
                                            n: nat)
    requires AreScanlines(g, rows + more) && rows != [] && g.Top(n) <= |rows|
    ensures AreScanlines(g, rows) && ImageUnits(g, steps, rows + more, n) == ImageUnits(g, steps, rows, n)
  {
    assert forall y :: 0 <= y < |rows| ==> rows[y] == (rows + more)[y];
    if n > 0 {
      ImageUnitsPrefix(g, steps, rows, more, n - 1);
      BandPrefix(g, rows, more, n - 1);
    }
  }

  lemma UnitInRange(g: Geometry, steps: StepTables, band: seq<Line>, c: nat, bc: nat, br: nat)
    requires IsBand(g, band) && c < g.Components() && bc < g.BlocksWide(c) && br < g.V(c)
    ensures E.BlockInRange(UnitAt(g, steps, band, c, bc, br).block)
  {
    hide D.Transform, Q.QuantiseBlock, E.BlockInRange, D.InByteRange;
    var s := BlockSamples(g, band, c, bc, br);
    D.TransformBounds(s);
    Q.QuantiseInRange(D.Transform(s), steps.For(c));
  }
}
