/** jpeg_encoder: takes scanlines, codes rows of MCUs as they fill up, and finishes the file.

    The ghost history rows lists the scanlines taken so far. Valid ties everything else to it: the
    blocks coded are those of the whole MCU rows, and the line buffers hold the rest. */
module Encoder {
  import opened Bits
  import opened BitWriter
  import opened ByteStuffing
  import opened Wrappers
  import E = EntropyCoding
  import I = Image
  import D = Dct
  import Q = Quantisation
  import C = TableCache
  import B = BlockCoder
  import T = StandardTables
  import F = JpegFormat

  class JpegEncoder {
    const g: I.Geometry
    const quality: nat
    const writer: BitWriter
    const cache: C.Cache
    const coder: B.Coder
    const lines: array2<byte>
    const sampleArray: array<int>
    var mcuYOfs: nat
    var passNum: nat
    ghost var rows: seq<seq<byte>>

    ghost const Repr: set<object> := coder.Repr + {this, lines, sampleArray}

    ghost predicate Shape()
      reads cache
    {
      && g.Valid() && 1 <= quality <= 100 && coder.writer == writer && coder.cache == cache
      && coder.components == g.Components() && sampleArray.Length == 64
      && lines.Length0 == g.McuY() && lines.Length1 == g.LineBytes()
      && cache !in Repr && {this as object, lines, sampleArray} !! coder.Repr
      && lines as object != sampleArray as object
      && cache.Valid() && cache.huffInitialized && cache.lastQuality == quality
    }

    /** The line buffers hold exactly this band. */
    ghost predicate Holds(band: seq<I.Line>)
      reads lines
    {
      && I.IsBand(g, band) && lines.Length0 == g.McuY() && lines.Length1 == g.LineBytes()
      && forall y, k :: 0 <= y < g.McuY() && 0 <= k < g.LineBytes() ==> lines[y, k] == band[y][k]
    }

    /** Ready to code blocks. */
    ghost predicate Coding()
      reads Repr, cache
    {
      Shape() && coder.Valid()
    }

    constructor Create(writer: BitWriter, cache: C.Cache, g: I.Geometry, quality: nat)
      requires g.Valid() && 1 <= quality <= 100 && writer.InScan() && writer.Emitted() == []
      requires cache.Valid() && cache.huffInitialized && cache.lastQuality == quality && cache !in writer.Repr
      ensures Valid() && rows == [] && passNum == 2
      ensures this.writer == writer && this.cache == cache && this.g == g && this.quality == quality
      ensures fresh(coder.Repr - writer.Repr) && fresh(lines) && fresh(sampleArray)
    {
      hide B.Coder.Valid, Valid, BitWriter.InScan, BitWriter.Emitted, C.Cache.Valid, I.Geometry.Valid;
      this.writer, this.cache, this.g, this.quality := writer, cache, g, quality;
      coder := new B.Coder(writer, cache, g.Components());
      lines := new byte[g.McuY(), g.LineBytes()]((_, _) => 0);
      sampleArray := new int[64];
      mcuYOfs, passNum := 0, 2;
      rows := [];
      new;
      coder.ValidShape();
      NothingCoded();
    }

    /** Without a scanline there is nothing to code and nothing to hold. */
    lemma NothingCoded()
      requires Shape() && coder.Valid() && coder.units == [] && rows == [] && mcuYOfs == 0
      ensures Valid()
    {
      hide B.Coder.Valid;
    }

    // ----- loading blocks

    lemma Pixel(band: seq<I.Line>, c: nat, x: nat, y: nat)
      requires Holds(band) && c < g.Components() && x < g.XMcu() && y < g.McuY()
      ensures g.Slot(x) + c < lines.Length1 && y < lines.Length0
      ensures lines[y, g.Slot(x) + c] == I.At(g, band, c, x, y)
    {
    }

    /** The next sample of block (bc, br). */
    method StoreSample(ghost band: seq<I.Line>, ghost c: nat, ghost bc: nat, ghost br: nat, k: nat, sample: int)
      requires I.IsBand(g, band) && c < g.Components() && bc < g.BlocksWide(c) && br < g.V(c)
      requires k < 64 && Loaded(band, c, bc, br, k)
      requires sample == I.PlaneSample(g, band, c, 8 * bc + k % 8, 8 * br + k / 8)
      modifies sampleArray
      ensures Loaded(band, c, bc, br, k + 1)
    {
      hide I.PlaneSample, I.IsBand;
      sampleArray[k] := sample;
    }

    lemma NothingLoaded(band: seq<I.Line>, c: nat, bc: nat, br: nat)
      requires I.IsBand(g, band) && c < g.Components() && bc < g.BlocksWide(c) && br < g.V(c)
      requires sampleArray.Length == 64
      ensures Loaded(band, c, bc, br, 0)
    {
    }

    lemma AllLoaded(band: seq<I.Line>, c: nat, bc: nat, br: nat)
      requires I.IsBand(g, band) && c < g.Components() && bc < g.BlocksWide(c) && br < g.V(c)
      requires Loaded(band, c, bc, br, 64)
      ensures sampleArray[..] == I.BlockSamples(g, band, c, bc, br)
    {
      hide I.PlaneSample, I.IsBand;
    }

    method LoadBlock88Grey(x: nat, ghost band: seq<I.Line>)
      requires Shape() && I.IsBand(g, band) && Holds(band) && g.sub == I.YOnly && x < g.McusPerRow()
      modifies sampleArray
      ensures sampleArray[..] == I.BlockSamples(g, band, 0, x, 0)
    {
      hide I.PlaneSample, I.BlockSamples, I.IsBand, I.At, Holds, Loaded;
      NothingLoaded(band, 0, x, 0);
      for i := 0 to 8
        invariant I.IsBand(g, band) && Holds(band) && Loaded(band, 0, x, 0, 8 * i)
      {
        for j := 0 to 8
          invariant I.IsBand(g, band) && Holds(band) && Loaded(band, 0, x, 0, 8 * i + j)
        {
          InBlock(i, j);
          I.PlaneFull(g, band, 0, 8 * x + j, i);
          Pixel(band, 0, 8 * x + j, i);
          StoreSample(band, 0, x, 0, 8 * i + j, lines[i, 8 * x + j] - 128);
        }
      }
      AllLoaded(band, 0, x, 0);
    }

    method LoadBlock88(x: nat, y: nat, c: nat, ghost band: seq<I.Line>)
      requires Shape() && I.IsBand(g, band) && Holds(band) && g.sub != I.YOnly && c < 3 && (c == 0 || g.sub == I.H1V1)
      requires x < g.BlocksWide(c) && y < g.V(c)
      modifies sampleArray
      ensures sampleArray[..] == I.BlockSamples(g, band, c, x, y)
    {
      hide I.PlaneSample, I.BlockSamples, I.IsBand, I.At, Holds, Loaded;
      NothingLoaded(band, c, x, y);
      for i := 0 to 8
        invariant I.IsBand(g, band) && Holds(band) && Loaded(band, c, x, y, 8 * i)
      {
        for j := 0 to 8
          invariant I.IsBand(g, band) && Holds(band) && Loaded(band, c, x, y, 8 * i + j)
        {
          InBlock(i, j);
          I.PlaneFull(g, band, c, 8 * x + j, 8 * y + i);
          Pixel(band, c, 8 * x + j, 8 * y + i);
          StoreSample(band, c, x, y, 8 * i + j, lines[8 * y + i, 24 * x + c + 3 * j] - 128);
        }
      }
      AllLoaded(band, c, x, y);
    }

    /** Sum of the four pixels at (x, y) and its right, lower and diagonal neighbours. */
    method SumQuad(x: nat, y: nat, c: nat, ghost band: seq<I.Line>) returns (sum: int)
      requires I.IsBand(g, band) && Holds(band) && g.sub == I.H2V2 && c < 3
      requires x + 1 < g.XMcu() && y + 1 < g.McuY()
      ensures sum == I.At(g, band, c, x, y) + I.At(g, band, c, x + 1, y) + I.At(g, band, c, x, y + 1)
                   + I.At(g, band, c, x + 1, y + 1)
    {
      hide I.IsBand, I.At, Holds;
      Pixel(band, c, x, y);
      Pixel(band, c, x + 1, y);
      Pixel(band, c, x, y + 1);
      Pixel(band, c, x + 1, y + 1);
      var p := 3 * x + c;
      sum := lines[y, p] + lines[y, p + 3] + lines[y + 1, p] + lines[y + 1, p + 3];
    }

    method LoadBlock168(x: nat, c: nat, ghost band: seq<I.Line>)
      requires Shape() && I.IsBand(g, band) && Holds(band) && g.sub == I.H2V2 && 1 <= c < 3 && x < g.McusPerRow()
      modifies sampleArray
      ensures sampleArray[..] == I.BlockSamples(g, band, c, x, 0)
    {
      hide I.PlaneSample, I.BlockSamples, I.IsBand, I.At, Holds, Loaded;
      NothingLoaded(band, c, x, 0);
      var a, b := 0, 2;
      for i := 0 to 8
        invariant I.IsBand(g, band) && Holds(band) && Loaded(band, c, x, 0, 8 * i)
        invariant (a, b) == if i % 2 == 0 then (0, 2) else (2, 0)
      {
        for j := 0 to 8
          invariant I.IsBand(g, band) && Holds(band) && Loaded(band, c, x, 0, 8 * i + j)
        {
          InBlock(i, j);
          I.PlaneQuarter(g, band, c, 8 * x + j, i);
          Checkerboard(x, i, j);
          var sum := SumQuad(2 * (8 * x + j), 2 * i, c, band);
          StoreSample(band, c, x, 0, 8 * i + j, (sum + (if j % 2 == 0 then a else b)) / 4 - 128);
        }
        a, b := b, a;
      }
      AllLoaded(band, c, x, 0);
    }

    method LoadBlock1688(x: nat, c: nat, ghost band: seq<I.Line>)
      requires Shape() && I.IsBand(g, band) && Holds(band) && g.sub == I.H2V1 && 1 <= c < 3 && x < g.McusPerRow()
      modifies sampleArray
      ensures sampleArray[..] == I.BlockSamples(g, band, c, x, 0)
    {
      hide I.PlaneSample, I.BlockSamples, I.IsBand, I.At, Holds, Loaded;
      NothingLoaded(band, c, x, 0);
      for i := 0 to 8
        invariant I.IsBand(g, band) && Holds(band) && Loaded(band, c, x, 0, 8 * i)
      {
        for j := 0 to 8
          invariant I.IsBand(g, band) && Holds(band) && Loaded(band, c, x, 0, 8 * i + j)
        {
          InBlock(i, j);
          I.PlaneHalf(g, band, c, 8 * x + j, i);
          Pixel(band, c, 16 * x + 2 * j, i);
          Pixel(band, c, 16 * x + 2 * j + 1, i);
          var p := 48 * x + c + 6 * j;
          StoreSample(band, c, x, 0, 8 * i + j, (lines[i, p] + lines[i, p + 3]) / 2 - 128);
        }
      }
      AllLoaded(band, c, x, 0);
    }

    /** The first n samples of block (bc, br) are in place. */
    ghost predicate Loaded(band: seq<I.Line>, c: nat, bc: nat, br: nat, n: nat)
      requires I.IsBand(g, band) && c < g.Components() && bc < g.BlocksWide(c) && br < g.V(c)
      reads sampleArray
    {
      && sampleArray.Length == 64 && n <= 64
      && forall k :: 0 <= k < n ==> sampleArray[k] == I.PlaneSample(g, band, c, 8 * bc + k % 8, 8 * br + k / 8)
    }

    // ----- coding blocks

    method LoadQuantizedCoefficients(component: nat)
      requires Shape() && component < 3 && coder.coefficientArray.Length == 64
      requires -1024 <= sampleArray[0] <= 1016 && forall k :: 1 <= k < 64 ==> -1023 <= sampleArray[k] <= 1023
      modifies coder.coefficientArray
      ensures coder.coefficientArray[..] == Q.QuantiseBlock(sampleArray[..], StepsOf(quality).For(component))
    {
      hide Q.Quantise, Q.StepTable, D.Cast16, Q.Zag;
      var q := cache.quant[if component > 0 then 1 else 0];
      ghost var steps := StepsOf(quality).For(component);
      for i := 0 to 64
        invariant forall k :: 0 <= k < i ==> coder.coefficientArray[k] == Q.Quantise(sampleArray[Q.Zag(k)], steps[k])
      {
        var j := sampleArray[Q.Zag(i)];
        SmallCast(j, q[i]);
        coder.coefficientArray[i] := D.Cast16(Q.Quantise(j, q[i]));
      }
    }

    /** Transforms, quantises and codes the loaded block. */
    method CodeBlock(component: nat, ghost band: seq<I.Line>, ghost bc: nat, ghost br: nat)
      requires Coding() && I.IsBand(g, band) && component < g.Components() && bc < g.BlocksWide(component)
      requires br < g.V(component)
      requires sampleArray[..] == I.BlockSamples(g, band, component, bc, br)
      modifies sampleArray, coder.coefficientArray, writer.Repr, coder.lastDcVal, coder`units
      ensures Coding() && writer.header == old(writer.header)
      ensures coder.units == old(coder.units) + [I.UnitAt(g, StepsOf(quality), band, component, bc, br)]
    {
      hide I.BlockSamples, D.Transform, Q.QuantiseBlock, D.InByteRange, I.IsBand, E.BlockInRange, B.Coder.Valid,
        StepsOf;
      ghost var p := I.BlockSamples(g, band, component, bc, br);
      coder.ValidShape();
      D.DCT2D(sampleArray);
      D.TransformBounds(p);
      Q.QuantiseInRange(D.Transform(p), StepsOf(quality).For(component));
      LoadQuantizedCoefficients(component);
      coder.StaysValid();
      coder.CodeCoefficients(component);
    }

    method CodeGrey(x: nat, ghost band: seq<I.Line>)
      requires Coding() && I.IsBand(g, band) && Holds(band) && g.sub == I.YOnly && x < g.McusPerRow()
      modifies sampleArray, coder.coefficientArray, writer.Repr, coder.lastDcVal, coder`units
      ensures Coding() && Holds(band) && writer.header == old(writer.header)
      ensures coder.units == old(coder.units) + [I.UnitAt(g, StepsOf(quality), band, 0, x, 0)]
    {
      hide I.IsBand, Holds, I.BlockSamples, I.UnitAt, E.Scannable;
      LoadBlock88Grey(x, band);
      CodeBlock(0, band, x, 0);
    }

    method CodeFull(x: nat, y: nat, c: nat, ghost band: seq<I.Line>)
      requires Coding() && I.IsBand(g, band) && Holds(band) && g.sub != I.YOnly && c < 3
      requires (c == 0 || g.sub == I.H1V1) && x < g.BlocksWide(c) && y < g.V(c)
      modifies sampleArray, coder.coefficientArray, writer.Repr, coder.lastDcVal, coder`units
      ensures Coding() && Holds(band) && writer.header == old(writer.header)
      ensures coder.units == old(coder.units) + [I.UnitAt(g, StepsOf(quality), band, c, x, y)]
    {
      hide I.IsBand, Holds, I.BlockSamples, I.UnitAt, E.Scannable;
      LoadBlock88(x, y, c, band);
      CodeBlock(c, band, x, y);
    }

    method CodeQuarter(x: nat, c: nat, ghost band: seq<I.Line>)
      requires Coding() && I.IsBand(g, band) && Holds(band) && g.sub == I.H2V2 && 1 <= c < 3 && x < g.McusPerRow()
      modifies sampleArray, coder.coefficientArray, writer.Repr, coder.lastDcVal, coder`units
      ensures Coding() && Holds(band) && writer.header == old(writer.header)
      ensures coder.units == old(coder.units) + [I.UnitAt(g, StepsOf(quality), band, c, x, 0)]
    {
      hide I.IsBand, Holds, I.BlockSamples, I.UnitAt, E.Scannable;
      LoadBlock168(x, c, band);
      CodeBlock(c, band, x, 0);
    }

    method CodeHalf(x: nat, c: nat, ghost band: seq<I.Line>)
      requires Coding() && I.IsBand(g, band) && Holds(band) && g.sub == I.H2V1 && 1 <= c < 3 && x < g.McusPerRow()
      modifies sampleArray, coder.coefficientArray, writer.Repr, coder.lastDcVal, coder`units
      ensures Coding() && Holds(band) && writer.header == old(writer.header)
      ensures coder.units == old(coder.units) + [I.UnitAt(g, StepsOf(quality), band, c, x, 0)]
    {
      hide I.IsBand, Holds, I.BlockSamples, I.UnitAt, E.Scannable;
      LoadBlock1688(x, c, band);
      CodeBlock(c, band, x, 0);
    }

    method CodeMcuYOnly(i: nat, ghost band: seq<I.Line>)
      requires Coding() && I.IsBand(g, band) && Holds(band) && g.sub == I.YOnly && i < g.McusPerRow()
      modifies sampleArray, coder.coefficientArray, writer.Repr, coder.lastDcVal, coder`units
      ensures Coding() && Holds(band) && writer.header == old(writer.header)
      ensures coder.units == old(coder.units) + I.McuUnits(g, StepsOf(quality), band, i)
    {
      hide I.IsBand, Holds, I.UnitAt, Coding, StepsOf;
      CodeGrey(i, band);
    }

    method CodeMcuH1V1(i: nat, ghost band: seq<I.Line>)
      requires Coding() && I.IsBand(g, band) && Holds(band) && g.sub == I.H1V1 && i < g.McusPerRow()
      modifies sampleArray, coder.coefficientArray, writer.Repr, coder.lastDcVal, coder`units
      ensures Coding() && Holds(band) && writer.header == old(writer.header)
      ensures coder.units == old(coder.units) + I.McuUnits(g, StepsOf(quality), band, i)
    {
      hide I.IsBand, Holds, I.UnitAt, Coding, StepsOf;
      CodeFull(i, 0, 0, band);
      CodeFull(i, 0, 1, band);
      CodeFull(i, 0, 2, band);
    }

    method CodeMcuH2V1(i: nat, ghost band: seq<I.Line>)
      requires Coding() && I.IsBand(g, band) && Holds(band) && g.sub == I.H2V1 && i < g.McusPerRow()
      modifies sampleArray, coder.coefficientArray, writer.Repr, coder.lastDcVal, coder`units
      ensures Coding() && Holds(band) && writer.header == old(writer.header)
      ensures coder.units == old(coder.units) + I.McuUnits(g, StepsOf(quality), band, i)
    {
      hide I.IsBand, Holds, I.UnitAt, Coding, StepsOf;
      CodeFull(2 * i, 0, 0, band);
      CodeFull(2 * i + 1, 0, 0, band);
      CodeHalf(i, 1, band);
      CodeHalf(i, 2, band);
    }

    method CodeMcuH2V2(i: nat, ghost band: seq<I.Line>)
      requires Coding() && I.IsBand(g, band) && Holds(band) && g.sub == I.H2V2 && i < g.McusPerRow()
      modifies sampleArray, coder.coefficientArray, writer.Repr, coder.lastDcVal, coder`units
      ensures Coding() && Holds(band) && writer.header == old(writer.header)
      ensures coder.units == old(coder.units) + I.McuUnits(g, StepsOf(quality), band, i)
    {
      hide I.IsBand, Holds, I.UnitAt, Coding, StepsOf;
      CodeFull(2 * i, 0, 0, band);
      CodeFull(2 * i + 1, 0, 0, band);
      CodeFull(2 * i, 1, 0, band);
      CodeFull(2 * i + 1, 1, 0, band);
      CodeQuarter(i, 1, band);
      CodeQuarter(i, 2, band);
    }

    method CodeMcu(i: nat, ghost band: seq<I.Line>)
      requires Coding() && I.IsBand(g, band) && Holds(band) && i < g.McusPerRow()
      modifies sampleArray, coder.coefficientArray, writer.Repr, coder.lastDcVal, coder`units
      ensures Coding() && Holds(band) && writer.header == old(writer.header)
      ensures coder.units == old(coder.units) + I.McuUnits(g, StepsOf(quality), band, i)
    {
      hide I.IsBand, Holds, I.McuUnits, Coding, StepsOf;
      if g.sub == I.YOnly {
        CodeMcuYOnly(i, band);
      } else if g.sub == I.H1V1 {
        CodeMcuH1V1(i, band);
      } else if g.sub == I.H2V1 {
        CodeMcuH2V1(i, band);
      } else {
        CodeMcuH2V2(i, band);
      }
    }

    /** Codes every MCU of the band in the line buffers. */
    method ProcessMcuRow(ghost band: seq<I.Line>)
      requires Coding() && I.IsBand(g, band) && Holds(band)
      modifies sampleArray, coder.coefficientArray, writer.Repr, coder.lastDcVal, coder`units
      ensures Coding() && Holds(band) && writer.header == old(writer.header)
      ensures coder.units == old(coder.units) + I.BandUnits(g, StepsOf(quality), band, g.McusPerRow())
    {
      ghost var steps := StepsOf(quality);
      var n := g.McusPerRow();
      hide I.IsBand, Holds, I.McuUnits, Coding, StepsOf, I.BandUnits, I.Geometry.McusPerRow;
      NoBandUnits(g, steps, band);
      for i := 0 to n
        invariant Coding() && Holds(band) && writer.header == old(writer.header)
        invariant coder.units == old(coder.units) + I.BandUnits(g, steps, band, i)
      {
        CodeMcu(i, band);
        NextMcu(g, steps, band, i, old(coder.units));
      }
    }

    // ----- scanlines

    /** Line y of the buffer holds l. */
    ghost predicate HoldsLine(y: nat, l: I.Line)
      reads lines
    {
      y < lines.Length0 && lines.Length1 == |l| && forall k :: 0 <= k < |l| ==> lines[y, k] == l[k]
    }

    /** Whole MCU rows coded so far. */
    ghost function Done(): nat
      reads this
    {
      if g.Tall() then |rows| / 16 else |rows| / 8
    }

    ghost function UnitsSoFar(): seq<E.CodedUnit>
      requires I.AreScanlines(g, rows) && 1 <= quality <= 100
      reads this
    {
      if rows == [] then [] else I.ImageUnits(g, StepsOf(quality), rows, Done())
    }

    /** Lines below y hold the scanlines from MCU row my on. */
    ghost predicate HoldsFrom(my: nat, y: nat)
      requires I.AreScanlines(g, rows)
      reads this, lines
    {
      g.Top(my) + y <= |rows| && forall j :: 0 <= j < y ==> HoldsRow(rows, my, j)
    }

    ghost predicate HoldsRow(rs: seq<seq<byte>>, my: nat, j: nat)
      requires I.AreScanlines(g, rs) && g.Top(my) + j < |rs|
      reads lines
    {
      HoldsLine(j, I.PaddedLine(g, rs[g.Top(my) + j]))
    }

    ghost predicate Valid()
      reads Repr, cache
    {
      && Coding() && I.AreScanlines(g, rows)
      && mcuYOfs < g.McuY() && g.Top(Done()) + mcuYOfs == |rows|
      && coder.units == UnitsSoFar()
      && HoldsFrom(Done(), mcuYOfs)
    }

    /** Once height scanlines have been taken, all rows of MCUs are accounted for. */
    lemma WholePicture()
      requires Ready() && passNum == 2 && |rows| == g.height
      ensures I.AreScanlines(g, rows) && rows != []
      ensures coder.Tables() == T.Standard(g.Components())
      ensures AllUnits() == I.ImageUnits(g, StepsOf(quality), rows, g.McuRows())
    {
      hide I.ImageUnits;
      assert (if mcuYOfs == 0 then Done() else Done() + 1) == g.McuRows();
    }

    lemma ValidShape()
      requires Valid()
      ensures Shape() && writer.stream.Valid()
    {
    }

    /** Colour-converts a scanline into line y and repeats its last pixel: the line then holds the JFIF
        colours. */
    method StoreLine(y: nat, src: seq<byte>)
      requires Shape() && I.IsScanline(g, src) && y < g.McuY()
      modifies lines
      ensures HoldsLine(y, I.PaddedLine(g, src)) && I.HasColours(g, src, I.PaddedLine(g, src))
      ensures forall j, l :: j != y && old(HoldsLine(j, l)) ==> HoldsLine(j, l)
    {
      hide I.PaddedLine, I.HasColours;
      I.PaddedColours(g, src);
      if g.sub == I.YOnly {
        StoreGrey(y, src);
      } else {
        StoreColour(y, src);
      }
    }

    method StoreGrey(y: nat, src: seq<byte>)
      requires Shape() && I.IsScanline(g, src) && y < g.McuY() && g.sub == I.YOnly
      modifies lines
      ensures HoldsLine(y, I.PaddedLine(g, src))
      ensures forall j, k :: 0 <= j < g.McuY() && 0 <= k < g.LineBytes() && j != y ==> lines[j, k] == old(lines[j, k])
    {
      hide I.Luma;
      for x := 0 to g.width
        invariant forall k :: 0 <= k < x ==> lines[y, k] == I.PixelAt(g, src, k, 0)
        invariant forall j, k :: 0 <= j < g.McuY() && 0 <= k < g.LineBytes() && j != y ==>
          lines[j, k] == old(lines[j, k])
      {
        if g.bpp == 3 {
          lines[y, x] := I.Luma(src[3 * x], src[3 * x + 1], src[3 * x + 2]);
        } else {
          lines[y, x] := src[x];
        }
      }
      var last := lines[y, g.width - 1];
      for x := g.width to g.XMcu()
        invariant forall k :: 0 <= k < x ==> lines[y, k] == I.PixelAt(g, src, I.Min(k, g.width - 1), 0)
        invariant forall j, k :: 0 <= j < g.McuY() && 0 <= k < g.LineBytes() && j != y ==>
          lines[j, k] == old(lines[j, k])
      {
        lines[y, x] := last;
      }
    }

    /** The first n pixels of line y are those of the padded line. */
    ghost predicate Converted(y: nat, src: seq<byte>, n: nat)
      requires Shape() && I.IsScanline(g, src) && y < g.McuY() && g.sub != I.YOnly && n <= g.XMcu()
      reads cache, lines
    {
      forall k :: 0 <= k < 3 * n ==> lines[y, k] == I.PixelAt(g, src, I.Min(k / 3, g.width - 1), k % 3)
    }

    /** The three components of pixel x, the next one of line y. */
    method SetPixel(y: nat, x: nat, luma: byte, cb: byte, cr: byte, ghost src: seq<byte>)
      requires Shape() && I.IsScanline(g, src) && y < g.McuY() && g.sub != I.YOnly && x < g.XMcu()
      requires Converted(y, src, x) && IsPixel(src, I.Min(x, g.width - 1), luma, cb, cr)
      modifies lines
      ensures Converted(y, src, x + 1)
      ensures forall j, k :: 0 <= j < g.McuY() && 0 <= k < g.LineBytes() && j != y ==> lines[j, k] == old(lines[j, k])
    {
      hide I.PixelAt;
      Thirds(x);
      lines[y, 3 * x], lines[y, 3 * x + 1], lines[y, 3 * x + 2] := luma, cb, cr;
    }

    ghost predicate IsPixel(src: seq<byte>, x: nat, luma: byte, cb: byte, cr: byte)
      requires g.Valid() && I.IsScanline(g, src) && x < g.width
    {
      luma == I.PixelAt(g, src, x, 0) && cb == I.PixelAt(g, src, x, 1) && cr == I.PixelAt(g, src, x, 2)
    }

    method ConvertPixels(y: nat, src: seq<byte>)
      requires Shape() && I.IsScanline(g, src) && y < g.McuY() && g.sub != I.YOnly
      modifies lines
      ensures Converted(y, src, g.width)
      ensures forall j, k :: 0 <= j < g.McuY() && 0 <= k < g.LineBytes() && j != y ==> lines[j, k] == old(lines[j, k])
    {
      hide I.Luma, I.ChromaBlue, I.ChromaRed, Converted;
      NothingConverted(y, src);
      for x := 0 to g.width
        invariant Converted(y, src, x)
        invariant forall j, k :: 0 <= j < g.McuY() && 0 <= k < g.LineBytes() && j != y ==>
          lines[j, k] == old(lines[j, k])
      {
        if g.bpp == 3 {
          var r, gr, b := src[3 * x], src[3 * x + 1], src[3 * x + 2];
          SetPixel(y, x, I.Luma(r, gr, b), I.ChromaBlue(r, gr, b), I.ChromaRed(r, gr, b), src);
        } else {
          SetPixel(y, x, src[x], 128, 128, src);
        }
      }
    }

    lemma NothingConverted(y: nat, src: seq<byte>)
      requires Shape() && I.IsScanline(g, src) && y < g.McuY() && g.sub != I.YOnly
      ensures Converted(y, src, 0)
    {
    }

    method StoreColour(y: nat, src: seq<byte>)
      requires Shape() && I.IsScanline(g, src) && y < g.McuY() && g.sub != I.YOnly
      modifies lines
      ensures HoldsLine(y, I.PaddedLine(g, src))
      ensures forall j, k :: 0 <= j < g.McuY() && 0 <= k < g.LineBytes() && j != y ==> lines[j, k] == old(lines[j, k])
    {
      hide I.PixelAt;
      ConvertPixels(y, src);
      Thirds(g.width - 1);
      var q := 3 * (g.width - 1);
      var luma, cb, cr := lines[y, q], lines[y, q + 1], lines[y, q + 2];
      for x := g.width to g.XMcu()
        invariant Converted(y, src, x)
        invariant forall j, k :: 0 <= j < g.McuY() && 0 <= k < g.LineBytes() && j != y ==>
          lines[j, k] == old(lines[j, k])
      {
        SetPixel(y, x, luma, cb, cr, src);
      }
    }

    lemma BandHeld(my: nat)
      requires I.AreScanlines(g, rows) && rows != [] && g.Top(my) + g.McuY() <= |rows|
      requires lines.Length0 == g.McuY() && HoldsFrom(my, g.McuY())
      ensures Holds(I.Band(g, rows, my))
    {
      var band := I.Band(g, rows, my);
      forall y, k | 0 <= y < g.McuY() && 0 <= k < g.LineBytes()
        ensures lines.Length1 == g.LineBytes() && lines[y, k] == band[y][k]
      {
        assert HoldsRow(rows, my, y);
      }
      assert HoldsRow(rows, my, 0);
    }

    /** Takes one scanline; a row of MCUs that is now complete is coded. */
    method LoadMcu(src: seq<byte>)
      requires Valid() && I.IsScanline(g, src)
      modifies Repr
      ensures Valid() && rows == old(rows) + [src] && writer.header == old(writer.header) && passNum == old(passNum)
    {
      ghost var my, y := Done(), mcuYOfs;
      hide I.ImageUnits, I.BandUnits, I.PaddedLine, I.IsBand, I.Band, B.Coder.Valid, HoldsLine, StepsOf;
      RowsGrow(g, StepsOf(quality), rows, src, my, y);
      StoreRow(src);
      if mcuYOfs == g.McuY() {
        BandHeld(my);
        ProcessMcuRow(I.Band(g, rows, my));
        mcuYOfs := 0;
      }
    }

    /** The scanline joins the line buffers. */
    method StoreRow(src: seq<byte>)
      requires Valid() && I.IsScanline(g, src)
      modifies lines, `rows, `mcuYOfs
      ensures Coding() && rows == old(rows) + [src] && mcuYOfs == old(mcuYOfs) + 1 && I.AreScanlines(g, rows)
      ensures HoldsFrom(old(Done()), mcuYOfs)
    {
      hide I.PaddedLine, I.ImageUnits, B.Coder.Valid, HoldsLine, StepsOf;
      ghost var my, y, was := Done(), mcuYOfs, rows;
      StoreLine(mcuYOfs, src);
      rows := rows + [src];
      mcuYOfs := mcuYOfs + 1;
      forall j | 0 <= j < y + 1
        ensures HoldsRow(rows, my, j)
      {
        assert rows[g.Top(my) + j] == if j < y then was[g.Top(my) + j] else src;
        assert j < y ==> old(HoldsRow(was, my, j));
      }
    }

    /** Fills the unused line buffers with copies of the last scanline. */
    method PadLines()
      requires Valid() && mcuYOfs > 0
      modifies lines
      ensures Coding() && Holds(I.Band(g, rows, Done()))
    {
      hide I.PaddedLine, I.ImageUnits, B.Coder.Valid, StepsOf;
      ghost var my, y, last := Done(), mcuYOfs, I.PaddedLine(g, rows[|rows| - 1]);
      assert HoldsRow(rows, my, y - 1);
      for i := mcuYOfs to g.McuY()
        invariant HoldsFrom(my, y) && mcuYOfs == y
        invariant forall j :: y - 1 <= j < i ==> HoldsLine(j, last)
      {
        label copy:
        CopyLine(mcuYOfs - 1, i);
        forall j | 0 <= j < y
          ensures HoldsRow(rows, my, j)
        {
          assert old@copy(HoldsRow(rows, my, j));
        }
      }
      forall j | 0 <= j < g.McuY()
        ensures HoldsLine(j, I.Band(g, rows, my)[j])
      {
        assert j < y ==> HoldsRow(rows, my, j);
      }
      assert HoldsLine(0, I.Band(g, rows, my)[0]);
    }

    method CopyLine(from: nat, to: nat)
      requires from < lines.Length0 && to < lines.Length0 && from != to
      modifies lines
      ensures forall j, l :: j != to && old(HoldsLine(j, l)) ==> HoldsLine(j, l)
      ensures forall l :: old(HoldsLine(from, l)) ==> HoldsLine(to, l)
    {
      for k := 0 to lines.Length1
        invariant forall j, m :: 0 <= j < lines.Length0 && 0 <= m < lines.Length1 && j != to ==>
          lines[j, m] == old(lines[j, m])
        invariant forall m :: 0 <= m < k ==> lines[to, m] == old(lines[from, m])
      {
        lines[to, k] := lines[from, k];
      }
    }

    /** The blocks of all scanlines taken, the last MCU row completed by repetition. */
    ghost function AllUnits(): seq<E.CodedUnit>
      requires I.AreScanlines(g, rows) && 1 <= quality <= 100
      reads this
    {
      if rows == [] then [] else I.ImageUnits(g, StepsOf(quality), rows, if mcuYOfs == 0 then Done() else Done() + 1)
    }

    /** Codes the last, incomplete row of MCUs. */
    method CodeLastRow()
      requires Valid()
      modifies lines, sampleArray, coder.coefficientArray, writer.Repr, coder.lastDcVal, coder`units
      ensures Coding() && writer.header == old(writer.header) && coder.units == AllUnits()
    {
      hide I.ImageUnits, I.BandUnits, I.PaddedLine, I.IsBand, I.Band, HoldsLine, StepsOf, B.Coder.Valid;
      if mcuYOfs != 0 {
        NextBand(g, StepsOf(quality), rows, Done());
        PadLines();
        ProcessMcuRow(I.Band(g, rows, Done()));
      }
    }

    /** Codes what is left, pads the last byte with ones, and ends the file. */
    method ProcessEndOfImage() returns (ghost data: seq<byte>, ghost pad: bitstring)
      requires Valid()
      modifies Repr
      ensures Shape() && rows == old(rows) && writer.header == old(writer.header) && passNum == old(passNum) + 1
      ensures coder.units == old(AllUnits()) && writer.stream.Valid()
      ensures writer.stream.received == writer.header + (Stuff(data) + [0xFF, F.EOI])
      ensures F.Padding(pad)
      ensures E.Scannable(coder.Tables(), coder.units, E.Zeros(g.Components()))
      ensures DataBits(data) == E.EncodeScan(coder.Tables(), coder.units, E.Zeros(g.Components())) + pad
    {
      hide I.ImageUnits, I.AreScanlines, E.EncodeScan, E.Scannable, E.PredsAfter, Stuff, DataBits, F.Padding, StepsOf,
        T.Standard;
      CodeLastRow();
      data, pad := FinishScan();
      passNum := passNum + 1;
    }

    /** Seven ones, EOI, and everything out of the buffer. */
    method FinishScan() returns (ghost data: seq<byte>, ghost pad: bitstring)
      requires writer.InScan()
      modifies writer.Repr
      ensures writer.header == old(writer.header) && writer.stream.Valid()
      ensures writer.stream.received == writer.header + (Stuff(data) + [0xFF, F.EOI])
      ensures F.Padding(pad) && DataBits(data) == old(writer.Emitted()) + pad
    {
      hide Stuff, DataBits, ToBits, F.Padding;
      ghost var scan := writer.Emitted();
      SevenOnes();
      writer.PutBits(0x7F, 7);
      data := writer.data;
      pad := SplitPadding(DataBits(data), writer.pending, scan);
      writer.EmitMarker(F.EOI);
      writer.FlushOutputBuffer();
      var ok := writer.stream.PutBuf(null, 0);
    }

    /** What process_scanline may be called on: an encoder taking scanlines, or a finished one. */
    ghost predicate Ready()
      reads Repr, cache
    {
      Shape() && (passNum == 2 ==> Valid()) && passNum >= 2
    }

    /** Takes a scanline, or finishes the image when given none. False once finished. */
    method ProcessScanline(scanline: Option<seq<byte>>) returns (ok: bool)
      requires Ready() && (scanline.Some? ==> I.IsScanline(g, scanline.value))
      modifies Repr
      ensures Ready() && ok == (old(passNum) == 2) && writer.header == old(writer.header)
      ensures ok && scanline.Some? ==> passNum == 2 && rows == old(rows) + [scanline.value]
      ensures ok && scanline.None? ==> passNum == 3 && rows == old(rows) && writer.stream.Valid()
      ensures ok && scanline.None? ==> IsFile(writer.header, coder.Tables(), old(AllUnits()), writer.stream.received)
    {
      hide Valid, Shape, IsFile, AllUnits, E.EncodeScan, Stuff, DataBits, F.Padding, T.Standard;
      if passNum < 1 || passNum > 2 {
        return false;
      }
      if scanline.Some? {
        LoadMcu(scanline.value);
      } else {
        ghost var data, pad := ProcessEndOfImage();
        FileFrom(writer.header, coder.Tables(), coder.units, data, pad);
      }
      return true;
    }
  }

  /** The bytes are the header, the stuffed and padded scan of these units, and EOI. */
  ghost predicate IsFile(header: seq<byte>, tables: E.Tables, units: seq<E.CodedUnit>, bytes: seq<byte>) {
    && E.Scannable(tables, units, E.Zeros(|tables|))
    && exists data, pad :: F.Padding(pad) && bytes == header + (Stuff(data) + [0xFF, F.EOI])
         && DataBits(data) == E.EncodeScan(tables, units, E.Zeros(|tables|)) + pad
  }

  lemma FileFrom(header: seq<byte>, tables: E.Tables, units: seq<E.CodedUnit>, data: seq<byte>, pad: bitstring)
    requires F.Padding(pad) && E.Scannable(tables, units, E.Zeros(|tables|))
    requires DataBits(data) == E.EncodeScan(tables, units, E.Zeros(|tables|)) + pad
    ensures IsFile(header, tables, units, header + (Stuff(data) + [0xFF, F.EOI]))
  {
    hide E.Scannable, E.EncodeScan, Stuff, DataBits;
  }

  lemma NextBand(g: I.Geometry, steps: I.StepTables, rows: seq<seq<byte>>, my: nat)
    requires I.AreScanlines(g, rows) && rows != []
    ensures I.ImageUnits(g, steps, rows, my + 1)
         == I.ImageUnits(g, steps, rows, my) + I.BandUnits(g, steps, I.Band(g, rows, my), g.McusPerRow())
  {
  }

  lemma SevenOnes()
    ensures 0x7F < Pow2(7) && ToBits(0x7F, 7) == [true, true, true, true, true, true, true]
  {
    assert Pow2(7) == 128;
    assert ToBits(0x7F, 7) == ToBits(0x3F, 6) + [true];
    assert ToBits(0x3F, 6) == ToBits(0x1F, 5) + [true];
    assert ToBits(0x1F, 5) == ToBits(0x0F, 4) + [true];
    assert ToBits(0x0F, 4) == ToBits(0x07, 3) + [true];
    assert ToBits(0x07, 3) == ToBits(0x03, 2) + [true];
  }

  /** Of seven ones put after the scan, those that complete the last byte pad it. */
  lemma SplitPadding(whole: bitstring, left: bitstring, scan: bitstring) returns (pad: bitstring)
    requires |left| < 8 && whole + left == scan + [true, true, true, true, true, true, true]
    ensures F.Padding(pad) && whole == scan + pad
  {
    var all := scan + [true, true, true, true, true, true, true];
    assert |whole| >= |scan|;
    pad := whole[|scan|..];
    assert whole == all[..|whole|];
    assert whole[..|scan|] == scan;
    forall k | 0 <= k < |pad|
      ensures pad[k]
    {
      assert pad[k] == all[|scan| + k];
    }
  }

  /** What one more scanline changes: nothing in the rows already coded, and it may complete one. */
  lemma RowsGrow(g: I.Geometry, steps: I.StepTables, rows: seq<seq<byte>>, src: seq<byte>, my: nat, y: nat)
    requires I.AreScanlines(g, rows) && I.IsScanline(g, src) && y < g.McuY() && g.Top(my) + y == |rows|
    ensures I.AreScanlines(g, rows + [src])
    ensures I.ImageUnits(g, steps, rows + [src], my) == if rows == [] then [] else I.ImageUnits(g, steps, rows, my)
    ensures I.ImageUnits(g, steps, rows + [src], my + 1)
         == I.ImageUnits(g, steps, rows + [src], my)
            + I.BandUnits(g, steps, I.Band(g, rows + [src], my), g.McusPerRow())
  {
    if rows != [] {
      I.ImageUnitsPrefix(g, steps, rows, [src], my);
    }
  }

  lemma Thirds(x: nat)
    ensures (3 * x) / 3 == (3 * x + 1) / 3 == (3 * x + 2) / 3 == x
    ensures (3 * x) % 3 == 0 && (3 * x + 1) % 3 == 1 && (3 * x + 2) % 3 == 2
  {
  }

  lemma NoBandUnits(g: I.Geometry, steps: I.StepTables, band: seq<I.Line>)
    requires I.IsBand(g, band)
    ensures I.BandUnits(g, steps, band, 0) == []
  {
  }

  lemma NextMcu(g: I.Geometry, steps: I.StepTables, band: seq<I.Line>, i: nat, start: seq<E.CodedUnit>)
    requires I.IsBand(g, band) && i < g.McusPerRow()
    ensures start + I.BandUnits(g, steps, band, i) + I.McuUnits(g, steps, band, i)
         == start + I.BandUnits(g, steps, band, i + 1)
  {
    hide I.McuUnits;
  }

  lemma SmallCast(s: int, q: int)
    requires -1024 <= s <= 1024 && q >= 1
    ensures D.Cast16(Q.Quantise(s, q)) == Q.Quantise(s, q)
  {
    hide Q.Quantise;
    Q.QuantiseError(s, q);
  }

  lemma InBlock(i: nat, j: nat)
    requires i < 8 && j < 8
    ensures (8 * i + j) / 8 == i && (8 * i + j) % 8 == j
  {
  }

  lemma Checkerboard(x: nat, i: nat, j: nat)
    ensures (8 * x + j + i) % 2 == 0 <==> (i % 2 == 0 <==> j % 2 == 0)
  {
    Parity(4 * x + i / 2 + j / 2, i % 2 + j % 2);
  }

  lemma Parity(q: nat, r: nat)
    requires r <= 2
    ensures (2 * q + r) % 2 == 0 <==> r != 1
  {
  }

  function StepsOf(quality: nat): I.StepTables
    requires 1 <= quality <= 100
  {
    I.StepTables(Q.StepTable(Q.LUM, quality), Q.StepTable(Q.CHROMA, quality))
  }
}
