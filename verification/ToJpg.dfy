/** jpeg_encoder::init and convert_image: from scanlines to a finished file in a memory buffer.

    The end-to-end theorem is the contract of ConvertImage: what the sink received decodes to the
    quantised coefficients of the edge-extended picture. */
module ToJpg {
  import opened Bits
  import opened BitWriter
  import opened Wrappers
  import C = TableCache
  import D = Encoder
  import E = EntropyCoding
  import F = JpegFormat
  import HW = HeaderWriter
  import I = Image
  import L = LineFormat
  import R = JpegRoundTrip
  import S = ByteStuffing
  import T = StandardTables
  import Y = Fidelity

  function GeometryOf(width: int, height: int, channels: int, sub: I.Subsampling): I.Geometry
    requires width >= 1 && height >= 1 && channels >= 1
  {
    I.Geometry(width, height, channels, sub)
  }

  /** Checks the parameters, brings the static tables up to date and emits the header. Null stands
      for the false the source returns on bad parameters. */
  method Init(sink: MemoryStream, width: int, height: int, channels: int, quality: int, sub: I.Subsampling,
              cache: C.Cache)
    returns (enc: D.JpegEncoder?)
    requires sink.Valid() && sink.received == [] && cache.Valid()
    modifies cache, sink, sink.outBuf
    ensures enc != null <==>
      width >= 1 && height >= 1 && (channels == 1 || channels == 3 || channels == 4) && 1 <= quality <= 100
    ensures enc != null ==>
      && enc.g == GeometryOf(width, height, channels, sub) && enc.quality == quality
      && enc.Ready() && enc.passNum == 2 && enc.rows == [] && enc.writer.stream == sink && enc.cache == cache
      && enc.writer.header == F.HeaderBytes(enc.g, D.StepsOf(quality))
      && fresh(enc.Repr - {sink, sink.outBuf})
  {
    if width < 1 || height < 1 || (channels != 1 && channels != 3 && channels != 4) || quality < 1 || quality > 100 {
      return null;
    }
    hide F.HeaderBytes, D.StepsOf, D.JpegEncoder.Ready;
    enc := JpgOpen(sink, GeometryOf(width, height, channels, sub), quality, cache);
  }

  method JpgOpen(sink: MemoryStream, g: I.Geometry, quality: nat, cache: C.Cache) returns (enc: D.JpegEncoder)
    requires sink.Valid() && sink.received == [] && cache.Valid() && g.Valid() && 1 <= quality <= 100
    modifies cache, sink, sink.outBuf
    ensures enc.g == g && enc.quality == quality && enc.writer.stream == sink && enc.cache == cache
    ensures enc.Ready() && enc.passNum == 2 && enc.rows == []
    ensures enc.writer.header == F.HeaderBytes(g, D.StepsOf(quality))
    ensures fresh(enc.Repr - {sink, sink.outBuf})
  {
    hide F.HeaderBytes, D.StepsOf, D.JpegEncoder.Valid, BitWriter.Valid, BitWriter.InScan, BitWriter.Emitted,
      MemoryStream.Valid, I.Geometry.Valid, C.Cache.Valid;
    cache.Load(quality);
    var writer := new BitWriter(sink);
    StepsCached(cache, quality);
    HW.EmitHeader(writer, cache, g, D.StepsOf(quality));
    writer.BeginScan();
    enc := new D.JpegEncoder.Create(writer, cache, g, quality);
    assert enc.Shape() by {
      enc.ValidShape();
    }
  }

  lemma StepsCached(cache: C.Cache, quality: nat)
    requires cache.Valid() && 1 <= quality <= 100 && cache.lastQuality == quality
    ensures cache.quant == [D.StepsOf(quality).lum, D.StepsOf(quality).chroma]
  {
  }

  function Channels(grey: bool): nat { if grey then 1 else 3 }

  /** Grey pictures have one component, the others are subsampled 2 x 2. */
  function PictureGeometry(width: nat, height: nat, grey: bool): I.Geometry {
    I.Geometry(width, height, Channels(grey), if grey then I.YOnly else I.H2V2)
  }

  function ClampQuality(quality: nat): (q: nat)
    ensures 1 <= q <= 100
  {
    if quality == 0 then 1 else if quality > 100 then 100 else quality
  }

  /** The frame holds all its lines. */
  predicate IsFrame(src: seq<byte>, format: L.Format, width: nat, height: nat) {
    L.WholePairs(format, width) && L.LineLen(format, width) * height <= |src|
  }

  /** The scanline loop of convert_image: each line of the frame is converted and passed on. */
  method ProcessScanlines(enc: D.JpegEncoder, line: array<byte>, src: seq<byte>, format: L.Format, toRgb: L.ToRgb)
    returns (ok: bool)
    requires enc.Ready() && enc.passNum == 2 && enc.rows == [] && 1 <= enc.quality <= 100
    requires enc.g == PictureGeometry(enc.g.width, enc.g.height, format.Grayscale?) && enc.g.Valid()
    requires IsFrame(src, format, enc.g.width, enc.g.height)
    requires line !in enc.Repr && line.Length == enc.g.width * L.Channels(format)
    modifies enc.Repr, line
    ensures ok && enc.writer.stream.Valid()
    ensures var lines := L.Scanlines(src, format, toRgb, enc.g.width, enc.g.height);
      && I.AreScanlines(enc.g, lines) && lines != []
      && D.IsFile(old(enc.writer.header), T.Standard(enc.g.Components()),
                  R.PictureUnits(enc.g, D.StepsOf(enc.quality), lines), enc.writer.stream.received)
  {
    hide D.JpegEncoder.Ready, D.IsFile, D.JpegEncoder.AllUnits, D.StepsOf, I.ImageUnits, T.Standard, L.Converted;
    ghost var lines := L.Scanlines(src, format, toRgb, enc.g.width, enc.g.height);
    ConvertedFit(enc.g, lines, format);
    for i := 0 to enc.g.height
      invariant enc.Ready() && enc.passNum == 2 && enc.rows == lines[..i]
      invariant enc.writer.header == old(enc.writer.header)
    {
      L.ConvertLine(src, format, toRgb, line, enc.g.width, i);
      ok := enc.ProcessScanline(Some(line[..]));
      if !ok {
        return false;
      }
      assert lines[..i + 1] == lines[..i] + [lines[i]];
    }
    assert lines[..|lines|] == lines;
    enc.WholePicture();
    ok := enc.ProcessScanline(None);
  }

  lemma ConvertedFit(g: I.Geometry, lines: seq<seq<byte>>, format: L.Format)
    requires g == PictureGeometry(g.width, g.height, format.Grayscale?) && g.Valid()
    requires |lines| == g.height && forall y :: 0 <= y < |lines| ==> |lines[y]| == g.width * L.Channels(format)
    ensures I.AreScanlines(g, lines) && lines != []
  {
  }

  /** convert_image, for a frame in memory; lineFits says whether the memory for a scanline could be
      allocated. The file the sink received decodes, by the T.81 procedures and from its own header, to
      the quantised transform of every block of the converted picture extended by edge replication; if
      it fits the sink's buffer, so does what is there. */
  method ConvertImage(src: seq<byte>, width: nat, height: nat, format: L.Format, toRgb: L.ToRgb, quality: nat,
                      lineFits: bool,
                      sink: MemoryStream, cache: C.Cache)
    returns (ok: bool)
    requires width <= 65535 && height <= 65535 && IsFrame(src, format, width, height)
    requires sink.Valid() && sink.received == [] && cache.Valid()
    modifies cache, sink, sink.outBuf
    ensures ok == (width >= 1 && height >= 1 && lineFits)
    ensures ok ==> Encodes(PictureGeometry(width, height, format.Grayscale?), ClampQuality(quality),
                           L.Scanlines(src, format, toRgb, width, height), sink.received)
    ensures ok ==> sink.Valid()
    ensures ok && |sink.received| <= sink.maxLen ==> sink.outBuf[..sink.index] == sink.received
  {
    hide Encodes, D.JpegEncoder.Ready, F.HeaderBytes, D.StepsOf, D.IsFile, I.ImageUnits, T.Standard, L.Scanlines;
    var grey := format.Grayscale?;
    var sub := if grey then I.YOnly else I.H2V2;
    var enc := Init(sink, width, height, Channels(grey), ClampQuality(quality), sub, cache);
    if enc == null || !lineFits {
      return false;
    }
    var line := new byte[width * Channels(grey)];
    ok := ProcessScanlines(enc, line, src, format, toRgb);
    FileDecodes(enc.g, enc.quality, L.Scanlines(src, format, toRgb, width, height), sink.received);
  }

  /** The bytes decode to the coefficients of these scanlines, and so to a picture that shows them. */
  ghost predicate Encodes(g: I.Geometry, quality: nat, rows: seq<seq<byte>>, bytes: seq<byte>) {
    && 1 <= quality <= 100 && I.AreScanlines(g, rows) && rows != []
    && F.DecodeFile(bytes)
       == Some(F.Picture(R.Expected(g, D.StepsOf(quality)), R.PictureUnits(g, D.StepsOf(quality), rows)))
    && Y.Shows(g, rows, F.Picture(R.Expected(g, D.StepsOf(quality)), R.PictureUnits(g, D.StepsOf(quality), rows)))
  }

  lemma FileDecodes(g: I.Geometry, quality: nat, rows: seq<seq<byte>>, bytes: seq<byte>)
    requires g.width <= 65535 && g.height <= 65535 && 1 <= quality <= 100 && I.AreScanlines(g, rows) && rows != []
    requires D.IsFile(F.HeaderBytes(g, D.StepsOf(quality)), T.Standard(g.Components()),
                      R.PictureUnits(g, D.StepsOf(quality), rows), bytes)
    ensures Encodes(g, quality, rows, bytes)
  {
    hide F.HeaderBytes, D.StepsOf, R.PictureUnits, R.Expected, F.DecodeFile, E.Scannable, E.EncodeScan, I.AreScanlines,
      Y.Shows;
    var steps := D.StepsOf(quality);
    var units := R.PictureUnits(g, steps, rows);
    var n := g.Components();
    var data, pad :| F.Padding(pad) && bytes == F.HeaderBytes(g, steps) + (S.Stuff(data) + [0xFF, F.EOI])
      && S.DataBits(data) == E.EncodeScan(T.Standard(n), units, E.Zeros(n)) + pad;
    R.FileRoundTrip(g, steps, rows, data, pad);
    Y.PictureShows(g, steps, rows);
  }
}
