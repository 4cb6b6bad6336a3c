/** Decoding a finished file: the header segments are read back, the component order matches, and
    the scan gives every block. */
module JpegRoundTrip {
  import opened Bits
  import opened Wrappers
  import opened ByteStuffing
  import opened JpegFormat
  import BW = BitWriter
  import H = Huffman
  import E = EntropyCoding
  import T = StandardTables
  import I = Image
  import Q = Quantisation

  // ----- single segments

  lemma ParseSegment(h: Header, marker: byte, p: seq<byte>, rest: seq<byte>)
    requires |p| <= 65533 && Apply(h, marker, p).Some?
    ensures Parse(h, Segment(marker, p) + rest)
         == if marker == SOS then Some((Apply(h, marker, p).value, rest)) else Parse(Apply(h, marker, p).value, rest)
  {
    hide Apply;
    var bytes := Segment(marker, p) + rest;
    WordRead(|p| + 2);
    assert bytes[4..|p| + 4] == p && bytes[|p| + 4..] == rest;
  }

  lemma WordRead(w: nat)
    requires w < 65536
    ensures Word(BW.WordBytes(w)[0], BW.WordBytes(w)[1]) == w
  {
  }

  function StepBytes(steps: Q.Steps): (r: seq<byte>)
    ensures |r| == 64 && forall k :: 0 <= k < 64 ==> r[k] == steps[k]
  {
    seq(64, k requires 0 <= k < 64 => steps[k] as byte)
  }

  lemma ApplyDqt(h: Header, id: byte, steps: Q.Steps)
    requires id <= 3
    ensures Apply(h, DQT, DqtPayload(id, steps)) == Some(h.(quant := h.quant[id as nat := StepBytes(steps)]))
  {
    assert DqtPayload(id, steps)[1..] == StepBytes(steps);
  }

  lemma DhtFields(id: byte, t: H.Table)
    requires Carriable(t)
    ensures var p := DhtPayload(id, t);
      17 <= |p| <= 273 && p[0] == id && H.Table([0] + p[1..17], p[17..]) == t
  {
    hide H.Start;
    var p := DhtPayload(id, t);
    assert [0] + p[1..17] == t.counts && p[17..] == t.vals;
  }

  lemma ApplyDht(h: Header, id: byte, t: H.Table)
    requires Carriable(t) && id < 32
    ensures id < 16 ==> Apply(h, DHT, DhtPayload(id, t)) == Some(h.(dc := h.dc[id as nat := t]))
    ensures id >= 16 ==> Apply(h, DHT, DhtPayload(id, t)) == Some(h.(ac := h.ac[(id - 16) as nat := t]))
  {
    hide H.WellFormed, DhtPayload;
    DhtFields(id, t);
  }

  function Frame(g: I.Geometry): seq<FrameComponent> {
    [FrameComponent(1, g.H(0), g.V(0), 0)] +
    (if g.Components() == 1 then [] else [FrameComponent(2, 1, 1, 1), FrameComponent(3, 1, 1, 1)])
  }

  lemma FrameStep(p: seq<byte>, rest: seq<byte>)
    requires |p| == 3 && |rest| % 3 == 0
    ensures FrameComponents(p + rest) == [FrameComponent(p[0], p[1] / 16, p[1] % 16, p[2])] + FrameComponents(rest)
  {
    assert (p + rest)[3..] == rest;
  }

  lemma FrameRead(g: I.Geometry)
    ensures |SofPayload(g)| == 6 + 3 * g.Components()
    ensures FrameComponents(SofPayload(g)[6..]) == Frame(g)
  {
    var p := SofPayload(g);
    assert FrameComponents([]) == [];
    if g.Components() == 1 {
      assert p[6..] == SofComponent(g, 0) + [];
      FrameStep(SofComponent(g, 0), []);
    } else {
      assert p[6..] == SofComponent(g, 0) + (SofComponent(g, 1) + SofComponent(g, 2));
      FrameStep(SofComponent(g, 0), SofComponent(g, 1) + SofComponent(g, 2));
      FrameStep(SofComponent(g, 1), SofComponent(g, 2));
      assert SofComponent(g, 2) == SofComponent(g, 2) + [];
      FrameStep(SofComponent(g, 2), []);
    }
  }

  lemma ApplySof(h: Header, g: I.Geometry)
    requires g.width <= 65535 && g.height <= 65535
    ensures Apply(h, SOF0, SofPayload(g)) == Some(h.(height := g.height, width := g.width, frame := Frame(g)))
  {
    hide FrameComponents, Frame;
    FrameRead(g);
    WordRead(g.height);
    WordRead(g.width);
  }

  function Scan(n: nat): seq<ScanComponent>
    requires n == 1 || n == 3
  {
    [ScanComponent(1, 0, 0)] + (if n == 1 then [] else [ScanComponent(2, 1, 1), ScanComponent(3, 1, 1)])
  }

  lemma ApplySos(h: Header, n: nat)
    requires n == 1 || n == 3
    ensures Apply(h, SOS, SosPayload(n)) == Some(h.(scan := Scan(n)))
  {
    var p := SosPayload(n);
    assert ScanComponents([]) == [];
    assert p[|p| - 3..] == [0, 63, 0];
    if n == 1 {
      assert p[1..|p| - 3] == [1, 0x00] + [];
      ScanStep(1, 0x00, []);
    } else {
      assert p[1..|p| - 3] == [1, 0x00] + ([2, 0x11] + ([3, 0x11] + []));
      ScanStep(1, 0x00, [2, 0x11] + ([3, 0x11] + []));
      ScanStep(2, 0x11, [3, 0x11] + []);
      ScanStep(3, 0x11, []);
    }
    assert ScanComponents(p[1..|p| - 3]) == Scan(n);
  }

  lemma ScanStep(id: byte, t: byte, rest: seq<byte>)
    requires |rest| % 2 == 0
    ensures ScanComponents([id, t] + rest) == [ScanComponent(id, t / 16, t % 16)] + ScanComponents(rest)
  {
    assert ([id, t] + rest)[2..] == rest;
  }

  // ----- the whole header

  function WithSteps(h: Header, n: nat, steps: I.StepTables): Header {
    var h := h.(quant := h.quant[0 := StepBytes(steps.lum)]);
    if n == 1 then h else h.(quant := h.quant[1 := StepBytes(steps.chroma)])
  }

  function WithTables(h: Header, n: nat): Header {
    var h := h.(dc := h.dc[0 := T.Lum().dc]);
    var h := h.(ac := h.ac[0 := T.Lum().ac]);
    if n == 1 then h
    else
      var h := h.(dc := h.dc[1 := T.Chroma().dc]);
      h.(ac := h.ac[1 := T.Chroma().ac])
  }

  /** What the decoder knows when it reaches the scan. */
  function Expected(g: I.Geometry, steps: I.StepTables): Header {
    var n := g.Components();
    var h := WithSteps(EMPTY, n, steps);
    WithTables(h.(height := g.height, width := g.width, frame := Frame(g)), n).(scan := Scan(n))
  }

  lemma ParseSteps(h: Header, n: nat, steps: I.StepTables, rest: seq<byte>)
    requires n == 1 || n == 3
    ensures Parse(h, Steps(n, steps) + rest) == Parse(WithSteps(h, n, steps), rest)
  {
    hide Parse, Apply, Segment, DqtPayload;
    var a := Segment(DQT, DqtPayload(0, steps.lum));
    ApplyDqt(h, 0, steps.lum);
    DqtLength(0, steps.lum);
    if n == 1 {
      assert Steps(n, steps) + rest == a + rest;
      ParseSegment(h, DQT, DqtPayload(0, steps.lum), rest);
    } else {
      var b := Segment(DQT, DqtPayload(1, steps.chroma));
      var h1 := h.(quant := h.quant[0 := StepBytes(steps.lum)]);
      DqtLength(1, steps.chroma);
      assert Steps(n, steps) + rest == a + (b + rest);
      ParseSegment(h, DQT, DqtPayload(0, steps.lum), b + rest);
      ApplyDqt(h1, 1, steps.chroma);
      ParseSegment(h1, DQT, DqtPayload(1, steps.chroma), rest);
    }
  }

  lemma DqtLength(id: byte, steps: Q.Steps)
    ensures |DqtPayload(id, steps)| == 65
  {
  }

  /** One DHT segment. */
  lemma ParseDht(h: Header, id: byte, t: H.Table, rest: seq<byte>)
    requires Carriable(t) && id < 32
    ensures Parse(h, Segment(DHT, DhtPayload(id, t)) + rest)
         == Parse(if id < 16 then h.(dc := h.dc[id as nat := t]) else h.(ac := h.ac[(id - 16) as nat := t]), rest)
  {
    hide Parse, Apply, Segment, DhtPayload, H.WellFormed;
    ApplyDht(h, id, t);
    DhtFields(id, t);
    ParseSegment(h, DHT, DhtPayload(id, t), rest);
  }

  lemma ParseTables(h: Header, n: nat, rest: seq<byte>)
    requires n == 1 || n == 3
    ensures Parse(h, Tables(n) + rest) == Parse(WithTables(h, n), rest)
  {
    hide Parse, Segment, DhtPayload, T.Lum, T.Chroma, Carriable;
    StandardCarriable();
    var a, b := Segment(DHT, DhtPayload(0x00, T.Lum().dc)), Segment(DHT, DhtPayload(0x10, T.Lum().ac));
    var h1 := h.(dc := h.dc[0 := T.Lum().dc]);
    var h2 := h1.(ac := h1.ac[0 := T.Lum().ac]);
    if n == 1 {
      assert Tables(n) + rest == a + (b + rest);
      ParseDht(h, 0x00, T.Lum().dc, b + rest);
      ParseDht(h1, 0x10, T.Lum().ac, rest);
    } else {
      var c, d := Segment(DHT, DhtPayload(0x01, T.Chroma().dc)), Segment(DHT, DhtPayload(0x11, T.Chroma().ac));
      assert Tables(n) + rest == a + (b + (c + (d + rest)));
      ParseDht(h, 0x00, T.Lum().dc, b + (c + (d + rest)));
      ParseDht(h1, 0x10, T.Lum().ac, c + (d + rest));
      ParseDht(h2, 0x01, T.Chroma().dc, d + rest);
      ParseDht(h2.(dc := h2.dc[1 := T.Chroma().dc]), 0x11, T.Chroma().ac, rest);
    }
  }

  /** The decoder reads the header back, whatever follows it. */
  lemma HeaderRoundTrip(g: I.Geometry, steps: I.StepTables, rest: seq<byte>)
    requires g.width <= 65535 && g.height <= 65535
    ensures var bytes := HeaderBytes(g, steps) + rest;
      |bytes| >= 2 && bytes[..2] == [0xFF, SOI] && Parse(EMPTY, bytes[2..]) == Some((Expected(g, steps), rest))
  {
    hide Parse, Apply, Segment, JfifPayload, SofPayload, SosPayload, Steps, Tables, WithSteps, WithTables;
    var n := g.Components();
    var app, sof, sos := Segment(APP0, JfifPayload()), Segment(SOF0, SofPayload(g)), Segment(SOS, SosPayload(n));
    var qs, ts := Steps(n, steps), Tables(n);
    var bytes := HeaderBytes(g, steps) + rest;
    assert bytes == [0xFF, SOI] + (app + (qs + (sof + (ts + (sos + rest)))));
    assert bytes[..2] == [0xFF, SOI] && bytes[2..] == app + (qs + (sof + (ts + (sos + rest))));
    ApplyApp0(EMPTY);
    ParseSegment(EMPTY, APP0, JfifPayload(), qs + (sof + (ts + (sos + rest))));
    ParseSteps(EMPTY, n, steps, sof + (ts + (sos + rest)));
    var h1 := WithSteps(EMPTY, n, steps);
    ApplySof(h1, g);
    PayloadLengths(g);
    ParseSegment(h1, SOF0, SofPayload(g), ts + (sos + rest));
    var h2 := h1.(height := g.height, width := g.width, frame := Frame(g));
    ParseTables(h2, n, sos + rest);
    ApplySos(WithTables(h2, n), n);
    ParseSegment(WithTables(h2, n), SOS, SosPayload(n), rest);
  }

  lemma ApplyApp0(h: Header)
    ensures Apply(h, APP0, JfifPayload()) == Some(h) && |JfifPayload()| == 14
  {
  }

  lemma PayloadLengths(g: I.Geometry)
    ensures |SofPayload(g)| <= 15 && |SosPayload(g.Components())| <= 10
  {
  }

  // ----- component order

  /** Components of the blocks of one MCU. */
  function McuOrder(g: I.Geometry): seq<nat> {
    seq(g.H(0) * g.V(0), _ => 0) + (if g.Components() == 1 then [] else [1, 2])
  }

  lemma McuComponentsRead(g: I.Geometry)
    ensures McuComponents(Frame(g)) == McuOrder(g)
  {
    var f := Frame(g);
    assert McuComponents([]) == [];
    assert f[..1] == [f[0]] && [f[0]][..0] == [];
    assert McuComponents(f[..1]) == seq(g.H(0) * g.V(0), _ => 0);
    if g.Components() == 3 {
      assert f[..3][..2] == f[..2] && f[..2][..1] == f[..1] && f[..3] == f;
      assert McuComponents(f[..2]) == McuComponents(f[..1]) + [1];
      assert McuComponents(f) == McuComponents(f[..2]) + [2];
    } else {
      assert f[..1] == f;
    }
  }

  lemma McuUnitsOrder(g: I.Geometry, steps: I.StepTables, band: seq<I.Line>, mx: nat)
    requires I.IsBand(g, band) && mx < g.McusPerRow()
    ensures E.ComponentsOf(I.McuUnits(g, steps, band, mx)) == McuOrder(g)
  {
    hide I.UnitAt, I.IsBand;
    forall c: nat, bc: nat, br: nat | c < g.Components() && bc < g.BlocksWide(c) && br < g.V(c)
      ensures I.UnitAt(g, steps, band, c, bc, br).component == c
    {
      UnitComponent(g, steps, band, c, bc, br);
    }
  }

  lemma UnitComponent(g: I.Geometry, steps: I.StepTables, band: seq<I.Line>, c: nat, bc: nat, br: nat)
    requires I.IsBand(g, band) && c < g.Components() && bc < g.BlocksWide(c) && br < g.V(c)
    ensures I.UnitAt(g, steps, band, c, bc, br).component == c
  {
  }

  lemma {:induction false} BandUnitsOrder(g: I.Geometry, steps: I.StepTables, band: seq<I.Line>, n: nat)
    requires I.IsBand(g, band) && n <= g.McusPerRow()
    ensures E.ComponentsOf(I.BandUnits(g, steps, band, n)) == Repeat(McuOrder(g), n)
  {
    hide I.McuUnits, McuOrder, I.IsBand;
    if n > 0 {
      BandUnitsOrder(g, steps, band, n - 1);
      McuUnitsOrder(g, steps, band, n - 1);
      ComponentsConcat(I.BandUnits(g, steps, band, n - 1), I.McuUnits(g, steps, band, n - 1));
    }
  }

  lemma ComponentsConcat(a: seq<E.CodedUnit>, b: seq<E.CodedUnit>)
    ensures E.ComponentsOf(a + b) == E.ComponentsOf(a) + E.ComponentsOf(b)
  {
  }

  lemma {:induction false} RepeatConcat(xs: seq<nat>, m: nat, n: nat)
    ensures Repeat(xs, m + n) == Repeat(xs, m) + Repeat(xs, n)
  {
    if n > 0 {
      RepeatConcat(xs, m, n - 1);
    } else {
      assert Repeat(xs, m) + [] == Repeat(xs, m);
    }
  }

  lemma {:induction false} ImageUnitsOrder(g: I.Geometry, steps: I.StepTables, rows: seq<seq<byte>>, n: nat)
    requires I.AreScanlines(g, rows) && rows != []
    ensures E.ComponentsOf(I.ImageUnits(g, steps, rows, n)) == Repeat(McuOrder(g), Times(g.McusPerRow(), n))
  {
    hide I.BandUnits, McuOrder, I.IsBand, I.Band, Repeat, I.AreScanlines, Times;
    if n == 0 {
      NoMultiple(g.McusPerRow());
      RepeatNone(McuOrder(g));
    } else {
      var m := g.McusPerRow();
      var band := I.Band(g, rows, n - 1);
      ImageUnitsOrder(g, steps, rows, n - 1);
      BandUnitsOrder(g, steps, band, m);
      ComponentsConcat(I.ImageUnits(g, steps, rows, n - 1), I.BandUnits(g, steps, band, m));
      RepeatConcat(McuOrder(g), Times(m, n - 1), m);
      NextMultiple(m, n);
    }
  }

  lemma RepeatNone(xs: seq<nat>)
    ensures Repeat(xs, 0) == []
  {
  }

  lemma NextMultiple(m: nat, n: nat)
    requires n >= 1
    ensures Times(m, n) == Times(m, n - 1) + m
  {
  }

  lemma NoMultiple(m: nat)
    ensures Times(m, 0) == 0
  {
  }

  lemma McuCountRead(g: I.Geometry, steps: I.StepTables)
    requires g.Valid()
    ensures McuCount(Expected(g, steps)) == Times(g.McusPerRow(), g.McuRows())
  {
    hide Expected, Frame, MaxH, MaxV;
    ExpectedFrame(g, steps);
    MaxRead(g);
    assert CeilDiv(g.width, 8 * g.H(0)) == g.McusPerRow();
    assert CeilDiv(g.height, 8 * g.V(0)) == g.McuRows();
  }

  lemma MaxRead(g: I.Geometry)
    ensures I.Max(1, MaxH(Frame(g))) == g.H(0) && I.Max(1, MaxV(Frame(g))) == g.V(0)
  {
    var f := Frame(g);
    assert MaxH([]) == 1 && MaxV([]) == 1;
    if g.Components() == 3 {
      assert f[1..][1..] == [f[2]] && [f[2]][1..] == [];
      assert MaxH([f[2]]) == 1 && MaxV([f[2]]) == 1;
      assert MaxH(f[1..]) == 1 && MaxV(f[1..]) == 1;
    } else {
      assert f[1..] == [];
    }
  }

  lemma ScanTablesRead(g: I.Geometry, steps: I.StepTables)
    ensures ScanTables(Expected(g, steps), Expected(g, steps).scan) == Some(T.Standard(g.Components()))
  {
    hide WithSteps, T.Lum, T.Chroma;
    var h := Expected(g, steps);
    var s := h.scan;
    assert 0 in h.dc && h.dc[0] == T.Lum().dc && 0 in h.ac && h.ac[0] == T.Lum().ac;
    assert ScanTables(h, []) == Some([]);
    assert E.CodeTables(T.Lum().dc, T.Lum().ac) == T.Lum() && E.CodeTables(T.Chroma().dc, T.Chroma().ac) == T.Chroma();
    ScanTableStep(h, 1, 0, []);
    if g.Components() == 1 {
      assert s == [ScanComponent(1, 0, 0)] + [];
      assert ScanTables(h, s) == Some([T.Lum()] + []);
      assert [T.Lum()] + [] == T.Standard(1);
    } else {
      assert 1 in h.dc && h.dc[1] == T.Chroma().dc && 1 in h.ac && h.ac[1] == T.Chroma().ac;
      var c, d := [ScanComponent(2, 1, 1)], [ScanComponent(3, 1, 1)];
      ScanTableStep(h, 3, 1, []);
      ScanTableStep(h, 2, 1, d + []);
      ScanTableStep(h, 1, 0, c + (d + []));
      assert s == [ScanComponent(1, 0, 0)] + (c + (d + []));
      assert ScanTables(h, s) == Some([T.Lum()] + ([T.Chroma()] + ([T.Chroma()] + [])));
      assert [T.Lum()] + ([T.Chroma()] + ([T.Chroma()] + [])) == T.Standard(3);
    }
  }

  lemma ScanTableStep(h: Header, id: nat, k: nat, rest: seq<ScanComponent>)
    requires k in h.dc && k in h.ac && ScanTables(h, rest).Some?
    ensures ScanTables(h, [ScanComponent(id, k, k)] + rest)
         == Some([E.CodeTables(h.dc[k], h.ac[k])] + ScanTables(h, rest).value)
  {
    assert ([ScanComponent(id, k, k)] + rest)[1..] == rest;
  }

  // ----- the whole file

  /** The quantised coefficients of a picture, MCU row by MCU row. */
  function PictureUnits(g: I.Geometry, steps: I.StepTables, rows: seq<seq<byte>>): seq<E.CodedUnit>
    requires I.AreScanlines(g, rows) && rows != []
  {
    I.ImageUnits(g, steps, rows, g.McuRows())
  }

  /** A file made of the header, the stuffed scan and EOI decodes to exactly the coefficients that
      were coded. */
  lemma FileRoundTrip(g: I.Geometry, steps: I.StepTables, rows: seq<seq<byte>>, data: seq<byte>, pad: bitstring)
    requires g.width <= 65535 && g.height <= 65535 && I.AreScanlines(g, rows) && rows != []
    requires E.Scannable(T.Standard(g.Components()), PictureUnits(g, steps, rows), E.Zeros(g.Components()))
    requires Padding(pad)
    requires DataBits(data)
          == E.EncodeScan(T.Standard(g.Components()), PictureUnits(g, steps, rows), E.Zeros(g.Components())) + pad
    ensures DecodeFile(HeaderBytes(g, steps) + (Stuff(data) + [0xFF, EOI]))
         == Some(Picture(Expected(g, steps), PictureUnits(g, steps, rows)))
  {
    hide Parse, HeaderBytes, Expected, DecodeScanData, Stuff, DataBits, E.EncodeScan, E.Scannable, PictureUnits,
      I.AreScanlines;
    HeaderRoundTrip(g, steps, Stuff(data) + [0xFF, EOI]);
    ScanDataRoundTrip(g, steps, rows, data, pad);
  }

  lemma ScanDataRoundTrip(g: I.Geometry, steps: I.StepTables, rows: seq<seq<byte>>, data: seq<byte>, pad: bitstring)
    requires I.AreScanlines(g, rows) && rows != []
    requires E.Scannable(T.Standard(g.Components()), PictureUnits(g, steps, rows), E.Zeros(g.Components()))
    requires Padding(pad)
    requires DataBits(data)
          == E.EncodeScan(T.Standard(g.Components()), PictureUnits(g, steps, rows), E.Zeros(g.Components())) + pad
    ensures DecodeScanData(Expected(g, steps), Stuff(data) + [0xFF, EOI])
         == Some(Picture(Expected(g, steps), PictureUnits(g, steps, rows)))
  {
    hide Stuff, DataBits, Destuff, E.EncodeScan, E.DecodeScan, ScanTables, I.ImageUnits, Repeat, McuOrder, T.Standard,
      E.Ready, E.Usable, WithSteps, WithTables, SameIds;
    var n, h, units := g.Components(), Expected(g, steps), PictureUnits(g, steps, rows);
    ScanTablesRead(g, steps);
    E.ReadyUsable(T.Standard(n));
    DestuffStuff(data, EOI, []);
    assert [0xFF, EOI] + [] == [0xFF, EOI];
    ImageUnitsOrder(g, steps, rows, g.McuRows());
    McuCountRead(g, steps);
    McuComponentsRead(g);
    IdsRead(g, steps);
    E.ScanRoundTrip(T.Standard(n), units, E.Zeros(n), pad);
    ExpectedFrame(g, steps);
  }

  lemma IdsRead(g: I.Geometry, steps: I.StepTables)
    ensures SameIds(Expected(g, steps))
  {
    hide T.Lum, T.Chroma;
  }

  lemma ExpectedFrame(g: I.Geometry, steps: I.StepTables)
    ensures Expected(g, steps).frame == Frame(g) && |Frame(g)| == g.Components()
    ensures Expected(g, steps).width == g.width && Expected(g, steps).height == g.height
  {
    hide T.Lum, T.Chroma;
  }
}
