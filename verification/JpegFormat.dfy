/** The JPEG interchange format as far as the encoder uses it (T.81, Annex B): what the header
    segments look like, and a decoder that reads them back and then decodes the scan.

    The decoder takes everything it needs, sampling factors, quantisation and Huffman tables, from
    the bytes. */
module JpegFormat {
  import opened Bits
  import opened Wrappers
  import opened ByteStuffing
  import BW = BitWriter
  import H = Huffman
  import E = EntropyCoding
  import T = StandardTables
  import I = Image

  const SOF0: byte := 0xC0
  const DHT: byte := 0xC4
  const SOI: byte := 0xD8
  const EOI: byte := 0xD9
  const SOS: byte := 0xDA
  const DQT: byte := 0xDB
  const APP0: byte := 0xE0

  // ----- what the encoder writes

  function Segment(marker: byte, payload: seq<byte>): seq<byte> {
    [0xFF, marker] + BW.WordBytes(|payload| + 2) + payload
  }

  function JfifPayload(): seq<byte> {
    [0x4A, 0x46, 0x49, 0x46, 0, 1, 1, 0, 0, 1, 0, 1, 0, 0]
  }

  function SofComponent(g: I.Geometry, c: nat): seq<byte>
    requires c < 3
  {
    [c + 1, 16 * g.H(c) + g.V(c), if c > 0 then 1 else 0]
  }

  function SofPayload(g: I.Geometry): seq<byte> {
    [8] + BW.WordBytes(g.height) + BW.WordBytes(g.width) + [g.Components()] + SofComponent(g, 0)
    + (if g.Components() == 1 then [] else SofComponent(g, 1) + SofComponent(g, 2))
  }

  function SosPayload(n: nat): seq<byte>
    requires n == 1 || n == 3
  {
    [n] + (if n == 1 then [1, 0x00] else [1, 0x00, 2, 0x11, 3, 0x11]) + [0, 63, 0]
  }

  /** A table a DHT segment can carry: every count fits a byte. */
  ghost predicate Carriable(t: H.Table) {
    H.WellFormed(t) && t.counts[0] == 0 && forall l :: 0 <= l < 17 ==> t.counts[l] < 256
  }

  /** A table as a DHT segment carries it: class and destination, counts, symbols. */
  function DhtPayload(id: byte, t: H.Table): seq<byte>
    requires Carriable(t)
  {
    [id] + seq(16, l requires 0 <= l < 16 => t.counts[l + 1] as byte) + t.vals
  }

  function DqtPayload(id: byte, steps: seq<int>): seq<byte>
    requires forall k :: 0 <= k < |steps| ==> 0 <= steps[k] < 256
  {
    [id] + seq(|steps|, k requires 0 <= k < |steps| => steps[k] as byte)
  }

  lemma StandardCarriable()
    ensures Carriable(T.Lum().dc) && Carriable(T.Lum().ac) && Carriable(T.Chroma().dc) && Carriable(T.Chroma().ac)
  {
    hide T.AcLumVal, T.AcChromaVal, H.Start, H.Kraft;
    T.StandardReady(2);
    assert T.Standard(2)[0] == T.Lum() && T.Standard(2)[1] == T.Chroma();
  }

  function Tables(n: nat): seq<byte>
    requires n == 1 || n == 3
  {
    StandardCarriable();
    Segment(DHT, DhtPayload(0x00, T.Lum().dc)) + (Segment(DHT, DhtPayload(0x10, T.Lum().ac))
    + (if n == 1 then []
       else Segment(DHT, DhtPayload(0x01, T.Chroma().dc)) + Segment(DHT, DhtPayload(0x11, T.Chroma().ac))))
  }

  function Steps(n: nat, steps: I.StepTables): seq<byte> {
    Segment(DQT, DqtPayload(0, steps.lum)) + (if n == 1 then [] else Segment(DQT, DqtPayload(1, steps.chroma)))
  }

  /** Everything before the entropy-coded data. */
  function HeaderBytes(g: I.Geometry, steps: I.StepTables): seq<byte> {
    [0xFF, SOI] + (Segment(APP0, JfifPayload()) + (Steps(g.Components(), steps)
    + (Segment(SOF0, SofPayload(g)) + (Tables(g.Components()) + Segment(SOS, SosPayload(g.Components()))))))
  }

  // ----- the decoder: header segments

  datatype FrameComponent = FrameComponent(id: nat, h: nat, v: nat, quant: nat)

  datatype ScanComponent = ScanComponent(id: nat, dc: nat, ac: nat)

  /** What the segments read so far have established. */
  datatype Header = Header(
    width: nat, height: nat, frame: seq<FrameComponent>, scan: seq<ScanComponent>,
    quant: map<nat, seq<byte>>, dc: map<nat, H.Table>, ac: map<nat, H.Table>)

  const EMPTY := Header(0, 0, [], [], map[], map[], map[])

  function Word(hi: byte, lo: byte): nat { 256 * hi + lo }

  function FrameComponents(p: seq<byte>): seq<FrameComponent>
    requires |p| % 3 == 0
  {
    if |p| < 3 then [] else [FrameComponent(p[0], p[1] / 16, p[1] % 16, p[2])] + FrameComponents(p[3..])
  }

  function ScanComponents(p: seq<byte>): seq<ScanComponent>
    requires |p| % 2 == 0
  {
    if |p| < 2 then [] else [ScanComponent(p[0], p[1] / 16, p[1] % 16)] + ScanComponents(p[2..])
  }

  /** The identifier, version 1, a density in each direction, and no thumbnail. */
  predicate IsJfif(p: seq<byte>) {
    && |p| == 14 && p[..5] == [0x4A, 0x46, 0x49, 0x46, 0] && p[5] == 1
    && Word(p[8], p[9]) > 0 && Word(p[10], p[11]) > 0 && p[12..] == [0, 0]
  }

  /** The scan names the components of the frame, in order. */
  predicate SameIds(h: Header) {
    |h.scan| == |h.frame| && forall k :: 0 <= k < |h.scan| ==> h.scan[k].id == h.frame[k].id
  }

  function Apply(h: Header, marker: byte, p: seq<byte>): Option<Header> {
    if marker == APP0 then (if IsJfif(p) then Some(h) else None)
    else if marker == DQT then
      if |p| != 65 || p[0] > 3 then None else Some(h.(quant := h.quant[p[0] as nat := p[1..]]))
    else if marker == SOF0 then
      if |p| < 6 || p[0] != 8 || |p| != 6 + 3 * (p[5] as nat) then None
      else Some(h.(height := Word(p[1], p[2]), width := Word(p[3], p[4]), frame := FrameComponents(p[6..])))
    else if marker == DHT then
      if |p| < 17 then None
      else
        var t := H.Table([0] + p[1..17], p[17..]);
        if !H.WellFormed(t) then None
        else if p[0] / 16 == 0 then Some(h.(dc := h.dc[p[0] % 16 as nat := t]))
        else Some(h.(ac := h.ac[p[0] % 16 as nat := t]))
    else if marker == SOS then
      if |p| < 4 || |p| != 4 + 2 * (p[0] as nat) || p[|p| - 3..] != [0, 63, 0] then None
      else Some(h.(scan := ScanComponents(p[1..|p| - 3])))
    else None
  }

  /** Reads segments up to and including the start of scan. */
  function Parse(h: Header, bytes: seq<byte>): Option<(Header, seq<byte>)>
    decreases |bytes|
  {
    if |bytes| < 4 || bytes[0] != 0xFF then None
    else
      var length := Word(bytes[2], bytes[3]);
      if length < 2 || length + 2 > |bytes| then None
      else
        match Apply(h, bytes[1], bytes[4..length + 2])
        case None => None
        case Some(h') =>
          if bytes[1] == SOS then Some((h', bytes[length + 2..])) else Parse(h', bytes[length + 2..])
  }

  // ----- the decoder: scan

  /** Tables of the scan's components, if all have been defined. */
  function ScanTables(h: Header, scan: seq<ScanComponent>): Option<E.Tables> {
    if scan == [] then Some([])
    else if scan[0].dc !in h.dc || scan[0].ac !in h.ac then None
    else
      match ScanTables(h, scan[1..])
      case None => None
      case Some(rest) => Some([E.CodeTables(h.dc[scan[0].dc], h.ac[scan[0].ac])] + rest)
  }

  function Repeat(xs: seq<nat>, n: nat): (r: seq<nat>)
    ensures forall k :: 0 <= k < |r| ==> r[k] in xs
  {
    if n == 0 then [] else Repeat(xs, n - 1) + xs
  }

  /** Components of the blocks of one MCU: h * v blocks of each in turn (T.81, section A.2.3). */
  function McuComponents(frame: seq<FrameComponent>): (r: seq<nat>)
    ensures forall k :: 0 <= k < |r| ==> r[k] < |frame|
  {
    if frame == [] then []
    else
      var last := |frame| - 1;
      McuComponents(frame[..last]) + seq(frame[last].h * frame[last].v, _ => last)
  }

  function MaxH(frame: seq<FrameComponent>): nat {
    if frame == [] then 1 else I.Max(frame[0].h, MaxH(frame[1..]))
  }

  function MaxV(frame: seq<FrameComponent>): nat {
    if frame == [] then 1 else I.Max(frame[0].v, MaxV(frame[1..]))
  }

  function CeilDiv(a: nat, b: nat): nat
    requires b > 0
  {
    (a + b - 1) / b
  }

  function McuCount(h: Header): nat
  {
    Times(CeilDiv(h.width, 8 * I.Max(1, MaxH(h.frame))), CeilDiv(h.height, 8 * I.Max(1, MaxV(h.frame))))
  }

  function Times(a: nat, b: nat): nat { a * b }

  /** A picture as decoded up to, and not including, dequantisation. */
  datatype Picture = Picture(header: Header, units: seq<E.CodedUnit>)

  ghost predicate Padding(bits: bitstring) {
    |bits| < 8 && forall k :: 0 <= k < |bits| ==> bits[k]
  }

  ghost function DecodeScanData(h: Header, rest: seq<byte>): Option<Picture> {
    match ScanTables(h, h.scan)
    case None => None
    case Some(tables) =>
      var (data, tail) := Destuff(rest);
      if !E.Usable(tables) || |tables| != |h.frame| || !SameIds(h) || tail != [0xFF, EOI] then None
      else
        match E.DecodeScan(tables, Repeat(McuComponents(h.frame), McuCount(h)), E.Zeros(|tables|), DataBits(data))
        case None => None
        case Some((units, pad)) => if Padding(pad) then Some(Picture(h, units)) else None
  }

  /** The whole decoder: from the bytes of a file to its quantised coefficients. */
  ghost function DecodeFile(bytes: seq<byte>): Option<Picture> {
    if |bytes| < 2 || bytes[..2] != [0xFF, SOI] then None
    else
      match Parse(EMPTY, bytes[2..])
      case None => None
      case Some((h, rest)) => DecodeScanData(h, rest)
  }
}
