/** The encoder's header: one method for each kind of segment, byte by byte. */
module HeaderWriter {
  import opened Bits
  import opened JpegFormat
  import BW = BitWriter
  import C = TableCache
  import I = Image
  import T = StandardTables

  method EmitBytes(w: BW.BitWriter, s: seq<byte>)
    requires w.Valid()
    modifies w.Repr
    ensures w.Valid() && w.bytes == old(w.bytes) + s && w.pending == old(w.pending)
  {
    for i := 0 to |s|
      invariant w.Valid() && w.bytes == old(w.bytes) + s[..i] && w.pending == old(w.pending)
    {
      w.EmitByte(s[i]);
      assert s[..i + 1] == s[..i] + [s[i]];
    }
    assert s[..|s|] == s;
  }

  method EmitSegment(w: BW.BitWriter, marker: byte, payload: seq<byte>)
    requires w.Valid()
    modifies w.Repr
    ensures w.Valid() && w.bytes == old(w.bytes) + Segment(marker, payload) && w.pending == old(w.pending)
  {
    w.EmitMarker(marker);
    w.EmitWord(|payload| + 2);
    EmitBytes(w, payload);
  }

  /** emit_dqt: the cached tables, one segment for each. */
  method EmitDqt(w: BW.BitWriter, cache: C.Cache, n: nat, ghost steps: I.StepTables)
    requires w.Valid() && (n == 1 || n == 3) && cache !in w.Repr
    requires cache.quant == [steps.lum, steps.chroma]
    modifies w.Repr
    ensures w.Valid() && w.bytes == old(w.bytes) + Steps(n, steps) && w.pending == old(w.pending)
  {
    hide Segment, DqtPayload, BW.BitWriter.Valid;
    EmitSegment(w, DQT, DqtPayload(0, cache.quant[0]));
    if n == 3 {
      EmitSegment(w, DQT, DqtPayload(1, cache.quant[1]));
    }
  }

  /** emit_dhts. */
  method EmitDhts(w: BW.BitWriter, n: nat)
    requires w.Valid() && (n == 1 || n == 3)
    modifies w.Repr
    ensures w.Valid() && w.bytes == old(w.bytes) + Tables(n) && w.pending == old(w.pending)
  {
    hide Segment, DhtPayload, Carriable, T.Lum, T.Chroma, BW.BitWriter.Valid;
    StandardCarriable();
    EmitSegment(w, DHT, DhtPayload(0x00, T.Lum().dc));
    EmitSegment(w, DHT, DhtPayload(0x10, T.Lum().ac));
    if n == 3 {
      EmitSegment(w, DHT, DhtPayload(0x01, T.Chroma().dc));
      EmitSegment(w, DHT, DhtPayload(0x11, T.Chroma().ac));
    }
  }

  /** All markers at the beginning of the file. */
  method EmitHeader(w: BW.BitWriter, cache: C.Cache, g: I.Geometry, ghost steps: I.StepTables)
    requires w.Valid() && cache !in w.Repr && cache.quant == [steps.lum, steps.chroma]
    modifies w.Repr
    ensures w.Valid() && w.bytes == old(w.bytes) + HeaderBytes(g, steps) && w.pending == old(w.pending)
  {
    hide Segment, JfifPayload, SofPayload, SosPayload, Steps, Tables, BW.BitWriter.Valid;
    var n := g.Components();
    w.EmitMarker(SOI);
    EmitSegment(w, APP0, JfifPayload());
    EmitDqt(w, cache, n, steps);
    EmitSegment(w, SOF0, SofPayload(g));
    EmitDhts(w, n);
    EmitSegment(w, SOS, SosPayload(n));
    Assemble(old(w.bytes), g, steps);
  }

  lemma Assemble(start: seq<byte>, g: I.Geometry, steps: I.StepTables)
    ensures start + [0xFF, SOI] + Segment(APP0, JfifPayload()) + Steps(g.Components(), steps)
              + Segment(SOF0, SofPayload(g))
              + Tables(g.Components()) + Segment(SOS, SosPayload(g.Components()))
         == start + HeaderBytes(g, steps)
  {
    hide Segment, JfifPayload, SofPayload, SosPayload, Steps, Tables;
  }
}
