/** The encoder's output side: a bounded memory sink, a 512-byte buffer in front of it, and the bit
    accumulator in front of that.

    However the buffer happens to be flushed, the sink receives one plain byte stream (the ghost
    field bytes), of which it keeps the longest prefix that fits. */
module BitWriter {
  import opened Bits
  import opened ByteStuffing
  import Buf = BitBuffer

  const OUT_BUF_SIZE := 512

  function Min(a: nat, b: nat): nat { if a < b then a else b }

  /** memory_stream of to_jpg.cpp: copies into a fixed buffer and drops what does not fit. */
  class MemoryStream {
    const outBuf: array<byte>
    const maxLen: nat
    var index: nat
    ghost var received: seq<byte>

    ghost predicate Valid()
      reads this, outBuf
    {
      && maxLen <= outBuf.Length
      && index == Min(|received|, maxLen)
      && outBuf[..index] == received[..index]
    }

    constructor (buffer: array<byte>, size: nat)
      requires size <= buffer.Length
      ensures Valid() && received == [] && outBuf == buffer && maxLen == size
    {
      outBuf, maxLen, index := buffer, size, 0;
      received := [];
    }

    /** A null buffer marks the end of the image. The sink never reports failure. */
    method PutBuf(data: array?<byte>, length: nat) returns (ok: bool)
      requires Valid() && data != outBuf && (data != null ==> length <= data.Length)
      modifies `index, `received, outBuf
      ensures Valid() && ok
      ensures received == old(received) + (if data == null then [] else data[..length])
    {
      if data == null {
        return true;
      }
      var len := length;
      if len > maxLen - index {
        len := maxLen - index;
      }
      if len > 0 {
        ghost var before := outBuf[..index];
        forall k | 0 <= k < len {
          outBuf[index + k] := data[k];
        }
        assert outBuf[..index] == before;
        assert outBuf[..index + len] == before + data[..len];
        index := index + len;
      }
      ghost var had := received;
      received := received + data[..length];
      if len > 0 {
        assert old(outBuf[..index]) == had;
        assert received[..index] == had + data[..len];
      } else {
        assert received[..index] == had[..index];
      }
      return true;
    }
  }

  class BitWriter {
    const stream: MemoryStream
    const outBuf: array<byte>
    var outPos: nat
    var outBufLeft: nat
    var bitBuffer: nat
    var bitsIn: nat
    var allStreamWritesSucceeded: bool
    /** Every byte emitted so far, wherever it is now. */
    ghost var bytes: seq<byte>
    /** The bits put but not yet part of a byte. */
    ghost var pending: bitstring
    /** What was emitted before the current scan, and the data bytes of the scan before stuffing. */
    ghost var header: seq<byte>
    ghost var data: seq<byte>

    ghost const Repr: set<object> := {this, outBuf, stream, stream.outBuf}

    ghost predicate BufferValid()
      reads Repr
    {
      && outBuf.Length == OUT_BUF_SIZE && outBuf != stream.outBuf && stream.Valid()
      && outPos + outBufLeft == OUT_BUF_SIZE && outBufLeft >= 1 && allStreamWritesSucceeded
      && bytes == stream.received + outBuf[..outPos]
    }

    ghost predicate Valid()
      reads Repr
    {
      BufferValid() && bitsIn < 8 && Buf.Holds(bitBuffer, bitsIn, pending)
    }

    /** Nothing but stuffed data bytes has been emitted since the scan began. */
    ghost predicate InScan()
      reads Repr
    {
      Valid() && bytes == header + Stuff(data)
    }

    /** All bits put since the scan began. */
    ghost function Emitted(): bitstring
      reads this
    {
      DataBits(data) + pending
    }

    constructor (sink: MemoryStream)
      requires sink.Valid()
      ensures Valid() && stream == sink && fresh(outBuf)
      ensures bytes == sink.received && pending == []
    {
      stream, outBuf := sink, new byte[OUT_BUF_SIZE];
      outPos, outBufLeft, allStreamWritesSucceeded := 0, OUT_BUF_SIZE, true;
      bitBuffer, bitsIn := 0, 0;
      bytes, pending := sink.received, [];
      new;
      assert Shl(0, 24) == 0 by {
        Buf.Shl24(0);
      }
    }

    method FlushOutputBuffer()
      requires outBuf.Length == OUT_BUF_SIZE && outBuf != stream.outBuf && stream.Valid()
      requires outPos + outBufLeft == OUT_BUF_SIZE && allStreamWritesSucceeded
      requires bytes == stream.received + outBuf[..outPos]
      modifies `outPos, `outBufLeft, `allStreamWritesSucceeded, stream`index, stream`received, stream.outBuf
      ensures BufferValid() && stream.received == bytes
    {
      if outBufLeft != OUT_BUF_SIZE {
        var ok := allStreamWritesSucceeded;
        if ok {
          ok := stream.PutBuf(outBuf, OUT_BUF_SIZE - outBufLeft);
        }
        allStreamWritesSucceeded := ok;
      }
      outPos := 0;
      outBufLeft := OUT_BUF_SIZE;
    }

    method EmitByte(b: byte)
      requires BufferValid()
      modifies `outPos, `outBufLeft, `allStreamWritesSucceeded, `bytes, outBuf
      modifies stream`index, stream`received, stream.outBuf
      ensures BufferValid() && bytes == old(bytes) + [b]
    {
      outBuf[outPos] := b;
      outPos := outPos + 1;
      bytes := bytes + [b];
      outBufLeft := outBufLeft - 1;
      assert outBuf[..outPos] == old(outBuf[..outPos]) + [b];
      if outBufLeft == 0 {
        FlushOutputBuffer();
      }
    }

    method EmitWord(w: nat)
      requires Valid()
      modifies `outPos, `outBufLeft, `allStreamWritesSucceeded, `bytes, outBuf
      modifies stream`index, stream`received, stream.outBuf
      ensures Valid() && bytes == old(bytes) + WordBytes(w) && pending == old(pending)
    {
      EmitByte(w / 256 % 256);
      EmitByte(w % 256);
    }

    method EmitMarker(marker: byte)
      requires Valid()
      modifies `outPos, `outBufLeft, `allStreamWritesSucceeded, `bytes, outBuf
      modifies stream`index, stream`received, stream.outBuf
      ensures Valid() && bytes == old(bytes) + [0xFF, marker] && pending == old(pending)
    {
      EmitByte(0xFF);
      EmitByte(marker);
    }

    method EmitStuffed(c: byte)
      requires BufferValid()
      modifies `outPos, `outBufLeft, `allStreamWritesSucceeded, `bytes, outBuf
      modifies stream`index, stream`received, stream.outBuf
      ensures BufferValid() && bytes == old(bytes) + Stuff([c])
    {
      hide Stuff;
      StuffOne(c);
      EmitByte(c);
      if c == 0xFF {
        EmitByte(0);
      }
    }

    ghost method BeginScan()
      requires Valid() && pending == []
      modifies `header, `data
      ensures InScan() && header == bytes && Emitted() == []
    {
      header, data := bytes, [];
    }

    /** The bits join the pending ones; whole bytes leave, stuffed. */
    method PutBits(bits: nat, len: nat)
      requires InScan() && len <= 16 && bits < Pow2(len)
      modifies Repr
      ensures InScan() && header == old(header)
      ensures Emitted() == old(Emitted()) + ToBits(bits, len)
    {
      hide Buf.Holds, Buf.Or, Stuff, DataBits, ToBits, Shl, Pow2, FromBits;
      Buf.HoldsLength(bitBuffer, bitsIn, pending);
      Buf.Insert(bitBuffer, bitsIn, pending, bits, len);
      bitsIn := bitsIn + len;
      bitBuffer := Buf.Or(bitBuffer, Shl(bits, 24 - bitsIn) % Buf.RANGE);
      pending := pending + ToBits(bits, len);
      ghost var all := Emitted();
      while bitsIn >= 8
        invariant BufferValid() && Buf.Holds(bitBuffer, bitsIn, pending) && |pending| == bitsIn
        invariant bytes == header + Stuff(data) && header == old(header)
        invariant Emitted() == all
      {
        ShiftOut();
      }
    }

    /** The oldest eight pending bits leave the buffer as a data byte. */
    method ShiftOut()
      requires BufferValid() && bitsIn >= 8 && Buf.Holds(bitBuffer, bitsIn, pending) && |pending| == bitsIn
      requires bytes == header + Stuff(data)
      modifies Repr
      ensures BufferValid() && bitsIn == old(bitsIn) - 8 && Buf.Holds(bitBuffer, bitsIn, pending) && |pending| == bitsIn
      ensures bytes == header + Stuff(data) && header == old(header) && Emitted() == old(Emitted())
    {
      hide Buf.Holds, Buf.Or, Stuff, DataBits, ToBits, Shl, Pow2, FromBits;
      var c: byte := (bitBuffer / 65536) % 256;
      Buf.Extract(bitBuffer, bitsIn, pending);
      EmitStuffed(c);
      AppendByte(data, c, pending);
      data := data + [c];
      pending := pending[8..];
      bitBuffer := (bitBuffer * 256) % Buf.RANGE;
      bitsIn := bitsIn - 8;
    }
  }

  function WordBytes(w: nat): seq<byte> {
    [w / 256 % 256, w % 256]
  }

  /** Moving the oldest eight pending bits into a data byte. */
  lemma AppendByte(data: seq<byte>, c: byte, pending: bitstring)
    requires |pending| >= 8 && ToBits(c, 8) == pending[..8]
    ensures Stuff(data + [c]) == Stuff(data) + Stuff([c])
    ensures DataBits(data + [c]) + pending[8..] == DataBits(data) + pending
  {
    hide Stuff, DataBits, ToBits;
    StuffConcat(data, [c]);
    DataBitsConcat(data, [c]);
    StuffOne(c);
    assert pending[..8] + pending[8..] == pending;
  }
}
