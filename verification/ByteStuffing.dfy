/** Bytes of an entropy-coded segment (T.81, sections B.1.1.5 and F.1.2.3): every 0xFF data byte is
    followed by a stuffed zero, so that 0xFF followed by anything else is a marker. */
module ByteStuffing {
  import opened Bits

  function Stuff(data: seq<byte>): seq<byte> {
    if data == [] then []
    else (if data[0] == 0xFF then [0xFF, 0x00] else [data[0]]) + Stuff(data[1..])
  }

  /** Data bytes up to the first marker, and the bytes from that marker on. */
  function Destuff(bytes: seq<byte>): (seq<byte>, seq<byte>) {
    if bytes == [] then ([], [])
    else if bytes[0] != 0xFF then
      var (data, rest) := Destuff(bytes[1..]);
      ([bytes[0]] + data, rest)
    else if |bytes| >= 2 && bytes[1] == 0x00 then
      var (data, rest) := Destuff(bytes[2..]);
      ([0xFF] + data, rest)
    else ([], bytes)
  }

  function DataBits(data: seq<byte>): bitstring {
    if data == [] then [] else ToBits(data[0], 8) + DataBits(data[1..])
  }

  lemma {:induction false} StuffConcat(a: seq<byte>, b: seq<byte>)
    ensures Stuff(a + b) == Stuff(a) + Stuff(b)
  {
    if a == [] {
      assert a + b == b;
    } else {
      assert (a + b)[1..] == a[1..] + b;
      StuffConcat(a[1..], b);
    }
  }

  lemma {:induction false} DataBitsConcat(a: seq<byte>, b: seq<byte>)
    ensures DataBits(a + b) == DataBits(a) + DataBits(b)
  {
    if a == [] {
      assert a + b == b;
    } else {
      assert (a + b)[1..] == a[1..] + b;
      DataBitsConcat(a[1..], b);
    }
  }

  lemma StuffOne(b: byte)
    ensures Stuff([b]) == if b == 0xFF then [0xFF, 0x00] else [b]
    ensures DataBits([b]) == ToBits(b, 8)
  {
    assert DataBits([]) == [];
  }

  /** The first marker a reader meets in stuffed data is the one that follows the data. */
  lemma {:induction false} DestuffStuff(data: seq<byte>, marker: byte, rest: seq<byte>)
    requires marker != 0x00
    ensures Destuff(Stuff(data) + ([0xFF, marker] + rest)) == (data, [0xFF, marker] + rest)
  {
    var end := [0xFF, marker] + rest;
    if data == [] {
      assert Stuff(data) + end == end;
      assert end[0] == 0xFF && end[1] == marker;
    } else {
      var bytes := Stuff(data) + end;
      var tail := Stuff(data[1..]) + end;
      DestuffStuff(data[1..], marker, rest);
      if data[0] == 0xFF {
        assert bytes == [0xFF, 0x00] + tail;
        assert bytes[2..] == tail;
      } else {
        assert bytes == [data[0]] + tail;
        assert bytes[1..] == tail;
      }
      assert data == [data[0]] + data[1..];
    }
  }
}
