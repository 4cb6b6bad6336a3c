/** A firmware image cut into packets, and what a progress bitmap says about it. */
module Firmware {
  import opened Bitmap

  /** MUPGRADE_PACKET_MAX_SIZE. */
  const PACKET_SIZE := 1024

  type Image = f: seq<bv8> | 0 < |f| <= PACKET_SIZE * MAX_PACKETS witness [0]

  function PacketNum(f: Image): (n: nat)
    ensures 1 <= n <= MAX_PACKETS && PACKET_SIZE * (n - 1) < |f| <= PACKET_SIZE * n
  {
    (|f| + PACKET_SIZE - 1) / PACKET_SIZE
  }

  /** Size of packet p: the last one holds the remainder, or a full packet when there is none. */
  function Size(f: Image, p: nat): (s: nat)
    requires p < PacketNum(f)
    ensures 1 <= s <= PACKET_SIZE && PACKET_SIZE * p + s <= |f|
    ensures p < PacketNum(f) - 1 ==> s == PACKET_SIZE
  {
    if p == PacketNum(f) - 1 then
      var last := |f| % PACKET_SIZE;
      if last == 0 then PACKET_SIZE else last
    else PACKET_SIZE
  }

  /** The last packet ends where the image does. */
  lemma LastPacket(f: Image)
    ensures PACKET_SIZE * (PacketNum(f) - 1) + Size(f, PacketNum(f) - 1) == |f|
  {
  }

  function Data(f: Image, p: nat): (d: seq<bv8>)
    requires p < PacketNum(f)
    ensures |d| == Size(f, p)
  {
    f[PACKET_SIZE * p..PACKET_SIZE * p + Size(f, p)]
  }

  /** Bytes of the packets below n whose bit is set. */
  function Written(f: Image, b: Bitmap, n: nat): nat
    requires n <= PacketNum(f)
  {
    if n == 0 then 0 else Written(f, b, n - 1) + (if Get(b, n - 1) then Size(f, n - 1) else 0)
  }

  function Total(f: Image, n: nat): (t: nat)
    requires n <= PacketNum(f)
    ensures t == if n == PacketNum(f) then |f| else PACKET_SIZE * n
  {
    LastPacket(f);
    if n == 0 then 0 else Total(f, n - 1) + Size(f, n - 1)
  }

  ghost predicate AllSet(f: Image, b: Bitmap, n: nat)
    requires n <= PacketNum(f)
  {
    forall p :: 0 <= p < n ==> Get(b, p)
  }

  lemma {:induction false} WrittenBound(f: Image, b: Bitmap, n: nat)
    requires n <= PacketNum(f)
    ensures Written(f, b, n) <= Total(f, n)
    ensures Written(f, b, n) == Total(f, n) <==> AllSet(f, b, n)
    ensures Written(f, b, n) == 0 <==> forall p :: 0 <= p < n ==> !Get(b, p)
  {
    hide Get, Size;
    if n > 0 {
      WrittenBound(f, b, n - 1);
    }
  }

  /** The byte counter equals the image size exactly when every packet's bit is set. */
  lemma CompleteIffAllSet(f: Image, b: Bitmap)
    ensures Written(f, b, PacketNum(f)) <= |f|
    ensures Written(f, b, PacketNum(f)) == |f| <==> AllSet(f, b, PacketNum(f))
  {
    WrittenBound(f, b, PacketNum(f));
  }

  lemma {:induction false} WrittenSet(f: Image, b: Bitmap, p: nat, n: nat)
    requires p < PacketNum(f) && n <= PacketNum(f) && !Get(b, p)
    ensures Written(f, Set(b, p), n) == Written(f, b, n) + (if p < n then Size(f, p) else 0)
  {
    hide Get, Set, Size;
    if n > 0 {
      WrittenSet(f, b, p, n - 1);
      GetSet(b, p, n - 1);
    }
  }

  lemma {:induction false} WrittenNone(f: Image, n: nat)
    requires n <= PacketNum(f)
    ensures Written(f, Filled(0), n) == 0
  {
    if n > 0 {
      WrittenNone(f, n - 1);
      GetFilled(n - 1);
    }
  }

  // ----- flash

  const ERASED: bv8 := 0xFF

  /** Flash programming can only clear bits. */
  function Program(was: bv8, data: bv8): bv8 {
    was & data
  }

  /** Programs the first count bytes of data at offset. */
  function Programmed(flash: seq<bv8>, offset: nat, data: seq<bv8>, count: nat): (r: seq<bv8>)
    requires count <= |data| && offset + |data| <= |flash|
    ensures |r| == |flash|
  {
    seq(|flash|, i requires 0 <= i < |flash| =>
      if offset <= i < offset + count then Program(flash[i], data[i - offset]) else flash[i])
  }

  /** A partition that held base, with the whole image programmed over it. */
  function Mixed(base: seq<bv8>, f: Image): (r: seq<bv8>)
    requires |base| == |f|
    ensures |r| == |f|
  {
    seq(|f|, i requires 0 <= i < |f| => Program(base[i], f[i]))
  }

  /** Every bit the image needs can still be had. */
  ghost predicate Takes(f: Image, base: seq<bv8>) {
    |base| == |f| && forall i :: 0 <= i < |f| ==> Program(base[i], f[i]) == f[i]
  }

  predicate Blank(base: seq<bv8>) {
    forall i :: 0 <= i < |base| ==> base[i] == ERASED
  }

  /** Programming the image gives the image exactly if the partition takes it, as an erased one does. */
  lemma MixedIsImage(base: seq<bv8>, f: Image)
    requires |base| == |f|
    ensures Mixed(base, f) == f <==> Takes(f, base)
    ensures Blank(base) ==> Takes(f, base)
  {
    hide Program;
    if Mixed(base, f) == f {
      assert forall i :: 0 <= i < |f| ==> Program(base[i], f[i]) == Mixed(base, f)[i];
    }
    if Blank(base) {
      forall i | 0 <= i < |f|
        ensures Program(base[i], f[i]) == f[i]
      {
        ProgramErased(f[i]);
      }
    }
  }

  lemma ProgramErased(y: bv8)
    ensures Program(ERASED, y) == y
  {
  }

  lemma ProgramTwice(x: bv8, y: bv8)
    ensures Program(Program(x, y), y) == Program(x, y)
  {
  }

  /** Every byte is as it was or has the image's byte programmed over it. */
  ghost predicate Clean(f: Image, base: seq<bv8>, flash: seq<bv8>) {
    |flash| == |base| == |f| && forall i :: 0 <= i < |f| ==> flash[i] == base[i] || flash[i] == Program(base[i], f[i])
  }

  /** Packet p has been programmed over what was there. */
  ghost predicate Laid(f: Image, base: seq<bv8>, flash: seq<bv8>, p: nat)
    requires p < PacketNum(f)
  {
    && |flash| == |base| == |f|
    && forall i :: PACKET_SIZE * p <= i < PACKET_SIZE * p + Size(f, p) ==> flash[i] == Program(base[i], f[i])
  }

  ghost predicate Holds(f: Image, flash: seq<bv8>, p: nat)
    requires p < PacketNum(f)
  {
    |flash| == |f| && forall i :: PACKET_SIZE * p <= i < PACKET_SIZE * p + Size(f, p) ==> flash[i] == f[i]
  }

  lemma LaidHolds(f: Image, base: seq<bv8>, flash: seq<bv8>, p: nat)
    requires p < PacketNum(f) && Laid(f, base, flash, p) && Takes(f, base)
    ensures Holds(f, flash, p)
  {
    hide Program, Size;
  }

  /** Programming a packet, or part of it, keeps flash between what it was and the image, and keeps what
      was programmed before. */
  lemma ProgramKeeps(f: Image, base: seq<bv8>, flash: seq<bv8>, p: nat, count: nat, q: nat)
    requires Clean(f, base, flash) && p < PacketNum(f) && count <= Size(f, p) && q < PacketNum(f)
    ensures Clean(f, base, Programmed(flash, PACKET_SIZE * p, Data(f, p), count))
    ensures Laid(f, base, flash, q) ==> Laid(f, base, Programmed(flash, PACKET_SIZE * p, Data(f, p), count), q)
    ensures count == Size(f, p) ==> Laid(f, base, Programmed(flash, PACKET_SIZE * p, Data(f, p), count), p)
  {
    hide Program, Size;
    var r := Programmed(flash, PACKET_SIZE * p, Data(f, p), count);
    forall i | 0 <= i < |f|
      ensures r[i] == if PACKET_SIZE * p <= i < PACKET_SIZE * p + count then Program(base[i], f[i]) else flash[i]
    {
      ProgramTwice(base[i], f[i]);
    }
  }

  /** If every packet has been programmed, the whole image has. */
  lemma AllLaid(f: Image, base: seq<bv8>, flash: seq<bv8>)
    requires |flash| == |base| == |f| && forall p :: 0 <= p < PacketNum(f) ==> Laid(f, base, flash, p)
    ensures flash == Mixed(base, f)
  {
    hide Program;
    forall i | 0 <= i < |f|
      ensures flash[i] == Mixed(base, f)[i]
    {
      var p := i / PACKET_SIZE;
      LastPacket(f);
      assert Laid(f, base, flash, p);
    }
  }
}
