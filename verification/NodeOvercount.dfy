/** An image of more packets than a snapshot covers, and a node that finishes without having it.

    The node gets the last two packets early, saves a snapshot that counts them but does not mark
    them, and is reset. It then gets those two again, counts them twice, and finishes with two
    packets missing. */
module NodeOvercount {
  import opened Bitmap
  import opened Firmware
  import opened UpgradeNode
  import opened NodeProgress
  import opened Wrappers

  const PACKETS := 3970

  function ZeroImage(): (f: Image)
    ensures |f| == PACKETS * PACKET_SIZE && PacketNum(f) == PACKETS
    ensures forall i :: 0 <= i < |f| ==> f[i] == 0
  {
    seq(PACKETS * PACKET_SIZE, _ => 0)
  }

  lemma FullPackets(f: Image, p: nat)
    requires |f| == PACKETS * PACKET_SIZE && p < PACKETS
    ensures PacketNum(f) == PACKETS && Size(f, p) == PACKET_SIZE
  {
  }

  /** Packet p arrives and is written. */
  function Arrives(f: Image, n: NodeState, p: nat): (m: NodeState)
    requires p < PacketNum(f) && |n.flash| == |f|
    ensures |m.flash| == |f|
  {
    WriteKeepsLength(f, n, p, LOSSLESS);
    WriteStep(f, n, p, LOSSLESS).0
  }

  /** Packets a to b - 1 arrive in order. */
  function Writes(f: Image, n: NodeState, a: nat, b: nat): (m: NodeState)
    requires a <= b <= PacketNum(f) && |n.flash| == |f|
    ensures |m.flash| == |f|
    decreases b
  {
    if a == b then n else Arrives(f, Writes(f, n, a, b - 1), b - 1)
  }

  /** The packets marked are those below x and those from y to z - 1. */
  ghost predicate Marked(b: Bitmap, x: nat, y: nat, z: nat) {
    forall p: nat :: p < MAX_PACKETS ==> (Get(b, p) <==> (p < x || y <= p < z))
  }

  /** A byte of the packet that will be missing. */
  const MISSING := 395
  const PLACE := MISSING * PACKET_SIZE

  /** The node is at work, counts bytes of count packets, and has not written the missing one. */
  ghost predicate Going(f: Image, n: NodeState, count: nat, x: nat, y: nat, z: nat) {
    && |f| == PACKETS * PACKET_SIZE && |n.flash| == |f| && n.flash[PLACE] == ERASED
    && n.cfg.Some? && n.cfg.value.total == |f| && n.cfg.value.error != Stop && !n.boot && !n.booted && Blank(n.base)
    && n.cfg.value.written == count * PACKET_SIZE && Marked(n.cfg.value.bitmap, x, y, z)
  }

  /** Writing one more packet that is not marked and does not complete the count. */
  lemma OneMore(f: Image, n: NodeState, p: nat, count: nat, x: nat, y: nat, z: nat)
    requires Going(f, n, count, x, y, z) && p < PACKETS && p != MISSING && !(p < x || y <= p < z) && count + 1 < PACKETS
    ensures PacketNum(f) == PACKETS
    ensures var m := WriteStep(f, n, p, LOSSLESS).0;
      && p == x ==> Going(f, m, count + 1, x + 1, y, z)
    ensures var m := WriteStep(f, n, p, LOSSLESS).0;
      p == z && y <= z ==> Going(f, m, count + 1, x, y, z + 1)
    ensures var m := WriteStep(f, n, p, LOSSLESS).0;
      if Percent((count + 1) * PACKET_SIZE, |f|) == n.nextPercent
      then m.cfg.Some? && m.snapshot == Some(Saved(m.cfg.value))
      else m.nextPercent == n.nextPercent
  {
    hide Get, Set, Percent, Cut, Programmed, Data, WriteStep;
    JustReceived(f, n, p, count, x, y, z);
    FullPackets(f, p);
    MissingStays(f, n, p);
    var b := n.cfg.value.bitmap;
    forall q: nat | q < MAX_PACKETS
      ensures Get(Set(b, p), q) <==> (p == q || Get(b, q))
    {
      GetSet(b, p, q);
    }
  }

  lemma JustReceived(f: Image, n: NodeState, p: nat, count: nat, x: nat, y: nat, z: nat)
    requires Going(f, n, count, x, y, z) && p < PACKETS && !(p < x || y <= p < z) && count + 1 < PACKETS
    ensures PacketNum(f) == PACKETS
    ensures WriteStep(f, n, p, LOSSLESS).0 == Received(f, n, p, true)
  {
    hide Get, Set, Percent, Cut, Programmed, Data;
    FullPackets(f, p);
    assert !Get(n.cfg.value.bitmap, p);
  }

  lemma MissingStays(f: Image, n: NodeState, p: nat)
    requires |f| == PACKETS * PACKET_SIZE && |n.flash| == |f| && p < PACKETS && p != MISSING
    ensures PacketNum(f) == PACKETS && Size(f, p) == PACKET_SIZE
    ensures Flashed(f, n, p, PACKET_SIZE).flash[PLACE] == n.flash[PLACE]
  {
    FullPackets(f, p);
  }

  lemma PercentAt(f: Image, m: nat)
    requires |f| == PACKETS * PACKET_SIZE && m <= PACKETS
    ensures Percent(m * PACKET_SIZE, |f|) == 100 * m / PACKETS
  {
    assert m * PACKET_SIZE * 100 < UINT32_RANGE;
  }

  // ----- the run

  /** The node has not heard of the image. */
  ghost predicate Idle(f: Image, n: NodeState) {
    |n.flash| == |f| && n.cfg.None? && n.snapshot.None? && n.nextPercent == REPORT_INTERVAL
    && !n.told && !n.boot && !n.booted
  }

  lemma Begins(f: Image, n: NodeState)
    requires |f| == PACKETS * PACKET_SIZE && Idle(f, n)
    ensures var m := StatusStep(f, n, ERASES).0;
      Going(f, m, 0, 0, SAVED_PACKETS, SAVED_PACKETS) && m.nextPercent == REPORT_INTERVAL
  {
    hide Get, Cut, Filled;
    forall p: nat | p < MAX_PACKETS
      ensures !Get(Filled(0), p)
    {
      GetFilled(p);
    }
  }

  /** The last two packets come first. */
  lemma LastTwo(f: Image, n: NodeState)
    requires Going(f, n, 0, 0, SAVED_PACKETS, SAVED_PACKETS) && n.nextPercent == REPORT_INTERVAL
    ensures PacketNum(f) == PACKETS
    ensures var m := Writes(f, n, SAVED_PACKETS, PACKETS);
      Going(f, m, 2, 0, SAVED_PACKETS, PACKETS) && m.nextPercent == REPORT_INTERVAL
  {
    hide Going, WriteStep, Percent;
    GoingLength(f, n, 0, 0, SAVED_PACKETS, SAVED_PACKETS);
    var a := SAVED_PACKETS;
    assert Writes(f, n, a, a) == n;
    OneMore(f, n, a, 0, 0, a, a);
    PercentAt(f, 1);
    var m := WriteStep(f, n, a, LOSSLESS).0;
    assert Writes(f, n, a, a + 1) == m;
    GoingLength(f, m, 1, 0, a, a + 1);
    OneMore(f, m, a + 1, 1, 0, a, a + 1);
    PercentAt(f, 2);
    assert Writes(f, n, a, a + 2) == WriteStep(f, m, a + 1, LOSSLESS).0;
  }

  lemma GoingLength(f: Image, n: NodeState, c: nat, x: nat, y: nat, z: nat)
    requires Going(f, n, c, x, y, z)
    ensures PacketNum(f) == PACKETS && |n.flash| == |f| == PACKETS * PACKET_SIZE
  {
    FullPackets(f, 0);
  }

  /** Then the first ones, up to the missing packet; the count reaches ten percent at the last. */
  lemma {:induction false} FirstOnes(f: Image, n: NodeState, b: nat)
    requires Going(f, n, 2, 0, SAVED_PACKETS, PACKETS) && n.nextPercent == REPORT_INTERVAL && b < MISSING
    ensures PacketNum(f) == PACKETS
    ensures var m := Writes(f, n, 0, b);
      Going(f, m, 2 + b, b, SAVED_PACKETS, PACKETS) && m.nextPercent == REPORT_INTERVAL
  {
    hide Going, WriteStep, Percent;
    GoingLength(f, n, 2, 0, SAVED_PACKETS, PACKETS);
    if b > 0 {
      FirstOnes(f, n, b - 1);
      OneMore(f, Writes(f, n, 0, b - 1), b - 1, 1 + b, b - 1, SAVED_PACKETS, PACKETS);
      PercentAt(f, 2 + b);
    }
  }

  /** The snapshot then saved counts two packets more than it marks. */
  lemma Snapshot(f: Image, n: NodeState)
    requires Going(f, n, 2, 0, SAVED_PACKETS, PACKETS) && n.nextPercent == REPORT_INTERVAL
    ensures PacketNum(f) == PACKETS
    ensures var m := Writes(f, n, 0, MISSING);
      Going(f, m, 2 + MISSING, MISSING, SAVED_PACKETS, PACKETS) && m.snapshot == Some(Saved(m.cfg.value))
  {
    hide WriteStep, Percent, Marked, Saved;
    FirstOnes(f, n, MISSING - 1);
    OneMore(f, Writes(f, n, 0, MISSING - 1), MISSING - 1, 1 + MISSING, MISSING - 1, SAVED_PACKETS, PACKETS);
    PercentAt(f, 2 + MISSING);
  }

  /** After a reset the node goes on from there. */
  lemma Resumes(f: Image, n: NodeState)
    requires Going(f, n, 2 + MISSING, MISSING, SAVED_PACKETS, PACKETS) && n.snapshot == Some(Saved(n.cfg.value))
    ensures Going(f, StatusStep(f, Reset(n), ERASES).0, 2 + MISSING, MISSING, MISSING + 2, MISSING + 2)
  {
    hide Get, Cut;
    var b := n.cfg.value.bitmap;
    forall p: nat | p < MAX_PACKETS
      ensures Get(Cut(b), p) == (p < SAVED_PACKETS && Get(b, p))
    {
      CutGet(b, p);
    }
  }

  /** All later packets arrive, none of the missing two does. */
  lemma {:induction false} TheRest(f: Image, n: NodeState, b: nat)
    requires Going(f, n, MISSING + 2, MISSING, MISSING + 2, MISSING + 2) && MISSING + 2 <= b < PACKETS
    ensures PacketNum(f) == PACKETS
    ensures Going(f, Writes(f, n, MISSING + 2, b), b, MISSING, MISSING + 2, b)
    decreases b
  {
    hide Going, WriteStep, Percent;
    GoingLength(f, n, MISSING + 2, MISSING, MISSING + 2, MISSING + 2);
    if b > MISSING + 2 {
      TheRest(f, n, b - 1);
      OneMore(f, Writes(f, n, MISSING + 2, b - 1), b - 1, b - 1, MISSING, MISSING + 2, b - 1);
    }
  }

  /** The count is complete, the image is not. */
  lemma LastOne(f: Image, n: NodeState)
    requires Going(f, n, PACKETS - 1, MISSING, MISSING + 2, PACKETS - 1)
    ensures PacketNum(f) == PACKETS
    ensures var m := WriteStep(f, n, PACKETS - 1, LOSSLESS).0;
      m.finished && m.told && m.boot && Blank(m.base) && |m.flash| == |f| && m.flash[PLACE] == ERASED
  {
    hide Get, Set, Percent, Cut, Program, Data;
    FullPackets(f, PACKETS - 1);
    assert !Get(n.cfg.value.bitmap, PACKETS - 1);
  }

  /** A status request, packets 3968 and 3969, packets 0 to 394, a reset, a status request, packets 397
      to 3969: the node reports completion, switches its boot partition, and lacks packet 395. */
  lemma FinishesIncomplete(n: NodeState)
    requires Idle(ZeroImage(), n)
    ensures var f := ZeroImage();
      var n1 := Writes(f, StatusStep(f, n, ERASES).0, SAVED_PACKETS, PACKETS);
      var n2 := Writes(f, n1, 0, MISSING);
      var n3 := Writes(f, StatusStep(f, Reset(n2), ERASES).0, MISSING + 2, PACKETS);
      && n3.finished && n3.told && n3.boot && Blank(n3.base) && |n3.flash| == |f|
      && n3.flash[PLACE] == ERASED && !Holds(f, n3.flash, MISSING)
  {
    hide Going, WriteStep, StatusStep, Reset;
    var f := ZeroImage();
    Begins(f, n);
    var n0 := StatusStep(f, n, ERASES).0;
    GoingLength(f, n0, 0, 0, SAVED_PACKETS, SAVED_PACKETS);
    LastTwo(f, n0);
    var n1 := Writes(f, n0, SAVED_PACKETS, PACKETS);
    Snapshot(f, n1);
    var n2 := Writes(f, n1, 0, MISSING);
    Resumes(f, n2);
    var n3 := StatusStep(f, Reset(n2), ERASES).0;
    GoingLength(f, n3, 2 + MISSING, MISSING, MISSING + 2, MISSING + 2);
    TheRest(f, n3, PACKETS - 1);
    LastOne(f, Writes(f, n3, MISSING + 2, PACKETS - 1));
  }
}
