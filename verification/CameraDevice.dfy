/** The camera's frame buffers as the linked objects they are, each operation refining its step in
    CameraRing. */
module CameraDevice {
  import opened Bits
  import opened CameraFrame
  import opened CameraRing
  import opened Wrappers

  class FrameBuffer {
    /** The buffer's memory and the bytes behind it. */
    const buf: array<byte>
    var len: nat
    var ref: bool
    var bad: bool
    var jpeg: bool
    var next: FrameBuffer?
    /** Position along the ring. */
    ghost const id: nat

    constructor (size: nat, ghost id: nat)
      ensures fresh(buf) && buf.Length == size + LOOKAHEAD && len == 0 && !ref && !bad && !jpeg && next == null
      ensures this.id == id
    {
      buf := new byte[size + LOOKAHEAD](_ => 0);
      len, ref, bad, jpeg, next := 0, false, false, false, null;
      this.id := id;
    }

    ghost function Slot(): (s: Slot)
      reads this, buf
      ensures |s.data| == buf.Length
    {
      CameraRing.Slot(buf[..], len, ref, bad, jpeg)
    }

    method Empty()
      modifies this
      ensures Slot() == Free(old(Slot())) && next == old(next)
    {
      ref, len := false, 0;
    }

    method Wipe()
      requires buf.Length >= 4
      modifies this, buf
      ensures Slot() == Wiped(old(Slot())) && next == old(next)
    {
      len := 0;
      buf[0], buf[1], buf[2], buf[3] := 0, 0, 0, 0;
    }
  }

  /** dma_filter_jpeg: of each DMA element one byte is kept, four at a time. */
  method DmaFilterJpeg(samples: seq<byte>, length: nat, dst: array<byte>, at: nat)
    requires |samples| >= length / 4 && at + FilterLen(length) <= dst.Length
    modifies dst
    ensures dst[..] == Overwrite(old(dst[..]), at, samples[..FilterLen(length)])
  {
    for i := 0 to length / 4 / 4
      invariant forall k :: 0 <= k < dst.Length ==>
        dst[k] == if at <= k < at + 4 * i then samples[k - at] else old(dst[k])
    {
      dst[at + 4 * i] := samples[4 * i];
      dst[at + 4 * i + 1] := samples[4 * i + 1];
      dst[at + 4 * i + 2] := samples[4 * i + 2];
      dst[at + 4 * i + 3] := samples[4 * i + 3];
    }
  }

  ghost function BufsOf(bs: seq<FrameBuffer>): set<object> {
    set b | b in bs :: b.buf
  }

  ghost function SlotsOf(bs: seq<FrameBuffer>): (s: seq<Slot>)
    reads bs, BufsOf(bs)
    ensures |s| == |bs|
  {
    seq(|bs|, i requires 0 <= i < |bs| reads bs, BufsOf(bs) => bs[i].Slot())
  }

  // ----- building the ring

  ghost predicate Blank(b: FrameBuffer)
    reads b
  {
    b.len == 0 && !b.ref && !b.bad
  }

  ghost predicate OwnMemory(bs: seq<FrameBuffer>, i: nat, j: nat)
    requires i < |bs| && j < |bs|
  {
    bs[i].buf == bs[j].buf ==> i == j
  }

  ghost predicate ChainAt(bs: seq<FrameBuffer>, size: nat, count: nat, i: nat)
    requires i < |bs|
    reads bs
  {
    var b := bs[i];
    && b.id + |bs| == count + i && b.buf.Length == size + LOOKAHEAD && Blank(b)
    && b.next == if i + 1 < |bs| then bs[i + 1] else null
  }

  /** A list of new buffers, the last of count buffers of a ring to be. */
  ghost predicate Chain(bs: seq<FrameBuffer>, size: nat, count: nat)
    reads bs
  {
    && (forall i: nat :: i < |bs| ==> ChainAt(bs, size, count, i))
    && (forall i: nat, j: nat :: i < |bs| && j < |bs| ==> OwnMemory(bs, i, j))
  }

  lemma NoChain(size: nat, count: nat)
    ensures Chain([], size, count)
  {
  }

  lemma ChainPush(b: FrameBuffer, bs: seq<FrameBuffer>, size: nat, count: nat)
    requires Chain(bs, size, count) && b.id + |bs| + 1 == count && b.buf.Length == size + LOOKAHEAD && Blank(b)
    requires b.next == if bs == [] then null else bs[0]
    requires forall i :: 0 <= i < |bs| ==> bs[i].buf != b.buf
    ensures Chain([b] + bs, size, count)
  {
    var cs := [b] + bs;
    forall i: nat | i < |cs|
      ensures ChainAt(cs, size, count, i)
    {
      assert i > 0 ==> ChainAt(bs, size, count, i - 1);
    }
    forall i: nat, j: nat | i < |cs| && j < |cs|
      ensures OwnMemory(cs, i, j)
    {
      assert i > 0 && j > 0 ==> OwnMemory(bs, i - 1, j - 1);
    }
  }

  ghost predicate RingAt(bs: seq<FrameBuffer>, size: nat, i: nat)
    requires i < |bs|
    reads bs
  {
    var b := bs[i];
    b.id == i && b.buf.Length == size + LOOKAHEAD && Blank(b) && b.next == bs[After(|bs|, i)]
  }

  ghost predicate RingOf(bs: seq<FrameBuffer>, size: nat)
    reads bs
  {
    && (forall i: nat :: i < |bs| ==> RingAt(bs, size, i))
    && (forall i: nat, j: nat :: i < |bs| && j < |bs| ==> OwnMemory(bs, i, j))
  }

  /** Linking the last buffer to the first closes the ring. */
  method CloseRing(first: FrameBuffer, head: FrameBuffer, ghost bs: seq<FrameBuffer>, ghost size: nat)
    requires bs != [] && Chain(bs, size, |bs|) && head == bs[0] && first == bs[|bs| - 1]
    modifies first
    ensures RingOf(bs, size)
  {
    first.next := head;
    forall i: nat | i < |bs|
      ensures RingAt(bs, size, i)
    {
      assert old(ChainAt(bs, size, |bs|, i)) && old(ChainAt(bs, size, |bs|, |bs| - 1));
    }
  }

  /** The failure exit of camera_fb_init frees the buffers built so far. */
  method FreeChain(head: FrameBuffer?, ghost bs: seq<FrameBuffer>, ghost size: nat, ghost count: nat)
    returns (freed: seq<FrameBuffer>)
    requires Chain(bs, size, count) && head == if bs == [] then null else bs[0]
    ensures freed == bs && forall k: nat :: k < |freed| ==> freed[k].id + |freed| == count + k
  {
    freed := [];
    var fb := head;
    while fb != null
      invariant |freed| <= |bs| && freed == bs[..|freed|]
      invariant fb == if |freed| < |bs| then bs[|freed|] else null
      decreases |bs| - |freed|
    {
      assert ChainAt(bs, size, count, |freed|);
      var fb2 := fb;
      fb := fb2.next;
      freed := freed + [fb2];
    }
    forall k: nat | k < |bs|
      ensures bs[k].id + |bs| == count + k
    {
      assert ChainAt(bs, size, count, k);
    }
  }

  class Camera {
    const frameSize: nat
    const bufLen: nat
    /** Bytes of a DMA buffer. */
    const dmaSize: nat
    var fb: FrameBuffer?
    var fbOut: seq<FrameBuffer>
    var fbIn: seq<FrameBuffer>
    var filtered: nat
    /** The buffers in ring order, and the history fields of CameraRing.State. */
    ghost var ring: seq<FrameBuffer>
    ghost var held: set<nat>
    ghost var lost: set<nat>
    ghost var frames: map<nat, seq<byte>>
    ghost var newest: Option<seq<byte>>

    ghost predicate Member(b: FrameBuffer)
      reads this`ring
    {
      b.id < |ring| && ring[b.id] == b
    }

    ghost predicate Linked(i: nat)
      requires i < |ring|
      reads this`ring, ring
    {
      var b := ring[i];
      b.id == i && b.buf.Length == frameSize + LOOKAHEAD && b.next == ring[After(|ring|, i)]
    }

    ghost predicate Apart(i: nat, j: nat)
      requires i < |ring| && j < |ring|
      reads this`ring
    {
      ring[i].buf == ring[j].buf ==> i == j
    }

    /** The buffers form one ring, each with its own memory. */
    ghost predicate OneRing()
      reads this`ring, ring
    {
      && (forall i: nat :: i < |ring| ==> Linked(i))
      && (forall i: nat, j: nat :: i < |ring| && j < |ring| ==> Apart(i, j))
    }

    /** A frame holds at least one buffer, and the filter writes no more of a buffer than its place. */
    ghost predicate Sized() {
      4 <= frameSize && FilterLen(dmaSize) <= bufLen <= frameSize
    }

    ghost predicate Valid()
      reads this, ring
    {
      && fb != null && Member(fb) && OneRing()
      && Sized()
      && (forall k :: 0 <= k < |fbOut| ==> Member(fbOut[k]))
      && (forall k :: 0 <= k < |fbIn| ==> Member(fbIn[k]))
    }

    ghost function Bufs(): set<object>
      reads this`ring
    {
      BufsOf(ring)
    }

    ghost function Slots(): (s: seq<Slot>)
      reads this`ring, ring, Bufs()
      ensures |s| == |ring|
    {
      SlotsOf(ring)
    }

    ghost function Ids(bs: seq<FrameBuffer>): (s: seq<nat>)
      ensures |s| == |bs|
    {
      seq(|bs|, k requires 0 <= k < |bs| => bs[k].id)
    }

    ghost function Model(): State
      requires fb != null
      reads this, ring, Bufs()
    {
      State(Slots(), fb.id, Ids(fbOut), Ids(fbIn), held, lost, filtered, frames, newest)
    }

    ghost function Cfg(): Config {
      Config(frameSize, bufLen)
    }

    lemma ModelShape()
      requires Valid()
      ensures forall i :: 0 <= i < |ring| ==> |Slots()[i].data| == frameSize + LOOKAHEAD
      ensures forall k :: 0 <= k < |fbOut| ==> Ids(fbOut)[k] < |ring|
      ensures fb.id < |ring| && Slots()[fb.id] == fb.Slot()
    {
      forall i | 0 <= i < |ring|
        ensures |Slots()[i].data| == frameSize + LOOKAHEAD
      {
        assert Linked(i) && Slots()[i] == ring[i].Slot();
      }
    }

    /** Changing one buffer changes one slot. */
    twostate lemma OneSlot(b: FrameBuffer)
      requires old(OneRing()) && Member(b) && ring == old(ring)
      requires forall i: nat {:trigger ring[i]} :: i < |ring| && ring[i] != b ==>
        unchanged(ring[i]) && unchanged(ring[i].buf)
      requires b.next == old(b.next)
      ensures OneRing()
      ensures Slots() == old(Slots())[b.id := b.Slot()]
    {
      forall i: nat | i < |ring|
        ensures Linked(i)
      {
        assert old(Linked(i));
      }
      forall i: nat, j: nat | i < |ring| && j < |ring|
        ensures Apart(i, j)
      {
        assert old(Apart(i, j));
      }
      forall i | 0 <= i < |ring|
        ensures Slots()[i] == old(Slots())[b.id := b.Slot()][i]
      {
        assert old(Linked(i));
        assert Slots()[i] == ring[i].Slot() && old(Slots())[i] == old(ring[i].Slot());
      }
    }

    twostate lemma NoSlot()
      requires ring == old(ring)
      requires forall i: nat {:trigger ring[i]} :: i < |ring| ==> unchanged(ring[i]) && unchanged(ring[i].buf)
      ensures Slots() == old(Slots())
    {
      assert forall i :: 0 <= i < |ring| ==> Slots()[i] == ring[i].Slot() && old(Slots())[i] == old(ring[i].Slot());
    }

    lemma LinkOf(b: FrameBuffer)
      requires OneRing() && Member(b)
      ensures b.next != null && Member(b.next) && b.next.id == After(|ring|, b.id) && Slots()[b.id] == b.Slot()
    {
      assert Linked(b.id) && Linked(After(|ring|, b.id));
    }

    lemma OnlyOne(b: FrameBuffer, c: FrameBuffer)
      requires Member(b) && Member(c)
      ensures b == c <==> b.id == c.id
    {
    }

    /** Only another buffer's memory is shared, never this one's. */
    lemma OwnBuf(b: FrameBuffer)
      requires OneRing() && Member(b)
      ensures forall i: nat {:trigger ring[i]} :: i < |ring| && ring[i] != b ==> ring[i].buf != b.buf
      ensures b in ring && b.buf in Bufs() && b.buf.Length == frameSize + LOOKAHEAD
    {
      assert Linked(b.id);
      forall i: nat | i < |ring| && ring[i] != b
        ensures ring[i].buf != b.buf
      {
        assert Apart(i, b.id);
      }
    }

    method Release(b: FrameBuffer)
      requires Valid() && Member(b)
      modifies b
      ensures Valid() && Model() == old(Model()).(slots := old(Slots())[b.id := Free(old(b.Slot()))])
    {
      OwnBuf(b);
      b.Empty();
      OneSlot(b);
    }

    method WipeBuffer(b: FrameBuffer)
      requires Valid() && Member(b)
      modifies b, b.buf
      ensures Valid() && |old(b.Slot()).data| >= 4
      ensures Model() == old(Model()).(slots := old(Slots())[b.id := Wiped(old(b.Slot()))])
    {
      OwnBuf(b);
      b.Wipe();
      OneSlot(b);
    }

    /** signal_dma_buf_received when the queue to the filter task is full. */
    method MarkBad()
      requires Valid()
      modifies this, ring
      ensures Valid() && Model() == MarkStep(old(Model()))
    {
      hide OneRing, Slots;
      ModelShape();
      OwnBuf(fb);
      if !fb.ref {
        fb.bad := true;
        OneSlot(fb);
      }
    }

    /** dma_filter_buffer for the sample bytes of one DMA buffer. */
    method FilterBuffer(samples: seq<byte>)
      requires Valid() && |samples| >= dmaSize / 4 && Shape(Cfg(), Model())
      modifies this, ring, Bufs()
      ensures Valid() && Model() == FilterStep(Cfg(), old(Model()), samples[..FilterLen(dmaSize)])
    {
      hide OneRing, Slots;
      ModelShape();
      OwnBuf(fb);
      if fb.ref || fb.bad {
        return;
      }
      var pos := filtered * bufLen;
      if pos > frameSize - bufLen {
        return;
      }
      DmaFilterJpeg(samples, dmaSize, fb.buf, pos);
      if filtered == 0 {
        if !(fb.buf[0] == 0xFF && fb.buf[1] == 0xD8 && fb.buf[2] == 0xFF) {
          fb.bad := true;
          OneSlot(fb);
          return;
        }
        fb.jpeg := true;
      }
      filtered := filtered + 1;
      OneSlot(fb);
    }

    /** The first part of camera_fb_done. snatched: a client takes the queued frame between the check
        that the queue is full and the attempt to displace that frame. */
    method PublishFrame(snatched: bool)
      requires Valid() && Shape(Cfg(), Model()) && |fbOut| <= 1
      modifies this, ring
      ensures Valid() && ring == old(ring) && Model() == Publish(Cfg(), old(Model()), snatched)
    {
      hide OneRing, Slots;
      ModelShape();
      OwnBuf(fb);
      if fb.ref || fb.len == 0 {
        return;
      }
      fb.ref := true;
      frames := frames[fb.id := fb.buf[..fb.len]];
      newest := Some(fb.buf[..fb.len]);
      OneSlot(fb);
      Enqueue(snatched);
    }

    /** The current buffer enters the queue of finished frames. */
    method Enqueue(snatched: bool)
      requires Valid() && |fbOut| <= 1
      modifies this`fbOut, this`held, this`lost, ring
      ensures Valid() && Model() == EnqueueStep(old(Model()), snatched)
    {
      hide OneRing, Slots;
      if |fbOut| == 0 {
        fbOut := fbOut + [fb];
        assert Ids(fbOut) == [fb.id];
        NoSlot();
        return;
      }
      var fb2 := fbOut[0];
      assert Ids(fbOut) == [fb2.id] && Ids(fbOut[1..]) == [];
      if snatched {
        held := held + {fbOut[0].id};
        fbOut := fbOut[1..];
      }
      if |fbOut| > 0 {
        fbOut := fbOut[1..];
        NoSlot();
        LinkOf(fb2);
        Release(fb2);
        label Freed:
        fbOut := fbOut + [fb];
        NoSlot@Freed();
      } else {
        lost := lost + {fb.id};
        NoSlot();
      }
      assert Ids(fbOut) == if snatched then [] else [fb.id];
    }

    /** Takes every returned buffer from the queue. */
    method DrainReturned()
      requires Valid() && Shape(Cfg(), Model())
      modifies this, ring
      ensures Valid() && ring == old(ring) && Model() == Drained(old(Model()))
    {
      hide Drained, DrainOne, OneRing, Slots;
      ModelShape();
      DrainEmpties(Model());
      while |fbIn| > 0
        invariant Valid() && ring == old(ring)
        invariant (forall k :: 0 <= k < |Ids(fbIn)| ==> Ids(fbIn)[k] < |ring|) && |Slots()| == |ring|
        invariant DrainAll(Model()) == DrainAll(old(Model()))
        decreases |fbIn|
      {
        DrainFirst();
      }
      DrainEmpties(Model());
    }

    method DrainFirst()
      requires Valid() && |fbIn| > 0
      modifies this`fbIn, ring
      ensures Valid() && |fbIn| + 1 == |old(fbIn)| && old(Ids(fbIn))[0] < |ring|
      ensures Model() == DrainOne(old(Model()))
    {
      hide OneRing, Slots;
      var fb2 := fbIn[0];
      assert Ids(fbIn[1..]) == Ids(fbIn)[1..];
      LinkOf(fb2);
      label Before:
      fbIn := fbIn[1..];
      NoSlot@Before();
      Release(fb2);
    }

    /** The last part of camera_fb_done: the next free buffer becomes current. */
    method NextFree()
      requires Valid() && Shape(Cfg(), Model())
      modifies this, ring, Bufs()
      ensures Valid() && ring == old(ring) && Model() == Advance(old(Model()))
    {
      hide Search, Wiped, OneRing, Slots;
      ModelShape();
      LinkOf(fb);
      var start := fb;
      if fb.len > 0 {
        fb := fb.next;
      }
      FindFree(start);
      LinkOf(fb);
      if !fb.ref {
        WipeBuffer(fb);
      } else {
        fb := start;
      }
    }

    /** Walks on to a free buffer, or to the last one before start. */
    method FindFree(start: FrameBuffer)
      requires Valid() && Member(start)
      modifies this`fb
      ensures Valid() && fb.id == Search(Slots(), old(fb.id), start.id)
    {
      hide Search, OneRing, Slots, Distance, After;
      ghost var slots := Slots();
      LinkOf(fb);
      while fb.ref && fb.next != start
        invariant Valid() && slots == Slots()
        invariant fb.next != null && Member(fb.next) && fb.next.id == After(|ring|, fb.id) && slots[fb.id] == fb.Slot()
        invariant Search(slots, fb.id, start.id) == Search(slots, old(fb.id), start.id)
        decreases Measure(|ring|, fb.id, start.id)
      {
        SearchOn(slots, fb.id, start.id);
        label Before:
        OnlyOne(fb.next, start);
        fb := fb.next;
        NoSlot@Before();
        LinkOf(fb);
      }
      OnlyOne(fb.next, start);
      SearchOn(slots, fb.id, start.id);
    }

    /** camera_fb_done with more than one buffer. */
    method FbDone(snatched: bool)
      requires Valid() && Ended(Cfg(), Model())
      modifies this, ring, Bufs()
      ensures Valid() && ring == old(ring) && Model() == DoneStep(Cfg(), old(Model()), snatched)
    {
      hide OneRing, Slots, Places, Frames, Publish, Drained, Advance;
      PublishKeeps(Cfg(), Model(), snatched);
      OneQueued(Model());
      PublishFrame(snatched);
      DrainedKeeps(Cfg(), Model());
      DrainReturned();
      NextFree();
    }

    method DiscardFrame()
      requires Valid()
      modifies ring, Bufs()
      ensures Valid() && |old(fb.Slot()).data| >= 4
      ensures Model() == old(Model()).(slots := old(Slots())[fb.id := Wiped(old(fb.Slot())).(bad := false)])
    {
      hide OneRing, Slots;
      OwnBuf(fb);
      fb.bad := false;
      OneSlot(fb);
      WipeBuffer(fb);
    }

    /** Gives the current frame its length. */
    method MeasureFrame()
      requires Valid() && Shape(Cfg(), Model()) && filtered * bufLen <= frameSize && !fb.ref
      modifies ring
      ensures Valid() && Model() == Measured(Cfg(), old(Model()))
    {
      hide OneRing, Slots, TrimmedLen;
      ModelShape();
      OwnBuf(fb);
      fb.len := filtered * bufLen;
      if fb.len > 0 && fb.jpeg {
        fb.len := Trim(fb.buf, fb.len);
      }
      OneSlot(fb);
    }

    /** The frame of a good buffer is given its length and, unless empty, done. */
    method EndFrame(snatched: bool)
      requires Valid() && Shape(Cfg(), Model()) && filtered * bufLen <= frameSize && !fb.ref
      requires var t := Measured(Cfg(), Model()); t.cur < |t.slots| && (t.slots[t.cur].len > 0 ==> Ended(Cfg(), t))
      modifies this, ring, Bufs()
      ensures Valid() && ring == old(ring)
      ensures var t := Measured(Cfg(), old(Model()));
        Model() == if t.slots[t.cur].len > 0 then DoneStep(Cfg(), t, snatched) else t
    {
      hide OneRing, Slots, Ended, DoneStep, Measured;
      MeasureFrame();
      LinkOf(fb);
      if fb.len > 0 {
        FbDone(snatched);
      }
    }

    /** dma_finish_frame. */
    method FinishFrame(snatched: bool)
      requires Valid() && Inv(Cfg(), Model())
      modifies this, ring, Bufs()
      ensures Valid() && ring == old(ring) && Model() == FinishStep(Cfg(), old(Model()), snatched)
      ensures Inv(Cfg(), Model())
    {
      hide OneRing, Slots, Inv, Ended, Shape, DoneStep, Measured, Wiped, FinishStep, Search, Places, Frames, Filling;
      FinishKeeps(Cfg(), Model(), snatched);
      FinishCases(Cfg(), Model(), snatched);
      ModelShape();
      LinkOf(fb);
      if !fb.ref {
        if fb.bad {
          DiscardFrame();
        } else {
          EndFrame(snatched);
        }
      } else if fb.len > 0 {
        FbDone(snatched);
      }
      label Done:
      filtered := 0;
      NoSlot@Done();
    }

    /** One walk of i2s_run's wait for a free buffer, which is repeated until it finds one. */
    method SeekFree(start: FrameBuffer) returns (found: bool)
      requires Valid() && Inv(Cfg(), Model()) && Member(start)
      modifies this`fb
      ensures Valid() && Model() == SeekStep(old(Model()), start.id) && Inv(Cfg(), Model())
      ensures found <==> exists i :: 0 <= i < |ring| && !ring[i].ref
    {
      hide OneRing, Slots, Inv, Search, Places, Frames;
      ModelShape();
      SeekKeeps(Cfg(), Model(), start.id);
      label Before:
      FindFree(start);
      NoSlot@Before();
      LinkOf(fb);
      found := !fb.ref;
      FreeOrNone();
    }

    lemma FreeOrNone()
      requires Valid() && Inv(Cfg(), Model())
      ensures !fb.ref <==> exists i :: 0 <= i < |ring| && !ring[i].ref
    {
      assert Slots()[fb.id] == fb.Slot();
      forall i | 0 <= i < |ring|
        ensures fb.ref ==> ring[i].ref
      {
        assert Slots()[i] == ring[i].Slot();
      }
      assert !fb.ref ==> !ring[fb.id].ref;
    }

    /** esp_camera_fb_get; null when the camera did not start (synced is false), or no frame came in time. */
    method FbGet(synced: bool) returns (r: FrameBuffer?)
      requires Valid() && Inv(Cfg(), Model())
      modifies this
      ensures Valid() && ring == old(ring) && Inv(Cfg(), Model())
      ensures Model() == if synced then GetStep(old(Model())).0 else old(Model())
      ensures (if r == null then None else Some(r.id)) == if synced then GetStep(old(Model())).1 else None
      ensures r != null ==> Member(r) && r.len <= r.buf.Length && newest == Some(r.buf[..r.len])
    {
      hide OneRing, Slots, Inv;
      if !synced {
        return null;
      }
      GetKeeps(Cfg(), Model());
      if |fbOut| == 0 {
        return null;
      }
      GetNewest(Cfg(), Model());
      r := fbOut[0];
      LinkOf(r);
      OwnBuf(r);
      QueuedLen(Cfg(), Model(), r.id);
      assert Ids(fbOut)[0] == r.id && Ids(fbOut[1..]) == Ids(fbOut)[1..];
      held := held + {r.id};
      fbOut := fbOut[1..];
      NoSlot();
    }

    /** esp_camera_fb_return, once for every buffer got; the queue has room. */
    method FbReturn(b: FrameBuffer)
      requires Valid() && Inv(Cfg(), Model()) && Member(b) && b.id in held
      modifies this
      ensures |old(fbIn)| < |ring|
      ensures Valid() && ring == old(ring) && Model() == ReturnStep(old(Model()), b.id) && Inv(Cfg(), Model())
    {
      hide OneRing, Slots, Inv;
      ReturnHasRoom(Cfg(), Model(), b.id);
      ReturnKeeps(Cfg(), Model(), b.id);
      assert Ids(fbIn + [b]) == Ids(fbIn) + [b.id];
      held := held - {b.id};
      fbIn := fbIn + [b];
      NoSlot();
    }

    /** camera_init's sizes for JPEG; no buffers yet. */
    constructor (width: nat, height: nat, quality: int)
      requires width % 4 == 0 && width >= 16 && height >= 16
      ensures fb == null && Sized() && frameSize == FrameSize(width, height, quality)
      ensures FilterLen(dmaSize) == bufLen - bufLen % 4
      ensures exists perLine: nat :: 0 < perLine && bufLen == BufLen(width, perLine)
                && dmaSize * perLine <= 8 * width < (dmaSize + 1) * perLine
    {
      var bufSize, perLine := SplitLine(width);
      frameSize, bufLen, dmaSize := FrameSize(width, height, quality), BufLen(width, perLine), bufSize;
      fb, fbOut, fbIn, filtered := null, [], [], 0;
      ring, held, lost, frames, newest := [], {}, {}, map[], None;
      new;
      MulMono(16, height, width);
      assert width * height == height * width;
      FilterFits(width, height, quality, bufSize, perLine);
      FilterExactIff(width, bufSize, perLine);
    }

    /** camera_fb_init: the old ring is freed and a new one built. available: how many buffers can be
        allocated. freed: the buffers of the old ring; dropped: those given up when one is missing. */
    method FbInit(count: nat, available: nat)
      returns (ok: bool, freed: seq<FrameBuffer>, dropped: seq<FrameBuffer>)
      requires fb == null || Valid()
      requires fbOut == [] && fbIn == [] && filtered == 0 && held == {} && lost == {} && Sized()
      modifies this
      ensures ok == (0 < count <= available)
      ensures ok ==> Valid() && |ring| == count && fresh(ring) && Init(Cfg(), Model()) && dropped == []
      ensures count == 0 ==> fb == old(fb) && ring == old(ring) && freed == dropped == []
      ensures count > 0 ==> |freed| == if old(fb) == null then 0 else |old(ring)|
      ensures freed != [] ==> old(fb) != null && old(fb.id) < |old(ring)|
      ensures forall k: nat :: k < |freed| ==> freed[k] == old(ring)[Around(|old(ring)|, old(fb.id), k)]
      ensures !ok && count > 0 ==> fb == null && |dropped| == available && fresh(dropped)
      ensures !ok ==> forall k: nat :: k < |dropped| ==> dropped[k].id + available == count + k
    {
      freed, dropped := [], [];
      if count == 0 {
        return false, freed, dropped;
      }
      freed := FbDeinit();
      ok, dropped := BuildRing(count, available);
    }

    /** The second part of camera_fb_init. */
    method BuildRing(count: nat, available: nat) returns (ok: bool, dropped: seq<FrameBuffer>)
      requires fb == null && count > 0
      requires fbOut == [] && fbIn == [] && filtered == 0 && held == {} && lost == {} && Sized()
      modifies this
      ensures ok == (count <= available)
      ensures ok ==> Valid() && |ring| == count && fresh(ring) && Init(Cfg(), Model()) && dropped == []
      ensures !ok ==> fb == null && |dropped| == available && fresh(dropped)
      ensures !ok ==> forall k: nat :: k < |dropped| ==> dropped[k].id + available == count + k
    {
      hide Chain;
      var head: FrameBuffer? := null;
      var first: FrameBuffer? := null;
      ghost var bs: seq<FrameBuffer> := [];
      dropped := [];
      NoChain(frameSize, count);
      for i := 0 to count
        invariant unchanged(this) && |bs| == i <= available && fresh(bs) && Chain(bs, frameSize, count)
        invariant if i == 0 then head == null else head == bs[0] && first == bs[i - 1]
      {
        if i == available {
          dropped := FreeChain(head, bs, frameSize, count);
          return false, dropped;
        }
        var b := new FrameBuffer(frameSize, count - 1 - i);
        b.next := head;
        ChainPush(b, bs, frameSize, count);
        head := b;
        if i == 0 {
          first := b;
        }
        bs := [b] + bs;
      }
      CloseRing(first, head, bs, frameSize);
      fb := head;
      ring := bs;
      InitialModel(frameSize);
      ok := true;
    }

    lemma InitialModel(size: nat)
      requires RingOf(ring, size) && size == frameSize && ring != [] && fb == ring[0]
      requires fbOut == [] && fbIn == [] && filtered == 0 && held == {} && lost == {}
      requires Sized()
      ensures Valid() && Init(Cfg(), Model())
    {
      forall i: nat | i < |ring|
        ensures Linked(i) && Slots()[i] == ring[i].Slot() && Blank(ring[i])
      {
        assert RingAt(ring, size, i);
      }
      forall i: nat, j: nat | i < |ring| && j < |ring|
        ensures Apart(i, j)
      {
        assert OwnMemory(ring, i, j);
      }
    }

    /** camera_fb_deinit: every buffer of the ring is freed, once, from the current one on. */
    method FbDeinit() returns (freed: seq<FrameBuffer>)
      requires fb == null || Valid()
      modifies this`fb
      ensures fb == null && |freed| == if old(fb) == null then 0 else |ring|
      ensures freed != [] ==> old(fb) != null && old(fb.id) < |ring|
      ensures forall k: nat :: k < |freed| ==> freed[k] == ring[Around(|ring|, old(fb.id), k)]
    {
      hide OneRing, Slots;
      freed := [];
      if fb == null {
        return;
      }
      var fb1 := fb;
      ghost var n := |ring|;
      while fb != null
        invariant fb != null ==> |freed| < n && Member(fb) && fb.id == Around(n, fb1.id, |freed|)
        invariant fb == null ==> |freed| == n
        invariant forall k: nat :: k < |freed| ==> k < n && freed[k] == ring[Around(n, fb1.id, k)]
        decreases if fb == null then 0 else n - |freed|
      {
        var fb2 := fb;
        LinkOf(fb2);
        OnlyOne(fb2.next, fb1);
        fb := fb2.next;
        if fb2.next == fb1 {
          fb := null;
        }
        freed := freed + [fb2];
      }
    }
  }

  /** The k-th buffer from i along the ring of n. */
  function Around(n: nat, i: nat, k: nat): (r: nat)
    requires i < n && k < n
    ensures r < n
    ensures After(n, r) == i <==> k == n - 1
    ensures k + 1 < n ==> After(n, r) == if i + k + 1 < n then i + k + 1 else i + k + 1 - n
  {
    if i + k < n then i + k else i + k - n
  }

  /** Going once around the ring meets every buffer exactly once. */
  lemma AroundOnce(n: nat, i: nat, j: nat)
    requires i < n && j < n
    ensures exists k: nat :: k < n && Around(n, i, k) == j && forall m: nat :: m < n && Around(n, i, m) == j ==> m == k
  {
    var k: nat := if i <= j then j - i else n + j - i;
    assert Around(n, i, k) == j;
  }

  lemma OneQueued(s: State)
    requires Places(s)
    ensures |s.out| <= 1
  {
  }

  lemma QueuedLen(c: Config, s: State, i: nat)
    requires Inv(c, s) && i < |s.slots|
    ensures s.slots[i].len <= |s.slots[i].data|
  {
  }

  lemma FinishCases(c: Config, s: State, snatched: bool)
    requires Inv(c, s)
    ensures Shape(c, s) && s.filtered * c.bufLen <= c.frameSize && s.cur < |s.slots| && |s.slots[s.cur].data| >= 4
    ensures var slot := s.slots[s.cur]; !slot.ref && slot.bad ==>
      FinishStep(c, s, snatched) == s.(slots := s.slots[s.cur := Wiped(slot).(bad := false)], filtered := 0)
    ensures var slot := s.slots[s.cur]; slot.ref || !slot.bad ==>
      var t := Measured(c, s);
      && (slot.ref ==> t == s && slot.len > 0) && t.cur == s.cur && |t.slots| == |s.slots|
      && FinishStep(c, s, snatched) == (if t.slots[s.cur].len > 0 then DoneStep(c, t, snatched) else t).(filtered := 0)
      && (t.slots[s.cur].len > 0 ==> Ended(c, t))
  {
    hide DoneStep, Wiped, TrimmedLen, Places, Ended;
    assert FrameKept(s, s.cur);
    var slot := s.slots[s.cur];
    if (slot.ref || !slot.bad) && Measured(c, s).slots[s.cur].len > 0 {
      EndedKept(c, s);
    }
  }

  /** Frees the first returned buffer. */
  function DrainOne(s: State): State
    requires s.back != [] && s.back[0] < |s.slots|
  {
    s.(slots := s.slots[s.back[0] := Free(s.slots[s.back[0]])], back := s.back[1..])
  }

  function DrainAll(s: State): State
    requires forall k :: 0 <= k < |s.back| ==> s.back[k] < |s.slots|
    decreases |s.back|
  {
    if s.back == [] then s else DrainAll(DrainOne(s))
  }

  /** Freeing the returned buffers one by one frees them all. */
  lemma {:induction false} DrainEmpties(s: State)
    requires forall k :: 0 <= k < |s.back| ==> s.back[k] < |s.slots|
    ensures DrainAll(s) == Drained(s)
    decreases |s.back|
  {
    if s.back != [] {
      DrainEmpties(DrainOne(s));
    }
    assert Drained(s).slots == if s.back == [] then s.slots else Drained(DrainOne(s)).slots;
  }

  function Measure(n: nat, i: nat, stop: nat): nat
    requires i < n && stop < n
  {
    if i == stop then n else Distance(n, i, stop)
  }

  lemma SearchOn(slots: seq<Slot>, i: nat, stop: nat)
    requires i < |slots| && stop < |slots|
    ensures Search(slots, i, stop) ==
      if slots[i].ref && After(|slots|, i) != stop then Search(slots, After(|slots|, i), stop) else i
    ensures After(|slots|, i) != stop ==> Measure(|slots|, After(|slots|, i), stop) < Measure(|slots|, i, stop)
  {
  }
}
