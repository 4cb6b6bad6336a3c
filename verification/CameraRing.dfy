/** The ring of frame buffers and who holds each of them, as values: the steps of the filter task and
    of the clients, and what they keep (camera.c, more than one frame buffer).

    Buffers are numbered along the ring. A buffer is in the queue of finished frames, held by a
    client, in the queue of returned buffers, or free to be filled; lost is where a buffer ends up
    when a client takes the queued frame just before the filter task was to displace it. */
module CameraRing {
  import opened Bits
  import opened CameraFrame
  import opened Wrappers

  datatype Config = Config(frameSize: nat, bufLen: nat)

  /** The frame buffer's fields; data is its memory and the bytes behind it. */
  datatype Slot = Slot(data: seq<byte>, len: nat, ref: bool, bad: bool, jpeg: bool)

  /** frames and newest are history: the bytes of each buffer's last finished frame, and of the last
      frame finished. */
  datatype State = State(
    slots: seq<Slot>, cur: nat, out: seq<nat>, back: seq<nat>, held: set<nat>, lost: set<nat>, filtered: nat,
    frames: map<nat, seq<byte>>, newest: Option<seq<byte>>)

  predicate Shape(c: Config, s: State) {
    && s.cur < |s.slots| && c.bufLen <= c.frameSize && 4 <= c.frameSize
    && (forall k :: 0 <= k < |s.out| ==> s.out[k] < |s.slots|)
    && (forall i :: 0 <= i < |s.slots| ==>
          |s.slots[i].data| == c.frameSize + LOOKAHEAD && s.slots[i].len <= |s.slots[i].data|)
  }

  // ----- filling

  function Overwrite(data: seq<byte>, at: nat, payload: seq<byte>): (r: seq<byte>)
    requires at + |payload| <= |data|
    ensures |r| == |data|
  {
    data[..at] + payload + data[at + |payload|..]
  }

  predicate JpegHeader(data: seq<byte>) {
    |data| >= 3 && data[0] == 0xFF && data[1] == 0xD8 && data[2] == 0xFF
  }

  /** dma_filter_buffer: payload is what the filter writes. */
  function FilterStep(c: Config, s: State, payload: seq<byte>): State
    requires Shape(c, s) && |payload| <= c.bufLen
  {
    var slot, pos := s.slots[s.cur], s.filtered * c.bufLen;
    if slot.ref || slot.bad || pos > c.frameSize - c.bufLen then s
    else
      var slot := slot.(data := Overwrite(slot.data, pos, payload));
      if s.filtered == 0 && !JpegHeader(slot.data) then s.(slots := s.slots[s.cur := slot.(bad := true)])
      else
        var slot := if s.filtered == 0 then slot.(jpeg := true) else slot;
        s.(slots := s.slots[s.cur := slot], filtered := s.filtered + 1)
  }

  /** signal_dma_buf_received finds its queue full: the frame has a gap. */
  function MarkStep(s: State): State
    requires s.cur < |s.slots|
  {
    if s.slots[s.cur].ref then s else s.(slots := s.slots[s.cur := s.slots[s.cur].(bad := true)])
  }

  // ----- a finished frame

  function Free(slot: Slot): Slot {
    slot.(ref := false, len := 0)
  }

  /** Empty, with the header overwritten. */
  function Wiped(slot: Slot): (r: Slot)
    requires |slot.data| >= 4
    ensures |r.data| == |slot.data|
  {
    slot.(len := 0, data := Overwrite(slot.data, 0, [0, 0, 0, 0]))
  }

  /** The current buffer enters the queue of finished frames, displacing the one there; unless a client
      snatches that one first. */
  function EnqueueStep(s: State, snatched: bool): State
    requires s.cur < |s.slots| && forall k :: 0 <= k < |s.out| ==> s.out[k] < |s.slots|
  {
    if s.out == [] then s.(out := [s.cur])
    else
      var shown := s.out[0];
      if snatched then s.(out := s.out[1..], held := s.held + {shown}, lost := s.lost + {s.cur})
      else s.(slots := s.slots[shown := Free(s.slots[shown])], out := s.out[1..] + [s.cur])
  }

  /** The current buffer's frame, if it has one, is finished. */
  function Publish(c: Config, s: State, snatched: bool): (t: State)
    requires Shape(c, s)
    ensures Shape(c, t)
  {
    var slot := s.slots[s.cur];
    if slot.ref || slot.len == 0 then s
    else
      var frame := slot.data[..slot.len];
      var t := s.(slots := s.slots[s.cur := slot.(ref := true)], frames := s.frames[s.cur := frame],
                  newest := Some(frame));
      EnqueueStep(t, snatched)
  }

  /** Every returned buffer is free again. */
  function Drained(s: State): State {
    s.(slots := seq(|s.slots|, i requires 0 <= i < |s.slots| => if i in s.back then Free(s.slots[i]) else s.slots[i]),
       back := [])
  }

  function After(n: nat, i: nat): (r: nat)
    requires i < n
    ensures r < n
  {
    if i + 1 == n then 0 else i + 1
  }

  /** Steps from i along the ring of n to the buffer stop. */
  function Distance(n: nat, i: nat, stop: nat): (d: nat)
    requires i < n && stop < n
    ensures d < n && (d == 0 <==> i == stop)
    ensures i != stop ==> (After(n, i) == stop <==> d == 1)
  {
    if i <= stop then stop - i else n + stop - i
  }

  /** The first buffer from i on that is not referenced, or the last one before stop. */
  function Search(slots: seq<Slot>, i: nat, stop: nat): (k: nat)
    requires i < |slots| && stop < |slots|
    ensures k < |slots|
    decreases if i == stop then |slots| else Distance(|slots|, i, stop)
  {
    if slots[i].ref && After(|slots|, i) != stop then Search(slots, After(|slots|, i), stop) else i
  }

  function Advance(s: State): State
    requires s.cur < |s.slots| && forall i :: 0 <= i < |s.slots| ==> |s.slots[i].data| >= 4
  {
    var start := if s.slots[s.cur].len > 0 then After(|s.slots|, s.cur) else s.cur;
    var k := Search(s.slots, start, s.cur);
    if s.slots[k].ref then s else s.(cur := k, slots := s.slots[k := Wiped(s.slots[k])])
  }

  /** camera_fb_done. */
  function DoneStep(c: Config, s: State, snatched: bool): State
    requires Shape(c, s)
  {
    Advance(Drained(Publish(c, s, snatched)))
  }

  /** The current buffer is given the length of its frame. */
  function Measured(c: Config, s: State): State
    requires Shape(c, s) && s.filtered * c.bufLen <= c.frameSize
  {
    var slot := s.slots[s.cur];
    if slot.ref then s
    else
      var len := s.filtered * c.bufLen;
      s.(slots := s.slots[s.cur := slot.(len := if len > 0 && slot.jpeg then TrimmedLen(slot.data, len) else len)])
  }

  /** dma_finish_frame. */
  function FinishStep(c: Config, s: State, snatched: bool): State
    requires Shape(c, s)
    requires s.filtered * c.bufLen <= c.frameSize
  {
    var slot := s.slots[s.cur];
    var t :=
      if !slot.ref && slot.bad then s.(slots := s.slots[s.cur := Wiped(slot).(bad := false)])
      else
        var t := Measured(c, s);
        if t.slots[s.cur].len > 0 then DoneStep(c, t, snatched) else t;
    t.(filtered := 0)
  }

  // ----- clients

  /** One walk of i2s_run, which a client starts when the camera is not running: past referenced
      buffers, as far as the one before stop. */
  function SeekStep(s: State, stop: nat): State
    requires s.cur < |s.slots| && stop < |s.slots|
  {
    s.(cur := Search(s.slots, s.cur, stop))
  }

  /** esp_camera_fb_get; nothing when it times out. */
  function GetStep(s: State): (State, Option<nat>) {
    if s.out == [] then (s, None)
    else (s.(out := s.out[1..], held := s.held + {s.out[0]}), Some(s.out[0]))
  }

  /** esp_camera_fb_return of a buffer the client holds. */
  function ReturnStep(s: State, i: nat): State
    requires i in s.held
  {
    s.(held := s.held - {i}, back := s.back + [i])
  }

  // ----- the invariant

  ghost predicate Distinct(s: seq<nat>) {
    forall i, j :: 0 <= i < j < |s| ==> s[i] != s[j]
  }

  predicate Owned(s: State, i: nat) {
    i in s.out || i in s.held || i in s.back || i in s.lost
  }

  /** In at most one place. */
  predicate OnePlace(s: State, i: nat) {
    && !(i in s.out && i in s.held) && !(i in s.out && i in s.back) && !(i in s.out && i in s.lost)
    && !(i in s.held && i in s.back) && !(i in s.held && i in s.lost) && !(i in s.back && i in s.lost)
  }

  /** Referenced exactly while owned. */
  ghost predicate Places(s: State) {
    && |s.out| <= 1 && Distinct(s.back)
    && (forall i: nat :: OnePlace(s, i))
    && (forall i: nat :: Owned(s, i) <==> i < |s.slots| && s.slots[i].ref)
  }

  /** A referenced buffer has data, and its bytes are those of the frame it was filled with. */
  ghost predicate FrameKept(s: State, i: nat)
    requires i < |s.slots| && s.slots[i].len <= |s.slots[i].data|
  {
    var slot := s.slots[i];
    && (slot.ref ==> 0 < slot.len && i in s.frames && slot.data[..slot.len] == s.frames[i])
    && (!slot.ref && i != s.cur ==> slot.len == 0)
    && (slot.bad ==> i == s.cur && !slot.ref)
  }

  ghost predicate Frames(c: Config, s: State)
    requires Shape(c, s)
  {
    forall i :: 0 <= i < |s.slots| ==> FrameKept(s, i)
  }

  ghost predicate Filling(c: Config, s: State)
    requires Shape(c, s)
  {
    && s.filtered * c.bufLen <= c.frameSize
    && (s.filtered > 0 ==> s.slots[s.cur].jpeg)
    && (s.slots[s.cur].ref ==> s.filtered == 0)
  }

  ghost predicate Inv(c: Config, s: State) {
    && Shape(c, s) && Places(s) && Frames(c, s) && Filling(c, s)
    && (s.slots[s.cur].len == 0 || s.slots[s.cur].ref)
    && (s.slots[s.cur].ref ==> forall i :: 0 <= i < |s.slots| ==> s.slots[i].ref)
    && (s.out != [] ==> s.out[0] in s.frames && s.newest == Some(s.frames[s.out[0]]))
  }

  // ----- filling keeps it

  lemma FilterKeeps(c: Config, s: State, payload: seq<byte>)
    requires Inv(c, s) && |payload| <= c.bufLen
    ensures Inv(c, FilterStep(c, s, payload))
  {
    hide Overwrite, JpegHeader;
    var t := FilterStep(c, s, payload);
    assert (s.filtered + 1) * c.bufLen == s.filtered * c.bufLen + c.bufLen;
    assert forall i :: 0 <= i < |s.slots| && i != s.cur ==> t.slots[i] == s.slots[i];
    assert t.slots[s.cur].ref == s.slots[s.cur].ref;
    assert forall i: nat :: OnePlace(s, i) ==> OnePlace(t, i);
    assert forall i: nat :: Owned(s, i) <==> Owned(t, i);
    assert forall i :: 0 <= i < |s.slots| && FrameKept(s, i) ==> FrameKept(t, i);
  }

  lemma MarkKeeps(c: Config, s: State, i: nat)
    requires Inv(c, s)
    ensures Inv(c, MarkStep(s)) && FrameStays(s, MarkStep(s), i)
  {
    var t := MarkStep(s);
    assert forall i: nat :: OnePlace(s, i) ==> OnePlace(t, i);
    assert forall i: nat :: Owned(s, i) <==> Owned(t, i);
    assert forall i :: 0 <= i < |s.slots| && FrameKept(s, i) ==> FrameKept(t, i);
  }

  /** A write of the filter stays inside the frame buffer, and leaves the bytes before it alone. */
  lemma FilterStays(c: Config, s: State, payload: seq<byte>, k: nat)
    requires Inv(c, s) && |payload| <= c.bufLen && k < c.frameSize + LOOKAHEAD
    ensures Shape(c, FilterStep(c, s, payload))
    ensures var d, e := s.slots[s.cur].data, FilterStep(c, s, payload).slots[s.cur].data;
      d[k] != e[k] ==> s.filtered * c.bufLen <= k < s.filtered * c.bufLen + |payload| <= c.frameSize
  {
    hide Frames, Places, JpegHeader;
  }

  // ----- finishing a frame

  /** Holds between publishing a frame and finding the next free buffer. */
  ghost predicate Between(c: Config, s: State) {
    && Shape(c, s) && Places(s) && Frames(c, s)
    && !s.slots[s.cur].bad && (s.slots[s.cur].ref <==> s.slots[s.cur].len > 0)
    && (s.out != [] ==> s.out[0] in s.frames && s.newest == Some(s.frames[s.out[0]]))
  }

  /** The current buffer has just been given its length. */
  ghost predicate Ended(c: Config, s: State) {
    && Shape(c, s) && Places(s) && Frames(c, s)
    && !s.slots[s.cur].bad && s.slots[s.cur].len > 0
    && (s.out != [] ==> s.out[0] in s.frames && s.newest == Some(s.frames[s.out[0]]))
  }

  lemma PublishKeeps(c: Config, s: State, snatched: bool)
    requires Ended(c, s)
    ensures Between(c, Publish(c, s, snatched)) && Publish(c, s, snatched).cur == s.cur
    ensures |Publish(c, s, snatched).slots| == |s.slots|
  {
    hide Distinct, Places, Frames;
    PublishPlaces(c, s, snatched);
    PublishFrames(c, s, snatched);
  }

  lemma PublishPlaces(c: Config, s: State, snatched: bool)
    requires Ended(c, s)
    ensures Places(Publish(c, s, snatched))
  {
    hide Frames;
    var t := Publish(c, s, snatched);
    if !s.slots[s.cur].ref {
      assert !Owned(s, s.cur);
      assert s.out != [] ==> s.out == [s.out[0]] && t.out == if snatched then [] else [s.cur];
      assert s.out == [] ==> t.out == [s.cur];
      forall i: nat
        ensures OnePlace(t, i) && (Owned(t, i) <==> i < |t.slots| && t.slots[i].ref)
      {
        assert OnePlace(s, i) && (Owned(s, i) <==> i < |s.slots| && s.slots[i].ref);
      }
    }
  }

  lemma PublishFrames(c: Config, s: State, snatched: bool)
    requires Ended(c, s)
    ensures Frames(c, Publish(c, s, snatched))
    ensures Publish(c, s, snatched).out != [] ==>
      var t := Publish(c, s, snatched); t.out[0] in t.frames && t.newest == Some(t.frames[t.out[0]])
  {
    hide Distinct;
    var t := Publish(c, s, snatched);
    if !s.slots[s.cur].ref {
      assert !Owned(s, s.cur);
      if s.out != [] {
        assert Owned(s, s.out[0]) && s.out == [s.out[0]];
      }
      forall i | 0 <= i < |s.slots|
        ensures FrameKept(t, i)
      {
        assert FrameKept(s, i);
      }
    }
  }

  lemma DrainedKeeps(c: Config, s: State)
    requires Between(c, s)
    ensures Between(c, Drained(s)) && Drained(s).back == [] && |Drained(s).slots| == |s.slots|
  {
    hide Places, Frames;
    var t := Drained(s);
    assert forall i :: 0 <= i < |s.slots| ==> t.slots[i] == if i in s.back then Free(s.slots[i]) else s.slots[i];
    DrainedPlaces(s);
    assert Frames(c, t) && (s.out != [] ==> s.out[0] !in s.back) by {
      DrainedFrames(c, s);
    }
  }

  lemma DrainedPlaces(s: State)
    requires Places(s)
    ensures Places(Drained(s))
  {
    var t := Drained(s);
    forall i: nat
      ensures OnePlace(t, i) && (Owned(t, i) <==> Owned(s, i) && i !in s.back)
    {
      assert OnePlace(s, i);
    }
    assert forall i :: 0 <= i < |s.slots| ==> t.slots[i] == if i in s.back then Free(s.slots[i]) else s.slots[i];
  }

  lemma DrainedFrames(c: Config, s: State)
    requires Shape(c, s) && Places(s) && Frames(c, s)
    ensures Shape(c, Drained(s)) && Frames(c, Drained(s))
    ensures s.out != [] ==> s.out[0] !in s.back
  {
    hide OnePlace, Owned, Distinct;
    var t := Drained(s);
    assert forall i :: 0 <= i < |s.slots| ==> t.slots[i] == if i in s.back then Free(s.slots[i]) else s.slots[i];
    forall i | 0 <= i < |s.slots|
      ensures FrameKept(t, i)
    {
      assert FrameKept(s, i);
    }
    if s.out != [] {
      OneFrom(s, s.out[0]);
    }
  }

  lemma OneFrom(s: State, i: nat)
    requires Places(s)
    ensures !(i in s.out && i in s.back)
  {
    assert OnePlace(s, i);
  }

  /** The search passes only referenced buffers, and stops at one that is not or before stop. */
  lemma {:induction false} SearchFinds(slots: seq<Slot>, i: nat, stop: nat)
    requires i < |slots| && stop < |slots|
    ensures var k := Search(slots, i, stop); slots[k].ref ==> After(|slots|, k) == stop
    ensures forall j: nat :: j < |slots| && Passed(|slots|, i, j, Search(slots, i, stop)) ==> slots[j].ref
    decreases if i == stop then |slots| else Distance(|slots|, i, stop)
  {
    if slots[i].ref && After(|slots|, i) != stop {
      SearchFinds(slots, After(|slots|, i), stop);
    }
  }

  /** Walking from i to k along the ring passes j before reaching k. */
  predicate Passed(n: nat, i: nat, j: nat, k: nat)
    requires i < n && j < n && k < n
  {
    j != k && Distance(n, i, j) < Distance(n, i, k)
  }

  predicate Referenced(s: State, i: nat) {
    i < |s.slots| && s.slots[i].ref
  }

  /** Where the search for the next buffer starts. */
  function Start(s: State): (i: nat)
    requires s.cur < |s.slots|
    ensures i < |s.slots|
  {
    if s.slots[s.cur].len > 0 then After(|s.slots|, s.cur) else s.cur
  }

  /** The next buffer to fill is the first free one along the ring; if none is free, the current
      buffer stays. */
  lemma AdvanceFirstFree(c: Config, s: State, j: nat)
    requires Between(c, s) && j < |s.slots|
    ensures Advance(s).cur < |s.slots|
    ensures var k := Advance(s).cur; Referenced(s, k) ==> k == s.cur && Referenced(s, j)
    ensures var k := Advance(s).cur; !Referenced(s, k) && !Referenced(s, j) ==>
      Distance(|s.slots|, Start(s), k) <= Distance(|s.slots|, Start(s), j)
  {
    hide Places, Frames, Search, OnePlace, Owned;
    SearchFinds(s.slots, Start(s), s.cur);
    var k := Search(s.slots, Start(s), s.cur);
    assert s.slots[k].ref ==> After(|s.slots|, k) == s.cur;
    if s.slots[k].ref && !s.slots[j].ref {
      assert Start(s) == After(|s.slots|, s.cur) by {
        if s.slots[s.cur].len == 0 {
          SearchHere(s.slots, s.cur, s.cur);
        }
      }
      assert !Passed(|s.slots|, Start(s), j, k);
      LastPlace(|s.slots|, s.cur, k, j);
    }
    if !s.slots[k].ref && !s.slots[j].ref {
      assert j == k || !Passed(|s.slots|, Start(s), j, k);
    }
  }

  lemma SearchHere(slots: seq<Slot>, i: nat, stop: nat)
    requires i < |slots| && stop < |slots| && !slots[i].ref
    ensures Search(slots, i, stop) == i
  {
  }

  lemma LastPlace(n: nat, cur: nat, k: nat, j: nat)
    requires cur < n && k < n && j < n && After(n, k) == cur && j != cur && j != k
    ensures Distance(n, After(n, cur), j) < Distance(n, After(n, cur), k)
  {
  }

  /** After camera_fb_done. */
  ghost predicate Settled(c: Config, s: State) {
    && Shape(c, s) && Places(s) && Frames(c, s) && !s.slots[s.cur].bad
    && (s.slots[s.cur].len == 0 || s.slots[s.cur].ref)
    && (s.slots[s.cur].ref ==> forall i :: 0 <= i < |s.slots| ==> s.slots[i].ref)
    && (s.out != [] ==> s.out[0] in s.frames && s.newest == Some(s.frames[s.out[0]]))
  }

  lemma AdvanceKeeps(c: Config, s: State)
    requires Between(c, s)
    ensures Settled(c, Advance(s)) && |Advance(s).slots| == |s.slots| && Advance(s).back == s.back
  {
    hide Search, Start, Distinct;
    var t := Advance(s);
    assert t.slots[t.cur].ref ==> t == s;
    assert Shape(c, t);
    forall j | 0 <= j < |s.slots|
      ensures t.slots[t.cur].ref ==> s.slots[j].ref
    {
      AdvanceFirstFree(c, s, j);
    }
    assert forall i: nat :: OnePlace(s, i) ==> OnePlace(t, i);
    assert forall i: nat :: Owned(s, i) <==> Owned(t, i);
    forall i | 0 <= i < |s.slots|
      ensures FrameKept(t, i)
    {
      assert FrameKept(s, i);
    }
    assert FrameKept(s, t.cur);
  }

  /** dma_finish_frame keeps the ring in order; afterwards the current buffer is free and empty, or
      every buffer is referenced. */
  lemma FinishKeeps(c: Config, s: State, snatched: bool)
    requires Inv(c, s)
    ensures Inv(c, FinishStep(c, s, snatched))
    ensures |FinishStep(c, s, snatched).slots| == |s.slots| && FinishStep(c, s, snatched).filtered == 0
    ensures var t := FinishStep(c, s, snatched); !t.slots[t.cur].bad
  {
    hide Places, Frames, DoneStep, TrimmedLen;
    var slot := s.slots[s.cur];
    var ended := Measured(c, s);
    if slot.ref || (!slot.bad && ended.slots[s.cur].len > 0) {
      EndedKept(c, s);
      DoneKeeps(c, ended, snatched);
      Again(c, DoneStep(c, ended, snatched));
    } else {
      Discarded(c, s, snatched);
    }
  }

  lemma EndedKept(c: Config, s: State)
    requires Inv(c, s) && (s.slots[s.cur].ref || (!s.slots[s.cur].bad && Measured(c, s).slots[s.cur].len > 0))
    ensures Ended(c, Measured(c, s))
  {
    hide TrimmedLen, Distinct;
    var t := Measured(c, s);
    assert FrameKept(s, s.cur);
    assert forall i: nat :: OnePlace(s, i) ==> OnePlace(t, i);
    assert forall i: nat :: Owned(s, i) <==> Owned(t, i);
    assert forall i :: 0 <= i < |s.slots| && FrameKept(s, i) ==> FrameKept(t, i);
  }

  lemma DoneKeeps(c: Config, s: State, snatched: bool)
    requires Ended(c, s)
    ensures Settled(c, DoneStep(c, s, snatched)) && |DoneStep(c, s, snatched).slots| == |s.slots|
    ensures DoneStep(c, s, snatched).back == []
  {
    hide Places, Frames, Settled, Publish, Advance, Drained;
    PublishKeeps(c, s, snatched);
    DrainedKeeps(c, Publish(c, s, snatched));
    AdvanceKeeps(c, Drained(Publish(c, s, snatched)));
  }

  lemma Again(c: Config, s: State)
    requires Settled(c, s)
    ensures Inv(c, s.(filtered := 0))
  {
    var t := s.(filtered := 0);
    assert forall i: nat :: OnePlace(s, i) ==> OnePlace(t, i);
    assert forall i: nat :: Owned(s, i) <==> Owned(t, i);
    assert forall i :: 0 <= i < |s.slots| && FrameKept(s, i) ==> FrameKept(t, i);
  }

  lemma Discarded(c: Config, s: State, snatched: bool)
    requires Inv(c, s) && !s.slots[s.cur].ref && (s.slots[s.cur].bad || Measured(c, s).slots[s.cur].len == 0)
    ensures Inv(c, FinishStep(c, s, snatched)) && |FinishStep(c, s, snatched).slots| == |s.slots|
    ensures var t := FinishStep(c, s, snatched); !t.slots[t.cur].bad
  {
    hide DoneStep, TrimmedLen, Distinct;
    var t := FinishStep(c, s, snatched);
    assert forall i: nat :: OnePlace(s, i) ==> OnePlace(t, i);
    assert forall i: nat :: Owned(s, i) <==> Owned(t, i);
    assert forall i :: 0 <= i < |s.slots| && FrameKept(s, i) ==> FrameKept(t, i);
  }

  // ----- clients keep it

  /** The walk leaves a free buffer alone; otherwise all buffers are referenced, and it ends before stop. */
  lemma SeekKeeps(c: Config, s: State, stop: nat)
    requires Inv(c, s) && stop < |s.slots|
    ensures Inv(c, SeekStep(s, stop))
    ensures !s.slots[s.cur].ref ==> SeekStep(s, stop) == s
    ensures s.slots[s.cur].ref ==> After(|s.slots|, SeekStep(s, stop).cur) == stop
  {
    hide Search, Distinct;
    SearchFinds(s.slots, s.cur, stop);
    var t := SeekStep(s, stop);
    if !s.slots[s.cur].ref {
      SearchHere(s.slots, s.cur, stop);
    }
    assert forall i: nat :: OnePlace(s, i) ==> OnePlace(t, i);
    assert forall i: nat :: Owned(s, i) <==> Owned(t, i);
    forall i | 0 <= i < |s.slots|
      ensures FrameKept(t, i)
    {
      assert FrameKept(s, i);
    }
  }

  lemma GetKeeps(c: Config, s: State)
    requires Inv(c, s)
    ensures Inv(c, GetStep(s).0)
  {
    var t := GetStep(s).0;
    if s.out != [] {
      assert s.out == [s.out[0]] && t.out == [];
      forall i: nat
        ensures OnePlace(t, i) && (Owned(s, i) <==> Owned(t, i))
      {
        assert OnePlace(s, i);
      }
      assert forall i :: 0 <= i < |s.slots| && FrameKept(s, i) ==> FrameKept(t, i);
    }
  }

  lemma ReturnKeeps(c: Config, s: State, i: nat)
    requires Inv(c, s) && i in s.held
    ensures Inv(c, ReturnStep(s, i))
  {
    var t := ReturnStep(s, i);
    assert OnePlace(s, i);
    forall j: nat
      ensures OnePlace(t, j) && (Owned(s, j) <==> Owned(t, j))
    {
      assert OnePlace(s, j);
    }
    assert forall j :: 0 <= j < |s.slots| && FrameKept(s, j) ==> FrameKept(t, j);
  }

  /** The queue of returned buffers has room for every buffer a client holds, so giving one back never
      blocks. */
  lemma ReturnHasRoom(c: Config, s: State, i: nat)
    requires Inv(c, s) && i in s.held
    ensures |s.back| < |s.slots|
  {
    assert Owned(s, i) && OnePlace(s, i);
    assert forall k :: 0 <= k < |s.back| ==> Owned(s, s.back[k]);
    Pigeonhole(s.back + [i], |s.slots|);
  }

  lemma {:induction false} Pigeonhole(s: seq<nat>, n: nat)
    requires Distinct(s) && forall k :: 0 <= k < |s| ==> s[k] < n
    ensures |s| <= n
  {
    if s != [] {
      assert s[0] < n;
      if k :| 0 <= k < |s| && s[k] == n - 1 {
        Pigeonhole(s[..k] + s[k + 1..], n - 1);
      } else {
        Pigeonhole(s, n - 1);
      }
    }
  }

  // ----- frames

  /** While a buffer stays referenced no step touches its bytes or its length. */
  ghost predicate FrameStays(s: State, t: State, i: nat) {
    i < |s.slots| && i < |t.slots| && s.slots[i].ref && t.slots[i].ref ==> t.slots[i] == s.slots[i]
  }

  lemma FilterLeavesFrames(c: Config, s: State, payload: seq<byte>, i: nat)
    requires Inv(c, s) && |payload| <= c.bufLen
    ensures FrameStays(s, FilterStep(c, s, payload), i)
  {
    hide Overwrite, JpegHeader, Places, Frames;
  }

  lemma FinishLeavesFrames(c: Config, s: State, snatched: bool, i: nat)
    requires Inv(c, s)
    ensures FrameStays(s, FinishStep(c, s, snatched), i)
  {
    hide Inv, DoneStep, TrimmedLen, Wiped, Places, Frames;
    Revealed(c, s);
    var t := Measured(c, s);
    if i < |s.slots| && s.slots[i].ref {
      DoneLeaves(c, t, snatched, i);
    }
  }

  lemma Revealed(c: Config, s: State)
    requires Inv(c, s)
    ensures Shape(c, s) && Filling(c, s)
  {
  }

  lemma DoneLeaves(c: Config, s: State, snatched: bool, i: nat)
    requires Shape(c, s) && i < |s.slots| && s.slots[i].ref
    ensures |DoneStep(c, s, snatched).slots| == |s.slots|
    ensures DoneStep(c, s, snatched).slots[i].ref ==> DoneStep(c, s, snatched).slots[i] == s.slots[i]
  {
    hide Shape, Search, Overwrite;
    PublishLeaves(c, s, snatched, i);
    var p := Publish(c, s, snatched);
    hide Publish;
    var d := Drained(p);
    assert d.slots[i] == if i in p.back then Free(p.slots[i]) else p.slots[i];
    RevealShape(c, p);
    assert Advance(d).slots[i].ref ==> Advance(d).slots[i] == d.slots[i];
  }

  lemma RevealShape(c: Config, s: State)
    requires Shape(c, s)
    ensures s.cur < |s.slots| && forall i :: 0 <= i < |s.slots| ==> |s.slots[i].data| >= 4
  {
  }

  lemma PublishLeaves(c: Config, s: State, snatched: bool, i: nat)
    requires Shape(c, s) && i < |s.slots| && s.slots[i].ref
    ensures var p := Publish(c, s, snatched); |p.slots| == |s.slots| && p.cur == s.cur
    ensures var p := Publish(c, s, snatched); p.slots[i].ref ==> p.slots[i] == s.slots[i]
  {
  }

  /** A client gets the newest finished frame. */
  lemma GetNewest(c: Config, s: State)
    requires Inv(c, s) && GetStep(s).1.Some?
    ensures var i := GetStep(s).1.value;
      && i < |s.slots| && i in GetStep(s).0.held
      && s.newest == Some(s.slots[i].data[..s.slots[i].len])
  {
    assert Owned(s, s.out[0]) && FrameKept(s, s.out[0]);
  }

  /** A finished frame is queued with the bytes that were written to the buffer, cut at the last end
      marker, whatever was queued before. */
  lemma FinishQueues(c: Config, s: State)
    requires Inv(c, s) && s.filtered > 0 && c.bufLen > 0 && !s.slots[s.cur].ref && !s.slots[s.cur].bad
    ensures var t := FinishStep(c, s, false);
      && t.out == [s.cur] && s.cur < |t.slots| && t.slots[s.cur].ref
      && t.slots[s.cur].data == s.slots[s.cur].data
      && t.slots[s.cur].len == TrimmedLen(s.slots[s.cur].data, s.filtered * c.bufLen)
      && t.newest == Some(t.slots[s.cur].data[..t.slots[s.cur].len])
  {
    hide Search, Places, Frames, TrimmedLen, Publish, Advance, Wiped;
    FreeNotOwned(c, s);
    assert s.filtered * c.bufLen > 0;
    var m := Measured(c, s);
    PublishQueues(c, m);
    LaterKept(c, Drained(Publish(c, m, false)), s.cur);
  }

  lemma PublishQueues(c: Config, s: State)
    requires Shape(c, s) && s.cur !in s.out && |s.out| <= 1 && !s.slots[s.cur].ref && s.slots[s.cur].len > 0
    ensures var p, slot := Publish(c, s, false), s.slots[s.cur];
      && Shape(c, p) && p.cur == s.cur && p.out == [s.cur] && p.back == s.back
      && p.slots[s.cur] == slot.(ref := true) && p.newest == Some(slot.data[..slot.len])
  {
  }

  lemma FreeNotOwned(c: Config, s: State)
    requires Inv(c, s) && !s.slots[s.cur].ref
    ensures s.cur !in s.back && s.cur !in s.out && |s.out| <= 1
  {
    assert !Owned(s, s.cur);
  }

  lemma LaterKept(c: Config, s: State, i: nat)
    requires s.cur < |s.slots| && (forall i :: 0 <= i < |s.slots| ==> |s.slots[i].data| >= 4) && Referenced(s, i)
    ensures var t := Advance(s);
      t.out == s.out && |t.slots| == |s.slots| && t.slots[i] == s.slots[i] && t.newest == s.newest
  {
    hide Search;
  }

  /** Nothing is lost but a frame whose predecessor is snatched. */
  lemma LostOnlyWhenSnatched(c: Config, s: State, snatched: bool)
    requires Inv(c, s)
    ensures FinishStep(c, s, snatched).lost == s.lost
      + (if snatched && s.out != [] && s.filtered > 0 && c.bufLen > 0 && !s.slots[s.cur].ref && !s.slots[s.cur].bad
         then {s.cur} else {})
  {
    hide Places, Frames, DoneStep, Measured;
    if s.filtered > 0 && c.bufLen > 0 {
      assert s.filtered * c.bufLen > 0;
    }
    MeasuredFields(c, s);
    HeldHasData(c, s);
    DoneQueues(c, Measured(c, s), snatched);
  }

  lemma MeasuredFields(c: Config, s: State)
    requires Shape(c, s) && s.filtered * c.bufLen <= c.frameSize
    ensures var m, slot := Measured(c, s), s.slots[s.cur];
      && m.cur == s.cur && m.out == s.out && m.lost == s.lost && m.held == s.held && |m.slots| == |s.slots|
      && Shape(c, m) && m.slots[m.cur].ref == slot.ref && (slot.ref ==> m == s)
      && (!slot.ref ==> (m.slots[m.cur].len > 0 <==> s.filtered * c.bufLen > 0))
  {
    hide TrimmedLen;
  }

  lemma HeldHasData(c: Config, s: State)
    requires Inv(c, s)
    ensures s.slots[s.cur].ref ==> s.slots[s.cur].len > 0
  {
    hide Places;
    assert FrameKept(s, s.cur);
  }

  /** What camera_fb_done does to the queues, and to the buffers lost. */
  lemma DoneQueues(c: Config, s: State, snatched: bool)
    requires Shape(c, s)
    ensures var t, slot := DoneStep(c, s, snatched), s.slots[s.cur];
      var raced := snatched && s.out != [] && !slot.ref && slot.len > 0;
      && t.lost == s.lost + (if raced then {s.cur} else {})
      && t.held == s.held + (if raced then {s.out[0]} else {})
      && t.back == []
  {
    hide Search, Shape, Wiped;
    RevealShape(c, s);
    RevealShape(c, Publish(c, s, snatched));
  }

  // ----- one frame

  function Joined(payloads: seq<seq<byte>>): seq<byte> {
    if payloads == [] then [] else Joined(payloads[..|payloads| - 1]) + payloads[|payloads| - 1]
  }

  /** Payloads filtered one after another, from the start of a frame. */
  function Filled(c: Config, s: State, payloads: seq<seq<byte>>): (t: State)
    requires Shape(c, s) && forall k :: 0 <= k < |payloads| ==> |payloads[k]| <= c.bufLen
    ensures Shape(c, t)
    decreases |payloads|
  {
    if payloads == [] then s
    else
      var t := Filled(c, s, payloads[..|payloads| - 1]);
      ShapeKept(c, t, payloads[|payloads| - 1]);
      FilterStep(c, t, payloads[|payloads| - 1])
  }

  lemma ShapeKept(c: Config, s: State, payload: seq<byte>)
    requires Shape(c, s) && |payload| <= c.bufLen
    ensures Shape(c, FilterStep(c, s, payload))
  {
    hide Overwrite, JpegHeader;
  }

  /** Payload k stands at its place of the frame, and the rest of that place is as it was. */
  ghost predicate Stands(c: Config, was: seq<byte>, data: seq<byte>, payload: seq<byte>, k: nat) {
    var at, end := k * c.bufLen + |payload|, (k + 1) * c.bufLen;
    && k * c.bufLen <= at <= end <= |data| == |was|
    && data[k * c.bufLen..at] == payload && data[at..end] == was[at..end]
  }

  /** The payloads have been written into a frame begun in s, and nothing else changed. */
  ghost predicate Holding(c: Config, s: State, t: State, payloads: seq<seq<byte>>) {
    && s.cur < |s.slots| && s.cur < |t.slots|
    && t == s.(slots := s.slots[s.cur := t.slots[s.cur]], filtered := |payloads|)
    && !t.slots[s.cur].ref && !t.slots[s.cur].bad
    && SameFrom(s.slots[s.cur].data, t.slots[s.cur].data, |payloads| * c.bufLen)
    && forall k :: 0 <= k < |payloads| ==> Stands(c, s.slots[s.cur].data, t.slots[s.cur].data, payloads[k], k)
  }

  ghost predicate SameFrom(was: seq<byte>, data: seq<byte>, from: nat) {
    from <= |data| == |was| && data[from..] == was[from..]
  }

  /** Payloads that fit, and begin as a JPEG file does, stand in the buffer one after another, each at
      its own place; a payload shorter than its place leaves old bytes behind it. */
  lemma {:induction false} FrameIsPayloads(c: Config, s: State, payloads: seq<seq<byte>>)
    requires Shape(c, s) && s.filtered == 0 && !s.slots[s.cur].ref && !s.slots[s.cur].bad
    requires forall k :: 0 <= k < |payloads| ==> |payloads[k]| <= c.bufLen
    requires |payloads| * c.bufLen <= c.frameSize
    requires payloads != [] ==> JpegHeader(payloads[0])
    ensures Holding(c, s, Filled(c, s, payloads), payloads)
    decreases |payloads|
  {
    hide FilterStep, JpegHeader, Holding;
    if payloads != [] {
      var m := |payloads| - 1;
      assert m * c.bufLen + c.bufLen == |payloads| * c.bufLen;
      FrameIsPayloads(c, s, payloads[..m]);
      WriteNext(c, s, Filled(c, s, payloads[..m]), payloads[..m], payloads[m]);
      assert payloads[..m] + [payloads[m]] == payloads;
    } else {
      NoneYet(c, s);
    }
  }

  lemma NoneYet(c: Config, s: State)
    requires Shape(c, s) && s.filtered == 0 && !s.slots[s.cur].ref && !s.slots[s.cur].bad
    ensures Holding(c, s, s, [])
  {
  }

  lemma WriteNext(c: Config, s: State, t: State, payloads: seq<seq<byte>>, payload: seq<byte>)
    requires Shape(c, t) && Holding(c, s, t, payloads)
    requires |payload| <= c.bufLen && |payloads| * c.bufLen + c.bufLen <= c.frameSize
    requires payloads == [] ==> JpegHeader(payload)
    ensures Holding(c, s, FilterStep(c, t, payload), payloads + [payload])
  {
    hide Stands, SameFrom, Overwrite, JpegHeader;
    var was, data, m := s.slots[s.cur].data, t.slots[s.cur].data, |payloads|;
    var u, all := FilterStep(c, t, payload), payloads + [payload];
    var written := Overwrite(data, m * c.bufLen, payload);
    assert (m + 1) * c.bufLen == m * c.bufLen + c.bufLen;
    if m == 0 {
      HeaderWritten(data, payload);
    }
    assert u == t.(slots := t.slots[s.cur := u.slots[s.cur]], filtered := m + 1) && u.slots[s.cur].data == written;
    StandsNext(c, was, data, payload, m);
    forall k | 0 <= k < |all|
      ensures Stands(c, was, written, all[k], k)
    {
      if k < m {
        assert Stands(c, was, data, payloads[k], k);
        StandsStill(c, was, data, payloads[k], k, m, payload);
      }
    }
  }

  lemma HeaderWritten(data: seq<byte>, payload: seq<byte>)
    requires JpegHeader(payload) && |payload| <= |data|
    ensures JpegHeader(Overwrite(data, 0, payload))
  {
    var w := Overwrite(data, 0, payload);
    assert w[0] == payload[0] && w[1] == payload[1] && w[2] == payload[2];
  }

  /** Writing payload m puts it at its place. */
  lemma StandsNext(c: Config, was: seq<byte>, data: seq<byte>, payload: seq<byte>, m: nat)
    requires SameFrom(was, data, m * c.bufLen) && |payload| <= c.bufLen && (m + 1) * c.bufLen <= |data|
    ensures m * c.bufLen + |payload| <= |data|
    ensures var w := Overwrite(data, m * c.bufLen, payload);
      Stands(c, was, w, payload, m) && SameFrom(was, w, (m + 1) * c.bufLen)
  {
    hide SameFrom, Overwrite;
    assert (m + 1) * c.bufLen == m * c.bufLen + c.bufLen;
    WrittenSlices(was, data, m * c.bufLen, (m + 1) * c.bufLen, payload);
  }

  lemma WrittenSlices(was: seq<byte>, data: seq<byte>, at: nat, end: nat, payload: seq<byte>)
    requires SameFrom(was, data, at) && at + |payload| <= end <= |data|
    ensures |was| == |data|
    ensures var w := Overwrite(data, at, payload);
      && w[at..at + |payload|] == payload && w[at + |payload|..end] == was[at + |payload|..end] && SameFrom(was, w, end)
  {
    var w := Overwrite(data, at, payload);
    forall k | at + |payload| <= k < |w|
      ensures w[k] == was[k]
    {
      assert data[k] == data[at..][k - at] && was[k] == was[at..][k - at];
    }
  }

  /** and leaves payload k before it alone. */
  lemma StandsStill(c: Config, was: seq<byte>, data: seq<byte>, p: seq<byte>, k: nat, m: nat, payload: seq<byte>)
    requires k < m && Stands(c, was, data, p, k) && m * c.bufLen + |payload| <= |data|
    ensures Stands(c, was, Overwrite(data, m * c.bufLen, payload), p, k)
  {
    hide Overwrite;
    MulMono(k + 1, m, c.bufLen);
    SliceStays(data, k * c.bufLen, k * c.bufLen + |p|, m * c.bufLen, payload);
    SliceStays(data, k * c.bufLen + |p|, (k + 1) * c.bufLen, m * c.bufLen, payload);
  }

  lemma SliceStays(data: seq<byte>, from: nat, to: nat, at: nat, payload: seq<byte>)
    requires from <= to <= at && at + |payload| <= |data|
    ensures Overwrite(data, at, payload)[from..to] == data[from..to]
  {
  }

  /** Payloads that fill their places follow each other without a gap. */
  lemma {:induction false} FullPayloadsJoin(c: Config, was: seq<byte>, data: seq<byte>, payloads: seq<seq<byte>>)
    requires forall k :: 0 <= k < |payloads| ==> |payloads[k]| == c.bufLen && Stands(c, was, data, payloads[k], k)
    ensures Begins(data, |payloads| * c.bufLen, Joined(payloads))
    decreases |payloads|
  {
    hide Stands, Begins;
    if payloads == [] {
      BeginsEmpty(data, |payloads| * c.bufLen);
    } else {
      var m := |payloads| - 1;
      FullPayloadsJoin(c, was, data, payloads[..m]);
      assert Stands(c, was, data, payloads[m], m);
      BeginsNext(c, was, data, Joined(payloads[..m]), payloads[m], m);
    }
  }

  ghost predicate Begins(data: seq<byte>, len: nat, bytes: seq<byte>) {
    len <= |data| && data[..len] == bytes
  }

  lemma BeginsEmpty(data: seq<byte>, len: nat)
    requires len == 0
    ensures Begins(data, len, [])
  {
  }

  lemma BeginsNext(c: Config, was: seq<byte>, data: seq<byte>, bytes: seq<byte>, payload: seq<byte>, m: nat)
    requires Begins(data, m * c.bufLen, bytes) && |payload| == c.bufLen && Stands(c, was, data, payload, m)
    ensures Begins(data, (m + 1) * c.bufLen, bytes + payload)
  {
    var at, end := m * c.bufLen, (m + 1) * c.bufLen;
    assert end == at + c.bufLen;
    assert data[..end] == data[..at] + data[at..end];
  }

  // ----- runs

  datatype Event = Filter(payload: seq<byte>) | Mark | Finish(snatched: bool) | Seek(stop: nat) | Get | Return(i: nat)

  ghost predicate Step(c: Config, s: State, e: Event, t: State) {
    && Shape(c, s)
    && match e
       case Filter(payload) => |payload| <= c.bufLen && t == FilterStep(c, s, payload)
       case Mark => t == MarkStep(s)
       case Finish(snatched) => s.filtered * c.bufLen <= c.frameSize && t == FinishStep(c, s, snatched)
       case Seek(stop) => stop < |s.slots| && t == SeekStep(s, stop)
       case Get => t == GetStep(s).0
       case Return(i) => i in s.held && t == ReturnStep(s, i)
  }

  ghost predicate Init(c: Config, s: State) {
    && Shape(c, s) && s.out == [] && s.back == [] && s.held == {} && s.lost == {} && s.filtered == 0
    && forall i :: 0 <= i < |s.slots| ==> !s.slots[i].ref && s.slots[i].len == 0 && !s.slots[i].bad
  }

  /** The states ss are passed through by the events es. */
  ghost predicate Trace(c: Config, ss: seq<State>, es: seq<Event>) {
    && |ss| == |es| + 1 && Init(c, ss[0])
    && forall k :: 0 <= k < |es| ==> StepAt(c, ss, es, k)
  }

  ghost predicate StepAt(c: Config, ss: seq<State>, es: seq<Event>, k: nat)
    requires |ss| == |es| + 1 && k < |es|
  {
    Step(c, ss[k], es[k], ss[k + 1])
  }

  lemma StepKeeps(c: Config, s: State, e: Event, t: State)
    requires Inv(c, s) && Step(c, s, e, t)
    ensures Inv(c, t) && |t.slots| == |s.slots| && forall i: nat :: FrameStays(s, t, i)
  {
    hide Inv, FinishStep, FilterStep, FrameStays, Search;
    match e
    case Filter(payload) =>
      FilterKeeps(c, s, payload);
      FilterSize(c, s, payload);
      forall i: nat ensures FrameStays(s, t, i) {
        FilterLeavesFrames(c, s, payload, i);
      }
    case Mark =>
      forall i: nat ensures Inv(c, t) && FrameStays(s, t, i) {
        MarkKeeps(c, s, i);
      }
      assert FrameStays(s, t, 0);
    case Finish(snatched) =>
      FinishKeeps(c, s, snatched);
      forall i: nat ensures FrameStays(s, t, i) {
        FinishLeavesFrames(c, s, snatched, i);
      }
    case Seek(stop) =>
      SeekKeeps(c, s, stop);
      SlotsSame(s, t);
    case Get =>
      GetKeeps(c, s);
      SlotsSame(s, t);
    case Return(i) =>
      ReturnKeeps(c, s, i);
      SlotsSame(s, t);
  }

  lemma FilterSize(c: Config, s: State, payload: seq<byte>)
    requires Shape(c, s) && |payload| <= c.bufLen
    ensures |FilterStep(c, s, payload).slots| == |s.slots|
  {
    hide Overwrite, JpegHeader;
  }

  lemma SlotsSame(s: State, t: State)
    requires s.slots == t.slots
    ensures forall i: nat :: FrameStays(s, t, i)
  {
  }

  lemma {:induction false} TraceInv(c: Config, ss: seq<State>, es: seq<Event>, k: nat)
    requires Trace(c, ss, es) && k < |ss|
    ensures Inv(c, ss[k]) && |ss[k].slots| == |ss[0].slots|
  {
    hide Step, Inv;
    if k == 0 {
      InitInv(c, ss[0]);
    } else {
      TraceInv(c, ss, es, k - 1);
      assert StepAt(c, ss, es, k - 1);
      StepKeeps(c, ss[k - 1], es[k - 1], ss[k]);
    }
  }

  lemma InitInv(c: Config, s: State)
    requires Init(c, s)
    ensures Inv(c, s)
  {
  }

  /** In every run a buffer is referenced exactly while it is queued, held, given back or lost, and it
      is never in two of these places; it is referenced exactly while it has data. */
  lemma Ownership(c: Config, ss: seq<State>, es: seq<Event>, k: nat, i: nat)
    requires Trace(c, ss, es) && k < |ss| && i < |ss[0].slots|
    ensures |ss[k].slots| == |ss[0].slots| && OnePlace(ss[k], i) && (Owned(ss[k], i) <==> ss[k].slots[i].ref)
    ensures ss[k].slots[i].ref <==> ss[k].slots[i].len > 0
    ensures |ss[k].out| <= 1 && Distinct(ss[k].back)
    ensures (exists j :: j in ss[k].held) ==> |ss[k].back| < |ss[0].slots|
  {
    hide Distinct;
    TraceInv(c, ss, es, k);
    assert FrameKept(ss[k], i);
    if j :| j in ss[k].held {
      ReturnHasRoom(c, ss[k], j);
    }
  }

  lemma FilterLost(c: Config, s: State, payload: seq<byte>)
    requires Shape(c, s) && |payload| <= c.bufLen
    ensures FilterStep(c, s, payload).lost == s.lost
  {
    hide Overwrite, JpegHeader;
  }

  // ----- the race

  /** A buffer once lost stays lost, and so referenced: it is never filled again. */
  lemma {:induction false} LostForGood(c: Config, ss: seq<State>, es: seq<Event>, j: nat, k: nat, i: nat)
    requires Trace(c, ss, es) && j <= k < |ss| && i in ss[j].lost
    ensures i in ss[k].lost && Referenced(ss[k], i)
  {
    hide Step, Inv;
    TraceInv(c, ss, es, k);
    if j < k {
      LostForGood(c, ss, es, j, k - 1, i);
      TraceInv(c, ss, es, k - 1);
      assert StepAt(c, ss, es, k - 1);
      StepLost(c, ss[k - 1], es[k - 1], ss[k]);
    }
    LostOwned(c, ss[k], i);
  }

  lemma LostOwned(c: Config, s: State, i: nat)
    requires Inv(c, s) && i in s.lost
    ensures Referenced(s, i)
  {
    assert Owned(s, i);
  }

  /** What a step does to the lost buffers: only a finish that is raced adds one, the buffer it was to
      queue, and then a client has just got another. */
  lemma StepLost(c: Config, s: State, e: Event, t: State)
    requires Inv(c, s) && Step(c, s, e, t)
    ensures t.lost == s.lost ||
      (t.lost == s.lost + {s.cur} && e.Finish? && s.out != [] && t.held == s.held + {s.out[0]})
  {
    hide Inv, FinishStep, FilterStep, Search;
    match e
    case Filter(payload) =>
      FilterLost(c, s, payload);
    case Finish(snatched) =>
      LostOnlyWhenSnatched(c, s, snatched);
      RacedHeld(c, s, snatched);
    case _ =>
  }

  /** A client takes the queued frame just before it is displaced by the next one. */
  predicate Raced(c: Config, s: State, e: Event) {
    && e.Finish? && e.snatched && s.out != [] && s.filtered > 0 && c.bufLen > 0
    && s.cur < |s.slots| && !s.slots[s.cur].ref && !s.slots[s.cur].bad
  }

  ghost predicate RacedAt(c: Config, ss: seq<State>, es: seq<Event>, j: nat) {
    j < |es| && j < |ss| && Raced(c, ss[j], es[j])
  }

  /** Buffers are lost in the runs with such a race, and in no others. */
  lemma {:induction false} LostIffRaced(c: Config, ss: seq<State>, es: seq<Event>, k: nat)
    requires Trace(c, ss, es) && k < |ss|
    ensures ss[k].lost != {} <==> exists j: nat :: j < k && RacedAt(c, ss, es, j)
  {
    hide Step, Inv, Raced;
    if k == 0 {
      assert ss[0].lost == {};
    } else {
      LostIffRaced(c, ss, es, k - 1);
      TraceInv(c, ss, es, k - 1);
      assert StepAt(c, ss, es, k - 1);
      LostByRace(c, ss[k - 1], es[k - 1], ss[k]);
      assert RacedAt(c, ss, es, k - 1) <==> Raced(c, ss[k - 1], es[k - 1]);
    }
  }

  lemma LostByRace(c: Config, s: State, e: Event, t: State)
    requires Inv(c, s) && Step(c, s, e, t)
    ensures t.lost == s.lost + if Raced(c, s, e) then {s.cur} else {}
  {
    hide Inv, FinishStep, FilterStep, Search;
    match e
    case Filter(payload) =>
      FilterLost(c, s, payload);
    case Finish(snatched) =>
      LostOnlyWhenSnatched(c, s, snatched);
      Revealed(c, s);
    case _ =>
  }

  /** Without such a race no buffer is ever lost. */
  lemma NothingLost(c: Config, ss: seq<State>, es: seq<Event>, k: nat)
    requires Trace(c, ss, es) && k < |ss| && forall j :: 0 <= j < |es| && es[j].Finish? ==> !es[j].snatched
    ensures ss[k].lost == {}
  {
    hide Trace;
    LostIffRaced(c, ss, es, k);
  }

  /** Some buffer is never lost, so the camera keeps working. */
  lemma {:induction false} NeverAllLost(c: Config, ss: seq<State>, es: seq<Event>, k: nat)
    requires Trace(c, ss, es) && k < |ss|
    ensures exists i :: 0 <= i < |ss[0].slots| && i !in ss[k].lost
  {
    hide Step, Inv;
    if k == 0 {
      assert 0 !in ss[0].lost;
    } else {
      NeverAllLost(c, ss, es, k - 1);
      TraceInv(c, ss, es, k - 1);
      TraceInv(c, ss, es, k);
      assert StepAt(c, ss, es, k - 1);
      StepLost(c, ss[k - 1], es[k - 1], ss[k]);
      if ss[k].lost != ss[k - 1].lost {
        HeldNotLost(c, ss[k], ss[k - 1].out[0]);
      }
    }
  }

  lemma HeldNotLost(c: Config, s: State, i: nat)
    requires Inv(c, s) && i in s.held
    ensures i !in s.lost && i < |s.slots|
  {
    assert OnePlace(s, i) && Owned(s, i);
  }

  /** A frame raced by a client: the client has the frame queued before. */
  lemma RacedHeld(c: Config, s: State, snatched: bool)
    requires Inv(c, s)
    ensures var t := FinishStep(c, s, snatched);
      t.held == s.held || (snatched && s.out != [] && t.held == s.held + {s.out[0]})
    ensures FinishStep(c, s, snatched).lost != s.lost ==>
      s.out != [] && FinishStep(c, s, snatched).held == s.held + {s.out[0]}
    ensures !snatched && s.back == [] ==> FinishStep(c, s, snatched).back == []
  {
    hide Places, Frames, DoneStep, TrimmedLen;
    DoneQueues(c, Measured(c, s), snatched);
  }

  /** The first payload of a JPEG frame opens the frame in a free buffer. */
  lemma FilterOpens(c: Config, s: State, payload: seq<byte>)
    requires Inv(c, s) && s.filtered == 0 && !s.slots[s.cur].ref && !s.slots[s.cur].bad
    requires JpegHeader(payload) && |payload| <= c.bufLen
    ensures var t := FilterStep(c, s, payload);
      && Inv(c, t) && t.filtered == 1 && t.cur == s.cur && !t.slots[s.cur].ref && !t.slots[s.cur].bad
      && t.out == s.out && t.held == s.held && t.back == s.back && t.lost == s.lost && |t.slots| == |s.slots|
  {
    hide Overwrite, JpegHeader, Places, Frames;
    FilterKeeps(c, s, payload);
    HeaderWritten(s.slots[s.cur].data, payload);
  }

  predicate Opening(c: Config, payload: seq<byte>) {
    JpegHeader(payload) && 3 <= |payload| <= c.bufLen
  }

  /** A frame of one payload is filled and finished. */
  lemma OneFrame(c: Config, s: State, payload: seq<byte>, snatched: bool) returns (a: State, t: State)
    requires Inv(c, s) && s.filtered == 0 && !s.slots[s.cur].ref && !s.slots[s.cur].bad && Opening(c, payload)
    ensures Inv(c, a) && Step(c, s, Filter(payload), a) && Step(c, a, Finish(snatched), t) && Inv(c, t)
    ensures |t.slots| == |s.slots| && t.filtered == 0 && !t.slots[t.cur].bad
    ensures t.lost == s.lost + if snatched && s.out != [] then {s.cur} else {}
    ensures snatched && s.out != [] ==> t.held == s.held + {s.out[0]}
    ensures !snatched ==> t.out == [s.cur] && t.held == s.held && (s.back == [] ==> t.back == [])
  {
    hide Inv, Shape, FilterStep, FinishStep, JpegHeader;
    Revealed(c, s);
    a := FilterStep(c, s, payload);
    FilterOpens(c, s, payload);
    Revealed(c, a);
    t := FinishStep(c, a, snatched);
    FinishOpened(c, a, snatched);
  }

  lemma FinishOpened(c: Config, s: State, snatched: bool)
    requires Inv(c, s) && s.filtered > 0 && c.bufLen > 0 && !s.slots[s.cur].ref && !s.slots[s.cur].bad
    ensures var t := FinishStep(c, s, snatched);
      && Inv(c, t) && |t.slots| == |s.slots| && t.filtered == 0 && !t.slots[t.cur].bad
      && t.lost == s.lost + (if snatched && s.out != [] then {s.cur} else {})
      && (snatched && s.out != [] ==> t.held == s.held + {s.out[0]})
      && (!snatched ==> t.out == [s.cur] && t.held == s.held && (s.back == [] ==> t.back == []))
  {
    hide Inv, Shape, FinishStep, TrimmedLen;
    Revealed(c, s);
    FinishKeeps(c, s, snatched);
    LostOnlyWhenSnatched(c, s, snatched);
    RacedHeld(c, s, snatched);
    FreeNotLost(c, s);
    if !snatched {
      FinishQueues(c, s);
    }
  }

  lemma FreeNotLost(c: Config, s: State)
    requires Inv(c, s) && !s.slots[s.cur].ref
    ensures s.cur !in s.lost
  {
    assert !Owned(s, s.cur);
  }

  /** With two buffers or more the race is a run the camera can take: a frame is queued, the next one is
      finished while a client takes the first, and its buffer is lost. */
  lemma RaceLoses(c: Config, s: State, payload: seq<byte>) returns (ss: seq<State>, es: seq<Event>)
    requires Init(c, s) && |s.slots| >= 2 && Opening(c, payload)
    ensures Trace(c, ss, es) && ss[0] == s
    ensures es == [Filter(payload), Finish(false), Filter(payload), Finish(true)]
    ensures ss[4].lost == {ss[2].cur} && ss[4].held == {s.cur} && ss[2].cur != s.cur
  {
    hide Inv, Init, Step, Opening;
    InitInv(c, s);
    Begun(c, s);
    var a, b := OneFrame(c, s, payload, false);
    OthersFree(c, b, s.cur);
    var d, e := OneFrame(c, b, payload, true);
    ss, es := [s, a, b, d, e], [Filter(payload), Finish(false), Filter(payload), Finish(true)];
    assert StepAt(c, ss, es, 0) && StepAt(c, ss, es, 1) && StepAt(c, ss, es, 2) && StepAt(c, ss, es, 3);
  }

  lemma Begun(c: Config, s: State)
    requires Init(c, s)
    ensures Shape(c, s) && s.filtered == 0 && !s.slots[s.cur].ref && !s.slots[s.cur].bad
    ensures s.out == [] && s.back == [] && s.held == {} && s.lost == {}
  {
  }

  /** When only buffer i is in use another one is being filled. */
  lemma OthersFree(c: Config, s: State, i: nat)
    requires Inv(c, s) && s.out == [i] && s.back == [] && s.held == {} && s.lost == {} && |s.slots| >= 2
    ensures !s.slots[s.cur].ref && s.cur != i
  {
    var other := if i == 0 then 1 else 0;
    assert !Owned(s, other) && Owned(s, i);
  }

  /** A frame does not change while its buffer stays referenced: from the queue until it is given back
      or displaced. */
  lemma {:induction false} FrameNeverChanges(c: Config, ss: seq<State>, es: seq<Event>, j: nat, k: nat, i: nat)
    requires Trace(c, ss, es) && j <= k < |ss| && i < |ss[0].slots|
    requires forall m :: j <= m <= k ==> Referenced(ss[m], i)
    ensures Referenced(ss[j], i) && Referenced(ss[k], i) && ss[k].slots[i] == ss[j].slots[i]
  {
    hide Step;
    assert Referenced(ss[k], i) && Referenced(ss[j], i);
    if j < k {
      FrameNeverChanges(c, ss, es, j, k - 1, i);
      TraceInv(c, ss, es, k - 1);
      assert StepAt(c, ss, es, k - 1);
      StepKeeps(c, ss[k - 1], es[k - 1], ss[k]);
      assert FrameStays(ss[k - 1], ss[k], i);
    }
  }

  // ----- spoilt frames

  /** A gap, or a first payload that does not begin a JPEG file, spoils the frame in a free buffer. */
  predicate Spoils(s: State, e: Event) {
    && s.cur < |s.slots| && !s.slots[s.cur].ref
    && match e
       case Mark => true
       case Filter(payload) =>
         s.filtered == 0 && !JpegHeader(payload + s.slots[s.cur].data[Least(|payload|, |s.slots[s.cur].data|)..])
       case _ => false
  }

  function Least(a: nat, b: nat): nat { if a < b then a else b }

  ghost predicate SpoilsAt(ss: seq<State>, es: seq<Event>, j: nat) {
    j < |es| && j < |ss| && Spoils(ss[j], es[j])
  }

  ghost predicate NoFinish(es: seq<Event>, j: nat, k: nat) {
    forall m :: j <= m < k && m < |es| ==> !es[m].Finish?
  }

  /** The frame being filled at state k has been spoilt since the last one was finished. */
  ghost predicate Spoilt(ss: seq<State>, es: seq<Event>, k: nat) {
    exists j: nat :: j < k && SpoilsAt(ss, es, j) && NoFinish(es, j, k)
  }

  lemma SpoiltNext(ss: seq<State>, es: seq<Event>, k: nat)
    requires k < |es| && k < |ss|
    ensures Spoilt(ss, es, k + 1) <==> !es[k].Finish? && (Spoilt(ss, es, k) || Spoils(ss[k], es[k]))
  {
    hide Spoils;
    if Spoilt(ss, es, k + 1) {
      var j: nat :| j < k + 1 && SpoilsAt(ss, es, j) && NoFinish(es, j, k + 1);
      assert NoFinish(es, j, k) && !es[k].Finish?;
    }
    if !es[k].Finish? {
      if Spoilt(ss, es, k) {
        var j: nat :| j < k && SpoilsAt(ss, es, j) && NoFinish(es, j, k);
        assert NoFinish(es, j, k + 1);
      }
      if Spoils(ss[k], es[k]) {
        assert SpoilsAt(ss, es, k) && NoFinish(es, k, k + 1);
      }
    }
  }

  predicate BadNow(s: State) {
    s.cur < |s.slots| && s.slots[s.cur].bad
  }

  /** In every run the mark stands exactly while the frame being filled is spoilt. */
  lemma {:induction false} BadIffSpoilt(c: Config, ss: seq<State>, es: seq<Event>, k: nat)
    requires Trace(c, ss, es) && k < |ss|
    ensures BadNow(ss[k]) <==> Spoilt(ss, es, k)
  {
    hide Step, Inv, Spoilt, Spoils, BadNow;
    if k == 0 {
      NothingSpoilt(c, ss, es);
    } else {
      BadIffSpoilt(c, ss, es, k - 1);
      TraceInv(c, ss, es, k - 1);
      assert StepAt(c, ss, es, k - 1);
      SpoiltNext(ss, es, k - 1);
      BadNext(c, ss[k - 1], es[k - 1], ss[k]);
    }
  }

  lemma NothingSpoilt(c: Config, ss: seq<State>, es: seq<Event>)
    requires Trace(c, ss, es)
    ensures !BadNow(ss[0]) && !Spoilt(ss, es, 0)
  {
  }

  lemma BadNext(c: Config, s: State, e: Event, t: State)
    requires Inv(c, s) && Step(c, s, e, t)
    ensures BadNow(t) <==> !e.Finish? && (BadNow(s) || Spoils(s, e))
  {
    hide Inv, FinishStep, FilterStep, Search, Spoils;
    match e
    case Filter(payload) =>
      FilterBad(c, s, payload);
    case Mark =>
      MarkBad(c, s);
    case Finish(snatched) =>
      FinishKeeps(c, s, snatched);
    case Seek(stop) =>
      SeekBad(c, s, stop);
      NeverSpoils(s, e);
    case _ =>
      NeverSpoils(s, e);
  }

  lemma NeverSpoils(s: State, e: Event)
    requires e.Seek? || e.Get? || e.Return?
    ensures !Spoils(s, e)
  {
  }

  lemma FilterBad(c: Config, s: State, payload: seq<byte>)
    requires Inv(c, s) && |payload| <= c.bufLen
    ensures BadNow(FilterStep(c, s, payload)) <==> BadNow(s) || Spoils(s, Filter(payload))
  {
    hide Places, JpegHeader;
    assert FrameKept(s, s.cur);
    var data := s.slots[s.cur].data;
    if s.filtered == 0 {
      assert Overwrite(data, 0, payload) == payload + data[|payload|..];
    }
  }

  lemma MarkBad(c: Config, s: State)
    requires Inv(c, s)
    ensures BadNow(MarkStep(s)) <==> BadNow(s) || Spoils(s, Mark)
  {
    assert FrameKept(s, s.cur);
  }

  lemma SeekBad(c: Config, s: State, stop: nat)
    requires Inv(c, s) && stop < |s.slots|
    ensures BadNow(SeekStep(s, stop)) <==> BadNow(s)
  {
    hide Search, Places;
    SeekKeeps(c, s, stop);
    assert FrameKept(s, s.cur) && FrameKept(s, SeekStep(s, stop).cur);
  }

  /** The buffer being filled is free, empty and not marked, its header overwritten. */
  predicate EmptyNow(s: State) {
    && s.cur < |s.slots| && !s.slots[s.cur].ref && s.slots[s.cur].len == 0 && !s.slots[s.cur].bad
    && |s.slots[s.cur].data| >= 4 && s.slots[s.cur].data[..4] == [0, 0, 0, 0]
  }

  /** t is s with the frame being filled thrown away: nothing is queued and nothing else changes. */
  ghost predicate ThrownAway(s: State, t: State) {
    && |t.slots| == |s.slots| && s.cur == t.cur && EmptyNow(t)
    && (forall i :: 0 <= i < |s.slots| && i != s.cur ==> t.slots[i] == s.slots[i])
    && t.out == s.out && t.newest == s.newest && t.frames == s.frames
    && t.held == s.held && t.back == s.back && t.lost == s.lost && t.filtered == 0
  }

  /** A spoilt frame never reaches a client: when it ends it is thrown away. */
  lemma SpoiltIsDropped(c: Config, ss: seq<State>, es: seq<Event>, k: nat)
    requires Trace(c, ss, es) && k < |es| && es[k].Finish? && Spoilt(ss, es, k)
    ensures ThrownAway(ss[k], ss[k + 1])
  {
    hide Inv, FinishStep, Spoilt;
    BadIffSpoilt(c, ss, es, k);
    TraceInv(c, ss, es, k);
    assert StepAt(c, ss, es, k);
    FinishDrops(c, ss[k], es[k].snatched);
  }

  lemma FinishDrops(c: Config, s: State, snatched: bool)
    requires Inv(c, s) && BadNow(s)
    ensures ThrownAway(s, FinishStep(c, s, snatched))
  {
    hide Places, DoneStep, TrimmedLen;
    assert FrameKept(s, s.cur);
  }

  /** The frame filled in s is the only one queued in t, with the bytes written, cut at the last end marker. */
  ghost predicate QueuedAlone(c: Config, s: State, t: State) {
    && Shape(c, s) && Filling(c, s) && s.filtered * c.bufLen > 0
    && t.out == [s.cur] && s.cur < |t.slots| && t.slots[s.cur].data == s.slots[s.cur].data
    && t.slots[s.cur].len == TrimmedLen(s.slots[s.cur].data, s.filtered * c.bufLen) <= |s.slots[s.cur].data|
    && t.newest == Some(t.slots[s.cur].data[..t.slots[s.cur].len])
  }

  /** When the camera moves on, the next buffer begins empty. */
  lemma NextIsEmpty(c: Config, s: State, snatched: bool)
    requires Inv(c, s)
    ensures FinishStep(c, s, snatched).cur != s.cur ==> EmptyNow(FinishStep(c, s, snatched))
  {
    hide TrimmedLen, Places, Frames, DoneStep;
    FinishKeeps(c, s, snatched);
    MeasuredStays(c, s);
    DoneMoves(c, Measured(c, s), snatched);
  }

  lemma MeasuredStays(c: Config, s: State)
    requires Shape(c, s) && s.filtered * c.bufLen <= c.frameSize
    ensures Measured(c, s).cur == s.cur && Shape(c, Measured(c, s))
  {
    hide TrimmedLen;
  }

  lemma PublishStays(c: Config, s: State, snatched: bool)
    requires Shape(c, s)
    ensures Publish(c, s, snatched).cur == s.cur
  {
  }

  lemma DoneMoves(c: Config, s: State, snatched: bool)
    requires Shape(c, s)
    ensures var t := DoneStep(c, s, snatched);
      t.cur != s.cur ==> t.cur < |t.slots| && (!t.slots[t.cur].bad ==> EmptyNow(t))
  {
    hide Publish, Drained, Advance, Shape, EmptyNow;
    PublishStays(c, s, snatched);
    MovedWiped(c, Publish(c, s, snatched));
  }

  lemma MovedWiped(c: Config, s: State)
    requires Shape(c, s)
    ensures Drained(s).cur < |Drained(s).slots|
    ensures forall i :: 0 <= i < |Drained(s).slots| ==> |Drained(s).slots[i].data| >= 4
    ensures var t := Advance(Drained(s));
      t.cur != s.cur ==> t.cur < |t.slots| && (!t.slots[t.cur].bad ==> EmptyNow(t))
  {
    hide Search;
  }

  /** A frame that is not spoilt is queued when it ends, in place of whatever was queued. */
  lemma UnspoiltIsQueued(c: Config, ss: seq<State>, es: seq<Event>, k: nat)
    requires Trace(c, ss, es) && k < |es| && es[k] == Finish(false) && !Spoilt(ss, es, k)
    requires c.bufLen > 0 && ss[k].filtered > 0
    ensures QueuedAlone(c, ss[k], ss[k + 1])
  {
    hide FinishStep, Spoilt, TrimmedLen;
    BadIffSpoilt(c, ss, es, k);
    TraceInv(c, ss, es, k);
    TraceInv(c, ss, es, k + 1);
    assert StepAt(c, ss, es, k);
    FinishQueues(c, ss[k]);
    assert ss[k].filtered * c.bufLen > 0;
  }
}
