/** How a node's bitmap moves: it only grows while nothing is lost, and one lossless round of the
    packets a progress array lacks completes it. */
module NodeProgress {
  import opened Bitmap
  import opened Firmware
  import opened UpgradeNode
  import opened NodeInvariant
  import opened Wrappers

  /** While the epoch stays the same no bit is cleared. */
  ghost predicate Grows(n: NodeState, m: NodeState) {
    && n.epoch <= m.epoch && (n.told ==> m.told)
    && (n.epoch == m.epoch && n.cfg.Some? ==>
        m.cfg.Some? && forall p: nat :: p < MAX_PACKETS && Get(n.cfg.value.bitmap, p) ==> Get(m.cfg.value.bitmap, p))
  }

  lemma StatusGrows(f: Image, n: NodeState, env: BeginEnv)
    requires NodeInv(f, n)
    ensures Grows(n, StatusStep(f, n, env).0)
  {
    hide Get, Held, Counts, Clean, Erased, Cut;
  }

  /** What the parts of a write leave alone. */
  lemma LoadShape(f: Image, n: NodeState)
    ensures var r := Load(f, n); r == n.(cfg := r.cfg, miscounted := r.miscounted) && (n.cfg.Some? ==> r == n)
  {
    hide Counts;
  }

  lemma FlashedShape(f: Image, n: NodeState, p: nat, count: nat)
    requires |n.flash| == |f| && p < PacketNum(f) && count <= Size(f, p)
    ensures var r := Flashed(f, n, p, count); r == n.(flash := r.flash) && |r.flash| == |f|
  {
    hide Programmed, Data;
  }

  lemma RecordedShape(f: Image, n: NodeState, p: nat, saveOk: bool)
    requires p < PacketNum(f) && n.cfg.Some? && n.cfg.value.total > 0
    ensures var r, c := Recorded(f, n, p, saveOk), n.cfg.value;
      && r == n.(cfg := r.cfg, nextPercent := r.nextPercent, snapshot := r.snapshot)
      && r.cfg == Some(c.(bitmap := Set(c.bitmap, p), written := c.written + Size(f, p)))
  {
    hide Set, Percent, Saved, Size;
  }

  lemma ReceivedShape(f: Image, n: NodeState, p: nat, saveOk: bool)
    requires |n.flash| == |f| && p < PacketNum(f) && n.cfg.Some? && n.cfg.value.total > 0
    ensures var r, c := Received(f, n, p, saveOk), n.cfg.value;
      && r == n.(cfg := r.cfg, flash := r.flash, nextPercent := r.nextPercent, snapshot := r.snapshot)
      && |r.flash| == |f|
      && r.cfg == Some(c.(bitmap := Set(c.bitmap, p), written := c.written + Size(f, p)))
  {
    hide Flashed, Recorded, Set;
    FlashedShape(f, n, p, Size(f, p));
    RecordedShape(f, Flashed(f, n, p, Size(f, p)), p, saveOk);
  }

  lemma FinishShape(n: NodeState, bootOk: bool)
    requires n.cfg.Some?
    ensures var r, c := Finish(n, bootOk).0, n.cfg.value;
      && r == n.(snapshot := None, cfg := r.cfg, boot := r.boot, finished := r.finished, told := r.told,
                 forgot := r.forgot)
      && r.cfg == Some(c.(error := if bootOk then Ok else Other)) && (n.told ==> r.told)
      && (n.boot ==> r.boot) && (bootOk && c.written == c.total ==> r.told && r.boot)
  {
  }

  lemma DroppedShape(n: NodeState)
    requires n.cfg.Some?
    ensures var r := Dropped(n);
      && r == n.(snapshot := None, cfg := r.cfg, told := r.told, forgot := r.forgot) && (n.told ==> r.told)
      && r.cfg == Some(n.cfg.value.(written := 0, bitmap := Filled(0), error := Stop))
  {
    hide Filled;
  }

  /** Fields that no write touches, and a report of completion stays told. */
  ghost predicate SameRun(n: NodeState, r: NodeState) {
    && r.booted == n.booted && r.base == n.base && r.epoch == n.epoch
    && |r.flash| == |n.flash| && (n.told ==> r.told) && (n.boot ==> r.boot)
  }

  /** One more packet in the configuration, and a report if that completes it. */
  ghost predicate GainsPacket(f: Image, n: NodeState, p: nat, r: NodeState, bootOk: bool)
    requires n.cfg.Some? && p < PacketNum(f)
  {
    var c := n.cfg.value;
    && r.cfg.Some? && r.cfg.value.bitmap == Set(c.bitmap, p) && r.cfg.value.total == c.total
    && r.cfg.value.written == c.written + Size(f, p)
    && (r.cfg.value.error == Stop ==> c.error == Stop)
    && (bootOk && r.cfg.value.written == c.total ==> r.told && r.boot)
  }

  lemma StoredShape(f: Image, n: NodeState, p: nat, env: Env)
    requires |n.flash| == |f| && p < PacketNum(f) && Accepts(n, p)
    ensures var r := Stored(f, n, p, env).0;
      && SameRun(n, r) && r.miscounted == n.miscounted
      && if env.writeOk then GainsPacket(f, n, p, r, env.bootOk) else r.cfg == n.cfg
  {
    hide Received, Flashed, Finish, Get, Set;
    if env.writeOk {
      ReceivedShape(f, n, p, env.saveOk);
      FinishShape(Received(f, n, p, env.saveOk), env.bootOk);
    } else {
      FlashedShape(f, n, p, Min(env.programmed, Size(f, p)));
    }
  }

  /** How a write ends: the configuration as it was, emptied, or with one more packet. */
  lemma WriteShape(f: Image, n: NodeState, p: nat, env: Env)
    requires |n.flash| == |f| && p < PacketNum(f)
    ensures var r, l := WriteStep(f, n, p, env).0, Load(f, n);
      && SameRun(n, r) && r.miscounted == l.miscounted
      && (l.cfg.None? ==> r.cfg.None?)
      && (l.cfg.Some? && l.cfg.value.error == Stop ==> r.cfg == Dropped(l).cfg)
      && (l.cfg.Some? && l.cfg.value.error != Stop && (!Accepts(l, p) || !env.writeOk) ==> r.cfg == l.cfg)
      && (Accepts(l, p) && env.writeOk ==> GainsPacket(f, l, p, r, env.bootOk))
  {
    hide Load, Stored, Dropped, Get, GainsPacket;
    LoadShape(f, n);
    var l := Load(f, n);
    if l.cfg.Some? {
      DroppedShape(l);
      if Accepts(l, p) {
        StoredShape(f, l, p, env);
      }
    }
  }

  lemma WriteGrows(f: Image, n: NodeState, p: nat, env: Env)
    requires NodeInv(f, n) && p < PacketNum(f)
    ensures Grows(n, WriteStep(f, n, p, env).0)
  {
    hide Get, Set, FlashInv, CountInv, DoneInv, WriteStep, Load, Filled;
    WriteShape(f, n, p, env);
    LoadShape(f, n);
    if n.cfg.Some? {
      DroppedShape(n);
      forall q: nat | q < MAX_PACKETS
        ensures Get(n.cfg.value.bitmap, q) ==> Get(Set(n.cfg.value.bitmap, p), q)
      {
        GetSet(n.cfg.value.bitmap, p, q);
      }
    }
  }

  /** The array is appended, and says something, only about what the node then had. */
  ghost predicate Covers(progress: Bitmap, f: Image, n: NodeState) {
    n.cfg.Some? && forall p: nat :: p < PacketNum(f) && Get(progress, p) ==> Get(n.cfg.value.bitmap, p)
  }

  const LOSSLESS := Env(true, 0, true, true)

  /** The packets from k on that the progress array lacks, all delivered and written. */
  function Round(f: Image, n: NodeState, progress: Bitmap, k: nat): NodeState
    requires |n.flash| == |f| && k <= PacketNum(f)
    decreases PacketNum(f) - k
  {
    if k == PacketNum(f) then n
    else if Get(progress, k) then Round(f, n, progress, k + 1)
    else
      WriteKeepsLength(f, n, k, LOSSLESS);
      Round(f, WriteStep(f, n, k, LOSSLESS).0, progress, k + 1)
  }

  lemma WriteKeepsLength(f: Image, n: NodeState, p: nat, env: Env)
    requires |n.flash| == |f| && p < PacketNum(f)
    ensures |WriteStep(f, n, p, env).0.flash| == |f|
  {
    hide WriteStep;
    WriteShape(f, n, p, env);
  }

  /** Has every packet below k. */
  ghost predicate HasBelow(f: Image, n: NodeState, k: nat)
    requires k <= PacketNum(f)
  {
    n.cfg.Some? && n.cfg.value.error != Stop && AllSet(f, n.cfg.value.bitmap, k)
  }

  /** One write brings the node past packet k. */
  lemma WriteAdvances(f: Image, n: NodeState, k: nat)
    requires NodeInv(f, n) && k < PacketNum(f) && HasBelow(f, n, k)
    ensures HasBelow(f, WriteStep(f, n, k, LOSSLESS).0, k + 1)
  {
    hide Get, Set, FlashInv, CountInv, DoneInv, WriteStep, Load;
    WriteShape(f, n, k, LOSSLESS);
    LoadShape(f, n);
    forall q: nat | q < MAX_PACKETS
      ensures Get(Set(n.cfg.value.bitmap, k), q) <==> (k == q || Get(n.cfg.value.bitmap, q))
    {
      GetSet(n.cfg.value.bitmap, k, q);
    }
  }

  /** A round that loses nothing completes every node that already has what the array claims, and a
      node that was not complete before reports that it is. */
  lemma {:induction false} RoundCompletes(f: Image, n: NodeState, progress: Bitmap, k: nat)
    requires NodeInv(f, n) && !n.miscounted && k <= PacketNum(f)
    requires HasBelow(f, n, k) && Covers(progress, f, n)
    ensures NodeInv(f, Round(f, n, progress, k))
    ensures var m := Round(f, n, progress, k);
      && m.cfg.Some? && m.cfg.value.written == |f| && m.base == n.base && Programs(f, m)
      && ((m.told && m.boot) || n.cfg.value.written == |f|)
    decreases PacketNum(f) - k
  {
    hide NodeInv, Get, WriteStep;
    FormOf(f, n);
    if k == PacketNum(f) {
      AllBelow(f, n);
    } else if Get(progress, k) {
      RoundCompletes(f, n, progress, k + 1);
    } else {
      var m := WriteStep(f, n, k, LOSSLESS).0;
      WriteKeeps(f, n, k, LOSSLESS);
      WriteAdvances(f, n, k);
      WriteGrows(f, n, k, LOSSLESS);
      SameEpoch(f, n, k, LOSSLESS);
      CompletionTold(f, n, k);
      RoundCompletes(f, m, progress, k + 1);
      FormOf(f, m);
      RoundGrows(f, m, progress, k + 1);
    }
  }

  lemma {:induction false} RoundGrows(f: Image, n: NodeState, progress: Bitmap, k: nat)
    requires NodeInv(f, n) && |n.flash| == |f| && k <= PacketNum(f)
    ensures n.told && n.boot ==> Round(f, n, progress, k).told && Round(f, n, progress, k).boot
    decreases PacketNum(f) - k
  {
    hide NodeInv, Get, WriteStep;
    if k < PacketNum(f) {
      if Get(progress, k) {
        RoundGrows(f, n, progress, k + 1);
      } else {
        var m := WriteStep(f, n, k, LOSSLESS).0;
        WriteKeeps(f, n, k, LOSSLESS);
        StaysDone(f, n, k);
        FormOf(f, m);
        RoundGrows(f, m, progress, k + 1);
      }
    }
  }

  /** The packet that completes the count is answered by a report of completion. */
  lemma CompletionTold(f: Image, n: NodeState, p: nat)
    requires NodeInv(f, n) && n.cfg.Some? && p < PacketNum(f)
    ensures var m := WriteStep(f, n, p, LOSSLESS).0;
      m.cfg.Some? && (m.cfg.value.written == |f| ==> (m.told && m.boot) || n.cfg.value.written == |f|)
    ensures WriteStep(f, n, p, LOSSLESS).0.miscounted == n.miscounted && WriteStep(f, n, p, LOSSLESS).0.base == n.base
  {
    hide Get, Set, FlashInv, CountInv, DoneInv, WriteStep, Load;
    WriteShape(f, n, p, LOSSLESS);
    LoadShape(f, n);
  }

  lemma StaysDone(f: Image, n: NodeState, p: nat)
    requires |n.flash| == |f| && p < PacketNum(f)
    ensures var m := WriteStep(f, n, p, LOSSLESS).0; n.told && n.boot ==> m.told && m.boot
  {
    hide WriteStep, Load;
    WriteShape(f, n, p, LOSSLESS);
  }

  lemma SameEpoch(f: Image, n: NodeState, p: nat, env: Env)
    requires |n.flash| == |f| && p < PacketNum(f)
    ensures WriteStep(f, n, p, env).0.epoch == n.epoch
  {
    hide WriteStep;
    WriteShape(f, n, p, env);
  }

  lemma AllBelow(f: Image, n: NodeState)
    requires NodeInv(f, n) && !n.miscounted && HasBelow(f, n, PacketNum(f))
    ensures n.cfg.value.written == |f| && Programs(f, n)
  {
    hide Laid, Get;
    CompleteIffAllSet(f, n.cfg.value.bitmap);
    CompleteMeansImage(f, n.cfg.value, n.base, n.flash);
  }

  /** The packets of ps, delivered and written one after another. */
  function Delivered(f: Image, n: NodeState, ps: seq<nat>): (m: NodeState)
    requires |n.flash| == |f| && forall k :: 0 <= k < |ps| ==> ps[k] < PacketNum(f)
    ensures |m.flash| == |f|
    decreases |ps|
  {
    if ps == [] then n
    else
      var m := Delivered(f, n, ps[..|ps| - 1]);
      WriteKeepsLength(f, m, ps[|ps| - 1], LOSSLESS);
      WriteStep(f, m, ps[|ps| - 1], LOSSLESS).0
  }

  /** Delivering what the root sends in a complete pass is a round. */
  lemma DeliveredIsRound(f: Image, n: NodeState, progress: Bitmap)
    requires |n.flash| == |f|
    ensures Delivered(f, n, Missing(progress, PacketNum(f))) == Round(f, n, progress, 0)
  {
    RoundFrom(f, n, progress, PacketNum(f));
  }

  lemma {:induction false} RoundFrom(f: Image, n: NodeState, progress: Bitmap, k: nat)
    requires |n.flash| == |f| && k <= PacketNum(f)
    ensures Round(f, Delivered(f, n, Missing(progress, k)), progress, k) == Round(f, n, progress, 0)
    decreases k
  {
    hide WriteStep, Get, Missing, Delivered, Round, PacketNum;
    if k > 0 {
      RoundFrom(f, n, progress, k - 1);
      var ps := Missing(progress, k - 1);
      MissingStep(progress, k);
      RoundStep(f, Delivered(f, n, ps), progress, k - 1);
      if !Get(progress, k - 1) {
        DeliveredStep(f, n, ps, k - 1);
      }
    } else {
      NoneDelivered(f, n, progress);
    }
  }

  lemma NoneDelivered(f: Image, n: NodeState, progress: Bitmap)
    requires |n.flash| == |f|
    ensures Delivered(f, n, Missing(progress, 0)) == n
  {
  }

  lemma MissingStep(progress: Bitmap, k: nat)
    requires 0 < k <= MAX_PACKETS
    ensures Missing(progress, k)
         == if Get(progress, k - 1) then Missing(progress, k - 1) else Missing(progress, k - 1) + [k - 1]
  {
  }

  lemma RoundStep(f: Image, n: NodeState, progress: Bitmap, k: nat)
    requires |n.flash| == |f| && k < PacketNum(f)
    ensures |WriteStep(f, n, k, LOSSLESS).0.flash| == |f|
    ensures Round(f, n, progress, k)
         == if Get(progress, k) then Round(f, n, progress, k + 1)
            else Round(f, WriteStep(f, n, k, LOSSLESS).0, progress, k + 1)
  {
    hide WriteStep;
    WriteKeepsLength(f, n, k, LOSSLESS);
  }

  lemma DeliveredStep(f: Image, n: NodeState, ps: seq<nat>, p: nat)
    requires |n.flash| == |f| && p < PacketNum(f) && forall k :: 0 <= k < |ps| ==> ps[k] < PacketNum(f)
    ensures Delivered(f, n, ps + [p]) == WriteStep(f, Delivered(f, n, ps), p, LOSSLESS).0
  {
    hide WriteStep;
    assert (ps + [p])[..|ps + [p]| - 1] == ps;
  }

  // ----- a snapshot that is not the truth

  /** If the counter runs ahead of the bitmap by the size of the packets still missing but one, the
      node finishes without them. */
  lemma OvercountFinishesEarly(f: Image, n: NodeState, p: nat, q: nat)
    requires |n.flash| == |f| && p < PacketNum(f) && q < PacketNum(f) && p != q
    requires Accepts(n, p) && n.cfg.value.total == |f| && !Get(n.cfg.value.bitmap, q)
    requires n.cfg.value.written + Size(f, p) == |f|
    ensures var r := WriteStep(f, n, p, LOSSLESS);
      r.2 == Finished && r.0.cfg.Some? && !Get(r.0.cfg.value.bitmap, q) && |r.0.flash| == |f|
    ensures forall i :: PACKET_SIZE * q <= i < PACKET_SIZE * q + Size(f, q)
              ==> WriteStep(f, n, p, LOSSLESS).0.flash[i] == n.flash[i]
  {
    hide Get, Set, Received, Finish;
    GetSet(n.cfg.value.bitmap, p, q);
    ReceivedShape(f, n, p, true);
    ReceivedElsewhere(f, n, p, true);
    FinishShape(Received(f, n, p, true), true);
    FinishResult(Received(f, n, p, true), true);
  }

  lemma FinishResult(n: NodeState, bootOk: bool)
    requires n.cfg.Some?
    ensures Finish(n, bootOk).2 == if bootOk then Finished else BootError
  {
  }

  /** Flash outside the packet is not touched. */
  lemma ReceivedElsewhere(f: Image, n: NodeState, p: nat, saveOk: bool)
    requires |n.flash| == |f| && p < PacketNum(f) && n.cfg.Some? && n.cfg.value.total > 0
    ensures var r := Received(f, n, p, saveOk);
      && |r.flash| == |f|
      && forall i :: 0 <= i < |f| && !(PACKET_SIZE * p <= i < PACKET_SIZE * p + Size(f, p)) ==> r.flash[i] == n.flash[i]
  {
    hide Get, Set, Percent, Cut, Program, Data;
  }
}
