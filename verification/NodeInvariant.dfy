/** What every message, command and reset keeps of a node's state. */
module NodeInvariant {
  import opened Bitmap
  import opened Firmware
  import opened UpgradeNode
  import opened Wrappers

  // ----- snapshots

  lemma {:induction false} WrittenCut(f: Image, b: Bitmap, n: nat)
    requires n <= PacketNum(f)
    ensures n <= SAVED_PACKETS ==> Written(f, Cut(b), n) == Written(f, b, n)
    ensures Written(f, Cut(b), n) <= Written(f, b, n)
    ensures (exists p :: SAVED_PACKETS <= p < n && Get(b, p)) ==> Written(f, Cut(b), n) < Written(f, b, n)
    ensures (forall p :: SAVED_PACKETS <= p < n ==> !Get(b, p)) ==> Written(f, Cut(b), n) == Written(f, b, n)
  {
    if n > 0 {
      WrittenCut(f, b, n - 1);
      CutGet(b, n - 1);
    }
  }

  /** A snapshot tells the truth exactly when no packet beyond the saved part has been written. */
  lemma SnapshotTruthIff(f: Image, c: Config, base: seq<bv8>, flash: seq<bv8>)
    requires Truthful(f, c, base, flash)
    ensures Truthful(f, Saved(c), base, flash) <==> forall p :: SAVED_PACKETS <= p < PacketNum(f) ==> !Get(c.bitmap, p)
  {
    hide Cut;
    WrittenCut(f, c.bitmap, PacketNum(f));
    forall p: nat | p < MAX_PACKETS
      ensures Get(Cut(c.bitmap), p) == (p < SAVED_PACKETS && Get(c.bitmap, p))
    {
      CutGet(c.bitmap, p);
    }
    if c.error == Stop {
      CutNothing();
    }
  }

  lemma CutNothing()
    ensures Cut(Filled(0)) == Filled(0)
  {
  }

  /** What a snapshot keeps of the facts about a configuration. */
  lemma SavedFacts(f: Image, c: Config, base: seq<bv8>, flash: seq<bv8>)
    requires Formed(f, c)
    ensures Formed(f, Saved(c)) && (Held(f, c, base, flash) ==> Held(f, Saved(c), base, flash))
    ensures Counts(f, c) && SnapshotCovers(f) ==> Counts(f, Saved(c))
  {
    hide Cut, Get, Laid;
    WrittenCut(f, c.bitmap, PacketNum(f));
    forall p: nat | p < MAX_PACKETS
      ensures Get(Cut(c.bitmap), p) == (p < SAVED_PACKETS && Get(c.bitmap, p))
    {
      CutGet(c.bitmap, p);
    }
    if c.error == Stop {
      CutNothing();
    }
  }

  // ----- steps

  lemma LoadKeeps(f: Image, n: NodeState)
    requires NodeInv(f, n)
    ensures NodeInv(f, Load(f, n))
  {
    hide Formed, Held, Counts, Clean;
  }

  /** Without a configuration no completed node is left but one that has forgotten. */
  lemma StartedKeeps(f: Image, n: NodeState, env: BeginEnv)
    requires NodeInv(f, n) && n.cfg.None? && n.snapshot.None? && !n.booted
    ensures NodeInv(f, Started(f, n, env))
  {
    hide Cut, Get, Filled, Laid;
    WrittenNone(f, PacketNum(f));
    forall p: nat | p < MAX_PACKETS
      ensures !Get(Filled(0), p)
    {
      GetFilled(p);
    }
    CutNothing();
  }

  /** A complete count means the whole image has been programmed. */
  lemma CompleteMeansImage(f: Image, c: Config, base: seq<bv8>, flash: seq<bv8>)
    requires Truthful(f, c, base, flash) && |flash| == |base| == |f| && c.written == c.total
    ensures flash == Mixed(base, f)
  {
    hide Laid;
    CompleteIffAllSet(f, c.bitmap);
    AllLaid(f, base, flash);
  }

  /** What a report says about the node that has just sent it: complete only if told, a progress
      array exactly between nothing and everything, the array being the node's own bitmap. */
  ghost predicate ReportTrue(f: Image, n: NodeState, r: Report) {
    && r.total == |f| && r.epoch == n.epoch && n.cfg.Some? && r.error == n.cfg.value.error
    && (r.written == r.total ==> n.told)
    && (r.progress.Some? <==> r.written != 0 && r.written != r.total)
    && (r.progress.Some? ==> r.progress.value == n.cfg.value.bitmap)
    && (SnapshotCovers(f) ==> r.counted)
    && (r.counted ==> r.written <= r.total && (r.progress.Some? ==> !AllSet(f, r.progress.value, PacketNum(f))))
  }

  lemma ReportFacts(f: Image, n: NodeState)
    requires NodeInv(f, n) && n.cfg.Some? && (n.cfg.value.written == n.cfg.value.total ==> n.told)
    ensures ReportTrue(f, n, ReportOf(n))
  {
    hide FlashInv, DoneInv, Get, Written;
    CompleteIffAllSet(f, n.cfg.value.bitmap);
  }

  /** Reporting completion is true of a node that can be trusted. */
  lemma ToldKeeps(f: Image, n: NodeState)
    requires NodeInv(f, n) && n.cfg.Some?
    ensures NodeInv(f, Told(n)) && ReportTrue(f, Told(n), ReportOf(n))
  {
    assert ReportOf(n) == ReportOf(Told(n));
    assert NodeInv(f, Told(n)) by {
      hide Clean, Get, Written, Laid;
      if !n.miscounted && n.cfg.value.written == n.cfg.value.total {
        CompleteMeansImage(f, n.cfg.value, n.base, n.flash);
      }
    }
    hide NodeInv;
    ReportFacts(f, Told(n));
  }

  /** Another error code says nothing about flash. */
  lemma ErrorKeeps(f: Image, n: NodeState, e: Error)
    requires NodeInv(f, n) && n.cfg.Some? && (e == Stop ==> n.cfg.value.error == Stop)
    ensures NodeInv(f, n.(cfg := Some(n.cfg.value.(error := e))))
  {
    hide Clean, Get, Written, Laid;
  }

  lemma StatusKeeps(f: Image, n: NodeState, env: BeginEnv)
    requires NodeInv(f, n) && !n.booted
    ensures NodeInv(f, StatusStep(f, n, env).0) && ReportTrue(f, StatusStep(f, n, env).0, StatusStep(f, n, env).1)
  {
    hide NodeInv, Started, Counts, ReportTrue;
    var n1 := Load(f, n);
    LoadKeeps(f, n);
    FormOf(f, n1);
    if n1.cfg.None? {
      StartedKeeps(f, n1, env);
    }
    StartedShape(f, n1, env);
    var known := n1.cfg.Some?;
    var n2 := if known then n1 else Started(f, n1, env);
    var c := n2.cfg.value;
    var e := if c.error == Stop then Stop else if known || (env.eraseOk && env.saveOk) then Ok else Other;
    ErrorKeeps(f, n2, e);
    ToldKeeps(f, n2.(cfg := Some(c.(error := e))));
  }

  lemma StartedShape(f: Image, n: NodeState, env: BeginEnv)
    ensures Started(f, n, env).cfg.Some? && Started(f, n, env).cfg.value.error != Stop
  {
  }

  lemma FormOf(f: Image, n: NodeState)
    requires NodeInv(f, n)
    ensures |n.flash| == |f| && (n.cfg.Some? ==> n.cfg.value.total == |f|)
    ensures (n.snapshot.Some? ==> n.snapshot.value.total == |f|)
  {
  }

  lemma FlashedKeeps(f: Image, n: NodeState, p: nat, count: nat)
    requires NodeInv(f, n) && n.cfg.Some? && p < PacketNum(f) && count <= Size(f, p)
    ensures NodeInv(f, Flashed(f, n, p, count))
    ensures count == Size(f, p) ==> Laid(f, n.base, Flashed(f, n, p, count).flash, p)
  {
    hide Clean, Laid, Get, Programmed, Data, Written, Mixed;
    var r := Programmed(n.flash, PACKET_SIZE * p, Data(f, p), count);
    forall q: nat | q < PacketNum(f)
      ensures Laid(f, n.base, n.flash, q) ==> Laid(f, n.base, r, q)
    {
      ProgramKeeps(f, n.base, n.flash, p, count, q);
    }
    ProgramKeeps(f, n.base, n.flash, p, count, p);
    ProgramMixed(f, n.base, p, count);
  }

  /** Programming the image again changes nothing. */
  lemma ProgramMixed(f: Image, base: seq<bv8>, p: nat, count: nat)
    requires p < PacketNum(f) && count <= Size(f, p) && |base| == |f|
    ensures Programmed(Mixed(base, f), PACKET_SIZE * p, Data(f, p), count) == Mixed(base, f)
  {
    hide Program, Size;
    var m := Mixed(base, f);
    var r := Programmed(m, PACKET_SIZE * p, Data(f, p), count);
    forall i | 0 <= i < |f|
      ensures r[i] == m[i]
    {
      ProgramTwice(base[i], f[i]);
    }
  }

  /** One more packet marked and counted. */
  lemma RecordedFacts(f: Image, c: Config, base: seq<bv8>, flash: seq<bv8>, p: nat)
    requires Formed(f, c) && p < PacketNum(f) && !Get(c.bitmap, p) && c.error != Stop
    ensures var d := c.(bitmap := Set(c.bitmap, p), written := c.written + Size(f, p));
      && Formed(f, d) && (Held(f, c, base, flash) && Laid(f, base, flash, p) ==> Held(f, d, base, flash))
      && (Counts(f, c) ==> Counts(f, d))
  {
    hide Laid, Get, Set;
    WrittenSet(f, c.bitmap, p, PacketNum(f));
    forall q: nat | q < MAX_PACKETS
      ensures Get(Set(c.bitmap, p), q) <==> (p == q || Get(c.bitmap, q))
    {
      GetSet(c.bitmap, p, q);
    }
  }

  lemma RecordedKeeps(f: Image, n: NodeState, p: nat, saveOk: bool)
    requires NodeInv(f, n) && p < PacketNum(f) && Accepts(n, p) && Laid(f, n.base, n.flash, p)
    ensures NodeInv(f, Recorded(f, n, p, saveOk))
    ensures var r := Recorded(f, n, p, saveOk);
      r.cfg.Some? && r.cfg.value.error == n.cfg.value.error && r.told == n.told
    ensures var r := Recorded(f, n, p, saveOk); r.booted == n.booted && r.boot == n.boot && r.forgot == n.forgot
  {
    hide NodeInv, Laid, Get, Set, Formed, Held, Counts, Recorded, Saved;
    ConfigFacts(f, n);
    var c := n.cfg.value;
    var d := c.(bitmap := Set(c.bitmap, p), written := c.written + Size(f, p));
    RecordedFacts(f, c, n.base, n.flash, p);
    SavedFacts(f, d, n.base, n.flash);
    RecordedAs(f, n, p, saveOk);
    NewConfig(f, n, d, Recorded(f, n, p, saveOk));
  }

  lemma ConfigFacts(f: Image, n: NodeState)
    requires NodeInv(f, n) && n.cfg.Some?
    ensures Formed(f, n.cfg.value) && Held(f, n.cfg.value, n.base, n.flash)
  {
    hide Formed, Held, CountInv, DoneInv;
  }

  /** Recording replaces the configuration, and perhaps the snapshot. */
  lemma RecordedAs(f: Image, n: NodeState, p: nat, saveOk: bool)
    requires p < PacketNum(f) && n.cfg.Some? && n.cfg.value.total > 0
    ensures var r, c := Recorded(f, n, p, saveOk), n.cfg.value;
      var d := c.(bitmap := Set(c.bitmap, p), written := c.written + Size(f, p));
      && r == n.(cfg := Some(d), nextPercent := r.nextPercent, snapshot := r.snapshot)
      && (r.snapshot == n.snapshot || r.snapshot == Some(Saved(d)))
  {
    hide Set, Percent, Saved, Size;
  }

  /** A new configuration, perhaps saved, that is as good as the old one. */
  lemma NewConfig(f: Image, n: NodeState, d: Config, r: NodeState)
    requires NodeInv(f, n) && n.cfg.Some? && Formed(f, d) && Formed(f, Saved(d))
    requires Held(f, d, n.base, n.flash) && Held(f, Saved(d), n.base, n.flash)
    requires Counts(f, n.cfg.value) ==> Counts(f, d)
    requires SnapshotCovers(f) && Counts(f, d) ==> Counts(f, Saved(d))
    requires r == n.(cfg := Some(d), nextPercent := r.nextPercent, snapshot := r.snapshot)
    requires r.snapshot == n.snapshot || r.snapshot == Some(Saved(d))
    ensures NodeInv(f, r)
  {
    hide Clean, Formed, Held, Counts, Saved, Mixed;
  }

  lemma ReceivedKeeps(f: Image, n: NodeState, p: nat, saveOk: bool)
    requires NodeInv(f, n) && p < PacketNum(f) && Accepts(n, p) && |n.flash| == |f|
    ensures NodeInv(f, Received(f, n, p, saveOk))
    ensures var r := Received(f, n, p, saveOk);
      r.cfg.Some? && r.cfg.value.error == n.cfg.value.error && r.told == n.told
    ensures var r := Received(f, n, p, saveOk); r.booted == n.booted && r.boot == n.boot && r.forgot == n.forgot
  {
    hide NodeInv, Get, Programmed, Recorded, Laid;
    FlashedKeeps(f, n, p, Size(f, p));
    RecordedKeeps(f, Flashed(f, n, p, Size(f, p)), p, saveOk);
  }

  /** With a counter to be trusted, the finish branch is reached only when the complete image has been
      programmed. */
  lemma FinishKeeps(f: Image, n: NodeState, bootOk: bool)
    requires NodeInv(f, n) && n.cfg.Some? && n.cfg.value.error != Stop && n.cfg.value.written == n.cfg.value.total
    ensures !n.miscounted ==> Programs(f, n)
    ensures NodeInv(f, Finish(n, bootOk).0) && Finish(n, bootOk).0.flash == n.flash
    ensures Finish(n, bootOk).0.base == n.base
    ensures Finish(n, bootOk).1.Some? ==> ReportTrue(f, Finish(n, bootOk).0, Finish(n, bootOk).1.value)
  {
    hide Clean, Laid, Get, Written, ReportTrue;
    if !n.miscounted {
      CompleteMeansImage(f, n.cfg.value, n.base, n.flash);
    }
    if bootOk {
      var m := n.(snapshot := None, cfg := Some(n.cfg.value.(error := Ok)), boot := true, finished := true);
      ToldKeeps(f, m);
    }
  }

  lemma DroppedKeeps(f: Image, n: NodeState)
    requires NodeInv(f, n) && n.cfg.Some?
    ensures NodeInv(f, Dropped(n)) && ReportTrue(f, Dropped(n), ReportOf(Dropped(n))) && Dropped(n).cfg.Some?
  {
    hide Clean, Laid, Get, ReportTrue, Mixed;
    WrittenNone(f, PacketNum(f));
    forall p: nat | p < MAX_PACKETS
      ensures !Get(Filled(0), p)
    {
      GetFilled(p);
    }
    var m := n.(cfg := Some(n.cfg.value.(written := 0, bitmap := Filled(0), error := Stop)), snapshot := None);
    assert NodeInv(f, m);
    ToldKeeps(f, m);
    assert ReportOf(m) == ReportOf(Told(m));
  }

  lemma StoredKeeps(f: Image, n: NodeState, p: nat, env: Env)
    requires NodeInv(f, n) && p < PacketNum(f) && Accepts(n, p) && |n.flash| == |f|
    ensures var r := Stored(f, n, p, env);
      NodeInv(f, r.0) && (r.1.Some? ==> ReportTrue(f, r.0, r.1.value))
    ensures var r := Stored(f, n, p, env); r.2 in {Finished, BootError} && !r.0.miscounted ==> Programs(f, r.0)
  {
    hide NodeInv, ReportTrue, Flashed, Received, Finish, Get;
    if env.writeOk {
      ReceivedKeeps(f, n, p, env.saveOk);
      var m := Received(f, n, p, env.saveOk);
      if m.cfg.value.written == m.cfg.value.total {
        FinishKeeps(f, m, env.bootOk);
        FinishFlags(m, env.bootOk);
      }
    } else {
      FlashedKeeps(f, n, p, Min(env.programmed, Size(f, p)));
    }
  }

  lemma FinishFlags(n: NodeState, bootOk: bool)
    requires n.cfg.Some?
    ensures Finish(n, bootOk).0.miscounted == n.miscounted
  {
  }

  /** A packet, whatever the calls into the system return. With a counter to be trusted, a node that
      finishes, or tries to, has had the whole image programmed. */
  lemma WriteKeeps(f: Image, n: NodeState, p: nat, env: Env)
    requires NodeInv(f, n) && p < PacketNum(f)
    ensures NodeInv(f, WriteStep(f, n, p, env).0)
    ensures WriteStep(f, n, p, env).1.Some? ==>
      ReportTrue(f, WriteStep(f, n, p, env).0, WriteStep(f, n, p, env).1.value)
    ensures var r := WriteStep(f, n, p, env); r.2 in {Finished, BootError} && !r.0.miscounted ==> Programs(f, r.0)
  {
    hide NodeInv, ReportTrue, Stored, Dropped, Get, Counts;
    var n1 := Load(f, n);
    LoadKeeps(f, n);
    FormOf(f, n1);
    if n1.cfg.Some? {
      DroppedKeeps(f, n1);
      if Accepts(n1, p) {
        StoredKeeps(f, n1, p, env);
      }
    }
  }

  lemma StopKeeps(f: Image, n: NodeState, switchOk: bool)
    requires NodeInv(f, n)
    ensures NodeInv(f, StopStep(n, switchOk).0)
    ensures StopStep(n, switchOk).1.Some? ==> ReportTrue(f, StopStep(n, switchOk).0, StopStep(n, switchOk).1.value)
  {
    hide Clean, Laid, Get, Written, Dropped, Formed, Counts, Mixed;
    if n.cfg.Some? {
      SwitchedBackKeeps(f, n);
      DroppedKeeps(f, SwitchedBack(n));
    }
  }

  lemma SwitchedBackKeeps(f: Image, n: NodeState)
    requires NodeInv(f, n)
    ensures NodeInv(f, SwitchedBack(n))
  {
    hide Formed, Held, Counts, Clean;
  }

  lemma ResetKeeps(f: Image, n: NodeState)
    requires NodeInv(f, n)
    ensures NodeInv(f, Reset(n))
  {
    hide Formed, Held, Counts, Clean;
  }

  lemma SnapshotGone(f: Image, n: NodeState)
    requires NodeInv(f, n) && n.cfg.Some?
    ensures NodeInv(f, n.(snapshot := None))
  {
    hide Formed, Held, Counts, Clean;
  }

  /** Crash and resume: wherever in a packet the reset strikes, what is reloaded is as true as before. */
  lemma ResetInWriteKeeps(f: Image, n: NodeState, p: nat, stage: Stage)
    requires NodeInv(f, n) && p < PacketNum(f)
    ensures NodeInv(f, ResetInWrite(f, n, p, stage))
  {
    hide NodeInv, Flashed, Received, Reset, Get, Counts;
    var n1 := Load(f, n);
    LoadKeeps(f, n);
    FormOf(f, n1);
    if Accepts(n1, p) {
      match stage
      case Programming(count) =>
        FlashedKeeps(f, n1, p, Min(count, Size(f, p)));
        ResetKeeps(f, Flashed(f, n1, p, Min(count, Size(f, p))));
      case AfterRecord(saved) =>
        ReceivedKeeps(f, n1, p, saved);
        ResetKeeps(f, Received(f, n1, p, saved));
      case AfterErase(saved) =>
        ReceivedKeeps(f, n1, p, saved);
        var r := Received(f, n1, p, saved);
        SnapshotGone(f, r);
        ResetKeeps(f, if r.cfg.value.written == r.cfg.value.total then r.(snapshot := None) else r);
      case AfterSwitch(saved) =>
        ReceivedKeeps(f, n1, p, saved);
        var r := Received(f, n1, p, saved);
        if r.cfg.value.written == r.cfg.value.total {
          SnapshotGone(f, r);
          SwitchKeeps(f, r.(snapshot := None));
        }
        ResetKeeps(f, if r.cfg.value.written == r.cfg.value.total then r.(snapshot := None, boot := true) else r);
    } else {
      ResetKeeps(f, n1);
    }
  }

  lemma SwitchKeeps(f: Image, n: NodeState)
    requires NodeInv(f, n) && n.cfg.Some? && n.cfg.value.written == n.cfg.value.total
    ensures NodeInv(f, n.(boot := true))
  {
    hide Clean, Laid, Get, Written, Mixed;
    if !n.miscounted {
      CompleteMeansImage(f, n.cfg.value, n.base, n.flash);
    }
  }

  lemma ResetInStatusKeeps(f: Image, n: NodeState, erased: nat)
    requires NodeInv(f, n) && !n.booted
    ensures NodeInv(f, ResetInStatus(f, n, erased))
  {
    hide NodeInv, Reset, Erased, Counts;
    var n1 := Load(f, n);
    LoadKeeps(f, n);
    FormOf(f, n1);
    if n1.cfg.Some? {
      ResetKeeps(f, n1);
    } else {
      ErasedKeeps(f, n1, erased);
      ResetKeeps(f, n1.(flash := Erased(n1.flash, erased)));
    }
  }

  lemma ErasedKeeps(f: Image, n: NodeState, erased: nat)
    requires NodeInv(f, n) && n.cfg.None? && n.snapshot.None? && !n.booted
    ensures NodeInv(f, n.(flash := Erased(n.flash, erased)))
  {
  }

  lemma ResetInStopKeeps(f: Image, n: NodeState, dropped: bool)
    requires NodeInv(f, n)
    ensures NodeInv(f, ResetInStop(n, dropped))
  {
    hide NodeInv, Reset;
    if n.cfg.None? {
      ResetKeeps(f, n);
    } else {
      SwitchedBackKeeps(f, n);
      SnapshotGone(f, SwitchedBack(n));
      ResetKeeps(f, if dropped then SwitchedBack(n).(snapshot := None) else SwitchedBack(n));
    }
  }
}
