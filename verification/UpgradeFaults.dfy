/** What makes a report of completion worthless: exactly which events do it, exactly when a partition
    that was not erased does harm, and runs in which a node does not end as the root thinks. */
module UpgradeFaults {
  import opened AddressList
  import opened Bitmap
  import opened Firmware
  import opened NodeInvariant
  import opened NodeProgress
  import opened UpgradeRoot
  import opened UpgradeSystem
  import opened Wrappers
  import N = UpgradeNode

  /** The counter was taken from a snapshot that is wrong. */
  predicate LoadsWrong(f: Image, n: N.NodeState) {
    n.cfg.None? && n.snapshot.Some? && !N.Counts(f, n.snapshot.value)
  }

  /** A status request for a firmware the node knows nothing of. */
  predicate Restarts(n: N.NodeState, e: Event) {
    e.Status? && n.cfg.None? && n.snapshot.None?
  }

  /** Events whose handlers load the snapshot when there is no configuration. */
  predicate Loads(e: Event) {
    e.Status? || e.Write? || e.ResetInStatus? || e.ResetInWrite?
  }

  /** How each event changes what makes a node's completion worth something. It has forgotten exactly
      after a reset that leaves it with no snapshot and the old boot partition after it has told of its
      completion, until it tells again. Its counter is wrong exactly from the load of a snapshot whose
      counter is, until it starts anew. What the partition held is fixed by the start, erased or not. */
  lemma FlagsRaised(f: Image, n: N.NodeState, e: Event)
    requires N.NodeInv(f, n) && NodeEvent(e) && Possible(f, n, e)
    ensures var r := NodeNext(f, n, e);
      && (r.0.forgot <==> (n.forgot && !Completion(r.1)) || (IsReset(e) && N.Forgets(r.0)))
      && (r.0.miscounted <==> !Restarts(n, e) && (n.miscounted || (Loads(e) && LoadsWrong(f, n))))
      && r.0.base == if Restarts(n, e) then N.Erased(n.flash, if e.begin.eraseOk then |n.flash| else e.begin.erased)
                     else n.base
  {
    hide N.NodeInv, N.StatusStep, N.WriteStep, N.StopStep, N.Reset, N.ResetInStatus, N.ResetInWrite, N.ResetInStop,
      Completion, N.Forgets, LoadsWrong, N.Erased;
    Tells(f, n, e);
    match e
    case Status(_, begin) => StatusCounts(f, n, begin);
    case Write(_, p, env) => WriteCounts(f, n, p, env);
    case Stop(_, switchOk) => StopCounts(n, switchOk);
    case Reset(_) => ResetCounts(n);
    case ResetInStatus(_, erased) => ResetInStatusCounts(f, n, erased);
    case ResetInWrite(_, p, stage) => ResetInWriteCounts(f, n, p, stage);
    case ResetInStop(_, dropped) => ResetInStopCounts(n, dropped);
  }

  lemma LoadCounts(f: Image, n: N.NodeState)
    ensures var l := N.Load(f, n);
      (l.miscounted <==> n.miscounted || LoadsWrong(f, n)) && l.base == n.base && l.flash == n.flash
  {
    hide N.Counts;
  }

  lemma StatusCounts(f: Image, n: N.NodeState, begin: N.BeginEnv)
    requires N.NodeInv(f, n)
    ensures var m := N.StatusStep(f, n, begin).0;
      if n.cfg.None? && n.snapshot.None?
      then !m.miscounted && m.base == N.Erased(n.flash, if begin.eraseOk then |n.flash| else begin.erased)
      else (m.miscounted <==> n.miscounted || LoadsWrong(f, n)) && m.base == n.base
  {
    hide N.NodeInv, N.Load, N.Erased, N.Saved, Filled, LoadsWrong;
    LoadCounts(f, n);
    LoadKnown(f, n);
  }

  lemma LoadKnown(f: Image, n: N.NodeState)
    requires N.NodeInv(f, n)
    ensures N.Load(f, n).cfg.None? <==> n.cfg.None? && n.snapshot.None?
    ensures N.Load(f, n).cfg.Some? ==> N.Load(f, n).cfg.value.total == |f|
  {
    hide N.FlashInv, N.CountInv, N.DoneInv, N.Counts, Filled;
  }

  lemma WriteCounts(f: Image, n: N.NodeState, p: nat, env: N.Env)
    requires p < PacketNum(f) && |n.flash| == |f|
    ensures var m := N.WriteStep(f, n, p, env).0;
      (m.miscounted <==> n.miscounted || LoadsWrong(f, n)) && m.base == n.base
  {
    hide N.WriteStep, N.Load, N.Dropped, GainsPacket;
    WriteShape(f, n, p, env);
    LoadCounts(f, n);
  }

  lemma StopCounts(n: N.NodeState, switchOk: bool)
    ensures var m := N.StopStep(n, switchOk).0; m.miscounted == n.miscounted && m.base == n.base
  {
    hide N.Dropped;
    if n.cfg.Some? {
      DroppedShape(N.SwitchedBack(n));
    }
  }

  lemma ResetCounts(n: N.NodeState)
    ensures N.Reset(n).miscounted == n.miscounted && N.Reset(n).base == n.base
  {
  }

  lemma ResetInStatusCounts(f: Image, n: N.NodeState, erased: nat)
    ensures var m := N.ResetInStatus(f, n, erased);
      (m.miscounted <==> n.miscounted || LoadsWrong(f, n)) && m.base == n.base
  {
    hide N.Load, N.Erased, LoadsWrong;
    LoadCounts(f, n);
  }

  lemma ResetInWriteCounts(f: Image, n: N.NodeState, p: nat, stage: N.Stage)
    requires |n.flash| == |f| && p < PacketNum(f)
    ensures var m := N.ResetInWrite(f, n, p, stage);
      (m.miscounted <==> n.miscounted || LoadsWrong(f, n)) && m.base == n.base
  {
    hide N.Load, N.Flashed, N.Received, N.Reset, Get, LoadsWrong;
    LoadCounts(f, n);
    var l := N.Load(f, n);
    if !N.Accepts(l, p) {
      ResetCounts(l);
    } else if stage.Programming? {
      FlashedCounts(f, l, p, N.Min(stage.count, Size(f, p)));
      ResetCounts(N.Flashed(f, l, p, N.Min(stage.count, Size(f, p))));
    } else {
      ReceivedCounts(f, l, p, stage.saved);
      var r := N.Received(f, l, p, stage.saved);
      ResetCounts(r);
      ResetCounts(r.(snapshot := None));
      ResetCounts(r.(snapshot := None, boot := true));
    }
  }

  lemma FlashedCounts(f: Image, n: N.NodeState, p: nat, count: nat)
    requires |n.flash| == |f| && p < PacketNum(f) && count <= Size(f, p)
    ensures var r := N.Flashed(f, n, p, count); r.miscounted == n.miscounted && r.base == n.base
  {
    hide N.Flashed;
    FlashedShape(f, n, p, count);
  }

  lemma ReceivedCounts(f: Image, n: N.NodeState, p: nat, saveOk: bool)
    requires |n.flash| == |f| && p < PacketNum(f) && n.cfg.Some? && n.cfg.value.total > 0
    ensures var r := N.Received(f, n, p, saveOk); r.miscounted == n.miscounted && r.base == n.base
  {
    hide N.Received;
    ReceivedShape(f, n, p, saveOk);
  }

  lemma ResetInStopCounts(n: N.NodeState, dropped: bool)
    ensures var m := N.ResetInStop(n, dropped); m.miscounted == n.miscounted && m.base == n.base
  {
  }

  /** A completed node survives a reset exactly if it boots the new firmware or has a snapshot to resume
      from: otherwise the next status request erases what it had. */
  lemma SurvivesResetIff(f: Image, n: N.NodeState, begin: N.BeginEnv)
    requires N.NodeInv(f, n) && N.Trusted(n) && n.told && !n.booted && !Blank(f)
    ensures if N.Forgets(n) then !N.Reset(n).booted && N.StatusStep(f, N.Reset(n), N.ERASES).0.flash != f
            else N.Reset(n).booted || N.Programs(f, N.StatusStep(f, N.Reset(n), begin).0)
  {
    hide N.Counts, N.Held, Clean, Filled, N.Saved, Mixed;
    if N.Forgets(n) {
      var i :| 0 <= i < |f| && f[i] != ERASED;
      assert N.Erased(n.flash, |n.flash|)[i] == ERASED;
    }
  }

  // ----- runs that end badly

  /** The shortest image, one that an erased partition is not. */
  function Tiny(): (f: Image)
    ensures |f| == 1 && PacketNum(f) == 1 && Size(f, 0) == 1 && Data(f, 0) == [0] && f[0] == 0
  {
    [0]
  }

  const BOOT_FAILS := N.Env(true, 0, true, false)

  /** A node that has written the tiny image. */
  ghost predicate Complete1(n: N.NodeState) {
    && n.cfg.Some? && n.cfg.value.total == 1 && n.cfg.value.written == 1 && n.cfg.value.error != N.Stop
    && n.snapshot.None? && !n.forgot && !n.booted && |n.flash| == 1
  }

  /** The first status request and the one packet. */
  lemma FirstPacket(n: N.NodeState, env: N.Env)
    requires Fresh(Tiny(), n) && env.writeOk
    ensures var m := N.WriteStep(Tiny(), N.StatusStep(Tiny(), n, N.ERASES).0, 0, env);
      && |N.StatusStep(Tiny(), n, N.ERASES).0.flash| == 1
      && Complete1(m.0) && m.0.boot == env.bootOk && m.0.finished == env.bootOk && m.0.told == env.bootOk
      && m.0.flash == Tiny()
      && (env.bootOk ==> m.1.Some? && m.1.value.written == m.1.value.total)
  {
    hide Get, Set, Filled, N.Saved, N.Percent;
    var f := Tiny();
    var s := N.StatusStep(f, n, N.ERASES).0;
    GetFilled(0);
    assert s.flash == [ERASED];
    assert s.cfg.value.bitmap == Filled(0) && !Get(Filled(0), 0);
    ProgramErased(f[0]);
    assert Programmed(s.flash, 0, Data(f, 0), 1)[0] == 0;
  }

  /** One node with address 1, and a root that is to upgrade it. */
  function Single(n: N.NodeState): System {
    System([1], map[1 := n], RootState([1], [], [], [], Filled(0), map[]), {})
  }

  lemma SingleInit(n: N.NodeState)
    requires Fresh(Tiny(), n)
    ensures Init(Tiny(), Single(n)) && Run(Tiny(), Single(n), [], Single(n))
  {
  }

  /** The root takes a report of completion and counts the node as successed. */
  lemma RootCounts(s0: System, es: seq<Event>, s: System, r: N.Report) returns (t: System)
    requires Run(Tiny(), s0, es, s) && Message(1, r) in s.reports && Complete(r) && s.root.unfinished == [1]
    ensures Run(Tiny(), s0, es + [Drain(Message(1, r))], t) && t.nodes == s.nodes && 1 in t.root.successed
  {
    hide Run;
    t := Next(Tiny(), s, Drain(Message(1, r)));
    RunExtends(Tiny(), s0, es, s, Drain(Message(1, r)));
  }

  /** A completed node says so when asked. */
  lemma CompletionReported(n: N.NodeState)
    requires Complete1(n)
    ensures var m := N.StatusStep(Tiny(), n, N.ERASES);
      && Complete1(m.0) && m.0.told && m.0.boot == n.boot && m.0.flash == n.flash && m.1.written == m.1.total
  {
  }

  /** Reset to the old firmware, and asked again, it has erased its partition. */
  lemma ErasedAgain(n: N.NodeState)
    requires N.Forgets(n) && !n.booted && |n.flash| == 1
    ensures var m := N.Reset(n);
      !m.booted && N.StatusStep(Tiny(), m, N.ERASES).0.flash == [ERASED] && [ERASED] != Tiny()
  {
    hide N.Saved, Filled;
    assert N.Erased(n.flash, 1) == [ERASED];
  }

  /** Status request, packet, boot switch failing, status request, counted by the root, reset, status
      request. */
  ghost predicate SwitchFails(es: seq<Event>) {
    && |es| == 6 && es[..3] == [Status(1, N.ERASES), Write(1, 0, BOOT_FAILS), Status(1, N.ERASES)]
    && es[3].Drain? && es[4..] == [Reset(1), Status(1, N.ERASES)]
  }

  /** The root counts node 1 as successed, which does not hold the image. */
  ghost predicate CountedWithout(t: System) {
    1 in t.root.successed && 1 in t.nodes && t.nodes[1].flash != Tiny()
  }

  /** If the boot switch fails the root may count a node as successed whose partition is empty. */
  lemma BootFails(n: N.NodeState) returns (es: seq<Event>, t: System)
    requires Fresh(Tiny(), n)
    ensures Init(Tiny(), Single(n)) && Run(Tiny(), Single(n), es, t)
    ensures SwitchFails(es) && CountedWithout(t)
  {
    hide N.StatusStep, N.WriteStep, N.Reset, Complete1, Run, Init, Single;
    SingleInit(n);
    SingleNode(n);
    FirstPacket(n, BOOT_FAILS);
    FreshNotBooted(n);
    var begin := Status(1, N.ERASES);
    t := NodeMoves(Tiny(), Single(n), [], Single(n), begin);
    assert [] + [begin] == [begin];
    StatusNotBooted(n);
    t := NodeMoves(Tiny(), Single(n), [begin], t, Write(1, 0, BOOT_FAILS));
    var done := t.nodes[1];
    CompleteFacts(done);
    CompletionReported(done);
    t := NodeMoves(Tiny(), Single(n), [begin] + [Write(1, 0, BOOT_FAILS)], t, begin);
    es := [begin] + [Write(1, 0, BOOT_FAILS)] + [begin];
    var r := N.StatusStep(Tiny(), done, N.ERASES).1;
    t := RootCounts(Single(n), es, t, r);
    es := es + [Drain(Message(1, r))];
    CompleteFacts(t.nodes[1]);
    ErasedAgain(t.nodes[1]);
    t := NodeMoves(Tiny(), Single(n), es, t, Reset(1));
    t := NodeMoves(Tiny(), Single(n), es + [Reset(1)], t, begin);
    es := es + [Reset(1)] + [begin];
  }

  /** Status request, packet, counted by the root, a stop that switches the boot partition back, reset,
      status request. */
  ghost predicate SwitchedBackLater(es: seq<Event>) {
    && |es| == 6 && es[..2] == [Status(1, N.ERASES), Write(1, 0, LOSSLESS)]
    && es[2].Drain? && es[3..] == [Stop(1, true), Reset(1), Status(1, N.ERASES)]
  }

  /** The same if a stop comes after completion. */
  lemma StoppedAfterwards(n: N.NodeState) returns (es: seq<Event>, t: System)
    requires Fresh(Tiny(), n)
    ensures Init(Tiny(), Single(n)) && Run(Tiny(), Single(n), es, t)
    ensures SwitchedBackLater(es) && CountedWithout(t)
  {
    hide N.StatusStep, N.WriteStep, N.StopStep, N.Reset, Complete1, Run, Init, Single;
    SingleInit(n);
    SingleNode(n);
    FirstPacket(n, LOSSLESS);
    FreshNotBooted(n);
    var begin := Status(1, N.ERASES);
    t := NodeMoves(Tiny(), Single(n), [], Single(n), begin);
    assert [] + [begin] == [begin];
    StatusNotBooted(n);
    var r := N.WriteStep(Tiny(), t.nodes[1], 0, LOSSLESS).1.value;
    t := NodeMoves(Tiny(), Single(n), [begin], t, Write(1, 0, LOSSLESS));
    es := [begin] + [Write(1, 0, LOSSLESS)];
    CompleteFacts(t.nodes[1]);
    t := RootCounts(Single(n), es, t, r);
    es := es + [Drain(Message(1, r))];
    StopLeaves(t.nodes[1]);
    t := NodeMoves(Tiny(), Single(n), es, t, Stop(1, true));
    es := es + [Stop(1, true)];
    ErasedAgain(t.nodes[1]);
    t := NodeMoves(Tiny(), Single(n), es, t, Reset(1));
    t := NodeMoves(Tiny(), Single(n), es + [Reset(1)], t, begin);
    es := es + [Reset(1)] + [begin];
  }

  lemma SingleNode(n: N.NodeState)
    ensures Single(n).nodes == map[1 := n] && Single(n).root.unfinished == [1]
  {
  }

  lemma FreshNotBooted(n: N.NodeState)
    requires Fresh(Tiny(), n)
    ensures !n.booted
  {
  }

  lemma StatusNotBooted(n: N.NodeState)
    requires Fresh(Tiny(), n)
    ensures !N.StatusStep(Tiny(), n, N.ERASES).0.booted
  {
    hide N.Saved, Filled, N.Erased;
  }

  lemma CompleteFacts(n: N.NodeState)
    requires Complete1(n)
    ensures !n.booted && |n.flash| == 1 && n.snapshot.None?
  {
  }

  lemma StopLeaves(n: N.NodeState)
    requires Complete1(n) && n.told && n.finished
    ensures var m := N.StopStep(n, true).0; N.Forgets(m) && !m.booted && |m.flash| == 1
  {
    hide Filled;
  }

  // ----- erasure

  /** A node that starts the upgrade and gets every packet, whether or not its partition was erased,
      reports completion and would boot the new firmware. It has the image exactly if the partition was
      erased, or each byte left over had all the bits that the image needs. */
  lemma EraseFailsIff(f: Image, n: N.NodeState, begin: N.BeginEnv)
    requires Fresh(f, n)
    ensures |N.StatusStep(f, n, begin).0.flash| == |f|
    ensures var m := Round(f, N.StatusStep(f, n, begin).0, Filled(0), 0);
      && m.told && m.boot && m.flash == Mixed(N.StatusStep(f, n, begin).0.flash, f)
      && (m.flash == f <==> begin.eraseOk || forall i :: begin.erased <= i < |f| ==> Program(n.flash[i], f[i]) == f[i])
  {
    hide Mixed, Takes, Get, Round, N.StatusStep, N.WriteStep;
    FreshInv(f, n);
    Begun(f, n, begin);
    StatusKeeps(f, n, begin);
    var s := N.StatusStep(f, n, begin).0;
    NothingCovered(f, s);
    RoundCompletes(f, s, Filled(0), 0);
    MixedIsImage(s.base, f);
    LeftTakes(f, n.flash, if begin.eraseOk then |f| else begin.erased);
  }

  lemma FreshInv(f: Image, n: N.NodeState)
    requires Fresh(f, n)
    ensures N.NodeInv(f, n)
  {
  }

  /** The first status request. */
  lemma Begun(f: Image, n: N.NodeState, begin: N.BeginEnv)
    requires Fresh(f, n)
    ensures var s := N.StatusStep(f, n, begin).0;
      && s.cfg.Some? && s.cfg.value.bitmap == Filled(0) && s.cfg.value.written == 0 && s.cfg.value.error != N.Stop
      && !s.miscounted && s.base == s.flash
      && s.flash == N.Erased(n.flash, if begin.eraseOk then |n.flash| else begin.erased)
  {
    hide Filled, N.Saved, N.Erased;
  }

  lemma NothingCovered(f: Image, n: N.NodeState)
    requires n.cfg.Some? && n.cfg.value.error != N.Stop
    ensures Covers(Filled(0), f, n) && HasBelow(f, n, 0)
  {
    hide Get, Filled;
    forall p: nat | p < PacketNum(f)
      ensures !Get(Filled(0), p)
    {
      GetFilled(p);
    }
  }

  lemma LeftTakes(f: Image, flash: seq<bv8>, erased: nat)
    requires |flash| == |f|
    ensures Takes(f, N.Erased(flash, erased)) <==> forall i :: erased <= i < |f| ==> Program(flash[i], f[i]) == f[i]
  {
    hide Program;
    var e := N.Erased(flash, erased);
    forall i | 0 <= i < |f|
      ensures Program(e[i], f[i]) == if i < erased then f[i] else Program(flash[i], f[i])
    {
      ProgramErased(f[i]);
    }
    if Takes(f, e) {
      forall i | erased <= i < |f|
        ensures Program(flash[i], f[i]) == f[i]
      {
        assert Program(e[i], f[i]) == f[i];
      }
    }
  }

  /** So a bit that is missing stays missing: the node completes and reports so, without the image. */
  lemma EraseFails(n: N.NodeState)
    requires Fresh([1], n) && n.flash == [0]
    ensures var f: Image := [1];
      var s := N.StatusStep(f, n, N.BeginEnv(false, 0, true)).0;
      && PacketNum(f) == 1 && |s.flash| == 1
      && var m := N.WriteStep(f, s, 0, LOSSLESS); m.2 == N.Finished && m.0.told && m.0.boot && m.0.flash == [0]
  {
    hide Get, Set, N.Saved, N.Percent, Programmed, Filled, Mixed;
    var f: Image := [1];
    var begin := N.BeginEnv(false, 0, true);
    EraseFailsIff(f, n, begin);
    Begun(f, n, begin);
    var s := N.StatusStep(f, n, begin).0;
    GetFilled(0);
    assert s.flash == [0];
    OneRound(f, s);
    assert Mixed([0], f) == [0] by {
      NothingProgrammed();
    }
  }

  lemma OneRound(f: Image, n: N.NodeState)
    requires PacketNum(f) == 1 && |n.flash| == |f|
    ensures Round(f, n, Filled(0), 0) == N.WriteStep(f, n, 0, LOSSLESS).0
  {
    hide N.WriteStep, Filled, Get;
    GetFilled(0);
    WriteKeepsLength(f, n, 0, LOSSLESS);
  }

  lemma NothingProgrammed()
    ensures Mixed([0], [1]) == [0]
  {
    assert Program(0, 1) == 0;
  }

  // ----- between the lists

  /** Nodes 1 and 2, and a root that is to upgrade both. */
  function Pair(n1: N.NodeState, n2: N.NodeState): System {
    System([1, 2], map[1 := n1, 2 := n2], RootState([1, 2], [], [], [], Filled(0), map[]), {})
  }

  lemma PairInit(n1: N.NodeState, n2: N.NodeState)
    requires Fresh(Tiny(), n1) && Fresh(Tiny(), n2)
    ensures Init(Tiny(), Pair(n1, n2)) && Run(Tiny(), Pair(n1, n2), [], Pair(n1, n2))
  {
  }

  /** A report of a node that has no packet. */
  predicate Empty(r: N.Report) {
    r.written == 0 && r.total == 1 && r.error == N.Ok && r.progress.None?
  }

  lemma FirstReport(n: N.NodeState)
    requires Fresh(Tiny(), n)
    ensures Empty(N.StatusStep(Tiny(), n, N.ERASES).1)
  {
    hide Filled, N.Saved, N.Erased;
  }

  /** The root's part of the run: both nodes answer; later node 1 answers the second request, and the
      completion of node 2 comes between packets. */
  lemma RootUnlists(s: RootState, m1: Message, m2: Message, d2: Message)
    requires s.unfinished == [1, 2] && s.successed == [] && s.requested == []
    requires m1.src == 1 && m2.src == 2 && d2.src == 2 && Empty(m1.report) && Empty(m2.report) && Complete(d2.report)
    ensures var a := ResponseStep(ResponseStep(AskStep(s), m1), m2);
      var b := ResponseStep(AskStep(ClearStep(a)), m1);
      var t := SendDrainStep(b, d2);
      && a.requested == [1, 2] && b.requested == [1] && t.unfinished == [1] && t.successed == []
  {
    hide Filled;
    assert RemoveFirst([1, 2], 1) == [2] && RemoveFirst([2], 2) == [] && RemoveFirst([1, 2], 2) == [1];
  }

  /** A root event, as a step of the run. */
  lemma RootMoves(s0: System, es: seq<Event>, s: System, e: Event) returns (t: System)
    requires Run(Tiny(), s0, es, s) && !NodeEvent(e) && Enabled(Tiny(), s, e)
    ensures Run(Tiny(), s0, es + [e], t) && t == s.(root := RootNext(s.root, e))
  {
    hide Run, RootNext;
    t := Next(Tiny(), s, e);
    RunExtends(Tiny(), s0, es, s, e);
  }

  ghost predicate FirstAnswers(n2: N.NodeState, s: System, t: System, m1: Message, m2: Message) {
    && m1.src == 1 && m2.src == 2 && Empty(m1.report) && Empty(m2.report) && m1 in t.reports
    && t.root == ResponseStep(ResponseStep(AskStep(s.root), m1), m2)
    && 2 in t.nodes && t.nodes[2] == N.StatusStep(Tiny(), n2, N.ERASES).0
  }

  /** Both nodes are asked and answer. */
  lemma BothAnswer(n1: N.NodeState, n2: N.NodeState) returns (es: seq<Event>, t: System, m1: Message, m2: Message)
    requires Fresh(Tiny(), n1) && Fresh(Tiny(), n2)
    ensures Run(Tiny(), Pair(n1, n2), es, t) && FirstAnswers(n2, Pair(n1, n2), t, m1, m2)
    ensures es == [Status(1, N.ERASES), Status(2, N.ERASES), Ask, Response(m1), Response(m2)]
  {
    var f, s := Tiny(), Pair(n1, n2);
    hide N.StatusStep, Run, Init, Pair, AskStep, ResponseStep;
    PairInit(n1, n2);
    PairFacts(n1, n2);
    FirstReport(n1);
    FirstReport(n2);
    t := NodeMoves(f, s, [], s, Status(1, N.ERASES));
    t := NodeMoves(f, s, [] + [Status(1, N.ERASES)], t, Status(2, N.ERASES));
    es := [] + [Status(1, N.ERASES)] + [Status(2, N.ERASES)];
    m1, m2 := Message(1, N.StatusStep(f, n1, N.ERASES).1), Message(2, N.StatusStep(f, n2, N.ERASES).1);
    t := RootMoves(s, es, t, Ask);
    t := RootMoves(s, es + [Ask], t, Response(m1));
    t := RootMoves(s, es + [Ask] + [Response(m1)], t, Response(m2));
    es := es + [Ask] + [Response(m1)] + [Response(m2)];
  }

  /** Both nodes answer a status request, but only node 2 gets the packet; its report of completion comes
      after the next request, which node 1 alone has answered. */
  ghost predicate LateCompletion(es: seq<Event>) {
    && |es| == 10 && es[..3] == [Status(1, N.ERASES), Status(2, N.ERASES), Ask]
    && es[3].Response? && es[3].m.src == 1 && es[4].Response? && es[4].m.src == 2
    && es[5..] == [Write(2, 0, LOSSLESS), Clear, Ask, es[3], es[9]] && es[9].SendDrain? && es[9].m.src == 2
  }

  /** Node 2 is in neither list, although it has the image. */
  ghost predicate Unlisted(t: System) {
    && t.root.unfinished == [1] && t.root.successed == []
    && 2 in t.nodes && t.nodes[2].told && t.nodes[2].flash == Tiny()
  }

  /** A completed node may end in neither list. */
  lemma LeftUnlisted(n1: N.NodeState, n2: N.NodeState) returns (es: seq<Event>, t: System)
    requires Fresh(Tiny(), n1) && Fresh(Tiny(), n2)
    ensures Init(Tiny(), Pair(n1, n2)) && Run(Tiny(), Pair(n1, n2), es, t)
    ensures LateCompletion(es) && Unlisted(t)
  {
    var f, s := Tiny(), Pair(n1, n2);
    hide N.StatusStep, N.WriteStep, Run, Init, Pair, AskStep, ResponseStep, SendDrainStep, ClearStep, Complete1;
    PairInit(n1, n2);
    PairFacts(n1, n2);
    FirstPacket(n2, LOSSLESS);
    StatusNotBooted(n2);
    var m1, m2;
    es, t, m1, m2 := BothAnswer(n1, n2);
    var d2 := Message(2, N.WriteStep(f, t.nodes[2], 0, LOSSLESS).1.value);
    RootUnlists(s.root, m1, m2, d2);
    t := NodeMoves(f, s, es, t, Write(2, 0, LOSSLESS));
    es := es + [Write(2, 0, LOSSLESS)];
    ClearedRequests(t.root);
    t := RootMoves(s, es, t, Clear);
    t := RootMoves(s, es + [Clear], t, Ask);
    t := RootMoves(s, es + [Clear] + [Ask], t, Response(m1));
    es := es + [Clear] + [Ask] + [Response(m1)];
    t := RootMoves(s, es, t, SendDrain(d2));
    es := es + [SendDrain(d2)];
  }

  lemma ClearedRequests(s: RootState)
    ensures ClearStep(s).requested == []
  {
  }

  lemma PairFacts(n1: N.NodeState, n2: N.NodeState)
    requires Fresh(Tiny(), n1) && Fresh(Tiny(), n2)
    ensures var s := Pair(n1, n2);
      && s.nodes == map[1 := n1, 2 := n2] && s.root.unfinished == [1, 2] && s.root.successed == []
      && s.root.requested == []
      && !n1.booted && !n2.booted
  {
  }
}
