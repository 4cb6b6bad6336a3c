/** The whole upgrade: the root, its nodes, and a network that may lose, repeat and reorder reports.

    Every report ever sent stays in the network, so the root may take any of them, any number of
    times, or never. A node may receive any packet at any time, be stopped, or be reset and lose its
    memory. One firmware image f is sent in one run. */
module UpgradeSystem {
  import opened AddressList
  import opened Bitmap
  import opened Firmware
  import opened NodeInvariant
  import opened NodeProgress
  import opened UpgradeRoot
  import opened Wrappers
  import N = UpgradeNode
  import R = RootDevice

  /** asked are the addresses the upgrade was started for. */
  datatype System = System(asked: seq<Addr>, nodes: map<Addr, N.NodeState>, root: RootState, reports: set<Message>)

  datatype Event =
    | Status(a: Addr, begin: N.BeginEnv)
    | Write(a: Addr, p: nat, env: N.Env)
    | Stop(a: Addr, switchOk: bool)
    | Reset(a: Addr)
    | ResetInStatus(a: Addr, erased: nat)
    | ResetInWrite(a: Addr, p: nat, stage: N.Stage)
    | ResetInStop(a: Addr, dropped: bool)
    | Clear
    | Drain(m: Message)
    | Ask
    | Response(m: Message)
    | SendDrain(m: Message)

  predicate NodeEvent(e: Event) {
    e.Status? || e.Write? || e.Stop? || e.Reset? || e.ResetInStatus? || e.ResetInWrite? || e.ResetInStop?
  }

  /** What a node can be subjected to; once it runs the new firmware it takes no further part. */
  predicate Possible(f: Image, n: N.NodeState, e: Event)
    requires NodeEvent(e)
  {
    !n.booted && (e.Write? || e.ResetInWrite? ==> e.p < PacketNum(f) && |n.flash| == |f|)
  }

  predicate Enabled(f: Image, s: System, e: Event) {
    if NodeEvent(e) then e.a in s.nodes && Possible(f, s.nodes[e.a], e)
    else
      && (e.Drain? || e.Response? || e.SendDrain? ==> e.m in s.reports)
      && (e.Ask? ==> s.root.requested == [])
  }

  function NodeNext(f: Image, n: N.NodeState, e: Event): (N.NodeState, Option<N.Report>)
    requires NodeEvent(e) && Possible(f, n, e)
  {
    match e
    case Status(_, begin) => var r := N.StatusStep(f, n, begin); (r.0, Some(r.1))
    case Write(_, p, env) => var r := N.WriteStep(f, n, p, env); (r.0, r.1)
    case Stop(_, switchOk) => N.StopStep(n, switchOk)
    case Reset(_) => (N.Reset(n), None)
    case ResetInStatus(_, erased) => (N.ResetInStatus(f, n, erased), None)
    case ResetInWrite(_, p, stage) => (N.ResetInWrite(f, n, p, stage), None)
    case ResetInStop(_, dropped) => (N.ResetInStop(n, dropped), None)
  }

  function RootNext(r: RootState, e: Event): RootState
    requires !NodeEvent(e)
  {
    match e
    case Clear => ClearStep(r)
    case Drain(m) => DrainStep(r, m)
    case Ask => AskStep(r)
    case Response(m) => ResponseStep(r, m)
    case SendDrain(m) => SendDrainStep(r, m)
  }

  function Next(f: Image, s: System, e: Event): System
    requires Enabled(f, s, e)
  {
    if NodeEvent(e) then
      var r := NodeNext(f, s.nodes[e.a], e);
      s.(nodes := s.nodes[e.a := r.0],
         reports := if r.1.Some? then s.reports + {Message(e.a, r.1.value)} else s.reports)
    else s.(root := RootNext(s.root, e))
  }

  /** s leads to t by the events es, each of them enabled. */
  ghost predicate Run(f: Image, s: System, es: seq<Event>, t: System)
    decreases |es|
  {
    if es == [] then t == s
    else
      var e := es[|es| - 1];
      exists u :: Run(f, s, es[..|es| - 1], u) && Enabled(f, u, e) && t == Next(f, u, e)
  }

  ghost predicate Fresh(f: Image, n: N.NodeState) {
    && |n.flash| == |f| && n.cfg.None? && n.snapshot.None? && !n.finished && !n.boot && !n.booted && !n.told
    && !n.forgot && !n.miscounted && |n.base| == |f|
  }

  /** Before the upgrade: nodes that know nothing of it, whatever their partitions hold. */
  ghost predicate Init(f: Image, s: System) {
    && (forall a :: a in s.nodes ==> Fresh(f, s.nodes[a]))
    && Distinct(s.asked) && (forall a :: a in s.asked ==> a in s.nodes)
    && s.root.unfinished == s.asked && s.root.successed == [] && s.root.requested == [] && s.root.pending == []
    && s.reports == {}
  }

  // ----- the invariant

  /** What an old report still says about its node. */
  ghost predicate ReportKept(f: Image, n: N.NodeState, r: N.Report) {
    && r.total == |f| && r.epoch <= n.epoch
    && (r.written == r.total ==> n.told)
    && (r.progress.Some? <==> r.written != 0 && r.written != r.total)
    && (r.counted ==> r.written <= r.total && (r.progress.Some? ==> !AllSet(f, r.progress.value, PacketNum(f))))
    && (N.SnapshotCovers(f) ==> r.counted)
    && (r.epoch == n.epoch ==> n.cfg.Some? && (r.progress.Some? ==> Covers(r.progress.value, f, n)))
  }

  ghost predicate NodesInv(f: Image, s: System) {
    forall a :: a in s.nodes ==> N.NodeInv(f, s.nodes[a])
  }

  ghost predicate ReportsInv(f: Image, s: System) {
    forall m :: m in s.reports ==> m.src in s.nodes && ReportKept(f, s.nodes[m.src], m.report)
  }

  /** Where an address may be: still unfinished, told to be complete, or stopped by its own report. */
  ghost predicate Placed(s: System, a: Addr) {
    a in s.root.unfinished || (a in s.nodes && s.nodes[a].told) || HasStopped(s, a)
  }

  ghost predicate HasStopped(s: System, a: Addr) {
    exists r :: Message(a, r) in s.reports && r.error == N.Stop
  }

  ghost predicate ListsInv(s: System) {
    && ListInv(s.root)
    && (forall a :: a in s.root.unfinished ==> a in s.asked)
    && (forall a :: a in s.root.successed ==> a in s.asked && a in s.nodes && s.nodes[a].told)
    && (forall a :: a in s.asked ==> Placed(s, a))
  }

  /** A requested node whose progress is not lost since its answer has every packet the array marks. */
  ghost predicate Answered(f: Image, s: System, a: Addr) {
    && a in s.nodes && a in s.root.heard && s.root.heard[a] <= s.nodes[a].epoch
    && (s.root.heard[a] == s.nodes[a].epoch ==> Covers(s.root.progress, f, s.nodes[a]))
  }

  ghost predicate RequestedInv(f: Image, s: System) {
    forall a :: a in s.root.requested ==> Answered(f, s, a)
  }

  /** A completed node has sent a report that says so. */
  ghost predicate ReportedInv(s: System) {
    forall a :: a in s.nodes && s.nodes[a].told ==> HasReported(s, a)
  }

  ghost predicate HasReported(s: System, a: Addr) {
    exists r :: Message(a, r) in s.reports && Complete(r)
  }

  ghost predicate Inv(f: Image, s: System) {
    NodesInv(f, s) && ReportsInv(f, s) && ListsInv(s) && RequestedInv(f, s) && ReportedInv(s)
  }

  lemma InitInv(f: Image, s: System)
    requires Init(f, s)
    ensures Inv(f, s)
  {
  }

  // ----- node events

  /** One node event keeps the node's invariant, loses nothing within an epoch, and reports the truth. */
  lemma NodeStep(f: Image, n: N.NodeState, e: Event)
    requires N.NodeInv(f, n) && NodeEvent(e) && Possible(f, n, e)
    ensures N.NodeInv(f, NodeNext(f, n, e).0) && Grows(n, NodeNext(f, n, e).0)
    ensures NodeNext(f, n, e).1.Some? ==> ReportTrue(f, NodeNext(f, n, e).0, NodeNext(f, n, e).1.value)
  {
    hide N.NodeInv, Grows, ReportTrue, N.StatusStep, N.WriteStep, N.StopStep, N.Reset, N.ResetInStatus, N.ResetInWrite,
      N.ResetInStop;
    match e
    case Status(_, begin) =>
      StatusKeeps(f, n, begin);
      StatusGrows(f, n, begin);
    case Write(_, p, env) =>
      WriteKeeps(f, n, p, env);
      WriteGrows(f, n, p, env);
    case Stop(_, switchOk) =>
      StopKeeps(f, n, switchOk);
      StopGrows(n, switchOk);
    case Reset(_) =>
      ResetKeeps(f, n);
      ResetGrows(n);
    case ResetInStatus(_, erased) =>
      ResetInStatusKeeps(f, n, erased);
      ResetInStatusGrows(f, n, erased);
    case ResetInWrite(_, p, stage) =>
      ResetInWriteKeeps(f, n, p, stage);
      ResetInWriteGrows(f, n, p, stage);
    case ResetInStop(_, dropped) =>
      ResetInStopKeeps(f, n, dropped);
      ResetInStopGrows(n, dropped);
  }

  lemma StopGrows(n: N.NodeState, switchOk: bool)
    ensures Grows(n, N.StopStep(n, switchOk).0)
  {
    hide Get, N.Dropped;
    if n.cfg.Some? {
      DroppedShape(N.SwitchedBack(n));
    }
  }

  lemma ResetGrows(n: N.NodeState)
    ensures Grows(n, N.Reset(n))
  {
  }

  lemma ResetInStatusGrows(f: Image, n: N.NodeState, erased: nat)
    ensures Grows(n, N.ResetInStatus(f, n, erased))
  {
    hide Get, N.Erased, N.Load;
    LoadShape(f, n);
  }

  /** A reset starts a new epoch. */
  lemma ResetAfter(n: N.NodeState, m: N.NodeState)
    requires n.epoch == m.epoch && (n.told ==> m.told)
    ensures Grows(n, N.Reset(m))
  {
    hide Get;
  }

  lemma LoadRun(f: Image, n: N.NodeState)
    ensures var l := N.Load(f, n);
      l.epoch == n.epoch && l.told == n.told && l.forgot == n.forgot && |l.flash| == |n.flash|
  {
    hide N.Counts;
  }

  lemma FlashedRun(f: Image, n: N.NodeState, p: nat, count: nat)
    requires |n.flash| == |f| && p < PacketNum(f) && count <= Size(f, p)
    ensures var r := N.Flashed(f, n, p, count); r.epoch == n.epoch && r.told == n.told && r.forgot == n.forgot
  {
    hide N.Flashed;
    FlashedShape(f, n, p, count);
  }

  lemma ReceivedRun(f: Image, n: N.NodeState, p: nat, saveOk: bool)
    requires |n.flash| == |f| && p < PacketNum(f) && n.cfg.Some? && n.cfg.value.total > 0
    ensures var r := N.Received(f, n, p, saveOk); r.epoch == n.epoch && r.told == n.told && r.forgot == n.forgot
  {
    hide N.Received;
    ReceivedShape(f, n, p, saveOk);
  }

  lemma ResetInWriteGrows(f: Image, n: N.NodeState, p: nat, stage: N.Stage)
    requires |n.flash| == |f| && p < PacketNum(f)
    ensures Grows(n, N.ResetInWrite(f, n, p, stage))
  {
    hide Get, Set, N.Flashed, N.Received, N.Load, N.Reset, Grows;
    LoadRun(f, n);
    var l := N.Load(f, n);
    if !N.Accepts(l, p) {
      ResetAfter(n, l);
    } else if stage.Programming? {
      FlashedRun(f, l, p, N.Min(stage.count, Size(f, p)));
      ResetAfter(n, N.Flashed(f, l, p, N.Min(stage.count, Size(f, p))));
    } else {
      ReceivedRun(f, l, p, stage.saved);
      var r := N.Received(f, l, p, stage.saved);
      ResetAfter(n, r);
      ResetAfter(n, r.(snapshot := None));
      ResetAfter(n, r.(snapshot := None, boot := true));
    }
  }

  lemma ResetInStopGrows(n: N.NodeState, dropped: bool)
    ensures Grows(n, N.ResetInStop(n, dropped))
  {
  }

  lemma ReportStays(f: Image, n: N.NodeState, m: N.NodeState, r: N.Report)
    requires ReportKept(f, n, r) && Grows(n, m)
    ensures ReportKept(f, m, r)
  {
    hide AllSet, Get;
  }

  lemma ReportStarts(f: Image, n: N.NodeState, r: N.Report)
    requires ReportTrue(f, n, r)
    ensures ReportKept(f, n, r)
  {
    hide AllSet, Get;
  }

  lemma NodeEventKeeps(f: Image, s: System, e: Event)
    requires Inv(f, s) && Enabled(f, s, e) && NodeEvent(e)
    ensures Inv(f, Next(f, s, e))
  {
    hide N.NodeInv, Grows, ReportTrue, ReportKept, Covers, NodeNext, ListInv, Placed, HasReported;
    var n, t := s.nodes[e.a], Next(f, s, e);
    NodeStep(f, n, e);
    var m := NodeNext(f, n, e).0;
    assert NodesInv(f, t);
    forall x | x in t.reports
      ensures x.src in t.nodes && ReportKept(f, t.nodes[x.src], x.report)
    {
      if x in s.reports {
        if x.src == e.a {
          ReportStays(f, n, m, x.report);
        }
      } else {
        ReportStarts(f, m, x.report);
      }
    }
    NodeReports(f, s, e);
    assert t.nodes[e.a] == m && forall a :: a in s.nodes && a != e.a ==> t.nodes[a] == s.nodes[a];
    ToldStays(n, m);
    forall a | a in s.asked
      ensures Placed(t, a)
    {
      PlacedStays(s, t, a);
    }
    forall a | a in s.root.requested
      ensures Answered(f, t, a)
    {
      if a == e.a {
        CoversStays(s.root.progress, f, n, m);
      }
    }
  }

  /** A node that has completed has said so. */
  lemma NodeReports(f: Image, s: System, e: Event)
    requires ReportedInv(s) && Enabled(f, s, e) && NodeEvent(e)
    ensures ReportedInv(Next(f, s, e))
  {
    hide NodeNext;
    var t := Next(f, s, e);
    Tells(f, s.nodes[e.a], e);
    forall a | a in t.nodes && t.nodes[a].told
      ensures HasReported(t, a)
    {
      if s.nodes[a].told {
        var r :| Message(a, r) in s.reports && Complete(r);
        assert Message(a, r) in t.reports;
      } else {
        assert Message(a, NodeNext(f, s.nodes[a], e).1.value) in t.reports;
      }
    }
  }

  predicate IsReset(e: Event) {
    e.Reset? || e.ResetInStatus? || e.ResetInWrite? || e.ResetInStop?
  }

  predicate Completion(r: Option<N.Report>) {
    r.Some? && Complete(r.value)
  }

  /** A node has told of its completion exactly if it has sent a report of it. It has forgotten exactly
      if it has been reset since, to the old firmware with nothing to resume from. */
  lemma Tells(f: Image, n: N.NodeState, e: Event)
    requires NodeEvent(e) && Possible(f, n, e)
    ensures var r := NodeNext(f, n, e);
      && (r.0.told <==> n.told || Completion(r.1))
      && (r.0.forgot <==> (n.forgot && !Completion(r.1)) || (IsReset(e) && N.Forgets(r.0)))
      && (IsReset(e) ==> r.1.None?)
  {
    hide N.StatusStep, N.WriteStep, N.Dropped, N.Load, N.Received, N.Flashed, N.Erased, N.ResetInWrite;
    match e
    case Status(_, begin) => StatusTells(f, n, begin);
    case Write(_, p, env) => WriteTells(f, n, p, env);
    case Stop(_, switchOk) =>
      if n.cfg.Some? {
        DroppedTells(N.SwitchedBack(n));
      }
    case Reset(_) =>
    case ResetInStatus(_, erased) => LoadRun(f, n);
    case ResetInWrite(_, p, stage) => ResetInWriteTold(f, n, p, stage);
    case ResetInStop(_, dropped) =>
  }

  lemma StatusTells(f: Image, n: N.NodeState, begin: N.BeginEnv)
    ensures var r := N.StatusStep(f, n, begin);
      (r.0.told <==> n.told || Complete(r.1)) && (r.0.forgot <==> n.forgot && !Complete(r.1))
  {
    hide N.Counts, N.Erased, Filled, N.Saved;
  }

  lemma DroppedTells(n: N.NodeState)
    requires n.cfg.Some?
    ensures var d := N.Dropped(n);
      && d.cfg.Some? && d.boot == n.boot && d.epoch == n.epoch
      && (d.told <==> n.told || d.cfg.value.written == d.cfg.value.total)
      && (d.forgot <==> n.forgot && d.cfg.value.written != d.cfg.value.total)
  {
    hide Filled;
  }

  lemma WriteTells(f: Image, n: N.NodeState, p: nat, env: N.Env)
    requires |n.flash| == |f| && p < PacketNum(f)
    ensures var r := N.WriteStep(f, n, p, env);
      (r.0.told <==> n.told || Completion(r.1)) && (r.0.forgot <==> n.forgot && !Completion(r.1))
  {
    hide N.Dropped, N.Load, N.Received, N.Flashed, Get;
    LoadRun(f, n);
    var l := N.Load(f, n);
    if l.cfg.Some? {
      DroppedTells(l);
      if N.Accepts(l, p) {
        FlashedRun(f, l, p, N.Min(env.programmed, Size(f, p)));
        ReceivedRun(f, l, p, env.saveOk);
      }
    }
  }

  lemma ResetInWriteTold(f: Image, n: N.NodeState, p: nat, stage: N.Stage)
    requires |n.flash| == |f| && p < PacketNum(f)
    ensures var r := N.ResetInWrite(f, n, p, stage); r.told == n.told && (r.forgot <==> n.forgot || N.Forgets(r))
  {
    hide N.Load, N.Received, N.Flashed, Get;
    LoadRun(f, n);
    var l := N.Load(f, n);
    if N.Accepts(l, p) {
      if stage.Programming? {
        FlashedRun(f, l, p, N.Min(stage.count, Size(f, p)));
      } else {
        ReceivedRun(f, l, p, stage.saved);
      }
    }
  }

  lemma ToldStays(n: N.NodeState, m: N.NodeState)
    requires Grows(n, m)
    ensures n.told ==> m.told
  {
  }

  lemma CoversStays(progress: Bitmap, f: Image, n: N.NodeState, m: N.NodeState)
    requires Grows(n, m)
    ensures n.epoch <= m.epoch && (n.epoch == m.epoch && Covers(progress, f, n) ==> Covers(progress, f, m))
  {
    hide Get;
  }

  lemma PlacedStays(s: System, t: System, a: Addr)
    requires Placed(s, a) && s.root.unfinished == t.root.unfinished && s.reports <= t.reports
    requires a in s.nodes && s.nodes[a].told ==> a in t.nodes && t.nodes[a].told
    ensures Placed(t, a)
  {
  }

  // ----- root events

  lemma RootListsKept(f: Image, s: System, e: Event)
    requires ListsInv(s) && ReportsInv(f, s) && Enabled(f, s, e) && !NodeEvent(e)
    ensures ListsInv(Next(f, s, e))
  {
    hide ListInv, DrainStep, ResponseStep, SendDrainStep;
    var t := Next(f, s, e);
    if e.Drain? || e.Response? || e.SendDrain? {
      assert ListInv(t.root) && Leaves(s.root, t.root, e.m) by {
        DrainLists(s.root, e.m);
        ResponseLists(s.root, e.m);
        SendDrainLists(s.root, e.m);
      }
      assert Complete(e.m.report) ==> s.nodes[e.m.src].told by {
        hide AllSet, Covers;
      }
      MessagePlaces(s, t, e.m);
    } else {
      assert ListInv(t.root) by {
        hide *;
        OtherLists(s.root);
      }
      assert t.root.unfinished == s.root.unfinished && t.root.successed == s.root.successed;
      forall a | a in s.asked
        ensures Placed(t, a)
      {
        PlacedStays(s, t, a);
      }
    }
  }

  lemma OtherLists(r: RootState)
    requires ListInv(r)
    ensures ListInv(ClearStep(r)) && ListInv(AskStep(r))
  {
  }

  lemma MessagePlaces(s: System, t: System, m: Message)
    requires ListsInv(s) && Leaves(s.root, t.root, m) && t == s.(root := t.root)
    requires m in s.reports && m.src in s.nodes && (Complete(m.report) ==> s.nodes[m.src].told)
    ensures forall a :: a in t.root.unfinished ==> a in t.asked
    ensures forall a :: a in t.root.successed ==> a in t.asked && a in t.nodes && t.nodes[a].told
    ensures forall a :: a in t.asked ==> Placed(t, a)
  {
    hide ListInv;
    assert m == Message(m.src, m.report);
  }

  lemma RequestedKept(f: Image, s: System, e: Event)
    requires RequestedInv(f, s) && ReportsInv(f, s) && Enabled(f, s, e) && !NodeEvent(e)
    ensures RequestedInv(f, Next(f, s, e))
  {
    hide Covers, ReportKept, And, Filled;
    var t := Next(f, s, e);
    match e
    case Clear =>
    case Ask =>
    case Drain(m) =>
    case SendDrain(m) =>
      RemoveSubset(s.root.requested, m.src);
    case Response(m) =>
      if t.root.requested != s.root.requested || t.root.progress != s.root.progress {
        forall a | a in t.root.requested
          ensures Answered(f, t, a)
        {
          AnswerCovers(f, s, m, a);
        }
      }
  }

  /** An answer narrows the array to what its sender and all before it have. */
  lemma AnswerCovers(f: Image, s: System, m: Message, a: Addr)
    requires RequestedInv(f, s) && ReportsInv(f, s) && m in s.reports
    requires a in ResponseStep(s.root, m).requested
    ensures Answered(f, s.(root := ResponseStep(s.root, m)), a)
  {
    hide Covers, AllSet, And, Filled;
    if a in s.nodes {
      CoversZero(f, s.nodes[a]);
      if m.report.progress.Some? {
        CoversAnd(s.root.progress, m.report.progress.value, f, s.nodes[a]);
      }
    }
  }

  lemma CoversZero(f: Image, n: N.NodeState)
    ensures n.cfg.Some? ==> Covers(Filled(0), f, n)
    ensures !n.cfg.Some? ==> forall b: Bitmap :: !Covers(b, f, n)
  {
    hide Get, Filled;
    forall p: nat | p < PacketNum(f)
      ensures !Get(Filled(0), p)
    {
      GetFilled(p);
    }
  }

  lemma CoversAnd(a: Bitmap, b: Bitmap, f: Image, n: N.NodeState)
    ensures Covers(a, f, n) || Covers(b, f, n) ==> Covers(And(a, b), f, n)
  {
    hide Get, And;
    forall p: nat | p < PacketNum(f)
      ensures Get(And(a, b), p) <==> Get(a, p) && Get(b, p)
    {
      GetAnd(a, b, p);
    }
  }

  // ----- runs

  lemma StepInv(f: Image, s: System, e: Event)
    requires Inv(f, s) && Enabled(f, s, e)
    ensures Inv(f, Next(f, s, e)) && Next(f, s, e).asked == s.asked
  {
    hide ListsInv, RequestedInv, N.NodeInv, ReportKept;
    if NodeEvent(e) {
      NodeEventKeeps(f, s, e);
    } else {
      RootListsKept(f, s, e);
      RequestedKept(f, s, e);
    }
  }

  lemma {:induction false} RunInv(f: Image, s: System, es: seq<Event>, t: System)
    requires Inv(f, s) && Run(f, s, es, t)
    ensures Inv(f, t) && t.asked == s.asked
    decreases |es|
  {
    hide Inv, Enabled, Next;
    if es != [] {
      var e := es[|es| - 1];
      var u :| Run(f, s, es[..|es| - 1], u) && Enabled(f, u, e) && t == Next(f, u, e);
      RunInv(f, s, es[..|es| - 1], u);
      StepInv(f, u, e);
    }
  }

  /** The whole image has been programmed over what the partition held; so flash is the image exactly if
      the partition took it, as an erased one does. */
  ghost predicate Upgraded(f: Image, n: N.NodeState) {
    N.Programs(f, n) && (n.flash == f <==> Takes(f, n.base)) && (Blank(n.base) ==> n.flash == f)
  }

  lemma ProgramsUpgraded(f: Image, n: N.NodeState)
    requires N.Programs(f, n)
    ensures Upgraded(f, n)
  {
    hide Mixed, Takes, Blank;
    MixedIsImage(n.base, f);
  }

  /** Safety, over every run: a node that the root counts as successed has had the whole image
      programmed, unless it has forgotten or miscounted; and so has a node that would boot, or has
      booted, the new firmware. For images whose packets a snapshot covers, the counter is never wrong. */
  lemma SuccessedHoldImage(f: Image, s: System, es: seq<Event>, t: System, a: Addr)
    requires Init(f, s) && Run(f, s, es, t)
    ensures a in t.root.successed ==> HasImage(f, t, a)
    ensures a in t.nodes && (t.nodes[a].boot || t.nodes[a].booted) && !t.nodes[a].miscounted ==> Upgraded(f, t.nodes[a])
    ensures a in t.nodes && N.SnapshotCovers(f) ==> !t.nodes[a].miscounted
  {
    hide N.FlashInv, N.Formed, N.Counts, N.Programs, ReportsInv, RequestedInv, ReportedInv, ListInv, Placed, Run, Init,
      Upgraded;
    InitInv(f, s);
    RunInv(f, s, es, t);
    if a in t.nodes && N.Programs(f, t.nodes[a]) {
      ProgramsUpgraded(f, t.nodes[a]);
    }
  }

  /** In every run a node's counter is the sum of the sizes of the packets marked, and each of those has
      been programmed; so the counter is full exactly when every packet is marked, and then the whole
      image has been. */
  lemma CounterIsTrue(f: Image, s: System, es: seq<Event>, t: System, a: Addr, p: nat)
    requires Init(f, s) && Run(f, s, es, t)
    requires a in t.nodes && t.nodes[a].cfg.Some? && p < PacketNum(f)
    ensures var n, c := t.nodes[a], t.nodes[a].cfg.value;
      && (!n.miscounted ==> c.written == Written(f, c.bitmap, PacketNum(f)) <= |f|)
      && (!n.miscounted ==> (c.written == |f| <==> AllSet(f, c.bitmap, PacketNum(f))))
      && (Get(c.bitmap, p) ==> Laid(f, n.base, n.flash, p) && (Takes(f, n.base) ==> Holds(f, n.flash, p)))
      && (!n.miscounted && c.written == |f| ==> Upgraded(f, n))
  {
    hide Get, Holds, Laid, Written, AllSet, Clean, Takes, ReportsInv, ListsInv, RequestedInv, ReportedInv, Run, Init,
      Upgraded;
    InitInv(f, s);
    RunInv(f, s, es, t);
    var n, c := t.nodes[a], t.nodes[a].cfg.value;
    CompleteIffAllSet(f, c.bitmap);
    if Get(c.bitmap, p) && Takes(f, n.base) {
      LaidHolds(f, n.base, n.flash, p);
    }
    if !n.miscounted && c.written == |f| {
      CompleteMeansImage(f, c, n.base, n.flash);
      ProgramsUpgraded(f, n);
    }
  }

  /** No missing packet is skipped: what the array marks, every requested node has marked, unless the
      node's progress was lost after it answered; and has programmed. */
  lemma NoneSkipped(f: Image, s: System, es: seq<Event>, t: System, a: Addr, p: nat)
    requires Init(f, s) && Run(f, s, es, t)
    requires a in t.root.requested && p < PacketNum(f) && Get(t.root.progress, p)
    ensures a in t.nodes && a in t.root.heard
    ensures t.root.heard[a] == t.nodes[a].epoch ==>
      var n := t.nodes[a];
      && n.cfg.Some? && Get(n.cfg.value.bitmap, p) && Laid(f, n.base, n.flash, p)
      && (Takes(f, n.base) ==> Holds(f, n.flash, p))
  {
    hide Get, Holds, Laid, Takes, N.Counts, Clean, ReportsInv, ListsInv, ReportedInv, Run, Init;
    InitInv(f, s);
    RunInv(f, s, es, t);
    assert Answered(f, t, a);
    if t.root.heard[a] == t.nodes[a].epoch && Takes(f, t.nodes[a].base) {
      LaidHolds(f, t.nodes[a].base, t.nodes[a].flash, p);
    }
  }

  /** Then the packets the root sends in one pass, if none is lost, complete every requested node that
      has not stopped, and make it report that it is complete if it was not. */
  lemma LosslessRound(f: Image, s: System, es: seq<Event>, t: System, a: Addr)
    requires Init(f, s) && Run(f, s, es, t)
    requires a in t.root.requested && a in t.nodes && a in t.root.heard && t.root.heard[a] == t.nodes[a].epoch
    requires t.nodes[a].cfg.Some? && t.nodes[a].cfg.value.error != N.Stop && !t.nodes[a].miscounted
    ensures |t.nodes[a].flash| == |f|
    ensures var n, m := t.nodes[a], Delivered(f, t.nodes[a], Missing(t.root.progress, PacketNum(f)));
      && m.cfg.Some? && m.cfg.value.written == |f| && m.base == n.base && Upgraded(f, m)
      && ((m.told && m.boot) || n.cfg.value.written == |f|)
  {
    hide Get, Written, Clean, ReportsInv, ListsInv, ReportedInv, Run, Covers, Round, Delivered, Init, N.Programs,
      Upgraded;
    InitInv(f, s);
    RunInv(f, s, es, t);
    assert Answered(f, t, a);
    RoundCompletes(f, t.nodes[a], t.root.progress, 0);
    DeliveredIsRound(f, t.nodes[a], t.root.progress);
    ProgramsUpgraded(f, Round(f, t.nodes[a], t.root.progress, 0));
  }

  /** When nothing is unfinished, every node asked for has said that it stopped, or has completed and had
      the whole image programmed, unless it has forgotten or miscounted. */
  lemma NobodyForgotten(f: Image, s: System, es: seq<Event>, t: System, a: Addr)
    requires Init(f, s) && Run(f, s, es, t)
    requires a in s.asked && t.root.unfinished == []
    ensures HasStopped(t, a) || HasImage(f, t, a)
  {
    hide ListInv, ReportedInv, Run, HasStopped, Init, N.Programs, Upgraded;
    InitInv(f, s);
    RunInv(f, s, es, t);
    assert Placed(t, a);
    if a in t.nodes && N.Programs(f, t.nodes[a]) {
      ProgramsUpgraded(f, t.nodes[a]);
    }
  }

  ghost predicate HasImage(f: Image, s: System, a: Addr) {
    a in s.nodes && s.nodes[a].told && (N.Trusted(s.nodes[a]) ==> Upgraded(f, s.nodes[a]))
  }

  /** The root reads a progress array from exactly the reports that carry one; a counter to be trusted,
      as it always is for images whose packets a snapshot covers, never comes with a full one. */
  lemma ReportsSensible(f: Image, s: System, es: seq<Event>, t: System, m: Message)
    requires Init(f, s) && Run(f, s, es, t) && m in t.reports
    ensures m.report.progress.Some? <==> m.report.written != 0 && !Complete(m.report)
    ensures m.report.counted ==> Sensible(m)
    ensures N.SnapshotCovers(f) ==> m.report.counted
  {
    hide ListInv, Run, Get, Full, Inv, Init;
    InitInv(f, s);
    RunInv(f, s, es, t);
    RevealReport(f, t, m);
    if m.report.counted && m.report.progress.Some? {
      NotAllSetNotFull(f, m.report.progress.value);
    }
  }

  lemma RevealReport(f: Image, t: System, m: Message)
    requires Inv(f, t) && m in t.reports
    ensures m.src in t.nodes && ReportKept(f, t.nodes[m.src], m.report)
  {
  }

  lemma NotAllSetNotFull(f: Image, b: Bitmap)
    requires !AllSet(f, b, PacketNum(f))
    ensures !Full(b)
  {
    hide Get;
    var p :| 0 <= p < PacketNum(f) && !Get(b, p);
    ClearBitShows(b, p);
  }

  // ----- the root's own code makes such runs

  lemma RunExtends(f: Image, s: System, es: seq<Event>, t: System, e: Event)
    requires Run(f, s, es, t) && Enabled(f, t, e)
    ensures Run(f, s, es + [e], Next(f, t, e))
  {
    hide Enabled, Next;
    var fs := es + [e];
    assert fs[..|fs| - 1] == es && fs[|fs| - 1] == e;
    assert Run(f, s, fs[..|fs| - 1], t);
  }

  /** s and t differ in node a only, and in what it has sent. */
  ghost predicate OnlyNode(s: System, t: System, a: Addr, n: N.NodeState) {
    && a in s.nodes && t.nodes == s.nodes[a := n] && t.root == s.root && t.asked == s.asked && s.reports <= t.reports
  }

  /** An event of a node, as a step of a run. */
  lemma NodeMoves(f: Image, s0: System, es: seq<Event>, s: System, e: Event) returns (t: System)
    requires Run(f, s0, es, s) && NodeEvent(e) && e.a in s.nodes && Possible(f, s.nodes[e.a], e)
    ensures Run(f, s0, es + [e], t) && OnlyNode(s, t, e.a, NodeNext(f, s.nodes[e.a], e).0)
    ensures var r := NodeNext(f, s.nodes[e.a], e).1; r.Some? ==> Message(e.a, r.value) in t.reports
  {
    hide Run, NodeNext, Possible;
    t := Next(f, s, e);
    RunExtends(f, s0, es, s, e);
  }

  ghost predicate Known(s: System, ms: seq<Message>) {
    forall k :: 0 <= k < |ms| ==> ms[k] in s.reports
  }

  lemma {:induction false} DrainsRun(f: Image, s0: System, es: seq<Event>, s: System, ms: seq<Message>)
    returns (fs: seq<Event>)
    requires Run(f, s0, es, s) && Known(s, ms)
    ensures Run(f, s0, fs, s.(root := Drains(s.root, ms)))
    decreases |ms|
  {
    hide DrainStep, Run;
    if ms == [] {
      fs := es;
    } else {
      fs := DrainsRun(f, s0, es, s, ms[..|ms| - 1]);
      RunExtends(f, s0, fs, s.(root := Drains(s.root, ms[..|ms| - 1])), Drain(ms[|ms| - 1]));
      fs := fs + [Drain(ms[|ms| - 1])];
    }
  }

  lemma {:induction false} ResponsesRun(f: Image, s0: System, es: seq<Event>, s: System, ms: seq<Message>)
    returns (fs: seq<Event>)
    requires Run(f, s0, es, s) && Known(s, ms)
    ensures Run(f, s0, fs, s.(root := Responses(s.root, ms)))
    decreases |ms|
  {
    hide ResponseStep, Run;
    if ms == [] {
      fs := es;
    } else {
      fs := ResponsesRun(f, s0, es, s, ms[..|ms| - 1]);
      RunExtends(f, s0, fs, s.(root := Responses(s.root, ms[..|ms| - 1])), Response(ms[|ms| - 1]));
      fs := fs + [Response(ms[|ms| - 1])];
    }
  }

  lemma {:induction false} DrainsRequested(r: RootState, ms: seq<Message>)
    ensures Drains(r, ms).requested == r.requested
    decreases |ms|
  {
    if ms != [] {
      DrainsRequested(r, ms[..|ms| - 1]);
    }
  }

  lemma {:induction false} SendDrainsRun(f: Image, s0: System, es: seq<Event>, s: System, ms: seq<Message>)
    returns (fs: seq<Event>)
    requires Run(f, s0, es, s) && Known(s, ms)
    ensures Run(f, s0, fs, s.(root := SendDrains(s.root, ms)))
    decreases |ms|
  {
    hide SendDrainStep, Run;
    if ms == [] {
      fs := es;
    } else {
      fs := SendDrainsRun(f, s0, es, s, ms[..|ms| - 1]);
      RunExtends(f, s0, fs, s.(root := SendDrains(s.root, ms[..|ms| - 1])), SendDrain(ms[|ms| - 1]));
      fs := fs + [SendDrain(ms[|ms| - 1])];
    }
  }

  /** A status request is a run of the system. */
  lemma RequestIsRun(f: Image, s0: System, es: seq<Event>, s: System, drained: R.Inbox, answers: R.Inbox, r: RootState,
                     ret: R.Status)
    returns (fs: seq<Event>)
    requires Run(f, s0, es, s) && R.Asked(s.root, drained, answers, r, ret)
    requires Known(s, R.Reports(drained)) && Known(s, R.Reports(answers))
    ensures Run(f, s0, fs, s.(root := r))
  {
    hide Run, Drains, Responses, Full;
    RunExtends(f, s0, es, s, Clear);
    var c := s.(root := ClearStep(s.root));
    fs := DrainsRun(f, s0, es + [Clear], c, R.Reports(drained));
    var d := c.(root := Drains(c.root, R.Reports(drained)));
    DrainsRequested(c.root, R.Reports(drained));
    if d.root.unfinished != [] {
      RunExtends(f, s0, fs, d, Ask);
      fs := ResponsesRun(f, s0, fs + [Ask], d.(root := AskStep(d.root)), R.Reports(answers));
    }
  }

  ghost predicate KnownRounds(s: System, rounds: seq<R.RoundInput>) {
    forall k :: 0 <= k < |rounds| ==> KnownRound(s, rounds[k])
  }

  ghost predicate KnownRound(s: System, round: R.RoundInput) {
    Known(s, R.Reports(round.drained)) && Known(s, R.Reports(round.answers)) && Known(s, R.Reports(round.waiting))
  }

  /** Everything mupgrade_firmware_send does, given reports the nodes have sent, is a run of the system. */
  lemma {:induction false} SendIsRun(f: Image, s0: System, es: seq<Event>, s: System, rounds: seq<R.RoundInput>,
                                     r: RootState)
    returns (fs: seq<Event>)
    requires Run(f, s0, es, s) && KnownRounds(s, rounds) && R.Rounds(s.root, rounds, r)
    ensures Run(f, s0, fs, s.(root := r))
    decreases |rounds|
  {
    hide Run, Known, R.Asked, SendDrains;
    if rounds == [] {
      fs := es;
    } else {
      var round := rounds[|rounds| - 1];
      var u :| R.Rounds(s.root, rounds[..|rounds| - 1], u) && R.Leads(u, round, r);
      var ret :| R.RoundLeads(u, round, ret, r);
      var asked :| R.RoundOf(u, round, asked, ret, r);
      fs := SendIsRun(f, s0, es, s, rounds[..|rounds| - 1], u);
      assert KnownRound(s, round);
      KnownSame(s, s.(root := u));
      KnownSame(s, s.(root := asked));
      fs := RequestIsRun(f, s0, fs, s.(root := u), round.drained, round.answers, asked, ret);
      fs := SendDrainsRun(f, s0, fs, s.(root := asked), R.Reports(round.waiting));
    }
  }

  lemma KnownSame(s: System, t: System)
    requires s.reports == t.reports
    ensures forall ms :: Known(s, ms) ==> Known(t, ms)
  {
  }

  /** So when mupgrade_firmware_send returns MDF_OK, every node it was called for has the whole image
      in flash or has said that it stopped. */
  lemma SendDelivers(f: Image, s0: System, es: seq<Event>, s: System, rounds: seq<R.RoundInput>, r: RootState, a: Addr)
    requires Init(f, s0) && Run(f, s0, es, s)
    requires KnownRounds(s, rounds) && R.Rounds(s.root, rounds, r) && r.unfinished == [] && a in s0.asked
    ensures HasStopped(s, a) || HasImage(f, s, a)
  {
    hide Run, Init, KnownRounds, R.Rounds, HasStopped;
    var fs := SendIsRun(f, s0, es, s, rounds, r);
    NobodyForgotten(f, s0, fs, s.(root := r), a);
    StoppedSame(s, s.(root := r), a);
  }

  lemma StoppedSame(s: System, t: System, a: Addr)
    requires s.reports == t.reports
    ensures HasStopped(s, a) == HasStopped(t, a)
  {
  }
}
