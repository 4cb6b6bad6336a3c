/** That the upgrade can end: completion, once told, can be heard, and one pass without loss leads there
    from any reachable state. */
module UpgradeEnds {
  import opened AddressList
  import opened Bitmap
  import opened Firmware
  import opened NodeProgress
  import opened UpgradeRoot
  import opened UpgradeSystem
  import opened Wrappers
  import N = UpgradeNode
  import R = RootDevice

  // ----- completion can be heard

  /** A report of completion from each of these nodes. */
  lemma {:induction false} ReportsOf(s: System, addrs: seq<Addr>) returns (ms: seq<Message>)
    requires ReportedInv(s) && forall a :: a in addrs ==> a in s.nodes && s.nodes[a].told
    ensures Known(s, ms) && forall a :: a in addrs ==> R.Took(ms, a)
    decreases |addrs|
  {
    hide HasReported, R.Took;
    if addrs == [] {
      ms := [];
    } else {
      var a := addrs[|addrs| - 1];
      var front := ReportsOf(s, addrs[..|addrs| - 1]);
      assert addrs == addrs[..|addrs| - 1] + [a];
      var r := ReportFrom(s, a);
      ms := front + [Message(a, r)];
      forall b | b in addrs
        ensures R.Took(ms, b)
      {
        TookMore(front, Message(a, r), b);
      }
    }
  }

  lemma ReportFrom(s: System, a: Addr) returns (r: N.Report)
    requires HasReported(s, a)
    ensures Message(a, r) in s.reports && Complete(r)
  {
    r :| Message(a, r) in s.reports && Complete(r);
  }

  lemma TookMore(ms: seq<Message>, m: Message, a: Addr)
    ensures R.Took(ms, a) || (m.src == a && Complete(m.report)) ==> R.Took(ms + [m], a)
  {
    var all := ms + [m];
    if R.Took(ms, a) {
      var k :| 0 <= k < |ms| && ms[k].src == a && Complete(ms[k].report);
      assert all[k].src == a && Complete(all[k].report);
    } else if m.src == a && Complete(m.report) {
      assert all[|ms|].src == a && Complete(all[|ms|].report);
    }
  }

  function Received(ms: seq<Message>): R.Inbox {
    seq(|ms|, k requires 0 <= k < |ms| => Some(ms[k]))
  }

  lemma {:induction false} ReportsReceived(ms: seq<Message>)
    ensures R.Reports(Received(ms)) == ms
  {
    if ms != [] {
      var k := |ms| - 1;
      ReportsReceived(ms[..k]);
      assert Received(ms)[..k] == Received(ms[..k]);
      assert ms[..k] + [ms[k]] == ms;
    }
  }

  /** If every unfinished node has told of its completion, the reports for one round that ends the send
      are in the network already. */
  lemma ToldCanBeHeard(f: Image, s0: System, es: seq<Event>, s: System) returns (round: R.RoundInput, r: RootState)
    requires Init(f, s0) && Run(f, s0, es, s)
    requires forall a :: a in s.root.unfinished ==> a in s.nodes && s.nodes[a].told
    ensures KnownRounds(s, [round]) && R.Rounds(s.root, [round], r) && r.unfinished == []
  {
    hide Run, Init, ListInv, R.Took, R.RoundLeads;
    InitInv(f, s0);
    RunInv(f, s0, es, s);
    var ms := ReportsOf(s, s.root.unfinished);
    ReportsReceived(ms);
    R.ClearLists(s.root);
    var c := ClearStep(s.root);
    r := Drains(c, ms);
    forall a: Addr
      ensures a !in r.unfinished
    {
      R.DrainsRemove(c, ms, a);
    }
    R.SomeMember(r.unfinished);
    round := R.RoundInput(Received(ms), [], []);
    assert R.RoundOf(s.root, round, r, R.Ok, r);
    R.OneRoundLeads(s.root, round, r, R.Ok, r);
    R.RoundsExtend(s.root, [], s.root, round, R.Ok, r);
    assert [] + [round] == [round];
  }

  // ----- one pass without loss

  /** Packets ps, written by node a one after another. */
  function Writes(a: Addr, ps: seq<nat>): (es: seq<Event>)
    ensures |es| == |ps|
  {
    seq(|ps|, k requires 0 <= k < |ps| => Write(a, ps[k], LOSSLESS))
  }

  /** Each of these nodes gets the packets and is asked for its status. */
  function Pass(addrs: seq<Addr>, ps: seq<nat>): seq<Event> {
    if addrs == [] then []
    else
      var a := addrs[|addrs| - 1];
      Pass(addrs[..|addrs| - 1], ps) + (Writes(a, ps) + [Status(a, N.ERASES)])
  }

  lemma {:induction false} WritesRun(f: Image, s0: System, es: seq<Event>, s: System, a: Addr, ps: seq<nat>)
    returns (t: System)
    requires Run(f, s0, es, s) && a in s.nodes && !s.nodes[a].booted && |s.nodes[a].flash| == |f|
    requires forall k :: 0 <= k < |ps| ==> ps[k] < PacketNum(f)
    ensures Run(f, s0, es + Writes(a, ps), t) && OnlyNode(s, t, a, Delivered(f, s.nodes[a], ps)) && !t.nodes[a].booted
    decreases |ps|
  {
    hide Run, N.WriteStep;
    if ps == [] {
      t := s;
      assert es + Writes(a, ps) == es && s.nodes[a := s.nodes[a]] == s.nodes;
    } else {
      var m := |ps| - 1;
      var u := WritesRun(f, s0, es, s, a, ps[..m]);
      WriteShape(f, u.nodes[a], ps[m], LOSSLESS);
      t := NodeMoves(f, s0, es + Writes(a, ps[..m]), u, Write(a, ps[m], LOSSLESS));
      assert es + Writes(a, ps[..m]) + [Write(a, ps[m], LOSSLESS)] == es + Writes(a, ps);
    }
  }

  /** Requested, not stopped, and its answer still holds. */
  ghost predicate Ready(s: System, a: Addr) {
    && a in s.root.requested && a in s.nodes && a in s.root.heard && s.root.heard[a] == s.nodes[a].epoch
    && s.nodes[a].cfg.Some? && s.nodes[a].cfg.value.error != N.Stop
    && !s.nodes[a].miscounted && !s.nodes[a].booted
  }

  /** A complete node that is asked says so. */
  lemma AskedTells(f: Image, n: N.NodeState)
    requires n.cfg.Some? && n.cfg.value.written == n.cfg.value.total == |f|
    ensures var m := N.StatusStep(f, n, N.ERASES).0; m.told && m.flash == n.flash && m.base == n.base
  {
    hide N.Counts;
  }

  lemma TotalIs(f: Image, n: N.NodeState)
    requires N.NodeInv(f, n)
    ensures |n.flash| == |f| && (n.cfg.Some? ==> n.cfg.value.total == |f|)
  {
  }

  lemma NodeKnown(f: Image, s0: System, es: seq<Event>, s: System, a: Addr)
    requires Init(f, s0) && Run(f, s0, es, s) && a in s.nodes
    ensures |s.nodes[a].flash| == |f| && (s.nodes[a].cfg.Some? ==> s.nodes[a].cfg.value.total == |f|)
  {
    hide Run, Init, N.NodeInv, ReportsInv, ListsInv, RequestedInv, ReportedInv;
    InitInv(f, s0);
    RunInv(f, s0, es, s);
    TotalIs(f, s.nodes[a]);
  }

  /** One node gets the packets of the pass and is asked. */
  lemma OnePass(f: Image, s0: System, es: seq<Event>, s: System, a: Addr, ps: seq<nat>) returns (t: System)
    requires Init(f, s0) && Run(f, s0, es, s) && Ready(s, a) && ps == Missing(s.root.progress, PacketNum(f))
    ensures Run(f, s0, es + (Writes(a, ps) + [Status(a, N.ERASES)]), t)
    ensures a in t.nodes && OnlyNode(s, t, a, t.nodes[a]) && t.nodes[a].told && t.nodes[a].base == s.nodes[a].base
    ensures Upgraded(f, t.nodes[a])
  {
    hide Run, Init, N.StatusStep, Upgraded, Missing, Delivered;
    NodeKnown(f, s0, es, s, a);
    LosslessRound(f, s0, es, s, a);
    var u := WritesRun(f, s0, es, s, a, ps);
    NodeKnown(f, s0, es + Writes(a, ps), u, a);
    AskedTells(f, u.nodes[a]);
    t := NodeMoves(f, s0, es + Writes(a, ps), u, Status(a, N.ERASES));
    UpgradedSame(f, u.nodes[a], t.nodes[a]);
    assert es + Writes(a, ps) + [Status(a, N.ERASES)] == es + (Writes(a, ps) + [Status(a, N.ERASES)]);
  }

  lemma UpgradedSame(f: Image, n: N.NodeState, m: N.NodeState)
    requires Upgraded(f, n) && m.flash == n.flash && m.base == n.base
    ensures Upgraded(f, m)
  {
    hide Mixed, Takes, Blank;
  }

  /** t is s after the pass has reached these nodes. */
  ghost predicate Passed(f: Image, s: System, t: System, addrs: seq<Addr>) {
    && t.root == s.root && s.reports <= t.reports && t.nodes.Keys == s.nodes.Keys
    && (forall a :: a in addrs ==>
          a in t.nodes && t.nodes[a].told && t.nodes[a].base == s.nodes[a].base && Upgraded(f, t.nodes[a]))
    && (forall a :: a in s.nodes && a !in addrs ==> t.nodes[a] == s.nodes[a])
  }

  lemma NonePassed(f: Image, s: System)
    ensures Passed(f, s, s, [])
  {
  }

  lemma ReadyStill(f: Image, s: System, t: System, addrs: seq<Addr>, a: Addr)
    requires Passed(f, s, t, addrs) && Ready(s, a) && a !in addrs
    ensures Ready(t, a) && t.root == s.root && a in s.nodes && a in t.nodes && t.nodes[a] == s.nodes[a]
  {
    hide Upgraded;
  }

  lemma OneMorePassed(f: Image, s: System, u: System, t: System, addrs: seq<Addr>, a: Addr)
    requires Passed(f, s, u, addrs) && a in u.nodes && a in t.nodes && OnlyNode(u, t, a, t.nodes[a]) && a !in addrs
    requires t.nodes[a].told && t.nodes[a].base == u.nodes[a].base && Upgraded(f, t.nodes[a])
    ensures Passed(f, s, t, addrs + [a])
  {
    hide Upgraded;
  }

  lemma {:induction false} PassRuns(f: Image, s0: System, es: seq<Event>, s: System, addrs: seq<Addr>, ps: seq<nat>)
    returns (t: System)
    requires Init(f, s0) && Run(f, s0, es, s) && ps == Missing(s.root.progress, PacketNum(f))
    requires Distinct(addrs) && forall a :: a in addrs ==> Ready(s, a)
    ensures Run(f, s0, es + Pass(addrs, ps), t) && Passed(f, s, t, addrs)
    decreases |addrs|
  {
    hide Run, Init, Missing, Writes, Passed, Ready, OnlyNode, Upgraded;
    if addrs == [] {
      NonePassed(f, s);
      t := s;
      assert es + [] == es;
    } else {
      var k := |addrs| - 1;
      var a, front := addrs[k], addrs[..k];
      assert addrs == front + [a];
      var u := PassRuns(f, s0, es, s, front, ps);
      assert a in addrs && a !in front;
      ReadyStill(f, s, u, front, a);
      t := OnePass(f, s0, es + Pass(front, ps), u, a, ps);
      OneMorePassed(f, s, u, t, front, a);
      assert es + Pass(front, ps) + (Writes(a, ps) + [Status(a, N.ERASES)]) == es + Pass(addrs, ps);
    }
  }

  /** From any reachable state in which every unfinished node has answered and is still as it was then:
      a pass of the packets that the array lacks, none of them lost, and a round of reports that the
      nodes then have sent, end the send with nothing unfinished, and every one of these nodes has had
      the whole image programmed. */
  lemma SendCanEnd(f: Image, s0: System, es: seq<Event>, s: System)
    returns (t: System, round: R.RoundInput, r: RootState)
    requires Init(f, s0) && Run(f, s0, es, s) && forall a :: a in s.root.unfinished ==> Ready(s, a)
    ensures Run(f, s0, es + Pass(s.root.unfinished, Missing(s.root.progress, PacketNum(f))), t)
    ensures KnownRounds(t, [round]) && R.Rounds(t.root, [round], r) && r.unfinished == []
    ensures Passed(f, s, t, s.root.unfinished)
  {
    hide Run, Init, Upgraded, Missing, KnownRounds, R.Rounds, ListInv;
    UnfinishedDistinct(f, s0, es, s);
    var ps := Missing(s.root.progress, PacketNum(f));
    t := PassRuns(f, s0, es, s, s.root.unfinished, ps);
    round, r := ToldCanBeHeard(f, s0, es + Pass(s.root.unfinished, ps), t);
  }

  lemma UnfinishedDistinct(f: Image, s0: System, es: seq<Event>, s: System)
    requires Init(f, s0) && Run(f, s0, es, s)
    ensures Distinct(s.root.unfinished)
  {
    hide Run, Init, Placed, NodesInv, ReportsInv, RequestedInv, ReportedInv;
    InitInv(f, s0);
    RunInv(f, s0, es, s);
  }
}
