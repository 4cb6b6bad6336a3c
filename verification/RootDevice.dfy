/** The root's upgrade task, with its lists and progress array updated in place.

    The queue is modelled by what each receive returns, in order: a report, or nothing when it times
    out. Past the end of the list every receive times out. */
module RootDevice {
  import opened AddressList
  import opened Bitmap
  import opened Firmware
  import opened RootAnswers
  import opened UpgradeRoot
  import opened Wrappers
  import N = UpgradeNode

  datatype Status = Ok | PacketLoss | Incomplete

  type Inbox = seq<Option<Message>>

  /** Packet p of the image, sent to everyone or to the listed nodes. */
  datatype Destination = Everyone | Listed(addrs: seq<Addr>)

  datatype Sent = Sent(dest: Destination, p: nat, data: seq<bv8>)

  /** With fewer than two nodes successed a broadcast goes to everyone, and with two or more to the nodes
      requested only; the number successed grew from first to last while these packets were sent. */
  ghost predicate Addressed(sent: seq<Sent>, broadcast: bool, first: nat, last: nat) {
    forall k :: 0 <= k < |sent| ==>
      (sent[k].dest.Everyone? ==> broadcast && first < 2) && (broadcast && last < 2 ==> sent[k].dest.Everyone?)
  }

  /** Packet numbers in the order of sending. */
  function Numbers(sent: seq<Sent>): (ps: seq<nat>)
    ensures |ps| == |sent|
  {
    seq(|sent|, k requires 0 <= k < |sent| => sent[k].p)
  }

  /** mupgrade_firmware_stop: the flag is seen dropped before the given packet of a round. */
  datatype Halt = Halt(round: nat, packet: nat)

  /** Whom a send is for: a list of nodes, every node, or every node but the root. */
  datatype Target = Nodes(addrs: seq<Addr>) | Any | Broadcast

  /** The setup of mupgrade_firmware_send: the list of nodes, and whether the rounds are entered at all.
      A broadcast does not notice that the routing table could not be read. */
  method Targets(target: Target, routing: seq<Addr>, tableOk: bool, rootMac: Addr) returns (addrs: seq<Addr>, ok: bool)
    requires Distinct(routing) && (target.Nodes? ==> Distinct(target.addrs))
    ensures Distinct(addrs)
    ensures target.Nodes? ==> ok && addrs == target.addrs
    ensures target.Any? ==> ok == tableOk && addrs == routing
    ensures target.Broadcast? ==>
      && (forall a :: a in addrs <==> a in routing && a != rootMac)
      && ok == (0 < |addrs| <= 2048)
  {
    match target
    case Nodes(list) =>
      return list, true;
    case Any =>
      return routing, tableOk;
    case Broadcast =>
      var list := new Addr[|routing|](k requires 0 <= k < |routing| => routing[k]);
      assert list[..|routing|] == routing;
      RemoveMembers(routing, rootMac);
      var num, removed := AddrsRemove(list, |routing|, rootMac);
      return list[..num], 0 < num <= 2048;
  }

  /** The reports among what was received. */
  function Reports(inbox: Inbox): seq<Message> {
    if inbox == [] then []
    else
      var last := inbox[|inbox| - 1];
      Reports(inbox[..|inbox| - 1]) + (if last.Some? then [last.value] else [])
  }

  /** How many receives timed out. */
  function Timeouts(inbox: Inbox): nat {
    if inbox == [] then 0
    else Timeouts(inbox[..|inbox| - 1]) + (if inbox[|inbox| - 1].None? then 1 else 0)
  }

  /** From at to next the queue has been read until a receive timed out, and not beyond. */
  ghost predicate RunsDry(inbox: Inbox, at: nat, next: nat) {
    at <= next <= |inbox| && (next == |inbox| || (at < next && inbox[next - 1].None?))
  }

  /** Every receive but the last brought a report. */
  ghost predicate NoPause(inbox: Inbox, at: nat, next: nat) {
    at <= next <= |inbox| && forall k :: at <= k < next - 1 ==> inbox[k].Some?
  }

  ghost predicate AllSensible(inbox: Inbox) {
    forall k :: 0 <= k < |inbox| && inbox[k].Some? ==> Sensible(inbox[k].value)
  }

  class Root {
    const f: Image
    var unfinished: seq<Addr>
    var successed: seq<Addr>
    var requested: seq<Addr>
    var pending: seq<Addr>
    const progressArray: array<bv8>
    /** History, see RootState. */
    ghost var heard: map<Addr, nat>
    /** What has been sent. */
    ghost var sent: seq<Sent>

    ghost predicate Valid()
      reads this
    {
      progressArray.Length == BITMAP_BYTES
    }

    ghost function Model(): RootState
      requires Valid()
      reads this, progressArray
    {
      RootState(unfinished, successed, requested, pending, progressArray[..], heard)
    }

    constructor (f: Image, addrs: seq<Addr>)
      requires Distinct(addrs)
      ensures Valid() && this.f == f && unfinished == addrs && successed == [] && requested == [] && sent == []
      ensures ListInv(Model()) && fresh(progressArray)
    {
      this.f, unfinished, successed, requested, pending := f, addrs, [], [], [];
      progressArray := new bv8[BITMAP_BYTES](_ => 0);
      heard, sent := map[], [];
    }

    method Succeed(src: Addr)
      requires Valid()
      modifies this
      ensures Valid() && sent == old(sent)
      ensures Model() == old(Model()).(successed := old(successed) + [src])
    {
      successed := successed + [src];
    }

    method Drain(m: Message)
      requires Valid() && ListInv(Model())
      modifies this
      ensures Valid() && Model() == DrainStep(old(Model()), m) && ListInv(Model()) && sent == old(sent)
    {
      DrainLists(Model(), m);
      if Complete(m.report) {
        if m.src !in unfinished {
          return;
        }
        unfinished := RemoveFirst(unfinished, m.src);
        Succeed(m.src);
      } else if m.report.error == N.Stop {
        unfinished := RemoveFirst(unfinished, m.src);
      }
    }

    method Respond(m: Message)
      requires Valid() && ListInv(Model())
      modifies this, progressArray
      ensures Valid() && Model() == ResponseStep(old(Model()), m) && ListInv(Model()) && sent == old(sent)
    {
      hide And, Filled, ListInv;
      ResponseLists(Model(), m);
      if m.report.error == N.Stop {
        unfinished := RemoveFirst(unfinished, m.src);
        pending := RemoveFirst(pending, m.src);
        return;
      }
      if m.src !in pending {
        return;
      }
      pending := RemoveFirst(pending, m.src);
      if m.report.written != m.report.total {
        requested := requested + [m.src];
        heard := heard[m.src := m.report.epoch];
      }
      if m.report.written == 0 {
        Fill(progressArray, 0);
      } else if Complete(m.report) {
        if m.src !in unfinished {
          return;
        }
        unfinished := RemoveFirst(unfinished, m.src);
        Succeed(m.src);
      } else {
        match m.report.progress
        case None =>
        case Some(b) => AndInto(progressArray, b);
      }
    }

    method SendDrain(m: Message)
      requires Valid() && ListInv(Model())
      modifies this
      ensures Valid() && Model() == SendDrainStep(old(Model()), m) && ListInv(Model()) && sent == old(sent)
      ensures (forall a :: a in requested ==> a in old(requested)) && |successed| >= old(|successed|)
    {
      RemoveSubset(requested, m.src);
      SendDrainLists(Model(), m);
      if Complete(m.report) {
        if m.src !in unfinished {
          return;
        }
        unfinished := RemoveFirst(unfinished, m.src);
        if m.src !in requested {
          return;
        }
        requested := RemoveFirst(requested, m.src);
        Succeed(m.src);
      } else if m.report.error == N.Stop {
        unfinished := RemoveFirst(unfinished, m.src);
        requested := RemoveFirst(requested, m.src);
      }
    }

    /** The loop that empties the queue before asking; done when nothing is left to upgrade. */
    method DrainQueue(inbox: Inbox, at: nat) returns (next: nat)
      requires Valid() && ListInv(Model()) && at <= |inbox|
      modifies this
      ensures Valid() && ListInv(Model()) && at <= next <= |inbox| && sent == old(sent)
      ensures Model() == Drains(old(Model()), Reports(inbox[at..next]))
      ensures NoPause(inbox, at, next) && (unfinished == [] || RunsDry(inbox, at, next))
    {
      hide ListInv, DrainStep, Drains, Reports, Timeouts;
      next := at;
      NothingTaken(inbox, at, Model());
      while next < |inbox|
        invariant at <= next <= |inbox| && Valid() && ListInv(Model()) && sent == old(sent)
        invariant forall k :: at <= k < next ==> inbox[k].Some?
        invariant Model() == Drains(old(Model()), Reports(inbox[at..next]))
      {
        NextDrain(old(Model()), inbox, at, next);
        next := next + 1;
        match inbox[next - 1]
        case None =>
          return;
        case Some(m) =>
          Drain(m);
          if |unfinished| == 0 {
            return;
          }
      }
    }

    /** One wait for answers: until all pending nodes have answered or a receive times out. */
    method AwaitResponses(inbox: Inbox, at: nat) returns (next: nat)
      requires Valid() && ListInv(Model()) && at <= |inbox|
      modifies this, progressArray
      ensures Valid() && ListInv(Model()) && at <= next <= |inbox| && sent == old(sent)
      ensures Model() == Responses(old(Model()), Reports(inbox[at..next]))
      ensures NoPause(inbox, at, next) && (pending == [] || RunsDry(inbox, at, next))
      ensures Timeouts(inbox[at..next]) <= 1 && (pending != [] && next < |inbox| ==> Timeouts(inbox[at..next]) == 1)
    {
      hide ListInv, ResponseStep, Responses, Reports, Timeouts;
      next := at;
      NothingTaken(inbox, at, Model());
      while |pending| > 0 && next < |inbox|
        decreases |inbox| - next
        invariant at <= next <= |inbox| && Valid() && ListInv(Model()) && sent == old(sent)
        invariant (forall k :: at <= k < next ==> inbox[k].Some?) && Timeouts(inbox[at..next]) == 0
        invariant Model() == Responses(old(Model()), Reports(inbox[at..next]))
      {
        NextResponse(old(Model()), inbox, at, next);
        next := next + 1;
        match inbox[next - 1]
        case None =>
          return;
        case Some(m) =>
          Respond(m);
      }
    }

    /** mupgrade_request_status: the root then knows what the reports it took decide. */
    method RequestStatus(inbox: Inbox, at: nat) returns (ret: Status, next: nat)
      requires Valid() && ListInv(Model()) && at <= |inbox|
      modifies this, progressArray
      ensures Valid() && ListInv(Model()) && at <= next <= |inbox| && sent == old(sent)
      ensures exists k :: at <= k <= next && Asked(old(Model()), inbox[at..k], inbox[k..next], Model(), ret)
                       && Patient(inbox, at, k, next) && Learned(old(Model()), inbox[at..k], inbox[k..next], Model())
    {
      hide ListInv, ResponseStep, DrainStep, Filled, Learned;
      requested, heard := [], map[];
      ClearLists(old(Model()));
      next := DrainQueue(inbox, at);
      ghost var k := next;
      ghost var drained := Model();
      assert inbox[k..k] == [];
      if |unfinished| == 0 {
        assert Asked(old(Model()), inbox[at..k], inbox[k..next], Model(), Ok);
        AskedLearns(old(Model()), inbox[at..k], inbox[k..next], Model(), Ok);
        return Ok, next;
      }
      pending := unfinished;
      Fill(progressArray, 0xFF);
      AskLists(drained);
      var i := 0;
      while i < 3 && |pending| > 0
        invariant k <= next <= |inbox| && Valid() && ListInv(Model()) && sent == old(sent)
        invariant Model() == Responses(AskStep(drained), Reports(inbox[k..next]))
        invariant i <= 3 && Timeouts(inbox[k..next]) <= i
        invariant pending == [] || next == |inbox| || Timeouts(inbox[k..next]) == i
      {
        var from := next;
        next := AwaitResponses(inbox, from);
        assert inbox[k..next] == inbox[k..from] + inbox[from..next];
        TimeoutsConcat(inbox[k..from], inbox[from..next]);
        ReportsConcat(inbox[k..from], inbox[from..next]);
        ResponsesConcat(AskStep(drained), Reports(inbox[k..from]), Reports(inbox[from..next]));
        i := i + 1;
      }
      ret := if |pending| > 0 then PacketLoss else Ok;
      var full := AllOnes();
      if !full {
        ret := Incomplete;
      }
      assert Asked(old(Model()), inbox[at..k], inbox[k..next], Model(), ret);
      AskedLearns(old(Model()), inbox[at..k], inbox[k..next], Model(), ret);
    }

    /** The queue was drained before asking, and the root gave up waiting only after three timeouts. */
    ghost predicate Patient(inbox: Inbox, at: nat, k: nat, next: nat)
      reads this
    {
      && at <= k <= next <= |inbox| && NoPause(inbox, at, k)
      && (unfinished == [] || RunsDry(inbox, at, k))
      && Timeouts(inbox[k..next]) <= 3
      && (unfinished == [] || pending == [] || next == |inbox| || Timeouts(inbox[k..next]) == 3)
    }

    method AllOnes() returns (full: bool)
      requires Valid()
      ensures full == Full(progressArray[..])
    {
      for i := 0 to BITMAP_BYTES
        invariant forall k :: 0 <= k < i ==> progressArray[k] == 0xFF
      {
        if progressArray[i] != 0xFF {
          return false;
        }
      }
      return true;
    }

    /** Takes every report waiting in the queue. */
    method TakeWaiting(inbox: Inbox, at: nat) returns (next: nat)
      requires Valid() && ListInv(Model()) && at <= |inbox|
      modifies this
      ensures Valid() && ListInv(Model()) && at <= next <= |inbox| && sent == old(sent)
      ensures Model() == SendDrains(old(Model()), Reports(inbox[at..next]))
      ensures NoPause(inbox, at, next) && (unfinished == [] || RunsDry(inbox, at, next))
      ensures (forall a :: a in requested ==> a in old(requested)) && |successed| >= old(|successed|)
    {
      hide ListInv, SendDrainStep, SendDrains, Reports, Timeouts;
      next := at;
      NothingTaken(inbox, at, Model());
      while next < |inbox|
        invariant at <= next <= |inbox| && Valid() && ListInv(Model()) && sent == old(sent)
        invariant forall k :: at <= k < next ==> inbox[k].Some?
        invariant (forall a :: a in requested ==> a in old(requested)) && |successed| >= old(|successed|)
        invariant Model() == SendDrains(old(Model()), Reports(inbox[at..next]))
      {
        NextSendDrain(old(Model()), inbox, at, next);
        next := next + 1;
        match inbox[next - 1]
        case None =>
          return;
        case Some(m) =>
          SendDrain(m);
          if |unfinished| == 0 {
            return;
          }
      }
    }

    /** One pass over the packets up to limit, where the running flag is seen dropped. Unless it ends
        early, with no node left to send to or to upgrade or with flash that cannot be read, it has sent
        every packet the progress array lacks, in order, and only those. */
    method SendRound(inbox: Inbox, at: nat, broadcast: bool, limit: nat, unreadable: set<nat>)
      returns (next: nat, quit: bool)
      requires Valid() && ListInv(Model()) && at <= |inbox|
      modifies this
      ensures Valid() && ListInv(Model()) && at <= next <= |inbox|
      ensures Model() == SendDrains(old(Model()), Reports(inbox[at..next]))
      ensures old(sent) <= sent
      ensures forall k :: |old(sent)| <= k < |sent| ==> Wanted(sent[k], broadcast)
      ensures Addressed(sent[|old(sent)|..], broadcast, old(|successed|), |successed|)
      ensures Numbers(sent[|old(sent)|..]) <= Missing(progressArray[..], PacketNum(f))
      ensures quit ==> exists p: nat :: p < PacketNum(f) && p in unreadable
      ensures requested != [] && unfinished != [] && !quit && limit >= PacketNum(f) ==>
        Numbers(sent[|old(sent)|..]) == Missing(progressArray[..], PacketNum(f))
    {
      hide ListInv, SendDrains, Reports, Get, Wanted, Missing, Numbers;
      next := at;
      ghost var start := |sent|;
      NothingTaken(inbox, at, Model());
      var seqNo := 0;
      NoNumbers(progressArray[..], sent);
      quit := false;
      while |requested| > 0 && seqNo < PacketNum(f) && seqNo < limit
        invariant at <= next <= |inbox| && seqNo <= PacketNum(f) && Valid() && ListInv(Model())
        invariant Model() == SendDrains(old(Model()), Reports(inbox[at..next]))
        invariant old(sent) <= sent
        invariant forall k :: start <= k < |sent| ==> Wanted(sent[k], broadcast)
        invariant |sent| >= start && Numbers(sent[start..]) == Missing(progressArray[..], seqNo)
        invariant old(|successed|) <= |successed| && Addressed(sent[start..], broadcast, old(|successed|), |successed|)
        decreases PacketNum(f) - seqNo
      {
        MissingGrows(progressArray[..], seqNo, PacketNum(f));
        if !Get(progressArray[..], seqNo) {
          if seqNo in unreadable {
            return next, true;
          }
          next := TakeMore(inbox, at, next, old(Model()), broadcast);
          if |unfinished| == 0 {
            return;
          }
          ghost var before := sent;
          SendPacket(seqNo, broadcast);
          NumbersGrow(before, sent, start);
          assert sent[start..] == before[start..] + [sent[|before|]];
        }
        seqNo := seqNo + 1;
      }
      MissingGrows(progressArray[..], seqNo, PacketNum(f));
    }

    /** Takes what is waiting between two packets of a round that began at begin in state base. */
    method TakeMore(inbox: Inbox, ghost begin: nat, at: nat, ghost base: RootState, ghost broadcast: bool)
      returns (next: nat)
      requires Valid() && ListInv(Model()) && begin <= at <= |inbox|
      requires Model() == SendDrains(base, Reports(inbox[begin..at]))
      modifies this
      ensures Valid() && ListInv(Model()) && at <= next <= |inbox| && sent == old(sent)
      ensures Model() == SendDrains(base, Reports(inbox[begin..next]))
      ensures (forall s :: old(Wanted(s, broadcast)) ==> Wanted(s, broadcast)) && |successed| >= old(|successed|)
    {
      hide ListInv, SendDrainStep, Wanted, NoPause, RunsDry;
      next := TakeWaiting(inbox, at);
      WantedStays(broadcast);
      assert inbox[begin..next] == inbox[begin..at] + inbox[at..next];
      ReportsConcat(inbox[begin..at], inbox[at..next]);
      SendDrainsConcat(base, Reports(inbox[begin..at]), Reports(inbox[at..next]));
    }

    method SendPacket(p: nat, broadcast: bool)
      requires Valid() && p < PacketNum(f) && !Get(progressArray[..], p)
      modifies this`sent
      ensures |sent| == |old(sent)| + 1 && sent[..|old(sent)|] == old(sent)
      ensures sent[|old(sent)|].p == p && Wanted(sent[|old(sent)|], broadcast)
      ensures sent[|old(sent)|].dest.Everyone? <==> broadcast && |successed| < 2
    {
      sent := sent + [Sent(if broadcast && |successed| < 2 then Everyone else Listed(requested), p, Data(f, p))];
    }

    lemma WantedPacket(broadcast: bool)
      ensures forall s :: Wanted(s, broadcast) ==>
        IsPacket(s) && s.p < MAX_PACKETS && progressArray.Length == BITMAP_BYTES && !Get(progressArray[..], s.p)
    {
    }

    /** A packet sent to the nodes then requested was sent to those that still are. */
    twostate lemma WantedStays(broadcast: bool)
      requires old(Valid()) && Valid() && unchanged(progressArray)
      requires forall a :: a in requested ==> a in old(requested)
      ensures forall s :: old(Wanted(s, broadcast)) ==> Wanted(s, broadcast)
    {
    }

    /** A packet that the array lacks, with the image's bytes, sent to every node still requested. */
    ghost predicate Wanted(s: Sent, broadcast: bool)
      reads this`requested, progressArray
    {
      && progressArray.Length == BITMAP_BYTES && s.p < PacketNum(f) && s.data == Data(f, s.p)
      && !Get(progressArray[..], s.p)
      && (match s.dest
          case Everyone => broadcast
          case Listed(addrs) => forall a :: a in requested ==> a in addrs)
    }

    /** One round: ask for status and, unless that finds the upgrade done, send what is missing. */
    method OneRound(inbox: Inbox, at: nat, broadcast: bool, limit: nat, unreadable: set<nat>)
      returns (ret: Status, next: nat, quit: bool, ghost round: RoundInput)
      requires Valid() && ListInv(Model()) && at <= |inbox|
      modifies this, progressArray
      ensures Valid() && ListInv(Model()) && at <= next <= |inbox|
      ensures RoundLeads(old(Model()), round, ret, Model()) && Flat(round) == inbox[at..next]
      ensures AllSensible(inbox) && ret == Ok ==> unfinished == []
      ensures quit ==> unreadable != {}
      ensures old(sent) <= sent
      ensures forall k :: |old(sent)| <= k < |sent| ==> IsPacket(sent[k]) && Lacked(round.answers, sent[k].p)
    {
      hide ListInv, SendDrains, Reports, Get, AllSensible, Asked, Patient, Wanted, Flat, RoundLeads, Learned, Lacked;
      quit := false;
      ret, next := RequestStatus(inbox, at);
      ghost var k :| at <= k <= next && Asked(old(Model()), inbox[at..k], inbox[k..next], Model(), ret);
      ghost var asked, middle := Model(), next;
      if ret == Ok {
        OkOfInbox(old(Model()), inbox, at, k, next, asked);
      } else {
        next, quit := SendRound(inbox, next, broadcast, limit, unreadable);
        WantedPacket(broadcast);
        MissingLacked(old(Model()), inbox[at..k], inbox[k..middle], asked, ret);
      }
      round := RoundInput(inbox[at..k], inbox[k..middle], inbox[middle..next]);
      FlatInput(inbox, at, k, middle, next);
      NothingTaken(inbox, middle, asked);
      OneRoundLeads(old(Model()), round, asked, ret, Model());
    }

    /** mupgrade_firmware_send, after its setup: at most ten rounds, each asking for status and sending
        what is missing; MDF_OK exactly when nothing is unfinished. halt says when the running flag is
        seen dropped, unreadable which packets cannot be read from flash. */
    method FirmwareSend(inbox: Inbox, broadcast: bool, halt: Halt, unreadable: set<nat>)
      returns (ret: Status, ghost rounds: seq<RoundInput>)
      requires Valid() && ListInv(Model())
      modifies this, progressArray
      ensures Valid() && ListInv(Model())
      ensures ret == Ok <==> unfinished == []
      ensures |rounds| <= RETRY_COUNT && Joined(rounds) <= inbox && Rounds(old(Model()), rounds, Model())
      ensures AllSensible(inbox) && halt.round >= RETRY_COUNT && unreadable == {} && ret != Ok ==>
        |rounds| == RETRY_COUNT
      ensures old(sent) <= sent
      ensures forall k :: |old(sent)| <= k < |sent| ==> IsPacket(sent[k]) && LackedInSome(rounds, sent[k].p)
    {
      hide ListInv, SendDrainStep, Get, AllSensible, Asked, Full, Lacked, LackedInSome;
      var next, i, done := 0, 0, false;
      rounds := [];
      while i < RETRY_COUNT && |unfinished| > 0 && i <= halt.round && !done
        invariant next <= |inbox| && Valid() && ListInv(Model())
        invariant |rounds| == i <= RETRY_COUNT && Joined(rounds) == inbox[..next]
        invariant Rounds(old(Model()), rounds, Model())
        invariant AllSensible(inbox) && unreadable == {} && done ==> unfinished == []
        invariant old(sent) <= sent
        invariant forall k :: |old(sent)| <= k < |sent| ==> IsPacket(sent[k]) && LackedInSome(rounds, sent[k].p)
      {
        ghost var start, before := next, Model();
        ghost var round;
        var quit;
        var limit := if i == halt.round then halt.packet else PacketNum(f);
        ret, next, quit, round := OneRound(inbox, next, broadcast, limit, unreadable);
        RoundsExtend(old(Model()), rounds, before, round, ret, Model());
        assert inbox[..next] == inbox[..start] + inbox[start..next];
        LackedInMore(rounds, round);
        rounds := rounds + [round];
        done := ret == Ok || quit;
        i := i + 1;
      }
      ret := if |unfinished| > 0 then Incomplete else Ok;
    }

    ghost predicate IsPacket(s: Sent) {
      s.p < PacketNum(f) && s.data == Data(f, s.p)
    }
  }

  /** The whole of a status request: what was received before and after asking, and the result. */
  ghost predicate Asked(s: RootState, drained: Inbox, answers: Inbox, t: RootState, ret: Status) {
    var d := Drains(ClearStep(s), Reports(drained));
    if d.unfinished == [] then t == d && ret == Ok && answers == []
    else
      && t == Responses(AskStep(d), Reports(answers))
      && ret == if !Full(t.progress) then Incomplete else if t.pending != [] then PacketLoss else Ok
  }

  /** The nodes asked: those that have not ended. */
  ghost predicate AskedList(s: RootState, drained: seq<Message>, asked: seq<Addr>) {
    forall a :: a in asked <==> a in s.unfinished && !Ended(drained, a)
  }

  /** What the answers ms of the nodes asked decide. */
  ghost predicate Decided(asked: seq<Addr>, ms: seq<Message>, t: RootState) {
    && Distinct(t.requested)
    && (forall a :: a in t.pending <==> a in asked && !Heard(ms, a))
    && (forall a :: a in t.unfinished <==> a in asked && !SomeStop(ms, a) && !AnsweredComplete(asked, ms, a))
    && (forall a :: a in t.requested <==> AnsweredPartial(asked, ms, a))
    && (forall p :: 0 <= p < MAX_PACKETS ==> (Get(t.progress, p) <==> AllHave(asked, ms, p)))
  }

  /** What the root knows after a status request. */
  ghost predicate Learned(s: RootState, drained: Inbox, answers: Inbox, t: RootState) {
    exists asked :: AskedList(s, Reports(drained), asked)
      && if asked == [] then t.unfinished == [] else Decided(asked, Reports(answers), t)
  }

  lemma AskedLearns(s: RootState, drained: Inbox, answers: Inbox, t: RootState, ret: Status)
    requires ListInv(s) && Asked(s, drained, answers, t, ret)
    ensures Learned(s, drained, answers, t)
  {
    hide Full, ListInv, Decided, Ended;
    var d := Drains(ClearStep(s), Reports(drained));
    DrainedAsks(s, Reports(drained));
    if d.unfinished != [] {
      AnswersDecide(d, Reports(answers));
    }
  }

  /** A node has answered without packet p. */
  ghost predicate Lacked(answers: Inbox, p: nat) {
    var ms := Reports(answers);
    p < MAX_PACKETS && exists k :: 0 <= k < |ms| && !Stopped(ms[k]) && !HasPacket(ms[k].report, p)
  }

  /** A packet that is sent after asking is one that some node lacks. */
  lemma MissingLacked(s: RootState, drained: Inbox, answers: Inbox, t: RootState, ret: Status)
    requires ListInv(s) && Asked(s, drained, answers, t, ret) && ret != Ok
    ensures forall p: nat :: p < MAX_PACKETS && !Get(t.progress, p) ==> Lacked(answers, p)
  {
    hide ListInv, Get, Full, HasPacket, Reports, ClearStep;
    var d, ms := Drains(ClearStep(s), Reports(drained)), Reports(answers);
    DrainedAsks(s, Reports(drained));
    forall p: nat | p < MAX_PACKETS && !Get(t.progress, p)
      ensures Lacked(answers, p)
    {
      MarkedIff(d, ms, p);
      var k: nat :| Answers(d.unfinished, ms, k) && !HasPacket(ms[k].report, p);
    }
  }

  lemma DrainedAsks(s: RootState, ms: seq<Message>)
    requires ListInv(s)
    ensures var d := Drains(ClearStep(s), ms);
      ListInv(d) && d.requested == [] && AskedList(s, ms, d.unfinished)
  {
    hide Ended, ListInv, EndsComplete;
    ClearLists(s);
    DrainsLists(ClearStep(s), ms);
    DrainsRequested(ClearStep(s), ms);
    forall a: Addr
      ensures a in Drains(ClearStep(s), ms).unfinished <==> a in s.unfinished && !Ended(ms, a)
    {
      DrainsIff(ClearStep(s), ms, a);
    }
  }

  lemma {:induction false} DrainsRequested(s: RootState, ms: seq<Message>)
    ensures Drains(s, ms).requested == s.requested
  {
    if ms != [] {
      DrainsRequested(s, ms[..|ms| - 1]);
    }
  }

  lemma AnswersDecide(d: RootState, ms: seq<Message>)
    requires ListInv(d) && d.requested == []
    ensures Decided(d.unfinished, ms, Responses(AskStep(d), ms))
  {
    hide Heard, SomeStop, AnsweredComplete, AnsweredPartial, AllHave, Get, ListInv, Responses, AskStep, Distinct;
    var t := Responses(AskStep(d), ms);
    RequestedDistinct(d, ms);
    forall a: Addr
      ensures a in t.pending <==> a in d.unfinished && !Heard(ms, a)
      ensures a in t.unfinished <==> a in d.unfinished && !SomeStop(ms, a) && !AnsweredComplete(d.unfinished, ms, a)
      ensures a in t.requested <==> AnsweredPartial(d.unfinished, ms, a)
    {
      ResponsesIff(d, ms, a);
    }
    forall p | 0 <= p < MAX_PACKETS
      ensures Get(t.progress, p) <==> AllHave(d.unfinished, ms, p)
    {
      MarkedIff(d, ms, p);
    }
  }

  /** What the root takes from its queue in one round: before asking, in answer, and between packets. */
  datatype RoundInput = RoundInput(drained: Inbox, answers: Inbox, waiting: Inbox)

  /** In some round a node has answered without packet p. */
  ghost predicate LackedInSome(rounds: seq<RoundInput>, p: nat) {
    exists i :: 0 <= i < |rounds| && Lacked(rounds[i].answers, p)
  }

  lemma LackedInMore(rounds: seq<RoundInput>, round: RoundInput)
    ensures forall p: nat :: LackedInSome(rounds, p) || Lacked(round.answers, p) ==> LackedInSome(rounds + [round], p)
  {
    hide Lacked;
    var all := rounds + [round];
    assert all[|rounds|] == round && forall i :: 0 <= i < |rounds| ==> all[i] == rounds[i];
  }

  function Flat(round: RoundInput): Inbox {
    round.drained + round.answers + round.waiting
  }

  function Joined(rounds: seq<RoundInput>): Inbox {
    if rounds == [] then [] else Joined(rounds[..|rounds| - 1]) + Flat(rounds[|rounds| - 1])
  }

  ghost predicate RoundOf(s: RootState, round: RoundInput, asked: RootState, ret: Status, t: RootState) {
    && Asked(s, round.drained, round.answers, asked, ret)
    && t == SendDrains(asked, Reports(round.waiting)) && (ret == Ok ==> round.waiting == [])
  }

  ghost predicate RoundLeads(s: RootState, round: RoundInput, ret: Status, t: RootState) {
    exists asked :: RoundOf(s, round, asked, ret, t)
  }

  /** The rounds lead from s to t. */
  ghost predicate Rounds(s: RootState, rounds: seq<RoundInput>, t: RootState)
    decreases |rounds|
  {
    if rounds == [] then t == s
    else
      var last := rounds[|rounds| - 1];
      exists u :: Rounds(s, rounds[..|rounds| - 1], u) && Leads(u, last, t)
  }

  ghost predicate Leads(s: RootState, round: RoundInput, t: RootState) {
    exists ret :: RoundLeads(s, round, ret, t)
  }

  lemma OneRoundLeads(s: RootState, round: RoundInput, asked: RootState, ret: Status, t: RootState)
    requires RoundOf(s, round, asked, ret, t)
    ensures RoundLeads(s, round, ret, t)
  {
  }

  lemma FlatInput(inbox: Inbox, at: nat, k: nat, middle: nat, next: nat)
    requires at <= k <= middle <= next <= |inbox|
    ensures Flat(RoundInput(inbox[at..k], inbox[k..middle], inbox[middle..next])) == inbox[at..next]
    ensures inbox[middle..middle] == []
  {
  }

  lemma RoundsExtend(s: RootState, rounds: seq<RoundInput>, u: RootState, round: RoundInput, ret: Status, t: RootState)
    requires Rounds(s, rounds, u) && RoundLeads(u, round, ret, t)
    ensures Rounds(s, rounds + [round], t) && Joined(rounds + [round]) == Joined(rounds) + Flat(round)
  {
    hide RoundLeads;
    assert (rounds + [round])[..|rounds + [round]| - 1] == rounds;
    assert Leads(u, (rounds + [round])[|rounds + [round]| - 1], t);
  }

  lemma OkOfInbox(s: RootState, inbox: Inbox, i: nat, k: nat, j: nat, t: RootState)
    requires i <= k <= j <= |inbox| && ListInv(s) && Asked(s, inbox[i..k], inbox[k..j], t, Ok)
    ensures AllSensible(inbox) ==> t.unfinished == []
  {
    hide Asked, ListInv, Sensible;
    if AllSensible(inbox) {
      OkMeansFinished(s, inbox[i..k], inbox[k..j], t);
    }
  }

  /** A status request returns MDF_OK only when no node is left unfinished. */
  lemma OkMeansFinished(s: RootState, drained: Inbox, answers: Inbox, t: RootState)
    requires ListInv(s) && AllSensible(answers) && Asked(s, drained, answers, t, Ok)
    ensures t.unfinished == []
  {
    hide Full, DrainStep, ResponseStep;
    var d := Drains(ClearStep(s), Reports(drained));
    if d.unfinished != [] {
      DrainsLists(ClearStep(s), Reports(drained));
      AccountedAtStart(d);
      ResponsesAccount(AskStep(d), answers);
      SomeMember(t.unfinished);
    }
  }

  lemma SomeMember(s: seq<Addr>)
    ensures s != [] ==> exists a :: a in s
  {
    if s != [] {
      assert s[0] in s;
    }
  }

  lemma AccountedAtStart(d: RootState)
    requires ListInv(d)
    ensures ListInv(AskStep(d)) && Accounted(AskStep(d))
  {
  }

  lemma {:induction false} DrainsLists(s: RootState, ms: seq<Message>)
    requires ListInv(s)
    ensures ListInv(Drains(s, ms))
  {
    if ms != [] {
      DrainsLists(s, ms[..|ms| - 1]);
      DrainLists(Drains(s, ms[..|ms| - 1]), ms[|ms| - 1]);
    }
  }

  lemma {:induction false} ResponsesAccount(s: RootState, inbox: Inbox)
    requires ListInv(s) && Accounted(s) && AllSensible(inbox)
    ensures ListInv(Responses(s, Reports(inbox))) && Accounted(Responses(s, Reports(inbox)))
  {
    hide ListInv, Accounted, ResponseStep, Sensible;
    if inbox != [] {
      var last := inbox[|inbox| - 1];
      var before := Reports(inbox[..|inbox| - 1]);
      ResponsesAccount(s, inbox[..|inbox| - 1]);
      match last
      case None =>
        assert before + [] == before;
      case Some(m) =>
        assert (before + [m])[..|before + [m]| - 1] == before;
        ResponseLists(Responses(s, before), m);
        ResponseAccounts(Responses(s, before), m);
    }
  }

  lemma ClearLists(s: RootState)
    requires ListInv(s)
    ensures ListInv(ClearStep(s))
  {
  }

  lemma AskLists(s: RootState)
    requires ListInv(s)
    ensures ListInv(AskStep(s))
  {
  }

  lemma NoNumbers(b: Bitmap, sent: seq<Sent>)
    ensures Numbers(sent[|sent|..]) == Missing(b, 0)
  {
  }

  lemma NumbersGrow(before: seq<Sent>, sent: seq<Sent>, start: nat)
    requires start <= |before| && |sent| == |before| + 1 && sent[..|before|] == before
    ensures Numbers(sent[start..]) == Numbers(before[start..]) + [sent[|before|].p]
  {
    assert sent[start..] == before[start..] + [sent[|before|]];
  }

  lemma {:induction false} MissingGrows(b: Bitmap, k: nat, n: nat)
    requires k <= n <= MAX_PACKETS
    ensures Missing(b, k) <= Missing(b, n)
    ensures k < n ==> Missing(b, k + 1) == Missing(b, k) + (if Get(b, k) then [] else [k])
    decreases n
  {
    hide Get;
    if k < n {
      MissingGrows(b, k, n - 1);
    }
  }

  lemma NextDrain(s: RootState, inbox: Inbox, at: nat, next: nat)
    requires at <= next < |inbox|
    ensures Drains(s, Reports(inbox[at..next + 1])) == (
      var t := Drains(s, Reports(inbox[at..next]));
      if inbox[next].None? then t else DrainStep(t, inbox[next].value))
  {
    hide DrainStep;
    NextReport(inbox, at, next);
  }

  lemma NextSendDrain(s: RootState, inbox: Inbox, at: nat, next: nat)
    requires at <= next < |inbox|
    ensures SendDrains(s, Reports(inbox[at..next + 1])) == (
      var t := SendDrains(s, Reports(inbox[at..next]));
      if inbox[next].None? then t else SendDrainStep(t, inbox[next].value))
  {
    hide SendDrainStep;
    NextReport(inbox, at, next);
  }

  lemma NextResponse(s: RootState, inbox: Inbox, at: nat, next: nat)
    requires at <= next < |inbox|
    ensures Responses(s, Reports(inbox[at..next + 1])) == (
      var t := Responses(s, Reports(inbox[at..next]));
      if inbox[next].None? then t else ResponseStep(t, inbox[next].value))
    ensures Timeouts(inbox[at..next + 1]) == Timeouts(inbox[at..next]) + (if inbox[next].None? then 1 else 0)
  {
    hide ResponseStep;
    NextReport(inbox, at, next);
  }

  lemma NothingTaken(inbox: Inbox, at: nat, s: RootState)
    requires at <= |inbox|
    ensures SendDrains(s, Reports(inbox[at..at])) == s && Drains(s, Reports(inbox[at..at])) == s
    ensures Responses(s, Reports(inbox[at..at])) == s && Timeouts(inbox[at..at]) == 0
  {
    assert inbox[at..at] == [];
  }

  lemma NextReport(inbox: Inbox, at: nat, next: nat)
    requires at <= next < |inbox|
    ensures inbox[next].None? ==> Reports(inbox[at..next + 1]) == Reports(inbox[at..next])
    ensures inbox[next].Some? ==>
      var all := Reports(inbox[at..next + 1]);
      all == Reports(inbox[at..next]) + [inbox[next].value] && all[..|all| - 1] == Reports(inbox[at..next])
    ensures Timeouts(inbox[at..next + 1]) == Timeouts(inbox[at..next]) + (if inbox[next].None? then 1 else 0)
  {
    assert inbox[at..next + 1][..|inbox[at..next + 1]| - 1] == inbox[at..next];
  }

  lemma {:induction false} TimeoutsConcat(a: Inbox, b: Inbox)
    ensures Timeouts(a + b) == Timeouts(a) + Timeouts(b)
  {
    if b == [] {
      assert a + b == a;
    } else {
      assert (a + b)[..|a + b| - 1] == a + b[..|b| - 1];
      TimeoutsConcat(a, b[..|b| - 1]);
    }
  }

  lemma {:induction false} ReportsConcat(a: Inbox, b: Inbox)
    ensures Reports(a + b) == Reports(a) + Reports(b)
  {
    if b == [] {
      assert a + b == a && Reports(b) == [];
    } else {
      assert (a + b)[..|a + b| - 1] == a + b[..|b| - 1];
      ReportsConcat(a, b[..|b| - 1]);
    }
  }

  lemma {:induction false} ResponsesConcat(s: RootState, a: seq<Message>, b: seq<Message>)
    ensures Responses(s, a + b) == Responses(Responses(s, a), b)
  {
    if b == [] {
      assert a + b == a;
    } else {
      assert (a + b)[..|a + b| - 1] == a + b[..|b| - 1];
      ResponsesConcat(s, a, b[..|b| - 1]);
    }
  }

  lemma {:induction false} SendDrainsConcat(s: RootState, a: seq<Message>, b: seq<Message>)
    ensures SendDrains(s, a + b) == SendDrains(SendDrains(s, a), b)
  {
    if b == [] {
      assert a + b == a;
    } else {
      assert (a + b)[..|a + b| - 1] == a + b[..|b| - 1];
      SendDrainsConcat(s, a, b[..|b| - 1]);
    }
  }

  // ----- when the send ends with nothing unfinished

  /** A report that a has completed is among these. */
  ghost predicate Took(ms: seq<Message>, a: Addr) {
    exists k :: 0 <= k < |ms| && ms[k].src == a && Complete(ms[k].report)
  }

  /** ... taken before asking or between packets. */
  ghost predicate RoundTook(round: RoundInput, a: Addr) {
    Took(Reports(round.drained), a) || Took(Reports(round.waiting), a)
  }

  lemma TookLast(ms: seq<Message>, a: Addr)
    requires ms != []
    ensures Took(ms, a) ==> Took(ms[..|ms| - 1], a) || (ms[|ms| - 1].src == a && Complete(ms[|ms| - 1].report))
  {
    if Took(ms, a) {
      var k :| 0 <= k < |ms| && ms[k].src == a && Complete(ms[k].report);
      assert k < |ms| - 1 ==> ms[..|ms| - 1][k] == ms[k];
    }
  }

  lemma {:induction false} DrainsRemove(s: RootState, ms: seq<Message>, a: Addr)
    requires ListInv(s)
    ensures ListInv(Drains(s, ms)) && (Took(ms, a) || a !in s.unfinished ==> a !in Drains(s, ms).unfinished)
  {
    hide ListInv, Took;
    if ms != [] {
      var m, before := ms[|ms| - 1], Drains(s, ms[..|ms| - 1]);
      DrainsRemove(s, ms[..|ms| - 1], a);
      TookLast(ms, a);
      StepsRemove(before, m, a);
    } else {
      NoneTook(a);
    }
  }

  lemma NoneTook(a: Addr)
    ensures !Took([], a)
  {
  }

  /** No step brings an address back, and a report of completion takes it out, except in an answer that
      was not waited for. */
  lemma StepsRemove(s: RootState, m: Message, a: Addr)
    requires ListInv(s)
    ensures ListInv(DrainStep(s, m)) && ListInv(SendDrainStep(s, m)) && ListInv(ResponseStep(s, m))
    ensures a !in s.unfinished || (m.src == a && Complete(m.report)) ==>
      a !in DrainStep(s, m).unfinished && a !in SendDrainStep(s, m).unfinished
    ensures a !in s.unfinished ==> a !in ResponseStep(s, m).unfinished
  {
    DrainLists(s, m);
    SendDrainLists(s, m);
    ResponseLists(s, m);
    RemoveMembers(s.unfinished, m.src);
  }

  lemma {:induction false} SendDrainsRemove(s: RootState, ms: seq<Message>, a: Addr)
    requires ListInv(s)
    ensures ListInv(SendDrains(s, ms)) && (Took(ms, a) || a !in s.unfinished ==> a !in SendDrains(s, ms).unfinished)
  {
    hide ListInv, Took, SendDrainStep;
    if ms != [] {
      SendDrainsRemove(s, ms[..|ms| - 1], a);
      TookLast(ms, a);
      StepsRemove(SendDrains(s, ms[..|ms| - 1]), ms[|ms| - 1], a);
    } else {
      NoneTook(a);
    }
  }

  lemma {:induction false} ResponsesRemove(s: RootState, ms: seq<Message>, a: Addr)
    requires ListInv(s)
    ensures ListInv(Responses(s, ms)) && (a !in s.unfinished ==> a !in Responses(s, ms).unfinished)
  {
    hide ListInv, ResponseStep;
    if ms != [] {
      ResponsesRemove(s, ms[..|ms| - 1], a);
      StepsRemove(Responses(s, ms[..|ms| - 1]), ms[|ms| - 1], a);
    }
  }

  lemma RoundRemoves(s: RootState, round: RoundInput, t: RootState, a: Addr)
    requires ListInv(s) && Leads(s, round, t)
    ensures ListInv(t) && (RoundTook(round, a) || a !in s.unfinished ==> a !in t.unfinished)
  {
    hide ListInv, Took, Full;
    var ret :| RoundLeads(s, round, ret, t);
    var asked :| RoundOf(s, round, asked, ret, t);
    ClearLists(s);
    var d := Drains(ClearStep(s), Reports(round.drained));
    DrainsRemove(ClearStep(s), Reports(round.drained), a);
    if d.unfinished != [] {
      AskLists(d);
      ResponsesRemove(AskStep(d), Reports(round.answers), a);
    }
    SendDrainsRemove(asked, Reports(round.waiting), a);
  }

  lemma {:induction false} RoundsRemove(s: RootState, rounds: seq<RoundInput>, t: RootState, a: Addr)
    requires ListInv(s) && Rounds(s, rounds, t)
    ensures ListInv(t)
    ensures a !in s.unfinished || (exists k :: 0 <= k < |rounds| && RoundTook(rounds[k], a)) ==> a !in t.unfinished
    decreases |rounds|
  {
    hide ListInv, RoundTook, Leads;
    if rounds != [] {
      var front, last := rounds[..|rounds| - 1], rounds[|rounds| - 1];
      var u :| Rounds(s, front, u) && Leads(u, last, t);
      RoundsRemove(s, front, u, a);
      RoundRemoves(u, last, t, a);
      if k :| 0 <= k < |rounds| && RoundTook(rounds[k], a) {
        assert k < |rounds| - 1 ==> front[k] == rounds[k];
      }
    }
  }

  /** If a report of completion of every node is taken, before asking or between packets, the send ends
      with nothing unfinished, and so returns MDF_OK. */
  lemma ReportsEndSend(s: RootState, rounds: seq<RoundInput>, t: RootState)
    requires ListInv(s) && Rounds(s, rounds, t)
    requires forall a :: a in s.unfinished ==> exists k :: 0 <= k < |rounds| && RoundTook(rounds[k], a)
    ensures t.unfinished == []
  {
    hide ListInv, RoundTook, Rounds;
    forall a: Addr
      ensures a !in t.unfinished
    {
      RoundsRemove(s, rounds, t, a);
    }
    SomeMember(t.unfinished);
  }
}
