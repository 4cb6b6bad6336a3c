/** What the reports taken decide, said of the reports alone: who is still unfinished, who has not
    answered, whom packets are requested for, and which packets are marked as present everywhere.

    The statements hold in both directions, for any sequence of reports. */
module RootAnswers {
  import opened AddressList
  import opened Bitmap
  import opened UpgradeRoot
  import N = UpgradeNode

  /** Some report is from a. */
  ghost predicate Heard(ms: seq<Message>, a: Addr) {
    exists k :: 0 <= k < |ms| && ms[k].src == a
  }

  ghost predicate Stopped(m: Message) { m.report.error == N.Stop }

  /** A report that takes its node off the list. */
  ghost predicate Ends(m: Message) { Complete(m.report) || Stopped(m) }

  ghost predicate Ended(ms: seq<Message>, a: Addr) {
    exists k :: 0 <= k < |ms| && ms[k].src == a && Ends(ms[k])
  }

  /** Report k is an answer: the first report of a node that was asked, and not a stop. */
  ghost predicate Answers(asked: seq<Addr>, ms: seq<Message>, k: nat) {
    k < |ms| && ms[k].src in asked && !Stopped(ms[k]) && !Heard(ms[..k], ms[k].src)
  }

  /** The node has packet p, as far as its report tells. */
  predicate HasPacket(r: N.Report, p: nat)
    requires p < MAX_PACKETS
  {
    r.written != 0 && (Complete(r) || r.progress.None? || Get(r.progress.value, p))
  }

  /** Every node that answered has packet p. */
  ghost predicate AllHave(asked: seq<Addr>, ms: seq<Message>, p: nat)
    requires p < MAX_PACKETS
  {
    forall k: nat :: Answers(asked, ms, k) ==> HasPacket(ms[k].report, p)
  }

  ghost predicate SomeStop(ms: seq<Message>, a: Addr) {
    exists k :: 0 <= k < |ms| && ms[k].src == a && Stopped(ms[k])
  }

  /** a has answered with all packets, or with some missing. */
  ghost predicate AnsweredComplete(asked: seq<Addr>, ms: seq<Message>, a: Addr) {
    exists k: nat :: Answers(asked, ms, k) && ms[k].src == a && Complete(ms[k].report) && ms[k].report.written != 0
  }

  ghost predicate AnsweredPartial(asked: seq<Addr>, ms: seq<Message>, a: Addr) {
    exists k: nat :: Answers(asked, ms, k) && ms[k].src == a && !Complete(ms[k].report)
  }

  /** a has stopped with packets missing. */
  ghost predicate GaveUp(ms: seq<Message>, a: Addr) {
    exists k :: 0 <= k < |ms| && ms[k].src == a && Stopped(ms[k]) && !Complete(ms[k].report)
  }

  /** The report by which a leaves is one of completion. */
  ghost predicate EndsComplete(ms: seq<Message>, a: Addr) {
    exists k :: 0 <= k < |ms| && ms[k].src == a && Complete(ms[k].report) && !Ended(ms[..k], a)
  }

  // ----- one more report

  lemma HeardNext(ms: seq<Message>, m: Message, a: Addr)
    ensures Heard(ms + [m], a) <==> Heard(ms, a) || m.src == a
    ensures Ended(ms + [m], a) <==> Ended(ms, a) || (m.src == a && Ends(m))
    ensures SomeStop(ms + [m], a) <==> SomeStop(ms, a) || (m.src == a && Stopped(m))
    ensures GaveUp(ms + [m], a) <==> GaveUp(ms, a) || (m.src == a && Stopped(m) && !Complete(m.report))
  {
    var all := ms + [m];
    assert all[|ms|] == m;
    assert forall k :: 0 <= k < |ms| ==> all[k] == ms[k];
  }

  lemma AnswersNext(asked: seq<Addr>, ms: seq<Message>, m: Message, k: nat)
    ensures k < |ms| ==> (Answers(asked, ms + [m], k) <==> Answers(asked, ms, k)) && (ms + [m])[k] == ms[k]
    ensures k == |ms| ==> (ms + [m])[k] == m
    ensures k == |ms| ==> (Answers(asked, ms + [m], k) <==> m.src in asked && !Stopped(m) && !Heard(ms, m.src))
    ensures k > |ms| ==> !Answers(asked, ms + [m], k)
  {
    if k <= |ms| {
      assert (ms + [m])[..k] == ms[..k];
      assert ms[..|ms|] == ms;
    }
  }

  lemma AllHaveNext(asked: seq<Addr>, ms: seq<Message>, m: Message, p: nat)
    requires p < MAX_PACKETS
    ensures AllHave(asked, ms + [m], p) <==>
      AllHave(asked, ms, p) && (m.src in asked && !Stopped(m) && !Heard(ms, m.src) ==> HasPacket(m.report, p))
  {
    hide Answers, HasPacket;
    forall k: nat
      ensures k < |ms| ==> (Answers(asked, ms + [m], k) <==> Answers(asked, ms, k)) && (ms + [m])[k] == ms[k]
      ensures k > |ms| ==> !Answers(asked, ms + [m], k)
    {
      AnswersNext(asked, ms, m, k);
    }
    AnswersNext(asked, ms, m, |ms|);
    AnswersInside(asked, ms);
  }

  lemma AnswersInside(asked: seq<Addr>, ms: seq<Message>)
    ensures forall k: nat :: Answers(asked, ms, k) ==> k < |ms|
  {
  }

  lemma AnsweredNext(asked: seq<Addr>, ms: seq<Message>, m: Message, a: Addr)
    ensures var taken := m.src == a && a in asked && !Stopped(m) && !Heard(ms, a);
      && (AnsweredComplete(asked, ms + [m], a) <==>
            AnsweredComplete(asked, ms, a) || (taken && Complete(m.report) && m.report.written != 0))
      && (AnsweredPartial(asked, ms + [m], a) <==> AnsweredPartial(asked, ms, a) || (taken && !Complete(m.report)))
  {
    hide Answers;
    forall k: nat
      ensures k < |ms| ==> (Answers(asked, ms + [m], k) <==> Answers(asked, ms, k)) && (ms + [m])[k] == ms[k]
      ensures k > |ms| ==> !Answers(asked, ms + [m], k)
    {
      AnswersNext(asked, ms, m, k);
    }
    AnswersNext(asked, ms, m, |ms|);
    AnswersInside(asked, ms);
  }

  lemma EndsCompleteNext(ms: seq<Message>, m: Message, a: Addr)
    ensures EndsComplete(ms + [m], a) <==>
      EndsComplete(ms, a) || (m.src == a && Complete(m.report) && !Ended(ms, a))
  {
    hide Ended;
    var all := ms + [m];
    assert all[|ms|] == m && all[..|ms|] == ms;
    assert forall k :: 0 <= k < |ms| ==> all[k] == ms[k] && all[..k] == ms[..k];
  }

  lemma Split(ms: seq<Message>)
    requires ms != []
    ensures ms == ms[..|ms| - 1] + [ms[|ms| - 1]]
  {
  }

  lemma NoReports(asked: seq<Addr>, a: Addr)
    ensures !Heard([], a) && !Ended([], a) && !SomeStop([], a) && !GaveUp([], a) && !EndsComplete([], a)
    ensures !AnsweredComplete(asked, [], a) && !AnsweredPartial(asked, [], a)
    ensures forall p :: 0 <= p < MAX_PACKETS ==> AllHave(asked, [], p)
  {
  }

  // ----- before asking

  /** Before asking, a node leaves unfinished exactly when it reports completion or a stop, and joins
      successed exactly when it leaves by a completion. */
  lemma {:induction false} DrainsIff(s: RootState, ms: seq<Message>, a: Addr)
    requires ListInv(s)
    ensures var t := Drains(s, ms);
      && ListInv(t)
      && (a in t.unfinished <==> a in s.unfinished && !Ended(ms, a))
      && (a in t.successed <==> a in s.successed || (a in s.unfinished && EndsComplete(ms, a)))
    decreases |ms|
  {
    hide Ended, EndsComplete, ListInv;
    if ms == [] {
      NoReports([], a);
    } else {
      var front, m := ms[..|ms| - 1], ms[|ms| - 1];
      Split(ms);
      DrainsIff(s, front, a);
      HeardNext(front, m, a);
      EndsCompleteNext(front, m, a);
      DrainMoves(Drains(s, front), m, a);
    }
  }

  lemma DrainMoves(s: RootState, m: Message, a: Addr)
    requires ListInv(s)
    ensures var t := DrainStep(s, m);
      && ListInv(t)
      && (a in t.unfinished <==> a in s.unfinished && !(m.src == a && Ends(m)))
      && (a in t.successed <==> a in s.successed || (a in s.unfinished && m.src == a && Complete(m.report)))
  {
    DrainLists(s, m);
    RemoveMembers(s.unfinished, m.src);
  }

  // ----- between packets

  /** Between packets, a node leaves unfinished exactly when it reports completion or a stop; packets are no
      longer requested for it exactly when it leaves or stops incomplete; and it joins successed exactly
      when it leaves by a completion while packets are requested for it. */
  lemma {:induction false} SendDrainsIff(s: RootState, ms: seq<Message>, a: Addr)
    requires ListInv(s) && Distinct(s.requested)
    ensures var t := SendDrains(s, ms);
      && ListInv(t) && Distinct(t.requested)
      && (a in t.unfinished <==> a in s.unfinished && !Ended(ms, a))
      && (a in t.requested <==> a in s.requested && !GaveUp(ms, a) && !(a in s.unfinished && Ended(ms, a)))
      && (a in t.successed <==>
            a in s.successed || (a in s.unfinished && a in s.requested && EndsComplete(ms, a)))
    decreases |ms|
  {
    hide Ended, EndsComplete, GaveUp, ListInv, Distinct;
    if ms == [] {
      NoReports([], a);
    } else {
      var front, m := ms[..|ms| - 1], ms[|ms| - 1];
      Split(ms);
      SendDrainsIff(s, front, a);
      HeardNext(front, m, a);
      EndsCompleteNext(front, m, a);
      SendDrainMoves(SendDrains(s, front), m, a);
      EndsOnce(front, a);
    }
  }

  lemma EndsOnce(ms: seq<Message>, a: Addr)
    ensures GaveUp(ms, a) ==> Ended(ms, a)
  {
  }

  lemma SendDrainMoves(s: RootState, m: Message, a: Addr)
    requires ListInv(s) && Distinct(s.requested)
    ensures var t := SendDrainStep(s, m);
      && ListInv(t) && Distinct(t.requested)
      && (a in t.unfinished <==> a in s.unfinished && !(m.src == a && Ends(m)))
      && (a in t.requested <==>
            a in s.requested && !(m.src == a && (if Complete(m.report) then a in s.unfinished else Stopped(m))))
      && (a in t.successed <==>
            a in s.successed || (a in s.unfinished && a in s.requested && m.src == a && Complete(m.report)))
  {
    SendDrainLists(s, m);
    RemoveMembers(s.unfinished, m.src);
    RemoveMembers(s.requested, m.src);
  }

  // ----- after asking

  /** Of the nodes asked, those have not answered that have not been heard of; one leaves unfinished
      exactly when it stops or answers complete, and packets are requested for exactly those that answer
      incomplete. */
  lemma {:induction false} ResponsesIff(s: RootState, ms: seq<Message>, a: Addr)
    requires ListInv(s) && s.requested == []
    ensures var t, asked := Responses(AskStep(s), ms), s.unfinished;
      && ListInv(t)
      && (a in t.pending <==> a in asked && !Heard(ms, a))
      && (a in t.unfinished <==> a in asked && !SomeStop(ms, a) && !AnsweredComplete(asked, ms, a))
      && (a in t.requested <==> AnsweredPartial(asked, ms, a))
      && (a in t.successed <==> a in s.successed || AnsweredComplete(asked, ms, a))
    decreases |ms|
  {
    hide Heard, SomeStop, AnsweredComplete, AnsweredPartial, ListInv, Filled;
    if ms == [] {
      NoReports(s.unfinished, a);
      Asking(s);
    } else {
      var front, m := ms[..|ms| - 1], ms[|ms| - 1];
      Split(ms);
      ResponsesIff(s, front, a);
      HeardNext(front, m, a);
      AnsweredNext(s.unfinished, front, m, a);
      UnheardSilent(s.unfinished, front, a);
      ResponseMoves(Responses(AskStep(s), front), m, a);
    }
  }

  lemma Asking(s: RootState)
    requires ListInv(s)
    ensures ListInv(AskStep(s))
  {
  }

  lemma UnheardSilent(asked: seq<Addr>, ms: seq<Message>, a: Addr)
    ensures !Heard(ms, a) ==>
      !SomeStop(ms, a) && !AnsweredComplete(asked, ms, a) && !AnsweredPartial(asked, ms, a)
  {
  }

  lemma ResponseMoves(s: RootState, m: Message, a: Addr)
    requires ListInv(s)
    ensures var t := ResponseStep(s, m);
      var taken := m.src == a && a in s.pending && !Stopped(m);
      var done := taken && Complete(m.report) && m.report.written != 0;
      && ListInv(t)
      && (a in t.pending <==> a in s.pending && m.src != a)
      && (a in t.unfinished <==> a in s.unfinished && !(m.src == a && Stopped(m)) && !done)
      && (a in t.requested <==> a in s.requested || (taken && !Complete(m.report)))
      && (a in t.successed <==> a in s.successed || (done && a in s.unfinished))
  {
    hide Filled, And;
    ResponseLists(s, m);
    RemoveMembers(s.unfinished, m.src);
    RemoveMembers(s.pending, m.src);
  }

  /** No packets are requested for a node twice. */
  lemma {:induction false} RequestedDistinct(s: RootState, ms: seq<Message>)
    requires ListInv(s) && s.requested == []
    ensures Distinct(Responses(AskStep(s), ms).requested)
    decreases |ms|
  {
    hide ListInv, Filled, Heard, AnsweredPartial, And;
    if ms != [] {
      var front, m := ms[..|ms| - 1], ms[|ms| - 1];
      RequestedDistinct(s, front);
      ResponsesIff(s, front, m.src);
      UnheardSilent(s.unfinished, front, m.src);
    }
  }

  /** A packet is marked as present exactly if every node that answered has it; so packets are sent
      again only if a node that answered lacks them. */
  lemma {:induction false} MarkedIff(s: RootState, ms: seq<Message>, p: nat)
    requires ListInv(s) && s.requested == [] && p < MAX_PACKETS
    ensures Get(Responses(AskStep(s), ms).progress, p) <==> AllHave(s.unfinished, ms, p)
    decreases |ms|
  {
    hide ListInv, Filled, Heard, AllHave, Get, And, HasPacket;
    GetFilled(p);
    if ms == [] {
      NoReports(s.unfinished, 0);
    } else {
      var front, m := ms[..|ms| - 1], ms[|ms| - 1];
      Split(ms);
      MarkedIff(s, front, p);
      AllHaveNext(s.unfinished, front, m, p);
      ResponsesIff(s, front, m.src);
      ResponseMarks(Responses(AskStep(s), front), m, p);
    }
  }

  lemma ResponseMarks(s: RootState, m: Message, p: nat)
    requires p < MAX_PACKETS
    ensures Get(ResponseStep(s, m).progress, p) <==>
      Get(s.progress, p) && (m.src in s.pending && !Stopped(m) ==> HasPacket(m.report, p))
  {
    hide Get, And, Filled;
    GetFilled(p);
    if m.report.progress.Some? {
      GetAnd(s.progress, m.report.progress.value, p);
    }
  }
}
