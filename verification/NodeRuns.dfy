/** What runs of a node between resets keep: a stopped node stays stopped, and the snapshot stays close to
    the progress until it falls behind for good. */
module NodeRuns {
  import opened Bitmap
  import opened Firmware
  import opened NodeProgress
  import opened UpgradeNode
  import opened Wrappers

  /** What a node handles between resets: a status request, a packet, a command to stop. */
  datatype Input = Request(begin: BeginEnv) | Packet(p: nat, env: Env) | Command(switchOk: bool)

  predicate Valid(f: Image, e: Input) {
    e.Packet? ==> e.p < PacketNum(f)
  }

  /** The new state, and the report that is sent. */
  function Handle(f: Image, n: NodeState, e: Input): (NodeState, Option<Report>)
    requires |n.flash| == |f| && Valid(f, e)
  {
    match e
    case Request(begin) => var (m, r) := StatusStep(f, n, begin); (m, Some(r))
    case Packet(p, env) => var (m, r, _) := WriteStep(f, n, p, env); (m, r)
    case Command(switchOk) => StopStep(n, switchOk)
  }

  /** The states ns are passed through, and the reports rs sent, by the inputs es. */
  ghost predicate Handled(f: Image, ns: seq<NodeState>, es: seq<Input>, rs: seq<Option<Report>>) {
    && |ns| == |es| + 1 && |rs| == |es|
    && forall k :: 0 <= k < |es| ==> HandledAt(f, ns, es, rs, k)
  }

  ghost predicate HandledAt(f: Image, ns: seq<NodeState>, es: seq<Input>, rs: seq<Option<Report>>, k: nat)
    requires |ns| == |es| + 1 && |rs| == |es| && k < |es|
  {
    Valid(f, es[k]) && |ns[k].flash| == |f| && (ns[k + 1], rs[k]) == Handle(f, ns[k], es[k])
  }

  /** Stopped, with nothing of the image: no packet marked, no byte counted, no snapshot. */
  ghost predicate Halted(f: Image, n: NodeState) {
    n.cfg == Some(Config(|f|, 0, Filled(0), Stop)) && n.snapshot == None && (n.boot ==> !n.finished)
  }

  /** Flash and boot partition are as they were. */
  ghost predicate Untouched(n: NodeState, m: NodeState) {
    m.flash == n.flash && m.boot == n.boot && m.finished == n.finished && m.booted == n.booted
  }

  ghost predicate SaysStop(r: Report) {
    r.error == Stop && r.written == 0 && r.progress.None?
  }

  /** A command to stop that is answered halts the node, and switches the boot partition back if the
      upgrade had finished. */
  lemma StopHalts(f: Image, n: NodeState, switchOk: bool)
    requires n.cfg.Some? && n.cfg.value.total == |f| && StopStep(n, switchOk).1.Some?
    ensures var (m, r) := StopStep(n, switchOk);
      && Halted(f, m) && SaysStop(r.value) && m.flash == n.flash
      && m.boot == (n.boot && !n.finished) && m.booted == n.booted
  {
    hide Filled;
  }

  /** A command that is not answered changes nothing: there is no upgrade, or its firmware is already the
      boot partition's and that cannot be undone. */
  lemma UnansweredStop(f: Image, n: NodeState, switchOk: bool)
    ensures StopStep(n, switchOk).1.None? <==> n.cfg.None? || (n.finished && !switchOk)
    ensures StopStep(n, switchOk).1.None? ==> StopStep(n, switchOk).0 == n
  {
    hide Filled;
  }

  /** The first request is answered with MDF_OK exactly if the partition is blank and a snapshot of the empty
      progress is saved; but the next request is always answered so, whatever went wrong before. */
  lemma FirstAnswers(f: Image, n: NodeState, env: BeginEnv, again: BeginEnv)
    requires n.cfg.None? && n.snapshot.None? && |n.flash| == |f|
    ensures var (m, r) := StatusStep(f, n, env);
      && r.total == |f| && r.written == 0 && r.progress.None?
      && (r.error == Ok <==> env.eraseOk && m.snapshot == Some(Config(|f|, 0, Filled(0), Other)))
      && (r.error == Ok ==> forall i :: 0 <= i < |f| ==> m.flash[i] == ERASED)
      && StatusStep(f, m, again).1 == r.(error := Ok)
  {
    hide Counts;
    CutEmpty();
  }

  lemma CutEmpty()
    ensures Cut(Filled(0)) == Filled(0)
  {
  }

  lemma HaltedStays(f: Image, n: NodeState, e: Input)
    requires Halted(f, n) && |n.flash| == |f| && Valid(f, e)
    ensures var (m, r) := Handle(f, n, e);
      Halted(f, m) && Untouched(n, m) && (r.Some? ==> SaysStop(r.value)) && (r.None? ==> e.Command?)
    ensures e.Packet? ==> WriteStep(f, n, e.p, e.env).2 == Stopped
  {
    hide Filled, Started, Stored, Get, Counts;
  }

  /** From an answered command to stop on, whatever status requests, packets and commands follow: flash and
      boot partition stay as they are, nothing is marked, counted or saved, and every report says that the
      node has stopped. */
  lemma {:induction false} StoppedStays(f: Image, n: NodeState, switchOk: bool, ns: seq<NodeState>, es: seq<Input>,
                                        rs: seq<Option<Report>>, k: nat)
    requires n.cfg.Some? && n.cfg.value.total == |f| && StopStep(n, switchOk).1.Some?
    requires Handled(f, ns, es, rs) && ns[0] == StopStep(n, switchOk).0 && k <= |es|
    ensures Halted(f, ns[k]) && Untouched(ns[0], ns[k]) && ns[k].flash == n.flash
    ensures k < |es| ==> if rs[k].Some? then SaysStop(rs[k].value) else es[k].Command?
  {
    hide StopStep, Handle, Halted, SaysStop;
    StopHalts(f, n, switchOk);
    if k > 0 {
      StoppedStays(f, n, switchOk, ns, es, rs, k - 1);
      assert HandledAt(f, ns, es, rs, k - 1);
      HaltedStays(f, ns[k - 1], es[k - 1]);
    }
    if k < |es| {
      assert HandledAt(f, ns, es, rs, k);
      HaltedStays(f, ns[k], es[k]);
    }
  }

  // ----- snapshots

  /** The upgrade is under way. */
  predicate Busy(f: Image, n: NodeState) {
    && n.cfg.Some? && n.cfg.value.total == |f| && n.cfg.value.written < |f| && n.cfg.value.error != Stop
  }

  /** The snapshot was taken at the last multiple of the interval, and the next one is still to come. */
  ghost predicate Current(f: Image, n: NodeState) {
    && Busy(f, n) && n.snapshot.Some? && Busy(f, n.(cfg := n.snapshot))
    && Percent(n.snapshot.value.written, |f|) + REPORT_INTERVAL == n.nextPercent
    && Percent(n.snapshot.value.written, |f|) <= Percent(n.cfg.value.written, |f|) < n.nextPercent
  }

  /** The counter has passed the next multiple of the interval. */
  ghost predicate Passed(f: Image, n: NodeState) {
    Busy(f, n) && n.nextPercent < Percent(n.cfg.value.written, |f|)
  }

  /** A snapshot that is due is saved. */
  predicate Saves(e: Input) {
    e.Packet? ==> e.env.saveOk
  }

  lemma PercentExact(w: nat, total: nat)
    requires 0 < total && w <= PACKET_SIZE * MAX_PACKETS
    ensures Percent(w, total) == w * 100 / total
  {
    NoWrap(w * 100);
  }

  lemma NoWrap(x: nat)
    requires x < UINT32_RANGE
    ensures x % UINT32_RANGE == x
  {
  }

  lemma PercentZero(total: nat)
    requires 0 < total
    ensures Percent(0, total) == 0
  {
    PercentExact(0, total);
  }

  lemma QuotientGrows(a: nat, d: nat, t: nat)
    requires 0 < t && d <= t
    ensures a / t <= (a + d) / t <= a / t + 1
  {
    var q, r := a / t, a % t;
    assert a == q * t + r;
    if r + d < t {
      QuotientIs(a + d, t, q, r + d);
    } else {
      QuotientIs(a + d, t, q + 1, r + d - t);
    }
  }

  lemma TimesOrder(a: nat, b: nat, t: nat)
    ensures a < b ==> (a + 1) * t <= b * t
  {
    if a < b {
      assert (b - a - 1) * t >= 0;
    }
  }

  lemma QuotientIs(a: nat, t: nat, q: nat, r: nat)
    requires a == q * t + r && r < t
    ensures a / t == q
  {
    var p := a / t;
    assert a == p * t + a % t;
    TimesOrder(p, q, t);
    TimesOrder(q, p, t);
  }

  lemma QuotientOrder(a: nat, b: nat, t: nat)
    requires a <= b && 0 < t
    ensures a / t <= b / t
  {
    var p, q := a / t, b / t;
    assert a == p * t + a % t && b == q * t + b % t;
    TimesOrder(q, p, t);
  }

  /** With a hundred packets or more, a packet is at most one percent. */
  lemma PercentGrows(f: Image, w: nat, d: nat)
    requires d <= PACKET_SIZE && w + d <= |f|
    ensures Percent(w, |f|) <= Percent(w + d, |f|)
    ensures |f| >= 100 * PACKET_SIZE ==> Percent(w + d, |f|) <= Percent(w, |f|) + 1
  {
    PercentExact(w, |f|);
    PercentExact(w + d, |f|);
    hide Percent;
    if |f| >= 100 * PACKET_SIZE {
      QuotientGrows(w * 100, d * 100, |f|);
    } else {
      QuotientOrder(w * 100, (w + d) * 100, |f|);
    }
  }

  /** The first status request after a reset, with nothing saved, takes a snapshot. */
  lemma BeginsCurrent(f: Image, n: NodeState)
    requires n.cfg.None? && n.snapshot.None? && n.nextPercent == REPORT_INTERVAL
    ensures Current(f, StatusStep(f, n, ERASES).0)
  {
    hide Erased, Cut, Filled, Percent, Counts, Saved;
    PercentZero(|f|);
    SavedShape(Config(|f|, 0, Filled(0), Other));
  }

  lemma RequestBusy(f: Image, n: NodeState, begin: BeginEnv)
    requires Busy(f, n)
    ensures Busy(f, StatusStep(f, n, begin).0) && Advances(f, n, StatusStep(f, n, begin).0, true)
  {
    hide Started, Counts;
  }

  /** A packet leaves counter and snapshot alone, or advances the counter and saves a snapshot exactly at
      the next multiple of the interval. */
  lemma PacketBusy(f: Image, n: NodeState, p: nat, env: Env)
    requires Busy(f, n) && |n.flash| == |f| && p < PacketNum(f)
    requires Busy(f, WriteStep(f, n, p, env).0)
    ensures Advances(f, n, WriteStep(f, n, p, env).0, env.saveOk)
  {
    hide Stored, Advances, Dropped, Get, Counts;
    if Accepts(n, p) {
      StoredBusy(f, n, p, env);
    }
    Unmoved(f, n, env.saveOk);
  }

  lemma Unmoved(f: Image, n: NodeState, saveOk: bool)
    requires Busy(f, n)
    ensures Advances(f, n, n, saveOk)
  {
  }

  lemma StoredBusy(f: Image, n: NodeState, p: nat, env: Env)
    requires Busy(f, n) && |n.flash| == |f| && p < PacketNum(f) && Accepts(n, p)
    ensures var m := Stored(f, n, p, env).0; Busy(f, m) ==> Advances(f, n, m, env.saveOk)
  {
    hide Received, Flashed, Percent, Saved, Get;
    if env.writeOk {
      ReceivedSaves(f, n, p, env.saveOk);
      FinishShape(Received(f, n, p, env.saveOk), env.bootOk);
    } else {
      FlashedShape(f, n, p, Min(env.programmed, Size(f, p)));
    }
  }

  ghost predicate Advances(f: Image, n: NodeState, m: NodeState, saveOk: bool)
    requires Busy(f, n) && Busy(f, m)
  {
    var c, d := n.cfg.value, m.cfg.value;
    || (d == c.(error := d.error) && m.snapshot == n.snapshot && m.nextPercent == n.nextPercent)
    || (&& c.written <= d.written <= c.written + PACKET_SIZE
        && if Percent(d.written, |f|) == n.nextPercent then
             && m.snapshot == (if saveOk then Some(Saved(d)) else n.snapshot)
             && m.nextPercent == n.nextPercent + REPORT_INTERVAL
           else m.snapshot == n.snapshot && m.nextPercent == n.nextPercent)
  }

  lemma ReceivedSaves(f: Image, n: NodeState, p: nat, saveOk: bool)
    requires Busy(f, n) && |n.flash| == |f| && p < PacketNum(f)
    ensures var m := Received(f, n, p, saveOk);
      && m.cfg.value.total == |f| && m.cfg.value.error == n.cfg.value.error
      && (m.cfg.value.written < |f| ==> Advances(f, n, m, saveOk))
  {
    hide Percent, Get, Set, Flashed, Saved;
    FlashedShape(f, n, p, Size(f, p));
  }

  lemma AdvanceCurrent(f: Image, n: NodeState, m: NodeState)
    requires Busy(f, n) && Busy(f, m) && Advances(f, n, m, true) && Current(f, n) && |f| >= 100 * PACKET_SIZE
    ensures Current(f, m)
  {
    hide Percent, Saved;
    PercentGrows(f, n.cfg.value.written, m.cfg.value.written - n.cfg.value.written);
    SavedShape(m.cfg.value);
  }

  lemma SavedShape(c: Config)
    ensures Saved(c) == c.(bitmap := Saved(c).bitmap)
  {
    hide Cut;
  }

  lemma AdvancePassed(f: Image, n: NodeState, m: NodeState, saveOk: bool)
    requires Busy(f, n) && Busy(f, m) && Advances(f, n, m, saveOk) && Passed(f, n)
    ensures Passed(f, m) && m.snapshot == n.snapshot
  {
    hide Percent, Saved;
    PercentGrows(f, n.cfg.value.written, m.cfg.value.written - n.cfg.value.written);
  }

  lemma StepAdvances(f: Image, n: NodeState, e: Input)
    requires |n.flash| == |f| && Valid(f, e) && Busy(f, n) && Busy(f, Handle(f, n, e).0)
    ensures Advances(f, n, Handle(f, n, e).0, Saves(e))
  {
    hide StatusStep, WriteStep;
    match e
    case Request(begin) =>
      RequestBusy(f, n, begin);
    case Packet(p, env) =>
      PacketBusy(f, n, p, env);
    case Command(switchOk) =>
      StopEnds(f, n, switchOk);
  }

  lemma StopEnds(f: Image, n: NodeState, switchOk: bool)
    ensures Busy(f, StopStep(n, switchOk).0) ==> StopStep(n, switchOk).0 == n
  {
    hide Filled;
  }

  /** The upgrade goes on in all states up to k. */
  ghost predicate GoesOn(f: Image, ns: seq<NodeState>, k: nat) {
    forall j :: 0 <= j <= k && j < |ns| ==> Busy(f, ns[j])
  }

  /** While an upgrade of a hundred packets or more runs without a reset, the snapshot is never ten percent
      behind. */
  lemma {:induction false} SnapshotsCurrent(f: Image, ns: seq<NodeState>, es: seq<Input>, rs: seq<Option<Report>>,
                                            k: nat)
    requires Handled(f, ns, es, rs) && k <= |es| && |f| >= 100 * PACKET_SIZE && Current(f, ns[0])
    requires GoesOn(f, ns, k) && forall j :: 0 <= j < k ==> Saves(es[j])
    ensures Current(f, ns[k])
    ensures Percent(ns[k].cfg.value.written, |f|) - Percent(ns[k].snapshot.value.written, |f|) < REPORT_INTERVAL
  {
    hide Handle, Percent, Busy;
    if k > 0 {
      SnapshotsCurrent(f, ns, es, rs, k - 1);
      assert HandledAt(f, ns, es, rs, k - 1);
      StepAdvances(f, ns[k - 1], es[k - 1]);
      AdvanceCurrent(f, ns[k - 1], ns[k]);
    }
  }

  /** Once the counter has passed the next multiple, no snapshot is saved any more. */
  lemma {:induction false} SnapshotsEnd(f: Image, ns: seq<NodeState>, es: seq<Input>, rs: seq<Option<Report>>, k: nat)
    requires Handled(f, ns, es, rs) && k <= |es| && Passed(f, ns[0])
    requires GoesOn(f, ns, k)
    ensures Passed(f, ns[k]) && ns[k].snapshot == ns[0].snapshot
  {
    hide Handle, Percent;
    if k > 0 {
      SnapshotsEnd(f, ns, es, rs, k - 1);
      assert HandledAt(f, ns, es, rs, k - 1);
      StepAdvances(f, ns[k - 1], es[k - 1]);
      AdvancePassed(f, ns[k - 1], ns[k], Saves(es[k - 1]));
    }
  }

  /** So it is after a reset, because the next multiple starts again at ten percent: the node resumes where
      the snapshot was taken, and if that was at twenty percent or later, it saves none until it finishes. */
  lemma ResumedSavesNone(f: Image, n: NodeState, begin: BeginEnv)
    requires Current(f, n)
    ensures var m := StatusStep(f, Reset(n), begin).0;
      && Busy(f, m) && m.cfg.value.written == n.snapshot.value.written
      && (Passed(f, m) <==> n.nextPercent > 2 * REPORT_INTERVAL)
  {
    hide Percent, Counts, Started;
  }
}
