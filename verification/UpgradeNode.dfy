/** A mesh node during the upgrade to one firmware image (mupgrade_node.c).

    NodeState is what the node keeps: its configuration in memory, the last snapshot in flash, the
    update partition, and history fields. The step functions say what each message, command or reset
    does; the class Device of NodeDevice does the same in place. */
module UpgradeNode {
  import opened Bitmap
  import opened Firmware
  import opened Wrappers

  /** CONFIG_MUPGRADE_STATUS_REPORT_INTERVAL. */
  const REPORT_INTERVAL := 10

  /** A snapshot is sizeof(status) + 512 bytes long but starts 16 bytes before the status, so the
      last 16 bytes of the bitmap are not saved. */
  const SAVED_BYTES := 496
  const SAVED_PACKETS := 3968

  const UINT32_RANGE := 0x1_0000_0000

  datatype Error = Ok | Stop | Other

  datatype Config = Config(total: nat, written: nat, bitmap: Bitmap, error: Error)

  /** A status message to the root. epoch and counted are history: how often this node's progress had
      been lost when the message was sent, and whether its byte counter was to be trusted. */
  datatype Report = Report(error: Error, total: nat, written: nat, progress: Option<Bitmap>, epoch: nat, counted: bool)

  /** boot: the boot partition is the new one, so that a reset starts the new firmware. The last six
      fields are history: the node runs the new firmware, has reported completion, has since been
      reset to the old firmware with nothing to resume from, has loaded a counter that is not the sum
      of its bitmap; what the partition held when the packets began to come, and how often progress
      was lost. */
  datatype NodeState = NodeState(
    cfg: Option<Config>, snapshot: Option<Config>, flash: seq<bv8>, nextPercent: nat, finished: bool, boot: bool,
    booted: bool, told: bool, forgot: bool, miscounted: bool, base: seq<bv8>, epoch: nat)

  /** What a snapshot of the configuration holds when it is loaded back. */
  function Cut(b: Bitmap): Bitmap {
    seq(BITMAP_BYTES, i requires 0 <= i < BITMAP_BYTES => if i < SAVED_BYTES then b[i] else 0)
  }

  function Saved(c: Config): Config {
    c.(bitmap := Cut(c.bitmap))
  }

  /** The counter is the sum of the sizes of the packets marked. */
  predicate Counts(f: Image, c: Config) {
    c.written == Written(f, c.bitmap, PacketNum(f))
  }

  function Load(f: Image, n: NodeState): NodeState {
    if n.cfg.None? && n.snapshot.Some? then
      n.(cfg := n.snapshot, miscounted := n.miscounted || !Counts(f, n.snapshot.value))
    else n
  }

  /** The progress array is appended exactly when some but not all bytes have been written. */
  function ReportOf(n: NodeState): Report
    requires n.cfg.Some?
  {
    var c := n.cfg.value;
    Report(c.error, c.total, c.written,
           if c.written != 0 && c.written != c.total then Some(c.bitmap) else None, n.epoch, !n.miscounted)
  }

  /** Sends the status: history records a report of completion, which makes good for an earlier one. */
  function Told(n: NodeState): NodeState
    requires n.cfg.Some?
  {
    var done := n.cfg.value.written == n.cfg.value.total;
    n.(told := n.told || done, forgot := n.forgot && !done)
  }

  // ----- mupgrade_status

  /** Outcomes of calls into the system: whether the partition is erased, how much of it when that
      fails, and whether the snapshot is saved. */
  datatype BeginEnv = BeginEnv(eraseOk: bool, erased: nat, saveOk: bool)

  const ERASES := BeginEnv(true, 0, true)

  /** The first count bytes erased. */
  function Erased(flash: seq<bv8>, count: nat): (r: seq<bv8>)
    ensures |r| == |flash|
  {
    seq(|flash|, i requires 0 <= i < |flash| => if i < count then ERASED else flash[i])
  }

  /** First status request for this firmware: the partition is erased and a snapshot saved. What goes
      wrong is reported as an error, but the new configuration stays. */
  function Started(f: Image, n: NodeState, env: BeginEnv): NodeState {
    var c := Config(|f|, 0, Filled(0), Other);
    var flash := Erased(n.flash, if env.eraseOk then |n.flash| else env.erased);
    var n := n.(cfg := Some(c), finished := false, miscounted := false, flash := flash, base := flash);
    if env.eraseOk && env.saveOk then n.(snapshot := Some(Saved(c))) else n
  }

  function StatusStep(f: Image, n: NodeState, env: BeginEnv): (r: (NodeState, Report)) {
    var n := Load(f, n);
    var known := n.cfg.Some? && n.cfg.value.total == |f|;
    var n := if known then n else Started(f, n, env);
    var ret := if known || (env.eraseOk && env.saveOk) then Ok else Other;
    var c := n.cfg.value;
    var n := n.(cfg := Some(c.(error := if c.error == Stop then Stop else ret)));
    (Told(n), ReportOf(n))
  }

  // ----- mupgrade_write

  /** Outcomes of calls into the system: whether the flash write succeeds, how many bytes it
      programs when it does not, whether a snapshot is saved, and whether the boot partition can be
      switched. */
  datatype Env = Env(writeOk: bool, programmed: nat, saveOk: bool, bootOk: bool)

  datatype WriteResult = NotInit | Stopped | InvalidArg | Duplicate | FlashError | Progress | BootError | Finished

  function Percent(written: nat, total: nat): nat
    requires total > 0
  {
    (written * 100 % UINT32_RANGE) / total
  }

  /** Packet p goes to flash. */
  function Flashed(f: Image, n: NodeState, p: nat, count: nat): (r: NodeState)
    requires |n.flash| == |f| && p < PacketNum(f) && count <= Size(f, p)
    ensures |r.flash| == |f| && r == n.(flash := r.flash)
  {
    n.(flash := Programmed(n.flash, PACKET_SIZE * p, Data(f, p), count))
  }

  /** The bit is set, the counter advanced, and now and then a snapshot saved. */
  function Recorded(f: Image, n: NodeState, p: nat, saveOk: bool): NodeState
    requires p < PacketNum(f) && n.cfg.Some? && n.cfg.value.total > 0
  {
    var c := n.cfg.value;
    var c := c.(bitmap := Set(c.bitmap, p), written := c.written + Size(f, p));
    var n := n.(cfg := Some(c));
    if Percent(c.written, c.total) == n.nextPercent then
      n.(nextPercent := n.nextPercent + REPORT_INTERVAL, snapshot := if saveOk then Some(Saved(c)) else n.snapshot)
    else n
  }

  /** A packet written whole. */
  function Received(f: Image, n: NodeState, p: nat, saveOk: bool): (r: NodeState)
    requires |n.flash| == |f| && p < PacketNum(f) && n.cfg.Some? && n.cfg.value.total > 0
    ensures r.cfg.Some?
  {
    Recorded(f, Flashed(f, n, p, Size(f, p)), p, saveOk)
  }

  /** All bytes written: the snapshot is dropped and the boot partition switched. */
  function Finish(n: NodeState, bootOk: bool): (r: (NodeState, Option<Report>, WriteResult))
    requires n.cfg.Some?
  {
    var c := n.cfg.value;
    if !bootOk then (n.(snapshot := None, cfg := Some(c.(error := Other))), None, BootError)
    else
      var n := n.(snapshot := None, cfg := Some(c.(error := Ok)), boot := true, finished := true);
      (Told(n), Some(ReportOf(n)), Finished)
  }

  function Dropped(n: NodeState): NodeState
    requires n.cfg.Some?
  {
    Told(n.(cfg := Some(n.cfg.value.(written := 0, bitmap := Filled(0), error := Stop)), snapshot := None))
  }

  /** The packet is new and wanted. */
  predicate Accepts(n: NodeState, p: nat)
    requires p < MAX_PACKETS
  {
    && n.cfg.Some? && n.cfg.value.error != Stop && n.cfg.value.total > 0
    && p * PACKET_SIZE <= n.cfg.value.total && !Get(n.cfg.value.bitmap, p)
  }

  /** A packet that is accepted. */
  function Stored(f: Image, n: NodeState, p: nat, env: Env): (r: (NodeState, Option<Report>, WriteResult))
    requires |n.flash| == |f| && p < PacketNum(f) && Accepts(n, p)
  {
    if !env.writeOk then (Flashed(f, n, p, Min(env.programmed, Size(f, p))), None, FlashError)
    else
      var n := Received(f, n, p, env.saveOk);
      if n.cfg.value.written == n.cfg.value.total then Finish(n, env.bootOk) else (n, None, Progress)
  }

  function WriteStep(f: Image, n: NodeState, p: nat, env: Env): (r: (NodeState, Option<Report>, WriteResult))
    requires |n.flash| == |f| && p < PacketNum(f)
  {
    var n := Load(f, n);
    if n.cfg.None? then (n, None, NotInit)
    else
      var c := n.cfg.value;
      if c.error == Stop then (Dropped(n), Some(ReportOf(Dropped(n))), Stopped)
      else if p * PACKET_SIZE > c.total || c.total == 0 then (n, None, InvalidArg)
      else if Get(c.bitmap, p) then (n, None, Duplicate)
      else Stored(f, n, p, env)
  }

  function Min(a: nat, b: nat): nat { if a < b then a else b }

  // ----- mupgrade_stop

  /** switchOk: the boot partition can be switched back, which is tried once the node has finished. */
  function StopStep(n: NodeState, switchOk: bool): (r: (NodeState, Option<Report>)) {
    if n.cfg.None? || (n.finished && !switchOk) then (n, None)
    else
      var n := Dropped(SwitchedBack(n)).(epoch := n.epoch + 1);
      (n, Some(ReportOf(n)))
  }

  function SwitchedBack(n: NodeState): NodeState {
    n.(boot := n.boot && !n.finished)
  }

  // ----- resets

  /** Complete as far as the root knows, but the old firmware would start and find nothing to resume. */
  predicate Forgets(n: NodeState) {
    n.told && n.snapshot.None? && !n.boot
  }

  /** A reset loses what is in memory, and starts the firmware of the boot partition. */
  function Reset(n: NodeState): NodeState {
    n.(cfg := None, nextPercent := REPORT_INTERVAL, finished := false, booted := n.booted || n.boot,
       forgot := n.forgot || Forgets(n), epoch := n.epoch + 1)
  }

  /** Where in mupgrade_write a reset strikes: while programming, after the packet has been counted
      (a snapshot being saved or not), after the snapshot has been dropped, or after the boot partition
      has been switched. */
  datatype Stage =
    | Programming(count: nat)
    | AfterRecord(saved: bool)
    | AfterErase(saved: bool)
    | AfterSwitch(saved: bool)

  function ResetInWrite(f: Image, n: NodeState, p: nat, stage: Stage): NodeState
    requires |n.flash| == |f| && p < PacketNum(f)
  {
    var n := Load(f, n);
    if !Accepts(n, p) then Reset(n)
    else
      match stage
      case Programming(count) => Reset(Flashed(f, n, p, Min(count, Size(f, p))))
      case AfterRecord(saved) => Reset(Received(f, n, p, saved))
      case AfterErase(saved) =>
        var n := Received(f, n, p, saved);
        Reset(if n.cfg.value.written == n.cfg.value.total then n.(snapshot := None) else n)
      case AfterSwitch(saved) =>
        var n := Received(f, n, p, saved);
        Reset(if n.cfg.value.written == n.cfg.value.total then n.(snapshot := None, boot := true) else n)
  }

  /** A reset in mupgrade_status, with part of the partition erased and no snapshot saved yet. */
  function ResetInStatus(f: Image, n: NodeState, erased: nat): NodeState {
    var n := Load(f, n);
    if n.cfg.Some? && n.cfg.value.total == |f| then Reset(n)
    else Reset(n.(flash := Erased(n.flash, erased)))
  }

  /** A reset in mupgrade_stop, after the boot partition has been switched back, the snapshot dropped
      or not. */
  function ResetInStop(n: NodeState, dropped: bool): NodeState {
    if n.cfg.None? then Reset(n)
    else
      var n := SwitchedBack(n);
      Reset(if dropped then n.(snapshot := None) else n)
  }

  // ----- invariant

  /** A configuration for this image; a stopped one is empty. */
  ghost predicate Formed(f: Image, c: Config) {
    && c.total == |f|
    && (forall p :: PacketNum(f) <= p < MAX_PACKETS ==> !Get(c.bitmap, p))
    && (c.error == Stop ==> c.bitmap == Filled(0))
  }

  /** Each packet marked has been programmed. */
  ghost predicate Held(f: Image, c: Config, base: seq<bv8>, flash: seq<bv8>) {
    forall p :: 0 <= p < PacketNum(f) && Get(c.bitmap, p) ==> Laid(f, base, flash, p)
  }

  /** The configuration tells the truth about flash: counted bytes are the bytes of the packets
      marked, and each of those packets has been programmed. */
  ghost predicate Truthful(f: Image, c: Config, base: seq<bv8>, flash: seq<bv8>) {
    Formed(f, c) && Held(f, c, base, flash) && Counts(f, c)
  }

  /** The whole image has been programmed over what the partition held. */
  ghost predicate Programs(f: Image, n: NodeState) {
    |n.base| == |f| && n.flash == Mixed(n.base, f)
  }

  ghost predicate FlashInv(f: Image, n: NodeState) {
    && (n.cfg.Some? ==> Held(f, n.cfg.value, n.base, n.flash))
    && (n.snapshot.Some? ==> Held(f, n.snapshot.value, n.base, n.flash))
    && (n.cfg.Some? || n.snapshot.Some? ==> Clean(f, n.base, n.flash))
  }

  ghost predicate CountInv(f: Image, n: NodeState) {
    && (!n.miscounted && n.cfg.Some? ==> Counts(f, n.cfg.value))
    && (SnapshotCovers(f) ==> !n.miscounted && (n.snapshot.Some? ==> Counts(f, n.snapshot.value)))
  }

  /** Nothing has happened to the node that makes its report of completion worthless: no reset after
      completion to the old firmware with nothing to resume from, and no counter from a cut snapshot. */
  predicate Trusted(n: NodeState) {
    !n.miscounted && !n.forgot
  }

  /** What is known of a node that has completed. */
  ghost predicate DoneInv(f: Image, n: NodeState) {
    && (n.told && !n.forgot ==> n.cfg.Some? || n.snapshot.Some? || n.booted)
    && (n.boot ==> n.cfg.Some? || n.booted) && (n.finished ==> n.cfg.Some?)
    && (Trusted(n) && n.told ==> Programs(f, n))
    && (!n.miscounted && (n.finished || n.boot || n.booted) ==> Programs(f, n))
  }

  ghost predicate NodeInv(f: Image, n: NodeState) {
    && |n.flash| == |n.base| == |f|
    && (n.cfg.Some? ==> Formed(f, n.cfg.value)) && (n.snapshot.Some? ==> Formed(f, n.snapshot.value))
    && FlashInv(f, n) && CountInv(f, n) && DoneInv(f, n)
  }

  /** The snapshot covers every packet of the image. */
  predicate SnapshotCovers(f: Image) {
    PacketNum(f) <= SAVED_PACKETS
  }

  lemma CutGet(b: Bitmap, p: nat)
    requires p < MAX_PACKETS
    ensures Get(Cut(b), p) == (p < SAVED_PACKETS && Get(b, p))
  {
    GetFilled(p);
  }
}
