/** The node's global upgrade configuration, updated in place by its message handlers. Each handler
    is the corresponding step of UpgradeNode on the state it maintains. */
module NodeDevice {
  import opened Bitmap
  import opened Firmware
  import opened UpgradeNode
  import opened Wrappers

  class Device {
    /** The size and content the partition and the packets stand for. */
    const f: Image
    var configured: bool
    var totalSize: nat
    var writtenSize: nat
    var errorCode: Error
    const progressArray: array<bv8>
    var stored: Option<Config>
    const flash: array<bv8>
    var nextWrittenPercentage: nat
    var finishedFlag: bool
    /** The boot partition is the new one. */
    var bootNew: bool
    /** History, not part of the device: see NodeState. */
    ghost var booted: bool
    ghost var told: bool
    ghost var forgot: bool
    ghost var base: seq<bv8>
    var miscounted: bool
    var epoch: nat

    ghost const Repr: set<object> := {this, progressArray, flash}

    ghost predicate Valid()
      reads this
    {
      progressArray.Length == BITMAP_BYTES && flash.Length == |f| && progressArray != flash
    }

    ghost function Model(): NodeState
      requires Valid()
      reads Repr
    {
      NodeState(if configured then Some(Config(totalSize, writtenSize, progressArray[..], errorCode)) else None,
                stored, flash[..], nextWrittenPercentage, finishedFlag, bootNew, booted, told, forgot, miscounted, base,
                epoch)
    }

    constructor (f: Image)
      ensures Valid() && this.f == f && Model().cfg.None? && Model().snapshot.None? && Trusted(Model())
      ensures !Model().told && !Model().boot && !Model().booted && |Model().base| == |f|
      ensures fresh(progressArray) && fresh(flash)
    {
      this.f := f;
      configured, totalSize, writtenSize, errorCode := false, 0, 0, Ok;
      progressArray, flash := new bv8[BITMAP_BYTES](_ => 0), new bv8[|f|](_ => 0);
      stored, nextWrittenPercentage, finishedFlag := None, REPORT_INTERVAL, false;
      bootNew, booted, told, forgot, miscounted, epoch := false, false, false, false, false, 0;
      base := seq(|f|, _ => 0);
    }

    /** mdf_info_load into the zeroed configuration. */
    method LoadConfig() returns (ok: bool)
      requires Valid() && !configured
      modifies this, progressArray
      ensures Valid() && ok == old(stored).Some? && Model() == Load(f, old(Model()))
    {
      match stored
      case None =>
        ok := false;
      case Some(c) =>
        totalSize, writtenSize, errorCode := c.total, c.written, c.error;
        CopyInto(progressArray, c.bitmap);
        miscounted := miscounted || !Counts(f, c);
        configured := true;
        ok := true;
    }

    method SaveConfig()
      requires Valid() && configured
      modifies `stored
      ensures Valid() && stored == Some(Saved(Model().cfg.value))
      ensures Model() == old(Model()).(snapshot := stored)
    {
      stored := Some(Config(totalSize, writtenSize, Cut(progressArray[..]), errorCode));
    }

    method SendStatus() returns (r: Report)
      requires Valid() && configured
      modifies `told, `forgot
      ensures Valid() && r == ReportOf(old(Model())) && Model() == Told(old(Model()))
    {
      r := Report(errorCode, totalSize, writtenSize,
                  if writtenSize != 0 && writtenSize != totalSize then Some(progressArray[..]) else None,
                  epoch, !miscounted);
      told, forgot := told || writtenSize == totalSize, forgot && writtenSize != totalSize;
    }

    /** The part of mupgrade_status for a firmware not seen before. */
    method Start(env: BeginEnv)
      requires Valid()
      modifies Repr
      ensures Valid() && configured && Model() == Started(f, old(Model()), env)
    {
      hide Cut, Erased, Filled, Saved;
      NewConfig();
      Erase(if env.eraseOk then flash.Length else env.erased);
      base := flash[..];
      if env.eraseOk && env.saveOk {
        SaveConfig();
      }
    }

    method NewConfig()
      requires Valid()
      modifies this, progressArray
      ensures Valid() && configured
      ensures Model() == old(Model()).(cfg := Some(Config(|f|, 0, Filled(0), Other)),
                                       finished := false, miscounted := false)
    {
      hide Filled;
      Fill(progressArray, 0);
      configured, totalSize, writtenSize, errorCode := true, |f|, 0, Other;
      finishedFlag, miscounted := false, false;
    }

    /** esp_ota_begin, or what it does before it fails. */
    method Erase(count: nat)
      requires Valid()
      modifies flash
      ensures flash[..] == Erased(old(flash[..]), count)
    {
      for i := 0 to flash.Length
        invariant forall k :: 0 <= k < flash.Length ==> flash[k] == if k < i && k < count then ERASED else old(flash[k])
      {
        if i < count {
          flash[i] := ERASED;
        }
      }
    }

    /** mupgrade_status. A node that has been stopped stays stopped and says so. */
    method MupgradeStatus(env: BeginEnv) returns (r: Report)
      requires Valid()
      modifies Repr
      ensures Valid() && (Model(), r) == StatusStep(f, old(Model()), env)
      ensures old(configured && totalSize == |f| && errorCode == Stop) ==>
        r.error == errorCode == Stop && flash[..] == old(flash[..]) && bootNew == old(bootNew)
    {
      hide Started, Cut, Counts;
      if !configured {
        var loaded := LoadConfig();
      }
      var ret := Ok;
      if !configured || totalSize != |f| {
        ghost var before := Model();
        Start(env);
        StartedShape(f, before, env);
        if !env.eraseOk || !env.saveOk {
          ret := Other;
        }
      }
      if errorCode != Stop {
        errorCode := ret;
      }
      r := SendStatus();
    }

    method MupgradeWrite(p: nat, env: Env) returns (r: Option<Report>, result: WriteResult)
      requires Valid() && p < PacketNum(f)
      modifies Repr
      ensures Valid() && (Model(), r, result) == WriteStep(f, old(Model()), p, env)
    {
      hide Cut, Programmed, Percent, Set, Get, Received, Flashed, Finish, Dropped, Counts;
      if !configured {
        var loaded := LoadConfig();
        if !loaded {
          return None, NotInit;
        }
      }
      if errorCode == Stop {
        ghost var before := Model();
        Drop();
        DroppedTold(before, epoch);
        var report := SendStatus();
        return Some(report), Stopped;
      }
      if p * PACKET_SIZE > totalSize || totalSize == 0 {
        return None, InvalidArg;
      }
      if Get(progressArray[..], p) {
        return None, Duplicate;
      }
      if !env.writeOk {
        WriteFlash(p, Min(env.programmed, Size(f, p)));
        return None, FlashError;
      }
      Receive(p, env.saveOk);
      if writtenSize == totalSize {
        r, result := FinishUpgrade(env.bootOk);
      } else {
        return None, Progress;
      }
    }

    method WriteFlash(p: nat, count: nat)
      requires Valid() && p < PacketNum(f) && count <= Size(f, p)
      modifies flash
      ensures Valid() && Model() == Flashed(f, old(Model()), p, count)
    {
      hide Program;
      var offset, data := PACKET_SIZE * p, Data(f, p);
      for i := 0 to count
        invariant forall k :: 0 <= k < flash.Length ==>
          flash[k] == if offset <= k < offset + i then Program(old(flash[k]), data[k - offset]) else old(flash[k])
      {
        flash[offset + i] := Program(flash[offset + i], data[i]);
      }
      assert flash[..] == Programmed(old(flash[..]), offset, data, count);
    }

    /** A packet written whole and recorded. */
    method Receive(p: nat, saveOk: bool)
      requires Valid() && p < PacketNum(f) && configured && totalSize > 0
      modifies this, progressArray, flash
      ensures Valid() && Model().cfg.Some? && Model() == Received(f, old(Model()), p, saveOk)
    {
      hide Programmed, Recorded, Flashed;
      WriteFlash(p, Size(f, p));
      Record(p, saveOk);
    }

    method Record(p: nat, saveOk: bool)
      requires Valid() && p < PacketNum(f) && configured && totalSize > 0
      modifies this, progressArray
      ensures Valid() && Model() == Recorded(f, old(Model()), p, saveOk) && configured && Model().cfg.Some?
    {
      hide Cut, Set;
      SetBits(progressArray, p);
      writtenSize := writtenSize + Size(f, p);
      var writtenPercentage := (writtenSize * 100 % UINT32_RANGE) / totalSize;
      if writtenPercentage == nextWrittenPercentage {
        nextWrittenPercentage := nextWrittenPercentage + REPORT_INTERVAL;
        if saveOk {
          SaveConfig();
        }
      }
    }

    method FinishUpgrade(bootOk: bool) returns (r: Option<Report>, result: WriteResult)
      requires Valid() && configured
      modifies this
      ensures Valid() && (Model(), r, result) == Finish(old(Model()), bootOk)
    {
      stored := None;
      if !bootOk {
        errorCode := Other;
        return None, BootError;
      }
      errorCode := Ok;
      bootNew := true;
      finishedFlag := true;
      var report := SendStatus();
      return Some(report), Finished;
    }

    method Drop()
      requires Valid() && configured
      modifies this, progressArray
      ensures Valid() && configured && Model() == Dropped(old(Model())) && Model().cfg.Some?
    {
      errorCode, writtenSize := Stop, 0;
      Fill(progressArray, 0);
      stored := None;
      told, forgot := told || writtenSize == totalSize, forgot && writtenSize != totalSize;
    }

    /** switchOk: whether the boot partition can be switched back. */
    method MupgradeStop(switchOk: bool) returns (r: Option<Report>)
      requires Valid()
      modifies Repr
      ensures Valid() && (Model(), r) == StopStep(old(Model()), switchOk)
    {
      hide Dropped, Told, ReportOf;
      if !configured {
        return None;
      }
      if finishedFlag {
        if !switchOk {
          return None;
        }
        bootNew := false;
      }
      ghost var before := Model();
      assert before == SwitchedBack(old(Model()));
      Drop();
      epoch := epoch + 1;
      DroppedTold(before, epoch);
      var report := SendStatus();
      return Some(report);
    }

    /** The node is reset, and starts the firmware of its boot partition. */
    method Restart()
      requires Valid()
      modifies this
      ensures Valid() && Model() == Reset(old(Model()))
    {
      booted, forgot := booted || bootNew, forgot || Forgets(Model());
      configured, nextWrittenPercentage, finishedFlag, epoch := false, REPORT_INTERVAL, false, epoch + 1;
    }
  }

  lemma DroppedTold(n: NodeState, epoch: nat)
    requires n.cfg.Some?
    ensures Dropped(n).cfg.Some? && Told(Dropped(n).(epoch := epoch)) == Dropped(n).(epoch := epoch)
    ensures Dropped(n).epoch == n.epoch && Dropped(n).(epoch := n.epoch) == Dropped(n)
  {
    hide Filled;
  }

  lemma StartedShape(f: Image, n: NodeState, env: BeginEnv)
    ensures Started(f, n, env).cfg.Some? && Started(f, n, env).cfg.value.error != Stop
  {
  }

  method CopyInto(data: array<bv8>, b: Bitmap)
    requires data.Length == BITMAP_BYTES
    modifies data
    ensures data[..] == b
  {
    for i := 0 to BITMAP_BYTES
      invariant forall k :: 0 <= k < i ==> data[k] == b[k]
    {
      data[i] := b[i];
    }
  }
}
