/**
  The update scripts as they act on a running board: each one makes its writes in place, in its order.
  The log shows that they are the write lists whose crash safety module Ota proves.
 */
module OtaScripts {
  import opened Wrappers
  import opened Text
  import opened OtaFiles
  import opened Ota
  import opened OtaOutcomes

  lemma AppliedLast(d: Disk, before: seq<Write>, w: Write)
    ensures ApplyAll(d, before + [w]) == Apply(ApplyAll(d, before), w)
  {
    ApplyAppend(d, before, [w]);
    assert [w][1..] == [];
  }

  class Board {
    const running: Slot
    var cmdline: seq<string>
    var pending: Option<string>
    var status: string
    var digests: map<Slot, Word>
    ghost var good: set<Slot>
    ghost const start: Disk
    ghost var log: seq<Write>

    ghost function Now(): Disk
      reads this
    {
      Disk(cmdline, pending, status, digests, good)
    }

    /** The log is the whole history of the disk since boot. */
    ghost predicate Valid()
      reads this
    {
      Now() == ApplyAll(start, log)
    }

    /** The disk was changed by exactly these writes, in this order. */
    twostate predicate Wrote(writes: seq<Write>)
      reads this
    {
      Valid() && log == old(log) + writes
    }

    /** Every disk since the log had this length was safe. */
    ghost predicate SafeSince(n: nat)
      reads this
    {
      forall k | n <= k <= |log| :: Safe(ApplyAll(start, log[..k]))
    }

    /** The writes of a script lead from the old disk to the new one. */
    twostate lemma WritesLead(writes: seq<Write>)
      requires old(Valid()) && Wrote(writes)
      ensures Now() == ApplyAll(old(Now()), writes)
    {
      ApplyAppend(start, old(log), writes);
    }

    /**
      Crash safety of the running scripts: whatever script made these writes - started as the machine of
      module Ota allows, or the guard of this boot - left a safe disk after every single one of them.
     */
    twostate lemma ScriptKeepsBoardSafe(e: Event, writes: seq<Write>)
      requires old(Valid()) && Wrote(writes) && Safe(old(Now()))
      requires var m := Machine(old(Now()), running, []);
               && !e.Do? && Enabled(m, e) && (e.PowerCut? ==> NextSlot(old(Now())) == Some(running))
               && writes == Step(m, e).todo
      ensures SafeSince(|old(log)|) && Safe(Now())
    {
      hide Safe, Enabled, NextSlot, Apply;
      var m := Machine(old(Now()), running, []);
      StartIsSafe(m, e);
      assert SafeThroughout(old(Now()), writes);
      forall k | |old(log)| <= k <= |log| ensures Safe(ApplyAll(start, log[..k])) {
        var n := k - |old(log)|;
        assert log[..k] == old(log) + writes[..n];
        ApplyAppend(start, old(log), writes[..n]);
        SafePrefix(old(Now()), writes, n);
      }
      assert log[..|log|] == log;
    }

    constructor (disk: Disk, booted: Slot)
      ensures Valid() && Now() == disk && running == booted && log == []
    {
      running, start := booted, disk;
      cmdline, pending, status, digests, good := disk.cmdline, disk.pending, disk.status, disk.digests, disk.good;
      log := [];
    }

    // ------------------------------------------------------- single writes

    method WriteDevice(slot: Slot, digest: Word)
      requires Valid()
      modifies this
      ensures Now() == Apply(old(Now()), Flash(slot, digest)) && Wrote([Flash(slot, digest)])
    {
      digests := digests[slot := digest];
      good := good - {slot};
      log := log + [Flash(slot, digest)];
      AppliedLast(start, old(log), Flash(slot, digest));
    }

    method ReplacePending(content: string)
      requires Valid()
      modifies this
      ensures Now() == Apply(old(Now()), PutPending(content)) && Wrote([PutPending(content)])
    {
      pending := Some(content);
      log := log + [PutPending(content)];
      AppliedLast(start, old(log), PutPending(content));
    }

    method RemovePending(ghost confirmed: Option<Slot>)
      requires Valid()
      modifies this
      ensures Now() == Apply(old(Now()), DropPending(confirmed)) && Wrote([DropPending(confirmed)])
    {
      pending := None;
      good := good + if confirmed.Some? then {confirmed.value} else {};
      log := log + [DropPending(confirmed)];
      AppliedLast(start, old(log), DropPending(confirmed));
    }

    method SetNextRootDevice(device: string)
      requires Valid()
      modifies this
      ensures Now() == Apply(old(Now()), SetNextRoot(device)) && Wrote([SetNextRoot(device)])
    {
      hide StartsWith;
      var i := 0;
      while i < |cmdline| && !(i >= 1 && StartsWith(cmdline[i], "root="))
        invariant i <= |cmdline| && FirstRoot(cmdline, 0) == FirstRoot(cmdline, i)
      {
        i := i + 1;
      }
      if i < |cmdline| {
        cmdline := cmdline[i := "root=" + device];
      } else {
        cmdline := cmdline + ["root=" + device];
      }
      log := log + [SetNextRoot(device)];
      AppliedLast(start, old(log), SetNextRoot(device));
    }

    method SetStatusKey(key: string, value: string)
      requires Valid()
      modifies this
      ensures Now() == Apply(old(Now()), SetStatus(key, value)) && Wrote([SetStatus(key, value)])
    {
      status := SetEnvKv(status, key, value);
      log := log + [SetStatus(key, value)];
      AppliedLast(start, old(log), SetStatus(key, value));
    }

    // ------------------------------------------------------------- scripts

    /** The end of `ota-install`, once the slot holds the verified image. */
    method Stage(expected: Word, version: string, time: Word)
      requires Valid()
      modifies this
      ensures Wrote(StageWrites(running, expected, version, time))
    {
      hide PendingText, SetRoot, SetKey, Apply, ApplyAll;
      ReplacePending(PendingText(Other(running), running, version, expected, time));
      SetStatusKey("LAST_RESULT", "install_staged");
      SetStatusKey("CURRENT_SLOT", Name(running));
      SetStatusKey("LAST_FW_VERSION", version);
      SetNextRootDevice(Device(Other(running)));
    }

    /**
      `ota-install`.  The image is a file with some digest, or a stream; `partial` and `written` are what the
      slot holds while dd runs and after it.
     */
    method Install(file: Option<Word>, partial: Word, written: Word, expected: string, version: string,
        time: Word)
      returns (staged: bool)
      requires Valid()
      modifies this
      ensures staged <==> (file.Some? ==> file.value == expected) && written == expected
      ensures Wrote(if file.Some? && file.value != expected then RefusedWrites()
                    else InstallWrites(running, partial, written, expected, version, time))
    {
      hide StageWrites, SetKey;
      var target := Other(running);
      if file.Some? && file.value != expected {
        SetStatusKey("LAST_RESULT", "verify_failed");
        SetStatusKey("LAST_ERROR", "sha256_mismatch");
        return false;
      }
      WriteDevice(target, partial);
      WriteDevice(target, written);
      if written != expected {
        SetStatusKey("LAST_RESULT", "verify_failed_after_write");
        SetStatusKey("LAST_ERROR", "target_sha256_mismatch");
        return false;
      }
      Stage(expected, version, time);
      return true;
    }

    /** The end of `ota-rollback`, once it has a valid target. */
    method RollBackTo(target: Slot, time: Word)
      requires Valid()
      modifies this
      ensures Wrote(RollbackTo(target, running, time))
    {
      hide SetRoot, SetKey, Apply, ApplyAll;
      SetNextRootDevice(Device(target));
      RemovePending(None);
      SetStatusKey("LAST_RESULT", "rollback_requested");
      SetStatusKey("CURRENT_SLOT", Name(running));
      SetStatusKey("LAST_GOOD_SLOT", Name(target));
      SetStatusKey("ROLLBACK_TIME_UTC", time);
    }

    method RollBack(requested: Option<Slot>, time: Word) returns (ok: bool)
      requires Valid()
      modifies this
      ensures Wrote(RollbackWrites(old(Now()), running, requested, time))
      ensures ok <==> RollbackTarget(old(Now()), running, requested).Some?
    {
      hide RollbackTo, ReadKey;
      var target := requested;
      if target.None? {
        var recorded := "";
        if pending.Some? {
          recorded := ReadEnvValue(pending.value, PREVIOUS_SLOT);
        }
        target := if recorded == "" then Some(Other(running)) else SlotNamed(recorded);
      }
      if target.None? {
        return false;
      }
      RollBackTo(target.value, time);
      return true;
    }

    /** S42otaguard; true if it reboots at once. */
    method Guard(time: Word) returns (reboots: bool)
      requires Valid()
      modifies this
      ensures Wrote(GuardWrites(old(Now()), running, time))
    {
      hide RollbackTo, ReadKey, SetKey, NatToString, Attempts, ApplyAll;
      if pending.None? {
        return false;
      }
      var content := pending.value;
      var target := ReadEnvValue(content, TARGET_SLOT);
      var left := ReadEnvValue(content, ATTEMPTS_LEFT);
      var attempts := Attempts(left);
      if Name(running) != target || attempts.None? {
        return false;
      }
      if attempts.value <= 1 {
        SetStatusKey("LAST_RESULT", "rollback_auto");
        SetStatusKey("LAST_ERROR", "attempts_exhausted_slot_" + target);
        var recorded := ReadEnvValue(content, PREVIOUS_SLOT);
        var previous := SlotNamed(recorded);
        if previous.Some? {
          RollBackTo(previous.value, time);
        }
        return true;
      }
      var counted := SetEnvKv(content, ATTEMPTS_LEFT, NatToString(attempts.value - 1));
      ReplacePending(counted);
      SetStatusKey("LAST_RESULT", "boot_unconfirmed");
      SetStatusKey("CURRENT_SLOT", Name(running));
      return false;
    }

    /** The end of `ota-confirm`, once the running slot is the record's target. */
    method Accept(version: string, time: Word)
      requires Valid()
      modifies this
      ensures Wrote(AcceptWrites(running, version, time))
      ensures pending == None && running in good && cmdline == old(cmdline) && digests == old(digests)
    {
      hide SetKey, ApplyAll;
      RemovePending(Some(running));
      SetStatusKey("LAST_RESULT", "confirmed");
      SetStatusKey("LAST_GOOD_SLOT", Name(running));
      SetStatusKey("LAST_FW_VERSION", version);
      SetStatusKey("CONFIRMED_TIME_UTC", time);
    }

    /** `ota-confirm`. */
    method Confirm(time: Word) returns (ok: bool)
      requires Valid()
      modifies this
      ensures Wrote(ConfirmWrites(old(Now()), running, time))
      ensures ok <==> old(pending).None? || PendingOf(old(pending).value).target == Name(running)
      ensures cmdline == old(cmdline) && digests == old(digests)
      ensures if ok then pending == None && (old(pending).Some? ==> running in good) else pending == old(pending)
    {
      hide ReadKey, SetKey, AcceptWrites, ApplyAll;
      SetStatusKey("CURRENT_SLOT", Name(running));
      if pending.None? {
        SetStatusKey("LAST_RESULT", "no_pending_update");
        return true;
      }
      var target := ReadEnvValue(pending.value, TARGET_SLOT);
      var version := ReadEnvValue(pending.value, FW_VERSION);
      NameNotEmpty(running);
      if target == "" {
        SetStatusKey("LAST_RESULT", "pending_invalid");
        SetStatusKey("LAST_ERROR", "missing_target_slot");
        return false;
      }
      if Name(running) != target {
        SetStatusKey("LAST_RESULT", "slot_mismatch");
        SetStatusKey("LAST_ERROR", "current_" + Name(running) + "_target_" + target);
        return false;
      }
      Accept(version, time);
      return true;
    }

    /** S99otaconfirm: confirm only if both supervisors are up. */
    method ConfirmIfHealthy(chimeUp: bool, webdUp: bool, time: Word)
      requires Valid()
      modifies this
      ensures Wrote(if old(pending).Some? && chimeUp && webdUp then ConfirmWrites(old(Now()), running, time) else [])
    {
      if pending.None? || !chimeUp || !webdUp {
        return;
      }
      var ok := Confirm(time);
    }
  }
}
