/**
  What the update scripts achieve when they are not interrupted: a confirmation confirms, a rollback goes back, and an
  update as a whole ends in one of two ways.
 */
module OtaOutcomes {
  import opened Wrappers
  import opened Text
  import opened OtaFiles
  import opened Ota

  // ------------------------------------------------------------ confirmation

  /** Confirming the slot that the record names: the record is gone, the slot is good, the next boot is the same. */
  lemma ConfirmEnds(d: Disk, running: Slot, time: Word)
    requires d.pending.Some? && PendingOf(d.pending.value).target == Name(running)
    ensures var d' := ApplyAll(d, ConfirmWrites(d, running, time));
            && d'.pending == None && d'.good == d.good + {running}
            && d'.cmdline == d.cmdline && d'.digests == d.digests
  {
    hide PendingOf, SetKey, ReadKey;
    NameNotEmpty(running);
    var writes := ConfirmWrites(d, running, time);
    var accept := writes[1..];
    assert accept == AcceptWrites(running, ReadKey(d.pending.value, FW_VERSION), time);
    var d1 := Apply(d, writes[0]);
    var d2 := Apply(d1, accept[0]);
    assert ApplyAll(d, writes) == ApplyAll(d1, accept) == ApplyAll(d2, accept[1..]);
    StatusWritesKeep(d2, accept[1..]);
  }

  /** In any other case confirming changes the status alone. */
  lemma NothingToConfirm(d: Disk, running: Slot, time: Word)
    requires d.pending.None? || PendingOf(d.pending.value).target != Name(running)
    ensures var d' := ApplyAll(d, ConfirmWrites(d, running, time)); d' == d.(status := d'.status)
  {
    hide PendingOf, SetKey, ReadKey;
    StatusWritesKeep(d, ConfirmWrites(d, running, time));
  }

  /** Without a record the guard does nothing, however often the board boots. */
  lemma {:induction false} NoRecordStays(d: Disk, running: Slot, times: seq<Word>)
    requires d.pending == None
    ensures AfterGuards(d, running, times) == d
    decreases |times|
  {
    if times != [] {
      NoRecordStays(d, running, times[..|times| - 1]);
    }
  }

  /** Nor does the guard of a slot that the record does not name; a record without a number of attempts has them all. */
  lemma GuardSparesOthers(d: Disk, running: Slot, time: Word)
    requires d.pending.Some? && PendingOf(d.pending.value).target != Name(running)
    ensures ApplyAll(d, GuardWrites(d, running, time)) == d
    ensures Attempts("") == Some(3)
  {
    hide PendingOf, SetKey;
    NothingApplied(d);
  }

  /** So a confirmed slot boots from then on. */
  lemma ConfirmedStays(d: Disk, running: Slot, time: Word, times: seq<Word>)
    requires d.pending.Some? && PendingOf(d.pending.value).target == Name(running) && NextSlot(d) == Some(running)
    ensures var d' := AfterGuards(ApplyAll(d, ConfirmWrites(d, running, time)), running, times);
            NextSlot(d') == Some(running) && running in d'.good && d'.pending == None
  {
    hide PendingOf, ConfirmWrites, AfterGuards, ApplyAll, RootOf;
    ConfirmEnds(d, running, time);
    NoRecordStays(ApplyAll(d, ConfirmWrites(d, running, time)), running, times);
  }

  // ---------------------------------------------------------------- rollback

  /**
    Where a rollback leads: to the slot that is asked for, or else to the one that the record names, or else to the
    one that does not run; a record that names none is refused without any write.
   */
  lemma RollbackLeads(d: Disk, running: Slot, requested: Option<Slot>, time: Word)
    requires d.cmdline != [] && AtMostOneRoot(d.cmdline)
    ensures var d' := ApplyAll(d, RollbackWrites(d, running, requested, time));
            var recorded := if d.pending.Some? then ReadKey(d.pending.value, PREVIOUS_SLOT) else "";
            if requested == None && recorded !in ["", "A", "B"] then d' == d
            else
              && d'.pending == None && d'.good == d.good && d'.digests == d.digests
              && NextSlot(d') == Some(if requested.Some? then requested.value
                                      else if recorded == "A" then A
                                      else if recorded == "B" then B
                                      else Other(running))
  {
    hide ReadKey, RollbackTo, NextSlot, AtMostOneRoot, ApplyAll;
    NamesAreTexts();
    NothingApplied(d);
    var target := RollbackTarget(d, running, requested);
    if target.Some? {
      RollbackEnds(d, running, target.value, time);
    }
  }

  lemma NamesAreTexts()
    ensures Name(A) == "A" && Name(B) == "B" && "A" != "B" && "A" != "" && "B" != ""
  {
    assert "A"[0] == 'A' && "B"[0] == 'B';
  }

  lemma NothingApplied(d: Disk)
    ensures ApplyAll(d, []) == d
  {
  }

  // ----------------------------------------------------------------- install

  /** An image that does not verify, before or after it is written, changes neither the record nor the next boot. */
  lemma UnverifiedIsNotStaged(d: Disk, running: Slot, partial: Word, written: Word, expected: string, version: string,
      time: Word)
    requires written != expected
    ensures var d' := ApplyAll(d, InstallWrites(running, partial, written, expected, version, time));
            && d'.pending == d.pending && d'.cmdline == d.cmdline && d'.good == d.good - {Other(running)}
            && d'.digests == d.digests[Other(running) := written]
    ensures var d' := ApplyAll(d, RefusedWrites()); d' == d.(status := d'.status)
  {
    hide SetKey;
    var writes := InstallWrites(running, partial, written, expected, version, time);
    var d1 := Apply(d, writes[0]);
    var d2 := Apply(d1, writes[1]);
    assert writes[1..][0] == writes[1] && writes[1..][1..] == writes[2..];
    assert ApplyAll(d, writes) == ApplyAll(d2, writes[2..]);
    StatusWritesKeep(d2, writes[2..]);
    StatusWritesKeep(d, RefusedWrites());
  }

  /** The staged record is the one that a boot of the new slot counts down. */
  lemma StagedIsUnconfirmed(d: Disk, running: Slot, version: string, image: Word, time: Word)
    requires d.pending == Some(PendingText(Other(running), running, version, image, time))
    requires VersionKeeps(version, Other(running), running)
    ensures Unconfirmed(d, Other(running), running, MAX_ATTEMPTS)
    ensures PendingOf(d.pending.value).target == Name(Other(running))
  {
    hide PendingText, PendingOf, NatToString, VersionKeeps, Attempts;
    PendingReadsBack(Other(running), running, version, image, time);
    AttemptsOf(MAX_ATTEMPTS);
  }

  // ------------------------------------------------------------ whole updates

  /** From the install to the first boot of the new slot, whose guard counts down once. */
  lemma UpdateBoots(d: Disk, running: Slot, partial: Word, image: Word, version: string, time: Word, time1: Word)
    requires d.cmdline != [] && AtMostOneRoot(d.cmdline) && VersionKeeps(version, Other(running), running)
    ensures var staged := ApplyAll(d, InstallWrites(running, partial, image, image, version, time));
            var booted := ApplyAll(staged, GuardWrites(staged, Other(running), time1));
            && NextSlot(staged) == Some(Other(running)) && booted.cmdline == staged.cmdline
            && Unconfirmed(booted, Other(running), running, MAX_ATTEMPTS - 1)
            && booted.good == d.good - {Other(running)} && booted.digests == d.digests[Other(running) := image]
  {
    hide InstallWrites, GuardWrites, ApplyAll, AtMostOneRoot, VersionKeeps, Unconfirmed, NextSlot, PendingText;
    InstallEnds(d, running, partial, image, version, time);
    var staged := ApplyAll(d, InstallWrites(running, partial, image, image, version, time));
    StagedIsUnconfirmed(staged, running, version, image, time);
    GuardCountsDown(staged, Other(running), running, MAX_ATTEMPTS, time1);
  }

  /** An update that is confirmed at its first boot: it boots from then on, and both slots are good. */
  lemma ConfirmedUpdateIsKept(d: Disk, running: Slot, partial: Word, image: Word, version: string, time: Word,
      time1: Word, time2: Word, times: seq<Word>)
    requires d.cmdline != [] && AtMostOneRoot(d.cmdline) && VersionKeeps(version, Other(running), running)
    requires running in d.good
    ensures var target := Other(running);
            var staged := ApplyAll(d, InstallWrites(running, partial, image, image, version, time));
            var booted := ApplyAll(staged, GuardWrites(staged, target, time1));
            var d' := AfterGuards(ApplyAll(booted, ConfirmWrites(booted, target, time2)), target, times);
            && NextSlot(staged) == Some(target) && NextSlot(d') == Some(target)
            && target in d'.good && running in d'.good && d'.pending == None
            && d'.digests == d.digests[target := image]
  {
    hide InstallWrites, GuardWrites, ConfirmWrites, ApplyAll, AtMostOneRoot, VersionKeeps, AfterGuards, PendingOf;
    hide RootOf;
    UpdateBoots(d, running, partial, image, version, time, time1);
    var target := Other(running);
    var staged := ApplyAll(d, InstallWrites(running, partial, image, image, version, time));
    var booted := ApplyAll(staged, GuardWrites(staged, target, time1));
    ConfirmEnds(booted, target, time2);
    NoRecordStays(ApplyAll(booted, ConfirmWrites(booted, target, time2)), target, times);
  }

  /** An update that no boot confirms: after three of them the old slot boots again, still good and as it was. */
  lemma UnconfirmedUpdateIsUndone(d: Disk, running: Slot, partial: Word, image: Word, version: string, time: Word,
      times: seq<Word>)
    requires d.cmdline != [] && AtMostOneRoot(d.cmdline) && VersionKeeps(version, Other(running), running)
    requires |times| == MAX_ATTEMPTS && running in d.good
    ensures var staged := ApplyAll(d, InstallWrites(running, partial, image, image, version, time));
            var d' := AfterGuards(staged, Other(running), times);
            && NextSlot(staged) == Some(Other(running)) && NextSlot(d') == Some(running)
            && running in d'.good && d'.pending == None && d'.digests == d.digests[Other(running) := image]
  {
    hide InstallWrites, ApplyAll, AtMostOneRoot, VersionKeeps, Unconfirmed, NextSlot, PendingText, AfterGuards;
    InstallEnds(d, running, partial, image, version, time);
    var staged := ApplyAll(d, InstallWrites(running, partial, image, image, version, time));
    StagedIsUnconfirmed(staged, running, version, image, time);
    CountdownEnds(staged, Other(running), running, MAX_ATTEMPTS, times);
  }

  // ------------------------------------------------------------------ status

  /** The last value that these writes give a key of the status file. */
  function LastStatus(writes: seq<Write>, key: string): Option<string> {
    if writes == [] then None
    else
      var later := LastStatus(writes[1..], key);
      if later.Some? then later
      else if writes[0].SetStatus? && writes[0].key == key then Some(writes[0].value) else None
  }

  ghost predicate PlainStatus(writes: seq<Write>) {
    forall w <- writes :: w.SetStatus? ==> PlainName(w.key) && LfFree(w.value)
  }

  /** The status file holds that value afterwards. */
  lemma {:induction false} StatusIsKept(d: Disk, writes: seq<Write>, key: string)
    requires PlainStatus(writes) && PlainName(key)
    ensures ReadKey(ApplyAll(d, writes).status, key)
         == if LastStatus(writes, key).Some? then LastStatus(writes, key).value else ReadKey(d.status, key)
    decreases |writes|
  {
    hide ReadKey, SetKey, PlainName, LfFree;
    if writes != [] {
      var w := writes[0];
      assert w in writes;
      StatusIsKept(Apply(d, w), writes[1..], key);
      if w.SetStatus? {
        if w.key == key {
          OneKeyIsSet(d.status, key, w.value);
        } else {
          OtherKeysStay(d.status, w.key, w.value, key);
        }
      }
    }
  }

  lemma OneKeyIsSet(content: string, key: string, value: string)
    requires PlainName(key) && LfFree(value)
    ensures ReadKey(SetKey(content, key, value), key) == value
  {
    EnvIsAMap(content, key, value, key);
  }

  const RESULT := "LAST_RESULT"
  const GOOD_SLOT := "LAST_GOOD_SLOT"

  lemma StatusLengths()
    ensures |RESULT| == |"LAST_RESULT"| == 11 && |GOOD_SLOT| == |"LAST_GOOD_SLOT"| == 14
    ensures |"CURRENT_SLOT"| == 12 && |"LAST_FW_VERSION"| == 15
    ensures |"CONFIRMED_TIME_UTC"| == 18 && |"ROLLBACK_TIME_UTC"| == 17
  {
  }

  lemma StatusKeys()
    ensures PlainName(RESULT) && PlainName(GOOD_SLOT) && PlainName("CURRENT_SLOT")
  {
  }

  lemma MoreStatusKeys()
    ensures PlainName("LAST_FW_VERSION") && PlainName("CONFIRMED_TIME_UTC") && PlainName("ROLLBACK_TIME_UTC")
  {
  }

  lemma StatusWords(s: Slot)
    ensures LfFree("confirmed") && LfFree("rollback_requested") && LfFree(Name(s))
  {
  }

  lemma LastStatusCons(w: Write, rest: seq<Write>, key: string)
    ensures LastStatus([w] + rest, key) ==
            if LastStatus(rest, key).Some? then LastStatus(rest, key)
            else if w.SetStatus? && w.key == key then Some(w.value) else None
  {
    assert ([w] + rest)[1..] == rest;
  }

  /** What a confirmation reports. */
  lemma ConfirmationIsReported(d: Disk, running: Slot, version: string, time: Word)
    requires LfFree(version)
    ensures var status := ApplyAll(d, AcceptWrites(running, version, time)).status;
            ReadKey(status, "LAST_RESULT") == "confirmed" && ReadKey(status, "LAST_GOOD_SLOT") == Name(running)
  {
    hide ReadKey, PlainName, LfFree, ApplyAll, Name;
    StatusLengths();
    StatusKeys();
    MoreStatusKeys();
    StatusWords(running);
    var w := AcceptWrites(running, version, time);
    assert w == [w[0]] + ([w[1]] + ([w[2]] + ([w[3]] + ([w[4]] + []))));
    forall key | key == RESULT || key == GOOD_SLOT
      ensures LastStatus(w, key) == Some(if key == RESULT then "confirmed" else Name(running))
    {
      LastStatusCons(w[4], [], key);
      LastStatusCons(w[3], [w[4]] + [], key);
      LastStatusCons(w[2], [w[3]] + ([w[4]] + []), key);
      LastStatusCons(w[1], [w[2]] + ([w[3]] + ([w[4]] + [])), key);
      LastStatusCons(w[0], [w[1]] + ([w[2]] + ([w[3]] + ([w[4]] + []))), key);
    }
    StatusIsKept(d, w, RESULT);
    StatusIsKept(d, w, GOOD_SLOT);
  }

  /** And a rollback. */
  lemma RollbackIsReported(d: Disk, running: Slot, target: Slot, time: Word)
    ensures var status := ApplyAll(d, RollbackTo(target, running, time)).status;
            ReadKey(status, "LAST_RESULT") == "rollback_requested" && ReadKey(status, "LAST_GOOD_SLOT") == Name(target)
  {
    hide ReadKey, PlainName, LfFree, ApplyAll, Name;
    StatusLengths();
    StatusKeys();
    MoreStatusKeys();
    StatusWords(running);
    StatusWords(target);
    var w := RollbackTo(target, running, time);
    assert w == [w[0]] + ([w[1]] + ([w[2]] + ([w[3]] + ([w[4]] + ([w[5]] + [])))));
    forall key | key == RESULT || key == GOOD_SLOT
      ensures LastStatus(w, key) == Some(if key == RESULT then "rollback_requested" else Name(target))
    {
      LastStatusCons(w[5], [], key);
      LastStatusCons(w[4], [w[5]] + [], key);
      LastStatusCons(w[3], [w[4]] + ([w[5]] + []), key);
      LastStatusCons(w[2], [w[3]] + ([w[4]] + ([w[5]] + [])), key);
      LastStatusCons(w[1], [w[2]] + ([w[3]] + ([w[4]] + ([w[5]] + []))), key);
      LastStatusCons(w[0], [w[1]] + ([w[2]] + ([w[3]] + ([w[4]] + ([w[5]] + [])))), key);
    }
    StatusIsKept(d, w, RESULT);
    StatusIsKept(d, w, GOOD_SLOT);
  }
}
