/**
  The A/B update protocol of the ota-* scripts and the boot guard.  A script is the list of the writes
  it makes, in its order; the machine performs them one at a time, and the power may fail between any
  two.  A running system then boots whatever slot the command line names and runs the guard.
 */
module Ota {
  import opened Wrappers
  import opened Text
  import opened OtaFiles

  datatype Slot = A | B

  /** A text of one line: a digest that awk prints, a time that date prints. */
  type Word = s: string | LfFree(s) witness ""

  function Other(s: Slot): Slot {
    if s == A then B else A
  }

  function Name(s: Slot): string {
    if s == A then "A" else "B"
  }

  function SlotNamed(name: string): Option<Slot> {
    if name == "A" then Some(A) else if name == "B" then Some(B) else None
  }

  function Device(s: Slot): string {
    if s == A then "/dev/mmcblk0p2" else "/dev/mmcblk0p3"
  }

  function SlotOfDevice(device: string): Option<Slot> {
    if device == Device(A) then Some(A) else if device == Device(B) then Some(B) else None
  }

  lemma DevicesAndNames(s: Slot)
    ensures SlotOfDevice(Device(s)) == Some(s) && SlotNamed(Name(s)) == Some(s) && Device(A) != Device(B) &&
            Name(A) != Name(B)
  {
    assert Device(A)[13] == '2' && Device(B)[13] == '3';
    assert Name(A)[0] == 'A' && Name(B)[0] == 'B';
  }

  /**
    What survives a power cut: the files, the SHA-256 digest of what each slot holds, and - for the proof
    only - which slots are good, that is, factory-installed or confirmed and not overwritten since.
   */
  datatype Disk = Disk(
    cmdline: seq<string>,
    pending: Option<string>,
    status: string,
    digests: map<Slot, Word>,
    good: set<Slot>
  )

  datatype Write =
    | Flash(slot: Slot, digest: Word)
    | PutPending(content: string)
    | DropPending(confirmed: Option<Slot>)
    | SetNextRoot(device: string)
    | SetStatus(key: string, value: string)

  /** One write.  Overwriting a slot makes it bad; dropping the record as a confirmation makes it good. */
  function Apply(d: Disk, w: Write): Disk {
    match w
    case Flash(slot, digest) => d.(digests := d.digests[slot := digest], good := d.good - {slot})
    case PutPending(content) => d.(pending := Some(content))
    case DropPending(confirmed) =>
      d.(pending := None, good := d.good + if confirmed.Some? then {confirmed.value} else {})
    case SetNextRoot(device) => d.(cmdline := SetRoot(d.cmdline, device))
    case SetStatus(key, value) => d.(status := SetKey(d.status, key, value))
  }

  function ApplyAll(d: Disk, writes: seq<Write>): Disk
    decreases |writes|
  {
    if writes == [] then d else ApplyAll(Apply(d, writes[0]), writes[1..])
  }

  lemma {:induction false} ApplyAppend(d: Disk, a: seq<Write>, b: seq<Write>)
    ensures ApplyAll(d, a + b) == ApplyAll(ApplyAll(d, a), b)
    decreases |a|
  {
    if a == [] {
      assert a + b == b;
    } else {
      assert (a + b)[1..] == a[1..] + b;
      ApplyAppend(Apply(d, a[0]), a[1..], b);
    }
  }

  /** The slot that the next boot runs. */
  function NextSlot(d: Disk): Option<Slot> {
    match RootOf(d.cmdline)
    case None => None
    case Some(device) => SlotOfDevice(device)
  }

  // ----------------------------------------------------------- pending record

  const STATE := "STATE"
  const TARGET_SLOT := "TARGET_SLOT"
  const PREVIOUS_SLOT := "PREVIOUS_SLOT"
  const FW_VERSION := "FW_VERSION"
  const SHA256 := "SHA256"
  const APPLY_TIME_UTC := "APPLY_TIME_UTC"
  const ATTEMPTS_LEFT := "ATTEMPTS_LEFT"

  const MAX_ATTEMPTS: nat := 3

  /** `write_pending_state`, whose here-document takes the version as it is. */
  function PendingText(target: Slot, previous: Slot, version: string, sha: Word, time: Word): string {
    PendingHead(target, previous) + Assignment(FW_VERSION, version) + Assignment(SHA256, sha) +
    Assignment(APPLY_TIME_UTC, time) + Assignment(ATTEMPTS_LEFT, NatToString(MAX_ATTEMPTS))
  }

  function PendingHead(target: Slot, previous: Slot): string {
    Assignment(STATE, "pending") + Assignment(TARGET_SLOT, Name(target)) + Assignment(PREVIOUS_SLOT, Name(previous))
  }

  /** The fields that decide something, read back from a record. */
  datatype Pending = Pending(target: string, previous: string, sha: string, attempts: string)

  function PendingOf(content: string): Pending {
    Pending(ReadKey(content, TARGET_SLOT), ReadKey(content, PREVIOUS_SLOT), ReadKey(content, SHA256),
        ReadKey(content, ATTEMPTS_LEFT))
  }

  lemma PlainNames()
    ensures PlainName(STATE) && PlainName(TARGET_SLOT) && PlainName(PREVIOUS_SLOT) && PlainName(FW_VERSION)
    ensures PlainName(SHA256) && PlainName(APPLY_TIME_UTC) && PlainName(ATTEMPTS_LEFT)
  {
    hide PlainName;
    SlotNames();
    OtherNames();
  }

  lemma SlotNames()
    ensures PlainName(STATE) && PlainName(TARGET_SLOT) && PlainName(PREVIOUS_SLOT)
  {
  }

  lemma OtherNames()
    ensures PlainName(FW_VERSION) && PlainName(SHA256) && PlainName(APPLY_TIME_UTC) && PlainName(ATTEMPTS_LEFT)
  {
  }

  lemma DistinctNames()
    ensures |STATE| == 5 && |SHA256| == 6 && |FW_VERSION| == 10 && |TARGET_SLOT| == 11 && |APPLY_TIME_UTC| == 14
    ensures |PREVIOUS_SLOT| == |ATTEMPTS_LEFT| == 13 && PREVIOUS_SLOT != ATTEMPTS_LEFT
  {
    assert PREVIOUS_SLOT[0] == 'P' && ATTEMPTS_LEFT[0] == 'A';
  }

  lemma ValuesAreWords(s: Slot, n: nat)
    ensures LfFree("pending") && LfFree(Name(s)) && LfFree(NatToString(n))
  {
  }

  lemma NothingRead(key: string)
    ensures ReadKey("", key) == ""
  {
  }

  lemma HeadField(target: Slot, previous: Slot, key: string)
    requires PlainName(key)
    ensures WholeLines(PendingHead(target, previous))
    ensures ReadKey(PendingHead(target, previous), key)
         == if key == PREVIOUS_SLOT then Name(previous) else if key == TARGET_SLOT then Name(target)
            else if key == STATE then "pending" else ""
  {
    hide ReadKey, Assignment, PlainName, Name;
    PlainNames();
    ValuesAreWords(target, 0);
    ValuesAreWords(previous, 0);
    var c1 := Assignment(STATE, "pending");
    var c2 := c1 + Assignment(TARGET_SLOT, Name(target));
    assert "" + c1 == c1;
    ReadAfterOneLine("", STATE, "pending", key);
    ReadAfterOneLine(c1, TARGET_SLOT, Name(target), key);
    ReadAfterOneLine(c2, PREVIOUS_SLOT, Name(previous), key);
    NothingRead(key);
  }

  /** Each field of a new record, with what the lines of its version do to it. */
  lemma PendingField(target: Slot, previous: Slot, version: string, sha: Word, time: Word, key: string)
    requires PlainName(key)
    ensures ReadKey(PendingText(target, previous, version, sha, time), key)
         == if key == ATTEMPTS_LEFT then NatToString(MAX_ATTEMPTS)
            else if key == APPLY_TIME_UTC then time
            else if key == SHA256 then sha
            else if AssignsAny(ExtraLines(version), key) then ReadEnv(ExtraLines(version), key)
            else if key == FW_VERSION then ValueLines(version)[0]
            else ReadKey(PendingHead(target, previous), key)
  {
    hide ReadKey, ReadEnv, Assignment, NatToString, PlainName, PendingHead, ValueLines, ExtraLines, AssignsAny;
    PlainNames();
    HeadField(target, previous, key);
    ValuesAreWords(target, MAX_ATTEMPTS);
    var c3 := PendingHead(target, previous);
    var c4 := c3 + Assignment(FW_VERSION, version);
    var c5 := c4 + Assignment(SHA256, sha);
    var c6 := c5 + Assignment(APPLY_TIME_UTC, time);
    ReadAfterAssignment(c3, FW_VERSION, version, key);
    assert WholeLines(c4) by { EndsInLf(c3, FW_VERSION, version); }
    ReadAfterOneLine(c4, SHA256, sha, key);
    ReadAfterOneLine(c5, APPLY_TIME_UTC, time, key);
    ReadAfterOneLine(c6, ATTEMPTS_LEFT, NatToString(MAX_ATTEMPTS), key);
  }

  lemma EndsInLf(content: string, key: string, value: string)
    ensures WholeLines(content + Assignment(key, value))
  {
  }

  /** The lines that the version adds to the record leave its slots alone. */
  predicate VersionKeeps(version: string, target: Slot, previous: Slot) {
    Harmless(version, TARGET_SLOT, Name(target)) && Harmless(version, PREVIOUS_SLOT, Name(previous))
  }

  lemma OneLineVersionKeeps(version: string, target: Slot, previous: Slot)
    requires LfFree(version)
    ensures VersionKeeps(version, target, previous)
  {
    LfFreeIsHarmless(version, TARGET_SLOT, Name(target));
    LfFreeIsHarmless(version, PREVIOUS_SLOT, Name(previous));
  }

  /**
    The record that an install writes is read back field by field if and only if no line of the version after
    its first one assigns another slot.
   */
  lemma PendingReadsBack(target: Slot, previous: Slot, version: string, sha: Word, time: Word)
    ensures var p := PendingOf(PendingText(target, previous, version, sha, time));
            && (p == Pending(Name(target), Name(previous), sha, NatToString(MAX_ATTEMPTS)) <==>
                VersionKeeps(version, target, previous))
            && p.sha == sha && p.attempts == NatToString(MAX_ATTEMPTS)
  {
    hide ReadKey, ReadEnv, NatToString, PendingText, PendingHead, AssignsAny, ExtraLines, ValueLines, PlainName;
    PlainNames();
    DistinctNames();
    PendingField(target, previous, version, sha, time, TARGET_SLOT);
    PendingField(target, previous, version, sha, time, PREVIOUS_SLOT);
    PendingField(target, previous, version, sha, time, SHA256);
    PendingField(target, previous, version, sha, time, ATTEMPTS_LEFT);
    HeadField(target, previous, TARGET_SLOT);
    HeadField(target, previous, PREVIOUS_SLOT);
  }

  /** Counting down changes the attempts and nothing else that is read. */
  lemma CountdownReadsBack(content: string, attempts: nat)
    ensures PendingOf(SetKey(content, ATTEMPTS_LEFT, NatToString(attempts)))
         == PendingOf(content).(attempts := NatToString(attempts))
  {
    hide ReadKey, SetKey, NatToString, PlainName, LfFree;
    PlainNames();
    DistinctNames();
    ValuesAreWords(A, attempts);
    OtherKeysStay(content, ATTEMPTS_LEFT, NatToString(attempts), TARGET_SLOT);
    OtherKeysStay(content, ATTEMPTS_LEFT, NatToString(attempts), PREVIOUS_SLOT);
    OtherKeysStay(content, ATTEMPTS_LEFT, NatToString(attempts), SHA256);
  }

  lemma OtherKeysStay(content: string, key: string, value: string, other: string)
    requires PlainName(key) && PlainName(other) && LfFree(value) && other != key
    ensures ReadKey(SetKey(content, key, value), key) == value
    ensures ReadKey(SetKey(content, key, value), other) == ReadKey(content, other)
  {
    hide ReadKey, SetKey, PlainName, LfFree, Harmless;
    EnvIsAMap(content, key, value, other);
    LfFreeIsHarmless(value, other, ReadKey(content, other));
  }

  // ----------------------------------------------------------------- scripts

  /** The end of `ota-install`, once the slot holds the verified image. */
  function StageWrites(running: Slot, expected: Word, version: string, time: Word): seq<Write> {
    var target := Other(running);
    [ PutPending(PendingText(target, running, version, expected, time)),
      SetStatus("LAST_RESULT", "install_staged"),
      SetStatus("CURRENT_SLOT", Name(running)),
      SetStatus("LAST_FW_VERSION", version),
      SetNextRoot(Device(target)) ]
  }

  /** `ota-install` after its argument checks; `partial` is what the slot holds while dd is at work. */
  function InstallWrites(running: Slot, partial: Word, written: Word, expected: string, version: string, time: Word)
    : seq<Write>
  {
    var target := Other(running);
    [Flash(target, partial), Flash(target, written)] +
    if written != expected then
      [SetStatus("LAST_RESULT", "verify_failed_after_write"), SetStatus("LAST_ERROR", "target_sha256_mismatch")]
    else
      StageWrites(running, expected, version, time)
  }

  /** An image file with the wrong checksum is refused before the slot is touched. */
  function RefusedWrites(): seq<Write> {
    [SetStatus("LAST_RESULT", "verify_failed"), SetStatus("LAST_ERROR", "sha256_mismatch")]
  }

  /** Which slot `ota-rollback` goes to; None if the record names no valid one. */
  function RollbackTarget(d: Disk, running: Slot, requested: Option<Slot>): Option<Slot> {
    if requested.Some? then requested
    else
      var recorded := if d.pending.Some? then PendingOf(d.pending.value).previous else "";
      if recorded == "" then Some(Other(running)) else SlotNamed(recorded)
  }

  function RollbackTo(target: Slot, running: Slot, time: Word): seq<Write> {
    [ SetNextRoot(Device(target)), DropPending(None),
      SetStatus("LAST_RESULT", "rollback_requested"), SetStatus("CURRENT_SLOT", Name(running)),
      SetStatus("LAST_GOOD_SLOT", Name(target)), SetStatus("ROLLBACK_TIME_UTC", time) ]
  }

  function RollbackWrites(d: Disk, running: Slot, requested: Option<Slot>, time: Word): seq<Write> {
    var target := RollbackTarget(d, running, requested);
    if target.None? then [] else RollbackTo(target.value, running, time)
  }

  function Attempts(text: string): Option<nat> {
    if text == "" then Some(MAX_ATTEMPTS)
    else if forall i | 0 <= i < |text| :: IsDigit(text[i]) then Some(DigitsToNat(text))
    else None
  }

  /** The guard of S42otaguard at boot. */
  function GuardWrites(d: Disk, running: Slot, time: Word): seq<Write> {
    if d.pending.None? then []
    else
      var p := PendingOf(d.pending.value);
      var attempts := Attempts(p.attempts);
      if p.target != Name(running) || attempts.None? then []
      else if attempts.value <= 1 then
        [SetStatus("LAST_RESULT", "rollback_auto"), SetStatus("LAST_ERROR", "attempts_exhausted_slot_" + p.target)] +
        var previous := SlotNamed(p.previous);
        if previous.None? then [] else RollbackTo(previous.value, running, time)
      else
        [ PutPending(SetKey(d.pending.value, ATTEMPTS_LEFT, NatToString(attempts.value - 1))),
          SetStatus("LAST_RESULT", "boot_unconfirmed"), SetStatus("CURRENT_SLOT", Name(running)) ]
  }

  /** The end of `ota-confirm`, once the running slot is the record's target. */
  function AcceptWrites(running: Slot, version: string, time: Word): seq<Write> {
    [ DropPending(Some(running)), SetStatus("LAST_RESULT", "confirmed"), SetStatus("LAST_GOOD_SLOT", Name(running)),
      SetStatus("LAST_FW_VERSION", version), SetStatus("CONFIRMED_TIME_UTC", time) ]
  }

  /** `ota-confirm`, which S99otaconfirm runs only when both services are up. */
  function ConfirmWrites(d: Disk, running: Slot, time: Word): seq<Write> {
    [SetStatus("CURRENT_SLOT", Name(running))] +
    if d.pending.None? then [SetStatus("LAST_RESULT", "no_pending_update")]
    else
      var p := PendingOf(d.pending.value);
      if p.target == "" then
        [SetStatus("LAST_RESULT", "pending_invalid"), SetStatus("LAST_ERROR", "missing_target_slot")]
      else if p.target != Name(running) then
        [SetStatus("LAST_RESULT", "slot_mismatch"),
         SetStatus("LAST_ERROR", "current_" + Name(running) + "_target_" + p.target)]
      else
        AcceptWrites(running, ReadKey(d.pending.value, FW_VERSION), time)
  }

  // ------------------------------------------------------------------ safety

  /** What the record says is consistent, and a slot to fall back to exists. */
  ghost predicate RecordOk(d: Disk) {
    d.pending.Some? ==>
      var p := PendingOf(d.pending.value);
      exists target: Slot ::
        && p.target == Name(target) && p.previous == Name(Other(target))
        && target !in d.good && Other(target) in d.good
        && Attempts(p.attempts).Some?
  }

  /**
    The safety property: the next boot runs a slot that is good, or the target of the pending record, whose
    digest was verified against the record, and then the record's previous slot is good and the other one.
   */
  ghost predicate Safe(d: Disk) {
    && d.cmdline != [] && AtMostOneRoot(d.cmdline) && NextSlot(d).Some?
    && A in d.digests && B in d.digests
    && RecordOk(d)
    && (NextSlot(d).value in d.good
        || (d.pending.Some?
            && PendingOf(d.pending.value).target == Name(NextSlot(d).value)
            && PendingOf(d.pending.value).previous == Name(Other(NextSlot(d).value))
            && d.digests[NextSlot(d).value] == PendingOf(d.pending.value).sha
            && Other(NextSlot(d).value) in d.good))
  }

  /** A write never overwrites the slot that the next boot runs. */
  ghost predicate SparesNext(d: Disk, w: Write) {
    w.Flash? ==> NextSlot(d) != Some(w.slot)
  }

  /** Every state that a power cut during these writes can leave is safe, and the next boot's slot is spared. */
  ghost predicate SafeThroughout(d: Disk, writes: seq<Write>)
    decreases |writes|
  {
    Safe(d) && (writes != [] ==> SparesNext(d, writes[0]) && SafeThroughout(Apply(d, writes[0]), writes[1..]))
  }

  /** The slot of the running system is never written. */
  ghost predicate Spares(writes: seq<Write>, running: Slot) {
    forall i | 0 <= i < |writes| && writes[i].Flash? :: writes[i].slot != running
  }

  lemma StatusIsSafe(d: Disk, key: string, value: string)
    ensures Safe(d) ==> Safe(Apply(d, SetStatus(key, value)))
  {
  }

  ghost predicate OnlyStatus(writes: seq<Write>) {
    forall i | 0 <= i < |writes| :: writes[i].SetStatus?
  }

  lemma {:induction false} StatusWritesAreSafe(d: Disk, writes: seq<Write>)
    requires Safe(d) && OnlyStatus(writes)
    ensures SafeThroughout(d, writes)
    decreases |writes|
  {
    hide Safe, Apply;
    if writes != [] {
      StatusIsSafe(d, writes[0].key, writes[0].value);
      StatusWritesAreSafe(Apply(d, writes[0]), writes[1..]);
    }
  }

  lemma {:induction false} SafeAppend(d: Disk, a: seq<Write>, b: seq<Write>)
    requires SafeThroughout(d, a) && SafeThroughout(ApplyAll(d, a), b)
    ensures SafeThroughout(d, a + b)
    decreases |a|
  {
    hide Safe, Apply;
    if a == [] {
      assert a + b == b;
    } else {
      assert (a + b)[1..] == a[1..] + b;
      SafeAppend(Apply(d, a[0]), a[1..], b);
    }
  }

  lemma SafeOne(d: Disk, w: Write)
    requires Safe(d) && Safe(Apply(d, w)) && SparesNext(d, w)
    ensures SafeThroughout(d, [w]) && ApplyAll(d, [w]) == Apply(d, w)
  {
    hide Safe, Apply;
    assert [w][1..] == [];
  }

  lemma NextRoot(d: Disk, target: Slot)
    requires d.cmdline != [] && AtMostOneRoot(d.cmdline)
    ensures var d' := Apply(d, SetNextRoot(Device(target)));
            NextSlot(d') == Some(target) && AtMostOneRoot(d'.cmdline) && d'.cmdline != []
  {
    hide SetRoot, RootOf;
    NextRootIsSet(d.cmdline, Device(target));
    DevicesAndNames(target);
  }

  /** Going to a good slot is safe at any time; dropping the record then is, too. */
  lemma RollbackIsSafe(d: Disk, running: Slot, target: Slot, time: Word)
    requires Safe(d) && target in d.good
    ensures SafeThroughout(d, RollbackTo(target, running, time))
    ensures var d' := ApplyAll(d, RollbackTo(target, running, time)); NextSlot(d') == Some(target) && d'.pending == None
  {
    var w1, w2 := SetNextRoot(Device(target)), DropPending(None);
    NextRoot(d, target);
    var d1 := Apply(d, w1);
    var d2 := Apply(d1, w2);
    assert Safe(d1) && Safe(d2) && NextSlot(d2) == Some(target);
    RollbackSequence(d, running, target, time);
  }

  lemma RollbackSequence(d: Disk, running: Slot, target: Slot, time: Word)
    requires Safe(d)
    requires var d1 := Apply(d, SetNextRoot(Device(target)));
             Safe(d1) && Safe(Apply(d1, DropPending(None))) && NextSlot(Apply(d1, DropPending(None))) == Some(target)
    ensures SafeThroughout(d, RollbackTo(target, running, time))
    ensures var d' := ApplyAll(d, RollbackTo(target, running, time)); NextSlot(d') == Some(target) && d'.pending == None
  {
    hide Safe, NextSlot, Apply;
    var w1, w2 := SetNextRoot(Device(target)), DropPending(None);
    var rest := RollbackTo(target, running, time)[2..];
    var d1 := Apply(d, w1);
    var d2 := Apply(d1, w2);
    SafeOne(d, w1);
    SafeOne(d1, w2);
    StatusWritesAreSafe(d2, rest);
    SafeAppend(d1, [w2], rest);
    SafeAppend(d, [w1], [w2] + rest);
    assert RollbackTo(target, running, time) == [w1] + ([w2] + rest);
    ApplyAppend(d, [w1], [w2] + rest);
    ApplyAppend(d1, [w2], rest);
    StatusWritesKeep(d2, rest);
    DroppedRecord(d1);
  }

  lemma DroppedRecord(d: Disk)
    ensures Apply(d, DropPending(None)).pending == None
  {
  }

  lemma {:induction false} StatusWritesKeep(d: Disk, writes: seq<Write>)
    requires OnlyStatus(writes)
    ensures ApplyAll(d, writes) == d.(status := ApplyAll(d, writes).status)
    ensures NextSlot(ApplyAll(d, writes)) == NextSlot(d)
    decreases |writes|
  {
    if writes != [] {
      StatusWritesKeep(Apply(d, writes[0]), writes[1..]);
    }
  }

  lemma SafeCons(d: Disk, w: Write, rest: seq<Write>)
    requires Safe(d) && SparesNext(d, w) && SafeThroughout(Apply(d, w), rest)
    ensures SafeThroughout(d, [w] + rest)
  {
    hide Safe, Apply, SparesNext;
    assert ([w] + rest)[1..] == rest;
  }

  /** Overwriting the slot that neither runs nor boots next. */
  lemma FlashIsSafe(d: Disk, running: Slot, digest: Word)
    requires Safe(d) && NextSlot(d) == Some(running) && running in d.good
    ensures var d' := Apply(d, Flash(Other(running), digest));
            Safe(d') && NextSlot(d') == Some(running) && running in d'.good && d'.digests[Other(running)] == digest
            && Other(running) !in d'.good
  {
  }

  lemma RecordIsSafe(d: Disk, running: Slot, version: string, sha: Word, time: Word)
    requires Safe(d) && NextSlot(d) == Some(running) && running in d.good && Other(running) !in d.good
    requires VersionKeeps(version, Other(running), running)
    ensures var d' := Apply(d, PutPending(PendingText(Other(running), running, version, sha, time)));
            Safe(d') && NextSlot(d') == Some(running) && d'.good == d.good && d'.digests == d.digests
            && d'.pending.Some?
            && PendingOf(d'.pending.value) ==
               Pending(Name(Other(running)), Name(running), sha, NatToString(MAX_ATTEMPTS))
  {
    hide PendingText, PendingOf, NatToString, Attempts, RootOf, VersionKeeps;
    PendingReadsBack(Other(running), running, version, sha, time);
    AttemptsOf(MAX_ATTEMPTS);
    var d' := Apply(d, PutPending(PendingText(Other(running), running, version, sha, time)));
    assert NextSlot(d') == NextSlot(d);
    assert Other(Other(running)) == running;
    assert RecordOk(d');
  }

  lemma AttemptsOf(n: nat)
    ensures Attempts(NatToString(n)) == Some(n)
  {
    hide NatToString;
    DigitsOfNat(n);
  }

  lemma StagedIsSafe(d: Disk, running: Slot, sha: string)
    requires Safe(d) && running in d.good && d.pending.Some? && d.digests[Other(running)] == sha
    requires PendingOf(d.pending.value).target == Name(Other(running)) &&
             PendingOf(d.pending.value).previous == Name(running)
    requires PendingOf(d.pending.value).sha == sha
    ensures Safe(Apply(d, SetNextRoot(Device(Other(running)))))
  {
    hide PendingOf, SetRoot, RootOf, SlotOfDevice;
    NextRoot(d, Other(running));
  }

  /** The writes after the record is in place: the status, then the switch. */
  lemma StagingIsSafe(d: Disk, running: Slot, sha: string, version: string)
    requires Safe(d) && running in d.good && d.pending.Some? && d.digests[Other(running)] == sha
    requires PendingOf(d.pending.value).target == Name(Other(running)) &&
             PendingOf(d.pending.value).previous == Name(running)
    requires PendingOf(d.pending.value).sha == sha
    ensures SafeThroughout(d, [ SetStatus("LAST_RESULT", "install_staged"), SetStatus("CURRENT_SLOT", Name(running)),
                                SetStatus("LAST_FW_VERSION", version), SetNextRoot(Device(Other(running))) ])
  {
    hide Safe, PendingOf, NextSlot;
    var status := [SetStatus("LAST_RESULT", "install_staged"), SetStatus("CURRENT_SLOT", Name(running)),
        SetStatus("LAST_FW_VERSION", version)];
    var switch := SetNextRoot(Device(Other(running)));
    StatusWritesAreSafe(d, status);
    StatusWritesKeep(d, status);
    var d' := ApplyAll(d, status);
    StatusWritesStaySafe(d, status);
    StagedIsSafe(d', running, sha);
    SafeOne(d', switch);
    SafeAppend(d, status, [switch]);
    assert status + [switch] == [ SetStatus("LAST_RESULT", "install_staged"), SetStatus("CURRENT_SLOT", Name(running)),
                                  SetStatus("LAST_FW_VERSION", version), switch ];
  }

  lemma {:induction false} StatusWritesStaySafe(d: Disk, writes: seq<Write>)
    requires Safe(d) && OnlyStatus(writes)
    ensures Safe(ApplyAll(d, writes))
    decreases |writes|
  {
    hide Safe, Apply;
    if writes != [] {
      StatusIsSafe(d, writes[0].key, writes[0].value);
      StatusWritesStaySafe(Apply(d, writes[0]), writes[1..]);
    }
  }

  lemma StageIsSafe(d: Disk, running: Slot, expected: Word, version: string, time: Word)
    requires Safe(d) && NextSlot(d) == Some(running) && running in d.good && Other(running) !in d.good
    requires d.digests[Other(running)] == expected && VersionKeeps(version, Other(running), running)
    ensures SafeThroughout(d, StageWrites(running, expected, version, time))
    ensures Spares(StageWrites(running, expected, version, time), running)
  {
    hide Safe, NextSlot, PendingText, PendingOf, NatToString, VersionKeeps;
    var writes := StageWrites(running, expected, version, time);
    RecordIsSafe(d, running, version, expected, time);
    StagingIsSafe(Apply(d, writes[0]), running, expected, version);
    SafeCons(d, writes[0], writes[1..]);
    assert writes == [writes[0]] + writes[1..];
  }

  /**
    Installing over the idle slot, from a good system that the next boot would run again and with a version
    that keeps to its line: whatever ends up in the slot, whether or not it verifies, and wherever the power
    fails, the next boot is safe.
   */
  lemma InstallIsSafe(d: Disk, running: Slot, partial: Word, written: Word, expected: string, version: string,
      time: Word)
    requires Safe(d) && NextSlot(d) == Some(running) && running in d.good
    requires VersionKeeps(version, Other(running), running)
    ensures SafeThroughout(d, InstallWrites(running, partial, written, expected, version, time))
    ensures Spares(InstallWrites(running, partial, written, expected, version, time), running)
  {
    hide Safe, NextSlot, StageWrites, VersionKeeps;
    var target := Other(running);
    var w1, w2 := Flash(target, partial), Flash(target, written);
    FlashIsSafe(d, running, partial);
    var d1 := Apply(d, w1);
    FlashIsSafe(d1, running, written);
    var d2 := Apply(d1, w2);
    var rest := InstallWrites(running, partial, written, expected, version, time)[2..];
    if written != expected {
      StatusWritesAreSafe(d2, rest);
    } else {
      StageIsSafe(d2, running, expected, version, time);
    }
    SafeCons(d1, w2, rest);
    SafeCons(d, w1, [w2] + rest);
    assert InstallWrites(running, partial, written, expected, version, time) == [w1] + ([w2] + rest);
  }

  lemma CountdownIsSafe(d: Disk, attempts: nat)
    requires Safe(d) && d.pending.Some?
    ensures Safe(Apply(d, PutPending(SetKey(d.pending.value, ATTEMPTS_LEFT, NatToString(attempts)))))
  {
    hide SetKey, PendingOf, NatToString, RootOf;
    CountdownReadsBack(d.pending.value, attempts);
    AttemptsOf(attempts);
  }

  lemma RecordedSlots(d: Disk, running: Slot)
    requires RecordOk(d) && d.pending.Some? && PendingOf(d.pending.value).target == Name(running)
    ensures SlotNamed(PendingOf(d.pending.value).previous) == Some(Other(running)) && Other(running) in d.good
    ensures Attempts(PendingOf(d.pending.value).attempts).Some?
  {
    hide PendingOf, Attempts;
    DevicesAndNames(A);
    DevicesAndNames(B);
  }

  /** The guard at boot, whichever slot came up: counting down, rolling back, or doing nothing. */
  lemma GuardIsSafe(d: Disk, running: Slot, time: Word)
    requires Safe(d)
    ensures SafeThroughout(d, GuardWrites(d, running, time)) && Spares(GuardWrites(d, running, time), running)
  {
    hide Safe, NextSlot, PendingOf, SetKey, NatToString, Attempts, SlotNamed, RollbackTo;
    var writes := GuardWrites(d, running, time);
    if d.pending.Some? && PendingOf(d.pending.value).target == Name(running) {
      assert RecordOk(d) by { SafeRecord(d); }
      RecordedSlots(d, running);
      var attempts := Attempts(PendingOf(d.pending.value).attempts).value;
      if attempts <= 1 {
        var status := writes[..2];
        var rollback := RollbackTo(Other(running), running, time);
        StatusWritesAreSafe(d, status);
        StatusWritesStaySafe(d, status);
        StatusWritesKeep(d, status);
        RollbackIsSafe(ApplyAll(d, status), running, Other(running), time);
        SafeAppend(d, status, rollback);
        RollbackSpares(Other(running), running, time);
        assert writes == status + rollback;
      } else {
        CountdownIsSafe(d, attempts - 1);
        StatusWritesAreSafe(Apply(d, writes[0]), writes[1..]);
        SafeCons(d, writes[0], writes[1..]);
        assert writes == [writes[0]] + writes[1..];
      }
    }
  }

  lemma SafeRecord(d: Disk)
    requires Safe(d)
    ensures RecordOk(d)
  {
  }

  lemma RollbackSpares(target: Slot, running: Slot, time: Word)
    ensures forall w <- RollbackTo(target, running, time) :: !w.Flash?
  {
  }

  lemma ConfirmedIsSafe(d: Disk, running: Slot)
    requires Safe(d) && d.pending.Some? && PendingOf(d.pending.value).target == Name(running)
    ensures Safe(Apply(d, DropPending(Some(running))))
  {
    hide PendingOf;
    DevicesAndNames(A);
    DevicesAndNames(B);
  }

  lemma AcceptIsSafe(d: Disk, running: Slot, version: string, time: Word)
    requires Safe(d) && d.pending.Some? && PendingOf(d.pending.value).target == Name(running)
    ensures SafeThroughout(d, AcceptWrites(running, version, time)) &&
            Spares(AcceptWrites(running, version, time), running)
  {
    hide Safe, NextSlot, PendingOf;
    var writes := AcceptWrites(running, version, time);
    ConfirmedIsSafe(d, running);
    StatusWritesAreSafe(Apply(d, writes[0]), writes[1..]);
    SafeCons(d, writes[0], writes[1..]);
    assert writes == [writes[0]] + writes[1..];
  }

  /** Confirming, in whichever slot: only the record's target is accepted. */
  lemma ConfirmIsSafe(d: Disk, running: Slot, time: Word)
    requires Safe(d)
    ensures SafeThroughout(d, ConfirmWrites(d, running, time)) && Spares(ConfirmWrites(d, running, time), running)
  {
    hide Safe, NextSlot, PendingOf, ReadKey, AcceptWrites;
    var writes := ConfirmWrites(d, running, time);
    if d.pending.None? || PendingOf(d.pending.value).target != Name(running) {
      StatusWritesAreSafe(d, writes);
    } else {
      NameNotEmpty(running);
      StatusIsSafe(d, writes[0].key, writes[0].value);
      AcceptIsSafe(Apply(d, writes[0]), running, ReadKey(d.pending.value, FW_VERSION), time);
      SafeCons(d, writes[0], writes[1..]);
      assert writes == [writes[0]] + writes[1..];
    }
  }

  lemma NameNotEmpty(s: Slot)
    ensures Name(s) != ""
  {
  }

  // ----------------------------------------------------------------- machine

  /** A running system: the disk, the slot it booted, and what the script at work has still to write. */
  datatype Machine = Machine(disk: Disk, running: Slot, todo: seq<Write>)

  datatype Event =
    | Do
    | PowerCut(time: Word)
    | Install(partial: Word, written: Word, expected: string, version: string, time: Word)
    | Refuse
    | Confirm(time: Word)
    | Rollback(requested: Option<Slot>, time: Word)

  /**
    What may happen.  Power may fail (or a script reboot) at any time; scripts run one at a time.  An
    install starts only in a good slot that is also the next one to boot and with a version that keeps to
    its line, and a manual rollback goes only to a good slot.
   */
  ghost predicate Enabled(m: Machine, e: Event) {
    match e
    case Do => m.todo != []
    case PowerCut(_) => NextSlot(m.disk).Some?
    case Install(_, _, _, version, _) =>
      m.todo == [] && NextSlot(m.disk) == Some(m.running) && m.running in m.disk.good
      && VersionKeeps(version, Other(m.running), m.running)
    case Refuse => m.todo == []
    case Confirm(_) => m.todo == []
    case Rollback(requested, _) =>
      var target := RollbackTarget(m.disk, m.running, requested);
      m.todo == [] && (target.Some? ==> target.value in m.disk.good)
  }

  ghost function Step(m: Machine, e: Event): Machine
    requires Enabled(m, e)
  {
    match e
    case Do => Machine(Apply(m.disk, m.todo[0]), m.running, m.todo[1..])
    case PowerCut(time) =>
      var booted := NextSlot(m.disk).value;
      Machine(m.disk, booted, GuardWrites(m.disk, booted, time))
    case Install(partial, written, expected, version, time) =>
      m.(todo := InstallWrites(m.running, partial, written, expected, version, time))
    case Refuse => m.(todo := RefusedWrites())
    case Confirm(time) => m.(todo := ConfirmWrites(m.disk, m.running, time))
    case Rollback(requested, time) => m.(todo := RollbackWrites(m.disk, m.running, requested, time))
  }

  ghost predicate Possible(m: Machine, events: seq<Event>)
    decreases |events|
  {
    events != [] ==> Enabled(m, events[0]) && Possible(Step(m, events[0]), events[1..])
  }

  ghost function Run(m: Machine, events: seq<Event>): Machine
    requires Possible(m, events)
    decreases |events|
  {
    if events == [] then m else Run(Step(m, events[0]), events[1..])
  }

  ghost predicate Inv(m: Machine) {
    SafeThroughout(m.disk, m.todo) && Spares(m.todo, m.running)
  }

  lemma StartIsSafe(m: Machine, e: Event)
    requires Safe(m.disk) && Enabled(m, e) && !e.Do?
    ensures Inv(Step(m, e))
  {
    hide Safe, GuardWrites, InstallWrites, ConfirmWrites, RollbackTo, RollbackTarget, NextSlot, SafeThroughout;
    hide VersionKeeps;
    match e
    case PowerCut(time) => GuardIsSafe(m.disk, NextSlot(m.disk).value, time);
    case Install(partial, written, expected, version, time) =>
      InstallIsSafe(m.disk, m.running, partial, written, expected, version, time);
    case Refuse => StatusWritesAreSafe(m.disk, RefusedWrites());
    case Confirm(time) => ConfirmIsSafe(m.disk, m.running, time);
    case Rollback(requested, time) =>
      var target := RollbackTarget(m.disk, m.running, requested);
      if target.Some? {
        RollbackIsSafe(m.disk, m.running, target.value, time);
        RollbackSpares(target.value, m.running, time);
      } else {
        StatusWritesAreSafe(m.disk, []);
      }
  }

  lemma StepKeepsInv(m: Machine, e: Event)
    requires Inv(m) && Enabled(m, e)
    ensures Inv(Step(m, e))
  {
    hide Safe, Apply, NextSlot, GuardWrites, InstallWrites, ConfirmWrites, RollbackWrites, SparesNext;
    if !e.Do? {
      StartIsSafe(m, e);
    }
  }

  /**
    In every run, with a power cut allowed between any two writes, the next boot is safe at every moment,
    and no write touches the slot that runs or the slot that boots next.
   */
  lemma {:induction false} EveryRunIsSafe(m: Machine, events: seq<Event>)
    requires Safe(m.disk) && m.todo == [] && Possible(m, events)
    ensures var m' := Run(m, events);
            && Safe(m'.disk)
            && (m'.todo != [] && m'.todo[0].Flash? ==>
                  m'.todo[0].slot != m'.running && NextSlot(m'.disk) != Some(m'.todo[0].slot))
  {
    hide Safe, NextSlot, Run, Possible;
    assert Inv(m) by { assert SafeThroughout(m.disk, []); }
    RunKeepsInv(m, events);
  }

  lemma {:induction false} RunKeepsInv(m: Machine, events: seq<Event>)
    requires Inv(m) && Possible(m, events)
    ensures Inv(Run(m, events))
    decreases |events|
  {
    hide Inv, Enabled, Step;
    if events != [] {
      StepKeepsInv(m, events[0]);
      RunKeepsInv(Step(m, events[0]), events[1..]);
    }
  }

  /** A freshly flashed board: slot A good and named by the root argument, and no record. */
  function FactoryDisk(before: seq<string>, after: seq<string>, a: Word, b: Word): Disk {
    Disk(before + ["root=" + Device(A)] + after, None, "", map[A := a, B := b], {A})
  }

  predicate NoRoot(arguments: seq<string>) {
    forall i | 0 <= i < |arguments| :: !StartsWith(arguments[i], "root=")
  }

  lemma RootAmid(before: seq<string>, device: string, after: seq<string>)
    requires before != [] && NoRoot(before) && NoRoot(after)
    ensures var line := before + ["root=" + device] + after;
            AtMostOneRoot(line) && RootOf(line) == Some(device)
  {
    var root := "root=" + device;
    var line := before + [root] + after;
    assert root[5..] == device && root[..5] == "root=";
    assert forall i | 0 <= i < |before| :: line[i] == before[i];
    forall i | |before| < i < |line| ensures !IsRoot(line, i) {
      assert line[i] == after[i - |before| - 1];
    }
    LastRootIs(line, |before|);
  }

  lemma FactoryDiskIsSafe(before: seq<string>, after: seq<string>, a: Word, b: Word)
    requires before != [] && NoRoot(before) && NoRoot(after)
    ensures Safe(FactoryDisk(before, after, a, b)) && NextSlot(FactoryDisk(before, after, a, b)) == Some(A)
  {
    hide RootOf;
    RootAmid(before, Device(A), after);
    DevicesAndNames(A);
  }

  /** The arguments of the command line that the board is shipped with, around its root argument. */
  const SHIPPED_BEFORE: seq<string> := ["console=serial0,115200"]
  const SHIPPED_AFTER: seq<string> := ["rootfstype=ext4", "rootwait"]

  lemma ShippedDiskIsSafe(a: Word, b: Word)
    ensures NoRoot(SHIPPED_BEFORE) && NoRoot(SHIPPED_AFTER)
    ensures FactoryDisk(SHIPPED_BEFORE, SHIPPED_AFTER, a, b).cmdline
         == ["console=serial0,115200", "root=/dev/mmcblk0p2", "rootfstype=ext4", "rootwait"]
    ensures Safe(FactoryDisk(SHIPPED_BEFORE, SHIPPED_AFTER, a, b))
    ensures NextSlot(FactoryDisk(SHIPPED_BEFORE, SHIPPED_AFTER, a, b)) == Some(A)
  {
    hide Safe, NextSlot;
    assert "root="[0] == 'r' && "root="[4] == '=';
    assert "console=serial0,115200"[0] == 'c' && "rootfstype=ext4"[4] == 'f' && "rootwait"[4] == 'w';
    NotRootBy("console=serial0,115200", 0);
    NotRootBy("rootfstype=ext4", 4);
    NotRootBy("rootwait", 4);
    assert "root=" + Device(A) == "root=/dev/mmcblk0p2";
    FactoryDiskIsSafe(SHIPPED_BEFORE, SHIPPED_AFTER, a, b);
  }

  lemma NotRootBy(argument: string, i: nat)
    requires i < 5 && i < |argument| && argument[i] != "root="[i]
    ensures !StartsWith(argument, "root=")
  {
    assert |argument| >= 5 ==> argument[..5][i] == argument[i];
  }

  // ------------------------------------------- when a script may be started

  ghost predicate AnyInstallIsSafe(d: Disk, running: Slot, version: string) {
    forall partial: Word, written: Word, expected: string, time: Word ::
      SafeThroughout(d, InstallWrites(running, partial, written, expected, version, time))
  }

  lemma OverwritingIsUnsafe(d: Disk, running: Slot, partial: Word)
    requires Safe(d) && !(NextSlot(d) == Some(running) && running in d.good)
    requires d.pending.Some? ==> partial != PendingOf(d.pending.value).sha
    ensures !Safe(Apply(d, Flash(Other(running), partial)))
  {
    hide PendingOf, RootOf;
    var d' := Apply(d, Flash(Other(running), partial));
    assert NextSlot(d') == NextSlot(d);
  }

  lemma BadRecordIsUnsafe(d: Disk, running: Slot, version: string, sha: Word, time: Word)
    requires running in d.good && Other(running) !in d.good && !VersionKeeps(version, Other(running), running)
    ensures !Safe(Apply(d, PutPending(PendingText(Other(running), running, version, sha, time))))
  {
    hide PendingText, PendingOf, NatToString, Attempts, RootOf, VersionKeeps, AtMostOneRoot, NextSlot;
    var d' := Apply(d, PutPending(PendingText(Other(running), running, version, sha, time)));
    PendingReadsBack(Other(running), running, version, sha, time);
    DevicesAndNames(A);
    DevicesAndNames(B);
    assert !RecordOk(d');
  }

  /** A verified image under a version that does not keep to its line: the record is the unsafe write. */
  lemma BadVersionIsUnsafe(d: Disk, running: Slot, version: string, image: Word, time: Word)
    requires running in d.good && !VersionKeeps(version, Other(running), running)
    ensures !SafeThroughout(d, InstallWrites(running, image, image, image, version, time))
  {
    hide Safe, Apply, SafeThroughout, VersionKeeps, PendingText;
    var writes := InstallWrites(running, image, image, image, version, time);
    var d1 := Apply(d, writes[0]);
    var d2 := Apply(d1, writes[1]);
    assert running in d2.good && Other(running) !in d2.good by { TwoFlashes(d, running, image); }
    BadRecordIsUnsafe(d2, running, version, image, time);
    assert writes[2] == PutPending(PendingText(Other(running), running, version, image, time));
    if SafeThroughout(d, writes) {
      SafePrefix(d, writes, 3);
      ThreeWrites(d, writes);
    }
  }

  lemma TwoFlashes(d: Disk, running: Slot, image: Word)
    ensures var d2 := Apply(Apply(d, Flash(Other(running), image)), Flash(Other(running), image));
            d2.good == d.good - {Other(running)}
  {
  }

  lemma ThreeWrites(d: Disk, writes: seq<Write>)
    requires |writes| >= 3
    ensures ApplyAll(d, writes[..3]) == Apply(Apply(Apply(d, writes[0]), writes[1]), writes[2])
  {
    hide Apply;
    assert writes[..3] == [writes[0]] + ([writes[1]] + ([writes[2]] + []));
    ApplyCons(d, writes[0], [writes[1]] + ([writes[2]] + []));
    ApplyCons(Apply(d, writes[0]), writes[1], [writes[2]] + []);
    ApplyCons(Apply(Apply(d, writes[0]), writes[1]), writes[2], []);
  }

  lemma {:induction false} SafePrefix(d: Disk, writes: seq<Write>, n: nat)
    requires SafeThroughout(d, writes) && n <= |writes|
    ensures Safe(ApplyAll(d, writes[..n]))
    decreases n
  {
    hide Safe, Apply, SparesNext;
    if n > 0 {
      assert writes[..n][1..] == writes[1..][..n - 1];
      SafePrefix(Apply(d, writes[0]), writes[1..], n - 1);
    }
  }

  lemma ShaIsAWord(content: string)
    ensures LfFree(PendingOf(content).sha)
  {
    ReadKeyIsLfFree(content, SHA256);
  }

  /**
    The scripts check none of it, but an install keeps the machine safe exactly when the running slot is
    good and the next one to boot, and no line of the version assigns the record another slot.  A second
    install over a staged one, or one in an unconfirmed slot, can leave nothing to boot.
   */
  lemma InstallSafetyCondition(d: Disk, running: Slot, version: string)
    requires Safe(d)
    ensures AnyInstallIsSafe(d, running, version) <==>
            NextSlot(d) == Some(running) && running in d.good && VersionKeeps(version, Other(running), running)
  {
    hide Safe, NextSlot, PendingOf, InstallWrites, VersionKeeps, SafeThroughout;
    if NextSlot(d) != Some(running) || running !in d.good {
      var sha: Word := "";
      if d.pending.Some? {
        ShaIsAWord(d.pending.value);
        sha := PendingOf(d.pending.value).sha;
      }
      var partial: Word := sha + "x";
      OverwritingIsUnsafe(d, running, partial);
      var writes := InstallWrites(running, partial, "", "x", version, "");
      FirstInstallWrite(running, partial, "", "x", version, "");
      assert !SafeThroughout(d, writes) by { UnsafeAfterFirst(d, writes); }
    } else if !VersionKeeps(version, Other(running), running) {
      BadVersionIsUnsafe(d, running, version, "", "");
    } else {
      forall partial: Word, written: Word, expected: string, time: Word
        ensures SafeThroughout(d, InstallWrites(running, partial, written, expected, version, time))
      {
        InstallIsSafe(d, running, partial, written, expected, version, time);
      }
    }
  }

  lemma FirstInstallWrite(running: Slot, partial: Word, written: Word, expected: string, version: string,
      time: Word)
    ensures var w := InstallWrites(running, partial, written, expected, version, time);
            |w| > 0 && w[0] == Flash(Other(running), partial)
  {
  }

  lemma UnsafeAfterFirst(d: Disk, writes: seq<Write>)
    requires writes != [] && !Safe(Apply(d, writes[0]))
    ensures !SafeThroughout(d, writes)
  {
    hide Safe, Apply;
    if SafeThroughout(d, writes) {
      SafeSecond(d, writes);
    }
  }

  lemma SafeSecond(d: Disk, writes: seq<Write>)
    requires writes != [] && SafeThroughout(d, writes)
    ensures Safe(Apply(d, writes[0]))
  {
    hide Safe, Apply;
    assert SafeThroughout(Apply(d, writes[0]), writes[1..]);
  }

  /** A manual rollback keeps the machine safe exactly when it goes to a good slot. */
  lemma RollbackSafetyCondition(d: Disk, running: Slot, target: Slot, time: Word)
    requires Safe(d)
    ensures SafeThroughout(d, RollbackTo(target, running, time)) <==> target in d.good
  {
    if target in d.good {
      RollbackIsSafe(d, running, target, time);
    } else {
      var writes := RollbackTo(target, running, time);
      var d1 := Apply(d, writes[0]);
      NextRoot(d, target);
      assert !Safe(Apply(d1, DropPending(None)));
      UnsafeSecond(d, writes);
    }
  }

  lemma UnsafeSecond(d: Disk, writes: seq<Write>)
    requires |writes| >= 2 && !Safe(Apply(Apply(d, writes[0]), writes[1]))
    ensures !SafeThroughout(d, writes)
  {
    hide Safe, Apply;
    assert SafeThroughout(d, writes) ==> SafeThroughout(Apply(d, writes[0]), writes[1..]);
    UnsafeAfterFirst(Apply(d, writes[0]), writes[1..]);
  }

  lemma ApplyCons(d: Disk, w: Write, rest: seq<Write>)
    ensures ApplyAll(d, [w] + rest) == ApplyAll(Apply(d, w), rest)
  {
    assert ([w] + rest)[1..] == rest;
  }

  lemma StageEnds(d: Disk, running: Slot, expected: Word, version: string, time: Word)
    requires d.cmdline != [] && AtMostOneRoot(d.cmdline)
    ensures var d' := ApplyAll(d, StageWrites(running, expected, version, time));
            NextSlot(d') == Some(Other(running)) && d'.good == d.good && d'.cmdline != [] && AtMostOneRoot(d'.cmdline)
            && d'.pending == Some(PendingText(Other(running), running, version, expected, time))
            && d'.digests == d.digests
  {
    hide PendingText, SetRoot, RootOf, SetKey;
    var writes := StageWrites(running, expected, version, time);
    var status, switch := writes[1..4], SetNextRoot(Device(Other(running)));
    var d1 := Apply(d, writes[0]);
    var d2 := ApplyAll(d1, status);
    assert writes == [writes[0]] + (status + [switch]);
    ApplyCons(d, writes[0], status + [switch]);
    ApplyAppend(d1, status, [switch]);
    StatusWritesKeep(d1, status);
    NextRoot(d2, Other(running));
    assert [switch] + [] == [switch];
    ApplyCons(d2, switch, []);
  }

  /** An install of a verified image ends with the other slot next, and not yet good. */
  lemma InstallEnds(d: Disk, running: Slot, partial: Word, image: Word, version: string, time: Word)
    requires d.cmdline != [] && AtMostOneRoot(d.cmdline)
    ensures var d' := ApplyAll(d, InstallWrites(running, partial, image, image, version, time));
            NextSlot(d') == Some(Other(running)) && d'.good == d.good - {Other(running)}
            && d'.cmdline != [] && AtMostOneRoot(d'.cmdline)
            && d'.pending == Some(PendingText(Other(running), running, version, image, time))
            && d'.digests == d.digests[Other(running) := image]
  {
    hide StageWrites, NextSlot, AtMostOneRoot, PendingText;
    var target := Other(running);
    var w1, w2, stage := Flash(target, partial), Flash(target, image), StageWrites(running, image, version, time);
    assert InstallWrites(running, partial, image, image, version, time) == [w1] + ([w2] + stage);
    ApplyCons(d, w1, [w2] + stage);
    ApplyCons(Apply(d, w1), w2, stage);
    StageEnds(Apply(Apply(d, w1), w2), running, image, version, time);
  }

  function Dos(n: nat): seq<Event> {
    if n == 0 then [] else [Do] + Dos(n - 1)
  }

  /** A script that is not interrupted makes all its writes. */
  lemma {:induction false} UninterruptedRun(m: Machine)
    ensures Possible(m, Dos(|m.todo|))
    ensures Run(m, Dos(|m.todo|)) == Machine(ApplyAll(m.disk, m.todo), m.running, [])
    decreases |m.todo|
  {
    hide Apply;
    if m.todo != [] {
      assert ([Do] + Dos(|m.todo| - 1))[1..] == Dos(|m.todo| - 1);
      UninterruptedRun(Step(m, Do));
    }
  }

  /**
    The failing side of both conditions is reachable: after one install on a shipped board, not yet
    rebooted, neither a second install nor a rollback to the staged slot is crash safe.
   */
  lemma StagedBoardIsFragile(a: Word, b: Word, image: Word) returns (m: Machine, events: seq<Event>)
    ensures m == Machine(FactoryDisk(SHIPPED_BEFORE, SHIPPED_AFTER, a, b), A, [])
    ensures Possible(m, events)
    ensures var m' := Run(m, events);
            && Safe(m'.disk) && m'.running == A && m'.todo == []
            && NextSlot(m'.disk) == Some(B) && B !in m'.disk.good
            && (forall version :: !AnyInstallIsSafe(m'.disk, A, version))
            && forall time :: !SafeThroughout(m'.disk, RollbackTo(B, A, time))
  {
    hide Safe, NextSlot, InstallWrites, Apply, ApplyAll, RollbackTo, SafeThroughout, AtMostOneRoot, AnyInstallIsSafe;
    hide VersionKeeps;
    ShippedDiskIsSafe(a, b);
    m := Machine(FactoryDisk(SHIPPED_BEFORE, SHIPPED_AFTER, a, b), A, []);
    var install := Install("", image, image, "1", "");
    OneLineVersionKeeps("1", B, A);
    var started := Step(m, install);
    events := [install] + Dos(|started.todo|);
    assert events[1..] == Dos(|started.todo|);
    UninterruptedRun(started);
    EveryRunIsSafe(m, events);
    SafeHasOneRoot(m.disk);
    InstallEnds(m.disk, A, "", image, "1", "");
    var m' := Run(m, events);
    forall version ensures !AnyInstallIsSafe(m'.disk, A, version) {
      InstallSafetyCondition(m'.disk, A, version);
    }
    forall time ensures !SafeThroughout(m'.disk, RollbackTo(B, A, time)) {
      RollbackSafetyCondition(m'.disk, A, B, time);
    }
  }

  lemma SafeHasOneRoot(d: Disk)
    requires Safe(d)
    ensures d.cmdline != [] && AtMostOneRoot(d.cmdline)
  {
  }

  // --------------------------------------------------------------- countdown

  /** A record for this slot, with a slot to go back to and so many attempts left. */
  ghost predicate Unconfirmed(d: Disk, running: Slot, previous: Slot, attempts: nat) {
    && d.pending.Some?
    && PendingOf(d.pending.value).target == Name(running)
    && PendingOf(d.pending.value).previous == Name(previous)
    && Attempts(PendingOf(d.pending.value).attempts) == Some(attempts)
  }

  /** The disk after that many boots of the slot, each with a guard that ran to its end. */
  function AfterGuards(d: Disk, running: Slot, times: seq<Word>): Disk
    decreases |times|
  {
    if times == [] then d
    else
      var before := AfterGuards(d, running, times[..|times| - 1]);
      ApplyAll(before, GuardWrites(before, running, times[|times| - 1]))
  }

  lemma GuardCountsDown(d: Disk, running: Slot, previous: Slot, attempts: nat, time: Word)
    requires Unconfirmed(d, running, previous, attempts) && attempts >= 2
    ensures var d' := ApplyAll(d, GuardWrites(d, running, time));
            && Unconfirmed(d', running, previous, attempts - 1)
            && d'.cmdline == d.cmdline && d'.good == d.good && d'.digests == d.digests
  {
    hide PendingOf, SetKey, NatToString, Attempts;
    var writes := GuardWrites(d, running, time);
    var d1 := Apply(d, writes[0]);
    CountdownReadsBack(d.pending.value, attempts - 1);
    AttemptsOf(attempts - 1);
    StatusWritesKeep(d1, writes[1..]);
    assert ApplyAll(d, writes) == ApplyAll(d1, writes[1..]);
  }

  lemma GuardRollsBack(d: Disk, running: Slot, previous: Slot, attempts: nat, time: Word)
    requires Unconfirmed(d, running, previous, attempts) && attempts <= 1
    requires d.cmdline != [] && AtMostOneRoot(d.cmdline)
    ensures var d' := ApplyAll(d, GuardWrites(d, running, time));
            NextSlot(d') == Some(previous) && d'.pending == None && d'.good == d.good && d'.digests == d.digests
  {
    hide PendingOf, NextSlot, RollbackTo, Attempts, SlotNamed, AtMostOneRoot;
    DevicesAndNames(previous);
    var writes := GuardWrites(d, running, time);
    var status := writes[..2];
    var rollback := RollbackTo(previous, running, time);
    assert writes == status + rollback;
    StatusWritesKeep(d, status);
    ApplyAppend(d, status, rollback);
    RollbackEnds(ApplyAll(d, status), running, previous, time);
  }

  lemma RollbackEnds(d: Disk, running: Slot, target: Slot, time: Word)
    requires d.cmdline != [] && AtMostOneRoot(d.cmdline)
    ensures var d' := ApplyAll(d, RollbackTo(target, running, time));
            && NextSlot(d') == Some(target) && AtMostOneRoot(d'.cmdline) && d'.cmdline != []
            && d'.pending == None && d'.good == d.good && d'.digests == d.digests
  {
    hide SetRoot, RootOf, SetKey, AtMostOneRoot;
    var writes := RollbackTo(target, running, time);
    var d1 := Apply(d, writes[0]);
    NextRoot(d, target);
    assert writes == [writes[0]] + ([writes[1]] + writes[2..]);
    ApplyCons(d, writes[0], [writes[1]] + writes[2..]);
    ApplyCons(d1, writes[1], writes[2..]);
    StatusWritesKeep(Apply(d1, writes[1]), writes[2..]);
  }

  lemma SafeAfterAll(d: Disk, writes: seq<Write>)
    requires SafeThroughout(d, writes)
    ensures Safe(ApplyAll(d, writes))
  {
    SafePrefix(d, writes, |writes|);
    assert writes[..|writes|] == writes;
  }

  /**
    An update that is never confirmed: with N attempts left, each of the next N - 1 boots only counts
    down, and the guard of the N-th boot makes the recorded slot the next root and drops the record.
   */
  lemma {:induction false} CountdownEnds(d: Disk, running: Slot, previous: Slot, attempts: nat, times: seq<Word>)
    requires Unconfirmed(d, running, previous, attempts) && 1 <= |times| <= attempts
    requires d.cmdline != [] && AtMostOneRoot(d.cmdline)
    ensures var d' := AfterGuards(d, running, times);
            && d'.good == d.good && d'.digests == d.digests
            && (|times| < attempts ==>
                  Unconfirmed(d', running, previous, attempts - |times|) && d'.cmdline == d.cmdline)
            && (|times| == attempts ==> NextSlot(d') == Some(previous) && d'.pending == None)
    decreases |times|
  {
    hide NextSlot, Unconfirmed, GuardWrites, AtMostOneRoot;
    var n := |times| - 1;
    var before := AfterGuards(d, running, times[..n]);
    if n > 0 {
      CountdownEnds(d, running, previous, attempts, times[..n]);
    } else {
      assert times[..n] == [];
    }
    if attempts - n >= 2 {
      GuardCountsDown(before, running, previous, attempts - n, times[n]);
    } else {
      GuardRollsBack(before, running, previous, attempts - n, times[n]);
    }
  }

  lemma {:induction false} GuardsAreSafe(d: Disk, running: Slot, times: seq<Word>)
    requires Safe(d)
    ensures Safe(AfterGuards(d, running, times))
    decreases |times|
  {
    hide Safe, GuardWrites;
    if times != [] {
      var n := |times| - 1;
      var before := AfterGuards(d, running, times[..n]);
      GuardsAreSafe(d, running, times[..n]);
      GuardIsSafe(before, running, times[n]);
      SafeAfterAll(before, GuardWrites(before, running, times[n]));
    }
  }

  /** On a safe disk the slot that an unconfirmed update goes back to is the other one, and it is good. */
  lemma UnconfirmedUpdateRollsBack(d: Disk, running: Slot, previous: Slot, attempts: nat, times: seq<Word>)
    requires Safe(d) && Unconfirmed(d, running, previous, attempts) && 1 <= |times| <= attempts
    ensures previous == Other(running)
    ensures var d' := AfterGuards(d, running, times);
            && Safe(d')
            && (|times| < attempts ==>
                  Unconfirmed(d', running, previous, attempts - |times|) && d'.cmdline == d.cmdline)
            && (|times| == attempts ==> NextSlot(d') == Some(previous) && d'.pending == None && previous in d'.good)
            && d'.digests == d.digests
  {
    hide Safe, NextSlot, AfterGuards, RecordOk, PendingOf, AtMostOneRoot;
    SafeHasOneRoot(d);
    SafeRecord(d);
    RecordedSlots(d, running);
    DevicesAndNames(previous);
    CountdownEnds(d, running, previous, attempts, times);
    GuardsAreSafe(d, running, times);
  }

  // A version with a line feed, as the arguments of ota-install allow it.
  const BAD_VERSION := "1" + "\n" + (PREVIOUS_SLOT + "=" + "B")

  lemma BadVersionLines()
    ensures ExtraLines(BAD_VERSION) == [PREVIOUS_SLOT + "=" + "B"]
  {
    hide Lines;
    var line := PREVIOUS_SLOT + "=" + "B";
    PlainNames();
    assert LfFree(line) by { assert LfFree("=") && LfFree("B"); }
    assert BAD_VERSION + "\n" == "1" + "\n" + (line + "\n");
    FirstLine("1", line + "\n");
    assert line + "\n" + "" == line + "\n";
    FirstLine(line, "");
    NoLines();
  }

  lemma NoLines()
    ensures Lines("") == []
  {
  }

  lemma BadVersionReads(key: string)
    requires PlainName(key)
    ensures AssignsAny(ExtraLines(BAD_VERSION), key) <==> key == PREVIOUS_SLOT
    ensures ReadEnv(ExtraLines(BAD_VERSION), PREVIOUS_SLOT) == "B"
  {
    hide ExtraLines, ReadEnv;
    PlainNames();
    BadVersionLines();
    var line := PREVIOUS_SLOT + "=" + "B";
    AssignmentAssigns(PREVIOUS_SLOT, "B", key);
    AssignmentAssigns(PREVIOUS_SLOT, "B", PREVIOUS_SLOT);
    assert [line][..0] == [] && !AssignsAny([], key);
    assert [] + [line] == [line];
    ReadEnvSnoc([], line, PREVIOUS_SLOT);
  }

  lemma BadVersionRecord(sha: Word, time: Word)
    ensures var p := PendingOf(PendingText(B, A, BAD_VERSION, sha, time));
            p.target == Name(B) && p.previous == Name(B) && p.attempts == NatToString(MAX_ATTEMPTS)
    ensures !VersionKeeps(BAD_VERSION, B, A)
  {
    hide ReadKey, ReadEnv, NatToString, PendingText, PendingHead, AssignsAny, ExtraLines, ValueLines, PlainName;
    PlainNames();
    DistinctNames();
    PendingReadsBack(B, A, BAD_VERSION, sha, time);
    PendingField(B, A, BAD_VERSION, sha, time, TARGET_SLOT);
    PendingField(B, A, BAD_VERSION, sha, time, PREVIOUS_SLOT);
    HeadField(B, A, TARGET_SLOT);
    BadVersionReads(TARGET_SLOT);
    BadVersionReads(PREVIOUS_SLOT);
    DevicesAndNames(A);
  }

  /**
    The failing side of the version's condition: an install on the shipped board under this version.  After
    three boots that never confirmed it, the guard "goes back" to the new slot itself and drops the record,
    so the slot that was never good boots from then on.
   */
  lemma BadVersionIsKept(a: Word, b: Word, image: Word, time: Word, times: seq<Word>)
    requires |times| == MAX_ATTEMPTS
    ensures var shipped := FactoryDisk(SHIPPED_BEFORE, SHIPPED_AFTER, a, b);
            var staged := ApplyAll(shipped, InstallWrites(A, "", image, image, BAD_VERSION, time));
            var d := AfterGuards(staged, B, times);
            && !VersionKeeps(BAD_VERSION, B, A)
            && Safe(shipped) && NextSlot(staged) == Some(B)
            && NextSlot(d) == Some(B) && B !in d.good && d.pending == None
  {
    hide Safe, NextSlot, InstallWrites, AtMostOneRoot, PendingText, PendingOf, NatToString, AfterGuards, VersionKeeps;
    hide Attempts;
    var shipped := FactoryDisk(SHIPPED_BEFORE, SHIPPED_AFTER, a, b);
    ShippedDiskIsSafe(a, b);
    SafeHasOneRoot(shipped);
    InstallEnds(shipped, A, "", image, BAD_VERSION, time);
    var staged := ApplyAll(shipped, InstallWrites(A, "", image, image, BAD_VERSION, time));
    BadVersionRecord(image, time);
    AttemptsOf(MAX_ATTEMPTS);
    assert Unconfirmed(staged, B, B, MAX_ATTEMPTS);
    CountdownEnds(staged, B, B, MAX_ATTEMPTS, times);
  }

  /** Boots that may still pass the guard of this record without being confirmed. */
  ghost function PassesLeft(d: Disk): nat {
    if d.pending.None? then 0
    else
      var attempts := Attempts(PendingOf(d.pending.value).attempts);
      if attempts.Some? && attempts.value >= 1 then attempts.value - 1 else 0
  }

  /** What is left of a guard: a countdown of the record at hand and status, or no countdown at all. */
  ghost predicate GuardAtWork(m: Machine) {
    && (forall i | 0 <= i < |m.todo| && m.todo[i].PutPending? :: i == 0)
    && (m.todo != [] && m.todo[0].PutPending? ==>
          m.disk.pending.Some? && PassesLeft(m.disk) >= 1
          && m.todo[0].content == SetKey(m.disk.pending.value, ATTEMPTS_LEFT, NatToString(PassesLeft(m.disk))))
  }

  lemma CountdownTakesOnePass(content: string, d: Disk, passes: nat)
    requires passes >= 1
    ensures PassesLeft(d.(pending := Some(SetKey(content, ATTEMPTS_LEFT, NatToString(passes))))) == passes - 1
  {
    hide SetKey, PendingOf, NatToString, Attempts;
    CountdownReadsBack(content, passes);
    AttemptsOf(passes);
  }

  /** The boots that passed the guard: those whose countdown was written. */
  ghost function Passes(m: Machine, events: seq<Event>): nat
    requires Possible(m, events)
    decreases |events|
  {
    if events == [] then 0
    else
      (if events[0].Do? && m.todo[0].PutPending? then 1 else 0) + Passes(Step(m, events[0]), events[1..])
  }

  ghost predicate OnlyBoots(events: seq<Event>) {
    forall i | 0 <= i < |events| :: events[i].Do? || events[i].PowerCut?
  }

  lemma GuardStarts(d: Disk, running: Slot, time: Word)
    ensures GuardAtWork(Machine(d, running, GuardWrites(d, running, time)))
  {
    hide PendingOf, SetKey, NatToString, Attempts;
  }

  lemma BootStep(m: Machine, e: Event)
    requires GuardAtWork(m) && Enabled(m, e) && (e.Do? || e.PowerCut?)
    ensures GuardAtWork(Step(m, e))
    ensures var passed := if e.Do? && m.todo[0].PutPending? then 1 else 0;
            passed + PassesLeft(Step(m, e).disk) <= PassesLeft(m.disk)
  {
    hide SetKey, NatToString, GuardWrites, Attempts, PendingOf;
    if e.PowerCut? {
      GuardStarts(m.disk, NextSlot(m.disk).value, e.time);
    } else if m.todo[0].PutPending? {
      CountdownTakesOnePass(m.disk.pending.value, m.disk, PassesLeft(m.disk));
    }
  }

  /** Power cuts inside the guard do not buy an unconfirmed update more boots than its record allows. */
  lemma {:induction false} PassesAreBounded(m: Machine, events: seq<Event>)
    requires GuardAtWork(m) && OnlyBoots(events) && Possible(m, events)
    ensures Passes(m, events) + PassesLeft(Run(m, events).disk) <= PassesLeft(m.disk)
    decreases |events|
  {
    hide GuardAtWork, PassesLeft, Step, Enabled;
    if events != [] {
      BootStep(m, events[0]);
      PassesAreBounded(Step(m, events[0]), events[1..]);
    }
  }
}
