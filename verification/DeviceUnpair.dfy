/** Interrupted revocation on the device: `begin_identity_unpair`, `recover_identity_intent` and
    `finish_identity_unpair` over the two-slot store. */
module DeviceUnpair {
  import opened Common
  import opened Bytes
  import opened RecordCodec
  import opened FlashStore

  const PEER_AT: nat := 64
  const PEER_END: nat := 96

  predicate ExactPeer(r: Record, peer: seq<Byte>) {
    r.state.Identity? && |r.payload| >= PEER_END && r.payload[PEER_AT..PEER_END] == peer
  }

  datatype Recovery = NothingPending | RolledForward | Completed | Refused(status: Status)

  /** The target record is the final Unpaired record of an interrupted unpair of exactly this peer. */
  predicate IsCompletion(target: Record, previous: Option<seq<Byte>>, peer: seq<Byte>) {
    && target.state == Identity(Unpaired)
    && |target.payload| == 64
    && previous.Some? && Decode(previous.value).Ok?
    && var p := Decode(previous.value).value;
       p.generation == target.generation && p.state == Identity(Revoking) && ExactPeer(p, peer)
  }

  /** `recover_identity_intent`. */
  function Recover(s: Slots, peer: seq<Byte>, rf: ReadFaults, delete: Outcome): (Slots, Recovery) {
    var intent := ReadSlot(s.intent, 8, rf.intent);
    if intent.Failed? then (s, Refused(StoreFailed))
    else if intent.value.None? then (s, NothingPending)
    else if |intent.value.value| != 8 then (s, Refused(StoreFailed))
    else
      var sequence := FromBigEndian(intent.value.value);
      var first := ReadSlot(s.a, NVS_RECORD_MAX, rf.a);
      var second := ReadSlot(s.b, NVS_RECORD_MAX, rf.b);
      if first.Failed? || second.Failed? then (s, Refused(StoreFailed))
      else
        var read := Slots(first.value, second.value, s.intent);
        var target := SlotOf(read, sequence);
        var previous := SlotOf(read, sequence + 1);
        if target.None? || Decode(target.value).Err? then (s, Refused(StoreFailed))
        else
          var record := Decode(target.value).value;
          if record.sequence != sequence then (s, Refused(StoreFailed))
          else if !IsCompletion(record, previous, peer) && !ExactPeer(record, peer) then (s, Refused(PeerMismatch))
          else
            var cleared := s.(intent := Deleted(s.intent, delete));
            if !delete.Done? then (cleared, Refused(StoreFailed))
            else if IsCompletion(record, previous, peer) then (cleared, Completed)
            else (cleared, RolledForward)
  }

  datatype Revocation = Revocation(sequence: nat, generation: nat, local: seq<Byte>)

  datatype Begun = Begun(revocation: Revocation) | Stopped(status: Status)

  datatype AttemptFaults = AttemptFaults(
    recoveryReads: ReadFaults, recoveryDelete: Outcome, canonicalReads: ReadFaults,
    revoking: Faults, resetBetween: bool, unpaired: Faults)

  const NO_FAULTS := AttemptFaults(READS_WORK, Done, READS_WORK, FAULT_FREE, false, FAULT_FREE)

  predicate Revocable(s: RecordState) {
    s.Identity? && !s.peer.Unpaired?
  }

  /** `begin_identity_unpair`. */
  function Begin(s: Slots, peer: seq<Byte>, f: AttemptFaults): (Slots, Begun) {
    if |peer| != 32 then (s, Stopped(Invalid))
    else
      var (s1, recovery) := Recover(s, peer, f.recoveryReads, f.recoveryDelete);
      match recovery
      case Refused(status) => (s1, Stopped(status))
      case Completed => (s1, Stopped(Success))
      case _ =>
        var canonical := Canonical(s1, f.canonicalReads);
        if canonical.Failed? then (s1, Stopped(canonical.status))
        else if canonical.value.None? then (s1, Stopped(Missing))
        else
          var record := canonical.value.value;
          if !Revocable(record.state) || !ExactPeer(record, peer) then (s1, Stopped(PeerMismatch))
          else if record.state == Identity(Revoking) then
            (s1, Begun(Revocation(record.sequence, record.generation, record.payload[..64])))
          else if record.generation >= U64_MAX || record.sequence >= U64_MAX then (s1, Stopped(StoreFailed))
          else
            var revoking := Record(record.sequence + 1, record.generation + 1, Identity(Revoking), record.payload);
            if !Encodable(revoking) then (s1, Stopped(Invalid))
            else
              var (s2, ok) := Publish(s1, revoking, f.revoking);
              if !ok then (s2, Stopped(StoreFailed))
              else (s2, Begun(Revocation(record.sequence + 1, record.generation + 1, record.payload[..64])))
  }

  /** `finish_identity_unpair`. */
  function Finish(s: Slots, r: Revocation, f: Faults): (Slots, Status) {
    if r.sequence >= U64_MAX then (s, StoreFailed)
    else
      var unpaired := Record(r.sequence + 1, r.generation, Identity(Unpaired), r.local);
      if !Encodable(unpaired) then (s, Invalid)
      else
        var (s1, ok) := Publish(s, unpaired, f);
        (s1, if ok then Success else StoreFailed)
  }

  /** `identity_unpair`, with a reset possible between its two halves; after a reset there is no answer. */
  function Attempt(s: Slots, peer: seq<Byte>, f: AttemptFaults): (Slots, Option<Status>) {
    var (s1, begun) := Begin(s, peer, f);
    match begun
    case Stopped(status) => (s1, Some(status))
    case Begun(revocation) =>
      if f.resetBetween then (s1, None)
      else
        var (s2, status) := Finish(s1, revocation, f.unpaired);
        (s2, Some(status))
  }

  function Attempts(s: Slots, peer: seq<Byte>, fs: seq<AttemptFaults>): Slots
    decreases |fs|
  {
    if |fs| == 0 then s else Attempts(Attempt(s, peer, fs[0]).0, peer, fs[1..])
  }

  // The three records an unpair of `start` can leave behind.

  predicate Startable(start: Record, peer: seq<Byte>) {
    && Encodable(start) && start.sequence >= 1
    && start.sequence + 2 <= U64_MAX && start.generation + 1 <= U64_MAX
    && Revocable(start.state) && start.state != Identity(Revoking)
    && |peer| == 32 && ExactPeer(start, peer)
  }

  function RevokingOf(start: Record): Record {
    Record(start.sequence + 1, start.generation + 1, Identity(Revoking), start.payload)
  }

  function UnpairedOf(start: Record): Record
    requires |start.payload| >= 64
  {
    Record(start.sequence + 2, start.generation + 1, Identity(Unpaired), start.payload[..64])
  }

  /** If slot `r.sequence` decodes to that sequence at all, it holds `r`. */
  predicate OnlyMayHold(s: Slots, r: Record) {
    var slot := SlotOf(s, r.sequence);
    slot.Some? && Decode(slot.value).Ok? && Decode(slot.value).value.sequence == r.sequence
    ==> Decode(slot.value).value == r
  }

  /** Progress of the unpair: the newest complete record, and the only one that may be half-published. */
  predicate InPhase(d: Device, start: Record, peer: seq<Byte>) {
    && Startable(start, peer)
    && Sound(d)
    && (|| (d.latest == Some(start) &&
              (d.pending.None? || (d.pending == Some(start.sequence + 1) && OnlyMayHold(d.slots, RevokingOf(start)))))
        || (d.latest == Some(RevokingOf(start)) &&
              (d.pending.None? || (d.pending == Some(start.sequence + 2) && OnlyMayHold(d.slots, UnpairedOf(start)))))
        || (d.latest == Some(UnpairedOf(start)) && d.pending.None?))
  }

  /** The half-published record is incomplete: no retry can complete it. */
  predicate Stuck(d: Device) {
    d.pending.Some? && !Completable(d.slots)
  }

  predicate Finished(d: Device, start: Record) {
    |start.payload| >= 64 && d.latest == Some(UnpairedOf(start)) && d.pending.None?
  }

  lemma StagesEncodable(start: Record, peer: seq<Byte>)
    requires Startable(start, peer)
    ensures Encodable(RevokingOf(start)) && Encodable(UnpairedOf(start))
    ensures |start.payload| >= PEER_END
    ensures ExactPeer(RevokingOf(start), peer) && !ExactPeer(UnpairedOf(start), peer)
  {
  }

  lemma SlotFits(value: Option<seq<Byte>>, sequence: nat, r: Record)
    requires OlderThan(value, sequence) || Holds(value, r)
    ensures value.Some? ==> |value.value| <= NVS_RECORD_MAX && Decode(value.value).Ok?
    ensures value.Some? && Holds(value, r) ==> Decode(value.value) == Ok(r)
  {
    hide Decode, Encoded;
    if Holds(value, r) {
      EncodedFits(r);
      DecodeUndoesEncode(r);
    } else if value.Some? {
      DecodedFits(value.value);
    }
  }

  predicate Fits(value: Option<seq<Byte>>) {
    value.Some? ==> |value.value| <= NVS_RECORD_MAX
  }

  lemma PreviousFits(d: Device, n: nat)
    requires Sound(d) && d.pending == Some(n)
    ensures Fits(SlotOf(d.slots, n + 1))
  {
    hide Decode, Encoded, Intent;
    if d.latest.Some? {
      SlotFits(SlotOf(d.slots, n + 1), n, d.latest.value);
    }
  }

  lemma TargetFits(s: Slots)
    requires Completable(s)
    ensures Fits(SlotOf(s, FromBigEndian(s.intent.value)))
  {
    hide Decode, FromBigEndian;
    DecodedFits(SlotOf(s, FromBigEndian(s.intent.value)).value);
  }

  /** The slots of a completable store fit the read buffers. */
  lemma CompletableFits(d: Device)
    requires Sound(d) && Completable(d.slots)
    ensures Fits(d.slots.a) && Fits(d.slots.b)
  {
    hide Sound, Completable, Fits, FromBigEndian, Decode, Encoded, Intent;
    CompleteIntent(d);
    TargetFits(d.slots);
    PreviousFits(d, d.pending.value);
    if d.pending.value % 2 == 1 {
      assert SlotOf(d.slots, d.pending.value) == d.slots.a && SlotOf(d.slots, d.pending.value + 1) == d.slots.b;
    } else {
      assert SlotOf(d.slots, d.pending.value) == d.slots.b && SlotOf(d.slots, d.pending.value + 1) == d.slots.a;
    }
  }

  lemma TargetInSlot(d: Device)
    requires Sound(d) && Completable(d.slots)
    ensures d.pending.Some?
    ensures var slot := SlotOf(d.slots, d.pending.value);
      slot.Some? && Decode(slot.value) == Ok(Target(d.slots)) && Target(d.slots).sequence == d.pending.value
  {
    CompleteIntent(d);
  }

  lemma PreviousHolds(d: Device)
    requires Sound(d) && d.latest.Some? && d.pending == Some(d.latest.value.sequence + 1)
    ensures var slot := SlotOf(d.slots, d.pending.value + 1);
      slot.Some? && Decode(slot.value) == Ok(d.latest.value)
  {
    hide Decode, Encoded, Intent;
    DecodeUndoesEncode(d.latest.value);
  }

  /** A complete pending record is one of the two stages, and its predecessor is where recovery looks. */
  lemma PendingStage(d: Device, start: Record, peer: seq<Byte>)
    requires InPhase(d, start, peer) && Completable(d.slots)
    ensures d.latest == Some(start) ==>
      Target(d.slots) == RevokingOf(start) && ExactPeer(Target(d.slots), peer)
    ensures d.latest == Some(RevokingOf(start)) ==>
      Target(d.slots) == UnpairedOf(start)
      && IsCompletion(Target(d.slots), SlotOf(d.slots, d.pending.value + 1), peer)
    ensures d.latest == Some(start) || d.latest == Some(RevokingOf(start))
  {
    hide Sound, Completable, Target, Decode, ExactPeer, SlotOf;
    TargetInSlot(d);
    StagesEncodable(start, peer);
    if d.latest == Some(RevokingOf(start)) {
      PreviousHolds(d);
    }
  }

  lemma RolledPhase(d: Device, start: Record, peer: seq<Byte>, delete: Outcome)
    requires InPhase(d, start, peer) && Completable(d.slots)
    ensures InPhase(RollForwardOn(d, delete), start, peer)
  {
    hide Decode, Encoded, Intent, Sound, Completable, Target;
    PendingStage(d, start, peer);
    RollForwardKeepsSound(d, delete);
  }

  lemma RecoverRefuses(s: Slots, peer: seq<Byte>, rf: ReadFaults, delete: Outcome)
    requires s.intent.Some?
    requires !Completable(s) || rf.intent || rf.a || rf.b
    ensures Recover(s, peer, rf, delete) == (s, Refused(StoreFailed))
  {
    hide Decode, FromBigEndian, IsCompletion, ExactPeer;
  }

  lemma RecoverActs(s: Slots, peer: seq<Byte>, delete: Outcome)
    requires Completable(s) && Fits(s.a) && Fits(s.b)
    ensures var previous := SlotOf(s, FromBigEndian(s.intent.value) + 1);
      var completion := IsCompletion(Target(s), previous, peer);
      completion || ExactPeer(Target(s), peer) ==>
        Recover(s, peer, READS_WORK, delete) ==
          (s.(intent := Deleted(s.intent, delete)),
           if !delete.Done? then Refused(StoreFailed) else if completion then Completed else RolledForward)
  {
    hide Decode, FromBigEndian, IsCompletion, ExactPeer;
  }

  lemma IntentIsPending(d: Device)
    requires Sound(d)
    ensures d.slots.intent.Some? <==> d.pending.Some?
  {
  }

  lemma RevokingIsNoCompletion(start: Record, previous: Option<seq<Byte>>, peer: seq<Byte>)
    ensures !IsCompletion(RevokingOf(start), previous, peer)
  {
  }

  /** A complete pending stage is rolled forward, and the final one is reported as the finished unpair. */
  lemma RecoverRolls(d: Device, start: Record, peer: seq<Byte>, delete: Outcome)
    requires InPhase(d, start, peer) && Completable(d.slots)
    ensures Recover(d.slots, peer, READS_WORK, delete) ==
      (d.slots.(intent := Deleted(d.slots.intent, delete)),
       if !delete.Done? then Refused(StoreFailed)
       else if d.latest == Some(start) then RolledForward else Completed)
  {
    hide Sound, Decode, FromBigEndian, ExactPeer, IsCompletion, Completable, OnlyMayHold, Target, Fits, Recover, SlotOf;
    CompletableFits(d);
    CompleteIntent(d);
    PendingStage(d, start, peer);
    RecoverActs(d.slots, peer, delete);
    RevokingIsNoCompletion(start, SlotOf(d.slots, d.pending.value + 1), peer);
  }

  lemma RecoverInPhase(d: Device, start: Record, peer: seq<Byte>, rf: ReadFaults, delete: Outcome)
    returns (after: Device)
    requires InPhase(d, start, peer)
    ensures after.slots == Recover(d.slots, peer, rf, delete).0 && InPhase(after, start, peer)
    ensures var recovery := Recover(d.slots, peer, rf, delete).1;
      && (recovery.NothingPending? ==> after == d && d.pending.None?)
      && (recovery.RolledForward? ==> after.pending.None? && after.latest == Some(RevokingOf(start)))
      && (recovery.Completed? ==> Finished(after, start))
      && (recovery.Refused? ==> recovery.status == StoreFailed)
      && (recovery.Refused? && rf == READS_WORK && delete.Done? ==> Stuck(d))
      && (Stuck(d) ==> recovery.Refused? && after == d)
  {
    hide Sound, Decode, FromBigEndian, ExactPeer, IsCompletion, Completable, OnlyMayHold, Target;
    IntentIsPending(d);
    StagesEncodable(start, peer);
    after := d;
    if d.pending.Some? {
      if Completable(d.slots) && rf == READS_WORK {
        RecoverRolls(d, start, peer, delete);
        PendingStage(d, start, peer);
        RolledPhase(d, start, peer, delete);
        after := RollForwardOn(d, delete);
        hide Recover;
      } else {
        RecoverRefuses(d.slots, peer, rf, delete);
        hide Recover;
      }
    }
  }

  /** However a publication ends, its slot decodes to the new sequence only if it holds the new record. */
  lemma PublishKeepsOnlyMayHold(d: Device, r: Record, f: Faults)
    requires Sound(d) && d.pending.None? && d.latest.Some? && Encodable(r)
    requires r.sequence == d.latest.value.sequence + 1
    ensures OnlyMayHold(PublishOn(d, r, f).slots, r)
  {
    hide Decode, Encoded, Intent;
    DecodeUndoesEncode(r);
    if f.record.Torn? && f.record.k < |Encoded(r)| {
      PrefixRejected(r, f.record.k);
    }
  }

  lemma PublishNextStage(d: Device, start: Record, peer: seq<Byte>, f: Faults)
    requires InPhase(d, start, peer) && d.pending.None? && !Finished(d, start)
    ensures var next := if d.latest == Some(start) then RevokingOf(start) else UnpairedOf(start);
      && InPhase(PublishOn(d, next, f), start, peer)
      && (Publish(d.slots, next, f).1 ==>
            PublishOn(d, next, f).pending.None? && PublishOn(d, next, f).latest == Some(next))
  {
    hide Sound, Decode, Encoded, Intent, ExactPeer, OnlyMayHold;
    StagesEncodable(start, peer);
    var next := if d.latest == Some(start) then RevokingOf(start) else UnpairedOf(start);
    PublishKeepsSound(d, next, f);
    PublishKeepsOnlyMayHold(d, next, f);
  }

  lemma BeginInPhase(d: Device, start: Record, peer: seq<Byte>, f: AttemptFaults) returns (after: Device)
    requires InPhase(d, start, peer)
    ensures after.slots == Begin(d.slots, peer, f).0 && InPhase(after, start, peer)
    ensures var begun := Begin(d.slots, peer, f).1;
      && (begun.Begun? ==>
            && after.pending.None? && after.latest == Some(RevokingOf(start))
            && begun.revocation == Revocation(start.sequence + 1, start.generation + 1, start.payload[..64]))
      && (begun == Stopped(Success) ==> Finished(after, start))
      && (begun.Stopped? && f == NO_FAULTS ==> Finished(after, start) || (Stuck(d) && begun.status == StoreFailed))
      && (Stuck(d) ==> after == d && begun == Stopped(StoreFailed))
  {
    hide Sound, Decode, Encoded, FromBigEndian, ExactPeer, OnlyMayHold, Recover, Canonical;
    after := RecoverInPhase(d, start, peer, f.recoveryReads, f.recoveryDelete);
    var recovery := Recover(d.slots, peer, f.recoveryReads, f.recoveryDelete).1;
    if recovery.NothingPending? || recovery.RolledForward? {
      SoundSelection(after, f.canonicalReads);
      StagesEncodable(start, peer);
      if Canonical(after.slots, f.canonicalReads).Got? && after.latest == Some(start) {
        PublishNextStage(after, start, peer, f.revoking);
        after := PublishOn(after, RevokingOf(start), f.revoking);
      }
    }
  }

  lemma AttemptInPhase(d: Device, start: Record, peer: seq<Byte>, f: AttemptFaults) returns (after: Device)
    requires InPhase(d, start, peer)
    ensures after.slots == Attempt(d.slots, peer, f).0 && InPhase(after, start, peer)
    ensures var status := Attempt(d.slots, peer, f).1;
      && (status == Some(Success) ==> Finished(after, start))
      && (f == NO_FAULTS ==> Finished(after, start) || (Stuck(d) && status == Some(StoreFailed)))
      && (Stuck(d) ==> after == d && status == Some(StoreFailed))
  {
    hide Sound, Decode, Encoded, ExactPeer, OnlyMayHold, Begin;
    after := BeginInPhase(d, start, peer, f);
    StagesEncodable(start, peer);
    if Begin(d.slots, peer, f).1.Begun? && !f.resetBetween {
      PublishNextStage(after, start, peer, f.unpaired);
      after := PublishOn(after, UnpairedOf(start), f.unpaired);
    }
  }

  lemma {:induction false} AttemptsInPhase(d: Device, start: Record, peer: seq<Byte>, fs: seq<AttemptFaults>)
    returns (after: Device)
    requires InPhase(d, start, peer)
    ensures after.slots == Attempts(d.slots, peer, fs) && InPhase(after, start, peer)
    ensures Stuck(d) ==> after == d
    decreases |fs|
  {
    hide InPhase, Attempt;
    after := d;
    if |fs| > 0 {
      after := AttemptInPhase(d, start, peer, fs[0]);
      after := AttemptsInPhase(after, start, peer, fs[1..]);
    }
  }

  /** The store when the unpair begins: `start` is the canonical record and no intent is left. */
  predicate Settled(s: Slots, start: Record) {
    Sound(Device(s, Some(start), None))
  }

  /** The only records a reader can see after any number of interrupted attempts: the original one, the
      Revoking one, or the Unpaired one, the last two exactly one generation up. */
  predicate Stage(r: Record, start: Record) {
    || r == start
    || r == RevokingOf(start)
    || (|start.payload| >= 64 && r == UnpairedOf(start))
  }

  lemma InterruptedUnpair(s: Slots, start: Record, peer: seq<Byte>, fs: seq<AttemptFaults>, rf: ReadFaults)
    requires Settled(s, start) && Startable(start, peer)
    ensures var seen := Canonical(Attempts(s, peer, fs), rf);
      seen.Failed? || (seen.value.Some? && Stage(seen.value.value, start))
  {
    StagesEncodable(start, peer);
    hide Sound, Canonical, Attempts, Startable;
    var after := AttemptsInPhase(Device(s, Some(start), None), start, peer, fs);
    SoundSelection(after, rf);
  }

  /** Success is reported only when the peer is gone, durably and at the next generation. */
  lemma SuccessMeansUnpaired(s: Slots, start: Record, peer: seq<Byte>, fs: seq<AttemptFaults>, f: AttemptFaults)
    requires Settled(s, start) && Startable(start, peer)
    requires Attempt(Attempts(s, peer, fs), peer, f).1 == Some(Success)
    ensures |start.payload| >= 64
    ensures Canonical(Attempt(Attempts(s, peer, fs), peer, f).0, READS_WORK) == Got(Some(UnpairedOf(start)))
  {
    hide Sound, Canonical, Attempt, Attempts, Startable;
    var before := AttemptsInPhase(Device(s, Some(start), None), start, peer, fs);
    var after := AttemptInPhase(before, start, peer, f);
    SoundSelection(after, READS_WORK);
  }

  /** What a fault-free retry does after any interruptions is decided by the store it finds. Without an intent, or
      with one whose record is complete, it leaves the store Unpaired. Otherwise it fails, and then every reader and
      every later retry fails too and changes nothing. */
  lemma RetryFinishesOrStaysClosed(s: Slots, start: Record, peer: seq<Byte>, fs: seq<AttemptFaults>)
    requires Settled(s, start) && Startable(start, peer)
    ensures |start.payload| >= 64
    ensures var interrupted := Attempts(s, peer, fs);
      if interrupted.intent.None? || Completable(interrupted) then
        Canonical(Attempt(interrupted, peer, NO_FAULTS).0, READS_WORK) == Got(Some(UnpairedOf(start)))
      else
        && Attempt(interrupted, peer, NO_FAULTS) == (interrupted, Some(StoreFailed))
        && (forall rf :: Canonical(interrupted, rf).Failed?)
        && (forall more :: Attempts(interrupted, peer, more) == interrupted)
  {
    StagesEncodable(start, peer);
    hide Sound, Canonical, Attempt, Attempts, Startable, Completable;
    var before := AttemptsInPhase(Device(s, Some(start), None), start, peer, fs);
    IntentIsPending(before);
    var after := AttemptInPhase(before, start, peer, NO_FAULTS);
    SoundSelection(after, READS_WORK);
    if Stuck(before) {
      forall rf
        ensures Canonical(before.slots, rf).Failed?
      {
        SoundSelection(before, rf);
      }
      forall more
        ensures Attempts(before.slots, peer, more) == before.slots
      {
        var _ := AttemptsInPhase(before, start, peer, more);
      }
    }
  }

  /** The attempts `more` leave the store Unpaired. */
  predicate FinishedBy(s: Slots, start: Record, peer: seq<Byte>, more: seq<AttemptFaults>) {
    |start.payload| >= 64 && Canonical(Attempts(s, peer, more), READS_WORK) == Got(Some(UnpairedOf(start)))
  }

  /** An interrupted unpair can be finished by retrying if and only if no intent is left or its record is complete. */
  lemma RetryFinishesExactly(s: Slots, start: Record, peer: seq<Byte>, fs: seq<AttemptFaults>)
    requires Settled(s, start) && Startable(start, peer)
    ensures var interrupted := Attempts(s, peer, fs);
      (exists more :: FinishedBy(interrupted, start, peer, more)) <==> interrupted.intent.None? || Completable(interrupted)
  {
    hide Settled, Startable, Canonical, Attempt, Completable;
    RetryFinishesOrStaysClosed(s, start, peer, fs);
    var interrupted := Attempts(s, peer, fs);
    if interrupted.intent.None? || Completable(interrupted) {
      assert Attempts(interrupted, peer, [NO_FAULTS]) == Attempt(interrupted, peer, NO_FAULTS).0;
      assert FinishedBy(interrupted, start, peer, [NO_FAULTS]);
    } else {
      assert Canonical(interrupted, READS_WORK).Failed?;
    }
  }

  /** The publication is cut after something of its intent is written and before its record is complete. */
  predicate CutBeforeComplete(r: Record, f: Faults)
    requires Encodable(r)
  {
    if f.intent.Done? then f.record.Lost? || (f.record.Torn? && f.record.k < |Encoded(r)|) else !f.intent.Lost?
  }

  /** Which cuts of the next stage's publication leave the store stuck: exactly those. */
  lemma SticksExactly(d: Device, start: Record, peer: seq<Byte>, f: Faults)
    requires InPhase(d, start, peer) && d.pending.None? && !Finished(d, start)
    ensures |start.payload| >= 64
    ensures var next := if d.latest == Some(start) then RevokingOf(start) else UnpairedOf(start);
      Encodable(next) && (Stuck(PublishOn(d, next, f)) <==> CutBeforeComplete(next, f))
  {
    hide Decode, Encoded, Intent, FromBigEndian, ExactPeer, OnlyMayHold;
    StagesEncodable(start, peer);
    var next := if d.latest == Some(start) then RevokingOf(start) else UnpairedOf(start);
    CutsExactly(d, next, f);
  }

  lemma CutsExactly(d: Device, r: Record, f: Faults)
    requires Sound(d) && d.pending.None? && d.latest.Some? && Encodable(r)
    requires r.sequence == d.latest.value.sequence + 1
    ensures Stuck(PublishOn(d, r, f)) <==> CutBeforeComplete(r, f)
  {
    hide Decode, Encoded, Intent, FromBigEndian;
    DecodeUndoesEncode(r);
    IntentReads(r.sequence);
    if f.record.Torn? && f.record.k < |Encoded(r)| {
      PrefixRejected(r, f.record.k);
    }
  }

  lemma IntentReads(n: nat)
    requires n <= U64_MAX
    ensures FromBigEndian(Intent(n)) == n
  {
    Widths();
    BigEndianRoundTrip(n, 8);
  }

  /** It needs no torn write: an attempt reset between the intent and the record of its first stage leaves a store
      that no retry can finish. */
  lemma ResetBeforeRecordSticks(s: Slots, start: Record, peer: seq<Byte>)
    requires Settled(s, start) && Startable(start, peer)
    ensures var interrupted := Attempts(s, peer, [NO_FAULTS.(revoking := Faults(Done, Lost, Done))]);
      interrupted.intent.Some? && !Completable(interrupted)
  {
    hide Decode, Encoded, Sound, FromBigEndian, Canonical, Intent, Completable;
    var f := NO_FAULTS.(revoking := Faults(Done, Lost, Done));
    var d := Device(s, Some(start), None);
    StagesEncodable(start, peer);
    IntentIsPending(d);
    SoundSelection(d, READS_WORK);
    SticksExactly(d, start, peer, f.revoking);
    assert Begin(s, peer, f) == (PublishOn(d, RevokingOf(start), f.revoking).slots, Stopped(StoreFailed));
    assert Attempts(s, peer, [f]) == Attempt(s, peer, f).0;
  }

  // Which peer is unpaired.

  /** The store knows another peer than the one named: its current record is not that peer's, or, while an intent is
      left, neither is the record recovery would complete. */
  predicate Foreign(s: Slots, peer: seq<Byte>) {
    if s.intent.None? then
      Canonical(s, READS_WORK).Got? && Canonical(s, READS_WORK).value.Some? ==>
        !ExactPeer(Canonical(s, READS_WORK).value.value, peer)
    else
      Completable(s) ==>
        && !ExactPeer(Target(s), peer)
        && !IsCompletion(Target(s), SlotOf(s, FromBigEndian(s.intent.value) + 1), peer)
  }

  lemma ReadsAgree(s: Slots, rf: ReadFaults)
    requires Canonical(s, rf).Got?
    ensures Canonical(s, READS_WORK) == Canonical(s, rf) && s.intent.None?
  {
    hide Decode;
  }

  lemma ForeignRecovery(s: Slots, peer: seq<Byte>, rf: ReadFaults, delete: Outcome)
    requires Foreign(s, peer)
    ensures var r := Recover(s, peer, rf, delete);
      && r.0 == s
      && (r.1 == NothingPending || r.1 == Refused(StoreFailed) || r.1 == Refused(PeerMismatch))
      && (r.1 == NothingPending <==> s.intent.None? && !rf.intent)
      && (Completable(s) && Fits(s.a) && Fits(s.b) && rf == READS_WORK ==> r.1 == Refused(PeerMismatch))
  {
    hide Decode, FromBigEndian, IsCompletion, ExactPeer, Canonical;
  }

  /** A request that names another peer neither rolls an interrupted unpair forward nor begins one. Whatever fails,
      the flash stays as it was. */
  lemma ForeignPeerBegins(s: Slots, peer: seq<Byte>, f: AttemptFaults)
    requires Foreign(s, peer)
    ensures Begin(s, peer, f).0 == s && Begin(s, peer, f).1.Stopped? && Begin(s, peer, f).1.status != Success
    ensures s.intent.None? && !f.recoveryReads.intent && |peer| == 32
        && Canonical(s, f.canonicalReads).Got? && Canonical(s, f.canonicalReads).value.Some?
      ==> Begin(s, peer, f).1 == Stopped(PeerMismatch)
    ensures Completable(s) && Fits(s.a) && Fits(s.b) && f.recoveryReads == READS_WORK && |peer| == 32
      ==> Begin(s, peer, f).1 == Stopped(PeerMismatch)
  {
    hide Recover, Decode, IsCompletion, ExactPeer, Publish, Encodable, Completable, FromBigEndian, Target, SlotOf;
    ForeignRecovery(s, peer, f.recoveryReads, f.recoveryDelete);
    ReadsExactly(s, f.canonicalReads);
    if Canonical(s, f.canonicalReads).Got? {
      ReadsAgree(s, f.canonicalReads);
    }
    hide Canonical;
  }

  lemma ForeignPeerChangesNothing(s: Slots, peer: seq<Byte>, f: AttemptFaults)
    requires Foreign(s, peer)
    ensures Attempt(s, peer, f).0 == s
    ensures Attempt(s, peer, f).1.Some? && Attempt(s, peer, f).1 != Some(Success)
    ensures s.intent.None? && !f.recoveryReads.intent && |peer| == 32
        && Canonical(s, f.canonicalReads).Got? && Canonical(s, f.canonicalReads).value.Some?
      ==> Attempt(s, peer, f).1 == Some(PeerMismatch)
    ensures Completable(s) && Fits(s.a) && Fits(s.b) && f.recoveryReads == READS_WORK && |peer| == 32
      ==> Attempt(s, peer, f).1 == Some(PeerMismatch)
  {
    hide Begin, Foreign, Canonical, Completable, Fits;
    ForeignPeerBegins(s, peer, f);
  }

  /** Requests of several callers, each naming a peer of its own. */
  function Requests(s: Slots, peers: seq<seq<Byte>>, fs: seq<AttemptFaults>): Slots
    requires |peers| == |fs|
    decreases |fs|
  {
    if |fs| == 0 then s else Requests(Attempt(s, peers[0], fs[0]).0, peers[1..], fs[1..])
  }

  /** Any sequence of requests, none of which names the peer the store knows, leaves the flash as it was. */
  lemma {:induction false} ForeignRequestsChangeNothing(s: Slots, peers: seq<seq<Byte>>, fs: seq<AttemptFaults>)
    requires |peers| == |fs| && forall i :: 0 <= i < |peers| ==> Foreign(s, peers[i])
    ensures Requests(s, peers, fs) == s
    decreases |fs|
  {
    hide Foreign, Attempt;
    if |fs| > 0 {
      ForeignPeerChangesNothing(s, peers[0], fs[0]);
      ForeignRequestsChangeNothing(s, peers[1..], fs[1..]);
    }
  }

  /** The records an undisturbed unpair still has to publish. */
  function StepsLeft(start: Record): nat {
    if start.state == Identity(Revoking) then 1 else 2
  }

  predicate HasRoom(start: Record) {
    start.sequence + StepsLeft(start) <= U64_MAX && (start.state == Identity(Revoking) || start.generation < U64_MAX)
  }

  lemma QuietBegin(s: Slots, current: Option<Record>, peer: seq<Byte>)
    requires Sound(Device(s, current, None))
    ensures var r := Begin(s, peer, NO_FAULTS);
      && (|peer| != 32 ==> r == (s, Stopped(Invalid)))
      && (|peer| == 32 && current.None? ==> r == (s, Stopped(Missing)))
      && (|peer| == 32 && current.Some? && (!Revocable(current.value.state) || !ExactPeer(current.value, peer)) ==>
            r == (s, Stopped(PeerMismatch)))
      && (|peer| == 32 && current.Some? && Revocable(current.value.state) && ExactPeer(current.value, peer) ==>
            var start := current.value;
            if start.state == Identity(Revoking) then
              r == (s, Begun(Revocation(start.sequence, start.generation, start.payload[..64])))
            else if start.generation >= U64_MAX || start.sequence >= U64_MAX then r == (s, Stopped(StoreFailed))
            else
              && Encodable(RevokingOf(start))
              && r == (Publish(s, RevokingOf(start), FAULT_FREE).0,
                       Begun(Revocation(start.sequence + 1, start.generation + 1, start.payload[..64]))))
  {
    hide Decode, Canonical, FromBigEndian, Encoded, Intent, Holds, OlderThan;
    SoundSelection(Device(s, current, None), READS_WORK);
  }

  /** A record of a peer, in any stage of pairing or revocation, whose key is the one named. */
  predicate Names(r: Record, peer: seq<Byte>) {
    && r.state in {Identity(Pending), Identity(Committing), Identity(Paired), Identity(Revoking)}
    && |peer| == 32 && |r.payload| >= 96 && r.payload[64..96] == peer
  }

  /** An undisturbed request over a settled store answers Success exactly when it names the stored peer with its 32
      bytes and the counters have room, and each refusal has its own condition. */
  lemma QuietAnswers(s: Slots, current: Option<Record>, peer: seq<Byte>)
    requires Sound(Device(s, current, None))
    ensures var answer := Attempt(s, peer, NO_FAULTS).1;
      var named := current.Some? && Names(current.value, peer);
      && (answer == Some(Success) <==> named && HasRoom(current.value))
      && (answer == Some(StoreFailed) <==> named && !HasRoom(current.value))
      && (answer == Some(Invalid) <==> |peer| != 32)
      && (answer == Some(Missing) <==> |peer| == 32 && current.None?)
      && (answer == Some(PeerMismatch) <==> |peer| == 32 && current.Some? && !named)
  {
    hide Sound, Begin, Publish;
    QuietBegin(s, current, peer);
    if current.Some? && ExactPeer(current.value, peer) && Begin(s, peer, NO_FAULTS).1.Begun? {
      QuietFinish(s, current.value, peer);
    }
  }

  lemma QuietFinish(s: Slots, start: Record, peer: seq<Byte>)
    requires Sound(Device(s, Some(start), None)) && ExactPeer(start, peer)
    requires Begin(s, peer, NO_FAULTS).1.Begun?
    ensures var (s1, begun) := Begin(s, peer, NO_FAULTS);
      Finish(s1, begun.revocation, FAULT_FREE).1 == if begun.revocation.sequence < U64_MAX then Success else StoreFailed
  {
    hide Begin, Decode, Encoded, Intent, Holds, OlderThan;
    QuietBegin(s, Some(start), peer);
  }

  function UnpairedAfter(start: Record): Record
    requires |start.payload| >= 64
  {
    Record(start.sequence + StepsLeft(start), start.generation + StepsLeft(start) - 1, Identity(Unpaired), start.payload[..64])
  }

  /** After that Success the store holds the Unpaired record, one generation after the pairing, with the key pair of
      the device and without the peer's key. */
  lemma QuietUnpairs(s: Slots, start: Record, peer: seq<Byte>)
    requires Sound(Device(s, Some(start), None)) && Names(start, peer) && HasRoom(start)
    ensures Canonical(Attempt(s, peer, NO_FAULTS).0, READS_WORK) == Got(Some(UnpairedAfter(start)))
  {
    hide Sound, Begin, Canonical, Publish;
    QuietBegin(s, Some(start), peer);
    QuietAnswers(s, Some(start), peer);
    var d := Device(s, Some(start), None);
    var unpaired := UnpairedAfter(start);
    if start.state != Identity(Revoking) {
      PublishedWhole(d, RevokingOf(start));
      d := Device(Publish(s, RevokingOf(start), FAULT_FREE).0, Some(RevokingOf(start)), None);
    } else {
      SettledIsEncodable(d);
    }
    assert Encodable(unpaired);
    PublishedWhole(d, unpaired);
    SuccessIsCanonical(d, unpaired, FAULT_FREE);
  }

  lemma SettledIsEncodable(d: Device)
    requires Sound(d) && d.latest.Some?
    ensures Encodable(d.latest.value)
  {
  }

  lemma PublishedWhole(d: Device, r: Record)
    requires Sound(d) && d.pending.None? && d.latest.Some? && Encodable(r) && r.sequence == d.latest.value.sequence + 1
    ensures Publish(d.slots, r, FAULT_FREE).1
    ensures Sound(Device(Publish(d.slots, r, FAULT_FREE).0, Some(r), None))
    ensures d.latest.value.sequence >= 1
  {
    hide Encoded, Decode, Intent;
    PublishKeepsSound(d, r, FAULT_FREE);
  }
}
