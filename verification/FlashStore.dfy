/** The crash-safe two-slot store: a publication writes an intent, then the record into the slot its sequence
    selects, then deletes the intent. Each NVS call may fail or be the last one before a reset. */
module FlashStore {
  import opened Common
  import opened Bytes
  import opened RecordCodec

  const NVS_RECORD_MAX: nat := NVS_HEADER_LEN + NVS_PAYLOAD_MAX

  datatype Status = Success | Invalid | AlreadyInitialized | Missing | StoreFailed | PeerMismatch | Busy

  /** What an interrupted or failing NVS call leaves behind. Everything but `Done` ends the operation: either
      an error code was returned or the device was reset. `Lost` had no effect, `Late` had its full effect,
      and `Torn(k)` left the first `k` bytes of the new value. */
  datatype Outcome = Done | Lost | Late | Torn(k: nat)

  function Written(old_: Option<seq<Byte>>, new_: seq<Byte>, o: Outcome): Option<seq<Byte>> {
    match o
    case Done => Some(new_)
    case Late => Some(new_)
    case Lost => old_
    case Torn(k) => if k < |new_| then Some(new_[..k]) else Some(new_)
  }

  /** A delete is one allocation-table entry: it takes effect or it does not. */
  predicate Deletes(o: Outcome) {
    o.Done? || o.Late?
  }

  function Deleted(old_: Option<seq<Byte>>, o: Outcome): Option<seq<Byte>> {
    if Deletes(o) then None else old_
  }

  /** The three identifiers of one record family: slot A, slot B and the intent. */
  datatype Slots = Slots(a: Option<seq<Byte>>, b: Option<seq<Byte>>, intent: Option<seq<Byte>>)

  /** Odd sequences live in slot A, even ones in slot B. */
  function SlotOf(s: Slots, sequence: nat): Option<seq<Byte>> {
    if sequence % 2 == 1 then s.a else s.b
  }

  function WithSlot(s: Slots, sequence: nat, value: Option<seq<Byte>>): Slots {
    if sequence % 2 == 1 then s.(a := value) else s.(b := value)
  }

  datatype Faults = Faults(intent: Outcome, record: Outcome, delete: Outcome)

  const FAULT_FREE := Faults(Done, Done, Done)

  function Intent(sequence: nat): (s: seq<Byte>)
    requires sequence <= U64_MAX
    ensures |s| == 8
  {
    Widths();
    BigEndian(sequence, 8)
  }

  /** The durable effect of `publish_record` and whether it reported success. */
  function Publish(s: Slots, r: Record, f: Faults): (Slots, bool)
    requires Encodable(r)
  {
    var s1 := s.(intent := Written(s.intent, Intent(r.sequence), f.intent));
    if !f.intent.Done? then (s1, false)
    else
      var s2 := WithSlot(s1, r.sequence, Written(SlotOf(s1, r.sequence), Encoded(r), f.record));
      if !f.record.Done? then (s2, false)
      else (s2.(intent := Deleted(s2.intent, f.delete)), f.delete.Done?)
  }

  /** Which of the three reads fail. */
  datatype ReadFaults = ReadFaults(intent: bool, a: bool, b: bool)

  const READS_WORK := ReadFaults(false, false, false)

  datatype Read<+T> = Got(value: T) | Failed(status: Status)

  /** `read_slot`: a failing read and a value longer than the buffer are both store failures. */
  function ReadSlot(value: Option<seq<Byte>>, capacity: nat, fails: bool): Read<Option<seq<Byte>>> {
    if fails || (value.Some? && |value.value| > capacity) then Failed(StoreFailed) else Got(value)
  }

  function DecodeSlot(value: Option<seq<Byte>>): Result<Option<Record>> {
    if value.None? then Ok(None)
    else
      match Decode(value.value)
      case Ok(r) => Ok(Some(r))
      case Err(e) => Err(e)
  }

  /** `select_slot`. */
  function SelectSlot(first: Option<seq<Byte>>, second: Option<seq<Byte>>): Result<Option<Record>> {
    var left := DecodeSlot(first);
    if left.Err? then Err(left.error)
    else
      var right := DecodeSlot(second);
      if right.Err? then Err(right.error)
      else
        match (left.value, right.value)
        case (None, None) => Ok(None)
        case (Some(v), None) => Ok(Some(v))
        case (None, Some(v)) => Ok(Some(v))
        case (Some(l), Some(r)) =>
          if l.sequence > r.sequence then Ok(Some(l))
          else if l.sequence < r.sequence then Ok(Some(r))
          else if l.generation == r.generation && l.state == r.state && l.payload == r.payload then Ok(Some(l))
          else Err(ConflictingSlots)
  }

  /** `canonical_record`: any intent at all fails closed. */
  function Canonical(s: Slots, f: ReadFaults): Read<Option<Record>> {
    var intent := ReadSlot(s.intent, 8, f.intent);
    if intent.Failed? || intent.value.Some? then Failed(StoreFailed)
    else
      var first := ReadSlot(s.a, NVS_RECORD_MAX, f.a);
      var second := ReadSlot(s.b, NVS_RECORD_MAX, f.b);
      if first.Failed? || second.Failed? then Failed(StoreFailed)
      else
        match SelectSlot(first.value, second.value)
        case Ok(r) => Got(r)
        case Err(_) => Failed(StoreFailed)
  }

  /** A device: the flash, with two facts kept beside it for the proof. `latest` is the newest record whose
      intent was deleted; `pending` is the sequence whose intent is still there. */
  datatype Device = Device(slots: Slots, latest: Option<Record>, pending: Option<nat>)

  const BLANK := Device(Slots(None, None, None), None, None)

  function NextSequence(latest: Option<Record>): nat {
    if latest.None? then 1 else latest.value.sequence + 1
  }

  predicate OlderThan(value: Option<seq<Byte>>, sequence: nat) {
    value.None? ||
    (Decode(value.value).Ok? &&
     Decode(value.value).value.sequence < sequence &&
     Decode(value.value).value.sequence % 2 != sequence % 2)
  }

  predicate Holds(value: Option<seq<Byte>>, r: Record) {
    Encodable(r) && value == Some(Encoded(r))
  }

  /** The store invariant. Without an intent the newest record sits in the slot of its parity and the other
      slot is empty or older. While intent `n` exists only slot `n` may be dirty. */
  predicate Sound(d: Device) {
    && (d.latest.Some? ==> Encodable(d.latest.value) && d.latest.value.sequence >= 1)
    && match d.pending
       case None =>
         && d.slots.intent.None?
         && (d.latest.None? ==> d.slots.a.None? && d.slots.b.None?)
         && (d.latest.Some? ==>
               && Holds(SlotOf(d.slots, d.latest.value.sequence), d.latest.value)
               && OlderThan(SlotOf(d.slots, d.latest.value.sequence + 1), d.latest.value.sequence))
       case Some(n) =>
         && 1 <= n <= U64_MAX
         && d.slots.intent.Some? && d.slots.intent.value <= Intent(n)
         && OtherSlotIntact(d, n)
  }

  /** The slot the pending publication does not touch. */
  predicate OtherSlotIntact(d: Device, n: nat)
    requires d.latest.Some? ==> Encodable(d.latest.value)
  {
    if d.latest.None? then n == 1 && d.slots.b.None?
    else if n == d.latest.value.sequence then OlderThan(SlotOf(d.slots, n + 1), n)
    else n == d.latest.value.sequence + 1 && Holds(SlotOf(d.slots, d.latest.value.sequence), d.latest.value)
  }

  /** A caller derives the sequence from the canonical record. A caller that was told its last publication
      failed may use the same sequence again, although that publication may in fact be complete. */
  predicate Admissible(d: Device, sequence: nat) {
    match d.pending
    case Some(n) => sequence == n
    case None =>
      sequence == NextSequence(d.latest) || (d.latest.Some? && sequence == d.latest.value.sequence)
  }

  function PublishOn(d: Device, r: Record, f: Faults): Device
    requires Encodable(r)
  {
    var slots := Publish(d.slots, r, f).0;
    if f.intent.Lost? then d.(slots := slots)
    else if f.intent.Done? && f.record.Done? && Deletes(f.delete) then Device(slots, Some(r), None)
    else d.(slots := slots, pending := Some(r.sequence))
  }

  lemma PublishKeepsSound(d: Device, r: Record, f: Faults)
    requires Sound(d) && Encodable(r) && r.sequence >= 1 && Admissible(d, r.sequence)
    ensures Sound(PublishOn(d, r, f))
  {
    hide Decode, Encoded, Intent;
    if d.pending.None? && d.latest.Some? && r.sequence == d.latest.value.sequence + 1 {
      DecodeUndoesEncode(d.latest.value);
    } else if d.latest.Some? && r.sequence == d.latest.value.sequence + 1 {
      DecodeUndoesEncode(d.latest.value);
    }
  }

  /** While the intent of sequence `n` is complete and slot `n` decodes to sequence `n`, the publication can be
      rolled forward by deleting the intent. */
  predicate Completable(s: Slots) {
    && s.intent.Some? && |s.intent.value| == 8
    && var n := FromBigEndian(s.intent.value);
       var target := SlotOf(s, n);
    && target.Some? && Decode(target.value).Ok? && Decode(target.value).value.sequence == n
  }

  function Target(s: Slots): Record
    requires Completable(s)
  {
    Decode(SlotOf(s, FromBigEndian(s.intent.value)).value).value
  }

  function RollForwardOn(d: Device, o: Outcome): Device
    requires Completable(d.slots)
  {
    if Deletes(o) then Device(d.slots.(intent := None), Some(Target(d.slots)), None) else d
  }

  lemma CompleteIntent(d: Device)
    requires Sound(d) && Completable(d.slots)
    ensures d.pending == Some(FromBigEndian(d.slots.intent.value))
    ensures d.slots.intent.value == Intent(d.pending.value)
  {
    Widths();
    var n := d.pending.value;
    assert d.slots.intent.value == Intent(n);
    BigEndianRoundTrip(n, 8);
  }

  /** What recovery makes current is the record of the pending sequence, in the slot of its parity. */
  lemma TargetIsPending(d: Device)
    requires Sound(d) && Completable(d.slots)
    ensures d.pending.Some? && Target(d.slots).sequence == d.pending.value
    ensures Holds(SlotOf(d.slots, d.pending.value), Target(d.slots))
  {
    hide Decode, Encoded, Intent, FromBigEndian;
    CompleteIntent(d);
    EncodeUndoesDecode(SlotOf(d.slots, d.pending.value).value);
  }

  lemma OtherSlotIsOlder(d: Device)
    requires Sound(d) && d.pending.Some?
    ensures OlderThan(SlotOf(d.slots, d.pending.value + 1), d.pending.value)
  {
    hide Decode, Encoded, Intent, FromBigEndian;
    if d.latest.Some? && d.pending.value == d.latest.value.sequence + 1 {
      DecodeUndoesEncode(d.latest.value);
    }
  }

  lemma RollForwardKeepsSound(d: Device, o: Outcome)
    requires Sound(d) && Completable(d.slots)
    ensures Sound(RollForwardOn(d, o))
    ensures RollForwardOn(d, o).latest == d.latest || RollForwardOn(d, o).latest.value.sequence == d.pending.value
  {
    hide Decode, Encoded, Intent, FromBigEndian, Target, Completable, OlderThan, OtherSlotIntact;
    TargetIsPending(d);
    OtherSlotIsOlder(d);
  }

  // Whole histories.

  datatype Operation = Publication(record: Record, faults: Faults) | RollForward(outcome: Outcome)

  /** What the callers may do next; an operation that cannot begin is not part of a history. */
  predicate Allowed(d: Device, op: Operation) {
    match op
    case Publication(r, _) => Encodable(r) && r.sequence >= 1 && Admissible(d, r.sequence)
    case RollForward(_) => Completable(d.slots)
  }

  function Step(d: Device, op: Operation): Device
    requires Allowed(d, op)
  {
    match op
    case Publication(r, f) => PublishOn(d, r, f)
    case RollForward(o) => RollForwardOn(d, o)
  }

  predicate History(d: Device, ops: seq<Operation>)
    decreases |ops|
  {
    |ops| == 0 || (Allowed(d, ops[0]) && History(Step(d, ops[0]), ops[1..]))
  }

  function After(d: Device, ops: seq<Operation>): Device
    requires History(d, ops)
    decreases |ops|
  {
    if |ops| == 0 then d else After(Step(d, ops[0]), ops[1..])
  }

  function SequenceOf(r: Option<Record>): nat {
    if r.None? then 0 else r.value.sequence
  }

  lemma StepKeepsSound(d: Device, op: Operation)
    requires Sound(d) && Allowed(d, op)
    ensures Sound(Step(d, op))
    ensures SequenceOf(Step(d, op).latest) >= SequenceOf(d.latest)
  {
    hide Decode, Encoded, Intent;
    match op
    case Publication(r, f) =>
      PublishKeepsSound(d, r, f);
    case RollForward(o) =>
      CompleteIntent(d);
      RollForwardKeepsSound(d, o);
  }

  lemma {:induction false} HistoryKeepsSound(d: Device, ops: seq<Operation>)
    requires Sound(d) && History(d, ops)
    ensures Sound(After(d, ops))
    ensures SequenceOf(After(d, ops).latest) >= SequenceOf(d.latest)
    decreases |ops|
  {
    hide Sound, Step, Allowed;
    if |ops| > 0 {
      StepKeepsSound(d, ops[0]);
      HistoryKeepsSound(Step(d, ops[0]), ops[1..]);
    }
  }

  lemma EncodedFits(r: Record)
    requires Encodable(r)
    ensures |Encoded(r)| <= NVS_RECORD_MAX
  {
  }

  lemma DecodedFits(input: seq<Byte>)
    requires Decode(input).Ok?
    ensures |input| <= NVS_RECORD_MAX
  {
    EncodeUndoesDecode(input);
  }

  /** In a sound store the canonical record is the newest completed one or nothing is returned at all, and it
      is returned whenever no intent is left and the reads work. */
  lemma SoundSelection(d: Device, f: ReadFaults)
    requires Sound(d)
    ensures Canonical(d.slots, f).Got? ==> Canonical(d.slots, f).value == d.latest
    ensures d.pending.None? && f == READS_WORK ==> Canonical(d.slots, f) == Got(d.latest)
    ensures d.pending.Some? ==> Canonical(d.slots, f).Failed?
    ensures Canonical(d.slots, f).Failed? ==> Canonical(d.slots, f).status == StoreFailed
  {
    hide Decode, Encoded, Intent;
    if d.pending.None? && d.latest.Some? {
      var r := d.latest.value;
      DecodeUndoesEncode(r);
      EncodedFits(r);
      var other := SlotOf(d.slots, r.sequence + 1);
      if other.Some? {
        DecodedFits(other.value);
      }
    }
  }

  /** Crash consistency over every history of publications, failures, resets and roll-forwards. */
  lemma CrashConsistency(ops: seq<Operation>, f: ReadFaults)
    requires History(BLANK, ops)
    ensures var d := After(BLANK, ops);
      && (Canonical(d.slots, f).Failed? || Canonical(d.slots, f) == Got(d.latest))
      && (d.slots.intent.None? && f == READS_WORK ==> Canonical(d.slots, f) == Got(d.latest))
  {
    HistoryKeepsSound(BLANK, ops);
    SoundSelection(After(BLANK, ops), f);
  }

  /** A publication that reports success is the canonical record from then on. */
  lemma SuccessIsCanonical(d: Device, r: Record, f: Faults)
    requires Sound(d) && Encodable(r) && r.sequence >= 1 && Admissible(d, r.sequence)
    requires Publish(d.slots, r, f).1
    ensures Canonical(Publish(d.slots, r, f).0, READS_WORK) == Got(Some(r))
  {
    PublishKeepsSound(d, r, f);
    SoundSelection(PublishOn(d, r, f), READS_WORK);
  }

  /** A publication that fails before its record is complete never becomes visible: while its intent remains
      nothing is returned, and it cannot be rolled forward. */
  lemma TornIsNeverSelected(d: Device, r: Record, f: Faults, rf: ReadFaults)
    requires Sound(d) && Encodable(r) && r.sequence >= 1 && Admissible(d, r.sequence)
    requires f.intent.Done? && f.record.Torn? && f.record.k < |Encoded(r)|
    ensures Canonical(PublishOn(d, r, f).slots, rf).Failed?
    ensures !Completable(PublishOn(d, r, f).slots)
  {
    hide Decode, Encoded, Intent, Encodable;
    var after := PublishOn(d, r, f);
    PublishKeepsSound(d, r, f);
    SoundSelection(after, rf);
    PrefixRejected(r, f.record.k);
    if Completable(after.slots) {
      CompleteIntent(after);
    }
  }

  // The calls themselves: what the flash does, what it reports, and what is made of it.

  /** What a write leaves in the flash. */
  datatype Effect = Nothing | All | Prefix(k: nat)

  /** One `nvs_write` and the `nvs_read` that checks it: what was written, the length each call reported (negative
      for an error), or a reset before either. */
  datatype WriteCall = WriteCall(effect: Effect, written: int, readable: bool)

  function Effected(old_: Option<seq<Byte>>, new_: seq<Byte>, e: Effect): Option<seq<Byte>> {
    match e
    case Nothing => old_
    case All => Some(new_)
    case Prefix(k) => if k < |new_| then Some(new_[..k]) else Some(new_)
  }

  /** The outcome a write comes to: `Done` only when the whole value was reported written and was read back. */
  function OutcomeOf(old_: Option<seq<Byte>>, new_: seq<Byte>, w: WriteCall): Outcome {
    if w.written == |new_| && w.readable && Effected(old_, new_, w.effect) == Some(new_) then Done
    else match w.effect
      case Nothing => Lost
      case All => Late
      case Prefix(k) => Torn(k)
  }

  /** The three calls of a publication; the delete is not read back. */
  datatype PublishCalls = PublishCalls(intent: WriteCall, record: WriteCall, delete: Outcome)

  function FaultsOf(s: Slots, r: Record, c: PublishCalls): Faults
    requires Encodable(r)
  {
    Faults(OutcomeOf(s.intent, Intent(r.sequence), c.intent),
           OutcomeOf(SlotOf(s, r.sequence), Encoded(r), c.record),
           c.delete)
  }

  /** Of two readable records the one with the greater sequence is selected, whichever slot it is in; equal ones are
      one record, different ones of one sequence a conflict, and an unreadable slot is never passed over. */
  lemma SelectsNewest(first: Option<seq<Byte>>, second: Option<seq<Byte>>)
    ensures first.None? && second.None? ==> SelectSlot(first, second) == Ok(None)
    ensures first.None? && second.Some? && Decode(second.value).Ok? ==>
      SelectSlot(first, second) == Ok(Some(Decode(second.value).value)) == SelectSlot(second, first)
    ensures first.Some? && second.Some? && Decode(first.value).Ok? && Decode(second.value).Ok? ==>
      var l, r := Decode(first.value).value, Decode(second.value).value;
      && (l.sequence > r.sequence ==> SelectSlot(first, second) == Ok(Some(l)) == SelectSlot(second, first))
      && (l.sequence == r.sequence && l == r ==> SelectSlot(first, second) == Ok(Some(l)))
      && (l.sequence == r.sequence && l != r ==> SelectSlot(first, second) == Err(ConflictingSlots))
    ensures (first.Some? && Decode(first.value).Err?) || (second.Some? && Decode(second.value).Err?) ==>
      SelectSlot(first, second).Err?
  {
    hide Decode;
  }

  /** A record is read exactly when no intent is left, the reads work, the values fit the buffers, and the slots
      select; anything else fails closed. */
  lemma ReadsExactly(s: Slots, f: ReadFaults)
    ensures Canonical(s, f).Got? <==>
      && s.intent.None? && f == READS_WORK
      && (s.a.Some? ==> |s.a.value| <= 184) && (s.b.Some? ==> |s.b.value| <= 184) && SelectSlot(s.a, s.b).Ok?
    ensures Canonical(s, f).Got? ==> Ok(Canonical(s, f).value) == SelectSlot(s.a, s.b)
    ensures Canonical(s, f).Failed? ==> Canonical(s, f).status == StoreFailed
  {
    hide SelectSlot;
  }

  /** An undisturbed publication succeeds: the record is whole in the slot of its parity, the other slot is as it was,
      and no intent is left. Calls that write everything, report it, and read it back are such a publication. */
  lemma UndisturbedPublish(s: Slots, r: Record, c: PublishCalls)
    requires Encodable(r)
    ensures Publish(s, r, FAULT_FREE) ==
      (Slots(if r.sequence % 2 == 1 then Some(Encoded(r)) else s.a, if r.sequence % 2 == 1 then s.b else Some(Encoded(r)), None),
       true)
    ensures c.intent == WriteCall(All, 8, true) && c.record == WriteCall(All, |Encoded(r)|, true) && c.delete == Done
      ==> FaultsOf(s, r, c) == FAULT_FREE
  {
    hide Encoded, Intent;
  }

  /** The flash of one record family, updated call by call. */
  class Nvs {
    var a: Option<seq<Byte>>
    var b: Option<seq<Byte>>
    var intent: Option<seq<Byte>>

    ghost function Contents(): Slots
      reads this
    {
      Slots(a, b, intent)
    }

    /** `deskkin_nvs_write_readback` on the value `old_` of one identifier: write, check the reported length, read
        back, check its length, compare byte by byte. */
    static method WriteReadback(old_: Option<seq<Byte>>, input: seq<Byte>, w: WriteCall)
      returns (stored: Option<seq<Byte>>, ok: bool)
      ensures ok ==> stored == Some(input)
      ensures stored == Written(old_, input, OutcomeOf(old_, input, w)) && (ok <==> OutcomeOf(old_, input, w).Done?)
    {
      stored := Effected(old_, input, w.effect);
      if w.written < 0 || w.written != |input| {
        return stored, false;
      }
      if !w.readable || stored.None? || |stored.value| != |input| {
        return stored, false;
      }
      for i := 0 to |input|
        invariant stored.value[..i] == input[..i]
      {
        if stored.value[i] != input[i] {
          assert stored.value != input;
          return stored, false;
        }
      }
      assert stored.value == stored.value[..|input|] && input == input[..|input|];
      return stored, true;
    }

    method DeleteIntent(o: Outcome) returns (ok: bool)
      modifies this`intent
      ensures ok == o.Done? && intent == Deleted(old(intent), o)
    {
      intent := Deleted(intent, o);
      ok := o.Done?;
    }

    /** `publish_record`. */
    method PublishRecord(current: nat, generation: nat, state: RecordState, payload: seq<Byte>, c: PublishCalls)
      returns (status: Status)
      requires current <= U64_MAX && generation <= U64_MAX
      modifies this
      ensures current == U64_MAX ==> status == StoreFailed && Contents() == old(Contents())
      ensures current < U64_MAX && |payload| > NVS_PAYLOAD_MAX ==> status == Invalid && Contents() == old(Contents())
      ensures current < U64_MAX && |payload| <= NVS_PAYLOAD_MAX ==>
        var r := Record(current + 1, generation, state, payload);
        var published := Publish(old(Contents()), r, FaultsOf(old(Contents()), r, c));
        Contents() == published.0 && status == if published.1 then Success else StoreFailed
    {
      hide Encoded;
      if current == U64_MAX {
        return StoreFailed;
      }
      var sequence := current + 1;
      var encoded := new Byte[NVS_RECORD_MAX](_ => 0);
      var length := EncodeRecord(sequence, generation, state, payload, encoded);
      if length.Err? {
        return Invalid;
      }
      assert encoded[..length.value] == encoded[..][..length.value] == Encoded(Record(sequence, generation, state, payload));
      var ok;
      intent, ok := WriteReadback(intent, Intent(sequence), c.intent);
      if !ok {
        return StoreFailed;
      }
      if sequence % 2 == 1 {
        a, ok := WriteReadback(a, encoded[..length.value], c.record);
      } else {
        b, ok := WriteReadback(b, encoded[..length.value], c.record);
      }
      if !ok {
        return StoreFailed;
      }
      ok := DeleteIntent(c.delete);
      return if ok then Success else StoreFailed;
    }
  }
}
