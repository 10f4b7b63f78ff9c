/** The diagnostic ring of the supervisor CPU and the cursor loop that streams it. */
module DiagnosticRing {
  import opened Common
  import opened RingLog

  const CAPACITY: nat := 64

  datatype Event = Event(sequence: nat, uptime: nat, x: int, y: int, value: nat, kind: nat, flags: nat)

  const NO_EVENT := Event(0, 0, 0, 0, 0, 0, 0)

  /** What a read delivers: an event and the number of events skipped before it. */
  datatype Delivery = Delivery(event: Event, skipped: int)

  class DiagnosticEvents {
    const events: array<Event>
    var sequence: nat
    ghost var log: seq<Event>

    ghost predicate Valid()
      reads this, events
    {
      && events.Length == CAPACITY
      && sequence == |log| <= U32_MAX
      && (forall i :: 0 <= i < |log| ==> log[i].sequence == i + 1)
      && (forall i :: 0 <= i < CAPACITY ==> events[i].sequence <= sequence)
      && Retains(events[..], log)
    }

    constructor ()
      ensures Valid() && fresh(events) && log == []
    {
      events := new Event[CAPACITY](_ => NO_EVENT);
      sequence, log := 0, [];
    }

    /** `diagnostic_record`. */
    method Record(kind: nat, flags: nat, x: int, y: int, value: nat, uptime: nat)
      requires Valid() && sequence < U32_MAX
      modifies this, events
      ensures Valid()
      ensures log == old(log) + [Event(|old(log)| + 1, uptime, x, y, value, kind, flags)]
    {
      sequence := sequence + 1;
      ghost var before := events[..];
      var event := Event(sequence, uptime, x, y, value, kind, flags);
      events[(sequence - 1) % CAPACITY] := event;
      PushRetains(before, log, event);
      assert events[..] == before[SlotOf(sequence, CAPACITY) := event];
      log := log + [event];
    }

    /** `deskkin_diagnostic_read`. For a cursor at or below the newest number the delivery is the wanted log
        entry. A cursor beyond it gets a stale slot, because the slot's own number is not compared; the largest
        cursor, whose successor wraps to zero, starts over at the oldest entry. */
    method Read(after: nat) returns (r: Option<Delivery>)
      requires Valid() && after <= U32_MAX
      ensures r.None? <==> |log| == 0 || after == |log|
      ensures r.Some? && after < |log| ==>
        var wanted := Wanted(|log|, CAPACITY, after);
        && 1 <= wanted <= |log| && r.value == Delivery(log[wanted - 1], wanted - (after + 1))
        && ReadStep(Reader(after, 0, []), |log|, CAPACITY) == Reader(r.value.event.sequence, r.value.skipped, [wanted])
      ensures r.Some? && |log| < after < U32_MAX ==> r.value.event.sequence <= |log| && r.value.skipped == 0
      ensures r.Some? && after == U32_MAX ==>
        var oldest := Oldest(|log|, CAPACITY);
        r.value == Delivery(log[oldest - 1], oldest)
    {
      var newest := sequence;
      if newest == 0 || after == newest {
        return None;
      }
      var oldest := if newest >= CAPACITY then newest - CAPACITY + 1 else 1;
      var next := if after == U32_MAX then 0 else after + 1;
      var wanted := if next < oldest then oldest else next;
      var event := events[(wanted - 1) % CAPACITY];
      assert events[..][SlotOf(wanted, CAPACITY)] == event;
      return Some(Delivery(event, wanted - next));
    }

    /** The streaming loop between two pushes: it sends everything retained, in order, and stops at the newest
        event with every number either sent or reported as skipped. */
    method Stream(after: nat) returns (cursor: nat, sent: seq<Event>, skipped: nat)
      requires Valid() && after <= |log| < U32_MAX
      ensures cursor == |log|
      ensures |sent| + skipped == cursor - after
      ensures forall i :: 0 <= i < |sent| ==> sent[i] == log[cursor - |sent| + i]
      ensures |log| > after ==> |sent| == |log| + 1 - Wanted(|log|, CAPACITY, after)
    {
      cursor, sent, skipped := after, [], 0;
      var going := true;
      while going
        invariant after <= cursor <= |log|
        invariant |sent| + skipped == cursor - after
        invariant cursor > after ==> |sent| == cursor + 1 - Wanted(|log|, CAPACITY, after)
        invariant cursor == after ==> sent == []
        invariant forall i :: 0 <= i < |sent| ==> sent[i] == log[cursor - |sent| + i]
        invariant !going ==> cursor == |log|
        decreases |log| - cursor, going
      {
        var delivery := Read(cursor);
        if delivery.None? {
          going := false;
        } else {
          cursor := delivery.value.event.sequence;
          sent := sent + [delivery.value.event];
          skipped := skipped + delivery.value.skipped;
        }
      }
    }
  }
}
