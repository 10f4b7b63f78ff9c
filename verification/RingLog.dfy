/** An overwriting ring seen as a window on an unbounded log. Entry number k (from 1) lives in slot (k-1) mod the
    capacity until entry k + capacity replaces it. */
module RingLog {

  /** The oldest entry still retained after `newest` entries. */
  function Oldest(newest: nat, capacity: nat): nat {
    if newest >= capacity then newest - capacity + 1 else 1
  }

  function SlotOf(number: nat, capacity: nat): (slot: nat)
    requires number >= 1 && capacity >= 1
    ensures slot < capacity
  {
    (number - 1) % capacity
  }

  /** The slots hold the newest `capacity` entries of the log. */
  ghost predicate Retains<T(!new)>(slots: seq<T>, log: seq<T>) {
    forall k :: |slots| >= 1 && Oldest(|log|, |slots|) <= k <= |log| ==> slots[SlotOf(k, |slots|)] == log[k - 1]
  }

  lemma MultipleReaches(q: int, capacity: nat)
    ensures q >= 1 ==> q * capacity >= capacity
    ensures q <= 0 ==> q * capacity <= 0
  {
    if q >= 1 {
      assert q * capacity == capacity + (q - 1) * capacity;
    }
  }

  /** Entries that share a slot are at least a whole capacity apart. */
  lemma SameSlotIsFar(a: nat, b: nat, capacity: nat)
    requires 1 <= a < b && capacity >= 1 && SlotOf(a, capacity) == SlotOf(b, capacity)
    ensures b - a >= capacity
  {
    var turns := (b - 1) / capacity - (a - 1) / capacity;
    assert b - a == turns * capacity;
    MultipleReaches(turns, capacity);
  }

  /** Appending overwrites exactly the entry that leaves the window. */
  lemma PushRetains<T(!new)>(slots: seq<T>, log: seq<T>, entry: T)
    requires |slots| >= 1 && Retains(slots, log)
    ensures Retains(slots[SlotOf(|log| + 1, |slots|) := entry], log + [entry])
  {
    var after := slots[SlotOf(|log| + 1, |slots|) := entry];
    forall k | Oldest(|log| + 1, |slots|) <= k <= |log| + 1
      ensures after[SlotOf(k, |slots|)] == (log + [entry])[k - 1]
    {
      if k <= |log| {
        if SlotOf(k, |slots|) == SlotOf(|log| + 1, |slots|) {
          SameSlotIsFar(k, |log| + 1, |slots|);
        }
      }
    }
  }

  /** The number a reader with the given cursor gets next: the following one, or the oldest retained. */
  function Wanted(newest: nat, capacity: nat, after: nat): nat {
    var next := after + 1;
    if next < Oldest(newest, capacity) then Oldest(newest, capacity) else next
  }

  /** An entry a whole capacity later has taken the place of entry `k`. */
  predicate Overwritten(k: nat, newest: nat, capacity: nat) {
    k + capacity <= newest
  }

  /** What a reader gets next is the first entry after its cursor that has not been overwritten: it skips exactly the
      overwritten ones. */
  lemma WantedIsFirstRetained(newest: nat, capacity: nat, after: nat)
    requires capacity >= 1 && after < newest
    ensures var wanted := Wanted(newest, capacity, after);
      && after < wanted <= newest && !Overwritten(wanted, newest, capacity)
      && forall k: nat :: after < k < wanted ==> Overwritten(k, newest, capacity)
  {
  }

  // A reader that follows the log.

  /** `cursor` is the last number delivered, `drops` the drops reported so far. */
  datatype Reader = Reader(cursor: nat, drops: nat, delivered: seq<nat>)

  const FRESH := Reader(0, 0, [])

  /** One read while the log has `newest` entries. */
  function ReadStep(r: Reader, newest: nat, capacity: nat): Reader {
    if newest == 0 || r.cursor >= newest then r
    else
      var wanted := Wanted(newest, capacity, r.cursor);
      Reader(wanted, r.drops + (wanted - (r.cursor + 1)), r.delivered + [wanted])
  }

  /** A run: `lengths[i]` entries have been pushed when the i-th read happens. */
  function ReadAll(r: Reader, lengths: seq<nat>, capacity: nat): Reader
    decreases |lengths|
  {
    if |lengths| == 0 then r else ReadAll(ReadStep(r, lengths[0], capacity), lengths[1..], capacity)
  }

  predicate Growing(from: nat, lengths: seq<nat>) {
    && (|lengths| > 0 ==> from <= lengths[0])
    && forall i :: 0 <= i < |lengths| - 1 ==> lengths[i] <= lengths[i + 1]
  }

  /** Nothing is lost silently: numbers delivered and drops reported add up to the cursor. */
  predicate Conserves(r: Reader) {
    && |r.delivered| + r.drops == r.cursor
    && (forall i, j :: 0 <= i < j < |r.delivered| ==> r.delivered[i] < r.delivered[j])
    && (forall i :: 0 <= i < |r.delivered| ==> 1 <= r.delivered[i] <= r.cursor)
    && (|r.delivered| > 0 ==> r.delivered[|r.delivered| - 1] == r.cursor)
  }

  lemma {:induction false} ReadersConserve(r: Reader, newest: nat, lengths: seq<nat>, capacity: nat)
    requires Conserves(r) && capacity >= 1 && r.cursor <= newest && Growing(newest, lengths)
    ensures Conserves(ReadAll(r, lengths, capacity))
    ensures ReadAll(r, lengths, capacity).cursor <= if |lengths| == 0 then newest else lengths[|lengths| - 1]
    decreases |lengths|
  {
    if |lengths| > 0 {
      ReadersConserve(ReadStep(r, lengths[0], capacity), lengths[0], lengths[1..], capacity);
    }
  }

  /** Ring conservation for every interleaving of pushes and reads by one fresh reader. */
  lemma Conservation(lengths: seq<nat>, capacity: nat)
    requires capacity >= 1 && Growing(0, lengths)
    ensures Conserves(ReadAll(FRESH, lengths, capacity))
  {
    ReadersConserve(FRESH, 0, lengths, capacity);
  }

  /** A reader that keeps reading while nothing is pushed drains the ring: it ends at the newest entry. */
  lemma {:induction false} ReadersCatchUp(r: Reader, newest: nat, turns: nat, capacity: nat)
    requires capacity >= 1 && r.cursor <= newest && newest - r.cursor <= turns
    ensures ReadAll(r, seq(turns, _ => newest), capacity).cursor == newest
    decreases turns
  {
    if turns > 0 {
      var rest := seq(turns - 1, _ => newest);
      assert seq(turns, _ => newest)[1..] == rest;
      ReadersCatchUp(ReadStep(r, newest, capacity), newest, turns - 1, capacity);
    }
  }

  // Whole runs: one ring, one reader, any interleaving.

  datatype Event<T> = Push(entry: T) | Read

  /** The slots, the unbounded log beside them, the reader, and the entries it was given. */
  datatype Run<T> = Run(slots: seq<T>, log: seq<T>, reader: Reader, given: seq<T>)

  function Next<T>(r: Run<T>, e: Event<T>): (after: Run<T>)
    requires |r.slots| >= 1
    ensures |after.slots| == |r.slots|
  {
    match e
    case Push(entry) =>
      r.(slots := r.slots[SlotOf(|r.log| + 1, |r.slots|) := entry], log := r.log + [entry])
    case Read =>
      if |r.log| == 0 || r.reader.cursor >= |r.log| then r
      else
        var wanted := Wanted(|r.log|, |r.slots|, r.reader.cursor);
        r.(reader := ReadStep(r.reader, |r.log|, |r.slots|), given := r.given + [r.slots[SlotOf(wanted, |r.slots|)]])
  }

  function After<T>(r: Run<T>, events: seq<Event<T>>): (after: Run<T>)
    requires |r.slots| >= 1
    ensures |after.slots| == |r.slots|
    decreases |events|
  {
    if |events| == 0 then r else After(Next(r, events[0]), events[1..])
  }

  /** What was given are the log entries of the numbers the reader was delivered. */
  ghost predicate GivesLog<T(!new)>(r: Run<T>) {
    && Retains(r.slots, r.log)
    && Conserves(r.reader) && r.reader.cursor <= |r.log|
    && |r.given| == |r.reader.delivered|
    && forall i :: 0 <= i < |r.given| ==> 1 <= r.reader.delivered[i] <= |r.log| && r.given[i] == r.log[r.reader.delivered[i] - 1]
  }

  lemma NextGivesLog<T(!new)>(r: Run<T>, e: Event<T>)
    requires |r.slots| >= 1 && GivesLog(r)
    ensures GivesLog(Next(r, e))
  {
    hide Retains, SlotOf;
    match e {
      case Push(entry) => PushRetains(r.slots, r.log, entry);
      case Read =>
        if r.reader.cursor < |r.log| {
          var wanted := Wanted(|r.log|, |r.slots|, r.reader.cursor);
          WantedIsRetained(r.slots, r.log, wanted);
          StepConserves(r.reader, |r.log|, |r.slots|);
        }
    }
  }

  lemma WantedIsRetained<T(!new)>(slots: seq<T>, log: seq<T>, k: nat)
    requires |slots| >= 1 && Retains(slots, log) && 1 <= k && Oldest(|log|, |slots|) <= k <= |log|
    ensures slots[SlotOf(k, |slots|)] == log[k - 1]
  {
  }

  lemma StepConserves(r: Reader, newest: nat, capacity: nat)
    requires Conserves(r) && capacity >= 1 && r.cursor < newest
    ensures Conserves(ReadStep(r, newest, capacity)) && ReadStep(r, newest, capacity).cursor <= newest
  {
  }

  lemma {:induction false} RunGivesLog<T(!new)>(r: Run<T>, events: seq<Event<T>>)
    requires |r.slots| >= 1 && GivesLog(r)
    ensures GivesLog(After(r, events))
    decreases |events|
  {
    hide GivesLog, Next;
    if |events| > 0 {
      NextGivesLog(r, events[0]);
      RunGivesLog(Next(r, events[0]), events[1..]);
    }
  }

  /** In every run of pushes and reads of a fresh ring, whatever was in its slots, each entry given is the log entry
      of its number, the numbers increase, and given plus dropped is the last number given. */
  lemma FreshRingGivesLog<T(!new)>(slots: seq<T>, events: seq<Event<T>>)
    requires |slots| >= 1
    ensures GivesLog(After(Run(slots, [], FRESH, []), events))
  {
    RunGivesLog(Run(slots, [], FRESH, []), events);
  }
}
