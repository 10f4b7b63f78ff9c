/** `AmpTouchRing`: touch samples in a fixed array, numbered by generation. */
module TouchRing {
  import opened Common
  import opened RingLog

  datatype Sample = Sample(generation: nat, x: int, y: int, pressed: bool)

  const NO_SAMPLE := Sample(0, 0, 0, false)

  /** `wrapping_add(1)` on u32. */
  function WrappingNext(v: nat): nat {
    if v == U32_MAX then 0 else v + 1
  }

  class AmpTouchRing {
    const samples: array<Sample>
    var generation: nat
    ghost var log: seq<Sample>

    ghost predicate Valid()
      reads this, samples
    {
      && generation == |log| <= U32_MAX
      && (samples.Length == 0 ==> log == [])
      && (forall i :: 0 <= i < |log| ==> log[i].generation == i + 1)
      && (forall i :: 0 <= i < samples.Length ==> samples[i].generation <= generation)
      && Retains(samples[..], log)
    }

    constructor (capacity: nat)
      ensures Valid() && fresh(samples) && samples.Length == capacity && log == []
    {
      samples := new Sample[capacity](_ => NO_SAMPLE);
      generation, log := 0, [];
    }

    /** `push`: the log grows by one numbered sample; a ring without slots ignores it. */
    method Push(x: int, y: int, pressed: bool)
      requires Valid() && generation < U32_MAX
      modifies this, samples
      ensures Valid()
      ensures samples.Length > 0 ==> log == old(log) + [Sample(|old(log)| + 1, x, y, pressed)]
      ensures samples.Length == 0 ==> log == old(log)
    {
      if samples.Length == 0 {
        return;
      }
      generation := WrappingNext(generation);
      ghost var before := samples[..];
      var sample := Sample(generation, x, y, pressed);
      samples[(generation - 1) % samples.Length] := sample;
      PushRetains(before, log, sample);
      assert samples[..] == before[SlotOf(generation, samples.Length) := sample];
      log := log + [sample];
    }

    /** `next_after`: exactly the wanted entry of the log, or nothing when it has not been pushed. */
    method NextAfter(after: nat) returns (r: Option<Sample>)
      requires Valid() && after <= U32_MAX
      ensures r.None? <==> samples.Length == 0 || |log| == 0 || after == |log|
                           || (|log| < after < U32_MAX)
      ensures r.Some? && after < |log| ==>
        var wanted := Wanted(|log|, samples.Length, after);
        1 <= wanted <= |log| && r.value == log[wanted - 1]
      ensures r.Some? && after > |log| ==> r.value == log[Oldest(|log|, samples.Length) - 1]
    {
      if samples.Length == 0 || generation == 0 || after == generation {
        return None;
      }
      var capacity := samples.Length;
      var below := if generation >= capacity then generation - capacity else 0;
      var oldest := if below == U32_MAX then below else below + 1;
      var next := WrappingNext(after);
      var wanted := if next > oldest then next else oldest;
      var sample := samples[(wanted - 1) % capacity];
      assert samples[..][SlotOf(wanted, capacity)] == sample;
      return if sample.generation == wanted then Some(sample) else None;
    }

    /** `read_after`: the drops grow by the entries skipped, saturating. A cursor beyond the newest sample gets
        nothing, except the largest, whose successor wraps to zero: it starts over. */
    method ReadAfter(after: nat, drops: nat) returns (r: Option<Sample>, total: nat)
      requires Valid() && after <= U32_MAX && drops <= U32_MAX
      ensures r.None? <==> samples.Length == 0 || |log| == 0 || after == |log| || (|log| < after < U32_MAX)
      ensures r.None? ==> total == drops
      ensures r.Some? ==>
        var step := ReadStep(Reader(if after == U32_MAX then 0 else after, drops, []), |log|, samples.Length);
        && step.cursor == r.value.generation && r.value == log[step.cursor - 1]
        && total == if step.drops > U32_MAX then U32_MAX else step.drops
    {
      r := NextAfter(after);
      if r.None? {
        return None, drops;
      }
      var next := WrappingNext(after);
      var wanted := if next > 1 then next else 1;
      var sum := drops + (r.value.generation - wanted);
      return r, if sum > U32_MAX then U32_MAX else sum;
    }
  }

  /** A reader that starts fresh never reaches the saturation point. */
  lemma DropsNeverSaturate(lengths: seq<nat>, capacity: nat)
    requires capacity >= 1 && Growing(0, lengths)
    requires forall i :: 0 <= i < |lengths| ==> lengths[i] <= U32_MAX
    ensures ReadAll(FRESH, lengths, capacity).drops <= U32_MAX
  {
    ReadersConserve(FRESH, 0, lengths, capacity);
  }
}
