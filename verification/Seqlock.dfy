/** The world snapshot shared between the two CPUs: the publisher clears the publication word, copies 24 bytes
    one at a time and stores the new generation; a reader loads the word, copies the bytes and loads it again.
    The steps of both interleave freely; every access is sequentially consistent. */
module Seqlock {
  import opened Common
  import opened Bytes

  const MAGIC: nat := 0x4453_574c
  const SCHEMA: Byte := 2
  const SNAPSHOT_LEN: nat := 24
  const VALUE_MASK: Byte := 0x7f
  const FILTER_BILINEAR: Byte := 0x80
  const NO_SAS: nat := 0xffff_ffff
  const I64_MIN: int := -0x8000_0000_0000_0000
  const I64_MAX: int := 0x7fff_ffff_ffff_ffff

  /** What the publisher reads from the service before it copies. */
  datatype Snapshot = Snapshot(
    generation: nat, observedYaw: int, sas: nat, shell: Byte,
    availability: Byte, availabilityBilinear: bool, notice: Byte, noticeBilinear: bool)

  predicate Representable(s: Snapshot) {
    && s.generation <= U32_MAX && s.sas <= U32_MAX && I64_MIN <= s.observedYaw <= I64_MAX
    && s.availability <= VALUE_MASK && s.notice <= VALUE_MASK
  }

  /** Two's complement. */
  function Unsigned64(v: int): (r: nat)
    requires I64_MIN <= v <= I64_MAX
    ensures r <= U64_MAX
  {
    if v < 0 then v + U64_MAX + 1 else v
  }

  function Signed64(v: nat): (r: int)
    requires v <= U64_MAX
    ensures I64_MIN <= r <= I64_MAX
  {
    if v > I64_MAX then v - U64_MAX - 1 else v
  }

  function Flagged(value: Byte, bilinear: bool): Byte {
    value | (if bilinear then FILTER_BILINEAR else 0)
  }

  /** The bytes of `struct deskkin_world_snapshot`. */
  function Layout(s: Snapshot): (b: seq<Byte>)
    requires Representable(s)
    ensures |b| == SNAPSHOT_LEN
  {
    Widths();
    LittleEndian(MAGIC, 4) + LittleEndian(s.generation, 4) + LittleEndian(Unsigned64(s.observedYaw), 8)
    + LittleEndian(s.sas, 4)
    + [SCHEMA, s.shell, Flagged(s.availability, s.availabilityBilinear), Flagged(s.notice, s.noticeBilinear)]
  }

  datatype Filter = Nearest | Bilinear

  datatype World = World(
    generation: nat, observedYaw: int, sas: Option<nat>, shell: Byte,
    availability: Option<Byte>, notice: Option<Byte>, availabilityFilter: Filter, noticeFilter: Filter)

  datatype SnapshotError =
    Unpublished | Unstable | UnknownSchema | InvalidMagic | GenerationMismatch | InvalidSemanticValue

  datatype Result = Ok(world: World) | Err(error: SnapshotError)

  function FilterOf(flagged: Byte): Filter {
    if flagged & FILTER_BILINEAR != 0 then Bilinear else Nearest
  }

  /** `decode_amp_world_snapshot`, branch for branch. */
  function Decode(before: nat, payload: seq<Byte>, after: nat): Result
    requires |payload| == SNAPSHOT_LEN
  {
    if before == 0 || after == 0 then Err(Unpublished)
    else if before != after then Err(Unstable)
    else if FromLittleEndian(payload[0..4]) != MAGIC then Err(InvalidMagic)
    else
      var generation := FromLittleEndian(payload[4..8]);
      if generation != before then Err(GenerationMismatch)
      else if payload[20] != SCHEMA then Err(UnknownSchema)
      else
        var shell := payload[21];
        var availability := payload[22] & VALUE_MASK;
        var notice := payload[23] & VALUE_MASK;
        if availability > 3 || notice > 1 || shell > 4 then Err(InvalidSemanticValue)
        else
          Widths();
          var sas := FromLittleEndian(payload[16..20]);
          Ok(World(
            generation, Signed64(FromLittleEndian(payload[8..16])),
            if sas == NO_SAS then None else Some(sas), shell,
            if availability == 0 then None else Some(availability),
            if notice == 0 then None else Some(notice),
            FilterOf(payload[22]), FilterOf(payload[23])))
  }

  /** The meaning of a snapshot to a reader. */
  function Meaning(s: Snapshot): World {
    World(
      s.generation, s.observedYaw, if s.sas == NO_SAS then None else Some(s.sas), s.shell,
      if s.availability == 0 then None else Some(s.availability),
      if s.notice == 0 then None else Some(s.notice),
      if s.availabilityBilinear then Bilinear else Nearest, if s.noticeBilinear then Bilinear else Nearest)
  }

  predicate Meaningful(s: Snapshot) {
    s.availability <= 3 && s.notice <= 1 && s.shell <= 4
  }

  lemma FlagRoundTrip(value: Byte, bilinear: bool)
    requires value <= VALUE_MASK
    ensures Flagged(value, bilinear) & VALUE_MASK == value
    ensures FilterOf(Flagged(value, bilinear)) == if bilinear then Bilinear else Nearest
  {
  }

  lemma LayoutFields(s: Snapshot)
    requires Representable(s)
    ensures var b := Layout(s);
      && FromLittleEndian(b[0..4]) == MAGIC
      && FromLittleEndian(b[4..8]) == s.generation
      && FromLittleEndian(b[8..16]) == Unsigned64(s.observedYaw)
      && FromLittleEndian(b[16..20]) == s.sas
      && b[20] == SCHEMA && b[21] == s.shell
      && b[22] == Flagged(s.availability, s.availabilityBilinear) && b[23] == Flagged(s.notice, s.noticeBilinear)
  {
    hide FromLittleEndian, LittleEndian, Flagged;
    Widths();
    LittleEndianRoundTrip(MAGIC, 4);
    LittleEndianRoundTrip(s.generation, 4);
    LittleEndianRoundTrip(Unsigned64(s.observedYaw), 8);
    LittleEndianRoundTrip(s.sas, 4);
    var b := Layout(s);
    assert b[0..4] == LittleEndian(MAGIC, 4);
    assert b[4..8] == LittleEndian(s.generation, 4);
    assert b[8..16] == LittleEndian(Unsigned64(s.observedYaw), 8);
    assert b[16..20] == LittleEndian(s.sas, 4);
  }

  /** The shared layout is little-endian, and its fields lie where the other CPU's declaration puts them. */
  lemma LayoutBytes(s: Snapshot)
    requires Representable(s)
    ensures var b := Layout(s);
      && b[0..4] == [0x4c, 0x57, 0x53, 0x44]
      && b[4] as int == s.generation % 256 && b[8] as int == Unsigned64(s.observedYaw) % 256
      && b[16] as int == s.sas % 256 && b[20] == 2 && b[21] == s.shell
      && b[22] == (if s.availabilityBilinear then s.availability | 0x80 else s.availability)
      && b[23] == (if s.noticeBilinear then s.notice | 0x80 else s.notice)
  {
    hide LittleEndian, FromLittleEndian;
    Widths();
    FirstByte(s.generation, 4);
    FirstByte(Unsigned64(s.observedYaw), 8);
    FirstByte(s.sas, 4);
    MagicBytes();
    assert Layout(s)[0..4] == LittleEndian(MAGIC, 4);
  }

  lemma FirstByte(v: nat, n: nat)
    requires 0 < n && v < Span(n)
    ensures LittleEndian(v, n)[0] as int == v % 256
  {
    ByteOfInt(v % 256);
  }

  lemma MagicBytes()
    ensures Span(4) == U32_MAX + 1
    ensures LittleEndian(MAGIC, 4) == [0x4c, 0x57, 0x53, 0x44]
  {
    Widths();
    LittleEndianCanonical([0x4c, 0x57, 0x53, 0x44]);
  }

  lemma {:induction false} LittleEndianCanonical(s: seq<Byte>)
    ensures LittleEndian(FromLittleEndian(s), |s|) == s
  {
    if |s| > 0 {
      LittleEndianCanonical(s[1..]);
      IntOfByte(s[0]);
      assert FromLittleEndian(s) / 256 == FromLittleEndian(s[1..]);
      assert FromLittleEndian(s) % 256 == s[0] as int;
    }
  }

  /** A stable copy of a snapshot decodes to its meaning, exactly when it has one. */
  lemma DecodeOfLayout(s: Snapshot)
    requires Representable(s) && s.generation > 0
    ensures Decode(s.generation, Layout(s), s.generation) ==
      if Meaningful(s) then Ok(Meaning(s)) else Err(InvalidSemanticValue)
  {
    hide FromLittleEndian, LittleEndian, Flagged, FilterOf, Layout;
    LayoutFields(s);
    FlagRoundTrip(s.availability, s.availabilityBilinear);
    FlagRoundTrip(s.notice, s.noticeBilinear);
  }

  // The two programs.

  datatype Publisher = Resting | Copying(snapshot: Snapshot, done: nat)

  datatype Reader = Away | Reading(before: nat, copy: seq<Byte>)

  /** `begun` counts publications begun (the publisher's `world_generation`), `history` lists the completed ones
      and `accepted` what the reader decoded successfully. */
  datatype State = State(
    publication: nat, memory: seq<Byte>, begun: nat, publisher: Publisher,
    reader: Reader, history: seq<Snapshot>, accepted: seq<World>)

  datatype Event =
    | Begin(values: Snapshot) | StoreByte | End
    | Load | CopyByte | LoadAgain

  function Next(s: State, e: Event): Option<State>
    requires |s.memory| == SNAPSHOT_LEN
    requires s.publisher.Copying? ==> Representable(s.publisher.snapshot)
  {
    match e
    case Begin(values) =>
      var snapshot := values.(generation := s.begun + 1);
      if s.publisher.Resting? && s.begun < U32_MAX && Representable(snapshot) then
        Some(s.(begun := s.begun + 1, publication := 0, publisher := Copying(snapshot, 0)))
      else None
    case StoreByte =>
      if s.publisher.Copying? && s.publisher.done < SNAPSHOT_LEN then
        var i := s.publisher.done;
        Some(s.(memory := s.memory[i := Layout(s.publisher.snapshot)[i]], publisher := s.publisher.(done := i + 1)))
      else None
    case End =>
      if s.publisher.Copying? && s.publisher.done == SNAPSHOT_LEN then
        Some(s.(publication := s.begun, publisher := Resting, history := s.history + [s.publisher.snapshot]))
      else None
    case Load =>
      if s.reader.Away? then Some(s.(reader := Reading(s.publication, []))) else None
    case CopyByte =>
      if s.reader.Reading? && |s.reader.copy| < SNAPSHOT_LEN then
        Some(s.(reader := s.reader.(copy := s.reader.copy + [s.memory[|s.reader.copy|]])))
      else None
    case LoadAgain =>
      if s.reader.Reading? && |s.reader.copy| == SNAPSHOT_LEN then
        var decoded := Decode(s.reader.before, s.reader.copy, s.publication);
        Some(s.(reader := Away, accepted := if decoded.Ok? then s.accepted + [decoded.world] else s.accepted))
      else None
  }

  predicate Start(s: State) {
    s.publication == 0 && |s.memory| == SNAPSHOT_LEN && s.begun == 0 && s.publisher.Resting? && s.reader.Away?
    && s.history == [] && s.accepted == []
  }

  predicate Shaped(s: State) {
    && |s.memory| == SNAPSHOT_LEN && s.begun <= U32_MAX
    && |s.history| == (if s.publisher.Resting? then s.begun else s.begun - 1)
    && (forall i :: 0 <= i < |s.history| ==> Representable(s.history[i]) && s.history[i].generation == i + 1)
    && (s.publisher.Copying? ==>
          && Representable(s.publisher.snapshot) && s.publisher.snapshot.generation == s.begun
          && s.publisher.done <= SNAPSHOT_LEN)
  }

  /** While a publication is visible, the memory holds exactly it. */
  predicate MemoryAgrees(s: State)
    requires Shaped(s)
  {
    match s.publisher
    case Resting =>
      && s.publication == s.begun
      && (s.begun > 0 ==> s.memory == Layout(s.history[s.begun - 1]))
    case Copying(snapshot, done) =>
      s.publication == 0 && s.memory[..done] == Layout(snapshot)[..done]
  }

  /** As long as the word still shows what the reader loaded, its copy is a prefix of that snapshot. */
  predicate CopyAgrees(s: State)
    requires Shaped(s)
  {
    s.reader.Reading? ==>
      && s.reader.before <= |s.history| && |s.reader.copy| <= SNAPSHOT_LEN
      && (s.reader.before > 0 && s.publication == s.reader.before && s.publisher.Resting? ==>
            s.reader.copy == Layout(s.history[s.begun - 1])[..|s.reader.copy|])
  }

  /** Everything accepted is the meaning of one completed publication, in order of generation. */
  predicate AcceptedAgrees(s: State) {
    && (forall i :: 0 <= i < |s.accepted| ==>
          && 1 <= s.accepted[i].generation <= |s.history|
          && s.accepted[i] == Meaning(s.history[s.accepted[i].generation - 1]))
    && (forall i, j :: 0 <= i < j < |s.accepted| ==> s.accepted[i].generation <= s.accepted[j].generation)
  }

  predicate Invariant(s: State) {
    Shaped(s) && MemoryAgrees(s) && CopyAgrees(s) && AcceptedAgrees(s)
  }

  lemma PublisherKeeps(s: State, e: Event)
    requires Invariant(s) && Next(s, e).Some? && (e.Begin? || e.StoreByte? || e.End?)
    ensures Invariant(Next(s, e).value)
  {
    hide Layout, Decode, Meaning;
    var t := Next(s, e).value;
    if e.StoreByte? {
      var i := s.publisher.done;
      assert t.memory[..i + 1] == s.memory[..i] + [Layout(s.publisher.snapshot)[i]];
      assert Layout(s.publisher.snapshot)[..i + 1] == Layout(s.publisher.snapshot)[..i] + [Layout(s.publisher.snapshot)[i]];
    }
    if e.End? {
      var l := Layout(s.publisher.snapshot);
      assert s.memory == s.memory[..SNAPSHOT_LEN] == l[..SNAPSHOT_LEN] == l;
    }
  }

  /** The heart of the matter: an accepted copy was taken while one publication stood still. */
  lemma AcceptedIsPublished(s: State)
    requires Invariant(s) && s.reader.Reading? && |s.reader.copy| == SNAPSHOT_LEN
    requires Decode(s.reader.before, s.reader.copy, s.publication).Ok?
    ensures s.publisher.Resting? && s.reader.before == s.begun == |s.history| > 0
    ensures s.history[s.begun - 1].generation == s.begun
    ensures Decode(s.reader.before, s.reader.copy, s.publication) == Ok(Meaning(s.history[s.begun - 1]))
  {
    var published := s.history[s.begun - 1];
    assert s.reader.copy == Layout(published);
    DecodeOfLayout(published);
  }

  lemma CopyingKeeps(s: State, e: Event)
    requires Invariant(s) && Next(s, e).Some? && (e.Load? || e.CopyByte?)
    ensures Invariant(Next(s, e).value)
  {
    hide Layout, Decode, Meaning;
    if e.CopyByte? {
      var i := |s.reader.copy|;
      if s.reader.before > 0 && s.publication == s.reader.before && s.publisher.Resting? {
        var l := Layout(s.history[s.begun - 1]);
        assert l[..i + 1] == l[..i] + [l[i]];
      }
    }
  }

  lemma AcceptedGrows(s: State, t: State)
    requires AcceptedAgrees(s) && t.history == s.history && |s.history| > 0
    requires t.accepted == s.accepted + [Meaning(s.history[|s.history| - 1])]
    requires s.history[|s.history| - 1].generation == |s.history|
    ensures AcceptedAgrees(t)
  {
    MeaningKeepsGeneration(s.history[|s.history| - 1]);
    hide Meaning;
  }

  lemma ReaderLeaves(s: State, t: State)
    requires Shaped(s) && MemoryAgrees(s)
    requires t == s.(reader := Away, accepted := t.accepted)
    ensures Shaped(t) && MemoryAgrees(t) && CopyAgrees(t)
  {
    hide Layout, Representable;
  }

  lemma LeavingEffect(s: State)
    requires Shaped(s) && Next(s, LoadAgain).Some?
    ensures var t := Next(s, LoadAgain).value;
      var decoded := Decode(s.reader.before, s.reader.copy, s.publication);
      && s.reader.Reading? && |s.reader.copy| == SNAPSHOT_LEN
      && t == s.(reader := Away, accepted := t.accepted)
      && t.accepted == if decoded.Ok? then s.accepted + [decoded.world] else s.accepted
  {
    hide Layout, Decode, Meaning;
  }

  lemma AcceptingKeeps(s: State)
    requires Invariant(s) && Next(s, LoadAgain).Some?
    ensures Invariant(Next(s, LoadAgain).value)
  {
    LeavingEffect(s);
    LeavingKeeps(s, Next(s, LoadAgain).value);
  }

  lemma LeavingKeeps(s: State, t: State)
    requires Invariant(s) && s.reader.Reading? && |s.reader.copy| == SNAPSHOT_LEN
    requires t == s.(reader := Away, accepted := t.accepted)
    requires var decoded := Decode(s.reader.before, s.reader.copy, s.publication);
      t.accepted == if decoded.Ok? then s.accepted + [decoded.world] else s.accepted
    ensures Invariant(t)
  {
    hide Layout, Decode, Meaning, MemoryAgrees, CopyAgrees, Shaped, AcceptedAgrees;
    ReaderLeaves(s, t);
    if Decode(s.reader.before, s.reader.copy, s.publication).Ok? {
      AcceptedIsPublished(s);
      AcceptedGrows(s, t);
    } else {
      SameAccepted(s, t);
    }
  }

  lemma SameAccepted(s: State, t: State)
    requires AcceptedAgrees(s) && t.history == s.history && t.accepted == s.accepted
    ensures AcceptedAgrees(t)
  {
    hide Meaning;
  }

  lemma MeaningKeepsGeneration(s: Snapshot)
    ensures Meaning(s).generation == s.generation
  {
  }

  predicate IsRun(s: State, events: seq<Event>)
    decreases |events|
  {
    |events| == 0 ||
    (|s.memory| == SNAPSHOT_LEN && (s.publisher.Copying? ==> Representable(s.publisher.snapshot)) &&
     Next(s, events[0]).Some? && IsRun(Next(s, events[0]).value, events[1..]))
  }

  function EndOf(s: State, events: seq<Event>): State
    requires IsRun(s, events)
    decreases |events|
  {
    if |events| == 0 then s else EndOf(Next(s, events[0]).value, events[1..])
  }

  lemma {:induction false} RunKeepsInvariant(s: State, events: seq<Event>)
    requires Invariant(s) && IsRun(s, events)
    ensures Invariant(EndOf(s, events))
    decreases |events|
  {
    hide Next, Invariant;
    if |events| > 0 {
      match events[0] {
        case LoadAgain => AcceptingKeeps(s);
        case Load => CopyingKeeps(s, events[0]);
        case CopyByte => CopyingKeeps(s, events[0]);
        case _ => PublisherKeeps(s, events[0]);
      }
      RunKeepsInvariant(Next(s, events[0]).value, events[1..]);
    }
  }

  /** Every snapshot a reader accepts, in any interleaving of fewer than 2^32 publications, is exactly one
      completed publication, and accepted generations never decrease. */
  lemma NoTornSnapshot(s: State, events: seq<Event>)
    requires Start(s) && IsRun(s, events)
    ensures AcceptedAgrees(EndOf(s, events))
  {
    RunKeepsInvariant(s, events);
  }

  // An undisturbed exchange.

  lemma {:induction false} RunsOn(s: State, front: seq<Event>, back: seq<Event>)
    requires IsRun(s, front) && IsRun(EndOf(s, front), back)
    ensures IsRun(s, front + back) && EndOf(s, front + back) == EndOf(EndOf(s, front), back)
    decreases |front|
  {
    hide Next;
    if |front| == 0 {
      assert front + back == back;
    } else {
      assert (front + back)[1..] == front[1..] + back;
      RunsOn(Next(s, front[0]).value, front[1..], back);
    }
  }

  function Times(e: Event, n: nat): seq<Event> {
    seq(n, _ => e)
  }

  lemma {:induction false} StoresAll(s: State, n: nat)
    requires Shaped(s) && s.publisher.Copying? && s.publisher.done + n == SNAPSHOT_LEN
    ensures IsRun(s, Times(StoreByte, n))
    ensures var t := EndOf(s, Times(StoreByte, n));
      t == s.(memory := t.memory, publisher := s.publisher.(done := SNAPSHOT_LEN))
    decreases n
  {
    hide Layout;
    if n > 0 {
      assert Times(StoreByte, n)[1..] == Times(StoreByte, n - 1);
      StoresAll(Next(s, StoreByte).value, n - 1);
    }
  }

  lemma {:induction false} CopiesAll(s: State, n: nat)
    requires Shaped(s) && s.reader.Reading? && |s.reader.copy| + n == SNAPSHOT_LEN
    ensures IsRun(s, Times(CopyByte, n))
    ensures var t := EndOf(s, Times(CopyByte, n));
      t.reader.Reading? && |t.reader.copy| == SNAPSHOT_LEN && t == s.(reader := s.reader.(copy := t.reader.copy))
    decreases n
  {
    hide Layout;
    if n > 0 {
      assert Times(CopyByte, n)[1..] == Times(CopyByte, n - 1);
      CopiesAll(Next(s, CopyByte).value, n - 1);
    }
  }

  lemma OneEvent(s: State, e: Event)
    requires Shaped(s) && Next(s, e).Some?
    ensures IsRun(s, [e]) && EndOf(s, [e]) == Next(s, e).value
  {
    hide Next;
  }

  /** The statements of one publication, and of one read. */
  function PublicationOf(values: Snapshot): seq<Event> {
    [Begin(values)] + Times(StoreByte, SNAPSHOT_LEN) + [End]
  }

  function ReadingOnce(): seq<Event> {
    [Load] + Times(CopyByte, SNAPSHOT_LEN) + [LoadAgain]
  }

  lemma QuietPublication(s: State, values: Snapshot)
    requires Invariant(s) && s.publisher.Resting? && s.begun < U32_MAX
    requires Representable(values.(generation := s.begun + 1))
    ensures IsRun(s, PublicationOf(values)) && Invariant(EndOf(s, PublicationOf(values)))
    ensures var t := EndOf(s, PublicationOf(values));
      && t == s.(memory := t.memory, begun := s.begun + 1, publication := s.begun + 1,
                 history := s.history + [values.(generation := s.begun + 1)])
  {
    hide Layout, Invariant, IsRun, EndOf, MemoryAgrees, CopyAgrees, AcceptedAgrees;
    InvariantShaped(s);
    var s1 := Next(s, Begin(values)).value;
    OneEvent(s, Begin(values));
    PublisherKeeps(s, Begin(values));
    InvariantShaped(s1);
    StoresAll(s1, SNAPSHOT_LEN);
    RunsOn(s, [Begin(values)], Times(StoreByte, SNAPSHOT_LEN));
    var s2 := EndOf(s1, Times(StoreByte, SNAPSHOT_LEN));
    RunKeepsInvariant(s1, Times(StoreByte, SNAPSHOT_LEN));
    InvariantShaped(s2);
    OneEvent(s2, End);
    RunsOn(s, [Begin(values)] + Times(StoreByte, SNAPSHOT_LEN), [End]);
    PublisherKeeps(s2, End);
  }

  lemma InvariantShaped(s: State)
    requires Invariant(s)
    ensures Shaped(s)
  {
  }

  /** A read between two publications accepts exactly the last one, if it has a meaning, and otherwise nothing. */
  lemma QuietRead(s: State)
    requires Invariant(s) && s.publisher.Resting? && s.reader.Away? && s.begun > 0
    ensures |s.history| == s.begun
    ensures IsRun(s, ReadingOnce())
    ensures var last := s.history[s.begun - 1];
      EndOf(s, ReadingOnce()) == if Meaningful(last) then s.(accepted := s.accepted + [Meaning(last)]) else s
  {
    hide Layout, Invariant, IsRun, EndOf, AcceptedAgrees, Decode, Meaning, Meaningful;
    InvariantShaped(s);
    var s1 := Next(s, Load).value;
    OneEvent(s, Load);
    CopyingKeeps(s, Load);
    InvariantShaped(s1);
    CopiesAll(s1, SNAPSHOT_LEN);
    RunsOn(s, [Load], Times(CopyByte, SNAPSHOT_LEN));
    var s2 := EndOf(s1, Times(CopyByte, SNAPSHOT_LEN));
    RunKeepsInvariant(s1, Times(CopyByte, SNAPSHOT_LEN));
    CopyIsLast(s2);
    OneEvent(s2, LoadAgain);
    RunsOn(s, [Load] + Times(CopyByte, SNAPSHOT_LEN), [LoadAgain]);
    DecodeOfLayout(s.history[s.begun - 1]);
  }

  lemma CopyIsLast(s: State)
    requires Invariant(s) && s.publisher.Resting? && s.begun > 0
    requires s.reader.Reading? && s.reader.before == s.publication && |s.reader.copy| == SNAPSHOT_LEN
    ensures Shaped(s) && s.publication == s.begun == |s.history|
    ensures s.history[s.begun - 1].generation == s.begun && Representable(s.history[s.begun - 1])
    ensures s.reader.copy == Layout(s.history[s.begun - 1])
  {
    hide Layout, Representable;
  }

  /** Publishing and then reading, undisturbed, delivers what was published: nothing is dropped or held back. */
  lemma QuietExchange(s: State, values: Snapshot)
    requires Invariant(s) && s.publisher.Resting? && s.reader.Away? && s.begun < U32_MAX
    requires Representable(values.(generation := s.begun + 1)) && Meaningful(values)
    ensures IsRun(s, PublicationOf(values) + ReadingOnce())
    ensures EndOf(s, PublicationOf(values) + ReadingOnce()).accepted
         == s.accepted + [Meaning(values.(generation := s.begun + 1))]
  {
    hide Invariant, IsRun, EndOf, Meaning, PublicationOf, ReadingOnce;
    QuietPublication(s, values);
    QuietRead(EndOf(s, PublicationOf(values)));
    RunsOn(s, PublicationOf(values), ReadingOnce());
  }

  /** Why a read is refused before anything of its bytes is believed. */
  lemma RefusedWords(before: nat, payload: seq<Byte>, after: nat)
    requires |payload| == SNAPSHOT_LEN
    ensures Decode(before, payload, after) == Err(Unpublished) <==> before == 0 || after == 0
    ensures Decode(before, payload, after) == Err(Unstable) <==> before != 0 && after != 0 && before != after
    ensures Decode(before, payload, after).Ok? ==>
      before == after == FromLittleEndian(payload[4..8]) && payload[20] == 2 && payload[21] <= 4
  {
    hide FromLittleEndian;
  }
}
