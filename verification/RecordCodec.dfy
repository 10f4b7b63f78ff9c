/** The flash record: a 24-byte header (schema, state, length, sequence, generation, CRC) and a payload. */
module RecordCodec {
  import opened Common
  import opened Bytes
  import opened Crc32

  const SCHEMA_VERSION: Byte := 1
  const NVS_HEADER_LEN: nat := 24
  const NVS_PAYLOAD_MAX: nat := 160

  datatype PeerState = Unpaired | Pending | Committing | Paired | Revoking

  datatype RecordState = Identity(peer: PeerState) | ConfigPresent | ConfigCleared

  datatype DecodeError =
    Truncated | Oversize | UnknownSchema | UnknownState | InvalidLength | InvalidCrc | ConflictingSlots

  datatype Result<+T> = Ok(value: T) | Err(error: DecodeError)

  datatype Record = Record(sequence: nat, generation: nat, state: RecordState, payload: seq<Byte>)

  /** What the field widths and `encode_record`'s length check admit. */
  predicate Encodable(r: Record) {
    r.sequence <= U64_MAX && r.generation <= U64_MAX && |r.payload| <= NVS_PAYLOAD_MAX
  }

  function Wire(s: RecordState): Byte {
    match s
    case Identity(Unpaired) => 0
    case Identity(Pending) => 1
    case Identity(Committing) => 2
    case Identity(Paired) => 3
    case Identity(Revoking) => 4
    case ConfigPresent => 0x10
    case ConfigCleared => 0x11
  }

  function StateOfWire(b: Byte): Option<RecordState> {
    match b as int
    case 0 => Some(Identity(Unpaired))
    case 1 => Some(Identity(Pending))
    case 2 => Some(Identity(Committing))
    case 3 => Some(Identity(Paired))
    case 4 => Some(Identity(Revoking))
    case 16 => Some(ConfigPresent)
    case 17 => Some(ConfigCleared)
    case _ => None
  }

  lemma WireRoundTrip(s: RecordState, b: Byte)
    ensures StateOfWire(Wire(s)) == Some(s)
    ensures StateOfWire(b).Some? ==> Wire(StateOfWire(b).value) == b
  {
  }

  const NO_CRC: seq<Byte> := [0, 0, 0, 0]

  function Checksum(data: seq<Byte>): bv32 {
    Complement(Update(0xffff_ffff, data))
  }

  function Complement(crc: bv32): bv32 {
    !crc
  }

  function CrcBytes(crc: bv32): (s: seq<Byte>)
    ensures |s| == 4
  {
    [(crc >> 24) as Byte, ((crc >> 16) & 0xff) as Byte, ((crc >> 8) & 0xff) as Byte, (crc & 0xff) as Byte]
  }

  function CrcOfBytes(s: seq<Byte>): bv32
    requires |s| == 4
  {
    ((s[0] as bv32) << 24) | ((s[1] as bv32) << 16) | ((s[2] as bv32) << 8) | (s[3] as bv32)
  }

  lemma CrcBytesRoundTrip(crc: bv32)
    ensures CrcOfBytes(CrcBytes(crc)) == crc
  {
  }

  lemma CrcBytesCanonical(s: seq<Byte>)
    requires |s| == 4
    ensures CrcBytes(CrcOfBytes(s)) == s
  {
  }

  lemma ComplementInjective(a: bv32, b: bv32)
    requires Complement(a) == Complement(b)
    ensures a == b
  {
  }

  function Header(r: Record): (h: seq<Byte>)
    requires Encodable(r)
    ensures |h| == 20
  {
    Widths();
    [SCHEMA_VERSION, Wire(r.state)]
    + BigEndian(|r.payload|, 2) + BigEndian(r.sequence, 8) + BigEndian(r.generation, 8)
  }

  /** The bytes `encode_record` leaves in the output. */
  function Encoded(r: Record): (s: seq<Byte>)
    requires Encodable(r)
    ensures |s| == NVS_HEADER_LEN + |r.payload|
  {
    var crc := Checksum(Header(r) + NO_CRC + r.payload);
    Header(r) + CrcBytes(crc) + r.payload
  }

  /** The input with its CRC field blanked: what both sides sum. */
  function Blanked(input: seq<Byte>): (s: seq<Byte>)
    requires |input| >= NVS_HEADER_LEN
    ensures |s| == |input|
  {
    input[..20] + NO_CRC + input[24..]
  }

  /** `decode_record`, branch for branch. */
  function Decode(input: seq<Byte>): Result<Record> {
    if |input| < NVS_HEADER_LEN then Err(Truncated)
    else if input[0] != SCHEMA_VERSION then Err(UnknownSchema)
    else
      var state := StateOfWire(input[1]);
      if state.None? then Err(UnknownState)
      else
        var length := FromBigEndian(input[2..4]);
        if length > NVS_PAYLOAD_MAX || |input| != NVS_HEADER_LEN + length then Err(InvalidLength)
        else
          var header := input[..20] + NO_CRC;
          var crc := Update(0xffff_ffff, header);
          var summed := Update(crc, input[NVS_HEADER_LEN..]);
          if Complement(summed) != CrcOfBytes(input[20..24]) then Err(InvalidCrc)
          else
            Ok(Record(FromBigEndian(input[4..12]), FromBigEndian(input[12..20]), state.value, input[24..]))
  }

  lemma EncodedFields(r: Record)
    requires Encodable(r)
    ensures var s := Encoded(r);
      && s[0] == SCHEMA_VERSION && s[1] == Wire(r.state)
      && s[..20] == Header(r) && s[24..] == r.payload
      && s[20..24] == CrcBytes(Checksum(Header(r) + NO_CRC + r.payload))
      && s[2..4] == Header(r)[2..4] && s[4..12] == Header(r)[4..12] && s[12..20] == Header(r)[12..20]
  {
    hide Update, Complement, CrcBytes, CrcOfBytes, Wire;
    var s := Encoded(r);
    assert s[2..4] == s[..20][2..4] && s[4..12] == s[..20][4..12] && s[12..20] == s[..20][12..20];
  }

  lemma HeaderFields(r: Record)
    requires Encodable(r)
    ensures var h := Header(r);
      && FromBigEndian(h[2..4]) == |r.payload|
      && FromBigEndian(h[4..12]) == r.sequence
      && FromBigEndian(h[12..20]) == r.generation
  {
    hide Wire, FromBigEndian, BigEndian;
    Widths();
    BigEndianRoundTrip(|r.payload|, 2);
    BigEndianRoundTrip(r.sequence, 8);
    BigEndianRoundTrip(r.generation, 8);
    assert Header(r)[2..4] == BigEndian(|r.payload|, 2);
    assert Header(r)[4..12] == BigEndian(r.sequence, 8);
    assert Header(r)[12..20] == BigEndian(r.generation, 8);
  }

  /** Decoding undoes encoding. */
  lemma DecodeUndoesEncode(r: Record)
    requires Encodable(r)
    ensures Decode(Encoded(r)) == Ok(r)
  {
    hide Update, Complement, CrcBytes, CrcOfBytes, Wire, StateOfWire, FromBigEndian, BigEndian, Header, Encoded;
    EncodedFields(r);
    HeaderFields(r);
    WireRoundTrip(r.state, 0);
    Concatenation(0xffff_ffff, Header(r) + NO_CRC, r.payload);
    CrcBytesRoundTrip(Checksum(Header(r) + NO_CRC + r.payload));
  }

  /** Encoding undoes decoding: a record has exactly one accepted byte form. */
  lemma EncodeUndoesDecode(input: seq<Byte>)
    requires Decode(input).Ok?
    ensures Encodable(Decode(input).value)
    ensures Encoded(Decode(input).value) == input
  {
    hide Update, Complement, CrcBytes, CrcOfBytes, Wire, StateOfWire, FromBigEndian, BigEndian;
    var r := Decode(input).value;
    Widths();
    assert Encodable(r);
    WireRoundTrip(r.state, input[1]);
    BigEndianCanonical(input[2..4]);
    BigEndianCanonical(input[4..12]);
    BigEndianCanonical(input[12..20]);
    CrcBytesCanonical(input[20..24]);
    assert Header(r) == input[..20] by {
      assert input[..20] == [input[0], input[1]] + input[2..4] + input[4..12] + input[12..20];
    }
    Concatenation(0xffff_ffff, Header(r) + NO_CRC, r.payload);
    assert input == input[..20] + input[20..24] + input[24..];
  }

  /** The two inputs differ only inside one run of at most four bytes. */
  predicate DifferWithin(a: seq<Byte>, b: seq<Byte>, at: nat) {
    && |a| == |b|
    && forall i :: 0 <= i < |a| && !(at <= i < at + 4) ==> a[i] == b[i]
  }

  /** The run lies wholly outside or wholly inside the CRC field. */
  predicate ClearOfCrcEdge(at: nat) {
    at + 4 <= 20 || at == 20 || 24 <= at
  }

  lemma EmptyBurst(a: seq<Byte>, b: seq<Byte>, at: nat)
    requires DifferWithin(a, b, at) && at >= |a|
    ensures a == b
  {
  }

  lemma SumInThree(x: seq<Byte>, at: nat, end: nat)
    requires at <= end <= |x|
    ensures Update(0xffff_ffff, x) == Update(Update(Update(0xffff_ffff, x[..at]), x[at..end]), x[end..])
  {
    hide Update;
    assert x == x[..at] + (x[at..end] + x[end..]);
    Concatenation(0xffff_ffff, x[..at], x[at..end] + x[end..]);
    Concatenation(Update(0xffff_ffff, x[..at]), x[at..end], x[end..]);
  }

  lemma SameAround(a: seq<Byte>, b: seq<Byte>, at: nat, end: nat)
    requires |a| >= NVS_HEADER_LEN && DifferWithin(a, b, at) && at <= end <= |a| && (end == |a| || end == at + 4)
    requires at + 4 <= 20 || 24 <= at
    ensures Blanked(a)[..at] == Blanked(b)[..at] && Blanked(a)[end..] == Blanked(b)[end..]
    ensures a[20..24] == b[20..24]
  {
  }

  lemma SameParts(x: seq<Byte>, y: seq<Byte>, at: nat, end: nat)
    requires at <= end <= |x| == |y|
    requires x[..at] == y[..at] && x[at..end] == y[at..end] && x[end..] == y[end..]
    ensures x == y
  {
    assert x == x[..at] + x[at..end] + x[end..] && y == y[..at] + y[at..end] + y[end..];
  }

  lemma OutsideBurstChangesSum(a: seq<Byte>, b: seq<Byte>, at: nat)
    requires |a| >= NVS_HEADER_LEN && DifferWithin(a, b, at) && a != b
    requires at + 4 <= 20 || 24 <= at
    ensures Update(0xffff_ffff, Blanked(a)) != Update(0xffff_ffff, Blanked(b))
  {
    hide Update;
    if at >= |a| {
      EmptyBurst(a, b, at);
    }
    var x, y := Blanked(a), Blanked(b);
    hide Blanked;
    var end := if at + 4 <= |x| then at + 4 else |x|;
    SameAround(a, b, at, end);
    var start := Update(0xffff_ffff, x[..at]);
    SumInThree(x, at, end);
    SumInThree(y, at, end);
    if Update(0xffff_ffff, x) == Update(0xffff_ffff, y) {
      Injective(Update(start, x[at..end]), Update(start, y[at..end]), x[end..]);
      BurstDetected(start, x[at..end], y[at..end]);
      SameParts(x, y, at, end);
      SameBlankedSameInput(a, b);
    }
  }

  lemma SameBlankedSameInput(a: seq<Byte>, b: seq<Byte>)
    requires |a| == |b| >= NVS_HEADER_LEN
    requires Blanked(a) == Blanked(b) && a[20..24] == b[20..24]
    ensures a == b
  {
    assert a == a[..20] + a[20..24] + a[24..] && b == b[..20] + b[20..24] + b[24..];
    assert a[..20] == Blanked(a)[..20] && a[24..] == Blanked(a)[24..];
    assert b[..20] == Blanked(b)[..20] && b[24..] == Blanked(b)[24..];
  }

  lemma AcceptedSum(input: seq<Byte>)
    requires Decode(input).Ok?
    ensures Complement(Update(0xffff_ffff, Blanked(input))) == CrcOfBytes(input[20..24])
  {
    hide Update, Complement, CrcOfBytes, StateOfWire, FromBigEndian;
    assert Blanked(input) == (input[..20] + NO_CRC) + input[24..];
    Concatenation(0xffff_ffff, input[..20] + NO_CRC, input[24..]);
  }

  /** Any alteration of an accepted record confined to four consecutive bytes clear of the CRC field's edges
      is rejected. */
  lemma BurstRejected(accepted: seq<Byte>, altered: seq<Byte>, at: nat)
    requires Decode(accepted).Ok?
    requires DifferWithin(accepted, altered, at) && altered != accepted && ClearOfCrcEdge(at)
    ensures Decode(altered).Err?
  {
    hide Update, Complement, CrcOfBytes, StateOfWire, FromBigEndian;
    if Decode(altered).Ok? {
      AcceptedSum(accepted);
      AcceptedSum(altered);
      if at == 20 {
        assert Blanked(accepted) == Blanked(altered);
        CrcBytesCanonical(accepted[20..24]);
        CrcBytesCanonical(altered[20..24]);
        SameBlankedSameInput(accepted, altered);
      } else {
        assert accepted[20..24] == altered[20..24];
        OutsideBurstChangesSum(accepted, altered, at);
        ComplementInjective(Update(0xffff_ffff, Blanked(accepted)), Update(0xffff_ffff, Blanked(altered)));
      }
    }
  }

  /** An interrupted write: every proper prefix of a record is rejected. */
  lemma PrefixRejected(r: Record, k: nat)
    requires Encodable(r) && k < |Encoded(r)|
    ensures Decode(Encoded(r)[..k]).Err?
  {
    hide Update, Complement, CrcBytes, CrcOfBytes, Wire, StateOfWire, FromBigEndian, BigEndian, Header, Encoded;
    var s := Encoded(r);
    if k >= NVS_HEADER_LEN {
      EncodedFields(r);
      HeaderFields(r);
      assert s[..k][2..4] == s[2..4];
    }
  }

  /** Distinct records have distinct encodings. */
  lemma EncodedInjective(a: Record, b: Record)
    requires Encodable(a) && Encodable(b) && Encoded(a) == Encoded(b)
    ensures a == b
  {
    DecodeUndoesEncode(a);
    DecodeUndoesEncode(b);
  }

  /** The bytes of a record: schema 1, the state's byte, then the length, the sequence and the generation with their
      most significant byte first, the checksum, and the payload. */
  lemma WireLayout(r: Record)
    requires Encodable(r)
    ensures var s := Encoded(r);
      && s[0] == 1
      && s[1] == (match r.state
                  case Identity(Unpaired) => 0
                  case Identity(Pending) => 1
                  case Identity(Committing) => 2
                  case Identity(Paired) => 3
                  case Identity(Revoking) => 4
                  case ConfigPresent => 16
                  case ConfigCleared => 17)
      && s[2] as int == |r.payload| / 256 && s[3] as int == |r.payload| % 256
      && s[11] as int == r.sequence % 256 && s[19] as int == r.generation % 256
      && s[24..] == r.payload
  {
    hide Update, Complement, CrcBytes, BigEndian, FromBigEndian, Header, Encoded;
    EncodedFields(r);
    HeaderBytes(r);
    var s, h := Encoded(r), Header(r);
    assert s[2] == s[..20][2] && s[3] == s[..20][3] && s[11] == s[..20][11] && s[19] == s[..20][19];
  }

  lemma HeaderBytes(r: Record)
    requires Encodable(r)
    ensures var h := Header(r);
      && h[2] as int == |r.payload| / 256 && h[3] as int == |r.payload| % 256
      && h[11] as int == r.sequence % 256 && h[19] as int == r.generation % 256
  {
    hide BigEndian, FromBigEndian, Wire;
    Widths();
    LastByte(|r.payload|, 2);
    LastByte(|r.payload| / 256, 1);
    LastByte(r.sequence, 8);
    LastByte(r.generation, 8);
  }

  lemma LastByte(v: nat, n: nat)
    requires 0 < n && v < Span(n)
    ensures v / 256 < Span(n - 1)
    ensures BigEndian(v, n) == BigEndian(v / 256, n - 1) + [(v % 256) as Byte]
    ensures BigEndian(v, n)[n - 1] as int == v % 256
  {
    ByteOfInt(v % 256);
  }

  /** Why an input is refused; the first reason in this order is the one reported. */
  lemma RefusalsExactly(input: seq<Byte>)
    ensures Decode(input) == Err(Truncated) <==> |input| < 24
    ensures |input| >= 24 ==> (Decode(input) == Err(UnknownSchema) <==> input[0] != 1)
    ensures |input| >= 24 && input[0] == 1 ==>
      (Decode(input) == Err(UnknownState) <==> input[1] !in {0, 1, 2, 3, 4, 16, 17})
    ensures |input| >= 24 && input[0] == 1 && input[1] in {0, 1, 2, 3, 4, 16, 17} ==>
      var length := 256 * (input[2] as int) + input[3] as int;
      && (Decode(input) == Err(InvalidLength) <==> length > 160 || |input| != 24 + length)
      && (Decode(input) == Err(InvalidCrc) <==>
            length <= 160 && |input| == 24 + length && Checksum(Blanked(input)) != CrcOfBytes(input[20..24]))
      && (Decode(input).Ok? || Decode(input).error in {InvalidLength, InvalidCrc})
  {
    hide Update, Complement, CrcOfBytes;
    if |input| >= 24 {
      StateBytes(input[1]);
      LengthOf(input);
      Concatenation(0xffff_ffff, input[..20] + NO_CRC, input[24..]);
      assert Blanked(input) == (input[..20] + NO_CRC) + input[24..];
    }
  }

  lemma StateBytes(b: Byte)
    ensures StateOfWire(b).Some? <==> b in {0, 1, 2, 3, 4, 16, 17}
  {
  }

  lemma LengthOf(input: seq<Byte>)
    requires |input| >= 24
    ensures FromBigEndian(input[2..4]) == 256 * (input[2] as int) + input[3] as int
  {
    var two := input[2..4];
    assert two[..1][..0] == [];
    assert FromBigEndian(two[..1]) == two[0] as int;
  }

  /** `s` with `source` written over it from `at` on. */
  function Spliced(s: seq<Byte>, at: nat, source: seq<Byte>): (r: seq<Byte>)
    requires at + |source| <= |s|
    ensures |r| == |s|
  {
    s[..at] + source + s[at + |source|..]
  }

  lemma SplicedNext(front: seq<Byte>, rest: seq<Byte>, source: seq<Byte>)
    requires |source| <= |rest|
    ensures Spliced(front + rest, |front|, source) == (front + source) + rest[|source|..]
  {
  }

  lemma HeaderWritten(r: Record, before: seq<Byte>)
    requires Encodable(r) && |before| >= NVS_HEADER_LEN + |r.payload|
    ensures var s0 := (Widths(); Spliced(before, 0, [SCHEMA_VERSION, Wire(r.state)]));
            var s1 := Spliced(s0, 2, BigEndian(|r.payload|, 2));
            var s2 := Spliced(s1, 4, BigEndian(r.sequence, 8));
            var s3 := Spliced(s2, 12, BigEndian(r.generation, 8));
            Spliced(Spliced(s3, 20, NO_CRC), 24, r.payload)
            == Header(r) + NO_CRC + r.payload + before[NVS_HEADER_LEN + |r.payload|..]
  {
    hide Wire, BigEndian;
    Widths();
    var lead := [SCHEMA_VERSION, Wire(r.state)];
    var length, sequence, generation := BigEndian(|r.payload|, 2), BigEndian(r.sequence, 8), BigEndian(r.generation, 8);
    assert Spliced(before, 0, lead) == lead + before[2..];
    SplicedNext(lead, before[2..], length);
    assert before[2..][2..] == before[4..];
    SplicedNext(lead + length, before[4..], sequence);
    assert before[4..][8..] == before[12..];
    SplicedNext(lead + length + sequence, before[12..], generation);
    assert before[12..][8..] == before[20..];
    assert lead + length + sequence + generation == Header(r);
    SplicedNext(Header(r), before[20..], NO_CRC);
    assert before[20..][4..] == before[24..];
    SplicedNext(Header(r) + NO_CRC, before[24..], r.payload);
    assert before[24..][|r.payload|..] == before[24 + |r.payload|..];
  }

  lemma CrcWritten(r: Record, rest: seq<Byte>)
    requires Encodable(r)
    ensures Spliced(Header(r) + NO_CRC + r.payload + rest, 20, CrcBytes(Checksum(Header(r) + NO_CRC + r.payload)))
            == Encoded(r) + rest
  {
    hide Update, Complement, CrcBytes, Wire, BigEndian, Header;
    var crc := CrcBytes(Checksum(Header(r) + NO_CRC + r.payload));
    var blank := Header(r) + NO_CRC + r.payload + rest;
    assert blank[..20] == Header(r) && blank[24..] == r.payload + rest;
    assert Encoded(r) == Header(r) + crc + r.payload;
    assert Header(r) + crc + (r.payload + rest) == Header(r) + crc + r.payload + rest;
  }

  /** `encode_record`: fills the front of `output` in place. */
  method EncodeRecord(sequence: nat, generation: nat, state: RecordState, payload: seq<Byte>, output: array<Byte>)
    returns (r: Result<nat>)
    requires sequence <= U64_MAX && generation <= U64_MAX
    modifies output
    ensures r.Err? <==> |payload| > NVS_PAYLOAD_MAX || output.Length < NVS_HEADER_LEN + |payload|
    ensures r.Err? ==> r.error == Oversize && output[..] == old(output[..])
    ensures r.Ok? ==>
      var encoded := Encoded(Record(sequence, generation, state, payload));
      r.value == |encoded| && output[..] == encoded + old(output[r.value..])
  {
    hide Update, Complement, CrcBytes, Wire, BigEndian, Header, Encoded, Spliced;
    if |payload| > NVS_PAYLOAD_MAX || output.Length < NVS_HEADER_LEN + |payload| {
      return Err(Oversize);
    }
    Widths();
    ghost var before := output[..];
    ghost var record := Record(sequence, generation, state, payload);
    var length := NVS_HEADER_LEN + |payload|;
    CopyInto(output, 0, [SCHEMA_VERSION, Wire(state)]);
    CopyInto(output, 2, BigEndian(|payload|, 2));
    CopyInto(output, 4, BigEndian(sequence, 8));
    CopyInto(output, 12, BigEndian(generation, 8));
    CopyInto(output, 20, NO_CRC);
    CopyInto(output, 24, payload);
    HeaderWritten(record, before);
    ghost var summed := Header(record) + NO_CRC + payload;
    assert output[..length] == output[..][..length] == summed;
    var crc := Crc32Update(0xffff_ffff, output[..length]);
    CopyInto(output, 20, CrcBytes(Complement(crc)));
    CrcWritten(record, before[length..]);
    return Ok(length);
  }

  /** `copy_from_slice` into a range of the output. */
  lemma SplicedByte(s: seq<Byte>, at: nat, source: seq<Byte>, i: nat)
    requires at + |source| <= |s| && i < |source|
    ensures Spliced(s, at, source[..i + 1]) == Spliced(s, at, source[..i])[at + i := source[i]]
  {
    assert source[..i + 1] == source[..i] + [source[i]];
  }

  method CopyInto(output: array<Byte>, at: nat, source: seq<Byte>)
    requires at + |source| <= output.Length
    modifies output
    ensures output[..] == Spliced(old(output[..]), at, source)
  {
    var i := 0;
    while i < |source|
      invariant 0 <= i <= |source|
      invariant output[..] == Spliced(old(output[..]), at, source[..i])
    {
      SplicedByte(old(output[..]), at, source, i);
      output[at + i] := source[i];
      i := i + 1;
    }
    assert source[..i] == source;
  }
}
