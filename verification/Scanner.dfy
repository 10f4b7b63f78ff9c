/** `read_control_response`: finds the response to one command in a noisy byte stream, trimming its buffer as it
    goes. A frame is a big-endian length, then that many bytes: schema, status and the 16-byte command id. */
module Scanner {
  import opened Bytes

  const SCHEMA: Byte := 1
  const LENGTH_MIN: nat := 18
  const LENGTH_MAX: nat := 236
  const BUFFER_LIMIT: nat := 4096
  const READ_MAX: nat := 512
  const ID_AT: nat := 4
  const ID_LENGTH: nat := 16
  const KEPT_TAIL: nat := 19

  /** The two length bytes at `start`. */
  function LengthAt(s: seq<Byte>, start: nat): nat
    requires start + 1 < |s|
  {
    256 * (s[start] as int) + s[start + 1] as int
  }

  /** The bytes of the command id that have arrived for a frame at `start`. */
  function AvailableId(s: seq<Byte>, start: nat): (n: nat)
    ensures n <= ID_LENGTH
    ensures n > 0 ==> start + ID_AT + n <= |s|
  {
    if |s| <= start + ID_AT then 0
    else if |s| - (start + ID_AT) < ID_LENGTH then |s| - (start + ID_AT) else ID_LENGTH
  }

  /** Nothing seen so far rules out a response at `start`, and its schema byte has arrived. */
  predicate Plausible(s: seq<Byte>, start: nat, id: seq<Byte>)
    requires |id| == ID_LENGTH
  {
    && start + 3 <= |s|
    && LENGTH_MIN <= LengthAt(s, start) <= LENGTH_MAX
    && s[start + 2] == SCHEMA
    && forall k: nat :: 0 <= k < AvailableId(s, start) ==> s[start + ID_AT + k] == id[k]
  }

  /** A response header: length, schema and the full command id match. */
  predicate HeaderAt(s: seq<Byte>, start: nat, id: seq<Byte>)
    requires |id| == ID_LENGTH
  {
    && start + ID_AT + ID_LENGTH <= |s|
    && LENGTH_MIN <= LengthAt(s, start) <= LENGTH_MAX
    && s[start + 2] == SCHEMA
    && s[start + ID_AT..start + ID_AT + ID_LENGTH] == id
  }

  /** The least offset of a response header in the stream. */
  predicate FirstHeader(s: seq<Byte>, at: nat, id: seq<Byte>)
    requires |id| == ID_LENGTH
  {
    HeaderAt(s, at, id) && forall k: nat :: 0 <= k < at ==> !HeaderAt(s, k, id)
  }

  predicate Complete(s: seq<Byte>, at: nat) {
    at + 1 < |s| && at + 2 + LengthAt(s, at) <= |s|
  }

  function PayloadAt(s: seq<Byte>, at: nat): seq<Byte>
    requires Complete(s, at)
  {
    s[at + 2..at + 2 + LengthAt(s, at)]
  }

  /** The specification: what the whole stream received so far answers, however it was cut into reads. */
  ghost predicate Answers(s: seq<Byte>, id: seq<Byte>, payload: seq<Byte>)
    requires |id| == ID_LENGTH
  {
    exists at: nat :: FirstHeader(s, at, id) && Complete(s, at) && payload == PayloadAt(s, at)
  }

  ghost predicate Answered(s: seq<Byte>, id: seq<Byte>)
    requires |id| == ID_LENGTH
  {
    exists at: nat :: FirstHeader(s, at, id) && Complete(s, at)
  }

  // Facts about streams that grow.

  lemma LengthKept(s: seq<Byte>, more: seq<Byte>, start: nat)
    requires start + 1 < |s|
    ensures LengthAt(s + more, start) == LengthAt(s, start)
  {
  }

  lemma HeaderKept(s: seq<Byte>, more: seq<Byte>, start: nat, id: seq<Byte>)
    requires |id| == ID_LENGTH && start + ID_AT + ID_LENGTH <= |s|
    ensures HeaderAt(s + more, start, id) <==> HeaderAt(s, start, id)
  {
    LengthKept(s, more, start);
    assert (s + more)[start + ID_AT..start + ID_AT + ID_LENGTH] == s[start + ID_AT..start + ID_AT + ID_LENGTH];
  }

  lemma FirstHeaderUnique(s: seq<Byte>, a: nat, b: nat, id: seq<Byte>)
    requires |id| == ID_LENGTH && FirstHeader(s, a, id) && FirstHeader(s, b, id)
    ensures a == b
  {
  }

  /** Once given, an answer does not depend on what arrives later. */
  lemma AnswerIsFinal(s: seq<Byte>, more: seq<Byte>, id: seq<Byte>, payload: seq<Byte>)
    requires |id| == ID_LENGTH && Answers(s, id, payload)
    ensures Answers(s + more, id, payload)
  {
    var at: nat :| FirstHeader(s, at, id) && Complete(s, at) && payload == PayloadAt(s, at);
    LengthKept(s, more, at);
    HeaderKept(s, more, at, id);
    forall k: nat | 0 <= k < at
      ensures !HeaderAt(s + more, k, id)
    {
      HeaderKept(s, more, k, id);
    }
    assert PayloadAt(s + more, at) == PayloadAt(s, at);
  }

  // Reading.

  /** One attempt to read: bytes, nothing yet, the end of the stream, or the deadline. */
  datatype Arrival = Chunk(bytes: seq<Byte>) | WouldBlock | Deadline

  /** `os.read` never returns more than was asked for. */
  predicate Deliverable(a: Arrival) {
    a.Chunk? ==> |a.bytes| <= READ_MAX
  }

  datatype Outcome = Response(payload: seq<Byte>) | Timeout | TooLong

  /** All bytes received before the scan gives up: an empty read is the end of the stream. */
  function Received(arrivals: seq<Arrival>): seq<Byte>
    decreases |arrivals|
  {
    if |arrivals| == 0 || arrivals[0].Deadline? || arrivals[0] == Chunk([]) then []
    else (if arrivals[0].Chunk? then arrivals[0].bytes else []) + Received(arrivals[1..])
  }

  /** What the scan of one buffer finds: the least plausible offset, if any, and the finished response there. */
  datatype Scan = Nothing | Partial(start: nat) | Found(payload: seq<Byte>)

  /** A finished response at the least plausible offset. */
  predicate FoundAt(buffer: seq<Byte>, at: nat, id: seq<Byte>, payload: seq<Byte>)
    requires |id| == ID_LENGTH
  {
    && HeaderAt(buffer, at, id) && Complete(buffer, at) && payload == PayloadAt(buffer, at)
    && NonePlausible(buffer, at, id)
  }

  /** What one pass over the buffer establishes. */
  ghost predicate ScanResult(buffer: seq<Byte>, id: seq<Byte>, r: Scan)
    requires |id| == ID_LENGTH
  {
    match r
    case Nothing => NonePlausible(buffer, if |buffer| < 2 then 0 else |buffer| - 2, id)
    case Partial(start) =>
      && Plausible(buffer, start, id) && NonePlausible(buffer, start, id)
      && !(HeaderAt(buffer, start, id) && Complete(buffer, start))
    case Found(payload) => exists at: nat :: FoundAt(buffer, at, id, payload)
  }

  predicate NonePlausible(s: seq<Byte>, until: nat, id: seq<Byte>)
    requires |id| == ID_LENGTH
  {
    forall k: nat :: k < until ==> !Plausible(s, k, id)
  }

  method ScanBuffer(buffer: seq<Byte>, id: seq<Byte>) returns (r: Scan)
    requires |id| == ID_LENGTH
    ensures ScanResult(buffer, id, r)
  {
    var start := 0;
    while start + 1 < |buffer|
      invariant start <= |buffer| && NonePlausible(buffer, start, id)
    {
      var length := LengthAt(buffer, start);
      var available := AvailableId(buffer, start);
      if !(LENGTH_MIN <= length <= LENGTH_MAX) || start + 3 > |buffer| {
        start := start + 1;
        continue;
      }
      if buffer[start + 2] != SCHEMA {
        start := start + 1;
        continue;
      }
      if available > 0 && buffer[start + ID_AT..start + ID_AT + available] != id[..available] {
        if Plausible(buffer, start, id) {
          PlausibleIdMatches(buffer, start, id);
        }
        start := start + 1;
        continue;
      }
      assert Plausible(buffer, start, id) by {
        IdMatch(buffer, start, id);
      }
      if available < ID_LENGTH || |buffer| < start + length + 2 {
        return Partial(start);
      }
      assert buffer[start + ID_AT..start + ID_AT + ID_LENGTH] == id;
      assert FoundAt(buffer, start, id, buffer[start + 2..start + length + 2]);
      return Found(buffer[start + 2..start + length + 2]);
    }
    return Nothing;
  }

  lemma IdMatch(s: seq<Byte>, start: nat, id: seq<Byte>)
    requires |id| == ID_LENGTH
    requires var n := AvailableId(s, start); n > 0 ==> s[start + ID_AT..start + ID_AT + n] == id[..n]
    ensures forall k: nat :: 0 <= k < AvailableId(s, start) ==> s[start + ID_AT + k] == id[k]
  {
    var n := AvailableId(s, start);
    forall k: nat | 0 <= k < n
      ensures s[start + ID_AT + k] == id[k]
    {
      assert s[start + ID_AT..start + ID_AT + n][k] == id[..n][k];
    }
  }

  lemma PlausibleIdMatches(s: seq<Byte>, start: nat, id: seq<Byte>)
    requires |id| == ID_LENGTH && Plausible(s, start, id)
    ensures var n := AvailableId(s, start); n > 0 ==> s[start + ID_AT..start + ID_AT + n] == id[..n]
  {
  }

  /** The header at `k` has arrived and cannot be the one looked for. */
  predicate RuledOut(seen: seq<Byte>, k: nat, id: seq<Byte>)
    requires |id| == ID_LENGTH
  {
    k + 3 <= |seen| && !Plausible(seen, k, id)
  }

  /** Every offset before `cut` has been ruled out by the bytes seen so far. */
  predicate RuledOutBefore(seen: seq<Byte>, cut: nat, id: seq<Byte>)
    requires |id| == ID_LENGTH
  {
    forall k: nat :: k < cut ==> RuledOut(seen, k, id)
  }

  lemma RuledOutLater(seen: seq<Byte>, more: seq<Byte>, cut: nat, id: seq<Byte>)
    requires |id| == ID_LENGTH && RuledOutBefore(seen, cut, id)
    ensures RuledOutBefore(seen + more, cut, id)
  {
    hide Plausible;
    forall k: nat | k < cut ensures RuledOut(seen + more, k, id) {
      assert RuledOut(seen, k, id);
      if Plausible(seen + more, k, id) {
        PlausibleWas(seen, more, k, id);
      }
    }
  }

  lemma PlausibleWas(s: seq<Byte>, more: seq<Byte>, start: nat, id: seq<Byte>)
    requires |id| == ID_LENGTH && start + 3 <= |s| && Plausible(s + more, start, id)
    ensures Plausible(s, start, id)
  {
    LengthKept(s, more, start);
    forall k: nat | 0 <= k < AvailableId(s, start)
      ensures s[start + ID_AT + k] == id[k]
    {
      assert (s + more)[start + ID_AT + k] == id[k];
    }
  }

  lemma ShiftedBytes(seen: seq<Byte>, cut: nat, start: nat)
    requires cut <= |seen|
    ensures AvailableId(seen[cut..], start) == AvailableId(seen, cut + start)
    ensures start + 1 < |seen[cut..]| ==> LengthAt(seen[cut..], start) == LengthAt(seen, cut + start)
  {
  }

  lemma ShiftedPlausible(seen: seq<Byte>, cut: nat, start: nat, id: seq<Byte>)
    requires |id| == ID_LENGTH && cut <= |seen|
    ensures Plausible(seen[cut..], start, id) <==> Plausible(seen, cut + start, id)
  {
    hide LengthAt, AvailableId;
    var buffer := seen[cut..];
    ShiftedBytes(seen, cut, start);
    if Plausible(seen, cut + start, id) {
      forall k: nat | k < AvailableId(buffer, start) ensures buffer[start + ID_AT + k] == id[k] {
        assert seen[cut + start + ID_AT + k] == id[k];
      }
    }
    if Plausible(buffer, start, id) {
      forall k: nat | k < AvailableId(buffer, start) ensures seen[cut + start + ID_AT + k] == id[k] {
        assert buffer[start + ID_AT + k] == id[k];
      }
    }
  }

  lemma ShiftedHeader(seen: seq<Byte>, cut: nat, start: nat, id: seq<Byte>)
    requires |id| == ID_LENGTH && cut <= |seen|
    ensures HeaderAt(seen[cut..], start, id) <==> HeaderAt(seen, cut + start, id)
  {
    hide LengthAt;
    ShiftedBytes(seen, cut, start);
    if start + ID_AT + ID_LENGTH <= |seen[cut..]| {
      assert seen[cut..][start + ID_AT..start + ID_AT + ID_LENGTH]
          == seen[cut + start + ID_AT..cut + start + ID_AT + ID_LENGTH];
    }
  }

  lemma ShiftedPayload(seen: seq<Byte>, cut: nat, start: nat)
    requires cut <= |seen|
    ensures Complete(seen[cut..], start) <==> Complete(seen, cut + start)
    ensures Complete(seen, cut + start) ==> PayloadAt(seen[cut..], start) == PayloadAt(seen, cut + start)
  {
    hide LengthAt;
    ShiftedBytes(seen, cut, start);
  }

  /** Offsets in the trimmed buffer are offsets in the stream. */
  lemma Shifted(seen: seq<Byte>, cut: nat, start: nat, id: seq<Byte>)
    requires |id| == ID_LENGTH && cut <= |seen|
    ensures Plausible(seen[cut..], start, id) <==> Plausible(seen, cut + start, id)
    ensures HeaderAt(seen[cut..], start, id) <==> HeaderAt(seen, cut + start, id)
    ensures Complete(seen[cut..], start) <==> Complete(seen, cut + start)
    ensures Complete(seen, cut + start) ==> PayloadAt(seen[cut..], start) == PayloadAt(seen, cut + start)
  {
    hide Plausible, HeaderAt, Complete, PayloadAt;
    ShiftedPlausible(seen, cut, start, id);
    ShiftedHeader(seen, cut, start, id);
    ShiftedPayload(seen, cut, start);
  }

  lemma HeaderIsPlausible(s: seq<Byte>, start: nat, id: seq<Byte>)
    requires |id| == ID_LENGTH
    ensures HeaderAt(s, start, id) ==> Plausible(s, start, id)
    ensures Plausible(s, start, id) && start + ID_AT + ID_LENGTH <= |s| ==> HeaderAt(s, start, id)
  {
    if start + ID_AT + ID_LENGTH <= |s| {
      var arrived := s[start + ID_AT..start + ID_AT + ID_LENGTH];
      if HeaderAt(s, start, id) {
        assert forall k: nat :: 0 <= k < ID_LENGTH ==> s[start + ID_AT + k] == arrived[k];
      }
      if Plausible(s, start, id) {
        assert arrived == id;
      }
    }
  }

  /** A finished response at the first plausible offset is the answer. */
  lemma FoundAnswers(seen: seq<Byte>, at: nat, id: seq<Byte>)
    requires |id| == ID_LENGTH && RuledOutBefore(seen, at, id)
    requires HeaderAt(seen, at, id) && Complete(seen, at)
    ensures Answers(seen, id, PayloadAt(seen, at))
  {
    forall k: nat | 0 <= k < at
      ensures !HeaderAt(seen, k, id)
    {
      assert RuledOut(seen, k, id);
      HeaderIsPlausible(seen, k, id);
    }
    assert FirstHeader(seen, at, id);
  }

  /** Without a finished response at the first plausible offset there is no answer yet. */
  lemma UnfinishedDoesNotAnswer(seen: seq<Byte>, at: nat, id: seq<Byte>)
    requires |id| == ID_LENGTH && RuledOutBefore(seen, at, id)
    requires at + 3 <= |seen| ==> Plausible(seen, at, id)
    requires !(HeaderAt(seen, at, id) && Complete(seen, at))
    ensures !Answered(seen, id)
  {
    if Answered(seen, id) {
      var first: nat :| FirstHeader(seen, first, id) && Complete(seen, first);
      assert first < at ==> RuledOut(seen, first, id);
      HeaderIsPlausible(seen, first, id);
      HeaderIsPlausible(seen, at, id);
    }
  }

  /** The first `n` attempts to read neither ended the stream nor met the deadline. */
  predicate Streaming(arrivals: seq<Arrival>, n: nat) {
    n <= |arrivals| && forall k: nat :: k < n ==> arrivals[k] != Deadline && arrivals[k] != Chunk([])
  }

  ghost predicate UnansweredBefore(arrivals: seq<Arrival>, n: nat, id: seq<Byte>)
    requires |id| == ID_LENGTH && n <= |arrivals|
  {
    forall k: nat :: k < n ==> !Answered(Received(arrivals[..k]), id)
  }

  lemma ReceivedExtends(arrivals: seq<Arrival>, n: nat)
    requires n < |arrivals| && Streaming(arrivals, n + 1)
    ensures Received(arrivals[..n + 1]) == Received(arrivals[..n]) + (if arrivals[n].Chunk? then arrivals[n].bytes else [])
    decreases n
  {
    assert arrivals[..n + 1][1..] == arrivals[1..][..n];
    if n > 0 {
      assert arrivals[..n][1..] == arrivals[1..][..n - 1];
      ReceivedExtends(arrivals[1..], n - 1);
    }
  }

  lemma ReceivedStops(arrivals: seq<Arrival>, n: nat)
    requires n <= |arrivals| && Streaming(arrivals, n)
    requires n == |arrivals| || arrivals[n] == Deadline || arrivals[n] == Chunk([])
    ensures Received(arrivals) == Received(arrivals[..n])
    decreases n
  {
    if n > 0 {
      assert arrivals[..n][1..] == arrivals[1..][..n - 1];
      ReceivedStops(arrivals[1..], n - 1);
    }
  }

  lemma ReceivedGrows(arrivals: seq<Arrival>, n: nat) returns (more: seq<Byte>)
    requires n <= |arrivals| && Streaming(arrivals, n)
    ensures Received(arrivals) == Received(arrivals[..n]) + more
    decreases n
  {
    if n == 0 {
      more := Received(arrivals);
    } else {
      assert arrivals[..n][1..] == arrivals[1..][..n - 1];
      more := ReceivedGrows(arrivals[1..], n - 1);
    }
  }

  /** How many bytes are dropped after a scan that found no finished response. */
  function Trim(buffer: seq<Byte>, scan: Scan): nat {
    match scan
    case Partial(start) => start
    case Nothing => if |buffer| > KEPT_TAIL then |buffer| - KEPT_TAIL else 0
    case Found(_) => 0
  }

  lemma ShiftedNonePlausible(seen: seq<Byte>, cut: nat, until: nat, id: seq<Byte>)
    requires |id| == ID_LENGTH && cut <= |seen| && until + 2 <= |seen[cut..]|
    requires RuledOutBefore(seen, cut, id) && NonePlausible(seen[cut..], until, id)
    ensures RuledOutBefore(seen, cut + until, id)
  {
    hide Plausible;
    forall k: nat | k < cut + until ensures RuledOut(seen, k, id) {
      if k < cut {
        assert RuledOut(seen, k, id);
      } else {
        assert !Plausible(seen[cut..], k - cut, id);
        Shifted(seen, cut, k - cut, id);
      }
    }
  }

  /** The scan of the trimmed buffer decides for the whole stream, and trimming loses nothing. */
  lemma ScanDecides(seen: seq<Byte>, cut: nat, id: seq<Byte>, scan: Scan)
    requires |id| == ID_LENGTH && cut <= |seen| && RuledOutBefore(seen, cut, id)
    requires ScanResult(seen[cut..], id, scan)
    ensures scan.Found? ==> Answers(seen, id, scan.payload)
    ensures !scan.Found? ==> !Answered(seen, id)
    ensures Trim(seen[cut..], scan) <= |seen[cut..]|
    ensures RuledOutBefore(seen, cut + Trim(seen[cut..], scan), id)
    ensures !scan.Found? ==> |seen[cut..]| - Trim(seen[cut..], scan) < LENGTH_MAX + 2
  {
    hide Plausible, HeaderAt, Complete;
    var buffer := seen[cut..];
    match scan
    case Found(payload) =>
      var at: nat :| FoundAt(buffer, at, id, payload);
      FoundFits(buffer, at, id);
      ShiftedNonePlausible(seen, cut, at, id);
      Shifted(seen, cut, at, id);
      FoundAnswers(seen, cut + at, id);
    case Partial(start) =>
      PartialIsShort(buffer, start, id);
      ShiftedNonePlausible(seen, cut, start, id);
      Shifted(seen, cut, start, id);
      UnfinishedDoesNotAnswer(seen, cut + start, id);
    case Nothing =>
      if |buffer| < 2 {
        TooShortForHeader(seen, cut, id);
        UnfinishedDoesNotAnswer(seen, cut, id);
      } else {
        ShiftedNonePlausible(seen, cut, |buffer| - 2, id);
        TooShortForHeader(seen, |seen| - 2, id);
        UnfinishedDoesNotAnswer(seen, |seen| - 2, id);
      }
  }

  lemma FoundFits(buffer: seq<Byte>, at: nat, id: seq<Byte>)
    requires |id| == ID_LENGTH && HeaderAt(buffer, at, id)
    ensures at + 2 <= |buffer|
  {
  }

  lemma TooShortForHeader(s: seq<Byte>, at: nat, id: seq<Byte>)
    requires |id| == ID_LENGTH && |s| < at + 3
    ensures !HeaderAt(s, at, id)
  {
  }

  method TrimBuffer(buffer: seq<Byte>, scan: Scan) returns (kept: seq<Byte>)
    requires Trim(buffer, scan) <= |buffer|
    ensures kept == buffer[Trim(buffer, scan)..]
  {
    kept := buffer;
    if scan.Partial? {
      if scan.start > 0 {
        kept := kept[scan.start..];
      }
    } else if scan.Nothing? && |kept| > KEPT_TAIL {
      kept := kept[|kept| - KEPT_TAIL..];
    }
  }

  lemma StreamContinues(arrivals: seq<Arrival>, n: nat, id: seq<Byte>)
    requires |id| == ID_LENGTH && n < |arrivals| && Streaming(arrivals, n) && UnansweredBefore(arrivals, n, id)
    requires arrivals[n] != Deadline && arrivals[n] != Chunk([]) && !Answered(Received(arrivals[..n]), id)
    ensures Streaming(arrivals, n + 1) && UnansweredBefore(arrivals, n + 1, id)
  {
  }

  /** `read_control_response`. It answers exactly when the bytes received answer, with the same payload for
      every way of cutting them into reads, as soon as they do, and its length error is unreachable. */
  method ReadControlResponse(frame: seq<Byte>, arrivals: seq<Arrival>) returns (r: Outcome, used: nat)
    requires |frame| >= 20
    requires forall k: nat :: 0 <= k < |arrivals| ==> Deliverable(arrivals[k])
    ensures r != TooLong
    ensures r.Response? ==> Answers(Received(arrivals), frame[4..20], r.payload)
    ensures r.Timeout? ==> !Answered(Received(arrivals), frame[4..20])
    ensures used <= |arrivals|
    ensures r.Response? ==> Answered(Received(arrivals[..used]), frame[4..20])
    ensures UnansweredBefore(arrivals, used, frame[4..20])
  {
    var id := frame[4..20];
    assert RuledOutBefore([], 0, id) && Received(arrivals[..0]) == [];
    assert Streaming(arrivals, 0) && UnansweredBefore(arrivals, 0, id);
    hide Plausible, HeaderAt, Complete, Answers, Answered, ScanResult, RuledOutBefore, Received, Trim, Streaming,
      UnansweredBefore;
    var buffered: seq<Byte> := [];
    used := 0;
    ghost var seen: seq<Byte> := [];
    ghost var cut: nat := 0;
    while |buffered| <= BUFFER_LIMIT
      invariant used <= |arrivals| && seen == Received(arrivals[..used])
      invariant cut <= |seen| && buffered == seen[cut..]
      invariant RuledOutBefore(seen, cut, id)
      invariant |buffered| < LENGTH_MAX + 2 + READ_MAX
      invariant Streaming(arrivals, used) && UnansweredBefore(arrivals, used, id)
      decreases |arrivals| - used
    {
      var scan := ScanBuffer(buffered, id);
      ScanDecides(seen, cut, id, scan);
      if scan.Found? {
        ghost var more := ReceivedGrows(arrivals, used);
        AnswerIsFinal(seen, more, id, scan.payload);
        AnswersIsAnswered(seen, id, scan.payload);
        return Response(scan.payload), used;
      }
      ghost var dropped := Trim(buffered, scan);
      buffered := TrimBuffer(buffered, scan);
      assert buffered == seen[cut + dropped..];
      cut := cut + dropped;
      var wanted := if READ_MAX <= BUFFER_LIMIT + 1 - |buffered| then READ_MAX else BUFFER_LIMIT + 1 - |buffered|;
      assert wanted == READ_MAX;
      if used == |arrivals| || arrivals[used] == Deadline || arrivals[used] == Chunk([]) {
        ReceivedStops(arrivals, used);
        return Timeout, used;
      }
      var bytes := if arrivals[used].Chunk? then arrivals[used].bytes else [];
      assert Deliverable(arrivals[used]) && |bytes| <= wanted;
      StreamContinues(arrivals, used, id);
      ReceivedExtends(arrivals, used);
      RuledOutLater(seen, bytes, cut, id);
      assert (seen + bytes)[cut..] == buffered + bytes;
      buffered, seen := buffered + bytes, seen + bytes;
      used := used + 1;
    }
    return TooLong, used;
  }

  lemma AnswersIsAnswered(s: seq<Byte>, id: seq<Byte>, payload: seq<Byte>)
    requires |id| == ID_LENGTH && Answers(s, id, payload)
    ensures Answered(s, id)
  {
  }

  /** What is kept for an unfinished response is less than one frame. */
  lemma PartialIsShort(buffer: seq<Byte>, start: nat, id: seq<Byte>)
    requires |id| == ID_LENGTH && Plausible(buffer, start, id)
    requires !(HeaderAt(buffer, start, id) && Complete(buffer, start))
    ensures start + 3 <= |buffer| && |buffer| - start < LENGTH_MAX + 2
  {
    HeaderIsPlausible(buffer, start, id);
  }

  /** Two ways of cutting one stream into reads get the same response. */
  lemma ChunkingDoesNotMatter(one: seq<Arrival>, other: seq<Arrival>, id: seq<Byte>, p: seq<Byte>, q: seq<Byte>)
    requires |id| == ID_LENGTH && Received(one) == Received(other)
    requires Answers(Received(one), id, p) && Answers(Received(other), id, q)
    ensures p == q
  {
    var a: nat :| FirstHeader(Received(one), a, id) && Complete(Received(one), a) && p == PayloadAt(Received(one), a);
    var b: nat :| FirstHeader(Received(other), b, id) && Complete(Received(other), b) && q == PayloadAt(Received(other), b);
    FirstHeaderUnique(Received(one), a, b, id);
  }
}
