/** The owner's command table: which commands start an operation, what repeats are answered, when records leave the
    table, and how the one decision of a pairing reaches its task. */
module OwnerTable {
  import opened Common

  const TABLE_MAX: nat := 16
  const TEN_MINUTES: nat := 600_000

  datatype Response =
    | Info
    | IdentityInitialized
    | IdentityState
    | Unpaired
    | ConfirmationRequired(transaction: string, authentication: string)
    | DecisionAccepted
    | Waiting
    | Paired
    | CommandUnknown
    | CommandAccepted
    | CommandPending
    | StaleOwner
    | InvalidRequest
    | OwnerBusy
    | OperationFailed
    | ShutdownAccepted

  predicate Terminal(r: Response) {
    !r.ConfirmationRequired? && !r.Waiting?
  }

  datatype DecisionResult = DecisionResult(id: string, response: Response)

  /** `decision` numbers the channel on which the pairing task of this command waits. */
  datatype Record = Record(id: string, response: Option<Response>, completedAt: Option<nat>, decision: Option<nat>,
                           decisionResults: seq<DecisionResult>)

  datatype Completion = Completion(id: string, response: Response, at: nat)

  datatype Decision = Decision(transaction: string, confirmed: bool)

  /** A channel of capacity one: everything ever sent, how much was taken, and whether anyone still listens. */
  datatype Channel = Channel(sent: seq<Decision>, received: nat, open: bool)

  datatype Operation = Initialize | Revoke(peer: string) | OpenWindow(channel: nat) | Connect(channel: nat)

  datatype Start = Start(id: string, operation: Operation)

  datatype Sender = NoSender | Disconnected | Connected

  datatype Command =
    | OwnerInfo
    | IdentityList
    | CommandResult(id: string, generation: string)
    | Shutdown(generation: string)
    | IdentityInit(id: string, generation: string)
    | Unpair(id: string, generation: string, peer: string)
    | PairingWindowOpen(id: string, generation: string)
    | PairStart(id: string, generation: string, loopback: bool)
    | PairingDecide(id: string, generation: string, parent: string, transaction: string, confirmed: bool)

  /** Everything the control lock guards, and the log of the operations it has set going. */
  datatype State = State(owner: string, table: seq<Record>, queue: seq<Completion>, sender: Sender,
                         channels: seq<Channel>, starts: seq<Start>)

  datatype Answer = Answer(state: State, response: Response)

  predicate ValidId(id: string) {
    |id| == 32 && forall c :: c in id ==> '0' <= c <= '9' || 'a' <= c <= 'f'
  }

  /** The first record of an id, or the length of the table. */
  function Find(table: seq<Record>, id: string): (k: nat)
    ensures k <= |table|
    ensures k < |table| ==> table[k].id == id
    ensures forall j: nat :: j < k ==> table[j].id != id
  {
    if table == [] then 0 else if table[0].id == id then 0 else 1 + Find(table[1..], id)
  }

  function Updated(r: Record, c: Completion): Record {
    r.(response := Some(c.response), completedAt := if Terminal(c.response) then Some(c.at) else None)
  }

  function WithCompletion(table: seq<Record>, c: Completion): seq<Record> {
    var k := Find(table, c.id);
    if k < |table| then table[k := Updated(table[k], c)] else table
  }

  function Applied(table: seq<Record>, queue: seq<Completion>): seq<Record> {
    if queue == [] then table else WithCompletion(Applied(table, queue[..|queue| - 1]), queue[|queue| - 1])
  }

  predicate Kept(r: Record, now: nat) {
    r.completedAt.None? || now < r.completedAt.value + TEN_MINUTES
  }

  function Expired(table: seq<Record>, now: nat): seq<Record> {
    if table == [] then []
    else Expired(table[..|table| - 1], now) + if Kept(table[|table| - 1], now) then [table[|table| - 1]] else []
  }

  /** The state in which a command finds the table. */
  function Refreshed(s: State, now: nat): State {
    s.(table := Expired(Applied(s.table, s.queue), now), queue := [])
  }

  function Current(r: Record): Response {
    if r.response.Some? then r.response.value else CommandPending
  }

  function ResultIn(results: seq<DecisionResult>, id: string): Option<Response> {
    if results == [] then None
    else if results[0].id == id then Some(results[0].response)
    else ResultIn(results[1..], id)
  }

  function DecisionOf(table: seq<Record>, id: string): Option<Response> {
    if table == [] then None
    else
      var r := ResultIn(table[0].decisionResults, id);
      if r.Some? then r else DecisionOf(table[1..], id)
  }

  function LookUp(table: seq<Record>, id: string): Response {
    if table == [] then CommandUnknown
    else if table[0].id == id then Current(table[0])
    else
      var r := ResultIn(table[0].decisionResults, id);
      if r.Some? then r.value else LookUp(table[1..], id)
  }

  function Accepted(s: State, id: string, operation: Operation): Answer {
    var k := Find(s.table, id);
    if !ValidId(id) then Answer(s, InvalidRequest)
    else if k < |s.table| then Answer(s, Current(s.table[k]))
    else if |s.table| >= TABLE_MAX then Answer(s, OwnerBusy)
    else
      Answer(s.(table := s.table + [Record(id, None, None, None, [])], starts := s.starts + [Start(id, operation)]),
             CommandAccepted)
  }

  function AcceptedPairing(s: State, id: string, operation: Operation, now: nat): Answer {
    var k := Find(s.table, id);
    if !ValidId(id) then Answer(s, InvalidRequest)
    else if k < |s.table| then Answer(s, Current(s.table[k]))
    else if |s.table| >= TABLE_MAX then Answer(s, OwnerBusy)
    else match s.sender
      case NoSender => Answer(s, OperationFailed)
      case Disconnected =>
        Answer(s.(table := s.table + [Record(id, Some(OperationFailed), Some(now), None, [])]), OperationFailed)
      case Connected =>
        Answer(s.(table := s.table + [Record(id, None, None, Some(|s.channels|), [])],
                  channels := s.channels + [Channel([], 0, true)], starts := s.starts + [Start(id, operation)]),
               CommandAccepted)
  }

  predicate Prompted(r: Record, transaction: string) {
    r.response.Some? && r.response.value.ConfirmationRequired? && r.response.value.transaction == transaction
  }

  /** The channel a decision on record `r` can still go down. */
  predicate Listening(s: State, r: Record) {
    r.decision.Some? && r.decision.value < |s.channels| && s.channels[r.decision.value].open
  }

  function Decided(s: State, id: string, parent: string, transaction: string, confirmed: bool): Answer {
    var known := DecisionOf(s.table, id);
    var k := Find(s.table, parent);
    if !ValidId(id) || !ValidId(parent) || !ValidId(transaction) then Answer(s, InvalidRequest)
    else if known.Some? then Answer(s, known.value)
    else if k == |s.table| then Answer(s, InvalidRequest)
    else if s.table[k].decisionResults != [] || !Prompted(s.table[k], transaction) then Answer(s, InvalidRequest)
    else
      var r := s.table[k];
      var response := if Listening(s, r) then DecisionAccepted else InvalidRequest;
      var noted := s.(table := s.table[k := r.(decisionResults := [DecisionResult(id, response)])]);
      if Listening(s, r) then
        var c := s.channels[r.decision.value];
        var sent := c.(sent := c.sent + [Decision(transaction, confirmed)]);
        Answer(noted.(channels := s.channels[r.decision.value := sent]), response)
      else Answer(noted, response)
  }

  predicate HasGeneration(c: Command) {
    !c.OwnerInfo? && !c.IdentityList?
  }

  /** What a command does to a refreshed table; `known` says whether the identity actor has a peer state to show. */
  function Executed(s: State, c: Command, now: nat, known: bool): Answer {
    if HasGeneration(c) && c.generation != s.owner then Answer(s, StaleOwner)
    else match c
      case OwnerInfo => Answer(s, Info)
      case IdentityList => Answer(s, if known then IdentityState else OperationFailed)
      case CommandResult(id, _) => Answer(s, LookUp(s.table, id))
      case Shutdown(_) => Answer(s, ShutdownAccepted)
      case IdentityInit(id, _) => Accepted(s, id, Initialize)
      case Unpair(id, _, peer) => Accepted(s, id, Revoke(peer))
      case PairingWindowOpen(id, _) => AcceptedPairing(s, id, OpenWindow(|s.channels|), now)
      case PairStart(id, _, loopback) =>
        if loopback then AcceptedPairing(s, id, Connect(|s.channels|), now) else Answer(s, InvalidRequest)
      case PairingDecide(id, _, parent, transaction, confirmed) => Decided(s, id, parent, transaction, confirmed)
  }

  /** What can happen: a command under the lock, an update from any worker or task about any id, a task taking its
      decision or leaving its channel, and the end of the runtime that takes pairing events. */
  datatype Event =
    | Handle(command: Command, now: nat, known: bool)
    | Update(completion: Completion)
    | Take(channel: nat)
    | Leave(channel: nat)
    | RuntimeEnds

  function Step(s: State, e: Event): State {
    match e
    case Handle(command, now, known) => Executed(Refreshed(s, now), command, now, known).state
    case Update(completion) => s.(queue := s.queue + [completion])
    case Take(ch) =>
      if ch < |s.channels| && s.channels[ch].received < |s.channels[ch].sent|
      then s.(channels := s.channels[ch := s.channels[ch].(received := s.channels[ch].received + 1)])
      else s
    case Leave(ch) =>
      if ch < |s.channels| then s.(channels := s.channels[ch := s.channels[ch].(open := false)]) else s
    case RuntimeEnds => if s.sender.Connected? then s.(sender := Disconnected) else s
  }

  function After(s: State, events: seq<Event>): State
    decreases |events|
  {
    if events == [] then s else Step(After(s, events[..|events| - 1]), events[|events| - 1])
  }

  // The invariant.

  function DecisionIds(r: Record): set<string> {
    set d | d in r.decisionResults :: d.id
  }

  predicate Apart(a: Record, b: Record) {
    && a.id != b.id
    && DecisionIds(a) !! DecisionIds(b)
    && (a.decision.Some? ==> a.decision != b.decision)
  }

  predicate Pairwise(table: seq<Record>) {
    forall i: nat, j: nat :: i < j < |table| ==> Apart(table[i], table[j])
  }

  /** A record has a completion time exactly when its response is terminal; it notes at most one decision. Its channel
      has carried one exactly if that decision was noted as accepted. */
  predicate RecordOk(r: Record, channels: seq<Channel>) {
    && (r.completedAt.Some? <==> r.response.Some? && Terminal(r.response.value))
    && |r.decisionResults| <= 1
    && (r.decision.Some? ==> r.decision.value < |channels|)
    && (r.decision.Some? && r.decisionResults == [] ==> channels[r.decision.value].sent == [])
    && (r.decisionResults != [] ==>
          (r.decisionResults[0].response == DecisionAccepted <==> r.decision.Some? && channels[r.decision.value].sent != []))
  }

  predicate ChannelOk(c: Channel) {
    c.received <= |c.sent| <= 1
  }

  predicate Sound(s: State) {
    && |s.table| <= TABLE_MAX
    && Pairwise(s.table)
    && (forall r :: r in s.table ==> RecordOk(r, s.channels))
    && (forall ch: nat :: ch < |s.channels| ==> ChannelOk(s.channels[ch]))
  }

  predicate Fresh(s: State) {
    s.table == [] && s.queue == [] && s.channels == [] && s.starts == []
  }

  lemma CompletionKeeps(s: State, c: Completion)
    requires Sound(s)
    ensures Sound(s.(table := WithCompletion(s.table, c)))
  {
    hide Find;
    var k := Find(s.table, c.id);
    if k < |s.table| {
      var t := s.table[k := Updated(s.table[k], c)];
      assert forall i: nat :: i < |t| ==> t[i].id == s.table[i].id && DecisionIds(t[i]) == DecisionIds(s.table[i])
                                          && t[i].decision == s.table[i].decision;
      forall i: nat, j: nat | i < j < |t| ensures Apart(t[i], t[j]) {
        assert Apart(s.table[i], s.table[j]);
      }
      forall r | r in t ensures RecordOk(r, s.channels) {
        var i: nat :| i < |t| && t[i] == r;
        assert RecordOk(s.table[i], s.channels);
      }
    }
  }

  lemma {:induction false} CompletionsKeep(s: State, queue: seq<Completion>)
    requires Sound(s)
    ensures Sound(s.(table := Applied(s.table, queue)))
  {
    hide Sound;
    if queue == [] {
      assert s.(table := Applied(s.table, queue)) == s;
    } else {
      var before := s.(table := Applied(s.table, queue[..|queue| - 1]));
      CompletionsKeep(s, queue[..|queue| - 1]);
      CompletionKeeps(before, queue[|queue| - 1]);
      assert before.(table := WithCompletion(before.table, queue[|queue| - 1]))
          == s.(table := Applied(s.table, queue));
    }
  }

  lemma {:induction false} ExpiryKeepsExactly(table: seq<Record>, now: nat, r: Record)
    ensures r in Expired(table, now) <==> r in table && Kept(r, now)
  {
    if table != [] {
      var n := |table| - 1;
      ExpiryKeepsExactly(table[..n], now, r);
      assert table == table[..n] + [table[n]];
    }
  }

  lemma {:induction false} ExpiryKeepsPairwise(table: seq<Record>, now: nat)
    requires Pairwise(table)
    ensures Pairwise(Expired(table, now)) && |Expired(table, now)| <= |table|
  {
    hide Apart, Kept;
    if table != [] {
      var n := |table| - 1;
      assert Pairwise(table[..n]);
      ExpiryKeepsPairwise(table[..n], now);
      var rest := Expired(table[..n], now);
      forall i: nat | i < |rest| ensures Apart(rest[i], table[n]) {
        ExpiryKeepsExactly(table[..n], now, rest[i]);
        var j: nat :| j < n && table[j] == rest[i];
      }
    }
  }

  lemma RefreshKeeps(s: State, now: nat)
    requires Sound(s)
    ensures Sound(Refreshed(s, now))
  {
    hide Apart, RecordOk, ChannelOk;
    CompletionsKeep(s, s.queue);
    var table := Applied(s.table, s.queue);
    ExpiryKeepsPairwise(table, now);
    forall r | r in Expired(table, now) ensures RecordOk(r, s.channels) {
      ExpiryKeepsExactly(table, now, r);
    }
  }

  lemma PushKeeps(table: seq<Record>, r: Record)
    requires Pairwise(table) && Find(table, r.id) == |table| && r.decisionResults == []
    requires forall q :: q in table && q.decision.Some? ==> q.decision != r.decision
    ensures Pairwise(table + [r])
  {
    forall i: nat, j: nat | i < j < |table + [r]| ensures Apart((table + [r])[i], (table + [r])[j]) {
      assert i < |table| && table[i] in table;
    }
  }

  lemma NoDecisionOf(table: seq<Record>, id: string)
    requires DecisionOf(table, id).None?
    ensures forall r :: r in table ==> id !in DecisionIds(r)
  {
    if table != [] {
      NoResultIn(table[0].decisionResults, id);
      NoDecisionOf(table[1..], id);
      forall r | r in table ensures id !in DecisionIds(r) {
        assert r == table[0] || r in table[1..];
      }
    }
  }

  lemma NoResultIn(results: seq<DecisionResult>, id: string)
    requires ResultIn(results, id).None?
    ensures forall d :: d in results ==> d.id != id
  {
  }

  lemma NoteKeeps(table: seq<Record>, k: nat, id: string, response: Response)
    requires Pairwise(table) && k < |table| && table[k].decisionResults == [] && DecisionOf(table, id).None?
    ensures Pairwise(table[k := table[k].(decisionResults := [DecisionResult(id, response)])])
  {
    NoDecisionOf(table, id);
    var r := table[k].(decisionResults := [DecisionResult(id, response)]);
    var t := table[k := r];
    assert DecisionIds(r) == {id};
    forall i: nat, j: nat | i < j < |t| ensures Apart(t[i], t[j]) {
      assert Apart(table[i], table[j]) && table[i] in table && table[j] in table;
    }
  }

  /** The channel of record k belongs to no other record. */
  lemma OwnChannel(table: seq<Record>, k: nat, i: nat)
    requires Pairwise(table) && k < |table| && i < |table| && i != k && table[k].decision.Some?
    ensures table[i].decision != table[k].decision
  {
    if i < k {
      assert Apart(table[i], table[k]);
    } else {
      assert Apart(table[k], table[i]);
    }
  }

  lemma DecisionKeeps(s: State, id: string, parent: string, transaction: string, confirmed: bool)
    requires Sound(s)
    ensures Sound(Decided(s, id, parent, transaction, confirmed).state)
  {
    hide Find, DecisionOf, Pairwise, ValidId;
    var k := Find(s.table, parent);
    var after := Decided(s, id, parent, transaction, confirmed).state;
    if after != s {
      var r := s.table[k];
      assert r in s.table;
      NoteKeeps(s.table, k, id, if Listening(s, r) then DecisionAccepted else InvalidRequest);
      forall q | q in after.table ensures RecordOk(q, after.channels) {
        var i: nat :| i < |after.table| && after.table[i] == q;
        if i != k {
          assert q == s.table[i] && q in s.table;
          if r.decision.Some? {
            OwnChannel(s.table, k, i);
          }
        }
      }
    }
  }

  lemma AcceptKeeps(s: State, id: string, operation: Operation)
    requires Sound(s)
    ensures Sound(Accepted(s, id, operation).state)
  {
    hide Apart, ValidId, Find;
    var after := Accepted(s, id, operation).state;
    if after != s && Find(s.table, id) == |s.table| {
      PushKeeps(s.table, Record(id, None, None, None, []));
    }
  }

  lemma AcceptPairingKeeps(s: State, id: string, operation: Operation, now: nat)
    requires Sound(s)
    ensures Sound(AcceptedPairing(s, id, operation, now).state)
  {
    hide Apart, ValidId, Find, Pairwise;
    var after := AcceptedPairing(s, id, operation, now).state;
    if after.table != s.table {
      assert forall q :: q in s.table && q.decision.Some? ==> RecordOk(q, s.channels) && q.decision.value < |s.channels|;
      PushKeeps(s.table, after.table[|s.table|]);
      forall q | q in after.table ensures RecordOk(q, after.channels) {
        assert q in s.table || q == after.table[|s.table|];
      }
    }
  }

  lemma StepKeepsSound(s: State, e: Event)
    requires Sound(s)
    ensures Sound(Step(s, e))
  {
    match e {
      case Handle(c, now, known) =>
        hide Sound;
        RefreshKeeps(s, now);
        var r := Refreshed(s, now);
        if c.IdentityInit? {
          AcceptKeeps(r, c.id, Initialize);
        } else if c.Unpair? {
          AcceptKeeps(r, c.id, Revoke(c.peer));
        } else if c.PairingWindowOpen? {
          AcceptPairingKeeps(r, c.id, OpenWindow(|r.channels|), now);
        } else if c.PairStart? {
          AcceptPairingKeeps(r, c.id, Connect(|r.channels|), now);
        } else if c.PairingDecide? {
          DecisionKeeps(r, c.id, c.parent, c.transaction, c.confirmed);
        }
      case Update(_) =>
      case Take(ch) => ChannelKeeps(s, ch, Step(s, e));
      case Leave(ch) => ChannelKeeps(s, ch, Step(s, e));
      case RuntimeEnds =>
    }
  }

  lemma ChannelKeeps(s: State, ch: nat, after: State)
    requires Sound(s) && |after.channels| == |s.channels|
    requires after == s || (ch < |s.channels| && after == s.(channels := s.channels[ch := after.channels[ch]]))
    requires ch < |s.channels| ==> after.channels[ch].sent == s.channels[ch].sent && ChannelOk(after.channels[ch])
    ensures Sound(after)
  {
    forall r | r in s.table ensures RecordOk(r, after.channels) {
      assert RecordOk(r, s.channels);
    }
  }

  /** In every run the table holds at most sixteen records, no two of one id, and no channel ever carries more than
      one decision. */
  lemma {:induction false} RunKeepsSound(s: State, events: seq<Event>)
    requires Fresh(s)
    ensures Sound(After(s, events))
  {
    hide Sound, Step;
    if events == [] {
      FreshIsSound(s);
    } else {
      RunKeepsSound(s, events[..|events| - 1]);
      StepKeepsSound(After(s, events[..|events| - 1]), events[|events| - 1]);
    }
  }

  lemma FreshIsSound(s: State)
    requires Fresh(s)
    ensures Sound(s)
  {
  }

  // Records leave only by age.

  predicate Holds(s: State, id: string) {
    exists r :: r in s.table && r.id == id
  }

  /** A command at `now` finds the record of `id` with a terminal response ten minutes old. */
  ghost predicate Outdated(s: State, e: Event, id: string) {
    && e.Handle?
    && exists r :: r in Applied(s.table, s.queue) && r.id == id && r.response.Some? && Terminal(r.response.value)
                   && r.completedAt.Some? && r.completedAt.value + TEN_MINUTES <= e.now
  }

  lemma {:induction false} CompletionsKeepIds(table: seq<Record>, queue: seq<Completion>)
    ensures |Applied(table, queue)| == |table|
    ensures forall i: nat :: i < |table| ==> Applied(table, queue)[i].id == table[i].id
  {
    if queue != [] {
      CompletionsKeepIds(table, queue[..|queue| - 1]);
    }
  }

  lemma RefreshDropsOnlyOutdated(s: State, now: nat, c: Command, known: bool, id: string)
    requires Sound(s) && Holds(s, id) && !Holds(Refreshed(s, now), id)
    ensures Outdated(s, Handle(c, now, known), id)
  {
    hide Sound, Apart;
    var was :| was in s.table && was.id == id;
    var i: nat :| i < |s.table| && s.table[i] == was;
    CompletionsKeepIds(s.table, s.queue);
    var r := Applied(s.table, s.queue)[i];
    ExpiryKeepsExactly(Applied(s.table, s.queue), now, r);
    CompletionsKeep(s, s.queue);
    AllRecordsOk(s.(table := Applied(s.table, s.queue)), r);
  }

  lemma AllRecordsOk(s: State, r: Record)
    requires Sound(s) && r in s.table
    ensures RecordOk(r, s.channels)
  {
  }

  lemma ExecutedHolds(s: State, c: Command, now: nat, known: bool, id: string)
    requires Holds(s, id)
    ensures Holds(Executed(s, c, now, known).state, id)
  {
    hide Find, DecisionOf, LookUp, ValidId;
    var was :| was in s.table && was.id == id;
    var i: nat :| i < |s.table| && s.table[i] == was;
    var after := Executed(s, c, now, known).state;
    assert after.table[i].id == id;
    assert after.table[i] in after.table;
  }

  /** No step removes a record whose response is missing or not terminal, or younger than ten minutes. */
  lemma OnlyOutdatedRecordsLeave(s: State, e: Event, id: string)
    requires Sound(s) && Holds(s, id) && !Holds(Step(s, e), id)
    ensures Outdated(s, e, id)
  {
    hide Sound, Executed, Outdated;
    if e.Handle? {
      if Holds(Refreshed(s, e.now), id) {
        ExecutedHolds(Refreshed(s, e.now), e.command, e.now, e.known, id);
      } else {
        RefreshDropsOnlyOutdated(s, e.now, e.command, e.known, id);
      }
    }
  }

  // Operations start once.

  /** Step `e` sets an operation going for command `id`. */
  ghost predicate Begins(s: State, e: Event, id: string) {
    exists operation :: Step(s, e).starts == s.starts + [Start(id, operation)]
  }

  lemma FindsNothing(s: State, id: string)
    ensures Find(s.table, id) == |s.table| <==> !Holds(s, id)
  {
    if Find(s.table, id) < |s.table| {
      assert s.table[Find(s.table, id)] in s.table;
    }
  }

  /** An operation starts only for a well-formed id without a record, which then has one; every other command
      leaves the log of operations alone. */
  lemma StartsNeedAbsence(s: State, c: Command, now: nat, known: bool)
    requires Sound(s)
    ensures var after := Executed(s, c, now, known).state;
      || after.starts == s.starts
      || (exists start :: after.starts == s.starts + [start] && ValidId(start.id) && !Holds(s, start.id)
                          && Holds(after, start.id) && |s.table| < TABLE_MAX)
  {
    hide Find, DecisionOf, LookUp, ValidId, Decided, Sound;
    var after := Executed(s, c, now, known).state;
    if after.starts != s.starts && !c.PairingDecide? {
      FindsNothing(s, c.id);
      var start := after.starts[|s.starts|];
      assert after.starts == s.starts + [start] && start.id == c.id;
      assert after.table[|s.table|].id == c.id && after.table[|s.table|] in after.table;
      assert Holds(after, c.id);
    } else if c.PairingDecide? {
      DecisionsStartNothing(s, c);
    }
  }

  lemma DecisionsStartNothing(s: State, c: Command)
    requires c.PairingDecide?
    ensures Decided(s, c.id, c.parent, c.transaction, c.confirmed).state.starts == s.starts
  {
  }

  predicate Starting(c: Command) {
    c.IdentityInit? || c.Unpair? || c.PairingWindowOpen? || (c.PairStart? && c.loopback)
  }

  /** The operation each command is for; a pairing gets the next channel. */
  function OperationOf(c: Command, channel: nat): Operation
    requires Starting(c)
  {
    match c
    case IdentityInit(_, _) => Initialize
    case Unpair(_, _, peer) => Revoke(peer)
    case PairingWindowOpen(_, _) => OpenWindow(channel)
    case PairStart(_, _, _) => Connect(channel)
  }

  /** A command for the current owner starts its own operation if and only if its id is well formed and new and there
      is room in the table and, for a pairing, a runtime to take it. It is then answered as accepted, and its record
      waits, for a pairing on a channel of its own. */
  lemma StartsExactly(s: State, c: Command, now: nat, known: bool)
    ensures var answer := Executed(s, c, now, known);
      var starts := && Starting(c) && c.generation == s.owner && ValidId(c.id) && !Holds(s, c.id) && |s.table| < TABLE_MAX
                    && (c.PairingWindowOpen? || c.PairStart? ==> s.sender.Connected?);
      if starts then
        && answer.response == CommandAccepted
        && answer.state.starts == s.starts + [Start(c.id, OperationOf(c, |s.channels|))]
        && (if c.PairingWindowOpen? || c.PairStart? then
              && answer.state.table == s.table + [Record(c.id, None, None, Some(|s.channels|), [])]
              && answer.state.channels == s.channels + [Channel([], 0, true)]
            else
              && answer.state.table == s.table + [Record(c.id, None, None, None, [])]
              && answer.state.channels == s.channels)
      else answer.state.starts == s.starts
  {
    hide Find, DecisionOf, LookUp, ValidId, Holds;
    if Starting(c) {
      FindsNothing(s, c.id);
    }
  }

  /** Why a new command does not start: a malformed id, a full table, or, for a pairing, no runtime to take it. One
      that ended leaves a failed record. */
  lemma RefusalsAreTold(s: State, c: Command, now: nat, known: bool)
    requires Starting(c) && c.generation == s.owner
    ensures var answer := Executed(s, c, now, known);
      && (!ValidId(c.id) ==> answer == Answer(s, InvalidRequest))
      && (ValidId(c.id) && !Holds(s, c.id) && |s.table| >= TABLE_MAX ==> answer == Answer(s, OwnerBusy))
      && (ValidId(c.id) && !Holds(s, c.id) && |s.table| < TABLE_MAX && (c.PairingWindowOpen? || c.PairStart?) ==>
            && (s.sender.NoSender? ==> answer == Answer(s, OperationFailed))
            && (s.sender.Disconnected? ==>
                  var failed := Record(c.id, Some(OperationFailed), Some(now), None, []);
                  answer == Answer(s.(table := s.table + [failed]), OperationFailed)))
  {
    hide Find, DecisionOf, LookUp, ValidId, Holds;
    FindsNothing(s, c.id);
  }

  /** A command for another owner changes nothing but what any command expires, and says so. */
  lemma StaleCommandsDoNothing(s: State, c: Command, now: nat, known: bool)
    requires !c.OwnerInfo? && !c.IdentityList? && c.generation != s.owner
    ensures Executed(s, c, now, known) == Answer(s, StaleOwner)
  {
  }

  lemma BeginsWithout(s: State, e: Event, id: string)
    requires Sound(s) && Begins(s, e, id)
    ensures e.Handle? && !Holds(Refreshed(s, e.now), id) && Holds(Step(s, e), id)
  {
    hide Sound, Executed;
    var operation :| Step(s, e).starts == s.starts + [Start(id, operation)];
    assert !e.Handle? ==> |Step(s, e).starts| == |s.starts|;
    if e.Handle? {
      var r := Refreshed(s, e.now);
      RefreshKeeps(s, e.now);
      StartsNeedAbsence(r, e.command, e.now, e.known);
      var start :| Step(s, e).starts == r.starts + [start] && !Holds(r, start.id) && Holds(Step(s, e), start.id);
      assert (s.starts + [start])[|s.starts|] == (s.starts + [Start(id, operation)])[|s.starts|];
    }
  }

  lemma {:induction false} HeldUntilOutdated(s: State, events: seq<Event>, id: string, i: nat, j: nat)
    requires Fresh(s) && i <= j <= |events|
    requires Holds(After(s, events[..i]), id) && !Holds(After(s, events[..j]), id)
    ensures exists k: nat :: i <= k < j && Outdated(After(s, events[..k]), events[k], id)
    decreases j
  {
    hide Sound, Step, Holds, Outdated;
    if i < j {
      var n := j - 1;
      assert events[..j][..n] == events[..n] && events[..j][n] == events[n];
      if Holds(After(s, events[..n]), id) {
        RunKeepsSound(s, events[..n]);
        OnlyOutdatedRecordsLeave(After(s, events[..n]), events[n], id);
      } else {
        HeldUntilOutdated(s, events, id, i, n);
      }
    }
  }

  /** At most once: between two starts under one command id, some command found the record of the first one
      finished for ten minutes. */
  lemma RestartNeedsExpiry(s: State, events: seq<Event>, id: string, i: nat, j: nat)
    requires Fresh(s) && i < j < |events|
    requires Begins(After(s, events[..i]), events[i], id) && Begins(After(s, events[..j]), events[j], id)
    ensures exists k: nat :: i < k <= j && Outdated(After(s, events[..k]), events[k], id)
  {
    hide Sound, Step, Holds, Outdated, Begins;
    RunKeepsSound(s, events[..i]);
    RunKeepsSound(s, events[..j]);
    BeginsWithout(After(s, events[..i]), events[i], id);
    BeginsWithout(After(s, events[..j]), events[j], id);
    assert events[..i + 1][..i] == events[..i] && events[..i + 1][i] == events[i];
    assert Holds(After(s, events[..i + 1]), id);
    if Holds(After(s, events[..j]), id) {
      RefreshDropsOnlyOutdated(After(s, events[..j]), events[j].now, events[j].command, events[j].known, id);
    } else {
      HeldUntilOutdated(s, events, id, i + 1, j);
    }
  }

  // What repeats are answered.

  lemma FindsIt(table: seq<Record>, k: nat)
    requires Pairwise(table) && k < |table|
    ensures Find(table, table[k].id) == k
  {
    assert forall j: nat :: j < k ==> Apart(table[j], table[k]);
  }

  /** A repeated command starts nothing and is answered with what is currently known of the first. */
  lemma RepeatsAreAnswered(s: State, k: nat, operation: Operation, now: nat)
    requires Sound(s) && k < |s.table| && ValidId(s.table[k].id)
    ensures Accepted(s, s.table[k].id, operation) == Answer(s, Current(s.table[k]))
    ensures AcceptedPairing(s, s.table[k].id, operation, now) == Answer(s, Current(s.table[k]))
  {
    FindsIt(s.table, k);
  }

  /** The last update about a command is what its record shows, and its time counts if the update is terminal. The
      records of other commands are left alone. */
  lemma LastUpdateShows(s: State, c: Completion, k: nat)
    requires Sound(s) && k < |s.table|
    ensures |Applied(s.table, s.queue)| == |Applied(s.table, s.queue + [c])| == |s.table|
    ensures var before, after := Applied(s.table, s.queue)[k], Applied(s.table, s.queue + [c])[k];
      if s.table[k].id == c.id then
        && after.response == Some(c.response)
        && after.completedAt == (if c.response.ConfirmationRequired? || c.response.Waiting? then None else Some(c.at))
        && after.id == c.id && after.decision == before.decision && after.decisionResults == before.decisionResults
      else after == before
  {
    var queue := s.queue + [c];
    assert queue[..|queue| - 1] == s.queue;
    CompletionsKeepIds(s.table, s.queue);
    CompletionsKeep(s, s.queue);
    var before := Applied(s.table, s.queue);
    assert Applied(s.table, queue) == WithCompletion(before, c);
    FindsIt(before, k);
  }

  lemma {:induction false} ResultOf(table: seq<Record>, k: nat)
    requires Pairwise(table) && k < |table| && |table[k].decisionResults| == 1
    ensures DecisionOf(table, table[k].decisionResults[0].id) == Some(table[k].decisionResults[0].response)
  {
    var d := table[k].decisionResults[0];
    if k > 0 {
      assert Apart(table[0], table[k]) && d.id in DecisionIds(table[k]);
      NotNoted(table[0], d.id);
      ResultOf(table[1..], k - 1);
    }
  }

  lemma {:induction false} ResultsHold(results: seq<DecisionResult>, id: string)
    ensures ResultIn(results, id).Some? <==> exists d :: d in results && d.id == id
  {
    if results != [] {
      ResultsHold(results[1..], id);
      assert forall d :: d in results <==> d == results[0] || d in results[1..];
    }
  }

  lemma NotNoted(r: Record, id: string)
    requires id !in DecisionIds(r)
    ensures ResultIn(r.decisionResults, id).None?
  {
    ResultsHold(r.decisionResults, id);
  }

  /** A repeated decision is answered as the first was, whatever it now says, and sends nothing. */
  lemma RepeatedDecisionIsAnswered(s: State, k: nat, parent: string, transaction: string, confirmed: bool)
    requires Sound(s) && k < |s.table| && |s.table[k].decisionResults| == 1
    requires ValidId(s.table[k].decisionResults[0].id) && ValidId(parent) && ValidId(transaction)
    ensures Decided(s, s.table[k].decisionResults[0].id, parent, transaction, confirmed)
         == Answer(s, s.table[k].decisionResults[0].response)
  {
    ResultOf(s.table, k);
  }

  /** Asking for a result shows the current response of the record, exactly when no older record has noted a
      decision under the same id; otherwise it shows that decision. */
  lemma {:induction false} LookUpShows(table: seq<Record>, k: nat)
    requires Pairwise(table) && k < |table|
    ensures (forall j: nat :: j < k ==> table[k].id !in DecisionIds(table[j]))
      ==> LookUp(table, table[k].id) == Current(table[k])
    ensures (exists j: nat :: j < k && table[k].id in DecisionIds(table[j]))
      ==> Some(LookUp(table, table[k].id)) == DecisionOf(table, table[k].id)
  {
    var id := table[k].id;
    if k > 0 {
      assert Apart(table[0], table[k]);
      ResultsHold(table[0].decisionResults, id);
      if id in DecisionIds(table[0]) {
        assert ResultIn(table[0].decisionResults, id).Some?;
      } else {
        LookUpShows(table[1..], k - 1);
        forall j: nat | 0 < j < k && id in DecisionIds(table[j])
          ensures j - 1 < k - 1 && table[1..][k - 1].id in DecisionIds(table[1..][j - 1])
        {
        }
      }
    }
  }

  // Updates come from workers and pairing tasks, which answer an operation and never a decision.

  predicate Reported(r: Response) {
    r.IdentityInitialized? || r.Unpaired? || r.OperationFailed? || r.ConfirmationRequired? || r.Waiting? || r.Paired?
  }

  predicate Noted(r: Response) {
    r.DecisionAccepted? || r.InvalidRequest?
  }

  predicate Genuine(events: seq<Event>) {
    forall e :: e in events && e.Update? ==> Reported(e.completion.response)
  }

  predicate Answers(r: Record) {
    (r.response.Some? ==> Reported(r.response.value)) && (forall d :: d in r.decisionResults ==> Noted(d.response))
  }

  /** Records answer with what was reported, and decisions with what was noted. */
  predicate Told(s: State) {
    (forall r :: r in s.table ==> Answers(r)) && (forall c :: c in s.queue ==> Reported(c.response))
  }

  lemma {:induction false} CompletionsAnswer(table: seq<Record>, queue: seq<Completion>)
    requires (forall r :: r in table ==> Answers(r)) && (forall c :: c in queue ==> Reported(c.response))
    ensures forall r :: r in Applied(table, queue) ==> Answers(r)
  {
    hide Find, Answers;
    if queue != [] {
      var n := |queue| - 1;
      CompletionsAnswer(table, queue[..n]);
      CompletionAnswers(Applied(table, queue[..n]), queue[n]);
    }
  }

  lemma CompletionAnswers(table: seq<Record>, c: Completion)
    requires (forall r :: r in table ==> Answers(r)) && Reported(c.response)
    ensures forall r :: r in WithCompletion(table, c) ==> Answers(r)
  {
    var k := Find(table, c.id);
    if k < |table| {
      assert Answers(table[k]);
      forall r | r in WithCompletion(table, c) ensures Answers(r) {
        assert r == Updated(table[k], c) || r in table;
      }
    }
  }

  lemma StepTells(s: State, e: Event)
    requires Told(s) && (e.Update? ==> Reported(e.completion.response))
    ensures Told(Step(s, e))
  {
    if e.Handle? {
      RefreshTells(s, e.now);
      ExecutedTells(Refreshed(s, e.now), e.command, e.now, e.known);
    }
  }

  lemma RefreshTells(s: State, now: nat)
    requires Told(s)
    ensures Told(Refreshed(s, now))
  {
    hide Answers;
    CompletionsAnswer(s.table, s.queue);
    forall r | r in Refreshed(s, now).table ensures Answers(r) {
      ExpiryKeepsExactly(Applied(s.table, s.queue), now, r);
    }
  }

  lemma {:induction false} KnownIsNoted(table: seq<Record>, id: string)
    requires forall r :: r in table ==> Answers(r)
    ensures DecisionOf(table, id).Some? ==> Noted(DecisionOf(table, id).value)
  {
    if table != [] {
      assert Answers(table[0]);
      ResultIsNoted(table[0].decisionResults, id);
      KnownIsNoted(table[1..], id);
    }
  }

  lemma {:induction false} ResultIsNoted(results: seq<DecisionResult>, id: string)
    requires forall d :: d in results ==> Noted(d.response)
    ensures ResultIn(results, id).Some? ==> Noted(ResultIn(results, id).value)
  {
    if results != [] {
      ResultIsNoted(results[1..], id);
    }
  }

  lemma ExecutedTells(s: State, c: Command, now: nat, known: bool)
    requires Told(s)
    ensures Told(Executed(s, c, now, known).state)
  {
    hide Find, DecisionOf, LookUp, ValidId, Prompted, Listening, Current;
    var after := Executed(s, c, now, known).state;
    forall r | r in after.table ensures Answers(r) {
      var i: nat :| i < |after.table| && after.table[i] == r;
      assert i < |s.table| ==> s.table[i] in s.table;
    }
  }

  lemma {:induction false} RunTells(s: State, events: seq<Event>)
    requires Fresh(s) && Genuine(events)
    ensures Told(After(s, events))
  {
    hide Step, Answers;
    if events != [] {
      var n := |events| - 1;
      assert events[n] in events;
      RunTells(s, events[..n]);
      StepTells(After(s, events[..n]), events[n]);
    }
  }

  /** In every run of genuine updates a result query shows a command's own response if and only if no older record
      has noted a decision under its id. */
  lemma LookUpShowsExactly(s: State, events: seq<Event>, k: nat)
    requires Fresh(s) && Genuine(events) && k < |After(s, events).table|
    ensures var table := After(s, events).table;
      LookUp(table, table[k].id) == Current(table[k])
      <==> forall j: nat :: j < k ==> table[k].id !in DecisionIds(table[j])
  {
    hide Sound, Told, After;
    var s' := After(s, events);
    RunKeepsSound(s, events);
    RunTells(s, events);
    ShowsExactly(s', k);
  }

  lemma ShowsExactly(s: State, k: nat)
    requires Sound(s) && Told(s) && k < |s.table|
    ensures LookUp(s.table, s.table[k].id) == Current(s.table[k])
      <==> forall j: nat :: j < k ==> s.table[k].id !in DecisionIds(s.table[j])
  {
    hide LookUp, DecisionOf, DecisionIds, Apart, RecordOk, ChannelOk;
    LookUpShows(s.table, k);
    KnownIsNoted(s.table, s.table[k].id);
    assert Answers(s.table[k]);
  }

  /** And those records do leave: no command finds a response that became terminal ten minutes ago. */
  lemma {:induction false} OldRecordsLeave(s: State, now: nat, r: Record)
    requires r in Refreshed(s, now).table && r.completedAt.Some?
    ensures now < r.completedAt.value + 10 * 60 * 1000
  {
    ExpiryKeepsExactly(Applied(s.table, s.queue), now, r);
  }

  /** An id that is neither a command's nor a decision's is unknown, and no other is. */
  lemma {:induction false} UnknownExactly(table: seq<Record>, id: string)
    requires forall r :: r in table ==> Answers(r)
    ensures LookUp(table, id) == CommandUnknown <==> forall r :: r in table ==> r.id != id && id !in DecisionIds(r)
  {
    if table != [] {
      assert table[0] in table && Answers(table[0]);
      ResultsHold(table[0].decisionResults, id);
      ResultIsNoted(table[0].decisionResults, id);
      UnknownExactly(table[1..], id);
      assert forall r :: r in table <==> r == table[0] || r in table[1..];
    }
  }

  // It does happen, to a command whose id has been used for a decision.

  lemma OneKept(r: Record)
    requires r.completedAt.None?
    ensures Expired([r], 0) == [r]
  {
    assert [r][..0] == [];
  }

  lemma OneApplied(r: Record, c: Completion)
    ensures Applied([r], []) == [r]
    ensures c.id == r.id ==> Applied([r], [c]) == [Updated(r, c)]
  {
    assert [c][..0] == [];
  }

  lemma PairingOpens(s: State, a: string)
    requires s.table == [] && s.queue == [] && s.channels == [] && s.sender.Connected? && ValidId(a)
    ensures var after := Step(s, Handle(PairingWindowOpen(a, s.owner), 0, true));
      && after.table == [Record(a, None, None, Some(0), [])] && after.channels == [Channel([], 0, true)]
      && after.queue == [] && after.owner == s.owner
  {
    hide ValidId;
    assert Refreshed(s, 0) == s;
  }

  lemma DecidedAlone(s: State, r: Record, id: string, tx: string)
    requires s.table == [r] && r.decisionResults == [] && Prompted(r, tx) && Listening(s, r)
    requires ValidId(r.id) && ValidId(id) && ValidId(tx)
    ensures var after := Decided(s, id, r.id, tx, true).state;
      && after.table == [r.(decisionResults := [DecisionResult(id, DecisionAccepted)])]
      && after.queue == s.queue && after.owner == s.owner
  {
    hide ValidId;
    assert s.table[1..] == [];
    assert DecisionOf(s.table, id) == None && Find(s.table, r.id) == 0;
    assert s.table[0 := r.(decisionResults := [DecisionResult(id, DecisionAccepted)])]
        == [r.(decisionResults := [DecisionResult(id, DecisionAccepted)])];
  }

  lemma DecisionIsNoted(s: State, a: string, b: string, tx: string)
    requires s.table == [Record(a, None, None, Some(0), [])] && |s.channels| == 1 && s.channels[0].open
    requires s.queue == [Completion(a, ConfirmationRequired(tx, ""), 0)] && ValidId(a) && ValidId(b) && ValidId(tx)
    ensures var after := Step(s, Handle(PairingDecide(b, s.owner, a, tx, true), 0, true));
      && |after.table| == 1 && after.table[0].id == a && after.table[0].completedAt.None?
      && after.table[0].decisionResults == [DecisionResult(b, DecisionAccepted)]
      && after.queue == [] && after.owner == s.owner
  {
    hide ValidId, Decided, Applied, Expired, Find;
    OneApplied(s.table[0], s.queue[0]);
    var prompted := Updated(s.table[0], s.queue[0]);
    OneKept(prompted);
    assert Refreshed(s, 0).table == [prompted];
    DecidedAlone(Refreshed(s, 0), prompted, b, tx);
  }

  lemma CommandIsHidden(s: State, b: string)
    requires |s.table| == 1 && s.table[0].id != b && s.table[0].completedAt.None? && s.queue == [] && ValidId(b)
    requires s.table[0].decisionResults == [DecisionResult(b, DecisionAccepted)]
    ensures var after := Step(s, Handle(IdentityInit(b, s.owner), 0, true));
      && after.table == [s.table[0], Record(b, None, None, None, [])]
      && LookUp(after.table, b) == DecisionAccepted
  {
    hide ValidId;
    OneApplied(s.table[0], Completion("", Waiting, 0));
    OneKept(s.table[0]);
    assert s.table == [s.table[0]];
    assert Refreshed(s, 0).table == s.table;
    assert s.table + [Record(b, None, None, None, [])] == [s.table[0], Record(b, None, None, None, [])];
  }

  /** A pairing, its prompt, a decision under some id and then a command under that id: the command waits, and a
      query under its id is shown the decision. */
  function Hiding(owner: string, a: string, b: string, tx: string): seq<Event> {
    [Handle(PairingWindowOpen(a, owner), 0, true), Update(Completion(a, ConfirmationRequired(tx, ""), 0)),
     Handle(PairingDecide(b, owner, a, tx, true), 0, true), Handle(IdentityInit(b, owner), 0, true)]
  }

  lemma DecisionHidesCommand(s: State, a: string, b: string, tx: string)
    requires Fresh(s) && s.sender.Connected? && ValidId(a) && ValidId(b) && ValidId(tx) && a != b
    ensures Genuine(Hiding(s.owner, a, b, tx))
    ensures var table := After(s, Hiding(s.owner, a, b, tx)).table;
      && |table| == 2 && table[1].id == b
      && Current(table[1]) == CommandPending && LookUp(table, b) == DecisionAccepted
  {
    hide Step, ValidId, LookUp;
    var es := Hiding(s.owner, a, b, tx);
    PairingOpens(s, a);
    var s1 := Step(s, es[0]);
    Queued(s1, es[1].completion);
    var s2 := Step(s1, es[1]);
    DecisionIsNoted(s2, a, b, tx);
    CommandIsHidden(Step(s2, es[2]), b);
    FourSteps(s, es);
  }

  lemma Queued(s: State, c: Completion)
    ensures Step(s, Update(c)) == s.(queue := s.queue + [c])
  {
  }

  lemma FourSteps(s: State, es: seq<Event>)
    requires |es| == 4
    ensures After(s, es) == Step(Step(Step(Step(s, es[0]), es[1]), es[2]), es[3])
  {
    hide Step;
    assert es[..3][..2] == es[..2] && es[..2][..1] == es[..1] && es[..1][..0] == [];
    assert After(s, es[..1]) == Step(s, es[0]);
    assert After(s, es[..2]) == Step(After(s, es[..1]), es[1]);
    assert After(s, es[..3]) == Step(After(s, es[..2]), es[2]);
  }

  /** There are such ids. */
  lemma IdsExist() returns (a: string, b: string)
    ensures ValidId(a) && ValidId(b) && a != b
  {
    a, b := seq(32, _ => 'a'), seq(32, _ => 'b');
    assert a[0] != b[0];
  }

  // Decisions.

  /** The command `e` carries the one decision of a prompted pairing down channel `ch`. */
  ghost predicate Decides(s: State, e: Event, ch: nat) {
    && e.Handle? && e.command.PairingDecide? && e.command.generation == s.owner
    && var r := Refreshed(s, e.now);
       exists k: nat ::
         && k < |r.table|
         && r.table[k].id == e.command.parent && r.table[k].decision == Some(ch)
         && r.table[k].decisionResults == [] && Prompted(r.table[k], e.command.transaction)
  }

  /** Whatever happens, a channel changes only when a decision that its own parent was prompted for goes down it,
      and then it is empty and its task listens: sending to a channel of capacity one cannot block. */
  lemma OnlyPromptedDecisionsAreSent(s: State, e: Event, ch: nat)
    requires Sound(s) && ch < |s.channels|
    ensures |s.channels| <= |Step(s, e).channels|
    ensures Step(s, e).channels[ch].sent != s.channels[ch].sent ==>
      && Decides(s, e, ch)
      && s.channels[ch].sent == [] && s.channels[ch].open
      && Step(s, e).channels[ch].sent == [Decision(e.command.transaction, e.command.confirmed)]
      && Executed(Refreshed(s, e.now), e.command, e.now, e.known).response == DecisionAccepted
  {
    hide Find, DecisionOf, LookUp, ValidId, Sound;
    if e.Handle? && Step(s, e).channels[ch].sent != s.channels[ch].sent {
      RefreshKeeps(s, e.now);
      DecisionIsPrompted(Refreshed(s, e.now), e.command, ch);
    }
  }

  lemma DecisionIsPrompted(s: State, c: Command, ch: nat)
    requires Sound(s) && ch < |s.channels| && c.PairingDecide?
    requires Decided(s, c.id, c.parent, c.transaction, c.confirmed).state.channels[ch].sent != s.channels[ch].sent
    ensures var k := Find(s.table, c.parent);
      && k < |s.table| && s.table[k].id == c.parent && s.table[k].decision == Some(ch)
      && s.table[k].decisionResults == [] && Prompted(s.table[k], c.transaction)
    ensures s.channels[ch].sent == [] && s.channels[ch].open
  {
    hide DecisionOf, ValidId, Apart;
    AllRecordsOk(s, s.table[Find(s.table, c.parent)]);
  }

  lemma {:induction false} NobodyNoted(table: seq<Record>, id: string)
    requires forall r :: r in table ==> id !in DecisionIds(r)
    ensures DecisionOf(table, id).None?
  {
    if table != [] {
      NotNoted(table[0], id);
      NobodyNoted(table[1..], id);
    }
  }

  /** The first decision on a prompted pairing: if its task listens, the decision goes down its channel, whatever it
      is, and down no other, and is noted and answered as accepted. If nobody listens, nothing is sent, and that is
      noted and answered as invalid. */
  lemma PromptedDecisionIsSent(s: State, k: nat, id: string, transaction: string, confirmed: bool)
    requires Sound(s) && k < |s.table| && ValidId(id) && ValidId(s.table[k].id) && ValidId(transaction)
    requires forall r :: r in s.table ==> id !in DecisionIds(r)
    requires s.table[k].decisionResults == []
    requires s.table[k].response.Some? && s.table[k].response.value.ConfirmationRequired?
    requires s.table[k].response.value.transaction == transaction
    ensures var r := s.table[k];
      var answer := Decided(s, id, r.id, transaction, confirmed);
      && |answer.state.table| == |s.table| && |answer.state.channels| == |s.channels|
      && (forall ch: nat :: ch < |s.channels| && r.decision != Some(ch) ==> answer.state.channels[ch] == s.channels[ch])
      && answer.state.table[k].decisionResults == [DecisionResult(id, answer.response)]
      && if r.decision.Some? && r.decision.value < |s.channels| && s.channels[r.decision.value].open then
           && answer.response == DecisionAccepted
           && answer.state.channels[r.decision.value].sent == [Decision(transaction, confirmed)]
         else
           answer.response == InvalidRequest && answer.state.channels == s.channels
  {
    hide ValidId, DecisionOf, Find, Apart;
    NobodyNoted(s.table, id);
    FindsIt(s.table, k);
    AllRecordsOk(s, s.table[k]);
  }

  predicate Carries(s: State, after: State, ch: nat, d: Decision) {
    && ch < |s.channels| && ch < |after.channels|
    && s.channels[ch].sent == [] && after.channels[ch].sent == [d]
  }

  /** In every run, a decision under a new id is answered as accepted if and only if it went down a channel. */
  lemma AcceptedExactlyIfSent(s: State, events: seq<Event>, c: Command, now: nat, known: bool)
    requires Fresh(s) && c.PairingDecide?
    requires forall r :: r in Refreshed(After(s, events), now).table ==> c.id !in DecisionIds(r)
    ensures var before := After(s, events);
      var answer := Executed(Refreshed(before, now), c, now, known);
      answer.response == DecisionAccepted
      <==> exists ch: nat :: Carries(before, answer.state, ch, Decision(c.transaction, c.confirmed))
  {
    hide Sound, After, Applied, Expired;
    RunKeepsSound(s, events);
    var before := After(s, events);
    RefreshKeeps(before, now);
    DecidesExactly(Refreshed(before, now), c);
    var answer := Executed(Refreshed(before, now), c, now, known);
    assert forall ch: nat, d :: Carries(before, answer.state, ch, d) <==> Carries(Refreshed(before, now), answer.state, ch, d);
  }

  lemma DecidesExactly(s: State, c: Command)
    requires Sound(s) && c.PairingDecide?
    requires forall r :: r in s.table ==> c.id !in DecisionIds(r)
    ensures var answer := Decided(s, c.id, c.parent, c.transaction, c.confirmed);
      answer.response == DecisionAccepted
      <==> exists ch: nat :: Carries(s, answer.state, ch, Decision(c.transaction, c.confirmed))
  {
    hide ValidId, DecisionOf, Find, Apart;
    NobodyNoted(s.table, c.id);
    var answer := Decided(s, c.id, c.parent, c.transaction, c.confirmed);
    var k := Find(s.table, c.parent);
    if answer.response == DecisionAccepted {
      AllRecordsOk(s, s.table[k]);
      assert Carries(s, answer.state, s.table[k].decision.value, Decision(c.transaction, c.confirmed));
    }
  }

  /** And in every run the record of a pairing tells the two apart: it notes an accepted decision if and only if its
      channel has carried one. */
  lemma NotedExactlyIfSent(s: State, events: seq<Event>, r: Record)
    requires Fresh(s) && r in After(s, events).table && r.decisionResults != []
    ensures |r.decisionResults| == 1
    ensures r.decisionResults[0].response == DecisionAccepted <==>
      r.decision.Some? && r.decision.value < |After(s, events).channels|
      && |After(s, events).channels[r.decision.value].sent| == 1
  {
    hide After, Sound;
    RunKeepsSound(s, events);
    AllRecordsOk(After(s, events), r);
    if r.decision.Some? {
      AllChannelsOk(After(s, events), r.decision.value);
    }
  }

  lemma AllChannelsOk(s: State, ch: nat)
    requires Sound(s) && ch < |s.channels|
    ensures ChannelOk(s.channels[ch])
  {
  }

  /** What a channel has carried is final: over any run it holds the same single decision once it holds one. */
  lemma {:induction false} DecisionsAreFinal(s: State, events: seq<Event>, ch: nat, i: nat, j: nat)
    requires Fresh(s) && i <= j <= |events|
    requires ch < |After(s, events[..i]).channels| && After(s, events[..i]).channels[ch].sent != []
    ensures ch < |After(s, events[..j]).channels|
    ensures After(s, events[..j]).channels[ch].sent == After(s, events[..i]).channels[ch].sent
    ensures |After(s, events[..j]).channels[ch].sent| == 1
    decreases j
  {
    hide Step, Decides;
    RunKeepsSound(s, events[..j]);
    if i < j {
      var n := j - 1;
      assert events[..j][..n] == events[..n] && events[..j][n] == events[n];
      DecisionsAreFinal(s, events, ch, i, n);
      RunKeepsSound(s, events[..n]);
      OnlyPromptedDecisionsAreSent(After(s, events[..n]), events[n], ch);
    } else {
      assert ChannelOk(After(s, events[..j]).channels[ch]);
    }
  }

  lemma ExpireNext(table: seq<Record>, i: nat, now: nat)
    requires i < |table|
    ensures Expired(table[..i + 1], now) == Expired(table[..i], now) + if Kept(table[i], now) then [table[i]] else []
  {
    assert table[..i + 1][..i] == table[..i];
  }

  lemma ApplyNext(table: seq<Record>, queue: seq<Completion>, i: nat)
    requires i < |queue|
    ensures Applied(table, queue[..i + 1]) == WithCompletion(Applied(table, queue[..i]), queue[i])
  {
    assert queue[..i + 1][..i] == queue[..i];
  }

  /** The state behind the control lock, changed in place. */
  class ControlState {
    const owner: string
    var table: seq<Record>
    var queue: seq<Completion>
    var sender: Sender
    var channels: seq<Channel>
    var starts: seq<Start>

    ghost function View(): State
      reads this
    {
      State(owner, table, queue, sender, channels, starts)
    }

    constructor (owner: string, sender: Sender)
      ensures Fresh(View()) && this.owner == owner && this.sender == sender
    {
      this.owner := owner;
      this.sender := sender;
      table, queue, channels, starts := [], [], [], [];
    }

    method ApplyCompletions()
      modifies this
      ensures View() == old(View()).(table := Applied(old(table), old(queue)), queue := [])
    {
      var completions := queue;
      queue := [];
      for i := 0 to |completions|
        invariant View() == old(View()).(table := Applied(old(table), completions[..i]), queue := [])
      {
        ApplyNext(old(table), completions, i);
        var c := completions[i];
        var k := Find(table, c.id);
        if k < |table| {
          var terminal := !c.response.ConfirmationRequired? && !c.response.Waiting?;
          var r := table[k].(response := Some(c.response));
          table := table[k := r.(completedAt := if terminal then Some(c.at) else None)];
        }
      }
      assert completions[..|completions|] == completions;
    }

    method ExpireTerminal(now: nat)
      modifies this
      ensures View() == old(View()).(table := Expired(old(table), now))
    {
      var kept: seq<Record> := [];
      for i := 0 to |table|
        invariant View() == old(View()) && kept == Expired(table[..i], now)
      {
        ExpireNext(table, i, now);
        if table[i].completedAt.None? || now < table[i].completedAt.value + TEN_MINUTES {
          kept := kept + [table[i]];
        }
      }
      assert table[..|table|] == table;
      table := kept;
    }

    method Accept(id: string, operation: Operation) returns (response: Response)
      modifies this
      ensures Answer(View(), response) == Accepted(old(View()), id, operation)
    {
      if !ValidId(id) {
        return InvalidRequest;
      }
      var k := Find(table, id);
      if k < |table| {
        return Current(table[k]);
      }
      if |table| >= TABLE_MAX {
        return OwnerBusy;
      }
      table := table + [Record(id, None, None, None, [])];
      starts := starts + [Start(id, operation)];
      response := CommandAccepted;
    }

    /** Hands an event to the runtime, if there still is one. */
    method Send(id: string, operation: Operation) returns (ok: bool)
      requires !sender.NoSender?
      modifies this`channels, this`starts
      ensures ok <==> sender.Connected?
      ensures channels == if ok then old(channels) + [Channel([], 0, true)] else old(channels)
      ensures starts == if ok then old(starts) + [Start(id, operation)] else old(starts)
    {
      ok := sender.Connected?;
      if ok {
        channels := channels + [Channel([], 0, true)];
        starts := starts + [Start(id, operation)];
      }
    }

    method AcceptPairingEvent(id: string, operation: Operation, now: nat) returns (response: Response)
      modifies this
      ensures Answer(View(), response) == AcceptedPairing(old(View()), id, operation, now)
    {
      if !ValidId(id) {
        return InvalidRequest;
      }
      var k := Find(table, id);
      if k < |table| {
        return Current(table[k]);
      }
      if |table| >= TABLE_MAX {
        return OwnerBusy;
      }
      if sender.NoSender? {
        return OperationFailed;
      }
      table := table + [Record(id, None, None, Some(|channels|), [])];
      var sent := Send(id, operation);
      if !sent {
        var last := |table| - 1;
        var failed := table[last].(response := Some(OperationFailed), completedAt := Some(now), decision := None);
        table := table[last := failed];
        return OperationFailed;
      }
      response := CommandAccepted;
    }

    /** Sends down a channel of capacity one. The room it needs is the caller's to show: the lock is held. */
    method SendDecision(ch: nat, d: Decision) returns (ok: bool)
      requires ch < |channels| && |channels[ch].sent| == channels[ch].received
      modifies this`channels
      ensures ok <==> old(channels)[ch].open
      ensures channels == if ok then old(channels)[ch := old(channels)[ch].(sent := old(channels)[ch].sent + [d])]
                          else old(channels)
    {
      ok := channels[ch].open;
      if ok {
        channels := channels[ch := channels[ch].(sent := channels[ch].sent + [d])];
      }
    }

    method AcceptPairingDecision(id: string, parent: string, transaction: string, confirmed: bool)
      returns (response: Response)
      requires Sound(View())
      modifies this
      ensures Answer(View(), response) == Decided(old(View()), id, parent, transaction, confirmed)
    {
      if !ValidId(id) || !ValidId(parent) || !ValidId(transaction) {
        return InvalidRequest;
      }
      var known := DecisionOf(table, id);
      if known.Some? {
        return known.value;
      }
      var k := Find(table, parent);
      if k == |table| || table[k].decisionResults != [] || !Prompted(table[k], transaction) {
        return InvalidRequest;
      }
      var accepted := false;
      AllRecordsOk(View(), table[k]);
      if table[k].decision.Some? {
        var ch := table[k].decision.value;
        assert ChannelOk(View().channels[ch]);
        accepted := SendDecision(ch, Decision(transaction, confirmed));
      }
      response := if accepted then DecisionAccepted else InvalidRequest;
      var results := table[k].decisionResults + [DecisionResult(id, response)];
      assert results == [DecisionResult(id, response)];
      table := table[k := table[k].(decisionResults := results)];
    }

    method HandleCommand(c: Command, now: nat, known: bool) returns (response: Response, shutdown: bool)
      requires Sound(View())
      modifies this
      ensures Answer(View(), response) == Executed(Refreshed(old(View()), now), c, now, known)
      ensures shutdown <==> c.Shutdown? && c.generation == owner
      ensures Sound(View())
    {
      hide Sound, Accepted, AcceptedPairing, Decided, Applied, Expired, LookUp;
      RefreshKeeps(View(), now);
      StepKeepsSound(View(), Handle(c, now, known));
      assert Sound(Executed(Refreshed(View(), now), c, now, known).state);
      ApplyCompletions();
      ExpireTerminal(now);
      shutdown := false;
      if HasGeneration(c) && c.generation != owner {
        return StaleOwner, false;
      }
      match c {
        case OwnerInfo => response := Info;
        case IdentityList => response := if known then IdentityState else OperationFailed;
        case CommandResult(id, _) => response := LookUp(table, id);
        case Shutdown(_) => response, shutdown := ShutdownAccepted, true;
        case IdentityInit(id, _) => response := Accept(id, Initialize);
        case Unpair(id, _, peer) => response := Accept(id, Revoke(peer));
        case PairingWindowOpen(id, _) => response := AcceptPairingEvent(id, OpenWindow(|channels|), now);
        case PairStart(id, _, loopback) =>
          if !loopback {
            return InvalidRequest, false;
          }
          response := AcceptPairingEvent(id, Connect(|channels|), now);
        case PairingDecide(id, _, parent, transaction, confirmed) =>
          response := AcceptPairingDecision(id, parent, transaction, confirmed);
      }
    }
  }
}
