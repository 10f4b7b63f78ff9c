/** Pairing: an initiator and a responder exchange Begin, Decision, Prepared, Commit, Committed, Complete and
    Hello over an authenticated FIFO channel in each direction, and publish Pending, Committing and Paired
    between the messages. Either program may stop at any point, the channels may be cut, and the owners may
    revoke, or pair with somebody else, at any time. */
module Pairing {
  import opened Common
  import opened HostIdentity

  datatype Reason = Expired | PairingBusy | StoreFailed

  datatype Message =
    | Begin(tx: Transaction)
    | Decision(tx: Transaction, confirmed: bool)
    | Prepared(tx: Transaction)
    | Commit(tx: Transaction)
    | Committed(tx: Transaction)
    | Complete(tx: Transaction)
    | Hello(compatible: bool)
    | HelloAck
    | HelloReject
    | Close(tx: Transaction, reason: Reason)

  /** The two initiators: the host's, and the device's `pair_session`, which has no deadline checks and sends
      no Close, treats every unexpected decision as a rejection, and publishes without checking the old state. */
  datatype Kind = Host | Device

  datatype Status = Running | Failed | Done

  /** One program. `confirmed` is what its own `confirm` returned, `agreed` the decision it read, and `high`
      the highest stage it has published for its transaction (1 Pending, 2 Committing, 3 Paired). */
  datatype Party = Party(
    pc: nat, status: Status, remote: Key, tx: Option<Transaction>, confirmed: bool, agreed: bool,
    compatible: bool, store: PeerState, high: nat)

  datatype Channel = Channel(messages: seq<Message>, open: bool)

  datatype State = State(kind: Kind, i: Party, r: Party, toI: Channel, toR: Channel)

  /** What the environment decides for one step. */
  datatype Choice = Choice(confirm: bool, expired: bool, busy: bool, publish: Outcome, compatible: bool)

  datatype Turn = Turn(party: Party, inbox: Channel, outbox: Channel)

  function Advance(t: Turn): Turn {
    t.(party := t.party.(pc := t.party.pc + 1))
  }

  function Fail(t: Turn): Turn {
    t.(party := t.party.(status := Failed))
  }

  /** A message written to a cut channel is lost. */
  function Send(t: Turn, m: Message): (u: Turn)
    ensures u.party == t.party && u.inbox == t.inbox
  {
    if t.outbox.open then t.(outbox := t.outbox.(messages := t.outbox.messages + [m])) else t
  }

  predicate Receivable(c: Channel) {
    |c.messages| > 0
  }

  function Take(t: Turn): (u: Turn)
    requires Receivable(t.inbox)
    ensures u.party == t.party && u.outbox == t.outbox
  {
    t.(inbox := t.inbox.(messages := t.inbox.messages[1..]))
  }

  function StagePeer(stage: nat, remote: Key, tx: Transaction): PeerState {
    if stage <= 1 then Pending(remote, tx) else if stage == 2 then Committing(remote, tx) else Paired(remote, tx)
  }

  /** One statement of a pairing program. */
  datatype Action =
    | CheckUnpaired
    | Write(message: Content)
    | Confirm
    | ReadDecision
    | AnswerDecision
    | CheckDeadline
    | PublishPeer(stage: nat)
    | Read(expected: Content)
    | ReadBegin
    | Reserve
    | WriteHello
    | ReadHello
    | AnswerHello
    | ReadAnswer
    | Return

  /** What a message says about the pairing's own transaction. */
  datatype Content = CBegin | CConfirmed | CPrepared | CCommit | CCommitted | CComplete

  function MessageOf(c: Content, tx: Transaction): Message {
    match c
    case CBegin => Begin(tx)
    case CConfirmed => Decision(tx, true)
    case CPrepared => Prepared(tx)
    case CCommit => Commit(tx)
    case CCommitted => Committed(tx)
    case CComplete => Complete(tx)
  }

  /** `pair_initiator_until_inner`; `pair_session` runs the same statements without the deadline checks. */
  function InitiatorAction(pc: nat): Action {
    match pc
    case 0 => CheckUnpaired
    case 1 => Write(CBegin)
    case 2 => Confirm
    case 3 => ReadDecision
    case 4 => AnswerDecision
    case 5 => CheckDeadline
    case 6 => PublishPeer(1)
    case 7 => Write(CPrepared)
    case 8 => Read(CPrepared)
    case 9 => CheckDeadline
    case 10 => Write(CCommit)
    case 11 => Read(CCommitted)
    case 12 => PublishPeer(2)
    case 13 => Write(CCommitted)
    case 14 => Read(CComplete)
    case 15 => CheckDeadline
    case 16 => PublishPeer(3)
    case 17 => WriteHello
    case 18 => ReadAnswer
    case _ => Return
  }

  /** `pair_responder_stream_reserved_inner`. */
  function ResponderAction(pc: nat): Action {
    match pc
    case 0 => CheckUnpaired
    case 1 => ReadBegin
    case 2 => CheckDeadline
    case 3 => Reserve
    case 4 => Confirm
    case 5 => AnswerDecision
    case 6 => CheckDeadline
    case 7 => Read(CConfirmed)
    case 8 => Read(CPrepared)
    case 9 => CheckDeadline
    case 10 => PublishPeer(1)
    case 11 => Write(CPrepared)
    case 12 => Read(CCommit)
    case 13 => CheckDeadline
    case 14 => PublishPeer(2)
    case 15 => Write(CCommitted)
    case 16 => Read(CCommitted)
    case 17 => CheckDeadline
    case 18 => Write(CComplete)
    case 19 => ReadHello
    case 20 => PublishPeer(3)
    case 21 => AnswerHello
    case _ => Return
  }

  const INITIATOR_END := 19
  const RESPONDER_END := 22

  /** `set_peer` or `publish_peer`; a failure closes the pairing, on the host with a message. */
  function PublishStage(t: Turn, kind: Kind, tx: Transaction, stage: nat, o: Outcome): Turn {
    var next := StagePeer(stage, t.party.remote, tx);
    var valid := kind.Device? || ValidPeerTransition(t.party.store, next);
    var stored := if valid && Renamed(o) then t.(party := t.party.(store := next, high := stage)) else t;
    if valid && o.Published? then Advance(stored)
    else if kind.Host? then Fail(Send(stored, Close(tx, StoreFailed)))
    else Fail(stored)
  }

  /** The party's transaction; the responder has none before it has read Begin, and uses none. */
  function Tx(p: Party): Transaction {
    if p.tx.Some? then p.tx.value else 0
  }

  predicate Waits(a: Action, t: Turn) {
    (a.Read? || a.ReadBegin? || a.ReadDecision? || a.ReadHello? || a.ReadAnswer?) && !Receivable(t.inbox)
  }

  /** Performs one statement; `None` when it waits for a message or the program has returned. `initiates` tells
      the two ways of answering the decision apart. */
  function Perform(t: Turn, a: Action, kind: Kind, initiates: bool, c: Choice): Option<Turn> {
    var p := t.party;
    var tx := Tx(p);
    if Waits(a, t) then None
    else
      match a
      case CheckUnpaired => Some(if p.store.Unpaired? then Advance(t) else Fail(t))
      case Write(m) => Some(Advance(Send(t, MessageOf(m, tx))))
      case Confirm => Some(Advance(t.(party := p.(confirmed := c.confirm))))
      case ReadDecision =>
        var m := t.inbox.messages[0];
        if m.Decision? && m.tx == tx then Some(Advance(Take(t.(party := p.(agreed := m.confirmed)))))
        else if kind.Device? then Some(Advance(Take(t.(party := p.(agreed := false)))))
        else Some(Fail(Take(t)))
      case AnswerDecision =>
        var sent := Advance(Send(t, Decision(tx, p.confirmed)));
        Some(if p.confirmed && (initiates ==> p.agreed) then sent else Fail(sent))
      case CheckDeadline =>
        Some(if c.expired && kind.Host? then Fail(Send(t, Close(tx, Expired))) else Advance(t))
      case PublishPeer(stage) => Some(PublishStage(t, kind, tx, stage, c.publish))
      case Read(m) => Some(if t.inbox.messages[0] == MessageOf(m, tx) then Advance(Take(t)) else Fail(Take(t)))
      case ReadBegin =>
        var m := t.inbox.messages[0];
        Some(if m.Begin? then Advance(Take(t.(party := p.(tx := Some(m.tx))))) else Fail(Take(t)))
      case Reserve => Some(if c.busy then Fail(Send(t, Close(tx, PairingBusy))) else Advance(t))
      case WriteHello => Some(Advance(Send(t, Hello(c.compatible))))
      case ReadHello =>
        var m := t.inbox.messages[0];
        Some(if m.Hello? then Advance(Take(t.(party := p.(compatible := m.compatible)))) else Fail(Take(t)))
      case AnswerHello =>
        var sent := Advance(Send(t, if p.compatible then HelloAck else HelloReject));
        Some(if p.compatible then sent.(party := sent.party.(status := Done)) else Fail(sent))
      case ReadAnswer =>
        var read := Take(t);
        Some(if t.inbox.messages[0].HelloAck? then Advance(read.(party := read.party.(status := Done))) else Fail(read))
      case Return => None
  }

  function InitiatorStep(t: Turn, kind: Kind, c: Choice): Option<Turn> {
    Perform(t, InitiatorAction(t.party.pc), kind, true, c)
  }

  function ResponderStep(t: Turn, c: Choice): Option<Turn> {
    Perform(t, ResponderAction(t.party.pc), Host, false, c)
  }

  datatype Side = Initiator | Responder

  /** Anything that can happen. `Stop` is a crash, an i/o error or a read timeout of one program. `Cut` ends a
      channel after the first `keep` messages in flight. `Revoke` and `OtherPairing` are other users of a store. */
  datatype Event =
    | Step(side: Side, choice: Choice)
    | Stop(side: Side)
    | Cut(toward: Side, keep: nat)
    | Revoke(side: Side, remote: Key, faults: UnpairFaults)
    | OtherPairing(side: Side, peer: PeerState, o: Outcome)

  function PartyOf(s: State, side: Side): Party {
    if side.Initiator? then s.i else s.r
  }

  function WithParty(s: State, side: Side, p: Party): State {
    if side.Initiator? then s.(i := p) else s.(r := p)
  }

  function Cutoff(c: Channel, keep: nat): Channel {
    Channel(if keep < |c.messages| then c.messages[..keep] else c.messages, false)
  }

  /** A store operation by somebody else, seen through the peer state alone. */
  function StoreAfter(p: PeerState, s: Stored): PeerState {
    if s.Some? then s.value.peer else p
  }

  function Next(s: State, e: Event): Option<State> {
    match e
    case Step(Initiator, c) =>
      if !s.i.status.Running? then None
      else
        var turn := InitiatorStep(Turn(s.i, s.toI, s.toR), s.kind, c);
        if turn.None? then None
        else Some(s.(i := turn.value.party, toI := turn.value.inbox, toR := turn.value.outbox))
    case Step(Responder, c) =>
      if !s.r.status.Running? then None
      else
        var turn := ResponderStep(Turn(s.r, s.toR, s.toI), c);
        if turn.None? then None
        else Some(s.(r := turn.value.party, toR := turn.value.inbox, toI := turn.value.outbox))
    case Stop(side) =>
      var p := PartyOf(s, side);
      if p.status.Running? then Some(WithParty(s, side, p.(status := Failed))) else None
    case Cut(Initiator, keep) => Some(s.(toI := Cutoff(s.toI, keep)))
    case Cut(Responder, keep) => Some(s.(toR := Cutoff(s.toR, keep)))
    case Revoke(side, remote, f) =>
      var p := PartyOf(s, side);
      Some(WithParty(s, side, p.(store := StoreAfter(p.store, AfterUnpair(Some(Identity(0, p.store)), remote, f).0))))
    case OtherPairing(side, peer, o) =>
      var p := PartyOf(s, side);
      if (peer.Pending? || peer.Committing? || peer.Paired?) && s.i.tx != Some(peer.tx) then
        Some(WithParty(s, side, p.(store := StoreAfter(p.store, AfterSetPeer(Some(Identity(0, p.store)), peer, None, o).0))))
      else None
  }

  /** Before the exchange: nothing sent, nothing published, and neither store knows the fresh transaction. */
  predicate Start(s: State) {
    && s.i.pc == 0 && s.r.pc == 0 && s.i.status.Running? && s.r.status.Running?
    && s.i.tx.Some? && s.r.tx.None?
    && s.i.high == 0 && s.r.high == 0
    && s.toI == Channel([], true) && s.toR == Channel([], true)
    && StageIn(s.i.store, s.i.tx.value) == 0 && StageIn(s.r.store, s.i.tx.value) == 0
  }

  /** The stage a store shows for a transaction. */
  function StageIn(p: PeerState, tx: Transaction): nat {
    match p
    case Pending(_, t) => if t == tx then 1 else 0
    case Committing(_, t) => if t == tx then 2 else 0
    case Paired(_, t) => if t == tx then 3 else 0
    case _ => 0
  }

  // Safety.

  predicate BothConfirmed(s: State) {
    s.i.confirmed && s.r.confirmed && s.r.tx == s.i.tx
  }

  /** Why a message may be in flight toward the responder. Each reason stays true once it is. */
  predicate JustifiedToR(s: State, m: Message) {
    match m
    case Begin(t) => s.i.tx == Some(t)
    case Decision(t, true) => s.i.confirmed && s.i.pc >= 3
    case Prepared(t) => s.i.high >= 1
    case Commit(t) => s.r.high >= 1
    case Committed(t) => s.i.high >= 2
    case Hello(_) => s.i.high >= 3
    case _ => true
  }

  predicate JustifiedToI(s: State, m: Message) {
    match m
    case Decision(t, true) => s.r.confirmed && s.r.pc >= 5 && s.r.tx == Some(t)
    case Prepared(t) => s.r.high >= 1
    case Committed(t) => s.r.high >= 2
    case _ => true
  }

  /** What the initiator has learnt at its program counter. */
  predicate InitiatorKnows(s: State) {
    && s.i.tx.Some?
    && (s.i.pc >= 4 && s.i.agreed ==> s.r.confirmed && s.r.pc >= 5 && s.r.tx == s.i.tx)
    && (s.i.pc >= 5 && s.i.status.Running? ==> s.i.confirmed && s.i.agreed)
    && (s.i.high >= 1 ==> s.i.pc >= 5 && s.i.confirmed && s.i.agreed)
    && (s.i.status.Running? ==> (s.i.pc >= 7 <==> s.i.high >= 1))
    && (s.i.pc >= 9 ==> s.r.high >= 1)
    && (s.i.status.Running? ==> (s.i.pc >= 13 <==> s.i.high >= 2))
    && (s.i.pc >= 12 ==> s.r.high >= 2)
    && (s.i.high >= 2 ==> s.i.pc >= 12)
    && (s.i.status.Running? ==> (s.i.pc >= 17 <==> s.i.high >= 3))
    && (s.i.high >= 3 ==> s.i.pc >= 16)
    && s.i.high <= 3
  }

  predicate ResponderKnows(s: State) {
    && (s.r.pc >= 2 ==> s.r.tx == s.i.tx)
    && (s.r.pc >= 6 && s.r.status.Running? ==> s.r.confirmed)
    && (s.r.pc >= 8 ==> s.r.confirmed && s.i.confirmed && s.i.pc >= 3)
    && (s.r.pc >= 9 ==> s.i.high >= 1)
    && (s.r.high >= 1 ==> s.r.pc >= 10)
    && (s.r.status.Running? ==> (s.r.pc >= 11 <==> s.r.high >= 1))
    && (s.r.high >= 2 ==> s.r.pc >= 14)
    && (s.r.status.Running? ==> (s.r.pc >= 15 <==> s.r.high >= 2))
    && (s.r.pc >= 17 ==> s.i.high >= 2)
    && (s.r.pc >= 20 ==> s.i.high >= 3)
    && (s.r.high >= 3 ==> s.r.pc >= 20)
    && s.r.high <= 3
  }

  predicate StoresAgree(s: State) {
    && s.i.tx.Some?
    && StageIn(s.i.store, s.i.tx.value) <= s.i.high
    && StageIn(s.r.store, s.i.tx.value) <= s.r.high
  }

  predicate Invariant(s: State) {
    && InitiatorKnows(s)
    && ResponderKnows(s)
    && StoresAgree(s)
    && (forall m :: m in s.toR.messages ==> JustifiedToR(s, m))
    && (forall m :: m in s.toI.messages ==> JustifiedToI(s, m))
  }

  /** Facts only grow from step to step. */
  predicate Grows(s: State, s': State) {
    && s'.kind == s.kind
    && s'.i.tx == s.i.tx && (s.r.tx.Some? && s.r.pc >= 2 ==> s'.r.tx == s.r.tx)
    && s'.i.pc >= s.i.pc && s'.r.pc >= s.r.pc
    && s'.i.high >= s.i.high && s'.r.high >= s.r.high
    && (s.i.pc >= 3 ==> s'.i.confirmed == s.i.confirmed)
    && (s.r.pc >= 5 ==> s'.r.confirmed == s.r.confirmed)
  }

  predicate HeadIs(inbox: seq<Message>, m: Message) {
    |inbox| > 0 && inbox[0] == m
  }

  /** How one statement moves the program: on to the next one, or to an end. */
  predicate MovesProgram(p: Party, q: Party, a: Action, initiates: bool) {
    && (q.status.Running? || q.status.Done? ==> q.pc == p.pc + 1)
    && (q.pc == p.pc + 1 || (q.pc == p.pc && q.status.Failed?))
    && (a.AnswerDecision? && q.status.Running? ==> p.confirmed && (initiates ==> p.agreed))
    && !a.Return?
  }

  /** What the party knows after one statement. */
  predicate Learns(p: Party, q: Party, a: Action, inbox: seq<Message>) {
    var moved := q.pc == p.pc + 1;
    && (!a.Confirm? ==> q.confirmed == p.confirmed)
    && (if a.ReadDecision? then moved && q.agreed ==> HeadIs(inbox, Decision(Tx(p), true)) else q.agreed == p.agreed)
    && (if a.ReadBegin? && moved then |inbox| > 0 && inbox[0].Begin? && q.tx == Some(inbox[0].tx) else q.tx == p.tx)
    && (a.Read? && moved ==> HeadIs(inbox, MessageOf(a.expected, Tx(p))))
    && (a.ReadHello? && moved ==> |inbox| > 0 && inbox[0].Hello?)
  }

  /** What the party has published after one statement. */
  predicate Publishes(p: Party, q: Party, a: Action) {
    if a.PublishPeer? then
      || (q.high == p.high && q.store == p.store && q.pc == p.pc)
      || (q.high == a.stage && q.store == StagePeer(a.stage, p.remote, Tx(p)))
    else q.high == p.high && q.store == p.store
  }

  /** Messages a statement may add to the outbox. */
  predicate Says(p: Party, a: Action, m: Message) {
    || (a.Write? && m == MessageOf(a.message, Tx(p)))
    || (a.AnswerDecision? && m == Decision(Tx(p), p.confirmed))
    || (a.WriteHello? && m.Hello?)
    || m.Close? || m.HelloAck? || m.HelloReject?
  }

  predicate ChannelEffect(t: Turn, u: Turn, a: Action) {
    && (u.inbox.messages == t.inbox.messages || (|t.inbox.messages| > 0 && u.inbox.messages == t.inbox.messages[1..]))
    && (|| u.outbox.messages == t.outbox.messages
        || (u.outbox.messages != [] && u.outbox.messages == t.outbox.messages + [u.outbox.messages[|u.outbox.messages| - 1]]
            && Says(t.party, a, u.outbox.messages[|u.outbox.messages| - 1])))
  }

  lemma EffectOnChannels(t: Turn, a: Action, kind: Kind, initiates: bool, c: Choice)
    requires t.party.status.Running? && Perform(t, a, kind, initiates, c).Some?
    ensures ChannelEffect(t, Perform(t, a, kind, initiates, c).value, a)
  {
  }

  lemma EffectOnProgram(t: Turn, a: Action, kind: Kind, initiates: bool, c: Choice)
    requires t.party.status.Running? && Perform(t, a, kind, initiates, c).Some?
    ensures MovesProgram(t.party, Perform(t, a, kind, initiates, c).value.party, a, initiates)
  {
    hide Send, Take, ValidPeerTransition, StagePeer, MessageOf;
  }

  lemma EffectOnKnowledge(t: Turn, a: Action, kind: Kind, initiates: bool, c: Choice)
    requires t.party.status.Running? && Perform(t, a, kind, initiates, c).Some?
    ensures Learns(t.party, Perform(t, a, kind, initiates, c).value.party, a, t.inbox.messages)
  {
    hide Send, Take, ValidPeerTransition, StagePeer, MessageOf;
  }

  lemma EffectOnStore(t: Turn, a: Action, kind: Kind, initiates: bool, c: Choice)
    requires t.party.status.Running? && Perform(t, a, kind, initiates, c).Some?
    ensures Publishes(t.party, Perform(t, a, kind, initiates, c).value.party, a)
  {
    hide Send, Take, ValidPeerTransition, StagePeer, MessageOf;
  }

  predicate Effect(t: Turn, u: Turn, a: Action, initiates: bool) {
    && MovesProgram(t.party, u.party, a, initiates)
    && Learns(t.party, u.party, a, t.inbox.messages)
    && Publishes(t.party, u.party, a)
    && ChannelEffect(t, u, a)
  }

  lemma EffectOf(t: Turn, a: Action, kind: Kind, initiates: bool, c: Choice)
    requires t.party.status.Running? && Perform(t, a, kind, initiates, c).Some?
    ensures Effect(t, Perform(t, a, kind, initiates, c).value, a, initiates)
  {
    hide Perform, ChannelEffect, MovesProgram, Learns, Publishes;
    EffectOnChannels(t, a, kind, initiates, c);
    EffectOnProgram(t, a, kind, initiates, c);
    EffectOnKnowledge(t, a, kind, initiates, c);
    EffectOnStore(t, a, kind, initiates, c);
  }

  function InitiatorTurn(s: State): Turn {
    Turn(s.i, s.toI, s.toR)
  }

  function ResponderTurn(s: State): Turn {
    Turn(s.r, s.toR, s.toI)
  }

  predicate InitiatorMoved(s: State, s': State) {
    && s'.kind == s.kind && s'.r == s.r && s.i.status.Running?
    && Effect(InitiatorTurn(s), InitiatorTurn(s'), InitiatorAction(s.i.pc), true)
  }

  predicate ResponderMoved(s: State, s': State) {
    && s'.kind == s.kind && s'.i == s.i && s.r.status.Running?
    && Effect(ResponderTurn(s), ResponderTurn(s'), ResponderAction(s.r.pc), false)
  }

  /** Events outside the two programs change stores, end programs or drop messages. */
  predicate Disturbed(s: State, s': State) {
    && s'.kind == s.kind
    && s'.i == s.i.(status := s'.i.status, store := s'.i.store) && (s'.i.status == s.i.status || s'.i.status.Failed?)
    && s'.r == s.r.(status := s'.r.status, store := s'.r.store) && (s'.r.status == s.r.status || s'.r.status.Failed?)
    && StageIn(s'.i.store, Tx(s.i)) <= StageIn(s.i.store, Tx(s.i))
    && StageIn(s'.r.store, Tx(s.i)) <= StageIn(s.r.store, Tx(s.i))
    && s'.toI.messages <= s.toI.messages && s'.toR.messages <= s.toR.messages
  }

  lemma InitiatorSteps(s: State, c: Choice)
    requires Next(s, Step(Initiator, c)).Some?
    ensures InitiatorMoved(s, Next(s, Step(Initiator, c)).value)
  {
    hide Perform, Effect;
    EffectOf(InitiatorTurn(s), InitiatorAction(s.i.pc), s.kind, true, c);
  }

  lemma ResponderSteps(s: State, c: Choice)
    requires Next(s, Step(Responder, c)).Some?
    ensures ResponderMoved(s, Next(s, Step(Responder, c)).value)
  {
    hide Perform, Effect;
    EffectOf(ResponderTurn(s), ResponderAction(s.r.pc), Host, false, c);
  }

  lemma OthersDisturb(s: State, e: Event)
    requires Next(s, e).Some? && s.i.tx.Some? && !e.Step?
    ensures Disturbed(s, Next(s, e).value)
  {
    hide Perform, InitiatorAction, ResponderAction;
  }

  lemma EveryEvent(s: State, e: Event)
    requires Next(s, e).Some? && s.i.tx.Some?
    ensures var s' := Next(s, e).value;
      InitiatorMoved(s, s') || ResponderMoved(s, s') || Disturbed(s, s')
  {
    hide Next, InitiatorMoved, ResponderMoved, Disturbed;
    if e.Step? {
      if e.side.Initiator? {
        InitiatorSteps(s, e.choice);
      } else {
        ResponderSteps(s, e.choice);
      }
    } else {
      OthersDisturb(s, e);
    }
  }

  lemma FactsGrow(s: State, s': State)
    requires Invariant(s)
    requires InitiatorMoved(s, s') || ResponderMoved(s, s') || Disturbed(s, s')
    ensures Grows(s, s')
  {
    hide ChannelEffect, JustifiedToI, JustifiedToR;
  }

  lemma JustificationsLast(s: State, s': State, m: Message)
    requires Grows(s, s')
    ensures JustifiedToR(s, m) ==> JustifiedToR(s', m)
    ensures JustifiedToI(s, m) ==> JustifiedToI(s', m)
  {
  }

  lemma InitiatorLearns(s: State, s': State)
    requires Invariant(s) && InitiatorMoved(s, s')
    ensures InitiatorKnows(s')
  {
    hide ChannelEffect, ResponderKnows, JustifiedToR;
    if |s.toI.messages| > 0 {
      assert s.toI.messages[0] in s.toI.messages;
    }
  }

  lemma ResponderLearns(s: State, s': State)
    requires Invariant(s) && ResponderMoved(s, s')
    ensures ResponderKnows(s')
  {
    hide ChannelEffect, InitiatorKnows, JustifiedToI;
    if |s.toR.messages| > 0 {
      assert s.toR.messages[0] in s.toR.messages;
    }
  }

  /** What one side knows is about facts of the other side that only grow. */
  lemma OtherSideKeepsKnowing(s: State, s': State)
    requires Grows(s, s') && InitiatorKnows(s) && ResponderKnows(s)
    ensures s'.i == s.i.(status := s'.i.status, store := s'.i.store) && (s'.i.status == s.i.status || s'.i.status.Failed?)
      ==> InitiatorKnows(s')
    ensures s'.r == s.r.(status := s'.r.status, store := s'.r.store) && (s'.r.status == s.r.status || s'.r.status.Failed?)
      ==> ResponderKnows(s')
  {
  }

  lemma StoresKept(s: State, s': State)
    requires Invariant(s)
    requires InitiatorMoved(s, s') || ResponderMoved(s, s') || Disturbed(s, s')
    ensures StoresAgree(s')
  {
    hide ChannelEffect, JustifiedToI, JustifiedToR, Learns;
    FactsGrow(s, s');
  }

  lemma InitiatorSpeaksTruly(s: State, s': State, m: Message)
    requires Invariant(s) && InitiatorMoved(s, s') && Says(s.i, InitiatorAction(s.i.pc), m)
    ensures JustifiedToR(s', m)
  {
    hide ChannelEffect, JustifiedToI;
  }

  lemma ResponderSpeaksTruly(s: State, s': State, m: Message)
    requires Invariant(s) && ResponderMoved(s, s') && Says(s.r, ResponderAction(s.r.pc), m)
    ensures JustifiedToI(s', m)
  {
    hide ChannelEffect, JustifiedToR;
  }

  lemma MessagesStayJustified(s: State, s': State)
    requires Invariant(s)
    requires InitiatorMoved(s, s') || ResponderMoved(s, s') || Disturbed(s, s')
    ensures forall m :: m in s'.toR.messages ==> JustifiedToR(s', m)
    ensures forall m :: m in s'.toI.messages ==> JustifiedToI(s', m)
  {
    FactsGrow(s, s');
    hide JustifiedToI, JustifiedToR, InitiatorKnows, ResponderKnows, Learns, MovesProgram, Publishes, Says;
    forall m | m in s'.toR.messages
      ensures JustifiedToR(s', m)
    {
      JustificationsLast(s, s', m);
      if InitiatorMoved(s, s') && m !in s.toR.messages {
        InitiatorSpeaksTruly(s, s', m);
      }
    }
    forall m | m in s'.toI.messages
      ensures JustifiedToI(s', m)
    {
      JustificationsLast(s, s', m);
      if ResponderMoved(s, s') && m !in s.toI.messages {
        ResponderSpeaksTruly(s, s', m);
      }
    }
  }

  lemma EventKeepsInvariant(s: State, e: Event)
    requires Invariant(s) && Next(s, e).Some?
    ensures Invariant(Next(s, e).value)
  {
    hide Next, Effect, JustifiedToI, JustifiedToR, StoresAgree;
    var s' := Next(s, e).value;
    EveryEvent(s, e);
    FactsGrow(s, s');
    StoresKept(s, s');
    MessagesStayJustified(s, s');
    OtherSideKeepsKnowing(s, s');
    if InitiatorMoved(s, s') {
      InitiatorLearns(s, s');
    }
    if ResponderMoved(s, s') {
      ResponderLearns(s, s');
    }
  }

  predicate IsRun(s: State, events: seq<Event>)
    decreases |events|
  {
    |events| == 0 || (Next(s, events[0]).Some? && IsRun(Next(s, events[0]).value, events[1..]))
  }

  function EndOf(s: State, events: seq<Event>): State
    requires IsRun(s, events)
    decreases |events|
  {
    if |events| == 0 then s else EndOf(Next(s, events[0]).value, events[1..])
  }

  lemma {:induction false} RunKeepsInvariant(s: State, events: seq<Event>)
    requires Invariant(s) && IsRun(s, events)
    ensures Invariant(EndOf(s, events)) && EndOf(s, events).i.tx == s.i.tx
    decreases |events|
  {
    hide Next, Invariant;
    if |events| > 0 {
      EventKeepsInvariant(s, events[0]);
      TransactionFixed(s, events[0]);
      RunKeepsInvariant(Next(s, events[0]).value, events[1..]);
    }
  }

  lemma TransactionFixed(s: State, e: Event)
    requires Invariant(s) && Next(s, e).Some?
    ensures Next(s, e).value.i.tx == s.i.tx
  {
    hide Next, Effect;
    EveryEvent(s, e);
    FactsGrow(s, Next(s, e).value);
  }

  /** The two sides of one pairing are never more than one stage apart, in an order that makes the responder's
      Paired state proof of the initiator's, and nothing is published without both confirmations. The stores
      never show more than was published. */
  predicate Safe(s: State) {
    && s.i.high <= s.r.high + 1 && s.r.high <= s.i.high + 1
    && (s.r.high == 3 ==> s.i.high == 3)
    && (s.i.high >= 2 ==> s.r.high >= 2)
    && (s.r.high >= 1 ==> s.i.high >= 1)
    && (s.i.high >= 1 || s.r.high >= 1 ==> BothConfirmed(s))
    && s.i.tx.Some?
    && StageIn(s.i.store, s.i.tx.value) <= s.i.high
    && StageIn(s.r.store, s.i.tx.value) <= s.r.high
  }

  /** Pairing safety, for both kinds of initiator, in every run with crashes, cut channels, rejections, expiries,
      store failures, revocations and competing pairings anywhere. */
  lemma PairingSafety(s: State, events: seq<Event>)
    requires Start(s) && IsRun(s, events)
    ensures Safe(EndOf(s, events))
  {
    RunKeepsInvariant(s, events);
  }

  // What stops a program, and what it says when it stops.

  /** The statement cannot succeed on this input. The read actions speak of the first message. */
  predicate Obstructed(t: Turn, a: Action, kind: Kind, initiates: bool, c: Choice)
    requires !Waits(a, t)
  {
    match a
    case CheckUnpaired => !t.party.store.Unpaired?
    case ReadDecision => kind.Host? && t.inbox.messages[0] !in {Decision(Tx(t.party), true), Decision(Tx(t.party), false)}
    case AnswerDecision => !t.party.confirmed || (initiates && !t.party.agreed)
    case CheckDeadline => kind.Host? && c.expired
    case PublishPeer(stage) =>
      || !c.publish.Published?
      || (kind.Host? && !ValidPeerTransition(t.party.store, StagePeer(stage, t.party.remote, Tx(t.party))))
    case Read(m) => t.inbox.messages[0] != MessageOf(m, Tx(t.party))
    case ReadBegin => !t.inbox.messages[0].Begin?
    case Reserve => c.busy
    case ReadHello => !t.inbox.messages[0].Hello?
    case AnswerHello => !t.party.compatible
    case ReadAnswer => t.inbox.messages[0] != HelloAck
    case _ => false
  }

  /** The last word of a program that stops: the host tells why the pairing closes, and either side tells its own
      rejection. */
  function LastWord(t: Turn, a: Action, kind: Kind): Option<Message> {
    match a
    case CheckDeadline => Some(Close(Tx(t.party), Expired))
    case Reserve => Some(Close(Tx(t.party), PairingBusy))
    case PublishPeer(_) => if kind.Host? then Some(Close(Tx(t.party), StoreFailed)) else None
    case AnswerDecision => Some(Decision(Tx(t.party), t.party.confirmed))
    case AnswerHello => Some(HelloReject)
    case _ => None
  }

  /** `m` has been written to an open channel, or lost on a cut one. */
  predicate Heard(before: Channel, after: Channel, m: Option<Message>) {
    after == if m.Some? && before.open then before.(messages := before.messages + [m.value]) else before
  }

  /** What a statement that ends well writes. */
  function GoodWord(t: Turn, a: Action, c: Choice): Option<Message> {
    match a
    case Write(m) => Some(MessageOf(m, Tx(t.party)))
    case AnswerDecision => Some(Decision(Tx(t.party), true))
    case WriteHello => Some(Hello(c.compatible))
    case AnswerHello => Some(HelloAck)
    case _ => None
  }

  lemma PublishingStops(t: Turn, kind: Kind, tx: Transaction, stage: nat, o: Outcome)
    requires t.party.status.Running?
    ensures var valid := kind.Device? || ValidPeerTransition(t.party.store, StagePeer(stage, t.party.remote, tx));
      var q := PublishStage(t, kind, tx, stage, o).party;
      if valid && o.Published? then q.status.Running? && q.pc == t.party.pc + 1 else q.status.Failed?
  {
    hide ValidPeerTransition, StagePeer, Send;
  }

  lemma StopsWhenObstructed(t: Turn, a: Action, kind: Kind, initiates: bool, c: Choice)
    requires t.party.status.Running? && Perform(t, a, kind, initiates, c).Some?
    ensures !Waits(a, t)
    ensures var q := Perform(t, a, kind, initiates, c).value.party;
      && (q.status.Failed? <==> Obstructed(t, a, kind, initiates, c))
      && (q.status.Done? <==> !Obstructed(t, a, kind, initiates, c) && (a.AnswerHello? || a.ReadAnswer?))
      && (!q.status.Failed? ==> q.pc == t.party.pc + 1)
  {
    hide ValidPeerTransition, StagePeer, MessageOf, Send, Take, Renamed, PublishStage;
    if a.PublishPeer? {
      PublishingStops(t, kind, Tx(t.party), a.stage, c.publish);
    }
  }

  lemma StoppingIsTold(t: Turn, a: Action, kind: Kind, initiates: bool, c: Choice)
    requires t.party.status.Running? && Perform(t, a, kind, initiates, c).Some?
    requires Perform(t, a, kind, initiates, c).value.party.status.Failed?
    ensures Heard(t.outbox, Perform(t, a, kind, initiates, c).value.outbox, LastWord(t, a, kind))
  {
    hide ValidPeerTransition, StagePeer, MessageOf, Renamed;
  }

  lemma GoingOnIsTold(t: Turn, a: Action, kind: Kind, initiates: bool, c: Choice)
    requires t.party.status.Running? && Perform(t, a, kind, initiates, c).Some?
    requires !Perform(t, a, kind, initiates, c).value.party.status.Failed?
    ensures Heard(t.outbox, Perform(t, a, kind, initiates, c).value.outbox, GoodWord(t, a, c))
  {
    hide ValidPeerTransition, StagePeer, MessageOf, Renamed;
  }

  /** A program stops at a statement exactly when it is obstructed there, and then says its last word. */
  lemma StopsExactly(t: Turn, a: Action, kind: Kind, initiates: bool, c: Choice)
    requires t.party.status.Running? && Perform(t, a, kind, initiates, c).Some?
    ensures !Waits(a, t)
    ensures var u := Perform(t, a, kind, initiates, c).value;
      && (u.party.status.Failed? <==> Obstructed(t, a, kind, initiates, c))
      && (u.party.status.Done? <==> !Obstructed(t, a, kind, initiates, c) && (a.AnswerHello? || a.ReadAnswer?))
      && (u.party.status.Failed? ==> Heard(t.outbox, u.outbox, LastWord(t, a, kind)))
      && (!u.party.status.Failed? ==> u.party.pc == t.party.pc + 1 && Heard(t.outbox, u.outbox, GoodWord(t, a, c)))
  {
    hide Perform, Obstructed, Heard, LastWord, GoodWord;
    StopsWhenObstructed(t, a, kind, initiates, c);
    if Perform(t, a, kind, initiates, c).value.party.status.Failed? {
      StoppingIsTold(t, a, kind, initiates, c);
    } else {
      GoingOnIsTold(t, a, kind, initiates, c);
    }
  }

  /** What a party has after a statement is what its `confirm` returned, what the other side decided, and what the
      store call left, also when that call failed after its rename. */
  lemma TakesExactly(t: Turn, a: Action, kind: Kind, initiates: bool, c: Choice)
    requires t.party.status.Running? && Perform(t, a, kind, initiates, c).Some?
    ensures var p, q := t.party, Perform(t, a, kind, initiates, c).value.party;
      && (a.Confirm? ==> q.confirmed == c.confirm)
      && (a.ReadDecision? && !q.status.Failed? ==> (q.agreed <==> t.inbox.messages[0] == Decision(Tx(p), true)))
      && (if a.ReadHello? && !q.status.Failed? then t.inbox.messages[0] == Hello(q.compatible) else q.compatible == p.compatible)
      && (a.PublishPeer? ==>
            var next := StagePeer(a.stage, p.remote, Tx(p));
            var stored := Renamed(c.publish) && (kind.Device? || ValidPeerTransition(p.store, next));
            q.store == (if stored then next else p.store) && q.high == (if stored then a.stage else p.high))
  {
    hide ValidPeerTransition, StagePeer;
  }

  function StepOf(s: State, side: Side): Turn {
    if side.Initiator? then InitiatorTurn(s) else ResponderTurn(s)
  }

  function ActionOf(s: State, side: Side): Action {
    if side.Initiator? then InitiatorAction(s.i.pc) else ResponderAction(s.r.pc)
  }

  function KindOf(s: State, side: Side): Kind {
    if side.Initiator? then s.kind else Host
  }

  function OutboxOf(s: State, side: Side): Channel {
    if side.Initiator? then s.toR else s.toI
  }

  /** What a party has done; it no longer changes once its program has ended. */
  predicate SameDeeds(p: Party, q: Party) {
    q.pc == p.pc && q.high == p.high && q.confirmed == p.confirmed && q.agreed == p.agreed && q.status == p.status
  }

  lemma EndedStaysEnded(s: State, side: Side, e: Event)
    requires !PartyOf(s, side).status.Running? && Next(s, e).Some?
    ensures SameDeeds(PartyOf(s, side), PartyOf(Next(s, e).value, side))
  {
    hide Perform, InitiatorAction, ResponderAction;
  }

  lemma {:induction false} EndedForGood(s: State, side: Side, events: seq<Event>)
    requires !PartyOf(s, side).status.Running? && IsRun(s, events)
    ensures SameDeeds(PartyOf(s, side), PartyOf(EndOf(s, events), side))
    decreases |events|
  {
    hide Next;
    if |events| > 0 {
      EndedStaysEnded(s, side, events[0]);
      EndedForGood(Next(s, events[0]).value, side, events[1..]);
    }
  }

  /** From every state: a party that meets an obstruction has failed, has said its last word, and in no further run
      goes on, publishes or confirms anything. */
  lemma ObstructedForGood(s: State, side: Side, c: Choice, events: seq<Event>)
    requires PartyOf(s, side).status.Running? && Next(s, Step(side, c)).Some?
    requires !Waits(ActionOf(s, side), StepOf(s, side))
    requires Obstructed(StepOf(s, side), ActionOf(s, side), KindOf(s, side), side.Initiator?, c)
    requires IsRun(Next(s, Step(side, c)).value, events)
    ensures var after := Next(s, Step(side, c)).value;
      && PartyOf(after, side).status.Failed?
      && Heard(OutboxOf(s, side), OutboxOf(after, side), LastWord(StepOf(s, side), ActionOf(s, side), KindOf(s, side)))
      && SameDeeds(PartyOf(after, side), PartyOf(EndOf(after, events), side))
  {
    hide Perform, Obstructed, LastWord, Heard, InitiatorAction, ResponderAction, SameDeeds;
    StopsExactly(StepOf(s, side), ActionOf(s, side), KindOf(s, side), side.Initiator?, c);
    EndedForGood(Next(s, Step(side, c)).value, side, events);
  }

  /** A host that stands at any of its deadline checks when the deadline has passed closes the pairing as expired. */
  lemma ExpiryStops(s: State, side: Side, c: Choice, events: seq<Event>)
    requires PartyOf(s, side).status.Running? && KindOf(s, side).Host? && c.expired
    requires ActionOf(s, side).CheckDeadline?
    ensures Next(s, Step(side, c)).Some?
    ensures IsRun(Next(s, Step(side, c)).value, events) ==>
      var after := Next(s, Step(side, c)).value;
      && PartyOf(after, side).status.Failed? && PartyOf(after, side).high == PartyOf(s, side).high
      && Heard(OutboxOf(s, side), OutboxOf(after, side), Some(Close(Tx(PartyOf(s, side)), Expired)))
      && SameDeeds(PartyOf(after, side), PartyOf(EndOf(after, events), side))
  {
    hide InitiatorAction, ResponderAction, SameDeeds, Heard;
    if IsRun(Next(s, Step(side, c)).value, events) {
      ObstructedForGood(s, side, c, events);
    }
  }

  /** Where the deadline checks are: before each stage is published, and before the last word of the responder. */
  lemma DeadlinesAreChecked(pc: nat)
    ensures InitiatorAction(pc).CheckDeadline? <==> pc in {5, 9, 15}
    ensures ResponderAction(pc).CheckDeadline? <==> pc in {2, 6, 9, 13, 17}
    ensures ResponderAction(pc).Reserve? <==> pc == 3
  {
  }

  /** The deadline of this side has passed whenever it looks. */
  predicate Late(e: Event, side: Side) {
    e.Step? && e.side == side ==> e.choice.expired
  }

  lemma LateInitiatorStep(s: State, e: Event)
    requires Next(s, e).Some? && s.kind.Host? && Late(e, Initiator)
    requires s.i.pc <= 5 && s.i.high == 0
    ensures var t := Next(s, e).value; t.kind.Host? && t.i.pc <= 5 && t.i.high == 0
  {
    hide ValidPeerTransition, MessageOf;
  }

  lemma LateResponderStep(s: State, e: Event)
    requires Next(s, e).Some? && Late(e, Responder) && s.r.pc <= 2 && s.r.high == 0
    ensures var t := Next(s, e).value; t.r.pc <= 2 && t.r.high == 0 && t.r.confirmed == s.r.confirmed
  {
    hide ValidPeerTransition, MessageOf;
  }

  /** A host initiator whose deadline passes while it waits for the two decisions never publishes anything. */
  lemma {:induction false} LateInitiatorPublishesNothing(s: State, events: seq<Event>)
    requires s.kind.Host? && s.i.pc <= 5 && s.i.high == 0 && IsRun(s, events)
    requires forall e :: e in events ==> Late(e, Initiator)
    ensures EndOf(s, events).i.high == 0 && EndOf(s, events).i.pc <= 5
    decreases |events|
  {
    hide Next;
    if |events| > 0 {
      LateInitiatorStep(s, events[0]);
      LateInitiatorPublishesNothing(Next(s, events[0]).value, events[1..]);
    }
  }

  /** A responder whose deadline has passed before it reserves never asks its owner and never publishes. */
  lemma {:induction false} LateResponderAsksNobody(s: State, events: seq<Event>)
    requires s.r.pc <= 2 && s.r.high == 0 && IsRun(s, events)
    requires forall e :: e in events ==> Late(e, Responder)
    ensures var t := EndOf(s, events); t.r.high == 0 && t.r.pc <= 2 && t.r.confirmed == s.r.confirmed
    decreases |events|
  {
    hide Next;
    if |events| > 0 {
      LateResponderStep(s, events[0]);
      LateResponderAsksNobody(Next(s, events[0]).value, events[1..]);
    }
  }

  // Success.

  /** An acknowledgement is in flight, or has been read, only after the responder has returned; and a program that
      has returned has published everything. */
  predicate Acknowledged(s: State) {
    && (s.r.status.Running? && s.r.pc >= 21 ==> s.r.high == 3)
    && (s.r.status.Done? ==> s.r.high == 3 && s.r.compatible)
    && (s.i.status.Done? ==> s.i.high == 3 && s.r.status.Done?)
    && (HelloAck in s.toI.messages ==> s.r.status.Done?)
  }

  lemma AckKept(s: State, s': State)
    requires Invariant(s) && Acknowledged(s)
    requires s'.r.status == s.r.status || !s.r.status.Done?
    requires s'.r.status.Running? && s'.r.pc >= 21 ==> s'.r.high == 3
    requires s.r.status.Done? ==> SameDeeds(s.r, s'.r) && s'.r.compatible == s.r.compatible
    requires s.i.status.Done? ==> SameDeeds(s.i, s'.i)
    requires s'.i.status.Done? && !s.i.status.Done? ==> s'.i.high == 3 && HelloAck in s.toI.messages
    requires s'.r.status.Done? && !s.r.status.Done? ==> s'.r.high == 3 && s'.r.compatible
    requires HelloAck in s'.toI.messages ==> HelloAck in s.toI.messages || s'.r.status.Done?
    ensures Acknowledged(s')
  {
  }

  lemma InitiatorKeepsAcks(s: State, c: Choice)
    requires Invariant(s) && Acknowledged(s) && Next(s, Step(Initiator, c)).Some?
    ensures Acknowledged(Next(s, Step(Initiator, c)).value)
  {
    hide Perform, Obstructed, LastWord, GoodWord, Heard;
    var s' := Next(s, Step(Initiator, c)).value;
    var t, a := InitiatorTurn(s), InitiatorAction(s.i.pc);
    StopsExactly(t, a, s.kind, true, c);
    EffectOf(t, a, s.kind, true, c);
    if s'.i.status.Done? {
      AnswerIsAck(t, a, s.kind, c);
    }
    AckKept(s, s');
  }

  lemma AnswerIsAck(t: Turn, a: Action, kind: Kind, c: Choice)
    requires t.party.status.Running? && Perform(t, a, kind, true, c).Some? && !Waits(a, t)
    requires a.ReadAnswer? && !Obstructed(t, a, kind, true, c)
    ensures HelloAck in t.inbox.messages
  {
    assert t.inbox.messages[0] in t.inbox.messages;
  }

  lemma ResponderKeepsAcks(s: State, c: Choice)
    requires Invariant(s) && Acknowledged(s) && Next(s, Step(Responder, c)).Some?
    ensures Acknowledged(Next(s, Step(Responder, c)).value)
  {
    hide Perform, Learns, StagePeer, JustifiedToI, JustifiedToR, InitiatorKnows;
    var s' := Next(s, Step(Responder, c)).value;
    var t, a := ResponderTurn(s), ResponderAction(s.r.pc);
    StopsExactly(t, a, Host, false, c);
    EffectOf(t, a, Host, false, c);
    TakesExactly(t, a, Host, false, c);
    AckKept(s, s');
  }

  lemma OthersKeepAcks(s: State, e: Event)
    requires Invariant(s) && Acknowledged(s) && Next(s, e).Some? && !e.Step?
    ensures Acknowledged(Next(s, e).value)
  {
    hide Perform, InitiatorAction, ResponderAction;
    AckKept(s, Next(s, e).value);
  }

  lemma {:induction false} RunKeepsAcks(s: State, events: seq<Event>)
    requires Invariant(s) && Acknowledged(s) && IsRun(s, events)
    ensures Acknowledged(EndOf(s, events))
    decreases |events|
  {
    hide Invariant, Acknowledged, Next;
    if |events| > 0 {
      var e := events[0];
      EventKeepsInvariant(s, e);
      if !e.Step? {
        OthersKeepAcks(s, e);
      } else if e.side.Initiator? {
        InitiatorKeepsAcks(s, e.choice);
      } else {
        ResponderKeepsAcks(s, e.choice);
      }
      RunKeepsAcks(Next(s, e).value, events[1..]);
    }
  }

  /** In every run, an initiator that reports success has published Paired, and so has the responder, which has
      reported success too and found the initiator's protocol compatible. */
  lemma SuccessIsMutual(s: State, events: seq<Event>)
    requires Start(s) && IsRun(s, events)
    ensures var t := EndOf(s, events);
      && (t.i.status.Done? ==> t.i.high == 3 && t.r.high == 3 && t.r.status.Done? && t.r.compatible)
      && (t.r.status.Done? ==> t.r.high == 3 && t.i.high == 3)
  {
    RunKeepsAcks(s, events);
    PairingSafety(s, events);
  }

  /** The environment is not restrained: any running program may stop at any point, any channel be cut after any of
      its messages, any peer be revoked, and somebody else be paired with first. */
  lemma AnythingCanFail(s: State, side: Side, keep: nat, other: PeerState)
    ensures PartyOf(s, side).status.Running? ==>
      Next(s, Stop(side)).Some? && PartyOf(Next(s, Stop(side)).value, side).status.Failed?
    ensures Next(s, Cut(side, keep)).Some?
    ensures var inbox := if side.Initiator? then Next(s, Cut(side, keep)).value.toI else Next(s, Cut(side, keep)).value.toR;
      var was := if side.Initiator? then s.toI else s.toR;
      !inbox.open && |inbox.messages| == (if keep < |was.messages| then keep else |was.messages|) && inbox.messages <= was.messages
    ensures !PartyOf(s, side).store.Unpaired? ==>
      var store := PartyOf(s, side).store;
      && PartyOf(Next(s, Event.Revoke(side, store.remote, UNDISTURBED)).value, side).store == Unpaired
      && (!store.Revoking? ==>
            PartyOf(Next(s, Event.Revoke(side, store.remote, UNDISTURBED.(joined := false))).value, side).store.Revoking?)
    ensures PartyOf(s, side).store.Unpaired? && other.Pending? && s.i.tx != Some(other.tx) ==>
      Next(s, OtherPairing(side, other, Published)).Some?
      && PartyOf(Next(s, OtherPairing(side, other, Published)).value, side).store == other
  {
  }
}
