/** Pairing without failures: both people confirm, nothing expires, every publication works. Every schedule of
    the two programs then ends with both sides Paired on the same transaction. */
module PairingProgress {
  import opened Common
  import opened HostIdentity
  import opened Pairing

  const SMOOTHLY := Choice(true, false, false, Published, true)

  /** A schedule says only whose turn it is. */
  function Go(s: State, side: Side): Option<State> {
    Next(s, Step(side, SMOOTHLY))
  }

  function InitiatorMail(tx: Transaction): (m: seq<Message>)
    ensures |m| == 6
  {
    [Begin(tx), Decision(tx, true), Prepared(tx), Commit(tx), Committed(tx), Hello(true)]
  }

  function ResponderMail(tx: Transaction): (m: seq<Message>)
    ensures |m| == 5
  {
    [Decision(tx, true), Prepared(tx), Committed(tx), Complete(tx), HelloAck]
  }

  // Messages sent and received before each program counter.

  function InitiatorSent(pc: nat): nat {
    if pc <= 1 then 0 else if pc <= 4 then 1 else if pc <= 7 then 2
    else if pc <= 10 then 3 else if pc <= 13 then 4 else if pc <= 17 then 5 else 6
  }

  function InitiatorReceived(pc: nat): nat {
    if pc <= 3 then 0 else if pc <= 8 then 1 else if pc <= 11 then 2
    else if pc <= 14 then 3 else if pc <= 18 then 4 else 5
  }

  function ResponderSent(pc: nat): nat {
    if pc <= 5 then 0 else if pc <= 11 then 1 else if pc <= 15 then 2 else if pc <= 18 then 3
    else if pc <= 21 then 4 else 5
  }

  function ResponderReceived(pc: nat): nat {
    if pc <= 1 then 0 else if pc <= 7 then 1 else if pc <= 8 then 2 else if pc <= 12 then 3
    else if pc <= 16 then 4 else if pc <= 19 then 5 else 6
  }

  /** The part of the mail that is under way. */
  predicate UnderWay(c: Channel, mail: seq<Message>, received: nat, sent: nat) {
    received <= sent <= |mail| && c.open && c.messages == mail[received..sent]
  }

  function StoreAt(pc: nat, first: nat, second: nat, third: nat, remote: Key, tx: Transaction): PeerState {
    if pc <= first then Unpaired
    else StagePeer(if pc <= second then 1 else if pc <= third then 2 else 3, remote, tx)
  }

  predicate InitiatorOnTrack(p: Party) {
    && p.tx.Some? && p.pc <= INITIATOR_END
    && p.status == (if p.pc == INITIATOR_END then Done else Running)
    && (p.pc >= 3 ==> p.confirmed) && (p.pc >= 4 ==> p.agreed)
    && p.store == StoreAt(p.pc, 6, 12, 16, p.remote, p.tx.value)
  }

  predicate ResponderOnTrack(p: Party, tx: Transaction) {
    && p.pc <= RESPONDER_END
    && p.status == (if p.pc == RESPONDER_END then Done else Running)
    && (p.pc >= 2 ==> p.tx == Some(tx))
    && (p.pc >= 5 ==> p.confirmed) && (p.pc >= 20 ==> p.compatible)
    && p.store == StoreAt(p.pc, 10, 14, 20, p.remote, tx)
  }

  /** The channels hold exactly the script between what was sent and what was received. */
  predicate OnTrack(s: State) {
    && s.i.tx.Some? && InitiatorOnTrack(s.i) && ResponderOnTrack(s.r, s.i.tx.value)
    && UnderWay(s.toR, InitiatorMail(s.i.tx.value), ResponderReceived(s.r.pc), InitiatorSent(s.i.pc))
    && UnderWay(s.toI, ResponderMail(s.i.tx.value), InitiatorReceived(s.i.pc), ResponderSent(s.r.pc))
  }

  /** The message a statement writes or expects when all goes well. */
  function Written(a: Action, tx: Transaction): Option<Message> {
    match a
    case Write(m) => Some(MessageOf(m, tx))
    case AnswerDecision => Some(Decision(tx, true))
    case WriteHello => Some(Hello(true))
    case AnswerHello => Some(HelloAck)
    case _ => None
  }

  function Expected(a: Action, tx: Transaction): Option<Message> {
    match a
    case Read(m) => Some(MessageOf(m, tx))
    case ReadBegin => Some(Begin(tx))
    case ReadDecision => Some(Decision(tx, true))
    case ReadHello => Some(Hello(true))
    case ReadAnswer => Some(HelloAck)
    case _ => None
  }

  /** What a statement needs to succeed. */
  predicate Smooth(t: Turn, a: Action, initiates: bool, tx: Transaction) {
    && t.party.status.Running? && t.outbox.open && !a.Return?
    && (a.ReadBegin? || a.CheckUnpaired? || t.party.tx == Some(tx))
    && (Expected(a, tx).Some? ==> |t.inbox.messages| > 0 && t.inbox.messages[0] == Expected(a, tx).value)
    && (a.CheckUnpaired? ==> t.party.store.Unpaired?)
    && (a.AnswerDecision? ==> t.party.confirmed && (initiates ==> t.party.agreed))
    && (a.AnswerHello? ==> t.party.compatible)
    && (a.PublishPeer? ==> ValidPeerTransition(t.party.store, StagePeer(a.stage, t.party.remote, tx)))
  }

  /** And what it then does. */
  predicate Succeeds(t: Turn, u: Turn, a: Action, tx: Transaction) {
    var p, q := t.party, u.party;
    && q.pc == p.pc + 1 && q.remote == p.remote
    && q.status == (if a.AnswerHello? || a.ReadAnswer? then Done else Running)
    && q.tx == (if a.ReadBegin? then Some(tx) else p.tx)
    && q.confirmed == (a.Confirm? || p.confirmed)
    && q.agreed == (a.ReadDecision? || p.agreed)
    && q.compatible == (a.ReadHello? || p.compatible)
    && q.store == (if a.PublishPeer? then StagePeer(a.stage, p.remote, tx) else p.store)
    && u.inbox == (if Expected(a, tx).Some? && |t.inbox.messages| > 0 then t.inbox.(messages := t.inbox.messages[1..]) else t.inbox)
    && u.outbox == (if Written(a, tx).Some? then t.outbox.(messages := t.outbox.messages + [Written(a, tx).value]) else t.outbox)
  }

  lemma SmoothSucceeds(t: Turn, a: Action, kind: Kind, initiates: bool, tx: Transaction)
    requires Smooth(t, a, initiates, tx)
    ensures Perform(t, a, kind, initiates, SMOOTHLY).Some?
    ensures Succeeds(t, Perform(t, a, kind, initiates, SMOOTHLY).value, a, tx)
  {
    hide ValidPeerTransition, StagePeer;
  }

  /** The scripts agree with the mail: the k-th message written is the k-th message of the mail, and the reads
      expect the other side's mail in order. */
  lemma InitiatorScript(pc: nat, tx: Transaction)
    requires pc < INITIATOR_END
    ensures var a := InitiatorAction(pc);
      && (Written(a, tx).Some? ==>
            InitiatorSent(pc) < 6 && InitiatorMail(tx)[InitiatorSent(pc)] == Written(a, tx).value)
      && InitiatorSent(pc + 1) == InitiatorSent(pc) + (if Written(a, tx).Some? then 1 else 0)
      && (Expected(a, tx).Some? ==>
            InitiatorReceived(pc) < 5 && ResponderMail(tx)[InitiatorReceived(pc)] == Expected(a, tx).value)
      && InitiatorReceived(pc + 1) == InitiatorReceived(pc) + (if Expected(a, tx).Some? then 1 else 0)
      && (Expected(a, tx).Some? <==> a.Read? || a.ReadDecision? || a.ReadAnswer?)
  {
  }

  lemma ResponderScript(pc: nat, tx: Transaction)
    requires pc < RESPONDER_END
    ensures var a := ResponderAction(pc);
      && (Written(a, tx).Some? ==>
            ResponderSent(pc) < 5 && ResponderMail(tx)[ResponderSent(pc)] == Written(a, tx).value)
      && ResponderSent(pc + 1) == ResponderSent(pc) + (if Written(a, tx).Some? then 1 else 0)
      && (Expected(a, tx).Some? ==>
            ResponderReceived(pc) < 6 && InitiatorMail(tx)[ResponderReceived(pc)] == Expected(a, tx).value)
      && ResponderReceived(pc + 1) == ResponderReceived(pc) + (if Expected(a, tx).Some? then 1 else 0)
      && (Expected(a, tx).Some? <==> a.Read? || a.ReadBegin? || a.ReadHello?)
  {
  }

  lemma MailMoves(mail: seq<Message>, received: nat, sent: nat)
    requires received <= sent <= |mail|
    ensures sent < |mail| ==> mail[received..sent] + [mail[sent]] == mail[received..sent + 1]
    ensures received < sent ==> mail[received..sent][0] == mail[received] && mail[received..sent][1..] == mail[received + 1..sent]
  {
  }

  lemma InitiatorSmooth(s: State)
    requires OnTrack(s) && s.i.pc < INITIATOR_END && !Waits(InitiatorAction(s.i.pc), InitiatorTurn(s))
    ensures Smooth(InitiatorTurn(s), InitiatorAction(s.i.pc), true, s.i.tx.value)
  {
    hide InitiatorMail, ResponderMail, ResponderOnTrack;
    InitiatorScript(s.i.pc, s.i.tx.value);
    MailMoves(ResponderMail(s.i.tx.value), InitiatorReceived(s.i.pc), ResponderSent(s.r.pc));
  }

  lemma ResponderSmooth(s: State)
    requires OnTrack(s) && s.r.pc < RESPONDER_END && !Waits(ResponderAction(s.r.pc), ResponderTurn(s))
    ensures Smooth(ResponderTurn(s), ResponderAction(s.r.pc), false, s.i.tx.value)
  {
    hide InitiatorMail, ResponderMail, InitiatorOnTrack;
    ResponderScript(s.r.pc, s.i.tx.value);
    MailMoves(InitiatorMail(s.i.tx.value), ResponderReceived(s.r.pc), InitiatorSent(s.i.pc));
  }

  lemma InitiatorStaysOnTrack(s: State)
    requires OnTrack(s) && Go(s, Initiator).Some?
    ensures OnTrack(Go(s, Initiator).value)
    ensures Go(s, Initiator).value.i.pc == s.i.pc + 1 && Go(s, Initiator).value.r == s.r
  {
    hide Perform, InitiatorMail, ResponderMail, Smooth, ResponderOnTrack;
    var tx := s.i.tx.value;
    InitiatorReturns(s);
    InitiatorSmooth(s);
    SmoothSucceeds(InitiatorTurn(s), InitiatorAction(s.i.pc), s.kind, true, tx);
    InitiatorScript(s.i.pc, tx);
    MailMoves(InitiatorMail(tx), ResponderReceived(s.r.pc), InitiatorSent(s.i.pc));
    MailMoves(ResponderMail(tx), InitiatorReceived(s.i.pc), ResponderSent(s.r.pc));
  }

  /** A program that has a next statement is not at its end. */
  lemma InitiatorReturns(s: State)
    requires OnTrack(s) && Go(s, Initiator).Some?
    ensures s.i.pc < INITIATOR_END && !Waits(InitiatorAction(s.i.pc), InitiatorTurn(s))
  {
  }

  lemma ResponderReturns(s: State)
    requires OnTrack(s) && Go(s, Responder).Some?
    ensures s.r.pc < RESPONDER_END && !Waits(ResponderAction(s.r.pc), ResponderTurn(s))
  {
  }

  lemma ResponderStaysOnTrack(s: State)
    requires OnTrack(s) && Go(s, Responder).Some?
    ensures OnTrack(Go(s, Responder).value)
    ensures Go(s, Responder).value.r.pc == s.r.pc + 1 && Go(s, Responder).value.i == s.i
  {
    hide Perform, InitiatorMail, ResponderMail, Smooth, InitiatorOnTrack;
    var tx := s.i.tx.value;
    ResponderReturns(s);
    ResponderSmooth(s);
    SmoothSucceeds(ResponderTurn(s), ResponderAction(s.r.pc), Host, false, tx);
    ResponderScript(s.r.pc, tx);
    MailMoves(InitiatorMail(tx), ResponderReceived(s.r.pc), InitiatorSent(s.i.pc));
    MailMoves(ResponderMail(tx), InitiatorReceived(s.i.pc), ResponderSent(s.r.pc));
  }

  predicate BothDone(s: State) {
    s.i.pc == INITIATOR_END && s.r.pc == RESPONDER_END
  }

  /** The two programs never both wait on empty channels. */
  lemma NoDeadlock(s: State)
    requires OnTrack(s) && !BothDone(s)
    ensures Go(s, Initiator).Some? || Go(s, Responder).Some?
  {
  }

  // Whole schedules.

  predicate IsSchedule(s: State, sides: seq<Side>)
    decreases |sides|
  {
    |sides| == 0 || (Go(s, sides[0]).Some? && IsSchedule(Go(s, sides[0]).value, sides[1..]))
  }

  function EndOfSchedule(s: State, sides: seq<Side>): State
    requires IsSchedule(s, sides)
    decreases |sides|
  {
    if |sides| == 0 then s else EndOfSchedule(Go(s, sides[0]).value, sides[1..])
  }

  /** Statements left in both programs. */
  function Left(s: State): int {
    INITIATOR_END - s.i.pc + RESPONDER_END - s.r.pc
  }

  lemma {:induction false} ScheduleStaysOnTrack(s: State, sides: seq<Side>)
    requires OnTrack(s) && IsSchedule(s, sides)
    ensures OnTrack(EndOfSchedule(s, sides))
    ensures Left(EndOfSchedule(s, sides)) == Left(s) - |sides|
    ensures EndOfSchedule(s, sides).i.tx == s.i.tx && EndOfSchedule(s, sides).i.remote == s.i.remote
    ensures EndOfSchedule(s, sides).r.remote == s.r.remote
    decreases |sides|
  {
    hide Go, OnTrack;
    if |sides| > 0 {
      match sides[0] {
        case Initiator => InitiatorStaysOnTrack(s);
        case Responder => ResponderStaysOnTrack(s);
      }
      NamesFixed(s, sides[0]);
      ScheduleStaysOnTrack(Go(s, sides[0]).value, sides[1..]);
    }
  }

  lemma NamesFixed(s: State, side: Side)
    requires OnTrack(s) && Go(s, side).Some?
    ensures var s' := Go(s, side).value;
      s'.i.tx == s.i.tx && s'.i.remote == s.i.remote && s'.r.remote == s.r.remote
  {
    hide Perform, ResponderMail, InitiatorMail, UnderWay, Smooth;
    match side
    case Initiator =>
      InitiatorReturns(s);
      InitiatorSmooth(s);
      SmoothSucceeds(InitiatorTurn(s), InitiatorAction(s.i.pc), s.kind, true, s.i.tx.value);
      InitiatorScript(s.i.pc, s.i.tx.value);
    case Responder =>
      ResponderReturns(s);
      ResponderSmooth(s);
      SmoothSucceeds(ResponderTurn(s), ResponderAction(s.r.pc), Host, false, s.i.tx.value);
  }

  /** A fresh pairing of two unpaired stores. */
  predicate FreshStart(s: State) {
    Start(s) && s.i.store.Unpaired? && s.r.store.Unpaired?
  }

  predicate BothPaired(s: State, tx: Transaction) {
    s.i.store == Paired(s.i.remote, tx) && s.r.store == Paired(s.r.remote, tx)
  }

  /** Every failure-free schedule is finite, can always be continued until both programs have returned, and
      then both sides are Paired on the initiator's transaction. */
  lemma EveryScheduleEndsPaired(s: State, sides: seq<Side>)
    requires FreshStart(s) && IsSchedule(s, sides)
    ensures |sides| <= INITIATOR_END + RESPONDER_END
    ensures (forall side :: Go(EndOfSchedule(s, sides), side).None?) ==> BothPaired(EndOfSchedule(s, sides), s.i.tx.value)
    ensures |sides| == INITIATOR_END + RESPONDER_END ==> BothPaired(EndOfSchedule(s, sides), s.i.tx.value)
  {
    hide Go;
    assert OnTrack(s);
    ScheduleStaysOnTrack(s, sides);
    var end := EndOfSchedule(s, sides);
    if !BothDone(end) {
      NoDeadlock(end);
    }
  }
}
