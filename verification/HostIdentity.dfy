/** The host's durable identity: the peer state machine, its generation, and the store that publishes it by
    rename. Keys and transaction identifiers enter only through equality. */
module HostIdentity {
  import opened Common

  type Key = nat
  type Transaction = nat

  datatype PeerState =
    | Unpaired
    | Pending(remote: Key, tx: Transaction)
    | Committing(remote: Key, tx: Transaction)
    | Paired(remote: Key, tx: Transaction)
    | Revoking(remote: Key, previous: Transaction)

  datatype Identity = Identity(generation: nat, peer: PeerState)

  datatype StoreError =
    | Missing | AlreadyInitialized | Invalid | NotPrivate | UnknownEntry | PeerMismatch | GenerationExhausted
    | LockTimeout | RevokedRecoveryRequired | Io

  datatype Result = Ok | Err(error: StoreError)

  /** What `publish_locked_with_rename_hook` comes to: the rename is the commit point. `Before` covers every failure
      or reset up to it, `After` a failure or a reset once it has happened. */
  datatype Outcome = Published | Before(error: StoreError) | After

  predicate Renamed(o: Outcome) {
    !o.Before?
  }

  predicate ValidPeerTransition(current: PeerState, next: PeerState) {
    match (current, next)
    case (Unpaired, Pending(_, _)) => true
    case (Pending(key, tx), Committing(nextKey, nextTx)) => key == nextKey && tx == nextTx
    case (Committing(key, tx), Paired(nextKey, nextTx)) => key == nextKey && tx == nextTx
    case _ => false
  }

  type Stored = Option<Identity>

  /** What opening the store, taking its lock or reading it failed with, if it did. */
  type Access = Option<StoreError>

  function ResultOf(o: Outcome): Result {
    match o
    case Published => Ok
    case Before(e) => Err(e)
    case After => Err(Io)
  }

  /** `init`. */
  function AfterInit(s: Stored, access: Access, o: Outcome): (Stored, Result) {
    if access.Some? then (s, Err(access.value))
    else if s.Some? then (s, Err(AlreadyInitialized))
    else (if Renamed(o) then Some(Identity(0, Unpaired)) else s, ResultOf(o))
  }

  /** `set_peer`. */
  function AfterSetPeer(s: Stored, peer: PeerState, access: Access, o: Outcome): (Stored, Result) {
    if access.Some? then (s, Err(access.value))
    else if s.None? then (s, Err(Missing))
    else if !ValidPeerTransition(s.value.peer, peer) then (s, Err(Invalid))
    else (if Renamed(o) then Some(s.value.(peer := peer)) else s, ResultOf(o))
  }

  /** How the two publications of one unpair end and whether the revocation hook joins its sessions. A reset
      between them is a hook that never joins. */
  datatype UnpairFaults = UnpairFaults(access: Access, revoking: Outcome, joined: bool, unpaired: Outcome)

  predicate NamesPeer(p: PeerState, remote: Key) {
    !p.Unpaired? && p.remote == remote
  }

  function TransactionOf(p: PeerState): Transaction
    requires !p.Unpaired?
  {
    if p.Revoking? then p.previous else p.tx
  }

  /** What `unpair_with_hook_inner` publishes first. */
  function Revoked(i: Identity): Identity
    requires !i.peer.Unpaired?
  {
    Identity(i.generation + 1, Revoking(i.peer.remote, TransactionOf(i.peer)))
  }

  /** `unpair_with_hook_inner`. */
  function AfterUnpair(s: Stored, remote: Key, f: UnpairFaults): (Stored, Result) {
    if f.access.Some? then (s, Err(f.access.value))
    else if s.None? then (s, Err(Missing))
    else if !NamesPeer(s.value.peer, remote) then (s, Err(PeerMismatch))
    else if s.value.peer.Revoking? then
      var unpaired := s.value.(peer := Unpaired);
      (if Renamed(f.unpaired) then Some(unpaired) else s,
       if f.unpaired.Published? then Ok else Err(RevokedRecoveryRequired))
    else if s.value.generation >= U64_MAX then (s, Err(GenerationExhausted))
    else
      var revoking := Revoked(s.value);
      if f.revoking.Before? then (s, Err(f.revoking.error))
      else if f.revoking.After? || !f.joined then (Some(revoking), Err(RevokedRecoveryRequired))
      else
        (Some(if Renamed(f.unpaired) then revoking.(peer := Unpaired) else revoking),
         if f.unpaired.Published? then Ok else Err(RevokedRecoveryRequired))
  }

  // The files: a temporary file, written and synced, replaces the identity file by rename.

  datatype Content = Partial | Whole(identity: Identity)

  datatype PublishStep =
    Encode | InspectStale | RejectStale | RemoveStale | CreateTemporary | WriteTemporary | SyncTemporary | RenameOver
    | SyncDirectory

  /** The step at which a publication fails or the host is reset, if any. The steps on a stale temporary file are
      reached only when there is one. A failing rename has no effect. */
  type Failure = Option<PublishStep>

  predicate OfStale(step: PublishStep) {
    step.InspectStale? || step.RejectStale? || step.RemoveStale?
  }

  function OutcomeOf(failure: Failure, stale: bool): Outcome {
    if failure.None? || (OfStale(failure.value) && !stale) then Published
    else match failure.value
      case Encode => Before(Invalid)
      case RejectStale => Before(Invalid)
      case SyncDirectory => After
      case _ => Before(Io)
  }

  /** The store itself. */
  class IdentityStore {
    var file: Option<Content>
    var temporary: Option<Content>

    /** The identity file is never half-written. */
    ghost predicate Valid()
      reads this
    {
      file.Some? ==> file.value.Whole?
    }

    ghost function Durable(): Stored
      reads this
    {
      if file.Some? && file.value.Whole? then Some(file.value.identity) else None
    }

    constructor ()
      ensures Valid() && Durable() == None && temporary == None
    {
      file, temporary := None, None;
    }

    /** `publish_locked_with_rename_hook`; `renamed` tells whether the hook has run. Whatever fails, the identity
        is the old one or the whole new one, and success means the whole new one. */
    method PublishLocked(identity: Identity, failure: Failure) returns (r: Result, renamed: bool)
      requires Valid()
      modifies this
      ensures Valid()
      ensures var o := OutcomeOf(failure, old(temporary).Some?);
        && Durable() == (if Renamed(o) then Some(identity) else old(Durable()))
        && r == ResultOf(o) && renamed == Renamed(o)
      ensures renamed ==> temporary.None?
      ensures r.Ok? ==> file == Some(Whole(identity))
    {
      if failure == Some(Encode) { return Err(Invalid), false; }
      if temporary.Some? {
        if failure == Some(InspectStale) { return Err(Io), false; }
        if failure == Some(RejectStale) { return Err(Invalid), false; }
        if failure == Some(RemoveStale) { return Err(Io), false; }
        temporary := None;
      }
      if failure == Some(CreateTemporary) { return Err(Io), false; }
      temporary := Some(Partial);
      if failure == Some(WriteTemporary) { return Err(Io), false; }
      temporary := Some(Whole(identity));
      if failure == Some(SyncTemporary) { return Err(Io), false; }
      if failure == Some(RenameOver) { return Err(Io), false; }
      file, temporary := temporary, None;
      renamed := true;
      r := if failure == Some(SyncDirectory) then Err(Io) else Ok;
    }

    method Init(access: Access, failure: Failure) returns (r: Result)
      requires Valid()
      modifies this
      ensures Valid()
      ensures (Durable(), r) == AfterInit(old(Durable()), access, OutcomeOf(failure, old(temporary).Some?))
    {
      if access.Some? { return Err(access.value); }
      if file.Some? { return Err(AlreadyInitialized); }
      var renamed;
      r, renamed := PublishLocked(Identity(0, Unpaired), failure);
    }

    method SetPeer(peer: PeerState, access: Access, failure: Failure) returns (r: Result)
      requires Valid()
      modifies this
      ensures Valid()
      ensures (Durable(), r) == AfterSetPeer(old(Durable()), peer, access, OutcomeOf(failure, old(temporary).Some?))
    {
      if access.Some? { return Err(access.value); }
      if file.None? { return Err(Missing); }
      var identity := file.value.identity;
      if !ValidPeerTransition(identity.peer, peer) { return Err(Invalid); }
      identity := identity.(peer := peer);
      var renamed;
      r, renamed := PublishLocked(identity, failure);
    }

    /** `unpair_with_hook_inner`: two publications, of which the second never finds a temporary file left by the
        first. */
    method Unpair(remote: Key, access: Access, revoking: Failure, joined: bool, unpaired: Failure) returns (r: Result)
      requires Valid()
      modifies this
      ensures Valid()
      ensures
        var stale := old(temporary).Some?;
        var recovering := old(Durable()).Some? && old(Durable()).value.peer.Revoking?;
        (Durable(), r) == AfterUnpair(old(Durable()), remote,
          UnpairFaults(access, OutcomeOf(revoking, stale), joined, OutcomeOf(unpaired, stale && recovering)))
    {
      if access.Some? { return Err(access.value); }
      if file.None? { return Err(Missing); }
      var identity := file.value.identity;
      if !NamesPeer(identity.peer, remote) { return Err(PeerMismatch); }
      var recovering := identity.peer.Revoking?;
      if !recovering {
        if identity.generation >= U64_MAX { return Err(GenerationExhausted); }
        identity := Identity(identity.generation + 1, Revoking(remote, TransactionOf(identity.peer)));
        var published, renamed := PublishLocked(identity, revoking);
        if published.Err? {
          return if renamed then Err(RevokedRecoveryRequired) else published;
        }
        if !joined { return Err(RevokedRecoveryRequired); }
      }
      identity := identity.(peer := Unpaired);
      var again;
      r, again := PublishLocked(identity, unpaired);
      if r.Err? { r := Err(RevokedRecoveryRequired); }
    }
  }

  // Histories.

  datatype Operation =
    | Initialize(access: Access, o: Outcome)
    | Publish(peer: PeerState, access: Access, o: Outcome)
    | Revoke(remote: Key, f: UnpairFaults)

  function Apply(s: Stored, op: Operation): Stored {
    match op
    case Initialize(access, o) => AfterInit(s, access, o).0
    case Publish(peer, access, o) => AfterSetPeer(s, peer, access, o).0
    case Revoke(remote, f) => AfterUnpair(s, remote, f).0
  }

  /** A revocation starts durably when its first rename happens; continuing an interrupted one is no new start. */
  predicate StartsRevocation(s: Stored, op: Operation) {
    && op.Revoke? && op.f.access.None? && s.Some? && NamesPeer(s.value.peer, op.remote)
    && !s.value.peer.Revoking? && s.value.generation < U64_MAX && Renamed(op.f.revoking)
  }

  predicate EntersPaired(s: Stored, op: Operation) {
    && Apply(s, op).Some? && Apply(s, op).value.peer.Paired?
    && !(s.Some? && s.value.peer.Paired?)
  }

  function Final(s: Stored, ops: seq<Operation>): Stored
    decreases |ops|
  {
    if |ops| == 0 then s else Final(Apply(s, ops[0]), ops[1..])
  }

  /** How many revocations a history starts. */
  function Revocations(s: Stored, ops: seq<Operation>): nat
    decreases |ops|
  {
    if |ops| == 0 then 0
    else (if StartsRevocation(s, ops[0]) then 1 else 0) + Revocations(Apply(s, ops[0]), ops[1..])
  }

  /** The generations at which a history enters the Paired state, in order. */
  function PairedEpochs(s: Stored, ops: seq<Operation>): seq<nat>
    decreases |ops|
  {
    if |ops| == 0 then []
    else
      (if EntersPaired(s, ops[0]) then [Apply(s, ops[0]).value.generation] else [])
      + PairedEpochs(Apply(s, ops[0]), ops[1..])
  }

  function GenerationOf(s: Stored): nat {
    if s.None? then 0 else s.value.generation
  }

  /** Every revocation raises the generation by exactly one, however often it is interrupted and resumed, and
      nothing else changes it. */
  lemma {:induction false} GenerationCountsRevocations(s: Stored, ops: seq<Operation>)
    ensures GenerationOf(Final(s, ops)) == GenerationOf(s) + Revocations(s, ops)
    decreases |ops|
  {
    if |ops| > 0 {
      GenerationCountsRevocations(Apply(s, ops[0]), ops[1..]);
    }
  }

  /** A generation below every later Paired epoch: the current one, raised by the revocation that must come
      first when the store is Paired now. */
  function EpochFloor(s: Stored): nat {
    GenerationOf(s) + if s.Some? && s.value.peer.Paired? then 1 else 0
  }

  lemma {:induction false} LaterEpochsAreAbove(s: Stored, ops: seq<Operation>)
    ensures forall i :: 0 <= i < |PairedEpochs(s, ops)| ==> EpochFloor(s) <= PairedEpochs(s, ops)[i]
    ensures forall i, j :: 0 <= i < j < |PairedEpochs(s, ops)| ==> PairedEpochs(s, ops)[i] < PairedEpochs(s, ops)[j]
    decreases |ops|
  {
    if |ops| > 0 {
      var next := Apply(s, ops[0]);
      LaterEpochsAreAbove(next, ops[1..]);
      assert EpochFloor(s) <= EpochFloor(next);
      assert EntersPaired(s, ops[0]) ==> next.value.generation < EpochFloor(next);
    }
  }

  /** From an empty store, distinct Paired epochs have distinct, increasing generations. */
  lemma PairedEpochsIncrease(ops: seq<Operation>)
    ensures var epochs := PairedEpochs(None, ops);
      forall i, j :: 0 <= i < j < |epochs| ==> epochs[i] < epochs[j]
  {
    LaterEpochsAreAbove(None, ops);
  }

  function Attempts(s: Stored, remote: Key, fs: seq<UnpairFaults>): Stored
    decreases |fs|
  {
    if |fs| == 0 then s else Attempts(AfterUnpair(s, remote, fs[0]).0, remote, fs[1..])
  }

  /** Where an unpair of this identity ends: one generation up, unless the revocation has begun already. */
  function UnpairGoal(i: Identity): Identity {
    Identity(i.generation + if i.peer.Revoking? then 0 else 1, Unpaired)
  }

  const UNDISTURBED := UnpairFaults(None, Published, true, Published)

  lemma {:induction false} UnpairedStays(s: Stored, remote: Key, fs: seq<UnpairFaults>)
    requires s.Some? && s.value.peer.Unpaired?
    ensures Attempts(s, remote, fs) == s
    decreases |fs|
  {
    if |fs| > 0 {
      UnpairedStays(s, remote, fs[1..]);
    }
  }

  /** After any number of attempts that failed in any way, either one of them finished after all or the next
      undisturbed attempt does; both ways the generation has risen exactly once. */
  lemma {:induction false} RetriedUnpairFinishes(s: Stored, remote: Key, fs: seq<UnpairFaults>)
    requires s.Some? && NamesPeer(s.value.peer, remote)
    requires s.value.generation < U64_MAX || s.value.peer.Revoking?
    ensures var last := Attempts(s, remote, fs);
      var goal := Some(UnpairGoal(s.value));
      last == goal || AfterUnpair(last, remote, UNDISTURBED) == (goal, Ok)
    decreases |fs|
  {
    if |fs| > 0 {
      var next := AfterUnpair(s, remote, fs[0]).0;
      if next.value.peer.Unpaired? {
        UnpairedStays(next, remote, fs[1..]);
      } else {
        RetriedUnpairFinishes(next, remote, fs[1..]);
      }
    }
  }

  /** `set_peer` reports success exactly when it has stored the peer it was given, over the stage before it, and
      leaves the generation; a failure stores nothing or, after the rename, all of it. */
  lemma SetPeerStores(s: Stored, peer: PeerState, access: Access, o: Outcome)
    ensures var (after, r) := AfterSetPeer(s, peer, access, o);
      var next := s.Some? && match peer
        case Pending(_, _) => s.value.peer.Unpaired?
        case Committing(key, tx) => s.value.peer == Pending(key, tx)
        case Paired(key, tx) => s.value.peer == Committing(key, tx)
        case _ => false;
      && (r.Ok? <==> access.None? && next && o.Published?)
      && (r.Ok? ==> after == Some(Identity(s.value.generation, peer)))
      && (after != s ==> access.None? && next && Renamed(o) && after == Some(Identity(s.value.generation, peer)))
      && (access.None? && next && o.After? ==> after == Some(Identity(s.value.generation, peer)) && r == Err(Io))
      && (access.None? && s.Some? && !next ==> r == Err(Invalid))
      && (access.None? && s.None? ==> r == Err(Missing))
  {
  }

  /** What one unpair comes to. It succeeds exactly when it names the stored peer, the generation has room, both
      publications work and the sessions have joined; the peer is given up only after they have; once the revocation
      is renamed every failure leaves it to be resumed; and an unpair that is refused changes nothing. */
  lemma UnpairExactly(s: Stored, remote: Key, f: UnpairFaults)
    ensures var (after, r) := AfterUnpair(s, remote, f);
      var named := f.access.None? && s.Some? && !s.value.peer.Unpaired? && s.value.peer.remote == remote;
      var resumed := named && s.value.peer.Revoking?;
      var begins := named && !resumed && s.value.generation < U64_MAX;
      && (r.Ok? <==> (resumed || (begins && f.revoking.Published? && f.joined)) && f.unpaired.Published?)
      && (r == Err(PeerMismatch) <==> f.access == Some(PeerMismatch) || (f.access.None? && s.Some? && !named)
                                      || (begins && f.revoking == Before(PeerMismatch)))
      && (!resumed && !(begins && Renamed(f.revoking)) ==> after == s)
      && (begins && Renamed(f.revoking) ==>
            after == Some(if f.revoking.Published? && f.joined && Renamed(f.unpaired) then Identity(s.value.generation + 1, Unpaired)
                          else Identity(s.value.generation + 1, Revoking(remote, s.value.peer.tx))))
      && (resumed ==> after == if Renamed(f.unpaired) then Some(Identity(s.value.generation, Unpaired)) else s)
      && ((resumed || (begins && Renamed(f.revoking))) && !r.Ok? ==> r == Err(RevokedRecoveryRequired))
  {
  }

  lemma {:induction false} FinalNext(s: Stored, ops: seq<Operation>, op: Operation)
    ensures Final(s, ops + [op]) == Apply(Final(s, ops), op)
    decreases |ops|
  {
    hide Apply;
    if |ops| > 0 {
      assert (ops + [op])[1..] == ops[1..] + [op];
      FinalNext(Apply(s, ops[0]), ops[1..], op);
    }
  }

  /** The whole life of a pairing, undisturbed: created Unpaired at generation 0, through the three stages to Paired
      without a new generation, and back to Unpaired one generation up. Naming another key unpairs nothing. */
  lemma LifeOfAPairing(key: Key, tx: Transaction, other: Key)
    requires other != key
    ensures var create := [Initialize(None, Published)];
      var pair := create + [Publish(Pending(key, tx), None, Published)] + [Publish(Committing(key, tx), None, Published)]
                  + [Publish(Paired(key, tx), None, Published)];
      && Final(None, create) == Some(Identity(0, Unpaired))
      && Final(None, pair) == Some(Identity(0, Paired(key, tx)))
      && Final(None, pair + [Revoke(other, UNDISTURBED)]) == Some(Identity(0, Paired(key, tx)))
      && Final(None, pair + [Revoke(key, UNDISTURBED)]) == Some(Identity(1, Unpaired))
  {
    hide Final;
    var create := [Initialize(None, Published)];
    var pending := create + [Publish(Pending(key, tx), None, Published)];
    var committing := pending + [Publish(Committing(key, tx), None, Published)];
    var paired := committing + [Publish(Paired(key, tx), None, Published)];
    FinalOne(None, create[0]);
    FinalNext(None, create, pending[1]);
    FinalNext(None, pending, committing[2]);
    FinalNext(None, committing, paired[3]);
    FinalNext(None, paired, Revoke(other, UNDISTURBED));
    FinalNext(None, paired, Revoke(key, UNDISTURBED));
  }

  lemma FinalOne(s: Stored, op: Operation)
    ensures Final(s, [op]) == Apply(s, op)
  {
    hide Apply;
  }
}
