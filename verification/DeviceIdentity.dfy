/** The device's identity service: the flash of the identity family and the copies of its state kept in memory. */
module DeviceIdentity {
  import opened Common
  import opened Bytes
  import opened RecordCodec
  import opened FlashStore
  import opened DeviceUnpair

  const NO_PEER: seq<Byte> := seq(32, _ => 0)

  /** `StoredIdentity`: the canonical record as loaded, which a pairing session then edits and republishes. The
      payload array is full; `length` bytes of it are the record's. */
  datatype StoredIdentity = StoredIdentity(sequence: nat, generation: nat, state: PeerState, payload: seq<Byte>,
                                           length: nat)

  /** Everything the flash does during one unpair, call by call. */
  datatype AttemptCalls = AttemptCalls(
    recoveryReads: ReadFaults, recoveryDelete: Outcome, canonicalReads: ReadFaults,
    revoking: PublishCalls, resetBetween: bool, unpaired: PublishCalls)

  /** The record that `begin_identity_unpair` publishes over a store as recovery left it, if it gets that far. */
  function RevokingRecord(s: Slots, rf: ReadFaults): (r: Option<Record>)
    ensures r.Some? ==> Encodable(r.value)
  {
    var canonical := Canonical(s, rf);
    if canonical.Got? && canonical.value.Some? && Encodable(RevokingOf(canonical.value.value))
    then Some(RevokingOf(canonical.value.value)) else None
  }

  function BeginFaults(s: Slots, peer: seq<Byte>, c: AttemptCalls): (f: AttemptFaults)
    ensures f.resetBetween == c.resetBetween
  {
    var s1 := Recover(s, peer, c.recoveryReads, c.recoveryDelete).0;
    var r := RevokingRecord(s1, c.canonicalReads);
    AttemptFaults(c.recoveryReads, c.recoveryDelete, c.canonicalReads,
                  if r.Some? then FaultsOf(s1, r.value, c.revoking) else FAULT_FREE,
                  c.resetBetween, FAULT_FREE)
  }

  function UnpairedRecord(r: Revocation): Record {
    Record(r.sequence + 1, r.generation, Identity(Unpaired), r.local)
  }

  function FinishFaults(s: Slots, r: Revocation, c: PublishCalls): Faults {
    if Encodable(UnpairedRecord(r)) then FaultsOf(s, UnpairedRecord(r), c) else FAULT_FREE
  }

  /** What the calls of one unpair come to, each judged on the flash it finds. */
  function FaultsOfAttempt(s: Slots, peer: seq<Byte>, c: AttemptCalls): AttemptFaults {
    var f := BeginFaults(s, peer, c);
    var (s1, begun) := Begin(s, peer, f);
    if begun.Begun? then f.(unpaired := FinishFaults(s1, begun.revocation, c.unpaired)) else f
  }

  lemma BeginIgnoresFinish(s: Slots, peer: seq<Byte>, f: AttemptFaults, unpaired: Faults)
    ensures Begin(s, peer, f.(unpaired := unpaired)) == Begin(s, peer, f)
  {
    hide Recover, Canonical, Publish, ExactPeer;
  }

  lemma BeginRefusesOthers(s: Slots, peer: seq<Byte>, f: AttemptFaults, c: AttemptCalls)
    requires f.recoveryReads == c.recoveryReads && f.canonicalReads == c.canonicalReads
    ensures Foreign(s, peer) ==>
      Begin(s, peer, f).0 == s && Begin(s, peer, f).1.Stopped? && Begin(s, peer, f).1.status != Success
    ensures var canonical := Canonical(s, c.canonicalReads);
      s.intent.None? && !c.recoveryReads.intent && |peer| == 32 && canonical.Got? && canonical.value.Some?
      && !Names(canonical.value.value, peer)
      ==> Begin(s, peer, f) == (s, Stopped(PeerMismatch))
  {
    hide Decode, Canonical, Publish, Foreign;
    if Foreign(s, peer) {
      ForeignPeerBegins(s, peer, f);
    }
  }

  class IdentityService {
    const nvs: Nvs
    var ownerGeneration: nat
    var peerState: PeerState
    var peerId: seq<Byte>

    constructor (nvs: Nvs)
      ensures this.nvs == nvs && ownerGeneration == 0 && peerState == Unpaired && peerId == NO_PEER
    {
      this.nvs := nvs;
      ownerGeneration, peerState, peerId := 0, Unpaired, NO_PEER;
    }

    /** The memory copies after a finished unpair. */
    ghost predicate ShowsUnpaired(generation: nat)
      reads this
    {
      ownerGeneration == generation && peerState == Unpaired && peerId == NO_PEER
    }

    method ClearPeer(generation: nat)
      modifies this
      ensures ShowsUnpaired(generation)
    {
      ownerGeneration, peerState, peerId := generation, Unpaired, NO_PEER;
    }

    /** `recover_identity_intent`. */
    method RecoverIdentityIntent(peer: seq<Byte>, rf: ReadFaults, delete: Outcome) returns (r: Recovery)
      modifies this, nvs
      ensures (nvs.Contents(), r) == Recover(old(nvs.Contents()), peer, rf, delete)
      ensures r.Completed? ==> ShowsUnpaired(Target(old(nvs.Contents())).generation)
      ensures !r.Completed? ==> unchanged(this)
    {
      hide Decode, FromBigEndian;
      var intent := ReadSlot(nvs.intent, 8, rf.intent);
      if intent.Failed? { return Refused(StoreFailed); }
      if intent.value.None? { return NothingPending; }
      if |intent.value.value| != 8 { return Refused(StoreFailed); }
      var sequence := FromBigEndian(intent.value.value);
      var first := ReadSlot(nvs.a, NVS_RECORD_MAX, rf.a);
      if first.Failed? { return Refused(StoreFailed); }
      var second := ReadSlot(nvs.b, NVS_RECORD_MAX, rf.b);
      if second.Failed? { return Refused(StoreFailed); }
      var target, previous := first.value, second.value;
      if sequence % 2 != 1 {
        target, previous := previous, target;
      }
      if target.None? { return Refused(StoreFailed); }
      var decoded := Decode(target.value);
      if decoded.Err? || decoded.value.sequence != sequence { return Refused(StoreFailed); }
      var completed := IsCompletion(decoded.value, previous, peer);
      if !completed && !ExactPeer(decoded.value, peer) { return Refused(PeerMismatch); }
      var ok := nvs.DeleteIntent(delete);
      if !ok { return Refused(StoreFailed); }
      if completed {
        ClearPeer(decoded.value.generation);
        return Completed;
      }
      return RolledForward;
    }

    /** `begin_identity_unpair`. */
    method BeginIdentityUnpair(peer: seq<Byte>, c: AttemptCalls) returns (r: Begun)
      modifies this, nvs
      ensures (nvs.Contents(), r) == Begin(old(nvs.Contents()), peer, BeginFaults(old(nvs.Contents()), peer, c))
      ensures r.Begun? ==> ownerGeneration == r.revocation.generation && peerState == Revoking
      ensures r.Stopped? && r.status != Success ==> unchanged(this)
      ensures Foreign(old(nvs.Contents()), peer) ==>
        nvs.Contents() == old(nvs.Contents()) && unchanged(this) && r.Stopped? && r.status != Success
      ensures var before := old(nvs.Contents());
        var canonical := Canonical(before, c.canonicalReads);
        before.intent.None? && !c.recoveryReads.intent && |peer| == 32 && canonical.Got? && canonical.value.Some?
        && !Names(canonical.value.value, peer)
        ==> r == Stopped(PeerMismatch) && nvs.Contents() == before && unchanged(this)
    {
      hide Decode, FromBigEndian, Recover, Canonical, Publish, FaultsOf, Foreign, Names;
      BeginRefusesOthers(nvs.Contents(), peer, BeginFaults(nvs.Contents(), peer, c), c);
      if |peer| != 32 { return Stopped(Invalid); }
      var recovery := RecoverIdentityIntent(peer, c.recoveryReads, c.recoveryDelete);
      if recovery.Refused? { return Stopped(recovery.status); }
      if recovery.Completed? { return Stopped(Success); }
      var canonical := Canonical(Slots(nvs.a, nvs.b, nvs.intent), c.canonicalReads);
      if canonical.Failed? { return Stopped(canonical.status); }
      if canonical.value.None? { return Stopped(Missing); }
      var record := canonical.value.value;
      if !Revocable(record.state) || !ExactPeer(record, peer) { return Stopped(PeerMismatch); }
      var recovering := record.state == Identity(Revoking);
      var sequence, generation := record.sequence, record.generation;
      if !recovering {
        if generation >= U64_MAX || sequence >= U64_MAX { return Stopped(StoreFailed); }
        generation := generation + 1;
        var status := nvs.PublishRecord(sequence, generation, Identity(Revoking), record.payload, c.revoking);
        if status != Success { return Stopped(status); }
        sequence := sequence + 1;
      }
      ownerGeneration, peerState := generation, Revoking;
      return Begun(Revocation(sequence, generation, record.payload[..64]));
    }

    /** `finish_identity_unpair`. */
    method FinishIdentityUnpair(r: Revocation, c: PublishCalls) returns (status: Status)
      requires r.sequence <= U64_MAX && r.generation <= U64_MAX
      modifies this, nvs
      ensures (nvs.Contents(), status) == Finish(old(nvs.Contents()), r, FinishFaults(old(nvs.Contents()), r, c))
      ensures status == Success ==> ShowsUnpaired(r.generation)
      ensures status != Success ==> unchanged(this)
    {
      hide Publish, FaultsOf;
      status := nvs.PublishRecord(r.sequence, r.generation, Identity(Unpaired), r.local, c);
      if status == Success {
        ClearPeer(r.generation);
      }
    }

    /** `identity_unpair`. */
    method IdentityUnpair(peer: seq<Byte>, c: AttemptCalls) returns (status: Option<Status>)
      modifies this, nvs
      ensures (nvs.Contents(), status) == Attempt(old(nvs.Contents()), peer, FaultsOfAttempt(old(nvs.Contents()), peer, c))
      ensures Foreign(old(nvs.Contents()), peer) ==>
        nvs.Contents() == old(nvs.Contents()) && unchanged(this) && status.Some? && status != Some(Success)
    {
      hide Begin, Finish, BeginFaults, FinishFaults, Foreign, Names, Canonical;
      ghost var before := nvs.Contents();
      ghost var f := BeginFaults(before, peer, c);
      var begun := BeginIdentityUnpair(peer, c);
      if begun.Begun? {
        BeginIgnoresFinish(before, peer, f, FinishFaults(nvs.Contents(), begun.revocation, c.unpaired));
      }
      if begun.Stopped? { return Some(begun.status); }
      if c.resetBetween { return None; }
      BegunFits(before, peer, f);
      var finished := FinishIdentityUnpair(begun.revocation, c.unpaired);
      return Some(finished);
    }

    /** `identity_init`: only a store without any record, and without an intent, accepts a new identity. */
    method IdentityInit(rf: ReadFaults, c: PublishCalls, keypair: seq<Byte>) returns (status: Status)
      requires |keypair| == 64
      modifies this, nvs
      ensures var before := old(nvs.Contents());
        && (Canonical(before, rf) == Got(None) ==>
              var r := Record(1, 1, Identity(Unpaired), keypair);
              var published := Publish(before, r, FaultsOf(before, r, c));
              nvs.Contents() == published.0 && status == if published.1 then Success else StoreFailed)
        && (Canonical(before, rf) != Got(None) ==>
              nvs.Contents() == before && status == if Canonical(before, rf).Got? then AlreadyInitialized else Canonical(before, rf).status)
      ensures status == Success ==> ownerGeneration == 1
    {
      hide Decode, Publish, FaultsOf, SelectSlot, ReadSlot;
      var canonical := Canonical(Slots(nvs.a, nvs.b, nvs.intent), rf);
      if canonical.Failed? { return canonical.status; }
      if canonical.value.Some? { return AlreadyInitialized; }
      status := nvs.PublishRecord(0, 1, Identity(Unpaired), keypair, c);
      if status == Success {
        ownerGeneration := 1;
      }
    }

    /** `publish_peer`: one pairing stage, with the sequence the session has cached. */
    method PublishPeer(identity: StoredIdentity, state: PeerState, c: PublishCalls)
      returns (after: StoredIdentity, ok: bool)
      requires identity.sequence <= U64_MAX && identity.generation <= U64_MAX
      requires |identity.payload| == 112 && identity.length <= 112
      modifies this, nvs
      ensures identity.sequence == U64_MAX ==> !ok && nvs.Contents() == old(nvs.Contents())
      ensures identity.sequence < U64_MAX ==>
        var r := Record(identity.sequence + 1, identity.generation, Identity(state), identity.payload[..identity.length]);
        (nvs.Contents(), ok) == Publish(old(nvs.Contents()), r, FaultsOf(old(nvs.Contents()), r, c))
      ensures !ok ==> after == identity && unchanged(this)
      ensures ok ==> after == identity.(sequence := identity.sequence + 1, state := state)
      ensures ok ==> ownerGeneration == identity.generation && peerState == state
      ensures ok ==> peerId == identity.payload[64..96]
    {
      hide Publish, FaultsOf;
      after := identity;
      var status := nvs.PublishRecord(identity.sequence, identity.generation, Identity(state),
                                      identity.payload[..identity.length], c);
      ok := status == Success;
      if ok {
        after := identity.(sequence := identity.sequence + 1, state := state);
        ownerGeneration, peerState, peerId := identity.generation, state, identity.payload[64..96];
      }
    }
  }

  lemma BegunFits(s: Slots, peer: seq<Byte>, f: AttemptFaults)
    requires Begin(s, peer, f).1.Begun?
    ensures Begin(s, peer, f).1.revocation.sequence <= U64_MAX
    ensures Begin(s, peer, f).1.revocation.generation <= U64_MAX
  {
    hide Decode, Recover, Publish;
    var s1 := Recover(s, peer, f.recoveryReads, f.recoveryDelete).0;
    CanonicalEncodable(s1, f.canonicalReads);
  }

  lemma CanonicalEncodable(s: Slots, rf: ReadFaults)
    requires Canonical(s, rf).Got? && Canonical(s, rf).value.Some?
    ensures Encodable(Canonical(s, rf).value.value)
  {
    hide Decode;
    if s.a.Some? && Decode(s.a.value).Ok? {
      EncodeUndoesDecode(s.a.value);
    }
    if s.b.Some? && Decode(s.b.value).Ok? {
      EncodeUndoesDecode(s.b.value);
    }
  }
}
