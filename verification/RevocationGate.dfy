/** Clones of one identity store used at the same time: session writers, result application, unpair and
    pairing steps. Two locks are involved. A writer takes the in-process gate and then the identity file lock;
    an unpair takes them in the opposite order. */
module RevocationGate {
  import opened Common
  import opened HostIdentity

  /** Program counters. `frames` counts the writes still to do; a closure run by `with_paired_generation` is a
      writer with one frame. */
  datatype Pc =
    | WriterIdle(generation: nat, frames: nat)
    | WriterGated(generation: nat, frames: nat)
    | WriterLocked(generation: nat, frames: nat)
    | WriterRead(generation: nat, frames: nat, seen: Option<nat>)
    | UnpairStart(remote: Key)
    | UnpairLocked(remote: Key)
    | UnpairWantsGate(next: Identity)
    | UnpairGated(next: Identity)
    | UnpairRenamed(next: Identity)
    | UnpairJoining(next: Identity)
    | UnpairFinal(next: Identity)
    | SetterStart(peer: PeerState)
    | SetterLocked(peer: PeerState)
    | Finished

  datatype Entry = Wrote(generation: nat, at: Identity) | Revocation(to: Identity)

  datatype State = State(
    durable: Identity, gate: Option<nat>, fileLock: Option<nat>, threads: seq<Pc>, log: seq<Entry>)

  predicate AtStart(pc: Pc) {
    pc.WriterIdle? || pc.UnpairStart? || pc.SetterStart? || pc.Finished?
  }

  predicate HoldsGate(pc: Pc) {
    pc.WriterGated? || pc.WriterLocked? || pc.WriterRead? || pc.UnpairGated? || pc.UnpairRenamed?
  }

  predicate HoldsFileLock(pc: Pc) {
    || pc.WriterLocked? || pc.UnpairLocked? || pc.UnpairWantsGate? || pc.UnpairGated? || pc.UnpairRenamed?
    || pc.UnpairJoining? || pc.UnpairFinal? || pc.SetterLocked?
  }

  /** How a step ends. `Late` is a publication that renamed and then failed; `Timeout` is `lock_identity` giving
      up after two seconds of finding the lock taken. */
  datatype Choice = Proceed | Fail | Late | Timeout

  datatype Event = Run(thread: nat, choice: Choice) | Spawn(pc: Pc) | Reset

  function Put(s: State, t: nat, pc: Pc): State
    requires t < |s.threads|
  {
    s.(threads := s.threads[t := pc])
  }

  /** The thread ends and drops whatever it holds. */
  function Ended(s: State, t: nat): State
    requires t < |s.threads|
  {
    Put(s, t, Finished).(
      gate := if HoldsGate(s.threads[t]) then None else s.gate,
      fileLock := if HoldsFileLock(s.threads[t]) then None else s.fileLock)
  }

  /** Taking the file lock: at once if it is free, otherwise only the timeout remains. */
  function Lock(s: State, t: nat, choice: Choice, then_: Pc): Option<State>
    requires t < |s.threads|
  {
    match choice
    case Proceed => if s.fileLock.None? then Some(Put(s, t, then_).(fileLock := Some(t))) else None
    case Timeout => if s.fileLock.Some? then Some(Ended(s, t)) else None
    case Fail => Some(Ended(s, t))
    case Late => None
  }

  /** Taking the gate waits without a bound. */
  function TakeGate(s: State, t: nat, choice: Choice, then_: Pc): Option<State>
    requires t < |s.threads|
  {
    if choice.Proceed? && s.gate.None? then Some(Put(s, t, then_).(gate := Some(t))) else None
  }

  function PairedGeneration(i: Identity): Option<nat> {
    if i.peer.Paired? then Some(i.generation) else None
  }

  function RunThread(s: State, t: nat, choice: Choice): Option<State>
    requires t < |s.threads|
  {
    match s.threads[t]
    case Finished => None
    case WriterIdle(g, frames) =>
      if frames == 0 then None else TakeGate(s, t, choice, WriterGated(g, frames))
    case WriterGated(g, frames) =>
      Lock(s, t, choice, WriterLocked(g, frames))
    case WriterLocked(g, frames) =>
      if choice.Proceed? then
        Some(Put(s, t, WriterRead(g, frames, PairedGeneration(s.durable))).(fileLock := None))
      else if choice.Fail? then Some(Ended(s, t))
      else None
    case WriterRead(g, frames, seen) =>
      if seen != Some(g) then (if choice.Proceed? then Some(Ended(s, t)) else None)
      else
        var written := s.(log := s.log + [Wrote(g, s.durable)]);
        if choice.Proceed? && frames > 0 then Some(Put(written, t, WriterIdle(g, frames - 1)).(gate := None))
        else if choice.Fail? then Some(Ended(written, t))
        else None
    case UnpairStart(remote) =>
      Lock(s, t, choice, UnpairLocked(remote))
    case UnpairLocked(remote) =>
      if choice.Fail? then Some(Ended(s, t))
      else if !choice.Proceed? then None
      else if !NamesPeer(s.durable.peer, remote) then Some(Ended(s, t))
      else if s.durable.peer.Revoking? then Some(Put(s, t, UnpairFinal(s.durable)))
      else if s.durable.generation >= U64_MAX then Some(Ended(s, t))
      else Some(Put(s, t, UnpairWantsGate(Revoked(s.durable))))
    case UnpairWantsGate(next) =>
      TakeGate(s, t, choice, UnpairGated(next))
    case UnpairGated(next) =>
      if choice.Fail? then Some(Ended(s, t))
      else if choice.Proceed? then
        Some(Put(s, t, UnpairRenamed(next)).(durable := next, log := s.log + [Revocation(next)]))
      else None
    case UnpairRenamed(next) =>
      if choice.Fail? then Some(Ended(s, t))
      else if choice.Proceed? then Some(Put(s, t, UnpairJoining(next)).(gate := None))
      else None
    case UnpairJoining(next) =>
      if choice.Fail? then Some(Ended(s, t))
      else if choice.Proceed? then Some(Put(s, t, UnpairFinal(next)))
      else None
    case UnpairFinal(next) =>
      if choice.Fail? then Some(Ended(s, t))
      else if choice.Timeout? then None
      else Some(Ended(s.(durable := next.(peer := Unpaired)), t))
    case SetterStart(peer) =>
      Lock(s, t, choice, SetterLocked(peer))
    case SetterLocked(peer) =>
      if choice.Fail? then Some(Ended(s, t))
      else if choice.Timeout? then None
      else if !ValidPeerTransition(s.durable.peer, peer) then Some(Ended(s, t))
      else Some(Ended(s.(durable := s.durable.(peer := peer)), t))
  }

  function Next(s: State, e: Event): Option<State> {
    match e
    case Run(t, choice) => if t < |s.threads| then RunThread(s, t, choice) else None
    case Spawn(pc) => if AtStart(pc) then Some(s.(threads := s.threads + [pc])) else None
    case Reset => Some(s.(gate := None, fileLock := None, threads := seq(|s.threads|, _ => Finished)))
  }

  predicate Start(s: State) {
    s.gate.None? && s.fileLock.None? && s.log == [] && forall t :: 0 <= t < |s.threads| ==> AtStart(s.threads[t])
  }

  /** The states a run passes through, if every event of it is enabled. */
  predicate IsRun(s: State, events: seq<Event>)
    decreases |events|
  {
    |events| == 0 || (Next(s, events[0]).Some? && IsRun(Next(s, events[0]).value, events[1..]))
  }

  function EndOf(s: State, events: seq<Event>): State
    requires IsRun(s, events)
    decreases |events|
  {
    if |events| == 0 then s else EndOf(Next(s, events[0]).value, events[1..])
  }

  // Safety.

  predicate LocksAgree(s: State) {
    && (s.gate.Some? ==> s.gate.value < |s.threads|)
    && (s.fileLock.Some? ==> s.fileLock.value < |s.threads|)
    && (forall t :: 0 <= t < |s.threads| ==> (HoldsGate(s.threads[t]) <==> s.gate == Some(t)))
    && (forall t :: 0 <= t < |s.threads| ==> (HoldsFileLock(s.threads[t]) <==> s.fileLock == Some(t)))
  }

  /** What a thread may rely on while it holds its locks. */
  predicate Knows(pc: Pc, durable: Identity) {
    match pc
    case WriterRead(g, frames, seen) => frames > 0 && (seen.Some? ==> durable.peer.Paired? && durable.generation == seen.value)
    case WriterGated(_, frames) => frames > 0
    case WriterLocked(_, frames) => frames > 0
    case UnpairWantsGate(next) => !durable.peer.Unpaired? && !durable.peer.Revoking? && next == Revoked(durable)
    case UnpairGated(next) => !durable.peer.Unpaired? && !durable.peer.Revoking? && next == Revoked(durable)
    case UnpairRenamed(next) => durable == next && next.peer.Revoking?
    case UnpairJoining(next) => durable == next && next.peer.Revoking?
    case UnpairFinal(next) => durable == next && next.peer.Revoking?
    case _ => true
  }

  function EntryGeneration(e: Entry): nat {
    match e
    case Wrote(g, _) => g
    case Revocation(to) => to.generation
  }

  /** Every frame was written while the durable identity was Paired at its generation, and nothing of an older
      generation follows a revocation. */
  predicate LogSafe(log: seq<Entry>) {
    && (forall i :: 0 <= i < |log| && log[i].Wrote? ==> log[i].at.peer.Paired? && log[i].at.generation == log[i].generation)
    && (forall i, j :: 0 <= i < j < |log| && log[i].Revocation? && log[j].Wrote? ==> log[i].to.generation <= log[j].generation)
    && (forall i, j :: 0 <= i < j < |log| && log[i].Wrote? && log[j].Revocation? ==> log[i].generation < log[j].to.generation)
  }

  predicate Invariant(s: State) {
    && LocksAgree(s)
    && (forall t :: 0 <= t < |s.threads| ==> Knows(s.threads[t], s.durable))
    && LogSafe(s.log)
    && (forall i :: 0 <= i < |s.log| ==> EntryGeneration(s.log[i]) <= s.durable.generation)
  }

  predicate FrameKept(s: State, after: State, t: nat) {
    && t < |s.threads| == |after.threads|
    && after.threads == s.threads[t := after.threads[t]]
  }

  predicate GateMoved(s: State, after: State, t: nat) {
    && t < |after.threads|
    && if HoldsGate(after.threads[t]) then after.gate == Some(t) && (s.gate.None? || s.gate == Some(t))
       else after.gate == if s.gate == Some(t) then None else s.gate
  }

  predicate FileLockMoved(s: State, after: State, t: nat) {
    && t < |after.threads|
    && if HoldsFileLock(after.threads[t]) then after.fileLock == Some(t) && (s.fileLock.None? || s.fileLock == Some(t))
       else after.fileLock == if s.fileLock == Some(t) then None else s.fileLock
  }

  lemma FrameEffect(s: State, t: nat, choice: Choice)
    requires t < |s.threads| && RunThread(s, t, choice).Some?
    ensures FrameKept(s, RunThread(s, t, choice).value, t)
  {
    hide HoldsGate, HoldsFileLock, NamesPeer, ValidPeerTransition, Revoked;
  }

  lemma GateEffect(s: State, t: nat, choice: Choice)
    requires t < |s.threads| && RunThread(s, t, choice).Some?
    requires HoldsGate(s.threads[t]) <==> s.gate == Some(t)
    ensures GateMoved(s, RunThread(s, t, choice).value, t)
  {
    hide HoldsFileLock, NamesPeer, ValidPeerTransition, Revoked;
  }

  lemma FileLockEffect(s: State, t: nat, choice: Choice)
    requires t < |s.threads| && RunThread(s, t, choice).Some?
    requires HoldsFileLock(s.threads[t]) <==> s.fileLock == Some(t)
    ensures FileLockMoved(s, RunThread(s, t, choice).value, t)
  {
    hide HoldsGate, NamesPeer, ValidPeerTransition, Revoked;
  }

  /** A step moves one counter and takes or drops locks only for that thread. */
  lemma LockEffect(s: State, t: nat, choice: Choice)
    requires t < |s.threads| && RunThread(s, t, choice).Some?
    requires HoldsGate(s.threads[t]) <==> s.gate == Some(t)
    requires HoldsFileLock(s.threads[t]) <==> s.fileLock == Some(t)
    ensures var after := RunThread(s, t, choice).value;
      FrameKept(s, after, t) && GateMoved(s, after, t) && FileLockMoved(s, after, t)
  {
    hide RunThread, FrameKept, GateMoved, FileLockMoved, HoldsGate, HoldsFileLock;
    FrameEffect(s, t, choice);
    GateEffect(s, t, choice);
    FileLockEffect(s, t, choice);
  }

  lemma LocksKept(s: State, t: nat, choice: Choice)
    requires t < |s.threads| && LocksAgree(s) && RunThread(s, t, choice).Some?
    ensures LocksAgree(RunThread(s, t, choice).value)
  {
    hide RunThread, HoldsGate, HoldsFileLock;
    LockEffect(s, t, choice);
  }

  /** The identity changes only under the file lock, and leaves Paired only under the gate as well. */
  lemma DurableChanges(s: State, t: nat, choice: Choice)
    requires t < |s.threads| && RunThread(s, t, choice).Some? && Knows(s.threads[t], s.durable)
    ensures var after := RunThread(s, t, choice).value.durable;
      && (after != s.durable ==> HoldsFileLock(s.threads[t]))
      && (after != s.durable && s.durable.peer.Paired? ==> HoldsGate(s.threads[t]))
      && s.durable.generation <= after.generation
  {
  }

  lemma OwnKnowledge(s: State, t: nat, choice: Choice)
    requires t < |s.threads| && RunThread(s, t, choice).Some? && Knows(s.threads[t], s.durable)
    ensures var after := RunThread(s, t, choice).value;
      |after.threads| == |s.threads| && Knows(after.threads[t], after.durable)
  {
  }

  lemma OnlyOwnCounter(s: State, t: nat, choice: Choice, u: nat)
    requires t < |s.threads| && u < |s.threads| && u != t && RunThread(s, t, choice).Some?
    ensures RunThread(s, t, choice).value.threads[u] == s.threads[u]
  {
  }

  lemma KnowledgeKept(s: State, t: nat, choice: Choice, u: nat)
    requires Invariant(s) && t < |s.threads| && u < |s.threads| && RunThread(s, t, choice).Some?
    ensures |RunThread(s, t, choice).value.threads| == |s.threads|
    ensures Knows(RunThread(s, t, choice).value.threads[u], RunThread(s, t, choice).value.durable)
  {
    hide RunThread, LogSafe;
    OwnKnowledge(s, t, choice);
    if u != t {
      OnlyOwnCounter(s, t, choice, u);
      DurableChanges(s, t, choice);
    }
  }

  /** The log grows by at most one entry, justified by what its thread knows. */
  lemma LogStep(s: State, t: nat, choice: Choice)
    requires t < |s.threads| && RunThread(s, t, choice).Some? && Knows(s.threads[t], s.durable)
    ensures var after := RunThread(s, t, choice).value;
      || after.log == s.log
      || (s.durable.peer.Paired? && after.log == s.log + [Wrote(s.durable.generation, s.durable)])
      || (after.durable.generation == s.durable.generation + 1 && after.log == s.log + [Revocation(after.durable)])
  {
  }

  lemma StepKeepsInvariant(s: State, e: Event)
    requires Invariant(s) && Next(s, e).Some?
    ensures Invariant(Next(s, e).value)
    ensures s.durable.generation <= Next(s, e).value.durable.generation
  {
    hide RunThread;
    if e.Run? {
      var after := Next(s, e).value;
      LocksKept(s, e.thread, e.choice);
      DurableChanges(s, e.thread, e.choice);
      LogStep(s, e.thread, e.choice);
      OwnKnowledge(s, e.thread, e.choice);
      forall u | 0 <= u < |after.threads|
        ensures Knows(after.threads[u], after.durable)
      {
        KnowledgeKept(s, e.thread, e.choice, u);
      }
    }
  }

  lemma {:induction false} RunKeepsInvariant(s: State, events: seq<Event>)
    requires Invariant(s) && IsRun(s, events)
    ensures Invariant(EndOf(s, events))
    decreases |events|
  {
    hide Next, Invariant;
    if |events| > 0 {
      StepKeepsInvariant(s, events[0]);
      RunKeepsInvariant(Next(s, events[0]).value, events[1..]);
    }
  }

  /** Revocation safety over every interleaving of any threads, with failures and resets anywhere. */
  lemma RevocationSafety(s: State, events: seq<Event>)
    requires Start(s) && IsRun(s, events)
    ensures LogSafe(EndOf(s, events).log)
  {
    RunKeepsInvariant(s, events);
  }

  // Progress.

  /** Steps a thread may still take, counting every write of a writer. */
  function Remaining(pc: Pc): nat {
    match pc
    case WriterIdle(_, frames) => 4 * frames
    case WriterGated(_, frames) => if frames == 0 then 3 else 4 * frames - 1
    case WriterLocked(_, frames) => if frames == 0 then 2 else 4 * frames - 2
    case WriterRead(_, frames, _) => if frames == 0 then 1 else 4 * frames - 3
    case UnpairStart(_) => 7
    case UnpairLocked(_) => 6
    case UnpairWantsGate(_) => 5
    case UnpairGated(_) => 4
    case UnpairRenamed(_) => 3
    case UnpairJoining(_) => 2
    case UnpairFinal(_) => 1
    case SetterStart(_) => 2
    case SetterLocked(_) => 1
    case Finished => 0
  }

  function Work(threads: seq<Pc>): nat {
    if |threads| == 0 then 0 else Remaining(threads[0]) + Work(threads[1..])
  }

  predicate AllDone(s: State) {
    forall t :: 0 <= t < |s.threads| ==> Remaining(s.threads[t]) == 0
  }

  lemma {:induction false} WorkUpdated(threads: seq<Pc>, t: nat, pc: Pc)
    requires t < |threads|
    ensures Work(threads[t := pc]) == Work(threads) - Remaining(threads[t]) + Remaining(pc)
  {
    if t > 0 {
      WorkUpdated(threads[1..], t - 1, pc);
      assert threads[t := pc][1..] == threads[1..][t - 1 := pc];
    } else {
      assert threads[0 := pc][1..] == threads[1..];
    }
  }

  lemma OwnWorkShrinks(s: State, t: nat, choice: Choice)
    requires t < |s.threads| && RunThread(s, t, choice).Some? && Knows(s.threads[t], s.durable)
    ensures |RunThread(s, t, choice).value.threads| == |s.threads|
    ensures Remaining(RunThread(s, t, choice).value.threads[t]) < Remaining(s.threads[t])
  {
  }

  /** Every step of a thread uses up work. */
  lemma StepUsesWork(s: State, t: nat, choice: Choice)
    requires Invariant(s) && t < |s.threads| && RunThread(s, t, choice).Some?
    ensures Work(RunThread(s, t, choice).value.threads) < Work(s.threads)
  {
    hide RunThread, Remaining, Work;
    OwnWorkShrinks(s, t, choice);
    LockEffect(s, t, choice);
    WorkUpdated(s.threads, t, RunThread(s, t, choice).value.threads[t]);
  }

  predicate WaitsForGate(s: State, pc: Pc) {
    s.gate.Some? && ((pc.WriterIdle? && pc.frames > 0) || pc.UnpairWantsGate?)
  }

  predicate CanMove(s: State, t: nat) {
    t < |s.threads| && exists choice :: RunThread(s, t, choice).Some?
  }

  lemma Moves(s: State, t: nat)
    requires t < |s.threads| && Remaining(s.threads[t]) > 0 && !WaitsForGate(s, s.threads[t])
    requires Knows(s.threads[t], s.durable)
    ensures CanMove(s, t)
  {
    assert RunThread(s, t, Proceed).Some? || RunThread(s, t, Timeout).Some?;
  }

  /** The opposite lock orders cannot hang: while any work is left, some thread can move. */
  lemma NobodyHangs(s: State)
    requires Invariant(s) && !AllDone(s)
    ensures exists t :: CanMove(s, t)
  {
    hide RunThread, Knows, CanMove;
    var t :| 0 <= t < |s.threads| && Remaining(s.threads[t]) != 0;
    if WaitsForGate(s, s.threads[t]) {
      t := s.gate.value;
      assert HoldsGate(s.threads[t]);
    }
    Moves(s, t);
    assert CanMove(s, t);
  }

  predicate ThreadsOnly(events: seq<Event>) {
    forall i :: 0 <= i < |events| ==> events[i].Run?
  }

  /** With a fixed set of threads every run is finite, and one that can go no further has finished them all. */
  lemma {:induction false} RunsEndFinished(s: State, events: seq<Event>)
    requires Invariant(s) && IsRun(s, events) && ThreadsOnly(events)
    ensures |events| <= Work(s.threads)
    ensures (forall t :: !CanMove(EndOf(s, events), t)) ==> AllDone(EndOf(s, events))
    decreases |events|
  {
    hide RunThread, Invariant, AllDone, CanMove, Work;
    if |events| > 0 {
      StepKeepsInvariant(s, events[0]);
      StepUsesWork(s, events[0].thread, events[0].choice);
      RunsEndFinished(Next(s, events[0]).value, events[1..]);
    } else if !AllDone(s) {
      NobodyHangs(s);
    }
  }

  /** The bound on the lock is what resolves the opposite orders: with a writer in the gate and an unpair
      holding the file lock, only a timeout or an error moves anything. */
  lemma OnlyTheBoundResolves(identity: Identity, remote: Key)
    requires identity.peer.Paired? && identity.peer.remote == remote && identity.generation < U64_MAX
    ensures var s := State(identity, None, None, [WriterIdle(identity.generation, 1), UnpairStart(remote)], []);
      var events := [Run(0, Proceed), Run(1, Proceed), Run(1, Proceed)];
      && Start(s) && IsRun(s, events)
      && (forall t, choice :: t < 2 && RunThread(EndOf(s, events), t, choice).Some? ==> t == 0 && choice in {Timeout, Fail})
      && RunThread(EndOf(s, events), 0, Timeout).Some?
  {
    var s := State(identity, None, None, [WriterIdle(identity.generation, 1), UnpairStart(remote)], []);
    var s1 := Next(s, Run(0, Proceed)).value;
    var s2 := Next(s1, Run(1, Proceed)).value;
    var s3 := Next(s2, Run(1, Proceed)).value;
    assert s3.threads == [WriterGated(identity.generation, 1), UnpairWantsGate(Revoked(identity))];
    assert [Run(0, Proceed), Run(1, Proceed), Run(1, Proceed)][1..] == [Run(1, Proceed), Run(1, Proceed)];
    assert [Run(1, Proceed), Run(1, Proceed)][1..] == [Run(1, Proceed)];
    assert IsRun(s2, [Run(1, Proceed)]) && EndOf(s2, [Run(1, Proceed)]) == s3;
    assert IsRun(s1, [Run(1, Proceed), Run(1, Proceed)]) && EndOf(s1, [Run(1, Proceed), Run(1, Proceed)]) == s3;
  }

  // What the threads do.

  /** What one step adds to the log. */
  function Logged(s: State, t: nat, choice: Choice): seq<Entry>
    requires t < |s.threads|
  {
    match s.threads[t]
    case WriterRead(g, _, seen) => if seen == Some(g) then [Wrote(g, s.durable)] else []
    case UnpairGated(next) => if choice.Proceed? then [Revocation(next)] else []
    case _ => []
  }

  /** A writer adds its frame exactly if it read its own generation, an unpair its revocation exactly when it
      renames, and nothing else is ever added. */
  lemma LogsExactly(s: State, e: Event)
    requires Next(s, e).Some?
    ensures Next(s, e).value.log == s.log + if e.Run? then Logged(s, e.thread, e.choice) else []
    ensures !e.Run? ==> Next(s, e).value.durable == s.durable
  {
    hide HoldsGate, HoldsFileLock, NamesPeer, ValidPeerTransition, Revoked;
  }

  /** A step that fails or times out stores nothing, and its thread ends without a lock. */
  lemma FailureStoresNothing(s: State, t: nat, choice: Choice)
    requires t < |s.threads| && RunThread(s, t, choice).Some? && choice in {Choice.Fail, Timeout} && LocksAgree(s)
    ensures var after := RunThread(s, t, choice).value;
      && after.durable == s.durable && after.threads == s.threads[t := Finished]
      && after.gate != Some(t) && after.fileLock != Some(t)
  {
    hide NamesPeer, ValidPeerTransition, Revoked;
  }

  function FramesOwed(pc: Pc): nat
    requires IsWriter(pc)
  {
    pc.frames
  }

  predicate IsWriter(pc: Pc) {
    pc.WriterIdle? || pc.WriterGated? || pc.WriterLocked? || pc.WriterRead?
  }

  /** The frames that thread `t` adds to the log in a run. */
  function FramesWritten(s: State, events: seq<Event>, t: nat): seq<Entry>
    requires IsRun(s, events) && t < |s.threads|
    decreases |events|
  {
    if |events| == 0 then []
    else
      ThreadsStay(s, events[0]);
      var rest := FramesWritten(Next(s, events[0]).value, events[1..], t);
      if events[0].Run? && events[0].thread == t then Logged(s, t, events[0].choice) + rest else rest
  }

  lemma ThreadsStay(s: State, e: Event)
    requires Next(s, e).Some?
    ensures |s.threads| <= |Next(s, e).value.threads|
  {
    hide HoldsGate, HoldsFileLock, NamesPeer, ValidPeerTransition, Revoked;
  }

  lemma {:induction false} FinishedStays(s: State, events: seq<Event>, t: nat)
    requires IsRun(s, events) && t < |s.threads| && s.threads[t].Finished?
    ensures t < |EndOf(s, events).threads| && EndOf(s, events).threads[t].Finished?
    decreases |events|
  {
    hide HoldsGate, HoldsFileLock, NamesPeer, ValidPeerTransition, Revoked;
    if |events| > 0 {
      FinishedStays(Next(s, events[0]).value, events[1..], t);
    }
  }

  /** A writer's own step: it goes on with its generation, owing one frame less if it has just written one, or ends. */
  lemma OwnWriterStep(s: State, t: nat, choice: Choice)
    requires t < |s.threads| && IsWriter(s.threads[t]) && RunThread(s, t, choice).Some?
    ensures |RunThread(s, t, choice).value.threads| == |s.threads|
    ensures var pc, after := s.threads[t], RunThread(s, t, choice).value.threads[t];
      || after.Finished?
      || (IsWriter(after) && after.generation == pc.generation && FramesOwed(pc) == |Logged(s, t, choice)| + FramesOwed(after))
  {
    hide HoldsGate, HoldsFileLock, NamesPeer, ValidPeerTransition, Revoked;
  }

  lemma WriterStep(s: State, e: Event, t: nat)
    requires t < |s.threads| && IsWriter(s.threads[t]) && Next(s, e).Some?
    ensures t < |Next(s, e).value.threads|
    ensures var pc, after := s.threads[t], Next(s, e).value.threads[t];
      var written := if e.Run? && e.thread == t then |Logged(s, t, e.choice)| else 0;
      || after.Finished?
      || (IsWriter(after) && after.generation == pc.generation && FramesOwed(pc) == written + FramesOwed(after))
  {
    hide RunThread, Logged;
    ThreadsStay(s, e);
    if e.Run? && e.thread == t {
      OwnWriterStep(s, t, e.choice);
    } else if e.Run? {
      OnlyOwnCounter(s, e.thread, e.choice, t);
    }
  }

  /** In every run, whatever the other threads do, a writer that is still there has added to the log exactly the
      frames it no longer owes, each of its own generation. */
  lemma {:induction false} FramesAreWritten(s: State, events: seq<Event>, t: nat)
    requires IsRun(s, events) && t < |s.threads| && IsWriter(s.threads[t])
    ensures t < |EndOf(s, events).threads|
    ensures var pc, after := s.threads[t], EndOf(s, events).threads[t];
      || after.Finished?
      || (IsWriter(after) && |FramesWritten(s, events, t)| == FramesOwed(pc) - FramesOwed(after)
          && forall i :: 0 <= i < |FramesWritten(s, events, t)| ==>
               FramesWritten(s, events, t)[i].Wrote? && FramesWritten(s, events, t)[i].generation == pc.generation)
    decreases |events|
  {
    hide Next;
    if |events| > 0 {
      WriterStep(s, events[0], t);
      var next := Next(s, events[0]).value;
      if next.threads[t].Finished? {
        FinishedStays(next, events[1..], t);
      } else {
        FramesAreWritten(next, events[1..], t);
      }
    }
  }

  /** Thread `t` alone, undisturbed. */
  function Alone(t: nat, steps: nat): seq<Event> {
    seq(steps, _ => Run(t, Proceed))
  }

  lemma AloneStep(s: State, t: nat, steps: nat)
    requires steps > 0 && Next(s, Run(t, Proceed)).Some?
    requires IsRun(Next(s, Run(t, Proceed)).value, Alone(t, steps - 1))
    ensures IsRun(s, Alone(t, steps))
    ensures EndOf(s, Alone(t, steps)) == EndOf(Next(s, Run(t, Proceed)).value, Alone(t, steps - 1))
  {
    hide Next;
    assert Alone(t, steps)[1..] == Alone(t, steps - 1);
  }

  predicate Free(s: State, t: nat) {
    s.gate.None? && s.fileLock.None? && t < |s.threads|
  }

  /** The four steps of a write. */
  lemma OneFrame(s: State, t: nat, g: nat, frames: nat)
    requires Free(s, t) && s.threads[t] == WriterIdle(g, frames) && frames > 0 && PairedGeneration(s.durable) == Some(g)
    ensures var after := Put(s, t, WriterIdle(g, frames - 1)).(log := s.log + [Wrote(g, s.durable)]);
      IsRun(after, Alone(t, 4 * frames - 4)) ==>
        IsRun(s, Alone(t, 4 * frames)) && EndOf(s, Alone(t, 4 * frames)) == EndOf(after, Alone(t, 4 * frames - 4))
  {
    hide IsRun, EndOf, Alone;
    var s1 := Put(s, t, WriterGated(g, frames)).(gate := Some(t));
    var s2 := Put(s, t, WriterLocked(g, frames)).(gate := Some(t), fileLock := Some(t));
    var s3 := Put(s, t, WriterRead(g, frames, Some(g))).(gate := Some(t));
    var s4 := Put(s, t, WriterIdle(g, frames - 1)).(log := s.log + [Wrote(g, s.durable)]);
    assert Next(s, Run(t, Proceed)) == Some(s1);
    assert s1.threads[t := WriterLocked(g, frames)] == s2.threads;
    assert Next(s1, Run(t, Proceed)) == Some(s2);
    assert s2.threads[t := WriterRead(g, frames, Some(g))] == s3.threads;
    assert Next(s2, Run(t, Proceed)) == Some(s3);
    assert s3.threads[t := WriterIdle(g, frames - 1)] == s4.threads;
    assert Next(s3, Run(t, Proceed)) == Some(s4);
    if IsRun(s4, Alone(t, 4 * frames - 4)) {
      AloneStep(s3, t, 4 * frames - 3);
      AloneStep(s2, t, 4 * frames - 2);
      AloneStep(s1, t, 4 * frames - 1);
      AloneStep(s, t, 4 * frames);
    }
  }

  /** An undisturbed writer over a store Paired at its generation writes all its frames and gives the locks back. */
  lemma {:induction false} UndisturbedWriter(s: State, t: nat, g: nat, frames: nat)
    requires Free(s, t) && s.threads[t] == WriterIdle(g, frames) && s.durable.peer.Paired? && s.durable.generation == g
    ensures IsRun(s, Alone(t, 4 * frames))
    ensures var end := EndOf(s, Alone(t, 4 * frames));
      && Free(end, t) && end.threads == s.threads[t := WriterIdle(g, 0)] && end.durable == s.durable
      && end.log == s.log + seq(frames, _ => Wrote(g, s.durable))
    decreases frames
  {
    hide RunThread;
    if frames == 0 {
      assert s.threads == s.threads[t := WriterIdle(g, 0)];
      assert s.log == s.log + seq(0, _ => Wrote(g, s.durable));
    } else {
      var after := Put(s, t, WriterIdle(g, frames - 1)).(log := s.log + [Wrote(g, s.durable)]);
      UndisturbedWriter(after, t, g, frames - 1);
      OneFrame(s, t, g, frames);
      assert [Wrote(g, s.durable)] + seq(frames - 1, _ => Wrote(g, s.durable)) == seq(frames, _ => Wrote(g, s.durable));
      assert s.threads[t := WriterIdle(g, frames - 1)][t := WriterIdle(g, 0)] == s.threads[t := WriterIdle(g, 0)];
    }
  }

  /** A writer over any other identity ends without writing. */
  lemma OutdatedWriter(s: State, t: nat, g: nat, frames: nat)
    requires Free(s, t) && s.threads[t] == WriterIdle(g, frames) && frames > 0
    requires !s.durable.peer.Paired? || s.durable.generation != g
    ensures IsRun(s, Alone(t, 4))
    ensures EndOf(s, Alone(t, 4)) == Put(s, t, Finished)
  {
    hide IsRun, EndOf, Alone;
    var seen := PairedGeneration(s.durable);
    var s1 := Put(s, t, WriterGated(g, frames)).(gate := Some(t));
    var s2 := Put(s, t, WriterLocked(g, frames)).(gate := Some(t), fileLock := Some(t));
    var s3 := Put(s, t, WriterRead(g, frames, seen)).(gate := Some(t));
    assert Next(s, Run(t, Proceed)) == Some(s1);
    assert s1.threads[t := WriterLocked(g, frames)] == s2.threads;
    assert Next(s1, Run(t, Proceed)) == Some(s2);
    assert s2.threads[t := WriterRead(g, frames, seen)] == s3.threads;
    assert Next(s2, Run(t, Proceed)) == Some(s3);
    assert s3.threads[t := Finished] == s.threads[t := Finished];
    assert Next(s3, Run(t, Proceed)) == Some(Put(s, t, Finished));
    AloneEnds(Put(s, t, Finished), t);
    AloneStep(s3, t, 1);
    AloneStep(s2, t, 2);
    AloneStep(s1, t, 3);
    AloneStep(s, t, 4);
  }

  lemma AloneEnds(s: State, t: nat)
    ensures IsRun(s, Alone(t, 0)) && EndOf(s, Alone(t, 0)) == s
  {
  }

  /** Resuming a revocation, or completing one: the last step of an unpair over a Revoking identity. */
  lemma ResumedUnpair(s: State, t: nat, remote: Key)
    requires Free(s, t) && s.threads[t] == UnpairStart(remote) && s.durable.peer.Revoking? && s.durable.peer.remote == remote
    ensures IsRun(s, Alone(t, 3))
    ensures EndOf(s, Alone(t, 3)) == Put(s, t, Finished).(durable := s.durable.(peer := Unpaired))
  {
    hide IsRun, EndOf, Alone;
    var s1 := Put(s, t, UnpairLocked(remote)).(fileLock := Some(t));
    var s2 := Put(s, t, UnpairFinal(s.durable)).(fileLock := Some(t));
    var s3 := Put(s, t, Finished).(durable := s.durable.(peer := Unpaired));
    assert Next(s, Run(t, Proceed)) == Some(s1);
    assert s1.threads[t := UnpairFinal(s.durable)] == s2.threads;
    assert Next(s1, Run(t, Proceed)) == Some(s2);
    assert s2.threads[t := Finished] == s3.threads;
    assert Next(s2, Run(t, Proceed)) == Some(s3);
    AloneEnds(s3, t);
    AloneStep(s2, t, 1);
    AloneStep(s1, t, 2);
    AloneStep(s, t, 3);
  }

  /** An undisturbed unpair of the stored peer logs one revocation and leaves the store Unpaired, one generation up. */
  lemma UndisturbedUnpair(s: State, t: nat, remote: Key)
    requires Free(s, t) && s.threads[t] == UnpairStart(remote)
    requires !s.durable.peer.Unpaired? && !s.durable.peer.Revoking? && s.durable.peer.remote == remote
    requires s.durable.generation < U64_MAX
    ensures IsRun(s, Alone(t, 7))
    ensures var end, up := EndOf(s, Alone(t, 7)), s.durable.generation + 1;
      && end.durable == Identity(up, Unpaired) && Free(end, t) && end.threads == s.threads[t := Finished]
      && end.log == s.log + [Revocation(Identity(up, Revoking(remote, s.durable.peer.tx)))]
  {
    hide IsRun, EndOf, Alone;
    var next := Revoked(s.durable);
    var renamed := s.(durable := next, log := s.log + [Revocation(next)], fileLock := Some(t));
    var s1 := Put(s, t, UnpairLocked(remote)).(fileLock := Some(t));
    var s2 := Put(s, t, UnpairWantsGate(next)).(fileLock := Some(t));
    var s3 := Put(s, t, UnpairGated(next)).(fileLock := Some(t), gate := Some(t));
    var s4 := Put(renamed, t, UnpairRenamed(next)).(gate := Some(t));
    var s5 := Put(renamed, t, UnpairJoining(next));
    var s6 := Put(renamed, t, UnpairFinal(next));
    var s7 := Put(renamed, t, Finished).(fileLock := None, durable := next.(peer := Unpaired));
    assert Next(s, Run(t, Proceed)) == Some(s1);
    assert s1.threads[t := UnpairWantsGate(next)] == s2.threads;
    assert Next(s1, Run(t, Proceed)) == Some(s2);
    assert s2.threads[t := UnpairGated(next)] == s3.threads;
    assert Next(s2, Run(t, Proceed)) == Some(s3);
    assert s3.threads[t := UnpairRenamed(next)] == s4.threads;
    assert Next(s3, Run(t, Proceed)) == Some(s4);
    assert s4.threads[t := UnpairJoining(next)] == s5.threads;
    assert Next(s4, Run(t, Proceed)) == Some(s5);
    assert s5.threads[t := UnpairFinal(next)] == s6.threads;
    assert Next(s5, Run(t, Proceed)) == Some(s6);
    assert s6.threads[t := Finished] == s7.threads;
    assert Next(s6, Run(t, Proceed)) == Some(s7);
    AloneEnds(s7, t);
    AloneStep(s6, t, 1);
    AloneStep(s5, t, 2);
    AloneStep(s4, t, 3);
    AloneStep(s3, t, 4);
    AloneStep(s2, t, 5);
    AloneStep(s1, t, 6);
    AloneStep(s, t, 7);
  }

  /** An unpair that names a peer the store does not hold ends with nothing changed. */
  lemma ForeignUnpair(s: State, t: nat, remote: Key)
    requires Free(s, t) && s.threads[t] == UnpairStart(remote)
    requires s.durable.peer.Unpaired? || s.durable.peer.remote != remote
    ensures IsRun(s, Alone(t, 2))
    ensures EndOf(s, Alone(t, 2)) == Put(s, t, Finished)
  {
    hide IsRun, EndOf, Alone;
    var s1 := Put(s, t, UnpairLocked(remote)).(fileLock := Some(t));
    assert Next(s, Run(t, Proceed)) == Some(s1);
    assert s1.threads[t := Finished] == s.threads[t := Finished];
    assert Next(s1, Run(t, Proceed)) == Some(Put(s, t, Finished));
    AloneEnds(Put(s, t, Finished), t);
    AloneStep(s1, t, 1);
    AloneStep(s, t, 2);
  }

  /** An undisturbed pairing step stores its peer exactly if that is the next stage of the stored one. */
  lemma UndisturbedSetter(s: State, t: nat, peer: PeerState)
    requires Free(s, t) && s.threads[t] == SetterStart(peer)
    ensures IsRun(s, Alone(t, 2))
    ensures EndOf(s, Alone(t, 2)) == Put(s, t, Finished).(
      durable := if ValidPeerTransition(s.durable.peer, peer) then Identity(s.durable.generation, peer) else s.durable)
  {
    hide IsRun, EndOf, Alone, ValidPeerTransition;
    var s1 := Put(s, t, SetterLocked(peer)).(fileLock := Some(t));
    assert Next(s, Run(t, Proceed)) == Some(s1);
    assert s1.threads[t := Finished] == s.threads[t := Finished];
    AloneEnds(Next(s1, Run(t, Proceed)).value, t);
    AloneStep(s1, t, 1);
    AloneStep(s, t, 2);
  }
}
