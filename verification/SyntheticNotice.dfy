/** The synthetic notice feature: one notice at a time, shown while its expiry timer is armed or running. */
module SyntheticNotice {
  import opened Common
  import opened ApplicationCore

  const NOTICE_LIFETIME_MS: nat := 2000

  datatype Kind = CompositionCheck

  datatype Command = Show(kind: Kind) | Clear

  datatype Effect = ArmExpiryTimer(id: EffectId, delayMs: nat)

  datatype Input =
    | Told(command: Command)
    | TimerArmCompleted(id: EffectId, armed: bool)
    | ExpiryDue(id: EffectId)

  datatype State = Stopped | Idle | Arming(id: EffectId, kind: Kind) | Visible(id: EffectId, kind: Kind)

  datatype Error =
    | AlreadyStarted
    | NotStarted
    | UnexpectedInput
    | IdentityMismatch(expected: EffectId, actual: EffectId)
    | IdentityExhausted

  datatype Feature = Feature(state: State, next: U64)

  datatype Step = Step(feature: Feature, effect: Option<Effect>)

  function ShownKind(f: Feature, kind: Kind): Result<Step, Error> {
    if f.next == U64_MAX then Err(IdentityExhausted)
    else Ok(Step(Feature(Arming(f.next + 1, kind), f.next + 1), Some(ArmExpiryTimer(f.next + 1, NOTICE_LIFETIME_MS))))
  }

  predicate SameKind(f: Feature, input: Input) {
    (f.state.Arming? && input.TimerArmCompleted?) || (f.state.Visible? && input.ExpiryDue?)
  }

  function Applied(f: Feature, input: Input): Result<Step, Error> {
    if f.state.Stopped? then Err(NotStarted)
    else if input.Told? then
      if input.command.Show? then ShownKind(f, input.command.kind) else Ok(Step(f.(state := Idle), None))
    else if !SameKind(f, input) then Err(UnexpectedInput)
    else if f.state.id != input.id then Err(IdentityMismatch(f.state.id, input.id))
    else if input.TimerArmCompleted? && input.armed then Ok(Step(f.(state := Visible(input.id, f.state.kind)), None))
    else Ok(Step(f.(state := Idle), None))
  }

  function Cycled(f: Feature, lifecycle: Lifecycle): Result<Step, Error> {
    match lifecycle
    case Start => if f.state.Stopped? then Ok(Step(f.(state := Idle), None)) else Err(AlreadyStarted)
    case Stop => if f.state.Stopped? then Err(NotStarted) else Ok(Step(f.(state := Stopped), None))
    case SessionInvalidated => Ok(Step(if f.state.Stopped? then f else f.(state := Idle), None))
  }

  function SurfaceOf(f: Feature): Option<Kind> {
    if f.state.Arming? || f.state.Visible? then Some(f.state.kind) else None
  }

  predicate Consistent(f: Feature) {
    f.state.Arming? || f.state.Visible? ==> f.state.id == f.next
  }

  predicate Follows(f: Feature, s: Step) {
    && Consistent(s.feature)
    && (s.effect.None? ==> s.feature.next == f.next)
    && (s.effect.Some? ==> s.effect.value.id == s.feature.next == f.next + 1)
  }

  lemma AppliedFollows(f: Feature, input: Input)
    requires Consistent(f) && Applied(f, input).Ok?
    ensures Follows(f, Applied(f, input).value)
  {
  }

  lemma CycledFollows(f: Feature, lifecycle: Lifecycle)
    requires Consistent(f) && Cycled(f, lifecycle).Ok?
    ensures Follows(f, Cycled(f, lifecycle).value)
  {
  }

  predicate Spent(f: Feature, input: Input)
    requires !input.Told?
  {
    || input.id < f.next
    || (input.id == f.next && (f.state.Stopped? || f.state.Idle? || (f.state.Visible? && input.TimerArmCompleted?)))
  }

  /** A completion is accepted exactly when its timer is the outstanding one in the matching state. */
  lemma AcceptedExactly(f: Feature, input: Input)
    requires !input.Told?
    ensures Applied(f, input).Ok? <==> SameKind(f, input) && f.state.id == input.id
  {
  }

  /** The life of a notice: it is shown at once, its timer is armed for two seconds, and it goes when the timer fires,
      cannot be armed, or the owner clears it. A new notice replaces the old one under a new identity. */
  lemma NoticeLives(f: Feature, kind: Kind)
    requires !f.state.Stopped? && f.next < U64_MAX
    ensures Applied(f, Told(Show(kind))).Ok?
    ensures var id := f.next + 1;
      var shown := Applied(f, Told(Show(kind))).value;
      && shown == Step(Feature(Arming(id, kind), id), Some(ArmExpiryTimer(id, 2000)))
      && SurfaceOf(shown.feature) == Some(kind)
      && Applied(shown.feature, TimerArmCompleted(id, false)) == Ok(Step(Feature(Idle, id), None))
      && Applied(shown.feature, Told(Clear)) == Ok(Step(Feature(Idle, id), None))
      && Applied(shown.feature, TimerArmCompleted(id, true)).Ok?
      && var running := Applied(shown.feature, TimerArmCompleted(id, true)).value;
      && running == Step(Feature(Visible(id, kind), id), None)
      && SurfaceOf(running.feature) == Some(kind)
      && Applied(running.feature, ExpiryDue(id)) == Ok(Step(Feature(Idle, id), None))
      && Applied(running.feature, Told(Clear)) == Ok(Step(Feature(Idle, id), None))
      && SurfaceOf(Feature(Idle, id)) == None
  {
  }

  lemma LifecycleHides(f: Feature)
    ensures f.state.Stopped? ==> Cycled(f, Start) == Ok(Step(Feature(Idle, f.next), None))
    ensures !f.state.Stopped? ==> Cycled(f, Stop) == Ok(Step(Feature(Stopped, f.next), None))
    ensures !f.state.Stopped? ==> Cycled(f, SessionInvalidated) == Ok(Step(Feature(Idle, f.next), None))
    ensures f.state.Stopped? ==> forall input :: Applied(f, input) == Err(NotStarted)
  {
  }

  class SyntheticNoticeFeature {
    var state: State
    var nextEffectId: U64

    ghost function View(): Feature
      reads this
    {
      Feature(state, nextEffectId)
    }

    constructor ()
      ensures View() == Feature(Stopped, 0)
    {
      state, nextEffectId := Stopped, 0;
    }

    constructor Copy(other: SyntheticNoticeFeature)
      ensures View() == other.View()
    {
      state, nextEffectId := other.state, other.nextEffectId;
    }

    method ShownSurface() returns (r: Option<Kind>)
      ensures r == SurfaceOf(View())
    {
      match state {
        case Arming(_, kind) => r := Some(kind);
        case Visible(_, kind) => r := Some(kind);
        case _ => r := None;
      }
    }

    method Apply(input: Input) returns (r: Result<Option<Effect>, Error>)
      modifies this
      ensures match Applied(old(View()), input)
              case Err(e) => r == Err(e)
              case Ok(s) => r == Ok(s.effect) && View() == s.feature
    {
      if state.Stopped? {
        return Err(NotStarted);
      }
      if input.Told? && input.command.Show? {
        if nextEffectId == U64_MAX {
          return Err(IdentityExhausted);
        }
        nextEffectId := nextEffectId + 1;
        state := Arming(nextEffectId, input.command.kind);
        r := Ok(Some(ArmExpiryTimer(nextEffectId, NOTICE_LIFETIME_MS)));
      } else if input.Told? {
        state := Idle;
        r := Ok(None);
      } else if state.Arming? && input.TimerArmCompleted? {
        if state.id != input.id {
          return Err(IdentityMismatch(state.id, input.id));
        }
        state := if input.armed then Visible(state.id, state.kind) else Idle;
        r := Ok(None);
      } else if state.Visible? && input.ExpiryDue? {
        if state.id != input.id {
          return Err(IdentityMismatch(state.id, input.id));
        }
        state := Idle;
        r := Ok(None);
      } else {
        r := Err(UnexpectedInput);
      }
    }

    method ApplyLifecycle(lifecycle: Lifecycle) returns (r: Result<Option<Effect>, Error>)
      modifies this
      ensures match Cycled(old(View()), lifecycle)
              case Err(e) => r == Err(e)
              case Ok(s) => r == Ok(s.effect) && View() == s.feature
    {
      match lifecycle {
        case Start =>
          if !state.Stopped? {
            return Err(AlreadyStarted);
          }
          state := Idle;
        case Stop =>
          if state.Stopped? {
            return Err(NotStarted);
          }
          state := Stopped;
        case SessionInvalidated =>
          if !state.Stopped? {
            state := Idle;
          }
      }
      r := Ok(None);
    }

    method Publish(candidate: SyntheticNoticeFeature)
      modifies this
      ensures View() == old(candidate.View())
    {
      state, nextEffectId := candidate.state, candidate.nextEffectId;
    }

    /** All or nothing: an error leaves the feature as it was. */
    method Transition(input: Input) returns (r: Result<Option<Effect>, Error>)
      modifies this
      ensures match Applied(old(View()), input)
              case Err(e) => r == Err(e) && View() == old(View())
              case Ok(s) => r == Ok(s.effect) && View() == s.feature
    {
      var candidate := new SyntheticNoticeFeature.Copy(this);
      r := candidate.Apply(input);
      if r.Ok? {
        Publish(candidate);
      }
    }

    method OnLifecycle(lifecycle: Lifecycle) returns (r: Result<Option<Effect>, Error>)
      modifies this
      ensures match Cycled(old(View()), lifecycle)
              case Err(e) => r == Err(e) && View() == old(View())
              case Ok(s) => r == Ok(s.effect) && View() == s.feature
    {
      var candidate := new SyntheticNoticeFeature.Copy(this);
      r := candidate.ApplyLifecycle(lifecycle);
      if r.Ok? {
        Publish(candidate);
      }
    }
  }
}
