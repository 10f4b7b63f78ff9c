/** The availability feature: read, arm a refresh timer, wait, read again. Every transition is made on a candidate
    copy, which replaces the feature only when the transition succeeds. */
module Availability {
  import opened Common
  import opened ApplicationCore

  const REFRESH_DELAY_MS: nat := 5000

  datatype Report = Available | Unavailable

  datatype Surface = Unknown | ShownAvailable | ShownUnavailable

  datatype Request = ReadAvailability | ArmRefreshTimer(delayMs: nat)

  datatype Effect = Effect(id: EffectId, request: Request)

  datatype Input =
    | ReadCompleted(id: EffectId, reading: Option<Report>)
    | TimerArmCompleted(id: EffectId, armed: bool)
    | RefreshDue(id: EffectId)

  datatype State = Stopped | Reading(id: EffectId) | ArmingRefresh(id: EffectId) | Waiting(id: EffectId)

  datatype Error =
    | AlreadyStarted
    | NotStarted
    | UnexpectedInput
    | IdentityMismatch(expected: EffectId, actual: EffectId)
    | IdentityExhausted

  datatype Feature = Feature(state: State, surface: Surface, next: U64)

  datatype Step = Step(feature: Feature, effect: Option<Effect>)

  // The transitions that succeed, and the first error of those that do not.

  function Allocated(f: Feature, request: Request): Result<Step, Error> {
    if f.next == U64_MAX then Err(IdentityExhausted)
    else Ok(Step(f.(next := f.next + 1), Some(Effect(f.next + 1, request))))
  }

  function Shown(reading: Option<Report>): Surface {
    match reading
    case None => Unknown
    case Some(Available) => ShownAvailable
    case Some(Unavailable) => ShownUnavailable
  }

  function Begun(f: Feature): Result<Step, Error> {
    match Allocated(f, ReadAvailability)
    case Err(e) => Err(e)
    case Ok(s) => Ok(s.(feature := s.feature.(state := Reading(s.effect.value.id))))
  }

  function Armed(f: Feature): Result<Step, Error> {
    match Allocated(f, ArmRefreshTimer(REFRESH_DELAY_MS))
    case Err(e) => Err(e)
    case Ok(s) => Ok(s.(feature := s.feature.(state := ArmingRefresh(s.effect.value.id))))
  }

  /** The input a state waits for, if it carries the right identity. */
  predicate Expects(f: Feature, input: Input) {
    match input
    case ReadCompleted(id, _) => f.state == Reading(id)
    case TimerArmCompleted(id, _) => f.state == ArmingRefresh(id)
    case RefreshDue(id) => f.state == Waiting(id)
  }

  predicate SameKind(f: Feature, input: Input) {
    match input
    case ReadCompleted(_, _) => f.state.Reading?
    case TimerArmCompleted(_, _) => f.state.ArmingRefresh?
    case RefreshDue(_) => f.state.Waiting?
  }

  function Applied(f: Feature, input: Input): Result<Step, Error> {
    if !SameKind(f, input) then Err(UnexpectedInput)
    else if f.state.id != input.id then Err(IdentityMismatch(f.state.id, input.id))
    else match input
      case ReadCompleted(_, reading) => Armed(f.(surface := Shown(reading)))
      case TimerArmCompleted(id, armed) =>
        Ok(Step(if armed then f.(state := Waiting(id)) else f.(state := Stopped, surface := Unknown), None))
      case RefreshDue(_) => Begun(f)
  }

  function Cycled(f: Feature, lifecycle: Lifecycle): Result<Step, Error> {
    match lifecycle
    case Start => if f.state.Stopped? then Begun(f.(surface := Unknown)) else Err(AlreadyStarted)
    case Stop => if f.state.Stopped? then Err(NotStarted) else Ok(Step(f.(state := Stopped, surface := Unknown), None))
    case SessionInvalidated =>
      if f.state.Stopped? then Ok(Step(f, None))
      else if f.state.Reading? then Applied(f, ReadCompleted(f.state.id, None))
      else Ok(Step(f.(surface := Unknown), None))
  }

  function SurfaceOf(f: Feature): Option<Surface> {
    if f.state.Stopped? then None else Some(f.surface)
  }

  /** The outstanding identity is always the one given last; a stopped feature shows nothing. */
  predicate Consistent(f: Feature) {
    if f.state.Stopped? then f.surface == Unknown else f.state.id == f.next
  }

  /** What every successful transition keeps: identities are handed out in order, one at a time. */
  predicate Follows(f: Feature, s: Step) {
    && Consistent(s.feature)
    && (s.effect.None? ==> s.feature.next == f.next)
    && (s.effect.Some? ==> s.effect.value.id == s.feature.next == f.next + 1)
  }

  lemma AppliedFollows(f: Feature, input: Input)
    requires Consistent(f) && Applied(f, input).Ok?
    ensures Follows(f, Applied(f, input).value)
  {
  }

  lemma CycledFollows(f: Feature, lifecycle: Lifecycle)
    requires Consistent(f) && Cycled(f, lifecycle).Ok?
    ensures Follows(f, Cycled(f, lifecycle).value)
  {
  }

  /** An input is accepted exactly when it is the one the state waits for, under the outstanding identity, and a
      new identity is left for the effect it needs. */
  lemma AcceptedExactly(f: Feature, input: Input)
    ensures Applied(f, input).Ok? <==> Expects(f, input) && (input.TimerArmCompleted? || f.next < U64_MAX)
  {
  }

  /** Nothing will ever wait for this completion again. */
  predicate Spent(f: Feature, input: Input) {
    input.id < f.next || (input.id == f.next && input.TimerArmCompleted? && (f.state.Waiting? || f.state.Stopped?))
  }

  /** An accepted completion is spent, and stays spent whatever happens. */
  lemma AcceptedIsSpent(f: Feature, input: Input)
    requires Consistent(f) && Applied(f, input).Ok?
    ensures Spent(Applied(f, input).value.feature, input)
  {
  }

  lemma SpentStays(f: Feature, input: Input, s: Step)
    requires Consistent(f) && Spent(f, input)
    requires (exists other :: Applied(f, other) == Ok(s)) || (exists lifecycle :: Cycled(f, lifecycle) == Ok(s))
    ensures Spent(s.feature, input)
  {
  }

  lemma SpentIsRejected(f: Feature, input: Input)
    requires Consistent(f) && Spent(f, input)
    ensures Applied(f, input).Err?
  {
  }

  // What a running feature does.

  /** The feature after inputs that are all accepted. */
  function Fed(f: Feature, inputs: seq<Input>): Option<Feature>
    decreases |inputs|
  {
    if |inputs| == 0 then Some(f)
    else
      match Applied(f, inputs[0])
      case Err(_) => None
      case Ok(s) => Fed(s.feature, inputs[1..])
  }

  /** The refresh timer fires, availability is read, and the timer is armed again. */
  function Refresh(last: nat, reading: Option<Report>): seq<Input>
    requires 0 < last && last + 2 <= U64_MAX
  {
    [RefreshDue(last), ReadCompleted(last + 1, reading), TimerArmCompleted(last + 2, true)]
  }

  function Refreshes(last: nat, readings: seq<Option<Report>>): seq<Input>
    requires 0 < last && last + 2 * |readings| <= U64_MAX
    decreases |readings|
  {
    if |readings| == 0 then [] else Refresh(last, readings[0]) + Refreshes(last + 2, readings[1..])
  }

  /** One refresh: a read is requested while the old surface stays, its answer is shown, and the next refresh is
      armed for five seconds later. */
  lemma RefreshShows(f: Feature, reading: Option<Report>)
    requires f.state.Waiting? && f.state.id == f.next && f.next + 2 <= U64_MAX
    ensures var inputs := Refresh(f.next, reading);
      && Applied(f, inputs[0]).Ok?
      && var begun := Applied(f, inputs[0]).value;
      && begun == Step(Feature(Reading(f.next + 1), f.surface, f.next + 1), Some(Effect(f.next + 1, ReadAvailability)))
      && Applied(begun.feature, inputs[1]).Ok?
      && var arms := Applied(begun.feature, inputs[1]).value;
      && arms.effect == Some(Effect(f.next + 2, ArmRefreshTimer(5000)))
      && arms.feature.state == ArmingRefresh(f.next + 2) && arms.feature.next == f.next + 2
      && (arms.feature.surface == ShownAvailable <==> reading == Some(Available))
      && (arms.feature.surface == ShownUnavailable <==> reading == Some(Unavailable))
      && Applied(arms.feature, inputs[2]) == Ok(Step(arms.feature.(state := Waiting(f.next + 2)), None))
  {
  }

  /** Any number of refreshes are all accepted, and the surface is what the last one read. */
  lemma {:induction false} RefreshesForever(f: Feature, readings: seq<Option<Report>>)
    requires f.state.Waiting? && f.state.id == f.next && f.next + 2 * |readings| <= U64_MAX
    ensures var last := Fed(f, Refreshes(f.next, readings));
      && last.Some?
      && last.value.next == f.next + 2 * |readings| && last.value.state.Waiting? && last.value.state.id == last.value.next
      && (|readings| == 0 ==> last.value == f)
      && (|readings| > 0 ==>
            && (last.value.surface == ShownAvailable <==> readings[|readings| - 1] == Some(Available))
            && (last.value.surface == ShownUnavailable <==> readings[|readings| - 1] == Some(Unavailable)))
    decreases |readings|
  {
    if |readings| > 0 {
      RefreshShows(f, readings[0]);
      var inputs, rest := Refresh(f.next, readings[0]), Refreshes(f.next + 2, readings[1..]);
      var begun := Applied(f, inputs[0]).value.feature;
      var arms := Applied(begun, inputs[1]).value.feature;
      var waits := arms.(state := Waiting(f.next + 2));
      hide Applied;
      assert (inputs + rest)[1..][1..][1..] == rest;
      assert Fed(waits, rest) == Fed(arms, (inputs + rest)[1..][1..]) == Fed(begun, (inputs + rest)[1..]);
      RefreshesForever(waits, readings[1..]);
    }
  }

  /** Starting asks for a reading and shows nothing known; stopping shows nothing; an invalidated session forgets the
      surface at once, and ends a reading that is under way as if it had failed. */
  lemma LifecycleShows(f: Feature)
    ensures f.state.Stopped? && f.next < U64_MAX ==>
      Cycled(f, Start) == Ok(Step(Feature(Reading(f.next + 1), Unknown, f.next + 1), Some(Effect(f.next + 1, ReadAvailability))))
    ensures !f.state.Stopped? ==> Cycled(f, Stop) == Ok(Step(Feature(Stopped, Unknown, f.next), None))
    ensures f.state.Reading? && f.next < U64_MAX ==>
      Cycled(f, SessionInvalidated)
      == Ok(Step(Feature(ArmingRefresh(f.next + 1), Unknown, f.next + 1), Some(Effect(f.next + 1, ArmRefreshTimer(5000)))))
    ensures f.state.ArmingRefresh? || f.state.Waiting? ==>
      Cycled(f, SessionInvalidated) == Ok(Step(Feature(f.state, Unknown, f.next), None))
    ensures f.state.ArmingRefresh? ==>
      Applied(f, TimerArmCompleted(f.state.id, false)) == Ok(Step(Feature(Stopped, Unknown, f.next), None))
  {
  }

  class AvailabilityFeature {
    var state: State
    var surface: Surface
    var nextEffectId: U64

    ghost function View(): Feature
      reads this
    {
      Feature(state, surface, nextEffectId)
    }

    constructor ()
      ensures View() == Feature(Stopped, Unknown, 0)
    {
      state, surface, nextEffectId := Stopped, Unknown, 0;
    }

    constructor Copy(other: AvailabilityFeature)
      ensures View() == other.View()
    {
      state, surface, nextEffectId := other.state, other.surface, other.nextEffectId;
    }

    method ShownSurface() returns (r: Option<Surface>)
      ensures r == SurfaceOf(View())
    {
      r := if state.Stopped? then None else Some(surface);
    }

    method Allocate(request: Request) returns (r: Result<Effect, Error>)
      modifies this`nextEffectId
      ensures match Allocated(old(View()), request)
              case Err(e) => r == Err(e) && View() == old(View())
              case Ok(s) => r == Ok(s.effect.value) && View() == s.feature
    {
      if nextEffectId == U64_MAX {
        return Err(IdentityExhausted);
      }
      nextEffectId := nextEffectId + 1;
      r := Ok(Effect(nextEffectId, request));
    }

    /** Works on a candidate: after an error its fields are whatever the attempt left in them. */
    method Apply(input: Input) returns (r: Result<Option<Effect>, Error>)
      modifies this
      ensures match Applied(old(View()), input)
              case Err(e) => r == Err(e)
              case Ok(s) => r == Ok(s.effect) && View() == s.feature
    {
      if state.Reading? && input.ReadCompleted? {
        if state.id != input.id {
          return Err(IdentityMismatch(state.id, input.id));
        }
        surface := Shown(input.reading);
        var given := Allocate(ArmRefreshTimer(REFRESH_DELAY_MS));
        if given.Err? {
          return Err(given.error);
        }
        state := ArmingRefresh(given.value.id);
        r := Ok(Some(given.value));
      } else if state.ArmingRefresh? && input.TimerArmCompleted? {
        if state.id != input.id {
          return Err(IdentityMismatch(state.id, input.id));
        }
        if input.armed {
          state := Waiting(state.id);
        } else {
          state, surface := Stopped, Unknown;
        }
        r := Ok(None);
      } else if state.Waiting? && input.RefreshDue? {
        if state.id != input.id {
          return Err(IdentityMismatch(state.id, input.id));
        }
        var given := Allocate(ReadAvailability);
        if given.Err? {
          return Err(given.error);
        }
        state := Reading(given.value.id);
        r := Ok(Some(given.value));
      } else {
        r := Err(UnexpectedInput);
      }
    }

    method Invalidate() returns (r: Result<Option<Effect>, Error>)
      modifies this
      ensures match Cycled(old(View()), SessionInvalidated)
              case Err(e) => r == Err(e)
              case Ok(s) => r == Ok(s.effect) && View() == s.feature
    {
      match state {
        case Stopped => r := Ok(None);
        case Reading(id) => r := Apply(ReadCompleted(id, None));
        case _ =>
          surface := Unknown;
          r := Ok(None);
      }
    }

    method ApplyLifecycle(lifecycle: Lifecycle) returns (r: Result<Option<Effect>, Error>)
      modifies this
      ensures match Cycled(old(View()), lifecycle)
              case Err(e) => r == Err(e)
              case Ok(s) => r == Ok(s.effect) && View() == s.feature
    {
      match lifecycle {
        case Start =>
          if !state.Stopped? {
            return Err(AlreadyStarted);
          }
          surface := Unknown;
          var given := Allocate(ReadAvailability);
          if given.Err? {
            return Err(given.error);
          }
          state := Reading(given.value.id);
          r := Ok(Some(given.value));
        case Stop =>
          if state.Stopped? {
            return Err(NotStarted);
          }
          state, surface := Stopped, Unknown;
          r := Ok(None);
        case SessionInvalidated =>
          r := Invalidate();
      }
    }

    method Publish(candidate: AvailabilityFeature)
      modifies this
      ensures View() == old(candidate.View())
    {
      state, surface, nextEffectId := candidate.state, candidate.surface, candidate.nextEffectId;
    }

    /** All or nothing: an error leaves the feature as it was. */
    method Transition(input: Input) returns (r: Result<Option<Effect>, Error>)
      modifies this
      ensures match Applied(old(View()), input)
              case Err(e) => r == Err(e) && View() == old(View())
              case Ok(s) => r == Ok(s.effect) && View() == s.feature
    {
      var candidate := new AvailabilityFeature.Copy(this);
      r := candidate.Apply(input);
      if r.Ok? {
        Publish(candidate);
      }
    }

    method OnLifecycle(lifecycle: Lifecycle) returns (r: Result<Option<Effect>, Error>)
      modifies this
      ensures match Cycled(old(View()), lifecycle)
              case Err(e) => r == Err(e) && View() == old(View())
              case Ok(s) => r == Ok(s.effect) && View() == s.feature
    {
      var candidate := new AvailabilityFeature.Copy(this);
      r := candidate.ApplyLifecycle(lifecycle);
      if r.Ok? {
        Publish(candidate);
      }
    }
  }
}
