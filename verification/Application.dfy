/** The application: two features composed, with routed completions, broadcast lifecycle and one published view. */
module Application {
  import opened Common
  import opened ApplicationCore
  import A = Availability
  import N = SyntheticNotice

  datatype FeatureId = AvailabilityId | NoticeId

  datatype AppEffectId = AppEffectId(feature: FeatureId, local: EffectId)

  datatype Request = ForAvailability(request: A.Request) | ForNotice(delayMs: nat)

  datatype Effect = Effect(id: AppEffectId, request: Request)

  datatype Board<T> = Board(content: T, focused: bool)

  datatype Views = Views(availability: Option<Board<A.Surface>>, notice: Option<Board<N.Kind>>)

  datatype Input =
    | OnLifecycle(lifecycle: Lifecycle)
    | AvailabilityEffect(id: AppEffectId, availability: A.Input)
    | NoticeCommand(command: N.Command)
    | NoticeEffect(id: AppEffectId, notice: N.Input)

  datatype Error =
    | AlreadyStarted
    | NotStarted
    | AvailabilityRejected(availability: A.Error)
    | NoticeRejected(notice: N.Error)
    | FeatureMismatch(expectedFeature: FeatureId, actualFeature: FeatureId)
    | IdentityMismatch(expected: EffectId, actual: EffectId)
    | UnexpectedEffectInput
    | EffectBatchExhausted

  const FEATURE_COUNT: nat := 2

  datatype AppState = Stopped | Running

  datatype App = App(state: AppState, availability: A.Feature, notice: N.Feature, view: Views)

  datatype Step = Step(app: App, effects: seq<Effect>)

  function CurrentViews(a: A.Feature, n: N.Feature): Views {
    var notice := N.SurfaceOf(n);
    Views(match A.SurfaceOf(a) { case None => None case Some(s) => Some(Board(s, notice.None?)) },
          match notice { case None => None case Some(k) => Some(Board(k, true)) })
  }

  function WrapA(e: Option<A.Effect>): seq<Effect> {
    if e.None? then [] else [Effect(AppEffectId(AvailabilityId, e.value.id), ForAvailability(e.value.request))]
  }

  function WrapN(e: Option<N.Effect>): seq<Effect> {
    if e.None? then [] else [Effect(AppEffectId(NoticeId, e.value.id), ForNotice(e.value.delayMs))]
  }

  function Validated(id: AppEffectId, expected: FeatureId, local: EffectId): Option<Error> {
    if id.feature != expected then Some(FeatureMismatch(expected, id.feature))
    else if id.local != local then Some(IdentityMismatch(id.local, local))
    else None
  }

  function WithAvailability(a: App, r: Result<A.Step, A.Error>): Result<Step, Error> {
    match r
    case Err(e) => Err(AvailabilityRejected(e))
    case Ok(s) => Ok(Step(a.(availability := s.feature), WrapA(s.effect)))
  }

  function WithNotice(a: App, r: Result<N.Step, N.Error>): Result<Step, Error> {
    match r
    case Err(e) => Err(NoticeRejected(e))
    case Ok(s) => Ok(Step(a.(notice := s.feature), WrapN(s.effect)))
  }

  function Cycled(a: App, lifecycle: Lifecycle): Result<Step, Error> {
    if a.state.Running? && lifecycle.Start? then Err(AlreadyStarted)
    else if a.state.Stopped? && lifecycle.Stop? then Err(NotStarted)
    else match WithAvailability(a, A.Cycled(a.availability, lifecycle))
      case Err(e) => Err(e)
      case Ok(first) =>
        match WithNotice(first.app, N.Cycled(a.notice, lifecycle))
        case Err(e) => Err(e)
        case Ok(second) =>
          var state := match lifecycle case Start => Running case Stop => Stopped case SessionInvalidated => a.state;
          Ok(Step(second.app.(state := state), first.effects + second.effects))
  }

  function Routed(a: App, input: Input): Result<Step, Error> {
    match input
    case OnLifecycle(lifecycle) => Cycled(a, lifecycle)
    case AvailabilityEffect(id, i) =>
      if a.state.Stopped? then Err(NotStarted)
      else
        var invalid := Validated(id, AvailabilityId, i.id);
        if invalid.Some? then Err(invalid.value) else WithAvailability(a, A.Applied(a.availability, i))
    case NoticeCommand(command) =>
      if a.state.Stopped? then Err(NotStarted) else WithNotice(a, N.Applied(a.notice, N.Told(command)))
    case NoticeEffect(id, i) =>
      if a.state.Stopped? then Err(NotStarted)
      else if i.Told? then Err(UnexpectedEffectInput)
      else
        var invalid := Validated(id, NoticeId, i.id);
        if invalid.Some? then Err(invalid.value) else WithNotice(a, N.Applied(a.notice, i))
  }

  /** One transition: the routed change with the view it leads to, or an error and no change at all. */
  function Transitioned(a: App, input: Input): Result<Step, Error> {
    match Routed(a, input)
    case Err(e) => Err(e)
    case Ok(s) => Ok(s.(app := s.app.(view := CurrentViews(s.app.availability, s.app.notice))))
  }

  const INITIAL := App(Stopped, A.Feature(A.Stopped, A.Unknown, 0), N.Feature(N.Stopped, 0), Views(None, None))

  function After(a: App, inputs: seq<Input>): App
    decreases |inputs|
  {
    if inputs == [] then a
    else
      var before := After(a, inputs[..|inputs| - 1]);
      match Transitioned(before, inputs[|inputs| - 1])
      case Err(_) => before
      case Ok(s) => s.app
  }

  /** Every effect requested in a run, in order. */
  function Emitted(a: App, inputs: seq<Input>): seq<Effect>
    decreases |inputs|
  {
    if inputs == [] then []
    else
      var before := After(a, inputs[..|inputs| - 1]);
      Emitted(a, inputs[..|inputs| - 1]) +
      match Transitioned(before, inputs[|inputs| - 1])
      case Err(_) => []
      case Ok(s) => s.effects
  }

  // What every state keeps.

  predicate Consistent(a: App) {
    && A.Consistent(a.availability) && N.Consistent(a.notice)
    && (a.state.Stopped? ==> a.availability.state.Stopped? && a.notice.state.Stopped?)
    && (a.state.Running? ==> !a.notice.state.Stopped?)
    && a.view == CurrentViews(a.availability, a.notice)
  }

  function Next(a: App, f: FeatureId): U64 {
    if f.AvailabilityId? then a.availability.next else a.notice.next
  }

  /** Each feature's identities come one at a time and in order; a transition requests at most one effect of each
      feature. */
  ghost predicate Follows(a: App, s: Step) {
    && |s.effects| <= FEATURE_COUNT
    && (forall f :: Next(s.app, f) == Next(a, f) + |Of(s.effects, f)|)
    && (forall e :: e in s.effects ==> e.id.local == Next(s.app, e.id.feature))
    && (|s.effects| == 2 ==> s.effects[0].id.feature != s.effects[1].id.feature)
  }

  function Of(effects: seq<Effect>, f: FeatureId): seq<Effect> {
    if effects == [] then []
    else Of(effects[..|effects| - 1], f)
         + if effects[|effects| - 1].id.feature == f then [effects[|effects| - 1]] else []
  }

  lemma CountsAtMostOne(effects: seq<Effect>)
    requires |effects| <= 1
    ensures forall f :: |Of(effects, f)| == if effects != [] && effects[0].id.feature == f then 1 else 0
  {
    assert effects != [] ==> effects[..|effects| - 1] == [];
  }

  /** What one change of each feature makes of the application. */
  predicate Changed(a: App, s: Step, f: Option<A.Effect>, g: Option<N.Effect>) {
    && A.Follows(a.availability, A.Step(s.app.availability, f))
    && N.Follows(a.notice, N.Step(s.app.notice, g))
    && s.effects == WrapA(f) + WrapN(g) && (f.None? || g.None?)
  }

  lemma ChangedFollows(a: App, s: Step, f: Option<A.Effect>, g: Option<N.Effect>)
    requires Changed(a, s, f, g)
    ensures Follows(a, s)
  {
    CountsAtMostOne(s.effects);
    hide Of;
  }

  lemma RoutedChanges(a: App, input: Input) returns (f: Option<A.Effect>, g: Option<N.Effect>)
    requires Consistent(a) && Routed(a, input).Ok?
    ensures Changed(a, Routed(a, input).value, f, g)
  {
    hide CurrentViews, A.Cycled, N.Cycled, A.Applied, N.Applied, A.Follows, N.Follows;
    f, g := None, None;
    UnchangedFollows(a);
    match input {
      case OnLifecycle(lifecycle) =>
        A.CycledFollows(a.availability, lifecycle);
        N.CycledFollows(a.notice, lifecycle);
        NoticeCyclesSilently(a.notice, lifecycle);
        f := A.Cycled(a.availability, lifecycle).value.effect;
      case AvailabilityEffect(_, i) =>
        A.AppliedFollows(a.availability, i);
        f := A.Applied(a.availability, i).value.effect;
      case NoticeCommand(c) =>
        N.AppliedFollows(a.notice, N.Told(c));
        g := N.Applied(a.notice, N.Told(c)).value.effect;
      case NoticeEffect(_, i) =>
        N.AppliedFollows(a.notice, i);
        g := N.Applied(a.notice, i).value.effect;
    }
    assert WrapA(f) + [] == WrapA(f) && [] + WrapN(g) == WrapN(g);
  }

  lemma UnchangedFollows(a: App)
    requires Consistent(a)
    ensures A.Follows(a.availability, A.Step(a.availability, None)) && N.Follows(a.notice, N.Step(a.notice, None))
  {
  }

  lemma NoticeCyclesSilently(n: N.Feature, lifecycle: Lifecycle)
    requires N.Cycled(n, lifecycle).Ok?
    ensures N.Cycled(n, lifecycle).value.effect.None?
  {
  }

  /** The application and its features stop and start together. */
  lemma RoutedStates(a: App, input: Input)
    requires Consistent(a) && Routed(a, input).Ok?
    ensures var s := Routed(a, input).value.app;
      && (s.state.Stopped? ==> s.availability.state.Stopped? && s.notice.state.Stopped?)
      && (s.state.Running? ==> !s.notice.state.Stopped?)
  {
    hide CurrentViews;
  }

  lemma RoutedKeeps(a: App, input: Input)
    requires Consistent(a) && Routed(a, input).Ok?
    ensures var s := Routed(a, input).value;
      Consistent(s.app.(view := CurrentViews(s.app.availability, s.app.notice))) && Follows(a, s)
  {
    hide CurrentViews, Routed, Follows;
    var f, g := RoutedChanges(a, input);
    RoutedStates(a, input);
    ChangedFollows(a, Routed(a, input).value, f, g);
  }

  lemma StepKeeps(a: App, input: Input)
    requires Consistent(a) && Transitioned(a, input).Ok?
    ensures Consistent(Transitioned(a, input).value.app) && Follows(a, Transitioned(a, input).value)
  {
    hide CurrentViews, Routed, Consistent, Of;
    RoutedKeeps(a, input);
    var s := Routed(a, input).value;
    var t := Transitioned(a, input).value;
    assert forall f :: Next(t.app, f) == Next(s.app, f);
  }

  /** In every run a stopped application has two stopped features, and the published view is the current one. */
  lemma {:induction false} RunKeepsConsistent(inputs: seq<Input>)
    ensures Consistent(After(INITIAL, inputs))
  {
    hide Consistent, Transitioned;
    if inputs == [] {
      InitialIsConsistent();
    } else {
      var before := After(INITIAL, inputs[..|inputs| - 1]);
      RunKeepsConsistent(inputs[..|inputs| - 1]);
      if Transitioned(before, inputs[|inputs| - 1]).Ok? {
        StepKeeps(before, inputs[|inputs| - 1]);
      }
    }
  }

  lemma InitialIsConsistent()
    ensures Consistent(INITIAL)
  {
  }

  /** Whenever a board is visible exactly one is focused, and a visible notice is the focused one. */
  lemma ExactlyOneFocus(inputs: seq<Input>)
    ensures var v := After(INITIAL, inputs).view;
      && (v.availability.Some? || v.notice.Some? ==>
            (v.availability.Some? && v.availability.value.focused) != (v.notice.Some? && v.notice.value.focused))
      && (v.notice.Some? ==> v.notice.value.focused)
      && v == CurrentViews(After(INITIAL, inputs).availability, After(INITIAL, inputs).notice)
  {
    RunKeepsConsistent(inputs);
  }

  // Effect identities.

  predicate IdsInOrder(effects: seq<Effect>) {
    forall i: nat, j: nat :: i < j < |effects| && effects[i].id.feature == effects[j].id.feature
      ==> effects[i].id.local < effects[j].id.local
  }

  predicate IdsKnown(a: App, effects: seq<Effect>) {
    forall e :: e in effects ==> e.id.local <= Next(a, e.id.feature)
  }

  lemma {:induction false} OfAppends(effects: seq<Effect>, e: Effect, f: FeatureId)
    ensures Of(effects + [e], f) == Of(effects, f) + if e.id.feature == f then [e] else []
  {
    assert (effects + [e])[..|effects|] == effects;
  }

  lemma CountsOne(effects: seq<Effect>, e: Effect)
    requires e in effects && |effects| <= 2
    ensures |Of(effects, e.id.feature)| >= 1
  {
    if |effects| == 2 {
      OfAppends([effects[0]], effects[1], e.id.feature);
      OfAppends([], effects[0], e.id.feature);
      assert effects == [effects[0]] + [effects[1]] && [effects[0]] == [] + [effects[0]];
    }
  }

  lemma OrderGrows(a: App, effects: seq<Effect>, s: Step)
    requires IdsInOrder(effects) && IdsKnown(a, effects) && Follows(a, s)
    ensures IdsInOrder(effects + s.effects) && IdsKnown(s.app, effects + s.effects)
  {
    hide Of;
    var all := effects + s.effects;
    forall e | e in s.effects ensures Next(a, e.id.feature) < e.id.local {
      CountsOne(s.effects, e);
    }
    forall i: nat, j: nat | i < j < |all| && all[i].id.feature == all[j].id.feature
      ensures all[i].id.local < all[j].id.local
    {
      assert i < |effects| ==> all[i] in effects;
      assert j >= |effects| ==> all[j] in s.effects;
    }
    forall e | e in all ensures e.id.local <= Next(s.app, e.id.feature) {
      assert e in effects || e in s.effects;
    }
  }

  /** Over every run, however often the application stops and starts, each feature's identities strictly increase:
      none is ever used twice. */
  lemma {:induction false} IdentitiesIncrease(inputs: seq<Input>)
    ensures IdsInOrder(Emitted(INITIAL, inputs))
    ensures IdsKnown(After(INITIAL, inputs), Emitted(INITIAL, inputs))
  {
    hide Transitioned, Consistent, IdsInOrder, IdsKnown, Follows;
    if inputs == [] {
      NothingEmitted(INITIAL);
    } else {
      var n := |inputs| - 1;
      var before := After(INITIAL, inputs[..n]);
      IdentitiesIncrease(inputs[..n]);
      if Transitioned(before, inputs[n]).Ok? {
        RunKeepsConsistent(inputs[..n]);
        StepKeeps(before, inputs[n]);
        OrderGrows(before, Emitted(INITIAL, inputs[..n]), Transitioned(before, inputs[n]).value);
      } else {
        assert Emitted(INITIAL, inputs) == Emitted(INITIAL, inputs[..n]);
      }
    }
  }

  lemma NothingEmitted(a: App)
    ensures IdsInOrder([]) && IdsKnown(a, [])
  {
  }

  // Completions.

  /** The input is a completion the application waits for, under the outstanding identity of its feature. */
  predicate Outstanding(a: App, input: Input) {
    match input
    case AvailabilityEffect(id, i) =>
      a.state.Running? && id == AppEffectId(AvailabilityId, i.id) && A.Expects(a.availability, i)
    case NoticeEffect(id, i) =>
      && a.state.Running? && !i.Told? && id == AppEffectId(NoticeId, i.id)
      && N.SameKind(a.notice, i) && a.notice.state.id == i.id
    case _ => false
  }

  predicate Completion(input: Input) {
    input.AvailabilityEffect? || input.NoticeEffect?
  }

  /** A completion has an effect exactly when it is outstanding and a new identity is left for what follows it;
      otherwise it is an error and the whole application stays as it was. */
  lemma CompletedExactly(a: App, input: Input)
    requires Completion(input)
    ensures Transitioned(a, input).Ok? <==>
      && Outstanding(a, input)
      && (input.AvailabilityEffect? && !input.availability.TimerArmCompleted? ==> a.availability.next < U64_MAX)
  {
    hide CurrentViews;
    match input {
      case AvailabilityEffect(_, i) => A.AcceptedExactly(a.availability, i);
      case NoticeEffect(_, i) =>
        if !i.Told? {
          N.AcceptedExactly(a.notice, i);
        }
    }
  }

  function CompletionId(input: Input): AppEffectId
    requires Completion(input)
  {
    input.id
  }

  /** Once a later effect of the same feature has been requested, a completion of the earlier one is ignored. */
  lemma LateCompletionIsIgnored(inputs: seq<Input>, i: nat, j: nat, late: Input)
    requires i < j < |Emitted(INITIAL, inputs)| && Completion(late)
    requires Emitted(INITIAL, inputs)[i].id.feature == Emitted(INITIAL, inputs)[j].id.feature
    requires CompletionId(late) == Emitted(INITIAL, inputs)[i].id
    ensures Transitioned(After(INITIAL, inputs), late).Err?
    ensures After(INITIAL, inputs + [late]) == After(INITIAL, inputs)
  {
    hide Transitioned, CurrentViews;
    var a := After(INITIAL, inputs);
    IdentitiesIncrease(inputs);
    RunKeepsConsistent(inputs);
    assert Emitted(INITIAL, inputs)[j] in Emitted(INITIAL, inputs);
    CompletedExactly(a, late);
    assert (inputs + [late])[..|inputs|] == inputs;
  }

  /** Nothing of this completion is outstanding, now or ever after. */
  predicate Spent(a: App, input: Input) {
    match input
    case AvailabilityEffect(id, i) => id == AppEffectId(AvailabilityId, i.id) && A.Spent(a.availability, i)
    case NoticeEffect(id, i) => !i.Told? && id == AppEffectId(NoticeId, i.id) && N.Spent(a.notice, i)
    case _ => false
  }

  lemma AcceptedIsSpent(a: App, input: Input)
    requires Consistent(a) && Completion(input) && Transitioned(a, input).Ok?
    ensures Spent(Transitioned(a, input).value.app, input)
  {
    hide CurrentViews;
  }

  lemma SpentStays(a: App, input: Input, other: Input)
    requires Consistent(a) && Spent(a, input) && Transitioned(a, other).Ok?
    ensures Spent(Transitioned(a, other).value.app, input)
  {
    hide CurrentViews;
  }

  lemma SpentIsRejected(a: App, input: Input)
    requires Consistent(a) && Spent(a, input)
    ensures Transitioned(a, input).Err?
  {
    hide CurrentViews;
  }

  lemma {:induction false} SpentForever(inputs: seq<Input>, k: nat, input: Input)
    requires k <= |inputs| && Spent(After(INITIAL, inputs[..k]), input)
    ensures Spent(After(INITIAL, inputs), input)
    decreases |inputs|
  {
    hide Spent, Transitioned;
    var n := |inputs| - 1;
    if k == |inputs| {
      assert inputs[..k] == inputs;
    } else {
      assert inputs[..n][..k] == inputs[..k];
      SpentForever(inputs[..n], k, input);
      RunKeepsConsistent(inputs[..n]);
      if Transitioned(After(INITIAL, inputs[..n]), inputs[n]).Ok? {
        SpentStays(After(INITIAL, inputs[..n]), input, inputs[n]);
      }
    }
  }

  /** No completion is accepted twice: after it has had its effect, the same one is rejected for ever. */
  lemma NoCompletionTwice(inputs: seq<Input>, k: nat)
    requires k < |inputs| && Completion(inputs[k])
    requires Transitioned(After(INITIAL, inputs[..k]), inputs[k]).Ok?
    ensures Transitioned(After(INITIAL, inputs), inputs[k]).Err?
  {
    hide Spent, Transitioned, Consistent;
    RunKeepsConsistent(inputs[..k]);
    RunKeepsConsistent(inputs);
    AcceptedIsSpent(After(INITIAL, inputs[..k]), inputs[k]);
    assert inputs[..k + 1][..k] == inputs[..k];
    SpentForever(inputs, k + 1, inputs[k]);
    SpentIsRejected(After(INITIAL, inputs), inputs[k]);
  }

  // Stopping.

  /** A failed timer arm has stopped the availability feature under a running application. */
  predicate Stuck(a: App) {
    a.state.Running? && a.availability.state.Stopped?
  }

  /** Stopping succeeds exactly while the application runs and its availability feature does. */
  lemma StopsExactly(a: App)
    requires Consistent(a)
    ensures Transitioned(a, OnLifecycle(Stop)).Ok? <==> a.state.Running? && !Stuck(a)
    ensures Transitioned(a, OnLifecycle(Stop)).Ok? ==> Transitioned(a, OnLifecycle(Stop)).value.app.state.Stopped?
  {
    hide CurrentViews;
  }

  /** The application gets stuck exactly at a failed arming of the refresh timer that it was waiting for. */
  lemma GetsStuckExactly(a: App, input: Input)
    requires Consistent(a) && !Stuck(a) && Transitioned(a, input).Ok?
    ensures Stuck(Transitioned(a, input).value.app) <==>
      input.AvailabilityEffect? && input.availability.TimerArmCompleted? && !input.availability.armed
  {
    hide CurrentViews;
  }

  lemma StuckStays(a: App, input: Input)
    requires Consistent(a) && Stuck(a) && Transitioned(a, input).Ok?
    ensures Stuck(Transitioned(a, input).value.app)
  {
    hide CurrentViews;
  }

  /** A stuck application never stops, starts or reads availability again. */
  lemma {:induction false} StuckForever(inputs: seq<Input>, k: nat)
    requires k <= |inputs| && Stuck(After(INITIAL, inputs[..k]))
    ensures Stuck(After(INITIAL, inputs))
    ensures Transitioned(After(INITIAL, inputs), OnLifecycle(Stop)).Err?
    decreases |inputs|
  {
    hide Stuck, Transitioned;
    var n := |inputs| - 1;
    RunKeepsConsistent(inputs);
    StopsExactly(After(INITIAL, inputs));
    if k == |inputs| {
      assert inputs[..k] == inputs;
    } else {
      assert inputs[..n][..k] == inputs[..k];
      StuckForever(inputs[..n], k);
      RunKeepsConsistent(inputs[..n]);
      if Transitioned(After(INITIAL, inputs[..n]), inputs[n]).Ok? {
        StuckStays(After(INITIAL, inputs[..n]), inputs[n]);
      }
    }
  }

  /** It does happen: start, a first reading, and a refresh timer that cannot be armed. */
  lemma StuckHappens()
    ensures var inputs := [OnLifecycle(Start),
                           AvailabilityEffect(AppEffectId(AvailabilityId, 1), A.ReadCompleted(1, None)),
                           AvailabilityEffect(AppEffectId(AvailabilityId, 2), A.TimerArmCompleted(2, false))];
      Stuck(After(INITIAL, inputs)) && Transitioned(After(INITIAL, inputs), OnLifecycle(Stop)).Err?
  {
    var first := OnLifecycle(Start);
    var second := AvailabilityEffect(AppEffectId(AvailabilityId, 1), A.ReadCompleted(1, None));
    var third := AvailabilityEffect(AppEffectId(AvailabilityId, 2), A.TimerArmCompleted(2, false));
    assert [first][..0] == [] && [first, second][..1] == [first] && [first, second, third][..2] == [first, second];
    assert After(INITIAL, [first]).availability == A.Feature(A.Reading(1), A.Unknown, 1);
    assert After(INITIAL, [first, second]).availability == A.Feature(A.ArmingRefresh(2), A.Unknown, 2);
  }

  // What the application does with its features.

  /** A lifecycle event reaches both features: starting asks for a first reading and shows one focused board, stopping
      shows none, and an invalidated session takes the notice away and forgets the surface. */
  lemma LifecycleReachesBoth(a: App)
    requires Consistent(a)
    ensures a.state.Stopped? && a.availability.next < U64_MAX ==>
      var t := Transitioned(a, OnLifecycle(Start));
      && t.Ok? && t.value.app.state.Running?
      && t.value.app.availability == A.Feature(A.Reading(a.availability.next + 1), A.Unknown, a.availability.next + 1)
      && t.value.app.notice == N.Feature(N.Idle, a.notice.next)
      && t.value.app.view == Views(Some(Board(A.Unknown, true)), None)
      && t.value.effects == [Effect(AppEffectId(AvailabilityId, a.availability.next + 1), ForAvailability(A.ReadAvailability))]
    ensures a.state.Running? && !Stuck(a) ==>
      var t := Transitioned(a, OnLifecycle(Stop));
      && t.Ok? && t.value.app.state.Stopped? && t.value.effects == [] && t.value.app.view == Views(None, None)
      && t.value.app.availability.next == a.availability.next && t.value.app.notice.next == a.notice.next
    ensures a.state.Running? && !Stuck(a) && a.availability.next < U64_MAX ==>
      var t := Transitioned(a, OnLifecycle(SessionInvalidated));
      && t.Ok? && t.value.app.state.Running? && t.value.app.notice.state == N.Idle
      && t.value.app.view == Views(Some(Board(A.Unknown, true)), None)
      && (a.availability.state.Reading? <==> |t.value.effects| == 1)
    ensures a.state.Running? ==> Transitioned(a, OnLifecycle(Start)) == Err(AlreadyStarted)
    ensures a.state.Stopped? ==> Transitioned(a, OnLifecycle(Stop)) == Err(NotStarted)
  {
  }

  /** Every other input needs a running application and reaches one feature alone. */
  lemma RoutingReachesOne(a: App, input: Input)
    requires !input.OnLifecycle?
    ensures a.state.Stopped? ==> Transitioned(a, input) == Err(NotStarted)
    ensures Transitioned(a, input).Ok? ==>
      var t := Transitioned(a, input).value.app;
      && t.state == a.state
      && (input.AvailabilityEffect? ==>
            && t.notice == a.notice && A.Applied(a.availability, input.availability).Ok?
            && t.availability == A.Applied(a.availability, input.availability).value.feature)
      && (!input.AvailabilityEffect? ==>
            && t.availability == a.availability
            && var i := if input.NoticeCommand? then N.Told(input.command) else input.notice;
            N.Applied(a.notice, i).Ok? && t.notice == N.Applied(a.notice, i).value.feature)
  {
    hide CurrentViews, A.Applied, N.Applied;
  }

  /** A notice shown to a running application takes the focus at once, its timer is asked for, and clearing it gives
      the focus back. */
  lemma NoticeTakesFocus(a: App, kind: N.Kind)
    requires Consistent(a) && a.state.Running? && !Stuck(a) && a.notice.next < U64_MAX
    ensures Transitioned(a, NoticeCommand(N.Show(kind))).Ok?
    ensures var shown := Transitioned(a, NoticeCommand(N.Show(kind))).value;
      && shown.app.view == Views(Some(Board(a.availability.surface, false)), Some(Board(kind, true)))
      && shown.effects == [Effect(AppEffectId(NoticeId, a.notice.next + 1), ForNotice(2000))]
      && Transitioned(shown.app, NoticeCommand(N.Clear)).Ok?
      && Transitioned(shown.app, NoticeCommand(N.Clear)).value.app.view == Views(Some(Board(a.availability.surface, true)), None)
  {
  }

  // The application object.

  class ApplicationObject {
    var state: AppState
    var availability: A.AvailabilityFeature
    var notice: N.SyntheticNoticeFeature
    var view: Views

    ghost function View(): App
      reads this, availability, notice
    {
      App(state, availability.View(), notice.View(), view)
    }

    constructor ()
      ensures View() == INITIAL && fresh(availability) && fresh(notice)
    {
      state, view := Stopped, Views(None, None);
      availability := new A.AvailabilityFeature();
      notice := new N.SyntheticNoticeFeature();
    }

    constructor Copy(other: ApplicationObject)
      ensures View() == other.View() && fresh(availability) && fresh(notice)
    {
      state, view := other.state, other.view;
      availability := new A.AvailabilityFeature.Copy(other.availability);
      notice := new N.SyntheticNoticeFeature.Copy(other.notice);
    }

    method ShownViews() returns (v: Views)
      ensures v == CurrentViews(availability.View(), notice.View())
    {
      var kind := notice.ShownSurface();
      var surface := availability.ShownSurface();
      v := Views(match surface { case None => None case Some(s) => Some(Board(s, kind.None?)) },
                 match kind { case None => None case Some(k) => Some(Board(k, true)) });
    }

    /** On a candidate; the batch has room for one effect of each feature. */
    method ApplyLifecycle(lifecycle: Lifecycle) returns (r: Result<seq<Effect>, Error>)
      modifies this, availability, notice
      ensures availability == old(availability) && notice == old(notice)
      ensures match Cycled(old(View()), lifecycle)
              case Err(e) => r == Err(e)
              case Ok(s) => r == Ok(s.effects) && View() == s.app
    {
      if state.Running? && lifecycle.Start? {
        return Err(AlreadyStarted);
      }
      if state.Stopped? && lifecycle.Stop? {
        return Err(NotStarted);
      }
      var effects: seq<Effect> := [];
      var first := availability.OnLifecycle(lifecycle);
      if first.Err? {
        return Err(AvailabilityRejected(first.error));
      }
      if first.value.Some? {
        effects := effects + WrapA(first.value);
      }
      assert effects == WrapA(first.value);
      var second := notice.OnLifecycle(lifecycle);
      if second.Err? {
        return Err(NoticeRejected(second.error));
      }
      if second.value.Some? {
        effects := effects + WrapN(second.value);
      }
      assert effects == WrapA(first.value) + WrapN(second.value);
      match lifecycle {
        case Start => state := Running;
        case Stop => state := Stopped;
        case SessionInvalidated =>
      }
      r := Ok(effects);
    }

    method Apply(input: Input) returns (r: Result<seq<Effect>, Error>)
      modifies this, availability, notice
      ensures availability == old(availability) && notice == old(notice)
      ensures match Routed(old(View()), input)
              case Err(e) => r == Err(e)
              case Ok(s) => r == Ok(s.effects) && View() == s.app
    {
      if input.OnLifecycle? {
        r := ApplyLifecycle(input.lifecycle);
        return;
      }
      if state.Stopped? {
        return Err(NotStarted);
      }
      match input {
        case AvailabilityEffect(id, i) =>
          var invalid := Validated(id, AvailabilityId, i.id);
          if invalid.Some? {
            return Err(invalid.value);
          }
          var t := availability.Transition(i);
          r := if t.Err? then Err(AvailabilityRejected(t.error)) else Ok(WrapA(t.value));
        case NoticeCommand(command) =>
          var t := notice.Transition(N.Told(command));
          r := if t.Err? then Err(NoticeRejected(t.error)) else Ok(WrapN(t.value));
        case NoticeEffect(id, i) =>
          if i.Told? {
            return Err(UnexpectedEffectInput);
          }
          var invalid := Validated(id, NoticeId, i.id);
          if invalid.Some? {
            return Err(invalid.value);
          }
          var t := notice.Transition(i);
          r := if t.Err? then Err(NoticeRejected(t.error)) else Ok(WrapN(t.value));
      }
    }

    /** All or nothing across both features and the view. */
    method Transition(input: Input) returns (r: Result<seq<Effect>, Error>)
      modifies this
      ensures match Transitioned(old(View()), input)
              case Err(e) => r == Err(e) && View() == old(View())
              case Ok(s) => r == Ok(s.effects) && View() == s.app && fresh(availability) && fresh(notice)
    {
      var candidate := new ApplicationObject.Copy(this);
      r := candidate.Apply(input);
      if r.Ok? {
        var v := candidate.ShownViews();
        state, availability, notice, view := candidate.state, candidate.availability, candidate.notice, v;
      }
    }
  }
}
