/** The queue of the session writer: control frames overtake application messages, which stay in order. */
module SessionWriter {
  import opened Common

  const APPLICATION_MAX: nat := 8

  datatype Message = Close(reason: nat) | Pong | Ping | App(payload: nat)

  datatype Queue = Queue(close: Option<nat>, pong: bool, ping: bool, application: seq<nat>)

  const EMPTY := Queue(None, false, false, [])

  datatype Event =
    | EnqueueApplication(payload: nat)
    | EnqueueClose(reason: nat)
    | EnqueuePong
    | EnqueuePingIfIdle
    | Pop

  predicate Idle(q: Queue) {
    q.close.None? && !q.pong && q.application == []
  }

  /** The queue after an event, and the message it gives up. */
  function Step(q: Queue, e: Event): (Queue, Option<Message>) {
    match e
    case EnqueueApplication(p) =>
      (if |q.application| >= APPLICATION_MAX then q else q.(application := q.application + [p]), None)
    case EnqueueClose(reason) => (q.(close := Some(reason)), None)
    case EnqueuePong => (q.(pong := true), None)
    case EnqueuePingIfIdle => (if Idle(q) then q.(ping := true) else q, None)
    case Pop =>
      if q.close.Some? then (q.(close := None), Some(Close(q.close.value)))
      else if q.pong then (q.(pong := false), Some(Pong))
      else if q.ping then (q.(ping := false), Some(Ping))
      else if q.application != [] then (q.(application := q.application[1..]), Some(App(q.application[0])))
      else (q, None)
  }

  function After(events: seq<Event>): Queue {
    if events == [] then EMPTY else Step(After(events[..|events| - 1]), events[|events| - 1]).0
  }

  function Listed(m: Option<Message>): seq<Message> {
    if m.Some? then [m.value] else []
  }

  /** Everything a run has popped. */
  function Written(events: seq<Event>): seq<Message> {
    if events == [] then []
    else
      var m := Step(After(events[..|events| - 1]), events[|events| - 1]).1;
      Written(events[..|events| - 1]) + Listed(m)
  }

  /** The application messages a run has accepted rather than refused for want of room. */
  function AcceptedPayloads(events: seq<Event>): seq<nat> {
    if events == [] then []
    else
      AcceptedPayloads(events[..|events| - 1]) + Accepted(After(events[..|events| - 1]), events[|events| - 1])
  }

  function Accepted(q: Queue, e: Event): seq<nat> {
    if e.EnqueueApplication? && |q.application| < APPLICATION_MAX then [e.payload] else []
  }

  function Payloads(messages: seq<Message>): seq<nat> {
    if messages == [] then []
    else
      var m := messages[|messages| - 1];
      Payloads(messages[..|messages| - 1]) + if m.App? then [m.payload] else []
  }

  lemma PayloadsAppend(messages: seq<Message>, m: Option<Message>)
    ensures Payloads(messages + Listed(m))
         == Payloads(messages) + if m.Some? && m.value.App? then [m.value.payload] else []
  {
    if m.Some? {
      assert (messages + [m.value])[..|messages|] == messages;
    } else {
      assert messages + [] == messages;
    }
  }

  lemma StepConserves(q: Queue, e: Event, written: seq<nat>)
    requires |q.application| <= APPLICATION_MAX
    ensures var (after, m) := Step(q, e);
      && |after.application| <= APPLICATION_MAX
      && written + (if m.Some? && m.value.App? then [m.value.payload] else []) + after.application
         == written + q.application + Accepted(q, e)
  {
    if e.Pop? && Step(q, e).1.Some? && Step(q, e).1.value.App? {
      assert [q.application[0]] + q.application[1..] == q.application;
    }
  }

  /** Application messages are neither lost, repeated nor reordered: what was accepted is what was written followed by
      what is pending, and no more than eight are pending. */
  lemma {:induction false} NothingIsLost(events: seq<Event>)
    ensures AcceptedPayloads(events) == Payloads(Written(events)) + After(events).application
    ensures |After(events).application| <= APPLICATION_MAX
  {
    hide Step, Accepted, Payloads, Listed;
    if events == [] {
      NoPayloads();
    } else {
      var n := |events| - 1;
      NothingIsLost(events[..n]);
      var q, e := After(events[..n]), events[n];
      PayloadsAppend(Written(events[..n]), Step(q, e).1);
      StepConserves(q, e, Payloads(Written(events[..n])));
    }
  }

  lemma NoPayloads()
    ensures Payloads([]) == []
  {
  }

  /** A message is written only when nothing more urgent waits: close before pong before ping before the rest. */
  predicate InPriority(q: Queue, m: Message) {
    match m
    case Close(_) => true
    case Pong => q.close.None?
    case Ping => q.close.None? && !q.pong
    case App(_) => q.close.None? && !q.pong && !q.ping
  }

  function Pings(messages: seq<Message>): nat {
    if messages == [] then 0
    else Pings(messages[..|messages| - 1]) + if messages[|messages| - 1].Ping? then 1 else 0
  }

  function IdleTicks(events: seq<Event>): nat {
    if events == [] then 0
    else
      var n := |events| - 1;
      IdleTicks(events[..n]) + if events[n].EnqueuePingIfIdle? && Idle(After(events[..n])) then 1 else 0
  }

  lemma PingsAppend(messages: seq<Message>, m: Option<Message>)
    ensures Pings(messages + Listed(m)) == Pings(messages) + if m.Some? && m.value.Ping? then 1 else 0
  {
    if m.Some? {
      assert (messages + [m.value])[..|messages|] == messages;
    } else {
      assert messages + [] == messages;
    }
  }

  function Waiting(q: Queue): nat {
    if q.ping then 1 else 0
  }

  function Tick(q: Queue, e: Event): nat {
    if e.EnqueuePingIfIdle? && Idle(q) then 1 else 0
  }

  lemma StepPings(q: Queue, e: Event)
    ensures var (after, m) := Step(q, e);
      Waiting(after) + (if m.Some? && m.value.Ping? then 1 else 0) <= Waiting(q) + Tick(q, e)
  {
  }

  lemma TicksNext(events: seq<Event>, n: nat)
    requires n + 1 == |events|
    ensures IdleTicks(events) == IdleTicks(events[..n]) + Tick(After(events[..n]), events[n])
    ensures Pings(Written(events)) == Pings(Written(events[..n]) + Listed(Step(After(events[..n]), events[n]).1))
    ensures After(events) == Step(After(events[..n]), events[n]).0
  {
    hide Step, Pings, Listed, Idle;
  }

  /** A ping is only ever written for a timer tick that found the queue idle. */
  lemma {:induction false} PingsComeFromIdleness(events: seq<Event>)
    ensures Pings(Written(events)) + Waiting(After(events)) <= IdleTicks(events)
  {
    if events != [] {
      hide Step, Tick, Waiting, Listed, After, Written, IdleTicks, Pings;
      var n := |events| - 1;
      PingsComeFromIdleness(events[..n]);
      TicksNext(events, n);
      StepPings(After(events[..n]), events[n]);
      PingsAppend(Written(events[..n]), Step(After(events[..n]), events[n]).1);
    }
  }

  // Control frames: each is written once for being raised, and in its place.

  datatype Control = CloseFrame | PongFrame | PingFrame

  predicate IsControl(m: Message, k: Control) {
    match k
    case CloseFrame => m.Close?
    case PongFrame => m.Pong?
    case PingFrame => m.Ping?
  }

  function Pending(q: Queue, k: Control): nat {
    match k
    case CloseFrame => if q.close.Some? then 1 else 0
    case PongFrame => if q.pong then 1 else 0
    case PingFrame => if q.ping then 1 else 0
  }

  /** The event raises a frame that is not already waiting. */
  function Raised(q: Queue, e: Event, k: Control): nat {
    match k
    case CloseFrame => if e.EnqueueClose? && q.close.None? then 1 else 0
    case PongFrame => if e.EnqueuePong? && !q.pong then 1 else 0
    case PingFrame => if e.EnqueuePingIfIdle? && Idle(q) && !q.ping then 1 else 0
  }

  function RaisedIn(events: seq<Event>, k: Control): nat {
    if events == [] then 0
    else
      var n := |events| - 1;
      RaisedIn(events[..n], k) + Raised(After(events[..n]), events[n], k)
  }

  function Count(messages: seq<Message>, k: Control): nat {
    if messages == [] then 0
    else Count(messages[..|messages| - 1], k) + if IsControl(messages[|messages| - 1], k) then 1 else 0
  }

  function CountOne(m: Option<Message>, k: Control): nat {
    if m.Some? && IsControl(m.value, k) then 1 else 0
  }

  lemma CountAppend(messages: seq<Message>, m: Option<Message>, k: Control)
    ensures Count(messages + Listed(m), k) == Count(messages, k) + CountOne(m, k)
  {
    if m.Some? {
      assert (messages + [m.value])[..|messages|] == messages;
    } else {
      assert messages + [] == messages;
    }
  }

  lemma ControlStep(q: Queue, e: Event, k: Control)
    ensures Pending(Step(q, e).0, k) + CountOne(Step(q, e).1, k) == Pending(q, k) + Raised(q, e, k)
  {
  }

  /** In every run the frames of each kind that were written or still wait are exactly those that were raised. */
  lemma {:induction false} ControlsAreConserved(events: seq<Event>, k: Control)
    ensures Count(Written(events), k) + Pending(After(events), k) == RaisedIn(events, k)
  {
    if events != [] {
      hide Step, Raised, Count, CountOne, Listed, Pending;
      var n := |events| - 1;
      ControlsAreConserved(events[..n], k);
      CountAppend(Written(events[..n]), Step(After(events[..n]), events[n]).1, k);
      ControlStep(After(events[..n]), events[n], k);
    } else {
      assert Count([], k) == 0;
    }
  }

  function Apps(payloads: seq<nat>): seq<Message> {
    if payloads == [] then [] else [App(payloads[0])] + Apps(payloads[1..])
  }

  function If(waits: bool, m: Message): seq<Message> {
    if waits then [m] else []
  }

  /** What waits, in the order in which it is to be written. */
  function Waits(q: Queue): seq<Message> {
    Closing(q.close) + (If(q.pong, Pong) + (If(q.ping, Ping) + Apps(q.application)))
  }

  function Closing(close: Option<nat>): seq<Message> {
    if close.Some? then [Close(close.value)] else []
  }

  lemma AppendNothing(rest: seq<Message>)
    ensures [] + rest == rest
  {
  }

  lemma TakeFirst(m: Message, rest: seq<Message>)
    ensures ([m] + rest)[0] == m && ([m] + rest)[1..] == rest && [m] + rest != []
  {
  }

  /** A pop takes the first of them. */
  lemma PopTakesFirst(q: Queue)
    ensures var (after, m) := Step(q, Pop);
      Waits(q) == Listed(m) + Waits(after) && (m.None? <==> Waits(q) == [])
  {
    var after := Step(q, Pop).0;
    AppsFirst(q.application);
    AppendNothing(Waits(after));
    AppendNothing(If(after.pong, Pong) + (If(after.ping, Ping) + Apps(after.application)));
    AppendNothing(If(after.ping, Ping) + Apps(after.application));
    AppendNothing(Apps(after.application));
    AppendNothing(Apps(q.application));
    hide Apps;
  }

  lemma AppsFirst(payloads: seq<nat>)
    ensures Apps(payloads) == [] <==> payloads == []
    ensures payloads != [] ==> Apps(payloads) == [App(payloads[0])] + Apps(payloads[1..])
  {
  }

  /** A close waits in front, once, with its latest reason. */
  lemma CloseWaitsFirst(q: Queue, reason: nat)
    ensures var (after, m) := Step(q, EnqueueClose(reason));
      m.None? && Waits(after) == [Close(reason)] + if q.close.Some? then Waits(q)[1..] else Waits(q)
  {
    var rest := If(q.pong, Pong) + (If(q.ping, Ping) + Apps(q.application));
    AppendNothing(rest);
    if q.close.Some? {
      TakeFirst(Close(q.close.value), rest);
    }
    hide Apps, If;
  }

  /** A pong waits right after it. */
  lemma PongWaitsNext(q: Queue)
    ensures var (after, m) := Step(q, EnqueuePong);
      m.None? && Waits(after) == if q.pong then Waits(q) else Closing(q.close) + [Pong] + Waits(q)[|Closing(q.close)|..]
  {
    hide Apps, Closing;
    var rest := If(q.ping, Ping) + Apps(q.application);
    AppendNothing(rest);
    Behind(Closing(q.close), [Pong], rest);
  }

  lemma Behind(front: seq<Message>, middle: seq<Message>, rest: seq<Message>)
    ensures front + (middle + rest) == front + middle + rest
    ensures (front + rest)[|front|..] == rest
  {
  }

  /** A ping waits only alone. */
  lemma PingWaitsAlone(q: Queue)
    ensures var (after, m) := Step(q, EnqueuePingIfIdle);
      m.None? && Waits(after) == if q.close.None? && !q.pong && q.application == [] then [Ping] else Waits(q)
  {
    AppsFirst([]);
    AppendNothing([Ping]);
    assert [Ping] + [] == [Ping];
    hide Apps;
  }

  /** An application message waits last, if there is room for it. */
  lemma ApplicationWaitsLast(q: Queue, payload: nat)
    ensures var (after, m) := Step(q, EnqueueApplication(payload));
      m.None? && Waits(after) == if |q.application| >= APPLICATION_MAX then Waits(q) else Waits(q) + [App(payload)]
  {
    AppsAppend(q.application, payload);
    hide Apps, If, Closing;
    Behind(If(q.ping, Ping), Apps(q.application), [App(payload)]);
    Behind(If(q.pong, Pong), If(q.ping, Ping) + Apps(q.application), [App(payload)]);
    Behind(Closing(q.close), If(q.pong, Pong) + (If(q.ping, Ping) + Apps(q.application)), [App(payload)]);
  }

  lemma {:induction false} AppsAppend(payloads: seq<nat>, p: nat)
    ensures Apps(payloads + [p]) == Apps(payloads) + [App(p)]
  {
    if payloads == [] {
      assert Apps([p][1..]) == [];
    } else {
      assert (payloads + [p])[1..] == payloads[1..] + [p];
      AppsAppend(payloads[1..], p);
    }
  }

  function Popped(q: Queue, n: nat): (Queue, seq<Message>)
    decreases n
  {
    if n == 0 then (q, [])
    else
      var (after, m) := Step(q, Pop);
      var (last, rest) := Popped(after, n - 1);
      (last, Listed(m) + rest)
  }

  /** Left alone, the queue is written out: close, pong, ping, then the application messages in order. */
  lemma {:induction false} DrainsInOrder(q: Queue)
    ensures Popped(q, |Waits(q)|) == (EMPTY, Waits(q))
    decreases |Waits(q)|
  {
    hide Step;
    PopTakesFirst(q);
    if Waits(q) != [] {
      DrainsInOrder(Step(q, Pop).0);
    } else {
      NothingWaits(q);
    }
  }

  lemma NothingWaits(q: Queue)
    requires Waits(q) == []
    ensures q == EMPTY
  {
    AppsFirst(q.application);
  }

  class SessionWriteQueue {
    var close: Option<nat>
    var pong: bool
    var ping: bool
    var application: seq<nat>

    ghost function View(): Queue
      reads this
    {
      Queue(close, pong, ping, application)
    }

    constructor ()
      ensures View() == EMPTY
    {
      close, pong, ping, application := None, false, false, [];
    }

    method Enqueue(payload: nat) returns (ok: bool)
      modifies this
      ensures View() == Step(old(View()), EnqueueApplication(payload)).0
      ensures ok <==> old(|application|) < APPLICATION_MAX
    {
      if |application| >= APPLICATION_MAX {
        return false;
      }
      application := application + [payload];
      ok := true;
    }

    method SetClose(reason: nat)
      modifies this
      ensures View() == Step(old(View()), EnqueueClose(reason)).0
    {
      close := Some(reason);
    }

    method SetPong()
      modifies this
      ensures View() == Step(old(View()), EnqueuePong).0
    {
      pong := true;
    }

    method SetPingIfIdle()
      modifies this
      ensures View() == Step(old(View()), EnqueuePingIfIdle).0
    {
      if close.None? && !pong && |application| == 0 {
        ping := true;
      }
    }

    method PopMessage() returns (m: Option<Message>)
      modifies this
      ensures (View(), m) == Step(old(View()), Pop)
      ensures m.Some? ==> InPriority(old(View()), m.value)
      ensures m.None? <==> old(View()) == EMPTY
    {
      if close.Some? {
        m, close := Some(Close(close.value)), None;
      } else if pong {
        m, pong := Some(Pong), false;
      } else if ping {
        m, ping := Some(Ping), false;
      } else if application != [] {
        m, application := Some(App(application[0])), application[1..];
      } else {
        m := None;
      }
    }
  }
}
