/**
 Time limits. `Meeting` is the rendezvous of an operation with its timer: the user hears once both have
 completed. `Race` is its dual for `cancel`: the user hears at the first of the two.
 `TimedRequest` puts a whole request behind a meeting.
 */
module Deadlines {
  import opened Basics
  import Requests

  datatype Ec<+C> = NoError | TimedOut | Code(code: C)

  /** What the user's handler is called with. A result is identified by a number. */
  datatype UserCall<+C> = UserCall(ec: Ec<C>, result: Option<nat>)

  // ---------------------------------------------------------------------------------------
  // Both must complete.

  /**
   `count` is the atomic counter; `ec` and `result` wait in the shared context for the second event. The
   operation's end of the meeting gives its context up at its first use (`ready`); another use goes through a null
   pointer (`faulted`), and nothing is said about what follows.
   */
  datatype Meeting<+C> = Meeting(
    count: int, ec: Ec<C>, result: Option<nat>, calls: seq<UserCall<C>>, ready: bool, faulted: bool)

  function Convene<C>(): Meeting<C> {
    Meeting(2, NoError, None, [], true, false)
  }

  function OperationMeets<C>(m: Meeting<C>, ec: Ec<C>, result: nat): Meeting<C> {
    var n := m.count - 1;
    if !m.ready then m.(faulted := true)
    else if n != 0 then m.(count := n, ec := ec, result := Some(result), ready := false)
    else m.(count := n, calls := m.calls + [UserCall(m.ec, Some(result))], ready := false)
  }

  function TimerMeets<C>(m: Meeting<C>): Meeting<C> {
    var n := m.count - 1;
    if n != 0 then m.(count := n, ec := TimedOut)
    else m.(count := n, calls := m.calls + [UserCall(m.ec, m.result)])
  }

  /**
   Whichever comes first, the user hears nothing after one event and exactly once after both, always with the
   operation's result, and with `timed_out` exactly when the timer came first.
   */
  lemma MeetingCallsOnce<C>(ec: Ec<C>, result: nat, timerFirst: bool)
    ensures var first := if timerFirst then TimerMeets(Convene()) else OperationMeets(Convene(), ec, result);
            var both := if timerFirst then OperationMeets(first, ec, result) else TimerMeets(first);
            && first.calls == [] && !both.faulted
            && both.calls == [UserCall(if timerFirst then TimedOut else ec, Some(result))]
  {
  }

  /** What the two ends share, with the user's handler until it is moved out and called. */
  class DeadlineContext<C(0)> {
    var firstCall: int
    var ec: Ec<C>
    var result: Option<nat>
    var hasHandler: bool
    var calls: seq<UserCall<C>>

    constructor ()
      ensures firstCall == 2 && ec == NoError && result == None && hasHandler && calls == []
    {
      firstCall, ec, result, hasHandler, calls := 2, NoError, None, true, [];
    }

    /** The handler is moved out and called. */
    method CallHandler(code: Ec<C>, value: Option<nat>)
      requires hasHandler
      modifies this`hasHandler, this`calls
      ensures !hasHandler && calls == old(calls) + [UserCall(code, value)]
    {
      hasHandler := false;
      calls := calls + [UserCall(code, value)];
    }
  }

  /** The handler object and its timer handler: each holds the context until it has run. */
  class IoDeadline<C(0)> {
    const shared: DeadlineContext<C>
    var operationCtx: DeadlineContext?<C>
    var timerCtx: DeadlineContext?<C>

    /** The counter counts the ends that have not run, and the handler is there until the last of them has. */
    ghost predicate Valid()
      reads this, shared
    {
      && (operationCtx != null ==> operationCtx == shared) && (timerCtx != null ==> timerCtx == shared)
      && shared.firstCall == (if operationCtx == null then 0 else 1) + (if timerCtx == null then 0 else 1)
      && (shared.hasHandler <==> operationCtx != null || timerCtx != null)
      && (shared.hasHandler <==> shared.calls == [])
      && (operationCtx != null && timerCtx == null ==> shared.ec == TimedOut)
    }

    ghost function State(faulted: bool): Meeting<C>
      reads this, shared
    {
      Meeting(shared.firstCall, shared.ec, shared.result, shared.calls, operationCtx != null, faulted)
    }

    constructor ()
      ensures Valid() && fresh(shared) && operationCtx == timerCtx == shared && State(false) == Convene()
    {
      var context := new DeadlineContext<C>();
      shared, operationCtx, timerCtx := context, context, context;
    }

    /**
     Used a second time, it finds no context. Otherwise the user is called exactly when the timer has run, and
     then with `timed_out`; before that the outcome is only stored.
     */
    method OperationDone(code: Ec<C>, value: nat) returns (faulted: bool)
      requires Valid()
      modifies this`operationCtx, shared
      ensures Valid() && operationCtx == null && State(faulted) == OperationMeets(old(State(false)), code, value)
      ensures faulted <==> old(operationCtx) == null
      ensures !faulted && timerCtx == null ==> shared.calls == [UserCall(TimedOut, Some(value))]
      ensures !faulted && timerCtx != null ==>
                shared.calls == [] && shared.ec == code && shared.result == Some(value)
    {
      if operationCtx == null {
        return true;
      }
      var ctx: DeadlineContext<C> := operationCtx;
      ctx.firstCall := ctx.firstCall - 1;
      if ctx.firstCall != 0 {
        ctx.ec, ctx.result := code, Some(value);
        operationCtx := null;
      } else {
        operationCtx := null;
        ctx.CallHandler(ctx.ec, Some(value));
      }
      return false;
    }

    /** The timer completes once. It calls the user exactly when the operation is done, with what that left. */
    method TimerDone()
      requires Valid() && timerCtx != null
      modifies this`timerCtx, shared
      ensures Valid() && timerCtx == null && State(false) == TimerMeets(old(State(false)))
      ensures operationCtx == null ==> shared.calls == [UserCall(old(shared.ec), old(shared.result))]
      ensures operationCtx != null ==> shared.calls == [] && shared.ec == TimedOut
    {
      var ctx: DeadlineContext<C> := timerCtx;
      ctx.firstCall := ctx.firstCall - 1;
      if ctx.firstCall != 0 {
        ctx.ec := TimedOut;
        timerCtx := null;
      } else {
        timerCtx := null;
        ctx.CallHandler(ctx.ec, ctx.result);
      }
    }
  }

  // ---------------------------------------------------------------------------------------
  // The first one wins.

  datatype Race<+C> = Race(count: int, calls: seq<UserCall<C>>)

  function OperationRaces<C>(r: Race<C>, ec: Ec<C>, message: nat): Race<C> {
    var n := r.count - 1;
    if n != 0 then Race(n, r.calls + [UserCall(ec, Some(message))]) else Race(n, r.calls)
  }

  function TimerRaces<C>(r: Race<C>): Race<C> {
    var n := r.count - 1;
    if n != 0 then Race(n, r.calls + [UserCall(TimedOut, None)]) else Race(n, r.calls)
  }

  /** The user hears exactly once, at the first event, with that event's outcome. */
  lemma RaceCallsOnce<C>(ec: Ec<C>, message: nat, timerFirst: bool)
    ensures var start: Race<C> := Race(2, []);
            var first := if timerFirst then TimerRaces(start) else OperationRaces(start, ec, message);
            var both := if timerFirst then OperationRaces(first, ec, message) else TimerRaces(first);
            && first.calls == [if timerFirst then UserCall(TimedOut, None) else UserCall(ec, Some(message))]
            && both.calls == first.calls
  {
  }

  /** What the two ends share; the handler is there until it is moved out and called. */
  class CancelContext<C(0)> {
    var state: int
    var hasHandler: bool
    var calls: seq<UserCall<C>>

    constructor ()
      ensures state == 2 && hasHandler && calls == []
    {
      state, hasHandler, calls := 2, true, [];
    }

    method CallHandler(code: Ec<C>, message: Option<nat>)
      requires hasHandler
      modifies this`hasHandler, this`calls
      ensures !hasHandler && calls == old(calls) + [UserCall(code, message)]
    {
      hasHandler := false;
      calls := calls + [UserCall(code, message)];
    }
  }

  /** The handler object and its timer handler; the one that runs first gives its context up. */
  class CancelDeadline<C(0)> {
    const shared: CancelContext<C>
    var operationCtx: CancelContext?<C>
    var timerCtx: CancelContext?<C>
    ghost var operationDone: bool
    ghost var timerDone: bool

    /** The counter counts the ends that have not run, and the user has been called once as soon as one has. */
    ghost predicate Valid()
      reads this, shared
    {
      && (operationCtx != null ==> operationCtx == shared) && (timerCtx != null ==> timerCtx == shared)
      && (operationCtx == null ==> operationDone) && (timerCtx == null ==> timerDone)
      && shared.state == (if operationDone then 0 else 1) + (if timerDone then 0 else 1)
      && (shared.hasHandler <==> !operationDone && !timerDone)
      && |shared.calls| == if operationDone || timerDone then 1 else 0
    }

    ghost function State(): Race<C>
      reads this, shared
    {
      Race(shared.state, shared.calls)
    }

    constructor ()
      ensures Valid() && fresh(shared) && !operationDone && !timerDone && State() == Race(2, [])
    {
      var context := new CancelContext<C>();
      shared, operationCtx, timerCtx := context, context, context;
      operationDone, timerDone := false, false;
    }

    /** The user hears of the operation if and only if the timer has not run. */
    method OperationDone(ec: Ec<C>, message: nat)
      requires Valid() && !operationDone
      modifies this`operationCtx, this`operationDone, shared
      ensures Valid() && operationDone && State() == OperationRaces(old(State()), ec, message)
      ensures shared.calls == if timerDone then old(shared.calls) else [UserCall(ec, Some(message))]
    {
      var ctx: CancelContext<C> := operationCtx;
      ctx.state := ctx.state - 1;
      if ctx.state != 0 {
        operationCtx := null;
        ctx.CallHandler(ec, Some(message));
      }
      operationDone := true;
    }

    /** The user hears of the time-out if and only if the operation has not completed. */
    method TimerDone()
      requires Valid() && !timerDone
      modifies this`timerCtx, this`timerDone, shared
      ensures Valid() && timerDone && State() == TimerRaces(old(State()))
      ensures shared.calls == if operationDone then old(shared.calls) else [UserCall(TimedOut, None)]
    {
      var ctx: CancelContext<C> := timerCtx;
      ctx.state := ctx.state - 1;
      if ctx.state != 0 {
        timerCtx := null;
        ctx.CallHandler(TimedOut, None);
      }
      timerDone := true;
    }
  }

  // ---------------------------------------------------------------------------------------
  // A request behind a meeting.

  /**
   `meeting` hears of each call the request makes, always with the request's own connection, number `CONNECTION`. The
   rest is history: `timerFirst`, the timer completed before the request called its handler; `rearmed`, a write wait
   was started after the wrapper gave its context up.
   */
  datatype TimedRequest = TimedRequest(
    request: Requests.Ctx,
    meeting: Meeting<Requests.Code>,
    timerDone: bool,
    timerFirst: bool,
    rearmed: bool)

  const CONNECTION: nat := 1

  function EcOf(call: Requests.Call): Ec<Requests.Code> {
    match call
    case Success => NoError
    case Failure(code) => Code(code)
  }

  /** The request moves on to `c`; if that called its handler, the meeting hears of it. */
  function Advance(t: TimedRequest, c: Requests.Ctx): TimedRequest {
    if |c.calls| > |t.request.calls| && c.calls != [] then
      t.(request := c, meeting := OperationMeets(t.meeting, EcOf(c.calls[|c.calls| - 1]), CONNECTION))
    else t.(request := c)
  }

  datatype TimedEvent = RequestEvent(e: Requests.Event) | TimerEvent

  predicate Enabled(t: TimedRequest, e: TimedEvent) {
    match e
    case RequestEvent(r) => Requests.Enabled(t.request, r)
    case TimerEvent => !t.timerDone
  }

  /** The write wait ends and is started again, because output is still pending. */
  predicate Rearms(t: TimedRequest, e: Requests.Event) {
    e.WriteWaitEnds? && Requests.Apply(t.request, e).writing
  }

  /** A wait is started with the executor and the allocator of the wrapper, which asks its context for them. */
  function Apply(t: TimedRequest, e: TimedEvent): TimedRequest {
    match e
    case RequestEvent(r) =>
      var u := Advance(t, Requests.Apply(t.request, r));
      if Rearms(t, r) && !t.meeting.ready then u.(rearmed := true, meeting := u.meeting.(faulted := true)) else u
    case TimerEvent => t.(meeting := TimerMeets(t.meeting), timerDone := true, timerFirst := t.request.calls == [])
  }

  predicate Allowed(t: TimedRequest, es: seq<TimedEvent>)
    decreases |es|
  {
    es == [] || (Enabled(t, es[0]) && Allowed(Apply(t, es[0]), es[1..]))
  }

  function Run(t: TimedRequest, es: seq<TimedEvent>): TimedRequest
    decreases |es|
  {
    if es == [] then t else Run(Apply(t, es[0]), es[1..])
  }

  /** The timer is armed first, then both operations are started. */
  function Begin(
    blockingFails: bool, sendFails: bool, flush: Requests.Flush, polls: seq<Requests.Poll>, throws: bool): TimedRequest
  {
    Advance(TimedRequest(Requests.FRESH, Convene(), false, false, false),
            Requests.Start(blockingFails, sendFails, flush, polls, throws))
  }

  ghost predicate Inv(t: TimedRequest) {
    && Requests.Inv(t.request)
    && t.meeting.ready == (t.request.calls == [])
    && t.meeting.faulted == (|t.request.calls| == 2 || t.rearmed)
    && (t.rearmed ==> t.request.settled == Some(Requests.SendInProgress))
    && MeetingOk(t)
  }

  /** The meeting is where the two histories say it is. */
  ghost predicate MeetingOk(t: TimedRequest) {
    var m := t.meeting;
    var called := t.request.calls != [];
    && m.count == 2 - (if called then 1 else 0) - (if t.timerDone then 1 else 0)
    && (!called && t.timerDone ==> t.timerFirst && m.ec == TimedOut)
    && (called && !t.timerDone ==> m.ec == EcOf(t.request.calls[0]) && m.result == Some(CONNECTION))
    && m.calls == UserCalls(t)
  }

  /** What the user hears: nothing until both are done, then the earlier of the two outcomes. */
  function UserCalls(t: TimedRequest): seq<UserCall<Requests.Code>> {
    if t.request.calls == [] || !t.timerDone then []
    else [UserCall(if t.timerFirst then TimedOut else EcOf(t.request.calls[0]), Some(CONNECTION))]
  }

  lemma BeginInv(
    blockingFails: bool, sendFails: bool, flush: Requests.Flush, polls: seq<Requests.Poll>, throws: bool)
    ensures Inv(Begin(blockingFails, sendFails, flush, polls, throws))
  {
    Requests.StartInv(blockingFails, sendFails, flush, polls, throws);
    StartCallsOnce(blockingFails, sendFails, flush, polls, throws);
  }

  lemma StartCallsOnce(
    blockingFails: bool, sendFails: bool, flush: Requests.Flush, polls: seq<Requests.Poll>, throws: bool)
    ensures |Requests.Start(blockingFails, sendFails, flush, polls, throws).calls| <= 1
  {
    var c := Requests.SendPerform(Requests.FRESH, blockingFails, sendFails, flush);
    if c.query != Requests.Error {
      AtMostOneReport(c, Requests.NotReading, None, false, polls, throws);
    }
  }

  /** A step of a request makes at most one call, and keeps the calls already made. */
  lemma OneCallAtATime(c: Requests.Ctx, e: Requests.Event)
    requires Requests.Inv(c) && Requests.Enabled(c, e)
    ensures var d := Requests.Apply(c, e);
            c.calls <= d.calls && |d.calls| <= |c.calls| + 1
  {
    Requests.StepInv(c, e);
    if c.query == Requests.Error || e.WriteWaitEnds? {
    } else {
      assert c.calls == [];
      var d := Requests.Apply(c, e);
      assert |d.calls| <= 1 by {
        AtMostOneReport(c.(reading := Requests.NotReading), c.reading, e.ec, e.consumeFails, e.polls, e.throws);
      }
    }
  }

  lemma AtMostOneReport(c: Requests.Ctx, point: Requests.Reading, ec: Option<Requests.Code>,
                        consumeFails: bool, polls: seq<Requests.Poll>, throws: bool)
    requires c.calls == []
    ensures |Requests.ResultOn(c, point, ec, consumeFails, polls, throws).calls| <= 1
  {
    var d := Requests.Hear(c, Requests.ReadWait(ec));
    var f := Requests.Hear(d, Requests.Consumed(consumeFails));
    if point.AwaitRest? {
      AtMostOneDiscard(f, point.status, polls, throws);
    } else {
      AtMostOneFirst(if point.NotReading? then d else f, polls, throws);
    }
  }

  lemma AtMostOneFirst(c: Requests.Ctx, polls: seq<Requests.Poll>, throws: bool)
    requires c.calls == []
    ensures |Requests.FirstResult(c, polls, throws).calls| <= 1
  {
    if polls != [] && polls[0].Gives? && polls[0].result.Some? {
      AtMostOneDiscard(Requests.Hear(c, Requests.Polled(polls[0])), polls[0].result.value, polls[1..], throws);
    }
  }

  lemma {:induction false} AtMostOneDiscard(
    c: Requests.Ctx, status: Requests.Status, polls: seq<Requests.Poll>, throws: bool)
    requires c.calls == []
    ensures |Requests.Discard(c, status, polls, throws).calls| <= 1
    decreases polls
  {
    if polls != [] && polls[0].Gives? && polls[0].result.Some? {
      AtMostOneDiscard(Requests.Hear(c, Requests.Polled(polls[0])), status, polls[1..], throws);
    }
  }

  lemma StepInv(t: TimedRequest, e: TimedEvent)
    requires Inv(t) && Enabled(t, e)
    ensures Inv(Apply(t, e))
  {
    if e.RequestEvent? {
      Requests.StepInv(t.request, e.e);
      OneCallAtATime(t.request, e.e);
    }
  }

  lemma {:induction false} RunInv(t: TimedRequest, es: seq<TimedEvent>)
    requires Inv(t) && Allowed(t, es)
    ensures Inv(Run(t, es))
    decreases |es|
  {
    if es == [] {
    } else {
      StepInv(t, es[0]);
      RunInv(Apply(t, es[0]), es[1..]);
    }
  }

  /** Every way the request, its timer and libpq can go. */
  ghost predicate Reachable(t: TimedRequest) {
    exists blockingFails, sendFails, flush, polls, throws, es ::
      && Allowed(Begin(blockingFails, sendFails, flush, polls, throws), es)
      && t == Run(Begin(blockingFails, sendFails, flush, polls, throws), es)
  }

  lemma ReachableInv(t: TimedRequest)
    requires Reachable(t)
    ensures Inv(t)
  {
    var blockingFails, sendFails, flush, polls, throws, es :|
      && Allowed(Begin(blockingFails, sendFails, flush, polls, throws), es)
      && t == Run(Begin(blockingFails, sendFails, flush, polls, throws), es);
    BeginInv(blockingFails, sendFails, flush, polls, throws);
    RunInv(Begin(blockingFails, sendFails, flush, polls, throws), es);
  }

  /**
   Along every interleaving of the two operations and the timer: the wrapper is used without its context if and
   only if a success was reported while the query was still being sent, and then sending failed or had to wait for
   the socket once more. In every other case the user is called exactly when the request and the timer are both
   done, once, with `timed_out` exactly when the timer came first and with the request's own code otherwise, and
   with the request's connection. So when nothing is pending the user has been called.
   */
  lemma TimedRequestCallsOnce(t: TimedRequest)
    requires Reachable(t)
    ensures t.meeting.faulted <==>
              t.request.settled == Some(Requests.SendInProgress) && (t.request.query == Requests.Error || t.rearmed)
    ensures !t.meeting.faulted ==> t.meeting.calls == UserCalls(t)
    ensures !t.meeting.faulted && Requests.Quiescent(t.request) && t.timerDone ==> |t.meeting.calls| == 1
    ensures !t.meeting.faulted && t.meeting.calls != [] ==>
              var call := t.meeting.calls[0];
              && t.request.calls != [] && call.result == Some(CONNECTION)
              && (call.ec == TimedOut <==> t.timerFirst)
              && (call.ec == NoError <==> !t.timerFirst && t.request.calls[0] == Requests.Success)
              && (forall code :: call.ec == Code(code) <==>
                    !t.timerFirst && t.request.calls[0] == Requests.Failure(code))
  {
    ReachableInv(t);
  }

  /** The query is half sent, and the result is there already: success is reported. */
  const HALF_SENT := Begin(false, false, Requests.FlushPending, [Requests.Gives(None)], false)

  lemma OneMoreReachable(e: TimedEvent)
    requires Enabled(HALF_SENT, e)
    ensures Reachable(Apply(HALF_SENT, e))
  {
    var es := [e];
    assert Allowed(Apply(HALF_SENT, e), es[1..]) && Run(Apply(HALF_SENT, e), es[1..]) == Apply(HALF_SENT, e);
    assert Allowed(HALF_SENT, es) && Apply(HALF_SENT, e) == Run(HALF_SENT, es);
  }

  /** The first failing case does happen: then the write wait is aborted, and the wrapper is called again. */
  lemma FaultHappens()
    ensures exists t :: Reachable(t) && t.meeting.faulted && !t.rearmed && t.meeting.calls == []
  {
    var e := RequestEvent(Requests.WriteWaitEnds(Some(Requests.OperationAborted), Requests.FlushDone));
    OneMoreReachable(e);
    var t := Apply(HALF_SENT, e);
    assert Reachable(t) && t.meeting.faulted && !t.rearmed && t.meeting.calls == [];
  }

  /** So does the second: then the write wait ends well, output is still pending, and it is started again. */
  lemma RearmFaultHappens()
    ensures exists t :: Reachable(t) && t.meeting.faulted && t.rearmed && t.request.calls == [Requests.Success]
  {
    var e := RequestEvent(Requests.WriteWaitEnds(None, Requests.FlushPending));
    OneMoreReachable(e);
    var t := Apply(HALF_SENT, e);
    assert Reachable(t) && t.meeting.faulted && t.rearmed && t.request.calls == [Requests.Success];
  }
}
