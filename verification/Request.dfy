/**
 One request on one connection: sending the query and reading its result are two operations that share a
 query state and a completion handler. What libpq answers and how each wait ends are arbitrary.
 */
module Requests {
  import opened Basics

  datatype QueryState = Error | SendFinish | SendInProgress

  datatype Code =
    | OperationAborted | BadDescriptor | WaitFailed(n: nat)
    | SetNonblockingFailed | SendQueryParamsFailed | FlushFailed | ConsumeInputFailed
    | BadResponse | EmptyQuery | SqlState(n: nat) | UnexpectedStatus | BadResultProcess

  /** What `PQflush` answers. */
  datatype Flush = FlushError | FlushPending | FlushDone

  datatype Status =
    | SingleTuple | TuplesOk | CommandOk
    | BadResponseStatus | EmptyQueryStatus | FatalError(state: nat) | OtherStatus

  /** One look at the connection: busy, or else what `PQgetResult` gives. */
  datatype Poll = Busy | Gives(result: Option<Status>)

  /** Where the result operation is suspended, if it is. */
  datatype Reading = NotReading | AwaitFirst | AwaitRest(status: Status)

  /** A call of the completion handler. */
  datatype Call = Success | Failure(code: Code)

  /** What an operation is told: how its wait ended, what libpq answered, whether the user's code threw. */
  datatype Answer =
    | Blocking(failed: bool) | Sent(failed: bool) | WriteWait(ec: Option<Code>) | Flushed(flush: Flush)
    | ReadWait(ec: Option<Code>) | Consumed(failed: bool) | Polled(poll: Poll) | Processed(threw: bool)

  /**
   The shared context. `settled` and `heard` are history: the query state the last success found, and the answers
   the two operations took notice of, in order.
   */
  datatype Ctx = Ctx(
    query: QueryState,
    writing: bool,
    reading: Reading,
    calls: seq<Call>,
    settled: Option<QueryState>,
    heard: seq<Answer>)

  // ---------------------------------------------------------------------------------------
  // The operations as functions of the context and the answers.

  function Hear(c: Ctx, a: Answer): Ctx {
    c.(heard := c.heard + [a])
  }

  function Fail(c: Ctx, code: Code): Ctx {
    c.(query := Error, calls := c.calls + [Failure(code)])
  }

  function Succeed(c: Ctx): Ctx {
    c.(calls := c.calls + [Success], settled := Some(c.query))
  }

  function SendOn(c: Ctx, ec: Option<Code>, flush: Flush): Ctx {
    if c.query != SendInProgress then c
    else if ec.Some? then Fail(Hear(c, WriteWait(ec)), ec.value)
    else
      var d := Hear(Hear(c, WriteWait(ec)), Flushed(flush));
      match flush
      case FlushError => Fail(d, FlushFailed)
      case FlushPending => d.(writing := true)
      case FlushDone => d.(query := SendFinish)
  }

  function SendPerform(c: Ctx, blockingFails: bool, sendFails: bool, flush: Flush): Ctx {
    var d := Hear(c, Blocking(blockingFails));
    if blockingFails then Fail(d, SetNonblockingFailed)
    else if sendFails then Fail(Hear(d, Sent(sendFails)), SendQueryParamsFailed)
    else SendOn(Hear(d, Sent(sendFails)), None, flush)
  }

  function HandleResult(c: Ctx, status: Status, throws: bool): Ctx {
    match status
    case SingleTuple => ProcessAndDone(c, throws)
    case TuplesOk => ProcessAndDone(c, throws)
    case CommandOk => ProcessAndDone(c, throws)
    case BadResponseStatus => Fail(c, BadResponse)
    case EmptyQueryStatus => Fail(c, EmptyQuery)
    case FatalError(state) => Fail(c, SqlState(state))
    case OtherStatus => Fail(c, UnexpectedStatus)
  }

  function ProcessAndDone(c: Ctx, throws: bool): Ctx {
    var d := Hear(c, Processed(throws));
    if throws then Fail(d, BadResultProcess) else Succeed(d)
  }

  /** Discard results until there are none left; suspend when the connection is busy. */
  function Discard(c: Ctx, status: Status, polls: seq<Poll>, throws: bool): Ctx
    decreases polls
  {
    if polls == [] || polls[0].Busy? then Hear(c, Polled(Busy)).(reading := AwaitRest(status))
    else if polls[0].result.Some? then Discard(Hear(c, Polled(polls[0])), status, polls[1..], throws)
    else HandleResult(Hear(c, Polled(polls[0])), status, throws)
  }

  function FirstResult(c: Ctx, polls: seq<Poll>, throws: bool): Ctx {
    if polls == [] || polls[0].Busy? then Hear(c, Polled(Busy)).(reading := AwaitFirst)
    else
      var d := Hear(c, Polled(polls[0]));
      if polls[0].result.None? then Succeed(d)
      else if polls[0].result.value == SingleTuple then HandleResult(d, SingleTuple, throws)
      else Discard(d, polls[0].result.value, polls[1..], throws)
  }

  /** The result operation runs from `point` until it suspends or completes. */
  function ResultOn(c: Ctx, point: Reading, ec: Option<Code>, consumeFails: bool, polls: seq<Poll>, throws: bool): Ctx {
    if c.query == Error then c
    else if ec.Some? then
      Fail(Hear(c, ReadWait(ec)), if ec.value == BadDescriptor then OperationAborted else ec.value)
    else if point.NotReading? then FirstResult(Hear(c, ReadWait(ec)), polls, throws)
    else
      var d := Hear(Hear(c, ReadWait(ec)), Consumed(consumeFails));
      if point.AwaitFirst? then
        if consumeFails then Fail(d, ConsumeInputFailed) else FirstResult(d, polls, throws)
      else
        if consumeFails then HandleResult(d, point.status, throws) else Discard(d, point.status, polls, throws)
  }

  const FRESH := Ctx(SendInProgress, false, NotReading, [], None, [])

  /** Both operations are started, sending first. */
  function Start(blockingFails: bool, sendFails: bool, flush: Flush, polls: seq<Poll>, throws: bool): Ctx {
    ResultOn(SendPerform(FRESH, blockingFails, sendFails, flush), NotReading, None, false, polls, throws)
  }

  /** A wait ends, with an error or without, and its operation resumes. */
  datatype Event =
    | WriteWaitEnds(ec: Option<Code>, flush: Flush)
    | ReadWaitEnds(ec: Option<Code>, consumeFails: bool, polls: seq<Poll>, throws: bool)

  predicate Enabled(c: Ctx, e: Event) {
    if e.WriteWaitEnds? then c.writing else c.reading != NotReading
  }

  function Apply(c: Ctx, e: Event): Ctx {
    match e
    case WriteWaitEnds(ec, flush) => SendOn(c.(writing := false), ec, flush)
    case ReadWaitEnds(ec, consumeFails, polls, throws) =>
      ResultOn(c.(reading := NotReading), c.reading, ec, consumeFails, polls, throws)
  }

  predicate Allowed(c: Ctx, es: seq<Event>)
    decreases |es|
  {
    es == [] || (Enabled(c, es[0]) && Allowed(Apply(c, es[0]), es[1..]))
  }

  function Run(c: Ctx, es: seq<Event>): Ctx
    decreases |es|
  {
    if es == [] then c else Run(Apply(c, es[0]), es[1..])
  }

  // ---------------------------------------------------------------------------------------
  // The object: the same operations, step by step.

  class RequestContext {
    var query: QueryState
    var writing: bool
    var reading: Reading
    var calls: seq<Call>
    ghost var settled: Option<QueryState>
    ghost var heard: seq<Answer>

    ghost function State(): Ctx
      reads this
    {
      Ctx(query, writing, reading, calls, settled, heard)
    }

    constructor ()
      ensures State() == FRESH
    {
      query, writing, reading, calls := SendInProgress, false, NotReading, [];
      settled, heard := None, [];
    }

    method DoneWithError(code: Code)
      modifies this
      ensures State() == Fail(old(State()), code)
    {
      query := Error;
      calls := calls + [Failure(code)];
    }

    method Done()
      modifies this
      ensures State() == Succeed(old(State()))
    {
      settled := Some(query);
      calls := calls + [Success];
    }

    method Send(ec: Option<Code>, flush: Flush)
      modifies this
      ensures State() == SendOn(old(State()), ec, flush)
    {
      if query != SendInProgress {
        return;
      }
      heard := heard + [WriteWait(ec)];
      if ec.Some? {
        DoneWithError(ec.value);
        return;
      }
      heard := heard + [Flushed(flush)];
      match flush {
        case FlushError => DoneWithError(FlushFailed);
        case FlushPending => writing := true;
        case FlushDone => query := SendFinish;
      }
    }

    method Handle(status: Status, throws: bool)
      modifies this
      ensures State() == HandleResult(old(State()), status, throws)
    {
      match status {
        case SingleTuple | TuplesOk | CommandOk =>
          heard := heard + [Processed(throws)];
          if throws {
            DoneWithError(BadResultProcess);
          } else {
            Done();
          }
        case BadResponseStatus => DoneWithError(BadResponse);
        case EmptyQueryStatus => DoneWithError(EmptyQuery);
        case FatalError(state) => DoneWithError(SqlState(state));
        case OtherStatus => DoneWithError(UnexpectedStatus);
      }
    }

    /** The inner loop of the coroutine: results after the first are dropped. */
    method DiscardRest(status: Status, polls: seq<Poll>, throws: bool)
      modifies this
      ensures State() == Discard(old(State()), status, polls, throws)
    {
      var i := 0;
      while i < |polls| && polls[i].Gives? && polls[i].result.Some?
        invariant 0 <= i <= |polls|
        invariant Discard(State(), status, polls[i..], throws) == Discard(old(State()), status, polls, throws)
      {
        heard := heard + [Polled(polls[i])];
        assert polls[i..][1..] == polls[i + 1..];
        i := i + 1;
      }
      if i == |polls| || polls[i].Busy? {
        heard := heard + [Polled(Busy)];
        reading := AwaitRest(status);
      } else {
        heard := heard + [Polled(polls[i])];
        Handle(status, throws);
      }
    }

    method GetResult(point: Reading, ec: Option<Code>, consumeFails: bool, polls: seq<Poll>, throws: bool)
      modifies this
      ensures State() == ResultOn(old(State()), point, ec, consumeFails, polls, throws)
    {
      if query == Error {
        return;
      }
      heard := heard + [ReadWait(ec)];
      if ec.Some? {
        DoneWithError(if ec.value == BadDescriptor then OperationAborted else ec.value);
        return;
      }
      if !point.NotReading? {
        heard := heard + [Consumed(consumeFails)];
      }
      if point.AwaitRest? {
        if consumeFails {
          Handle(point.status, throws);
        } else {
          DiscardRest(point.status, polls, throws);
        }
        return;
      }
      if point.AwaitFirst? && consumeFails {
        DoneWithError(ConsumeInputFailed);
        return;
      }
      GetFirst(polls, throws);
    }

    /** The first result, as far as the connection gives it. */
    method GetFirst(polls: seq<Poll>, throws: bool)
      modifies this
      ensures State() == FirstResult(old(State()), polls, throws)
    {
      if polls == [] || polls[0].Busy? {
        heard := heard + [Polled(Busy)];
        reading := AwaitFirst;
        return;
      }
      heard := heard + [Polled(polls[0])];
      match polls[0].result {
        case None => Done();
        case Some(status) =>
          if status == SingleTuple {
            Handle(status, throws);
          } else {
            DiscardRest(status, polls[1..], throws);
          }
      }
    }
  }

  // ---------------------------------------------------------------------------------------
  // What holds in every interleaving.

  /** The shapes a reachable context can have. */
  ghost predicate Inv(c: Ctx) {
    && (c.query == SendFinish ==> !c.writing)
    && (c.query == SendInProgress ==> c.writing)
    && (c.calls == [] ==> c.query != Error && c.reading != NotReading && c.settled == None)
    && (c.calls != [] && c.query != Error ==> Succeeded(c))
    && (c.query == Error ==> FailedOnce(c) || FailedAfterSuccess(c))
  }

  /** The handler was told of success, once; if sending was over by then, it stays over. */
  ghost predicate Succeeded(c: Ctx) {
    && c.calls == [Success] && c.reading == NotReading
    && (c.settled == Some(SendInProgress) || (c.settled == Some(SendFinish) && c.query == SendFinish))
  }

  ghost predicate FailedOnce(c: Ctx) {
    |c.calls| == 1 && c.calls[0].Failure? && c.settled == None
  }

  /** Success was reported while the query was still being sent, and then sending failed. */
  ghost predicate FailedAfterSuccess(c: Ctx) {
    && |c.calls| == 2 && c.calls[0] == Success && c.calls[1].Failure?
    && c.reading == NotReading && c.settled == Some(SendInProgress)
  }

  /** Neither operation waits for anything. */
  predicate Quiescent(c: Ctx) {
    !c.writing && c.reading == NotReading
  }

  lemma {:induction false} DiscardKeepsInv(c: Ctx, status: Status, polls: seq<Poll>, throws: bool)
    requires c.calls == [] && c.settled == None && c.reading == NotReading
    requires c.query == if c.writing then SendInProgress else SendFinish
    ensures Inv(Discard(c, status, polls, throws))
    decreases polls
  {
    if polls != [] && polls[0].Gives? && polls[0].result.Some? {
      DiscardKeepsInv(Hear(c, Polled(polls[0])), status, polls[1..], throws);
    }
  }

  lemma FirstKeepsInv(c: Ctx, polls: seq<Poll>, throws: bool)
    requires c.calls == [] && c.settled == None && c.reading == NotReading
    requires c.query == if c.writing then SendInProgress else SendFinish
    ensures Inv(FirstResult(c, polls, throws))
  {
    if polls != [] && polls[0].Gives? && polls[0].result.Some? {
      DiscardKeepsInv(Hear(c, Polled(polls[0])), polls[0].result.value, polls[1..], throws);
    }
  }

  lemma ResultKeepsInv(c: Ctx, point: Reading, ec: Option<Code>, consumeFails: bool, polls: seq<Poll>, throws: bool)
    requires c.calls == [] && c.settled == None && c.reading == NotReading
    requires c.query == if c.writing then SendInProgress else SendFinish
    ensures Inv(ResultOn(c, point, ec, consumeFails, polls, throws))
  {
    var d := Hear(c, ReadWait(ec));
    var f := Hear(d, Consumed(consumeFails));
    if point.AwaitRest? {
      DiscardKeepsInv(f, point.status, polls, throws);
    } else {
      FirstKeepsInv(if point.NotReading? then d else f, polls, throws);
    }
  }

  lemma StartInv(blockingFails: bool, sendFails: bool, flush: Flush, polls: seq<Poll>, throws: bool)
    ensures Inv(Start(blockingFails, sendFails, flush, polls, throws))
  {
    var c := SendPerform(FRESH, blockingFails, sendFails, flush);
    if c.query != Error {
      ResultKeepsInv(c, NotReading, None, false, polls, throws);
    }
  }

  lemma StepInv(c: Ctx, e: Event)
    requires Inv(c) && Enabled(c, e)
    ensures Inv(Apply(c, e))
  {
    if e.ReadWaitEnds? && c.query != Error {
      ResultKeepsInv(c.(reading := NotReading), c.reading, e.ec, e.consumeFails, e.polls, e.throws);
    }
  }

  lemma {:induction false} RunInv(c: Ctx, es: seq<Event>)
    requires Inv(c) && Allowed(c, es)
    ensures Inv(Run(c, es))
    decreases |es|
  {
    if es == [] {
    } else {
      StepInv(c, es[0]);
      RunInv(Apply(c, es[0]), es[1..]);
    }
  }

  /** Some way a request can have gone so far. */
  ghost predicate Reachable(c: Ctx) {
    exists blockingFails, sendFails, flush, polls, throws, es ::
      && Allowed(Start(blockingFails, sendFails, flush, polls, throws), es)
      && c == Run(Start(blockingFails, sendFails, flush, polls, throws), es)
  }

  lemma ReachableInv(c: Ctx)
    requires Reachable(c)
    ensures Inv(c)
  {
    var blockingFails, sendFails, flush, polls, throws, es :|
      && Allowed(Start(blockingFails, sendFails, flush, polls, throws), es)
      && c == Run(Start(blockingFails, sendFails, flush, polls, throws), es);
    StartInv(blockingFails, sendFails, flush, polls, throws);
    RunInv(Start(blockingFails, sendFails, flush, polls, throws), es);
  }

  /** When nothing is waited for, the handler has been called: no request is lost. */
  lemma QuiescentMeansCalled(c: Ctx)
    requires Reachable(c) && Quiescent(c)
    ensures c.calls != []
  {
    ReachableInv(c);
  }

  /** Nothing is reported after an error. */
  lemma {:induction false} NothingAfterError(c: Ctx, es: seq<Event>)
    requires c.query == Error && Allowed(c, es)
    ensures Run(c, es).calls == c.calls && Run(c, es).query == Error
    decreases |es|
  {
    if es == [] {
    } else {
      NothingAfterError(Apply(c, es[0]), es[1..]);
    }
  }

  /**
   The handler is called at most once, except in one case: success was reported while the query was still
   being sent, and sending failed afterwards. Then it is called exactly twice.
   */
  lemma CalledTwiceExactlyWhen(c: Ctx)
    requires Reachable(c)
    ensures |c.calls| <= 2
    ensures |c.calls| == 2 <==> c.settled == Some(SendInProgress) && c.query == Error
    ensures Quiescent(c) && c.settled != Some(SendInProgress) ==> |c.calls| == 1
    ensures c.query == Error ==> c.calls != [] && c.calls[|c.calls| - 1].Failure?
  {
    ReachableInv(c);
  }

  /** Success found the query sent: the request is over, and the handler has been called exactly once. */
  lemma SuccessAfterSendIsFinal(c: Ctx, es: seq<Event>)
    requires Reachable(c) && c.settled == Some(SendFinish) && Allowed(c, es)
    ensures Run(c, es) == c && c.calls == [Success] && Quiescent(c)
  {
    ReachableInv(c);
    assert es == [];
  }

  /** The events can happen, and then the handler has been called `n` times. */
  ghost predicate LeadsTo(c: Ctx, es: seq<Event>, n: nat) {
    Allowed(c, es) && |Run(c, es).calls| == n
  }

  /** After a success a second call is possible exactly when the query state is still `send_in_progress`. */
  lemma SecondCallPossibleExactlyWhen(c: Ctx)
    requires Reachable(c) && c.calls == [Success]
    ensures (exists es :: LeadsTo(c, es, 2)) <==> c.query == SendInProgress
  {
    ReachableInv(c);
    if c.query == SendInProgress {
      var e := WriteWaitEnds(Some(OperationAborted), FlushDone);
      var es := [e];
      assert Allowed(Apply(c, e), es[1..]) && Run(Apply(c, e), es[1..]) == Apply(c, e);
      assert LeadsTo(c, es, 2);
    } else {
      forall es | Allowed(c, es) ensures !LeadsTo(c, es, 2) {
        assert es == [];
      }
    }
  }

  /** It does happen: the query is half sent, the result is there already, and then the write wait is aborted. */
  lemma CalledTwiceHappens()
    ensures exists c :: Reachable(c) && c.calls == [Success, Failure(OperationAborted)]
  {
    var s := Start(false, false, FlushPending, [Gives(None)], false);
    var e := WriteWaitEnds(Some(OperationAborted), FlushDone);
    var es := [e];
    assert Allowed(Apply(s, e), es[1..]) && Run(Apply(s, e), es[1..]) == Apply(s, e);
    var c := Run(s, es);
    assert Allowed(s, es) && c == Run(s, es);
    assert Reachable(c) && c.calls == [Success, Failure(OperationAborted)];
  }
}
