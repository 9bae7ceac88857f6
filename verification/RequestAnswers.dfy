/** Which call of the handler the answers lead to: what a request is told decides what its user is told. */
module RequestAnswers {
  import opened Basics
  import opened Requests

  predicate Good(status: Status) {
    status == SingleTuple || status == TuplesOk || status == CommandOk
  }

  /** The code that tells of a first result that is not good. */
  function CodeOf(status: Status): Code
    requires !Good(status)
  {
    match status
    case BadResponseStatus => BadResponse
    case EmptyQueryStatus => EmptyQuery
    case FatalError(state) => SqlState(state)
    case OtherStatus => UnexpectedStatus
  }

  // ---------------------------------------------------------------------------------------
  // Reading a history

  /**
   What a history says: the first result libpq gave, if it gave one yet (there may have been none to give); whether
   the results have ended; how often they were processed; the latest look at the connection and the latest answer of
   `PQflush`; and the calls that are due.
   */
  datatype Said = Said(
    first: Option<Option<Status>>, over: bool, processed: nat, look: Option<Poll>, flow: Option<Flush>, due: seq<Call>)

  const NOTHING := Said(None, false, 0, None, None, [])

  /** The results end with nothing more to give, or no more input, after the first; or with it, if it is a row. */
  predicate Ends(first: Option<Option<Status>>, a: Answer) {
    if first.None? then a == Polled(Gives(Some(SingleTuple)))
    else first.value.Some? && (a == Polled(Gives(None)) || a == Consumed(true))
  }

  /** The calls an answer leads to. */
  function DueTo(first: Option<Option<Status>>, a: Answer): seq<Call> {
    match a
    case Blocking(failed) => if failed then [Failure(SetNonblockingFailed)] else []
    case Sent(failed) => if failed then [Failure(SendQueryParamsFailed)] else []
    case WriteWait(ec) => if ec.Some? then [Failure(ec.value)] else []
    case Flushed(flush) => if flush == FlushError then [Failure(FlushFailed)] else []
    case ReadWait(ec) =>
      if ec.None? then [] else [Failure(if ec.value == BadDescriptor then OperationAborted else ec.value)]
    case Consumed(failed) =>
      if !failed then [] else if first.None? then [Failure(ConsumeInputFailed)] else DueToStatus(first.value)
    case Polled(poll) =>
      if poll != Gives(None) then [] else if first.None? then [Success] else DueToStatus(first.value)
    case Processed(threw) => if threw then [Failure(BadResultProcess)] else [Success]
  }

  function DueToStatus(status: Option<Status>): seq<Call> {
    if status.Some? && !Good(status.value) then [Failure(CodeOf(status.value))] else []
  }

  function Next(t: Said, a: Answer): Said {
    Said(if t.first.None? && a.Polled? && a.poll.Gives? then Some(a.poll.result) else t.first,
         t.over || Ends(t.first, a),
         t.processed + if a.Processed? then 1 else 0,
         if a.Polled? then Some(a.poll) else t.look,
         if a.Flushed? then Some(a.flush) else t.flow,
         t.due + DueTo(t.first, a))
  }

  function Says(h: seq<Answer>): Said {
    if h == [] then NOTHING else Next(Says(h[..|h| - 1]), h[|h| - 1])
  }

  lemma OneMore(h: seq<Answer>, a: Answer)
    ensures Says(h + [a]) == Next(Says(h), a)
  {
    assert (h + [a])[..|h|] == h;
  }

  // ---------------------------------------------------------------------------------------
  // The invariant

  /** The result operation is where the answers leave it. */
  ghost predicate ReadingOk(c: Ctx, t: Said) {
    && (c.reading != NotReading ==> t.look == Some(Busy) && !t.over)
    && (c.reading == AwaitFirst ==> t.first.None?)
    && (c.reading.AwaitRest? ==> t.first == Some(Some(c.reading.status)))
  }

  /** So is the sending one. */
  ghost predicate WritingOk(c: Ctx, t: Said) {
    && (c.writing ==> t.flow == Some(FlushPending))
    && (c.query == SendFinish ==> t.flow == Some(FlushDone))
  }

  /** The results are processed once they have ended, once, if the first was good, and not otherwise. */
  ghost predicate ProcessOk(t: Said) {
    t.processed == if t.over && t.first.Some? && t.first.value.Some? && Good(t.first.value.value) then 1 else 0
  }

  ghost predicate Agrees(c: Ctx, t: Said) {
    c.calls == t.due && ReadingOk(c, t) && WritingOk(c, t) && ProcessOk(t)
  }

  ghost predicate HeardOk(c: Ctx) {
    Agrees(c, Says(c.heard))
  }

  /** The result operation goes on: it has not called anybody, and its results have not ended. */
  ghost predicate Going(c: Ctx, t: Said) {
    c.calls == t.due == [] && c.reading == NotReading && WritingOk(c, t) && !t.over && t.processed == 0
  }

  lemma ProcessIsDue(c: Ctx, t: Said, status: Status, throws: bool)
    requires t == Says(c.heard) && c.calls == t.due == [] && c.reading == NotReading && WritingOk(c, t)
    requires t.over && t.processed == 0 && t.first == Some(Some(status)) && Good(status)
    ensures HeardOk(ProcessAndDone(c, throws))
  {
    OneMore(c.heard, Processed(throws));
  }

  lemma HandleSplits(c: Ctx, status: Status, throws: bool)
    ensures HandleResult(c, status, throws) ==
            if Good(status) then ProcessAndDone(c, throws) else Fail(c, CodeOf(status))
  {
  }

  /** Answer `a` ends the results. */
  lemma EndIsDue(c: Ctx, t: Said, a: Answer, status: Status, throws: bool)
    requires t == Says(c.heard) && Going(c, t) && Ends(t.first, a) && Next(t, a).first == Some(Some(status))
    ensures HeardOk(HandleResult(Hear(c, a), status, throws))
  {
    OneMore(c.heard, a);
    HandleSplits(Hear(c, a), status, throws);
    if Good(status) {
      ProcessIsDue(Hear(c, a), Next(t, a), status, throws);
    }
  }

  /** An answer that leads to nothing. */
  lemma StillGoing(c: Ctx, t: Said, a: Answer)
    requires t == Says(c.heard) && Going(c, t) && DueTo(t.first, a) == [] && !Ends(t.first, a)
    requires !a.Processed? && !a.Flushed?
    ensures Says(Hear(c, a).heard) == Next(t, a) && Going(Hear(c, a), Next(t, a))
  {
    OneMore(c.heard, a);
  }

  lemma SuspendIsDue(c: Ctx, t: Said, point: Reading)
    requires t == Says(c.heard) && Going(c, t)
    requires if point.AwaitRest? then t.first == Some(Some(point.status)) else t.first.None?
    ensures HeardOk(Hear(c, Polled(Busy)).(reading := point))
  {
    StillGoing(c, t, Polled(Busy));
  }

  lemma {:induction false} DiscardIsDue(c: Ctx, t: Said, status: Status, polls: seq<Poll>, throws: bool)
    requires t == Says(c.heard) && Going(c, t) && t.first == Some(Some(status))
    ensures HeardOk(Discard(c, status, polls, throws))
    decreases polls
  {
    if polls == [] || polls[0].Busy? {
      SuspendIsDue(c, t, AwaitRest(status));
    } else if polls[0].result.Some? {
      StillGoing(c, t, Polled(polls[0]));
      DiscardIsDue(Hear(c, Polled(polls[0])), Next(t, Polled(polls[0])), status, polls[1..], throws);
    } else {
      EndIsDue(c, t, Polled(polls[0]), status, throws);
    }
  }

  lemma NoResultIsDue(c: Ctx, t: Said)
    requires t == Says(c.heard) && Going(c, t) && t.first.None?
    ensures HeardOk(Succeed(Hear(c, Polled(Gives(None)))))
  {
    OneMore(c.heard, Polled(Gives(None)));
  }

  lemma FirstIsDue(c: Ctx, t: Said, polls: seq<Poll>, throws: bool)
    requires t == Says(c.heard) && Going(c, t) && t.first.None?
    ensures HeardOk(FirstResult(c, polls, throws))
  {
    if polls == [] || polls[0].Busy? {
      SuspendIsDue(c, t, AwaitFirst);
    } else if polls[0].result.None? {
      NoResultIsDue(c, t);
    } else if polls[0].result.value == SingleTuple {
      EndIsDue(c, t, Polled(polls[0]), SingleTuple, throws);
    } else {
      StillGoing(c, t, Polled(polls[0]));
      DiscardIsDue(Hear(c, Polled(polls[0])), Next(t, Polled(polls[0])), polls[0].result.value, polls[1..], throws);
    }
  }

  lemma ResumedIsDue(c: Ctx, t: Said, point: Reading, consumeFails: bool, polls: seq<Poll>, throws: bool)
    requires t == Says(c.heard) && Going(c, t) && c.query != Error && !point.NotReading?
    requires if point.AwaitRest? then t.first == Some(Some(point.status)) else t.first.None?
    ensures var d := Hear(c, Consumed(consumeFails));
            && (point.AwaitFirst? && consumeFails ==> HeardOk(Fail(d, ConsumeInputFailed)))
            && (point.AwaitFirst? && !consumeFails ==> HeardOk(FirstResult(d, polls, throws)))
            && (point.AwaitRest? && consumeFails ==> HeardOk(HandleResult(d, point.status, throws)))
            && (point.AwaitRest? && !consumeFails ==> HeardOk(Discard(d, point.status, polls, throws)))
  {
    var d := Hear(c, Consumed(consumeFails));
    OneMore(c.heard, Consumed(consumeFails));
    if consumeFails {
      if point.AwaitRest? {
        EndIsDue(c, t, Consumed(true), point.status, throws);
      }
    } else if point.AwaitRest? {
      DiscardIsDue(d, Next(t, Consumed(false)), point.status, polls, throws);
    } else {
      FirstIsDue(d, Next(t, Consumed(false)), polls, throws);
    }
  }

  lemma ResultIsDue(
    c: Ctx, t: Said, point: Reading, ec: Option<Code>, consumeFails: bool, polls: seq<Poll>, throws: bool)
    requires t == Says(c.heard) && Going(c, t) && c.query != Error
    requires if point.AwaitRest? then t.first == Some(Some(point.status)) else t.first.None?
    ensures HeardOk(ResultOn(c, point, ec, consumeFails, polls, throws))
  {
    var d := Hear(c, ReadWait(ec));
    OneMore(c.heard, ReadWait(ec));
    if ec.None? {
      if point.NotReading? {
        FirstIsDue(d, Next(t, ReadWait(ec)), polls, throws);
      } else {
        ResumedIsDue(d, Next(t, ReadWait(ec)), point, consumeFails, polls, throws);
      }
    }
  }

  lemma WaitIsDue(c: Ctx, t: Said, ec: Option<Code>)
    requires t == Says(c.heard) && Agrees(c, t) && !c.writing && c.query == SendInProgress
    ensures var d := Hear(c, WriteWait(ec));
            && (ec.Some? ==> HeardOk(Fail(d, ec.value)))
            && (ec.None? ==> Says(d.heard) == Next(t, WriteWait(ec)) && Agrees(d, Next(t, WriteWait(ec))))
  {
    OneMore(c.heard, WriteWait(ec));
  }

  lemma LaterFlush(c: Ctx, t: Said, flush: Flush)
    requires t == Says(c.heard) && Agrees(c, t) && !c.writing && c.query == SendInProgress
    ensures var d := Hear(c, Flushed(flush));
            && (flush == FlushError ==> HeardOk(Fail(d, FlushFailed)))
            && (flush == FlushPending ==> HeardOk(d.(writing := true)))
            && (flush == FlushDone ==> HeardOk(d.(query := SendFinish)))
  {
    OneMore(c.heard, Flushed(flush));
  }

  lemma SendIsDue(c: Ctx, ec: Option<Code>, flush: Flush)
    requires HeardOk(c) && !c.writing
    ensures HeardOk(SendOn(c, ec, flush))
  {
    if c.query == SendInProgress {
      var t := Says(c.heard);
      WaitIsDue(c, t, ec);
      if ec.None? {
        LaterFlush(Hear(c, WriteWait(ec)), Next(t, WriteWait(ec)), flush);
      }
    }
  }

  /** One answer fails the sending at its very start. */
  lemma FailIsDue(c: Ctx, t: Said, a: Answer, code: Code)
    requires t == Says(c.heard) && Going(c, t) && !c.writing && (a.Blocking? || a.Sent?) && a.failed
    requires code == if a.Blocking? then SetNonblockingFailed else SendQueryParamsFailed
    ensures HeardOk(Fail(Hear(c, a), code))
  {
    OneMore(c.heard, a);
  }

  /** The sending operation has not flushed yet. */
  ghost predicate Starting(c: Ctx, t: Said) {
    t == Says(c.heard) && Going(c, t) && t.first.None? && !c.writing && c.query == SendInProgress
  }

  /** Both operations can go on from here, or else sending has failed. */
  ghost predicate Performed(c: Ctx, t: Said) {
    t == Says(c.heard) && Agrees(c, t) && (c.query != Error ==> Going(c, t) && t.first.None?)
  }

  lemma FlushIsDue(c: Ctx, t: Said, flush: Flush)
    requires Starting(c, t)
    ensures var d := Hear(c, Flushed(flush));
            && (flush == FlushError ==> Performed(Fail(d, FlushFailed), Next(t, Flushed(flush))))
            && (flush == FlushPending ==> Performed(d.(writing := true), Next(t, Flushed(flush))))
            && (flush == FlushDone ==> Performed(d.(query := SendFinish), Next(t, Flushed(flush))))
  {
    OneMore(c.heard, Flushed(flush));
  }

  lemma FirstFlush(c: Ctx, t: Said, ec: Option<Code>, flush: Flush)
    requires Starting(c, t) && ec.None?
    ensures Performed(SendOn(c, ec, flush), Next(Next(t, WriteWait(ec)), Flushed(flush)))
  {
    StillGoing(c, t, WriteWait(ec));
    FlushIsDue(Hear(c, WriteWait(ec)), Next(t, WriteWait(ec)), flush);
  }

  lemma PerformIsDue(c: Ctx, t: Said, blockingFails: bool, sendFails: bool, flush: Flush)
    requires Starting(c, t)
    ensures var d := SendPerform(c, blockingFails, sendFails, flush); Performed(d, Says(d.heard))
  {
    var d, u := Hear(c, Blocking(blockingFails)), Next(t, Blocking(blockingFails));
    if blockingFails {
      FailIsDue(c, t, Blocking(blockingFails), SetNonblockingFailed);
    } else {
      StillGoing(c, t, Blocking(blockingFails));
      if sendFails {
        FailIsDue(d, u, Sent(sendFails), SendQueryParamsFailed);
      } else {
        StillGoing(d, u, Sent(sendFails));
        FirstFlush(Hear(d, Sent(sendFails)), Next(u, Sent(sendFails)), None, flush);
      }
    }
  }

  lemma StartIsDue(blockingFails: bool, sendFails: bool, flush: Flush, polls: seq<Poll>, throws: bool)
    ensures HeardOk(Start(blockingFails, sendFails, flush, polls, throws))
  {
    var c := SendPerform(FRESH, blockingFails, sendFails, flush);
    PerformIsDue(FRESH, NOTHING, blockingFails, sendFails, flush);
    if c.query != Error {
      ResultIsDue(c, Says(c.heard), NotReading, None, false, polls, throws);
    }
  }

  lemma StepIsDue(c: Ctx, e: Event)
    requires Inv(c) && Enabled(c, e) && HeardOk(c)
    ensures HeardOk(Apply(c, e))
  {
    match e
    case WriteWaitEnds(ec, flush) => SendIsDue(c.(writing := false), ec, flush);
    case ReadWaitEnds(ec, consumeFails, polls, throws) =>
      if c.query != Error {
        ResultIsDue(c.(reading := NotReading), Says(c.heard), c.reading, ec, consumeFails, polls, throws);
      }
  }

  lemma {:induction false} RunIsDue(c: Ctx, es: seq<Event>)
    requires Inv(c) && HeardOk(c) && Allowed(c, es)
    ensures HeardOk(Run(c, es))
    decreases |es|
  {
    if es == [] {
    } else {
      StepInv(c, es[0]);
      StepIsDue(c, es[0]);
      RunIsDue(Apply(c, es[0]), es[1..]);
    }
  }

  lemma ReachableIsDue(c: Ctx)
    requires Reachable(c)
    ensures HeardOk(c)
  {
    var blockingFails, sendFails, flush, polls, throws, es :|
      && Allowed(Start(blockingFails, sendFails, flush, polls, throws), es)
      && c == Run(Start(blockingFails, sendFails, flush, polls, throws), es);
    StartInv(blockingFails, sendFails, flush, polls, throws);
    StartIsDue(blockingFails, sendFails, flush, polls, throws);
    RunIsDue(Start(blockingFails, sendFails, flush, polls, throws), es);
  }

  // ---------------------------------------------------------------------------------------
  // In plain terms

  predicate Gave(a: Answer) {
    a.Polled? && a.poll.Gives?
  }

  /** The first result libpq gave is `r`, with answer `i`. */
  predicate GaveFirst(h: seq<Answer>, i: nat, r: Option<Status>) {
    i < |h| && h[i] == Polled(Gives(r)) && forall j :: 0 <= j < i ==> !Gave(h[j])
  }

  lemma {:induction false} FirstFound(h: seq<Answer>) returns (i: nat)
    requires Says(h).first.Some?
    ensures GaveFirst(h, i, Says(h).first.value)
  {
    var n := |h| - 1;
    if Says(h[..n]).first.Some? {
      i := FirstFound(h[..n]);
    } else {
      i := n;
      forall j | 0 <= j < n ensures !Gave(h[j]) {
        NoneGave(h[..n], j);
      }
    }
  }

  lemma {:induction false} NoneGave(h: seq<Answer>, j: nat)
    requires Says(h).first.None? && j < |h|
    ensures !Gave(h[j])
  {
    if j < |h| - 1 {
      NoneGave(h[..|h| - 1], j);
    }
  }

  lemma NotBefore(h: seq<Answer>, i: nat, r: Option<Status>)
    requires GaveFirst(h, i, r)
    ensures Says(h[..i]).first.None?
  {
    if Says(h[..i]).first.Some? {
      var j := FirstFound(h[..i]);
      assert false;
    }
  }

  lemma {:induction false} FirstIs(h: seq<Answer>, i: nat, r: Option<Status>)
    requires GaveFirst(h, i, r)
    ensures Says(h).first == Some(r)
  {
    var n := |h| - 1;
    if i < n {
      FirstIs(h[..n], i, r);
    } else {
      NotBefore(h, i, r);
    }
  }

  /** Answer `k`, after those before it, leads to `call`. */
  predicate LeadsToCall(h: seq<Answer>, k: nat, call: Call) {
    k < |h| && call in DueTo(Says(h[..k]).first, h[k])
  }

  lemma {:induction false} FindCall(h: seq<Answer>, call: Call) returns (k: nat)
    requires call in Says(h).due
    ensures LeadsToCall(h, k, call)
  {
    var n := |h| - 1;
    if call in Says(h[..n]).due {
      k := FindCall(h[..n], call);
      assert h[..n][..k] == h[..k];
    } else {
      k := n;
    }
  }

  lemma {:induction false} CallIs(h: seq<Answer>, k: nat, call: Call)
    requires LeadsToCall(h, k, call)
    ensures call in Says(h).due
  {
    var n := |h| - 1;
    if k < n {
      assert h[..n][..k] == h[..k];
      CallIs(h[..n], k, call);
    }
  }

  lemma {:induction false} ProcessedCounts(h: seq<Answer>, k: nat)
    requires k < |h| && h[k].Processed?
    ensures Says(h).processed > 0
  {
    if k < |h| - 1 {
      ProcessedCounts(h[..|h| - 1], k);
    }
  }

  /** The first result was none, or it was good and processing it did not throw. */
  ghost predicate WentWell(h: seq<Answer>) {
    || (exists i :: GaveFirst(h, i, None))
    || (Processed(false) in h && exists i, status :: Good(status) && GaveFirst(h, i, Some(status)))
  }

  /** Answer `k` tells of a failure with that code. */
  predicate Tells(h: seq<Answer>, k: nat, code: Code) {
    && k < |h|
    && match h[k]
       case Blocking(failed) => failed && code == SetNonblockingFailed
       case Sent(failed) => failed && code == SendQueryParamsFailed
       case WriteWait(ec) => ec == Some(code)
       case Flushed(flush) => flush == FlushError && code == FlushFailed
       case ReadWait(ec) => ec.Some? && code == if ec.value == BadDescriptor then OperationAborted else ec.value
       case Consumed(failed) => failed && (forall j :: 0 <= j < k ==> !Gave(h[j])) && code == ConsumeInputFailed
       case Polled(_) => false
       case Processed(threw) => threw && code == BadResultProcess
  }

  /** The first result, given with answer `i`, was not good, and answer `k` was the end of the results. */
  predicate TellsOfResult(h: seq<Answer>, i: nat, k: nat, code: Code) {
    && i < k < |h| && h[i].Polled? && h[i].poll.Gives? && h[i].poll.result.Some?
    && GaveFirst(h, i, h[i].poll.result) && (h[k] == Polled(Gives(None)) || h[k] == Consumed(true))
    && !Good(h[i].poll.result.value) && code == CodeOf(h[i].poll.result.value)
  }

  lemma SuccessRead(h: seq<Answer>, k: nat)
    requires ProcessOk(Says(h)) && LeadsToCall(h, k, Success)
    ensures WentWell(h)
  {
    if h[k].Processed? {
      ProcessedCounts(h, k);
      var i := FirstFound(h);
      assert Good(Says(h).first.value.value) && GaveFirst(h, i, Some(Says(h).first.value.value));
    } else {
      forall j | 0 <= j < k ensures !Gave(h[j]) {
        NoneGave(h[..k], j);
      }
      assert GaveFirst(h, k, None);
    }
  }

  lemma SuccessIs(h: seq<Answer>)
    requires WentWell(h)
    ensures Success in Says(h).due
  {
    if i: nat :| GaveFirst(h, i, None) {
      NotBefore(h, i, None);
      CallIs(h, i, Success);
    } else {
      var k :| 0 <= k < |h| && h[k] == Processed(false);
      CallIs(h, k, Success);
    }
  }

  lemma FailureRead(h: seq<Answer>, k: nat, code: Code)
    requires LeadsToCall(h, k, Failure(code))
    ensures Tells(h, k, code) || exists i :: TellsOfResult(h, i, k, code)
  {
    if h[k].Consumed? || h[k].Polled? {
      if Says(h[..k]).first.Some? {
        var i := FirstFound(h[..k]);
        assert TellsOfResult(h, i, k, code);
      } else {
        forall j | 0 <= j < k ensures !Gave(h[j]) {
          NoneGave(h[..k], j);
        }
      }
    }
  }

  lemma FaultIs(h: seq<Answer>, k: nat, code: Code)
    requires Tells(h, k, code)
    ensures Failure(code) in Says(h).due
  {
    if h[k].Consumed? && Says(h[..k]).first.Some? {
      var j := FirstFound(h[..k]);
      assert false;
    }
    CallIs(h, k, Failure(code));
  }

  lemma BadResultIs(h: seq<Answer>, i: nat, k: nat, code: Code)
    requires TellsOfResult(h, i, k, code)
    ensures Failure(code) in Says(h).due
  {
    FirstIs(h[..k], i, h[i].poll.result);
    CallIs(h, k, Failure(code));
  }

  /** A failure with that code is told, by itself or of the first result. */
  ghost predicate WentWrong(h: seq<Answer>, code: Code) {
    (exists k :: Tells(h, k, code)) || (exists i, k :: TellsOfResult(h, i, k, code))
  }

  lemma FailureExactlyWhen(h: seq<Answer>, code: Code)
    ensures Failure(code) in Says(h).due <==> WentWrong(h, code)
  {
    if Failure(code) in Says(h).due {
      var k := FindCall(h, Failure(code));
      FailureRead(h, k, code);
    }
    if k: nat :| Tells(h, k, code) {
      FaultIs(h, k, code);
    }
    if i: nat, k: nat :| TellsOfResult(h, i, k, code) {
      BadResultIs(h, i, k, code);
    }
  }

  /**
   * However the two operations interleave, what the handler is told is what the operations were told. Success means
   * that the first result was none, or that it was good and was processed without throwing, and always follows from
   * that. A failure has the code of the answer that tells of it, or that of a first result which is not good once
   * the results have ended, and every such answer leads to its failure.
   */
  lemma HandlerHearsWhatWasHeard(c: Ctx)
    requires Reachable(c)
    ensures c.calls == Says(c.heard).due
    ensures Success in c.calls <==> WentWell(c.heard)
    ensures forall code :: Failure(code) in c.calls <==> WentWrong(c.heard, code)
  {
    ReachableIsDue(c);
    if Success in c.calls {
      var k := FindCall(c.heard, Success);
      SuccessRead(c.heard, k);
    }
    if WentWell(c.heard) {
      SuccessIs(c.heard);
    }
    forall code
      ensures Failure(code) in c.calls <==> WentWrong(c.heard, code)
    {
      FailureExactlyWhen(c.heard, code);
    }
  }

  /** What is waited for: more output to be sent, or more input, which the results need, not having ended. */
  lemma WaitsExactlyForMore(c: Ctx)
    requires Reachable(c)
    ensures var t := Says(c.heard);
            && (c.writing ==> t.flow == Some(FlushPending))
            && (c.query == SendFinish ==> t.flow == Some(FlushDone))
            && (c.query == SendInProgress ==> c.writing)
            && (c.reading != NotReading ==> t.look == Some(Busy) && !t.over)
            && (c.reading == AwaitFirst ==> t.first.None?)
            && (c.reading.AwaitRest? ==> t.first == Some(Some(c.reading.status)))
            && (c.query != Error ==> (c.reading == NotReading <==> c.calls != []))
            && ProcessOk(t)
  {
    ReachableIsDue(c);
    ReachableInv(c);
  }

  // ---------------------------------------------------------------------------------------
  // What is heard is what was answered

  /**
   * `more` are the first of the looks at the connection, in their order, and after them perhaps that it is busy, which
   * it is when the looks are used up, or how processing went.
   */
  predicate FromLooks(more: seq<Answer>, m: nat, polls: seq<Poll>, throws: bool) {
    && m <= |polls| && m <= |more| <= m + 1
    && (forall i :: 0 <= i < m ==> more[i] == Polled(polls[i]))
    && (|more| == m + 1 ==>
          more[m] == Processed(throws) || (more[m] == Polled(Busy) && (m == |polls| || polls[m].Busy?)))
  }

  /** The context heard `more` since it had heard `h`. */
  predicate HeardSince(c: Ctx, h: seq<Answer>, more: seq<Answer>) {
    c.heard == h + more
  }

  lemma HandleHears(c: Ctx, status: Status, throws: bool)
    ensures HandleResult(c, status, throws).heard == c.heard + if Good(status) then [Processed(throws)] else []
  {
  }

  lemma {:induction false} DiscardHears(c: Ctx, status: Status, polls: seq<Poll>, throws: bool)
    returns (more: seq<Answer>, m: nat)
    ensures FromLooks(more, m, polls, throws) && HeardSince(Discard(c, status, polls, throws), c.heard, more)
    decreases polls
  {
    if polls == [] || polls[0].Busy? {
      more, m := [Polled(Busy)], 0;
    } else if polls[0].result.Some? {
      var others, k := DiscardHears(Hear(c, Polled(polls[0])), status, polls[1..], throws);
      more, m := [Polled(polls[0])] + others, k + 1;
      Regroup(c.heard, [Polled(polls[0])], others);
      assert forall i :: 0 < i < m ==> more[i] == others[i - 1] && polls[i] == polls[1..][i - 1];
    } else {
      HandleHears(Hear(c, Polled(polls[0])), status, throws);
      var last := if Good(status) then [Processed(throws)] else [];
      more, m := [Polled(polls[0])] + last, 1;
      Regroup(c.heard, [Polled(polls[0])], last);
    }
  }

  lemma FirstHears(c: Ctx, polls: seq<Poll>, throws: bool) returns (more: seq<Answer>, m: nat)
    ensures FromLooks(more, m, polls, throws) && HeardSince(FirstResult(c, polls, throws), c.heard, more)
  {
    if polls == [] || polls[0].Busy? {
      more, m := [Polled(Busy)], 0;
    } else if polls[0].result.None? {
      more, m := [Polled(polls[0])], 1;
    } else if polls[0].result.value == SingleTuple {
      more, m := [Polled(polls[0]), Processed(throws)], 1;
    } else {
      var others, k := DiscardHears(Hear(c, Polled(polls[0])), polls[0].result.value, polls[1..], throws);
      more, m := [Polled(polls[0])] + others, k + 1;
      Regroup(c.heard, [Polled(polls[0])], others);
      assert forall i :: 0 < i < m ==> more[i] == others[i - 1] && polls[i] == polls[1..][i - 1];
    }
  }

  /**
   * The end of a write wait is heard of unless the request has failed or is sent already, and then so is the flush.
   * The end of a read wait is heard of unless the request has failed; if it ended well, then so is how the input was
   * consumed, and what the looks at the connection gave.
   */
  lemma StepHears(c: Ctx, e: Event) returns (more: seq<Answer>, m: nat)
    requires Inv(c) && Enabled(c, e)
    ensures e.WriteWaitEnds? ==>
              Apply(c, e).heard == c.heard +
                if c.query != SendInProgress then []
                else [WriteWait(e.ec)] + if e.ec.Some? then [] else [Flushed(e.flush)]
    ensures e.ReadWaitEnds? && c.query == Error ==> Apply(c, e).heard == c.heard
    ensures e.ReadWaitEnds? && c.query != Error && e.ec.Some? ==> Apply(c, e).heard == c.heard + [ReadWait(e.ec)]
    ensures e.ReadWaitEnds? && c.query != Error && e.ec.None? ==>
              && FromLooks(more, m, e.polls, e.throws)
              && HeardSince(Apply(c, e), c.heard + [ReadWait(e.ec)] + [Consumed(e.consumeFails)], more)
  {
    more, m := [], 0;
    if e.ReadWaitEnds? && c.query != Error && e.ec.None? {
      var d := Hear(Hear(c.(reading := NotReading), ReadWait(e.ec)), Consumed(e.consumeFails));
      if !e.consumeFails {
        if c.reading == AwaitFirst {
          more, m := FirstHears(d, e.polls, e.throws);
        } else {
          more, m := DiscardHears(d, c.reading.status, e.polls, e.throws);
        }
      } else if c.reading.AwaitRest? {
        HandleHears(d, c.reading.status, e.throws);
        more := if Good(c.reading.status) then [Processed(e.throws)] else [];
      }
    } else if e.WriteWaitEnds? && c.query == SendInProgress {
      Regroup(c.heard, [WriteWait(e.ec)], [Flushed(e.flush)]);
    }
  }

  /** What the start of sending hears, up to its first fault. */
  function Performing(blockingFails: bool, sendFails: bool, flush: Flush): seq<Answer> {
    if blockingFails then [Blocking(true)]
    else if sendFails then [Blocking(false), Sent(true)]
    else [Blocking(false), Sent(false), WriteWait(None), Flushed(flush)]
  }

  lemma PerformHears(blockingFails: bool, sendFails: bool, flush: Flush)
    ensures SendPerform(FRESH, blockingFails, sendFails, flush).heard == Performing(blockingFails, sendFails, flush)
  {
  }

  /** A request hears how its sending starts and, if that has not failed, what the looks at the connection gave. */
  lemma StartHears(blockingFails: bool, sendFails: bool, flush: Flush, polls: seq<Poll>, throws: bool)
    returns (more: seq<Answer>, m: nat)
    ensures var c := Start(blockingFails, sendFails, flush, polls, throws);
            var h := Performing(blockingFails, sendFails, flush);
            if blockingFails || sendFails || flush == FlushError then c.heard == h
            else FromLooks(more, m, polls, throws) && HeardSince(c, h + [ReadWait(None)], more)
  {
    more, m := [], 0;
    var c := SendPerform(FRESH, blockingFails, sendFails, flush);
    PerformHears(blockingFails, sendFails, flush);
    if c.query != Error {
      more, m := FirstHears(Hear(c, ReadWait(None)), polls, throws);
    }
  }
}
