/** Failover: an operation is tried again, on the same provider or on the next role, within one time budget. */
module Failover {
  import opened Basics
  import opened TimeTraits

  /** The clock does not run before its epoch. */
  type Time = t: Ticks | 0 <= t witness 0

  /** An error code other than success. */
  type Code = int

  /** An error condition, or what a role can recover: the codes it stands for. */
  type Condition = Code -> bool

  datatype Strategy =
    | Retry(tries: int, conditions: seq<Condition>)
    | RoleBased(roles: seq<Condition>)

  datatype Options = Options(strategy: Strategy, closing: bool, deadline: Option<Time>)

  /** A try knows how many tries remain, or the index of its role. */
  datatype Try = RetryTry(tries: int) | RoleTry(index: nat)

  /** How a try completes; `at` is the clock as the failover then reads it, which includes the gap after the try. */
  datatype Outcome = Outcome(error: Option<Code>, nullConnection: bool, at: Time)

  /** What the failover does, with the number of the try it concerns. */
  datatype Action =
    | Start(no: nat, share: Option<nat>, at: Time)
    | Notify(no: nat, code: Code)
    | Close(no: nat)
    | Call(no: nat, error: Option<Code>)

  // ---------------------------------------------------------------------------------------
  // Time

  function TimeLeft(t: Time, now: Time): nat {
    if t > now then t - now else 0
  }

  /** The deadline of an operation that is given `after` at `now`. */
  function DeadlineAfter(after: nat, now: Time): Time {
    if after > MAX_TICKS - now then MAX_TICKS else now + after
  }

  function Share(deadline: Option<Time>, tries: int, now: Time): Option<nat> {
    match deadline
    case None => None
    case Some(t) => Some(if tries > 0 then TimeLeft(t, now) / tries else 0)
  }

  // ---------------------------------------------------------------------------------------
  // Tries

  predicate Fits(s: Strategy, y: Try) {
    match s
    case Retry(_, _) => y.RetryTry?
    case RoleBased(roles) => y.RoleTry? && y.index < |roles|
  }

  function FirstTry(s: Strategy): Try {
    match s
    case Retry(n, _) => RetryTry(n)
    case RoleBased(_) => RoleTry(0)
  }

  function TriesLeft(s: Strategy, y: Try): int
    requires Fits(s, y)
  {
    match s
    case Retry(_, _) => y.tries
    case RoleBased(roles) => |roles| - y.index
  }

  predicate MatchCode(conditions: seq<Condition>, code: Code) {
    exists i :: 0 <= i < |conditions| && conditions[i](code)
  }

  predicate CanRetry(tries: int, conditions: seq<Condition>, code: Code) {
    tries >= 1 && (conditions == [] || MatchCode(conditions, code))
  }

  function OneLess(tries: int): nat {
    if tries > 1 then tries - 1 else 0
  }

  /** The role that takes over from role `k`. */
  function NextRole(roles: seq<Condition>, k: nat, code: Code): (r: Option<nat>)
    requires k < |roles|
    ensures r.Some? ==> k < r.value < |roles|
    decreases |roles| - k
  {
    if |roles| - k <= 1 then None
    else if roles[k + 1](code) then Some(k + 1)
    else NextRole(roles, k + 1, code)
  }

  function NextTry(s: Strategy, y: Try, code: Code): Option<Try>
    requires Fits(s, y)
  {
    match s
    case Retry(_, conditions) =>
      if CanRetry(OneLess(y.tries), conditions, code) then Some(RetryTry(OneLess(y.tries))) else None
    case RoleBased(roles) =>
      match NextRole(roles, y.index, code)
      case None => None
      case Some(j) => Some(RoleTry(j))
  }

  /** The least later role that can recover the error; none if there is none. */
  lemma {:induction false} NextRoleIsLeast(roles: seq<Condition>, k: nat, code: Code)
    requires k < |roles|
    ensures match NextRole(roles, k, code)
            case Some(j) => k < j < |roles| && roles[j](code) && forall i :: k < i < j ==> !roles[i](code)
            case None => forall i :: k < i < |roles| ==> !roles[i](code)
    decreases |roles| - k
  {
    if |roles| - k > 1 && !roles[k + 1](code) {
      NextRoleIsLeast(roles, k + 1, code);
    }
  }

  // ---------------------------------------------------------------------------------------
  // A run

  /**
   * `current` is the try under way; there is none once the handler was called. `share` and `at` are those of
   * the last try that started.
   */
  datatype State = State(current: Option<Try>, started: nat, share: Option<nat>, at: Time, log: seq<Action>)

  predicate Valid(o: Options, s: State) {
    s.started > 0 && (s.current.Some? ==> Fits(o.strategy, s.current.value))
  }

  function Begin(o: Options, now: Time): State
    requires Fits(o.strategy, FirstTry(o.strategy))
  {
    var y := FirstTry(o.strategy);
    var share := Share(o.deadline, TriesLeft(o.strategy, y), now);
    State(Some(y), 1, share, now, [Start(0, share, now)])
  }

  /** The guard closes the connection of a failed try, if there is one. */
  function Closing(o: Options, c: Outcome, no: nat): seq<Action> {
    if o.closing && !c.nullConnection then [Close(no)] else []
  }

  /** Retry closes the failed connection before the next try starts, role-based failover after that. */
  function Handover(o: Options, c: Outcome, no: nat, share: Option<nat>): seq<Action>
    requires c.error.Some?
  {
    var start := [Start(no + 1, share, c.at)];
    [Notify(no, c.error.value)] +
    if o.strategy.Retry? then Closing(o, c, no) + start else start + Closing(o, c, no)
  }

  function Complete(o: Options, s: State, c: Outcome): (r: State)
    requires Valid(o, s) && s.current.Some?
    ensures Valid(o, r)
  {
    var no := s.started - 1;
    if c.error.None? then s.(current := None, log := s.log + [Call(no, None)])
    else
      match NextTry(o.strategy, s.current.value, c.error.value)
      case None => s.(current := None, log := s.log + (Closing(o, c, no) + [Call(no, c.error)]))
      case Some(y) =>
        NextFits(o.strategy, s.current.value, c.error.value);
        var share := Share(o.deadline, TriesLeft(o.strategy, y), c.at);
        State(Some(y), s.started + 1, share, c.at, s.log + Handover(o, c, no, share))
  }

  lemma NextFits(s: Strategy, y: Try, code: Code)
    requires Fits(s, y) && NextTry(s, y, code).Some?
    ensures Fits(s, NextTry(s, y, code).value)
    ensures TriesLeft(s, NextTry(s, y, code).value) >= 1
    ensures TriesLeft(s, NextTry(s, y, code).value) < TriesLeft(s, y)
    ensures s.Retry? ==> TriesLeft(s, NextTry(s, y, code).value) == TriesLeft(s, y) - 1
  {
    if s.RoleBased? {
      NextRoleIsLeast(s.roles, y.index, code);
    }
  }

  /** The tries complete one after the other; after the handler was called nothing completes any more. */
  function Run(o: Options, now: Time, cs: seq<Outcome>): (r: State)
    requires Fits(o.strategy, FirstTry(o.strategy))
    ensures Valid(o, r)
  {
    if cs == [] then Begin(o, now)
    else
      var s := Run(o, now, cs[..|cs| - 1]);
      if s.current.None? then s else Complete(o, s, cs[|cs| - 1])
  }

  /** The outcomes that were really consumed: the handler was not called before the last one. */
  predicate Feasible(o: Options, now: Time, cs: seq<Outcome>)
    requires Fits(o.strategy, FirstTry(o.strategy))
  {
    cs == [] || Run(o, now, cs[..|cs| - 1]).current.Some?
  }

  // ---------------------------------------------------------------------------------------
  // Counting what a run did

  function Calls(log: seq<Action>): nat {
    if log == [] then 0 else Calls(log[..|log| - 1]) + if log[|log| - 1].Call? then 1 else 0
  }

  function Starts(log: seq<Action>): nat {
    if log == [] then 0 else Starts(log[..|log| - 1]) + if log[|log| - 1].Start? then 1 else 0
  }

  /** The tries whose connection was closed, in order. */
  function Closed(log: seq<Action>): seq<nat> {
    if log == [] then []
    else Closed(log[..|log| - 1]) + if log[|log| - 1].Close? then [log[|log| - 1].no] else []
  }

  lemma {:induction false} Distribute(a: seq<Action>, b: seq<Action>)
    ensures Calls(a + b) == Calls(a) + Calls(b)
    ensures Starts(a + b) == Starts(a) + Starts(b)
    ensures Closed(a + b) == Closed(a) + Closed(b)
  {
    if b == [] {
      assert a + b == a;
    } else {
      Distribute(a, b[..|b| - 1]);
      assert (a + b)[..|a + b| - 1] == a + b[..|b| - 1];
    }
  }

  lemma OneAction(a: Action)
    ensures Calls([a]) == if a.Call? then 1 else 0
    ensures Starts([a]) == if a.Start? then 1 else 0
    ensures Closed([a]) == if a.Close? then [a.no] else []
  {
    assert [a][..0] == [];
  }

  lemma ClosingCounts(o: Options, c: Outcome, no: nat)
    ensures Calls(Closing(o, c, no)) == 0 && Starts(Closing(o, c, no)) == 0
    ensures Closed(Closing(o, c, no)) == if o.closing && !c.nullConnection then [no] else []
  {
    OneAction(Close(no));
  }

  lemma HandoverCounts(o: Options, c: Outcome, no: nat, share: Option<nat>)
    requires c.error.Some?
    ensures Calls(Handover(o, c, no, share)) == 0 && Starts(Handover(o, c, no, share)) == 1
    ensures Closed(Handover(o, c, no, share)) == if o.closing && !c.nullConnection then [no] else []
  {
    var notify, start, close := [Notify(no, c.error.value)], [Start(no + 1, share, c.at)], Closing(o, c, no);
    OneAction(notify[0]);
    OneAction(start[0]);
    ClosingCounts(o, c, no);
    if o.strategy.Retry? {
      Distribute(close, start);
      Distribute(notify, close + start);
    } else {
      Distribute(start, close);
      Distribute(notify, start + close);
    }
  }

  lemma FinishCounts(o: Options, c: Outcome, no: nat)
    ensures var log := Closing(o, c, no) + [Call(no, c.error)];
            && Calls(log) == 1 && Starts(log) == 0
            && Closed(log) == if o.closing && !c.nullConnection then [no] else []
  {
    ClosingCounts(o, c, no);
    OneAction(Call(no, c.error));
    Distribute(Closing(o, c, no), [Call(no, c.error)]);
  }

  lemma CompleteCounts(o: Options, s: State, c: Outcome)
    requires Valid(o, s) && s.current.Some?
    ensures var r := Complete(o, s, c);
            && Calls(r.log) == Calls(s.log) + (if r.current.None? then 1 else 0)
            && Starts(r.log) == Starts(s.log) + (if r.current.Some? then 1 else 0)
            && r.started == s.started + (if r.current.Some? then 1 else 0)
            && Closed(r.log) == Closed(s.log) +
                 if c.error.Some? && o.closing && !c.nullConnection then [s.started - 1] else []
  {
    var did := Did(o, s, c);
    CompleteDoes(o, s, c);
    DidCounts(o, s, c);
    Distribute(s.log, did);
  }

  /** What the completion of a try adds to the log. */
  function Did(o: Options, s: State, c: Outcome): seq<Action>
    requires Valid(o, s) && s.current.Some?
  {
    var no := s.started - 1;
    if c.error.None? then [Call(no, None)]
    else if NextTry(o.strategy, s.current.value, c.error.value).None? then Closing(o, c, no) + [Call(no, c.error)]
    else Handover(o, c, no, Complete(o, s, c).share)
  }

  lemma CompleteDoes(o: Options, s: State, c: Outcome)
    requires Valid(o, s) && s.current.Some?
    ensures var r := Complete(o, s, c);
            && r.log == s.log + Did(o, s, c)
            && r.started == s.started + (if r.current.Some? then 1 else 0)
            && (r.current.None? <==> c.error.None? || NextTry(o.strategy, s.current.value, c.error.value).None?)
  {
  }

  lemma DidCounts(o: Options, s: State, c: Outcome)
    requires Valid(o, s) && s.current.Some?
    ensures var did := Did(o, s, c);
            var over := c.error.None? || NextTry(o.strategy, s.current.value, c.error.value).None?;
            && Calls(did) == (if over then 1 else 0) && Starts(did) == (if over then 0 else 1)
            && Closed(did) == if c.error.Some? && o.closing && !c.nullConnection then [s.started - 1] else []
  {
    var no := s.started - 1;
    if c.error.None? {
      OneAction(Call(no, None));
    } else if NextTry(o.strategy, s.current.value, c.error.value).None? {
      FinishCounts(o, c, no);
    } else {
      HandoverCounts(o, c, no, Complete(o, s, c).share);
    }
  }

  // ---------------------------------------------------------------------------------------
  // Whole runs

  /** The most tries a strategy may start. */
  function Limit(s: Strategy): nat {
    match s
    case Retry(n, _) => if n > 1 then n else 1
    case RoleBased(roles) => |roles|
  }

  /** The numbers of the tries that failed with a connection in hand. */
  function FailedConnections(cs: seq<Outcome>): seq<nat> {
    if cs == [] then []
    else
      var n := |cs| - 1;
      FailedConnections(cs[..n]) + if cs[n].error.Some? && !cs[n].nullConnection then [n] else []
  }

  /** The n-th outcome is that of try n; starts, calls and closings are as many as the outcomes say. */
  lemma {:induction false} RunLog(o: Options, now: Time, cs: seq<Outcome>)
    requires Fits(o.strategy, FirstTry(o.strategy)) && Feasible(o, now, cs)
    ensures var r := Run(o, now, cs);
            && r.started == |cs| + (if r.current.Some? then 1 else 0)
            && Starts(r.log) == r.started
            && Calls(r.log) == (if r.current.None? then 1 else 0)
            && Closed(r.log) == (if o.closing then FailedConnections(cs) else [])
  {
    if cs == [] {
      OneAction(Run(o, now, cs).log[0]);
    } else {
      var n := |cs| - 1;
      assert Feasible(o, now, cs[..n]);
      RunLog(o, now, cs[..n]);
      CompleteCounts(o, Run(o, now, cs[..n]), cs[n]);
    }
  }

  /** Every try so far used up at least one of those the limit allows. */
  lemma {:induction false} RunTries(o: Options, now: Time, cs: seq<Outcome>)
    requires Fits(o.strategy, FirstTry(o.strategy)) && Run(o, now, cs).current.Some?
    ensures var left := TriesLeft(o.strategy, Run(o, now, cs).current.value);
            && |cs| + left <= Limit(o.strategy)
            && (cs != [] ==> left >= 1)
            && (o.strategy.Retry? ==> left == o.strategy.tries - |cs|)
  {
    if cs == [] {
    } else {
      var n := |cs| - 1;
      RunTries(o, now, cs[..n]);
      NextFits(o.strategy, Run(o, now, cs[..n]).current.value, cs[n].error.value);
    }
  }

  lemma RunCounts(o: Options, now: Time, cs: seq<Outcome>)
    requires Fits(o.strategy, FirstTry(o.strategy)) && Feasible(o, now, cs)
    ensures var r := Run(o, now, cs);
            && r.started == |cs| + (if r.current.Some? then 1 else 0)
            && Starts(r.log) == r.started
            && Calls(r.log) == (if r.current.None? then 1 else 0)
            && Closed(r.log) == (if o.closing then FailedConnections(cs) else [])
            && (r.current.Some? ==> |cs| + TriesLeft(o.strategy, r.current.value) <= Limit(o.strategy))
            && (r.current.Some? && cs != [] ==> TriesLeft(o.strategy, r.current.value) >= 1)
            && (r.current.Some? && o.strategy.Retry? ==>
                  TriesLeft(o.strategy, r.current.value) == o.strategy.tries - |cs|)
  {
    RunLog(o, now, cs);
    if Run(o, now, cs).current.Some? {
      RunTries(o, now, cs);
    }
  }

  lemma {:induction false} FeasiblePart(o: Options, now: Time, cs: seq<Outcome>) returns (m: nat)
    requires Fits(o.strategy, FirstTry(o.strategy))
    ensures m <= |cs| && Feasible(o, now, cs[..m]) && Run(o, now, cs[..m]) == Run(o, now, cs)
    ensures m < |cs| ==> Run(o, now, cs).current.None?
  {
    if Feasible(o, now, cs) {
      m := |cs|;
      assert cs[..m] == cs;
    } else {
      var n := |cs| - 1;
      m := FeasiblePart(o, now, cs[..n]);
      assert cs[..n][..m] == cs[..m];
    }
  }

  /**
   * However the tries go: the handler is called at most once, and it has been called exactly when the run is over;
   * no more tries start than the strategy allows, and as many outcomes as that end every run.
   */
  lemma EveryRunCallsOnce(o: Options, now: Time, cs: seq<Outcome>)
    requires Fits(o.strategy, FirstTry(o.strategy))
    ensures var r := Run(o, now, cs);
            && Calls(r.log) <= 1 && (Calls(r.log) == 1 <==> r.current.None?)
            && Starts(r.log) <= Limit(o.strategy)
            && (|cs| >= Limit(o.strategy) ==> r.current.None?)
  {
    var m := FeasiblePart(o, now, cs);
    RunCounts(o, now, cs[..m]);
    var r := Run(o, now, cs);
    if r.current.None? && m > 0 {
      var s := Run(o, now, cs[..m][..m - 1]);
      assert Feasible(o, now, cs[..m][..m - 1]);
      RunCounts(o, now, cs[..m][..m - 1]);
    }
  }

  predicate Retryable(s: Strategy, y: Try, code: Code)
    requires Fits(s, y)
  {
    match s
    case Retry(_, conditions) => conditions == [] || MatchCode(conditions, code)
    case RoleBased(roles) => exists j :: y.index < j < |roles| && roles[j](code)
  }

  /**
   * A run is over after an outcome exactly when that is a success, an error that nothing more can be done about,
   * or, for retry, when the tries are used up; the handler then gets that very outcome.
   */
  lemma StopsExactlyWhen(o: Options, now: Time, cs: seq<Outcome>)
    requires Fits(o.strategy, FirstTry(o.strategy)) && Feasible(o, now, cs) && cs != []
    ensures var n := |cs| - 1;
            var before := Run(o, now, cs[..n]).current.value;
            var r := Run(o, now, cs);
            && (r.current.None? <==>
                  || cs[n].error.None?
                  || !Retryable(o.strategy, before, cs[n].error.value)
                  || (o.strategy.Retry? && |cs| >= Limit(o.strategy)))
            && (r.current.None? ==> r.log[|r.log| - 1] == Call(n, cs[n].error))
  {
    var n := |cs| - 1;
    assert Feasible(o, now, cs[..n]);
    RunCounts(o, now, cs[..n]);
    var s := Run(o, now, cs[..n]);
    CompleteEnds(o, s, cs[n]);
    if cs[n].error.Some? {
      NoNextTryExactlyWhen(o.strategy, s.current.value, cs[n].error.value);
    }
  }

  lemma CompleteEnds(o: Options, s: State, c: Outcome)
    requires Valid(o, s) && s.current.Some?
    ensures var r := Complete(o, s, c);
            && (r.current.None? <==> c.error.None? || NextTry(o.strategy, s.current.value, c.error.value).None?)
            && (r.current.None? ==> r.log != [] && r.log[|r.log| - 1] == Call(s.started - 1, c.error))
  {
  }

  lemma NoNextTryExactlyWhen(s: Strategy, y: Try, code: Code)
    requires Fits(s, y)
    ensures NextTry(s, y, code).None? <==> !Retryable(s, y, code) || (s.Retry? && y.tries <= 1)
  {
    if s.RoleBased? {
      NextRoleIsLeast(s.roles, y.index, code);
    }
  }

  /** With closing on, exactly the connections of failed tries are closed, each once; with closing off, none is. */
  lemma FailedAreClosedOnce(o: Options, now: Time, cs: seq<Outcome>)
    requires Fits(o.strategy, FirstTry(o.strategy)) && Feasible(o, now, cs)
    ensures var closed := Closed(Run(o, now, cs).log);
            && Increasing(closed)
            && forall k: nat :: k in closed <==>
                 o.closing && k < |cs| && cs[k].error.Some? && !cs[k].nullConnection
  {
    RunCounts(o, now, cs);
    FailedListed(cs);
  }

  lemma FailedListed(cs: seq<Outcome>)
    ensures Increasing(FailedConnections(cs))
    ensures forall k: nat :: k in FailedConnections(cs) <==>
              k < |cs| && cs[k].error.Some? && !cs[k].nullConnection
  {
    FailedIncreasing(cs);
    forall k: nat
      ensures k in FailedConnections(cs) <==> k < |cs| && cs[k].error.Some? && !cs[k].nullConnection
    {
      FailedMember(cs, k);
    }
  }

  lemma {:induction false} FailedMember(cs: seq<Outcome>, k: nat)
    ensures k in FailedConnections(cs) <==> k < |cs| && cs[k].error.Some? && !cs[k].nullConnection
  {
    if cs == [] {
    } else {
      FailedMember(cs[..|cs| - 1], k);
    }
  }

  lemma {:induction false} FailedIncreasing(cs: seq<Outcome>)
    ensures Increasing(FailedConnections(cs))
  {
    if cs == [] {
    } else {
      var n := |cs| - 1;
      FailedIncreasing(cs[..n]);
      forall k: nat | k in FailedConnections(cs[..n])
        ensures k < n
      {
        FailedMember(cs[..n], k);
      }
      AppendLarger(FailedConnections(cs[..n]), n);
    }
  }

  lemma AppendLarger(s: seq<nat>, n: nat)
    requires Increasing(s) && forall k: nat :: k in s ==> k < n
    ensures Increasing(s + [n])
  {
    forall i, j | 0 <= i < j < |s + [n]|
      ensures (s + [n])[i] < (s + [n])[j]
    {
      assert s[i] in s;
    }
  }

  /** Role `j` is the least after `k` that recovers the error. */
  predicate LeastAfter(roles: seq<Condition>, k: nat, code: Code, j: nat) {
    k < j < |roles| && roles[j](code) && forall i :: k < i < j ==> !roles[i](code)
  }

  /**
   * Which try is under way: the first one has all its tries, or the first role; a later one has a try less than the
   * one before, or the least later role that recovers the error the one before failed with.
   */
  lemma TryUnderWay(o: Options, now: Time, cs: seq<Outcome>)
    requires Fits(o.strategy, FirstTry(o.strategy)) && Run(o, now, cs).current.Some?
    ensures var y := Run(o, now, cs).current.value;
            && (o.strategy.Retry? ==> y == RetryTry(o.strategy.tries - |cs|))
            && (o.strategy.RoleBased? ==> y.RoleTry?)
            && (o.strategy.RoleBased? && cs == [] ==> y.index == 0)
            && (o.strategy.RoleBased? && cs != [] ==>
                  var before, error := Run(o, now, cs[..|cs| - 1]).current, cs[|cs| - 1].error;
                  && before.Some? && before.value.RoleTry? && error.Some?
                  && LeastAfter(o.strategy.roles, before.value.index, error.value, y.index))
  {
    RunTries(o, now, cs);
    if o.strategy.RoleBased? && cs != [] {
      var n := |cs| - 1;
      NextRoleIsLeast(o.strategy.roles, Run(o, now, cs[..n]).current.value.index, cs[n].error.value);
    }
  }

  lemma DidActions(o: Options, s: State, c: Outcome)
    requires Valid(o, s) && s.current.Some?
    ensures var no, r := s.started - 1, Complete(o, s, c);
            var closing := if c.error.Some? && o.closing && !c.nullConnection then [Close(no)] else [];
            && (r.current.None? ==> Did(o, s, c) == closing + [Call(no, c.error)])
            && (r.current.Some? ==> c.error.Some? && r.at == c.at)
            && (r.current.Some? && o.strategy.Retry? ==>
                  Did(o, s, c) == [Notify(no, c.error.value)] + (closing + [Start(no + 1, r.share, c.at)]))
            && (r.current.Some? && o.strategy.RoleBased? ==>
                  Did(o, s, c) == [Notify(no, c.error.value)] + ([Start(no + 1, r.share, c.at)] + closing))
  {
    CompleteDoes(o, s, c);
  }

  /**
   * What the n-th outcome makes happen, in this order: when another try starts, the user is notified of the error, and
   * then retry closes the failed connection before that start, role-based failover after it; when none starts, a failed
   * connection is closed and the handler is called with the outcome.
   */
  lemma OutcomeActions(o: Options, now: Time, cs: seq<Outcome>)
    requires Fits(o.strategy, FirstTry(o.strategy)) && Feasible(o, now, cs) && cs != []
    ensures var n := |cs| - 1;
            var c, before, r := cs[n], Run(o, now, cs[..n]).log, Run(o, now, cs);
            var closing := if c.error.Some? && o.closing && !c.nullConnection then [Close(n)] else [];
            && (r.current.None? ==> r.log == before + (closing + [Call(n, c.error)]))
            && (r.current.Some? ==> c.error.Some?)
            && (r.current.Some? && o.strategy.Retry? ==>
                  r.log == before + ([Notify(n, c.error.value)] + (closing + [Start(n + 1, r.share, c.at)])))
            && (r.current.Some? && o.strategy.RoleBased? ==>
                  r.log == before + ([Notify(n, c.error.value)] + ([Start(n + 1, r.share, c.at)] + closing)))
  {
    var n := |cs| - 1;
    assert Feasible(o, now, cs[..n]);
    RunCounts(o, now, cs[..n]);
    CompleteDoes(o, Run(o, now, cs[..n]), cs[n]);
    DidActions(o, Run(o, now, cs[..n]), cs[n]);
  }

  // ---------------------------------------------------------------------------------------
  // The time budget

  lemma DivisionKeeps(left: nat, n: nat, m: nat, used: nat)
    requires 0 < m < n && used <= left / n
    ensures left / n <= (left - used) / m
  {
    var q := left / n;
    assert q * n <= left;
    assert q * (m + 1) <= q * n by { ProductGrows(q, m + 1, n); }
    assert q * (m + 1) == q * m + q;
    DivisionAtLeast(left - used, m, q);
  }

  lemma ProductGrows(q: nat, a: nat, b: nat)
    requires a <= b
    ensures q * a <= q * b
  {
  }

  lemma DivisionAtLeast(x: nat, m: nat, q: nat)
    requires m > 0 && q * m <= x
    ensures q <= x / m
  {
    if x / m < q {
      ProductGrows(m, x / m + 1, q);
      assert false;
    }
  }

  lemma ShareIsPart(t: Time, tries: int, now: Time)
    ensures 0 <= Share(Some(t), tries, now).value <= TimeLeft(t, now)
    ensures tries == 1 ==> Share(Some(t), tries, now).value == TimeLeft(t, now)
  {
    if tries > 0 {
      var left := TimeLeft(t, now);
      assert left / tries <= left by { ProductGrows(left / tries, 1, tries); }
    }
  }

  lemma DivisionMeets(left: nat, n: nat)
    requires n > 0
    ensures left / n * n <= left < (left / n + 1) * n
  {
    assert left == left / n * n + left % n;
    assert (left / n + 1) * n == left / n * n + n;
  }

  /**
   * The try under way has an equal share of what was left of the budget when it started: as many shares as there
   * are tries remaining use it up to within one tick for each of them. Without a deadline there is no share,
   * and with no try remaining the share is nothing.
   */
  lemma EqualShares(o: Options, now: Time, cs: seq<Outcome>)
    requires Fits(o.strategy, FirstTry(o.strategy)) && Run(o, now, cs).current.Some?
    ensures var s := Run(o, now, cs);
            var n := if o.strategy.Retry? then o.strategy.tries - |cs| else |o.strategy.roles| - s.current.value.index;
            && s.at == (if cs == [] then now else cs[|cs| - 1].at)
            && Start(|cs|, s.share, s.at) in s.log
            && (o.deadline.None? <==> s.share.None?)
            && (o.deadline.Some? && n <= 0 ==> s.share == Some(0))
            && (o.deadline.Some? && n > 0 ==>
                  var left := if s.at < o.deadline.value then o.deadline.value - s.at else 0;
                  s.share.value * n <= left < (s.share.value + 1) * n)
  {
    var s := Run(o, now, cs);
    RunTries(o, now, cs);
    RunStarts(o, now, cs);
    ShareWas(o, now, cs);
    var n := TriesLeft(o.strategy, s.current.value);
    if o.deadline.Some? && n > 0 {
      DivisionMeets(TimeLeft(o.deadline.value, s.at), n);
    }
  }

  /** The try under way is the latest start on record. */
  lemma {:induction false} RunStarts(o: Options, now: Time, cs: seq<Outcome>)
    requires Fits(o.strategy, FirstTry(o.strategy)) && Run(o, now, cs).current.Some?
    ensures var s := Run(o, now, cs);
            && s.started == |cs| + 1
            && s.at == (if cs == [] then now else cs[|cs| - 1].at)
            && Start(|cs|, s.share, s.at) in s.log
  {
    if cs == [] {
    } else {
      var n := |cs| - 1;
      RunStarts(o, now, cs[..n]);
      var s := Run(o, now, cs[..n]);
      var start := Start(n + 1, Run(o, now, cs).share, cs[n].at);
      assert start in Handover(o, cs[n], n, Run(o, now, cs).share);
    }
  }

  /** The try completed, and the failover reacted, within the time the try was given. */
  predicate InTime(s: State, c: Outcome) {
    s.share.Some? && s.at <= c.at <= DeadlineAfter(s.share.value, s.at)
  }

  predicate AllInTime(o: Options, now: Time, cs: seq<Outcome>)
    requires Fits(o.strategy, FirstTry(o.strategy))
  {
    forall i :: 0 <= i < |cs| ==>
      var s := Run(o, now, cs[..i]); s.current.Some? ==> InTime(s, cs[i])
  }

  /** Whatever happened before, the own deadline of a try is not past the overall one, unless that is past already. */
  lemma {:induction false} OwnDeadline(o: Options, now: Time, cs: seq<Outcome>)
    requires Fits(o.strategy, FirstTry(o.strategy)) && o.deadline.Some?
    ensures var s := Run(o, now, cs);
            && s.share.Some?
            && DeadlineAfter(s.share.value, s.at) <= (if s.at > o.deadline.value then s.at else o.deadline.value)
            && (s.current.Some? && TriesLeft(o.strategy, s.current.value) == 1 && s.at <= o.deadline.value ==>
                  DeadlineAfter(s.share.value, s.at) == o.deadline.value)
  {
    var s := Run(o, now, cs);
    if cs == [] {
      ShareIsPart(o.deadline.value, TriesLeft(o.strategy, FirstTry(o.strategy)), now);
    } else {
      var n := |cs| - 1;
      OwnDeadline(o, now, cs[..n]);
      if Run(o, now, cs[..n]).current.Some? && s.current.Some? {
        ShareIsPart(o.deadline.value, TriesLeft(o.strategy, s.current.value), cs[n].at);
      }
    }
  }

  /** An operation that arms its own timer later than its share was computed is late by no more than that. */
  lemma OwnDeadlineLater(o: Options, now: Time, cs: seq<Outcome>, armed: Time)
    requires Fits(o.strategy, FirstTry(o.strategy)) && o.deadline.Some? && Run(o, now, cs).at <= armed
    ensures var s := Run(o, now, cs);
            && s.share.Some?
            && DeadlineAfter(s.share.value, armed)
            <= (if s.at > o.deadline.value then s.at else o.deadline.value) + (armed - s.at)
  {
    OwnDeadline(o, now, cs);
  }

  /** One try after another, the first of them within its share. */
  lemma NextShare(o: Options, s: State, c: Outcome)
    requires Valid(o, s) && s.current.Some? && o.deadline.Some? && s.at <= o.deadline.value
    requires s.share == Share(o.deadline, TriesLeft(o.strategy, s.current.value), s.at)
    requires s.at <= c.at <= DeadlineAfter(s.share.value, s.at)
    ensures var r := Complete(o, s, c);
            r.share.Some? && s.share.value <= r.share.value && r.at <= o.deadline.value
  {
    var t, wide := o.deadline.value, TriesLeft(o.strategy, s.current.value);
    ShareIsPart(t, wide, s.at);
    var r := Complete(o, s, c);
    if r.current.Some? {
      NextFits(o.strategy, s.current.value, c.error.value);
      ShareGrows(t, wide, TriesLeft(o.strategy, r.current.value), s.at, c.at);
    }
  }

  lemma ShareWas(o: Options, now: Time, cs: seq<Outcome>)
    requires Fits(o.strategy, FirstTry(o.strategy))
    ensures var s := Run(o, now, cs);
            s.current.Some? ==> s.share == Share(o.deadline, TriesLeft(o.strategy, s.current.value), s.at)
  {
  }

  /** Equal parts of the time left; who uses at most one of them leaves a smaller number of tries no less each. */
  lemma ShareGrows(t: Time, wide: int, narrow: int, start: Time, now: Time)
    requires 0 < narrow < wide && start <= t
    requires 0 <= now - start <= TimeLeft(t, start) / wide
    ensures Share(Some(t), wide, start).value <= Share(Some(t), narrow, now).value
    ensures var q := Share(Some(t), wide, start).value; q * wide <= t - start < (q + 1) * wide
  {
    var left := TimeLeft(t, start);
    ShareIsPart(t, wide, start);
    DivisionKeeps(left, wide, narrow, now - start);
    DivisionMeets(left, wide);
  }

  /** When every try, with the gap after it, keeps to its share, no later try gets less than an earlier one. */
  lemma {:induction false} SharesNeverShrink(o: Options, now: Time, cs: seq<Outcome>, j: nat, k: nat)
    requires Fits(o.strategy, FirstTry(o.strategy)) && j <= k <= |cs|
    requires o.deadline.Some? && now <= o.deadline.value && AllInTime(o, now, cs)
    ensures var early, late := Run(o, now, cs[..j]), Run(o, now, cs[..k]);
            && early.share.Some? && late.share.Some?
            && early.share.value <= late.share.value && late.at <= o.deadline.value
    decreases k
  {
    OwnDeadline(o, now, cs[..k]);
    if k == 0 {
    } else {
      SharesNeverShrink(o, now, cs, if j < k then j else k - 1, k - 1);
      ShareKept(o, now, cs, k);
    }
  }

  lemma ShareKept(o: Options, now: Time, cs: seq<Outcome>, k: nat)
    requires Fits(o.strategy, FirstTry(o.strategy)) && 0 < k <= |cs|
    requires o.deadline.Some? && AllInTime(o, now, cs) && Run(o, now, cs[..k - 1]).at <= o.deadline.value
    ensures var before, after := Run(o, now, cs[..k - 1]), Run(o, now, cs[..k]);
            before.share.Some? ==>
              after.share.Some? && before.share.value <= after.share.value && after.at <= o.deadline.value
  {
    var s := Run(o, now, cs[..k - 1]);
    assert cs[..k][..k - 1] == cs[..k - 1];
    if s.current.Some? {
      assert InTime(s, cs[k - 1]);
      ShareWas(o, now, cs[..k - 1]);
      NextShare(o, s, cs[k - 1]);
    }
  }
}

/** The failover as it runs: a try counts its tries down, a guard closes, a flag tells whether a next try began. */
module FailoverSteps {
  import opened Basics
  import opened Failover

  class Continuation {
    const o: Options
    var current: Option<Try>
    var started: nat
    var share: Option<nat>
    var at: Time
    var log: seq<Action>

    ghost function Now(): State
      reads this
    {
      State(current, started, share, at, log)
    }

    /** The first try starts. */
    constructor (o: Options, now: Time)
      requires Fits(o.strategy, FirstTry(o.strategy))
      ensures this.o == o && Now() == Begin(o, now)
    {
      this.o := o;
      started, log := 0, [];
      new;
      Initiate(FirstTry(o.strategy), now);
    }

    method Initiate(y: Try, now: Time)
      requires Fits(o.strategy, y)
      modifies this
      ensures var given := Share(o.deadline, TriesLeft(o.strategy, y), now);
              Now() == State(Some(y), old(started) + 1, given, now, old(log) + [Start(old(started), given, now)])
    {
      share := Share(o.deadline, TriesLeft(o.strategy, y), now);
      log := log + [Start(started, share, now)];
      current, started, at := Some(y), started + 1, now;
    }

    /** The end of a guard's scope. */
    method Release(guard: bool, c: Outcome, no: nat)
      modifies this`log
      ensures log == old(log) + if guard && !c.nullConnection then [Close(no)] else []
    {
      if guard && !c.nullConnection {
        log := log + [Close(no)];
      }
    }

    /** Retry: one try less remains, whatever the error; the failed connection is closed in any case. */
    method GetNextTry(c: Outcome, no: nat) returns (next: Option<Try>)
      requires o.strategy.Retry? && current.Some? && current.value.RetryTry? && c.error.Some?
      modifies this`current, this`log
      ensures next == NextTry(o.strategy, old(current).value, c.error.value)
      ensures current == Some(RetryTry(OneLess(old(current).value.tries)))
      ensures log == old(log) + (if next.Some? then [Notify(no, c.error.value)] else []) + Closing(o, c, no)
    {
      var guard := o.closing;
      var remain := OneLess(current.value.tries);
      current := Some(RetryTry(remain));
      next := None;
      if CanRetry(remain, o.strategy.conditions, c.error.value) {
        log := log + [Notify(no, c.error.value)];
        next := Some(RetryTry(remain));
      }
      Release(guard, c, no);
    }

    method InitiateNextTry(c: Outcome) returns (initiated: bool)
      requires o.strategy.Retry? && Valid(o, Now()) && current.Some? && c.error.Some?
      modifies this
      ensures Reacted(old(Now()), c, NextTry(o.strategy, old(current).value, c.error.value), initiated)
    {
      var no := started - 1;
      var next := GetNextTry(c, no);
      initiated := next.Some?;
      if initiated {
        Initiate(next.value, c.at);
        assert log == old(log) + Handover(o, c, no, share);
      } else {
        assert log == old(log) + Closing(o, c, no);
      }
    }

    /** Role-based: a role that cannot recover the error is passed over, and its guard let go. */
    method InitiateNextRole(c: Outcome, k: nat) returns (initiated: bool)
      requires o.strategy.RoleBased? && k < |o.strategy.roles| && started > 0 && c.error.Some?
      modifies this
      ensures Reacted(old(Now()), c, NextTry(o.strategy, RoleTry(k), c.error.value), initiated)
      decreases |o.strategy.roles| - k
    {
      var no := started - 1;
      var guard := o.closing;
      initiated := false;
      if |o.strategy.roles| - k > 1 {
        if o.strategy.roles[k + 1](c.error.value) {
          log := log + [Notify(no, c.error.value)];
          Initiate(RoleTry(k + 1), c.at);
          initiated := true;
        } else {
          guard := false;
          initiated := InitiateNextRole(c, k + 1);
        }
      }
      Release(guard, c, no);
    }

    /** Either the next try is under way, or only the failed connection was closed. */
    ghost predicate Reacted(was: State, c: Outcome, next: Option<Try>, initiated: bool)
      requires c.error.Some? && was.started > 0 && (next.Some? ==> Fits(o.strategy, next.value))
      reads this
    {
      var no := was.started - 1;
      && initiated == next.Some?
      && (next.Some? ==>
            var given := Share(o.deadline, TriesLeft(o.strategy, next.value), c.at);
            Now() == State(next, was.started + 1, given, c.at, was.log + Handover(o, c, no, given)))
      && (next.None? ==>
            started == was.started && share == was.share && at == was.at && log == was.log + Closing(o, c, no))
    }

    /** `continuation::operator()` */
    method OnCompletion(c: Outcome)
      requires Valid(o, Now()) && current.Some?
      modifies this
      ensures Valid(o, Now()) && Now() == Complete(o, old(Now()), c)
    {
      var no := started - 1;
      if c.error.Some? {
        var initiated: bool;
        if o.strategy.Retry? {
          initiated := InitiateNextTry(c);
        } else {
          initiated := InitiateNextRole(c, current.value.index);
        }
        if initiated {
          return;
        }
      }
      current := None;
      log := log + [Call(no, c.error)];
    }
  }
}
