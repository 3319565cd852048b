/** providers/adapters/mcp_adapter.py, MCPEndpointClient.call_tool: the retry
    loop of one call, and any interleaving of calls that share a breaker. Between
    two awaits a call runs undisturbed, so each action below is one such stretch. */
module Endpoint {
  import opened Prelude
  import opened Resilience

  // ---------------------------------------------------------------- one call

  /** How one attempt ends: a payload, an error from a reachable endpoint, a
      transport error, or cancellation of the caller. */
  datatype Attempt = Payload | Answered | Transport | CancelledHere

  datatype Outcome = Rejected | Returned | Raised | Unavailable | Cancelled

  /** The attempt that decides the call, counting from 1: the first that is no
      transport error, or the last allowed one. */
  function Deciding(script: nat -> Attempt, from: nat, max: nat): (n: nat)
    requires 1 <= from <= max
    ensures from <= n <= max
    ensures n < max ==> script(n) != Transport
    ensures forall m :: from <= m < n ==> script(m) == Transport
    decreases max - from
  {
    if from == max || script(from) != Transport then from else Deciding(script, from + 1, max)
  }

  class EndpointClient {
    const cfg: Config
    const breaker: CircuitBreaker

    constructor (cfg: Config, breaker: CircuitBreaker)
      requires breaker.cfg == cfg
      ensures this.cfg == cfg && this.breaker == breaker
    {
      this.cfg := cfg;
      this.breaker := breaker;
    }

    /** One call with nobody else on the breaker; `script` gives the end of each
        attempt, `clock` the time of a recorded failure. */
    method CallTool(now: int, script: nat -> Attempt, clock: int) returns (outcome: Outcome, attempts: nat)
      requires cfg.Valid() && breaker.cfg == cfg
      modifies breaker
      ensures breaker.cfg == cfg
      ensures var admission := Admit(cfg, old(breaker.View()), now);
              var admitted := AfterCall(old(breaker.View()), admission);
              if admission.Refused? then outcome == Rejected && attempts == 0 && breaker.View() == old(breaker.View())
              else
                && attempts == Deciding(script, 1, cfg.maxAttempts)
                && match script(attempts)
                   case Payload => outcome == Returned && breaker.View() == AfterSuccess
                   case Answered => outcome == Raised && breaker.View() == AfterSuccess
                   case Transport => outcome == Unavailable && attempts == cfg.maxAttempts &&
                                     breaker.View() == AfterFailure(cfg, admitted, clock)
                   case CancelledHere => outcome == Cancelled &&
                                         breaker.View() == if admission.isTrial then AfterRelease(admitted) else admitted
    {
      var admission := breaker.BeforeCall(now);
      if admission.Refused? {
        return Rejected, 0;
      }
      var isTrial, settled := admission.isTrial, false;
      ghost var admitted := breaker.View();
      attempts := 0;
      while true
        invariant attempts < cfg.maxAttempts && breaker.View() == admitted
        invariant Deciding(script, 1, cfg.maxAttempts) == Deciding(script, attempts + 1, cfg.maxAttempts)
        decreases cfg.maxAttempts - attempts
      {
        attempts := attempts + 1;
        match script(attempts)
        case Payload =>
          breaker.RecordSuccess();
          settled := true;
          outcome := Returned;
          break;
        case Answered =>
          breaker.RecordSuccess();
          settled := true;
          outcome := Raised;
          break;
        case CancelledHere =>
          outcome := Cancelled;
          break;
        case Transport =>
          if attempts < cfg.maxAttempts {
            continue;
          }
          breaker.RecordFailure(clock);
          settled := true;
          outcome := Unavailable;
          break;
      }
      if isTrial && !settled {
        breaker.ReleaseTrial();
      }
    }
  }

  // ------------------------------------------------------------- interleaving

  datatype Stage = Attempting | BackingOff | Settled | Abandoned

  datatype Run = Run(isTrial: bool, attempts: nat, stage: Stage) {
    predicate Running() { stage.Attempting? || stage.BackingOff? }
  }

  /** The shared breaker, the admitted calls, and what has happened so far. */
  datatype Sys = Sys(breaker: Breaker, calls: map<nat, Run>, ops: seq<Op>, now: int)

  datatype Action =
    | Start(id: nat, at: int)
    | Succeed(id: nat)            // a payload, or an answer that is an error
    | FailAttempt(id: nat, at: int)
    | Resume(id: nat)             // the backoff sleep is over
    | Cancel(id: nat)

  function Initial(now: int): Sys { Sys(Fresh, map[], [], now) }

  predicate Enabled(s: Sys, a: Action) {
    match a
    case Start(id, at) => id !in s.calls && at >= s.now
    case Succeed(id) => id in s.calls && s.calls[id].stage.Attempting?
    case FailAttempt(id, at) => id in s.calls && s.calls[id].stage.Attempting? && at >= s.now
    case Resume(id) => id in s.calls && s.calls[id].stage.BackingOff?
    case Cancel(id) => id in s.calls && s.calls[id].Running()
  }

  function Perform(cfg: Config, s: Sys, op: Op): Sys {
    s.(breaker := Apply(cfg, s.breaker, op), ops := s.ops + [op])
  }

  /** An action that is not enabled does nothing. */
  function Step(cfg: Config, s: Sys, a: Action): Sys {
    if !Enabled(s, a) then s else
      match a
      case Start(id, at) =>
        var admission := Admit(cfg, s.breaker, at);
        var s' := Perform(cfg, s, Op.Call(id, at)).(now := at);
        if admission.Admitted? then s'.(calls := s.calls[id := Run(admission.isTrial, 1, Attempting)]) else s'
      case Succeed(id) =>
        Perform(cfg, s, Op.Success(id)).(calls := s.calls[id := s.calls[id].(stage := Settled)])
      case FailAttempt(id, at) =>
        var c := s.calls[id];
        if c.attempts < cfg.maxAttempts then s.(calls := s.calls[id := c.(stage := BackingOff)], now := at)
        else Perform(cfg, s, Op.Failure(id, at)).(calls := s.calls[id := c.(stage := Settled)], now := at)
      case Resume(id) =>
        var c := s.calls[id];
        s.(calls := s.calls[id := c.(stage := Attempting, attempts := c.attempts + 1)])
      case Cancel(id) =>
        var c := s.calls[id];
        (if c.isTrial then Perform(cfg, s, Op.Release(id)) else s).(calls := s.calls[id := c.(stage := Abandoned)])
  }

  function Exec(cfg: Config, s: Sys, actions: seq<Action>): Sys {
    if actions == [] then s else Step(cfg, Exec(cfg, s, actions[..|actions| - 1]), actions[|actions| - 1])
  }

  // ---------------------------------------------------------------- invariant

  function Outcomes(ops: seq<Op>, id: nat): nat {
    if ops == [] then 0 else
      var op := ops[|ops| - 1];
      Outcomes(ops[..|ops| - 1], id) + (if (op.Success? || op.Failure?) && op.id == id then 1 else 0)
  }

  function Releases(ops: seq<Op>, id: nat): nat {
    if ops == [] then 0 else
      Releases(ops[..|ops| - 1], id) + (if ops[|ops| - 1].Release? && ops[|ops| - 1].id == id then 1 else 0)
  }

  /** The bookkeeping of one call: attempts within the limit; an outcome recorded
      exactly when it settled; released exactly when it was an abandoned trial. */
  ghost predicate CallOk(cfg: Config, s: Sys, id: nat) {
    if id in s.calls then
      var c := s.calls[id];
      && 1 <= c.attempts <= cfg.maxAttempts && (c.stage.BackingOff? ==> c.attempts < cfg.maxAttempts)
      && Outcomes(s.ops, id) == (if c.stage.Settled? then 1 else 0)
      && Releases(s.ops, id) == (if c.stage.Abandoned? && c.isTrial then 1 else 0)
    else Outcomes(s.ops, id) == 0 && Releases(s.ops, id) == 0
  }

  predicate TrialRuns(s: Sys, id: nat) { id in s.calls && s.calls[id].Running() && s.calls[id].isTrial }

  ghost predicate Inv(cfg: Config, s: Sys) {
    && History(cfg, s)
    && (forall id :: CallOk(cfg, s, id))
    && (s.breaker.trial ==> exists id :: TrialRuns(s, id))
  }

  lemma Recorded(ops: seq<Op>, op: Op, id: nat)
    ensures Outcomes(ops + [op], id) == Outcomes(ops, id) + (if (op.Success? || op.Failure?) && op.id == id then 1 else 0)
    ensures Releases(ops + [op], id) == Releases(ops, id) + (if op.Release? && op.id == id then 1 else 0)
  {
    assert (ops + [op])[..|ops|] == ops;
  }

  lemma StepCallOk(cfg: Config, s: Sys, a: Action, id: nat)
    requires CallOk(cfg, s, id) && CallOk(cfg, s, a.id) && cfg.Valid()
    ensures CallOk(cfg, Step(cfg, s, a), id)
  {
    hide Outcomes, Releases, Resilience.Apply, Admit;
    match a
    case Start(i, at) => Recorded(s.ops, Op.Call(i, at), id);
    case Succeed(i) => Recorded(s.ops, Op.Success(i), id);
    case FailAttempt(i, at) => Recorded(s.ops, Op.Failure(i, at), id);
    case Resume(i) =>
    case Cancel(i) => Recorded(s.ops, Op.Release(i), id);
  }

  /** The history stays what the breaker stands for, in clock order. */
  ghost predicate History(cfg: Config, s: Sys) {
    && s.breaker == Replay(cfg, s.ops)
    && Monotone(s.ops) && (forall i :: 0 <= i < |s.ops| && Timed(s.ops[i]) ==> TimeOf(s.ops[i]) <= s.now)
  }

  lemma MonotoneSnoc(ops: seq<Op>, op: Op, now: int)
    requires Monotone(ops) && (forall i :: 0 <= i < |ops| && Timed(ops[i]) ==> TimeOf(ops[i]) <= now)
    requires Timed(op) ==> TimeOf(op) == now
    ensures Monotone(ops + [op]) && forall i :: 0 <= i < |ops + [op]| && Timed((ops + [op])[i]) ==> TimeOf((ops + [op])[i]) <= now
  {
  }

  lemma PerformHistory(cfg: Config, s: Sys, op: Op, s': Sys)
    requires History(cfg, s) && s'.now >= s.now && (Timed(op) ==> TimeOf(op) == s'.now)
    requires s'.breaker == Perform(cfg, s, op).breaker && s'.ops == Perform(cfg, s, op).ops
    ensures History(cfg, s')
  {
    hide Monotone, Apply, Replay;
    ReplaySnoc(cfg, s.ops, op);
    MonotoneSnoc(s.ops, op, s'.now);
  }

  lemma StepHistory(cfg: Config, s: Sys, a: Action)
    requires History(cfg, s)
    ensures History(cfg, Step(cfg, s, a))
  {
    hide Resilience.Apply, Admit;
    if Enabled(s, a) {
      var s' := Step(cfg, s, a);
      match a
      case Start(id, at) => PerformHistory(cfg, s, Op.Call(id, at), s');
      case Succeed(id) => PerformHistory(cfg, s, Op.Success(id), s');
      case FailAttempt(id, at) =>
        if s.calls[id].attempts == cfg.maxAttempts || s'.ops != s.ops {
          PerformHistory(cfg, s, Op.Failure(id, at), s');
        }
      case Resume(id) =>
      case Cancel(id) =>
        if s.calls[id].isTrial {
          PerformHistory(cfg, s, Op.Release(id), s');
        }
    }
  }

  lemma StepTrial(cfg: Config, s: Sys, a: Action)
    requires s.breaker.trial ==> exists id :: TrialRuns(s, id)
    ensures Step(cfg, s, a).breaker.trial ==> exists id :: TrialRuns(Step(cfg, s, a), id)
  {
    var s' := Step(cfg, s, a);
    if s'.breaker.trial && Enabled(s, a) {
      if a.Start? && Admit(cfg, s.breaker, a.at) == Admitted(true) {
        assert TrialRuns(s', a.id);
      } else {
        var id :| TrialRuns(s, id);
        assert TrialRuns(s', id);
      }
    }
  }

  lemma StepKeeps(cfg: Config, s: Sys, a: Action)
    requires cfg.Valid() && Inv(cfg, s)
    ensures Inv(cfg, Step(cfg, s, a))
  {
    hide CallOk, Step;
    StepHistory(cfg, s, a);
    StepTrial(cfg, s, a);
    forall id {
      StepCallOk(cfg, s, a, id);
    }
  }

  /** Holds at every point of any interleaving. */
  lemma {:induction false} AlwaysInv(cfg: Config, now: int, actions: seq<Action>)
    requires cfg.Valid()
    ensures Inv(cfg, Exec(cfg, Initial(now), actions))
  {
    if actions != [] {
      AlwaysInv(cfg, now, actions[..|actions| - 1]);
      StepKeeps(cfg, Exec(cfg, Initial(now), actions[..|actions| - 1]), actions[|actions| - 1]);
    }
  }

  // ----------------------------------------------------------------- theorems

  /** In any interleaving every admitted call makes at most max_attempts attempts
      and records at most one outcome, none while it runs or when it is
      cancelled; and a trial that ends without an outcome is released, once. */
  lemma CallsAreBounded(cfg: Config, now: int, actions: seq<Action>, id: nat)
    requires cfg.Valid() && id in Exec(cfg, Initial(now), actions).calls
    ensures var s := Exec(cfg, Initial(now), actions);
            && 1 <= s.calls[id].attempts <= cfg.maxAttempts
            && Outcomes(s.ops, id) <= 1
            && (Outcomes(s.ops, id) == 1 <==> s.calls[id].stage.Settled?)
            && (!s.calls[id].Running() && s.calls[id].isTrial ==> Outcomes(s.ops, id) + Releases(s.ops, id) == 1)
  {
    AlwaysInv(cfg, now, actions);
    assert CallOk(cfg, Exec(cfg, Initial(now), actions), id);
  }

  /** The breaker is never stuck half-open: with no call running the trial flag is
      clear, and a call that starts after the reset time is let through. */
  lemma NeverStuck(cfg: Config, now: int, actions: seq<Action>, at: int)
    requires cfg.Valid()
    ensures var s := Exec(cfg, Initial(now), actions);
            && (s.breaker.trial ==> exists id :: TrialRuns(s, id))
            && ((forall id :: id in s.calls ==> !s.calls[id].Running()) ==>
                 && !s.breaker.trial
                 && (s.breaker.openedAt.None? || at >= s.breaker.openedAt.value + cfg.reset ==> Admit(cfg, s.breaker, at).Admitted?))
  {
    AlwaysInv(cfg, now, actions);
  }

  ghost predicate AnotherRuns(s: Sys, c: nat) {
    exists d :: d != c && d in s.calls && s.calls[d].Running()
  }

  /** While a trial holds the flag and no other call runs, nothing is let in
      beside it. */
  lemma AloneStep(cfg: Config, s: Sys, c: nat, a: Action)
    requires s.breaker.trial && s.breaker.openedAt.Some? && TrialRuns(s, c) && !AnotherRuns(s, c)
    ensures var s' := Step(cfg, s, a);
            if TrialRuns(s', c) then s'.breaker.trial && s'.breaker.openedAt.Some? && !AnotherRuns(s', c)
            else c in s'.calls && !s'.calls[c].Running()
  {
    forall d | d != c
      ensures d in Step(cfg, s, a).calls && Step(cfg, s, a).calls[d].Running() ==> d in s.calls && s.calls[d].Running()
    {
      NewlyRuns(cfg, s, a, d);
    }
  }

  /** Whatever runs after a step ran before it, or was just let in. */
  lemma NewlyRuns(cfg: Config, s: Sys, a: Action, d: nat)
    ensures d in Step(cfg, s, a).calls && Step(cfg, s, a).calls[d].Running() ==>
              (d in s.calls && s.calls[d].Running()) || (a.Start? && Admit(cfg, s.breaker, a.at).Admitted?)
  {
  }

  lemma EndedStaysEnded(cfg: Config, s: Sys, c: nat, a: Action)
    requires c in s.calls && !s.calls[c].Running()
    ensures c in Step(cfg, s, a).calls && !Step(cfg, s, a).calls[c].Running()
  {
  }

  lemma {:induction false} Alone(cfg: Config, s: Sys, c: nat, actions: seq<Action>)
    requires s.breaker.trial && s.breaker.openedAt.Some? && TrialRuns(s, c) && !AnotherRuns(s, c)
    ensures var s' := Exec(cfg, s, actions);
            if TrialRuns(s', c) then s'.breaker.trial && s'.breaker.openedAt.Some? && !AnotherRuns(s', c)
            else c in s'.calls && !s'.calls[c].Running()
  {
    if actions != [] {
      Alone(cfg, s, c, actions[..|actions| - 1]);
      var before, last := Exec(cfg, s, actions[..|actions| - 1]), actions[|actions| - 1];
      if TrialRuns(before, c) {
        AloneStep(cfg, before, c, last);
      } else {
        EndedStaysEnded(cfg, before, c, last);
      }
    }
  }

  lemma {:induction false} Unused(ids: set<nat>) returns (id: nat)
    ensures forall k :: k in ids ==> k < id
  {
    if ids == {} {
      id := 0;
    } else {
      var k :| k in ids;
      var m := Unused(ids - {k});
      id := if k < m then m else k + 1;
      assert ids == (ids - {k}) + {k};
    }
  }

  lemma ExecSnoc(cfg: Config, s: Sys, actions: seq<Action>, a: Action)
    ensures Exec(cfg, s, actions + [a]) == Step(cfg, Exec(cfg, s, actions), a)
  {
    assert (actions + [a])[..|actions|] == actions;
  }

  /** `s'` is `s` after call `d` recorded a failure, with all other calls as they were. */
  ghost predicate FailedBeside(cfg: Config, s: Sys, d: nat, s': Sys) {
    && s'.breaker == AfterFailure(cfg, s.breaker, s.now) && s'.now == s.now
    && s'.calls.Keys == s.calls.Keys && forall c :: c in s.calls && c != d ==> s'.calls[c] == s.calls[c]
  }

  /** The next action of a call on its way to giving up. */
  function TowardsFailure(s: Sys, d: nat): Action
    requires d in s.calls
  {
    if s.calls[d].stage.BackingOff? then Resume(d) else FailAttempt(d, s.now)
  }

  lemma OneTowards(cfg: Config, s: Sys, d: nat)
    requires d in s.calls && s.calls[d].Running()
    ensures var s1 := Step(cfg, s, TowardsFailure(s, d));
            if s.calls[d].stage.Attempting? && s.calls[d].attempts >= cfg.maxAttempts then FailedBeside(cfg, s, d, s1)
            else
              && s1.breaker == s.breaker && s1.now == s.now && s1.calls.Keys == s.calls.Keys
              && (forall c :: c in s.calls && c != d ==> s1.calls[c] == s.calls[c])
              && s1.calls[d] == if s.calls[d].stage.BackingOff? then s.calls[d].(stage := Attempting, attempts := s.calls[d].attempts + 1)
                                else s.calls[d].(stage := BackingOff)
  {
  }

  /** A running call can be driven to record a failure, others undisturbed. */
  lemma {:induction false} DriveToFailure(cfg: Config, s: Sys, d: nat) returns (actions: seq<Action>)
    requires d in s.calls && s.calls[d].Running() && s.calls[d].attempts <= cfg.maxAttempts
    requires s.calls[d].stage.BackingOff? ==> s.calls[d].attempts < cfg.maxAttempts
    ensures FailedBeside(cfg, s, d, Exec(cfg, s, actions))
    decreases cfg.maxAttempts - s.calls[d].attempts, s.calls[d].stage.Attempting?
  {
    hide Step;
    var first := TowardsFailure(s, d);
    var s1 := Step(cfg, s, first);
    OneTowards(cfg, s, d);
    if s.calls[d].stage.Attempting? && s.calls[d].attempts >= cfg.maxAttempts {
      actions := [first];
      ExecCons(cfg, s, first, []);
      assert [first] + [] == [first];
    } else {
      var rest := DriveToFailure(cfg, s1, d);
      actions := [first] + rest;
      ExecCons(cfg, s, first, rest);
    }
  }

  lemma {:induction false} ExecCons(cfg: Config, s: Sys, a: Action, rest: seq<Action>)
    ensures Exec(cfg, s, [a] + rest) == Exec(cfg, Step(cfg, s, a), rest)
  {
    if rest == [] {
      ExecSnoc(cfg, s, [], a);
      assert [] + [a] == [a] + rest;
    } else {
      ExecCons(cfg, s, a, rest[..|rest| - 1]);
      assert ([a] + rest)[..|rest|] == [a] + rest[..|rest| - 1];
    }
  }

  ghost predicate TwoTrials(s: Sys, c: nat, e: nat) {
    c != e && TrialRuns(s, c) && TrialRuns(s, e)
  }

  /** Half-open lets one trial through at a time, exactly when no other call is
      still running. A trial `c` that holds the flag can come to share the
      endpoint with a second trial if and only if some other call runs beside it:
      such a stale call may fail, clear the flag and restart the wait. */
  lemma TrialExclusiveExactly(cfg: Config, s: Sys, c: nat)
    requires cfg.Valid() && Inv(cfg, s) && s.breaker.trial && TrialRuns(s, c)
    ensures AnotherRuns(s, c) <==> exists actions, e :: TwoTrials(Exec(cfg, s, actions), c, e)
  {
    RefinesHistory(cfg, s.ops);
    if AnotherRuns(s, c) {
      var d :| d != c && d in s.calls && s.calls[d].Running();
      assert CallOk(cfg, s, d);
      var actions := DriveToFailure(cfg, s, d);
      var s1 := Exec(cfg, s, actions);
      var e := Unused(s.calls.Keys);
      var start := Start(e, s.now + cfg.reset);
      ExecSnoc(cfg, s, actions, start);
      assert TwoTrials(Exec(cfg, s, actions + [start]), c, e);
    } else {
      forall actions, e
        ensures !TwoTrials(Exec(cfg, s, actions), c, e)
      {
        Alone(cfg, s, c, actions);
      }
    }
  }

  /** And such states are reached: a call admitted while the breaker was closed
      outlives the failure that opened it, so "exactly one trial at a time" does
      not hold of every run. */
  lemma TwoTrialsHappen()
    ensures var cfg := Config(1, 10, 1);
            exists actions :: TwoTrials(Exec(cfg, Initial(0), actions), 2, 3)
  {
    var cfg := Config(1, 10, 1);
    var c0 := Run(false, 1, Attempting);
    var s1 := Step(cfg, Initial(0), Start(0, 0));
    var s2 := Step(cfg, s1, Start(1, 0));
    assert s2.breaker == Fresh && s2.calls == map[0 := c0, 1 := c0] && s2.now == 0;
    var s3 := Step(cfg, s2, FailAttempt(1, 0));
    assert s3.breaker == Breaker(1, Some(0), false) && s3.calls == map[0 := c0, 1 := c0.(stage := Settled)] && s3.now == 0;
    var s4 := Step(cfg, s3, Start(2, 10));
    assert s4.breaker == Breaker(1, Some(0), true) && s4.calls == s3.calls[2 := Run(true, 1, Attempting)] && s4.now == 10;
    var s5 := Step(cfg, s4, FailAttempt(0, 10));
    assert s5.breaker == Breaker(2, Some(10), false) && s5.calls == s4.calls[0 := c0.(stage := Settled)] && s5.now == 10;
    var s6 := Step(cfg, s5, Start(3, 20));
    assert s6.breaker.trial && s6.calls == s5.calls[3 := Run(true, 1, Attempting)];
    assert TwoTrials(s6, 2, 3);
    SixSteps(cfg, Start(0, 0), Start(1, 0), FailAttempt(1, 0), Start(2, 10), FailAttempt(0, 10), Start(3, 20));
  }

  lemma SixSteps(cfg: Config, a: Action, b: Action, c: Action, d: Action, e: Action, f: Action)
    ensures Exec(cfg, Initial(0), [a] + [b] + [c] + [d] + [e] + [f]) ==
            Step(cfg, Step(cfg, Step(cfg, Step(cfg, Step(cfg, Step(cfg, Initial(0), a), b), c), d), e), f)
  {
    hide Step;
    ExecSnoc(cfg, Initial(0), [], a);
    assert [] + [a] == [a];
    ExecSnoc(cfg, Initial(0), [a], b);
    ExecSnoc(cfg, Initial(0), [a] + [b], c);
    ExecSnoc(cfg, Initial(0), [a] + [b] + [c], d);
    ExecSnoc(cfg, Initial(0), [a] + [b] + [c] + [d], e);
    ExecSnoc(cfg, Initial(0), [a] + [b] + [c] + [d] + [e], f);
  }

  // --------------------------------------------------------- one call alone

  /** Call `id` fails its attempts in transport until the `n`th is under way. */
  lemma {:induction false} Retries(cfg: Config, s: Sys, id: nat, n: nat) returns (actions: seq<Action>)
    requires id in s.calls && s.calls[id].stage == Attempting && s.calls[id].attempts <= n <= cfg.maxAttempts
    ensures var s', c := Exec(cfg, s, actions), s.calls[id];
            s' == s.(calls := s.calls[id := c.(attempts := n)])
    decreases n - s.calls[id].attempts
  {
    actions := [];
    if s.calls[id].attempts == n {
      assert s.calls[id := s.calls[id].(attempts := n)] == s.calls;
    } else {
      var fail, resume := FailAttempt(id, s.now), Resume(id);
      var s1 := Step(cfg, s, fail);
      var s2 := Step(cfg, s1, resume);
      var rest := Retries(cfg, s2, id, n);
      actions := [fail] + ([resume] + rest);
      ExecCons(cfg, s, fail, [resume] + rest);
      ExecCons(cfg, s1, resume, rest);
    }
  }

  /** The step system and the method agree: a call that nobody disturbs, started at
      `now` and with the attempts ending as scripted, takes the breaker where
      CallTool says it does, after as many attempts. */
  lemma AloneIsCallTool(cfg: Config, s: Sys, id: nat, now: int, script: nat -> Attempt, clock: int) returns (actions: seq<Action>)
    requires cfg.Valid() && id !in s.calls && s.now <= now <= clock
    ensures var admission := Admit(cfg, s.breaker, now);
            var admitted := AfterCall(s.breaker, admission);
            var s', n := Exec(cfg, s, actions), Deciding(script, 1, cfg.maxAttempts);
            if admission.Refused? then s'.breaker == s.breaker && id !in s'.calls
            else
              && id in s'.calls && !s'.calls[id].Running() && s'.calls[id].attempts == n
              && s'.breaker == match script(n)
                               case Payload => AfterSuccess
                               case Answered => AfterSuccess
                               case Transport => AfterFailure(cfg, admitted, clock)
                               case CancelledHere => if admission.isTrial then AfterRelease(admitted) else admitted
  {
    hide Admit, AfterCall, AfterFailure, AfterRelease;
    var start := Start(id, now);
    actions := [start];
    var s1 := Step(cfg, s, start);
    ExecCons(cfg, s, start, []);
    assert [start] + [] == [start];
    RefusedKeeps(cfg, s.breaker, now);
    if Admit(cfg, s.breaker, now).Admitted? {
      var n := Deciding(script, 1, cfg.maxAttempts);
      var retries := Retries(cfg, s1, id, n);
      var s2 := Exec(cfg, s1, retries);
      var last := match script(n)
                  case Payload => Succeed(id)
                  case Answered => Succeed(id)
                  case Transport => FailAttempt(id, clock)
                  case CancelledHere => Cancel(id);
      actions := [start] + (retries + [last]);
      ExecCons(cfg, s, start, retries + [last]);
      ExecSnoc(cfg, s1, retries, last);
      assert s2.breaker == s1.breaker && s2.calls[id].attempts == n;
    }
  }

  lemma RefusedKeeps(cfg: Config, b: Breaker, now: int)
    ensures Admit(cfg, b, now).Refused? ==> AfterCall(b, Admit(cfg, b, now)) == b
  {
  }
}
