/** providers/resilience.py: the circuit breaker, and the history it stands for. */
module Resilience {
  import opened Prelude

  datatype Config = Config(threshold: nat, reset: int, maxAttempts: nat) {
    predicate Valid() { threshold >= 1 && reset > 0 && maxAttempts >= 1 }
  }

  datatype Breaker = Breaker(failures: nat, openedAt: Option<int>, trial: bool)

  datatype Phase = Closed | Open | HalfOpen

  /** Refused stands for CircuitOpenError and its retry hint. */
  datatype Admission = Admitted(isTrial: bool) | Refused(retryIn: int)

  const Fresh := Breaker(0, None, false)

  // ------------------------------------------------------------ specification

  function PhaseOf(cfg: Config, b: Breaker, now: int): Phase {
    if b.openedAt.None? then Closed
    else if b.trial || now - b.openedAt.value >= cfg.reset then HalfOpen else Open
  }

  function Admit(cfg: Config, b: Breaker, now: int): Admission {
    match PhaseOf(cfg, b, now)
    case Closed => Admitted(false)
    case HalfOpen => if b.trial then Refused(RetryIn(cfg, b, now)) else Admitted(true)
    case Open => Refused(RetryIn(cfg, b, now))
  }

  function RetryIn(cfg: Config, b: Breaker, now: int): int {
    var left := cfg.reset - (now - (if b.openedAt.Some? then b.openedAt.value else 0));
    if left > 0 then left else 0
  }

  function AfterCall(b: Breaker, a: Admission): Breaker {
    if a == Admitted(true) then b.(trial := true) else b
  }

  const AfterSuccess := Breaker(0, None, false)

  function AfterFailure(cfg: Config, b: Breaker, now: int): Breaker {
    Breaker(b.failures + 1, if b.trial || b.failures + 1 >= cfg.threshold then Some(now) else b.openedAt, false)
  }

  function AfterRelease(b: Breaker): Breaker { b.(trial := false) }

  // -------------------------------------------------------------------- class

  class CircuitBreaker {
    const cfg: Config
    var failures: nat
    var openedAt: Option<int>
    var trialInFlight: bool

    function View(): Breaker
      reads this
    {
      Breaker(failures, openedAt, trialInFlight)
    }

    constructor (cfg: Config)
      requires cfg.Valid()
      ensures this.cfg == cfg && View() == Fresh
    {
      this.cfg := cfg;
      failures, openedAt, trialInFlight := 0, None, false;
    }

    method BeforeCall(now: int) returns (a: Admission)
      modifies this
      ensures a == Admit(cfg, old(View()), now) && View() == AfterCall(old(View()), a)
      ensures cfg.Valid() && a.Refused? && !old(View()).trial ==>
                forall later :: later >= now ==> (Admit(cfg, old(View()), later) == Admitted(true) <==> later - now >= a.retryIn)
    {
      var phase := PhaseOf(cfg, View(), now);
      if phase.Closed? {
        return Admitted(false);
      }
      if phase.HalfOpen? && !trialInFlight {
        trialInFlight := true;
        return Admitted(true);
      }
      var left := cfg.reset - (now - (if openedAt.Some? then openedAt.value else 0));
      a := Refused(if left > 0 then left else 0);
      if cfg.Valid() && !trialInFlight {
        forall later | later >= now
          ensures Admit(cfg, View(), later) == Admitted(true) <==> later - now >= a.retryIn
        {
          RetryHint(cfg, View(), now, later);
        }
      }
    }

    method RecordSuccess()
      modifies this
      ensures View() == AfterSuccess
    {
      failures := 0;
      openedAt := None;
      trialInFlight := false;
    }

    method RecordFailure(now: int)
      modifies this
      ensures View() == AfterFailure(cfg, old(View()), now)
    {
      failures := failures + 1;
      if trialInFlight || failures >= cfg.threshold {
        openedAt := Some(now);
      }
      trialInFlight := false;
    }

    method ReleaseTrial()
      modifies this
      ensures View() == AfterRelease(old(View()))
    {
      trialInFlight := false;
    }
  }

  // ------------------------------------------------------------------ history

  /** What happens to a breaker, by whom (a call id) and when. */
  datatype Op = Call(id: nat, at: int) | Success(id: nat) | Failure(id: nat, at: int) | Release(id: nat)

  function Apply(cfg: Config, b: Breaker, op: Op): Breaker {
    match op
    case Call(_, at) => AfterCall(b, Admit(cfg, b, at))
    case Success(_) => AfterSuccess
    case Failure(_, at) => AfterFailure(cfg, b, at)
    case Release(_) => AfterRelease(b)
  }

  function Replay(cfg: Config, ops: seq<Op>): Breaker {
    if ops == [] then Fresh else Apply(cfg, Replay(cfg, ops[..|ops| - 1]), ops[|ops| - 1])
  }

  lemma ReplaySnoc(cfg: Config, ops: seq<Op>, op: Op)
    ensures Replay(cfg, ops + [op]) == Apply(cfg, Replay(cfg, ops), op)
  {
    assert (ops + [op])[..|ops|] == ops;
  }

  /** The number of failures recorded since the last success. */
  function Trailing(ops: seq<Op>): nat {
    if ops == [] then 0 else
      match ops[|ops| - 1]
      case Success(_) => 0
      case Failure(_, _) => Trailing(ops[..|ops| - 1]) + 1
      case _ => Trailing(ops[..|ops| - 1])
  }

  function LastFailure(ops: seq<Op>): Option<int> {
    if ops == [] then None
    else if ops[|ops| - 1].Failure? then Some(ops[|ops| - 1].at) else LastFailure(ops[..|ops| - 1])
  }

  /** The breaker is a summary of its history, and nothing else: it counts the
      trailing failures, it is opened exactly when there are `threshold` of them,
      and then since the last one. (So the test for a trial in record_failure
      decides nothing: a trial only runs on an opened breaker.) */
  lemma {:induction false} RefinesHistory(cfg: Config, ops: seq<Op>)
    requires cfg.Valid()
    ensures var b := Replay(cfg, ops);
            && b.failures == Trailing(ops)
            && (b.openedAt.Some? <==> Trailing(ops) >= cfg.threshold)
            && (b.openedAt.Some? ==> b.openedAt == LastFailure(ops))
            && (b.trial ==> b.openedAt.Some?)
  {
    if ops != [] {
      RefinesHistory(cfg, ops[..|ops| - 1]);
    }
  }

  /** The call at position `i` of the history was let through, and how. */
  function AdmissionAt(cfg: Config, ops: seq<Op>, i: nat): Admission
    requires i < |ops| && ops[i].Call?
  {
    Admit(cfg, Replay(cfg, ops[..i]), ops[i].at)
  }

  predicate TrialAt(cfg: Config, ops: seq<Op>, i: nat) {
    i < |ops| && ops[i].Call? && AdmissionAt(cfg, ops, i) == Admitted(true)
  }

  predicate Settles(op: Op) { op.Success? || op.Failure? || op.Release? }

  /** A trial was let through and nothing has been recorded or released since. */
  ghost predicate OnTrial(cfg: Config, ops: seq<Op>) {
    exists i: nat :: TrialAt(cfg, ops, i) && forall m :: i < m < |ops| ==> !Settles(ops[m])
  }

  /** The trial flag, too, only tells the history. */
  lemma {:induction false} TrialExactly(cfg: Config, ops: seq<Op>)
    ensures Replay(cfg, ops).trial <==> OnTrial(cfg, ops)
  {
    if ops != [] {
      var init, n := ops[..|ops| - 1], |ops| - 1;
      TrialExactly(cfg, init);
      assert forall i :: 0 <= i <= n ==> ops[..i] == init[..i];
      if Replay(cfg, ops).trial {
        if Replay(cfg, init).trial {
          var i: nat :| TrialAt(cfg, init, i) && forall m :: i < m < |init| ==> !Settles(init[m]);
          assert TrialAt(cfg, ops, i);
        } else {
          assert TrialAt(cfg, ops, n);
        }
      }
      if i: nat :| TrialAt(cfg, ops, i) && forall m :: i < m < |ops| ==> !Settles(ops[m]) {
        TrialHolds(cfg, ops, i, |ops|);
        assert ops[..|ops|] == ops;
      }
    }
  }

  /** When a call is let through, told from the history alone. */
  lemma AdmittedExactly(cfg: Config, ops: seq<Op>, i: nat)
    requires cfg.Valid() && i < |ops| && ops[i].Call?
    ensures var before := ops[..i];
            var waiting := Trailing(before) >= cfg.threshold;
            && (AdmissionAt(cfg, ops, i) == Admitted(false) <==> !waiting)
            && (AdmissionAt(cfg, ops, i) == Admitted(true) <==>
                waiting && LastFailure(before).Some? && ops[i].at >= LastFailure(before).value + cfg.reset &&
                !OnTrial(cfg, before))
  {
    RefinesHistory(cfg, ops[..i]);
    TrialExactly(cfg, ops[..i]);
  }

  predicate Monotone(ops: seq<Op>) {
    forall i, j :: 0 <= i < j < |ops| && Timed(ops[i]) && Timed(ops[j]) ==> TimeOf(ops[i]) <= TimeOf(ops[j])
  }

  predicate Timed(op: Op) { op.Call? || op.Failure? }

  function TimeOf(op: Op): int
    requires Timed(op)
  {
    op.at
  }

  lemma {:induction false} LastFailureIs(ops: seq<Op>, f: nat)
    requires f < |ops| && ops[f].Failure? && Monotone(ops)
    ensures LastFailure(ops).Some? && LastFailure(ops).value >= ops[f].at
  {
    var n := |ops| - 1;
    if ops[n].Failure? {
      assert f < n ==> TimeOf(ops[f]) <= TimeOf(ops[n]);
    } else {
      assert ops[..n][f] == ops[f];
      assert Monotone(ops[..n]) by {
        forall i, j | 0 <= i < j < n && Timed(ops[i]) && Timed(ops[j])
          ensures TimeOf(ops[..n][i]) <= TimeOf(ops[..n][j])
        {
          assert TimeOf(ops[i]) <= TimeOf(ops[j]);
        }
      }
      LastFailureIs(ops[..n], f);
    }
  }

  lemma {:induction false} TrailingStays(ops: seq<Op>, f: nat, i: nat)
    requires f < i <= |ops|
    requires forall m :: f < m < i ==> !ops[m].Success?
    ensures Trailing(ops[..i]) >= Trailing(ops[..f + 1])
  {
    if i > f + 1 {
      TrailingStays(ops, f, i - 1);
      assert ops[..i][..i - 1] == ops[..i - 1];
    }
  }

  /** With a monotone clock, after the failure that completes a run of
      `threshold` no call is let through before the reset time has passed, unless
      a success was recorded in between. */
  lemma NoCallBeforeReset(cfg: Config, ops: seq<Op>, f: nat, i: nat)
    requires cfg.Valid() && Monotone(ops)
    requires f < i < |ops| && ops[f].Failure? && ops[i].Call? && Trailing(ops[..f + 1]) >= cfg.threshold
    requires forall m :: f < m < i ==> !ops[m].Success?
    requires AdmissionAt(cfg, ops, i).Admitted?
    ensures AdmissionAt(cfg, ops, i) == Admitted(true) && ops[i].at >= ops[f].at + cfg.reset
  {
    AdmittedExactly(cfg, ops, i);
    TrailingStays(ops, f, i);
    assert Monotone(ops[..i]) by {
      forall j, k | 0 <= j < k < i && Timed(ops[j]) && Timed(ops[k])
        ensures TimeOf(ops[..i][j]) <= TimeOf(ops[..i][k])
      {
        assert TimeOf(ops[j]) <= TimeOf(ops[k]);
      }
    }
    assert ops[..i][f] == ops[f];
    LastFailureIs(ops[..i], f);
  }

  lemma {:induction false} TrialHolds(cfg: Config, ops: seq<Op>, i: nat, j: nat)
    requires i < j <= |ops| && TrialAt(cfg, ops, i)
    requires forall m :: i < m < j ==> !Settles(ops[m])
    ensures Replay(cfg, ops[..j]).trial
  {
    assert ops[..j][..j - 1] == ops[..j - 1];
    if j > i + 1 {
      TrialHolds(cfg, ops, i, j - 1);
    }
  }

  /** Between two trial admissions there is always an outcome or a release. */
  lemma TrialsAreSeparated(cfg: Config, ops: seq<Op>, i: nat, j: nat)
    requires i < j && TrialAt(cfg, ops, i) && TrialAt(cfg, ops, j)
    ensures exists m :: i < m < j && Settles(ops[m])
  {
    if forall m :: i < m < j ==> !Settles(ops[m]) {
      TrialHolds(cfg, ops, i, j);
      assert false;
    }
  }

  /** The retry hint is honest: with no trial running, waiting that long is
      exactly what it takes to be let through. */
  lemma RetryHint(cfg: Config, b: Breaker, now: int, later: int)
    requires cfg.Valid() && !b.trial && Admit(cfg, b, now).Refused? && later >= now
    ensures Admit(cfg, b, now).retryIn > 0
    ensures Admit(cfg, b, later) == Admitted(true) <==> later - now >= Admit(cfg, b, now).retryIn
  {
  }
}
