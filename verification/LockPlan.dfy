/**
  The lock plan as data, and its reading as nested brackets that the executors are held to.
 */
module LockPlan {

  /** Which coordination layers a routine engages. */
  datatype LockLayers = LockLayers(fiducia: bool, pgAdvisory: bool)

  datatype PgScope = Transaction | Session

  datatype LockStep =
    | FiduciaAcquire
    | FiduciaTryAcquire
    | FiduciaRelease
    | PgBegin
    | PgAdvisoryXactLock
    | PgTryAdvisoryXactLock
    | PgCommit
    | PgRollback
    | PgAdvisoryLock
    | PgTryAdvisoryLock
    | PgAdvisoryUnlock
    | Work

  datatype LockPlan = LockPlan(layers: LockLayers, pgScope: PgScope, wait: bool, steps: seq<LockStep>)

  /** What an executor does to the outside world: a step of the plan, or moving a client in and out of the pool. */
  datatype Action = Step(step: LockStep) | Connect | Return(poisoned: bool)

  function AcquireStep(wait: bool): LockStep {
    if wait then FiduciaAcquire else FiduciaTryAcquire
  }

  function LockStepFor(scope: PgScope, wait: bool): LockStep {
    match scope
    case Transaction => if wait then PgAdvisoryXactLock else PgTryAdvisoryXactLock
    case Session => if wait then PgAdvisoryLock else PgTryAdvisoryLock
  }

  /** Taken on a client before `work`. */
  function OnClient(scope: PgScope, wait: bool): seq<Action> {
    if scope.Session? then [Step(LockStepFor(scope, wait))]
    else [Step(PgBegin), Step(LockStepFor(scope, wait))]
  }

  /** Taken inside the lease before `work`. A client is taken before the first database step. */
  function InsideLease(layers: LockLayers, scope: PgScope, wait: bool): seq<Action> {
    if layers.pgAdvisory then [Connect] + OnClient(scope, wait) else []
  }

  /** Everything taken before `work`, outermost first. */
  function Openers(layers: LockLayers, scope: PgScope, wait: bool): seq<Action> {
    (if layers.fiducia then [Step(AcquireStep(wait))] else []) + InsideLease(layers, scope, wait)
  }

  /** What closes an opener once everything inside it succeeded. A transaction lock ends with its transaction. */
  function Closer(opener: Action): seq<Action> {
    match opener
    case Step(FiduciaAcquire) => [Step(FiduciaRelease)]
    case Step(FiduciaTryAcquire) => [Step(FiduciaRelease)]
    case Step(PgBegin) => [Step(PgCommit)]
    case Step(PgAdvisoryLock) => [Step(PgAdvisoryUnlock)]
    case Step(PgTryAdvisoryLock) => [Step(PgAdvisoryUnlock)]
    case Connect => [Return(false)]
    case _ => []
  }

  /** `openers`, then `work`, then the closers of `openers` in reverse order. */
  function Bracketed(openers: seq<Action>): seq<Action> {
    if openers == [] then [Step(Work)]
    else [openers[0]] + Bracketed(openers[1..]) + Closer(openers[0])
  }

  /** The steps of the plan that occur in an action log. */
  function StepsOf(log: seq<Action>): seq<LockStep> {
    if log == [] then []
    else (if log[0].Step? then [log[0].step] else []) + StepsOf(log[1..])
  }

  /** The bracketed actions, written out. */
  lemma BracketedActions(layers: LockLayers, scope: PgScope, wait: bool)
    ensures Bracketed(InsideLease(layers, scope, wait)) ==
      if !layers.pgAdvisory then [Step(Work)]
      else if scope.Session? then
        [Connect, Step(LockStepFor(scope, wait)), Step(Work), Step(PgAdvisoryUnlock), Return(false)]
      else [Connect, Step(PgBegin), Step(LockStepFor(scope, wait)), Step(Work), Step(PgCommit), Return(false)]
    ensures layers.fiducia ==>
      Bracketed(Openers(layers, scope, wait)) ==
      [Step(AcquireStep(wait))] + Bracketed(InsideLease(layers, scope, wait)) + [Step(FiduciaRelease)]
  {
    var inner := InsideLease(layers, scope, wait);
    if layers.fiducia {
      assert Openers(layers, scope, wait)[1..] == inner;
    }
    if layers.pgAdvisory {
      var lock := Step(LockStepFor(scope, wait));
      assert inner[1..] == OnClient(scope, wait);
      assert Bracketed([lock]) == [lock, Step(Work)] + Closer(lock) by { assert [lock][1..] == []; }
      if scope.Transaction? {
        assert OnClient(scope, wait)[1..] == [lock];
      }
    }
  }

  lemma {:induction false} StepsOfAppend(a: seq<Action>, b: seq<Action>)
    ensures StepsOf(a + b) == StepsOf(a) + StepsOf(b)
  {
    if a == [] {
      assert a + b == b;
    } else {
      assert (a + b)[0] == a[0] && (a + b)[1..] == a[1..] + b;
      StepsOfAppend(a[1..], b);
      var head := if a[0].Step? then [a[0].step] else [];
      assert StepsOf(a + b) == head + StepsOf(a[1..] + b);
      assert StepsOf(a) == head + StepsOf(a[1..]);
    }
  }

  lemma {:induction false} StepsOfSteps(log: seq<Action>, steps: seq<LockStep>)
    requires |log| == |steps|
    requires forall i :: 0 <= i < |log| ==> log[i] == Step(steps[i])
    ensures StepsOf(log) == steps
  {
    if log == [] {
    } else {
      StepsOfSteps(log[1..], steps[1..]);
    }
  }

  lemma StepsOfLeased(acquire: LockStep, inner: seq<Action>)
    ensures StepsOf([Step(acquire)] + inner + [Step(FiduciaRelease)]) == [acquire] + StepsOf(inner) + [FiduciaRelease]
  {
    StepsOfAppend([Step(acquire)] + inner, [Step(FiduciaRelease)]);
    StepsOfAppend([Step(acquire)], inner);
    StepsOfSteps([Step(acquire)], [acquire]);
    StepsOfSteps([Step(FiduciaRelease)], [FiduciaRelease]);
  }

  lemma StepsOfClient(steps: seq<LockStep>, log: seq<Action>)
    requires |log| == |steps| + 2 && log[0] == Connect && log[|log| - 1] == Return(false)
    requires forall i :: 0 <= i < |steps| ==> log[i + 1] == Step(steps[i])
    ensures StepsOf(log) == steps
  {
    var middle := log[1..|log| - 1];
    assert log == [Connect] + (middle + [Return(false)]);
    StepsOfSteps(middle, steps);
    StepsOfAppend(middle, [Return(false)]);
    assert log[1..] == middle + [Return(false)];
  }

  lemma BracketedSteps(layers: LockLayers, scope: PgScope, wait: bool)
    ensures StepsOf(Bracketed(Openers(layers, scope, wait))) ==
      (if layers.fiducia then [if wait then FiduciaAcquire else FiduciaTryAcquire] else [])
      + (if !layers.pgAdvisory then [Work]
         else if scope.Session? then [if wait then PgAdvisoryLock else PgTryAdvisoryLock, Work, PgAdvisoryUnlock]
         else [PgBegin, if wait then PgAdvisoryXactLock else PgTryAdvisoryXactLock, Work, PgCommit])
      + (if layers.fiducia then [FiduciaRelease] else [])
  {
    var inner := Bracketed(InsideLease(layers, scope, wait));
    BracketedActions(layers, scope, wait);
    if !layers.pgAdvisory {
      StepsOfSteps([Step(Work)], [Work]);
    } else if scope.Session? {
      StepsOfClient([LockStepFor(scope, wait), Work, PgAdvisoryUnlock], inner);
    } else {
      StepsOfClient([PgBegin, LockStepFor(scope, wait), Work, PgCommit], inner);
    }
    if layers.fiducia {
      StepsOfLeased(AcquireStep(wait), inner);
    } else {
      assert Openers(layers, scope, wait) == InsideLease(layers, scope, wait);
    }
  }

  /** The plan as the source computes it; its steps are properly nested around `work`. */
  method Plan(layers: LockLayers, pgScope: PgScope, wait: bool) returns (p: LockPlan)
    ensures p.layers == layers && p.pgScope == pgScope && p.wait == wait
    ensures p.steps == StepsOf(Bracketed(Openers(layers, pgScope, wait)))
  {
    var steps: seq<LockStep> := [];
    if layers.fiducia {
      steps := steps + [if wait then FiduciaAcquire else FiduciaTryAcquire];
    }
    if !layers.pgAdvisory {
      steps := steps + [Work];
    } else if pgScope == Session {
      steps := steps + [if wait then PgAdvisoryLock else PgTryAdvisoryLock, Work, PgAdvisoryUnlock];
    } else {
      steps := steps + [PgBegin, if wait then PgAdvisoryXactLock else PgTryAdvisoryXactLock, Work, PgCommit];
    }
    if layers.fiducia {
      steps := steps + [FiduciaRelease];
    }
    p := LockPlan(layers, pgScope, wait, steps);
    BracketedSteps(layers, pgScope, wait);
  }

  // ---------------------------------------------------------------------
  // Running a plan when steps may fail
  // ---------------------------------------------------------------------

  datatype Ran = Ran(log: seq<Action>, good: bool)

  function Attempt(closer: Action, inner: Ran, confirmed: Action -> bool): Ran {
    Ran(inner.log + [closer], inner.good && confirmed(closer))
  }

  /** A session is not reusable once a rollback was needed or its unlock was not confirmed. */
  predicate Suspect(log: seq<Action>, confirmed: Action -> bool) {
    || Step(PgRollback) in log
    || (Step(PgAdvisoryUnlock) in log && !confirmed(Step(PgAdvisoryUnlock)))
  }

  /** How one bracket is closed: commit or roll back, unlock, hand the client back, release the lease. */
  function Close(opener: Action, inner: Ran, confirmed: Action -> bool): Ran
  {
    match opener
    case Step(FiduciaAcquire) => Attempt(Step(FiduciaRelease), inner, confirmed)
    case Step(FiduciaTryAcquire) => Attempt(Step(FiduciaRelease), inner, confirmed)
    case Step(PgBegin) =>
      var ended := if inner.good then Attempt(Step(PgCommit), inner, confirmed) else inner;
      if ended.good then ended else Ran(ended.log + [Step(PgRollback)], false)
    case Step(PgAdvisoryLock) => Attempt(Step(PgAdvisoryUnlock), inner, confirmed)
    case Step(PgTryAdvisoryLock) => Attempt(Step(PgAdvisoryUnlock), inner, confirmed)
    case Connect => Ran(inner.log + [Return(Suspect(inner.log, confirmed))], inner.good)
    case _ => inner
  }

  /**
    The reference execution of a stack of brackets, appending to `log`:
    `confirmed(a)` says whether action `a` succeeds. A bracket whose opener failed
    is not entered. A bracket that was entered is always closed after everything
    inside it, whether the inside succeeded or not.
   */
  function Brackets(openers: seq<Action>, confirmed: Action -> bool, log: seq<Action>): Ran
  {
    if openers == [] then Ran(log + [Step(Work)], confirmed(Step(Work)))
    else
      var entered := log + [openers[0]];
      if !confirmed(openers[0]) then Ran(entered, false)
      else Close(openers[0], Brackets(openers[1..], confirmed, entered), confirmed)
  }

  lemma BracketsCons(opener: Action, rest: seq<Action>, confirmed: Action -> bool, log: seq<Action>)
    ensures Brackets([opener] + rest, confirmed, log) ==
      if confirmed(opener) then Close(opener, Brackets(rest, confirmed, log + [opener]), confirmed)
      else Ran(log + [opener], false)
  {
    assert ([opener] + rest)[1..] == rest;
  }

  // ---------------------------------------------------------------------
  // The shape of a run: a prefix of the plan, then clean-up
  // ---------------------------------------------------------------------

  predicate IsOpener(a: Action) {
    match a
    case Connect => true
    case Return(_) => false
    case Step(s) => s in {
      FiduciaAcquire, FiduciaTryAcquire, PgBegin, PgAdvisoryXactLock, PgTryAdvisoryXactLock, PgAdvisoryLock,
      PgTryAdvisoryLock}
  }

  /** How something taken is given back when the run is failing. */
  function Undo(opener: Action, confirmed: Action -> bool, log: seq<Action>): seq<Action> {
    match opener
    case Step(PgBegin) => [Step(PgRollback)]
    case Connect => [Return(Suspect(log, confirmed))]
    case _ => Closer(opener)
  }

  /** Give back everything in `held`, last taken first, appending to `log`. */
  function Unwind(held: seq<Action>, confirmed: Action -> bool, log: seq<Action>): seq<Action> {
    if held == [] then log
    else
      var last := |held| - 1;
      Unwind(held[..last], confirmed, log + Undo(held[last], confirmed, log))
  }

  lemma {:induction false} UnwindFirst(first: Action, held: seq<Action>, confirmed: Action -> bool, log: seq<Action>)
    ensures var inner := Unwind(held, confirmed, log);
      Unwind([first] + held, confirmed, log) == inner + Undo(first, confirmed, inner)
    decreases |held|
  {
    if held == [] {
      assert [first] + held == [first] && [first][..0] == [];
    } else {
      var last := |held| - 1;
      assert ([first] + held)[..last + 1] == [first] + held[..last];
      UnwindFirst(first, held[..last], confirmed, log + Undo(held[last], confirmed, log));
    }
  }

  /** All of `actions` that report anything were confirmed. Handing a client back reports nothing. */
  predicate AllConfirmed(actions: seq<Action>, confirmed: Action -> bool) {
    forall i :: 0 <= i < |actions| && !actions[i].Return? ==> confirmed(actions[i])
  }

  /**
    The run of a plan that fails at its `k`-th action with `m` openers left to give back:
    everything before was confirmed, and what is left is exactly what was taken and not yet given up.
   */
  ghost predicate FailsAt(openers: seq<Action>, confirmed: Action -> bool, k: nat, m: nat) {
    var plan := Bracketed(openers);
    && k < |plan| && m <= |openers|
    && AllConfirmed(plan[..k], confirmed) && !plan[k].Return? && !confirmed(plan[k])
    && (k <= |openers| ==> m == k)
    && (k > |openers| ==>
          if plan[k] == Step(PgCommit) then m > 0 && openers[m - 1] == Step(PgBegin)
          else m < |openers| && plan[k] in Closer(openers[m]))
  }

  /** `ran` is the whole bracketed plan, or it fails at `k` and gives back the first `m` openers. */
  ghost predicate Shaped(openers: seq<Action>, confirmed: Action -> bool, log: seq<Action>, ran: Ran, k: nat, m: nat) {
    var plan := Bracketed(openers);
    if ran.good then ran.log == log + plan && AllConfirmed(plan, confirmed) && !Suspect(ran.log, confirmed)
    else FailsAt(openers, confirmed, k, m) && ran.log == Unwind(openers[..m], confirmed, log + plan[..k + 1])
  }

  lemma FailsAtOuter(first: Action, rest: seq<Action>, confirmed: Action -> bool, k: nat, m: nat)
    requires confirmed(first) && FailsAt(rest, confirmed, k, m)
    ensures FailsAt([first] + rest, confirmed, k + 1, m + 1)
  {
    var openers, plan := [first] + rest, Bracketed(rest);
    assert openers[1..] == rest;
    assert Bracketed(openers) == [first] + plan + Closer(first);
    assert Bracketed(openers)[..k + 1] == [first] + plan[..k];
  }

  lemma ShapeWhenInnerFails(
    first: Action, rest: seq<Action>, confirmed: Action -> bool, log: seq<Action>, inner: Ran, k: nat, m: nat)
    requires IsOpener(first) && confirmed(first) && !inner.good
    requires Shaped(rest, confirmed, log + [first], inner, k, m)
    ensures Shaped([first] + rest, confirmed, log, Close(first, inner, confirmed), k + 1, m + 1)
  {
    var openers, plan := [first] + rest, Bracketed(rest);
    assert openers[1..] == rest;
    var outer := Bracketed(openers);
    assert outer == [first] + plan + Closer(first);
    assert outer[..k + 2] == [first] + plan[..k + 1];
    assert outer[..k + 1] == [first] + plan[..k];
    assert openers[..m + 1] == [first] + rest[..m];
    assert log + outer[..k + 2] == log + [first] + plan[..k + 1];
    UnwindFirst(first, rest[..m], confirmed, log + outer[..k + 2]);
    assert Close(first, inner, confirmed).log == inner.log + Undo(first, confirmed, inner.log);
    FailsAtOuter(first, rest, confirmed, k, m);
  }

  lemma {:induction false} BracketedLength(openers: seq<Action>)
    ensures |Bracketed(openers)| > |openers|
  {
    if openers == [] {
    } else {
      BracketedLength(openers[1..]);
    }
  }

  lemma ShapeWhenInnerSucceeds(first: Action, rest: seq<Action>, confirmed: Action -> bool, log: seq<Action>,
    inner: Ran)
    returns (k: nat, m: nat)
    requires IsOpener(first) && confirmed(first) && inner.good
    requires Shaped(rest, confirmed, log + [first], inner, 0, 0)
    ensures Shaped([first] + rest, confirmed, log, Close(first, inner, confirmed), k, m)
  {
    var openers, plan := [first] + rest, Bracketed(rest);
    assert openers[1..] == rest;
    var outer := Bracketed(openers);
    assert outer == [first] + plan + Closer(first);
    assert log + [first] + plan + Closer(first) == log + outer;
    k, m := |plan| + 1, if first == Step(PgBegin) then 1 else 0;
    assert outer[..k] == [first] + plan;
    BracketedLength(rest);
    if Closer(first) != [] && !first.Connect? && !confirmed(Closer(first)[0]) {
      assert outer[..k + 1] == outer;
      assert openers[..1] == [first] && openers[..0] == [];
      assert [first][..0] == [];
    }
  }

  /** A bracketed plan either runs through, or stops at its first unconfirmed action and unwinds. */
  lemma {:induction false} BracketsShape(openers: seq<Action>, confirmed: Action -> bool, log: seq<Action>)
    returns (k: nat, m: nat)
    requires forall i :: 0 <= i < |openers| ==> IsOpener(openers[i])
    requires !Suspect(log, confirmed)
    ensures Shaped(openers, confirmed, log, Brackets(openers, confirmed, log), k, m)
    decreases |openers|
  {
    k, m := 0, 0;
    if openers == [] {
    } else {
      var first, rest := openers[0], openers[1..];
      assert openers == [first] + rest;
      BracketsCons(first, rest, confirmed, log);
      if confirmed(first) {
        var inner := Brackets(rest, confirmed, log + [first]);
        k, m := BracketsShape(rest, confirmed, log + [first]);
        if inner.good {
          k, m := ShapeWhenInnerSucceeds(first, rest, confirmed, log, inner);
        } else {
          ShapeWhenInnerFails(first, rest, confirmed, log, inner, k, m);
          k, m := k + 1, m + 1;
        }
      } else {
        assert Bracketed(openers)[..1] == [first];
      }
    }
  }
}
