/**
  What one run promises, for every configuration and all replies: its calls are the plan's, its clean-up mirrors them.
 */
module LockProperties {
  import opened LockPlan
  import opened LockErrors
  import opened LockRun

  function Planned(cfg: Config): seq<Action> {
    Bracketed(Openers(cfg.layers, cfg.scope, cfg.wait))
  }

  predicate ReportsBool(a: Action) {
    match a
    case Step(PgTryAdvisoryXactLock) => true
    case Step(PgTryAdvisoryLock) => true
    case Step(PgAdvisoryUnlock) => true
    case Step(FiduciaRelease) => true
    case _ => false
  }

  /** The call did what it was made for. */
  predicate Confirmed(replies: Oracle, a: Action) {
    replies(a).Answer? && (ReportsBool(a) ==> replies(a).yes)
  }

  function Confirms(replies: Oracle): Action -> bool {
    a => Confirmed(replies, a)
  }

  // ---------------------------------------------------------------------
  // Executors refine the plan
  // ---------------------------------------------------------------------

  predicate Fresh(log: seq<Action>) {
    Step(PgRollback) !in log && Step(PgAdvisoryUnlock) !in log
  }

  lemma SessionRefinesPlan(cfg: Config, replies: Oracle, log: seq<Action>) returns (out: Outcome)
    requires cfg.layers == LockLayers(false, true) && cfg.scope.Session? && Fresh(log)
    ensures var ran := Brackets([Step(LockStepFor(cfg.scope, cfg.wait))], Confirms(replies), log);
      && Finish(cfg, AtLock, replies, log) ==
        Finish(cfg, AtReturn(Suspect(ran.log, Confirms(replies)), out), replies, ran.log)
      && (out.Ok? <==> ran.good)
  {
    var lock := Step(LockStepFor(cfg.scope, cfg.wait));
    assert [lock] == [lock] + [];
    BracketsCons(lock, [], Confirms(replies), log);
    var at := Advance(cfg, AtLock, replies, log);
    if Confirmed(replies, lock) {
      at := Advance(cfg, at, replies, log + [lock]);
      at := Advance(cfg, at, replies, log + [lock] + [Step(Work)]);
    }
    out := at.inner;
  }

  lemma EndRefinesPlan(cfg: Config, replies: Oracle, at: Control, inner: Ran) returns (out: Outcome)
    requires cfg.layers == LockLayers(false, true) && cfg.scope.Transaction? && Fresh(inner.log)
    requires if inner.good then at.AtCommit? else at.AtRollback?
    ensures var ran := Close(Step(PgBegin), inner, Confirms(replies));
      && Finish(cfg, at, replies, inner.log) ==
        Finish(cfg, AtReturn(Suspect(ran.log, Confirms(replies)), out), replies, ran.log)
      && (out.Ok? <==> ran.good)
  {
    var next := Advance(cfg, at, replies, inner.log);
    if next.AtRollback? {
      next := Advance(cfg, next, replies, inner.log + [Step(PgCommit)]);
    }
    out := next.inner;
  }

  lemma LockedRefinesPlan(cfg: Config, replies: Oracle, log: seq<Action>) returns (at: Control)
    requires cfg.layers == LockLayers(false, true) && cfg.scope.Transaction? && Fresh(log)
    ensures var ran := Brackets([Step(LockStepFor(cfg.scope, cfg.wait))], Confirms(replies), log);
      && Fresh(ran.log)
      && Finish(cfg, AtLock, replies, log) == Finish(cfg, at, replies, ran.log)
      && (if ran.good then at.AtCommit? else at.AtRollback?)
  {
    var lock := Step(LockStepFor(cfg.scope, cfg.wait));
    assert [lock] == [lock] + [];
    BracketsCons(lock, [], Confirms(replies), log);
    at := Advance(cfg, AtLock, replies, log);
    if Confirmed(replies, lock) {
      at := Advance(cfg, at, replies, log + [lock]);
    }
  }

  lemma XactRefinesPlan(cfg: Config, replies: Oracle, log: seq<Action>) returns (out: Outcome)
    requires cfg.layers == LockLayers(false, true) && cfg.scope.Transaction? && Fresh(log)
    ensures var ran := Brackets([Step(PgBegin), Step(LockStepFor(cfg.scope, cfg.wait))], Confirms(replies), log);
      && Finish(cfg, AtBegin, replies, log) ==
        Finish(cfg, AtReturn(Suspect(ran.log, Confirms(replies)), out), replies, ran.log)
      && (out.Ok? <==> ran.good)
  {
    var begin, lock := Step(PgBegin), Step(LockStepFor(cfg.scope, cfg.wait));
    assert [begin, lock] == [begin] + [lock];
    BracketsCons(begin, [lock], Confirms(replies), log);
    var at := Advance(cfg, AtBegin, replies, log);
    if Confirmed(replies, begin) {
      at := LockedRefinesPlan(cfg, replies, log + [begin]);
      out := EndRefinesPlan(cfg, replies, at, Brackets([lock], Confirms(replies), log + [begin]));
    } else {
      out := at.inner;
    }
  }

  lemma OnClientRefinesPlan(cfg: Config, replies: Oracle, log: seq<Action>) returns (out: Outcome)
    requires cfg.layers == LockLayers(false, true) && Fresh(log)
    ensures var ran := Brackets(OnClient(cfg.scope, cfg.wait), Confirms(replies), log);
      && Finish(cfg, if cfg.scope.Session? then AtLock else AtBegin, replies, log) ==
         Finish(cfg, AtReturn(Suspect(ran.log, Confirms(replies)), out), replies, ran.log)
      && (out.Ok? <==> ran.good)
  {
    if cfg.scope.Session? {
      out := SessionRefinesPlan(cfg, replies, log);
    } else {
      out := XactRefinesPlan(cfg, replies, log);
    }
  }

  lemma ClientRefinesPlan(cfg: Config, replies: Oracle, log: seq<Action>)
    requires cfg.layers == LockLayers(false, true) && Fresh(log)
    ensures var run := Finish(cfg, AtConnect, replies, log);
      var ran := Brackets([Connect] + OnClient(cfg.scope, cfg.wait), Confirms(replies), log);
      run.log == ran.log && (run.out.Ok? <==> ran.good)
  {
    var inside := OnClient(cfg.scope, cfg.wait);
    BracketsCons(Connect, inside, Confirms(replies), log);
    var at := Advance(cfg, AtConnect, replies, log);
    if Confirmed(replies, Connect) {
      var inner := Brackets(inside, Confirms(replies), log + [Connect]);
      var out := OnClientRefinesPlan(cfg, replies, log + [Connect]);
      at := AtReturn(Suspect(inner.log, Confirms(replies)), out);
      var _ := Advance(cfg, at, replies, inner.log);
    }
  }

  lemma InsideRefinesPlan(cfg: Config, replies: Oracle, log: seq<Action>)
    requires !cfg.layers.fiducia && Fresh(log)
    ensures var run := Finish(cfg, Inside(cfg), replies, log);
      var ran := Brackets(InsideLease(cfg.layers, cfg.scope, cfg.wait), Confirms(replies), log);
      run.log == ran.log && (run.out.Ok? <==> ran.good)
  {
    if cfg.layers.pgAdvisory {
      ClientRefinesPlan(cfg, replies, log);
    } else {
      var _ := Advance(cfg, AtWork, replies, log);
    }
  }

  lemma LeasedRefinesPlan(cfg: Config, replies: Oracle)
    requires cfg.layers.fiducia
    ensures var run := Finish(cfg, AtAcquire, replies, []);
      var ran := Brackets(Openers(cfg.layers, cfg.scope, cfg.wait), Confirms(replies), []);
      run.log == ran.log && (run.out.Ok? <==> ran.good)
  {
    var acquire := Step(AcquireStep(cfg.wait));
    var inside := InsideLease(cfg.layers, cfg.scope, cfg.wait);
    assert Openers(cfg.layers, cfg.scope, cfg.wait) == [acquire] + inside;
    BracketsCons(acquire, inside, Confirms(replies), []);
    var next := Advance(cfg, AtAcquire, replies, []);
    assert [] + [acquire] == [acquire];
    if Confirmed(replies, acquire) {
      assert InsideLease(Unleased(cfg).layers, cfg.scope, cfg.wait) == inside;
      LeaseWrapsInside(cfg, replies, [acquire]);
      InsideRefinesPlan(Unleased(cfg), replies, [acquire]);
      var inner := Brackets(inside, Confirms(replies), [acquire]);
      assert Close(acquire, inner, Confirms(replies)) == Attempt(Step(FiduciaRelease), inner, Confirms(replies));
    } else {
      assert next.Finished?;
    }
  }

  /** Every run makes exactly the calls of the bracketed plan, and succeeds exactly when the plan does. */
  lemma RunRefinesPlan(cfg: Config, replies: Oracle)
    requires !Unplannable(cfg)
    ensures var run := WholeRun(cfg, replies);
      var ran := Brackets(Openers(cfg.layers, cfg.scope, cfg.wait), Confirms(replies), []);
      run.log == ran.log && (run.out.Ok? <==> ran.good)
  {
    if cfg.layers.fiducia {
      LeasedRefinesPlan(cfg, replies);
    } else {
      assert Openers(cfg.layers, cfg.scope, cfg.wait) == InsideLease(cfg.layers, cfg.scope, cfg.wait);
      InsideRefinesPlan(cfg, replies, []);
    }
  }

  /** The shape lemma's precondition, for the openers a routine can have. */
  lemma OpenersOpen(layers: LockLayers, scope: PgScope, wait: bool)
    ensures forall i :: 0 <= i < |Openers(layers, scope, wait)| ==> IsOpener(Openers(layers, scope, wait)[i])
  {
  }

  /**
    A routine returns a value exactly when every planned action was confirmed, and then it
    made the planned calls and no others.
   */
  lemma SuccessIsThePlan(cfg: Config, replies: Oracle)
    requires !Unplannable(cfg)
    ensures var run := WholeRun(cfg, replies);
      && (run.out.Ok? <==> AllConfirmed(Planned(cfg), Confirms(replies)))
      && (run.out.Ok? ==> run.log == Planned(cfg))
  {
    RunRefinesPlan(cfg, replies);
    OpenersOpen(cfg.layers, cfg.scope, cfg.wait);
    var k, m := BracketsShape(Openers(cfg.layers, cfg.scope, cfg.wait), Confirms(replies), []);
    assert [] + Planned(cfg) == Planned(cfg);
    if WholeRun(cfg, replies).out.Err? {
      assert !Planned(cfg)[k].Return? && !Confirmed(replies, Planned(cfg)[k]);
    }
  }

  /**
    A failing routine made the planned calls up to the first one that was not confirmed,
    and then gave back what it had taken, last taken first, and nothing else.
   */
  lemma FailureIsAPrefixThenCleanup(cfg: Config, replies: Oracle) returns (k: nat, m: nat)
    requires !Unplannable(cfg) && WholeRun(cfg, replies).out.Err?
    ensures var openers := Openers(cfg.layers, cfg.scope, cfg.wait);
      && FailsAt(openers, Confirms(replies), k, m)
      && WholeRun(cfg, replies).log == Unwind(openers[..m], Confirms(replies), Planned(cfg)[..k + 1])
  {
    RunRefinesPlan(cfg, replies);
    OpenersOpen(cfg.layers, cfg.scope, cfg.wait);
    k, m := BracketsShape(Openers(cfg.layers, cfg.scope, cfg.wait), Confirms(replies), []);
    assert [] + Planned(cfg)[..k + 1] == Planned(cfg)[..k + 1];
  }
}
