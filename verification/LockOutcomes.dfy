/**
  Who is blamed when a run fails, what a retryable error promises, and that everything is given back exactly once.
 */
module LockOutcomes {
  import opened Key
  import opened LockPlan
  import opened LockErrors
  import opened LockRun
  import opened LockProperties

  // ---------------------------------------------------------------------
  // Blame
  // ---------------------------------------------------------------------

  /** Rolling back and handing a client back are never reported. */
  predicate Silent(a: Action) {
    a.Return? || a == Step(PgRollback)
  }

  /** An error of the lease authority, which may leave the step out. */
  function OfAuthority(error: Failure, step: LockStep): Failure {
    match error
    case LockError(kind, key, NoStep, cause) => LockError(kind, key, At(step), cause)
    case _ => error
  }

  /** What one unconfirmed call is reported as, on its own. */
  function ErrorAt(cfg: Config, replies: Oracle, a: Action): Failure
    requires !Confirmed(replies, a) && !Silent(a)
  {
    var reply := replies(a);
    match a
    case Connect =>
      LockError(Database, cfg.key, At(if cfg.scope.Session? then PgAdvisoryLock else PgBegin), Wraps(reply.error))
    case Step(Work) => LockError(WorkFailed, cfg.key, At(Work), Wraps(reply.error))
    case Step(FiduciaAcquire) => OfAuthority(reply.error, FiduciaAcquire)
    case Step(FiduciaTryAcquire) => OfAuthority(reply.error, FiduciaTryAcquire)
    case Step(FiduciaRelease) =>
      if reply.Raised? then OfAuthority(reply.error, FiduciaRelease)
      else LockError(LostLease, cfg.key, At(FiduciaRelease), NoCause)
    case Step(PgAdvisoryUnlock) =>
      LockError(Database, cfg.key, At(PgAdvisoryUnlock), if reply.Raised? then Wraps(reply.error) else NoCause)
    case Step(step) =>
      if reply.Raised? then LockError(Database, cfg.key, At(step), Wraps(reply.error))
      else LockError(Contention, cfg.key, At(step), NoCause)
  }

  /** One more call: a failure becomes primary and carries the earlier one as its inner cause. */
  function BlameNext(cfg: Config, replies: Oracle, earlier: Outcome, a: Action): Outcome {
    if Silent(a) then earlier
    else if !Confirmed(replies, a) then
      var own := ErrorAt(cfg, replies, a);
      Err(if earlier.Err? then CleanupFailure(cfg.key, own, earlier.error) else own)
    else if a == Step(Work) && earlier.Ok? then Ok(replies(a).value)
    else earlier
  }

  /** Read an outcome off a log. */
  function Blame(cfg: Config, replies: Oracle, log: seq<Action>): Outcome
  {
    if log == [] then Ok(0)
    else BlameNext(cfg, replies, Blame(cfg, replies, log[..|log| - 1]), log[|log| - 1])
  }

  /** What a control point remembers agrees with the log so far. */
  predicate Carries(at: Control, blame: Outcome) {
    match at
    case AtCommit(v) => blame == Ok(v)
    case AtRollback(e) => blame == Err(e)
    case AtUnlock(inner) => blame == inner
    case AtReturn(_, inner) => blame == inner
    case AtRelease(inner) => blame == inner
    case Finished(out) => blame == out
    case _ => blame.Ok?
  }

  lemma StepCarries(cfg: Config, at: Control, replies: Oracle, blame: Outcome)
    requires !at.Finished? && Carries(at, blame)
    ensures var a := ActionAt(cfg, at);
      Carries(Next(cfg, at, replies(a)), BlameNext(cfg, replies, blame, a))
  {
  }

  lemma {:induction false} BlameFollows(cfg: Config, at: Control, replies: Oracle, log: seq<Action>)
    requires Carries(at, Blame(cfg, replies, log))
    ensures var run := Finish(cfg, at, replies, log);
      run.out == Blame(cfg, replies, run.log)
    decreases Rank(at)
  {
    if at.Finished? {
    } else {
      var a := ActionAt(cfg, at);
      var next := Advance(cfg, at, replies, log);
      assert (log + [a])[..|log|] == log;
      StepCarries(cfg, at, replies, Blame(cfg, replies, log));
      BlameFollows(cfg, next, replies, log + [a]);
    }
  }

  /** The outcome of a run is the one its log blames. */
  lemma OutcomeIsBlamed(cfg: Config, replies: Oracle)
    requires !Unplannable(cfg)
    ensures var run := WholeRun(cfg, replies);
      run.out == Blame(cfg, replies, run.log)
  {
    BlameFollows(cfg, Start(cfg), replies, []);
  }

  /** The reported kind is that of the last call that failed; an earlier failure is kept as its inner cause. */
  lemma {:induction false} LastFailureIsPrimary(cfg: Config, replies: Oracle, log: seq<Action>) returns (i: nat)
    requires Blame(cfg, replies, log).Err?
    ensures i < |log| && !Silent(log[i]) && !Confirmed(replies, log[i])
    ensures forall j :: i < j < |log| ==> Silent(log[j]) || Confirmed(replies, log[j])
    ensures var own, error, earlier :=
        ErrorAt(cfg, replies, log[i]), Blame(cfg, replies, log).error, Blame(cfg, replies, log[..i]);
      if earlier.Err? then error == CleanupFailure(cfg.key, own, earlier.error) else error == own
    decreases |log|
  {
    var last := |log| - 1;
    if Silent(log[last]) || Confirmed(replies, log[last]) {
      i := LastFailureIsPrimary(cfg, replies, log[..last]);
      assert log[..last][..i] == log[..i];
    } else {
      i := last;
    }
  }

  /** The call whose failure is primary in the outcome. */
  ghost predicate Primary(replies: Oracle, log: seq<Action>, i: nat) {
    && i < |log| && !Silent(log[i]) && !Confirmed(replies, log[i])
    && forall j :: i < j < |log| ==> Silent(log[j]) || Confirmed(replies, log[j])
  }

  /** Some call before the `i`-th failed. */
  ghost predicate FailedBefore(replies: Oracle, log: seq<Action>, i: nat) {
    exists j :: 0 <= j < i && j < |log| && !Silent(log[j]) && !Confirmed(replies, log[j])
  }

  lemma {:induction false} BlameFailsExactly(cfg: Config, replies: Oracle, log: seq<Action>)
    ensures Blame(cfg, replies, log).Err? <==> FailedBefore(replies, log, |log|)
  {
    if log == [] {
    } else {
      var last := |log| - 1;
      BlameFailsExactly(cfg, replies, log[..last]);
      assert forall j :: 0 <= j < last ==> log[..last][j] == log[j];
    }
  }

  /** The last failure, whose earlier calls are known. */
  lemma PrimaryDecides(cfg: Config, replies: Oracle, log: seq<Action>, i: nat)
    requires Primary(replies, log, i)
    ensures Blame(cfg, replies, log).Err?
    ensures var own, error, earlier :=
        ErrorAt(cfg, replies, log[i]), Blame(cfg, replies, log).error, Blame(cfg, replies, log[..i]);
      && (earlier.Err? <==> FailedBefore(replies, log, i))
      && (if earlier.Err? then error == CleanupFailure(cfg.key, own, earlier.error) else error == own)
  {
    BlameFailsExactly(cfg, replies, log);
    BlameFailsExactly(cfg, replies, log[..i]);
    assert forall j :: 0 <= j < i ==> log[..i][j] == log[j];
    var last := LastFailureIsPrimary(cfg, replies, log);
    assert last == i;
  }

  predicate Reads(f: Failure, kind: LockErrorKind, key: Bytes, step: MaybeStep) {
    f.LockError? && f.kind == kind && f.key == key && f.step == step
  }

  /** `f` is the authority's own error at `step`; a foreign one comes through unless it follows another failure. */
  predicate ReadsAuthority(f: Failure, own: Failure, key: Bytes, step: LockStep, followed: bool) {
    if own.LockError? then Reads(f, own.kind, own.key, if own.step.At? then own.step else At(step))
    else if followed then Reads(f, Transport, key, NoStep)
    else f == own
  }

  /** What the failing call `a` makes of the error, `followed` telling whether another failure came before it. */
  ghost predicate ReadsAs(cfg: Config, reply: Reply, a: Action, f: Failure, followed: bool) {
    && (a == Connect ==>
          Reads(f, Database, cfg.key, At(if cfg.scope.Session? then PgAdvisoryLock else PgBegin)))
    && (a == Step(Work) ==> Reads(f, WorkFailed, cfg.key, At(Work)))
    && (a == Step(FiduciaAcquire) ==>
          reply.Raised? && ReadsAuthority(f, reply.error, cfg.key, FiduciaAcquire, followed))
    && (a == Step(FiduciaTryAcquire) ==>
          reply.Raised? && ReadsAuthority(f, reply.error, cfg.key, FiduciaTryAcquire, followed))
    && (a == Step(FiduciaRelease) ==>
          if reply.Answer? then Reads(f, LostLease, cfg.key, At(FiduciaRelease))
          else ReadsAuthority(f, reply.error, cfg.key, FiduciaRelease, followed))
    && (a == Step(PgAdvisoryUnlock) ==> Reads(f, Database, cfg.key, At(PgAdvisoryUnlock)))
    && (a == Step(PgTryAdvisoryLock) ==>
          Reads(f, if reply.Answer? then Contention else Database, cfg.key, At(PgTryAdvisoryLock)))
    && (a == Step(PgTryAdvisoryXactLock) ==>
          Reads(f, if reply.Answer? then Contention else Database, cfg.key, At(PgTryAdvisoryXactLock)))
    && (a.Step? && a.step in {PgBegin, PgAdvisoryXactLock, PgAdvisoryLock, PgCommit} ==>
          Reads(f, Database, cfg.key, At(a.step)))
  }

  lemma OwnReadsAs(cfg: Config, replies: Oracle, a: Action, earlier: Outcome)
    requires !Confirmed(replies, a) && !Silent(a)
    requires a == Connect || a == Step(Work) ==> replies(a).Raised?
    ensures var own := ErrorAt(cfg, replies, a);
      var error := if earlier.Err? then CleanupFailure(cfg.key, own, earlier.error) else own;
      ReadsAs(cfg, replies(a), a, error, earlier.Err?)
  {
  }

  /** Of the calls whose failure is reported, connecting and working report none by their answer. */
  lemma RaisedThere(replies: Oracle, a: Action)
    requires !Confirmed(replies, a)
    ensures a == Connect || a == Step(Work) ==> replies(a).Raised?
  {
  }

  lemma BlameReadsOff(cfg: Config, replies: Oracle, log: seq<Action>, i: nat)
    requires Primary(replies, log, i)
    ensures Blame(cfg, replies, log).Err?
    ensures ReadsAs(cfg, replies(log[i]), log[i], Blame(cfg, replies, log).error, FailedBefore(replies, log, i))
  {
    PrimaryDecides(cfg, replies, log, i);
    RaisedThere(replies, log[i]);
    OwnReadsAs(cfg, replies, log[i], Blame(cfg, replies, log[..i]));
  }

  /** The last call that failed gives a failing run its kind, its key and its step. */
  lemma FailureReadsOff(cfg: Config, replies: Oracle, i: nat)
    requires !Unplannable(cfg) && Primary(replies, WholeRun(cfg, replies).log, i)
    ensures var run := WholeRun(cfg, replies);
      && run.out.Err?
      && ReadsAs(cfg, replies(run.log[i]), run.log[i], run.out.error, FailedBefore(replies, run.log, i))
  {
    OutcomeIsBlamed(cfg, replies);
    BlameReadsOff(cfg, replies, WholeRun(cfg, replies).log, i);
  }

  lemma RetryableKinds(f: Failure)
    ensures Retryable(f) <==> f.LockError? && f.kind in {Contention, Timeout}
  {
  }

  /** A routine without a collaborator its layers need is refused before any call. */
  lemma UnplannableIsRefused(cfg: Config, replies: Oracle)
    ensures WholeRun(cfg, replies) == Run([], Err(LockError(InvalidPlan, cfg.key, NoStep, NoCause))) <==>
      (cfg.layers.fiducia && !cfg.hasLease) || (cfg.layers.pgAdvisory && !cfg.hasPool)
  {
    if !Unplannable(cfg) {
      var next := Advance(cfg, Start(cfg), replies, []);
      LogOnlyGrows(cfg, next, replies, [ActionAt(cfg, Start(cfg))], []);
      assert [] + [ActionAt(cfg, Start(cfg))] == [ActionAt(cfg, Start(cfg))] + [];
    }
  }

  lemma {:induction false} BlamelessValue(cfg: Config, replies: Oracle, log: seq<Action>)
    requires Blame(cfg, replies, log).Ok? && Step(Work) in log
    ensures replies(Step(Work)).Answer? && Blame(cfg, replies, log).value == replies(Step(Work)).value
  {
    var last := |log| - 1;
    if log[last] != Step(Work) {
      BlamelessValue(cfg, replies, log[..last]);
    }
  }

  lemma PlanWorks(cfg: Config)
    ensures Step(Work) in Planned(cfg)
  {
    BracketedActions(cfg.layers, cfg.scope, cfg.wait);
    assert !cfg.layers.fiducia ==>
      Openers(cfg.layers, cfg.scope, cfg.wait) == InsideLease(cfg.layers, cfg.scope, cfg.wait);
  }

  /** A routine that succeeds returns what `work` returned. */
  lemma ValueIsOfWork(cfg: Config, replies: Oracle)
    requires WholeRun(cfg, replies).out.Ok?
    ensures replies(Step(Work)).Answer? && WholeRun(cfg, replies).out.value == replies(Step(Work)).value
  {
    OutcomeIsBlamed(cfg, replies);
    SuccessIsThePlan(cfg, replies);
    PlanWorks(cfg);
    BlamelessValue(cfg, replies, WholeRun(cfg, replies).log);
  }

  // ---------------------------------------------------------------------
  // Every client and every grant is given back exactly once
  // ---------------------------------------------------------------------

  predicate Granted(cfg: Config, replies: Oracle, log: seq<Action>) {
    Step(AcquireStep(cfg.wait)) in log && Confirmed(replies, Step(AcquireStep(cfg.wait)))
  }

  predicate CheckedOut(replies: Oracle, log: seq<Action>) {
    Connect in log && Confirmed(replies, Connect)
  }

  ghost function Releases(log: seq<Action>): nat {
    multiset(log)[Step(FiduciaRelease)]
  }

  ghost function Returns(log: seq<Action>): nat {
    multiset(log)[Return(true)] + multiset(log)[Return(false)]
  }

  /** Nothing is released before the end, where a grant has been released once. */
  ghost predicate GrantBalanced(cfg: Config, replies: Oracle, at: Control, log: seq<Action>) {
    && WellPlaced(cfg, at)
    && (at.AtAcquire? ==> log == [])
    && (!at.AtAcquire? && !at.Finished? ==> (cfg.layers.fiducia <==> Granted(cfg, replies, log)))
    && Releases(log) == (if at.Finished? && Granted(cfg, replies, log) then 1 else 0)
  }

  lemma GrantBalanceKept(cfg: Config, replies: Oracle, at: Control, log: seq<Action>)
    requires GrantBalanced(cfg, replies, at, log) && !at.Finished?
    ensures var a := ActionAt(cfg, at);
      GrantBalanced(cfg, replies, Next(cfg, at, replies(a)), log + [a])
  {
    StaysWellPlaced(cfg, at, replies(ActionAt(cfg, at)));
  }

  lemma GrantBalanceAtEnd(cfg: Config, replies: Oracle, at: Control, log: seq<Action>)
    requires GrantBalanced(cfg, replies, at, log)
    ensures var run := Finish(cfg, at, replies, log);
      GrantBalanced(cfg, replies, Finished(run.out), run.log)
  {
    var inv := (at: Control, log: seq<Action>) => GrantBalanced(cfg, replies, at, log);
    forall at: Control, log: seq<Action> | !at.Finished? && inv(at, log)
      ensures inv(Next(cfg, at, replies(ActionAt(cfg, at))), log + [ActionAt(cfg, at)])
    {
      GrantBalanceKept(cfg, replies, at, log);
    }
    HoldsAtEnd(cfg, at, replies, log, inv);
  }

  /**
    A client is out exactly while the control points that use it are passed, and has been handed back once after them.
   */
  ghost predicate ClientBalanced(cfg: Config, replies: Oracle, at: Control, log: seq<Action>) {
    && WellPlaced(cfg, at)
    && (at.AtAcquire? || at.AtConnect? ==> !CheckedOut(replies, log))
    && (OnClientAt(cfg, at) ==> CheckedOut(replies, log))
    && Returns(log) == (if CheckedOut(replies, log) && !OnClientAt(cfg, at) then 1 else 0)
  }

  lemma ClientBalanceKept(cfg: Config, replies: Oracle, at: Control, log: seq<Action>)
    requires ClientBalanced(cfg, replies, at, log) && !at.Finished?
    ensures var a := ActionAt(cfg, at);
      ClientBalanced(cfg, replies, Next(cfg, at, replies(a)), log + [a])
  {
    StaysWellPlaced(cfg, at, replies(ActionAt(cfg, at)));
  }

  lemma ClientBalanceAtEnd(cfg: Config, replies: Oracle, at: Control, log: seq<Action>)
    requires ClientBalanced(cfg, replies, at, log)
    ensures var run := Finish(cfg, at, replies, log);
      ClientBalanced(cfg, replies, Finished(run.out), run.log)
  {
    var inv := (at: Control, log: seq<Action>) => ClientBalanced(cfg, replies, at, log);
    forall at: Control, log: seq<Action> | !at.Finished? && inv(at, log)
      ensures inv(Next(cfg, at, replies(ActionAt(cfg, at))), log + [ActionAt(cfg, at)])
    {
      ClientBalanceKept(cfg, replies, at, log);
    }
    HoldsAtEnd(cfg, at, replies, log, inv);
  }

  /** On every path a checked-out client is handed back exactly once and a grant is released exactly once. */
  lemma GivenBackExactlyOnce(cfg: Config, replies: Oracle)
    ensures var log := WholeRun(cfg, replies).log;
      && Returns(log) == (if CheckedOut(replies, log) then 1 else 0)
      && Releases(log) == (if Granted(cfg, replies, log) then 1 else 0)
  {
    GrantBalanceAtEnd(cfg, replies, Start(cfg), []);
    ClientBalanceAtEnd(cfg, replies, Start(cfg), []);
  }

  // ---------------------------------------------------------------------
  // How transactions and session locks are ended
  // ---------------------------------------------------------------------

  predicate Did(replies: Oracle, log: seq<Action>, step: LockStep) {
    Step(step) in log && Confirmed(replies, Step(step))
  }

  /** A transaction is rolled back unless it was committed, and never twice over. */
  predicate TransactionEnds(cfg: Config, replies: Oracle, at: Control, log: seq<Action>) {
    var begun, committed := Did(replies, log, PgBegin), Did(replies, log, PgCommit);
    var rolledBack := Step(PgRollback) in log;
    && WellPlaced(cfg, at)
    && match at
       case AtAcquire => !begun && !committed && !rolledBack
       case AtConnect => !begun && !committed && !rolledBack
       case AtBegin => !begun && !committed && !rolledBack
       case AtLock => (begun <==> cfg.scope.Transaction?) && !committed && !rolledBack
       case AtWork => (begun <==> cfg.layers.pgAdvisory && cfg.scope.Transaction?) && !committed && !rolledBack
       case AtCommit(_) => begun && !committed && !rolledBack
       case AtRollback(_) => begun && !committed && !rolledBack
       case AtUnlock(_) => !begun && !committed && !rolledBack
       case AtReturn(_, _) => rolledBack <==> begun && !committed
       case AtRelease(_) => rolledBack <==> begun && !committed
       case Finished(_) => rolledBack <==> begun && !committed
  }

  lemma TransactionEndsKept(cfg: Config, replies: Oracle, at: Control, log: seq<Action>)
    requires TransactionEnds(cfg, replies, at, log) && !at.Finished?
    ensures var a := ActionAt(cfg, at);
      TransactionEnds(cfg, replies, Next(cfg, at, replies(a)), log + [a])
  {
    StaysWellPlaced(cfg, at, replies(ActionAt(cfg, at)));
  }

  predicate SessionLocked(replies: Oracle, log: seq<Action>) {
    Did(replies, log, PgAdvisoryLock) || Did(replies, log, PgTryAdvisoryLock)
  }

  /** A session lock is given up once it was taken. */
  predicate SessionEnds(cfg: Config, replies: Oracle, at: Control, log: seq<Action>) {
    var locked, unlocked := SessionLocked(replies, log), Step(PgAdvisoryUnlock) in log;
    && WellPlaced(cfg, at)
    && match at
       case AtWork => (locked <==> cfg.layers.pgAdvisory && cfg.scope.Session?) && !unlocked
       case AtUnlock(_) => locked && !unlocked
       case AtReturn(_, _) => unlocked <==> locked
       case AtRelease(_) => unlocked <==> locked
       case Finished(_) => unlocked <==> locked
       case _ => !locked && !unlocked
  }

  lemma SessionEndsKept(cfg: Config, replies: Oracle, at: Control, log: seq<Action>)
    requires SessionEnds(cfg, replies, at, log) && !at.Finished?
    ensures var a := ActionAt(cfg, at);
      SessionEnds(cfg, replies, Next(cfg, at, replies(a)), log + [a])
  {
    StaysWellPlaced(cfg, at, replies(ActionAt(cfg, at)));
  }

  /** Whether the connection is to be thrown away. */
  predicate Spoilt(replies: Oracle, log: seq<Action>) {
    || Step(PgRollback) in log
    || (Step(PgAdvisoryUnlock) in log && !Confirmed(replies, Step(PgAdvisoryUnlock)))
  }

  /** A connection is thrown away exactly when its transaction was rolled back or its unlock was not confirmed. */
  predicate ReturnsSpoilt(cfg: Config, replies: Oracle, at: Control, log: seq<Action>) {
    && WellPlaced(cfg, at)
    && match at
       case AtReturn(poisoned, _) => Return(true) !in log && (poisoned <==> Spoilt(replies, log))
       case AtRelease(_) => Return(true) in log <==> Spoilt(replies, log)
       case Finished(_) => Return(true) in log <==> Spoilt(replies, log)
       case _ => Return(true) !in log && !Spoilt(replies, log)
  }

  lemma ReturnsSpoiltKept(cfg: Config, replies: Oracle, at: Control, log: seq<Action>)
    requires ReturnsSpoilt(cfg, replies, at, log) && !at.Finished?
    ensures var a := ActionAt(cfg, at);
      ReturnsSpoilt(cfg, replies, Next(cfg, at, replies(a)), log + [a])
  {
    StaysWellPlaced(cfg, at, replies(ActionAt(cfg, at)));
  }

  lemma TransactionEndsAtEnd(cfg: Config, replies: Oracle, at: Control, log: seq<Action>)
    requires TransactionEnds(cfg, replies, at, log)
    ensures var run := Finish(cfg, at, replies, log);
      TransactionEnds(cfg, replies, Finished(run.out), run.log)
  {
    var inv := (at: Control, log: seq<Action>) => TransactionEnds(cfg, replies, at, log);
    forall at: Control, log: seq<Action> | !at.Finished? && inv(at, log)
      ensures inv(Next(cfg, at, replies(ActionAt(cfg, at))), log + [ActionAt(cfg, at)])
    {
      TransactionEndsKept(cfg, replies, at, log);
    }
    HoldsAtEnd(cfg, at, replies, log, inv);
  }

  lemma SessionEndsAtEnd(cfg: Config, replies: Oracle, at: Control, log: seq<Action>)
    requires SessionEnds(cfg, replies, at, log)
    ensures var run := Finish(cfg, at, replies, log);
      SessionEnds(cfg, replies, Finished(run.out), run.log)
  {
    var inv := (at: Control, log: seq<Action>) => SessionEnds(cfg, replies, at, log);
    forall at: Control, log: seq<Action> | !at.Finished? && inv(at, log)
      ensures inv(Next(cfg, at, replies(ActionAt(cfg, at))), log + [ActionAt(cfg, at)])
    {
      SessionEndsKept(cfg, replies, at, log);
    }
    HoldsAtEnd(cfg, at, replies, log, inv);
  }

  lemma ReturnsSpoiltAtEnd(cfg: Config, replies: Oracle, at: Control, log: seq<Action>)
    requires ReturnsSpoilt(cfg, replies, at, log)
    ensures var run := Finish(cfg, at, replies, log);
      ReturnsSpoilt(cfg, replies, Finished(run.out), run.log)
  {
    var inv := (at: Control, log: seq<Action>) => ReturnsSpoilt(cfg, replies, at, log);
    forall at: Control, log: seq<Action> | !at.Finished? && inv(at, log)
      ensures inv(Next(cfg, at, replies(ActionAt(cfg, at))), log + [ActionAt(cfg, at)])
    {
      ReturnsSpoiltKept(cfg, replies, at, log);
    }
    HoldsAtEnd(cfg, at, replies, log, inv);
  }

  /**
    On every path a transaction that was begun is rolled back unless it was committed, a session lock that was taken
    is given up, and the connection is thrown away exactly when the one went back or the other was not confirmed.
   */
  lemma EndedProperly(cfg: Config, replies: Oracle)
    ensures var log := WholeRun(cfg, replies).log;
      && (Step(PgRollback) in log <==> Did(replies, log, PgBegin) && !Did(replies, log, PgCommit))
      && (Step(PgAdvisoryUnlock) in log <==> Did(replies, log, PgAdvisoryLock) || Did(replies, log, PgTryAdvisoryLock))
      && (Return(true) in log <==>
            || Step(PgRollback) in log
            || (Step(PgAdvisoryUnlock) in log && !Confirmed(replies, Step(PgAdvisoryUnlock))))
  {
    TransactionEndsAtEnd(cfg, replies, Start(cfg), []);
    SessionEndsAtEnd(cfg, replies, Start(cfg), []);
    ReturnsSpoiltAtEnd(cfg, replies, Start(cfg), []);
  }

  // ---------------------------------------------------------------------
  // Retrying
  // ---------------------------------------------------------------------

  /** The authority answers a release with an error that invites a retry. `FiduciaLease` never does. */
  predicate ReleaseInvitesRetry(replies: Oracle) {
    replies(Step(FiduciaRelease)).Raised? && Retryable(replies(Step(FiduciaRelease)).error)
  }

  predicate Inviting(out: Outcome) {
    out.Err? && Retryable(out.error)
  }

  predicate Sober(cfg: Config, replies: Oracle, at: Control, log: seq<Action>) {
    var worked := Step(Work) in log;
    match at
    case AtAcquire => !worked && Step(FiduciaRelease) !in log
    case AtConnect => !worked && Step(FiduciaRelease) !in log
    case AtBegin => !worked && Step(FiduciaRelease) !in log
    case AtLock => !worked && Step(FiduciaRelease) !in log
    case AtWork => !worked && Step(FiduciaRelease) !in log
    case AtCommit(_) => Step(FiduciaRelease) !in log
    case AtRollback(e) => (worked ==> !Retryable(e)) && Step(FiduciaRelease) !in log
    case AtUnlock(inner) => !Inviting(inner) && Step(FiduciaRelease) !in log
    case AtReturn(_, inner) => (worked ==> !Inviting(inner)) && Step(FiduciaRelease) !in log
    case AtRelease(inner) => (worked ==> !Inviting(inner)) && Step(FiduciaRelease) !in log
    case Finished(out) =>
      && (worked ==> (Inviting(out) <==> Step(FiduciaRelease) in log && ReleaseInvitesRetry(replies)))
      && (Step(FiduciaRelease) in log && !Confirmed(replies, Step(FiduciaRelease))
          ==> (Inviting(out) <==> ReleaseInvitesRetry(replies)))
  }

  lemma SoberKept(cfg: Config, replies: Oracle, at: Control, log: seq<Action>)
    requires Sober(cfg, replies, at, log) && !at.Finished?
    ensures var a := ActionAt(cfg, at);
      Sober(cfg, replies, Next(cfg, at, replies(a)), log + [a])
  {
  }

  lemma SoberAtEnd(cfg: Config, replies: Oracle, at: Control, log: seq<Action>)
    requires Sober(cfg, replies, at, log)
    ensures var run := Finish(cfg, at, replies, log);
      Sober(cfg, replies, Finished(run.out), run.log)
  {
    var inv := (at: Control, log: seq<Action>) => Sober(cfg, replies, at, log);
    forall at: Control, log: seq<Action> | !at.Finished? && inv(at, log)
      ensures inv(Next(cfg, at, replies(ActionAt(cfg, at))), log + [ActionAt(cfg, at)])
    {
      SoberKept(cfg, replies, at, log);
    }
    HoldsAtEnd(cfg, at, replies, log, inv);
  }

  /**
    Unless the authority invites a retry when releasing, a retryable error means that `work`
    never started, that a granted lease was confirmed released, and that a client was handed back.
   */
  lemma RetryableMeansNothingHalfDone(cfg: Config, replies: Oracle)
    requires !ReleaseInvitesRetry(replies)
    requires Inviting(WholeRun(cfg, replies).out)
    ensures var log := WholeRun(cfg, replies).log;
      && Step(Work) !in log
      && (Granted(cfg, replies, log) ==> Releases(log) == 1 && Confirmed(replies, Step(FiduciaRelease)))
      && (CheckedOut(replies, log) ==> Returns(log) == 1)
  {
    SoberAtEnd(cfg, replies, Start(cfg), []);
    GivenBackExactlyOnce(cfg, replies);
  }

  /** What the lease layer has to do with the calls made. */
  predicate Leased(cfg: Config, replies: Oracle, at: Control, log: seq<Action>) {
    && WellPlaced(cfg, at)
    && (Step(FiduciaRelease) in log || Granted(cfg, replies, log) ==> cfg.layers.fiducia)
    && (cfg.layers.fiducia && at.AtAcquire? ==> Step(Work) !in log && Connect !in log)
    && (cfg.layers.fiducia && !at.AtAcquire? && !at.Finished? ==> Granted(cfg, replies, log))
    && (cfg.layers.fiducia && (Step(Work) in log || Connect in log) ==> Granted(cfg, replies, log))
    && (at.Finished? && Granted(cfg, replies, log) ==> Step(FiduciaRelease) in log)
  }

  lemma LeasedKept(cfg: Config, replies: Oracle, at: Control, log: seq<Action>)
    requires Leased(cfg, replies, at, log) && !at.Finished?
    ensures var a := ActionAt(cfg, at);
      Leased(cfg, replies, Next(cfg, at, replies(a)), log + [a])
  {
    StaysWellPlaced(cfg, at, replies(ActionAt(cfg, at)));
  }

  lemma LeasedAtEnd(cfg: Config, replies: Oracle, at: Control, log: seq<Action>)
    requires Leased(cfg, replies, at, log)
    ensures var run := Finish(cfg, at, replies, log);
      Leased(cfg, replies, Finished(run.out), run.log)
  {
    var inv := (at: Control, log: seq<Action>) => Leased(cfg, replies, at, log);
    forall at: Control, log: seq<Action> | !at.Finished? && inv(at, log)
      ensures inv(Next(cfg, at, replies(ActionAt(cfg, at))), log + [ActionAt(cfg, at)])
    {
      LeasedKept(cfg, replies, at, log);
    }
    HoldsAtEnd(cfg, at, replies, log, inv);
  }

  /** A run with the lease layer on gets a grant exactly when the authority gives one. */
  lemma GrantedExactly(cfg: Config, replies: Oracle)
    ensures Granted(cfg, replies, WholeRun(cfg, replies).log) <==>
      !Unplannable(cfg) && cfg.layers.fiducia && Confirmed(replies, Step(AcquireStep(cfg.wait)))
  {
    LeasedAtEnd(cfg, replies, Start(cfg), []);
    if !Unplannable(cfg) && cfg.layers.fiducia {
      var acquire := Step(AcquireStep(cfg.wait));
      var next := Advance(cfg, AtAcquire, replies, []);
      LogOnlyGrows(cfg, next, replies, [acquire], []);
      assert [acquire] + [] == [] + [acquire];
    }
  }

  /** What a retryable error is not to leave behind: work done, or a grant or a client not given back. */
  ghost predicate HalfDone(cfg: Config, replies: Oracle, log: seq<Action>) {
    || Step(Work) in log
    || (Granted(cfg, replies, log) && !(Releases(log) == 1 && Confirmed(replies, Step(FiduciaRelease))))
    || (CheckedOut(replies, log) && Returns(log) != 1)
  }

  /**
    A retryable error leaves something half-done exactly when the authority gives a grant and answers its release
    with an error that itself invites a retry.
   */
  lemma RetryMisleadsExactly(cfg: Config, replies: Oracle)
    ensures var run := WholeRun(cfg, replies);
      Inviting(run.out) && HalfDone(cfg, replies, run.log) <==>
        && !Unplannable(cfg) && cfg.layers.fiducia
        && Confirmed(replies, Step(AcquireStep(cfg.wait))) && ReleaseInvitesRetry(replies)
  {
    SoberAtEnd(cfg, replies, Start(cfg), []);
    LeasedAtEnd(cfg, replies, Start(cfg), []);
    GivenBackExactlyOnce(cfg, replies);
    GrantedExactly(cfg, replies);
  }

  /** After `work` ran, the error is retryable exactly when there is a lease whose release invites a retry. */
  lemma RetryableAfterWorkExactly(cfg: Config, replies: Oracle)
    requires Step(Work) in WholeRun(cfg, replies).log
    ensures Inviting(WholeRun(cfg, replies).out) <==> cfg.layers.fiducia && ReleaseInvitesRetry(replies)
  {
    SoberAtEnd(cfg, replies, Start(cfg), []);
    LeasedAtEnd(cfg, replies, Start(cfg), []);
  }

  /** That happens: a release answered with `contention` makes a finished run look retryable. */
  lemma RetryableAfterWorkHappens(key: Bytes) returns (cfg: Config, replies: Oracle)
    ensures var run := WholeRun(cfg, replies);
      Inviting(run.out) && Step(Work) in run.log
  {
    cfg := Config(key, LockLayers(true, false), Transaction, true, true, false);
    replies := a => if a == Step(FiduciaRelease) then Raised(ContentionAt(key, FiduciaRelease)) else Answer(true, 0);
    var at := Advance(cfg, AtAcquire, replies, []);
    var log := [] + [Step(FiduciaAcquire)];
    at := Advance(cfg, at, replies, log);
    at := Advance(cfg, at, replies, log + [Step(Work)]);
    assert Step(Work) in WholeRun(cfg, replies).log;
  }

  /** And without `work`: the session lock is taken elsewhere, the lease is granted, and its release is refused. */
  lemma RetryableUnreleasedHappens(key: Bytes) returns (cfg: Config, replies: Oracle)
    ensures var run := WholeRun(cfg, replies);
      && Inviting(run.out) && Step(Work) !in run.log
      && Granted(cfg, replies, run.log) && !Confirmed(replies, Step(FiduciaRelease))
  {
    cfg := Config(key, LockLayers(true, true), Session, false, true, true);
    replies := a =>
      if a == Step(FiduciaRelease) then Raised(ContentionAt(key, FiduciaRelease))
      else Answer(a != Step(PgTryAdvisoryLock), 0);
    var at := Advance(cfg, AtAcquire, replies, []);
    var log := [] + [Step(FiduciaTryAcquire)];
    at := Advance(cfg, at, replies, log);
    log := log + [Connect];
    at := Advance(cfg, at, replies, log);
    log := log + [Step(PgTryAdvisoryLock)];
    at := Advance(cfg, at, replies, log);
    log := log + [Return(false)];
    at := Advance(cfg, at, replies, log);
    assert WholeRun(cfg, replies).log == log + [Step(FiduciaRelease)];
  }

  // ---------------------------------------------------------------------
  // Which step an error names
  // ---------------------------------------------------------------------

  /** The errors `FiduciaLease` throws: lock errors, naming no step or the step being made. */
  predicate FiduciaSpeaks(cfg: Config, replies: Oracle) {
    var acquire, release := replies(Step(AcquireStep(cfg.wait))), replies(Step(FiduciaRelease));
    && (acquire.Raised? ==>
          acquire.error.LockError? && (acquire.error.step == NoStep || acquire.error.step == At(AcquireStep(cfg.wait))))
    && (release.Raised? ==> release.error.LockError? && release.error.step == At(FiduciaRelease))
  }

  predicate NamesPlannedStep(cfg: Config, f: Failure) {
    f.LockError? && f.step.At? && f.step.step in StepsOf(Planned(cfg))
  }

  /** Everything in the log but rolling back is in the plan. */
  predicate Foreseen(cfg: Config, log: seq<Action>) {
    forall i :: 0 <= i < |log| && log[i].Step? && !Silent(log[i]) ==> log[i].step in StepsOf(Planned(cfg))
  }

  lemma ForeseenKept(cfg: Config, at: Control, log: seq<Action>)
    requires WellPlaced(cfg, at) && !at.Finished? && Foreseen(cfg, log)
    ensures Foreseen(cfg, log + [ActionAt(cfg, at)])
  {
    BracketedSteps(cfg.layers, cfg.scope, cfg.wait);
  }

  lemma {:induction false} ForeseenAtEnd(cfg: Config, at: Control, replies: Oracle, log: seq<Action>)
    requires WellPlaced(cfg, at) && Foreseen(cfg, log)
    ensures Foreseen(cfg, Finish(cfg, at, replies, log).log)
    decreases Rank(at)
  {
    if at.Finished? {
    } else {
      var next := Advance(cfg, at, replies, log);
      StaysWellPlaced(cfg, at, replies(ActionAt(cfg, at)));
      ForeseenKept(cfg, at, log);
      ForeseenAtEnd(cfg, next, replies, log + [ActionAt(cfg, at)]);
    }
  }

  lemma OwnStep(cfg: Config, replies: Oracle, a: Action)
    requires FiduciaSpeaks(cfg, replies) && !Confirmed(replies, a) && !Silent(a)
    requires a == Step(FiduciaAcquire) || a == Step(FiduciaTryAcquire) ==> a.step == AcquireStep(cfg.wait)
    requires a == Connect ==> replies(a).Raised?
    ensures ErrorAt(cfg, replies, a).LockError?
    ensures ErrorAt(cfg, replies, a).step ==
      At(if a.Step? then a.step else if cfg.scope.Session? then PgAdvisoryLock else PgBegin)
  {
  }

  /** What happens between acquiring and releasing the lease. */
  function InnerSteps(cfg: Config): seq<LockStep> {
    if !cfg.layers.pgAdvisory then [Work]
    else if cfg.scope.Session? then [LockStepFor(cfg.scope, cfg.wait), Work, PgAdvisoryUnlock]
    else [PgBegin, LockStepFor(cfg.scope, cfg.wait), Work, PgCommit]
  }

  lemma PlannedExactly(cfg: Config, step: LockStep)
    ensures step in StepsOf(Planned(cfg)) <==>
      || (cfg.layers.fiducia && (step == AcquireStep(cfg.wait) || step == FiduciaRelease))
      || step in InnerSteps(cfg)
  {
    BracketedSteps(cfg.layers, cfg.scope, cfg.wait);
    var front, back := if cfg.layers.fiducia then [AcquireStep(cfg.wait)] else [],
                       if cfg.layers.fiducia then [FiduciaRelease] else [];
    assert StepsOf(Planned(cfg)) == front + InnerSteps(cfg) + back;
  }

  lemma PlannedDatabaseSteps(cfg: Config)
    requires cfg.layers.pgAdvisory
    ensures PgBegin in StepsOf(Planned(cfg)) <==> cfg.scope.Transaction?
    ensures PgAdvisoryLock in StepsOf(Planned(cfg)) <==> cfg.scope.Session? && cfg.wait
  {
    PlannedExactly(cfg, PgBegin);
    PlannedExactly(cfg, PgAdvisoryLock);
  }

  lemma PlannedAcquire(cfg: Config, step: LockStep)
    requires step in StepsOf(Planned(cfg)) && (step == FiduciaAcquire || step == FiduciaTryAcquire)
    ensures step == AcquireStep(cfg.wait)
  {
    PlannedExactly(cfg, step);
  }

  lemma {:induction false} ConnectsOnlyForDatabase(cfg: Config, at: Control, replies: Oracle, log: seq<Action>)
    requires WellPlaced(cfg, at) && (Connect in log ==> cfg.layers.pgAdvisory)
    ensures Connect in Finish(cfg, at, replies, log).log ==> cfg.layers.pgAdvisory
    decreases Rank(at)
  {
    if at.Finished? {
    } else {
      var next := Advance(cfg, at, replies, log);
      StaysWellPlaced(cfg, at, replies(ActionAt(cfg, at)));
      ConnectsOnlyForDatabase(cfg, next, replies, log + [ActionAt(cfg, at)]);
    }
  }

  /** A session routine that does not wait and is left without a client, with nothing failing after that. */
  predicate MissesClient(cfg: Config, replies: Oracle) {
    && cfg.layers.pgAdvisory && cfg.scope.Session? && !cfg.wait && replies(Connect).Raised?
    && (cfg.layers.fiducia ==>
          Confirmed(replies, Step(AcquireStep(cfg.wait))) && Confirmed(replies, Step(FiduciaRelease)))
  }

  /** The run of a routine that gets its grant and no client. */
  lemma WithoutClient(cfg: Config, replies: Oracle)
    requires !Unplannable(cfg) && cfg.layers.pgAdvisory && replies(Connect).Raised?
    requires cfg.layers.fiducia ==> Confirmed(replies, Step(AcquireStep(cfg.wait)))
    ensures var error :=
        DatabaseError(cfg.key, if cfg.scope.Session? then PgAdvisoryLock else PgBegin, replies(Connect).error);
      WholeRun(cfg, replies).out ==
      if cfg.layers.fiducia then Settled(cfg.key, replies(Step(FiduciaRelease)), Err(error)) else Err(error)
  {
    if cfg.layers.fiducia {
      var log := [] + [Step(AcquireStep(cfg.wait))];
      var at := Advance(cfg, AtAcquire, replies, []);
      at := Advance(cfg, at, replies, log);
      at := Advance(cfg, at, replies, log + [Connect]);
    } else {
      var at := Advance(cfg, AtConnect, replies, []);
    }
  }

  /** Which call is primary decides whether the step is planned. */
  lemma PrimaryNamesItsStep(cfg: Config, replies: Oracle) returns (i: nat)
    requires !Unplannable(cfg) && FiduciaSpeaks(cfg, replies)
    requires WholeRun(cfg, replies).out.Err?
    ensures var run := WholeRun(cfg, replies);
      && Primary(replies, run.log, i)
      && (NamesPlannedStep(cfg, run.out.error) <==>
            !(run.log[i] == Connect && cfg.scope.Session? && !cfg.wait))
      && (run.log[i] == Connect ==> cfg.layers.pgAdvisory)
  {
    var run := WholeRun(cfg, replies);
    OutcomeIsBlamed(cfg, replies);
    i := LastFailureIsPrimary(cfg, replies, run.log);
    ForeseenAtEnd(cfg, Start(cfg), replies, []);
    ConnectsOnlyForDatabase(cfg, Start(cfg), replies, []);
    var a := run.log[i];
    if a == Step(FiduciaAcquire) || a == Step(FiduciaTryAcquire) {
      PlannedAcquire(cfg, a.step);
    }
    OwnStep(cfg, replies, a);
    if a == Connect {
      PlannedDatabaseSteps(cfg);
    }
  }

  lemma MissingClientIsUnplanned(cfg: Config, replies: Oracle)
    requires !Unplannable(cfg) && MissesClient(cfg, replies)
    ensures WholeRun(cfg, replies).out.Err? && !NamesPlannedStep(cfg, WholeRun(cfg, replies).out.error)
  {
    WithoutClient(cfg, replies);
    PlannedDatabaseSteps(cfg);
  }

  lemma ReleaseIsPlanned(cfg: Config)
    requires cfg.layers.fiducia
    ensures FiduciaRelease in StepsOf(Planned(cfg))
  {
    BracketedSteps(cfg.layers, cfg.scope, cfg.wait);
  }

  /**
    With `FiduciaLease`, an error names no step of the plan exactly when a session routine that does not wait gets
    its grant, if it is to have one, but no client, and the release goes through: that is reported at
    `pg.advisory_lock`, which such a plan does not contain.
   */
  lemma ErrorsNamePlannedSteps(cfg: Config, replies: Oracle)
    requires !Unplannable(cfg) && FiduciaSpeaks(cfg, replies)
    ensures var out := WholeRun(cfg, replies).out;
      out.Err? && !NamesPlannedStep(cfg, out.error) <==> MissesClient(cfg, replies)
  {
    var run := WholeRun(cfg, replies);
    if MissesClient(cfg, replies) {
      MissingClientIsUnplanned(cfg, replies);
    } else if run.out.Err? && !NamesPlannedStep(cfg, run.out.error) {
      var i := PrimaryNamesItsStep(cfg, replies);
      assert Connect in run.log;
      LeasedAtEnd(cfg, replies, Start(cfg), []);
      WithoutClient(cfg, replies);
      ReleaseIsPlanned(cfg);
      assert false;
    }
  }

  /** That happens: with the Postgres layer alone and an empty pool. */
  lemma UnplannedStepHappens(key: Bytes) returns (cfg: Config, replies: Oracle)
    ensures var out := WholeRun(cfg, replies).out;
      && !Unplannable(cfg) && FiduciaSpeaks(cfg, replies)
      && out == Err(DatabaseError(key, PgAdvisoryLock, Foreign(0)))
      && PgAdvisoryLock !in StepsOf(Planned(cfg))
  {
    cfg := Config(key, LockLayers(false, true), Session, false, false, true);
    replies := a => if a == Connect then Raised(Foreign(0)) else Answer(true, 0);
    WithoutClient(cfg, replies);
    PlannedDatabaseSteps(cfg);
  }
}
