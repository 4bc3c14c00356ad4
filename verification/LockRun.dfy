/**
  One run of a lock routine as an automaton: its control points, the call made at each, and where each reply leads.
 */
module LockRun {
  import opened Key
  import opened LockPlan
  import opened LockErrors

  /** The arguments of a routine; `hasLease` and `hasPool` say which collaborators were supplied. */
  datatype Config = Config(
    key: Bytes, layers: LockLayers, scope: PgScope, wait: bool, hasLease: bool, hasPool: bool)

  /**
    What one outside call gave back. `yes` is the boolean the call reports, if it
    reports one (try-lock, unlock, release); `value` is what `work` returned.
   */
  datatype Reply = Answer(yes: bool, value: int) | Raised(error: Failure)

  /** The next outside call, with what has to be remembered until the end. */
  datatype Control =
    | AtAcquire
    | AtConnect
    | AtBegin
    | AtLock
    | AtWork
    | AtCommit(value: int)
    | AtRollback(error: Failure)
    | AtUnlock(inner: Outcome)
    | AtReturn(poisoned: bool, inner: Outcome)
    | AtRelease(inner: Outcome)
    | Finished(out: Outcome)

  predicate Unplannable(cfg: Config) {
    (cfg.layers.fiducia && !cfg.hasLease) || (cfg.layers.pgAdvisory && !cfg.hasPool)
  }

  function Inside(cfg: Config): Control {
    if cfg.layers.pgAdvisory then AtConnect else AtWork
  }

  function Start(cfg: Config): Control {
    if Unplannable(cfg) then Finished(Err(InvalidPlanError(cfg.key)))
    else if cfg.layers.fiducia then AtAcquire
    else Inside(cfg)
  }

  function Outside(cfg: Config, inner: Outcome): Control {
    if cfg.layers.fiducia then AtRelease(inner) else Finished(inner)
  }

  function ActionAt(cfg: Config, at: Control): Action
    requires !at.Finished?
  {
    match at
    case AtAcquire => Step(AcquireStep(cfg.wait))
    case AtConnect => Connect
    case AtBegin => Step(PgBegin)
    case AtLock => Step(LockStepFor(cfg.scope, cfg.wait))
    case AtWork => Step(Work)
    case AtCommit(_) => Step(PgCommit)
    case AtRollback(_) => Step(PgRollback)
    case AtUnlock(_) => Step(PgAdvisoryUnlock)
    case AtReturn(poisoned, _) => Return(poisoned)
    case AtRelease(_) => Step(FiduciaRelease)
  }

  function NotLocked(cfg: Config, error: Failure): Control {
    if cfg.scope.Session? then AtReturn(false, Err(error)) else AtRollback(error)
  }

  /** `pg_advisory_unlock` answered false. */
  function NotHeldError(key: Bytes): Failure {
    LockError(Database, key, At(PgAdvisoryUnlock), NoCause)
  }

  /** The release matched no grant. */
  function LostLeaseError(key: Bytes): Failure {
    LockError(LostLease, key, At(FiduciaRelease), NoCause)
  }

  /** Combine the outcome of the release with the inner one. */
  function Settled(key: Bytes, released: Reply, inner: Outcome): Outcome {
    if released.Raised? then Err(AfterFailedCleanup(key, TagStep(released.error, FiduciaRelease), inner))
    else if !released.yes then Err(AfterFailedCleanup(key, LostLeaseError(key), inner))
    else inner
  }

  function Next(cfg: Config, at: Control, reply: Reply): Control
    requires !at.Finished?
  {
    match at
    case AtAcquire =>
      if reply.Raised? then Finished(Err(TagStep(reply.error, AcquireStep(cfg.wait)))) else Inside(cfg)
    case AtConnect =>
      // A pool that cannot hand out a client is reported at the first waiting database step, whatever `wait` is.
      if reply.Raised? then
        Outside(cfg, Err(DatabaseError(cfg.key, if cfg.scope.Session? then PgAdvisoryLock else PgBegin, reply.error)))
      else if cfg.scope.Session? then AtLock
      else AtBegin
    case AtBegin =>
      if reply.Raised? then AtReturn(false, Err(DatabaseError(cfg.key, PgBegin, reply.error))) else AtLock
    case AtLock =>
      var step := LockStepFor(cfg.scope, cfg.wait);
      if reply.Raised? then NotLocked(cfg, DatabaseError(cfg.key, step, reply.error))
      else if !cfg.wait && !reply.yes then NotLocked(cfg, ContentionAt(cfg.key, step))
      else AtWork
    case AtWork =>
      var inner := if reply.Raised? then Err(WorkError(cfg.key, reply.error)) else Ok(reply.value);
      if !cfg.layers.pgAdvisory then Outside(cfg, inner)
      else if cfg.scope.Session? then AtUnlock(inner)
      else if inner.Ok? then AtCommit(inner.value)
      else AtRollback(inner.error)
    case AtCommit(value) =>
      if reply.Raised? then AtRollback(DatabaseError(cfg.key, PgCommit, reply.error)) else AtReturn(false, Ok(value))
    case AtRollback(error) => AtReturn(true, Err(error))
    case AtUnlock(inner) =>
      if reply.Raised? then
        AtReturn(true, Err(AfterFailedCleanup(cfg.key, DatabaseError(cfg.key, PgAdvisoryUnlock, reply.error), inner)))
      else if !reply.yes then
        AtReturn(true, Err(AfterFailedCleanup(cfg.key, NotHeldError(cfg.key), inner)))
      else AtReturn(false, inner)
    case AtReturn(_, inner) => Outside(cfg, inner)
    case AtRelease(inner) => Finished(Settled(cfg.key, reply, inner))
  }

  /** The control points a configuration can reach. */
  predicate WellPlaced(cfg: Config, at: Control) {
    match at
    case AtAcquire => cfg.layers.fiducia
    case AtConnect => cfg.layers.pgAdvisory
    case AtBegin => cfg.layers.pgAdvisory && cfg.scope.Transaction?
    case AtLock => cfg.layers.pgAdvisory
    case AtWork => true
    case AtCommit(_) => cfg.layers.pgAdvisory && cfg.scope.Transaction?
    case AtRollback(_) => cfg.layers.pgAdvisory && cfg.scope.Transaction?
    case AtUnlock(_) => cfg.layers.pgAdvisory && cfg.scope.Session?
    case AtReturn(_, _) => cfg.layers.pgAdvisory
    case AtRelease(_) => cfg.layers.fiducia
    case Finished(_) => true
  }

  lemma StaysWellPlaced(cfg: Config, at: Control, reply: Reply)
    requires WellPlaced(cfg, at) && !at.Finished?
    ensures WellPlaced(cfg, Next(cfg, at, reply))
  {
  }

  /** A client is checked out at this point. */
  predicate OnClientAt(cfg: Config, at: Control) {
    at.AtBegin? || at.AtLock? || (at.AtWork? && cfg.layers.pgAdvisory)
    || at.AtCommit? || at.AtRollback? || at.AtUnlock? || at.AtReturn?
  }

  /** Calls still to be made, at most. */
  function Rank(at: Control): nat {
    match at
    case AtAcquire => 10
    case AtConnect => 9
    case AtBegin => 8
    case AtLock => 7
    case AtWork => 6
    case AtCommit(_) => 5
    case AtUnlock(_) => 5
    case AtRollback(_) => 4
    case AtReturn(_, _) => 3
    case AtRelease(_) => 2
    case Finished(_) => 0
  }

  lemma NextDescends(cfg: Config, at: Control, reply: Reply)
    requires !at.Finished?
    ensures Rank(Next(cfg, at, reply)) < Rank(at)
  {
  }

  // ---------------------------------------------------------------------
  // Whole runs against an oracle that fixes the reply to every call
  // ---------------------------------------------------------------------

  type Oracle = Action -> Reply

  datatype Run = Run(log: seq<Action>, out: Outcome)

  /** Make the calls that remain from `at`, appending them to `log`. */
  function Finish(cfg: Config, at: Control, replies: Oracle, log: seq<Action>): Run
    decreases Rank(at)
  {
    if at.Finished? then Run(log, at.out)
    else
      var action := ActionAt(cfg, at);
      Finish(cfg, Next(cfg, at, replies(action)), replies, log + [action])
  }

  function WholeRun(cfg: Config, replies: Oracle): Run {
    Finish(cfg, Start(cfg), replies, [])
  }

  /** One call further along a run. */
  lemma Advance(cfg: Config, at: Control, replies: Oracle, log: seq<Action>) returns (next: Control)
    requires !at.Finished?
    ensures next == Next(cfg, at, replies(ActionAt(cfg, at)))
    ensures Finish(cfg, at, replies, log) == Finish(cfg, next, replies, log + [ActionAt(cfg, at)])
  {
    next := Next(cfg, at, replies(ActionAt(cfg, at)));
  }

  /** Every call keeps `inv`, which speaks of the control point and the calls made before it. */
  ghost predicate Kept(cfg: Config, replies: Oracle, inv: (Control, seq<Action>) -> bool) {
    forall at: Control, log: seq<Action> :: !at.Finished? && inv(at, log) ==>
      inv(Next(cfg, at, replies(ActionAt(cfg, at))), log + [ActionAt(cfg, at)])
  }

  /** What every call keeps holds at the end. */
  lemma {:induction false} HoldsAtEnd(
    cfg: Config, at: Control, replies: Oracle, log: seq<Action>, inv: (Control, seq<Action>) -> bool)
    requires Kept(cfg, replies, inv) && inv(at, log)
    ensures var run := Finish(cfg, at, replies, log);
      inv(Finished(run.out), run.log)
    decreases Rank(at)
  {
    if at.Finished? {
    } else {
      var next := Advance(cfg, at, replies, log);
      HoldsAtEnd(cfg, next, replies, log + [ActionAt(cfg, at)], inv);
    }
  }

  /** What was logged before a point does not change what happens after it. */
  lemma {:induction false} LogOnlyGrows(cfg: Config, at: Control, replies: Oracle, before: seq<Action>,
    log: seq<Action>)
    ensures Finish(cfg, at, replies, before + log).out == Finish(cfg, at, replies, log).out
    ensures Finish(cfg, at, replies, before + log).log == before + Finish(cfg, at, replies, log).log
    decreases Rank(at)
  {
    if at.Finished? {
    } else {
      var action := ActionAt(cfg, at);
      assert before + log + [action] == before + (log + [action]);
      LogOnlyGrows(cfg, Next(cfg, at, replies(action)), replies, before, log + [action]);
    }
  }

  /** The configuration of the part of a run that the lease is wrapped around. */
  function Unleased(cfg: Config): Config {
    cfg.(layers := cfg.layers.(fiducia := false))
  }

  /** Running with the lease layer on is the run without it, followed by the release. */
  lemma {:induction false} LeaseWraps(cfg: Config, at: Control, replies: Oracle, log: seq<Action>)
    requires cfg.layers.fiducia && !at.AtAcquire? && !at.AtRelease? && !at.Finished?
    ensures var bare := Finish(Unleased(cfg), at, replies, log);
      Finish(cfg, at, replies, log) ==
      Run(bare.log + [Step(FiduciaRelease)], Settled(cfg.key, replies(Step(FiduciaRelease)), bare.out))
    decreases Rank(at)
  {
    var next := Advance(cfg, at, replies, log);
    var bare := Advance(Unleased(cfg), at, replies, log);
    if next.AtRelease? {
      assert bare == Finished(next.inner);
    } else {
      assert next == bare;
      LeaseWraps(cfg, next, replies, log + [ActionAt(cfg, at)]);
    }
  }

  lemma LeaseWrapsInside(cfg: Config, replies: Oracle, log: seq<Action>)
    ensures var bare := Finish(Unleased(cfg), Inside(cfg), replies, log);
      Finish(cfg, Inside(cfg), replies, log) ==
      if !cfg.layers.fiducia then bare
      else Run(bare.log + [Step(FiduciaRelease)], Settled(cfg.key, replies(Step(FiduciaRelease)), bare.out))
  {
    if cfg.layers.fiducia {
      LeaseWraps(cfg, Inside(cfg), replies, log);
    } else {
      assert Unleased(cfg) == cfg;
    }
  }
}
