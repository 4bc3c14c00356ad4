/**
  The lock routines as the source writes them: early returns, flags and clean-up
  on every path, against collaborators that record each call made on them.
 */
module LockExecutors {
  import opened Key
  import opened LockPlan
  import opened LockErrors
  import opened LockRun

  /**
    The lease authority, the pool, its clients and the caller's `work`, seen from a
    routine: each call is recorded, and answered as the oracle says.
   */
  class Collaborators {
    const replies: Oracle
    var log: seq<Action>

    constructor (replies: Oracle)
      ensures this.replies == replies && log == []
    {
      this.replies := replies;
      log := [];
    }

    method Call(action: Action) returns (reply: Reply)
      modifies this
      ensures log == old(log) + [action]
      ensures reply == replies(action)
    {
      log := log + [action];
      reply := replies(action);
    }
  }

  datatype Checked = Passed | Failed(error: Failure)

  /** A statement whose result rows are ignored. */
  method Exec(env: Collaborators, key: Bytes, step: LockStep) returns (r: Checked)
    modifies env
    ensures env.log == old(env.log) + [Step(step)]
    ensures var reply := env.replies(Step(step));
      r == if reply.Raised? then Failed(DatabaseError(key, step, reply.error)) else Passed
  {
    var reply := env.Call(Step(step));
    r := if reply.Raised? then Failed(DatabaseError(key, step, reply.error)) else Passed;
  }

  /** A non-blocking lock statement: a false answer is contention. */
  method TryLock(env: Collaborators, key: Bytes, step: LockStep) returns (r: Checked)
    modifies env
    ensures env.log == old(env.log) + [Step(step)]
    ensures var reply := env.replies(Step(step));
      r == if reply.Raised? then Failed(DatabaseError(key, step, reply.error))
           else if !reply.yes then Failed(ContentionAt(key, step))
           else Passed
  {
    var reply := env.Call(Step(step));
    if reply.Raised? {
      return Failed(DatabaseError(key, step, reply.error));
    }
    r := if reply.yes then Passed else Failed(ContentionAt(key, step));
  }

  method RunWork(env: Collaborators, key: Bytes) returns (out: Outcome)
    modifies env
    ensures env.log == old(env.log) + [Step(Work)]
    ensures var reply := env.replies(Step(Work));
      out == if reply.Raised? then Err(WorkError(key, reply.error)) else Ok(reply.value)
  {
    var reply := env.Call(Step(Work));
    out := if reply.Raised? then Err(WorkError(key, reply.error)) else Ok(reply.value);
  }

  method AcquireLease(env: Collaborators, key: Bytes, wait: bool) returns (r: Checked)
    modifies env
    ensures env.log == old(env.log) + [Step(AcquireStep(wait))]
    ensures var reply := env.replies(Step(AcquireStep(wait)));
      r == if reply.Raised? then Failed(TagStep(reply.error, AcquireStep(wait))) else Passed
  {
    var reply := env.Call(Step(AcquireStep(wait)));
    r := if reply.Raised? then Failed(TagStep(reply.error, AcquireStep(wait))) else Passed;
  }

  /** Give the lease back; a release that fails or matches no grant outweighs the inner outcome. */
  method Settle(env: Collaborators, key: Bytes, inner: Outcome) returns (out: Outcome)
    modifies env
    ensures env.log == old(env.log) + [Step(FiduciaRelease)]
    ensures out == Settled(key, env.replies(Step(FiduciaRelease)), inner)
  {
    var released := env.Call(Step(FiduciaRelease));
    if released.Raised? {
      var cleanup := TagStep(released.error, FiduciaRelease);
      if inner.Err? {
        return Err(CleanupFailure(key, cleanup, inner.error));
      }
      return Err(cleanup);
    }
    if !released.yes {
      var cleanup := LostLeaseError(key);
      if inner.Err? {
        return Err(CleanupFailure(key, cleanup, inner.error));
      }
      return Err(cleanup);
    }
    out := inner;
  }

  /** What is tried inside a transaction: lock, work and commit. */
  method TryInTransaction(env: Collaborators, cfg: Config) returns (out: Outcome)
    requires cfg.layers == LockLayers(false, true) && cfg.scope == Transaction
    modifies env
    ensures Finish(cfg, AtLock, env.replies, old(env.log)) ==
      Finish(cfg, if out.Err? then AtRollback(out.error) else AtReturn(false, out), env.replies, env.log)
  {
    var key := cfg.key;
    ghost var at := Advance(cfg, AtLock, env.replies, env.log);
    var locked;
    if cfg.wait {
      locked := Exec(env, key, PgAdvisoryXactLock);
    } else {
      locked := TryLock(env, key, PgTryAdvisoryXactLock);
    }
    if locked.Failed? {
      return Err(locked.error);
    }
    at := Advance(cfg, at, env.replies, env.log);
    out := RunWork(env, key);
    if out.Ok? {
      at := Advance(cfg, at, env.replies, env.log);
      var committed := Exec(env, key, PgCommit);
      if committed.Failed? {
        out := Err(committed.error);
      }
    }
  }

  /** Transaction scope, from checking a client out to handing it back. */
  method RunXact(env: Collaborators, cfg: Config) returns (out: Outcome)
    requires cfg.layers == LockLayers(false, true) && cfg.scope == Transaction
    modifies env
    ensures Run(env.log, out) == Finish(cfg, AtConnect, env.replies, old(env.log))
  {
    var key := cfg.key;
    ghost var at := Advance(cfg, AtConnect, env.replies, env.log);
    var client := env.Call(Connect);
    if client.Raised? {
      return Err(DatabaseError(key, PgBegin, client.error));
    }
    var failed := false;
    at := Advance(cfg, at, env.replies, env.log);
    var begun := Exec(env, key, PgBegin);
    if begun.Failed? {
      out := Err(begun.error);
    } else {
      out := TryInTransaction(env, cfg);
      if out.Err? {
        failed := true;
        at := Advance(cfg, AtRollback(out.error), env.replies, env.log);
        // A failed rollback is not reported.
        var _ := env.Call(Step(PgRollback));
      }
    }
    at := Advance(cfg, AtReturn(failed, out), env.replies, env.log);
    var _ := env.Call(Return(failed));
  }

  /** Session scope, from checking a client out to handing it back. */
  method RunSession(env: Collaborators, cfg: Config) returns (out: Outcome)
    requires cfg.layers == LockLayers(false, true) && cfg.scope == Session
    modifies env
    ensures Run(env.log, out) == Finish(cfg, AtConnect, env.replies, old(env.log))
  {
    var key := cfg.key;
    ghost var at := Advance(cfg, AtConnect, env.replies, env.log);
    var client := env.Call(Connect);
    if client.Raised? {
      return Err(DatabaseError(key, PgAdvisoryLock, client.error));
    }
    var poisoned := false;
    at := Advance(cfg, at, env.replies, env.log);
    var locked;
    if cfg.wait {
      locked := Exec(env, key, PgAdvisoryLock);
    } else {
      locked := TryLock(env, key, PgTryAdvisoryLock);
    }
    if locked.Failed? {
      out := Err(locked.error);
    } else {
      at := Advance(cfg, at, env.replies, env.log);
      var inner := RunWork(env, key);
      at := Advance(cfg, at, env.replies, env.log);
      var unlocked := env.Call(Step(PgAdvisoryUnlock));
      if unlocked.Raised? {
        poisoned := true;
        var cleanup := DatabaseError(key, PgAdvisoryUnlock, unlocked.error);
        out := Err(if inner.Err? then CleanupFailure(key, cleanup, inner.error) else cleanup);
      } else if !unlocked.yes {
        poisoned := true;
        var cleanup := NotHeldError(key);
        out := Err(if inner.Err? then CleanupFailure(key, cleanup, inner.error) else cleanup);
      } else {
        out := inner;
      }
    }
    if out.Err? {
      // Every error above already names its step, so this changes nothing.
      out := Err(TagStep(out.error, PgAdvisoryLock));
    }
    at := Advance(cfg, at, env.replies, env.log);
    var _ := env.Call(Return(poisoned));
  }

  /** Transaction-scoped advisory lock under an optional lease. */
  method WithXactLock(env: Collaborators, cfg: Config) returns (out: Outcome)
    requires cfg.scope == Transaction
    modifies env
    ensures Run(env.log, out) == Finish(cfg, Start(cfg), env.replies, old(env.log))
  {
    if cfg.layers.fiducia && !cfg.hasLease {
      return Err(InvalidPlanError(cfg.key));
    }
    if cfg.layers.pgAdvisory && !cfg.hasPool {
      return Err(InvalidPlanError(cfg.key));
    }
    if cfg.layers.fiducia {
      var granted := AcquireLease(env, cfg.key, cfg.wait);
      if granted.Failed? {
        return Err(granted.error);
      }
    }
    LeaseWrapsInside(cfg, env.replies, env.log);
    var inner;
    if cfg.layers.pgAdvisory {
      inner := RunXact(env, Unleased(cfg));
    } else {
      inner := RunWork(env, cfg.key);
    }
    if !cfg.layers.fiducia {
      return inner;
    }
    out := Settle(env, cfg.key, inner);
  }

  /** Session-scoped advisory lock under an optional lease. */
  method WithSessionLock(env: Collaborators, cfg: Config) returns (out: Outcome)
    requires cfg.scope == Session
    modifies env
    ensures Run(env.log, out) == Finish(cfg, Start(cfg), env.replies, old(env.log))
  {
    if cfg.layers.fiducia && !cfg.hasLease {
      return Err(InvalidPlanError(cfg.key));
    }
    if cfg.layers.pgAdvisory && !cfg.hasPool {
      return Err(InvalidPlanError(cfg.key));
    }
    if cfg.layers.fiducia {
      var granted := AcquireLease(env, cfg.key, cfg.wait);
      if granted.Failed? {
        return Err(granted.error);
      }
    }
    LeaseWrapsInside(cfg, env.replies, env.log);
    var inner;
    if cfg.layers.pgAdvisory {
      inner := RunSession(env, Unleased(cfg));
    } else {
      inner := RunWork(env, cfg.key);
    }
    if !cfg.layers.fiducia {
      return inner;
    }
    out := Settle(env, cfg.key, inner);
  }

  /** A lease and no database layer. */
  method WithLease(env: Collaborators, cfg: Config) returns (out: Outcome)
    requires !cfg.layers.pgAdvisory
    modifies env
    ensures Run(env.log, out) == Finish(cfg, Start(cfg), env.replies, old(env.log))
  {
    if !cfg.layers.fiducia {
      out := RunWork(env, cfg.key);
      return;
    }
    if !cfg.hasLease {
      return Err(InvalidPlanError(cfg.key));
    }
    var granted := AcquireLease(env, cfg.key, cfg.wait);
    if granted.Failed? {
      return Err(granted.error);
    }
    LeaseWrapsInside(cfg, env.replies, env.log);
    var inner := RunWork(env, cfg.key);
    out := Settle(env, cfg.key, inner);
  }
}
