/**
  Runs of LockRun interleaved over one lease authority that may drop a grant at any time, one pool and one lock table.
 */
module LockSystem {
  import opened Key
  import opened LockErrors
  import opened LockRun
  import opened PgPool

  datatype MaybeClient = NoClient | Client(id: nat)

  /** A grant with its fencing token and the moment it was given. */
  datatype MaybeGrant = NoGrant | Grant(token: nat, since: nat)

  datatype Runner = Runner(cfg: Config, at: Control, client: MaybeClient, grant: MaybeGrant, releasedAt: nat)

  datatype System = System(
    runners: seq<Runner>,
    db: Db,
    leases: map<Bytes, nat>, // current grants, by their fencing token
    nextToken: nat,
    now: nat)

  /**
    `Reap` is the authority dropping a grant. `Act` is runner `r` making its next call and getting
    `reply`; `client` is the client a pool hands out, and `took` says whether a call
    that raised had its effect all the same.
   */
  datatype Event = Reap(key: Bytes) | Act(r: nat, reply: Reply, client: nat, took: bool)

  function Locked(cfg: Config): int {
    AdvisoryKey(cfg.key)
  }

  /** What a runner at `at` is using its client for. */
  function PhaseOf(cfg: Config, at: Control): Phase {
    match at
    case AtLock => if cfg.scope.Session? then Fresh else InTransaction
    case AtWork => Holding
    case AtCommit(_) => Holding
    case AtUnlock(_) => Holding
    case AtRollback(_) => RollingBack
    case AtReturn(poisoned, _) => Leaving(poisoned)
    case _ => Fresh
  }

  predicate HasClient(s: System, r: Runner) {
    r.client.Client? && r.client.id in s.db.out
  }

  predicate Current(s: System, r: Runner) {
    r.grant.Grant? && r.cfg.key in s.leases && s.leases[r.cfg.key] == r.grant.token
  }

  /** The reply means the lock was taken: a blocking statement takes it by returning, a try by answering true. */
  predicate TakesLock(r: Runner, reply: Reply) {
    reply.Answer? && (r.cfg.wait || reply.yes)
  }

  /**
    The replies the shared state allows. A BEGIN or a lock statement that raises took nothing; an
    acquisition that raises an error inviting a retry took nothing; handing a client back does not raise.
   */
  predicate Allowed(s: System, r: Runner, reply: Reply, client: nat, took: bool) {
    var key := r.cfg.key;
    match r.at
    case AtAcquire =>
      if reply.Answer? then key !in s.leases
      else took ==> key !in s.leases && !Retryable(reply.error)
    case AtConnect => reply.Answer? ==> CanCheckout(s.db, client)
    case AtLock =>
      && HasClient(s, r)
      && (reply.Answer? ==> (TakesLock(r, reply) <==> FreeFor(s.db, Locked(r.cfg), r.client.id)))
    case AtWork => r.cfg.layers.pgAdvisory ==> HasClient(s, r)
    case AtUnlock(_) =>
      && HasClient(s, r)
      && (reply.Answer? ==> (reply.yes <==> HoldsSession(s.db, Locked(r.cfg), r.client.id)))
    case AtReturn(_, _) => HasClient(s, r) && reply.Answer?
    case AtRelease(_) => r.grant.Grant? && (reply.Answer? ==> (reply.yes <==> Current(s, r)))
    case Finished(_) => false
    case _ => HasClient(s, r)
  }

  /** What one call does to the database and the pool. */
  function DbAfter(s: System, i: nat, reply: Reply, client: nat, took: bool): Db
    requires i < |s.runners| && Allowed(s, s.runners[i], reply, client, took)
  {
    var r, db := s.runners[i], s.db;
    var k, c, phase :=
      Locked(r.cfg), if r.client.Client? then r.client.id else 0, PhaseOf(r.cfg, Next(r.cfg, r.at, reply));
    match r.at
    case AtConnect => if reply.Answer? then Checkout(db, client, Use(i, k, r.cfg.scope, phase)) else db
    case AtBegin => Turn(if reply.Answer? then BeginTransaction(db, c) else db, c, phase)
    case AtLock => Turn(if TakesLock(r, reply) then Grab(db, k, c, r.cfg.scope) else db, c, phase)
    case AtWork => if r.cfg.layers.pgAdvisory then Turn(db, c, phase) else db
    case AtCommit(_) => Turn(if reply.Answer? || took then EndTransaction(db, c) else db, c, phase)
    case AtRollback(_) => Turn(if reply.Answer? || took then EndTransaction(db, c) else db, c, phase)
    case AtUnlock(_) =>
      Turn(if (reply.Answer? || took) && HoldsSession(db, k, c) then Unlock(db, k, c) else db, c, phase)
    case AtReturn(poisoned, _) => HandBack(db, c, poisoned)
    case _ => db
  }

  /** What one call does to the grants. */
  function LeasesAfter(s: System, r: Runner, reply: Reply, took: bool): map<Bytes, nat> {
    if r.at.AtAcquire? && (reply.Answer? || took) then s.leases[r.cfg.key := s.nextToken]
    else if r.at.AtRelease? && (reply.Answer? || took) && Current(s, r) then s.leases - {r.cfg.key}
    else s.leases
  }

  /** The runner itself after its call. */
  function Moved(s: System, r: Runner, reply: Reply, client: nat): Runner
    requires !r.at.Finished?
  {
    r.(at := Next(r.cfg, r.at, reply),
       client :=
         if r.at.AtConnect? && reply.Answer? then Client(client) else if r.at.AtReturn? then NoClient else r.client,
       grant := if r.at.AtAcquire? && reply.Answer? then Grant(s.nextToken, s.now) else r.grant,
       releasedAt := if r.at.AtRelease? then s.now else r.releasedAt)
  }

  predicate Enabled(s: System, e: Event) {
    match e
    case Reap(key) => key in s.leases
    case Act(i, reply, client, took) => i < |s.runners| && Allowed(s, s.runners[i], reply, client, took)
  }

  function Apply(s: System, e: Event): System
    requires Enabled(s, e)
  {
    match e
    case Reap(key) => s.(leases := s.leases - {key}, now := s.now + 1)
    case Act(i, reply, client, took) =>
      var r := s.runners[i];
      System(
        s.runners[i := Moved(s, r, reply, client)],
        DbAfter(s, i, reply, client, took),
        LeasesAfter(s, r, reply, took),
        if r.at.AtAcquire? && (reply.Answer? || took) then s.nextToken + 1 else s.nextToken,
        s.now + 1)
  }

  /** Runners that have not started, an empty pool, no locks and no grants. */
  ghost predicate Init(s: System) {
    && (forall i :: 0 <= i < |s.runners| ==>
          s.runners[i] == Runner(s.runners[i].cfg, Start(s.runners[i].cfg), NoClient, NoGrant, 0))
    && s.db == Db(s.db.poolSize, {}, map[], map[], map[])
    && s.leases == map[]
  }

  ghost predicate Possible(s: System, events: seq<Event>)
    decreases |events|
  {
    events == [] || (Enabled(s, events[0]) && Possible(Apply(s, events[0]), events[1..]))
  }

  ghost function After(s: System, events: seq<Event>): System
    requires Possible(s, events)
    decreases |events|
  {
    if events == [] then s else After(Apply(s, events[0]), events[1..])
  }

  // ---------------------------------------------------------------------
  // Invariant: clients and locks
  // ---------------------------------------------------------------------

  /** The pool's record of a runner's client says what the runner says. */
  ghost predicate Linked(s: System, i: nat)
    requires i < |s.runners|
  {
    var r := s.runners[i];
    && WellPlaced(r.cfg, r.at)
    && (OnClientAt(r.cfg, r.at) <==> r.client.Client?)
    && (r.client.Client? ==>
          && r.client.id in s.db.out
          && s.db.out[r.client.id] == Use(i, Locked(r.cfg), r.cfg.scope, PhaseOf(r.cfg, r.at)))
  }

  ghost predicate Owned(s: System, c: nat)
    requires c in s.db.out
  {
    s.db.out[c].owner < |s.runners| && s.runners[s.db.out[c].owner].client == Client(c)
  }

  ghost predicate PoolInv(s: System) {
    && Valid(s.db)
    && (forall i :: 0 <= i < |s.runners| ==> Linked(s, i))
    && (forall c :: c in s.db.out ==> Owned(s, c))
  }

  lemma ConnectKept(s: System, e: Event)
    requires PoolInv(s) && Enabled(s, e) && e.Act? && s.runners[e.r].at.AtConnect?
    ensures Valid(DbAfter(s, e.r, e.reply, e.client, e.took))
  {
    var r := s.runners[e.r];
    if e.reply.Answer? {
      CheckoutKeeps(s.db, e.client, Use(e.r, Locked(r.cfg), r.cfg.scope, PhaseOf(r.cfg, Next(r.cfg, r.at, e.reply))));
    }
  }

  lemma AfterBegin(r: Runner, reply: Reply)
    requires r.at.AtBegin? && WellPlaced(r.cfg, r.at)
    ensures PhaseOf(r.cfg, Next(r.cfg, r.at, reply)) == if reply.Answer? then InTransaction else Leaving(false)
  {
  }

  lemma BeginKept(s: System, e: Event)
    requires PoolInv(s) && Enabled(s, e) && e.Act? && s.runners[e.r].at.AtBegin?
    ensures Valid(DbAfter(s, e.r, e.reply, e.client, e.took))
  {
    var r := s.runners[e.r];
    assert Linked(s, e.r);
    AfterBegin(r, e.reply);
    if e.reply.Answer? {
      BeginKeeps(s.db, r.client.id);
    } else {
      TurnKeeps(s.db, r.client.id, Leaving(false));
    }
  }

  lemma WorkKept(s: System, e: Event)
    requires PoolInv(s) && Enabled(s, e) && e.Act? && s.runners[e.r].at.AtWork?
    ensures Valid(DbAfter(s, e.r, e.reply, e.client, e.took))
  {
    var r := s.runners[e.r];
    assert Linked(s, e.r);
    if r.cfg.layers.pgAdvisory {
      TurnKeeps(s.db, r.client.id, PhaseOf(r.cfg, Next(r.cfg, r.at, e.reply)));
    }
  }

  /** Where a lock statement leads, and what the client is then used for. */
  lemma AfterLock(r: Runner, reply: Reply)
    requires r.at.AtLock?
    ensures var phase := PhaseOf(r.cfg, Next(r.cfg, r.at, reply));
      phase == if TakesLock(r, reply) then Holding else if r.cfg.scope.Session? then Leaving(false) else RollingBack
  {
  }

  lemma LockKept(s: System, e: Event)
    requires PoolInv(s) && Enabled(s, e) && e.Act? && s.runners[e.r].at.AtLock?
    ensures Valid(DbAfter(s, e.r, e.reply, e.client, e.took))
  {
    var r := s.runners[e.r];
    assert Linked(s, e.r);
    AfterLock(r, e.reply);
    if TakesLock(r, e.reply) {
      GrabKeeps(s.db, r.client.id);
    } else {
      TurnKeeps(s.db, r.client.id, PhaseOf(r.cfg, Next(r.cfg, r.at, e.reply)));
    }
  }

  lemma TransactionKept(s: System, e: Event)
    requires PoolInv(s) && Enabled(s, e) && e.Act?
    requires s.runners[e.r].at.AtCommit? || s.runners[e.r].at.AtRollback?
    ensures Valid(DbAfter(s, e.r, e.reply, e.client, e.took))
  {
    var r := s.runners[e.r];
    assert Linked(s, e.r);
    var phase := PhaseOf(r.cfg, Next(r.cfg, r.at, e.reply));
    if e.reply.Answer? || e.took {
      EndTransactionKeeps(s.db, r.client.id, phase);
    } else {
      TurnKeeps(s.db, r.client.id, phase);
    }
  }

  lemma UnlockKept(s: System, e: Event)
    requires PoolInv(s) && Enabled(s, e) && e.Act? && s.runners[e.r].at.AtUnlock?
    ensures Valid(DbAfter(s, e.r, e.reply, e.client, e.took))
  {
    var r := s.runners[e.r];
    assert Linked(s, e.r);
    var phase := PhaseOf(r.cfg, Next(r.cfg, r.at, e.reply));
    UnlockKeeps(s.db, r.client.id, Leaving(true));
    if e.reply.Answer? || e.took {
      UnlockKeeps(s.db, r.client.id, phase);
    } else {
      TurnKeeps(s.db, r.client.id, phase);
    }
  }

  /** The database stays valid under every call a runner can make. */
  lemma DbKept(s: System, e: Event)
    requires PoolInv(s) && Enabled(s, e) && e.Act?
    ensures Valid(DbAfter(s, e.r, e.reply, e.client, e.took))
  {
    match s.runners[e.r].at
    case AtConnect => ConnectKept(s, e);
    case AtBegin => BeginKept(s, e);
    case AtLock => LockKept(s, e);
    case AtWork => WorkKept(s, e);
    case AtCommit(_) => TransactionKept(s, e);
    case AtRollback(_) => TransactionKept(s, e);
    case AtUnlock(_) => UnlockKept(s, e);
    case AtReturn(_, _) =>
      assert Linked(s, e.r);
      HandBackKeeps(s.db, s.runners[e.r].client.id);
    case _ =>
  }

  /** A call of one runner changes the pool's record of its own client only. */
  lemma OnlyOwnClient(s: System, e: Event)
    requires PoolInv(s) && Enabled(s, e) && e.Act?
    ensures var r, out, after := s.runners[e.r], s.db.out, Apply(s, e).db.out;
      && (forall c :: c in out && r.client != Client(c) ==> c in after && after[c] == out[c])
      && (forall c :: c in after && c !in out ==> r.at.AtConnect? && e.reply.Answer? && c == e.client)
  {
    assert Linked(s, e.r);
    if s.runners[e.r].at.AtConnect? && e.reply.Answer? {
      assert e.client !in s.db.out;
    }
  }

  lemma OwnLink(s: System, e: Event)
    requires PoolInv(s) && Enabled(s, e) && e.Act?
    ensures Linked(Apply(s, e), e.r)
    ensures var r, t := s.runners[e.r], Apply(s, e);
      r.client.Client? && r.client.id in t.db.out ==>
        t.runners[e.r].client == r.client && t.db.out[r.client.id].owner == e.r
    ensures var r, t := s.runners[e.r], Apply(s, e);
      r.at.AtConnect? && e.reply.Answer? ==>
        t.db.out[e.client].owner == e.r && t.runners[e.r].client == Client(e.client)
  {
    var r := s.runners[e.r];
    assert Linked(s, e.r);
    StaysWellPlaced(r.cfg, r.at, e.reply);
  }

  /** Dropping a grant touches neither the database nor a runner. */
  lemma ReapKeepsPool(s: System, e: Event)
    requires PoolInv(s) && Enabled(s, e) && e.Reap?
    ensures PoolInv(Apply(s, e))
  {
    var t := Apply(s, e);
    forall j | 0 <= j < |t.runners| ensures Linked(t, j) {
      assert Linked(s, j);
    }
    forall c | c in t.db.out ensures Owned(t, c) {
      assert Owned(s, c);
    }
  }

  lemma OthersStayLinked(s: System, e: Event, j: nat)
    requires PoolInv(s) && Enabled(s, e) && e.Act? && j < |s.runners| && j != e.r
    ensures Linked(Apply(s, e), j)
  {
    OnlyOwnClient(s, e);
    assert Linked(s, j) && Linked(s, e.r);
  }

  lemma StaysOwned(s: System, e: Event, c: nat)
    requires PoolInv(s) && Enabled(s, e) && e.Act? && c in Apply(s, e).db.out
    ensures Owned(Apply(s, e), c)
  {
    OnlyOwnClient(s, e);
    OwnLink(s, e);
    assert c in s.db.out ==> Owned(s, c);
  }

  lemma PoolStep(s: System, e: Event)
    requires PoolInv(s) && Enabled(s, e)
    ensures PoolInv(Apply(s, e))
  {
    if e.Reap? {
      ReapKeepsPool(s, e);
    } else {
      var t := Apply(s, e);
      DbKept(s, e);
      forall j | 0 <= j < |t.runners| ensures Linked(t, j) {
        if j == e.r {
          OwnLink(s, e);
        } else {
          OthersStayLinked(s, e, j);
        }
      }
      forall c | c in t.db.out ensures Owned(t, c) {
        StaysOwned(s, e, c);
      }
    }
  }
}
