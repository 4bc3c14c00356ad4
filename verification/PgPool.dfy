/**
  One database behind a bounded pool: live sessions, open transactions, advisory locks, and the use of each client.
 */
module PgPool {
  import opened LockPlan

  /** How far the user of a checked-out client has got. */
  datatype Phase = Fresh | InTransaction | Holding | RollingBack | Leaving(poisoned: bool)

  /** A checked-out client: its user, the advisory key it will lock and at which level. */
  datatype Use = Use(owner: nat, key: int, scope: PgScope, phase: Phase)

  /** Who holds an advisory key, and how often: at session level and inside its transaction. */
  datatype Hold = Hold(client: nat, session: nat, xact: nat)

  datatype Db = Db(
    poolSize: nat,
    idle: set<nat>,           // clients waiting in the pool
    out: map<nat, Use>,       // checked-out clients
    sessions: map<nat, bool>, // live sessions; true while a transaction is open
    locks: map<int, Hold>)

  // ---------------------------------------------------------------------
  // What statements do
  // ---------------------------------------------------------------------

  predicate CanCheckout(db: Db, c: nat) {
    c in db.idle || (c !in db.sessions && |db.sessions| < db.poolSize)
  }

  function Checkout(db: Db, c: nat, use: Use): Db {
    db.(idle := db.idle - {c}, out := db.out[c := use], sessions := db.sessions[c := false])
  }

  function BeginTransaction(db: Db, c: nat): Db {
    db.(sessions := db.sessions[c := true])
  }

  predicate FreeFor(db: Db, key: int, c: nat) {
    key in db.locks ==> db.locks[key].client == c
  }

  /** Taking a lock again in the session that holds it only raises its count. */
  function Grab(db: Db, key: int, c: nat, scope: PgScope): Db
    requires FreeFor(db, key, c)
  {
    var held := if key in db.locks then db.locks[key] else Hold(c, 0, 0);
    var more := if scope.Session? then held.(session := held.session + 1) else held.(xact := held.xact + 1);
    db.(locks := db.locks[key := more])
  }

  /** The end of a transaction drops its locks. */
  function EndTransaction(db: Db, c: nat): Db {
    db.(sessions := db.sessions[c := false],
        locks := map k | k in db.locks && !(db.locks[k].client == c && db.locks[k].session == 0)
                   :: if db.locks[k].client == c then db.locks[k].(xact := 0) else db.locks[k])
  }

  predicate HoldsSession(db: Db, key: int, c: nat) {
    key in db.locks && db.locks[key].client == c && db.locks[key].session > 0
  }

  function Unlock(db: Db, key: int, c: nat): Db
    requires HoldsSession(db, key, c)
  {
    var held := db.locks[key];
    db.(locks := if held.session == 1 && held.xact == 0 then db.locks - {key}
                 else db.locks[key := held.(session := held.session - 1)])
  }

  /** Hand a client back: a poisoned one is destroyed and its session drops everything it holds. */
  function HandBack(db: Db, c: nat, poisoned: bool): Db {
    if poisoned then
      db.(out := db.out - {c}, sessions := db.sessions - {c},
          locks := map k | k in db.locks && db.locks[k].client != c :: db.locks[k])
    else db.(out := db.out - {c}, idle := db.idle + {c})
  }

  function Turn(db: Db, c: nat, phase: Phase): Db
    requires c in db.out
  {
    db.(out := db.out[c := db.out[c].(phase := phase)])
  }

  // ---------------------------------------------------------------------
  // Invariant
  // ---------------------------------------------------------------------

  ghost predicate HoldsNothing(db: Db, c: nat) {
    forall k :: k in db.locks ==> db.locks[k].client != c
  }

  ghost predicate HoldsAtMost(db: Db, c: nat, key: int) {
    forall k :: k in db.locks && db.locks[k].client == c ==> k == key
  }

  /** No open transaction and no lock: fit for the next user. */
  ghost predicate Clean(db: Db, c: nat) {
    c in db.sessions && !db.sessions[c] && HoldsNothing(db, c)
  }

  ghost predicate UseFits(db: Db, c: nat)
    requires c in db.out
  {
    var use := db.out[c];
    c in db.sessions &&
    match use.phase
    case Fresh => Clean(db, c)
    case InTransaction => db.sessions[c] && HoldsNothing(db, c)
    case Holding =>
      && db.sessions[c] == use.scope.Transaction? && HoldsAtMost(db, c, use.key)
      && use.key in db.locks
      && db.locks[use.key] == (if use.scope.Session? then Hold(c, 1, 0) else Hold(c, 0, 1))
    case RollingBack =>
      && HoldsAtMost(db, c, use.key)
      && (use.key in db.locks && db.locks[use.key].client == c ==> db.locks[use.key].session == 0 && db.sessions[c])
    case Leaving(poisoned) => if poisoned then HoldsAtMost(db, c, use.key) else Clean(db, c)
  }

  ghost predicate Valid(db: Db) {
    && (forall c :: c in db.sessions <==> c in db.idle || c in db.out)
    && (forall c :: c in db.idle ==> c !in db.out)
    && |db.sessions| <= db.poolSize
    && (forall c :: c in db.idle ==> Clean(db, c))
    && (forall c :: c in db.out ==> UseFits(db, c))
    && (forall k :: k in db.locks ==> db.locks[k].client in db.sessions)
  }

  /** What happens to other clients does not matter to `d`. */
  lemma UseFrame(db: Db, after: Db, d: nat)
    requires d in db.out && d in after.out && after.out[d] == db.out[d] && UseFits(db, d)
    requires d in after.sessions && after.sessions[d] == db.sessions[d]
    requires forall k :: k in after.locks && after.locks[k].client == d ==>
      k in db.locks && after.locks[k] == db.locks[k]
    requires forall k :: k in db.locks && db.locks[k].client == d ==> k in after.locks && after.locks[k] == db.locks[k]
    ensures UseFits(after, d)
  {
  }

  lemma CheckoutCounts(db: Db, c: nat, use: Use)
    requires Valid(db) && CanCheckout(db, c)
    ensures |Checkout(db, c, use).sessions| <= db.poolSize
    ensures Checkout(db, c, use).sessions.Keys == db.sessions.Keys + {c}
  {
    var after := Checkout(db, c, use);
    if c in db.sessions {
      assert after.sessions.Keys == db.sessions.Keys;
      assert |after.sessions.Keys| == |after.sessions| && |db.sessions.Keys| == |db.sessions|;
    }
  }

  lemma CheckoutKeeps(db: Db, c: nat, use: Use)
    requires Valid(db) && CanCheckout(db, c) && use.phase.Fresh?
    ensures Valid(Checkout(db, c, use))
  {
    var after := Checkout(db, c, use);
    CheckoutCounts(db, c, use);
    assert HoldsNothing(db, c) by {
      assert c in db.idle ==> Clean(db, c);
    }
    forall d | d in after.out ensures UseFits(after, d) {
      if d != c {
        UseFrame(db, after, d);
      } else {
        assert Clean(after, c);
      }
    }
    forall d | d in after.idle ensures Clean(after, d) {
      assert Clean(db, d);
    }
  }

  /** A step that leaves the sessions and locks of every other client alone keeps them fitting. */
  lemma OthersKeep(db: Db, after: Db, c: nat)
    requires Valid(db) && c in db.out
    requires after.idle == db.idle && after.out.Keys == db.out.Keys && after.sessions.Keys == db.sessions.Keys
    requires after.poolSize == db.poolSize
    requires forall d :: d in db.out && d != c ==> after.out[d] == db.out[d]
    requires forall d :: d in db.sessions && d != c ==> after.sessions[d] == db.sessions[d]
    requires forall k :: k in after.locks && after.locks[k].client != c ==>
      k in db.locks && after.locks[k] == db.locks[k]
    requires forall k :: k in db.locks && db.locks[k].client != c ==> k in after.locks && after.locks[k] == db.locks[k]
    requires UseFits(after, c)
    ensures Valid(after)
  {
    assert |after.sessions| == |db.sessions| by {
      assert |after.sessions.Keys| == |after.sessions| && |db.sessions.Keys| == |db.sessions|;
    }
    forall d | d in after.out ensures UseFits(after, d) {
      assert UseFits(db, d);
    }
    forall d | d in after.idle ensures Clean(after, d) {
      assert Clean(db, d);
    }
  }

  lemma BeginKeeps(db: Db, c: nat)
    requires Valid(db) && c in db.out && db.out[c].phase.Fresh?
    ensures Valid(Turn(BeginTransaction(db, c), c, InTransaction))
  {
    assert UseFits(db, c);
    OthersKeep(db, Turn(BeginTransaction(db, c), c, InTransaction), c);
  }

  lemma GrabKeeps(db: Db, c: nat)
    requires Valid(db) && c in db.out
    requires db.out[c].phase == if db.out[c].scope.Session? then Fresh else InTransaction
    requires FreeFor(db, db.out[c].key, c)
    ensures Valid(Turn(Grab(db, db.out[c].key, c, db.out[c].scope), c, Holding))
  {
    assert UseFits(db, c);
    OthersKeep(db, Turn(Grab(db, db.out[c].key, c, db.out[c].scope), c, Holding), c);
  }

  /** Commit, or a rollback: whichever way the transaction ends, the client is clean. */
  lemma EndTransactionKeeps(db: Db, c: nat, phase: Phase)
    requires Valid(db) && c in db.out
    requires db.out[c].phase.RollingBack? || (db.out[c].phase.Holding? && db.out[c].scope.Transaction?)
    requires phase.RollingBack? || phase.Leaving?
    ensures Valid(Turn(EndTransaction(db, c), c, phase))
  {
    assert UseFits(db, c);
    var after := Turn(EndTransaction(db, c), c, phase);
    assert Clean(after, c);
    OthersKeep(db, after, c);
  }

  lemma UnlockKeeps(db: Db, c: nat, phase: Phase)
    requires Valid(db) && c in db.out && db.out[c].phase.Holding? && db.out[c].scope.Session? && phase.Leaving?
    ensures HoldsSession(db, db.out[c].key, c)
    ensures Valid(Turn(Unlock(db, db.out[c].key, c), c, phase))
  {
    assert UseFits(db, c);
    var after := Turn(Unlock(db, db.out[c].key, c), c, phase);
    assert Clean(after, c);
    OthersKeep(db, after, c);
  }

  /** The user moves on without a statement that changed anything. */
  predicate MayTurn(use: Use, phase: Phase) {
    match use.phase
    case Fresh => phase == Leaving(false)
    case InTransaction => phase.RollingBack?
    case Holding => phase.Holding? || phase == Leaving(true) || (phase.RollingBack? && use.scope.Transaction?)
    case RollingBack => phase == Leaving(true)
    case Leaving(_) => false
  }

  lemma TurnKeeps(db: Db, c: nat, phase: Phase)
    requires Valid(db) && c in db.out && MayTurn(db.out[c], phase)
    ensures Valid(Turn(db, c, phase))
  {
    assert UseFits(db, c);
    OthersKeep(db, Turn(db, c, phase), c);
  }

  lemma DestroyKeeps(db: Db, c: nat)
    requires Valid(db) && c in db.out
    ensures Valid(HandBack(db, c, true))
  {
    var after := HandBack(db, c, true);
    assert after.sessions.Keys == db.sessions.Keys - {c};
    assert |after.sessions.Keys| == |after.sessions| && |db.sessions.Keys| == |db.sessions|;
    forall d | d in after.out ensures UseFits(after, d) {
      UseFrame(db, after, d);
    }
    forall d | d in after.idle ensures Clean(after, d) {
      assert Clean(db, d);
    }
  }

  lemma RecycleKeeps(db: Db, c: nat)
    requires Valid(db) && c in db.out && Clean(db, c)
    ensures Valid(HandBack(db, c, false))
  {
    var after := HandBack(db, c, false);
    assert after.out.Keys == db.out.Keys - {c};
    forall d | d in after.out ensures UseFits(after, d) {
      UseFrame(db, after, d);
    }
    forall d | d in after.idle ensures Clean(after, d) {
      assert d != c ==> Clean(db, d);
    }
  }

  lemma HandBackKeeps(db: Db, c: nat)
    requires Valid(db) && c in db.out && db.out[c].phase.Leaving?
    ensures Valid(HandBack(db, c, db.out[c].phase.poisoned))
  {
    assert UseFits(db, c);
    if db.out[c].phase.poisoned {
      DestroyKeeps(db, c);
    } else {
      RecycleKeeps(db, c);
    }
  }

  // ---------------------------------------------------------------------
  // Consequences
  // ---------------------------------------------------------------------

  /** At most one client holds an advisory key, and it is one whose user took it. */
  lemma OneHolderPerKey(db: Db, c: nat, d: nat)
    requires Valid(db) && c in db.out && d in db.out
    requires db.out[c].phase.Holding? && db.out[d].phase.Holding?
    requires db.out[c].key == db.out[d].key
    ensures c == d
  {
    assert UseFits(db, c) && UseFits(db, d);
  }

  /** Whoever holds a key is past the lock statement, so it is not itself waiting for a client or a lock. */
  lemma HolderIsPastLocking(db: Db, key: int)
    requires Valid(db) && key in db.locks
    ensures var c := db.locks[key].client;
      c in db.out && (db.out[c].phase.Holding? || db.out[c].phase.RollingBack? || db.out[c].phase.Leaving?)
  {
    var c := db.locks[key].client;
    assert c in db.idle ==> Clean(db, c);
    assert UseFits(db, c);
  }
}
