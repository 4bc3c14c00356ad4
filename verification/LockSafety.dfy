/**
  In every reachable state of LockSystem: mutual exclusion per advisory key, disjoint leased successes, clean clients.
 */
module LockSafety {
  import opened Key
  import opened LockPlan
  import opened LockRun
  import opened PgPool
  import opened LockSystem

  // ---------------------------------------------------------------------
  // Invariant: grants
  // ---------------------------------------------------------------------

  /** A leased run that returned a value. */
  predicate Won(r: Runner) {
    r.cfg.layers.fiducia && r.at.Finished? && r.at.out.Ok?
  }

  ghost predicate GrantFits(s: System, i: nat)
    requires i < |s.runners|
  {
    var r := s.runners[i];
    && (r.at.AtAcquire? ==> r.grant.NoGrant?)
    && (r.grant.Grant? ==> r.cfg.layers.fiducia && r.grant.token < s.nextToken && r.grant.since < s.now)
    && (r.cfg.layers.fiducia && !r.at.AtAcquire? && (r.at.Finished? ==> r.at.out.Ok?) ==> r.grant.Grant?)
    && (Won(r) ==> r.grant.since < r.releasedAt < s.now)
  }

  predicate Rivals(a: Runner, b: Runner) {
    a.cfg.key == b.cfg.key && a.grant.Grant? && b.grant.Grant?
  }

  /** Tokens are ordered like the moments they were given. */
  predicate TokensOrdered(a: Runner, b: Runner) {
    a.grant.Grant? && b.grant.Grant? ==>
      a.grant.token != b.grant.token && (a.grant.token < b.grant.token <==> a.grant.since < b.grant.since)
  }

  /** A current grant is the latest one on its key, and a winner's interval is its own. */
  predicate Exclusive(s: System, a: Runner, b: Runner) {
    Rivals(a, b) ==>
      && (Current(s, a) ==> b.grant.since < a.grant.since)
      && (Won(a) ==> b.grant.since < a.grant.since || b.grant.since > a.releasedAt)
  }

  ghost predicate Apart(s: System, i: nat, j: nat)
    requires i < |s.runners| && j < |s.runners|
  {
    i != j ==> TokensOrdered(s.runners[i], s.runners[j]) && Exclusive(s, s.runners[i], s.runners[j])
  }

  ghost predicate LeaseInv(s: System) {
    && (forall key :: key in s.leases ==> s.leases[key] < s.nextToken)
    && (forall i :: 0 <= i < |s.runners| ==> GrantFits(s, i))
    && (forall i, j :: 0 <= i < |s.runners| && 0 <= j < |s.runners| ==> Apart(s, i, j))
  }

  ghost predicate Inv(s: System) {
    PoolInv(s) && LeaseInv(s)
  }

  /** A run returns a value under a lease only by an acknowledged release of a current grant. */
  lemma WinningStep(s: System, e: Event)
    requires Enabled(s, e) && e.Act? && WellPlaced(s.runners[e.r].cfg, s.runners[e.r].at)
    requires Won(Apply(s, e).runners[e.r])
    ensures s.runners[e.r].at.AtRelease? && Current(s, s.runners[e.r])
  {
  }

  lemma GrantKept(s: System, e: Event, i: nat)
    requires Inv(s) && Enabled(s, e) && i < |s.runners|
    ensures GrantFits(Apply(s, e), i)
  {
    assert GrantFits(s, i) && Linked(s, i);
    if e.Act? && e.r == i && Won(Apply(s, e).runners[i]) {
      WinningStep(s, e);
    }
  }

  lemma TokensStayOrdered(s: System, e: Event, i: nat, j: nat)
    requires Inv(s) && Enabled(s, e) && i < |s.runners| && j < |s.runners| && i != j
    ensures TokensOrdered(Apply(s, e).runners[i], Apply(s, e).runners[j])
  {
    assert Apart(s, i, j) && GrantFits(s, i) && GrantFits(s, j);
  }

  lemma StaysExclusive(s: System, e: Event, i: nat, j: nat)
    requires Inv(s) && Enabled(s, e) && i < |s.runners| && j < |s.runners| && i != j
    ensures Exclusive(Apply(s, e), Apply(s, e).runners[i], Apply(s, e).runners[j])
  {
    assert Apart(s, i, j) && GrantFits(s, i) && GrantFits(s, j) && Linked(s, i);
    if e.Act? && e.r == i && Won(Apply(s, e).runners[i]) {
      WinningStep(s, e);
    }
  }

  lemma StepKeepsInv(s: System, e: Event)
    requires Inv(s) && Enabled(s, e)
    ensures Inv(Apply(s, e))
  {
    PoolStep(s, e);
    var t := Apply(s, e);
    forall i | 0 <= i < |t.runners| ensures GrantFits(t, i) {
      GrantKept(s, e, i);
    }
    forall i, j | 0 <= i < |t.runners| && 0 <= j < |t.runners| ensures Apart(t, i, j) {
      if i != j {
        TokensStayOrdered(s, e, i, j);
        StaysExclusive(s, e, i, j);
      }
    }
  }

  lemma Initially(s: System)
    requires Init(s)
    ensures Inv(s)
  {
  }

  lemma {:induction false} Always(s: System, events: seq<Event>)
    requires Inv(s) && Possible(s, events)
    ensures Inv(After(s, events))
    decreases |events|
  {
    if events == [] {
    } else {
      StepKeepsInv(s, events[0]);
      Always(Apply(s, events[0]), events[1..]);
    }
  }

  // ---------------------------------------------------------------------
  // Safety of every run
  // ---------------------------------------------------------------------

  /** From taking its advisory lock to giving it up, with `work` in between. */
  predicate Guarding(r: Runner) {
    r.cfg.layers.pgAdvisory && (r.at.AtWork? || r.at.AtCommit? || r.at.AtUnlock?)
  }

  /** At most one runner per advisory key is in its guarded section, whatever became of the leases. */
  lemma MutualExclusion(s: System, events: seq<Event>, i: nat, j: nat)
    requires Init(s) && Possible(s, events)
    requires i < |After(s, events).runners| && j < |After(s, events).runners| && i != j
    requires Guarding(After(s, events).runners[i]) && Guarding(After(s, events).runners[j])
    ensures AdvisoryKey(After(s, events).runners[i].cfg.key) != AdvisoryKey(After(s, events).runners[j].cfg.key)
  {
    Initially(s);
    Always(s, events);
    var t := After(s, events);
    assert Linked(t, i) && Linked(t, j);
    if Locked(t.runners[i].cfg) == Locked(t.runners[j].cfg) {
      OneHolderPerKey(t.db, t.runners[i].client.id, t.runners[j].client.id);
    }
  }

  /**
    Two leased runs on one key that both returned a value did not overlap: the one with the smaller
    fencing token was released before the other was granted.
   */
  lemma SuccessfulLeasesDisjoint(s: System, events: seq<Event>, i: nat, j: nat)
    requires Init(s) && Possible(s, events)
    requires i < |After(s, events).runners| && j < |After(s, events).runners| && i != j
    requires var a, b := After(s, events).runners[i], After(s, events).runners[j];
      Won(a) && Won(b) && a.cfg.key == b.cfg.key
    ensures var a, b := After(s, events).runners[i], After(s, events).runners[j];
      a.grant.Grant? && b.grant.Grant? &&
      if a.grant.token < b.grant.token then a.releasedAt < b.grant.since else b.releasedAt < a.grant.since
  {
    Initially(s);
    Always(s, events);
    var t := After(s, events);
    assert GrantFits(t, i) && GrantFits(t, j) && Apart(t, i, j) && Apart(t, j, i);
  }

  /** A runner whose grant the authority has dropped never returns a value, however the run goes on. */
  lemma {:induction false} ReapedNeverWins(s: System, events: seq<Event>, i: nat)
    requires Inv(s) && Possible(s, events) && i < |s.runners|
    requires s.runners[i].grant.Grant? && !Current(s, s.runners[i]) && !Won(s.runners[i])
      && s.runners[i].cfg.layers.fiducia
    ensures i < |After(s, events).runners| && !Won(After(s, events).runners[i])
    decreases |events|
  {
    if events == [] {
    } else {
      var e := events[0];
      var t := Apply(s, e);
      StepKeepsInv(s, e);
      assert GrantFits(s, i) && Linked(s, i);
      if e.Act? && e.r == i && Won(t.runners[i]) {
        WinningStep(s, e);
      }
      ReapedNeverWins(t, events[1..], i);
    }
  }

  /** Every client waiting in the pool is clean, and every other live client has exactly one unfinished user. */
  lemma ClientsConserved(s: System, events: seq<Event>, c: nat)
    requires Init(s) && Possible(s, events) && c in After(s, events).db.sessions
    ensures var t := After(s, events);
      if c in t.db.idle then Clean(t.db, c)
      else
        && c in t.db.out && t.db.out[c].owner < |t.runners|
        && !t.runners[t.db.out[c].owner].at.Finished?
        && forall i :: 0 <= i < |t.runners| ==> (t.runners[i].client == Client(c) <==> i == t.db.out[c].owner)
  {
    Initially(s);
    Always(s, events);
    var t := After(s, events);
    if c !in t.db.idle {
      assert Owned(t, c) && Linked(t, t.db.out[c].owner);
      forall i | 0 <= i < |t.runners| ensures t.runners[i].client == Client(c) <==> i == t.db.out[c].owner {
        assert Linked(t, i);
      }
    }
  }

  /** `pg_advisory_unlock` is never answered with false: the error for it cannot arise. */
  lemma UnlockNeverRefused(s: System, events: seq<Event>, e: Event)
    requires Init(s) && Possible(s, events) && Enabled(After(s, events), e)
    requires e.Act? && After(s, events).runners[e.r].at.AtUnlock? && e.reply.Answer?
    ensures e.reply.yes
  {
    Initially(s);
    Always(s, events);
    var t := After(s, events);
    assert Linked(t, e.r);
    assert UseFits(t.db, t.runners[e.r].client.id);
  }

  lemma PossibleCons(s: System, e: Event, rest: seq<Event>)
    requires Enabled(s, e) && Possible(Apply(s, e), rest)
    ensures Possible(s, [e] + rest) && After(s, [e] + rest) == After(Apply(s, e), rest)
  {
    assert ([e] + rest)[0] == e && ([e] + rest)[1..] == rest;
  }

  /** With the advisory lock off, a grant dropped too early lets two runners on one key work at once. */
  lemma LeaseAloneDoesNotExclude(cfg: Config) returns (s: System, events: seq<Event>)
    requires cfg.layers == LockLayers(true, false) && !Unplannable(cfg)
    ensures Init(s) && Possible(s, events) && |After(s, events).runners| == 2
    ensures After(s, events).runners[0].cfg == After(s, events).runners[1].cfg == cfg
    ensures After(s, events).runners[0].at.AtWork? && After(s, events).runners[1].at.AtWork?
  {
    var r := Runner(cfg, Start(cfg), NoClient, NoGrant, 0);
    s := System([r, r], Db(0, {}, map[], map[], map[]), map[], 0, 0);
    var first, reap, second := Act(0, Answer(true, 0), 0, false), Reap(cfg.key), Act(1, Answer(true, 0), 0, false);
    var s1 := Apply(s, first);
    var s2 := Apply(s1, reap);
    PossibleCons(s2, second, []);
    PossibleCons(s1, reap, [second] + []);
    PossibleCons(s, first, [reap] + ([second] + []));
    events := [first] + ([reap] + ([second] + []));
  }
}
