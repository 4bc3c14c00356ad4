/**
  The runners of LockSystem cannot deadlock: leases, clients and advisory locks are taken in one order.
 */
module LockProgress {
  import opened Key
  import opened LockPlan
  import opened LockErrors
  import opened LockRun
  import opened PgPool
  import opened LockSystem
  import opened LockSafety

  /** A call that succeeds, or a try that answers that the lock or the lease is taken. Nothing expires. */
  predicate FaultFree(s: System, e: Event) {
    && e.Act? && !e.took && e.r < |s.runners|
    && (e.reply.Raised? ==>
          var r := s.runners[e.r];
          r.at.AtAcquire? && !r.cfg.wait && r.cfg.key in s.leases
          && e.reply.error == ContentionAt(r.cfg.key, FiduciaTryAcquire))
  }

  predicate Unfinished(s: System, i: int) {
    0 <= i < |s.runners| && !s.runners[i].at.Finished?
  }

  /** A grant that no unfinished runner has: its reply was lost, or its release failed. Only expiry frees it. */
  ghost predicate Abandoned(s: System, key: Bytes) {
    key in s.leases && forall j :: Unfinished(s, j) && s.runners[j].cfg.key == key ==> !Current(s, s.runners[j])
  }

  ghost predicate WaitsForAbandoned(s: System, i: nat)
    requires i < |s.runners|
  {
    s.runners[i].at.AtAcquire? && s.runners[i].cfg.wait && Abandoned(s, s.runners[i].cfg.key)
  }

  /** The three places where a run can be made to wait. */
  predicate Blocked(s: System, i: nat)
    requires i < |s.runners|
  {
    var r := s.runners[i];
    || (r.at.AtAcquire? && r.cfg.wait && r.cfg.key in s.leases)
    || (r.at.AtConnect? && s.db.idle == {} && |s.db.sessions| >= s.db.poolSize)
    || (r.at.AtLock? && r.cfg.wait && r.client.Client? && !FreeFor(s.db, Locked(r.cfg), r.client.id))
  }

  lemma FreshIn(used: set<nat>) returns (c: nat)
    ensures c !in used
    ensures forall d :: d in used ==> d < c
    decreases |used|
  {
    c := 0;
    if used != {} {
      var d :| d in used;
      var above := FreshIn(used - {d});
      c := if above > d then above else d + 1;
      assert forall x :: x in used ==> x == d || x in used - {d};
    }
  }

  lemma FreshClient(sessions: map<nat, bool>) returns (c: nat)
    ensures c !in sessions
  {
    c := FreshIn(sessions.Keys);
  }

  /** A runner that is not made to wait can make its next call. */
  lemma UnblockedMoves(s: System, i: nat) returns (e: Event)
    requires Inv(s) && Unfinished(s, i) && !Blocked(s, i)
    ensures Enabled(s, e) && FaultFree(s, e) && e.r == i
  {
    var r := s.runners[i];
    assert Linked(s, i) && GrantFits(s, i);
    var client := 0;
    var reply := Answer(true, 0);
    if r.at.AtAcquire? && r.cfg.key in s.leases {
      reply := Raised(ContentionAt(r.cfg.key, FiduciaTryAcquire));
    } else if r.at.AtConnect? {
      if s.db.idle != {} {
        client :| client in s.db.idle;
      } else {
        client := FreshClient(s.db.sessions);
      }
    } else if r.at.AtLock? && !FreeFor(s.db, Locked(r.cfg), r.client.id) {
      reply := Answer(false, 0);
    } else if r.at.AtUnlock? {
      assert UseFits(s.db, r.client.id);
    } else if r.at.AtRelease? {
      reply := Answer(Current(s, r), 0);
    }
    e := Act(i, reply, client, false);
  }

  /**
    Whoever has a client is not waiting for a lease or a client; if it waits for a lock, the lock's holder does not
    wait.
   */
  lemma ClientHolderMoves(s: System, i: nat) returns (e: Event)
    requires Inv(s) && i < |s.runners| && s.runners[i].client.Client?
    ensures Enabled(s, e) && FaultFree(s, e)
  {
    assert Linked(s, i);
    var mover := i;
    if Blocked(s, i) {
      var k := Locked(s.runners[i].cfg);
      HolderIsPastLocking(s.db, k);
      var c := s.db.locks[k].client;
      mover := s.db.out[c].owner;
      assert Owned(s, c) && Linked(s, mover);
    }
    assert Linked(s, mover);
    e := UnblockedMoves(s, mover);
  }

  lemma ConnectingMoves(s: System, i: nat) returns (e: Event)
    requires Inv(s) && s.db.poolSize > 0 && i < |s.runners| && s.runners[i].at.AtConnect?
    ensures Enabled(s, e) && FaultFree(s, e)
  {
    if Blocked(s, i) {
      assert s.db.sessions.Keys != {} by {
        assert |s.db.sessions.Keys| == |s.db.sessions|;
      }
      var c :| c in s.db.sessions;
      assert c in s.db.out && Owned(s, c);
      e := ClientHolderMoves(s, s.db.out[c].owner);
    } else {
      e := UnblockedMoves(s, i);
    }
  }

  /** Past the lease, some fault-free step is always possible. */
  lemma InsideMoves(s: System, i: nat) returns (e: Event)
    requires Inv(s) && s.db.poolSize > 0 && Unfinished(s, i) && !s.runners[i].at.AtAcquire?
    ensures Enabled(s, e) && FaultFree(s, e)
  {
    assert Linked(s, i);
    if s.runners[i].at.AtConnect? {
      e := ConnectingMoves(s, i);
    } else if s.runners[i].client.Client? {
      e := ClientHolderMoves(s, i);
    } else {
      e := UnblockedMoves(s, i);
    }
  }

  /**
    No deadlock: while some runner is unfinished and not waiting for an abandoned grant, some
    fault-free step is possible, for any pool of at least one client and any keys.
   */
  lemma SomeoneMoves(s: System, i: nat) returns (e: Event)
    requires Inv(s) && s.db.poolSize > 0 && Unfinished(s, i) && !WaitsForAbandoned(s, i)
    ensures Enabled(s, e) && FaultFree(s, e)
  {
    if !s.runners[i].at.AtAcquire? {
      e := InsideMoves(s, i);
    } else if !Blocked(s, i) {
      e := UnblockedMoves(s, i);
    } else {
      var j :| Unfinished(s, j) && s.runners[j].cfg.key == s.runners[i].cfg.key && Current(s, s.runners[j]);
      assert GrantFits(s, j);
      e := InsideMoves(s, j);
    }
  }

  // ---------------------------------------------------------------------
  // Every run can be brought to an end
  // ---------------------------------------------------------------------

  function CallsLeft(runners: seq<Runner>): nat {
    if runners == [] then 0 else Rank(runners[0].at) + CallsLeft(runners[1..])
  }

  lemma {:induction false} CallsLeftUpdate(runners: seq<Runner>, i: nat, r: Runner)
    requires i < |runners|
    ensures CallsLeft(runners[i := r]) == CallsLeft(runners) - Rank(runners[i].at) + Rank(r.at)
  {
    if i == 0 {
      assert runners[0 := r][1..] == runners[1..];
    } else {
      assert runners[i := r][1..] == runners[1..][i - 1 := r];
      CallsLeftUpdate(runners[1..], i - 1, r);
    }
  }

  ghost predicate NoneAbandoned(s: System) {
    forall key :: key in s.leases ==> !Abandoned(s, key)
  }

  /** A runner that holds a current grant finishes only by releasing it. */
  lemma HolderGoesOn(s: System, e: Event)
    requires Inv(s) && Enabled(s, e) && FaultFree(s, e)
    requires Current(s, s.runners[e.r]) && s.runners[e.r].cfg.key in Apply(s, e).leases
    ensures Unfinished(Apply(s, e), e.r) && Current(Apply(s, e), Apply(s, e).runners[e.r])
  {
    assert Linked(s, e.r) && GrantFits(s, e.r);
  }

  /** Without faults, grants stay with runners that will release them. */
  lemma NoneBecomesAbandoned(s: System, e: Event)
    requires Inv(s) && NoneAbandoned(s) && Enabled(s, e) && FaultFree(s, e)
    ensures NoneAbandoned(Apply(s, e))
  {
    var t := Apply(s, e);
    var r := s.runners[e.r];
    assert Linked(s, e.r) && GrantFits(s, e.r);
    forall key | key in t.leases ensures !Abandoned(t, key) {
      if key in s.leases {
        var j :| Unfinished(s, j) && s.runners[j].cfg.key == key && Current(s, s.runners[j]);
        assert GrantFits(s, j);
        if j == e.r {
          HolderGoesOn(s, e);
        }
        assert Unfinished(t, j) && t.runners[j].cfg.key == key && Current(t, t.runners[j]);
      } else {
        assert r.at.AtAcquire? && key == r.cfg.key;
        assert Unfinished(t, e.r) && Current(t, t.runners[e.r]);
      }
    }
  }

  ghost predicate FaultFreeRun(s: System, events: seq<Event>): (fine: bool)
    ensures fine ==> Possible(s, events)
    decreases |events|
  {
    events == [] ||
    (Enabled(s, events[0]) && FaultFree(s, events[0]) && FaultFreeRun(Apply(s, events[0]), events[1..]))
  }

  /** No fault-free schedule goes on forever: each makes at most the calls that are left. */
  lemma {:induction false} FaultFreeRunsEnd(s: System, events: seq<Event>)
    requires FaultFreeRun(s, events)
    ensures |events| + CallsLeft(After(s, events).runners) <= CallsLeft(s.runners)
    decreases |events|
  {
    if events == [] {
    } else {
      var e := events[0];
      var t := Apply(s, e);
      NextDescends(s.runners[e.r].cfg, s.runners[e.r].at, e.reply);
      CallsLeftUpdate(s.runners, e.r, t.runners[e.r]);
      FaultFreeRunsEnd(t, events[1..]);
    }
  }

  lemma {:induction false} NoneAbandonedAfter(s: System, events: seq<Event>)
    requires Inv(s) && NoneAbandoned(s) && FaultFreeRun(s, events)
    ensures Inv(After(s, events)) && NoneAbandoned(After(s, events)) && After(s, events).db.poolSize == s.db.poolSize
    decreases |events|
  {
    if events == [] {
    } else {
      StepKeepsInv(s, events[0]);
      NoneBecomesAbandoned(s, events[0]);
      NoneAbandonedAfter(Apply(s, events[0]), events[1..]);
    }
  }

  lemma ClientUserUnfinished(s: System, c: nat)
    requires Inv(s) && c in s.db.out
    ensures Unfinished(s, s.db.out[c].owner)
  {
    assert Owned(s, c) && Linked(s, s.db.out[c].owner);
  }

  lemma GrantUserUnfinished(s: System, key: Bytes) returns (j: int)
    requires key in s.leases && NoneAbandoned(s)
    ensures Unfinished(s, j)
  {
    j :| Unfinished(s, j) && s.runners[j].cfg.key == key && Current(s, s.runners[j]);
  }

  lemma NoKeys<K, V>(m: map<K, V>)
    requires forall k :: k !in m
    ensures m == map[]
  {
  }

  lemma NothingHeldAtEnd(s: System)
    requires Inv(s) && NoneAbandoned(s)
    requires forall i :: 0 <= i < |s.runners| ==> !Unfinished(s, i)
    ensures s.leases == map[] && s.db.out == map[] && s.db.locks == map[]
  {
    forall c ensures c !in s.db.out {
      if c in s.db.out {
        ClientUserUnfinished(s, c);
        assert false;
      }
    }
    forall k ensures k !in s.db.locks {
      if k in s.db.locks {
        HolderIsPastLocking(s.db, k);
        assert false;
      }
    }
    forall key ensures key !in s.leases {
      if key in s.leases {
        var j := GrantUserUnfinished(s, key);
        assert false;
      }
    }
    NoKeys(s.db.out);
    NoKeys(s.db.locks);
    NoKeys(s.leases);
  }

  /** A fault-free schedule that cannot be continued has finished every runner and leaves nothing held. */
  lemma MaximalRunsFinish(s: System, events: seq<Event>)
    requires Inv(s) && s.db.poolSize > 0 && NoneAbandoned(s) && FaultFreeRun(s, events)
    requires forall e :: Enabled(After(s, events), e) ==> !FaultFree(After(s, events), e)
    ensures var t := After(s, events);
      && (forall i :: 0 <= i < |t.runners| ==> !Unfinished(t, i))
      && t.leases == map[] && t.db.out == map[] && t.db.locks == map[]
  {
    var t := After(s, events);
    NoneAbandonedAfter(s, events);
    forall i | 0 <= i < |t.runners| ensures !Unfinished(t, i) {
      if Unfinished(t, i) {
        var e := SomeoneMoves(t, i);
      }
    }
    NothingHeldAtEnd(t);
  }

  /**
    From any reachable state without abandoned grants, some fault-free run finishes every runner and leaves nothing
    held.
   */
  lemma {:induction false} CanAlwaysFinish(s: System) returns (events: seq<Event>)
    requires Inv(s) && s.db.poolSize > 0 && NoneAbandoned(s)
    ensures Possible(s, events) && FaultFreeRun(s, events)
    ensures var t := After(s, events);
      && (forall i :: 0 <= i < |t.runners| ==> !Unfinished(t, i))
      && t.leases == map[] && t.db.out == map[] && t.db.locks == map[]
    decreases CallsLeft(s.runners)
  {
    if i: nat :| Unfinished(s, i) {
      var e := SomeoneMoves(s, i);
      var t := Apply(s, e);
      StepKeepsInv(s, e);
      NoneBecomesAbandoned(s, e);
      NextDescends(s.runners[e.r].cfg, s.runners[e.r].at, e.reply);
      CallsLeftUpdate(s.runners, e.r, t.runners[e.r]);
      var rest := CanAlwaysFinish(t);
      events := [e] + rest;
      assert events[1..] == rest;
    } else {
      events := [];
      forall i | 0 <= i < |s.runners| ensures !Unfinished(s, i) {
        var n: nat := i;
        assert !Unfinished(s, n);
      }
      NothingHeldAtEnd(s);
    }
  }
}
