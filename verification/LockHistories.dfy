/**
  What a runner does inside an interleaving is a run of its machine, so what holds of single runs holds there too.
 */
module LockHistories {
  import opened LockPlan
  import opened LockErrors
  import opened LockRun
  import opened LockProperties
  import opened LockOutcomes
  import opened LockSystem

  // ---------------------------------------------------------------------
  // The calls of one runner
  // ---------------------------------------------------------------------

  predicate By(e: Event, i: nat) {
    e.Act? && e.r == i
  }

  /** The calls runner `i` makes in the course of `events`. */
  ghost function CallsOf(s: System, events: seq<Event>, i: nat): seq<Action>
    requires Possible(s, events) && i < |s.runners|
    decreases |events|
  {
    if events == [] then []
    else
      var r := s.runners[i];
      (if By(events[0], i) then [ActionAt(r.cfg, r.at)] else []) + CallsOf(Apply(s, events[0]), events[1..], i)
  }

  /** `replies` answers the calls of runner `i` as they were answered in the course of `events`. */
  ghost predicate Heard(s: System, events: seq<Event>, i: nat, replies: Oracle)
    requires Possible(s, events) && i < |s.runners|
    decreases |events|
  {
    events == [] ||
    var r := s.runners[i];
    && (By(events[0], i) ==> replies(ActionAt(r.cfg, r.at)) == events[0].reply)
    && Heard(Apply(s, events[0]), events[1..], i, replies)
  }

  // ---------------------------------------------------------------------
  // No call is made twice
  // ---------------------------------------------------------------------

  /** The rank of the control point that makes the call. */
  function CallRank(a: Action): nat {
    match a
    case Connect => 9
    case Return(_) => 3
    case Step(step) =>
      match step
      case FiduciaAcquire => 10
      case FiduciaTryAcquire => 10
      case PgBegin => 8
      case Work => 6
      case PgCommit => 5
      case PgAdvisoryUnlock => 5
      case PgRollback => 4
      case FiduciaRelease => 2
      case _ => 7
  }

  lemma CallHasRank(cfg: Config, at: Control)
    requires !at.Finished?
    ensures CallRank(ActionAt(cfg, at)) == Rank(at)
  {
  }

  /** The oracles agree on every call that can still be made from `at`. */
  ghost predicate AgreeFrom(at: Control, a: Oracle, b: Oracle) {
    forall action :: CallRank(action) <= Rank(at) ==> a(action) == b(action)
  }

  lemma {:induction false} FinishAgrees(cfg: Config, at: Control, a: Oracle, b: Oracle, log: seq<Action>)
    requires AgreeFrom(at, a, b)
    ensures Finish(cfg, at, a, log) == Finish(cfg, at, b, log)
    decreases Rank(at)
  {
    if at.Finished? {
    } else {
      var action := ActionAt(cfg, at);
      CallHasRank(cfg, at);
      NextDescends(cfg, at, a(action));
      FinishAgrees(cfg, Next(cfg, at, a(action)), a, b, log + [action]);
    }
  }

  lemma {:induction false} HeardAgrees(s: System, events: seq<Event>, i: nat, a: Oracle, b: Oracle)
    requires Possible(s, events) && i < |s.runners|
    requires AgreeFrom(s.runners[i].at, a, b) && Heard(s, events, i, a)
    ensures Heard(s, events, i, b)
    decreases |events|
  {
    if events == [] {
    } else {
      var r := s.runners[i];
      if By(events[0], i) {
        CallHasRank(r.cfg, r.at);
        NextDescends(r.cfg, r.at, events[0].reply);
      }
      HeardAgrees(Apply(s, events[0]), events[1..], i, a, b);
    }
  }

  // ---------------------------------------------------------------------
  // Histories are runs
  // ---------------------------------------------------------------------

  /** One reply more, to the first call of `r`. */
  ghost function Answering(r: Runner, reply: Reply, later: Oracle): Oracle
    requires !r.at.Finished?
  {
    (action: Action) => if action == ActionAt(r.cfg, r.at) then reply else later(action)
  }

  lemma AnsweringAgrees(r: Runner, reply: Reply, later: Oracle)
    requires !r.at.Finished?
    ensures AgreeFrom(Next(r.cfg, r.at, reply), later, Answering(r, reply, later))
  {
    CallHasRank(r.cfg, r.at);
    NextDescends(r.cfg, r.at, reply);
  }

  /** The run from `at` that makes its next call, answered by `reply`, and then those of `rest`. */
  lemma OneCallMore(r: Runner, reply: Reply, later: Oracle, rest: seq<Action>, out: Outcome)
    requires !r.at.Finished? && Finish(r.cfg, Next(r.cfg, r.at, reply), later, []) == Run(rest, out)
    ensures Finish(r.cfg, r.at, Answering(r, reply, later), []) == Run([ActionAt(r.cfg, r.at)] + rest, out)
  {
    var replies, action := Answering(r, reply, later), ActionAt(r.cfg, r.at);
    var next := Advance(r.cfg, r.at, replies, []);
    AnsweringAgrees(r, reply, later);
    FinishAgrees(r.cfg, next, later, replies, []);
    LogOnlyGrows(r.cfg, next, replies, [action], []);
    assert [] + [action] == [action] && [action] + [] == [action];
  }

  lemma {:induction false} HistoryFrom(s: System, events: seq<Event>, i: nat) returns (replies: Oracle)
    requires Possible(s, events) && i < |s.runners|
    requires |After(s, events).runners| == |s.runners| && After(s, events).runners[i].at.Finished?
    ensures Heard(s, events, i, replies)
    ensures Finish(s.runners[i].cfg, s.runners[i].at, replies, []) ==
      Run(CallsOf(s, events, i), After(s, events).runners[i].at.out)
    decreases |events|
  {
    if events == [] {
      replies := _ => Answer(true, 0);
    } else {
      var e, t := events[0], Apply(s, events[0]);
      var later := HistoryFrom(t, events[1..], i);
      if By(e, i) {
        var r := s.runners[i];
        replies := Answering(r, e.reply, later);
        AnsweringAgrees(r, e.reply, later);
        HeardAgrees(t, events[1..], i, later, replies);
        OneCallMore(r, e.reply, later, CallsOf(t, events[1..], i), After(s, events).runners[i].at.out);
      } else {
        replies := later;
      }
    }
  }

  lemma {:induction false} RunnersStay(s: System, events: seq<Event>, i: nat)
    requires Possible(s, events) && i < |s.runners|
    ensures |After(s, events).runners| == |s.runners| && After(s, events).runners[i].cfg == s.runners[i].cfg
    decreases |events|
  {
    if events == [] {
    } else {
      RunnersStay(Apply(s, events[0]), events[1..], i);
    }
  }

  /** A runner that has finished has made, among all the others, exactly the calls of a run of its machine. */
  lemma HistoriesAreRuns(s: System, events: seq<Event>, i: nat) returns (replies: Oracle)
    requires Init(s) && Possible(s, events) && i < |s.runners|
    requires i < |After(s, events).runners| && After(s, events).runners[i].at.Finished?
    ensures Heard(s, events, i, replies)
    ensures WholeRun(s.runners[i].cfg, replies) == Run(CallsOf(s, events, i), After(s, events).runners[i].at.out)
  {
    RunnersStay(s, events, i);
    replies := HistoryFrom(s, events, i);
  }

  // ---------------------------------------------------------------------
  // What that gives every interleaving
  // ---------------------------------------------------------------------

  /** Whatever goes on around it, a runner that returned a value has made the planned calls and no others. */
  lemma SuccessIsThePlanAmongOthers(s: System, events: seq<Event>, i: nat)
    requires Init(s) && Possible(s, events) && i < |s.runners|
    requires i < |After(s, events).runners| && After(s, events).runners[i].at.Finished?
    requires After(s, events).runners[i].at.out.Ok?
    ensures CallsOf(s, events, i) == Planned(s.runners[i].cfg)
  {
    var replies := HistoriesAreRuns(s, events, i);
    SuccessIsThePlan(s.runners[i].cfg, replies);
  }

  /**
    And one that failed has made the planned calls up to the first unconfirmed one, and then given back what it had.
   */
  lemma FailureUnwindsAmongOthers(s: System, events: seq<Event>, i: nat) returns (replies: Oracle, k: nat, m: nat)
    requires Init(s) && Possible(s, events) && i < |s.runners| && !Unplannable(s.runners[i].cfg)
    requires i < |After(s, events).runners| && After(s, events).runners[i].at.Finished?
    requires After(s, events).runners[i].at.out.Err?
    ensures var cfg := s.runners[i].cfg;
      var openers := Openers(cfg.layers, cfg.scope, cfg.wait);
      && Heard(s, events, i, replies) && FailsAt(openers, Confirms(replies), k, m)
      && CallsOf(s, events, i) == Unwind(openers[..m], Confirms(replies), Planned(cfg)[..k + 1])
  {
    replies := HistoriesAreRuns(s, events, i);
    k, m := FailureIsAPrefixThenCleanup(s.runners[i].cfg, replies);
  }

  /**
    Among others too, a finished runner has released a grant and returned a client once if it got them, and else
    never.
   */
  lemma GivenBackOnceAmongOthers(s: System, events: seq<Event>, i: nat) returns (replies: Oracle)
    requires Init(s) && Possible(s, events) && i < |s.runners|
    requires i < |After(s, events).runners| && After(s, events).runners[i].at.Finished?
    ensures var calls, cfg := CallsOf(s, events, i), s.runners[i].cfg;
      && Heard(s, events, i, replies)
      && Returns(calls) == (if CheckedOut(replies, calls) then 1 else 0)
      && Releases(calls) == (if Granted(cfg, replies, calls) then 1 else 0)
  {
    replies := HistoriesAreRuns(s, events, i);
    GivenBackExactlyOnce(s.runners[i].cfg, replies);
  }

  /** Among others too, the outcome is the one the calls and their answers blame. */
  lemma BlamedAmongOthers(s: System, events: seq<Event>, i: nat) returns (replies: Oracle)
    requires Init(s) && Possible(s, events) && i < |s.runners| && !Unplannable(s.runners[i].cfg)
    requires i < |After(s, events).runners| && After(s, events).runners[i].at.Finished?
    ensures Heard(s, events, i, replies)
    ensures After(s, events).runners[i].at.out == Blame(s.runners[i].cfg, replies, CallsOf(s, events, i))
  {
    replies := HistoriesAreRuns(s, events, i);
    OutcomeIsBlamed(s.runners[i].cfg, replies);
  }
}
