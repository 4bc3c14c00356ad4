/** Any number of calls that record actions, interleaved under READ COMMITTED, with lost replies and late statements. */
module AdminRecorder {
  import opened Options
  import opened AdminCall

  /** A row of `admin_action_requests`. */
  datatype Request = Request(id: Id, action: AdminAction)

  /** What a transaction has written and not yet committed. */
  datatype Transaction = Transaction(open: bool, requests: seq<Request>, events: seq<Id>)

  const NONE := Transaction(false, [], [])

  /** `late` is a statement that was refused and that the database may still carry out. */
  datatype Caller = Caller(own: Id, input: AdminAction, at: Control, tx: Transaction, late: Option<Statement>)

  /** `requests` and `outbox` are what is committed, oldest first. */
  datatype System = System(callers: seq<Caller>, requests: seq<Request>, outbox: seq<Id>)

  /**
    `Answer`: a statement of caller `i` is answered; with `landed`, the database carried it out. A reply may be
    lost, so a refused statement may have landed. `Land`: a statement that was refused, a commit for one, lands
    after its call has returned. `Abort`: the database rolls the transaction of `i` back.
   */
  datatype Event = Answer(i: nat, reply: Reply, landed: bool) | Land(i: nat) | Abort(i: nat)

  function OwnRequest(c: Caller): Request {
    Request(c.own, c.input)
  }

  predicate KeyIn(key: string, requests: seq<Request>) {
    exists k :: 0 <= k < |requests| && requests[k].action.idempotencyKey == key
  }

  predicate IdIn(id: Id, requests: seq<Request>) {
    exists k :: 0 <= k < |requests| && requests[k].id == id
  }

  /** The statement of `c` that the database has still to carry out, if there is one. */
  function Sent(c: Caller): Option<Statement> {
    if c.at.Returned? then c.late else Some(StatementAt(c.at, c.own, c.input))
  }

  predicate CommitSent(c: Caller) {
    Sent(c) == Some(Commit)
  }

  /** The insert of caller `i` has to wait: another open transaction has inserted its key. */
  predicate WaitsFor(s: System, i: nat, j: nat)
    requires i < |s.callers| && j < |s.callers|
  {
    var sent := Sent(s.callers[i]);
    && i != j && s.callers[i].tx.open && sent.Some? && sent.value.InsertRequest?
    && KeyIn(sent.value.input.idempotencyKey, s.callers[j].tx.requests)
  }

  predicate MustWait(s: System, i: nat)
    requires i < |s.callers|
  {
    exists j :: 0 <= j < |s.callers| && WaitsFor(s, i, j)
  }

  /** The answers the database may give to the statement of caller `i`. */
  predicate Answers(s: System, i: nat, reply: Reply)
    requires i < |s.callers| && !s.callers[i].at.Returned?
  {
    var open := s.callers[i].tx.open;
    match Sent(s.callers[i]).value
    case Begin => reply.Done?
    case InsertRequest(id, input) =>
      open
      && if KeyIn(input.idempotencyKey, s.requests) then reply.NoRow?
         else !MustWait(s, i) && (reply == Found(id) || reply.Undecodable? || reply.Malformed?)
    case SelectExisting(input) =>
      open
      && (match reply
          case NoRow => forall k :: 0 <= k < |s.requests| ==> s.requests[k].action != input
          case Done => false
          case Refused => false
          case Found(id) => Request(id, input) in s.requests
          case _ => exists k :: 0 <= k < |s.requests| && s.requests[k].action == input)
    case InsertOutbox(_) => open && reply.Done?
    case Commit => open && reply.Done?
    case Rollback => open && reply.Done?
  }

  /** The database can carry the statement of caller `i` out, whatever becomes of the reply. */
  predicate CanLand(s: System, i: nat)
    requires i < |s.callers|
  {
    var open := s.callers[i].tx.open;
    match Sent(s.callers[i])
    case None => false
    case Some(Begin) => !open
    case Some(InsertRequest(_, _)) => open && !MustWait(s, i)
    case Some(_) => open
  }

  predicate Enabled(s: System, e: Event) {
    && e.i < |s.callers|
    && match e
       case Answer(i, reply, landed) =>
         && !s.callers[i].at.Returned?
         && (if reply.Refused? then landed ==> CanLand(s, i) else landed && Answers(s, i, reply))
       case Land(i) => s.callers[i].at.Returned? && CanLand(s, i)
       case Abort(i) => s.callers[i].tx.open
  }

  /** What a statement does to the transaction it belongs to, over the committed `requests`. */
  function Carried(statement: Statement, tx: Transaction, requests: seq<Request>): Transaction {
    match statement
    case Begin => Transaction(true, [], [])
    case InsertRequest(id, input) =>
      if KeyIn(input.idempotencyKey, requests) then tx else tx.(requests := tx.requests + [Request(id, input)])
    case SelectExisting(_) => tx
    case InsertOutbox(id) => tx.(events := tx.events + [id])
    case Commit => NONE
    case Rollback => NONE
  }

  function Written(s: System, i: nat): Transaction
    requires i < |s.callers|
  {
    var c := s.callers[i];
    if Sent(c).None? then c.tx else Carried(Sent(c).value, c.tx, s.requests)
  }

  /** Caller `e.i` after `e`. */
  function Moved(s: System, e: Event): Caller
    requires Enabled(s, e)
  {
    var c := s.callers[e.i];
    match e
    case Abort(i) => c.(tx := NONE)
    case Land(i) => c.(tx := Written(s, i), late := None)
    case Answer(i, reply, landed) =>
      c.(at := Next(c.at, reply),
         tx := if landed then Written(s, i) else c.tx,
         late := if landed then None else Sent(c))
  }

  /** The transaction of caller `e.i` is committed by `e`. */
  predicate Commits(s: System, e: Event)
    requires Enabled(s, e)
  {
    (e.Land? || (e.Answer? && e.landed)) && CommitSent(s.callers[e.i])
  }

  function Apply(s: System, e: Event): System
    requires Enabled(s, e)
  {
    var c, commits := s.callers[e.i], Commits(s, e);
    System(s.callers[e.i := Moved(s, e)],
           if commits then s.requests + c.tx.requests else s.requests,
           if commits then s.outbox + c.tx.events else s.outbox)
  }

  // ---------------------------------------------------------------------
  // What every step keeps
  // ---------------------------------------------------------------------

  function IdsOf(requests: seq<Request>): seq<Id> {
    seq(|requests|, k requires 0 <= k < |requests| => requests[k].id)
  }

  /** No key and no identifier occurs twice, and the outbox has one event for each request, in the same order. */
  predicate Tidy(requests: seq<Request>, outbox: seq<Id>) {
    && (forall j, k :: 0 <= j < k < |requests| ==>
          requests[j].action.idempotencyKey != requests[k].action.idempotencyKey && requests[j].id != requests[k].id)
    && outbox == IdsOf(requests)
  }

  /** Some committed request has the key of `input` with another payload. */
  predicate Contradicted(input: AdminAction, requests: seq<Request>) {
    exists k :: 0 <= k < |requests| && requests[k].action.idempotencyKey == input.idempotencyKey
      && requests[k].action != input
  }

  predicate Empty(tx: Transaction) {
    tx.requests == [] && tx.events == []
  }

  /** The transaction of `c` has both its request and its event. */
  predicate Full(c: Caller) {
    c.tx.requests == [OwnRequest(c)] && c.tx.events == [c.own]
  }

  /** What the transaction of `c` holds by the time `c` is where it is. */
  predicate Holds(c: Caller) {
    && (c.tx.open || c.tx == NONE)
    && (c.tx.requests == [] || c.tx.requests == [OwnRequest(c)])
    && (c.late.Some? ==> c.at == Returned(Database))
    && match Sent(c)
       case None => true
       case Some(Begin) => c.tx == NONE
       case Some(InsertRequest(id, input)) => id == c.own && input == c.input && Empty(c.tx)
       case Some(SelectExisting(_)) => Empty(c.tx)
       case Some(InsertOutbox(id)) => id == c.own
         && (c.tx.open ==> c.tx.requests == [OwnRequest(c)] && c.tx.events == [])
       case Some(Commit) => c.tx.open ==> if c.at == AtCommit(c.own) then Full(c)
         else if c.at.Returned? then Full(c) || Empty(c.tx) else Empty(c.tx)
       case Some(Rollback) => Empty(c.tx)
  }

  /** What `c` knows is committed. */
  predicate Knows(c: Caller, requests: seq<Request>) {
    match c.at
    case AtSelect => KeyIn(c.input.idempotencyKey, requests)
    case AtCommit(id) => id != c.own ==> Request(id, c.input) in requests
    case AtRollback => Contradicted(c.input, requests)
    case Returned(Recorded(id)) => Request(id, c.input) in requests
    case Returned(IdempotencyConflict) => Contradicted(c.input, requests)
    case _ => true
  }

  /** The request of `c` is not committed before its commit lands, nor ever when the call finds a conflict. */
  predicate NotYet(c: Caller, requests: seq<Request>) {
    && (Sent(c).Some? || c.at == Returned(IdempotencyConflict) || c.tx.requests != [] ==> !IdIn(c.own, requests))
    && (c.tx.requests != [] ==> !KeyIn(c.input.idempotencyKey, requests))
  }

  predicate Fits(c: Caller, requests: seq<Request>) {
    Holds(c) && Knows(c, requests) && NotYet(c, requests)
  }

  predicate Apart(c: Caller, d: Caller) {
    && c.own != d.own
    && (c.tx.requests != [] && d.tx.requests != [] ==> c.input.idempotencyKey != d.input.idempotencyKey)
  }

  predicate AllApart(callers: seq<Caller>) {
    forall i, j :: 0 <= i < j < |callers| ==> Apart(callers[i], callers[j])
  }

  predicate AllFit(callers: seq<Caller>, requests: seq<Request>) {
    forall i :: 0 <= i < |callers| ==> Fits(callers[i], requests)
  }

  predicate Asked(r: Request, callers: seq<Caller>) {
    exists i :: 0 <= i < |callers| && OwnRequest(callers[i]) == r
  }

  /** Every committed request is one some caller asked for. */
  predicate AllAsked(callers: seq<Caller>, requests: seq<Request>) {
    forall k :: 0 <= k < |requests| ==> Asked(requests[k], callers)
  }

  predicate Inv(s: System) {
    Tidy(s.requests, s.outbox) && AllFit(s.callers, s.requests) && AllApart(s.callers)
      && AllAsked(s.callers, s.requests)
  }

  /** Calls about to begin, with pairwise distinct identifiers, on empty tables. */
  predicate Init(s: System) {
    && s.requests == [] && s.outbox == []
    && (forall i :: 0 <= i < |s.callers| ==>
      s.callers[i].at.AtBegin? && s.callers[i].tx == NONE && s.callers[i].late == None)
    && forall i, j :: 0 <= i < j < |s.callers| ==> s.callers[i].own != s.callers[j].own
  }

  lemma Initially(s: System)
    requires Init(s)
    ensures Inv(s)
  {
  }

  lemma KeyStays(key: string, requests: seq<Request>, more: seq<Request>)
    ensures KeyIn(key, requests + more) <==> KeyIn(key, requests) || KeyIn(key, more)
    ensures forall id :: IdIn(id, requests + more) <==> IdIn(id, requests) || IdIn(id, more)
  {
    var all := requests + more;
    assert forall k :: 0 <= k < |more| ==> all[|requests| + k] == more[k];
    assert forall k :: 0 <= k < |requests| ==> all[k] == requests[k];
    forall id ensures IdIn(id, all) <==> IdIn(id, requests) || IdIn(id, more) {
    }
  }

  /** A commit of somebody else leaves a caller as it was. */
  lemma FitsGrows(c: Caller, requests: seq<Request>, more: seq<Request>)
    requires Fits(c, requests)
    requires !IdIn(c.own, more)
    requires c.tx.requests != [] ==> !KeyIn(c.input.idempotencyKey, more)
    ensures Fits(c, requests + more)
  {
    KeyStays(c.input.idempotencyKey, requests, more);
    assert forall k :: 0 <= k < |requests| ==> (requests + more)[k] == requests[k];
    if Contradicted(c.input, requests) {
      var k :| 0 <= k < |requests| && requests[k].action.idempotencyKey == c.input.idempotencyKey
        && requests[k].action != c.input;
      assert (requests + more)[k] == requests[k];
    }
  }

  lemma CommitFits(s: System, e: Event)
    requires Enabled(s, e) && Commits(s, e) && Fits(s.callers[e.i], s.requests)
    ensures Fits(Moved(s, e), s.requests + s.callers[e.i].tx.requests)
  {
    var c := s.callers[e.i];
    if c.tx.requests == [] {
      assert s.requests + c.tx.requests == s.requests;
    } else {
      assert (s.requests + c.tx.requests)[|s.requests|] == OwnRequest(c);
    }
  }

  lemma SelectFindsOther(input: AdminAction, requests: seq<Request>)
    requires KeyIn(input.idempotencyKey, requests) && forall k :: 0 <= k < |requests| ==> requests[k].action != input
    ensures Contradicted(input, requests)
  {
  }

  lemma FoundIsNotOwn(c: Caller, id: Id, requests: seq<Request>)
    requires !IdIn(c.own, requests) && Request(id, c.input) in requests
    ensures id != c.own
  {
    var k :| 0 <= k < |requests| && requests[k] == Request(id, c.input);
    assert requests[k].id == id;
  }

  lemma AnswerFits(s: System, e: Event)
    requires Inv(s) && Enabled(s, e) && e.Answer? && !Commits(s, e)
    ensures Fits(Moved(s, e), s.requests)
  {
    var c := s.callers[e.i];
    assert Fits(c, s.requests);
    if c.at.AtSelect? && e.reply.NoRow? {
      SelectFindsOther(c.input, s.requests);
    }
    if c.at.AtSelect? && e.reply.Found? {
      FoundIsNotOwn(c, e.reply.id, s.requests);
    }
  }

  /** The caller whose statement is answered or lands, or whose transaction is rolled back. */
  lemma OwnStepFits(s: System, e: Event)
    requires Inv(s) && Enabled(s, e)
    ensures Fits(Apply(s, e).callers[e.i], Apply(s, e).requests)
  {
    assert Fits(s.callers[e.i], s.requests);
    if Commits(s, e) {
      CommitFits(s, e);
    } else if e.Answer? {
      AnswerFits(s, e);
    }
  }

  lemma OthersFit(s: System, e: Event, j: nat)
    requires Inv(s) && Enabled(s, e) && j < |s.callers| && j != e.i
    ensures Fits(Apply(s, e).callers[j], Apply(s, e).requests)
  {
    var c, d := s.callers[e.i], s.callers[j];
    assert Fits(d, s.requests) && Fits(c, s.requests);
    if Commits(s, e) {
      assert Apart(c, d) by {
        if e.i < j {
          assert Apart(s.callers[e.i], s.callers[j]);
        } else {
          assert Apart(s.callers[j], s.callers[e.i]);
        }
      }
      FitsGrows(d, s.requests, c.tx.requests);
    }
  }

  lemma ApartSymmetric(c: Caller, d: Caller)
    requires Apart(c, d)
    ensures Apart(d, c)
  {
  }

  /** Nobody inserts a key that another open transaction has inserted. */
  lemma OwnStepApart(s: System, e: Event, j: nat)
    requires Inv(s) && Enabled(s, e) && j < |s.callers| && j != e.i
    ensures Apart(Apply(s, e).callers[e.i], s.callers[j])
  {
    var c, d := s.callers[e.i], s.callers[j];
    assert Fits(c, s.requests) && Fits(d, s.requests);
    assert Apart(c, d) by {
      if e.i < j {
        assert Apart(s.callers[e.i], s.callers[j]);
      } else {
        assert Apart(s.callers[j], s.callers[e.i]);
      }
    }
    if Moved(s, e).tx.requests != [] && c.tx.requests == [] && d.tx.requests != []
      && d.input.idempotencyKey == c.input.idempotencyKey {
      assert d.tx.requests[0] == OwnRequest(d);
      assert WaitsFor(s, e.i, j);
    }
  }

  lemma StepApart(s: System, e: Event)
    requires Inv(s) && Enabled(s, e)
    ensures AllApart(Apply(s, e).callers)
  {
    var after := Apply(s, e).callers;
    forall i, j | 0 <= i < j < |after| ensures Apart(after[i], after[j]) {
      if i == e.i {
        OwnStepApart(s, e, j);
      } else if j == e.i {
        OwnStepApart(s, e, i);
        ApartSymmetric(after[j], after[i]);
      } else {
        assert Apart(s.callers[i], s.callers[j]);
      }
    }
  }

  lemma TidySnoc(requests: seq<Request>, outbox: seq<Id>, r: Request)
    requires Tidy(requests, outbox) && !KeyIn(r.action.idempotencyKey, requests) && !IdIn(r.id, requests)
    ensures Tidy(requests + [r], outbox + [r.id])
  {
    var longer := requests + [r];
    forall j, k | 0 <= j < k < |longer|
      ensures longer[j].action.idempotencyKey != longer[k].action.idempotencyKey && longer[j].id != longer[k].id
    {
      if k == |requests| {
        assert longer[j] == requests[j];
      }
    }
  }

  lemma CommitTidy(c: Caller, requests: seq<Request>, outbox: seq<Id>)
    requires Tidy(requests, outbox) && Fits(c, requests) && CommitSent(c) && c.tx.open
    ensures Tidy(requests + c.tx.requests, outbox + c.tx.events)
  {
    if c.tx.requests != [] {
      TidySnoc(requests, outbox, OwnRequest(c));
    } else {
      assert requests + c.tx.requests == requests && outbox + c.tx.events == outbox;
    }
  }

  lemma StepTidy(s: System, e: Event)
    requires Inv(s) && Enabled(s, e)
    ensures Tidy(Apply(s, e).requests, Apply(s, e).outbox)
  {
    var c := s.callers[e.i];
    assert Fits(c, s.requests);
    if Commits(s, e) {
      CommitTidy(c, s.requests, s.outbox);
    }
  }

  lemma StepAsked(s: System, e: Event)
    requires Inv(s) && Enabled(s, e)
    ensures AllAsked(Apply(s, e).callers, Apply(s, e).requests)
  {
    var c, t := s.callers[e.i], Apply(s, e);
    assert Fits(c, s.requests);
    forall k | 0 <= k < |t.requests| ensures Asked(t.requests[k], t.callers) {
      if k < |s.requests| {
        assert Asked(s.requests[k], s.callers);
        var i :| 0 <= i < |s.callers| && OwnRequest(s.callers[i]) == s.requests[k];
        assert OwnRequest(t.callers[i]) == t.requests[k];
      } else {
        assert OwnRequest(t.callers[e.i]) == t.requests[k];
      }
    }
  }

  lemma StepKeepsInv(s: System, e: Event)
    requires Inv(s) && Enabled(s, e)
    ensures Inv(Apply(s, e))
  {
    var t := Apply(s, e);
    forall j | 0 <= j < |t.callers| ensures Fits(t.callers[j], t.requests) {
      if j == e.i {
        OwnStepFits(s, e);
      } else {
        OthersFit(s, e, j);
      }
    }
    StepApart(s, e);
    StepTidy(s, e);
    StepAsked(s, e);
  }

  // ---------------------------------------------------------------------
  // Whole histories
  // ---------------------------------------------------------------------

  predicate Possible(s: System, events: seq<Event>)
    decreases |events|
  {
    events == [] || (Enabled(s, events[0]) && Possible(Apply(s, events[0]), events[1..]))
  }

  function After(s: System, events: seq<Event>): System
    requires Possible(s, events)
    decreases |events|
  {
    if events == [] then s else After(Apply(s, events[0]), events[1..])
  }

  lemma {:induction false} InvLater(s: System, events: seq<Event>)
    requires Inv(s) && Possible(s, events)
    ensures Inv(After(s, events))
    decreases |events|
  {
    if events == [] {
    } else {
      StepKeepsInv(s, events[0]);
      InvLater(Apply(s, events[0]), events[1..]);
    }
  }

  /** Whatever fails and however the calls interleave: unique keys, unique identifiers, one event per request. */
  lemma Always(s: System, events: seq<Event>)
    requires Init(s) && Possible(s, events)
    ensures Inv(After(s, events))
    ensures Tidy(After(s, events).requests, After(s, events).outbox)
  {
    Initially(s);
    InvLater(s, events);
  }

  /** How often the outbox announces `id`. */
  function Announcements(outbox: seq<Id>, id: Id): nat {
    multiset(outbox)[id]
  }

  lemma {:induction false} AnnouncedOnce(requests: seq<Request>, outbox: seq<Id>, k: nat)
    requires Tidy(requests, outbox) && k < |requests|
    ensures Announcements(outbox, requests[k].id) == 1
  {
    var id := requests[k].id;
    assert outbox == outbox[..k] + [id] + outbox[k + 1..];
    assert id !in outbox[..k] && id !in outbox[k + 1..];
  }

  /** A key stands for one request. */
  lemma OnePerKey(requests: seq<Request>, outbox: seq<Id>, x: Request)
    requires Tidy(requests, outbox) && x in requests
    ensures forall r :: r in requests && r.action.idempotencyKey == x.action.idempotencyKey ==> r == x
  {
    var m :| 0 <= m < |requests| && requests[m] == x;
    forall r | r in requests && r.action.idempotencyKey == x.action.idempotencyKey ensures r == x {
      var n :| 0 <= n < |requests| && requests[n] == r;
    }
  }

  lemma AnnouncementOf(requests: seq<Request>, outbox: seq<Id>, x: Request)
    requires Tidy(requests, outbox) && x in requests
    ensures Announcements(outbox, x.id) == 1
  {
    var m :| 0 <= m < |requests| && requests[m] == x;
    AnnouncedOnce(requests, outbox, m);
  }

  /**
    Two calls with one key that both succeed return the same identifier and asked for the same thing; it is
    committed once, announced once, and no other request has the key.
   */
  lemma SuccessesAgree(s: System, events: seq<Event>, i: nat, j: nat, a: Id, b: Id)
    requires Init(s) && Possible(s, events)
    requires var t := After(s, events);
      i < |t.callers| && j < |t.callers|
      && t.callers[i].at == Returned(Recorded(a)) && t.callers[j].at == Returned(Recorded(b))
      && t.callers[i].input.idempotencyKey == t.callers[j].input.idempotencyKey
    ensures var t := After(s, events);
      && a == b && t.callers[i].input == t.callers[j].input
      && Announcements(t.outbox, a) == 1
      && Request(a, t.callers[i].input) in t.requests
      && forall r :: r in t.requests && r.action.idempotencyKey == t.callers[i].input.idempotencyKey
           ==> r == Request(a, t.callers[i].input)
  {
    Always(s, events);
    var t := After(s, events);
    assert Fits(t.callers[i], t.requests) && Fits(t.callers[j], t.requests);
    var x, y := Request(a, t.callers[i].input), Request(b, t.callers[j].input);
    OnePerKey(t.requests, t.outbox, x);
    assert x == y;
    AnnouncementOf(t.requests, t.outbox, x);
  }

  lemma NotAmong(requests: seq<Request>, outbox: seq<Id>, id: Id)
    requires Tidy(requests, outbox) && !IdIn(id, requests)
    ensures (forall r :: r in requests ==> r.id != id) && Announcements(outbox, id) == 0
  {
    forall r | r in requests ensures r.id != id {
      var m :| 0 <= m < |requests| && requests[m] == r;
      assert requests[m].id == r.id;
    }
    assert id !in outbox;
  }

  lemma ContradictedIsAbsent(requests: seq<Request>, outbox: seq<Id>, input: AdminAction)
    requires Tidy(requests, outbox) && Contradicted(input, requests)
    ensures forall r :: r in requests ==> r.action != input
  {
    var k :| 0 <= k < |requests| && requests[k].action.idempotencyKey == input.idempotencyKey
      && requests[k].action != input;
    OnePerKey(requests, outbox, requests[k]);
  }

  /** A conflict means the key is taken by another payload, and the call has left nothing behind. */
  lemma ConflictLeavesNothing(s: System, events: seq<Event>, i: nat)
    requires Init(s) && Possible(s, events)
    requires i < |After(s, events).callers| && After(s, events).callers[i].at == Returned(IdempotencyConflict)
    ensures var t := After(s, events);
      && Contradicted(t.callers[i].input, t.requests)
      && (forall r :: r in t.requests ==> r.id != t.callers[i].own && r.action != t.callers[i].input)
      && Announcements(t.outbox, t.callers[i].own) == 0
  {
    Always(s, events);
    var t := After(s, events);
    var c := t.callers[i];
    assert Fits(c, t.requests);
    NotAmong(t.requests, t.outbox, c.own);
    ContradictedIsAbsent(t.requests, t.outbox, c.input);
  }

  // ---------------------------------------------------------------------
  // The tables only grow, one request at a time
  // ---------------------------------------------------------------------

  /** The one thing a step can do to the tables: record the request of its caller under a key that was free. */
  ghost predicate Records(s: System, t: System, i: nat)
    requires i < |s.callers|
  {
    && !KeyIn(s.callers[i].input.idempotencyKey, s.requests)
    && t.requests == s.requests + [OwnRequest(s.callers[i])]
    && t.outbox == s.outbox + [s.callers[i].own]
  }

  /** Seen from the tables, a step is either nothing or an atomic recording, and that only when caller `i` commits. */
  lemma StepRefinesAtomicRecording(s: System, e: Event)
    requires Inv(s) && Enabled(s, e)
    ensures var t := Apply(s, e);
      (t.requests == s.requests && t.outbox == s.outbox)
      || (CommitSent(s.callers[e.i]) && Records(s, t, e.i))
  {
    var c := s.callers[e.i];
    assert Fits(c, s.requests);
  }

  /** What is committed stays committed. */
  lemma {:induction false} RecordsStay(s: System, events: seq<Event>)
    requires Possible(s, events)
    ensures s.requests <= After(s, events).requests && s.outbox <= After(s, events).outbox
    decreases |events|
  {
    if events == [] {
    } else {
      RecordsStay(Apply(s, events[0]), events[1..]);
    }
  }

  /**
    A call that ended with a database error may or may not have recorded its request; any later call with the
    same key that succeeds settles it, returning the identifier that was recorded, and the request is never doubled.
   */
  lemma RetrySettles(s: System, events: seq<Event>, i: nat, j: nat, b: Id)
    requires Init(s) && Possible(s, events)
    requires var t := After(s, events);
      i < |t.callers| && j < |t.callers|
      && t.callers[i].at == Returned(Database) && t.callers[j].at == Returned(Recorded(b))
      && t.callers[i].input == t.callers[j].input
    ensures var t := After(s, events);
      && (OwnRequest(t.callers[i]) in t.requests <==> b == t.callers[i].own)
      && Announcements(t.outbox, b) == 1
  {
    Always(s, events);
    var t := After(s, events);
    var c := t.callers[i];
    assert Fits(t.callers[j], t.requests);
    var n :| 0 <= n < |t.requests| && t.requests[n] == Request(b, c.input);
    AnnouncedOnce(t.requests, t.outbox, n);
    if OwnRequest(c) in t.requests {
      var m :| 0 <= m < |t.requests| && t.requests[m] == OwnRequest(c);
      assert m == n;
    }
  }

  // ---------------------------------------------------------------------
  // Nobody waits in a circle
  // ---------------------------------------------------------------------

  /** The statement of caller `i` can be answered otherwise than by refusing it. */
  ghost predicate CanProceed(s: System, i: nat)
    requires i < |s.callers| && !s.callers[i].at.Returned?
  {
    exists reply :: Answers(s, i, reply)
  }

  /** What a caller waits for is a transaction that itself waits for nothing. */
  lemma NoCircularWait(s: System, i: nat, j: nat)
    requires Inv(s) && i < |s.callers| && j < |s.callers| && WaitsFor(s, i, j)
    ensures s.callers[j].tx.open && !MustWait(s, j)
  {
    assert Fits(s.callers[j], s.requests);
  }

  lemma Proceeds(s: System, i: nat)
    requires Inv(s) && i < |s.callers| && !s.callers[i].at.Returned?
    requires s.callers[i].at.AtBegin? || s.callers[i].tx.open
    requires !MustWait(s, i) || KeyIn(s.callers[i].input.idempotencyKey, s.requests)
    ensures CanProceed(s, i)
  {
    var c := s.callers[i];
    assert Fits(c, s.requests);
    if c.at.AtInsert? {
      assert Answers(s, i, if KeyIn(c.input.idempotencyKey, s.requests) then NoRow else Found(c.own));
    } else if !c.at.AtSelect? {
      assert Answers(s, i, Done);
    } else if k :| 0 <= k < |s.requests| && s.requests[k].action == c.input {
      assert Answers(s, i, Found(s.requests[k].id));
    } else {
      assert Answers(s, i, NoRow);
    }
  }

  /** As long as its transaction stands, a caller can go on, or waits for one that can go on or is being dropped. */
  lemma SomebodyProceeds(s: System, i: nat)
    requires Inv(s) && i < |s.callers| && !s.callers[i].at.Returned?
    requires s.callers[i].at.AtBegin? || s.callers[i].tx.open
    ensures CanProceed(s, i) ||
      exists j :: 0 <= j < |s.callers| && WaitsFor(s, i, j)
        && (s.callers[j].at.Returned? || CanProceed(s, j))
  {
    if i < |s.callers| && MustWait(s, i) && !KeyIn(s.callers[i].input.idempotencyKey, s.requests) {
      var j :| 0 <= j < |s.callers| && WaitsFor(s, i, j);
      NoCircularWait(s, i, j);
      if !s.callers[j].at.Returned? {
        Proceeds(s, j);
      }
    } else {
      Proceeds(s, i);
    }
  }
}
