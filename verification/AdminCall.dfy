/**
  One call that records an administrative action: the statements of its transaction, and where each answer leads.
 */
module AdminCall {

  /** A version 4 UUID, as the number it is. */
  type Id = nat

  datatype Payload = Payload(subject: string, session: string, resource: string, action: string, reason: string)

  datatype AdminAction = AdminAction(idempotencyKey: string, payload: Payload)

  /**
    `InsertRequest` does nothing on a conflict on the idempotency key; `SelectExisting` compares the key and the whole
    payload.
   */
  datatype Statement =
    | Begin | InsertRequest(id: Id, input: AdminAction) | SelectExisting(input: AdminAction)
    | InsertOutbox(id: Id) | Commit | Rollback

  /** `Undecodable` and `Malformed` are rows whose identifier cannot be read. */
  datatype Reply = Refused | Done | NoRow | Found(id: Id) | Undecodable | Malformed

  datatype Outcome = Recorded(id: Id) | IdempotencyConflict | Database | Decode | InvalidOperationId

  // ---------------------------------------------------------------------
  // The call as a machine
  // ---------------------------------------------------------------------

  datatype Control = AtBegin | AtInsert | AtSelect | AtOutbox(id: Id) | AtCommit(id: Id) | AtRollback
    | Returned(out: Outcome)

  function StatementAt(at: Control, own: Id, input: AdminAction): Statement
    requires !at.Returned?
  {
    match at
    case AtBegin => Begin
    case AtInsert => InsertRequest(own, input)
    case AtSelect => SelectExisting(input)
    case AtOutbox(id) => InsertOutbox(id)
    case AtCommit(_) => Commit
    case AtRollback => Rollback
  }

  /**
    Where `reply` leads; a refused statement ends the call and leaves the transaction to be rolled back when it is
    dropped.
   */
  function Next(at: Control, reply: Reply): Control
    requires !at.Returned?
  {
    if reply.Refused? then Returned(Database)
    else match at
      case AtBegin => AtInsert
      case AtInsert =>
        (match reply
         case Found(id) => AtOutbox(id)
         case Undecodable => Returned(Decode)
         case Malformed => Returned(InvalidOperationId)
         case _ => AtSelect)
      case AtSelect =>
        (match reply
         case Found(id) => AtCommit(id)
         case Undecodable => Returned(Decode)
         case Malformed => Returned(InvalidOperationId)
         case _ => AtRollback)
      case AtOutbox(id) => AtCommit(id)
      case AtCommit(id) => Returned(Recorded(id))
      case AtRollback => Returned(IdempotencyConflict)
  }

  function Rank(at: Control): nat {
    match at
    case AtBegin => 5
    case AtInsert => 4
    case AtSelect => 3
    case AtOutbox(_) => 2
    case AtCommit(_) => 1
    case AtRollback => 1
    case Returned(_) => 0
  }

  type Oracle = Statement -> Reply

  datatype Run = Run(log: seq<Statement>, out: Outcome)

  function Finish(at: Control, own: Id, input: AdminAction, replies: Oracle, log: seq<Statement>): Run
    decreases Rank(at)
  {
    if at.Returned? then Run(log, at.out)
    else
      var statement := StatementAt(at, own, input);
      Finish(Next(at, replies(statement)), own, input, replies, log + [statement])
  }

  /** One statement further along a call. */
  lemma Advance(at: Control, own: Id, input: AdminAction, replies: Oracle, log: seq<Statement>)
    requires !at.Returned?
    ensures var statement := StatementAt(at, own, input);
      Finish(at, own, input, replies, log) ==
      Finish(Next(at, replies(statement)), own, input, replies, log + [statement])
  {
  }

  // ---------------------------------------------------------------------
  // The call as it is written
  // ---------------------------------------------------------------------

  /** The database as one call sees it. */
  class Connection {
    const replies: Oracle
    var log: seq<Statement>

    constructor (replies: Oracle)
      ensures this.replies == replies && log == []
    {
      this.replies := replies;
      log := [];
    }

    method Send(statement: Statement) returns (reply: Reply)
      modifies this
      ensures log == old(log) + [statement]
      ensures reply == replies(statement)
    {
      log := log + [statement];
      reply := replies(statement);
    }
  }

  /** Records `input` under its idempotency key; `own` is the identifier drawn for it. */
  method RecordAction(db: Connection, own: Id, input: AdminAction) returns (out: Outcome)
    modifies db
    ensures Run(db.log, out) == Finish(AtBegin, own, input, db.replies, old(db.log))
  {
    var begun := db.Send(Begin);
    if begun.Refused? {
      return Database;
    }
    Advance(AtBegin, own, input, db.replies, old(db.log));
    Advance(AtInsert, own, input, db.replies, db.log);
    var inserted := db.Send(InsertRequest(own, input));
    if inserted.Refused? {
      return Database;
    }
    var id, wasInserted := own, true;
    if inserted.Undecodable? {
      return Decode;
    }
    if inserted.Malformed? {
      return InvalidOperationId;
    }
    if inserted.Found? {
      id := inserted.id;
    } else {
      Advance(AtSelect, own, input, db.replies, db.log);
      var existing := db.Send(SelectExisting(input));
      if existing.Refused? {
        return Database;
      }
      if existing.Undecodable? {
        return Decode;
      }
      if existing.Malformed? {
        return InvalidOperationId;
      }
      if !existing.Found? {
        var rolledBack := db.Send(Rollback);
        if rolledBack.Refused? {
          return Database;
        }
        return IdempotencyConflict;
      }
      id, wasInserted := existing.id, false;
    }
    assert Finish(AtBegin, own, input, db.replies, old(db.log)) ==
      Finish(if wasInserted then AtOutbox(id) else AtCommit(id), own, input, db.replies, db.log);
    if wasInserted {
      var noted := db.Send(InsertOutbox(id));
      if noted.Refused? {
        return Database;
      }
    }
    Advance(AtCommit(id), own, input, db.replies, db.log);
    var committed := db.Send(Commit);
    if committed.Refused? {
      return Database;
    }
    out := Recorded(id);
  }

  // ---------------------------------------------------------------------
  // What an outcome says about the statements
  // ---------------------------------------------------------------------

  /** The statements of a call, with its outcome. */
  function Whole(own: Id, input: AdminAction, replies: Oracle): Run {
    Finish(AtBegin, own, input, replies, [])
  }

  lemma FromCommit(own: Id, input: AdminAction, replies: Oracle, log: seq<Statement>, id: Id)
    ensures Finish(AtCommit(id), own, input, replies, log) ==
      Run(log + [Commit], if replies(Commit).Refused? then Database else Recorded(id))
  {
    Advance(AtCommit(id), own, input, replies, log);
  }

  lemma FromOutbox(own: Id, input: AdminAction, replies: Oracle, log: seq<Statement>, id: Id)
    ensures Finish(AtOutbox(id), own, input, replies, log) ==
      if replies(InsertOutbox(id)).Refused? then Run(log + [InsertOutbox(id)], Database)
      else Run(log + [InsertOutbox(id), Commit], if replies(Commit).Refused? then Database else Recorded(id))
  {
    Advance(AtOutbox(id), own, input, replies, log);
    FromCommit(own, input, replies, log + [InsertOutbox(id)], id);
    assert log + [InsertOutbox(id)] + [Commit] == log + [InsertOutbox(id), Commit];
  }

  lemma FromSelect(own: Id, input: AdminAction, replies: Oracle, log: seq<Statement>)
    ensures var select := SelectExisting(input);
      Finish(AtSelect, own, input, replies, log) ==
      match replies(select)
      case Refused => Run(log + [select], Database)
      case Undecodable => Run(log + [select], Decode)
      case Malformed => Run(log + [select], InvalidOperationId)
      case Found(id) => Run(log + [select, Commit], if replies(Commit).Refused? then Database else Recorded(id))
      case _ => Run(log + [select, Rollback], if replies(Rollback).Refused? then Database else IdempotencyConflict)
  {
    var select := SelectExisting(input);
    Advance(AtSelect, own, input, replies, log);
    assert log + [select] + [Commit] == log + [select, Commit];
    assert log + [select] + [Rollback] == log + [select, Rollback];
    if replies(select).Found? {
      FromCommit(own, input, replies, log + [select], replies(select).id);
    } else {
      Advance(AtRollback, own, input, replies, log + [select]);
    }
  }

  lemma FromInsert(own: Id, input: AdminAction, replies: Oracle)
    requires !replies(Begin).Refused?
    ensures var insert := InsertRequest(own, input);
      var log := [Begin, insert];
      Whole(own, input, replies) ==
      match replies(insert)
      case Refused => Run(log, Database)
      case Undecodable => Run(log, Decode)
      case Malformed => Run(log, InvalidOperationId)
      case Found(id) => Finish(AtOutbox(id), own, input, replies, log)
      case _ => Finish(AtSelect, own, input, replies, log)
  {
    Advance(AtBegin, own, input, replies, []);
    Advance(AtInsert, own, input, replies, [Begin]);
    assert [] + [Begin] == [Begin] && [Begin] + [InsertRequest(own, input)] == [Begin, InsertRequest(own, input)];
  }

  /** Every call from its first statement to its last, and what it returns. */
  lemma Transcript(own: Id, input: AdminAction, replies: Oracle)
    ensures var insert, select := InsertRequest(own, input), SelectExisting(input);
      var committed := (id: Id) => if replies(Commit).Refused? then Database else Recorded(id);
      Whole(own, input, replies) ==
      if replies(Begin).Refused? then Run([Begin], Database)
      else match replies(insert)
      case Refused => Run([Begin, insert], Database)
      case Undecodable => Run([Begin, insert], Decode)
      case Malformed => Run([Begin, insert], InvalidOperationId)
      case Found(id) =>
        if replies(InsertOutbox(id)).Refused? then Run([Begin, insert, InsertOutbox(id)], Database)
        else Run([Begin, insert, InsertOutbox(id), Commit], committed(id))
      case _ =>
        match replies(select)
        case Refused => Run([Begin, insert, select], Database)
        case Undecodable => Run([Begin, insert, select], Decode)
        case Malformed => Run([Begin, insert, select], InvalidOperationId)
        case Found(id) => Run([Begin, insert, select, Commit], committed(id))
        case _ => Run([Begin, insert, select, Rollback],
                      if replies(Rollback).Refused? then Database else IdempotencyConflict)
  {
    var log := [Begin, InsertRequest(own, input)];
    if replies(Begin).Refused? {
      Advance(AtBegin, own, input, replies, []);
    } else {
      FromInsert(own, input, replies);
      FromSelect(own, input, replies, log);
      if replies(InsertRequest(own, input)).Found? {
        FromOutbox(own, input, replies, log, replies(InsertRequest(own, input)).id);
      }
    }
  }

  /** A recorded request was inserted and announced, or found as it was asked for, and in both cases committed last. */
  lemma RecordedMeansCommitted(own: Id, input: AdminAction, replies: Oracle, id: Id)
    ensures Whole(own, input, replies).out == Recorded(id) <==>
      (var log := Whole(own, input, replies).log;
       || (&& log == [Begin, InsertRequest(own, input), InsertOutbox(id), Commit]
           && replies(InsertRequest(own, input)) == Found(id) && !replies(Commit).Refused?)
       || (&& log == [Begin, InsertRequest(own, input), SelectExisting(input), Commit]
           && replies(SelectExisting(input)) == Found(id) && !replies(Commit).Refused?))
  {
    Transcript(own, input, replies);
    var log := Whole(own, input, replies).log;
    if |log| == 4 {
      assert log[2] == InsertOutbox(id) || log[2] == SelectExisting(input) ==> log[3] == log[|log| - 1];
    }
  }

  /** A conflict was found by comparing, and everything was rolled back. */
  lemma ConflictMeansRolledBack(own: Id, input: AdminAction, replies: Oracle)
    ensures Whole(own, input, replies).out == IdempotencyConflict <==>
      && Whole(own, input, replies).log == [Begin, InsertRequest(own, input), SelectExisting(input), Rollback]
      && !replies(Rollback).Refused?
  {
    Transcript(own, input, replies);
    var log := Whole(own, input, replies).log;
    assert |log| == 4 ==> log[3] == Commit || log[3] == Rollback;
  }
}
