/**
  The column list of a generated table reads back as its clauses.

  Each clause is closed, piece by piece: type, default, reference, enumeration and check.
  So the commas and line ends the generator puts between clauses are the only places
  where a reader of the list can cut it.
 */
module SqlScript {
  import opened SqlText
  import opened SqlGuard
  import opened SqlDdl
  import opened SqlLiterals
  import opened SqlClosed

  ghost predicate SafeModel(m: Model) {
    Slug(m.product) && forall i :: 0 <= i < |m.entities| ==> SafeEntity(m.entities[i])
  }

  // ---------------------------------------------------------------------
  // Clauses keep to themselves
  // ---------------------------------------------------------------------

  predicate AllClosed(pieces: seq<string>, list: bool) {
    forall i :: 0 <= i < |pieces| ==> Closed(pieces[i], list)
  }

  lemma IdentifierPlain(s: string)
    requires Identifier(s)
    ensures AllPlain(s)
  {
  }

  lemma {:induction false} ColumnOfSafe(fields: seq<Field>, name: string)
    requires forall i :: 0 <= i < |fields| ==> SafeField(fields[i])
    requires exists i :: 0 <= i < |fields| && fields[i].name == name
    ensures Identifier(ColumnOf(fields, name))
    decreases |fields|
  {
    if fields[0].name == name {
    } else {
      var i :| 0 <= i < |fields| && fields[i].name == name;
      assert fields[1..][i - 1].name == name;
      ColumnOfSafe(fields[1..], name);
    }
  }

  lemma {:induction false} EntityNamedSafe(entities: seq<Entity>, name: string)
    requires forall i :: 0 <= i < |entities| ==> SafeEntity(entities[i])
    requires exists i :: 0 <= i < |entities| && entities[i].name == name
    ensures SafeEntity(EntityNamed(entities, name))
    decreases |entities|
  {
    if entities[0].name == name {
    } else {
      var i :| 0 <= i < |entities| && entities[i].name == name;
      assert entities[1..][i - 1].name == name;
      EntityNamedSafe(entities[1..], name);
    }
  }

  lemma {:induction false} LowerPlain(s: string)
    requires AllPlain(Lower(s))
    ensures AllPlain(s)
    decreases |s|
  {
    if s == [] {
    } else {
      assert Lower(s)[1..] == Lower(s[1..]);
      LowerPlain(s[1..]);
      assert Plain(Lower(s)[0]);
    }
  }

  lemma ActionPlain(s: string)
    requires SafeAction(s)
    ensures AllPlain(s)
  {
    if s != [] {
      LowerPlain(s);
    }
  }

  lemma DefaultClosed(f: Field, dialect: Dialect)
    requires SafeField(f) && SqlDefault(f, dialect).Some?
    ensures Closed(SqlDefault(f, dialect).value, false)
  {
    if dialect in f.db.defaultByDialect {
    } else if f.db.default.Some? {
      UuidClosed();
    } else {
      QuotedClosed(JsonText(f.property.default.value), false);
      SqlLiteralClosed(f.property.default.value, false);
    }
  }

  lemma TargetSafe(m: Model, r: Reference)
    requires SafeModel(m)
    requires HasEntity(m, r.entity) && HasField(EntityNamed(m.entities, r.entity), r.field)
    ensures var target := EntityNamed(m.entities, r.entity);
      Identifier(target.table) && Identifier(ColumnOf(target.fields, r.field))
  {
    EntityNamedSafe(m.entities, r.entity);
    ColumnOfSafe(EntityNamed(m.entities, r.entity).fields, r.field);
  }

  lemma NamedCallClosed(before: string, name: string, after: string, argument: string)
    requires AllPlain(before) && Identifier(name) && AllPlain(after) && Identifier(argument)
    ensures Closed(Call(before + name + after, argument), false)
  {
    IdentifierPlain(name);
    IdentifierPlain(argument);
    PlainClosed(argument, true);
    CallClosed(before + name + after, argument, false);
  }

  lemma TargetClosed(m: Model, r: Reference)
    requires SafeModel(m)
    requires HasEntity(m, r.entity) && HasField(EntityNamed(m.entities, r.entity), r.field)
    ensures Closed(TargetPiece(m, r), false)
  {
    var target := EntityNamed(m.entities, r.entity);
    TargetSafe(m, r);
    NamedCallClosed("references ", target.table, " ", ColumnOf(target.fields, r.field));
  }

  lemma ActionPiecesClosed(event: string, action: string)
    requires AllPlain(event) && SafeAction(action)
    ensures AllClosed(ActionPieces(event, action), false)
  {
    ActionPlain(action);
    PlainClosed(event + action, false);
  }

  lemma ReferencePiecesClosed(m: Model, f: Field)
    requires SafeModel(m) && SafeField(f) && Resolves(m, f)
    ensures AllClosed(ReferencePieces(m, f), false)
  {
    if f.db.references.Some? {
      var r := f.db.references.value;
      TargetClosed(m, r);
      ActionPiecesClosed("on update ", r.onUpdate);
      ActionPiecesClosed("on delete ", r.onDelete);
    }
  }

  lemma TypePieceClosed(f: Field, dialect: Dialect)
    requires SafeField(f) && Typed(f, dialect)
    ensures Closed(TypePiece(f, dialect), false)
  {
    IdentifierPlain(f.column);
    TypeOfClosed(f, dialect);
    ClosedAfterPlain("  " + f.column + " ", TypeOf(f, dialect), false);
  }

  lemma FlagPiecesClosed(f: Field)
    ensures AllClosed(NullPieces(f), false) && AllClosed(UniquePieces(f), false)
  {
    PlainClosed("not null", false);
    PlainClosed("unique", false);
  }

  lemma DefaultPiecesClosed(f: Field, dialect: Dialect)
    requires SafeField(f)
    ensures AllClosed(DefaultPieces(f, dialect), false)
  {
    if SqlDefault(f, dialect).Some? {
      DefaultClosed(f, dialect);
      ClosedAfterPlain("default ", SqlDefault(f, dialect).value, false);
    }
  }

  lemma PiecesTogether(a: string, b: seq<string>, c: seq<string>, d: seq<string>, e: seq<string>)
    requires Closed(a, false) && AllClosed(b, false) && AllClosed(c, false) && AllClosed(d, false)
      && AllClosed(e, false)
    ensures AllClosed([a] + b + c + d + e, false)
  {
  }

  lemma JoinedWithSpaces(pieces: seq<string>)
    requires AllClosed(pieces, false)
    ensures Closed(Join(pieces, " "), false)
  {
    Separators();
    JoinClosed(pieces, " ", false);
  }

  lemma ColumnClauseClosed(m: Model, f: Field, dialect: Dialect)
    requires SafeModel(m) && SafeField(f) && Ready(m, f, dialect)
    ensures Closed(ColumnClause(m, f, dialect), false)
  {
    TypePieceClosed(f, dialect);
    FlagPiecesClosed(f);
    DefaultPiecesClosed(f, dialect);
    ReferencePiecesClosed(m, f);
    PiecesTogether(TypePiece(f, dialect), NullPieces(f), DefaultPieces(f, dialect), UniquePieces(f),
      ReferencePieces(m, f));
    JoinedWithSpaces(ColumnPieces(m, f, dialect));
  }

  lemma {:induction false} ColumnsClosed(e: Entity, names: seq<string>)
    requires KnowsFields(e, names) && forall i :: 0 <= i < |e.fields| ==> SafeField(e.fields[i])
    ensures AllClosed(Columns(e, names), true)
    decreases |names|
  {
    if names == [] {
    } else {
      ColumnsClosed(e, names[1..]);
      ColumnOfSafe(e.fields, names[0]);
      IdentifierPlain(ColumnOf(e.fields, names[0]));
      PlainClosed(ColumnOf(e.fields, names[0]), true);
    }
  }

  lemma ColumnListClosed(e: Entity, names: seq<string>)
    requires KnowsFields(e, names) && forall i :: 0 <= i < |e.fields| ==> SafeField(e.fields[i])
    ensures Closed(Join(Columns(e, names), ", "), true)
  {
    ColumnsClosed(e, names);
    Separators();
    JoinClosed(Columns(e, names), ", ", true);
  }

  lemma {:induction false} LiteralsClosed(values: seq<Json>)
    requires forall i :: 0 <= i < |values| ==> SafeJson(values[i])
    ensures AllClosed(Literals(values), true)
    decreases |values|
  {
    if values == [] {
    } else {
      LiteralsClosed(values[1..]);
      SqlLiteralClosed(values[0], true);
    }
  }

  lemma LiteralListClosed(values: seq<Json>)
    requires forall i :: 0 <= i < |values| ==> SafeJson(values[i])
    ensures Closed(Join(Literals(values), ", "), true)
  {
    LiteralsClosed(values);
    Separators();
    JoinClosed(Literals(values), ", ", true);
  }

  lemma MembershipClosed(column: string, list: string)
    requires Identifier(column) && Closed(list, true)
    ensures Closed(Call(column + " in ", list), true)
  {
    IdentifierPlain(column);
    CallClosed(column + " in ", list, true);
  }

  lemma EnumNamePlain(table: string, column: string)
    requires Identifier(table) && Identifier(column)
    ensures AllPlain("  constraint " + table + "_" + column + "_chk check ")
  {
    IdentifierPlain(table);
    IdentifierPlain(column);
  }

  lemma EnumClauseClosed(table: string, f: Field)
    requires Identifier(table) && SafeField(f)
    ensures Closed(EnumClause(table, f), false)
  {
    var list := Join(Literals(f.property.enum), ", ");
    LiteralListClosed(f.property.enum);
    MembershipClosed(f.column, list);
    EnumNamePlain(table, f.column);
    CallClosed("  constraint " + table + "_" + f.column + "_chk check ", Call(f.column + " in ", list), false);
  }

  lemma CheckClauseClosed(c: Check)
    requires Identifier(c.name) && SafeExpression(c.expression)
    ensures Closed(CheckClause(c), false)
  {
    IdentifierPlain(c.name);
    ClosedAsList(c.expression);
    CallClosed("  constraint " + c.name + " check ", c.expression, false);
  }

  lemma {:induction false} ColumnClausesClosed(m: Model, fields: seq<Field>, dialect: Dialect)
    requires SafeModel(m) && Generable(m, fields, dialect)
    requires forall i :: 0 <= i < |fields| ==> SafeField(fields[i])
    ensures AllClosed(ColumnClauses(m, fields, dialect), false)
    decreases |fields|
  {
    if fields == [] {
    } else {
      ColumnClausesClosed(m, fields[..|fields| - 1], dialect);
      ColumnClauseClosed(m, fields[|fields| - 1], dialect);
    }
  }

  lemma {:induction false} EnumClausesClosed(table: string, fields: seq<Field>)
    requires Identifier(table) && forall i :: 0 <= i < |fields| ==> SafeField(fields[i])
    ensures AllClosed(EnumClauses(table, fields), false)
    decreases |fields|
  {
    if fields == [] {
    } else {
      EnumClausesClosed(table, fields[..|fields| - 1]);
      EnumClauseClosed(table, fields[|fields| - 1]);
    }
  }

  lemma {:induction false} CheckClausesClosed(checks: seq<Check>)
    requires forall i :: 0 <= i < |checks| ==> Identifier(checks[i].name) && SafeExpression(checks[i].expression)
    ensures AllClosed(CheckClauses(checks), false)
    decreases |checks|
  {
    if checks == [] {
    } else {
      CheckClausesClosed(checks[..|checks| - 1]);
      CheckClauseClosed(checks[|checks| - 1]);
    }
  }

  lemma KeyClauseClosed(list: string)
    requires Closed(list, true)
    ensures Closed(Call("  primary key ", list), false)
  {
    CallClosed("  primary key ", list, false);
  }

  lemma PrimaryKeyClosed(e: Entity)
    requires SafeEntity(e)
    ensures Closed(PrimaryKeyClause(e), false)
  {
    ColumnListClosed(e, e.primaryKey);
    KeyClauseClosed(Join(Columns(e, e.primaryKey), ", "));
  }

  lemma AllClosedTogether(a: seq<string>, b: string, c: seq<string>, d: seq<string>)
    requires AllClosed(a, false) && Closed(b, false) && AllClosed(c, false) && AllClosed(d, false)
    ensures AllClosed(a + [b] + c + d, false)
  {
  }

  lemma ClausesClosed(m: Model, e: Entity, dialect: Dialect)
    requires SafeModel(m) && SafeEntity(e) && Generable(m, e.fields, dialect)
    ensures Clauses(m, e, dialect) != [] && AllClosed(Clauses(m, e, dialect), false)
  {
    ColumnClausesClosed(m, e.fields, dialect);
    PrimaryKeyClosed(e);
    EnumClausesClosed(e.table, e.fields);
    CheckClausesClosed(e.checks);
    AllClosedTogether(ColumnClauses(m, e.fields, dialect), PrimaryKeyClause(e), EnumClauses(e.table, e.fields),
      CheckClauses(e.checks));
  }

  // ---------------------------------------------------------------------
  // The column list reads back as its clauses
  // ---------------------------------------------------------------------

  /** The clauses as a reader cutting at commas sees them: each but the first starts on a new line. */
  function OnLines(lead: string, clauses: seq<string>): seq<string>
    decreases |clauses|
  {
    if clauses == [] then [] else [lead + clauses[0]] + OnLines("\n", clauses[1..])
  }

  lemma CommaEndsLine(lead: string, clause: string, rest: string)
    ensures lead + (clause + ",\n" + rest) == (lead + clause) + [','] + ("\n" + rest)
  {
    assert ",\n" == [','] + "\n";
  }

  lemma {:induction false} JoinedSplits(lead: string, clauses: seq<string>)
    requires clauses != [] && AllClosed(clauses, false)
    requires AllPlain(lead)
    ensures Split(lead + Join(clauses, ",\n"), ',') == OnLines(lead, clauses)
    decreases |clauses|
  {
    var first := lead + clauses[0];
    ClosedAfterPlain(lead, clauses[0], false);
    FitsUncut(START, first);
    if |clauses| == 1 {
      SplitLast(first, ',');
    } else {
      var rest := Join(clauses[1..], ",\n");
      JoinedSplits("\n", clauses[1..]);
      SplitFirst(first, "\n" + rest, ',');
      CommaEndsLine(lead, clauses[0], rest);
    }
  }

  /**
    For every accepted schema, whatever its defaults, types, checks and enumerations, cutting a table's column
    list at its unquoted top-level commas gives back exactly the clauses the generator joined.
   */
  lemma ColumnListReadsBack(m: Model, e: Entity, dialect: Dialect)
    requires SafeModel(m) && SafeEntity(e) && Generable(m, e.fields, dialect)
    ensures Split(Join(Clauses(m, e, dialect), ",\n"), ',') == OnLines("", Clauses(m, e, dialect))
  {
    ClausesClosed(m, e, dialect);
    JoinedSplits("", Clauses(m, e, dialect));
    assert "" + Join(Clauses(m, e, dialect), ",\n") == Join(Clauses(m, e, dialect), ",\n");
  }
}
