/**
  What a table and its keys, checks, enumerations and indexes say, read from their text.

  Fixed words are compared as they stand; names, lists and conditions are what is
  between them.
 */
module SqlTables {
  import opened Options
  import opened SqlText
  import opened SqlReader
  import opened SqlColumns
  import opened SqlGuard
  import opened SqlDdl
  import opened SqlLiterals
  import opened SqlClosed
  import opened SqlScript
  import opened SqlStatements
  import opened SqlFacts

  // ---------------------------------------------------------------------
  // Lists
  // ---------------------------------------------------------------------

  function Dropped(n: nat, pieces: seq<string>): seq<string>
    decreases |pieces|
  {
    if pieces == [] then [] else [if |pieces[0]| >= n then pieces[0][n..] else []] + Dropped(n, pieces[1..])
  }

  /** The items of a list cut at its top-level commas, all but the first after `n` characters of space. */
  function Items(list: string, n: nat): seq<string> {
    var pieces := Split(list, ',');
    if pieces == [] then [] else [pieces[0]] + Dropped(n, pieces[1..])
  }

  function Spread(space: string, pieces: seq<string>): seq<string>
    decreases |pieces|
  {
    if pieces == [] then [] else [space + pieces[0]] + Spread(space, pieces[1..])
  }

  lemma {:induction false} DroppedSpread(space: string, pieces: seq<string>)
    ensures Dropped(|space|, Spread(space, pieces)) == pieces
    decreases |pieces|
  {
    if pieces == [] {
    } else {
      DroppedSpread(space, pieces[1..]);
      assert (space + pieces[0])[|space|..] == pieces[0];
    }
  }

  lemma {:induction false} ListSplits(lead: string, pieces: seq<string>, space: string)
    requires pieces != [] && AllClosed(pieces, false) && AllPlain(lead) && AllPlain(space)
    ensures Split(lead + Join(pieces, "," + space), ',') == [lead + pieces[0]] + Spread(space, pieces[1..])
    decreases |pieces|
  {
    var first := lead + pieces[0];
    ClosedAfterPlain(lead, pieces[0], false);
    FitsUncut(START, first);
    if |pieces| == 1 {
      SplitLast(first, ',');
    } else {
      var rest := Join(pieces[1..], "," + space);
      ListSplits(space, pieces[1..], space);
      SplitFirst(first, space + rest, ',');
      assert lead + (pieces[0] + ("," + space) + rest) == first + [','] + (space + rest);
    }
  }

  lemma ItemsOfCut(list: string, n: nat, first: string, rest: seq<string>, spread: seq<string>)
    requires Split(list, ',') == [first] + spread && Dropped(n, spread) == rest
    ensures Items(list, n) == [first] + rest
  {
    assert ([first] + spread)[1..] == spread;
  }

  lemma NothingBefore(s: string)
    ensures [] + s == s
  {
  }

  lemma ListCut(pieces: seq<string>, space: string)
    requires pieces != [] && AllClosed(pieces, false) && AllPlain(space)
    ensures Split(Join(pieces, "," + space), ',') == [pieces[0]] + Spread(space, pieces[1..])
  {
    ListSplits([], pieces, space);
    NothingBefore(Join(pieces, "," + space));
    NothingBefore(pieces[0]);
  }

  lemma ListReadsBack(pieces: seq<string>, space: string)
    requires pieces != [] && AllClosed(pieces, false) && AllPlain(space)
    ensures Items(Join(pieces, "," + space), |space|) == pieces
  {
    ListCut(pieces, space);
    DroppedSpread(space, pieces[1..]);
    ItemsOfCut(Join(pieces, "," + space), |space|, pieces[0], pieces[1..], Spread(space, pieces[1..]));
    assert pieces == [pieces[0]] + pieces[1..];
  }

  // ---------------------------------------------------------------------
  // Tables
  // ---------------------------------------------------------------------

  /** What follows a fixed beginning. */
  function After(head: string, text: string): Option<string> {
    if |head| <= |text| && text[..|head|] == head then Some(text[|head|..]) else None
  }

  lemma AfterHead(head: string, rest: string)
    ensures After(head, head + rest) == Some(rest)
  {
  }

  /** No text has both beginnings. */
  lemma AfterOther(head: string, other: string, rest: string, i: nat)
    requires i < |head| && i < |other| && head[i] != other[i]
    ensures After(other, head + rest) == None
  {
    var text := head + rest;
    if |other| <= |text| {
      assert text[..|other|][i] == head[i];
    }
  }

  datatype TableFacts = TableFacts(table: string, clauses: seq<string>)

  /** The name of a table and its clauses, each on a line of its own inside the parentheses. */
  function ReadTable(text: string): Option<TableFacts> {
    var rest := After("create table if not exists ", text);
    if rest.None? then None
    else
      var words := Words(rest.value);
      if |words| != 2 then None
      else Some(TableFacts(words[0], Items(Unparenthesised(Unparenthesised(words[1])), 1)))
  }

  lemma UnwrapsTo(before: string, inner: string, after: string)
    requires |before| == 1 && |after| == 1
    ensures Unparenthesised(before + inner + after) == inner
  {
  }

  lemma NamedBlock(name: string, block: string)
    requires Identifier(name) && Closed(block, true)
    ensures Words(name + " " + Parenthesised(block)) == [name, Parenthesised(block)]
  {
    IdentifierWord(name);
    KeywordFirst(name, Parenthesised(block));
    ParensOneWord(block);
  }

  lemma TableWritten(table: string, block: string)
    ensures Call("create table if not exists " + table + " ", block) ==
      "create table if not exists " + (table + " " + Parenthesised(block))
  {
  }

  lemma LinesClosed(clauses: seq<string>)
    requires AllClosed(clauses, false)
    ensures Closed("\n" + Join(clauses, ",\n") + "\n", true)
  {
    var list := Join(clauses, ",\n");
    ClauseLinesClosed(clauses);
    ClosedAfterPlain("\n", list, true);
    ClosedBeforePlain("\n" + list, "\n", true);
  }

  lemma LinesReadBack(clauses: seq<string>, block: string)
    requires clauses != [] && AllClosed(clauses, false)
    requires block == "\n" + Join(clauses, ",\n") + "\n"
    ensures Items(Unparenthesised(Unparenthesised(Parenthesised(block))), 1) == clauses
  {
    UnwrapsTo("(", block, ")");
    UnwrapsTo("\n", Join(clauses, ",\n"), "\n");
    assert "," + "\n" == ",\n";
    ListReadsBack(clauses, "\n");
  }

  /** A table statement says its table's name and its clauses. */
  lemma TableReadsBack(m: Model, e: Entity, dialect: Dialect)
    requires SafeModel(m) && SafeEntity(e) && Generable(m, e.fields, dialect)
    ensures ReadTable(TableText(m, e, dialect)) == Some(TableFacts(e.table, Clauses(m, e, dialect)))
  {
    var clauses := Clauses(m, e, dialect);
    var block := "\n" + Join(clauses, ",\n") + "\n";
    var rest := e.table + " " + Parenthesised(block);
    ClausesClosed(m, e, dialect);
    TableWritten(e.table, block);
    AfterHead("create table if not exists ", rest);
    LinesClosed(clauses);
    NamedBlock(e.table, block);
    LinesReadBack(clauses, block);
  }

  // ---------------------------------------------------------------------
  // Keys, checks and enumerations
  // ---------------------------------------------------------------------

  function ReadKey(clause: string): Option<seq<string>> {
    var rest := After("  primary key ", clause);
    if rest.None? then None else Some(Items(Unparenthesised(rest.value), 1))
  }

  /** The columns of the fields so named, in that order. */
  predicate ColumnsNamed(e: Entity, names: seq<string>, columns: seq<string>)
    requires KnowsFields(e, names)
  {
    |columns| == |names| && forall i :: 0 <= i < |names| ==> columns[i] == ColumnOf(e.fields, names[i])
  }

  lemma {:induction false} ColumnsAreNamed(e: Entity, names: seq<string>)
    requires KnowsFields(e, names)
    ensures ColumnsNamed(e, names, Columns(e, names))
    decreases |names|
  {
    if names == [] {
    } else {
      ColumnsAreNamed(e, names[1..]);
    }
  }

  lemma ColumnsClosedApart(e: Entity, names: seq<string>)
    requires KnowsFields(e, names) && forall i :: 0 <= i < |e.fields| ==> SafeField(e.fields[i])
    ensures AllClosed(Columns(e, names), false)
  {
    ColumnsAreNamed(e, names);
    forall i | 0 <= i < |names| ensures Closed(Columns(e, names)[i], false) {
      ColumnOfSafe(e.fields, names[i]);
      IdentifierPlain(ColumnOf(e.fields, names[i]));
      PlainClosed(ColumnOf(e.fields, names[i]), false);
    }
  }

  lemma SpacedListReadsBack(pieces: seq<string>)
    requires pieces != [] && AllClosed(pieces, false)
    ensures Items(Unparenthesised(Parenthesised(Join(pieces, ", "))), 1) == pieces
  {
    UnwrapsTo("(", Join(pieces, ", "), ")");
    assert "," + " " == ", ";
    ListReadsBack(pieces, " ");
  }

  /** The key clause names the columns of the key, in the order of the key. */
  lemma KeyReadsBack(e: Entity)
    requires SafeEntity(e)
    ensures var read := ReadKey(PrimaryKeyClause(e));
      read.Some? && ColumnsNamed(e, e.primaryKey, read.value)
  {
    var columns := Columns(e, e.primaryKey);
    var list := Parenthesised(Join(columns, ", "));
    ColumnsAreNamed(e, e.primaryKey);
    ColumnsClosedApart(e, e.primaryKey);
    SpacedListReadsBack(columns);
    AfterHead("  primary key ", list);
    assert PrimaryKeyClause(e) == "  primary key " + list;
  }

  datatype Constraint = Constraint(name: string, condition: string)

  function ReadConstraint(clause: string): Option<Constraint> {
    var rest := After("  constraint ", clause);
    if rest.None? then None
    else
      var words := Words(rest.value);
      if |words| != 3 || words[1] != "check" then None
      else Some(Constraint(words[0], Unparenthesised(words[2])))
  }

  lemma ConstraintReads(name: string, condition: string)
    requires ' ' !in name && AllPlain(name) && Closed(condition, true)
    ensures ReadConstraint(Call("  constraint " + name + " check ", condition)) == Some(Constraint(name, condition))
  {
    var check := "check" + " " + Parenthesised(condition);
    ParensOneWord(condition);
    KeywordFirst("check", Parenthesised(condition));
    KeywordFirst(name, check);
    AfterHead("  constraint ", name + " " + check);
    UnwrapsTo("(", condition, ")");
    assert Call("  constraint " + name + " check ", condition) == "  constraint " + (name + " " + check);
  }

  lemma CheckReadsBack(c: Check)
    requires Identifier(c.name) && SafeExpression(c.expression)
    ensures ReadConstraint(CheckClause(c)) == Some(Constraint(c.name, c.expression))
  {
    IdentifierWord(c.name);
    ClosedAsList(c.expression);
    ConstraintReads(c.name, c.expression);
  }

  datatype Membership = Membership(column: string, literals: seq<string>)

  function ReadMembership(condition: string): Option<Membership> {
    var words := Words(condition);
    if |words| != 3 || words[1] != "in" then None
    else Some(Membership(words[0], Items(Unparenthesised(words[2]), 1)))
  }

  predicate LiteralsOf(values: seq<Json>, literals: seq<string>) {
    |literals| == |values| && forall i :: 0 <= i < |values| ==> literals[i] == SqlLiteral(values[i])
  }

  lemma {:induction false} LiteralsInOrder(values: seq<Json>)
    ensures LiteralsOf(values, Literals(values))
    decreases |values|
  {
    if values == [] {
    } else {
      LiteralsInOrder(values[1..]);
    }
  }

  lemma LiteralsClosedApart(values: seq<Json>)
    requires forall i :: 0 <= i < |values| ==> SafeJson(values[i])
    ensures AllClosed(Literals(values), false)
  {
    LiteralsInOrder(values);
    forall i | 0 <= i < |values| ensures Closed(Literals(values)[i], false) {
      SqlLiteralClosed(values[i], false);
    }
  }

  lemma MembershipReads(column: string, literals: seq<string>)
    requires Identifier(column) && literals != [] && AllClosed(literals, false)
    ensures ReadMembership(Call(column + " in ", Join(literals, ", "))) == Some(Membership(column, literals))
  {
    var list := Join(literals, ", ");
    var tail := "in" + " " + Parenthesised(list);
    AllClosedAsList(literals);
    Separators();
    JoinClosed(literals, ", ", true);
    ParensOneWord(list);
    IdentifierWord(column);
    KeywordFirst("in", Parenthesised(list));
    KeywordFirst(column, tail);
    SpacedListReadsBack(literals);
    assert Call(column + " in ", list) == column + " " + tail;
  }

  lemma EnumNamed(table: string, column: string)
    requires Identifier(table) && Identifier(column)
    ensures ' ' !in table + "_" + column + "_chk" && AllPlain(table + "_" + column + "_chk")
  {
    IdentifierWord(table);
    IdentifierWord(column);
  }

  /** An enumeration is a constraint, named after table and column, that the column is one of the values' literals. */
  lemma EnumReadsBack(table: string, f: Field)
    requires Identifier(table) && SafeField(f) && f.property.enum != []
    ensures var read := ReadConstraint(EnumClause(table, f));
      && read.Some? && read.value.name == table + "_" + f.column + "_chk"
      && var member := ReadMembership(read.value.condition);
         member.Some? && member.value.column == f.column && LiteralsOf(f.property.enum, member.value.literals)
  {
    var name := table + "_" + f.column + "_chk";
    var literals := Literals(f.property.enum);
    var condition := Call(f.column + " in ", Join(literals, ", "));
    EnumNamed(table, f.column);
    LiteralsInOrder(f.property.enum);
    LiteralsClosedApart(f.property.enum);
    LiteralListClosed(f.property.enum);
    MembershipClosed(f.column, Join(literals, ", "));
    ConstraintReads(name, condition);
    MembershipReads(f.column, literals);
    assert "  constraint " + table + "_" + f.column + "_chk check " == "  constraint " + name + " check ";
  }

  // ---------------------------------------------------------------------
  // Indexes
  // ---------------------------------------------------------------------

  datatype IndexFacts = IndexFacts(unique: bool, name: string, table: string, columns: seq<string>, condition: string)

  function ReadIndexWords(unique: bool, words: seq<string>): Option<IndexFacts> {
    if |words| < 4 || words[1] != "on" || (|words| > 4 && words[4] != "where") then None
    else Some(IndexFacts(unique, words[0], words[2], Items(Unparenthesised(words[3]), 1),
      if |words| == 4 then [] else Phrase(words[5..])))
  }

  function ReadIndex(text: string): Option<IndexFacts> {
    var unique, other := After("create unique index if not exists ", text), After("create index if not exists ", text);
    if unique.Some? then ReadIndexWords(true, Words(unique.value))
    else if other.Some? then ReadIndexWords(false, Words(other.value))
    else None
  }

  lemma TargetOfIndex(name: string, table: string, list: string)
    requires Identifier(name) && Identifier(table) && Closed(list, true)
    ensures Words(name + " " + ("on" + " " + (table + " " + Parenthesised(list)))) ==
      [name, "on", table, Parenthesised(list)]
  {
    NamedBlock(table, list);
    KeywordFirst("on", table + " " + Parenthesised(list));
    IdentifierWord(name);
    KeywordFirst(name, "on" + " " + (table + " " + Parenthesised(list)));
  }

  /** The part of an index statement before its condition. */
  function IndexTarget(name: string, table: string, list: string): string {
    name + " " + ("on" + " " + (table + " " + Parenthesised(list)))
  }

  lemma TargetClosedToo(name: string, table: string, list: string)
    requires Identifier(name) && Identifier(table) && Closed(list, true)
    ensures Closed(IndexTarget(name, table, list), false)
  {
    var head := name + " on " + table + " ";
    IdentifierPlain(name);
    IdentifierPlain(table);
    CallClosed(head, list, false);
    assert IndexTarget(name, table, list) == Call(head, list);
  }

  function IndexTail(condition: string): string {
    if condition == [] then [] else " " + ("where" + " " + condition)
  }

  lemma ConditionWords(target: string, condition: string)
    requires Closed(target, false)
    ensures Words(target + IndexTail(condition)) ==
      Words(target) + (if condition == [] then [] else ["where"] + Words(condition))
  {
    if condition == [] {
      assert target + [] == target && Words(target) + [] == Words(target);
    } else {
      var tail := "where" + " " + condition;
      KeywordFirst("where", condition);
      WordsApart(target, tail);
      assert target + IndexTail(condition) == target + " " + tail;
    }
  }

  lemma ReadsIndexWords(unique: bool, name: string, table: string, columns: seq<string>, condition: string)
    requires columns != [] && AllClosed(columns, false)
    ensures var words := [name, "on", table, Parenthesised(Join(columns, ", "))]
        + (if condition == [] then [] else ["where"] + Words(condition));
      ReadIndexWords(unique, words) == Some(IndexFacts(unique, name, table, columns, condition))
  {
    SpacedListReadsBack(columns);
    if condition != [] {
      var words := [name, "on", table, Parenthesised(Join(columns, ", "))] + (["where"] + Words(condition));
      PhraseOfWords(condition);
      assert words[5..] == Words(condition) && words[4] == "where";
    }
  }

  lemma IndexWords(unique: bool, name: string, table: string, columns: seq<string>, condition: string)
    requires Identifier(name) && Identifier(table) && columns != [] && AllClosed(columns, false)
    ensures var rest := IndexTarget(name, table, Join(columns, ", ")) + IndexTail(condition);
      ReadIndexWords(unique, Words(rest)) == Some(IndexFacts(unique, name, table, columns, condition))
  {
    var list := Join(columns, ", ");
    AllClosedAsList(columns);
    Separators();
    JoinClosed(columns, ", ", true);
    TargetOfIndex(name, table, list);
    TargetClosedToo(name, table, list);
    ConditionWords(IndexTarget(name, table, list), condition);
    ReadsIndexWords(unique, name, table, columns, condition);
  }

  lemma TargetWritten(kind: string, name: string, table: string, list: string)
    ensures Call(kind + name + " on " + table + " ", list) == kind + IndexTarget(name, table, list)
  {
    var tail := table + " " + Parenthesised(list);
    assert Call(kind + name + " on " + table + " ", list) == kind + name + " on " + tail;
    assert name + " on " + tail == IndexTarget(name, table, list);
    assert kind + name + " on " + tail == kind + (name + " on " + tail);
  }

  lemma TailWritten(condition: string)
    ensures (if condition != [] then " where " + condition else "") == IndexTail(condition)
  {
  }

  lemma IndexWritten(kind: string, name: string, table: string, list: string, condition: string)
    ensures Call(kind + name + " on " + table + " ", list) + (if condition != [] then " where " + condition else "") ==
      kind + (IndexTarget(name, table, list) + IndexTail(condition))
  {
    TargetWritten(kind, name, table, list);
    TailWritten(condition);
    Regrouped(kind, IndexTarget(name, table, list), IndexTail(condition));
  }

  lemma KindsApart(rest: string)
    ensures After("create unique index if not exists ", "create index if not exists " + rest) == None
  {
    assert "create index if not exists "[7] == 'i' && "create unique index if not exists "[7] == 'u';
    AfterOther("create index if not exists ", "create unique index if not exists ", rest, 7);
  }

  lemma KindRead(unique: bool, kind: string, rest: string)
    requires kind == "create " + (if unique then "unique " else "") + "index if not exists "
    ensures ReadIndex(kind + rest) == ReadIndexWords(unique, Words(rest))
  {
    if unique {
      assert kind == "create unique index if not exists ";
      AfterHead("create unique index if not exists ", rest);
    } else {
      assert kind == "create index if not exists ";
      KindsApart(rest);
      AfterHead("create index if not exists ", rest);
    }
  }

  /** An index statement says whether it is unique, its name, its table, its columns in order and its condition. */
  lemma IndexReadsBack(e: Entity, x: Index)
    requires SafeEntity(e) && x in e.indexes
    ensures KnowsFields(e, x.fields)
    ensures var read := ReadIndex(IndexText(e, x));
      && read.Some? && read.value.unique == x.unique && read.value.name == x.name && read.value.table == e.table
      && ColumnsNamed(e, x.fields, read.value.columns) && read.value.condition == x.condition
  {
    var i :| 0 <= i < |e.indexes| && e.indexes[i] == x;
    assert e.indexes[i].fields != [] && Identifier(e.indexes[i].name);
    var columns := Columns(e, x.fields);
    var rest := IndexTarget(x.name, e.table, Join(columns, ", ")) + IndexTail(x.condition);
    ColumnsAreNamed(e, x.fields);
    ColumnsClosedApart(e, x.fields);
    IndexWritten(IndexKind(x), x.name, e.table, Join(columns, ", "), x.condition);
    KindRead(x.unique, IndexKind(x), rest);
    IndexWords(x.unique, x.name, e.table, columns, x.condition);
  }

  // ---------------------------------------------------------------------
  // Which clauses there are
  // ---------------------------------------------------------------------

  /** The fields with an enumeration. */
  function Enumerated(fields: seq<Field>): seq<Field>
    decreases |fields|
  {
    if fields == [] then []
    else (if fields[0].property.enum == [] then [] else [fields[0]]) + Enumerated(fields[1..])
  }

  lemma {:induction false} EnumeratedAppend(a: seq<Field>, b: seq<Field>)
    ensures Enumerated(a + b) == Enumerated(a) + Enumerated(b)
    decreases |a|
  {
    if a == [] {
      assert a + b == b;
    } else {
      assert (a + b)[1..] == a[1..] + b;
      EnumeratedAppend(a[1..], b);
    }
  }

  predicate EachColumn(m: Model, fields: seq<Field>, dialect: Dialect, clauses: seq<string>) {
    && |clauses| == |fields| && Generable(m, fields, dialect)
    && forall i :: 0 <= i < |fields| ==> clauses[i] == ColumnClause(m, fields[i], dialect)
  }

  predicate EachEnumeration(table: string, fields: seq<Field>, clauses: seq<string>) {
    |clauses| == |fields| && forall i :: 0 <= i < |fields| ==> clauses[i] == EnumClause(table, fields[i])
  }

  predicate EachCheck(checks: seq<Check>, clauses: seq<string>) {
    |clauses| == |checks| && forall i :: 0 <= i < |checks| ==> clauses[i] == CheckClause(checks[i])
  }

  lemma OneMoreColumn(m: Model, fields: seq<Field>, n: nat, dialect: Dialect, clauses: seq<string>)
    requires |fields| == n + 1 && EachColumn(m, fields[..n], dialect, clauses) && Ready(m, fields[n], dialect)
    ensures EachColumn(m, fields, dialect, clauses + [ColumnClause(m, fields[n], dialect)])
  {
    var shorter, longer := fields[..n], clauses + [ColumnClause(m, fields[n], dialect)];
    forall i | 0 <= i < |fields|
      ensures Ready(m, fields[i], dialect) && longer[i] == ColumnClause(m, fields[i], dialect) {
      if i < n {
        assert shorter[i] == fields[i] && Ready(m, shorter[i], dialect);
      }
    }
  }

  lemma {:induction false} ColumnsInOrder(m: Model, fields: seq<Field>, dialect: Dialect)
    requires Generable(m, fields, dialect)
    ensures EachColumn(m, fields, dialect, ColumnClauses(m, fields, dialect))
    decreases |fields|
  {
    if fields == [] {
    } else {
      var n := |fields| - 1;
      ColumnsInOrder(m, fields[..n], dialect);
      OneMoreColumn(m, fields, n, dialect, ColumnClauses(m, fields[..n], dialect));
    }
  }

  lemma {:induction false} EnumerationsInOrder(table: string, fields: seq<Field>)
    ensures EachEnumeration(table, Enumerated(fields), EnumClauses(table, fields))
    decreases |fields|
  {
    if fields == [] {
    } else {
      var shorter, last := fields[..|fields| - 1], fields[|fields| - 1];
      EnumerationsInOrder(table, shorter);
      EnumeratedAppend(shorter, [last]);
      assert fields == shorter + [last] && [last][1..] == [];
    }
  }

  lemma {:induction false} ChecksInOrder(checks: seq<Check>)
    ensures EachCheck(checks, CheckClauses(checks))
    decreases |checks|
  {
    if checks == [] {
    } else {
      ChecksInOrder(checks[..|checks| - 1]);
    }
  }

  lemma FourParts(a: seq<string>, b: string, c: seq<string>, d: seq<string>)
    ensures var all, n := a + [b] + c + d, |a| + 1;
      && |all| == n + |c| + |d| && all[..|a|] == a && all[|a|] == b && all[n..n + |c|] == c && all[n + |c|..] == d
  {
  }

  /**
    A column clause for every field, the key, a clause for every enumeration and one for every check, in that order.
   */
  lemma ClausesInOrder(m: Model, e: Entity, dialect: Dialect)
    returns (columns: seq<string>, enumerations: seq<string>, checks: seq<string>)
    requires KnowsFields(e, e.primaryKey) && Generable(m, e.fields, dialect)
    ensures Clauses(m, e, dialect) == columns + [PrimaryKeyClause(e)] + enumerations + checks
    ensures EachColumn(m, e.fields, dialect, columns)
    ensures EachEnumeration(e.table, Enumerated(e.fields), enumerations) && EachCheck(e.checks, checks)
  {
    columns, enumerations := ColumnClauses(m, e.fields, dialect), EnumClauses(e.table, e.fields);
    checks := CheckClauses(e.checks);
    ColumnsInOrder(m, e.fields, dialect);
    EnumerationsInOrder(e.table, e.fields);
    ChecksInOrder(e.checks);
  }
}
