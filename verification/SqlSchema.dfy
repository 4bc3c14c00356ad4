/**
  The whole generated script, read back into the schema it was generated from.

  Nothing is used of the script but its text.
 */
module SqlSchema {
  import opened Options
  import opened SqlText
  import opened SqlDdl
  import opened SqlScript
  import opened SqlStatements
  import opened SqlGenerator
  import opened SqlColumns
  import opened SqlFacts
  import opened SqlTables
  import opened Topo

  /** Where the statements of the `k`-th entity start: every entity has a table and its indexes. */
  function StartOf(order: seq<Entity>, k: nat): nat
    requires k <= |order|
  {
    if k == 0 then 0 else StartOf(order, k - 1) + 1 + |order[k - 1].indexes|
  }

  predicate EachIndex(e: Entity, indexes: seq<Index>, texts: seq<string>) {
    |texts| == |indexes| && forall i :: 0 <= i < |indexes| ==>
      KnowsFields(e, indexes[i].fields) && texts[i] == IndexText(e, indexes[i])
  }

  lemma {:induction false} IndexesInOrder(e: Entity, n: nat)
    requires Keyed(e) && n <= |e.indexes|
    ensures EachIndex(e, e.indexes[..n], IndexTexts(e, n))
    decreases n
  {
    if n == 0 {
    } else {
      IndexesInOrder(e, n - 1);
      assert e.indexes[..n] == e.indexes[..n - 1] + [e.indexes[n - 1]];
    }
  }

  // ---------------------------------------------------------------------
  // Where the statements are
  // ---------------------------------------------------------------------

  /** Where the `k`-th group starts. */
  function Offset<T>(groups: seq<seq<T>>, k: nat): nat
    requires k <= |groups|
  {
    if k == 0 then 0 else Offset(groups, k - 1) + |groups[k - 1]|
  }

  lemma {:induction false} OffsetOfFront<T>(groups: seq<seq<T>>, n: nat, k: nat)
    requires k <= n <= |groups|
    ensures Offset(groups[..n], k) == Offset(groups, k)
    decreases k
  {
    if k == 0 {
    } else {
      OffsetOfFront(groups, n, k - 1);
    }
  }

  lemma GroupLast<T>(all: seq<T>, group: seq<T>, start: nat, end: nat)
    requires start == |all| && end == start + |group|
    ensures (all + group)[start..end] == group
  {
  }

  lemma GroupKept<T>(all: seq<T>, group: seq<T>, start: nat, end: nat)
    requires start <= end <= |all|
    ensures (all + group)[start..end] == all[start..end]
  {
  }

  lemma {:induction false} FlattenLength<T>(groups: seq<seq<T>>)
    ensures |Flatten([], groups)| == Offset(groups, |groups|)
    decreases |groups|
  {
    if groups == [] {
    } else {
      var n := |groups| - 1;
      FlattenLength(groups[..n]);
      OffsetOfFront(groups, n, n);
    }
  }

  lemma {:induction false} GroupPlaced<T>(groups: seq<seq<T>>, k: nat)
    requires k < |groups|
    ensures Offset(groups, k + 1) <= |Flatten([], groups)|
    ensures Flatten([], groups)[Offset(groups, k)..Offset(groups, k + 1)] == groups[k]
    decreases |groups|
  {
    var n := |groups| - 1;
    var front := groups[..n];
    FlattenLength(front);
    OffsetOfFront(groups, n, n);
    if k < n {
      GroupPlaced(front, k);
      OffsetOfFront(groups, n, k);
      OffsetOfFront(groups, n, k + 1);
      GroupKept(Flatten([], front), groups[n], Offset(groups, k), Offset(groups, k + 1));
    } else {
      GroupLast(Flatten([], front), groups[n], Offset(groups, n), Offset(groups, n + 1));
    }
  }

  lemma CreatedLength(m: Model, e: Entity, dialect: Dialect)
    requires Keyed(e) && Generable(m, e.fields, dialect)
    ensures |CreateEntity(m, e, dialect)| == 1 + |e.indexes|
  {
    IndexesInOrder(e, |e.indexes|);
  }

  lemma {:induction false} StartIsOffset(order: seq<Entity>, groups: seq<seq<string>>, k: nat)
    requires |groups| == |order| && k <= |order|
    requires forall i :: 0 <= i < |order| ==> |groups[i]| == 1 + |order[i].indexes|
    ensures Offset(groups, k) == StartOf(order, k)
    decreases k
  {
    if k == 0 {
    } else {
      StartIsOffset(order, groups, k - 1);
    }
  }

  lemma GroupsPlaced(order: seq<Entity>, groups: seq<seq<string>>, k: nat)
    requires |groups| == |order| && k < |order|
    requires forall i :: 0 <= i < |order| ==> |groups[i]| == 1 + |order[i].indexes|
    ensures var all := Flatten([], groups);
      && StartOf(order, k) <= StartOf(order, k + 1) <= |all| == StartOf(order, |order|)
      && all[StartOf(order, k)..StartOf(order, k + 1)] == groups[k]
  {
    FlattenLength(groups);
    GroupPlaced(groups, k);
    StartIsOffset(order, groups, k);
    StartIsOffset(order, groups, k + 1);
    StartIsOffset(order, groups, |order|);
  }

  lemma GroupLengths(m: Model, order: seq<Entity>, dialect: Dialect)
    requires AllKeyed(order) && AllGenerable(m, order, dialect)
    ensures var groups := Mapped(CreateOf(m, dialect), order);
      forall i :: 0 <= i < |order| ==>
        groups[i] == CreateOf(m, dialect)(order[i]) && |groups[i]| == 1 + |order[i].indexes|
  {
    forall i | 0 <= i < |order| ensures |CreateOf(m, dialect)(order[i])| == 1 + |order[i].indexes| {
      CreatedLength(m, order[i], dialect);
    }
  }

  lemma StatementsPlaced(m: Model, order: seq<Entity>, k: nat, dialect: Dialect)
    requires AllKeyed(order) && AllGenerable(m, order, dialect) && k < |order|
    ensures var all := CreateStatements(m, order, dialect);
      && StartOf(order, k) <= StartOf(order, k + 1) <= |all| == StartOf(order, |order|)
      && all[StartOf(order, k)..StartOf(order, k + 1)] == CreateEntity(m, order[k], dialect)
  {
    GroupLengths(m, order, dialect);
    GroupsPlaced(order, Mapped(CreateOf(m, dialect), order), k);
  }

  // ---------------------------------------------------------------------
  // What the statements tell
  // ---------------------------------------------------------------------

  predicate TellsColumn(m: Model, f: Field, dialect: Dialect, clause: string) {
    Ready(m, f, dialect)
    && (ReadColumn(clause) == Some(FactsOf(m, f, dialect)) <==> !Misleading(SqlDefault(f, dialect)))
  }

  predicate TellsKey(e: Entity, clause: string) {
    var read := ReadKey(clause);
    read.Some? && KnowsFields(e, e.primaryKey) && ColumnsNamed(e, e.primaryKey, read.value)
  }

  predicate TellsEnumeration(table: string, f: Field, clause: string) {
    var read := ReadConstraint(clause);
    && read.Some? && read.value.name == table + "_" + f.column + "_chk"
    && var member := ReadMembership(read.value.condition);
       member.Some? && member.value.column == f.column && LiteralsOf(f.property.enum, member.value.literals)
  }

  predicate TellsCheck(c: Check, clause: string) {
    ReadConstraint(clause) == Some(Constraint(c.name, c.expression))
  }

  predicate TellsColumns(m: Model, fields: seq<Field>, dialect: Dialect, clauses: seq<string>) {
    |clauses| == |fields| && forall i :: 0 <= i < |fields| ==> TellsColumn(m, fields[i], dialect, clauses[i])
  }

  predicate TellsEnumerations(table: string, fields: seq<Field>, clauses: seq<string>) {
    |clauses| == |fields| && forall i :: 0 <= i < |fields| ==> TellsEnumeration(table, fields[i], clauses[i])
  }

  predicate TellsChecks(checks: seq<Check>, clauses: seq<string>) {
    |clauses| == |checks| && forall i :: 0 <= i < |checks| ==> TellsCheck(checks[i], clauses[i])
  }

  /** The clauses tell every field, the key, every enumeration and every check, and nothing else. */
  predicate TellsClauses(m: Model, e: Entity, dialect: Dialect, clauses: seq<string>) {
    var n, enumerated := |e.fields|, Enumerated(e.fields);
    var checks := n + 1 + |enumerated|;
    && |clauses| == checks + |e.checks|
    && TellsColumns(m, e.fields, dialect, clauses[..n]) && TellsKey(e, clauses[n])
    && TellsEnumerations(e.table, enumerated, clauses[n + 1..checks]) && TellsChecks(e.checks, clauses[checks..])
  }

  predicate TellsTable(m: Model, e: Entity, dialect: Dialect, text: string) {
    var read := ReadTable(text);
    read.Some? && read.value.table == e.table && TellsClauses(m, e, dialect, read.value.clauses)
  }

  predicate TellsIndex(e: Entity, x: Index, text: string) {
    var read := ReadIndex(text);
    && read.Some? && read.value.unique == x.unique && read.value.name == x.name && read.value.table == e.table
    && KnowsFields(e, x.fields) && ColumnsNamed(e, x.fields, read.value.columns)
    && read.value.condition == x.condition
  }

  lemma {:induction false} EnumeratedAreFields(fields: seq<Field>)
    ensures forall f :: f in Enumerated(fields) ==> f in fields && f.property.enum != []
    decreases |fields|
  {
    if fields == [] {
    } else {
      EnumeratedAreFields(fields[1..]);
    }
  }

  lemma ColumnsTell(m: Model, e: Entity, dialect: Dialect, columns: seq<string>)
    requires SafeModel(m) && SafeEntity(e) && EachColumn(m, e.fields, dialect, columns)
    ensures TellsColumns(m, e.fields, dialect, columns)
  {
    forall i | 0 <= i < |e.fields| ensures TellsColumn(m, e.fields[i], dialect, columns[i]) {
      ColumnReadsBack(m, e.fields[i], dialect);
    }
  }

  lemma EnumerationsTell(e: Entity, enumerations: seq<string>)
    requires SafeEntity(e) && EachEnumeration(e.table, Enumerated(e.fields), enumerations)
    ensures TellsEnumerations(e.table, Enumerated(e.fields), enumerations)
  {
    EnumeratedAreFields(e.fields);
    forall i | 0 <= i < |enumerations| ensures TellsEnumeration(e.table, Enumerated(e.fields)[i], enumerations[i]) {
      var f := Enumerated(e.fields)[i];
      assert f in e.fields;
      EnumReadsBack(e.table, f);
    }
  }

  lemma ChecksTell(e: Entity, checks: seq<string>)
    requires SafeEntity(e) && EachCheck(e.checks, checks)
    ensures TellsChecks(e.checks, checks)
  {
    forall i | 0 <= i < |checks| ensures TellsCheck(e.checks[i], checks[i]) {
      CheckReadsBack(e.checks[i]);
    }
  }

  lemma ClausesTell(m: Model, e: Entity, dialect: Dialect)
    requires SafeModel(m) && SafeEntity(e) && Generable(m, e.fields, dialect)
    ensures TellsClauses(m, e, dialect, Clauses(m, e, dialect))
  {
    var columns, enumerations, checks := ClausesInOrder(m, e, dialect);
    ColumnsTell(m, e, dialect, columns);
    KeyReadsBack(e);
    EnumerationsTell(e, enumerations);
    ChecksTell(e, checks);
    FourParts(columns, PrimaryKeyClause(e), enumerations, checks);
  }

  lemma TableTells(m: Model, e: Entity, dialect: Dialect)
    requires SafeModel(m) && SafeEntity(e) && Generable(m, e.fields, dialect)
    ensures TellsTable(m, e, dialect, TableText(m, e, dialect))
  {
    TableReadsBack(m, e, dialect);
    ClausesTell(m, e, dialect);
  }

  /** The statements of an entity, its table first and its indexes in order. */
  predicate TellsEntity(m: Model, e: Entity, dialect: Dialect, texts: seq<string>) {
    && |texts| == 1 + |e.indexes| && TellsTable(m, e, dialect, texts[0])
    && forall i :: 0 <= i < |e.indexes| ==> TellsIndex(e, e.indexes[i], texts[1 + i])
  }

  lemma IndexesTell(e: Entity, texts: seq<string>)
    requires SafeEntity(e) && EachIndex(e, e.indexes, texts)
    ensures forall i :: 0 <= i < |e.indexes| ==> TellsIndex(e, e.indexes[i], texts[i])
  {
    forall i | 0 <= i < |e.indexes| ensures TellsIndex(e, e.indexes[i], texts[i]) {
      IndexReadsBack(e, e.indexes[i]);
    }
  }

  lemma EntityTells(m: Model, e: Entity, dialect: Dialect)
    requires SafeModel(m) && SafeEntity(e) && Keyed(e) && Generable(m, e.fields, dialect)
    ensures TellsEntity(m, e, dialect, CreateEntity(m, e, dialect))
  {
    TableTells(m, e, dialect);
    IndexesInOrder(e, |e.indexes|);
    assert e.indexes[..|e.indexes|] == e.indexes;
    IndexesTell(e, IndexTexts(e, |e.indexes|));
  }

  /**
    The script of an accepted schema tells the whole schema: cut at its semicolons it has, for every entity in
    creation order, a table with its columns, key, enumerations and checks, and then the entity's indexes.
   */
  lemma SchemaReadsBack(m: Model, less: Order, dialect: Dialect, k: nat)
    requires SafeModel(m) && AllKeyed(m.entities) && AllGenerable(m, m.entities, dialect)
    requires k < |CreationOrder(m, less)|
    ensures var order, read := CreationOrder(m, less), ReadStatements(TextOf(WholeScript(m, less, dialect)));
      var start, end := StartOf(order, k), StartOf(order, k + 1);
      && |read| == StartOf(order, |order|) + 1 && read[|read| - 1] == []
      && start <= end < |read| && TellsEntity(m, order[k], dialect, read[start..end])
  {
    var order := CreationOrder(m, less);
    ScriptReadsBack(m, less, dialect);
    OrderKept(m, less, dialect);
    CreationOrderKeeps(m, less);
    assert order[k] in m.entities;
    StatementsPlaced(m, order, k, dialect);
    GroupKept(CreateStatements(m, order, dialect), [[]], StartOf(order, k), StartOf(order, k + 1));
    EntityTells(m, order[k], dialect);
  }

  // ---------------------------------------------------------------------
  // How the script starts
  // ---------------------------------------------------------------------

  lemma {:induction false} FlattenStarts<T>(start: seq<T>, groups: seq<seq<T>>)
    ensures Flatten(start, groups) == start + Flatten([], groups)
    decreases |groups|
  {
    if groups == [] {
    } else {
      FlattenStarts(start, groups[..|groups| - 1]);
    }
  }

  lemma RemarkText(text: string, line: string)
    requires line == "-- " + text
    ensures PartText(Remark(text)) == line + "\n"
  {
    assert "--" + (" " + text) == "-- " + text;
  }

  lemma ThreeParts(a: Part, b: Part, c: Part)
    ensures TextOf([a, b, c]) == PartText(a) + PartText(b) + PartText(c)
  {
    assert [a, b, c] == [a, b] + [c] && [a, b] == [a] + [b];
    TextAppend([a, b], [c]);
    TextAppend([a], [b]);
    TextOfOne(a);
    TextOfOne(b);
    TextOfOne(c);
  }

  lemma HeaderStarts(m: Model, dialect: Dialect, generator: string, product: string, target: string)
    requires generator == "Generated by tools/schema-orm-codegen.mjs." + " DO NOT EDIT."
    requires product == "Product: " + m.product
    requires target == "Dialect: " + if dialect == Postgres then "postgres" else "sqlite"
    ensures TextOf(HeaderParts(m, dialect)) ==
      ("-- " + generator + "\n") + ("-- " + product + "\n") + ("-- " + target + "\n")
  {
    RemarkText(generator, "-- " + generator);
    RemarkText(product, "-- " + product);
    RemarkText(target, "-- " + target);
    ThreeParts(Remark(generator), Remark(product), Remark(target));
  }

  /** The first lines name the generator, the product and the dialect. */
  lemma ScriptStarts(m: Model, less: Order, dialect: Dialect, generator: string, product: string, target: string)
    returns (rest: string)
    requires generator == "Generated by tools/schema-orm-codegen.mjs." + " DO NOT EDIT."
    requires product == "Product: " + m.product
    requires target == "Dialect: " + if dialect == Postgres then "postgres" else "sqlite"
    ensures TextOf(WholeScript(m, less, dialect)) ==
      ("-- " + generator + "\n") + ("-- " + product + "\n") + ("-- " + target + "\n") + rest
  {
    var groups := Mapped(PartsOf(m, dialect), CreationOrder(m, less));
    rest := TextOf(Flatten([], groups));
    FlattenStarts(HeaderParts(m, dialect), groups);
    TextAppend(HeaderParts(m, dialect), Flatten([], groups));
    HeaderStarts(m, dialect, generator, product, target);
  }

  lemma DescriptionText(e: Entity, comment: string)
    requires comment == if e.description == [] then "" else "-- " + OneLine(e.description) + "\n"
    ensures TextOf(DescriptionParts(e)) == "\n" + comment
  {
    TextOfOne(Blank);
    if e.description != [] {
      var line := OneLine(e.description);
      assert DescriptionParts(e) == [Blank] + [Remark(line)];
      TextAppend([Blank], [Remark(line)]);
      TextOfOne(Remark(line));
      RemarkText(line, "-- " + line);
    }
  }

  lemma AroundStatement(before: seq<Part>, text: string, after: seq<Part>)
    ensures TextOf(before + [Statement(text)] + after) == TextOf(before) + (text + ";" + "\n" + TextOf(after))
  {
    TextAppend(before + [Statement(text)], after);
    TextAppend(before, [Statement(text)]);
    TextOfOne(Statement(text));
    Regrouped(TextOf(before), text + ";" + "\n", TextOf(after));
  }

  /** What comes before the statements of an entity: an empty line and, if there is a description, a comment line. */
  lemma EntityStarts(m: Model, e: Entity, dialect: Dialect, comment: string) returns (rest: string)
    requires Keyed(e) && Generable(m, e.fields, dialect)
    requires comment == if e.description == [] then "" else "-- " + OneLine(e.description) + "\n"
    ensures TextOf(EntityParts(m, e, dialect)) == "\n" + comment + (TableText(m, e, dialect) + ";" + "\n" + rest)
  {
    rest := TextOf(IndexSection(e));
    DescriptionText(e, comment);
    AroundStatement(DescriptionParts(e), TableText(m, e, dialect), IndexSection(e));
  }

  predicate AllEnds(s: string) {
    forall i :: 0 <= i < |s| ==> LineEnd(s[i])
  }

  lemma {:induction false} EndsCollapse(ends: string, after: string)
    requires ends != [] && AllEnds(ends) && (after == [] || !LineEnd(after[0]))
    ensures OneLine(ends + after) == " " + OneLine(after)
    decreases |ends|
  {
    var all := ends + after;
    assert all[1..] == ends[1..] + after;
    if |ends| == 1 {
      assert all[1..] == after;
    } else {
      EndsCollapse(ends[1..], after);
    }
  }

  lemma {:induction false} OneLineBefore(before: string, after: string)
    requires OnOneLine(before)
    ensures OneLine(before + after) == before + OneLine(after)
    decreases |before|
  {
    if before == [] {
      assert before + after == after;
    } else {
      assert (before + after)[1..] == before[1..] + after;
      OneLineBefore(before[1..], after);
    }
  }

  /** Each run of line ends in a description becomes one space, and everything else stays. */
  lemma OneLineExactly(before: string, ends: string, after: string)
    requires OnOneLine(before) && ends != [] && AllEnds(ends) && (after == [] || !LineEnd(after[0]))
    ensures OneLine(before) == before
    ensures OneLine(before + (ends + after)) == before + (" " + OneLine(after))
  {
    OneLineBefore(before, []);
    assert before + [] == before;
    OneLineBefore(before, ends + after);
    EndsCollapse(ends, after);
  }
}
