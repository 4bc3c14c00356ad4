/**
  The schema-to-SQL generator: columns, constraints, tables and indexes of a
  normalised schema, put together from fragments that the guards accepted.
 */
module SqlDdl {
  import opened Options
  import opened Decimals
  import opened SqlText
  import opened SqlGuard

  datatype Dialect = Postgres | Sqlite

  /** A JSON value; strings, numbers and structures carry the text JavaScript prints for them. */
  datatype Json = JsonString(s: string, json: string) | JsonBool(b: bool) | JsonNumber(numeral: string) | JsonNull
    | JsonOther(json: string)

  datatype Kind = StringKind | IntegerKind | NumberKind | BooleanKind | ObjectKind | ArrayKind | UnknownKind

  /** Parts of a field's JSON Schema; `maxLength` is 0 when absent. */
  datatype Property = Property(format: string, maxLength: nat, default: Option<Json>, enum: seq<Json>)

  /** Actions are empty when absent. */
  datatype Reference = Reference(entity: string, field: string, onUpdate: string, onDelete: string)

  /** Persistence settings of a field; types are empty when absent. */
  datatype FieldDb = FieldDb(
    postgresType: string, sqliteType: string,
    default: Option<string>, defaultByDialect: map<Dialect, string>,
    unique: bool, references: Option<Reference>)

  datatype Field = Field(name: string, column: string, kind: Kind, nullable: bool, property: Property, db: FieldDb)

  datatype Check = Check(name: string, expression: string)

  /** `condition` is the index's `where`, empty when absent. */
  datatype Index = Index(name: string, fields: seq<string>, unique: bool, condition: string)

  datatype Entity = Entity(
    name: string, table: string, description: string,
    fields: seq<Field>, primaryKey: seq<string>, indexes: seq<Index>, checks: seq<Check>)

  datatype Model = Model(product: string, entities: seq<Entity>)

  // ---------------------------------------------------------------------
  // What normalisation lets through
  // ---------------------------------------------------------------------

  predicate Identifier(s: string) {
    s != [] && ('a' <= s[0] <= 'z' || s[0] == '_')
    && forall i :: 0 <= i < |s| ==> 'a' <= s[i] <= 'z' || '0' <= s[i] <= '9' || s[i] == '_'
  }

  /** JavaScript's `\s`. */
  predicate Space(c: char) {
    '\t' <= c <= '\r' || c == ' ' || c == '\U{a0}' || c == '\U{1680}' || '\U{2000}' <= c <= '\U{200a}'
    || c == '\U{2028}' || c == '\U{2029}' || c == '\U{202f}' || c == '\U{205f}' || c == '\U{3000}' || c == '\U{feff}'
  }

  predicate Spaces(s: string) {
    forall i :: 0 <= i < |s| ==> Space(s[i])
  }

  predicate NameStart(c: char) {
    'a' <= c <= 'z' || 'A' <= c <= 'Z' || c == '_'
  }

  /** Names separated by spaces; only the first may be dotted. */
  predicate TypeNames(s: string) {
    && s != [] && NameStart(s[0]) && !Space(s[|s| - 1])
    && (forall i :: 0 <= i < |s| ==> WordChar(s[i]) || s[i] == '.' || Space(s[i]))
    && (forall i :: 0 < i < |s| && Space(s[i - 1]) ==> NameStart(s[i]) || Space(s[i]))
    && (forall i, j :: 0 <= i < j < |s| && Space(s[i]) ==> s[j] != '.')
  }

  predicate SpacedNumber(s: string) {
    exists i, j :: 0 <= i <= j <= |s| && Spaces(s[..i]) && Digits(s[i..j]) && Spaces(s[j..])
  }

  predicate TypeArguments(s: string) {
    s == [] ||
    (|s| >= 2 && s[0] == '(' && s[|s| - 1] == ')' &&
     var inner := s[1..|s| - 1];
     SpacedNumber(inner) ||
     exists p :: 0 <= p < |inner| && inner[p] == ',' && SpacedNumber(inner[..p]) && SpacedNumber(inner[p + 1..]))
  }

  predicate TypeBrackets(s: string) {
    |s| % 2 == 0 && forall i :: 0 <= i < |s| ==> s[i] == if i % 2 == 0 then '[' else ']'
  }

  /** Names up to `i`, arguments up to `j`, array brackets after that. */
  predicate TypeShape(s: string, i: int, j: int) {
    0 <= i <= j <= |s| && TypeNames(s[..i]) && TypeArguments(s[i..j]) && TypeBrackets(s[j..])
  }

  ghost predicate SafeType(s: string) {
    && SingleLine(s)
    && (exists i, j :: TypeShape(s, i, j))
    && !HasWord(s, TYPE_CLAUSES)
  }

  const ACTIONS: set<string> := {"cascade", "restrict", "set null", "no action"}

  predicate SafeAction(s: string) {
    s == [] || Lower(s) in ACTIONS
  }

  /** Too large for a JavaScript number, like 1e999. */
  predicate Unbounded(s: string) {
    s == "Infinity" || s == "-Infinity"
  }

  /** What JavaScript prints for a number read from a JSON document. */
  predicate Numeral(s: string) {
    Unbounded(s) ||
    (&& s != []
     && (forall i :: 0 <= i < |s| ==> '0' <= s[i] <= '9' || s[i] == '.' || s[i] == 'e' || s[i] == '+' || s[i] == '-')
     && !HasPair(s, '-', '-'))
  }

  predicate SafeJson(v: Json) {
    v.JsonNumber? ==> Numeral(v.numeral)
  }

  ghost predicate SafeField(f: Field) {
    && Identifier(f.column)
    && (f.db.postgresType != [] ==> SafeType(f.db.postgresType))
    && (f.db.sqliteType != [] ==> SafeType(f.db.sqliteType))
    && (f.db.default.Some? ==> SafeExpression(f.db.default.value))
    && (forall d :: d in f.db.defaultByDialect ==> SafeExpression(f.db.defaultByDialect[d]))
    && (f.db.references.Some? ==>
      SafeAction(f.db.references.value.onUpdate) && SafeAction(f.db.references.value.onDelete))
    && (f.property.default.Some? ==> SafeJson(f.property.default.value))
    && (forall i :: 0 <= i < |f.property.enum| ==> SafeJson(f.property.enum[i]))
  }

  predicate HasField(e: Entity, name: string) {
    exists i :: 0 <= i < |e.fields| && e.fields[i].name == name
  }

  predicate KnowsFields(e: Entity, names: seq<string>) {
    forall i :: 0 <= i < |names| ==> HasField(e, names[i])
  }

  ghost predicate SafeEntity(e: Entity) {
    && Identifier(e.table)
    && (forall i :: 0 <= i < |e.fields| ==> SafeField(e.fields[i]))
    && e.primaryKey != [] && KnowsFields(e, e.primaryKey)
    && (forall i :: 0 <= i < |e.checks| ==> Identifier(e.checks[i].name) && SafeExpression(e.checks[i].expression))
    && (forall i :: 0 <= i < |e.indexes| ==>
          var x := e.indexes[i];
          && Identifier(x.name) && (x.condition != [] ==> SafeExpression(x.condition))
          && x.fields != [] && KnowsFields(e, x.fields))
  }

  predicate Slug(s: string) {
    s != [] && s[0] != '-'
    && forall i :: 0 <= i < |s| ==> 'a' <= s[i] <= 'z' || '0' <= s[i] <= '9' || s[i] == '-'
  }

  // ---------------------------------------------------------------------
  // Generation
  // ---------------------------------------------------------------------

  /** Column of a field by name. */
  function ColumnOf(fields: seq<Field>, name: string): string
    requires exists i :: 0 <= i < |fields| && fields[i].name == name
    decreases |fields|
  {
    if fields[0].name == name then fields[0].column else ColumnOf(fields[1..], name)
  }

  /** `name(arguments)` */
  function Call(name: string, arguments: string): string {
    name + "(" + arguments + ")"
  }

  function PostgresType(f: Field): Option<string> {
    if f.db.postgresType != [] then Some(f.db.postgresType)
    else match f.kind
      case StringKind =>
        if f.property.format == "uuid" then Some("uuid")
        else if f.property.format == "date-time" then Some("timestamptz")
        else if f.property.maxLength != 0 && f.property.maxLength <= 10_000_000 then
          Some(Call("varchar", Decimal(f.property.maxLength)))
        else Some("text")
      case IntegerKind => Some(if f.property.format == "int32" then "integer" else "bigint")
      case NumberKind => Some("double precision")
      case BooleanKind => Some("boolean")
      case ObjectKind => Some("jsonb")
      case ArrayKind => Some("jsonb")
      case UnknownKind => None
  }

  function SqliteType(f: Field): string {
    if f.db.sqliteType != [] then f.db.sqliteType
    else if f.kind == IntegerKind || f.kind == BooleanKind then "integer"
    else if f.kind == NumberKind then "real"
    else "text"
  }

  /** Every quote doubled. */
  function Escaped(s: string): string
    decreases |s|
  {
    if s == [] then [] else (if s[0] == '\'' then "''" else [s[0]]) + Escaped(s[1..])
  }

  function Quoted(s: string): string {
    "'" + Escaped(s) + "'"
  }

  function SqlLiteral(v: Json): string {
    match v
    case JsonString(s, _) => Quoted(s)
    case JsonBool(b) => if b then "true" else "false"
    case JsonNumber(numeral) => numeral
    case JsonNull => "null"
    case JsonOther(json) => Quoted(json) + "::jsonb"
  }

  /** `lower(hex(randomblob(n)))` */
  function RandomHex(bytes: string): string {
    Call("lower", Call("hex", Call("randomblob", bytes)))
  }

  /** `substr(lower(hex(randomblob(2))), 2)` */
  function HexTail(): string {
    Call("substr", RandomHex("2") + ", 2")
  }

  function RandomMagnitude(): string {
    Call("abs", Call("random", ""))
  }

  /** `substr('89ab', abs(random()) % 4 + 1, 1)` */
  function HexVariant(): string {
    Call("substr", Quoted("89ab") + ", " + RandomMagnitude() + " % 4 + 1, 1")
  }

  function UuidHead(): seq<string> {
    [RandomHex("4"), Quoted("-"), RandomHex("2"), Quoted("-4"), HexTail()]
  }

  function UuidTail(): seq<string> {
    [Quoted("-"), HexVariant(), HexTail(), Quoted("-"), RandomHex("6")]
  }

  /** SQLite has no `gen_random_uuid()`. */
  function SqliteUuid(): string {
    Call("", Join(UuidHead(), " || ") + " || " + Join(UuidTail(), " || "))
  }

  /** `JSON.stringify`. */
  function JsonText(v: Json): string {
    match v
    case JsonString(_, json) => json
    case JsonBool(b) => if b then "true" else "false"
    case JsonNumber(numeral) => if Unbounded(numeral) then "null" else numeral
    case JsonNull => "null"
    case JsonOther(json) => json
  }

  function SqlDefault(f: Field, dialect: Dialect): Option<string> {
    if dialect in f.db.defaultByDialect then Some(f.db.defaultByDialect[dialect])
    else if f.db.default.Some? then
      if dialect == Sqlite && f.db.default.value == "gen_random_uuid()" then Some(SqliteUuid())
      else f.db.default
    else if f.property.default.Some? then
      if dialect == Sqlite && (f.kind == ObjectKind || f.kind == ArrayKind) then
        Some(Quoted(JsonText(f.property.default.value)))
      else Some(SqlLiteral(f.property.default.value))
    else None
  }

  // ---------------------------------------------------------------------
  // Clauses of a table
  // ---------------------------------------------------------------------

  predicate HasEntity(m: Model, name: string) {
    exists i :: 0 <= i < |m.entities| && m.entities[i].name == name
  }

  function EntityNamed(entities: seq<Entity>, name: string): Entity
    requires exists i :: 0 <= i < |entities| && entities[i].name == name
    decreases |entities|
  {
    if entities[0].name == name then entities[0] else EntityNamed(entities[1..], name)
  }

  /** The reference of a field leads to a field of an entity that has a table; otherwise generation breaks off. */
  predicate Resolves(m: Model, f: Field) {
    f.db.references.Some? ==>
      HasEntity(m, f.db.references.value.entity)
      && HasField(EntityNamed(m.entities, f.db.references.value.entity), f.db.references.value.field)
  }

  predicate Typed(f: Field, dialect: Dialect) {
    dialect == Postgres ==> PostgresType(f).Some?
  }

  predicate Ready(m: Model, f: Field, dialect: Dialect) {
    Typed(f, dialect) && Resolves(m, f)
  }

  function TypeOf(f: Field, dialect: Dialect): string
    requires Typed(f, dialect)
  {
    if dialect == Postgres then PostgresType(f).value else SqliteType(f)
  }

  function NullPieces(f: Field): seq<string> {
    if f.nullable then [] else ["not null"]
  }

  function DefaultPieces(f: Field, dialect: Dialect): seq<string> {
    var d := SqlDefault(f, dialect);
    if d.Some? && d.value != [] then ["default " + d.value] else []
  }

  function UniquePieces(f: Field): seq<string> {
    if f.db.unique then ["unique"] else []
  }

  function ActionPieces(event: string, action: string): seq<string> {
    if action != [] then [event + action] else []
  }

  function TargetPiece(m: Model, r: Reference): string
    requires HasEntity(m, r.entity) && HasField(EntityNamed(m.entities, r.entity), r.field)
  {
    var target := EntityNamed(m.entities, r.entity);
    Call("references " + target.table + " ", ColumnOf(target.fields, r.field))
  }

  function ReferencePieces(m: Model, f: Field): seq<string>
    requires Resolves(m, f)
  {
    if f.db.references.None? then []
    else
      var r := f.db.references.value;
      [TargetPiece(m, r)] + ActionPieces("on update ", r.onUpdate) + ActionPieces("on delete ", r.onDelete)
  }

  function TypePiece(f: Field, dialect: Dialect): string
    requires Typed(f, dialect)
  {
    "  " + f.column + " " + TypeOf(f, dialect)
  }

  function ColumnPieces(m: Model, f: Field, dialect: Dialect): seq<string>
    requires Ready(m, f, dialect)
  {
    [TypePiece(f, dialect)] + NullPieces(f) + DefaultPieces(f, dialect) + UniquePieces(f) + ReferencePieces(m, f)
  }

  function ColumnClause(m: Model, f: Field, dialect: Dialect): string
    requires Ready(m, f, dialect)
  {
    Join(ColumnPieces(m, f, dialect), " ")
  }

  /** The clause of one column; `None` is the source's exception for an unsupported kind or an unresolved reference. */
  method SqlColumn(m: Model, f: Field, dialect: Dialect) returns (r: Option<string>)
    ensures r.Some? <==> Ready(m, f, dialect)
    ensures r.Some? ==> r.value == ColumnClause(m, f, dialect)
  {
    if dialect == Postgres && PostgresType(f).None? {
      return None;
    }
    var pieces := [TypePiece(f, dialect)];
    if !f.nullable {
      pieces := pieces + ["not null"];
    }
    assert pieces == [TypePiece(f, dialect)] + NullPieces(f);
    var default := SqlDefault(f, dialect);
    if default.Some? && default.value != [] {
      pieces := pieces + ["default " + default.value];
    }
    assert pieces == [TypePiece(f, dialect)] + NullPieces(f) + DefaultPieces(f, dialect);
    if f.db.unique {
      pieces := pieces + ["unique"];
    }
    assert pieces == [TypePiece(f, dialect)] + NullPieces(f) + DefaultPieces(f, dialect) + UniquePieces(f);
    if f.db.references.Some? {
      var reference := f.db.references.value;
      if !HasEntity(m, reference.entity) || !HasField(EntityNamed(m.entities, reference.entity), reference.field) {
        return None;
      }
      var pointers := [TargetPiece(m, reference)];
      if reference.onUpdate != [] {
        pointers := pointers + ["on update " + reference.onUpdate];
      }
      if reference.onDelete != [] {
        pointers := pointers + ["on delete " + reference.onDelete];
      }
      assert pointers == ReferencePieces(m, f);
      pieces := pieces + pointers;
    }
    assert pieces == ColumnPieces(m, f, dialect);
    r := Some(Join(pieces, " "));
  }

  function Columns(e: Entity, names: seq<string>): seq<string>
    requires KnowsFields(e, names)
    decreases |names|
  {
    if names == [] then [] else [ColumnOf(e.fields, names[0])] + Columns(e, names[1..])
  }

  function PrimaryKeyClause(e: Entity): string
    requires KnowsFields(e, e.primaryKey)
  {
    Call("  primary key ", Join(Columns(e, e.primaryKey), ", "))
  }

  function Literals(values: seq<Json>): seq<string>
    decreases |values|
  {
    if values == [] then [] else [SqlLiteral(values[0])] + Literals(values[1..])
  }

  function EnumClause(table: string, f: Field): string {
    Call("  constraint " + table + "_" + f.column + "_chk check ",
         Call(f.column + " in ", Join(Literals(f.property.enum), ", ")))
  }

  function CheckClause(c: Check): string {
    Call("  constraint " + c.name + " check ", c.expression)
  }

  predicate Generable(m: Model, fields: seq<Field>, dialect: Dialect) {
    forall i :: 0 <= i < |fields| ==> Ready(m, fields[i], dialect)
  }

  function ColumnClauses(m: Model, fields: seq<Field>, dialect: Dialect): seq<string>
    requires Generable(m, fields, dialect)
    decreases |fields|
  {
    if fields == [] then []
    else ColumnClauses(m, fields[..|fields| - 1], dialect) + [ColumnClause(m, fields[|fields| - 1], dialect)]
  }

  function EnumClauses(table: string, fields: seq<Field>): seq<string>
    decreases |fields|
  {
    if fields == [] then []
    else
      var last := fields[|fields| - 1];
      EnumClauses(table, fields[..|fields| - 1]) + (if last.property.enum != [] then [EnumClause(table, last)] else [])
  }

  function CheckClauses(checks: seq<Check>): seq<string>
    decreases |checks|
  {
    if checks == [] then [] else CheckClauses(checks[..|checks| - 1]) + [CheckClause(checks[|checks| - 1])]
  }

  /** The clauses of a table, in the order they are written. */
  function Clauses(m: Model, e: Entity, dialect: Dialect): seq<string>
    requires KnowsFields(e, e.primaryKey) && Generable(m, e.fields, dialect)
  {
    ColumnClauses(m, e.fields, dialect) + [PrimaryKeyClause(e)] + EnumClauses(e.table, e.fields)
    + CheckClauses(e.checks)
  }

  lemma ColumnClausesSnoc(m: Model, fields: seq<Field>, i: nat, dialect: Dialect)
    requires i < |fields| && Generable(m, fields[..i], dialect) && Ready(m, fields[i], dialect)
    ensures Generable(m, fields[..i + 1], dialect)
    ensures ColumnClauses(m, fields[..i + 1], dialect) ==
      ColumnClauses(m, fields[..i], dialect) + [ColumnClause(m, fields[i], dialect)]
  {
    var shorter, longer := fields[..i], fields[..i + 1];
    assert longer[..i] == shorter;
    forall k | 0 <= k < i + 1 ensures Ready(m, longer[k], dialect) {
      assert k < i ==> longer[k] == shorter[k];
    }
  }

  method ColumnTexts(m: Model, fields: seq<Field>, dialect: Dialect) returns (r: Option<seq<string>>)
    ensures r.Some? <==> Generable(m, fields, dialect)
    ensures r.Some? ==> r.value == ColumnClauses(m, fields, dialect)
  {
    var clauses := [];
    for i := 0 to |fields|
      invariant Generable(m, fields[..i], dialect)
      invariant clauses == ColumnClauses(m, fields[..i], dialect)
    {
      var column := SqlColumn(m, fields[i], dialect);
      if column.None? {
        assert !Ready(m, fields[i], dialect);
        return None;
      }
      ColumnClausesSnoc(m, fields, i, dialect);
      clauses := clauses + [column.value];
    }
    assert fields[..|fields|] == fields;
    r := Some(clauses);
  }

  method EnumTexts(table: string, fields: seq<Field>) returns (clauses: seq<string>)
    ensures clauses == EnumClauses(table, fields)
  {
    clauses := [];
    for i := 0 to |fields|
      invariant clauses == EnumClauses(table, fields[..i])
    {
      assert fields[..i + 1][..i] == fields[..i];
      if fields[i].property.enum != [] {
        clauses := clauses + [EnumClause(table, fields[i])];
      }
    }
    assert fields[..|fields|] == fields;
  }

  method CheckTexts(checks: seq<Check>) returns (clauses: seq<string>)
    ensures clauses == CheckClauses(checks)
  {
    clauses := [];
    for i := 0 to |checks|
      invariant clauses == CheckClauses(checks[..i])
    {
      assert checks[..i + 1][..i] == checks[..i];
      clauses := clauses + [CheckClause(checks[i])];
    }
    assert checks[..|checks|] == checks;
  }

  method TableClauses(m: Model, e: Entity, dialect: Dialect) returns (r: Option<seq<string>>)
    requires KnowsFields(e, e.primaryKey)
    ensures r.Some? <==> Generable(m, e.fields, dialect)
    ensures r.Some? ==> r.value == Clauses(m, e, dialect)
  {
    r := ColumnTexts(m, e.fields, dialect);
    if r.None? {
      return;
    }
    var enums := EnumTexts(e.table, e.fields);
    var checks := CheckTexts(e.checks);
    r := Some(r.value + [PrimaryKeyClause(e)] + enums + checks);
  }
}
