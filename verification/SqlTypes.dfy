/**
  The types, defaults and literals the generator chooses, case by case, and the words
  that no type or expression may have.

  These are tables: each says of the generator what the lines it cites say.
 */
module SqlTypes {
  import opened Options
  import opened Decimals
  import opened SqlText
  import opened SqlGuard
  import opened SqlDdl

  /** A declared type is taken as it is; otherwise the kind decides, and for a string its format and its bound. */
  lemma PostgresTypes(f: Field)
    ensures var t, p := PostgresType(f), f.property;
      if f.db.postgresType != [] then t == Some(f.db.postgresType)
      else
        && (f.kind == StringKind && p.format == "uuid" ==> t == Some("uuid"))
        && (f.kind == StringKind && p.format == "date-time" ==> t == Some("timestamptz"))
        && (f.kind == StringKind && p.format !in {"uuid", "date-time"} ==>
              t == Some(if 1 <= p.maxLength <= 10_000_000 then "varchar(" + Decimal(p.maxLength) + ")" else "text"))
        && (f.kind == IntegerKind && p.format == "int32" ==> t == Some("integer"))
        && (f.kind == IntegerKind && p.format != "int32" ==> t == Some("bigint"))
        && (f.kind == NumberKind ==> t == Some("double precision"))
        && (f.kind == BooleanKind ==> t == Some("boolean"))
        && (f.kind == ObjectKind || f.kind == ArrayKind ==> t == Some("jsonb"))
        && (f.kind == UnknownKind <==> t == None)
  {
    var n := Decimal(f.property.maxLength);
    assert "varchar" + "(" + n + ")" == "varchar(" + n + ")";
  }

  lemma SqliteTypes(f: Field)
    ensures var t := SqliteType(f);
      if f.db.sqliteType != [] then t == f.db.sqliteType
      else
        && (f.kind in {IntegerKind, BooleanKind} ==> t == "integer")
        && (f.kind == NumberKind ==> t == "real")
        && (f.kind in {StringKind, ObjectKind, ArrayKind, UnknownKind} ==> t == "text")
  {
  }

  /** A clause keyword between spaces never passes as part of a type, in whatever case. */
  lemma ClauseKeywordRefused(before: string, word: string, after: string)
    requires word != [] && WordChar(word[0]) && WordChar(word[|word| - 1])
    requires Lower(word) in {
      "check", "collate", "constraint", "default", "generated", "not", "null", "primary", "references", "unique"}
    ensures !SafeType(before + " " + word + " " + after)
  {
    WordBetweenSpaces(before, word, after, TYPE_CLAUSES);
  }

  lemma ActionsAllowed(s: string)
    ensures SafeAction(s) <==> s == "" || Lower(s) in {"cascade", "restrict", "set null", "no action"}
  {
  }

  lemma RandomHexText(bytes: string)
    ensures RandomHex(bytes) == "lower(hex(randomblob(" + bytes + ")))"
  {
    assert Call("randomblob", bytes) == "randomblob(" + bytes + ")";
    assert Call("hex", "randomblob(" + bytes + ")") == "hex(randomblob(" + bytes + "))";
    assert Call("lower", "hex(randomblob(" + bytes + "))") == "lower(hex(randomblob(" + bytes + ")))";
  }

  lemma RandomHexTexts()
    ensures RandomHex("2") == "lower(hex(randomblob(2)))"
    ensures RandomHex("4") == "lower(hex(randomblob(4)))"
    ensures RandomHex("6") == "lower(hex(randomblob(6)))"
  {
    RandomHexText("2");
    RandomHexText("4");
    RandomHexText("6");
  }

  lemma HexTailText()
    ensures HexTail() == "substr(lower(hex(randomblob(2))), 2)"
  {
    RandomHexTexts();
    assert HexTail() == "substr" + "(" + ("lower(hex(randomblob(2)))" + ", 2") + ")";
  }

  lemma {:induction false} EscapedPlain(s: string)
    requires '\'' !in s
    ensures Escaped(s) == s
    decreases |s|
  {
    if s == [] {
    } else {
      EscapedPlain(s[1..]);
      assert s == [s[0]] + s[1..];
    }
  }

  lemma {:induction false} JoinAppend(a: seq<string>, b: seq<string>, between: string)
    requires a != [] && b != []
    ensures Join(a + b, between) == Join(a, between) + between + Join(b, between)
    decreases |a|
  {
    assert (a + b)[1..] == a[1..] + b;
    if |a| == 1 {
      assert a[1..] + b == b;
    } else {
      JoinAppend(a[1..], b, between);
    }
  }

  lemma QuotedText(s: string)
    requires '\'' !in s
    ensures Quoted(s) == "'" + s + "'"
  {
    EscapedPlain(s);
  }

  lemma QuotedTexts()
    ensures Quoted("-") == "'-'" && Quoted("-4") == "'-4'" && Quoted("89ab") == "'89ab'"
  {
    QuotedText("-");
    QuotedText("-4");
    QuotedText("89ab");
  }

  lemma RandomMagnitudeText()
    ensures RandomMagnitude() == "abs(random())"
  {
    assert Call("random", "") == "random()";
  }

  lemma VariantText(quoted: string, magnitude: string)
    requires quoted == "'89ab'" && magnitude == "abs(random())"
    ensures quoted + ", " + magnitude + " % 4 + 1, 1" == "'89ab', abs(random()) % 4 + 1, 1"
  {
  }

  lemma HexVariantText()
    ensures HexVariant() == "substr(" + "'89ab', abs(random()) % 4 + 1, 1" + ")"
  {
    QuotedTexts();
    RandomMagnitudeText();
    VariantText(Quoted("89ab"), RandomMagnitude());
    assert "substr" + "(" == "substr(";
  }

  lemma UuidHeadTerms()
    ensures UuidHead() == [
      "lower(hex(randomblob(4)))", "'-'", "lower(hex(randomblob(2)))", "'-4'", "substr(lower(hex(randomblob(2))), 2)"]
  {
    RandomHexTexts();
    HexTailText();
    QuotedTexts();
  }

  lemma UuidTailTerms()
    ensures UuidTail() == [
      "'-'", "substr(" + "'89ab', abs(random()) % 4 + 1, 1" + ")", "substr(lower(hex(randomblob(2))), 2)", "'-'",
      "lower(hex(randomblob(6)))"]
  {
    RandomHexTexts();
    HexVariantText();
    HexTailText();
    QuotedTexts();
  }

  /** A random UUID of version 4, term by term. */
  const UUID_TERMS: seq<string> := [
    "lower(hex(randomblob(4)))", "'-'", "lower(hex(randomblob(2)))", "'-4'", "substr(lower(hex(randomblob(2))), 2)",
    "'-'", "substr(" + "'89ab', abs(random()) % 4 + 1, 1" + ")", "substr(lower(hex(randomblob(2))), 2)", "'-'",
    "lower(hex(randomblob(6)))"]

  lemma JoinedHalves(head: seq<string>, tail: seq<string>, all: seq<string>)
    requires head != [] && tail != [] && all == head + tail
    ensures Call("", Join(head, " || ") + " || " + Join(tail, " || ")) == "(" + Join(all, " || ") + ")"
  {
    JoinAppend(head, tail, " || ");
  }

  /** What SQLite is given for a random UUID. */
  lemma SqliteUuidTerms(terms: seq<string>)
    requires terms == UUID_TERMS
    ensures SqliteUuid() == "(" + Join(terms, " || ") + ")"
  {
    UuidHeadTerms();
    UuidTailTerms();
    JoinedHalves(UuidHead(), UuidTail(), terms);
  }

  // ---------------------------------------------------------------------
  // Literals and defaults
  // ---------------------------------------------------------------------

  lemma LiteralsByCase(s: string, json: string, b: bool, numeral: string)
    ensures SqlLiteral(JsonBool(true)) == "true" && SqlLiteral(JsonBool(false)) == "false"
    ensures SqlLiteral(JsonNull) == "null" && SqlLiteral(JsonNumber(numeral)) == numeral
    ensures SqlLiteral(JsonOther(json)) == SqlLiteral(JsonString(json, json)) + "::jsonb"
  {
  }

  /** A JSON text has no infinite numbers. */
  lemma JsonTexts(s: string, json: string, numeral: string)
    ensures JsonText(JsonString(s, json)) == json && JsonText(JsonOther(json)) == json
    ensures JsonText(JsonBool(true)) == "true" && JsonText(JsonBool(false)) == "false" && JsonText(JsonNull) == "null"
    ensures JsonText(JsonNumber(numeral)) == if numeral in {"Infinity", "-Infinity"} then "null" else numeral
  {
  }

  /** The dialect's own default comes first, then the persistence default, then the one of the schema. */
  lemma DefaultsByPrecedence(f: Field, dialect: Dialect)
    ensures var d, own, schema := SqlDefault(f, dialect), f.db.default, f.property.default;
      if dialect in f.db.defaultByDialect then d == Some(f.db.defaultByDialect[dialect])
      else
        && (own.Some? && (dialect == Postgres || own.value != "gen_random_uuid()") ==> d == own)
        && (own == Some("gen_random_uuid()") && dialect == Sqlite ==> d == Some(SqliteUuid()))
        && (own == None && schema == None ==> d == None)
        && (own == None && schema.Some? && (dialect == Postgres || f.kind !in {ObjectKind, ArrayKind}) ==>
              d == Some(SqlLiteral(schema.value)))
        && (own == None && schema.Some? && dialect == Sqlite && f.kind in {ObjectKind, ArrayKind} ==>
              d == Some(SqlLiteral(JsonString(JsonText(schema.value), []))))
  {
  }

  /** The first of that name. */
  lemma {:induction false} ColumnFound(fields: seq<Field>, name: string) returns (i: nat)
    requires exists i :: 0 <= i < |fields| && fields[i].name == name
    ensures i < |fields| && fields[i].name == name && ColumnOf(fields, name) == fields[i].column
    ensures forall j :: 0 <= j < i ==> fields[j].name != name
    decreases |fields|
  {
    if fields[0].name == name {
      i := 0;
    } else {
      var k :| 0 <= k < |fields| && fields[k].name == name;
      assert fields[1..][k - 1].name == name;
      i := ColumnFound(fields[1..], name);
      i := i + 1;
    }
  }

  lemma {:induction false} EntityFound(entities: seq<Entity>, name: string) returns (i: nat)
    requires exists i :: 0 <= i < |entities| && entities[i].name == name
    ensures i < |entities| && entities[i].name == name && EntityNamed(entities, name) == entities[i]
    ensures forall j :: 0 <= j < i ==> entities[j].name != name
    decreases |entities|
  {
    if entities[0].name == name {
      i := 0;
    } else {
      var k :| 0 <= k < |entities| && entities[k].name == name;
      assert entities[1..][k - 1].name == name;
      i := EntityFound(entities[1..], name);
      i := i + 1;
    }
  }
}
