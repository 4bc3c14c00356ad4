/**
  Every fragment the generator writes is closed, so a reader that splits the generated
  column list on its top-level commas gets back the clauses it was made of.

  Types that passed the type pattern and SQLite's identifier expression are treated one
  by one; literals have their own module.
 */
module SqlClosed {
  import opened Decimals
  import opened SqlText
  import opened SqlGuard
  import opened SqlDdl
  import opened SqlLiterals

  // ---------------------------------------------------------------------
  // Types
  // ---------------------------------------------------------------------

  predicate NumberList(s: string) {
    forall i :: 0 <= i < |s| ==> Plain(s[i]) || s[i] == ','
  }

  lemma {:induction false} NumberListReads(s: string)
    requires NumberList(s)
    ensures Fits(START, s, 0, true) && Read(START, s) == START
    decreases |s|
  {
    if s == [] {
    } else {
      NumberListReads(s[1..]);
    }
  }

  lemma SpacedNumberPlain(s: string)
    requires SpacedNumber(s)
    ensures AllPlain(s)
  {
    var i, j :| 0 <= i <= j <= |s| && Spaces(s[..i]) && Digits(s[i..j]) && Spaces(s[j..]);
    forall k | 0 <= k < |s| ensures Plain(s[k]) {
      if k < i {
        assert Space(s[..i][k]);
      } else if k < j {
        assert '0' <= s[i..j][k - i] <= '9';
      } else {
        assert Space(s[j..][k - j]);
      }
    }
  }

  lemma TypeArgumentsClosed(s: string)
    requires TypeArguments(s)
    ensures Closed(s, false) && Detached(s)
  {
    if s != [] {
      var inner := s[1..|s| - 1];
      if SpacedNumber(inner) {
        SpacedNumberPlain(inner);
      } else {
        var p :| 0 <= p < |inner| && inner[p] == ',' && SpacedNumber(inner[..p]) && SpacedNumber(inner[p + 1..]);
        SpacedNumberPlain(inner[..p]);
        SpacedNumberPlain(inner[p + 1..]);
        forall k | 0 <= k < |inner| ensures Plain(inner[k]) || inner[k] == ',' {
          assert k < p ==> inner[k] == inner[..p][k];
          assert k > p ==> inner[k] == inner[p + 1..][k - p - 1];
        }
      }
      NumberListReads(inner);
      ClosedParens(inner);
      assert s == "(" + inner + ")";
    }
  }

  lemma TypeNamesPlain(s: string)
    requires TypeNames(s)
    ensures AllPlain(s)
  {
    forall i | 0 <= i < |s| ensures Plain(s[i]) {
      assert WordChar(s[i]) || s[i] == '.' || Space(s[i]);
    }
  }

  lemma TypeBracketsPlain(s: string)
    requires TypeBrackets(s)
    ensures AllPlain(s) && Detached(s)
  {
  }

  lemma TypePartsClosed(names: string, arguments: string, brackets: string)
    requires TypeNames(names) && TypeArguments(arguments) && TypeBrackets(brackets)
    ensures Closed(names + arguments + brackets, false)
  {
    TypeNamesPlain(names);
    TypeArgumentsClosed(arguments);
    TypeBracketsPlain(brackets);
    ClosedAfterPlain(names, arguments, false);
    ClosedBeforePlain(names + arguments, brackets, false);
  }

  lemma InThree(s: string, i: int, j: int)
    requires 0 <= i <= j <= |s|
    ensures s == s[..i] + s[i..j] + s[j..]
  {
  }

  lemma SafeTypeClosed(s: string)
    requires SafeType(s)
    ensures Closed(s, false)
  {
    var i, j :| TypeShape(s, i, j);
    TypePartsClosed(s[..i], s[i..j], s[j..]);
    InThree(s, i, j);
  }

  lemma CallClosed(name: string, arguments: string, list: bool)
    requires AllPlain(name) && Closed(arguments, true)
    ensures Closed(Call(name, arguments), list)
  {
    ClosedParens(arguments);
    ClosedAsList("(" + arguments + ")");
    ClosedAfterPlain(name, "(" + arguments + ")", list);
    assert Call(name, arguments) == name + ("(" + arguments + ")");
  }

  lemma StringTypeClosed(f: Field)
    requires f.db.postgresType == [] && f.kind.StringKind?
    ensures Closed(PostgresType(f).value, false)
  {
    var n, name := f.property.maxLength, PostgresType(f).value;
    if name == "uuid" || name == "timestamptz" || name == "text" {
      PlainClosed(name, false);
    } else {
      PlainClosed(Decimal(n), true);
      CallClosed("varchar", Decimal(n), false);
    }
  }

  lemma PostgresTypeClosed(f: Field)
    requires f.db.postgresType == [] && PostgresType(f).Some?
    ensures Closed(PostgresType(f).value, false)
  {
    if f.kind.StringKind? {
      StringTypeClosed(f);
    } else {
      PlainClosed(PostgresType(f).value, false);
    }
  }

  lemma TypeOfClosed(f: Field, dialect: Dialect)
    requires SafeField(f) && Typed(f, dialect)
    ensures Closed(TypeOf(f, dialect), false)
  {
    if dialect == Postgres {
      if f.db.postgresType != [] {
        SafeTypeClosed(f.db.postgresType);
      } else {
        PostgresTypeClosed(f);
      }
    } else if f.db.sqliteType != [] {
      SafeTypeClosed(f.db.sqliteType);
    } else {
      PlainClosed(SqliteType(f), false);
    }
  }

  // ---------------------------------------------------------------------
  // Defaults, references, columns
  // ---------------------------------------------------------------------

  lemma RandomHexClosed(bytes: string, list: bool)
    requires AllPlain(bytes)
    ensures Closed(RandomHex(bytes), list)
  {
    PlainClosed(bytes, true);
    CallClosed("randomblob", bytes, true);
    CallClosed("hex", Call("randomblob", bytes), true);
    CallClosed("lower", Call("hex", Call("randomblob", bytes)), list);
  }

  lemma TailedClosed(name: string, a: string, tail: string)
    requires AllPlain(name) && Closed(a, true) && NumberList(tail) && Detached(tail)
    ensures Closed(Call(name, a + tail), false)
  {
    NumberListReads(tail);
    ClosedAppend(a, tail, true);
    CallClosed(name, a + tail, false);
  }

  lemma HexTailClosed()
    ensures Closed(HexTail(), false)
  {
    RandomHexClosed("2", true);
    TailedClosed("substr", RandomHex("2"), ", 2");
  }

  lemma ListOfTwo(a: string, b: string)
    requires Closed(a, true) && Closed(b, true)
    ensures Closed(a + ", " + b, true)
  {
    Separators();
    ClosedSeparated(a, ", ", b, true);
  }

  lemma RandomMagnitudeClosed()
    ensures Closed(RandomMagnitude(), true)
  {
    CallClosed("random", "", true);
    CallClosed("abs", Call("random", ""), true);
  }

  lemma VariantTail()
    ensures NumberList(" % 4 + 1, 1") && Detached(" % 4 + 1, 1")
  {
  }

  lemma HexVariantClosed()
    ensures Closed(HexVariant(), false)
  {
    RandomMagnitudeClosed();
    QuotedClosed("89ab", true);
    ListOfTwo(Quoted("89ab"), RandomMagnitude());
    VariantTail();
    TailedClosed("substr", Quoted("89ab") + ", " + RandomMagnitude(), " % 4 + 1, 1");
  }

  lemma FivePartsClosed(parts: seq<string>)
    requires |parts| == 5
    requires Closed(parts[0], false) && Closed(parts[1], false) && Closed(parts[2], false)
    requires Closed(parts[3], false) && Closed(parts[4], false)
    ensures Closed(Join(parts, " || "), false)
  {
    Separators();
    JoinClosed(parts, " || ", false);
  }

  lemma UuidHeadClosed()
    ensures Closed(Join(UuidHead(), " || "), false)
  {
    RandomHexClosed("4", false);
    RandomHexClosed("2", false);
    HexTailClosed();
    QuotedClosed("-", false);
    QuotedClosed("-4", false);
    FivePartsClosed(UuidHead());
  }

  lemma UuidTailClosed()
    ensures Closed(Join(UuidTail(), " || "), false)
  {
    RandomHexClosed("6", false);
    HexTailClosed();
    HexVariantClosed();
    QuotedClosed("-", false);
    FivePartsClosed(UuidTail());
  }

  lemma HalvesClosed(head: string, tail: string)
    requires Closed(head, false) && Closed(tail, false)
    ensures Closed(Call("", head + " || " + tail), false)
  {
    Separators();
    ClosedSeparated(head, " || ", tail, false);
    ClosedAsList(head + " || " + tail);
    CallClosed("", head + " || " + tail, false);
  }

  lemma UuidClosed()
    ensures Closed(SqliteUuid(), false)
  {
    UuidHeadClosed();
    UuidTailClosed();
    HalvesClosed(Join(UuidHead(), " || "), Join(UuidTail(), " || "));
  }
}
