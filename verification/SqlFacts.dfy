/**
  What a column clause says about the field it was generated from.

  The one thing it cannot say is where a default ends that has a setting's name in it.
 */
module SqlFacts {
  import opened Options
  import opened Decimals
  import opened SqlText
  import opened SqlReader
  import opened SqlColumns
  import opened SqlGuard
  import opened SqlDdl
  import opened SqlScript

  // ---------------------------------------------------------------------
  // The words of a column clause
  // ---------------------------------------------------------------------

  function TargetOf(m: Model, f: Field): Option<Target>
    requires Resolves(m, f)
  {
    if f.db.references.None? then None
    else
      var r := f.db.references.value;
      var target := EntityNamed(m.entities, r.entity);
      Some(Target(target.table, ColumnOf(target.fields, r.field), r.onUpdate, r.onDelete))
  }

  /** What is to be found in the column clause of `f`. */
  function FactsOf(m: Model, f: Field, dialect: Dialect): ColumnFacts
    requires Ready(m, f, dialect)
  {
    ColumnFacts(f.column, TypeOf(f, dialect), !f.nullable, SqlDefault(f, dialect), f.db.unique, TargetOf(m, f))
  }

  lemma IdentifierWord(s: string)
    requires Identifier(s)
    ensures ' ' !in s && AllPlain(s)
  {
    IdentifierPlain(s);
  }

  lemma TypeWords(column: string, typeText: string)
    requires Identifier(column)
    ensures Words("  " + column + " " + typeText) == ["", "", column] + Words(typeText)
  {
    var rest := column + " " + typeText;
    IdentifierWord(column);
    KeywordFirst(column, typeText);
    KeywordFirst("", rest);
    KeywordFirst("", "" + " " + rest);
    assert "" + " " + ("" + " " + rest) == "  " + column + " " + typeText;
  }

  lemma NotNullWords()
    ensures Words("not null") == [Spelled(Not), Spelled(Null)]
  {
    KeywordFirst("not", "null");
    OneWord("null");
    assert "not" + " " + "null" == "not null";
  }

  lemma RequiredPieces(f: Field)
    ensures AllWords(NullPieces(f)) == RequiredWords(!f.nullable)
  {
    if !f.nullable {
      NotNullWords();
      OfOnePiece("not null");
    }
  }

  lemma DefaultPiecesWords(f: Field, dialect: Dialect)
    requires SqlDefault(f, dialect).Some? ==> SqlDefault(f, dialect).value != []
    ensures AllWords(DefaultPieces(f, dialect)) == DefaultWords(SqlDefault(f, dialect))
  {
    if SqlDefault(f, dialect).Some? {
      var value := SqlDefault(f, dialect).value;
      KeywordFirst("default", value);
      assert "default" + " " + value == "default " + value;
      OfOnePiece("default " + value);
    }
  }

  lemma UniquePiecesWords(f: Field)
    ensures AllWords(UniquePieces(f)) == UniqueWords(f.db.unique)
  {
    OneWord("unique");
    OfOnePiece("unique");
  }

  lemma EventWords(event: string, text: string, keyword: Keyword, action: string)
    requires event == Spelled(keyword) && text == "on " + event + " "
    ensures AllWords(ActionPieces(text, action)) == ActionWords(keyword, action)
  {
    if action != [] {
      SpelledLower(keyword);
      KeywordFirst(event, action);
      KeywordFirst("on", event + " " + action);
      assert text + action == "on" + " " + (event + " " + action);
      OfOnePiece(text + action);
    }
  }

  lemma ReferenceWords(table: string, column: string)
    requires Identifier(table) && Identifier(column)
    ensures Words(Call("references " + table + " ", column)) ==
      [Spelled(References), table, Parenthesised(column)]
  {
    IdentifierWord(table);
    IdentifierWord(column);
    PlainClosed(column, true);
    ParensOneWord(column);
    KeywordFirst(table, Parenthesised(column));
    KeywordFirst("references", table + " " + Parenthesised(column));
    assert Call("references " + table + " ", column) == "references" + " " + (table + " " + Parenthesised(column));
  }

  lemma Regrouped<T>(a: seq<T>, b: seq<T>, c: seq<T>)
    ensures a + b + c == a + (b + c)
  {
  }

  lemma ThreePieces(piece: string, b: seq<string>, c: seq<string>)
    ensures AllWords([piece] + b + c) == Words(piece) + (AllWords(b) + AllWords(c))
  {
    OfOnePiece(piece);
    AllWordsAppend([piece] + b, c);
    AllWordsAppend([piece], b);
    Regrouped(Words(piece), AllWords(b), AllWords(c));
  }

  lemma ReferenceParts(piece: string, update: seq<string>, delete: seq<string>, t: Target)
    requires Words(piece) == [Spelled(References), t.table, Parenthesised(t.column)]
    requires AllWords(update) == ActionWords(Update, t.onUpdate)
    requires AllWords(delete) == ActionWords(Delete, t.onDelete)
    ensures AllWords([piece] + update + delete) == TargetWords(Some(t))
  {
    ThreePieces(piece, update, delete);
  }

  lemma ReferencedWords(table: string, column: string, r: Reference)
    requires Identifier(table) && Identifier(column)
    ensures AllWords([Call("references " + table + " ", column)] + ActionPieces("on update ", r.onUpdate)
      + ActionPieces("on delete ", r.onDelete)) == TargetWords(Some(Target(table, column, r.onUpdate, r.onDelete)))
  {
    ReferenceWords(table, column);
    EventWords("update", "on update ", Update, r.onUpdate);
    EventWords("delete", "on delete ", Delete, r.onDelete);
    ReferenceParts(Call("references " + table + " ", column), ActionPieces("on update ", r.onUpdate),
      ActionPieces("on delete ", r.onDelete), Target(table, column, r.onUpdate, r.onDelete));
  }

  lemma TargetPiecesWords(m: Model, f: Field)
    requires SafeModel(m) && Resolves(m, f)
    ensures AllWords(ReferencePieces(m, f)) == TargetWords(TargetOf(m, f))
  {
    if f.db.references.Some? {
      var r := f.db.references.value;
      var target := EntityNamed(m.entities, r.entity);
      TargetSafe(m, r);
      ReferencedWords(target.table, ColumnOf(target.fields, r.field), r);
    }
  }

  lemma FivePieces(piece: string, b: seq<string>, c: seq<string>, d: seq<string>, e: seq<string>)
    ensures AllWords([piece] + b + c + d + e) ==
      Words(piece) + (AllWords(b) + (AllWords(c) + (AllWords(d) + AllWords(e))))
  {
    AllWordsAppend([piece] + b + c + d, e);
    AllWordsAppend([piece] + b + c, d);
    ThreePieces(piece, b, c);
    Regrouped(Words(piece), AllWords(b) + AllWords(c), AllWords(d));
    Regrouped(Words(piece), AllWords(b) + AllWords(c) + AllWords(d), AllWords(e));
    Regrouped(AllWords(b) + AllWords(c), AllWords(d), AllWords(e));
    Regrouped(AllWords(b), AllWords(c), AllWords(d) + AllWords(e));
  }

  lemma DefaultIsText(f: Field, dialect: Dialect)
    requires SafeField(f)
    ensures SqlDefault(f, dialect).Some? ==> SqlDefault(f, dialect).value != []
  {
  }

  lemma SettingPieces(m: Model, f: Field, dialect: Dialect)
    requires SafeModel(m) && SafeField(f) && Ready(m, f, dialect)
    ensures AllWords(NullPieces(f)) + (AllWords(DefaultPieces(f, dialect))
      + (AllWords(UniquePieces(f)) + AllWords(ReferencePieces(m, f)))) == SettingWords(FactsOf(m, f, dialect))
  {
    RequiredPieces(f);
    DefaultIsText(f, dialect);
    DefaultPiecesWords(f, dialect);
    UniquePiecesWords(f);
    TargetPiecesWords(m, f);
  }

  lemma ColumnPiecesClosed(m: Model, f: Field, dialect: Dialect)
    requires SafeModel(m) && SafeField(f) && Ready(m, f, dialect)
    ensures AllClosed(ColumnPieces(m, f, dialect), false)
  {
    TypePieceClosed(f, dialect);
    FlagPiecesClosed(f);
    DefaultPiecesClosed(f, dialect);
    ReferencePiecesClosed(m, f);
    PiecesTogether(TypePiece(f, dialect), NullPieces(f), DefaultPieces(f, dialect), UniquePieces(f),
      ReferencePieces(m, f));
  }

  lemma ClauseWords(m: Model, f: Field, dialect: Dialect)
    requires SafeModel(m) && SafeField(f) && Ready(m, f, dialect)
    ensures Words(ColumnClause(m, f, dialect)) == ColumnWords(FactsOf(m, f, dialect))
  {
    var facts := FactsOf(m, f, dialect);
    ColumnPiecesClosed(m, f, dialect);
    WordsOfJoined(ColumnPieces(m, f, dialect));
    FivePieces(TypePiece(f, dialect), NullPieces(f), DefaultPieces(f, dialect), UniquePieces(f),
      ReferencePieces(m, f));
    SettingPieces(m, f, dialect);
    TypeWords(f.column, TypeOf(f, dialect));
    Regrouped(["", "", f.column], Words(facts.typeText), SettingWords(facts));
  }

  // ---------------------------------------------------------------------
  // They can be read
  // ---------------------------------------------------------------------

  lemma SettingsAreTypeClauses()
    ensures forall k :: k in SETTINGS ==> Spelled(k) in TYPE_CLAUSES
  {
  }

  lemma SafeTypeFree(s: string)
    requires SafeType(s)
    ensures Free(Words(s), SETTINGS)
  {
    SettingsAreTypeClauses();
    WordlessFree(s, TYPE_CLAUSES, SETTINGS);
  }

  /** Neither as long as a setting nor starting like one. */
  predicate Unlike(word: string) {
    ' ' !in word && word != [] && (|word| == 4 || |word| == 5 || word[0] in "bijptv" || (word[0] == 'd' && |word| == 6))
  }

  lemma UnlikeSetting(word: string, k: Keyword)
    requires Unlike(word) && k in SETTINGS
    ensures !Is(word, k)
  {
    SpelledLower(k);
    if |word| == |Spelled(k)| {
      assert LowerChar(word[0]) != Spelled(k)[0];
    }
  }

  lemma UnlikeFree(word: string)
    requires Unlike(word)
    ensures Free(Words(word), SETTINGS)
  {
    OneWord(word);
    forall k | k in SETTINGS ensures !Is(word, k) {
      UnlikeSetting(word, k);
    }
  }

  /** Two such words. */
  predicate UnlikeTwo(s: string) {
    |s| == 16 && s[6] == ' ' && AllPlain(s[..6]) && Unlike(s[..6]) && Unlike(s[7..])
  }

  lemma UnlikeTwoFree(s: string)
    requires UnlikeTwo(s)
    ensures Free(Words(s), SETTINGS)
  {
    assert s == s[..6] + " " + s[7..];
    KeywordFirst(s[..6], s[7..]);
    UnlikeFree(s[..6]);
    UnlikeFree(s[7..]);
    OneWord(s[..6]);
  }

  lemma DoublePrecision()
    ensures UnlikeTwo("double precision")
  {
    var text := "double precision";
    assert text[..6] == "double" && text[7..] == "precision";
  }

  lemma VarcharUnlike(n: nat)
    ensures Unlike(Call("varchar", Decimal(n)))
  {
    var text := Call("varchar", Decimal(n));
    assert ' ' !in "varchar" && ' ' !in Decimal(n) && ' ' !in "(" && ' ' !in ")";
    assert text[0] == 'v';
  }

  lemma NamesUnlike()
    ensures Unlike("uuid") && Unlike("timestamptz") && Unlike("text") && Unlike("jsonb")
    ensures Unlike("integer") && Unlike("bigint") && Unlike("boolean")
  {
  }

  lemma PostgresTypeUnlike(f: Field)
    requires SafeField(f) && PostgresType(f).Some?
    ensures var t := PostgresType(f).value; SafeType(t) || Unlike(t) || UnlikeTwo(t)
  {
    NamesUnlike();
    VarcharUnlike(f.property.maxLength);
    DoublePrecision();
  }

  lemma SqliteTypeUnlike(f: Field)
    requires SafeField(f)
    ensures SafeType(SqliteType(f)) || Unlike(SqliteType(f))
  {
  }

  lemma TypeFree(f: Field, dialect: Dialect)
    requires SafeField(f) && Typed(f, dialect)
    ensures Free(Words(TypeOf(f, dialect)), SETTINGS)
  {
    var t := TypeOf(f, dialect);
    SqliteTypeUnlike(f);
    if dialect == Postgres {
      PostgresTypeUnlike(f);
    }
    if SafeType(t) {
      SafeTypeFree(t);
    } else if Unlike(t) {
      UnlikeFree(t);
    } else {
      UnlikeTwoFree(t);
    }
  }

  // ---------------------------------------------------------------------
  // Actions
  // ---------------------------------------------------------------------

  lemma OneWordAction(s: string)
    requires |s| > 2 && ' ' !in s
    ensures Free(Words(s), {On})
  {
    OneWord(s);
  }

  lemma TwoWordAction(s: string, p: nat)
    requires 2 <= p < |s| - 3 && s[p] == ' ' && ' ' !in s[..p] && ' ' !in s[p + 1..] && AllPlain(s)
    requires p == 2 ==> LowerChar(s[0]) != 'o'
    ensures Free(Words(s), {On})
  {
    assert s == s[..p] + " " + s[p + 1..];
    KeywordFirst(s[..p], s[p + 1..]);
    OneWord(s[p + 1..]);
    assert LowerChar(s[..p][0]) == LowerChar(s[0]);
  }

  /** Where the spaces of an action are. */
  lemma ActionShape(s: string)
    requires s != [] && SafeAction(s)
    ensures || (|s| > 2 && ' ' !in s)
            || (|s| == 8 && s[3] == ' ' && ' ' !in s[..3] && ' ' !in s[4..])
            || (|s| == 9 && s[2] == ' ' && ' ' !in s[..2] && ' ' !in s[3..] && LowerChar(s[0]) == 'n')
  {
    LowerEach(s);
    forall i | 0 <= i < |s| ensures s[i] == ' ' <==> Lower(s)[i] == ' ' {
    }
  }

  lemma ActionFree(s: string)
    requires SafeAction(s)
    ensures Free(Words(s), {On})
  {
    if s == [] {
      OneWord(s);
    } else {
      ActionShape(s);
      ActionPlain(s);
      if ' ' !in s {
        OneWordAction(s);
      } else if |s| == 8 {
        TwoWordAction(s, 3);
      } else {
        TwoWordAction(s, 2);
      }
    }
  }

  // ---------------------------------------------------------------------
  // What a column clause says
  // ---------------------------------------------------------------------

  lemma FactsReadable(m: Model, f: Field, dialect: Dialect)
    requires SafeField(f) && Ready(m, f, dialect)
    ensures Readable(FactsOf(m, f, dialect))
  {
    TypeFree(f, dialect);
    DefaultIsText(f, dialect);
    if f.db.references.Some? {
      ActionFree(f.db.references.value.onUpdate);
      ActionFree(f.db.references.value.onDelete);
    }
  }

  /**
    A column clause says of its field what is so: column and type, required or not, default, unique or not, the
    table and column it refers to and the actions. The only exception is a default with a top-level word `unique` or
    `references`, which cannot be told from the setting of that name.
   */
  lemma ColumnReadsBack(m: Model, f: Field, dialect: Dialect)
    requires SafeModel(m) && SafeField(f) && Ready(m, f, dialect)
    ensures ReadColumn(ColumnClause(m, f, dialect)) == Some(FactsOf(m, f, dialect)) <==>
      !Misleading(SqlDefault(f, dialect))
  {
    ClauseWords(m, f, dialect);
    FactsReadable(m, f, dialect);
    WordsReadBack(FactsOf(m, f, dialect));
  }

  // ---------------------------------------------------------------------
  // A default that misleads
  // ---------------------------------------------------------------------

  /** No statement keyword is a single character, starts with a digit or starts like `unique`. */
  lemma KeywordsUnlikeUnique(w: string)
    requires w in STATEMENT_KEYWORDS
    ensures |w| > 1 && w[0] != '1' && (w[0] == 'u' ==> w[1] == 'p')
  {
  }

  lemma UniqueHasNoKeyword(s: string)
    requires s == "1 unique"
    ensures !HasWord(s, STATEMENT_KEYWORDS)
  {
    if HasWord(s, STATEMENT_KEYWORDS) {
      var i, j :| 0 <= i < j <= |s| && Bounded(s, i, j) && Lower(s[i..j]) in STATEMENT_KEYWORDS;
      var w := s[i..j];
      LowerEach(w);
      KeywordsUnlikeUnique(Lower(w));
      assert false;
    }
  }

  lemma NumberHasNoKeyword(s: string)
    requires s == "1"
    ensures !HasWord(s, STATEMENT_KEYWORDS)
  {
    if HasWord(s, STATEMENT_KEYWORDS) {
      var i, j :| 0 <= i < j <= |s| && Bounded(s, i, j) && Lower(s[i..j]) in STATEMENT_KEYWORDS;
      LowerEach(s[i..j]);
      KeywordsUnlikeUnique(Lower(s[i..j]));
      assert false;
    }
  }

  lemma PlainExpression(s: string)
    requires s != [] && AllPlain(s) && SingleLine(s) && '*' !in s && !HasWord(s, STATEMENT_KEYWORDS)
    ensures SafeExpression(s)
  {
    PlainClosed(s, false);
    assert forall i :: 0 <= i < |s| ==> s[i] != '\'' && s[i] != '-' && s[i] != '/';
    BareOfUnquoted(s);
  }

  /** An integer column with this default. */
  function Defaulted(default: string, unique: bool): Field {
    Field("n", "n", IntegerKind, true, Property("", 0, None, []),
      FieldDb("", "", Some(default), map[], unique, None))
  }

  lemma DefaultedClause(m: Model, default: string, unique: bool, dialect: Dialect)
    requires default != [] && |default| < 10
    ensures var f := Defaulted(default, unique);
      && Ready(m, f, dialect) && SqlDefault(f, dialect) == Some(default)
      && ColumnClause(m, f, dialect) == TypePiece(Defaulted([], false), dialect) + " " +
         if unique then "default " + default + " " + "unique" else "default " + default
  {
    var f := Defaulted(default, unique);
    var head := TypePiece(f, dialect);
    assert |"gen_random_uuid()"| == 17;
    if unique {
      assert ColumnPieces(m, f, dialect) == [head, "default " + default, "unique"];
      assert [head, "default " + default, "unique"][1..] == ["default " + default, "unique"];
      assert ["default " + default, "unique"][1..] == ["unique"];
      assert Join(["default " + default, "unique"], " ") == "default " + default + " " + "unique";
    } else {
      assert ColumnPieces(m, f, dialect) == [head, "default " + default];
      assert [head, "default " + default][1..] == ["default " + default];
      assert Join(["default " + default], " ") == "default " + default;
    }
  }

  lemma DefaultedSafe(default: string, unique: bool)
    requires SafeExpression(default)
    ensures SafeField(Defaulted(default, unique))
  {
  }

  lemma SameDefaultText(number: string, words: string)
    requires number == "1" && words == "1 unique"
    ensures "default " + number + " " + "unique" == "default " + words
  {
  }

  /**
    Two accepted fields with the same column clause: one has the default `1` and is unique, the other has the default
    `1 unique` and is not.
   */
  lemma DefaultMisleads(m: Model, dialect: Dialect, number: string, words: string) returns (f: Field, g: Field)
    requires number == "1" && words == "1 unique"
    ensures SafeField(f) && SafeField(g) && Ready(m, f, dialect) && Ready(m, g, dialect)
    ensures SqlDefault(f, dialect) == Some(number) && f.db.unique
    ensures SqlDefault(g, dialect) == Some(words) && !g.db.unique
    ensures ColumnClause(m, f, dialect) == ColumnClause(m, g, dialect)
  {
    f, g := Defaulted(number, true), Defaulted(words, false);
    DefaultedClause(m, number, true, dialect);
    DefaultedClause(m, words, false, dialect);
    NumberHasNoKeyword(number);
    UniqueHasNoKeyword(words);
    PlainExpression(number);
    PlainExpression(words);
    DefaultedSafe(number, true);
    DefaultedSafe(words, false);
    SameDefaultText(number, words);
  }
}
