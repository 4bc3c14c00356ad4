/**
  The generated script as parts: comments and blank lines around one statement per
  table and per index.

  Cut at its semicolons, a script of well-formed parts gives back exactly those
  statements, and the parts of an accepted schema are well formed.
 */
module SqlStatements {
  import opened SqlText
  import opened SqlGuard
  import opened SqlDdl
  import opened SqlClosed
  import opened SqlScript

  const HEADER := "Generated by tools/schema-orm-codegen.mjs." + " DO NOT EDIT."

  // ---------------------------------------------------------------------
  // What a script is made of
  // ---------------------------------------------------------------------

  datatype Part = Remark(text: string) | Blank | Statement(text: string)

  function PartText(p: Part): string {
    match p
    case Remark(text) => "--" + (" " + text) + "\n"
    case Blank => "\n"
    case Statement(text) => text + ";" + "\n"
  }

  function TextOf(parts: seq<Part>): string
    decreases |parts|
  {
    if parts == [] then [] else PartText(parts[0]) + TextOf(parts[1..])
  }

  function StatementTexts(parts: seq<Part>): seq<string>
    decreases |parts|
  {
    if parts == [] then []
    else (if parts[0].Statement? then [parts[0].text] else []) + StatementTexts(parts[1..])
  }

  /** Every run of line ends becomes one space. */
  function OneLine(s: string): string
    decreases |s|
  {
    if s == [] then []
    else if !LineEnd(s[0]) then [s[0]] + OneLine(s[1..])
    else if |s| > 1 && LineEnd(s[1]) then OneLine(s[1..])
    else [' '] + OneLine(s[1..])
  }

  function DialectName(dialect: Dialect): string {
    if dialect == Postgres then "postgres" else "sqlite"
  }

  function HeaderParts(m: Model, dialect: Dialect): seq<Part> {
    [Remark(HEADER), Remark("Product: " + m.product), Remark("Dialect: " + DialectName(dialect))]
  }

  function TableText(m: Model, e: Entity, dialect: Dialect): string
    requires KnowsFields(e, e.primaryKey) && Generable(m, e.fields, dialect)
  {
    Call("create table if not exists " + e.table + " ", "\n" + Join(Clauses(m, e, dialect), ",\n") + "\n")
  }

  function IndexKind(x: Index): string {
    "create " + (if x.unique then "unique " else "") + "index if not exists "
  }

  function IndexText(e: Entity, x: Index): string
    requires KnowsFields(e, x.fields)
  {
    Call(IndexKind(x) + x.name + " on " + e.table + " ", Join(Columns(e, x.fields), ", "))
    + (if x.condition != [] then " where " + x.condition else "")
  }

  /** The primary key and the indexes of `e` name fields of `e`. */
  predicate Keyed(e: Entity) {
    KnowsFields(e, e.primaryKey) && forall i :: 0 <= i < |e.indexes| ==> KnowsFields(e, e.indexes[i].fields)
  }

  function IndexParts(e: Entity, n: nat): seq<Part>
    requires Keyed(e) && n <= |e.indexes|
  {
    if n == 0 then [] else IndexParts(e, n - 1) + [Statement(IndexText(e, e.indexes[n - 1]))]
  }

  function DescriptionParts(e: Entity): seq<Part> {
    if e.description != [] then [Blank, Remark(OneLine(e.description))] else [Blank]
  }

  function IndexSection(e: Entity): seq<Part>
    requires Keyed(e)
  {
    if e.indexes != [] then [Blank] + IndexParts(e, |e.indexes|) else []
  }

  function EntityParts(m: Model, e: Entity, dialect: Dialect): seq<Part>
    requires Keyed(e) && Generable(m, e.fields, dialect)
  {
    DescriptionParts(e) + [Statement(TableText(m, e, dialect))] + IndexSection(e)
  }

  /** No entity of `order` breaks the generation off. */
  predicate AllGenerable(m: Model, order: seq<Entity>, dialect: Dialect) {
    forall i :: 0 <= i < |order| ==> Generable(m, order[i].fields, dialect)
  }

  predicate AllKeyed(order: seq<Entity>) {
    forall i :: 0 <= i < |order| ==> Keyed(order[i])
  }

  /** `start` followed by the groups, one after the other. */
  function Flatten<T>(start: seq<T>, groups: seq<seq<T>>): seq<T>
    decreases |groups|
  {
    if groups == [] then start else Flatten(start, groups[..|groups| - 1]) + groups[|groups| - 1]
  }

  function Mapped<T, U>(f: T -> U, s: seq<T>): (r: seq<U>)
    ensures |r| == |s|
  {
    seq(|s|, i requires 0 <= i < |s| => f(s[i]))
  }

  /** The parts of an entity that can be generated. */
  function PartsOf(m: Model, dialect: Dialect): Entity -> seq<Part> {
    (e: Entity) => if Keyed(e) && Generable(m, e.fields, dialect) then EntityParts(m, e, dialect) else []
  }

  function ScriptParts(m: Model, order: seq<Entity>, dialect: Dialect): seq<Part> {
    Flatten(HeaderParts(m, dialect), Mapped(PartsOf(m, dialect), order))
  }

  // ---------------------------------------------------------------------
  // Reading a script
  // ---------------------------------------------------------------------

  function AfterLine(s: string): string
    decreases |s|
  {
    if s == [] then [] else if LineEnd(s[0]) then s[1..] else AfterLine(s[1..])
  }

  lemma {:induction false} AfterLineShrinks(s: string)
    requires s != []
    ensures |AfterLine(s)| < |s|
    decreases |s|
  {
    if !LineEnd(s[0]) && s[1..] != [] {
      AfterLineShrinks(s[1..]);
    }
  }

  /** `s` without the empty lines and comment lines it starts with. */
  function SkipLead(s: string): string
    decreases |s|
  {
    if s == [] then []
    else if s[0] == '\n' then SkipLead(s[1..])
    else if |s| >= 2 && s[0] == '-' && s[1] == '-' then
      AfterLineShrinks(s);
      SkipLead(AfterLine(s))
    else s
  }

  function SkipLeads(pieces: seq<string>): seq<string>
    decreases |pieces|
  {
    if pieces == [] then [] else [SkipLead(pieces[0])] + SkipLeads(pieces[1..])
  }

  /** What stands between the semicolons of `script`; the last element is what follows the last semicolon. */
  function ReadStatements(script: string): seq<string> {
    SkipLeads(Split(script, ';'))
  }

  // ---------------------------------------------------------------------
  // Scripts of well-formed parts read back
  // ---------------------------------------------------------------------

  predicate OnOneLine(s: string) {
    forall i :: 0 <= i < |s| ==> !LineEnd(s[i])
  }

  predicate WellFormed(p: Part) {
    match p
    case Remark(text) => OnOneLine(text)
    case Blank => true
    case Statement(text) => Closed(text, false) && text != [] && text[0] != '-' && text[0] != '\n'
  }

  predicate AllWellFormed(parts: seq<Part>) {
    forall i :: 0 <= i < |parts| ==> WellFormed(parts[i])
  }

  function PiecesOf(parts: seq<Part>, pending: string): seq<string>
    decreases |parts|
  {
    if parts == [] then [pending]
    else if parts[0].Statement? then [pending + parts[0].text] + PiecesOf(parts[1..], "\n")
    else PiecesOf(parts[1..], pending + PartText(parts[0]))
  }

  lemma {:induction false} CommentReads(s: string, depth: int)
    requires OnOneLine(s)
    ensures Read(Lex(Line, depth), s + "\n") == Lex(Code, depth) && Uncut(Lex(Line, depth), s + "\n", ';')
    decreases |s|
  {
    if s == [] {
      assert s + "\n" == "\n" && "\n"[1..] == [];
    } else {
      assert (s + "\n")[1..] == s[1..] + "\n";
      CommentReads(s[1..], depth);
    }
  }

  lemma RemarkReads(text: string)
    requires OnOneLine(text)
    ensures Read(START, PartText(Remark(text))) == START && Uncut(START, PartText(Remark(text)), ';')
  {
    var body := " " + text;
    var all := PartText(Remark(text));
    CommentReads(body, 0);
    assert all[1..] == "-" + (body + "\n");
    assert all[1..][1..] == body + "\n";
  }

  lemma BlankReads()
    ensures Read(START, "\n") == START && Uncut(START, "\n", ';')
  {
    assert "\n"[1..] == [];
  }

  lemma StatementSplits(text: string, rest: string, pending: string)
    requires Closed(text, false)
    ensures SplitFrom(START, text + ";" + "\n" + rest, ';', pending) ==
      [pending + text] + SplitFrom(START, rest, ';', "\n")
  {
    FitsUncut(START, text);
    BlankReads();
    var tail := "\n" + rest;
    assert text + ";" + "\n" + rest == text + (";" + tail);
    SplitUncut(START, text, ";" + tail, ';', pending);
    assert (";" + tail)[1..] == tail;
    SplitUncut(START, "\n", rest, ';', []);
    assert [] + "\n" == "\n";
  }

  lemma {:induction false} PartsSplit(parts: seq<Part>, pending: string)
    requires AllWellFormed(parts)
    ensures SplitFrom(START, TextOf(parts), ';', pending) == PiecesOf(parts, pending)
    decreases |parts|
  {
    if parts == [] {
    } else {
      var p, rest := parts[0], TextOf(parts[1..]);
      BlankReads();
      match p {
        case Remark(text) =>
          RemarkReads(text);
          PartsSplit(parts[1..], pending + PartText(p));
          SplitUncut(START, PartText(p), rest, ';', pending);
        case Blank =>
          PartsSplit(parts[1..], pending + PartText(p));
          SplitUncut(START, PartText(p), rest, ';', pending);
        case Statement(text) =>
          PartsSplit(parts[1..], "\n");
          StatementSplits(text, rest, pending);
      }
    }
  }

  /** Reading statements passes over `lead`. */
  ghost predicate Skipped(lead: string) {
    forall s: string :: SkipLead(lead + s) == SkipLead(s)
  }

  lemma {:induction false} AfterComment(text: string, s: string)
    requires OnOneLine(text)
    ensures AfterLine(text + "\n" + s) == s
    decreases |text|
  {
    var all := text + "\n" + s;
    if text == [] {
      assert all == ['\n'] + s;
    } else {
      assert all[1..] == text[1..] + "\n" + s;
      AfterComment(text[1..], s);
    }
  }

  lemma SkippedTwice(lead: string, text: string, s: string)
    requires Skipped(lead) && SkipLead(text + s) == SkipLead(s)
    ensures SkipLead((lead + text) + s) == SkipLead(s)
  {
    assert (lead + text) + s == lead + (text + s);
  }

  lemma PartSkipped(p: Part, s: string)
    requires WellFormed(p) && !p.Statement?
    ensures SkipLead(PartText(p) + s) == SkipLead(s)
  {
    match p {
      case Blank =>
        assert ("\n" + s)[1..] == s;
      case Remark(text) =>
        var line := "--" + (" " + text);
        AfterComment(line, s);
        assert PartText(p) + s == line + "\n" + s;
    }
  }

  lemma LeadSkipped(lead: string, p: Part)
    requires Skipped(lead) && WellFormed(p) && !p.Statement?
    ensures Skipped(lead + PartText(p))
  {
    forall s: string ensures SkipLead((lead + PartText(p)) + s) == SkipLead(s) {
      PartSkipped(p, s);
      SkippedTwice(lead, PartText(p), s);
    }
  }

  lemma NewlineSkipped()
    ensures Skipped("\n")
  {
    forall s: string ensures SkipLead("\n" + s) == SkipLead(s) {
      assert ("\n" + s)[1..] == s;
    }
  }

  lemma StatementRead(pending: string, text: string)
    requires Skipped(pending) && WellFormed(Statement(text))
    ensures SkipLead(pending + text) == text
  {
    assert SkipLead(pending + text) == SkipLead(text);
  }

  lemma FirstPieceSkipped(pending: string, text: string, pieces: seq<string>)
    requires Skipped(pending) && WellFormed(Statement(text))
    ensures SkipLeads([pending + text] + pieces) == [text] + SkipLeads(pieces)
  {
    StatementRead(pending, text);
    assert ([pending + text] + pieces)[1..] == pieces;
  }

  lemma {:induction false} PiecesSkip(parts: seq<Part>, pending: string)
    requires AllWellFormed(parts) && Skipped(pending)
    ensures SkipLeads(PiecesOf(parts, pending)) == StatementTexts(parts) + [[]]
    decreases |parts|
  {
    if parts == [] {
      assert pending + [] == pending;
      assert SkipLead(pending + []) == SkipLead([]);
    } else if parts[0].Statement? {
      var text := parts[0].text;
      NewlineSkipped();
      PiecesSkip(parts[1..], "\n");
      FirstPieceSkipped(pending, text, PiecesOf(parts[1..], "\n"));
      assert StatementTexts(parts) == [text] + StatementTexts(parts[1..]);
    } else {
      LeadSkipped(pending, parts[0]);
      PiecesSkip(parts[1..], pending + PartText(parts[0]));
    }
  }

  lemma PartsReadBack(parts: seq<Part>)
    requires AllWellFormed(parts)
    ensures ReadStatements(TextOf(parts)) == StatementTexts(parts) + [[]]
  {
    PartsSplit(parts, []);
    assert Skipped([]) by {
      forall s: string ensures SkipLead([] + s) == SkipLead(s) {
        assert [] + s == s;
      }
    }
    PiecesSkip(parts, []);
  }

  // ---------------------------------------------------------------------
  // The parts of an accepted schema are well formed
  // ---------------------------------------------------------------------

  lemma {:induction false} OneLineHasNoEnds(s: string)
    ensures forall i :: 0 <= i < |OneLine(s)| ==> !LineEnd(OneLine(s)[i])
    decreases |s|
  {
    if s == [] {
    } else {
      OneLineHasNoEnds(s[1..]);
    }
  }

  lemma LineSeparator()
    ensures Separator(",\n", true)
  {
    assert Read(START, ",\n") == START && Fits(START, ",\n", 0, true) by {
      assert ",\n"[1..] == "\n" && "\n"[1..] == [];
    }
  }

  lemma AllClosedAsList(pieces: seq<string>)
    requires AllClosed(pieces, false)
    ensures AllClosed(pieces, true)
  {
    forall i | 0 <= i < |pieces| ensures Closed(pieces[i], true) {
      ClosedAsList(pieces[i]);
    }
  }

  lemma ClauseLinesClosed(clauses: seq<string>)
    requires AllClosed(clauses, false)
    ensures Closed(Join(clauses, ",\n"), true)
  {
    LineSeparator();
    AllClosedAsList(clauses);
    JoinClosed(clauses, ",\n", true);
  }

  lemma BlockClosed(name: string, list: string)
    requires AllPlain(name) && Closed(list, true)
    ensures Closed(Call(name, "\n" + list + "\n"), false)
  {
    ClosedAfterPlain("\n", list, true);
    ClosedBeforePlain("\n" + list, "\n", true);
    CallClosed(name, "\n" + list + "\n", false);
  }

  lemma PlainNamed(before: string, name: string, after: string)
    requires AllPlain(before) && Identifier(name) && AllPlain(after)
    ensures AllPlain(before + name + after)
  {
    IdentifierPlain(name);
  }

  lemma TableBlockClosed(table: string, clauses: seq<string>)
    requires Identifier(table) && AllClosed(clauses, false)
    ensures Closed(Call("create table if not exists " + table + " ", "\n" + Join(clauses, ",\n") + "\n"), false)
  {
    ClauseLinesClosed(clauses);
    PlainNamed("create table if not exists ", table, " ");
    BlockClosed("create table if not exists " + table + " ", Join(clauses, ",\n"));
  }

  lemma TableTextClosed(m: Model, e: Entity, dialect: Dialect)
    requires SafeModel(m) && SafeEntity(e) && Generable(m, e.fields, dialect)
    ensures Closed(TableText(m, e, dialect), false)
  {
    ClausesClosed(m, e, dialect);
    TableBlockClosed(e.table, Clauses(m, e, dialect));
  }

  lemma WhereClosed(head: string, condition: string)
    requires Closed(head, false) && Closed(condition, false)
    ensures Closed(head + (if condition != [] then " where " + condition else ""), false)
  {
    if condition == [] {
      assert head + "" == head;
    } else {
      ClosedAfterPlain(" where ", condition, false);
      ClosedAppend(head, " where " + condition, false);
    }
  }

  lemma IndexHeadClosed(kind: string, name: string, table: string, list: string)
    requires AllPlain(kind) && Identifier(name) && Identifier(table) && Closed(list, true)
    ensures Closed(Call(kind + name + " on " + table + " ", list), false)
  {
    PlainNamed(kind, name, " on ");
    PlainNamed(kind + name + " on ", table, " ");
    CallClosed(kind + name + " on " + table + " ", list, false);
  }

  lemma IndexClosed(kind: string, name: string, table: string, list: string, condition: string)
    requires AllPlain(kind) && Identifier(name) && Identifier(table) && Closed(list, true)
    requires condition != [] ==> Closed(condition, false)
    ensures Closed(Call(kind + name + " on " + table + " ", list) +
      (if condition != [] then " where " + condition else ""), false)
  {
    IndexHeadClosed(kind, name, table, list);
    if condition == [] {
      assert Closed("", false);
    }
    WhereClosed(Call(kind + name + " on " + table + " ", list), condition);
  }

  lemma IndexKindPlain(x: Index)
    ensures AllPlain(IndexKind(x))
  {
  }

  lemma IndexTextClosed(e: Entity, x: Index)
    requires SafeEntity(e) && Identifier(x.name) && KnowsFields(e, x.fields)
    requires x.condition != [] ==> SafeExpression(x.condition)
    ensures Closed(IndexText(e, x), false)
  {
    IndexKindPlain(x);
    ColumnListClosed(e, x.fields);
    IndexClosed(IndexKind(x), x.name, e.table, Join(Columns(e, x.fields), ", "), x.condition);
  }

  lemma CallStarts(name: string, list: string, c: char)
    requires name != [] && name[0] == c
    ensures Call(name, list) != [] && Call(name, list)[0] == c
  {
  }

  lemma IndexPartWellFormed(e: Entity, i: nat)
    requires SafeEntity(e) && Keyed(e) && i < |e.indexes|
    ensures WellFormed(Statement(IndexText(e, e.indexes[i])))
  {
    var x := e.indexes[i];
    IndexTextClosed(e, x);
    CallStarts(IndexKind(x) + x.name + " on " + e.table + " ", Join(Columns(e, x.fields), ", "), 'c');
  }

  lemma SafeIsKeyed(e: Entity)
    requires SafeEntity(e)
    ensures Keyed(e)
  {
  }

  lemma WellFormedSnoc(parts: seq<Part>, p: Part)
    requires AllWellFormed(parts) && WellFormed(p)
    ensures AllWellFormed(parts + [p])
  {
  }

  predicate IndexesWellFormed(e: Entity)
    requires Keyed(e)
  {
    forall i :: 0 <= i < |e.indexes| ==> WellFormed(Statement(IndexText(e, e.indexes[i])))
  }

  lemma {:induction false} IndexPartsWellFormed(e: Entity, n: nat)
    requires Keyed(e) && n <= |e.indexes| && IndexesWellFormed(e)
    ensures AllWellFormed(IndexParts(e, n))
    decreases n
  {
    if n == 0 {
    } else {
      IndexPartsWellFormed(e, n - 1);
      WellFormedSnoc(IndexParts(e, n - 1), Statement(IndexText(e, e.indexes[n - 1])));
    }
  }

  lemma TablePartWellFormed(m: Model, e: Entity, dialect: Dialect)
    requires SafeModel(m) && SafeEntity(e) && Generable(m, e.fields, dialect)
    ensures WellFormed(Statement(TableText(m, e, dialect)))
  {
    TableTextClosed(m, e, dialect);
  }

  lemma DescriptionWellFormed(e: Entity)
    ensures AllWellFormed(DescriptionParts(e))
  {
    OneLineHasNoEnds(e.description);
  }

  lemma IndexSectionWellFormed(e: Entity)
    requires SafeEntity(e) && Keyed(e)
    ensures AllWellFormed(IndexSection(e))
  {
    forall i | 0 <= i < |e.indexes| ensures WellFormed(Statement(IndexText(e, e.indexes[i]))) {
      IndexPartWellFormed(e, i);
    }
    IndexPartsWellFormed(e, |e.indexes|);
  }

  lemma PartsTogether(before: seq<Part>, p: Part, after: seq<Part>)
    requires AllWellFormed(before) && WellFormed(p) && AllWellFormed(after)
    ensures AllWellFormed(before + [p] + after)
  {
  }

  lemma EntityPartsWellFormed(m: Model, e: Entity, dialect: Dialect)
    requires SafeModel(m) && SafeEntity(e) && Generable(m, e.fields, dialect)
    ensures Keyed(e) && AllWellFormed(EntityParts(m, e, dialect))
  {
    SafeIsKeyed(e);
    TablePartWellFormed(m, e, dialect);
    IndexSectionWellFormed(e);
    DescriptionWellFormed(e);
    PartsTogether(DescriptionParts(e), Statement(TableText(m, e, dialect)), IndexSection(e));
  }

  lemma WellFormedAppend(a: seq<Part>, b: seq<Part>)
    requires AllWellFormed(a) && AllWellFormed(b)
    ensures AllWellFormed(a + b)
  {
  }

  lemma HeaderLine()
    ensures OnOneLine(HEADER)
  {
    assert OnOneLine("Generated by tools/schema-orm-codegen.mjs.") && OnOneLine(" DO NOT EDIT.");
  }

  lemma ProductLine(product: string)
    requires Slug(product)
    ensures OnOneLine("Product: " + product)
  {
  }

  lemma DialectLine(dialect: Dialect)
    ensures OnOneLine("Dialect: " + DialectName(dialect))
  {
  }

  lemma HeaderWellFormed(m: Model, dialect: Dialect)
    requires Slug(m.product)
    ensures AllWellFormed(HeaderParts(m, dialect))
  {
    HeaderLine();
    ProductLine(m.product);
    DialectLine(dialect);
  }

  ghost predicate AllSafe(order: seq<Entity>) {
    forall i :: 0 <= i < |order| ==> SafeEntity(order[i])
  }

  lemma {:induction false} FlattenWellFormed(start: seq<Part>, groups: seq<seq<Part>>)
    requires AllWellFormed(start) && forall i :: 0 <= i < |groups| ==> AllWellFormed(groups[i])
    ensures AllWellFormed(Flatten(start, groups))
    decreases |groups|
  {
    if groups == [] {
    } else {
      var n := |groups| - 1;
      FlattenWellFormed(start, groups[..n]);
      WellFormedAppend(Flatten(start, groups[..n]), groups[n]);
    }
  }

  /** The parts of an accepted schema are well formed. */
  lemma ScriptWellFormed(m: Model, order: seq<Entity>, dialect: Dialect)
    requires SafeModel(m) && AllSafe(order) && AllGenerable(m, order, dialect)
    ensures AllWellFormed(ScriptParts(m, order, dialect))
  {
    var groups := Mapped(PartsOf(m, dialect), order);
    HeaderWellFormed(m, dialect);
    forall i | 0 <= i < |groups| ensures AllWellFormed(groups[i]) {
      EntityPartsWellFormed(m, order[i], dialect);
    }
    FlattenWellFormed(HeaderParts(m, dialect), groups);
  }
}
