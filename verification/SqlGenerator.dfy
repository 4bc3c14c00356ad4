/**
  The generator: it writes the script of a schema line by line, tables in creation order,
  and the script reads back as its statements.

  The lines a method pushes are compared with the parts of the script they stand for;
  joining and trimming the lines gives the text of the parts, and that text is read.
 */
module SqlGenerator {
  import opened Options
  import opened SqlText
  import opened SqlDdl
  import opened SqlScript
  import opened SqlStatements
  import opened Topo

  // ---------------------------------------------------------------------
  // Lines
  // ---------------------------------------------------------------------

  /** Each line followed by its line end. */
  function Ended(lines: seq<string>): string
    decreases |lines|
  {
    if lines == [] then [] else lines[0] + "\n" + Ended(lines[1..])
  }

  function TrimEnd(s: string): string
    decreases |s|
  {
    if s != [] && Space(s[|s| - 1]) then TrimEnd(s[..|s| - 1]) else s
  }

  lemma {:induction false} EndedAppend(a: seq<string>, b: seq<string>)
    ensures Ended(a + b) == Ended(a) + Ended(b)
    decreases |a|
  {
    if a == [] {
      assert a + b == b;
    } else {
      assert (a + b)[1..] == a[1..] + b;
      EndedAppend(a[1..], b);
    }
  }

  lemma {:induction false} EndedJoin(lines: seq<string>)
    requires lines != []
    ensures Join(lines, "\n") + "\n" == Ended(lines)
    decreases |lines|
  {
    if |lines| == 1 {
    } else {
      EndedJoin(lines[1..]);
    }
  }

  lemma {:induction false} TextAppend(a: seq<Part>, b: seq<Part>)
    ensures TextOf(a + b) == TextOf(a) + TextOf(b)
    decreases |a|
  {
    if a == [] {
      assert a + b == b;
    } else {
      assert (a + b)[1..] == a[1..] + b;
      TextAppend(a[1..], b);
    }
  }

  lemma TextOfOne(p: Part)
    ensures TextOf([p]) == PartText(p)
  {
    assert [p][1..] == [];
    assert PartText(p) + [] == PartText(p);
  }

  lemma EndedOne(line: string)
    ensures Ended([line]) == line + "\n"
  {
    assert [line][1..] == [];
  }

  /** `text` ends in one line end, after something visible. */
  predicate Tight(text: string) {
    |text| >= 2 && text[|text| - 1] == '\n' && !Space(text[|text| - 2])
  }

  lemma TrimTight(text: string)
    requires Tight(text)
    ensures TrimEnd(text) + "\n" == text
  {
    var body := text[..|text| - 1];
    assert body[|body| - 1] == text[|text| - 2];
    assert TrimEnd(body) == body;
    assert body + "\n" == text;
  }

  function CreationOrder(m: Model, less: Order): seq<Entity> {
    match Layers(m.entities, less) case Some(order) => order case None => m.entities
  }

  lemma CreationOrderKeeps(m: Model, less: Order)
    ensures multiset(CreationOrder(m, less)) == multiset(m.entities)
    ensures |CreationOrder(m, less)| == |m.entities|
    ensures forall e :: e in CreationOrder(m, less) <==> e in m.entities
  {
    var order := CreationOrder(m, less);
    if Layers(m.entities, less).Some? {
      LayersPermute(m.entities, less);
    }
    assert |order| == |multiset(order)| && |m.entities| == |multiset(m.entities)|;
    forall e ensures e in order <==> e in m.entities {
      assert e in order <==> e in multiset(order);
      assert e in m.entities <==> e in multiset(m.entities);
    }
  }

  /** The lines written for the indexes of a table. */
  method IndexLines(e: Entity) returns (lines: seq<string>)
    requires Keyed(e)
    ensures Ended(lines) == TextOf(IndexParts(e, |e.indexes|))
  {
    lines := [];
    for i := 0 to |e.indexes|
      invariant Ended(lines) == TextOf(IndexParts(e, i))
    {
      var line := IndexText(e, e.indexes[i]) + ";";
      EndedAppend(lines, [line]);
      EndedOne(line);
      TextAppend(IndexParts(e, i), [Statement(IndexText(e, e.indexes[i]))]);
      TextOfOne(Statement(IndexText(e, e.indexes[i])));
      lines := lines + [line];
    }
  }

  lemma TableLines(name: string, list: string)
    ensures Ended([name + "(", list, ");"]) == PartText(Statement(Call(name, "\n" + list + "\n")))
  {
    assert [name + "(", list, ");"][1..] == [list, ");"] && [list, ");"][1..] == [");"];
    EndedOne(");");
    assert ");" == ")" + ";";
  }

  function SectionText(e: Entity): string
    requires Keyed(e)
  {
    if e.indexes != [] then "\n" + TextOf(IndexParts(e, |e.indexes|)) else ""
  }

  method DescriptionLines(e: Entity) returns (lines: seq<string>)
    ensures "\n" + Ended(lines) == TextOf(DescriptionParts(e))
  {
    TextOfOne(Blank);
    lines := [];
    if e.description != [] {
      var remark := Remark(OneLine(e.description));
      lines := lines + ["--" + (" " + remark.text)];
      TextOfOne(remark);
      TextAppend([Blank], [remark]);
      EndedOne("--" + (" " + remark.text));
      assert [Blank] + [remark] == [Blank, remark];
    }
  }

  /** The empty line after a table and the indexes with the empty line after them. */
  method IndexSectionLines(e: Entity) returns (lines: seq<string>)
    requires Keyed(e)
    ensures Ended(lines) == SectionText(e) + "\n"
  {
    EndedOne("");
    lines := [""];
    var indexes := IndexLines(e);
    EndedAppend(lines, indexes);
    lines := lines + indexes;
    if e.indexes != [] {
      EndedAppend(lines, [""]);
      lines := lines + [""];
    }
  }

  method TableTextLines(m: Model, e: Entity, dialect: Dialect) returns (r: Option<seq<string>>)
    requires Keyed(e)
    ensures r.Some? <==> Generable(m, e.fields, dialect)
    ensures r.Some? ==> Ended(r.value) == PartText(Statement(TableText(m, e, dialect)))
  {
    var clauses := TableClauses(m, e, dialect);
    if clauses.None? {
      return None;
    }
    var name, list := "create table if not exists " + e.table + " ", Join(clauses.value, ",\n");
    TableLines(name, list);
    r := Some([name + "(", list, ");"]);
  }

  lemma FourTexts(first: string, a: string, b: string, c: string, last: string)
    ensures first + (a + b + (c + last)) == (first + a) + b + c + last
  {
  }

  lemma ThreeSections(a: seq<string>, b: seq<string>, c: seq<string>, ta: string, tb: string, tc: string)
    requires "\n" + Ended(a) == ta && Ended(b) == tb && Ended(c) == tc + "\n"
    ensures "\n" + Ended(a + b + c) == ta + tb + tc + "\n"
  {
    EndedAppend(a + b, c);
    EndedAppend(a, b);
    FourTexts("\n", Ended(a), Ended(b), tc, "\n");
  }

  /** The lines are those of `parts` but for the empty line before, and end with an empty line. */
  predicate Continues(lines: seq<string>, parts: seq<Part>) {
    "\n" + Ended(lines) == TextOf(parts) + "\n"
  }

  /** The lines are those of `parts` and an empty line. */
  predicate Writes(lines: seq<string>, parts: seq<Part>) {
    lines != [] && Ended(lines) == TextOf(parts) + "\n"
  }

  lemma EntityText(m: Model, e: Entity, dialect: Dialect)
    requires Keyed(e) && Generable(m, e.fields, dialect)
    ensures TextOf(EntityParts(m, e, dialect)) ==
      TextOf(DescriptionParts(e)) + PartText(Statement(TableText(m, e, dialect))) + SectionText(e)
  {
    var table := Statement(TableText(m, e, dialect));
    TextAppend(DescriptionParts(e) + [table], IndexSection(e));
    TextAppend(DescriptionParts(e), [table]);
    TextOfOne(table);
    TextOfOne(Blank);
    if e.indexes != [] {
      TextAppend([Blank], IndexParts(e, |e.indexes|));
    }
  }

  /** The lines written for one entity: what follows the empty line before it, up to the empty line after it. */
  method EntityLines(m: Model, e: Entity, dialect: Dialect) returns (r: Option<seq<string>>)
    requires Keyed(e)
    ensures r.Some? <==> Generable(m, e.fields, dialect)
    ensures r.Some? ==> Continues(r.value, PartsOf(m, dialect)(e))
  {
    var description := DescriptionLines(e);
    var table := TableTextLines(m, e, dialect);
    if table.None? {
      return None;
    }
    var indexes := IndexSectionLines(e);
    EntityText(m, e, dialect);
    ThreeSections(description, table.value, indexes,
                  TextOf(DescriptionParts(e)), PartText(Statement(TableText(m, e, dialect))), SectionText(e));
    assert PartsOf(m, dialect)(e) == EntityParts(m, e, dialect);
    r := Some(description + table.value + indexes);
  }

  // ---------------------------------------------------------------------
  // The end of a script
  // ---------------------------------------------------------------------

  lemma TightPart(parts: seq<Part>, p: Part)
    requires Tight(PartText(p))
    ensures Tight(TextOf(parts + [p]))
  {
    TextAppend(parts, [p]);
    TextOfOne(p);
  }

  lemma TightAfter(before: string, after: string)
    requires Tight(after)
    ensures Tight(before + after)
  {
  }

  lemma StatementTight(text: string)
    ensures Tight(PartText(Statement(text)))
  {
  }

  lemma RemarkTight(text: string)
    requires text != [] && !Space(text[|text| - 1])
    ensures Tight(PartText(Remark(text)))
  {
  }

  lemma SectionTight(e: Entity)
    requires Keyed(e)
    ensures SectionText(e) == "" || Tight(SectionText(e))
  {
    if e.indexes != [] {
      var last := IndexText(e, e.indexes[|e.indexes| - 1]);
      StatementTight(last);
      TightPart(IndexParts(e, |e.indexes| - 1), Statement(last));
      TightAfter("\n", TextOf(IndexParts(e, |e.indexes|)));
    }
  }

  lemma TightThree(a: string, b: string, c: string)
    requires Tight(b) && (c == "" || Tight(c))
    ensures Tight(a + b + c)
  {
    if c == "" {
      assert a + b + c == a + b;
    }
  }

  lemma EntityTight(m: Model, e: Entity, dialect: Dialect)
    requires Keyed(e) && Generable(m, e.fields, dialect)
    ensures Tight(TextOf(EntityParts(m, e, dialect)))
  {
    EntityText(m, e, dialect);
    StatementTight(TableText(m, e, dialect));
    SectionTight(e);
    TightThree(TextOf(DescriptionParts(e)), PartText(Statement(TableText(m, e, dialect))), SectionText(e));
  }

  lemma ThreeRemarks(a: Part, b: Part, c: Part)
    requires a.Remark? && b.Remark? && c.Remark?
    ensures TextOf([a, b, c]) + "\n" == Ended(["--" + (" " + a.text), "--" + (" " + b.text), "--" + (" " + c.text), ""])
  {
    var la, lb, lc := "--" + (" " + a.text), "--" + (" " + b.text), "--" + (" " + c.text);
    assert [a, b, c][1..] == [b, c] && [b, c][1..] == [c];
    TextOfOne(c);
    assert [la, lb, lc, ""][1..] == [lb, lc, ""] && [lb, lc, ""][1..] == [lc, ""] && [lc, ""][1..] == [""];
    EndedOne("");
    assert TextOf([b, c]) == lb + "\n" + (lc + "\n");
    assert Ended([lc, ""]) == lc + "\n" + "\n";
    assert Ended([lb, lc, ""]) == lb + "\n" + (lc + "\n" + "\n");
    assert TextOf([a, b, c]) == la + "\n" + (lb + "\n" + (lc + "\n"));
  }

  method HeaderLines(m: Model, dialect: Dialect) returns (lines: seq<string>)
    ensures Writes(lines, HeaderParts(m, dialect))
  {
    lines := ["--" + (" " + HEADER), "--" + (" " + ("Product: " + m.product)),
      "--" + (" " + ("Dialect: " + DialectName(dialect))), ""];
    ThreeRemarks(Remark(HEADER), Remark("Product: " + m.product), Remark("Dialect: " + DialectName(dialect)));
  }

  lemma DialectVisible(dialect: Dialect)
    ensures var text := "Dialect: " + DialectName(dialect); !Space(text[|text| - 1])
  {
    var name := DialectName(dialect);
    var text := "Dialect: " + name;
    assert text[|text| - 1] == name[|name| - 1];
  }

  lemma ThreeTight(a: Part, b: Part, c: Part)
    requires Tight(PartText(c))
    ensures Tight(TextOf([a, b, c]))
  {
    TightPart([a, b], c);
    assert [a, b] + [c] == [a, b, c];
  }

  lemma HeaderTight(m: Model, dialect: Dialect)
    ensures Tight(TextOf(HeaderParts(m, dialect)))
  {
    var text := "Dialect: " + DialectName(dialect);
    DialectVisible(dialect);
    RemarkTight(text);
    ThreeTight(Remark(HEADER), Remark("Product: " + m.product), Remark(text));
  }

  lemma {:induction false} FlattenTight(start: seq<Part>, groups: seq<seq<Part>>)
    requires Tight(TextOf(start)) && forall i :: 0 <= i < |groups| ==> Tight(TextOf(groups[i]))
    ensures Tight(TextOf(Flatten(start, groups)))
    decreases |groups|
  {
    if groups == [] {
    } else {
      var n := |groups| - 1;
      FlattenTight(start, groups[..n]);
      TextAppend(Flatten(start, groups[..n]), groups[n]);
      TightAfter(TextOf(Flatten(start, groups[..n])), TextOf(groups[n]));
    }
  }

  lemma ScriptTight(m: Model, order: seq<Entity>, dialect: Dialect)
    requires AllKeyed(order) && AllGenerable(m, order, dialect)
    ensures Tight(TextOf(ScriptParts(m, order, dialect)))
  {
    var groups := Mapped(PartsOf(m, dialect), order);
    HeaderTight(m, dialect);
    forall i | 0 <= i < |groups| ensures Tight(TextOf(groups[i])) {
      EntityTight(m, order[i], dialect);
    }
    FlattenTight(HeaderParts(m, dialect), groups);
  }

  // ---------------------------------------------------------------------
  // The generator
  // ---------------------------------------------------------------------

  lemma SameMembers(m: Model, a: seq<Entity>, b: seq<Entity>, dialect: Dialect)
    requires forall e :: e in b ==> e in a
    ensures AllKeyed(a) ==> AllKeyed(b)
    ensures AllGenerable(m, a, dialect) ==> AllGenerable(m, b, dialect)
  {
    forall i | 0 <= i < |b| && AllKeyed(a) ensures Keyed(b[i]) {
      assert b[i] in a;
    }
    forall i | 0 <= i < |b| && AllGenerable(m, a, dialect) ensures Generable(m, b[i].fields, dialect) {
      assert b[i] in a;
    }
  }

  lemma OrderKept(m: Model, less: Order, dialect: Dialect)
    ensures AllKeyed(m.entities) <==> AllKeyed(CreationOrder(m, less))
    ensures AllGenerable(m, m.entities, dialect) <==> AllGenerable(m, CreationOrder(m, less), dialect)
  {
    var order := CreationOrder(m, less);
    CreationOrderKeeps(m, less);
    SameMembers(m, order, m.entities, dialect);
    SameMembers(m, m.entities, order, dialect);
  }

  lemma MappedSnoc<T, U>(f: T -> U, s: seq<T>, i: nat)
    requires i < |s|
    ensures Mapped(f, s[..i + 1]) == Mapped(f, s[..i]) + [f(s[i])]
  {
  }

  lemma TextOfMore(start: seq<Part>, groups: seq<seq<Part>>, more: seq<Part>)
    ensures TextOf(Flatten(start, groups + [more])) == TextOf(Flatten(start, groups)) + TextOf(more)
  {
    assert (groups + [more])[..|groups|] == groups;
    TextAppend(Flatten(start, groups), more);
  }

  lemma Stitched(before: string, after: string, a: string, b: string)
    requires before == a + "\n" && "\n" + after == b + "\n"
    ensures before + after == (a + b) + "\n"
  {
    assert before + after == a + ("\n" + after);
  }

  lemma LinesStitched(lines: seq<string>, more: seq<string>, a: string, b: string)
    requires Ended(lines) == a + "\n" && "\n" + Ended(more) == b + "\n"
    ensures Ended(lines + more) == (a + b) + "\n"
  {
    EndedAppend(lines, more);
    Stitched(Ended(lines), Ended(more), a, b);
  }

  lemma WritesGroup(start: seq<Part>, groups: seq<seq<Part>>, group: seq<Part>, lines: seq<string>, more: seq<string>)
    requires Writes(lines, Flatten(start, groups)) && Continues(more, group)
    ensures Writes(lines + more, Flatten(start, groups + [group]))
  {
    TextOfMore(start, groups, group);
    LinesStitched(lines, more, TextOf(Flatten(start, groups)), TextOf(group));
  }

  /** The parts of the script of a whole schema. */
  function WholeScript(m: Model, less: Order, dialect: Dialect): seq<Part> {
    ScriptParts(m, CreationOrder(m, less), dialect)
  }

  predicate GenerableTo(m: Model, order: seq<Entity>, n: nat, dialect: Dialect) {
    n <= |order| && forall i :: 0 <= i < n ==> Generable(m, order[i].fields, dialect)
  }

  lemma GenerableMore(m: Model, order: seq<Entity>, n: nat, dialect: Dialect)
    requires n < |order| && GenerableTo(m, order, n, dialect) && Generable(m, order[n].fields, dialect)
    ensures GenerableTo(m, order, n + 1, dialect)
  {
    forall i | 0 <= i < n + 1 ensures Generable(m, order[i].fields, dialect) {
      if i == n {
        assert order[i] == order[n];
      }
    }
  }

  /** `start` and the parts of the first `n` entities. */
  ghost function Begun(m: Model, order: seq<Entity>, n: nat, dialect: Dialect, start: seq<Part>): seq<Part>
    requires n <= |order|
  {
    Flatten(start, Mapped(PartsOf(m, dialect), order[..n]))
  }

  lemma WritesMore(m: Model, order: seq<Entity>, n: nat, dialect: Dialect, start: seq<Part>, lines: seq<string>,
    more: seq<string>)
    requires n < |order|
    requires Writes(lines, Begun(m, order, n, dialect, start)) && Continues(more, PartsOf(m, dialect)(order[n]))
    ensures Writes(lines + more, Begun(m, order, n + 1, dialect, start))
  {
    MappedSnoc(PartsOf(m, dialect), order, n);
    WritesGroup(start, Mapped(PartsOf(m, dialect), order[..n]), PartsOf(m, dialect)(order[n]), lines, more);
  }

  lemma BegunEnds(m: Model, order: seq<Entity>, dialect: Dialect, start: seq<Part>)
    ensures Begun(m, order, 0, dialect, start) == start
    ensures Begun(m, order, |order|, dialect, start) == Flatten(start, Mapped(PartsOf(m, dialect), order))
  {
    assert order[..|order|] == order;
  }

  /** The lines of the entities in `order`, after the lines `header` of some parts `start`. */
  method ScriptLines(m: Model, order: seq<Entity>, dialect: Dialect, header: seq<string>, ghost start: seq<Part>)
    returns (r: Option<seq<string>>)
    requires AllKeyed(order) && Writes(header, start)
    ensures r.Some? <==> AllGenerable(m, order, dialect)
    ensures r.Some? ==> Writes(r.value, Begun(m, order, |order|, dialect, start))
  {
    var lines := header;
    BegunEnds(m, order, dialect, start);
    for i := 0 to |order|
      invariant GenerableTo(m, order, i, dialect)
      invariant Writes(lines, Begun(m, order, i, dialect, start))
    {
      var more := EntityLines(m, order[i], dialect);
      if more.None? {
        return None;
      }
      GenerableMore(m, order, i, dialect);
      WritesMore(m, order, i, dialect, start, lines, more.value);
      lines := lines + more.value;
    }
    r := Some(lines);
  }

  lemma ScriptEnds(joined: string, script: string)
    requires joined + "\n" == script + "\n" && Tight(script)
    ensures TrimEnd(joined) + "\n" == script
  {
    assert joined == (joined + "\n")[..|script|] == script;
    TrimTight(script);
  }

  lemma LinesEnd(lines: seq<string>, script: string)
    requires lines != [] && Ended(lines) == script + "\n" && Tight(script)
    ensures TrimEnd(Join(lines, "\n")) + "\n" == script
  {
    EndedJoin(lines);
    ScriptEnds(Join(lines, "\n"), script);
  }

  /** `None` when some column has no type or refers to nothing. */
  method GenerateSql(m: Model, dialect: Dialect, less: Order) returns (r: Option<string>)
    requires AllKeyed(m.entities)
    ensures r.Some? <==> AllGenerable(m, m.entities, dialect)
    ensures r.Some? ==> r.value == TextOf(WholeScript(m, less, dialect))
  {
    var order := TopologicalEntities(m.entities, less);
    OrderKept(m, less, dialect);
    var header := HeaderLines(m, dialect);
    BegunEnds(m, order, dialect, HeaderParts(m, dialect));
    var lines := ScriptLines(m, order, dialect, header, HeaderParts(m, dialect));
    if lines.None? {
      return None;
    }
    ScriptTight(m, order, dialect);
    LinesEnd(lines.value, TextOf(ScriptParts(m, order, dialect)));
    r := Some(TrimEnd(Join(lines.value, "\n")) + "\n");
  }

  // ---------------------------------------------------------------------
  // The script reads back
  // ---------------------------------------------------------------------

  function IndexTexts(e: Entity, n: nat): seq<string>
    requires Keyed(e) && n <= |e.indexes|
  {
    if n == 0 then [] else IndexTexts(e, n - 1) + [IndexText(e, e.indexes[n - 1])]
  }

  /** The table of an entity and its indexes. */
  function CreateEntity(m: Model, e: Entity, dialect: Dialect): seq<string>
    requires Keyed(e) && Generable(m, e.fields, dialect)
  {
    [TableText(m, e, dialect)] + IndexTexts(e, |e.indexes|)
  }

  function CreateOf(m: Model, dialect: Dialect): Entity -> seq<string> {
    (e: Entity) => if Keyed(e) && Generable(m, e.fields, dialect) then CreateEntity(m, e, dialect) else []
  }

  /** The same for the entities of `order`, one after the other. */
  function CreateStatements(m: Model, order: seq<Entity>, dialect: Dialect): seq<string> {
    Flatten([], Mapped(CreateOf(m, dialect), order))
  }

  lemma {:induction false} StatementTextsAppend(a: seq<Part>, b: seq<Part>)
    ensures StatementTexts(a + b) == StatementTexts(a) + StatementTexts(b)
    decreases |a|
  {
    if a == [] {
      assert a + b == b;
    } else {
      assert (a + b)[1..] == a[1..] + b;
      StatementTextsAppend(a[1..], b);
    }
  }

  lemma OneStatement(text: string)
    ensures StatementTexts([Statement(text)]) == [text]
  {
    assert [Statement(text)][1..] == [];
  }

  lemma OneBlank()
    ensures StatementTexts([Blank]) == []
  {
    assert [Blank][1..] == [];
  }

  lemma {:induction false} IndexStatements(e: Entity, n: nat)
    requires Keyed(e) && n <= |e.indexes|
    ensures StatementTexts(IndexParts(e, n)) == IndexTexts(e, n)
    decreases n
  {
    if n == 0 {
    } else {
      var text := IndexText(e, e.indexes[n - 1]);
      IndexStatements(e, n - 1);
      StatementTextsAppend(IndexParts(e, n - 1), [Statement(text)]);
      OneStatement(text);
    }
  }

  lemma SectionStatements(e: Entity)
    requires Keyed(e)
    ensures StatementTexts(IndexSection(e)) == IndexTexts(e, |e.indexes|)
  {
    IndexStatements(e, |e.indexes|);
    OneBlank();
    if e.indexes != [] {
      StatementTextsAppend([Blank], IndexParts(e, |e.indexes|));
    }
  }

  lemma DescriptionIsNoStatement(e: Entity)
    ensures StatementTexts(DescriptionParts(e)) == []
  {
    OneBlank();
    if e.description != [] {
      assert DescriptionParts(e)[1..] == [Remark(OneLine(e.description))];
      assert [Remark(OneLine(e.description))][1..] == [];
    }
  }

  lemma EntityStatements(m: Model, e: Entity, dialect: Dialect)
    requires Keyed(e) && Generable(m, e.fields, dialect)
    ensures StatementTexts(EntityParts(m, e, dialect)) == CreateEntity(m, e, dialect)
  {
    var text := TableText(m, e, dialect);
    DescriptionIsNoStatement(e);
    SectionStatements(e);
    OneStatement(text);
    StatementTextsAppend(DescriptionParts(e) + [Statement(text)], IndexSection(e));
    StatementTextsAppend(DescriptionParts(e), [Statement(text)]);
  }

  lemma HeaderIsNoStatement(m: Model, dialect: Dialect)
    ensures StatementTexts(HeaderParts(m, dialect)) == []
  {
    var parts := HeaderParts(m, dialect);
    assert parts[1..][1..][1..] == [];
    assert StatementTexts(parts[1..][1..]) == [];
    assert StatementTexts(parts[1..]) == [];
  }

  lemma {:induction false} FlattenStatements(start: seq<Part>, groups: seq<seq<Part>>, texts: seq<seq<string>>)
    requires |groups| == |texts| && forall i :: 0 <= i < |groups| ==> StatementTexts(groups[i]) == texts[i]
    ensures StatementTexts(Flatten(start, groups)) == Flatten(StatementTexts(start), texts)
    decreases |groups|
  {
    if groups == [] {
    } else {
      var n := |groups| - 1;
      FlattenStatements(start, groups[..n], texts[..n]);
      StatementTextsAppend(Flatten(start, groups[..n]), groups[n]);
    }
  }

  lemma ScriptStatements(m: Model, order: seq<Entity>, dialect: Dialect)
    requires AllKeyed(order) && AllGenerable(m, order, dialect)
    ensures StatementTexts(ScriptParts(m, order, dialect)) == CreateStatements(m, order, dialect)
  {
    var groups, texts := Mapped(PartsOf(m, dialect), order), Mapped(CreateOf(m, dialect), order);
    forall i | 0 <= i < |groups| ensures StatementTexts(groups[i]) == texts[i] {
      EntityStatements(m, order[i], dialect);
    }
    HeaderIsNoStatement(m, dialect);
    FlattenStatements(HeaderParts(m, dialect), groups, texts);
  }

  /**
    For every accepted schema, cutting the script at its semicolons and dropping the comment lines before each
    statement gives back exactly the tables in creation order, each with its indexes, and nothing else.
   */
  lemma ScriptReadsBack(m: Model, less: Order, dialect: Dialect)
    requires SafeModel(m) && AllKeyed(m.entities) && AllGenerable(m, m.entities, dialect)
    ensures ReadStatements(TextOf(WholeScript(m, less, dialect))) ==
      CreateStatements(m, CreationOrder(m, less), dialect) + [[]]
  {
    var order := CreationOrder(m, less);
    OrderKept(m, less, dialect);
    CreationOrderKeeps(m, less);
    assert AllSafe(order) by {
      forall i | 0 <= i < |order| ensures SafeEntity(order[i]) {
        assert order[i] in m.entities;
      }
    }
    ScriptWellFormed(m, order, dialect);
    PartsReadBack(WholeScript(m, less, dialect));
    ScriptStatements(m, order, dialect);
  }
}
