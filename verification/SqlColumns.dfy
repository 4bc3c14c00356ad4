/**
  Reading a column clause from its text alone, and when what it was written from reads
  back.

  Settings are told by their first words and are looked for in the order they come in.
 */
module SqlColumns {
  import opened Options
  import opened SqlReader

  // ---------------------------------------------------------------------
  // Reading a column clause
  // ---------------------------------------------------------------------

  datatype Target = Target(table: string, column: string, onUpdate: string, onDelete: string)

  datatype ColumnFacts = ColumnFacts(
    column: string, typeText: string, required: bool, default: Option<string>, unique: bool, target: Option<Target>)

  datatype Parsed<T> = Parsed(value: T, rest: seq<string>)

  const SETTINGS: set<Keyword> := {Not, Default, Unique, References}
  const AFTER_DEFAULT: set<Keyword> := {Unique, References}

  predicate Opens(words: seq<string>, keyword: Keyword) {
    words != [] && Is(words[0], keyword)
  }

  function ReadRequired(words: seq<string>): Parsed<bool> {
    if Opens(words, Not) && Opens(words[1..], Null) then Parsed(true, words[2..]) else Parsed(false, words)
  }

  /** A default goes on until the next setting; that the word may be one of its own is not seen. */
  function ReadDefault(words: seq<string>): Parsed<Option<string>> {
    if !Opens(words, Default) then Parsed(None, words)
    else Parsed(Some(Phrase(Before(words[1..], AFTER_DEFAULT))), From(words[1..], AFTER_DEFAULT))
  }

  function ReadUnique(words: seq<string>): Parsed<bool> {
    if Opens(words, Unique) then Parsed(true, words[1..]) else Parsed(false, words)
  }

  function ReadAction(words: seq<string>, event: Keyword): Parsed<string> {
    if Opens(words, On) && Opens(words[1..], event) then
      Parsed(Phrase(Before(words[2..], {On})), From(words[2..], {On}))
    else Parsed([], words)
  }

  function Unparenthesised(word: string): string {
    if |word| >= 2 then word[1..|word| - 1] else word
  }

  function ReadTarget(words: seq<string>): Parsed<Option<Target>> {
    if |words| < 3 || !Opens(words, References) then Parsed(None, words)
    else
      var onUpdate := ReadAction(words[3..], Update);
      var onDelete := ReadAction(onUpdate.rest, Delete);
      Parsed(Some(Target(words[1], Unparenthesised(words[2]), onUpdate.value, onDelete.value)), onDelete.rest)
  }

  /** `None` when words are left over. */
  function ReadSettings(column: string, typeText: string, words: seq<string>): Option<ColumnFacts> {
    var required := ReadRequired(words);
    var default := ReadDefault(required.rest);
    var unique := ReadUnique(default.rest);
    var target := ReadTarget(unique.rest);
    if target.rest != [] then None
    else Some(ColumnFacts(column, typeText, required.value, default.value, unique.value, target.value))
  }

  function ReadColumnWords(words: seq<string>): Option<ColumnFacts> {
    if |words| < 3 || words[0] != [] || words[1] != [] then None
    else ReadSettings(words[2], Phrase(Before(words[3..], SETTINGS)), From(words[3..], SETTINGS))
  }

  /** Indentation, the column and its type, and then the settings. */
  function ReadColumn(clause: string): Option<ColumnFacts> {
    ReadColumnWords(Words(clause))
  }

  // ---------------------------------------------------------------------
  // Reading back the words of facts
  // ---------------------------------------------------------------------

  function RequiredWords(required: bool): seq<string> {
    if required then [Spelled(Not), Spelled(Null)] else []
  }

  function DefaultWords(default: Option<string>): seq<string> {
    if default.Some? then [Spelled(Default)] + Words(default.value) else []
  }

  function UniqueWords(unique: bool): seq<string> {
    if unique then [Spelled(Unique)] else []
  }

  function ActionWords(event: Keyword, action: string): seq<string> {
    if action == [] then [] else [Spelled(On), Spelled(event)] + Words(action)
  }

  function TargetWords(target: Option<Target>): seq<string> {
    if target.None? then []
    else
      var t := target.value;
      [Spelled(References), t.table, Parenthesised(t.column)]
      + (ActionWords(Update, t.onUpdate) + ActionWords(Delete, t.onDelete))
  }

  function SettingWords(facts: ColumnFacts): seq<string> {
    RequiredWords(facts.required)
    + (DefaultWords(facts.default) + (UniqueWords(facts.unique) + TargetWords(facts.target)))
  }

  function ColumnWords(facts: ColumnFacts): seq<string> {
    ["", "", facts.column] + (Words(facts.typeText) + SettingWords(facts))
  }

  lemma LedBy(words: seq<string>, k: Keyword, keywords: set<Keyword>)
    requires words != [] && words[0] == Spelled(k)
    ensures Is(words[0], k)
    ensures k in keywords ==> Led(words, keywords)
    ensures forall j :: j != k ==> !Is(words[0], j)
  {
    IsSpelled(k);
    forall j | j != k ensures !Is(words[0], j) {
      if Is(words[0], j) {
        IsOne(words[0], j, k);
      }
    }
  }

  lemma RequiredRead(required: bool, rest: seq<string>)
    requires !Opens(rest, Not)
    ensures ReadRequired(RequiredWords(required) + rest) == Parsed(required, rest)
  {
    var words := RequiredWords(required) + rest;
    if required {
      IsSpelled(Not);
      IsSpelled(Null);
      assert words[1..][0] == Spelled(Null) && words[2..] == rest;
    } else {
      assert words == rest;
    }
  }

  lemma UniqueRead(unique: bool, rest: seq<string>)
    requires !Opens(rest, Unique)
    ensures ReadUnique(UniqueWords(unique) + rest) == Parsed(unique, rest)
  {
    var words := UniqueWords(unique) + rest;
    if unique {
      IsSpelled(Unique);
      assert words[1..] == rest;
    } else {
      assert words == rest;
    }
  }

  /** A default reads back exactly when none of its own words looks like the next setting. */
  lemma DefaultRead(default: Option<string>, rest: seq<string>)
    requires !Opens(rest, Default) && Led(rest, AFTER_DEFAULT)
    requires default.Some? ==> default.value != []
    ensures var read := ReadDefault(DefaultWords(default) + rest);
      if default.Some? && !Free(Words(default.value), AFTER_DEFAULT) then read.value != default
      else read == Parsed(default, rest)
  {
    var words := DefaultWords(default) + rest;
    if default.None? {
      assert words == rest;
    } else {
      var own := Words(default.value);
      IsSpelled(Default);
      assert words[1..] == own + rest;
      if Free(own, AFTER_DEFAULT) {
        StopsThere(own, rest, AFTER_DEFAULT);
        PhraseOfWords(default.value);
      } else {
        var n := StopsEarlier(own, rest, AFTER_DEFAULT);
        FewerWords(default.value, n);
      }
    }
  }

  lemma ActionReadOn(event: Keyword, action: string, words: seq<string>, rest: seq<string>)
    requires Free(Words(action), {On}) && Led(rest, {On})
    requires words == [Spelled(On), Spelled(event)] + (Words(action) + rest)
    ensures ReadAction(words, event) == Parsed(action, rest)
  {
    IsSpelled(On);
    IsSpelled(event);
    assert words[1..][0] == Spelled(event) && words[2..] == Words(action) + rest;
    StopsThere(Words(action), rest, {On});
    PhraseOfWords(action);
  }

  lemma ActionRead(event: Keyword, action: string, rest: seq<string>)
    requires Free(Words(action), {On}) && Led(rest, {On})
    requires action == [] ==> !(Opens(rest, On) && Opens(rest[1..], event))
    ensures ReadAction(ActionWords(event, action) + rest, event) == Parsed(action, rest)
  {
    var words := ActionWords(event, action) + rest;
    if action == [] {
      assert words == rest;
    } else {
      assert words == [Spelled(On), Spelled(event)] + (Words(action) + rest);
      ActionReadOn(event, action, words, rest);
    }
  }

  lemma DeletionLed(action: string)
    ensures Led(ActionWords(Delete, action), {On})
    ensures var words := ActionWords(Delete, action); !(Opens(words, On) && Opens(words[1..], Update))
  {
    if action != [] {
      var words := ActionWords(Delete, action);
      LedBy(words, On, {On});
      LedBy(words[1..], Delete, {});
    }
  }

  predicate Calm(target: Option<Target>) {
    target.Some? ==> Free(Words(target.value.onUpdate), {On}) && Free(Words(target.value.onDelete), {On})
  }

  lemma TargetRead(target: Option<Target>)
    requires Calm(target)
    ensures ReadTarget(TargetWords(target)) == Parsed(target, [])
  {
    if target.Some? {
      var t := target.value;
      var words := TargetWords(target);
      var update, delete := ActionWords(Update, t.onUpdate), ActionWords(Delete, t.onDelete);
      IsSpelled(References);
      assert words[3..] == update + delete;
      assert Parenthesised(t.column)[1..|t.column| + 1] == t.column;
      assert delete == delete + [];
      DeletionLed(t.onDelete);
      ActionRead(Update, t.onUpdate, delete);
      ActionRead(Delete, t.onDelete, []);
    }
  }

  /** What the words after a setting may start with. */
  lemma SettingsLed(facts: ColumnFacts)
    ensures var target := TargetWords(facts.target);
      var unique := UniqueWords(facts.unique) + target;
      var default := DefaultWords(facts.default) + unique;
      && !Opens(target, Unique)
      && !Opens(unique, Default) && Led(unique, AFTER_DEFAULT)
      && !Opens(default, Not) && Led(default, SETTINGS)
      && Led(RequiredWords(facts.required) + default, SETTINGS)
  {
    var target := TargetWords(facts.target);
    var unique := UniqueWords(facts.unique) + target;
    var default := DefaultWords(facts.default) + unique;
    var all := RequiredWords(facts.required) + default;
    if facts.target.Some? {
      LedBy(target, References, AFTER_DEFAULT);
      LedBy(target, References, SETTINGS);
    }
    if facts.unique {
      LedBy(unique, Unique, AFTER_DEFAULT);
      LedBy(unique, Unique, SETTINGS);
    } else {
      assert unique == target;
    }
    if facts.default.Some? {
      LedBy(default, Default, SETTINGS);
    } else {
      assert default == unique;
    }
    if facts.required {
      LedBy(all, Not, SETTINGS);
    } else {
      assert all == default;
    }
  }

  /** The default has a top-level word that also starts a later setting. */
  predicate Misleading(default: Option<string>) {
    default.Some? && !Free(Words(default.value), AFTER_DEFAULT)
  }

  predicate Readable(facts: ColumnFacts) {
    && Free(Words(facts.typeText), SETTINGS) && Calm(facts.target)
    && (facts.default.Some? ==> facts.default.value != [])
  }

  lemma SettingsRead(facts: ColumnFacts)
    requires Readable(facts)
    ensures ReadSettings(facts.column, facts.typeText, SettingWords(facts)) == Some(facts) <==>
      !Misleading(facts.default)
  {
    var target := TargetWords(facts.target);
    var unique := UniqueWords(facts.unique) + target;
    var default := DefaultWords(facts.default) + unique;
    SettingsLed(facts);
    RequiredRead(facts.required, default);
    DefaultRead(facts.default, unique);
    UniqueRead(facts.unique, target);
    TargetRead(facts.target);
  }

  /** Facts read back from their words exactly when the default does not mislead. */
  lemma WordsReadBack(facts: ColumnFacts)
    requires Readable(facts)
    ensures ReadColumnWords(ColumnWords(facts)) == Some(facts) <==> !Misleading(facts.default)
  {
    var words := ColumnWords(facts);
    assert words[3..] == Words(facts.typeText) + SettingWords(facts);
    SettingsLed(facts);
    StopsThere(Words(facts.typeText), SettingWords(facts), SETTINGS);
    PhraseOfWords(facts.typeText);
    SettingsRead(facts);
  }
}
