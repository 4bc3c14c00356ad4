/**
  The checks that let a schema's SQL fragments into generated statements, and
  what an accepted fragment cannot do there.
 */
module SqlGuard {
  import opened SqlText

  datatype Reason =
    | EmptyText
    | SeveralLines
    | TerminatorOrComment
    | ClosesOutside
    | TopLevelComma
    | UnterminatedLiteral
    | UnbalancedParentheses
    | StatementKeyword

  datatype Verdict = Accepted | Rejected(reason: Reason)

  predicate LineBreak(c: char) {
    c == '\0' || LineEnd(c)
  }

  predicate SingleLine(s: string) {
    forall i :: 0 <= i < |s| ==> !LineBreak(s[i])
  }

  /** `s` contains `a` immediately followed by `b`. */
  predicate HasPair(s: string, a: char, b: char) {
    exists i :: 0 <= i < |s| - 1 && s[i] == a && s[i + 1] == b
  }

  predicate TerminatesOrComments(s: string) {
    ';' in s || HasPair(s, '-', '-') || HasPair(s, '/', '*') || HasPair(s, '*', '/')
  }

  predicate WordChar(c: char) {
    'a' <= c <= 'z' || 'A' <= c <= 'Z' || '0' <= c <= '9' || c == '_'
  }

  function Lower(s: string): string
    decreases |s|
  {
    if s == [] then []
    else [if 'A' <= s[0] <= 'Z' then s[0] - 'A' + 'a' else s[0]] + Lower(s[1..])
  }

  /** `s[i..j]` starts and ends with word characters, and none comes right before or after it. */
  predicate Bounded(s: string, i: int, j: int) {
    && 0 <= i < j <= |s| && WordChar(s[i]) && WordChar(s[j - 1])
    && (i > 0 ==> !WordChar(s[i - 1])) && (j < |s| ==> !WordChar(s[j]))
  }

  /** A whole word of `s`, ignoring case, is one of `words`. */
  predicate HasWord(s: string, words: set<string>) {
    exists i, j :: 0 <= i < j <= |s| && Bounded(s, i, j) && Lower(s[i..j]) in words
  }

  const STATEMENT_KEYWORDS: set<string> := {
    "alter", "call", "comment", "copy", "create", "delete", "do", "drop", "execute", "grant", "insert", "listen",
    "load", "merge", "notify", "revoke", "select", "security", "set", "truncate", "update", "vacuum", "with"}

  const TYPE_CLAUSES: set<string> := {
    "check", "collate", "constraint", "default", "generated", "not", "null", "primary", "references", "unique"}

  /** The text with the contents of every string literal left out; a doubled quote does not end a literal. */
  function Bare(s: string, quoted: bool): string
    decreases |s|
  {
    if s == [] then []
    else if quoted then
      if s[0] == '\'' && |s| > 1 && s[1] == '\'' then Bare(s[2..], true)
      else Bare(s[1..], s[0] != '\'')
    else if s[0] == '\'' then "''" + Bare(s[1..], true)
    else [s[0]] + Bare(s[1..], false)
  }

  /**
    An expression is accepted when it is one line, has no terminator or comment mark anywhere, keeps to itself
    when read as SQL, and uses no statement keyword outside its literals.
   */
  predicate SafeExpression(s: string) {
    && s != [] && SingleLine(s) && !TerminatesOrComments(s)
    && Closed(s, false)
    && !HasWord(Bare(s, false), STATEMENT_KEYWORDS)
  }

  lemma {:induction false} BareOfUnquoted(s: string)
    requires '\'' !in s
    ensures Bare(s, false) == s
    decreases |s|
  {
    if s == [] {
    } else {
      BareOfUnquoted(s[1..]);
      assert s == [s[0]] + s[1..];
    }
  }

  lemma WordBetweenSpaces(before: string, word: string, after: string, words: set<string>)
    requires word != [] && WordChar(word[0]) && WordChar(word[|word| - 1]) && Lower(word) in words
    ensures HasWord(before + " " + word + " " + after, words)
  {
    var s, i, j := before + " " + word + " " + after, |before| + 1, |before| + 1 + |word|;
    assert s[i..j] == word && s[i - 1] == ' ' && s[j] == ' ';
    assert Bounded(s, i, j);
  }

  lemma UnquotedWord(before: string, word: string, after: string, s: string, words: set<string>)
    requires word != [] && WordChar(word[0]) && WordChar(word[|word| - 1]) && Lower(word) in words
    requires '\'' !in before && '\'' !in word && '\'' !in after && s == before + " " + word + " " + after
    ensures HasWord(Bare(s, false), words)
  {
    assert '\'' !in s;
    BareOfUnquoted(s);
    WordBetweenSpaces(before, word, after, words);
  }

  /** A statement keyword between spaces, in whatever case and outside of literals, is never let through. */
  lemma KeywordRefused(before: string, word: string, after: string)
    requires word != [] && WordChar(word[0]) && WordChar(word[|word| - 1])
    requires Lower(word) in {
      "alter", "call", "comment", "copy", "create", "delete", "do", "drop", "execute", "grant", "insert", "listen",
      "load", "merge", "notify", "revoke", "select", "security", "set", "truncate", "update", "vacuum", "with"}
    requires '\'' !in before && '\'' !in word && '\'' !in after
    ensures !SafeExpression(before + " " + word + " " + after)
  {
    UnquotedWord(before, word, after, before + " " + word + " " + after, STATEMENT_KEYWORDS);
  }

  /** The reading of `value[..k]` stands in code at depth 0, where `value[k]` would reach outside the expression. */
  ghost predicate Escapes(value: string, k: int) {
    0 <= k < |value| && InCode(Read(START, value[..k]).mode) && Read(START, value[..k]).depth == 0
    && (value[k] == ')' || value[k] == ',')
  }

  lemma BareNext(value: string, index: int)
    requires 0 <= index < |value|
    ensures var c, rest := value[index], value[index + 1..];
      && Bare(value[index..], false) == (if c == '\'' then "''" + Bare(rest, true) else [c] + Bare(rest, false))
      && Bare(value[index..], true) ==
         if c == '\'' && index + 1 < |value| && value[index + 1] == '\'' then Bare(value[index + 2..], true)
         else Bare(rest, c != '\'')
  {
    assert value[index..][1..] == value[index + 1..];
    if index + 1 < |value| {
      assert value[index..][2..] == value[index + 2..];
    }
  }

  /** The scanner's flags agree with the reading of the first `index` characters, which have been in order. */
  ghost predicate Reached(value: string, index: nat, depth: int, quoted: bool)
  {
    index <= |value| &&
    var at := Read(START, value[..index]);
    && depth >= 0 && at.depth == depth
    && (if quoted then at.mode == Quote else InCode(at.mode))
    && (at.mode == Dash ==> index > 0 && value[index - 1] == '-')
    && (at.mode == Slash ==> index > 0 && value[index - 1] == '/')
    && Fits(START, value[..index], 0, false)
  }

  lemma ReadNext(value: string, index: nat)
    requires index < |value|
    ensures Read(START, value[..index + 1]) == Feed(Read(START, value[..index]), value[index])
    ensures Fits(START, value[..index + 1], 0, false) <==>
      Fits(START, value[..index], 0, false) && MayFollow(Read(START, value[..index]), value[index], 0, false)
  {
    var c := [value[index]];
    assert value[..index + 1] == value[..index] + c;
    ReadAppend(START, value[..index], c);
    FitsAppend(START, value[..index], c, 0, false);
    assert c[1..] == [];
  }

  lemma PairedAt(s: string, i: int, a: char, b: char)
    requires 0 < i < |s| && s[i - 1] == a && s[i] == b
    ensures HasPair(s, a, b)
  {
    var j := i - 1;
    assert s[j] == a && s[j + 1] == b;
  }

  lemma NotPaired(s: string, i: int, a: char, b: char)
    requires 0 <= i < |s| && !HasPair(s, a, b)
    ensures i > 0 && s[i - 1] == a ==> s[i] != b
  {
    if i > 0 && s[i - 1] == a && s[i] == b {
      PairedAt(s, i, a, b);
      assert false;
    }
  }

  lemma StepReached(value: string, index: nat, depth: int, quoted: bool)
    requires index < |value| && Reached(value, index, depth, quoted) && !TerminatesOrComments(value)
    requires !quoted && depth == 0 ==> value[index] != ')' && value[index] != ','
    ensures var c := value[index];
      Reached(value, index + 1,
              if quoted then depth else if c == '(' then depth + 1 else if c == ')' then depth - 1 else depth,
              if c == '\'' then !quoted else quoted)
  {
    ReadNext(value, index);
    assert value[index] != ';';
    NotPaired(value, index, '-', '-');
    NotPaired(value, index, '/', '*');
  }

  lemma EscapesUnsafe(value: string, k: int)
    requires Escapes(value, k)
    ensures !Closed(value, false)
  {
    ReadNext(value, k);
    assert value == value[..k + 1] + value[k + 1..];
    FitsAppend(START, value[..k + 1], value[k + 1..], 0, false);
  }

  /** Why the quote and parenthesis scan stopped. */
  ghost predicate ScanFails(value: string, reason: Reason) {
    match reason
    case ClosesOutside => exists k :: Escapes(value, k) && value[k] == ')'
    case TopLevelComma => exists k :: Escapes(value, k) && value[k] == ','
    case UnterminatedLiteral => Read(START, value).mode == Quote
    case UnbalancedParentheses => InCode(Read(START, value).mode) && Read(START, value).depth > 0
    case _ => false
  }

  /**
    `unquoted` is what the scanner keeps of the first `index` characters, read from outside a literal or, with
    `quoted`, inside.
   */
  predicate Gathered(value: string, index: nat, quoted: bool, unquoted: string) {
    index <= |value| && unquoted + Bare(value[index..], quoted) == Bare(value, false)
  }

  lemma GatheredNone(value: string)
    ensures Gathered(value, 0, false, "")
  {
    assert value[0..] == value;
  }

  lemma GatheredAll(value: string, quoted: bool, unquoted: string)
    requires Gathered(value, |value|, quoted, unquoted)
    ensures unquoted == Bare(value, false)
  {
    assert value[|value|..] == [] && unquoted + [] == unquoted;
  }

  lemma GatheredCode(value: string, index: nat, unquoted: string)
    requires index < |value| && value[index] != '\'' && Gathered(value, index, false, unquoted)
    ensures Gathered(value, index + 1, false, unquoted + [value[index]])
  {
    BareNext(value, index);
    assert unquoted + ([value[index]] + Bare(value[index + 1..], false)) ==
      (unquoted + [value[index]]) + Bare(value[index + 1..], false);
  }

  lemma GatheredOpening(value: string, index: nat, unquoted: string)
    requires index < |value| && value[index] == '\'' && Gathered(value, index, false, unquoted)
    ensures Gathered(value, index + 1, true, unquoted + "''")
  {
    BareNext(value, index);
    assert unquoted + ("''" + Bare(value[index + 1..], true)) == (unquoted + "''") + Bare(value[index + 1..], true);
  }

  lemma GatheredInside(value: string, index: nat, unquoted: string)
    requires index < |value| && Gathered(value, index, true, unquoted)
    ensures
      if value[index] == '\'' && index + 1 < |value| && value[index + 1] == '\'' then
        Gathered(value, index + 2, true, unquoted)
      else Gathered(value, index + 1, value[index] != '\'', unquoted)
  {
    BareNext(value, index);
  }

  /** The loop over the characters: quotes with doubled quotes, nesting depth, and the text outside literals. */
  method ScanExpression(value: string) returns (r: Verdict, unquoted: string)
    requires !TerminatesOrComments(value)
    ensures r.Accepted? <==> Closed(value, false)
    ensures r.Accepted? ==> unquoted == Bare(value, false)
    ensures r.Rejected? ==> ScanFails(value, r.reason)
  {
    var depth := 0;
    var quoted := false;
    unquoted := "";
    var index := 0;
    assert value[..0] == [];
    GatheredNone(value);
    while index < |value|
      invariant 0 <= index <= |value|
      invariant Reached(value, index, depth, quoted)
      invariant Gathered(value, index, quoted, unquoted)
    {
      var c := value[index];
      if quoted {
        StepReached(value, index, depth, true);
        GatheredInside(value, index, unquoted);
        if c == '\'' && index + 1 < |value| && value[index + 1] == '\'' {
          StepReached(value, index + 1, depth, false);
          index := index + 1;
        } else if c == '\'' {
          quoted := false;
        }
      } else if c == '\'' {
        StepReached(value, index, depth, false);
        GatheredOpening(value, index, unquoted);
        quoted := true;
        unquoted := unquoted + "''";
      } else {
        if c == '(' {
          StepReached(value, index, depth, false);
          depth := depth + 1;
        } else if c == ')' {
          depth := depth - 1;
          if depth < 0 {
            EscapesUnsafe(value, index);
            return Rejected(ClosesOutside), unquoted;
          }
          StepReached(value, index, depth + 1, false);
        } else if c == ',' && depth == 0 {
          EscapesUnsafe(value, index);
          return Rejected(TopLevelComma), unquoted;
        } else {
          StepReached(value, index, depth, false);
        }
        GatheredCode(value, index, unquoted);
        unquoted := unquoted + [c];
      }
      index := index + 1;
    }
    assert value[..|value|] == value;
    GatheredAll(value, quoted, unquoted);
    if quoted {
      return Rejected(UnterminatedLiteral), unquoted;
    }
    if depth != 0 {
      return Rejected(UnbalancedParentheses), unquoted;
    }
    r := Accepted;
  }

  method AssertSqlExpression(value: string) returns (r: Verdict)
    ensures r.Accepted? <==> SafeExpression(value)
    ensures r.Rejected? ==>
      match r.reason
      case EmptyText => value == []
      case SeveralLines => !SingleLine(value)
      case TerminatorOrComment => TerminatesOrComments(value)
      case StatementKeyword => Closed(value, false) && HasWord(Bare(value, false), STATEMENT_KEYWORDS)
      case _ => ScanFails(value, r.reason)
  {
    if value == [] {
      return Rejected(EmptyText);
    }
    if !SingleLine(value) {
      return Rejected(SeveralLines);
    }
    if TerminatesOrComments(value) {
      return Rejected(TerminatorOrComment);
    }
    var unquoted;
    r, unquoted := ScanExpression(value);
    if r.Accepted? && HasWord(unquoted, STATEMENT_KEYWORDS) {
      r := Rejected(StatementKeyword);
    }
  }
}
