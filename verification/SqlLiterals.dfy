/**
  SQL literals keep to themselves and read back, whatever they hold.
 */
module SqlLiterals {
  import opened SqlText
  import opened SqlGuard
  import opened SqlDdl

  lemma {:induction false} EscapedReads(s: string, list: bool)
    ensures Fits(Lex(Quote, 0), Escaped(s), 0, list)
    ensures Read(Lex(Quote, 0), Escaped(s)) == Lex(Quote, 0)
    decreases |s|
  {
    if s == [] {
    } else {
      EscapedReads(s[1..], list);
      var e, rest := Escaped(s), Escaped(s[1..]);
      if s[0] == '\'' {
        assert e == "''" + rest && e[1..] == "'" + rest && e[1..][1..] == rest;
      } else {
        assert e == [s[0]] + rest && e[1..] == rest;
      }
    }
  }

  lemma QuotedClosed(s: string, list: bool)
    ensures Closed(Quoted(s), list)
  {
    var e := Escaped(s);
    EscapedReads(s, list);
    assert Quoted(s)[1..] == e + "'";
    FitsAppend(Lex(Quote, 0), e, "'", 0, list);
    ReadAppend(Lex(Quote, 0), e, "'");
    assert "'"[1..] == [];
  }

  lemma TailHasNoPair(s: string, a: char, b: char)
    requires s != [] && !HasPair(s, a, b)
    ensures !HasPair(s[1..], a, b)
  {
    forall i | 0 <= i < |s[1..]| - 1 && s[1..][i] == a ensures s[1..][i + 1] != b {
      NotPaired(s, i + 2, a, b);
    }
  }

  lemma {:induction false} NumeralReads(at: Lex, s: string, list: bool)
    requires (at.mode == Code || at.mode == Dash) && at.depth == 0
    requires forall i :: 0 <= i < |s| ==> Plain(s[i]) || s[i] == '-'
    requires !HasPair(s, '-', '-') && (at.mode == Dash && s != [] ==> s[0] != '-')
    ensures Fits(at, s, 0, list) && InCode(Read(at, s).mode) && Read(at, s).depth == 0
    decreases |s|
  {
    if s == [] {
    } else {
      if |s| > 1 {
        NotPaired(s, 1, '-', '-');
      }
      TailHasNoPair(s, '-', '-');
      NumeralReads(Feed(at, s[0]), s[1..], list);
    }
  }

  lemma NumeralCharacters(s: string)
    requires Numeral(s)
    ensures (forall i :: 0 <= i < |s| ==> Plain(s[i]) || s[i] == '-') && !HasPair(s, '-', '-')
  {
    if Unbounded(s) {
      assert forall i :: 1 <= i < |s| ==> s[i] != '-';
    }
  }

  lemma SqlLiteralClosed(v: Json, list: bool)
    requires SafeJson(v)
    ensures Closed(SqlLiteral(v), list)
  {
    match v
    case JsonString(s, _) => QuotedClosed(s, list);
    case JsonBool(b) => PlainClosed(SqlLiteral(v), list);
    case JsonNumber(numeral) =>
      NumeralCharacters(numeral);
      NumeralReads(START, numeral, list);
    case JsonNull => PlainClosed(SqlLiteral(v), list);
    case JsonOther(json) =>
      QuotedClosed(json, list);
      ClosedBeforePlain(Quoted(json), "::jsonb", list);
  }

  datatype LiteralRead = NotALiteral | LiteralRead(content: string, rest: string)

  /** Reading a SQL string literal: a doubled quote stands for a quote, a single one ends the literal. */
  function ReadContent(s: string): LiteralRead
    decreases |s|
  {
    if s == [] then NotALiteral
    else if s[0] != '\'' then
      var tail := ReadContent(s[1..]);
      if tail.NotALiteral? then tail else LiteralRead([s[0]] + tail.content, tail.rest)
    else if |s| > 1 && s[1] == '\'' then
      var tail := ReadContent(s[2..]);
      if tail.NotALiteral? then tail else LiteralRead("'" + tail.content, tail.rest)
    else LiteralRead([], s[1..])
  }

  function ReadLiteral(s: string): LiteralRead {
    if s != [] && s[0] == '\'' then ReadContent(s[1..]) else NotALiteral
  }

  lemma ReadContentDoubled(tail: string)
    ensures ReadContent("''" + tail) ==
      var read := ReadContent(tail); if read.NotALiteral? then read else LiteralRead("'" + read.content, read.rest)
  {
    assert ("''" + tail)[2..] == tail;
  }

  lemma ReadContentOther(c: char, tail: string)
    requires c != '\''
    ensures ReadContent([c] + tail) ==
      var read := ReadContent(tail); if read.NotALiteral? then read else LiteralRead([c] + read.content, read.rest)
  {
    assert ([c] + tail)[1..] == tail;
  }

  lemma EscapedFirst(s: string, end: string)
    requires s != []
    ensures Escaped(s) + end == (if s[0] == '\'' then "''" else [s[0]]) + (Escaped(s[1..]) + end)
  {
  }

  /** One character read and the rest read back make the string. */
  lemma FirstRead(s: string, text: string, rest: string)
    requires s != [] && ReadContent(text) == LiteralRead(s[1..], rest)
    ensures ReadContent((if s[0] == '\'' then "''" else [s[0]]) + text) == LiteralRead(s, rest)
  {
    assert s == [s[0]] + s[1..];
    if s[0] == '\'' {
      ReadContentDoubled(text);
    } else {
      ReadContentOther(s[0], text);
    }
  }

  lemma {:induction false} ContentRoundTrip(s: string, rest: string, end: string)
    requires rest == [] || rest[0] != '\''
    requires end == "'" + rest
    ensures ReadContent(Escaped(s) + end) == LiteralRead(s, rest)
    decreases |s|
  {
    if s == [] {
      assert Escaped(s) + end == end && end[1..] == rest;
    } else {
      ContentRoundTrip(s[1..], rest, end);
      EscapedFirst(s, end);
      FirstRead(s, Escaped(s[1..]) + end, rest);
    }
  }

  /** Whatever the string and whatever follows, the literal written for it reads back as that string. */
  lemma LiteralRoundTrip(s: string, json: string, rest: string)
    requires rest == [] || rest[0] != '\''
    ensures ReadLiteral(SqlLiteral(JsonString(s, json)) + rest) == LiteralRead(s, rest)
  {
    ContentRoundTrip(s, rest, "'" + rest);
    assert (Quoted(s) + rest)[1..] == Escaped(s) + ("'" + rest);
  }
}
