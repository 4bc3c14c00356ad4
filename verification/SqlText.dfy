/**
  How SQL text is read: quotes, parentheses and comments as a small automaton, and
  the texts that can be placed in a statement without changing how the rest is read.

  Such a text is called closed: read from code at depth 0 it ends there again, never
  leaves its own parentheses, and separates nothing.
 */
module SqlText {

  /**
    `Dash` and `Slash` are code just after a `-` or a `/`; `Line` and `Block` are comments. A block comment is never
    left.
   */
  datatype Mode = Code | Dash | Slash | Quote | Line | Block

  datatype Lex = Lex(mode: Mode, depth: int)

  const START := Lex(Code, 0)

  predicate InCode(mode: Mode) {
    mode == Code || mode == Dash || mode == Slash
  }

  /** What ends a line, to one reader or another. */
  predicate LineEnd(c: char) {
    c == '\n' || c == '\r' || c == '\U{2028}' || c == '\U{2029}'
  }

  /** Reading one character. */
  function Feed(at: Lex, c: char): Lex {
    match at.mode
    case Quote => if c == '\'' then Lex(Code, at.depth) else at
    case Line => if LineEnd(c) then Lex(Code, at.depth) else at
    case Block => at
    case _ =>
      if c == '\'' then Lex(Quote, at.depth)
      else if c == '(' then Lex(Code, at.depth + 1)
      else if c == ')' then Lex(Code, at.depth - 1)
      else if c == '-' then Lex(if at.mode == Dash then Line else Dash, at.depth)
      else if c == '/' then Lex(Slash, at.depth)
      else if c == '*' && at.mode == Slash then Lex(Block, at.depth)
      else Lex(Code, at.depth)
  }

  function Read(at: Lex, s: string): Lex
    decreases |s|
  {
    if s == [] then at else Read(Feed(at, s[0]), s[1..])
  }

  /** Cut `s` at every `separator` that is code at depth 0; `piece` is what was read since the last cut. */
  function SplitFrom(at: Lex, s: string, separator: char, piece: string): seq<string>
    decreases |s|
  {
    if s == [] then [piece]
    else if s[0] == separator && InCode(at.mode) && at.depth == 0 then
      [piece] + SplitFrom(Lex(Code, 0), s[1..], separator, [])
    else SplitFrom(Feed(at, s[0]), s[1..], separator, piece + [s[0]])
  }

  function Split(s: string, separator: char): seq<string> {
    SplitFrom(START, s, separator, [])
  }

  function Join(pieces: seq<string>, between: string): string
    decreases |pieces|
  {
    if pieces == [] then []
    else if |pieces| == 1 then pieces[0]
    else pieces[0] + between + Join(pieces[1..], between)
  }

  lemma {:induction false} ReadAppend(at: Lex, a: string, b: string)
    ensures Read(at, a + b) == Read(Read(at, a), b)
    decreases |a|
  {
    if a == [] {
      assert a + b == b;
    } else {
      assert (a + b)[1..] == a[1..] + b;
      ReadAppend(Feed(at, a[0]), a[1..], b);
    }
  }

  // ---------------------------------------------------------------------
  // Texts that keep to themselves
  // ---------------------------------------------------------------------

  predicate InCodeOrQuote(mode: Mode) {
    InCode(mode) || mode == Quote
  }

  /**
    `c` may follow at `at` inside a text whose own base depth is `floor`: it ends no statement, opens no
    comment, closes no parenthesis of the surrounding text and, unless `list`, is not a comma of the text itself.
   */
  predicate MayFollow(at: Lex, c: char, floor: int, list: bool) {
    match at.mode
    case Quote => true
    case Line => false
    case Block => false
    case _ =>
      && InCodeOrQuote(Feed(at, c).mode)
      && c != ';'
      && (c == ')' ==> at.depth > floor)
      && (c == ',' && !list ==> at.depth > floor)
  }

  predicate Fits(at: Lex, s: string, floor: int, list: bool)
    decreases |s|
  {
    s == [] || (MayFollow(at, s[0], floor, list) && Fits(Feed(at, s[0]), s[1..], floor, list))
  }

  /** A text that leaves the reading where it found it; with `list`, it may have commas of its own. */
  predicate Closed(s: string, list: bool) {
    && Fits(START, s, 0, list)
    && InCode(Read(START, s).mode) && Read(START, s).depth == 0
  }

  lemma {:induction false} FitsAppend(at: Lex, a: string, b: string, floor: int, list: bool)
    ensures Fits(at, a + b, floor, list) <==> Fits(at, a, floor, list) && Fits(Read(at, a), b, floor, list)
    decreases |a|
  {
    if a == [] {
      assert a + b == b;
    } else {
      assert (a + b)[1..] == a[1..] + b;
      FitsAppend(Feed(at, a[0]), a[1..], b, floor, list);
    }
  }

  /** Only the depth relative to the floor matters. */
  lemma {:induction false} FitsShift(at: Lex, s: string, floor: int, list: bool, up: int)
    ensures Fits(Lex(at.mode, at.depth + up), s, floor + up, list) <==> Fits(at, s, floor, list)
    ensures Read(Lex(at.mode, at.depth + up), s) == Lex(Read(at, s).mode, Read(at, s).depth + up)
    decreases |s|
  {
    if s == [] {
    } else {
      FitsShift(Feed(at, s[0]), s[1..], floor, list, up);
    }
  }

  /** A text that does not start with `-` or `*` reads the same after any code. */
  predicate Detached(s: string) {
    s == [] || (s[0] != '-' && s[0] != '*')
  }

  lemma DetachedReads(mode: Mode, depth: int, s: string, floor: int, list: bool)
    requires InCode(mode) && Detached(s) && s != []
    ensures Fits(Lex(mode, depth), s, floor, list) == Fits(Lex(Code, depth), s, floor, list)
    ensures Read(Lex(mode, depth), s) == Read(Lex(Code, depth), s)
  {
    assert Feed(Lex(mode, depth), s[0]) == Feed(Lex(Code, depth), s[0]);
  }

  lemma ClosedAppend(a: string, b: string, list: bool)
    requires Closed(a, list) && Closed(b, list) && Detached(b)
    ensures Closed(a + b, list)
  {
    FitsAppend(START, a, b, 0, list);
    ReadAppend(START, a, b);
    if b != [] {
      DetachedReads(Read(START, a).mode, 0, b, 0, list);
    }
  }

  lemma {:induction false} FitsAsList(at: Lex, s: string, floor: int)
    requires Fits(at, s, floor, false)
    ensures Fits(at, s, floor, true)
    decreases |s|
  {
    if s == [] {
    } else {
      FitsAsList(Feed(at, s[0]), s[1..], floor);
    }
  }

  lemma ClosedAsList(s: string)
    requires Closed(s, false)
    ensures Closed(s, true)
  {
    FitsAsList(START, s, 0);
  }

  /** In parentheses, a text may have commas of its own. */
  lemma {:induction false} FitsInside(at: Lex, s: string, floor: int, outer: int)
    requires Fits(at, s, floor, true) && outer < floor && (InCode(at.mode) ==> at.depth >= floor)
    requires InCodeOrQuote(at.mode)
    requires at.depth >= floor
    ensures Fits(at, s, outer, false)
    decreases |s|
  {
    if s == [] {
    } else {
      FitsInside(Feed(at, s[0]), s[1..], floor, outer);
    }
  }

  lemma ClosedParens(s: string)
    requires Closed(s, true)
    ensures Closed("(" + s + ")", false)
  {
    FitsShift(START, s, 0, true, 1);
    FitsInside(Lex(Code, 1), s, 1, 0);
    var end := Read(Lex(Code, 1), s);
    assert Fits(end, ")", 0, false) by { assert ")"[1..] == []; }
    FitsAppend(Lex(Code, 1), s, ")", 0, false);
    ReadAppend(Lex(Code, 1), s, ")");
    assert Read(end, ")") == Lex(Code, 0) by { assert ")"[1..] == []; }
    assert ("(" + s + ")")[1..] == s + ")";
  }

  /** Characters that mean nothing to the reading. */
  predicate Plain(c: char) {
    c != '\'' && c != '(' && c != ')' && c != ',' && c != ';' && c != '-' && c != '/'
  }

  predicate AllPlain(s: string) {
    forall i :: 0 <= i < |s| ==> Plain(s[i])
  }

  lemma {:induction false} PlainReads(s: string, list: bool)
    requires AllPlain(s)
    ensures Fits(START, s, 0, list) && Read(START, s) == START
    decreases |s|
  {
    if s == [] {
    } else {
      PlainReads(s[1..], list);
    }
  }

  lemma PlainClosed(s: string, list: bool)
    requires AllPlain(s)
    ensures Closed(s, list)
  {
    PlainReads(s, list);
  }

  // ---------------------------------------------------------------------
  // Putting texts together
  // ---------------------------------------------------------------------

  lemma ClosedAfterPlain(a: string, b: string, list: bool)
    requires AllPlain(a) && Closed(b, list)
    ensures Closed(a + b, list)
  {
    PlainReads(a, list);
    FitsAppend(START, a, b, 0, list);
    ReadAppend(START, a, b);
  }

  lemma ClosedBeforePlain(a: string, b: string, list: bool)
    requires Closed(a, list) && AllPlain(b) && Detached(b)
    ensures Closed(a + b, list)
  {
    PlainClosed(b, list);
    ClosedAppend(a, b, list);
  }

  /** A separator that detaches what precedes it from what follows. */
  predicate Separator(s: string, list: bool) {
    s != [] && Detached(s) && Closed(s, list) && Read(START, s) == START
  }

  lemma ClosedSeparated(a: string, between: string, b: string, list: bool)
    requires Closed(a, list) && Closed(b, list) && Separator(between, list)
    ensures Closed(a + between + b, list)
  {
    ClosedAppend(a, between, list);
    DetachedReads(Read(START, a).mode, 0, between, 0, list);
    ReadAppend(START, a, between);
    FitsAppend(START, a + between, b, 0, list);
    ReadAppend(START, a + between, b);
  }

  lemma {:induction false} JoinClosed(pieces: seq<string>, between: string, list: bool)
    requires forall i :: 0 <= i < |pieces| ==> Closed(pieces[i], list)
    requires Separator(between, list)
    ensures Closed(Join(pieces, between), list)
    decreases |pieces|
  {
    if pieces == [] {
    } else if |pieces| == 1 {
    } else {
      JoinClosed(pieces[1..], between, list);
      ClosedSeparated(pieces[0], between, Join(pieces[1..], between), list);
    }
  }

  lemma Separators()
    ensures Separator(" ", false) && Separator(" || ", false) && Separator(", ", true)
  {
    PlainClosed(" ", false);
    PlainClosed(" || ", false);
    PlainReads(" ", false);
    PlainReads(" || ", false);
    assert Read(START, ", ") == START && Fits(START, ", ", 0, true) by {
      assert ", "[1..] == " " && " "[1..] == [];
    }
  }

  // ---------------------------------------------------------------------
  // Splitting
  // ---------------------------------------------------------------------

  /** Nothing in `s` separates when read from `at`. */
  predicate Uncut(at: Lex, s: string, separator: char)
    decreases |s|
  {
    s == [] || (!(s[0] == separator && InCode(at.mode) && at.depth == 0) && Uncut(Feed(at, s[0]), s[1..], separator))
  }

  lemma {:induction false} SplitUncut(at: Lex, a: string, b: string, separator: char, piece: string)
    requires Uncut(at, a, separator)
    ensures SplitFrom(at, a + b, separator, piece) == SplitFrom(Read(at, a), b, separator, piece + a)
    decreases |a|
  {
    if a == [] {
      assert a + b == b && piece + a == piece;
    } else {
      assert (a + b)[1..] == a[1..] + b;
      assert piece + [a[0]] + a[1..] == piece + a;
      SplitUncut(Feed(at, a[0]), a[1..], b, separator, piece + [a[0]]);
    }
  }

  /** The first separator after an uncut text that ends in code at depth 0 cuts there. */
  lemma SplitFirst(a: string, b: string, separator: char)
    requires Uncut(START, a, separator) && InCode(Read(START, a).mode) && Read(START, a).depth == 0
    ensures Split(a + [separator] + b, separator) == [a] + Split(b, separator)
  {
    assert a + [separator] + b == a + ([separator] + b);
    SplitUncut(START, a, [separator] + b, separator, []);
    assert [] + a == a && ([separator] + b)[1..] == b;
  }

  lemma SplitLast(a: string, separator: char)
    requires Uncut(START, a, separator)
    ensures Split(a, separator) == [a]
  {
    SplitUncut(START, a, [], separator, []);
    assert a + [] == a && [] + a == a;
  }

  lemma {:induction false} FitsUncut(at: Lex, s: string)
    requires Fits(at, s, 0, false) && at.depth >= 0
    ensures Uncut(at, s, ',') && Uncut(at, s, ';')
    decreases |s|
  {
    if s == [] {
    } else {
      FitsUncut(Feed(at, s[0]), s[1..]);
    }
  }
}
