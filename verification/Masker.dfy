/**
  Masking comments and string literals line by line, as the conformance scanner does before its rules.

  Block comments are an automaton over characters; the later stages are patterns over what it leaves.
 */
module Masker {

  // ---------------------------------------------------------------------
  // The automaton
  // ---------------------------------------------------------------------

  /** `s` starts with the comment opener, or the closer. */
  predicate Opens(s: string) {
    |s| >= 2 && s[0] == '/' && s[1] == '*'
  }

  predicate Closes(s: string) {
    |s| >= 2 && s[0] == '*' && s[1] == '/'
  }

  datatype Masked = Masked(text: string, inBlock: bool)

  function Before(head: string, m: Masked): Masked {
    Masked(head + m.text, m.inBlock)
  }

  /** One pass over `s`, in a comment or not: comments and their marks become blanks. */
  function Mask(inBlock: bool, s: string): Masked
    decreases |s|
  {
    if s == [] then Masked([], inBlock)
    else if inBlock then
      if Closes(s) then Before("  ", Mask(false, s[2..])) else Before(" ", Mask(true, s[1..]))
    else if Opens(s) then Before("  ", Mask(true, s[2..]))
    else Before([s[0]], Mask(false, s[1..]))
  }

  /** The same, carried from each line to the next. */
  function MaskLines(inBlock: bool, lines: seq<string>): seq<string>
    decreases |lines|
  {
    if lines == [] then []
    else
      var m := Mask(inBlock, lines[0]);
      [m.text] + MaskLines(m.inBlock, lines[1..])
  }

  /** Whether the automaton is inside a comment after `lines`. */
  function BlockAfter(inBlock: bool, lines: seq<string>): bool
    decreases |lines|
  {
    if lines == [] then inBlock else BlockAfter(Mask(inBlock, lines[0]).inBlock, lines[1..])
  }

  function Blanks(n: nat): (r: string)
    ensures |r| == n && forall i :: 0 <= i < n ==> r[i] == ' '
  {
    seq(n, _ => ' ')
  }

  function TrimEnd(s: string): string
    decreases |s|
  {
    if s != [] && s[|s| - 1] == ' ' then TrimEnd(s[..|s| - 1]) else s
  }

  /** The characters Python's `strip` removes. */
  predicate Space(c: char) {
    '\t' <= c <= '\r' || '\U{1c}' <= c <= ' ' || c == '\U{85}' || c == '\U{a0}' || c == '\U{1680}'
    || '\U{2000}' <= c <= '\U{200a}' || c == '\U{2028}' || c == '\U{2029}' || c == '\U{202f}'
    || c == '\U{205f}' || c == '\U{3000}'
  }

  /** `s` is not empty once stripped. */
  predicate Visible(s: string) {
    exists i :: 0 <= i < |s| && !Space(s[i])
  }

  // ---------------------------------------------------------------------
  // Searching
  // ---------------------------------------------------------------------

  /** `k` is the first place at or after `from` where `s` continues with the mark. */
  predicate FirstOpener(s: string, from: nat, k: int) {
    from <= k < |s| && Opens(s[k..]) && forall i :: from <= i < k ==> !Opens(s[i..])
  }

  predicate FirstCloser(s: string, from: nat, k: int) {
    from <= k < |s| && Closes(s[k..]) && forall i :: from <= i < k ==> !Closes(s[i..])
  }

  /** No opener starts before `k`. */
  predicate Unopened(s: string, k: nat)
    requires k <= |s|
  {
    forall i :: 0 <= i < k ==> !Opens(s[i..])
  }

  method FindOpener(s: string, from: nat) returns (k: int)
    requires from <= |s|
    ensures k == -1 || FirstOpener(s, from, k)
    ensures k == -1 <==> forall i :: from <= i < |s| ==> !Opens(s[i..])
  {
    k := from;
    while k < |s|
      invariant from <= k <= |s|
      invariant forall i :: from <= i < k ==> !Opens(s[i..])
    {
      if Opens(s[k..]) {
        return;
      }
      k := k + 1;
    }
    k := -1;
  }

  method FindCloser(s: string, from: nat) returns (k: int)
    requires from <= |s|
    ensures k == -1 || FirstCloser(s, from, k)
    ensures k == -1 <==> forall i :: from <= i < |s| ==> !Closes(s[i..])
  {
    k := from;
    while k < |s|
      invariant from <= k <= |s|
      invariant forall i :: from <= i < k ==> !Closes(s[i..])
    {
      if Closes(s[k..]) {
        return;
      }
      k := k + 1;
    }
    k := -1;
  }

  // ---------------------------------------------------------------------
  // How the automaton passes over code and comments
  // ---------------------------------------------------------------------

  lemma BeforeBefore(a: string, b: string, l: Masked, m: Masked, n: Masked)
    requires l == Before(a, m) && m == Before(b, n)
    ensures l == Before(a + b, n)
  {
    assert a + (b + n.text) == a + b + n.text;
  }

  lemma UnopenedTail(s: string, k: nat)
    requires 0 < k <= |s| && Unopened(s, k)
    ensures Unopened(s[1..], k - 1) && !Opens(s)
  {
    forall i | 0 <= i < k - 1 ensures !Opens(s[1..][i..]) {
      assert s[1..][i..] == s[i + 1..];
    }
    assert s[0..] == s;
  }

  lemma CodeMasked(s: string)
    requires s != [] && !Opens(s)
    ensures Mask(false, s) == Before([s[0]], Mask(false, s[1..]))
  {
  }

  /** Up to `k` there is no opener in `s`, and the automaton copies. */
  lemma {:induction false} MaskCode(s: string, k: nat)
    requires k <= |s| && Unopened(s, k)
    ensures Mask(false, s) == Before(s[..k], Mask(false, s[k..]))
    decreases k
  {
    if k == 0 {
      assert s[0..] == s && s[..0] == [];
    } else {
      UnopenedTail(s, k);
      MaskCode(s[1..], k - 1);
      CodeMasked(s);
      assert s[1..][k - 1..] == s[k..];
      BeforeBefore([s[0]], s[1..][..k - 1], Mask(false, s), Mask(false, s[1..]), Mask(false, s[k..]));
      assert [s[0]] + s[1..][..k - 1] == s[..k];
    }
  }

  /** Up to `k` there is no closer in `s`, and the automaton blanks. */
  lemma {:induction false} MaskComment(s: string, k: nat)
    requires k <= |s| && forall i :: 0 <= i < k ==> !Closes(s[i..])
    ensures Mask(true, s) == Before(Blanks(k), Mask(true, s[k..]))
    decreases k
  {
    if k == 0 {
      assert s[0..] == s && Blanks(0) == [];
    } else {
      assert s[0..] == s;
      forall i | 0 <= i < k - 1 ensures !Closes(s[1..][i..]) {
        assert s[1..][i..] == s[i + 1..];
      }
      MaskComment(s[1..], k - 1);
      assert s[1..][k - 1..] == s[k..];
      assert " " + Blanks(k - 1) == Blanks(k);
    }
  }

  lemma CloserMasked(s: string)
    requires Closes(s)
    ensures Mask(true, s) == Before("  ", Mask(false, s[2..]))
  {
  }

  /** From inside a comment, up to and including its closer at `k`. */
  lemma MaskToCloser(s: string, k: nat)
    requires FirstCloser(s, 0, k)
    ensures k + 2 <= |s| && Mask(true, s) == Before(Blanks(k + 2), Mask(false, s[k + 2..]))
  {
    MaskComment(s, k);
    CloserMasked(s[k..]);
    assert s[k..][2..] == s[k + 2..];
    BeforeBefore(Blanks(k), "  ", Mask(true, s), Mask(true, s[k..]), Mask(false, s[k + 2..]));
    assert Blanks(k) + "  " == Blanks(k + 2);
  }

  lemma CloserFrom(s: string, o: nat, from: nat, c: nat)
    requires o <= from <= c && FirstCloser(s, from, c)
    ensures FirstCloser(s[o..], from - o, c - o)
  {
    var inner := s[o..];
    forall i | from - o <= i < c - o ensures !Closes(inner[i..]) {
      assert inner[i..] == s[o + i..];
    }
    assert inner[c - o..] == s[c..];
  }

  lemma OpenerMasked(s: string)
    requires Opens(s)
    ensures Mask(false, s) == Before("  ", Mask(true, s[2..]))
  {
  }

  /** From an opener to the closer at `c`. */
  lemma MaskOpened(s: string, c: nat)
    requires Opens(s) && 2 <= c && FirstCloser(s, 2, c)
    ensures c + 2 <= |s| && Mask(false, s) == Before(Blanks(c + 2), Mask(false, s[c + 2..]))
  {
    CloserFrom(s, 2, 2, c);
    MaskToCloser(s[2..], c - 2);
    OpenerMasked(s);
    assert s[2..][c..] == s[c + 2..];
    assert Mask(true, s[2..]) == Before(Blanks(c), Mask(false, s[c + 2..]));
    BeforeBefore("  ", Blanks(c), Mask(false, s), Mask(true, s[2..]), Mask(false, s[c + 2..]));
    assert "  " + Blanks(c) == Blanks(c + 2);
  }

  lemma MaskOpenedAt(s: string, o: nat, c: nat)
    requires o + 2 <= c && c < |s| && Opens(s[o..]) && FirstCloser(s, o + 2, c)
    ensures c + 2 <= |s| && Mask(false, s[o..]) == Before(Blanks(c + 2 - o), Mask(false, s[c + 2..]))
  {
    CloserFrom(s, o, o + 2, c);
    MaskOpened(s[o..], c - o);
    assert s[o..][c - o + 2..] == s[c + 2..];
  }

  /** From the opener at `o` to the closer at `c`. */
  lemma MaskOver(s: string, o: nat, c: nat)
    requires FirstOpener(s, 0, o) && o + 2 <= c && FirstCloser(s, o + 2, c)
    ensures c + 2 <= |s|
    ensures Mask(false, s) == Before(s[..o] + Blanks(c + 2 - o), Mask(false, s[c + 2..]))
  {
    MaskOpenedAt(s, o, c);
    MaskCode(s, o);
    BeforeBefore(s[..o], Blanks(c + 2 - o), Mask(false, s), Mask(false, s[o..]), Mask(false, s[c + 2..]));
  }

  /** From an opener that is never closed to the end. */
  lemma MaskOpenEnd(s: string, o: nat)
    requires FirstOpener(s, 0, o) && forall i :: o + 2 <= i < |s| ==> !Closes(s[i..])
    ensures Mask(false, s) == Masked(s[..o] + Blanks(|s| - o), true)
  {
    MaskCode(s, o);
    var inner := s[o + 2..];
    assert s[o..][2..] == inner;
    forall i | 0 <= i < |inner| ensures !Closes(inner[i..]) {
      assert inner[i..] == s[o + 2 + i..];
    }
    MaskComment(inner, |inner|);
    assert inner[|inner|..] == [];
    assert "  " + (Blanks(|inner|) + []) == Blanks(|s| - o);
  }

  /** Blanks in front change nothing. */
  lemma MaskBlankPrefix(head: string, n: nat, tail: string)
    requires Unopened(head + Blanks(n) + tail, |head|)
    ensures Mask(false, head + Blanks(n) + tail) == Before(head + Blanks(n), Mask(false, tail))
    ensures Unopened(head + Blanks(n) + tail, |head| + n)
  {
    var s := head + Blanks(n) + tail;
    forall i | 0 <= i < |head| + n ensures !Opens(s[i..]) {
      if i >= |head| {
        assert s[i..][0] == ' ';
      }
    }
    MaskCode(s, |head| + n);
    assert s[..|head| + n] == head + Blanks(n);
    assert s[|head| + n..] == tail;
  }

  /** Masking moves nothing: every column holds its character or a blank. */
  lemma {:induction false} MaskKeepsColumns(inBlock: bool, s: string)
    ensures var text := Mask(inBlock, s).text;
      |text| == |s| && forall i :: 0 <= i < |s| ==> text[i] == s[i] || text[i] == ' '
    decreases |s|
  {
    if s == [] {
    } else {
      if inBlock {
        MaskKeepsColumns(true, s[1..]);
        if Closes(s) {
          MaskKeepsColumns(false, s[2..]);
        }
      } else {
        MaskKeepsColumns(false, s[1..]);
        if Opens(s) {
          MaskKeepsColumns(true, s[2..]);
        }
      }
    }
  }

  lemma {:induction false} TrimBlanks(s: string, n: nat)
    ensures TrimEnd(s + Blanks(n)) == TrimEnd(s)
    decreases n
  {
    var all := s + Blanks(n);
    if n == 0 {
      assert all == s;
    } else {
      assert all[..|all| - 1] == s + Blanks(n - 1);
      TrimBlanks(s, n - 1);
    }
  }

  lemma {:induction false} TrimKeepsVisible(s: string)
    ensures Visible(TrimEnd(s)) <==> Visible(s)
    decreases |s|
  {
    if s == [] || s[|s| - 1] != ' ' {
    } else {
      TrimKeepsVisible(s[..|s| - 1]);
      if i :| 0 <= i < |s| && !Space(s[i]) {
        assert s[..|s| - 1][i] == s[i];
      }
    }
  }

  // ---------------------------------------------------------------------
  // Line comments and string literals
  // ---------------------------------------------------------------------

  predicate Slashes(s: string) {
    |s| >= 2 && s[0] == '/' && s[1] == '/'
  }

  /** `s` up to the first `//` that does not follow a colon, from its second character on. */
  function UpToSlashes(s: string): string
    decreases |s|
  {
    if s == [] then []
    else if s[0] != ':' && Slashes(s[1..]) then [s[0]]
    else [s[0]] + UpToSlashes(s[1..])
  }

  /** What the line-comment pattern leaves of a line. */
  function WithoutLineComment(s: string): string {
    if Slashes(s) then [] else UpToSlashes(s)
  }

  predicate QuoteMark(c: char) {
    c == '"' || c == '\'' || c == '`'
  }

  /**
    How much of `s` belongs to a literal opened by `quote` before it, with the closing mark; 0 when it is never
    closed.
   */
  function Closing(s: string, quote: char): (n: nat)
    ensures n <= |s|
    decreases |s|
  {
    if s == [] then 0
    else if s[0] == quote then 1
    else
      var skipped := if s[0] == '\\' then 2 else 1;
      if |s| < skipped then 0
      else
        var n := Closing(s[skipped..], quote);
        if n == 0 then 0 else skipped + n
  }

  /** Every literal becomes an empty one. */
  function WithoutStrings(s: string): string
    decreases |s|
  {
    if s == [] then []
    else
      var n := if QuoteMark(s[0]) then Closing(s[1..], s[0]) else 0;
      if n > 0 then "\"\"" + WithoutStrings(s[1 + n..]) else [s[0]] + WithoutStrings(s[1..])
  }

  /** What the stages after block comments make of a line. */
  function Later(s: string): string {
    WithoutStrings(WithoutLineComment(s))
  }

  lemma {:induction false} SlashesBeforeBlank(s: string)
    ensures UpToSlashes(s + " ") == UpToSlashes(s) || UpToSlashes(s + " ") == UpToSlashes(s) + " "
    decreases |s|
  {
    if s == [] {
      assert (s + " ")[1..] == [];
    } else {
      assert (s + " ")[1..] == s[1..] + " ";
      SlashesBeforeBlank(s[1..]);
    }
  }

  lemma {:induction false} ClosingBeforeBlank(s: string, quote: char)
    requires quote != ' '
    ensures Closing(s + " ", quote) == Closing(s, quote)
    decreases |s|
  {
    var longer := s + " ";
    if s == [] {
      assert longer[1..] == [];
    } else if s[0] == '\\' && quote != '\\' {
      if |s| == 1 {
        assert longer[2..] == [];
      } else {
        assert longer[2..] == s[2..] + " ";
        ClosingBeforeBlank(s[2..], quote);
      }
    } else if s[0] != quote {
      assert longer[1..] == s[1..] + " ";
      ClosingBeforeBlank(s[1..], quote);
    }
  }

  lemma {:induction false} StringsBeforeBlank(s: string)
    ensures WithoutStrings(s + " ") == WithoutStrings(s) + " "
    decreases |s|
  {
    var longer := s + " ";
    if s == [] {
      assert longer[1..] == [];
    } else {
      assert longer[1..] == s[1..] + " ";
      if QuoteMark(s[0]) {
        ClosingBeforeBlank(s[1..], s[0]);
      }
      var n := if QuoteMark(s[0]) then Closing(s[1..], s[0]) else 0;
      if n > 0 {
        assert longer[1 + n..] == s[1 + n..] + " ";
        StringsBeforeBlank(s[1 + n..]);
      } else {
        StringsBeforeBlank(s[1..]);
      }
    }
  }

  lemma LaterBeforeBlank(s: string)
    ensures TrimEnd(Later(s + " ")) == TrimEnd(Later(s))
  {
    var code := WithoutLineComment(s);
    assert Slashes(s + " ") <==> Slashes(s);
    SlashesBeforeBlank(s);
    StringsBeforeBlank(code);
    assert (WithoutStrings(code) + " ")[..|WithoutStrings(code)|] == WithoutStrings(code);
  }

  /** Blanks at the end of a line make no difference to what the later stages show. */
  lemma {:induction false} LaterIgnoresTrailingBlanks(s: string)
    ensures TrimEnd(Later(s)) == TrimEnd(Later(TrimEnd(s)))
    decreases |s|
  {
    if s == [] || s[|s| - 1] != ' ' {
    } else {
      var shorter := s[..|s| - 1];
      assert s == shorter + " ";
      LaterBeforeBlank(shorter);
      LaterIgnoresTrailingBlanks(shorter);
    }
  }

  // ---------------------------------------------------------------------
  // The scanner's own stages
  // ---------------------------------------------------------------------

  lemma MaskUnclosed(s: string)
    requires forall i :: 0 <= i < |s| ==> !Closes(s[i..])
    ensures Mask(true, s).inBlock && TrimEnd(Mask(true, s).text) == TrimEnd("")
  {
    MaskComment(s, |s|);
    assert s[|s|..] == [] && Blanks(|s|) + [] == [] + Blanks(|s|);
    TrimBlanks([], |s|);
  }

  lemma MaskPlain(s: string)
    requires forall i :: 0 <= i < |s| ==> !Opens(s[i..])
    ensures Mask(false, s) == Masked(s, false)
  {
    MaskCode(s, |s|);
    assert s[..|s|] == s && s[|s|..] == [] && s + [] == s;
  }

  lemma MaskBlanksThen(n: nat, tail: string)
    ensures Mask(false, Blanks(n) + tail) == Before(Blanks(n), Mask(false, tail))
  {
    MaskBlankPrefix([], n, tail);
    assert [] + Blanks(n) == Blanks(n);
  }

  /** Blanking out the end of a comment leaves code that masks the same. */
  lemma MaskTail(s: string, k: nat)
    requires FirstCloser(s, 0, k)
    ensures k + 2 <= |s| && Mask(false, Blanks(k + 2) + s[k + 2..]) == Mask(true, s)
  {
    MaskToCloser(s, k);
    MaskBlanksThen(k + 2, s[k + 2..]);
  }

  function BlankOut(s: string, from: nat, to: nat): string
    requires from <= to <= |s|
  {
    s[..from] + Blanks(to - from) + s[to..]
  }

  /** Blanking what follows `o` opens nothing before `o`. */
  lemma BlankedPrefix(line: string, o: nat, c: nat)
    requires FirstOpener(line, 0, o) && o + 2 <= c && c + 2 <= |line|
    ensures Unopened(BlankOut(line, o, c + 2), o)
  {
    var blanked := BlankOut(line, o, c + 2);
    forall i | 0 <= i < o ensures !Opens(blanked[i..]) {
      assert !Opens(line[i..]);
      assert blanked[i..][0] == line[i..][0];
      if i + 1 < o {
        assert blanked[i..][1] == line[i..][1];
      } else {
        assert blanked[i..][1] == ' ';
      }
    }
  }

  /** Blanking out a comment does not change what the automaton makes of the line. */
  lemma BlankComment(line: string, o: nat, c: nat)
    requires FirstOpener(line, 0, o) && o + 2 <= c && FirstCloser(line, o + 2, c)
    ensures c + 2 <= |line|
    ensures var blanked := BlankOut(line, o, c + 2);
      && |blanked| == |line| && Mask(false, blanked) == Mask(false, line)
      && Unopened(blanked, c + 2)
  {
    MaskOver(line, o, c);
    BlankedPrefix(line, o, c);
    MaskBlankPrefix(line[..o], c + 2 - o, line[c + 2..]);
  }

  /** The block-comment stage on one line; `skipped` when the whole line is inside a comment. */
  method MaskLine(inBlock: bool, raw: string) returns (line: string, after: bool, skipped: bool)
    ensures after == Mask(inBlock, raw).inBlock
    ensures TrimEnd(line) == TrimEnd(Mask(inBlock, raw).text)
    ensures skipped ==> line == ""
  {
    line, after, skipped := raw, false, false;
    if inBlock {
      var k := FindCloser(line, 0);
      if k == -1 {
        MaskUnclosed(raw);
        return "", true, true;
      }
      MaskTail(raw, k);
      line := Blanks(k + 2) + line[k + 2..];
    }
    ghost var done: nat := 0;
    while true
      invariant Mask(false, line) == Mask(inBlock, raw)
      invariant done <= |line| && Unopened(line, done)
      decreases |line| - done
    {
      var o := FindOpener(line, 0);
      if o == -1 {
        MaskPlain(line);
        break;
      }
      var c := FindCloser(line, o + 2);
      if c == -1 {
        MaskOpenEnd(line, o);
        TrimBlanks(line[..o], |line| - o);
        line, after := line[..o], true;
        break;
      }
      BlankComment(line, o, c);
      line := BlankOut(line, o, c + 2);
      done := c + 2;
    }
  }

  lemma {:induction false} MaskLinesLength(inBlock: bool, lines: seq<string>)
    ensures |MaskLines(inBlock, lines)| == |lines|
    decreases |lines|
  {
    if lines == [] {
    } else {
      MaskLinesLength(Mask(inBlock, lines[0]).inBlock, lines[1..]);
    }
  }

  /** Line `i` is masked from the state the lines before it lead to. */
  lemma {:induction false} MaskLinesAt(inBlock: bool, lines: seq<string>, i: nat)
    requires i < |lines|
    ensures |MaskLines(inBlock, lines)| == |lines|
    ensures MaskLines(inBlock, lines)[i] == Mask(BlockAfter(inBlock, lines[..i]), lines[i]).text
    ensures BlockAfter(inBlock, lines[..i + 1]) == Mask(BlockAfter(inBlock, lines[..i]), lines[i]).inBlock
    decreases |lines|
  {
    MaskLinesLength(inBlock, lines);
    if i > 0 {
      assert lines[..i][1..] == lines[1..][..i - 1];
      assert lines[..i + 1][1..] == lines[1..][..i];
      MaskLinesAt(Mask(inBlock, lines[0]).inBlock, lines[1..], i - 1);
    } else {
      assert lines[..1][1..] == [];
    }
  }

  lemma LaterAgrees(line: string, masked: string)
    requires TrimEnd(line) == TrimEnd(masked)
    ensures TrimEnd(Later(line)) == TrimEnd(Later(masked))
    ensures line == "" ==> TrimEnd(line) == TrimEnd(Later(masked))
  {
    LaterIgnoresTrailingBlanks(line);
    LaterIgnoresTrailingBlanks(masked);
  }

  /** `code` numbers, from 1, exactly the lines of `out` with something visible. */
  predicate CodeLines(code: set<nat>, out: seq<string>) {
    && (forall i :: 0 <= i < |out| ==> (i + 1 in code <==> Visible(out[i])))
    && forall n :: n in code ==> 1 <= n <= |out|
  }

  predicate AgreesAt(line: string, masked: string) {
    TrimEnd(line) == TrimEnd(Later(masked))
  }

  /** `out` is what the later stages make of `masked`, up to blanks at line ends. */
  predicate Agree(out: seq<string>, masked: seq<string>) {
    |out| == |masked| && forall i :: 0 <= i < |out| ==> AgreesAt(out[i], masked[i])
  }

  lemma AgreeSnoc(out: seq<string>, masked: seq<string>, i: nat, line: string)
    requires i < |masked| && Agree(out, masked[..i]) && AgreesAt(line, masked[i])
    ensures Agree(out + [line], masked[..i + 1])
  {
    var longer, shown := out + [line], masked[..i + 1];
    forall k | 0 <= k < i + 1 ensures AgreesAt(longer[k], shown[k]) {
      if k < i {
        assert longer[k] == out[k] && shown[k] == masked[..i][k];
      }
    }
  }

  lemma CodeSnoc(code: set<nat>, out: seq<string>, line: string)
    requires CodeLines(code, out)
    ensures CodeLines(if Visible(line) then code + {|out| + 1} else code, out + [line])
  {
  }

  lemma AgreeingLinesShow(out: seq<string>, masked: seq<string>)
    requires Agree(out, masked)
    ensures forall i :: 0 <= i < |out| ==> (Visible(out[i]) <==> Visible(Later(masked[i])))
  {
    forall i | 0 <= i < |out| ensures Visible(out[i]) <==> Visible(Later(masked[i])) {
      assert AgreesAt(out[i], masked[i]);
      TrimKeepsVisible(out[i]);
      TrimKeepsVisible(Later(masked[i]));
    }
  }

  /** Masked lines and the numbers, from 1, of those that hold code. */
  method StripNoise(lines: seq<string>) returns (out: seq<string>, code: set<nat>)
    ensures |out| == |lines| == |MaskLines(false, lines)|
    ensures CodeLines(code, out)
    ensures Agree(out, MaskLines(false, lines))
    ensures forall i :: 0 <= i < |lines| ==> (i + 1 in code <==> Visible(Later(MaskLines(false, lines)[i])))
  {
    out, code := [], {};
    var inBlock := false;
    MaskLinesLength(false, lines);
    for i := 0 to |lines|
      invariant |out| == i && inBlock == BlockAfter(false, lines[..i])
      invariant CodeLines(code, out)
      invariant Agree(out, MaskLines(false, lines)[..i])
    {
      MaskLinesAt(false, lines, i);
      var line, after, skipped := MaskLine(inBlock, lines[i]);
      LaterAgrees(line, MaskLines(false, lines)[i]);
      if !skipped {
        line := Later(line);
      }
      AgreeSnoc(out, MaskLines(false, lines), i, line);
      CodeSnoc(code, out, line);
      out := out + [line];
      if Visible(line) {
        code := code + {i + 1};
      }
      inBlock := after;
    }
    assert MaskLines(false, lines)[..|lines|] == MaskLines(false, lines);
    AgreeingLinesShow(out, MaskLines(false, lines));
  }

  // ---------------------------------------------------------------------
  // The whole file at once
  // ---------------------------------------------------------------------

  /** One pass over a file as a single text; line ends stay. */
  function MaskFile(inBlock: bool, s: string): string
    decreases |s|
  {
    if s == [] then []
    else if s[0] == '\n' then "\n" + MaskFile(inBlock, s[1..])
    else if inBlock then
      if Closes(s) then "  " + MaskFile(false, s[2..]) else " " + MaskFile(true, s[1..])
    else if Opens(s) then "  " + MaskFile(true, s[2..])
    else [s[0]] + MaskFile(false, s[1..])
  }

  function Joined(lines: seq<string>): string
    decreases |lines|
  {
    if lines == [] then [] else lines[0] + "\n" + Joined(lines[1..])
  }

  predicate OneLine(s: string) {
    forall i :: 0 <= i < |s| ==> s[i] != '\n'
  }

  predicate Marks(inBlock: bool, s: string) {
    if inBlock then Closes(s) else Opens(s)
  }

  lemma MaskFileMark(inBlock: bool, line: string, rest: string)
    requires Marks(inBlock, line)
    ensures MaskFile(inBlock, line + "\n" + rest) == "  " + MaskFile(!inBlock, line[2..] + "\n" + rest)
  {
    var all := line + "\n" + rest;
    assert all[2..] == line[2..] + "\n" + rest;
    assert all[0] == line[0] && all[1] == line[1];
  }

  lemma MaskFileChar(inBlock: bool, line: string, rest: string)
    requires OneLine(line) && line != [] && !Marks(inBlock, line)
    ensures MaskFile(inBlock, line + "\n" + rest) ==
      [if inBlock then ' ' else line[0]] + MaskFile(inBlock, line[1..] + "\n" + rest)
  {
    var all := line + "\n" + rest;
    assert all[1..] == line[1..] + "\n" + rest;
    assert all[1] == if |line| == 1 then '\n' else line[1];
  }

  lemma Regroup(a: string, b: string, c: string)
    ensures a + (b + "\n" + c) == a + b + "\n" + c
  {
  }

  lemma {:induction false} MaskFileLine(inBlock: bool, line: string, rest: string)
    requires OneLine(line)
    ensures var m := Mask(inBlock, line);
      MaskFile(inBlock, line + "\n" + rest) == m.text + "\n" + MaskFile(m.inBlock, rest)
    decreases |line|
  {
    if line == [] {
      assert (line + "\n" + rest)[1..] == rest;
    } else if Marks(inBlock, line) {
      MaskFileMark(inBlock, line, rest);
      MaskFileLine(!inBlock, line[2..], rest);
      var m := Mask(!inBlock, line[2..]);
      Regroup("  ", m.text, MaskFile(m.inBlock, rest));
      assert Mask(inBlock, line) == Before("  ", m);
    } else {
      MaskFileChar(inBlock, line, rest);
      MaskFileLine(inBlock, line[1..], rest);
      var m := Mask(inBlock, line[1..]);
      var head := [if inBlock then ' ' else line[0]];
      Regroup(head, m.text, MaskFile(m.inBlock, rest));
      assert Mask(inBlock, line) == Before(head, m);
    }
  }

  /** Going line by line, carrying only whether a comment is open, masks the file as one pass over it does. */
  lemma {:induction false} LineByLineIsOnePass(inBlock: bool, lines: seq<string>)
    requires forall i :: 0 <= i < |lines| ==> OneLine(lines[i])
    ensures Joined(MaskLines(inBlock, lines)) == MaskFile(inBlock, Joined(lines))
    decreases |lines|
  {
    if lines == [] {
    } else {
      var m := Mask(inBlock, lines[0]);
      MaskFileLine(inBlock, lines[0], Joined(lines[1..]));
      LineByLineIsOnePass(m.inBlock, lines[1..]);
    }
  }

  /** A masked line has no comment mark left that the next stages could see: masking it again changes nothing. */
  lemma {:induction false} MaskedHasNoComments(inBlock: bool, s: string)
    ensures Mask(false, Mask(inBlock, s).text) == Masked(Mask(inBlock, s).text, false)
    decreases |s|
  {
    if s == [] {
    } else {
      if Marks(inBlock, s) {
        MaskedHasNoComments(!inBlock, s[2..]);
        MaskBlanksThen(2, Mask(!inBlock, s[2..]).text);
      } else if inBlock {
        MaskedHasNoComments(true, s[1..]);
        MaskBlanksThen(1, Mask(true, s[1..]).text);
      } else {
        var tail := Mask(false, s[1..]).text;
        MaskedHasNoComments(false, s[1..]);
        assert ([s[0]] + tail)[1..] == tail;
        assert tail != [] ==> tail[0] == s[1] || tail[0] == ' ';
      }
    }
  }

  // ---------------------------------------------------------------------
  // What the stages do, on texts written out
  // ---------------------------------------------------------------------

  /** `a` is nowhere followed by `b`. */
  predicate Without(s: string, a: char, b: char) {
    forall i :: 0 <= i < |s| - 1 && s[i] == a ==> s[i + 1] != b
  }

  lemma OpensAtFirst(before: string, rest: string)
    requires Without(before, '/', '*')
    ensures FirstOpener(before + "/*" + rest, 0, |before|)
  {
    var s := before + "/*" + rest;
    assert s[|before|..] == "/*" + rest;
    forall i | 0 <= i < |before| ensures !Opens(s[i..]) {
      assert s[i..][0] == before[i];
      assert s[i..][1] == if i + 1 < |before| then before[i + 1] else '/';
    }
  }

  lemma ClosesAtFirst(head: string, body: string, rest: string)
    requires Without(body, '*', '/')
    ensures FirstCloser(head + body + "*/" + rest, |head|, |head| + |body|)
  {
    var s, n := head + body + "*/" + rest, |head| + |body|;
    assert s[n..] == "*/" + rest;
    forall i | |head| <= i < n ensures !Closes(s[i..]) {
      assert s[i..][0] == body[i - |head|];
      assert s[i..][1] == if i + 1 < n then body[i + 1 - |head|] else '*';
    }
  }

  /** A comment becomes as many blanks, and code is copied on both sides of it. */
  lemma CommentBlanked(before: string, body: string, rest: string)
    requires Without(before, '/', '*') && Without(body, '*', '/')
    ensures Mask(false, before + "/*" + body + "*/" + rest) ==
      Before(before + Blanks(|body| + 4), Mask(false, rest))
  {
    var s, o := before + "/*" + body + "*/" + rest, |before|;
    var c := o + 2 + |body|;
    OpensAtFirst(before, body + "*/" + rest);
    assert s == before + "/*" + (body + "*/" + rest);
    ClosesAtFirst(before + "/*", body, rest);
    MaskOver(s, o, c);
    assert s[..o] == before && s[c + 2..] == rest;
  }

  /** A comment that is not closed on its line goes on. */
  lemma OpenCommentBlanked(before: string, body: string)
    requires Without(before, '/', '*') && Without(body, '*', '/')
    ensures Mask(false, before + "/*" + body) == Masked(before + Blanks(|body| + 2), true)
  {
    var s, o := before + "/*" + body, |before|;
    OpensAtFirst(before, body);
    forall i | o + 2 <= i < |s| ensures !Closes(s[i..]) {
      assert s[i..][0] == body[i - o - 2];
      assert i + 1 < |s| ==> s[i..][1] == body[i - o - 1];
    }
    MaskOpenEnd(s, o);
    assert s[..o] == before;
  }

  /** A line comment starts at `k`: two slashes that do not follow a colon. */
  predicate CommentStarts(s: string, k: nat) {
    k + 1 < |s| && s[k] == '/' && s[k + 1] == '/' && (k > 0 ==> s[k - 1] != ':')
  }

  lemma {:induction false} UpToFirst(s: string, k: nat)
    requires 0 < k <= |s| && (k < |s| ==> CommentStarts(s, k))
    requires forall i :: 0 < i < k ==> !CommentStarts(s, i)
    ensures UpToSlashes(s) == s[..k]
    decreases |s|
  {
    if k == 1 {
      assert |s| > 1 ==> Slashes(s[1..]);
      assert |s| == 1 ==> UpToSlashes(s[1..]) == [];
    } else {
      assert !CommentStarts(s, 1);
      forall i | 0 < i < k - 1 ensures !CommentStarts(s[1..], i) {
        assert !CommentStarts(s, i + 1);
      }
      assert k < |s| ==> CommentStarts(s[1..], k - 1);
      UpToFirst(s[1..], k - 1);
    }
  }

  /** A line is cut at its first line comment, if it has one. */
  lemma CutAtLineComment(s: string, k: nat)
    requires k <= |s| && (k < |s| ==> CommentStarts(s, k)) && forall i :: 0 <= i < k ==> !CommentStarts(s, i)
    ensures WithoutLineComment(s) == s[..k]
  {
    if s != [] {
      if k > 0 {
        assert !CommentStarts(s, 0);
        UpToFirst(s, k);
      }
    }
  }

  /** The inside of a literal: characters that are neither the mark nor a backslash, and escaped characters. */
  predicate Quotable(s: string, quote: char)
    decreases |s|
  {
    s == []
    || (s[0] == '\\' && |s| >= 2 && Quotable(s[2..], quote))
    || (s[0] != '\\' && s[0] != quote && Quotable(s[1..], quote))
  }

  predicate ClosesAt(s: string, quote: char, n: nat) {
    n < |s| && s[n] == quote && Quotable(s[..n], quote)
  }

  /** The literal ends at the first mark that is not escaped. */
  lemma {:induction false} ClosingExactly(s: string, quote: char, n: nat)
    requires quote != '\\'
    ensures Closing(s, quote) == n + 1 <==> ClosesAt(s, quote, n)
    decreases |s|
  {
    if s == [] || s[0] == quote {
      if 0 < n < |s| {
        assert s[..n][0] == quote;
      }
    } else {
      var skipped := if s[0] == '\\' then 2 else 1;
      if skipped <= |s| && skipped <= n {
        ClosingExactly(s[skipped..], quote, n - skipped);
        assert n <= |s| ==> s[..n][skipped..] == s[skipped..][..n - skipped];
      }
    }
  }

  lemma {:induction false} StringsBefore(before: string, rest: string)
    requires forall i :: 0 <= i < |before| ==> !QuoteMark(before[i])
    ensures WithoutStrings(before + rest) == before + WithoutStrings(rest)
    decreases |before|
  {
    if before == [] {
      assert before + rest == rest;
    } else {
      assert (before + rest)[1..] == before[1..] + rest;
      StringsBefore(before[1..], rest);
    }
  }

  /** The first literal of a line is emptied. */
  lemma LiteralEmptied(before: string, quote: char, body: string, rest: string)
    requires QuoteMark(quote) && Quotable(body, quote)
    requires forall i :: 0 <= i < |before| ==> !QuoteMark(before[i])
    ensures WithoutStrings(before + ([quote] + body + [quote] + rest)) == before + "\"\"" + WithoutStrings(rest)
  {
    var s := [quote] + body + [quote] + rest;
    var inner := s[1..];
    assert inner[..|body|] == body && inner[|body|] == quote;
    ClosingExactly(inner, quote, |body|);
    StringsBefore(before, s);
    assert s[1 + (|body| + 1)..] == rest;
  }

  predicate NeverCloses(s: string, quote: char) {
    forall n :: 0 <= n < |s| ==> !ClosesAt(s, quote, n)
  }

  lemma ClosingCloses(s: string, quote: char)
    requires quote != '\\' && Closing(s, quote) > 0
    ensures !NeverCloses(s, quote)
  {
    ClosingExactly(s, quote, Closing(s, quote) - 1);
  }

  lemma NoClosing(s: string, quote: char)
    requires quote != '\\' && NeverCloses(s, quote)
    ensures Closing(s, quote) == 0
  {
    if Closing(s, quote) > 0 {
      ClosingCloses(s, quote);
    }
  }

  /** A mark that opens nothing stays. */
  lemma LoneMarkStays(before: string, quote: char, rest: string)
    requires QuoteMark(quote) && NeverCloses(rest, quote)
    requires forall i :: 0 <= i < |before| ==> !QuoteMark(before[i])
    ensures WithoutStrings(before + ([quote] + rest)) == before + [quote] + WithoutStrings(rest)
  {
    NoClosing(rest, quote);
    StringsBefore(before, [quote] + rest);
    assert ([quote] + rest)[1..] == rest;
  }
}
