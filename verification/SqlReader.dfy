/**
  A reader of what the generator writes: clauses and statements cut at their top-level
  spaces, and the words that come out.

  Keywords are told without regard to case. Only spaces separate words, and only where
  they stand outside quotes and parentheses.
 */
module SqlReader {
  import opened SqlText
  import opened SqlGuard

  // ---------------------------------------------------------------------
  // Words
  // ---------------------------------------------------------------------

  datatype Keyword = Not | Null | Default | Unique | References | On | Update | Delete

  function Spelled(keyword: Keyword): string {
    match keyword
    case Not => "not"
    case Null => "null"
    case Default => "default"
    case Unique => "unique"
    case References => "references"
    case On => "on"
    case Update => "update"
    case Delete => "delete"
  }

  function LowerChar(c: char): char {
    if 'A' <= c <= 'Z' then c - 'A' + 'a' else c
  }

  predicate Alike(word: string, spelling: string) {
    |word| == |spelling| && forall i :: 0 <= i < |word| ==> LowerChar(word[i]) == spelling[i]
  }

  predicate Is(word: string, keyword: Keyword) {
    Alike(word, Spelled(keyword))
  }

  predicate Among(word: string, keywords: set<Keyword>) {
    exists k :: k in keywords && Is(word, k)
  }

  function Words(s: string): seq<string> {
    Split(s, ' ')
  }

  function AllWords(pieces: seq<string>): seq<string>
    decreases |pieces|
  {
    if pieces == [] then [] else Words(pieces[0]) + AllWords(pieces[1..])
  }

  /** The words before the first of `keywords`. */
  function Before(words: seq<string>, keywords: set<Keyword>): seq<string>
    decreases |words|
  {
    if words == [] || Among(words[0], keywords) then [] else [words[0]] + Before(words[1..], keywords)
  }

  /** The words from the first of `keywords` on. */
  function From(words: seq<string>, keywords: set<Keyword>): seq<string>
    decreases |words|
  {
    if words == [] || Among(words[0], keywords) then words else From(words[1..], keywords)
  }

  /** None of the words is one of `keywords`. */
  predicate Free(words: seq<string>, keywords: set<Keyword>) {
    forall i :: 0 <= i < |words| ==> !Among(words[i], keywords)
  }

  /** Nothing, or one of `keywords` first. */
  predicate Led(words: seq<string>, keywords: set<Keyword>) {
    words == [] || Among(words[0], keywords)
  }

  lemma SpelledLower(k: Keyword)
    ensures forall i :: 0 <= i < |Spelled(k)| ==> 'a' <= Spelled(k)[i] <= 'z'
    ensures Spelled(k) != []
  {
  }

  lemma IsSpelled(k: Keyword)
    ensures Is(Spelled(k), k)
  {
    SpelledLower(k);
  }

  lemma SpelledApart(j: Keyword, k: Keyword)
    requires Spelled(j) == Spelled(k)
    ensures j == k
  {
    assert |Spelled(j)| == |Spelled(k)| && Spelled(j)[0] == Spelled(k)[0];
  }

  lemma IsOne(word: string, j: Keyword, k: Keyword)
    requires Is(word, j) && Is(word, k)
    ensures j == k
  {
    assert Spelled(j) == Spelled(k);
    SpelledApart(j, k);
  }

  lemma {:induction false} StopsThere(words: seq<string>, rest: seq<string>, keywords: set<Keyword>)
    requires Free(words, keywords) && Led(rest, keywords)
    ensures Before(words + rest, keywords) == words && From(words + rest, keywords) == rest
    decreases |words|
  {
    if words == [] {
      assert words + rest == rest;
    } else {
      assert (words + rest)[1..] == words[1..] + rest;
      StopsThere(words[1..], rest, keywords);
    }
  }

  /** Where a keyword comes, the words before it are fewer. */
  lemma {:induction false} StopsEarlier(words: seq<string>, rest: seq<string>, keywords: set<Keyword>)
    returns (n: nat)
    requires !Free(words, keywords)
    ensures n < |words| && Before(words + rest, keywords) == words[..n]
    decreases |words|
  {
    assert (words + rest)[0] == words[0] && (words + rest)[1..] == words[1..] + rest;
    if Among(words[0], keywords) {
      n := 0;
    } else {
      n := StopsEarlier(words[1..], rest, keywords);
      n := n + 1;
    }
  }

  // ---------------------------------------------------------------------
  // Cutting at spaces
  // ---------------------------------------------------------------------

  lemma {:induction false} SplitSpaced(at: Lex, a: string, b: string, piece: string)
    requires InCode(Read(at, a).mode) && Read(at, a).depth == 0
    ensures SplitFrom(at, a + " " + b, ' ', piece) == SplitFrom(at, a, ' ', piece) + Words(b)
    decreases |a|
  {
    if a == [] {
      assert a + " " + b == [' '] + b;
    } else {
      assert (a + " " + b)[1..] == a[1..] + " " + b;
      if a[0] == ' ' && InCode(at.mode) && at.depth == 0 {
        SplitSpaced(Lex(Code, 0), a[1..], b, []);
      } else {
        SplitSpaced(Feed(at, a[0]), a[1..], b, piece + [a[0]]);
      }
    }
  }

  lemma WordsApart(a: string, b: string)
    requires Closed(a, false)
    ensures Words(a + " " + b) == Words(a) + Words(b)
  {
    SplitSpaced(START, a, b, []);
  }

  lemma {:induction false} NoSpaceUncut(at: Lex, s: string)
    requires ' ' !in s
    ensures Uncut(at, s, ' ')
    decreases |s|
  {
    if s == [] {
    } else {
      NoSpaceUncut(Feed(at, s[0]), s[1..]);
    }
  }

  lemma OneWord(s: string)
    requires ' ' !in s
    ensures Words(s) == [s]
  {
    NoSpaceUncut(START, s);
    SplitLast(s, ' ');
  }

  /** A keyword and what follows it. */
  lemma KeywordFirst(keyword: string, rest: string)
    requires ' ' !in keyword && AllPlain(keyword)
    ensures Words(keyword + " " + rest) == [keyword] + Words(rest)
  {
    PlainClosed(keyword, false);
    WordsApart(keyword, rest);
    OneWord(keyword);
  }

  lemma {:induction false} InsideUncut(at: Lex, s: string)
    requires Fits(at, s, 1, true) && at.depth >= 1 && InCodeOrQuote(at.mode)
    ensures Uncut(at, s, ' ') && Read(at, s).depth >= 1
    decreases |s|
  {
    if s == [] {
    } else {
      InsideUncut(Feed(at, s[0]), s[1..]);
    }
  }

  lemma {:induction false} UncutAppend(at: Lex, a: string, b: string, separator: char)
    requires Uncut(at, a, separator) && Uncut(Read(at, a), b, separator)
    ensures Uncut(at, a + b, separator)
    decreases |a|
  {
    if a == [] {
      assert a + b == b;
    } else {
      assert (a + b)[1..] == a[1..] + b;
      UncutAppend(Feed(at, a[0]), a[1..], b, separator);
    }
  }

  function Parenthesised(inner: string): string {
    "(" + inner + ")"
  }

  /** What stands in parentheses is one word. */
  lemma ParensOneWord(inner: string)
    requires Closed(inner, true)
    ensures Words(Parenthesised(inner)) == [Parenthesised(inner)]
  {
    FitsShift(START, inner, 0, true, 1);
    InsideUncut(Lex(Code, 1), inner);
    var end := Read(Lex(Code, 1), inner);
    assert Uncut(end, ")", ' ') by { assert ")"[1..] == []; }
    UncutAppend(Lex(Code, 1), inner, ")", ' ');
    assert Parenthesised(inner)[1..] == inner + ")";
    SplitLast(Parenthesised(inner), ' ');
  }

  lemma {:induction false} AllWordsAppend(a: seq<string>, b: seq<string>)
    ensures AllWords(a + b) == AllWords(a) + AllWords(b)
    decreases |a|
  {
    if a == [] {
      assert a + b == b;
    } else {
      assert (a + b)[1..] == a[1..] + b;
      AllWordsAppend(a[1..], b);
    }
  }

  lemma OfOnePiece(piece: string)
    ensures AllWords([piece]) == Words(piece)
  {
    assert [piece][1..] == [];
  }

  lemma {:induction false} WordsOfJoined(pieces: seq<string>)
    requires pieces != [] && forall i :: 0 <= i < |pieces| ==> Closed(pieces[i], false)
    ensures Words(Join(pieces, " ")) == AllWords(pieces)
    decreases |pieces|
  {
    if |pieces| == 1 {
      assert pieces == [pieces[0]];
      OfOnePiece(pieces[0]);
    } else {
      WordsOfJoined(pieces[1..]);
      WordsApart(pieces[0], Join(pieces[1..], " "));
    }
  }

  // ---------------------------------------------------------------------
  // Putting words back together
  // ---------------------------------------------------------------------

  lemma {:induction false} JoinOfSplit(at: Lex, s: string, separator: char, piece: string)
    ensures SplitFrom(at, s, separator, piece) != []
    ensures Join(SplitFrom(at, s, separator, piece), [separator]) == piece + s
    decreases |s|
  {
    if s == [] {
    } else if s[0] == separator && InCode(at.mode) && at.depth == 0 {
      var rest := SplitFrom(Lex(Code, 0), s[1..], separator, []);
      JoinOfSplit(Lex(Code, 0), s[1..], separator, []);
      assert ([piece] + rest)[1..] == rest;
      assert s == [s[0]] + s[1..];
    } else {
      JoinOfSplit(Feed(at, s[0]), s[1..], separator, piece + [s[0]]);
      assert s == [s[0]] + s[1..];
    }
  }

  function Phrase(words: seq<string>): string {
    Join(words, " ")
  }

  lemma PhraseOfWords(s: string)
    ensures Words(s) != [] && Phrase(Words(s)) == s
  {
    JoinOfSplit(START, s, ' ', []);
  }

  lemma {:induction false} JoinShorter(pieces: seq<string>, n: nat)
    requires n < |pieces| && n > 0
    ensures |Join(pieces[..n], " ")| < |Join(pieces, " ")|
    decreases |pieces|
  {
    if n == 1 {
      assert pieces[..1] == [pieces[0]];
    } else {
      assert pieces[..n][1..] == pieces[1..][..n - 1];
      JoinShorter(pieces[1..], n - 1);
    }
  }

  /** Fewer words are another phrase. */
  lemma FewerWords(s: string, n: nat)
    requires s != [] && n < |Words(s)|
    ensures Phrase(Words(s)[..n]) != s
  {
    PhraseOfWords(s);
    if n > 0 {
      JoinShorter(Words(s), n);
    }
  }

  // ---------------------------------------------------------------------
  // Where a word stands in its text
  // ---------------------------------------------------------------------

  /** `s[i..j]` is between spaces, or at an end. */
  predicate Spaced(s: string, i: int, j: int) {
    0 <= i <= j <= |s| && (i > 0 ==> s[i - 1] == ' ') && (j < |s| ==> s[j] == ' ')
  }

  /** `word` stands in `s` between spaces, or at an end. */
  ghost predicate Stands(s: string, word: string) {
    exists i, j :: Spaced(s, i, j) && s[i..j] == word
  }

  lemma StandsAt(s: string, word: string, i: nat, j: nat)
    requires i <= j <= |s| && s[i..j] == word
    requires (i > 0 ==> s[i - 1] == ' ') && (j < |s| ==> s[j] == ' ')
    ensures Stands(s, word)
  {
    assert Spaced(s, i, j);
  }

  lemma {:induction false} SplitStands(at: Lex, s: string, piece: string, all: string, start: nat, k: nat)
    requires start + |piece| <= |all| && all[start..start + |piece|] == piece && all[start + |piece|..] == s
    requires start > 0 ==> all[start - 1] == ' '
    requires k < |SplitFrom(at, s, ' ', piece)|
    ensures Stands(all, SplitFrom(at, s, ' ', piece)[k])
    decreases |s|
  {
    var i := start + |piece|;
    if s == [] {
      StandsAt(all, piece, start, i);
    } else {
      assert s[0] == all[i] && s[1..] == all[i + 1..];
      if s[0] == ' ' && InCode(at.mode) && at.depth == 0 {
        if k == 0 {
          StandsAt(all, piece, start, i);
        } else {
          SplitStands(Lex(Code, 0), s[1..], [], all, i + 1, k - 1);
        }
      } else {
        assert all[start..i + 1] == piece + [s[0]];
        SplitStands(Feed(at, s[0]), s[1..], piece + [s[0]], all, start, k);
      }
    }
  }

  lemma WordsStand(s: string, k: nat)
    requires k < |Words(s)|
    ensures Stands(s, Words(s)[k])
  {
    SplitStands(START, s, [], s, 0, k);
  }

  lemma {:induction false} LowerEach(s: string)
    ensures |Lower(s)| == |s|
    ensures forall i :: 0 <= i < |s| ==> Lower(s)[i] == if 'A' <= s[i] <= 'Z' then s[i] - 'A' + 'a' else s[i]
    decreases |s|
  {
    if s == [] {
    } else {
      LowerEach(s[1..]);
    }
  }

  lemma LowerIs(word: string, k: Keyword)
    ensures Is(word, k) <==> Lower(word) == Spelled(k)
  {
    LowerEach(word);
  }

  lemma SpacedIsBounded(s: string, i: int, j: int)
    requires Spaced(s, i, j) && i < j && WordChar(s[i..j][0]) && WordChar(s[i..j][j - i - 1])
    ensures Bounded(s, i, j)
  {
  }

  lemma KeywordEnds(word: string, k: Keyword)
    requires Is(word, k)
    ensures word != [] && WordChar(word[0]) && WordChar(word[|word| - 1])
  {
    SpelledLower(k);
    assert 'a' <= LowerChar(word[0]) <= 'z' && 'a' <= LowerChar(word[|word| - 1]) <= 'z';
  }

  lemma StandingWord(s: string, word: string, k: Keyword, words: set<string>)
    requires Stands(s, word) && Is(word, k) && Spelled(k) in words
    ensures HasWord(s, words)
  {
    KeywordEnds(word, k);
    LowerIs(word, k);
    var i, j :| Spaced(s, i, j) && s[i..j] == word;
    SpacedIsBounded(s, i, j);
  }

  /** A text without certain words has none of them among those that spaces separate. */
  lemma WordlessFree(s: string, words: set<string>, keywords: set<Keyword>)
    requires !HasWord(s, words) && forall k :: k in keywords ==> Spelled(k) in words
    ensures Free(Words(s), keywords)
  {
    forall n | 0 <= n < |Words(s)| ensures !Among(Words(s)[n], keywords) {
      WordsStand(s, n);
      if k :| k in keywords && Is(Words(s)[n], k) {
        StandingWord(s, Words(s)[n], k, words);
        assert false;
      }
    }
  }
}
