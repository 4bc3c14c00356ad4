/** Lock names from templates: filled by recursion in Rust, by splitting and joining in TypeScript. */
module Filling {
  import opened Key

  /** The first `c` in `s` at or after `from`, or `|s|`. */
  function Find(s: string, c: char, from: nat): (k: nat)
    requires from <= |s|
    ensures from <= k <= |s| && (k < |s| ==> s[k] == c) && forall i :: from <= i < k ==> s[i] != c
    decreases |s| - from
  {
    if from == |s| || s[from] == c then from else Find(s, c, from + 1)
  }

  function FillAt(fill: seq<string>, i: nat): string {
    if i < |fill| then fill[i] else ""
  }

  function Rest(fill: seq<string>): seq<string> {
    if fill == [] then [] else fill[1..]
  }

  // ---------------------------------------------------------------------
  // The Rust form
  // ---------------------------------------------------------------------

  /** Where the placeholder at `open` ends: after the next `}`, or with the template. */
  function PlaceholderEnd(template: string, open: nat): (end: nat)
    requires open < |template| && template[open] == '{'
    ensures open < end <= |template|
  {
    var after := template[open..];
    var close := Find(after, '}', 0);
    open + if close == |after| then |after| else close + 1
  }

  function FillPlaceholders(template: string, fill: seq<string>): string
    decreases |template|
  {
    var open := Find(template, '{', 0);
    if open == |template| then template
    else
      var rest := template[PlaceholderEnd(template, open)..];
      template[..open] + FillAt(fill, 0) + FillPlaceholders(rest, Rest(fill))
  }

  // ---------------------------------------------------------------------
  // The TypeScript form
  // ---------------------------------------------------------------------

  /** `template.split` at every shortest `{` to `}`. */
  function Parts(template: string): (parts: seq<string>)
    ensures parts != []
    decreases |template|
  {
    var open := Find(template, '{', 0);
    var close := Find(template, '}', open);
    if close == |template| then [template] else [template[..open]] + Parts(template[close + 1..])
  }

  /** Every part but the last is followed by the fill of its index. */
  function FilledParts(parts: seq<string>, fill: seq<string>): seq<string> {
    seq(|parts|, i requires 0 <= i < |parts| => if i < |parts| - 1 then parts[i] + FillAt(fill, i) else parts[i])
  }

  function Concat(parts: seq<string>): string
    decreases |parts|
  {
    if parts == [] then [] else parts[0] + Concat(parts[1..])
  }

  function FilledName(template: string, fill: seq<string>): string {
    Concat(FilledParts(Parts(template), fill))
  }

  // ---------------------------------------------------------------------
  // They agree
  // ---------------------------------------------------------------------

  predicate HasClose(template: string, i: nat) {
    exists j :: i < j < |template| && template[j] == '}'
  }

  /** Every `{` has a `}` after it. */
  predicate AllClosed(template: string) {
    forall i :: 0 <= i < |template| && template[i] == '{' ==> HasClose(template, i)
  }

  lemma FilledPartsTail(first: string, parts: seq<string>, fill: seq<string>)
    requires parts != []
    ensures Concat(FilledParts([first] + parts, fill)) ==
      first + FillAt(fill, 0) + Concat(FilledParts(parts, Rest(fill)))
  {
    var whole := FilledParts([first] + parts, fill);
    assert whole[0] == first + FillAt(fill, 0);
    var tail := FilledParts(parts, Rest(fill));
    forall i | 0 <= i < |parts| ensures whole[i + 1] == tail[i] {
      assert ([first] + parts)[i + 1] == parts[i];
      assert FillAt(fill, i + 1) == FillAt(Rest(fill), i);
    }
    assert whole[1..] == tail;
  }

  lemma FilledOnePart(part: string, fill: seq<string>)
    ensures Concat(FilledParts([part], fill)) == part
  {
    var whole := FilledParts([part], fill);
    assert whole == [part] && whole[1..] == [];
  }

  lemma {:induction false} FindIs(s: string, c: char, from: nat, k: nat)
    requires from <= k <= |s| && (k < |s| ==> s[k] == c) && forall i :: from <= i < k ==> s[i] != c
    ensures Find(s, c, from) == k
    decreases |s| - from
  {
    if from == k {
    } else {
      FindIs(s, c, from + 1, k);
    }
  }

  /** Both forms see a placeholder end at the same place, if it is closed. */
  lemma SameEnd(template: string, open: nat, close: nat)
    requires open < |template| && template[open] == '{'
    requires close == Find(template, '}', open)
    ensures PlaceholderEnd(template, open) == if close == |template| then |template| else close + 1
  {
    FindIs(template[open..], '}', 0, close - open);
  }

  lemma ClosedTail(template: string, close: nat)
    requires close < |template| && template[close] == '}' && AllClosed(template)
    ensures AllClosed(template[close + 1..])
  {
    var tail := template[close + 1..];
    forall i | 0 <= i < |tail| && tail[i] == '{' ensures HasClose(tail, i) {
      assert template[close + 1 + i] == '{';
      assert HasClose(template, close + 1 + i);
      var j :| close + 1 + i < j < |template| && template[j] == '}';
      assert tail[j - close - 1] == '}';
    }
  }

  lemma OneFilled(template: string, fill: seq<string>, open: nat, close: nat)
    requires open == Find(template, '{', 0) && open < |template|
    requires close == Find(template, '}', open) && close < |template|
    ensures FillPlaceholders(template, fill) ==
      template[..open] + FillAt(fill, 0) + FillPlaceholders(template[close + 1..], Rest(fill))
  {
    SameEnd(template, open, close);
    assert PlaceholderEnd(template, open) == close + 1;
  }

  /** A text without a placeholder is its own filling; the first placeholder makes way for the first fill. */
  lemma FirstIsFilled(before: string, name: string, after: string, fill: seq<string>)
    requires '{' !in before && '}' !in name
    ensures FillPlaceholders(before, fill) == before
    ensures FillPlaceholders(before + "{" + name + "}" + after, fill) ==
      before + (if fill == [] then "" else fill[0]) + FillPlaceholders(after, if fill == [] then [] else fill[1..])
  {
    var template := before + "{" + name + "}" + after;
    var open, close := |before|, |before| + 1 + |name|;
    FindIs(before, '{', 0, |before|);
    FindIs(template, '{', 0, open);
    FindIs(template, '}', open, close);
    OneFilled(template, fill, open, close);
    assert template[..open] == before && template[close + 1..] == after;
  }

  lemma OneReplaced(template: string, fill: seq<string>, open: nat, close: nat)
    requires open == Find(template, '{', 0) && open < |template|
    requires close == Find(template, '}', open) && close < |template|
    ensures var head, tail := template[..open] + FillAt(fill, 0), template[close + 1..];
      && FillPlaceholders(template, fill) == head + FillPlaceholders(tail, Rest(fill))
      && FilledName(template, fill) == head + FilledName(tail, Rest(fill))
  {
    OneFilled(template, fill, open, close);
    FilledPartsTail(template[..open], Parts(template[close + 1..]), fill);
  }

  /** On templates whose placeholders are all closed, the two forms fill alike, whatever the fills. */
  lemma {:induction false} FormsAgree(template: string, fill: seq<string>)
    requires AllClosed(template)
    ensures FillPlaceholders(template, fill) == FilledName(template, fill)
    decreases |template|
  {
    var open := Find(template, '{', 0);
    var close := Find(template, '}', open);
    if open == |template| {
      FilledOnePart(template, fill);
    } else {
      assert HasClose(template, open);
      assert close < |template|;
      OneReplaced(template, fill, open, close);
      ClosedTail(template, close);
      FormsAgree(template[close + 1..], Rest(fill));
    }
  }

  lemma ClosedWhole(template: string, close: nat)
    requires close < |template| && template[close] == '}' && AllClosed(template[close + 1..])
    ensures AllClosed(template)
  {
    var tail := template[close + 1..];
    forall i | 0 <= i < |template| && template[i] == '{' ensures HasClose(template, i) {
      if i > close {
        var k := i - close - 1;
        assert tail[k] == '{';
        assert HasClose(tail, k);
        var j :| k < j < |tail| && tail[j] == '}';
        assert template[close + 1 + j] == '}';
      }
    }
  }

  lemma UnclosedTail(template: string, close: nat)
    requires close < |template| && template[close] == '}' && !AllClosed(template)
    ensures !AllClosed(template[close + 1..])
  {
    if AllClosed(template[close + 1..]) {
      ClosedWhole(template, close);
    }
  }

  lemma UnclosedOpens(template: string)
    requires !AllClosed(template)
    ensures Find(template, '{', 0) < |template|
  {
  }

  lemma UnclosedLeft(template: string, open: nat)
    requires open == Find(template, '{', 0) && open < |template| && Find(template, '}', open) == |template|
    ensures FillPlaceholders(template, []) == template[..open] && FilledName(template, []) == template
  {
    SameEnd(template, open, |template|);
    FilledOnePart(template, []);
    assert template[|template|..] == [];
    assert FillPlaceholders([], []) == [];
    assert template[..open] + "" + "" == template[..open];
  }

  /** An unclosed placeholder is replaced by the Rust form and kept by the TypeScript form. */
  lemma {:induction false} FormsDiffer(template: string, fill: seq<string>)
    requires !AllClosed(template) && fill == []
    ensures |FillPlaceholders(template, fill)| < |FilledName(template, fill)|
    decreases |template|
  {
    UnclosedOpens(template);
    var open := Find(template, '{', 0);
    var close := Find(template, '}', open);
    if close == |template| {
      UnclosedLeft(template, open);
    } else {
      UnclosedTail(template, close);
      OneReplaced(template, fill, open, close);
      FormsDiffer(template[close + 1..], fill);
    }
  }

  lemma FormsAgreeExactlyWhenClosed(template: string)
    ensures (forall fill :: FillPlaceholders(template, fill) == FilledName(template, fill)) <==> AllClosed(template)
  {
    if AllClosed(template) {
      forall fill ensures FillPlaceholders(template, fill) == FilledName(template, fill) {
        FormsAgree(template, fill);
      }
    } else {
      FormsDiffer(template, []);
      assert FillPlaceholders(template, []) != FilledName(template, []);
    }
  }

  // ---------------------------------------------------------------------
  // Different fills and different names make different keys
  // ---------------------------------------------------------------------

  lemma OnePlaceholder(template: string, f: string)
    requires AllClosed(template) && |Parts(template)| == 2
    ensures FillPlaceholders(template, [f]) == Parts(template)[0] + f + Parts(template)[1]
  {
    var parts := Parts(template);
    FormsAgree(template, [f]);
    assert parts == [parts[0]] + [parts[1]];
    FilledPartsTail(parts[0], [parts[1]], [f]);
    FilledOnePart(parts[1], []);
  }

  /** A template with one placeholder never makes one name of two fills, in either language. */
  lemma FillsStayApart(template: string, f: string, g: string)
    requires AllClosed(template) && |Parts(template)| == 2
    requires FillPlaceholders(template, [f]) == FillPlaceholders(template, [g])
    ensures f == g
  {
    var parts := Parts(template);
    OnePlaceholder(template, f);
    OnePlaceholder(template, g);
    var n, whole := |parts[0]|, parts[0] + f + parts[1];
    assert whole == parts[0] + g + parts[1];
    assert |f| == |g|;
    assert whole[n..n + |f|] == f && whole[n..n + |g|] == g;
  }

  /** With two placeholders side by side, two fills can make one name. */
  lemma TwoFillsMayMeet()
    ensures FillPlaceholders("{a}{b}", ["x", ""]) == FillPlaceholders("{a}{b}", ["", "x"]) == "x"
  {
    var t := "{a}{b}";
    FindIs(t, '{', 0, 0);
    FindIs(t, '}', 0, 2);
    assert t[0..] == t && t[3..] == "{b}" && t[..0] == "";
    FindIs("{b}", '{', 0, 0);
    FindIs("{b}", '}', 0, 2);
    assert "{b}"[0..] == "{b}" && "{b}"[3..] == "" && "{b}"[..0] == "";
    assert FillPlaceholders("", []) == "";
    assert FillPlaceholders("{b}", ["x"]) == "" + "x" + "";
    assert FillPlaceholders("{b}", [""]) == "" + "" + "";
  }

  datatype Domain = Jobs | Migrations | Outbox | Tenant

  function DomainName(d: Domain): string {
    match d
    case Jobs => "jobs"
    case Migrations => "migrations"
    case Outbox => "outbox"
    case Tenant => "tenant"
  }

  function KeyOf(d: Domain, name: string): string {
    "cliptown/" + DomainName(d) + "/" + name
  }

  lemma KeysByDomain(name: string)
    ensures KeyOf(Jobs, name) == "cliptown/jobs/" + name && KeyOf(Migrations, name) == "cliptown/migrations/" + name
    ensures KeyOf(Outbox, name) == "cliptown/outbox/" + name && KeyOf(Tenant, name) == "cliptown/tenant/" + name
  {
    assert "cliptown/" + "jobs" + "/" == "cliptown/jobs/";
    assert "cliptown/" + "migrations" + "/" == "cliptown/migrations/";
    assert "cliptown/" + "outbox" + "/" == "cliptown/outbox/";
    assert "cliptown/" + "tenant" + "/" == "cliptown/tenant/";
  }

  lemma SameAfter(prefix: string, a: string, b: string)
    ensures prefix + a == prefix + b ==> a == b
  {
    assert (prefix + a)[|prefix|..] == a && (prefix + b)[|prefix|..] == b;
  }

  /** Names of different domains never share a key, whatever slashes they contain. */
  lemma KeysStayApart(d: Domain, e: Domain, m: string, n: string)
    requires KeyOf(d, m) == KeyOf(e, n)
    ensures d == e && m == n
  {
    var prefix := "cliptown/";
    SameAfter(prefix, DomainName(d) + "/" + m, DomainName(e) + "/" + n);
    assert KeyOf(d, m) == prefix + (DomainName(d) + "/" + m);
    assert KeyOf(e, n) == prefix + (DomainName(e) + "/" + n);
    assert (DomainName(d) + "/" + m)[0] == DomainName(d)[0];
    assert (DomainName(e) + "/" + n)[0] == DomainName(e)[0];
    SameAfter(DomainName(d) + "/", m, n);
  }

  /** The keys that two fills of one catalog entry make are equal only when the fills are. */
  lemma EntryKeysStayApart(d: Domain, template: string, f: string, g: string)
    requires AllClosed(template) && |Parts(template)| == 2
    ensures KeyOf(d, FillPlaceholders(template, [f])) == KeyOf(d, FillPlaceholders(template, [g])) <==> f == g
    ensures KeyOf(d, FillPlaceholders(template, [f])) == KeyOf(d, FilledName(template, [f]))
  {
    FormsAgree(template, [f]);
    if KeyOf(d, FillPlaceholders(template, [f])) == KeyOf(d, FillPlaceholders(template, [g])) {
      KeysStayApart(d, d, FillPlaceholders(template, [f]), FillPlaceholders(template, [g]));
      FillsStayApart(template, f, g);
    }
  }

  function EntryKey(d: Domain, template: string, fill: seq<string>): KeyResult {
    LockKey(KeyOf(d, FillPlaceholders(template, fill)))
  }

  lemma KeySize(d: Domain, head: string, f: string, tail: string)
    ensures |Utf8(KeyOf(d, head + f + tail))| ==
      |Utf8("cliptown/" + DomainName(d) + "/")| + |Utf8(head)| + |Utf8(f)| + |Utf8(tail)|
  {
    var prefix := "cliptown/" + DomainName(d) + "/";
    Utf8Append(prefix, head + f + tail);
    Utf8Append(head + f, tail);
    Utf8Append(head, f);
  }

  /** A fill is admitted exactly when its UTF-8 bytes fit into what the rest of the key leaves of the bound. */
  lemma EntryAdmittedExactly(d: Domain, template: string, f: string)
    requires AllClosed(template) && |Parts(template)| == 2
    ensures EntryKey(d, template, [f]).ValidKey? <==>
      |Utf8(f)| + |Utf8(KeyOf(d, FillPlaceholders(template, [""])))| <= 512
  {
    var parts := Parts(template);
    OnePlaceholder(template, f);
    OnePlaceholder(template, "");
    KeySize(d, parts[0], f, parts[1]);
    KeySize(d, parts[0], "", parts[1]);
  }
}
