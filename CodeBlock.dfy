/**
 * The HTML pretty-printer of the code panel (`formatHtml` in
 * frontend/src/components/CodeBlock.tsx): the markup is cut into tags and
 * the text between them, blank pieces are dropped, and each remaining piece
 * is written on a line of its own, indented by two spaces per open element.
 *
 * `Layout` is the specification of the loop; `FormatHtml` is the loop itself.
 */
module CodeBlock {
  import opened Strings

  // ---------------------------------------------------------------- tokens

  /** A match of `<[^>]*>`: `<`, then anything but `>`, then `>`. */
  predicate IsTag(t: string) {
    && |t| >= 2 && t[0] == '<' && t[|t| - 1] == '>'
    && forall m :: 0 <= m < |t| - 1 ==> t[m] != '>'
  }

  /** No `<` of `t` has a `>` after it: the pattern matches nowhere in `t`. */
  predicate NoTagIn(t: string) {
    forall a, b :: 0 <= a < b < |t| && t[a] == '<' ==> t[b] != '>'
  }

  /**
   * `html.split(/(<[^>]*>)/g)`: the text before the leftmost match, the
   * match itself (the group is captured), and the split of what follows.
   * The leftmost match starts at the first `<` and ends at the first `>`
   * after it; with no such pair the whole string is one piece.
   */
  function Tokenize(s: string): (r: seq<string>)
    ensures |r| >= 1
    decreases |s|
  {
    var i := IndexOf(s, '<');
    if i == |s| then [s]
    else
      var j := i + IndexOf(s[i..], '>');
      if j == |s| then [s] else [s[..i], s[i..j + 1]] + Tokenize(s[j + 1..])
  }

  /** `.filter(token => token.trim())`: the pieces that are not blank, in order. */
  function Keep(ts: seq<string>): (r: seq<string>)
    ensures |r| <= |ts|
    ensures forall t :: t in r ==> Trim(t) != []
  {
    if ts == [] then []
    else if Trim(ts[0]) != [] then [ts[0]] + Keep(ts[1..])
    else Keep(ts[1..])
  }

  // ---------------------------------------------------------------- one token

  /** `tab.repeat(n)`. */
  function Pad(n: nat): (r: string)
    ensures |r| == 2 * n
    ensures forall k :: 0 <= k < |r| ==> r[k] == ' '
  {
    if n == 0 then "" else "  " + Pad(n - 1)
  }

  /** The elements that take no closing tag. */
  const VoidTags: seq<string> :=
    ["img", "input", "br", "hr", "meta", "link", "area", "base", "col", "embed", "source", "track", "wbr"]

  /** `[...].some(tag => token.toLowerCase().includes(`<${tag}`))`. */
  predicate IsVoid(t: string) {
    exists k :: 0 <= k < |VoidTags| && Contains(Lower(t), "<" + VoidTags[k])
  }

  predicate IsClosing(t: string) {
    StartsWith(t, "</")
  }

  predicate IsOpening(t: string) {
    StartsWith(t, "<") && !EndsWith(t, "/>") && !Contains(t, "</")
  }

  predicate IsSelfClosing(t: string) {
    StartsWith(t, "<") && EndsWith(t, "/>")
  }

  /** A token written as it is; any other token is text and is written trimmed. */
  predicate IsMarkup(t: string) {
    IsClosing(t) || IsOpening(t) || IsSelfClosing(t)
  }

  /** `Math.max(0, indent - 1)`. */
  function Outdent(d: nat): nat {
    if d - 1 > 0 then d - 1 else 0
  }

  /** The indent a token is written at. */
  function WriteIndent(t: string, d: nat): nat {
    if IsClosing(t) then Outdent(d) else d
  }

  /** The indent after a token. */
  function NextIndent(t: string, d: nat): nat {
    if IsClosing(t) then Outdent(d)
    else if IsOpening(t) && !IsVoid(t) then d + 1
    else d
  }

  /** What a token's line shows. */
  function Shown(t: string): string {
    if IsMarkup(t) then t else Trim(t)
  }

  /** What one step of the loop appends. */
  function Line(t: string, d: nat): string {
    if IsMarkup(t) || Trim(t) != [] then Pad(WriteIndent(t, d)) + Shown(t) + "\n" else ""
  }

  // ---------------------------------------------------------------- the layout

  /** The lines the loop appends from indent `d` on. */
  function LinesOf(ts: seq<string>, d: nat): (r: seq<string>)
    ensures |r| == |ts|
  {
    if ts == [] then [] else [Line(ts[0], d)] + LinesOf(ts[1..], NextIndent(ts[0], d))
  }

  /** What the loop adds to `formatted` for the tokens `ts`, starting at indent `d`. */
  function Layout(ts: seq<string>, d: nat): string {
    Concat(LinesOf(ts, d))
  }

  /** The indent the loop holds after the tokens `ts`, starting at `d`. */
  function Final(ts: seq<string>, d: nat): nat {
    if ts == [] then d else Final(ts[1..], NextIndent(ts[0], d))
  }

  /** `formatHtml(html)`, as a value. */
  function Formatted(html: string): string {
    Trim(Layout(Keep(Tokenize(html)), 0))
  }

  /** `formatHtml(html)`: the `forEach` loop over the kept tokens, then `trim`. */
  method FormatHtml(html: string) returns (r: string)
    ensures r == Formatted(html)
  {
    var tokens := Keep(Tokenize(html));
    var formatted := "";
    var indent: nat := 0;
    var i := 0;
    while i < |tokens|
      invariant 0 <= i <= |tokens|
      invariant formatted + Layout(tokens[i..], indent) == Layout(tokens, 0)
    {
      var token := tokens[i];
      LayoutStep(tokens, i, indent);
      ghost var d := indent;
      ghost var old_formatted := formatted;
      formatted, indent := Visit(token, formatted, indent);
      AppendAssoc(old_formatted, Line(token, d), Layout(tokens[i + 1..], indent));
      i := i + 1;
    }
    assert tokens[i..] == [];
    assert formatted == Layout(tokens, 0);
    r := Trim(formatted);
  }

  /** The `forEach` callback: the token's line is appended and the indent moves. */
  method Visit(token: string, formatted: string, indent: nat) returns (formatted': string, indent': nat)
    ensures formatted' == formatted + Line(token, indent)
    ensures indent' == NextIndent(token, indent)
  {
    formatted', indent' := formatted, indent;
    if StartsWith(token, "</") {
      ClosingRule(token, indent);
      indent' := if indent - 1 > 0 then indent - 1 else 0;
      formatted' := formatted + (Pad(indent') + token + "\n");
    } else if StartsWith(token, "<") && !EndsWith(token, "/>") && !Contains(token, "</") {
      OpeningRule(token, indent);
      formatted' := formatted + (Pad(indent) + token + "\n");
      if !IsVoid(token) {
        indent' := indent + 1;
      }
    } else if StartsWith(token, "<") && EndsWith(token, "/>") {
      FlatRule(token, indent);
      formatted' := formatted + (Pad(indent) + token + "\n");
    } else if Trim(token) != [] {
      FlatRule(token, indent);
      formatted' := formatted + (Pad(indent) + Trim(token) + "\n");
    } else {
      FlatRule(token, indent);
      assert formatted + Line(token, indent) == formatted;
    }
  }

  lemma AppendAssoc(a: string, b: string, c: string)
    ensures (a + b) + c == a + (b + c)
  {
  }

  /** One turn of the loop: the first token's line, then the rest from the indent it leaves. */
  lemma LayoutStep(ts: seq<string>, i: nat, d: nat)
    requires i < |ts|
    ensures Layout(ts[i..], d) == Line(ts[i], d) + Layout(ts[i + 1..], NextIndent(ts[i], d))
  {
    assert ts[i..][1..] == ts[i + 1..];
  }

  // ---------------------------------------------------------------- properties

  lemma ConcatCons(x: string, rest: seq<string>)
    ensures Concat([x] + rest) == x + Concat(rest)
  {
    assert ([x] + rest)[1..] == rest;
  }

  lemma ConcatPair(a: string, b: string, rest: seq<string>)
    ensures Concat([a, b] + rest) == a + (b + Concat(rest))
  {
    assert [a, b] + rest == [a] + ([b] + rest);
    ConcatCons(a, [b] + rest);
    ConcatCons(b, rest);
  }

  lemma Split3(s: string, i: nat, j: nat)
    requires i <= j <= |s|
    ensures s[..i] + (s[i..j] + s[j..]) == s
  {
  }

  /** A split that found a tag: the text before it, the tag, and the split of the rest. */
  lemma TokenizeSplit(s: string) returns (i: nat, j: nat)
    requires Tokenize(s) != [s]
    ensures i <= j < |s| && Tokenize(s) == [s[..i], s[i..j + 1]] + Tokenize(s[j + 1..])
    ensures i == IndexOf(s, '<') && j == i + IndexOf(s[i..], '>')
  {
    i := IndexOf(s, '<');
    j := i + IndexOf(s[i..], '>');
  }

  /**
   * A split that found a tag cut at the leftmost match: no `<` comes before
   * the tag, which runs from that first `<` to the first `>` after it.
   */
  lemma TokenizeLeftmost(s: string) returns (i: nat, j: nat)
    requires Tokenize(s) != [s]
    ensures i < j < |s| && s[i] == '<' && s[j] == '>'
    ensures forall a :: 0 <= a < i ==> s[a] != '<'
    ensures forall q :: i < q < j ==> s[q] != '>'
    ensures Tokenize(s) == [s[..i], s[i..j + 1]] + Tokenize(s[j + 1..])
  {
    i, j := TokenizeSplit(s);
    assert s[i..][0] == s[i];
    assert s[i..][j - i] == s[j];
    forall q | i < q < j
      ensures s[q] != '>'
    {
      assert s[i..][q - i] == s[q];
    }
  }

  /** The split leaves the input whole exactly when the pattern matches nowhere in it. */
  lemma TokenizeWholeIff(s: string)
    ensures Tokenize(s) == [s] <==> NoTagIn(s)
  {
    if Tokenize(s) == [s] {
      TokenizeWhole(s);
    } else {
      var i, j := TokenizeLeftmost(s);
      assert !NoTagIn(s) by {
        assert i < j < |s| && s[i] == '<' && s[j] == '>';
      }
    }
  }

  /** Text before the first `<` holds no tag. */
  lemma NoOpenNoTag(s: string, i: nat)
    requires i == IndexOf(s, '<')
    ensures NoTagIn(s[..i])
  {
    forall a | 0 <= a < i
      ensures s[..i][a] != '<'
    {
    }
  }

  /** From a `<` to the first `>` after it is a tag. */
  lemma TagUpTo(s: string, i: nat, j: nat)
    requires i < |s| && s[i] == '<' && j == i + IndexOf(s[i..], '>') && j < |s|
    ensures IsTag(s[i..j + 1])
  {
    var t := s[i..j + 1];
    assert t[0] == s[i..][0];
    forall m | 0 <= m < |t| - 1
      ensures t[m] != '>'
    {
      assert t[m] == s[i..][m];
    }
    assert t[|t| - 1] == s[i..][j - i];
  }

  /** A split that found no tag: the pattern matches nowhere in the input. */
  lemma TokenizeWhole(s: string)
    requires Tokenize(s) == [s]
    ensures NoTagIn(s)
  {
    var i := IndexOf(s, '<');
    if i < |s| {
      forall a, b | 0 <= a < b < |s| && s[a] == '<'
        ensures s[b] != '>'
      {
        assert s[b] == s[i..][b - i];
      }
    }
  }

  /** The pieces put back together give the input. */
  lemma {:induction false} TokenizeConcat(s: string)
    ensures Concat(Tokenize(s)) == s
    decreases |s|
  {
    if Tokenize(s) != [s] {
      var i, j := TokenizeSplit(s);
      var rest := Tokenize(s[j + 1..]);
      TokenizeConcat(s[j + 1..]);
      ConcatPair(s[..i], s[i..j + 1], rest);
      Split3(s, i, j + 1);
    } else {
      ConcatCons(s, []);
    }
  }

  /** Text without a tag in it, then, unless that is all, a tag and again such an alternation. */
  predicate Alternates(r: seq<string>)
    decreases |r|
  {
    && |r| >= 1 && NoTagIn(r[0])
    && (|r| == 1 || (|r| >= 3 && IsTag(r[1]) && Alternates(r[2..])))
  }

  /** The pieces alternate between text with no tag in it and a single tag, and end with text. */
  lemma {:induction false} TokenizeAlternates(s: string)
    ensures Alternates(Tokenize(s))
    decreases |s|
  {
    var r := Tokenize(s);
    if r != [s] {
      var i, j := TokenizeSplit(s);
      NoOpenNoTag(s, i);
      TagUpTo(s, i, j);
      assert r[2..] == Tokenize(s[j + 1..]);
      TokenizeAlternates(s[j + 1..]);
    } else {
      TokenizeWhole(s);
    }
  }

  /** Exactly the pieces that are not blank survive. */
  lemma {:induction false} KeepKeeps(ts: seq<string>)
    ensures forall t :: t in Keep(ts) <==> t in ts && Trim(t) != []
  {
    if ts != [] {
      KeepKeeps(ts[1..]);
      assert ts == [ts[0]] + ts[1..];
    }
  }

  /** The filter works piece by piece: it keeps the order of what survives. */
  lemma {:induction false} KeepAppend(a: seq<string>, b: seq<string>)
    ensures Keep(a + b) == Keep(a) + Keep(b)
  {
    if a == [] {
      assert a + b == b;
    } else {
      assert (a + b)[1..] == a[1..] + b;
      KeepAppend(a[1..], b);
    }
  }

  /** A single piece survives exactly when it is not blank. */
  lemma KeepOne(t: string)
    ensures Keep([t]) == if Trim(t) != [] then [t] else []
  {
    assert [t][1..] == [];
  }

  /** The indents the tokens are met with: `d` first, then each token's effect in turn. */
  function Indents(ts: seq<string>, d: nat): (r: seq<nat>)
    ensures |r| == |ts| + 1 && r[0] == d
    ensures forall k :: 0 <= k < |ts| ==> r[k + 1] == NextIndent(ts[k], r[k])
    ensures r[|ts|] == Final(ts, d)
  {
    if ts == [] then [d] else [d] + Indents(ts[1..], NextIndent(ts[0], d))
  }

  /**
   * Every kept token gives exactly one line: two spaces per level of the
   * indent it is written at, the token (trimmed when it is text), and a
   * line break.
   */
  lemma {:induction false} OneLinePerToken(ts: seq<string>, d: nat)
    requires forall t :: t in ts ==> Trim(t) != []
    ensures |LinesOf(ts, d)| == |ts|
    ensures forall k :: 0 <= k < |ts| ==>
      LinesOf(ts, d)[k] == Pad(WriteIndent(ts[k], Indents(ts, d)[k])) + Shown(ts[k]) + "\n"
  {
    if ts != [] {
      OneLinePerToken(ts[1..], NextIndent(ts[0], d));
    }
  }

  /** A closing tag steps back one level before it is written, and never below 0. */
  lemma ClosingRule(t: string, d: nat)
    requires IsClosing(t)
    ensures WriteIndent(t, d) == NextIndent(t, d)
    ensures d > 0 ==> NextIndent(t, d) == d - 1
    ensures d == 0 ==> NextIndent(t, d) == 0
    ensures Line(t, d) == Pad(NextIndent(t, d)) + t + "\n"
  {
  }

  /** An opening tag is written at the current level and opens one more, unless its element is void. */
  lemma OpeningRule(t: string, d: nat)
    requires StartsWith(t, "<") && !EndsWith(t, "/>") && !Contains(t, "</")
    ensures Line(t, d) == Pad(d) + t + "\n"
    ensures NextIndent(t, d) == if IsVoid(t) then d else d + 1
  {
  }

  /** Self-closing tags and text leave the level alone; text is written trimmed. */
  lemma FlatRule(t: string, d: nat)
    requires !IsClosing(t) && !IsOpening(t)
    ensures NextIndent(t, d) == d
    ensures IsSelfClosing(t) ==> Line(t, d) == Pad(d) + t + "\n"
    ensures !IsSelfClosing(t) && Trim(t) != [] ==> Line(t, d) == Pad(d) + Trim(t) + "\n"
  {
  }

  lemma {:induction false} FinalAppend(a: seq<string>, b: seq<string>, d: nat)
    ensures Final(a + b, d) == Final(b, Final(a, d))
  {
    if a == [] {
      assert a + b == b;
    } else {
      assert (a + b)[0] == a[0] && (a + b)[1..] == a[1..] + b;
      FinalAppend(a[1..], b, NextIndent(a[0], d));
    }
  }

  lemma {:induction false} LayoutAppend(a: seq<string>, b: seq<string>, d: nat)
    ensures Layout(a + b, d) == Layout(a, d) + Layout(b, Final(a, d))
  {
    if a == [] {
      assert a + b == b;
    } else {
      assert (a + b)[1..] == a[1..] + b;
      LayoutAppend(a[1..], b, NextIndent(a[0], d));
    }
  }

  /** Markup read as nested elements, each with its opening and closing tag. */
  datatype Markup =
    | Element(open: string, body: seq<Markup>, close: string)
    | Flat(token: string)

  /**
   * Each element opens with a non-void opening tag and closes with a closing
   * tag; everything else is a self-closing tag, a void tag or text.
   */
  predicate Nested(m: Markup)
    decreases m
  {
    match m
    case Element(open, body, close) =>
      && IsOpening(open) && !IsVoid(open) && IsClosing(close)
      && forall k :: 0 <= k < |body| ==> Nested(body[k])
    case Flat(t) => !IsClosing(t) && !(IsOpening(t) && !IsVoid(t))
  }

  function Tokens(m: Markup): seq<string>
    decreases m
  {
    match m
    case Element(open, body, close) => [open] + TokensAll(body) + [close]
    case Flat(t) => [t]
  }

  function TokensAll(ms: seq<Markup>): seq<string>
    decreases ms
  {
    if ms == [] then [] else Tokens(ms[0]) + TokensAll(ms[1..])
  }

  /** Balanced markup returns to the level it started at. */
  lemma {:induction false} NestedReturns(m: Markup, d: nat)
    requires Nested(m)
    ensures Final(Tokens(m), d) == d
    decreases m
  {
    match m
    case Element(open, body, close) =>
      NestedReturnsAll(body, d + 1);
      var inner := TokensAll(body);
      OpeningRule(open, d);
      FinalAppend([open], inner, d);
      FinalAppend([open] + inner, [close], d);
    case Flat(t) =>
  }

  lemma {:induction false} NestedReturnsAll(ms: seq<Markup>, d: nat)
    requires forall k :: 0 <= k < |ms| ==> Nested(ms[k])
    ensures Final(TokensAll(ms), d) == d
    decreases ms
  {
    if ms != [] {
      NestedReturns(ms[0], d);
      NestedReturnsAll(ms[1..], d);
      FinalAppend(Tokens(ms[0]), TokensAll(ms[1..]), d);
    }
  }

  /**
   * A balanced element is laid out as its opening tag at the current level,
   * its body one level deeper, then its closing tag back at the opening
   * tag's level.
   */
  lemma ElementLayout(m: Markup, d: nat)
    requires m.Element? && Nested(m)
    ensures Layout(Tokens(m), d)
            == Pad(d) + m.open + "\n" + Layout(TokensAll(m.body), d + 1) + Pad(d) + m.close + "\n"
  {
    var inner := TokensAll(m.body);
    assert Tokens(m) == [m.open] + inner + [m.close];
    NestedReturnsAll(m.body, d + 1);
    OpeningRule(m.open, d);
    ClosingRule(m.close, d + 1);
    LayoutOne(m.open, d);
    LayoutOne(m.close, d + 1);
    FinalAppend([m.open], inner, d);
    LayoutAppend([m.open], inner, d);
    LayoutAppend([m.open] + inner, [m.close], d);
    var x := Pad(d) + m.open + "\n" + Layout(inner, d + 1);
    AppendAssoc(x, Pad(d) + m.close, "\n");
    AppendAssoc(x, Pad(d), m.close);
  }

  /** A single token is laid out as its line and moves the indent by its own rule. */
  lemma LayoutOne(t: string, d: nat)
    ensures Layout([t], d) == Line(t, d) && Final([t], d) == NextIndent(t, d)
  {
    assert [t][1..] == [];
    ConcatCons(Line(t, d), []);
  }

  /** `t` occurs in `s` at position `p`. */
  predicate OccursAt(s: string, t: string, p: nat) {
    p + |t| <= |s| && s[p..p + |t|] == t
  }

  /** Where `s` holds `t`, some position of `s` starts a copy of it. */
  lemma {:induction false} ContainsAt(s: string, t: string)
    requires Contains(s, t)
    ensures exists p: nat :: OccursAt(s, t, p)
    decreases |s|
  {
    if StartsWith(s, t) {
      assert OccursAt(s, t, 0);
    } else {
      ContainsAt(s[1..], t);
      var p: nat :| OccursAt(s[1..], t, p);
      assert s[p + 1..p + 1 + |t|] == s[1..][p..p + |t|];
      assert OccursAt(s, t, p + 1);
    }
  }

  /** An occurrence fixes the characters it covers. */
  lemma OccursAtChar(s: string, t: string, p: nat, m: nat)
    ensures OccursAt(s, t, p) && m < |t| ==> s[p + m] == t[m]
  {
    if OccursAt(s, t, p) && m < |t| {
      assert s[p..p + |t|][m] == s[p + m];
    }
  }

  /** With no occurrence at any position, `includes` is false. */
  lemma NotContains(s: string, t: string)
    requires forall p: nat :: !OccursAt(s, t, p)
    ensures !Contains(s, t)
  {
    if Contains(s, t) {
      ContainsAt(s, t);
    }
  }

  /** A tag with no `/` in it is an opening tag. */
  lemma NoSlashOpens(t: string)
    requires |t| >= 1 && t[0] == '<' && '/' !in t
    ensures IsOpening(t)
  {
    assert t[..1] == "<";
    assert |t| >= 2 ==> t[|t| - 2..][0] == t[|t| - 2];
    forall p: nat
      ensures !OccursAt(t, "</", p)
    {
      OccursAtChar(t, "</", p, 1);
    }
    NotContains(t, "</");
  }

  /**
   * A tag whose only `<` is followed by `!` is never void, so it always opens
   * a level: `<!doctype html>` indents everything after it.
   */
  lemma BangIsNotVoid(t: string)
    requires |t| >= 2 && t[0] == '<' && t[1] == '!' && '<' !in t[1..]
    ensures !IsVoid(t)
  {
    var l := Lower(t);
    forall k | 0 <= k < |VoidTags|
      ensures !Contains(l, "<" + VoidTags[k])
    {
      var w := "<" + VoidTags[k];
      assert 'a' <= w[1] <= 'z';
      forall p: nat
        ensures !OccursAt(l, w, p)
      {
        OccursAtChar(l, w, p, 0);
        OccursAtChar(l, w, p, 1);
        if 0 < p < |t| {
          assert t[1..][p - 1] == t[p];
        }
      }
      NotContains(l, w);
    }
  }

  lemma DoctypeOpens(d: nat)
    ensures NextIndent("<!doctype html>", d) == d + 1
  {
    var t := "<!doctype html>";
    assert '<' !in t[1..] && '/' !in t;
    BangIsNotVoid(t);
    NoSlashOpens(t);
  }
}
