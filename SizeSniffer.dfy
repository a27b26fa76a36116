/**
 * The size sniffer of the front end (`extractSizeFromCode` in
 * frontend/src/lib/parse.ts): three regular expressions tried in turn, each
 * capturing a width and a height as runs of digits and dots.
 *
 * Each expression is written out as the search JavaScript's backtracking
 * matcher performs. In every pattern a `\s*` is followed by `[0-9.]` and a
 * `[0-9.]+` by a character outside that class, so at a given position both
 * runs are maximal and the match there is unique; only the leftmost start
 * and, in the first pattern, the two greedy `[^"]*` gaps involve a search.
 * `parseFloat` is a parameter.
 */
module SizeSniffer {
  import opened Wrappers
  import opened Strings
  import opened Scan

  /** The class `[0-9.]`. */
  predicate IsNumChar(c: char) { IsDigit(c) || c == '.' }

  /** The length of the longest run of `[0-9.]` in `s` from `i` on. */
  function NumRun(s: string, i: nat): (n: nat)
    requires i <= |s|
    ensures i + n <= |s|
    ensures forall k :: i <= k < i + n ==> IsNumChar(s[k])
    ensures i + n < |s| ==> !IsNumChar(s[i + n])
    decreases |s| - i
  {
    if i < |s| && IsNumChar(s[i]) then 1 + NumRun(s, i + 1) else 0
  }

  /** The length of the longest run `\s*` matches in `s` from `i` on. */
  function SpaceRun(s: string, i: nat): (n: nat)
    requires i <= |s|
    ensures i + n <= |s|
    ensures forall k :: i <= k < i + n ==> IsSpace(s[k])
    ensures i + n < |s| ==> !IsSpace(s[i + n])
    decreases |s| - i
  {
    if i < |s| && IsSpace(s[i]) then 1 + SpaceRun(s, i + 1) else 0
  }

  /** A number the pattern captured, and where the match of its part ends. */
  datatype Capture = Capture(text: string, end: nat)

  /** One number pattern: `key`, then `\s*` when `spaces`, then `([0-9.]+)`, then `tail`. */
  datatype Pattern = Pattern(key: string, spaces: bool, tail: string)

  const StyleWidth := Pattern("width:", true, "px;")
  const StyleHeight := Pattern("height:", true, "px")
  const CssWidth := Pattern("width:", true, "px")
  const CssHeight := Pattern("height:", true, "px")
  const AttrWidth := Pattern("width=\"", false, "\"")
  const AttrHeight := Pattern("height=\"", false, "\"")

  /** Where `\s*` from `a` stops, or `a` itself when the pattern has no `\s*`. */
  function Skip(s: string, a: nat, spaces: bool): (b: nat)
    requires a <= |s|
    ensures a <= b <= |s|
  {
    if spaces then a + SpaceRun(s, a) else a
  }

  /** `([0-9.]+)` at `b`, then `tail`. */
  function NumberFrom(s: string, b: nat, tail: string): (r: Option<Capture>)
    requires b <= |s|
    ensures r.Some? ==> r.value.text != [] && forall c :: c in r.value.text ==> IsNumChar(c)
    ensures r.Some? ==> b < r.value.end <= |s|
  {
    var n := NumRun(s, b);
    if n > 0 && TextAt(s, b + n, tail) then Some(Capture(s[b..b + n], b + n + |tail|)) else None
  }

  /** The match of `pat` starting exactly at `p`, if there is one. */
  function NumberAt(s: string, p: nat, pat: Pattern): (r: Option<Capture>)
    ensures r.Some? ==> r.value.text != [] && forall c :: c in r.value.text ==> IsNumChar(c)
    ensures r.Some? ==> p < r.value.end <= |s|
  {
    if TextAt(s, p, pat.key) then
      NumberFrom(s, Skip(s, p + |pat.key|, pat.spaces), pat.tail)
    else None
  }

  /** `s.match(re)` for a number pattern: the capture of the match at the leftmost position. */
  function Leftmost(s: string, pat: Pattern): (r: Option<string>)
    ensures r.Some? ==> r.value != [] && forall c :: c in r.value ==> IsNumChar(c)
  {
    match First(i => NumberAt(s, i, pat), 0, |s|)
    case None => None
    case Some(c) => Some(c.text)
  }

  // ---------------------------------------------------------------- the style pattern

  /** Where the `[^"]*` run starting at `a` must stop: the next `"`, or the end. */
  function QuoteEnd(s: string, a: nat): (e: nat)
    requires a <= |s|
    ensures a <= e <= |s|
    ensures forall i :: a <= i < e ==> s[i] != '"'
    ensures e < |s| ==> s[e] == '"'
  {
    a + IndexOf(s[a..], '"')
  }

  /**
   * `[^"]*` followed by the part `pat`, from `lo`: the greedy gap tries the
   * latest start first, so the part taken is the one at the largest
   * position `h <= hi` where it matches.
   */
  function LastPart(s: string, lo: nat, hi: nat, pat: Pattern): (r: Option<string>)
    ensures r.Some? ==> r.value != [] && forall c :: c in r.value ==> IsNumChar(c)
  {
    match Last(h => NumberAt(s, h, pat), lo, hi)
    case None => None
    case Some(c) => Some(c.text)
  }

  /** A `wp` part at `q`, then `[^"]*` and an `hp` part no later than `e`: the two captures. */
  function PairAt(s: string, q: nat, e: nat, wp: Pattern, hp: Pattern): (r: Option<(string, string)>)
    ensures r.Some? ==> r.value.0 != [] && forall c :: c in r.value.0 ==> IsNumChar(c)
    ensures r.Some? ==> r.value.1 != [] && forall c :: c in r.value.1 ==> IsNumChar(c)
  {
    match NumberAt(s, q, wp)
    case None => None
    case Some(w) =>
      match LastPart(s, w.end, e, hp)
      case None => None
      case Some(h) => Some((w.text, h))
  }

  /**
   * `[^"]*` then the part `wp`, `[^"]*` then the part `hp`, with both gaps
   * ending by `e`: the latest position `q <= hi` of a `wp` part that an `hp`
   * part follows, and the latest such `hp` part.
   */
  function LastPair(s: string, lo: nat, hi: nat, e: nat, wp: Pattern, hp: Pattern): (r: Option<(string, string)>)
    ensures r.Some? ==> r.value.0 != [] && forall c :: c in r.value.0 ==> IsNumChar(c)
    ensures r.Some? ==> r.value.1 != [] && forall c :: c in r.value.1 ==> IsNumChar(c)
  {
    Last(q => PairAt(s, q, e, wp, hp), lo, hi)
  }

  const StyleOpen := "style=\""

  /** The match of the style pattern starting at `st`: `style="`, then the two parts inside the value. */
  function StyleAt(s: string, st: nat): (r: Option<(string, string)>)
    ensures r.Some? ==> r.value.0 != [] && forall c :: c in r.value.0 ==> IsNumChar(c)
    ensures r.Some? ==> r.value.1 != [] && forall c :: c in r.value.1 ==> IsNumChar(c)
  {
    if st + |StyleOpen| <= |s| && s[st..st + |StyleOpen|] == StyleOpen then
      var e := QuoteEnd(s, st + |StyleOpen|);
      LastPair(s, st + |StyleOpen|, e, e, StyleWidth, StyleHeight)
    else None
  }

  /** `html.match(/style="[^"]*width:\s*([0-9.]+)px;[^"]*height:\s*([0-9.]+)px;?/)`: the match at the leftmost start. */
  function StyleMatch(s: string): (r: Option<(string, string)>)
    ensures r.Some? ==> r.value.0 != [] && forall c :: c in r.value.0 ==> IsNumChar(c)
    ensures r.Some? ==> r.value.1 != [] && forall c :: c in r.value.1 ==> IsNumChar(c)
  {
    First(st => StyleAt(s, st), 0, |s|)
  }

  // ---------------------------------------------------------------- the three tiers

  /** The width and height texts `extractSizeFromCode` parses, or `None` for `null`. */
  function SizeTexts(html: string): (r: Option<(string, string)>)
    ensures r.Some? ==> r.value.0 != [] && forall c :: c in r.value.0 ==> IsNumChar(c)
    ensures r.Some? ==> r.value.1 != [] && forall c :: c in r.value.1 ==> IsNumChar(c)
  {
    if StyleMatch(html).Some? then StyleMatch(html)
    else if Leftmost(html, CssWidth).Some? && Leftmost(html, CssHeight).Some? then
      Some((Leftmost(html, CssWidth).value, Leftmost(html, CssHeight).value))
    else if Leftmost(html, AttrWidth).Some? && Leftmost(html, AttrHeight).Some? then
      Some((Leftmost(html, AttrWidth).value, Leftmost(html, AttrHeight).value))
    else None
  }

  datatype Size = Size(width: real, height: real)

  /** `extractSizeFromCode(html)`, with `parseFloat` given. */
  function ExtractSizeFromCode(html: string, parseFloat: string -> real): (r: Option<Size>)
    ensures r.None? <==> SizeTexts(html).None?
    ensures r.Some? ==> r.value == Size(parseFloat(SizeTexts(html).value.0), parseFloat(SizeTexts(html).value.1))
  {
    match SizeTexts(html)
    case None => None
    case Some((w, h)) => Some(Size(parseFloat(w), parseFloat(h)))
  }

  // ---------------------------------------------------------------- one number part

  /** A pattern whose number run is followed by a character outside `[0-9.]`. */
  predicate GoodPattern(pat: Pattern) {
    |pat.tail| > 0 && !IsNumChar(pat.tail[0])
  }

  lemma PatternsGood()
    ensures GoodPattern(StyleWidth) && GoodPattern(StyleHeight) && GoodPattern(CssWidth)
    ensures GoodPattern(CssHeight) && GoodPattern(AttrWidth) && GoodPattern(AttrHeight)
  {
  }

  /**
   * The regular expression's own reading of a part: at `p` the text holds
   * `key`, then `sp` white-space characters (none unless `\s*` is allowed),
   * then the captured run `num` of `[0-9.]`, then `tail`.
   */
  predicate Reads(s: string, p: nat, pat: Pattern, num: string, sp: nat) {
    && TextAt(s, p, pat.key)
    && (pat.spaces || sp == 0)
    && SpacesAt(s, p + |pat.key|, sp)
    && NumberThen(s, p + |pat.key| + sp, num, pat.tail)
  }

  /** The `sp` characters from `a` on are white space. */
  predicate SpacesAt(s: string, a: nat, sp: nat) {
    a + sp <= |s| && forall i :: a <= i < a + sp ==> IsSpace(s[i])
  }

  /** At `b` stands `num`, a non-empty run of `[0-9.]`, and right after it `tail`. */
  predicate NumberThen(s: string, b: nat, num: string, tail: string) {
    && num != [] && (forall i :: 0 <= i < |num| ==> IsNumChar(num[i]))
    && TextAt(s, b, num) && TextAt(s, b + |num|, tail)
  }

  lemma NumberAtSound(s: string, p: nat, pat: Pattern)
    requires NumberAt(s, p, pat).Some?
    ensures exists sp: nat :: Reads(s, p, pat, NumberAt(s, p, pat).value.text, sp)
  {
    var b := NumberAtParts(s, p, pat);
    var a := p + |pat.key|;
    SkipSpaces(s, a, pat.spaces);
    NumberFromParts(s, b, pat.tail);
    ReadsOf(s, p, pat, b, NumberFrom(s, b, pat.tail).value.text);
  }

  /** A key, the spaces up to `b` and a number read at `b` make a reading of the part. */
  lemma ReadsOf(s: string, p: nat, pat: Pattern, b: nat, num: string)
    requires TextAt(s, p, pat.key) && p + |pat.key| <= b && (pat.spaces || b == p + |pat.key|)
    requires SpacesAt(s, p + |pat.key|, b - (p + |pat.key|)) && NumberThen(s, b, num, pat.tail)
    ensures Reads(s, p, pat, num, b - (p + |pat.key|))
  {
  }

  /** A part found at `p` is its key, then a number read where `\s*` stops. */
  lemma NumberAtParts(s: string, p: nat, pat: Pattern) returns (b: nat)
    requires NumberAt(s, p, pat).Some?
    ensures TextAt(s, p, pat.key)
    ensures b == Skip(s, p + |pat.key|, pat.spaces)
    ensures NumberFrom(s, b, pat.tail) == NumberAt(s, p, pat)
  {
    b := Skip(s, p + |pat.key|, pat.spaces);
  }

  /** `\s*` passes over white space only, and over nothing when the pattern has none. */
  lemma SkipSpaces(s: string, a: nat, spaces: bool)
    requires a <= |s|
    ensures SpacesAt(s, a, Skip(s, a, spaces) - a)
    ensures spaces || Skip(s, a, spaces) == a
  {
  }

  /** What a number read at `b` consists of: the captured run, then the tail. */
  lemma NumberFromParts(s: string, b: nat, tail: string)
    requires b <= |s| && NumberFrom(s, b, tail).Some?
    ensures NumberThen(s, b, NumberFrom(s, b, tail).value.text, tail)
  {
  }

  lemma SkipIs(s: string, a: nat, spaces: bool, sp: nat)
    requires SpacesAt(s, a, sp) && a + sp < |s| && (spaces || sp == 0)
    requires !IsSpace(s[a + sp])
    ensures Skip(s, a, spaces) == a + sp
  {
    if spaces {
      var m := SpaceRun(s, a);
    }
  }

  lemma NumberFromIs(s: string, b: nat, num: string, tail: string)
    requires NumberThen(s, b, num, tail) && |tail| > 0 && !IsNumChar(tail[0])
    ensures NumberFrom(s, b, tail) == Some(Capture(num, b + |num| + |tail|))
  {
    var n := NumRun(s, b);
    forall i | b <= i < b + |num|
      ensures IsNumChar(s[i])
    {
      assert s[i] == num[i - b];
    }
    assert s[b + |num|] == tail[0];
  }

  /** Digits and `.` are not white space: `\s*` stops before the number. */
  lemma NumNotSpace(c: char)
    requires IsNumChar(c)
    ensures !IsSpace(c)
  {
  }

  /** Past a matching key, the part is read by `\s*` and then the number. */
  lemma NumberAtKey(s: string, p: nat, pat: Pattern, b: nat, c: Capture)
    requires TextAt(s, p, pat.key) && Skip(s, p + |pat.key|, pat.spaces) == b
    requires b <= |s| && NumberFrom(s, b, pat.tail) == Some(c)
    ensures NumberAt(s, p, pat) == Some(c)
  {
  }


  /** In a part the regular expression reads, `\s*` stops where the number starts. */
  lemma ReadsSkip(s: string, p: nat, pat: Pattern, num: string, sp: nat)
    requires Reads(s, p, pat, num, sp)
    ensures Skip(s, p + |pat.key|, pat.spaces) == p + |pat.key| + sp
  {
    var b := p + |pat.key| + sp;
    assert s[b] == s[b..b + |num|][0];
    NumNotSpace(num[0]);
    SkipIs(s, p + |pat.key|, pat.spaces, sp);
  }

  lemma NumberAtComplete(s: string, p: nat, pat: Pattern, num: string, sp: nat)
    requires GoodPattern(pat) && Reads(s, p, pat, num, sp)
    ensures NumberAt(s, p, pat) == Some(Capture(num, p + |pat.key| + sp + |num| + |pat.tail|))
  {
    var b := p + |pat.key| + sp;
    ReadsSkip(s, p, pat, num, sp);
    NumberFromIs(s, b, num, pat.tail);
    NumberAtKey(s, p, pat, b, Capture(num, b + |num| + |pat.tail|));
  }

  /** The matcher finds a part at `p` with capture `num` exactly when the regular expression reads one there. */
  lemma NumberAtIff(s: string, p: nat, pat: Pattern, num: string)
    requires GoodPattern(pat)
    ensures (NumberAt(s, p, pat).Some? && NumberAt(s, p, pat).value.text == num)
            <==> exists sp: nat :: Reads(s, p, pat, num, sp)
  {
    if NumberAt(s, p, pat).Some? && NumberAt(s, p, pat).value.text == num {
      NumberAtSound(s, p, pat);
    }
    if exists sp: nat :: Reads(s, p, pat, num, sp) {
      var sp: nat :| Reads(s, p, pat, num, sp);
      NumberAtComplete(s, p, pat, num, sp);
    }
  }

  // ---------------------------------------------------------------- leftmost matches

  /** The regular expression matches nowhere in `s`. */
  ghost predicate Absent(s: string, pat: Pattern) {
    forall p: nat, num, sp: nat :: !Reads(s, p, pat, num, sp)
  }

  /** `num` is the capture of the leftmost position where the expression reads a part. */
  ghost predicate FirstCapture(s: string, pat: Pattern, num: string) {
    exists p: nat, sp: nat :: Reads(s, p, pat, num, sp)
      && forall q: nat, other, sp': nat :: q < p ==> !Reads(s, q, pat, other, sp')
  }

  /** A reading of a part lies inside the text. */
  lemma ReadsInside(s: string, p: nat, pat: Pattern, num: string, sp: nat)
    requires Reads(s, p, pat, num, sp)
    ensures p <= |s|
  {
  }

  /**
   * `s.match(re)` is `null` exactly when the expression reads a part nowhere;
   * otherwise its capture is that of the leftmost reading.
   */
  lemma LeftmostIff(s: string, pat: Pattern)
    requires GoodPattern(pat)
    ensures Leftmost(s, pat).None? <==> Absent(s, pat)
    ensures Leftmost(s, pat).Some? ==> FirstCapture(s, pat, Leftmost(s, pat).value)
  {
    var f := i => NumberAt(s, i, pat);
    FirstNone(f, 0, |s|);
    if Leftmost(s, pat).None? {
      forall p: nat, num, sp: nat
        ensures !Reads(s, p, pat, num, sp)
      {
        if Reads(s, p, pat, num, sp) {
          ReadsInside(s, p, pat, num, sp);
          assert f(p).None?;
          NumberAtIff(s, p, pat, num);
        }
      }
    } else {
      var x := Leftmost(s, pat).value;
      var p := FirstAt(f, 0, |s|);
      NumberAtIff(s, p, pat, x);
      var sp: nat :| Reads(s, p, pat, x, sp);
      forall q: nat, num, sp': nat | q < p
        ensures !Reads(s, q, pat, num, sp')
      {
        assert f(q).None?;
        NumberAtIff(s, q, pat, num);
      }
    }
  }

  // ---------------------------------------------------------------- the style pattern

  /** A part made of characters other than `"` contains no `"`. */
  lemma NoQuoteIn(s: string, p: nat, pat: Pattern)
    requires NumberAt(s, p, pat).Some?
    requires '"' !in pat.key && '"' !in pat.tail
    ensures forall i :: p <= i < NumberAt(s, p, pat).value.end ==> s[i] != '"'
  {
    var b := NumberAtParts(s, p, pat);
    SkipSpaces(s, p + |pat.key|, pat.spaces);
    NumberFromParts(s, b, pat.tail);
    PartNoQuote(s, p, pat, b, NumberAt(s, p, pat).value.text);
  }

  /** The pieces of a part, none of which can hold `"`. */
  lemma PartNoQuote(s: string, p: nat, pat: Pattern, b: nat, num: string)
    requires '"' !in pat.key && '"' !in pat.tail
    requires TextAt(s, p, pat.key) && p + |pat.key| <= b
    requires SpacesAt(s, p + |pat.key|, b - (p + |pat.key|))
    requires NumberThen(s, b, num, pat.tail)
    ensures forall i :: p <= i < b + |num| + |pat.tail| ==> s[i] != '"'
  {
    SliceAvoids(s, p, pat.key, '"');
    SliceAvoids(s, b, num, '"');
    SliceAvoids(s, b + |num|, pat.tail, '"');
    forall i | p + |pat.key| <= i < b
      ensures s[i] != '"'
    {
      assert IsSpace(s[i]);
    }
  }


  /** Where `t` lies in `s`, `s` holds only characters of `t`. */
  lemma SliceAvoids(s: string, lo: nat, t: string, ch: char)
    requires TextAt(s, lo, t) && ch !in t
    ensures forall i :: lo <= i < lo + |t| ==> s[i] != ch
  {
    forall i | lo <= i < lo + |t|
      ensures s[i] != ch
    {
      assert s[i] == t[i - lo];
    }
  }


  /**
   * The regular expression's reading of the style pattern starting at `st`:
   * `style="`, a gap without `"`, the width part at `q`, a second gap without
   * `"`, and the height part at `h`.
   */
  predicate StyleConfig(s: string, st: nat, q: nat, h: nat) {
    && st + |StyleOpen| <= q <= |s|
    && s[st..st + |StyleOpen|] == StyleOpen
    && NumberAt(s, q, StyleWidth).Some?
    && NumberAt(s, q, StyleWidth).value.end <= h
    && NumberAt(s, h, StyleHeight).Some?
    && (forall i :: st + |StyleOpen| <= i < q ==> s[i] != '"')
    && (forall i :: NumberAt(s, q, StyleWidth).value.end <= i < h ==> s[i] != '"')
  }

  /** A reading of the style pattern stays inside the attribute value: both parts start by its closing `"`. */
  lemma ConfigInside(s: string, st: nat, q: nat, h: nat)
    requires StyleConfig(s, st, q, h)
    ensures q <= QuoteEnd(s, st + |StyleOpen|) && h <= QuoteEnd(s, st + |StyleOpen|)
  {
    NoQuoteIn(s, q, StyleWidth);
  }

  /** What the scan at `st` is when `style="` opens there. */
  lemma StyleAtScan(s: string, st: nat)
    requires StyleAt(s, st).Some?
    ensures st + |StyleOpen| <= |s| && s[st..st + |StyleOpen|] == StyleOpen
    ensures var e := QuoteEnd(s, st + |StyleOpen|);
      StyleAt(s, st) == LastPair(s, st + |StyleOpen|, e, e, StyleWidth, StyleHeight)
  {
  }

  /** The width part of a reading of the style pattern is one the scan at `st` accepts. */
  lemma ConfigFits(s: string, st: nat, q: nat, h: nat)
    requires StyleConfig(s, st, q, h)
    ensures q <= QuoteEnd(s, st + |StyleOpen|)
    ensures PairAt(s, q, QuoteEnd(s, st + |StyleOpen|), StyleWidth, StyleHeight).Some?
  {
    var e := QuoteEnd(s, st + |StyleOpen|);
    ConfigInside(s, st, q, h);
    var f := x => NumberAt(s, x, StyleHeight);
    LastNone(f, NumberAt(s, q, StyleWidth).value.end, e);
    assert f(h).Some?;
  }

  /** A reading of the style pattern at `st` makes the scan there succeed. */
  lemma ConfigFound(s: string, st: nat, q: nat, h: nat)
    requires StyleConfig(s, st, q, h)
    ensures StyleAt(s, st).Some?
  {
    var o := st + |StyleOpen|;
    var e := QuoteEnd(s, o);
    ConfigFits(s, st, q, h);
    var g := x => PairAt(s, x, e, StyleWidth, StyleHeight);
    LastNone(g, o, e);
    assert g(q).Some?;
  }

  /** No width part between `q` and `e` is followed by a height part by `e`. */
  ghost predicate NoPairAfter(s: string, q: nat, e: nat) {
    forall x: nat :: q < x <= e ==> PairAt(s, x, e, StyleWidth, StyleHeight).None?
  }

  /** No height part starts between `h` and `e`. */
  ghost predicate NoHeightAfter(s: string, h: nat, e: nat) {
    forall x: nat :: h < x <= e ==> NumberAt(s, x, StyleHeight).None?
  }

  /** The positions of the width and height parts the scan at `st` settles on. */
  lemma ScanChoice(s: string, st: nat, e: nat) returns (q: nat, h: nat)
    requires StyleAt(s, st).Some? && e == QuoteEnd(s, st + |StyleOpen|)
    ensures StyleConfig(s, st, q, h)
    ensures StyleAt(s, st).value == (NumberAt(s, q, StyleWidth).value.text, NumberAt(s, h, StyleHeight).value.text)
    ensures NoPairAfter(s, q, e) && NoHeightAfter(s, h, e)
  {
    var o := st + |StyleOpen|;
    StyleAtScan(s, st);
    var g := x => PairAt(s, x, e, StyleWidth, StyleHeight);
    q := LastAt(g, o, e);
    assert g(q) == PairAt(s, q, e, StyleWidth, StyleHeight);
    var wend := NumberAt(s, q, StyleWidth).value.end;
    var f := x => NumberAt(s, x, StyleHeight);
    h := LastAt(f, wend, e);
    assert f(h) == NumberAt(s, h, StyleHeight);
    forall x: nat | q < x <= e
      ensures PairAt(s, x, e, StyleWidth, StyleHeight).None?
    {
      assert g(x).None?;
    }
    forall x: nat | h < x <= e
      ensures NumberAt(s, x, StyleHeight).None?
    {
      assert f(x).None?;
    }
  }

  /** The scan at `st` finds nothing exactly when the style pattern cannot be read there. */
  lemma StyleAtNone(s: string, st: nat)
    ensures StyleAt(s, st).None? <==> forall q: nat, h: nat :: !StyleConfig(s, st, q, h)
  {
    if StyleAt(s, st).Some? {
      var q, h := ScanChoice(s, st, QuoteEnd(s, st + |StyleOpen|));
    } else {
      forall q: nat, h: nat
        ensures !StyleConfig(s, st, q, h)
      {
        if StyleConfig(s, st, q, h) {
          ConfigFound(s, st, q, h);
        }
      }
    }
  }

  /** No reading of the style pattern at `st` has its width part after `q`. */
  ghost predicate LatestWidth(s: string, st: nat, q: nat) {
    forall q': nat, h': nat :: StyleConfig(s, st, q', h') ==> q' <= q
  }

  /** No reading of the style pattern at `st` with its width part at `q` has its height part after `h`. */
  ghost predicate LatestHeight(s: string, st: nat, q: nat, h: nat) {
    forall h': nat :: StyleConfig(s, st, q, h') ==> h' <= h
  }

  lemma WidthIsLatest(s: string, st: nat, e: nat, q: nat)
    requires st + |StyleOpen| <= |s| && e == QuoteEnd(s, st + |StyleOpen|) && NoPairAfter(s, q, e)
    ensures LatestWidth(s, st, q)
  {
    forall q': nat, h': nat | StyleConfig(s, st, q', h')
      ensures q' <= q
    {
      ConfigFits(s, st, q', h');
    }
  }

  lemma HeightIsLatest(s: string, st: nat, e: nat, q: nat, h: nat)
    requires st + |StyleOpen| <= |s| && e == QuoteEnd(s, st + |StyleOpen|) && NoHeightAfter(s, h, e)
    ensures LatestHeight(s, st, q, h)
  {
    forall h': nat | StyleConfig(s, st, q, h')
      ensures h' <= h
    {
      ConfigInside(s, st, q, h');
    }
  }

  /**
   * When the style pattern can be read at `st`, the captures come from the
   * reading with the latest width part, and for it the latest height part:
   * both `[^"]*` gaps are greedy.
   */
  lemma StyleAtGreedy(s: string, st: nat)
    requires StyleAt(s, st).Some?
    ensures exists q: nat, h: nat :: StyleConfig(s, st, q, h)
              && StyleAt(s, st).value == (NumberAt(s, q, StyleWidth).value.text, NumberAt(s, h, StyleHeight).value.text)
              && LatestWidth(s, st, q) && LatestHeight(s, st, q, h)
  {
    var e := QuoteEnd(s, st + |StyleOpen|);
    var q, h := ScanChoice(s, st, e);
    WidthIsLatest(s, st, e, q);
    HeightIsLatest(s, st, e, q, h);
  }

  /** The style pattern can be read nowhere in `s`. */
  ghost predicate StyleAbsent(s: string) {
    forall st: nat, q: nat, h: nat :: !StyleConfig(s, st, q, h)
  }

  /** A reading of the style pattern starts inside the text. */
  lemma ConfigStart(s: string, st: nat, q: nat, h: nat)
    requires StyleConfig(s, st, q, h)
    ensures st <= |s|
  {
  }

  /**
   * The first `match` is `null` exactly when the style pattern can be read
   * nowhere; otherwise its captures are those of the greedy reading at the
   * leftmost `st` where it can be read.
   */
  lemma StyleMatchIs(s: string)
    ensures StyleMatch(s).None? <==> StyleAbsent(s)
    ensures StyleMatch(s).Some? ==>
              (exists st: nat :: StyleAt(s, st) == StyleMatch(s)
                && forall j: nat, q: nat, h: nat :: j < st ==> !StyleConfig(s, j, q, h))
  {
    var f := x => StyleAt(s, x);
    FirstNone(f, 0, |s|);
    if StyleMatch(s).None? {
      forall st: nat, q: nat, h: nat
        ensures !StyleConfig(s, st, q, h)
      {
        if StyleConfig(s, st, q, h) {
          ConfigStart(s, st, q, h);
          assert f(st).None?;
          StyleAtNone(s, st);
        }
      }
    } else {
      var st := FirstAt(f, 0, |s|);
      assert f(st) == StyleAt(s, st);
      StyleAtNone(s, st);
      forall j: nat, q: nat, h: nat | j < st
        ensures !StyleConfig(s, j, q, h)
      {
        assert f(j).None?;
        StyleAtNone(s, j);
      }
    }
  }

  // ---------------------------------------------------------------- the three tiers together

  /** `extractSizeFromCode` returns `null` exactly when no tier finds both a width and a height. */
  lemma SizeTextsNone(html: string)
    ensures SizeTexts(html).None?
            <==> StyleAbsent(html)
                 && (Absent(html, CssWidth) || Absent(html, CssHeight))
                 && (Absent(html, AttrWidth) || Absent(html, AttrHeight))
  {
    PatternsGood();
    StyleMatchIs(html);
    LeftmostIff(html, CssWidth);
    LeftmostIff(html, CssHeight);
    LeftmostIff(html, AttrWidth);
    LeftmostIff(html, AttrHeight);
  }

  /** Tier 1 wins whenever the style pattern can be read anywhere. */
  lemma StyleTierFirst(html: string)
    requires !StyleAbsent(html)
    ensures SizeTexts(html).Some? && SizeTexts(html) == StyleMatch(html)
  {
    StyleMatchIs(html);
  }

  /**
   * Tier 2, tried only when tier 1 fails: the first `width:` part and the
   * first `height:` part, wherever each one lies relative to the other.
   */
  lemma CssTier(html: string)
    requires StyleAbsent(html) && !Absent(html, CssWidth) && !Absent(html, CssHeight)
    ensures exists w, h :: SizeTexts(html) == Some((w, h))
              && FirstCapture(html, CssWidth, w) && FirstCapture(html, CssHeight, h)
  {
    PatternsGood();
    assert StyleMatch(html).None? by { StyleMatchIs(html); }
    LeftmostIff(html, CssWidth);
    LeftmostIff(html, CssHeight);
    var w, h := Leftmost(html, CssWidth).value, Leftmost(html, CssHeight).value;
    assert SizeTexts(html) == Some((w, h));
  }

  /** Tier 3, tried only when tiers 1 and 2 fail: the first `width="` and `height="` attributes. */
  lemma AttrTier(html: string)
    requires StyleAbsent(html) && (Absent(html, CssWidth) || Absent(html, CssHeight))
    requires !Absent(html, AttrWidth) && !Absent(html, AttrHeight)
    ensures exists w, h :: SizeTexts(html) == Some((w, h))
              && FirstCapture(html, AttrWidth, w) && FirstCapture(html, AttrHeight, h)
  {
    PatternsGood();
    assert StyleMatch(html).None? by { StyleMatchIs(html); }
    assert Leftmost(html, CssWidth).None? || Leftmost(html, CssHeight).None? by {
      LeftmostIff(html, CssWidth);
      LeftmostIff(html, CssHeight);
    }
    LeftmostIff(html, AttrWidth);
    LeftmostIff(html, AttrHeight);
    var w, h := Leftmost(html, AttrWidth).value, Leftmost(html, AttrHeight).value;
    assert SizeTexts(html) == Some((w, h));
  }
}
