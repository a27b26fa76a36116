/**
 * What the renderer of HtmlGenerator promises: escaping is reversible and
 * leaves no angle bracket, every style attribute reads back as the intended
 * declarations, leaves never render their children, wrappers keep child order,
 * and every rendered element is one balanced `<div>…</div>`.
 */
module HtmlProperties {
  import opened Wrappers
  import opened Strings
  import opened Figma
  import opened InlineStyle
  import opened HtmlGenerator

  // ---------------------------------------------------------------- escaping

  /** The per-character reading of escaping: each `&`, `<`, `>` becomes its entity. */
  function EscapeChar(c: char): string {
    if c == '&' then "&amp;" else if c == '<' then "&lt;" else if c == '>' then "&gt;" else [c]
  }

  function EscapeEach(s: string): string {
    if s == [] then "" else EscapeChar(s[0]) + EscapeEach(s[1..])
  }

  /** Decoding of the three entities, the inverse of escaping. */
  function Unescape(s: string): string
    decreases |s|
  {
    if s == [] then ""
    else if StartsWith(s, "&amp;") then "&" + Unescape(s[5..])
    else if StartsWith(s, "&lt;") then "<" + Unescape(s[4..])
    else if StartsWith(s, "&gt;") then ">" + Unescape(s[4..])
    else [s[0]] + Unescape(s[1..])
  }

  lemma EscapeAppend(a: string, b: string)
    ensures EscapeHtml(a + b) == EscapeHtml(a) + EscapeHtml(b)
  {
    ReplaceCharAppend(a, b, '&', "&amp;");
    var a1, b1 := ReplaceChar(a, '&', "&amp;"), ReplaceChar(b, '&', "&amp;");
    ReplaceCharAppend(a1, b1, '<', "&lt;");
    ReplaceCharAppend(ReplaceChar(a1, '<', "&lt;"), ReplaceChar(b1, '<', "&lt;"), '>', "&gt;");
  }

  lemma EscapeSingle(c: char)
    ensures EscapeHtml([c]) == EscapeChar(c)
  {
    ReplaceSingle(c, '&', "&amp;");
    if c == '&' {
      assert '<' !in "&amp;" && '>' !in "&amp;";
    } else {
      ReplaceSingle(c, '<', "&lt;");
      if c == '<' {
        assert '>' !in "&lt;";
      } else {
        ReplaceSingle(c, '>', "&gt;");
      }
    }
  }

  /** Replacing in a one-character string. */
  lemma ReplaceSingle(c: char, d: char, rep: string)
    ensures ReplaceChar([c], d, rep) == if c == d then rep else [c]
  {
    assert [c][1..] == [];
  }



  /** The chain of three global replaces, `&` first, is the one-pass entity escape. */
  lemma {:induction false} EscapeIsPerChar(s: string)
    ensures EscapeHtml(s) == EscapeEach(s)
  {
    if s != [] {
      assert s == [s[0]] + s[1..];
      EscapeAppend([s[0]], s[1..]);
      EscapeSingle(s[0]);
      EscapeIsPerChar(s[1..]);
    }
  }

  lemma {:induction false} UnescapeEscapeEach(s: string)
    ensures Unescape(EscapeEach(s)) == s
  {
    if s != [] {
      UnescapeStep(s[0], EscapeEach(s[1..]));
      UnescapeEscapeEach(s[1..]);
      assert s == [s[0]] + s[1..];
    }
  }

  /** Decoding reads an escaped character back off the front. */
  lemma UnescapeStep(c: char, t: string)
    ensures Unescape(EscapeChar(c) + t) == [c] + Unescape(t)
  {
    var e := EscapeChar(c) + t;
    var k := |EscapeChar(c)|;
    assert e[..k] == EscapeChar(c) && e[k..] == t;
    if c == '&' {
      assert StartsWith(e, "&amp;");
    } else if c == '<' {
      assert e[1] == 'l';
      assert !StartsWith(e, "&amp;") && StartsWith(e, "&lt;");
    } else if c == '>' {
      assert e[1] == 'g';
      assert !StartsWith(e, "&amp;") && !StartsWith(e, "&lt;") && StartsWith(e, "&gt;");
    } else {
      assert e[0] == c;
      assert !StartsWith(e, "&amp;") && !StartsWith(e, "&lt;") && !StartsWith(e, "&gt;");
    }
  }


  /** Because `&` is replaced first, decoding the three entities gives the text back. */
  lemma EscapeRoundTrip(s: string)
    ensures Unescape(EscapeHtml(s)) == s
  {
    EscapeIsPerChar(s);
    UnescapeEscapeEach(s);
  }

  // ---------------------------------------------------------------- styles

  lemma InterpPlain(v: Option<real>, fmt: Formatter)
    requires PlainNumbers(fmt)
    ensures Plain(Interp(v, fmt))
  {
    if v.Some? {
      PlainAt(fmt, v.value);
    }
  }

  /** Every declaration's property and value free of the characters `Plain` excludes. */
  predicate PlainDecls(ds: seq<Decl>) {
    forall k :: 0 <= k < |ds| ==> Plain(ds[k].prop) && Plain(ds[k].value)
  }

  lemma PlainAppend(a: string, b: string)
    requires Plain(a) && Plain(b)
    ensures Plain(a + b)
  {
  }

  /** A number followed by its `px` unit. */
  lemma PxPlain(v: string)
    requires Plain(v)
    ensures Plain(v + "px")
  {
    PlainAppend(v, "px");
  }

  lemma BoxPlain(box: Option<Box>, fmt: Formatter)
    requires PlainNumbers(fmt)
    ensures PlainDecls(BoxDecls(box, fmt))
  {
    if box.Some? {
      var b := box.value;
      PlainAt(fmt, b.x.GetOr(0.0));
      PlainAt(fmt, b.y.GetOr(0.0));
      InterpPlain(b.width, fmt);
      InterpPlain(b.height, fmt);
      var x, y := fmt(b.x.GetOr(0.0)), fmt(b.y.GetOr(0.0));
      var w, h := Interp(b.width, fmt), Interp(b.height, fmt);
      PxPlain(x);
      PxPlain(y);
      PxPlain(w);
      PxPlain(h);
      FivePlain(x + "px", y + "px", w + "px", h + "px");
    }
  }

  /** Lower-case letters, digits, `-`, `.`, `/` and `%`: the property names and keywords of the renderer. */
  predicate Word(s: string) {
    forall i :: 0 <= i < |s| ==> 'a' <= s[i] <= 'z' || '-' <= s[i] <= '9' || s[i] == '%'
  }

  lemma WordPlain(s: string)
    requires Word(s)
    ensures Plain(s)
  {
    forall c | c in s
      ensures PlainChar(c)
    {
      var i :| 0 <= i < |s| && s[i] == c;
    }
  }

  /** The words of a box or container style are plain. */
  lemma BoxWordsPlain()
    ensures Plain("position")
    ensures Plain("absolute")
    ensures Plain("relative")
    ensures Plain("left")
    ensures Plain("top")
    ensures Plain("width")
    ensures Plain("height")
  {
    WordPlain("position");
    WordPlain("absolute");
    WordPlain("relative");
    WordPlain("left");
    WordPlain("top");
    WordPlain("width");
    WordPlain("height");
  }

  /** The words of a text style are plain. */
  lemma TextWordsPlain()
    ensures Plain("white-space")
    ensures Plain("pre-wrap")
    ensures Plain("font-size")
    ensures Plain("line-height")
    ensures Plain("color")
    ensures Plain("inherit")
  {
    WordPlain("white-space");
    WordPlain("pre-wrap");
    WordPlain("font-size");
    WordPlain("line-height");
    WordPlain("color");
    WordPlain("inherit");
  }

  /** The words of a shape style are plain. */
  lemma ShapeWordsPlain()
    ensures Plain("border-radius")
    ensures Plain("50%")
  {
    WordPlain("border-radius");
    WordPlain("50%");
  }

  lemma FivePlain(x: string, y: string, w: string, h: string)
    requires Plain(x) && Plain(y) && Plain(w) && Plain(h)
    ensures PlainDecls([Decl("position", "absolute"), Decl("left", x), Decl("top", y),
                        Decl("width", w), Decl("height", h)])
  {
    var d0, d1, d2 := Decl("position", "absolute"), Decl("left", x), Decl("top", y);
    var d3, d4 := Decl("width", w), Decl("height", h);
    BoxWordsPlain();
    PlainOne(d0);
    PlainOne(d1);
    PlainOne(d2);
    PlainOne(d3);
    PlainOne(d4);
    PlainDeclsAppend([d0], [d1]);
    PlainDeclsAppend([d0, d1], [d2]);
    PlainDeclsAppend([d0, d1, d2], [d3]);
    PlainDeclsAppend([d0, d1, d2, d3], [d4]);
    assert [d0, d1, d2, d3] + [d4] == [d0, d1, d2, d3, d4];
  }

  lemma PlainOne(d: Decl)
    requires Plain(d.prop) && Plain(d.value)
    ensures PlainDecls([d])
  {
  }

  lemma BackgroundPlain(fills: seq<Fill>, fmt: Formatter)
    requires PlainNumbers(fmt)
    ensures PlainDecls(BackgroundDecls(fills, fmt))
  {
    match SolidColor(fills, fmt)
    case None =>
    case Some(c) =>
      var opacity := fills[0].opacity.GetOr(1.0);
      PlainAt(fmt, opacity);
      RgbaPlain(fills[0].color.value, opacity, fmt);
      assert Word("background");
      WordPlain("background");
      PlainOne(Decl("background", c));
  }


  lemma PlainDeclsAppend(a: seq<Decl>, b: seq<Decl>)
    requires PlainDecls(a) && PlainDecls(b)
    ensures PlainDecls(a + b)
  {
  }

  lemma TextTailPlain(size: string, line: string, color: string)
    requires Plain(size) && Plain(line) && Plain(color)
    ensures PlainDecls([Decl("white-space", "pre-wrap"), Decl("font-size", size),
                        Decl("line-height", line), Decl("color", color)])
  {
    var d0, d1 := Decl("white-space", "pre-wrap"), Decl("font-size", size);
    var d2, d3 := Decl("line-height", line), Decl("color", color);
    TextWordsPlain();
    PlainOne(d0);
    PlainOne(d1);
    PlainOne(d2);
    PlainOne(d3);
    PlainDeclsAppend([d0], [d1]);
    PlainDeclsAppend([d0, d1], [d2]);
    PlainDeclsAppend([d0, d1, d2], [d3]);
    assert [d0, d1, d2] + [d3] == [d0, d1, d2, d3];
  }

  lemma TextPlain(n: Node, fmt: Formatter)
    requires PlainDecls(BoxDecls(n.box, fmt)) && PlainDecls(BackgroundDecls(n.fills, fmt))
    requires Plain(fmt(FontSize(n))) && Plain(fmt(LineHeight(n)))
    ensures PlainDecls(TextDecls(n, fmt))
  {
    PxPlain(fmt(FontSize(n)));
    PxPlain(fmt(LineHeight(n)));
    var c := SolidColor(n.fills, fmt).GetOr("inherit");
    if SolidColor(n.fills, fmt).Some? {
      assert BackgroundDecls(n.fills, fmt)[0].value == c;
    } else {
      TextWordsPlain();
    }
    TextTailPlain(fmt(FontSize(n)) + "px", fmt(LineHeight(n)) + "px", c);
    PlainDeclsAppend(BoxDecls(n.box, fmt), TextDecls(n, fmt)[|BoxDecls(n.box, fmt)|..]);
  }

  lemma RectanglePlain(n: Node, fmt: Formatter)
    requires PlainDecls(BoxDecls(n.box, fmt)) && PlainDecls(BackgroundDecls(n.fills, fmt))
    requires n.cornerRadius.Some? ==> Plain(fmt(n.cornerRadius.value))
    ensures PlainDecls(RectangleDecls(n, fmt))
  {
    var box, bg := BoxDecls(n.box, fmt), BackgroundDecls(n.fills, fmt);
    if n.cornerRadius.Some? {
      PxPlain(fmt(n.cornerRadius.value));
      ShapeWordsPlain();
      PlainOne(RadiusDecls(n.cornerRadius, fmt)[0]);
    }
    PlainDeclsAppend(box, bg);
    PlainDeclsAppend(box + bg, RadiusDecls(n.cornerRadius, fmt));
  }

  lemma EllipsePlain(n: Node, fmt: Formatter)
    requires PlainDecls(BoxDecls(n.box, fmt)) && PlainDecls(BackgroundDecls(n.fills, fmt))
    ensures PlainDecls(EllipseDecls(n, fmt))
  {
    var box, bg := BoxDecls(n.box, fmt), BackgroundDecls(n.fills, fmt);
    var round := [Decl("border-radius", "50%")];
    ShapeWordsPlain();
    PlainOne(round[0]);
    PlainDeclsAppend(box, round);
    PlainDeclsAppend(box + round, bg);
  }

  lemma ContainerPlain(box: Option<Box>, fmt: Formatter)
    requires Plain(Interp(BoxWidth(box), fmt)) && Plain(Interp(BoxHeight(box), fmt))
    ensures PlainDecls(ContainerDecls(box, fmt))
  {
    var w, h := Interp(BoxWidth(box), fmt), Interp(BoxHeight(box), fmt);
    PxPlain(w);
    PxPlain(h);
    var d0, d1, d2 := Decl("position", "relative"), Decl("width", w + "px"), Decl("height", h + "px");
    BoxWordsPlain();
    PlainOne(d0);
    PlainOne(d1);
    PlainOne(d2);
    PlainDeclsAppend([d0], [d1]);
    PlainDeclsAppend([d0, d1], [d2]);
    assert [d0, d1] + [d2] == [d0, d1, d2];
  }

  /** With a plain number formatter, every declaration the renderer writes is plain. */
  lemma StylesPlain(n: Node, fmt: Formatter)
    requires PlainNumbers(fmt)
    ensures PlainDecls(TextDecls(n, fmt)) && PlainDecls(RectangleDecls(n, fmt))
    ensures PlainDecls(EllipseDecls(n, fmt)) && PlainDecls(ContainerDecls(n.box, fmt))
  {
    BoxPlain(n.box, fmt);
    BackgroundPlain(n.fills, fmt);
    PlainAt(fmt, FontSize(n));
    PlainAt(fmt, LineHeight(n));
    if n.cornerRadius.Some? {
      PlainAt(fmt, n.cornerRadius.value);
    }
    InterpPlain(BoxWidth(n.box), fmt);
    InterpPlain(BoxHeight(n.box), fmt);
    TextPlain(n, fmt);
    RectanglePlain(n, fmt);
    EllipsePlain(n, fmt);
    ContainerPlain(n.box, fmt);
  }

  /** A plain declaration list reads back from its text unchanged. */
  lemma PlainReadsBack(ds: seq<Decl>)
    requires PlainDecls(ds)
    ensures Parse(Render(ds)) == ds
  {
    assert forall k :: 0 <= k < |ds| ==> WellFormed(ds[k]);
    ParseRender(ds);
  }

  /** Every style attribute the renderer writes reads back as the declarations it was built from. */
  lemma StylesReadBack(n: Node, fmt: Formatter)
    requires PlainNumbers(fmt)
    ensures Parse(Render(TextDecls(n, fmt))) == TextDecls(n, fmt)
    ensures Parse(Render(RectangleDecls(n, fmt))) == RectangleDecls(n, fmt)
    ensures Parse(Render(EllipseDecls(n, fmt))) == EllipseDecls(n, fmt)
    ensures Parse(Render(ContainerDecls(n.box, fmt))) == ContainerDecls(n.box, fmt)
  {
    StylesPlain(n, fmt);
    PlainReadsBack(TextDecls(n, fmt));
    PlainReadsBack(RectangleDecls(n, fmt));
    PlainReadsBack(EllipseDecls(n, fmt));
    PlainReadsBack(ContainerDecls(n.box, fmt));
  }

  /** A leaf's own style starts with exactly `styleFromBoundingBox` of its box. */
  lemma LeafStylesStartWithBox(n: Node, fmt: Formatter)
    ensures StartsWith(Render(TextDecls(n, fmt)), BoxStyle(n.box, fmt))
    ensures StartsWith(Render(RectangleDecls(n, fmt)), BoxStyle(n.box, fmt))
    ensures StartsWith(Render(EllipseDecls(n, fmt)), BoxStyle(n.box, fmt))
  {
    var box := BoxDecls(n.box, fmt);
    var bg := BackgroundDecls(n.fills, fmt);
    RenderPrefix(box, TextDecls(n, fmt)[|box|..]);
    RenderPrefix(box, bg + RadiusDecls(n.cornerRadius, fmt));
    assert RectangleDecls(n, fmt) == box + (bg + RadiusDecls(n.cornerRadius, fmt));
    RenderPrefix(box, [Decl("border-radius", "50%")] + bg);
    assert EllipseDecls(n, fmt) == box + ([Decl("border-radius", "50%")] + bg);
  }

  /** The rendering of leading declarations is a prefix of the whole rendering. */
  lemma RenderPrefix(a: seq<Decl>, b: seq<Decl>)
    ensures StartsWith(Render(a + b), Render(a))
  {
    RenderAppend(a, b);
    assert (Render(a) + Render(b))[..|Render(a)|] == Render(a);
  }

  /**
   * Where the box comes from: `position` is `absolute` exactly when there is a
   * box, which is placed at its `x`/`y` (0 when missing) with its own size;
   * without a box the style is empty.
   */
  lemma BoxValues(box: Option<Box>, fmt: Formatter)
    ensures Value(BoxDecls(box, fmt), "position") == if box.Some? then Some("absolute") else None
    ensures box.Some? ==> Value(BoxDecls(box, fmt), "left") == Some(fmt(box.value.x.GetOr(0.0)) + "px")
    ensures box.Some? ==> Value(BoxDecls(box, fmt), "top") == Some(fmt(box.value.y.GetOr(0.0)) + "px")
    ensures box.Some? ==> Value(BoxDecls(box, fmt), "width") == Some(Interp(box.value.width, fmt) + "px")
    ensures box.Some? ==> Value(BoxDecls(box, fmt), "height") == Some(Interp(box.value.height, fmt) + "px")
    ensures box.None? ==> BoxDecls(box, fmt) == [] && BoxStyle(box, fmt) == ""
  {
    var ds := BoxDecls(box, fmt);
    if box.Some? {
      ValueAt(ds, "position", 0);
      ValueAt(ds, "left", 1);
      ValueAt(ds, "top", 2);
      ValueAt(ds, "width", 3);
      ValueAt(ds, "height", 4);
    }
  }

  /**
   * A TEXT node is coloured by its first solid fill or else inherits, and uses
   * 16px type on a 20px line unless its style says otherwise.
   */
  lemma TextValues(n: Node, fmt: Formatter)
    ensures Value(TextDecls(n, fmt), "color") == Some(SolidColor(n.fills, fmt).GetOr("inherit"))
    ensures Value(TextDecls(n, fmt), "white-space") == Some("pre-wrap")
    ensures Value(TextDecls(n, fmt), "font-size") == Some(fmt(FontSize(n)) + "px")
    ensures Value(TextDecls(n, fmt), "line-height") == Some(fmt(LineHeight(n)) + "px")
    ensures n.style.None? || n.style.value.fontSize.None? ==> FontSize(n) == 16.0
    ensures n.style.None? || n.style.value.lineHeightPx.None? ==> LineHeight(n) == 20.0
  {
    var box := BoxDecls(n.box, fmt);
    var tail := [Decl("white-space", "pre-wrap"), Decl("font-size", fmt(FontSize(n)) + "px"),
                 Decl("line-height", fmt(LineHeight(n)) + "px"),
                 Decl("color", SolidColor(n.fills, fmt).GetOr("inherit"))];
    assert TextDecls(n, fmt) == box + tail;
    assert "white-space"[0] != "line-height"[0];
    ValueAt(tail, "white-space", 0);
    ValueAt(tail, "font-size", 1);
    ValueAt(tail, "line-height", 2);
    ValueAt(tail, "color", 3);
    ValueTail(box, tail, "white-space");
    ValueTail(box, tail, "font-size");
    ValueTail(box, tail, "line-height");
    ValueTail(box, tail, "color");
  }

  /** The box part of a TEXT node's style is decided by the box alone. */
  lemma TextPosition(n: Node, fmt: Formatter)
    ensures Value(TextDecls(n, fmt), "position") == Value(BoxDecls(n.box, fmt), "position")
  {
    var ds := TextDecls(n, fmt);
    var b := |BoxDecls(n.box, fmt)|;
    ValueSkips(BoxDecls(n.box, fmt), ds[b..], "position");
    assert ds == BoxDecls(n.box, fmt) + ds[b..];
  }

  /** The box declares neither a background nor a rounding. */
  lemma BoxLacks(box: Option<Box>, fmt: Formatter)
    ensures Value(BoxDecls(box, fmt), "border-radius") == None
    ensures Value(BoxDecls(box, fmt), "background") == None
  {
  }

  /** A RECTANGLE is rounded exactly when it has a corner radius. */
  lemma RectangleRadius(n: Node, fmt: Formatter)
    ensures Value(RectangleDecls(n, fmt), "border-radius")
            == if n.cornerRadius.Some? then Some(fmt(n.cornerRadius.value) + "px") else None
  {
    var box, bg, rad := BoxDecls(n.box, fmt), BackgroundDecls(n.fills, fmt), RadiusDecls(n.cornerRadius, fmt);
    if n.cornerRadius.Some? {
      ValueAt(box + bg + rad, "border-radius", |box + bg|);
    } else {
      BoxLacks(n.box, fmt);
      ValueSkips(box, bg, "border-radius");
      assert box + bg + rad == box + bg;
    }
  }

  /** A RECTANGLE's background is its first solid fill's colour, if any. */
  lemma RectangleBackground(n: Node, fmt: Formatter)
    ensures Value(RectangleDecls(n, fmt), "background") == SolidColor(n.fills, fmt)
  {
    var box, bg, rad := BoxDecls(n.box, fmt), BackgroundDecls(n.fills, fmt), RadiusDecls(n.cornerRadius, fmt);
    ValueSkips(box + bg, rad, "background");
    if SolidColor(n.fills, fmt).Some? {
      ValueAt(box + bg, "background", |box|);
    } else {
      BoxLacks(n.box, fmt);
      assert box + bg == box;
    }
  }

  /** An ELLIPSE is always fully rounded and never reads `cornerRadius`. */
  lemma EllipseRadius(n: Node, r: Option<real>, fmt: Formatter)
    ensures Value(EllipseDecls(n, fmt), "border-radius") == Some("50%")
    ensures n.kind == "ELLIPSE" ==> NodeToHtml(n.(cornerRadius := r), fmt) == NodeToHtml(n, fmt)
  {
    var box, bg := BoxDecls(n.box, fmt), BackgroundDecls(n.fills, fmt);
    var round := [Decl("border-radius", "50%")];
    ValueAt(box + round, "border-radius", |box|);
    ValueSkips(box + round, bg, "border-radius");
  }

  /** An ELLIPSE's background is its first solid fill's colour, if any. */
  lemma EllipseBackground(n: Node, fmt: Formatter)
    ensures Value(EllipseDecls(n, fmt), "background") == SolidColor(n.fills, fmt)
  {
    var box, bg := BoxDecls(n.box, fmt), BackgroundDecls(n.fills, fmt);
    var round := [Decl("border-radius", "50%")];
    var ds := EllipseDecls(n, fmt);
    if SolidColor(n.fills, fmt).Some? {
      ValueAt(ds, "background", |ds| - 1);
    } else {
      BoxLacks(n.box, fmt);
      ValueSkips(box, round, "background");
      assert ds == box + round;
    }
  }

  /** A wrapper is placed relatively at its box's size and is never offset. */
  lemma ContainerValues(box: Option<Box>, fmt: Formatter)
    ensures Value(ContainerDecls(box, fmt), "position") == Some("relative")
    ensures Value(ContainerDecls(box, fmt), "left") == None
    ensures Value(ContainerDecls(box, fmt), "top") == None
    ensures Value(ContainerDecls(box, fmt), "width") == Some(Interp(BoxWidth(box), fmt) + "px")
    ensures Value(ContainerDecls(box, fmt), "height") == Some(Interp(BoxHeight(box), fmt) + "px")
  {
    var ds := ContainerDecls(box, fmt);
    forall k | 0 <= k < |ds|
      ensures ds[k].prop != "left" && ds[k].prop != "top"
    {
      assert |ds[k].prop| > 4;
    }
    ValueAt(ds, "position", 0);
    ValueAt(ds, "width", 1);
    ValueAt(ds, "height", 2);
  }

  // ---------------------------------------------------------------- the walk

  /** Leaves never render their children. */
  lemma LeafIgnoresChildren(n: Node, cs: seq<Node>, fmt: Formatter)
    requires IsLeafKind(n.kind)
    ensures NodeToHtml(n.(children := cs), fmt) == NodeToHtml(n, fmt)
  {
  }

  /** Only the first fill is ever consulted. */
  lemma OnlyFirstFill(n: Node, rest: seq<Fill>, fmt: Formatter)
    requires |n.fills| > 0
    ensures NodeToHtml(n.(fills := [n.fills[0]] + rest), fmt) == NodeToHtml(n, fmt)
  {
    var m := n.(fills := [n.fills[0]] + rest);
    assert SolidColor(m.fills, fmt) == SolidColor(n.fills, fmt);
    assert BackgroundDecls(m.fills, fmt) == BackgroundDecls(n.fills, fmt);
  }

  /** The renderings of a child list, joined. */
  function RenderAll(cs: seq<Node>, fmt: Formatter): string {
    Concat(RenderEach(cs, fmt))
  }

  lemma {:induction false} RenderEachAppend(a: seq<Node>, b: seq<Node>, fmt: Formatter)
    ensures RenderEach(a + b, fmt) == RenderEach(a, fmt) + RenderEach(b, fmt)
  {
    if a == [] {
      assert a + b == b;
    } else {
      assert (a + b)[0] == a[0] && (a + b)[1..] == a[1..] + b;
      RenderEachAppend(a[1..], b, fmt);
    }
  }

  /** Children are rendered in order: the rendering of `a + b` is that of `a`, then that of `b`. */
  lemma RenderAllAppend(a: seq<Node>, b: seq<Node>, fmt: Formatter)
    ensures RenderAll(a + b, fmt) == RenderAll(a, fmt) + RenderAll(b, fmt)
  {
    RenderEachAppend(a, b, fmt);
    ConcatAppend(RenderEach(a, fmt), RenderEach(b, fmt));
  }

  /**
   * A wrapper is one `div` carrying `data-figma-id` around exactly what the
   * same node renders as when its type is not a known one, and such a node
   * with no children renders as nothing.
   */
  lemma WrapperAroundChildren(n: Node, other: string, fmt: Formatter)
    requires IsContainerKind(n.kind)
    requires !IsLeafKind(other) && !IsContainerKind(other)
    ensures NodeToHtml(n, fmt) == Div(Attr("data-figma-id", n.id) + " " + Attr("style", Render(ContainerDecls(n.box, fmt))),
                                      NodeToHtml(n.(kind := other), fmt))
    ensures n.children == [] ==> NodeToHtml(n.(kind := other), fmt) == ""
  {
  }

  // ---------------------------------------------------------------- balance

  /** The number of elements a node renders: one per leaf or wrapper. */
  function Divs(n: Node): nat
    decreases n
  {
    if IsLeafKind(n.kind) then 1
    else if IsContainerKind(n.kind) then 1 + DivsAll(n.children)
    else DivsAll(n.children)
  }

  function DivsAll(cs: seq<Node>): nat
    decreases cs
  {
    if cs == [] then 0 else Divs(cs[0]) + DivsAll(cs[1..])
  }

  /** Every wrapper id in the tree is plain. */
  predicate IdsPlain(n: Node)
    decreases n
  {
    Plain(n.id) && forall k :: 0 <= k < |n.children| ==> IdsPlain(n.children[k])
  }

  lemma DivCount(attrs: string, inner: string, c: char)
    requires c == '<' || c == '>'
    ensures Count(Div(attrs, inner), c) == 2 + Count(attrs, c) + Count(inner, c)
  {
    CountAppend("<div " + attrs + ">" + inner, "</div>", c);
    CountAppend("<div " + attrs + ">", inner, c);
    CountAppend("<div " + attrs, ">", c);
    CountAppend("<div ", attrs, c);
    OpenTagCount(c);
    CloseTagCount(c);
  }

  lemma OpenTagCount(c: char)
    requires c == '<' || c == '>'
    ensures Count("<div ", c) + Count(">", c) == 1
  {
    assert "<div " == "<" + "div ";
    CountAppend("<", "div ", c);
    CountAbsent("div ", c);
  }

  lemma CloseTagCount(c: char)
    requires c == '<' || c == '>'
    ensures Count("</div>", c) == 1
  {
    assert "</div>" == "<" + "/div" + ">";
    CountAppend("<" + "/div", ">", c);
    CountAppend("<", "/div", c);
    CountAbsent("/div", c);
  }

  lemma AttrCount(name: string, value: string, c: char)
    requires c == '<' || c == '>'
    requires c !in name && c !in value
    ensures Count(Attr(name, value), c) == 0
  {
    assert c !in Attr(name, value);
    CountAbsent(Attr(name, value), c);
  }

  lemma StyleCount(ds: seq<Decl>, c: char)
    requires PlainDecls(ds)
    requires c == '<' || c == '>'
    ensures Count(Attr("style", Render(ds)), c) == 0
  {
    forall k | 0 <= k < |ds|
      ensures c !in ds[k].prop && c !in ds[k].value
    {
      assert Plain(ds[k].prop) && Plain(ds[k].value);
    }
    RenderAvoids(ds, c);
    assert Word("style");
    WordPlain("style");
    AttrCount("style", Render(ds), c);
  }

  lemma LeafBalanced(n: Node, fmt: Formatter, c: char)
    requires PlainNumbers(fmt) && IsLeafKind(n.kind)
    requires c == '<' || c == '>'
    ensures Count(NodeToHtml(n, fmt), c) == 2
  {
    var ds := LeafDecls(n, fmt);
    StylesPlain(n, fmt);
    StyleCount(ds, c);
    var inner := if n.kind == "TEXT" then EscapeHtml(n.characters.GetOr("")) else "";
    assert NodeToHtml(n, fmt) == Div(Attr("style", Render(ds)), inner);
    DivCount(Attr("style", Render(ds)), inner, c);
    CountAbsent(inner, c);
  }

  /** The declarations a leaf's style is rendered from. */
  function LeafDecls(n: Node, fmt: Formatter): seq<Decl>
    requires IsLeafKind(n.kind)
  {
    if n.kind == "TEXT" then TextDecls(n, fmt)
    else if n.kind == "RECTANGLE" then RectangleDecls(n, fmt)
    else EllipseDecls(n, fmt)
  }

  /**
   * A leaf is one `div` carrying only its style: a TEXT node holds its escaped
   * characters (nothing when it has none), a RECTANGLE or an ELLIPSE holds
   * nothing, and none of them renders its children.
   */
  lemma LeafHtml(n: Node, fmt: Formatter)
    requires IsLeafKind(n.kind)
    ensures NodeToHtml(n, fmt) == Div(Attr("style", Render(LeafDecls(n, fmt))),
      if n.kind == "TEXT" then EscapeHtml(n.characters.GetOr("")) else "")
  {
  }

  /**
   * The content of a TEXT node's `div` holds no tag character and reads back,
   * entity by entity, as exactly the node's characters.
   */
  lemma TextContent(n: Node, fmt: Formatter) returns (content: string)
    requires n.kind == "TEXT"
    ensures NodeToHtml(n, fmt) == Div(Attr("style", Render(TextDecls(n, fmt))), content)
    ensures '<' !in content && '>' !in content
    ensures Unescape(content) == n.characters.GetOr("")
  {
    content := EscapeHtml(n.characters.GetOr(""));
    EscapeRoundTrip(n.characters.GetOr(""));
  }


  lemma WrapperBalanced(n: Node, fmt: Formatter, c: char)
    requires PlainNumbers(fmt) && Plain(n.id) && IsContainerKind(n.kind)
    requires c == '<' || c == '>'
    ensures Count(NodeToHtml(n, fmt), c) == 2 + Count(RenderAll(n.children, fmt), c)
  {
    var attrs := WrapperHtml(n, fmt);
    DivCount(attrs, RenderAll(n.children, fmt), c);
    WrapperAttrsCount(n, fmt, c);
  }

  /** A wrapper is one `div` around its children's renderings. */
  lemma WrapperHtml(n: Node, fmt: Formatter) returns (attrs: string)
    requires IsContainerKind(n.kind)
    ensures attrs == Attr("data-figma-id", n.id) + " " + Attr("style", Render(ContainerDecls(n.box, fmt)))
    ensures NodeToHtml(n, fmt) == Div(attrs, RenderAll(n.children, fmt))
  {
    attrs := Attr("data-figma-id", n.id) + " " + Attr("style", Render(ContainerDecls(n.box, fmt)));
  }

  /** A wrapper's attributes hold no angle bracket. */
  lemma WrapperAttrsCount(n: Node, fmt: Formatter, c: char)
    requires PlainNumbers(fmt) && Plain(n.id)
    requires c == '<' || c == '>'
    ensures Count(Attr("data-figma-id", n.id) + " " + Attr("style", Render(ContainerDecls(n.box, fmt))), c) == 0
  {
    CountAppend(Attr("data-figma-id", n.id) + " ", Attr("style", Render(ContainerDecls(n.box, fmt))), c);
    IdCount(n.id, c);
    InterpPlain(BoxWidth(n.box), fmt);
    InterpPlain(BoxHeight(n.box), fmt);
    ContainerPlain(n.box, fmt);
    StyleCount(ContainerDecls(n.box, fmt), c);
  }

  /** The id attribute, and the space after it, hold no angle bracket. */
  lemma IdCount(id: string, c: char)
    requires Plain(id)
    requires c == '<' || c == '>'
    ensures Count(Attr("data-figma-id", id) + " ", c) == 0
  {
    CountAppend(Attr("data-figma-id", id), " ", c);
    assert Word("data-figma-id");
    WordPlain("data-figma-id");
    AttrCount("data-figma-id", id, c);
  }


  /** Every rendered element is one balanced `<div …>…</div>`: two `<` and two `>` per element. */
  lemma {:induction false} TagsBalanced(n: Node, fmt: Formatter, c: char)
    requires PlainNumbers(fmt) && IdsPlain(n)
    requires c == '<' || c == '>'
    ensures Count(NodeToHtml(n, fmt), c) == 2 * Divs(n)
    decreases n
  {
    if IsLeafKind(n.kind) {
      LeafBalanced(n, fmt, c);
    } else if IsContainerKind(n.kind) {
      WrapperBalanced(n, fmt, c);
      TagsBalancedAll(n.children, fmt, c);
    } else {
      TagsBalancedAll(n.children, fmt, c);
    }
  }

  lemma {:induction false} TagsBalancedAll(cs: seq<Node>, fmt: Formatter, c: char)
    requires PlainNumbers(fmt) && forall k :: 0 <= k < |cs| ==> IdsPlain(cs[k])
    requires c == '<' || c == '>'
    ensures Count(RenderAll(cs, fmt), c) == 2 * DivsAll(cs)
    decreases cs
  {
    if cs != [] {
      var r := RenderEach(cs, fmt);
      assert r[1..] == RenderEach(cs[1..], fmt);
      CountAppend(r[0], Concat(r[1..]), c);
      TagsBalanced(cs[0], fmt, c);
      TagsBalancedAll(cs[1..], fmt, c);
    }
  }
}
