/**
 * The node-tree-to-HTML renderer (backend/src/services/htmlGenerator.ts): a
 * recursive walk over a design node that dispatches on the node's `type`,
 * builds inline styles, escapes text and wraps the body in a fixed document.
 *
 * JavaScript's interpolation of a number into a template (`${x}`) is the
 * `fmt` parameter: every result here holds for whatever formatter is used.
 * Integers produced by `Math.round` are printed by `IntStr`.
 */
module HtmlGenerator {
  import opened Wrappers
  import opened Strings
  import opened Figma
  import opened InlineStyle

  type Formatter = real -> string

  /** No character a number's text could clash with in markup or in a style attribute. */
  predicate PlainChar(c: char) {
    c != ';' && c != ':' && c != '<' && c != '>' && c != '"' && c != '&'
  }

  predicate Plain(s: string) {
    forall c :: c in s ==> PlainChar(c)
  }

  /** A formatter printing numbers as JavaScript does never emits those characters. */
  ghost predicate PlainNumbers(fmt: Formatter) {
    forall v :: Plain(fmt(v))
  }

  lemma PlainAt(fmt: Formatter, v: real)
    requires PlainNumbers(fmt)
    ensures Plain(fmt(v))
  {
  }

  // ---------------------------------------------------------------- colour

  /** `Math.round((v ?? 0) * 255)`: the nearest integer, halves rounded up. */
  function To255(v: Option<real>): (r: int)
    ensures v.GetOr(0.0) * 255.0 - 0.5 < r as real <= v.GetOr(0.0) * 255.0 + 0.5
    ensures 0.0 <= v.GetOr(0.0) <= 1.0 ==> 0 <= r <= 255
  {
    (v.GetOr(0.0) * 255.0 + 0.5).Floor
  }

  /** `rgb01To255(color, opacity)`: the channels scaled to 0..255, then the opacity as given. */
  function Rgba(c: Color, opacity: real, fmt: Formatter): (r: string)
    ensures StartsWith(r, "rgba(") && EndsWith(r, fmt(opacity) + ")")
  {
    "rgba(" + IntStr(To255(c.r)) + ", " + IntStr(To255(c.g)) + ", " + IntStr(To255(c.b))
    + ", " + fmt(opacity) + ")"
  }

  /**
   * The colour reads back: between `rgba(` and `)`, split at the commas, stand
   * the three channels scaled to 0..255 and then the opacity, each after a
   * space but the first (when the formatter prints the opacity without a comma).
   */
  lemma RgbaChannels(c: Color, opacity: real, fmt: Formatter)
    requires ',' !in fmt(opacity)
    ensures var r := Rgba(c, opacity, fmt);
      Split(r[5..|r| - 1], ',')
      == [IntStr(To255(c.r)), " " + IntStr(To255(c.g)), " " + IntStr(To255(c.b)), " " + fmt(opacity)]
  {
    var red, green, blue := IntStr(To255(c.r)), IntStr(To255(c.g)), IntStr(To255(c.b));
    assert ',' !in red && ',' !in green && ',' !in blue;
    RgbaFields(red, green, blue, fmt(opacity));
  }

  /** The pieces of `rgba(a, b, c, d)` between the parentheses, when none of them holds a comma. */
  lemma RgbaFields(a: string, b: string, c: string, d: string)
    requires ',' !in a && ',' !in b && ',' !in c && ',' !in d
    ensures var r := "rgba(" + a + ", " + b + ", " + c + ", " + d + ")";
      Split(r[5..|r| - 1], ',') == [a, " " + b, " " + c, " " + d]
  {
    var r := "rgba(" + a + ", " + b + ", " + c + ", " + d + ")";
    var inside := a + ", " + b + ", " + c + ", " + d;
    Regroup(a, b, c, d);
    Between("rgba(", inside, ")");
    CommaPieces(a, b, c, d);
    SplitFour(a, " " + b, " " + c, " " + d);
  }

  lemma SplitFour(a: string, b: string, c: string, d: string)
    requires ',' !in a && ',' !in b && ',' !in c && ',' !in d
    ensures Split(a + [','] + (b + [','] + (c + [','] + d)), ',') == [a, b, c, d]
  {
    SplitNone(d, ',');
    SplitCons(c, d, ',', [d]);
    SplitCons(b, c + [','] + d, ',', [c, d]);
    SplitCons(a, b + [','] + (c + [','] + d), ',', [b, c, d]);
  }

  lemma Regroup(a: string, b: string, c: string, d: string)
    ensures "rgba(" + a + ", " + b + ", " + c + ", " + d + ")"
         == "rgba(" + (a + ", " + b + ", " + c + ", " + d) + ")"
  {
  }

  lemma Between(open: string, inside: string, close: string)
    ensures var r := open + inside + close; r[|open|..|r| - |close|] == inside
  {
  }

  lemma CommaPieces(a: string, b: string, c: string, d: string)
    ensures a + ", " + b + ", " + c + ", " + d == a + [','] + (" " + b + [','] + (" " + c + [','] + (" " + d)))
  {
    CommaPiece(c, d);
    CommaPiece(b, c + ", " + d);
    CommaPiece(a, b + ", " + c + ", " + d);
    Assoc3(a, b, c, d);
  }

  lemma CommaPiece(a: string, b: string)
    ensures a + ", " + b == a + [','] + (" " + b)
  {
  }

  lemma Assoc3(a: string, b: string, c: string, d: string)
    ensures a + ", " + b + ", " + c + ", " + d == a + ", " + (b + ", " + (c + ", " + d))
  {
  }

  lemma IntStrPlain(n: int)
    ensures Plain(IntStr(n))
  {
    var s := IntStr(n);
    assert forall c :: c in s ==> IsDigit(c) || c == '-';
  }

  /** A colour is printed with no character that could end a declaration or a tag. */
  lemma RgbaPlain(c: Color, opacity: real, fmt: Formatter)
    requires Plain(fmt(opacity))
    ensures Plain(Rgba(c, opacity, fmt))
  {
    IntStrPlain(To255(c.r));
    IntStrPlain(To255(c.g));
    IntStrPlain(To255(c.b));
  }

  /** The colour's own alpha channel plays no part; only the separate opacity does. */
  lemma RgbaIgnoresAlpha(c: Color, alpha: Option<real>, opacity: real, fmt: Formatter)
    ensures Rgba(c.(a := alpha), opacity, fmt) == Rgba(c, opacity, fmt)
  {
  }

  /** A solid red fill at half opacity gives `rgba(255, 0, 0, 0.5)`. */
  lemma RgbaOfRed(fmt: Formatter)
    ensures Rgba(Color(Some(1.0), Some(0.0), Some(0.0), None), 0.5, fmt)
            == "rgba(255, 0, 0, " + fmt(0.5) + ")"
  {
    assert To255(Some(1.0)) == 255;
    assert To255(Some(0.0)) == 0;
    assert NatStr(25) == "25";
    assert NatStr(255) == "255";
  }

  /** The colour of the first fill when it is a solid paint carrying a colour. */
  function SolidColor(fills: seq<Fill>, fmt: Formatter): (r: Option<string>)
    ensures r.Some? <==> |fills| > 0 && fills[0].kind == "SOLID" && fills[0].color.Some?
    ensures r.Some? ==> r.value == Rgba(fills[0].color.value, fills[0].opacity.GetOr(1.0), fmt)
  {
    if |fills| > 0 && fills[0].kind == "SOLID" && fills[0].color.Some? then
      Some(Rgba(fills[0].color.value, fills[0].opacity.GetOr(1.0), fmt))
    else
      None
  }

  // ---------------------------------------------------------------- styles

  /** `${v}` for a possibly missing number. */
  function Interp(v: Option<real>, fmt: Formatter): string {
    match v
    case Some(x) => fmt(x)
    case None => "undefined"
  }

  // Each style attribute is written as the declarations it is made of; the
  // string the source's template builds is `Render` of that list.

  /** `styleFromBoundingBox(box)`: nothing without a box, else the absolute box at `x`/`y`. */
  function BoxDecls(box: Option<Box>, fmt: Formatter): seq<Decl> {
    match box
    case None => []
    case Some(b) =>
      [Decl("position", "absolute"), Decl("left", fmt(b.x.GetOr(0.0)) + "px"),
       Decl("top", fmt(b.y.GetOr(0.0)) + "px"), Decl("width", Interp(b.width, fmt) + "px"),
       Decl("height", Interp(b.height, fmt) + "px")]
  }

  function BoxStyle(box: Option<Box>, fmt: Formatter): string {
    Render(BoxDecls(box, fmt))
  }

  /** `background:<colour>;` when the first fill is solid, else nothing. */
  function BackgroundDecls(fills: seq<Fill>, fmt: Formatter): seq<Decl> {
    match SolidColor(fills, fmt)
    case Some(c) => [Decl("background", c)]
    case None => []
  }

  /** `border-radius:<r>px;` when `cornerRadius` is a number, else nothing. */
  function RadiusDecls(cornerRadius: Option<real>, fmt: Formatter): seq<Decl> {
    match cornerRadius
    case Some(v) => [Decl("border-radius", fmt(v) + "px")]
    case None => []
  }

  function FontSize(n: Node): real {
    if n.style.Some? then n.style.value.fontSize.GetOr(16.0) else 16.0
  }

  function LineHeight(n: Node): real {
    if n.style.Some? then n.style.value.lineHeightPx.GetOr(20.0) else 20.0
  }

  /** A TEXT node: its box, pre-wrapped text, font size, line height and colour. */
  function TextDecls(n: Node, fmt: Formatter): seq<Decl> {
    BoxDecls(n.box, fmt)
    + [Decl("white-space", "pre-wrap"), Decl("font-size", fmt(FontSize(n)) + "px"),
       Decl("line-height", fmt(LineHeight(n)) + "px"),
       Decl("color", SolidColor(n.fills, fmt).GetOr("inherit"))]
  }

  /** A RECTANGLE: its box, its background, then its corner radius. */
  function RectangleDecls(n: Node, fmt: Formatter): seq<Decl> {
    BoxDecls(n.box, fmt) + BackgroundDecls(n.fills, fmt) + RadiusDecls(n.cornerRadius, fmt)
  }

  /** An ELLIPSE: its box, a full rounding, then its background. */
  function EllipseDecls(n: Node, fmt: Formatter): seq<Decl> {
    BoxDecls(n.box, fmt) + [Decl("border-radius", "50%")] + BackgroundDecls(n.fills, fmt)
  }

  function BoxWidth(box: Option<Box>): Option<real> {
    if box.Some? then box.value.width else None
  }

  function BoxHeight(box: Option<Box>): Option<real> {
    if box.Some? then box.value.height else None
  }

  /** A container: relative positioning and its size, never an offset. */
  function ContainerDecls(box: Option<Box>, fmt: Formatter): seq<Decl> {
    [Decl("position", "relative"), Decl("width", Interp(BoxWidth(box), fmt) + "px"),
     Decl("height", Interp(BoxHeight(box), fmt) + "px")]
  }

  // ---------------------------------------------------------------- escaping

  /** `escapeHtml`: `&` first, then `<`, then `>`. */
  function EscapeHtml(text: string): (r: string)
    ensures '<' !in r && '>' !in r
    ensures '&' !in text && '<' !in text && '>' !in text ==> r == text
  {
    ReplaceChar(ReplaceChar(ReplaceChar(text, '&', "&amp;"), '<', "&lt;"), '>', "&gt;")
  }

  // ---------------------------------------------------------------- the walk

  predicate IsLeafKind(kind: string) {
    kind == "TEXT" || kind == "RECTANGLE" || kind == "ELLIPSE"
  }

  predicate IsContainerKind(kind: string) {
    kind == "FRAME" || kind == "GROUP" || kind == "COMPONENT"
  }

  /** `<div attrs>inner</div>`: the one element the renderer emits. */
  function Div(attrs: string, inner: string): (r: string)
    ensures StartsWith(r, "<div ") && EndsWith(r, "</div>")
  {
    "<div " + attrs + ">" + inner + "</div>"
  }

  /** `name="value"`. */
  function Attr(name: string, value: string): string {
    name + "=\"" + value + "\""
  }

  /**
   * `nodeToHtml(node)`: leaves become one styled `div`, wrappers one `div`
   * around their children's renderings, and any other node just its
   * children's renderings.
   */
  function NodeToHtml(n: Node, fmt: Formatter): (r: string)
    ensures IsLeafKind(n.kind) || IsContainerKind(n.kind) ==> StartsWith(r, "<div ") && EndsWith(r, "</div>")
    ensures !IsLeafKind(n.kind) && !IsContainerKind(n.kind) && n.children == [] ==> r == ""
    decreases n
  {
    if n.kind == "TEXT" then
      Div(Attr("style", Render(TextDecls(n, fmt))), EscapeHtml(n.characters.GetOr("")))
    else if n.kind == "RECTANGLE" then
      Div(Attr("style", Render(RectangleDecls(n, fmt))), "")
    else if n.kind == "ELLIPSE" then
      Div(Attr("style", Render(EllipseDecls(n, fmt))), "")
    else if IsContainerKind(n.kind) then
      Div(Attr("data-figma-id", n.id) + " " + Attr("style", Render(ContainerDecls(n.box, fmt))),
          Concat(RenderEach(n.children, fmt)))
    else
      Concat(RenderEach(n.children, fmt))
  }

  /** `children.map(child => this.nodeToHtml(child))`. */
  function RenderEach(cs: seq<Node>, fmt: Formatter): (r: seq<string>)
    ensures |r| == |cs|
    ensures forall k :: 0 <= k < |cs| ==> r[k] == NodeToHtml(cs[k], fmt)
    decreases cs
  {
    if cs == [] then [] else [NodeToHtml(cs[0], fmt)] + RenderEach(cs[1..], fmt)
  }

  const CssReset := "*{box-sizing:border-box;margin:0;padding:0}"

  const Doctype := "<!doctype html>"

  const DocHead := "<html><head><meta charset=\"utf-8\">"
    + "<meta name=\"viewport\" content=\"width=device-width, initial-scale=1\"><style>"
    + CssReset + "</style></head><body>"

  const DocPrefix := Doctype + DocHead

  const DocSuffix := "</body></html>"

  /** `a`, then `b`, then `c`: the text starts with `a`, ends with `c`, and holds `b` between them. */
  lemma Framed(a: string, b: string, c: string)
    ensures StartsWith(a + b + c, a) && EndsWith(a + b + c, c)
    ensures (a + b + c)[|a|..|a + b + c| - |c|] == b
  {
    var r := a + b + c;
    assert r[..|a|] == a;
    assert r[|r| - |c|..] == c;
  }

  /** A prefix of a prefix is a prefix. */
  lemma PrefixOfPrefix(r: string, a: string, m: string)
    requires StartsWith(r, a + m)
    ensures StartsWith(r, a)
  {
    assert r[..|a|] == (a + m)[..|a|];
  }

  /** `generateHtml(frameNode)`: always a full document around the rendered node. */
  function GenerateHtml(frame: Node, fmt: Formatter): (r: string)
    ensures StartsWith(r, Doctype) && EndsWith(r, DocSuffix)
    ensures |r| == |DocPrefix| + |NodeToHtml(frame, fmt)| + |DocSuffix|
    ensures r[|DocPrefix|..|r| - |DocSuffix|] == NodeToHtml(frame, fmt)
  {
    var body := NodeToHtml(frame, fmt);
    var r := DocPrefix + body + DocSuffix;
    Framed(DocPrefix, body, DocSuffix);
    PrefixOfPrefix(r, Doctype, DocHead);
    r
  }
}
