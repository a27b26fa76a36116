/**
 * The design-file entities the backend reads (backend/src/types/figma.ts).
 *
 * Every optional field of the JSON is an `Option`. A node's missing `children`
 * and `fills` are the empty sequence, because every reader of them writes
 * `children ?? []` or `fills?.[0]`, which treat absence and emptiness alike.
 */
module Figma {
  import opened Wrappers

  /** A colour with channels in [0, 1]; `a` is carried but never read. */
  datatype Color = Color(r: Option<real>, g: Option<real>, b: Option<real>, a: Option<real>)

  /** A paint: `kind` is the upstream `type` string ("SOLID", "IMAGE", ...). */
  datatype Fill = Fill(kind: string, color: Option<Color>, opacity: Option<real>)

  /** An absolute bounding box in the file's single canvas coordinate space. */
  datatype Box = Box(x: Option<real>, y: Option<real>, width: Option<real>, height: Option<real>)

  datatype TextStyle = TextStyle(
    fontSize: Option<real>,
    lineHeightPx: Option<real>,
    fontFamily: Option<string>,
    fontWeight: Option<real>,
    letterSpacing: Option<real>)

  /** A design node; `kind` is the upstream `type` string ("FRAME", "TEXT", "CANVAS", ...). */
  datatype Node = Node(
    id: string,
    name: string,
    kind: string,
    children: seq<Node>,
    box: Option<Box>,
    fills: seq<Fill>,
    characters: Option<string>,
    style: Option<TextStyle>,
    cornerRadius: Option<real>)

  /** One entry of the frame listing. */
  datatype FrameEntry = FrameEntry(
    id: string,
    name: string,
    page: string,
    width: Option<real>,
    height: Option<real>,
    previewUrl: Option<string>)

  datatype Document = Document(children: Option<seq<Node>>)

  datatype FigmaFile = FigmaFile(document: Option<Document>, lastModified: string)

  /** What a pasted design URL yields: the file key and, when given, a node id. */
  datatype UrlData = UrlData(fileKey: string, nodeId: Option<string>)
}
