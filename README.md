# figma_frame core in Dafny

This project models the six pieces of logic at the heart of figma_frame, a
service that turns a frame of a Figma design file into HTML:

- **The renderer** (`backend/src/services/htmlGenerator.ts`). It walks a design
  node tree and dispatches on the node type. `TEXT`, `RECTANGLE` and `ELLIPSE`
  become one styled `div`; `FRAME`, `GROUP` and `COMPONENT` become a wrapper
  `div` around their children; any other node is just its children. Text is
  escaped and the result is wrapped in a fixed document shell. Modules
  `HtmlGenerator` (the functions) and `HtmlProperties` (what they promise);
  `InlineStyle` gives an independent reading of a `style` attribute as
  `prop:value;` declarations.
- **The frame index** (`extractFrames` in `backend/src/services/figmaApi.ts`).
  A recursive walk pushes one entry per `FRAME`/`COMPONENT` node into a list,
  tagged with the enclosing page. Module `FrameIndex`: the class `FrameWalker`
  holds the list as a field that `WalkNodes` appends to, proved against the
  fold `FramesOf`; that fold is proved to be the pre-order listing of frame
  nodes, each tagged with the name of the nearest `CANVAS` above it.
- **The URL parser** (`parseFigmaUrl` in `backend/src/utils/figmaUrl.ts`). It
  finds the file key with the pattern `/(file|design)/([A-Za-z0-9]+)/` and
  rewrites the `node-id` value. Module `FigmaUrl`: the regular expression is a
  leftmost scan, proved equivalent to a declarative reading of the pattern.
- **The store** (reducers of `frontend/src/lib/redux/figmaSlice.ts`). Module
  `FigmaSlice`: `Reduce` is the reducer as a function; the class `FigmaStore`
  updates its fields in place, one method per reducer case, each proved to
  leave the state `Reduce` gives.
- **The pretty-printer** (`formatHtml` in `frontend/src/components/CodeBlock.tsx`).
  Module `CodeBlock`: the tokenizer, and the `forEach` loop as a `while` loop
  over the kept tokens with `formatted` and `indent` as loop variables.
- **The size sniffer** (`extractSizeFromCode` in `frontend/src/lib/parse.ts`).
  Module `SizeSniffer`: the three regular-expression tiers as scanning
  functions, each proved equal to a declarative reading of its pattern
  (leftmost start, greedy `[^"]*` gaps).

Shared modules:

- `Wrappers`: `Option` and `Result`.
- `Strings`: character classes and the JavaScript string operations used.
- `Scan`: the first and last position in a range where a function yields a value.
- `Figma`: the node, fill, box and file records of `backend/src/types/figma.ts`.

The renderer and the index take the types' optional fields as `Option`. An
absent `children` or `fills` list is the empty sequence; every consumer in
the source reads them with `?? []` or `?.[0]`.

Number-to-text conversion (`${x}` on a JavaScript number) is the parameter
`fmt`, so every result holds for any formatter. The integers that
`Math.round` produces are printed by `IntStr`. `parseFloat` is a parameter of
`ExtractSizeFromCode` in the same way.

## Model

| member | source | states |
|---|---|---|
| HtmlGenerator.To255 | backend/src/services/htmlGenerator.ts:4-7 | `Math.round((v ?? 0) * 255)`: within one half of `v*255` (missing channel is 0), and in 0..255 when `v` is in [0, 1] |
| HtmlGenerator.Rgba | backend/src/services/htmlGenerator.ts:4-7 | the colour text starts with `rgba(` and ends with the opacity as given, then `)` |
| HtmlGenerator.RgbaIgnoresAlpha | backend/src/services/htmlGenerator.ts:4-7 | the colour's own `a` channel never changes the text |
| HtmlGenerator.RgbaChannels | backend/src/services/htmlGenerator.ts:4-7 | between `rgba(` and `)`, split at the commas, stand the three channels rounded to 0..255 and then the opacity as given (when its text has no comma) |
| HtmlGenerator.RgbaOfRed | backend/src/services/htmlGenerator.ts:4-7 | a red colour at opacity 0.5 prints as `rgba(255, 0, 0, 0.5)` |
| HtmlGenerator.RgbaPlain | backend/src/services/htmlGenerator.ts:4-7 | a colour text holds no `;`, `:`, `<`, `>`, `"` or `&` when its opacity text does not |
| HtmlGenerator.SolidColor | backend/src/services/htmlGenerator.ts:29-32 | a colour exists exactly when the first fill is `SOLID` with a colour; it is that colour at `opacity ?? 1` |
| HtmlGenerator.EscapeHtml | backend/src/services/htmlGenerator.ts:15-20 | the escaped text has no `<` or `>`; a text with no `&`, `<`, `>` is returned unchanged |
| HtmlProperties.EscapeRoundTrip | backend/src/services/htmlGenerator.ts:15-20 | mapping `&lt;`, `&gt;`, `&amp;` back recovers the original text, because `&` is replaced first |
| HtmlProperties.EscapeIsPerChar | backend/src/services/htmlGenerator.ts:15-20 | the three chained replaces equal escaping each character on its own |
| HtmlProperties.EscapeAppend | backend/src/services/htmlGenerator.ts:15-20 | escaping distributes over concatenation |
| HtmlProperties.UnescapeEscapeEach | backend/src/services/htmlGenerator.ts:15-20 | unescaping inverts the per-character escaping |
| HtmlProperties.BoxValues | backend/src/services/htmlGenerator.ts:9-13 | no box gives no declarations and the empty style; a box gives `position:absolute`, `left`/`top` from its own `x`/`y` (0 when missing), and its own width and height |
| HtmlGenerator.BoxDecls | backend/src/services/htmlGenerator.ts:9-13 | defined as the declarations of the box style; BoxValues and BoxLacks state them |
| HtmlGenerator.BoxStyle | backend/src/services/htmlGenerator.ts:9-13 | defined as the rendered box declarations; BoxValues states the empty case and LeafStylesStartWithBox where it goes |
| HtmlGenerator.Interp | backend/src/services/htmlGenerator.ts:12 | defined as `${v}` of a possibly missing number, `undefined` when missing; BoxValues and ContainerValues state where it is used |
| HtmlGenerator.TextDecls | backend/src/services/htmlGenerator.ts:27-34 | defined as the declarations of a TEXT style; TextValues and TextPosition state them |
| HtmlGenerator.RectangleDecls | backend/src/services/htmlGenerator.ts:39-47 | defined as the declarations of a RECTANGLE style; RectangleRadius and RectangleBackground state them |
| HtmlGenerator.EllipseDecls | backend/src/services/htmlGenerator.ts:51-56 | defined as the declarations of an ELLIPSE style; EllipseRadius and EllipseBackground state them |
| HtmlGenerator.ContainerDecls | backend/src/services/htmlGenerator.ts:60 | defined as the declarations of a wrapper style; ContainerValues states them |
| HtmlGenerator.NodeToHtml | backend/src/services/htmlGenerator.ts:22-67 | a leaf or a wrapper renders as one `div`; a childless node of any other kind renders as "" |
| HtmlProperties.LeafHtml | backend/src/services/htmlGenerator.ts:25-57 | a leaf is one `div` carrying only its style; a TEXT node holds its escaped characters ("" when missing), a RECTANGLE or an ELLIPSE nothing |
| HtmlProperties.TextContent | backend/src/services/htmlGenerator.ts:25-35 | a TEXT `div` holds no `<` or `>` and its content unescapes to exactly the node's characters |
| HtmlProperties.BoxLacks | backend/src/services/htmlGenerator.ts:9-13 | the box style never sets `border-radius` or `background` |
| HtmlProperties.TextValues | backend/src/services/htmlGenerator.ts:25-36 | a `TEXT` style sets `pre-wrap`, font size 16 and line height 20 by default, and colour `inherit` unless the first fill is solid |
| HtmlProperties.TextPosition | backend/src/services/htmlGenerator.ts:34 | a `TEXT` node's position comes from its box style |
| HtmlProperties.RectangleRadius | backend/src/services/htmlGenerator.ts:43-45 | a `RECTANGLE` sets `border-radius` exactly when `cornerRadius` is a number, to that many px |
| HtmlProperties.RectangleBackground | backend/src/services/htmlGenerator.ts:40-42 | a `RECTANGLE`'s background is the first fill's solid colour, or unset |
| HtmlProperties.EllipseRadius | backend/src/services/htmlGenerator.ts:50-57 | an `ELLIPSE` always has `border-radius:50%`, and its rendering does not depend on `cornerRadius` |
| HtmlProperties.EllipseBackground | backend/src/services/htmlGenerator.ts:51-54 | an `ELLIPSE`'s background is the first fill's solid colour, or unset |
| HtmlProperties.ContainerValues | backend/src/services/htmlGenerator.ts:60 | a wrapper is `position:relative` with its width and height and never sets `left` or `top` |
| HtmlProperties.OnlyFirstFill | backend/src/services/htmlGenerator.ts:29-32 | fills after the first never change a node's rendering |
| HtmlProperties.LeafIgnoresChildren | backend/src/services/htmlGenerator.ts:25-57 | a `TEXT`, `RECTANGLE` or `ELLIPSE` renders the same whatever its children |
| HtmlProperties.WrapperAroundChildren | backend/src/services/htmlGenerator.ts:59-66 | a wrapper is one `div` with `data-figma-id` around its children's renderings in order; a childless node of another kind renders as "" |
| HtmlProperties.WrapperHtml | backend/src/services/htmlGenerator.ts:59-63 | a wrapper's rendering is its `div` around the concatenated renderings of its children |
| HtmlProperties.RenderAllAppend | backend/src/services/htmlGenerator.ts:61 | rendering a list of children distributes over concatenation of the list |
| HtmlProperties.RenderEachAppend | backend/src/services/htmlGenerator.ts:61 | the `map` over children distributes over concatenation |
| HtmlGenerator.RenderEach | backend/src/services/htmlGenerator.ts:61 | one rendering per child, in child order |
| HtmlProperties.StylesPlain | backend/src/services/htmlGenerator.ts:22-67 | with a formatter that prints numbers without markup characters, every style's declarations are free of them |
| HtmlProperties.StylesReadBack | backend/src/services/htmlGenerator.ts:22-67 | every style attribute the renderer writes reads back as exactly its declarations |
| HtmlProperties.PlainReadsBack | backend/src/services/htmlGenerator.ts:22-67 | declarations free of markup characters read back from their text |
| HtmlProperties.LeafStylesStartWithBox | backend/src/services/htmlGenerator.ts:34 | each leaf style starts with the box style |
| HtmlProperties.LeafBalanced | backend/src/services/htmlGenerator.ts:25-57 | a leaf's rendering holds exactly two `<` and two `>`: one element |
| HtmlProperties.WrapperBalanced | backend/src/services/htmlGenerator.ts:59-63 | a wrapper adds exactly two `<` and two `>` around its children |
| HtmlProperties.TagsBalanced | backend/src/services/htmlGenerator.ts:22-67 | a rendered tree holds two `<` and two `>` per `div` it emits, so nothing leaks from text or styles |
| HtmlProperties.TagsBalancedAll | backend/src/services/htmlGenerator.ts:61 | the same for a list of children |
| HtmlGenerator.GenerateHtml | backend/src/services/htmlGenerator.ts:69-74 | the document starts with `<!doctype html>`, ends with `</body></html>`, and holds exactly the rendered node between the fixed prefix and suffix |
| InlineStyle.ParseRender | backend/src/services/htmlGenerator.ts:22-67 | well-formed declarations written as `prop:value;` read back unchanged |
| InlineStyle.Value | backend/src/services/htmlGenerator.ts:22-67 | a property's applied value is unset exactly when nothing declares it, otherwise one of its declarations |
| InlineStyle.ValueAt | backend/src/services/htmlGenerator.ts:22-67 | the last declaration of a property decides its value |
| FrameIndex.Entry | backend/src/services/figmaApi.ts:58-64 | an entry copies `id` and `name`, takes the page, and takes width/height from the box, absent when there is no box |
| FrameIndex.FrameWalker.constructor | backend/src/services/figmaApi.ts:48 | the list starts empty |
| FrameIndex.FrameWalker.WalkNodes | backend/src/services/figmaApi.ts:50-75 | the walk appends exactly `FramesOf(n, page)` to the list |
| FrameIndex.ExtractFrames | backend/src/services/figmaApi.ts:47-82 | the list returned is the fold over the pages, each walked under its own name |
| FrameIndex.FramesOfAllAppend | backend/src/services/figmaApi.ts:67-73 | walking a list of siblings distributes over concatenation |
| FrameIndex.PagesFramesAppend | backend/src/services/figmaApi.ts:77-79 | walking a list of pages distributes over concatenation |
| FrameIndex.FrameNodes | backend/src/services/figmaApi.ts:57 | the frame nodes of a list are all `FRAME` or `COMPONENT` nodes |
| FrameIndex.FramesArePreOrderFrames | backend/src/services/figmaApi.ts:57-73 | a walk lists one entry per `FRAME`/`COMPONENT` node of the tree, in depth-first pre-order, nested frames included |
| FrameIndex.FramesArePreOrderFramesAll | backend/src/services/figmaApi.ts:67-73 | the same for a list of siblings |
| FrameIndex.PagesFramesArePreOrderFrames | backend/src/services/figmaApi.ts:77-79 | the same for the pages, in page order |
| FrameIndex.FileFramesArePreOrderFrames | backend/src/services/figmaApi.ts:47-82 | the listing has as many entries as there are frame nodes under the pages, and entry k is made from the k-th of them in pre-order |
| FrameIndex.EmptyDocument | backend/src/services/figmaApi.ts:77 | a missing document, a missing child list and an empty one list nothing |
| FrameIndex.NoCanvasKeepsPage | backend/src/services/figmaApi.ts:53-56 | with no `CANVAS` inside, every entry carries the page the walk started with |
| FrameIndex.NoCanvasKeepsPageAll | backend/src/services/figmaApi.ts:67-73 | the same for a list of siblings |
| FrameIndex.CanvasNamesPage | backend/src/services/figmaApi.ts:53-56 | whatever page the walk reaches a `CANVAS` with, each entry below carries the canvas's name or the name of a `CANVAS` further down |
| FrameIndex.OnlyCanvasNamesPage | backend/src/services/figmaApi.ts:53-56 | with no further `CANVAS` below it, every entry under a `CANVAS` carries its name |
| FrameIndex.PageFromCanvas | backend/src/services/figmaApi.ts:50-75 | every entry carries the page the walk started with or the name of a `CANVAS` of the tree |
| FrameIndex.PageFromCanvasAll | backend/src/services/figmaApi.ts:67-73 | the same for a list of siblings |
| FrameIndex.PagedIsPreOrder | backend/src/services/figmaApi.ts:50-75 | the nodes of the paged listing are the tree in pre-order |
| FrameIndex.PagedIsPreOrderAll | backend/src/services/figmaApi.ts:67-73 | the same for a list of siblings |
| FrameIndex.FramesArePaged | backend/src/services/figmaApi.ts:50-75 | the walk yields one entry per `FRAME`/`COMPONENT` node in pre-order, each tagged with the name of the nearest `CANVAS` above it, or else the page the walk started with |
| FrameIndex.FramesArePagedAll | backend/src/services/figmaApi.ts:67-73 | the same for a list of siblings |
| FrameIndex.FileFramesArePaged | backend/src/services/figmaApi.ts:47-82 | the listing is the entries of the frame nodes under the pages in pre-order, each tagged with the nearest `CANVAS` above it or else its top-level node's name |
| FrameIndex.FramesOf | backend/src/services/figmaApi.ts:50-75 | defined as the entries one call of `walkNodes` pushes; FramesArePaged and FramesArePreOrderFrames state them |
| FrameIndex.FramesOfAll | backend/src/services/figmaApi.ts:54-56 | defined as the entries a loop over siblings pushes; FramesArePagedAll and FramesOfAllAppend state them |
| FrameIndex.PagesFrames | backend/src/services/figmaApi.ts:77-79 | defined as the entries of the loop over the pages; PagesFramesArePreOrderFrames states them |
| FrameIndex.FileFrames | backend/src/services/figmaApi.ts:47-82 | defined as the frame listing of a file; FileFramesArePaged and FileFramesArePreOrderFrames state it, ExtractFrames computes it |
| FigmaUrl.AlnumRun | backend/src/utils/figmaUrl.ts:12 | the run `[A-Za-z0-9]+` matches: all letters and digits, and the longest such run |
| FigmaUrl.MatchAt | backend/src/utils/figmaUrl.ts:12 | defined as the capture of the pattern anchored at one position; MatchAtIff, MatchAtSound and MatchAtComplete state it |
| FigmaUrl.FindKey | backend/src/utils/figmaUrl.ts:12-17 | defined as the capture at the leftmost position that matches; NoKeyIff and KeyIsLeftmostMatch state it |
| FigmaUrl.MatchAtIff | backend/src/utils/figmaUrl.ts:12 | the scan captures a key at a position exactly when `/file/<key>/` or `/design/<key>/` stands there with an alphanumeric, non-empty key |
| FigmaUrl.MatchAtSound | backend/src/utils/figmaUrl.ts:12 | a key the scan captures is a match of the pattern |
| FigmaUrl.MatchAtComplete | backend/src/utils/figmaUrl.ts:12 | every match of the pattern is found by the scan, with its key |
| FigmaUrl.NodeIdOf | backend/src/utils/figmaUrl.ts:18-19 | `nodeId` is absent exactly when `node-id` is missing or empty; otherwise same length, no `-`, and each `-` turned into `:` |
| FigmaUrl.ParseFigmaUrl | backend/src/utils/figmaUrl.ts:3-22 | the invalid-URL error exactly when the URL does not parse; on success `nodeId` is the rewritten `node-id` |
| FigmaUrl.NoKeyIff | backend/src/utils/figmaUrl.ts:12-15 | the file-key error is raised exactly when no position of the path matches |
| FigmaUrl.KeyIsLeftmostMatch | backend/src/utils/figmaUrl.ts:12-17 | on success the key is non-empty, alphanumeric, and the capture of the leftmost match |
| FigmaUrl.KeyIgnoresQuery | backend/src/utils/figmaUrl.ts:12 | the outcome and the key depend only on the pathname |
| FigmaUrl.KeyNeedsTrailingSlash | backend/src/utils/figmaUrl.ts:12-15 | a path ending right after `/file/<key>` or `/design/<key>` is rejected |
| FigmaUrl.NoSlashAfter | backend/src/utils/figmaUrl.ts:12-15 | the same, for either head |
| FigmaUrl.MatchSlashes | backend/src/utils/figmaUrl.ts:12 | a match starts with `/` and has a `/` right after the key |
| FigmaSlice.SetLoading | frontend/src/lib/redux/figmaSlice.ts:110-111 | setting one loading flag leaves the other two alone |
| FigmaSlice.SetError | frontend/src/lib/redux/figmaSlice.ts:120-121 | setting one error leaves the other two alone |
| FigmaSlice.Start | frontend/src/lib/redux/figmaSlice.ts:109-112 | defined as raising a request's flag and clearing its error; PendingStarts states it |
| FigmaSlice.Finish | frontend/src/lib/redux/figmaSlice.ts:119-122 | defined as lowering a request's flag and setting its error; FramesFulfilledStores and RejectedStoresError state it |
| FigmaSlice.Reduce | frontend/src/lib/redux/figmaSlice.ts:77-154 | every action keeps the invariant that no loading request has an error |
| FigmaSlice.FigmaStore.constructor | frontend/src/lib/redux/figmaSlice.ts:25-39 | a new store holds `initialState` |
| FigmaSlice.FigmaStore.ClearErrors | frontend/src/lib/redux/figmaSlice.ts:81-87 | the fields are updated in place to the state `Reduce` gives |
| FigmaSlice.FigmaStore.ClearFrameCode | frontend/src/lib/redux/figmaSlice.ts:88-93 | the fields are updated in place to the state `Reduce` gives |
| FigmaSlice.FigmaStore.SelectFrame | frontend/src/lib/redux/figmaSlice.ts:94-100 | the fields are updated in place to the state `Reduce` gives |
| FigmaSlice.FigmaStore.ClearSelection | frontend/src/lib/redux/figmaSlice.ts:101-105 | the fields are updated in place to the state `Reduce` gives |
| FigmaSlice.FigmaStore.FramesPending | frontend/src/lib/redux/figmaSlice.ts:109-112 | the fields are updated in place to the state `Reduce` gives |
| FigmaSlice.FigmaStore.FramesFulfilled | frontend/src/lib/redux/figmaSlice.ts:113-118 | the fields are updated in place to the state `Reduce` gives |
| FigmaSlice.FigmaStore.FramesRejected | frontend/src/lib/redux/figmaSlice.ts:119-122 | the fields are updated in place to the state `Reduce` gives |
| FigmaSlice.FigmaStore.NodePending | frontend/src/lib/redux/figmaSlice.ts:123-126 | the fields are updated in place to the state `Reduce` gives |
| FigmaSlice.FigmaStore.NodeFulfilled | frontend/src/lib/redux/figmaSlice.ts:127-133 | the fields are updated in place to the state `Reduce` gives |
| FigmaSlice.FigmaStore.NodeRejected | frontend/src/lib/redux/figmaSlice.ts:134-137 | the fields are updated in place to the state `Reduce` gives |
| FigmaSlice.FigmaStore.CodePending | frontend/src/lib/redux/figmaSlice.ts:138-141 | the fields are updated in place to the state `Reduce` gives |
| FigmaSlice.FigmaStore.CodeFulfilled | frontend/src/lib/redux/figmaSlice.ts:142-148 | the fields are updated in place to the state `Reduce` gives |
| FigmaSlice.FigmaStore.CodeRejected | frontend/src/lib/redux/figmaSlice.ts:149-152 | the fields are updated in place to the state `Reduce` gives |
| FigmaSlice.FigmaStore.Dispatch | frontend/src/lib/redux/figmaSlice.ts:77-154 | any action updates the fields in place to the state `Reduce` gives |
| FigmaSlice.ClearErrorsOnlyErrors | frontend/src/lib/redux/figmaSlice.ts:81-87 | all three errors become null; flags, url, listing and selection are unchanged |
| FigmaSlice.ClearFrameCodeOnlyCode | frontend/src/lib/redux/figmaSlice.ts:88-93 | the selection's code and the code error become null; nothing else changes |
| FigmaSlice.SelectFrameSelects | frontend/src/lib/redux/figmaSlice.ts:94-100 | the selection becomes the id, the data (null when falsy) and no code; nothing else changes |
| FigmaSlice.SelectWithoutData | frontend/src/lib/redux/figmaSlice.ts:96 | a frame selected with `undefined` data holds `null` |
| FigmaSlice.ClearSelectionKeepsFramesError | frontend/src/lib/redux/figmaSlice.ts:101-105 | the selection and the node and code errors are cleared; the listing error and all else stay |
| FigmaSlice.PendingStarts | frontend/src/lib/redux/figmaSlice.ts:109-112 | a `pending` case raises its own flag and clears its own error, and changes no data |
| FigmaSlice.OtherRequestsUntouched | frontend/src/lib/redux/figmaSlice.ts:107-153 | a life-cycle case never changes another request's flag or error |
| FigmaSlice.FramesFulfilledStores | frontend/src/lib/redux/figmaSlice.ts:113-118 | the listing and its url are stored, the flag lowered and the error cleared; the selection stays |
| FigmaSlice.ResponseForSelectedFrameOnly | frontend/src/lib/redux/figmaSlice.ts:127-133 | a node or code response updates the selection's data or code only when its id is the selected one; otherwise only the flag and error change |
| FigmaSlice.RejectedStoresError | frontend/src/lib/redux/figmaSlice.ts:119-122 | a `rejected` case lowers its own flag, stores the message as its error, and changes no data |
| FigmaSlice.SelectionIdStable | frontend/src/lib/redux/figmaSlice.ts:77-154 | only `selectFrame` and `clearSelection` change which frame is selected |
| FigmaSlice.ReduceIdempotent | frontend/src/lib/redux/figmaSlice.ts:77-154 | dispatching the same action twice equals dispatching it once |
| FigmaSlice.RunConsistent | frontend/src/lib/redux/figmaSlice.ts:77-154 | any sequence of actions keeps the no-loading-with-error invariant |
| FigmaSlice.InitialConsistent | frontend/src/lib/redux/figmaSlice.ts:25-39 | `initialState` satisfies the invariant, and so does every state reached from it |
| FigmaSlice.SelectThenRespond | frontend/src/lib/redux/figmaSlice.ts:94-148 | after a selection, responses keep the selected id |
| FigmaSlice.SelectionKept | frontend/src/lib/redux/figmaSlice.ts:107-153 | actions other than the two selection reducers keep the selection and its id |
| CodeBlock.Tokenize | frontend/src/components/CodeBlock.tsx:20 | `split(/(<[^>]*>)/)` gives at least one piece |
| CodeBlock.TokenizeConcat | frontend/src/components/CodeBlock.tsx:20 | the pieces put back together give the input |
| CodeBlock.TokenizeAlternates | frontend/src/components/CodeBlock.tsx:20 | the pieces alternate between text with no tag in it and one `<...>` tag, ending with text |
| CodeBlock.TokenizeLeftmost | frontend/src/components/CodeBlock.tsx:20 | a split that finds a tag cuts at the leftmost match: no `<` stands before the tag, the tag runs from its `<` to the first `>` after it, and the rest is split the same way |
| CodeBlock.TokenizeWholeIff | frontend/src/components/CodeBlock.tsx:20 | the input comes back as a single piece exactly when `<[^>]*>` matches nowhere in it |
| CodeBlock.TokenizeWhole | frontend/src/components/CodeBlock.tsx:20 | a split that finds no tag leaves an input with no tag in it |
| CodeBlock.Keep | frontend/src/components/CodeBlock.tsx:20 | no kept token is blank |
| CodeBlock.KeepKeeps | frontend/src/components/CodeBlock.tsx:20 | exactly the tokens that are not blank survive |
| CodeBlock.KeepAppend | frontend/src/components/CodeBlock.tsx:20 | the filter works token by token: filtering two runs is filtering each, in order |
| CodeBlock.KeepOne | frontend/src/components/CodeBlock.tsx:20 | a single token survives exactly when it is not blank |
| CodeBlock.IsClosing | frontend/src/components/CodeBlock.tsx:23 | defined as starting with `</`; ClosingRule states its effect |
| CodeBlock.IsOpening | frontend/src/components/CodeBlock.tsx:27 | defined as starting with `<`, not ending with `/>` and holding no `</`; OpeningRule and NoSlashOpens state its effect |
| CodeBlock.IsVoid | frontend/src/components/CodeBlock.tsx:31-32 | defined as the lowered token holding `<` followed by one of the thirteen void names; OpeningRule and BangIsNotVoid state its effect |
| CodeBlock.IsSelfClosing | frontend/src/components/CodeBlock.tsx:35 | defined as starting with `<` and ending with `/>`; FlatRule states its effect |
| CodeBlock.NextIndent | frontend/src/components/CodeBlock.tsx:23-41 | defined as the indent after one token; ClosingRule, OpeningRule and FlatRule state each branch |
| CodeBlock.Line | frontend/src/components/CodeBlock.tsx:26-40 | defined as the text one token appends; OneLinePerToken states it |
| CodeBlock.Layout | frontend/src/components/CodeBlock.tsx:22-42 | defined as the lines of the tokens in turn; LayoutAppend, ElementLayout and FormatHtml state its properties |
| CodeBlock.Formatted | frontend/src/components/CodeBlock.tsx:15-45 | defined as the trimmed layout of the kept tokens from indent 0; FormatHtml proves the loop computes it |
| CodeBlock.Pad | frontend/src/components/CodeBlock.tsx:18 | the indent is two spaces per level |
| CodeBlock.FormatHtml | frontend/src/components/CodeBlock.tsx:15-45 | the loop's result is the layout of the kept tokens from indent 0, trimmed |
| CodeBlock.Visit | frontend/src/components/CodeBlock.tsx:22-42 | one callback appends the token's line and moves the indent by its rule |
| CodeBlock.LinesOf | frontend/src/components/CodeBlock.tsx:22-42 | one line per token |
| CodeBlock.OneLinePerToken | frontend/src/components/CodeBlock.tsx:22-42 | each kept token yields exactly one line: its indent, the token, a newline |
| CodeBlock.Indents | frontend/src/components/CodeBlock.tsx:22-42 | the indents met are a sequence of naturals, each following from the previous token: the counter never goes negative |
| CodeBlock.ClosingRule | frontend/src/components/CodeBlock.tsx:23-26 | a closing tag steps back one level before it is written, and stays at 0 from 0 |
| CodeBlock.OpeningRule | frontend/src/components/CodeBlock.tsx:27-34 | an opening tag is written at the current level and opens one more unless its element is void |
| CodeBlock.FlatRule | frontend/src/components/CodeBlock.tsx:35-41 | self-closing tags and text leave the level alone; text is written trimmed |
| CodeBlock.LayoutAppend | frontend/src/components/CodeBlock.tsx:22-42 | the layout of two token runs is the first's, then the second's from where the first left off |
| CodeBlock.FinalAppend | frontend/src/components/CodeBlock.tsx:22-42 | the indent after two runs composes |
| CodeBlock.NestedReturns | frontend/src/components/CodeBlock.tsx:23-34 | balanced non-void open/close pairs return the indent to its start |
| CodeBlock.NestedReturnsAll | frontend/src/components/CodeBlock.tsx:23-34 | the same for a sequence of balanced elements |
| CodeBlock.ElementLayout | frontend/src/components/CodeBlock.tsx:23-34 | an element's opening tag is written at the level, its children one deeper, its closing tag back at the level |
| CodeBlock.NoSlashOpens | frontend/src/components/CodeBlock.tsx:27-30 | a tag with no `/` in it is an opening tag |
| CodeBlock.BangIsNotVoid | frontend/src/components/CodeBlock.tsx:31-32 | a `<!...` declaration is not a void element |
| CodeBlock.DoctypeOpens | frontend/src/components/CodeBlock.tsx:27-34 | `<!doctype html>` raises the indent by one |
| SizeSniffer.NumRun | frontend/src/lib/parse.ts:3 | `[0-9.]+` takes the longest run of digits and dots |
| SizeSniffer.SpaceRun | frontend/src/lib/parse.ts:3 | `\s*` takes the longest run of white space |
| SizeSniffer.NumberAtIff | frontend/src/lib/parse.ts:3-24 | the matcher finds a part with a given capture at a position exactly when the regular expression reads one there |
| SizeSniffer.NumberAtSound | frontend/src/lib/parse.ts:3-24 | a part the matcher finds is a reading of the pattern |
| SizeSniffer.NumberAtComplete | frontend/src/lib/parse.ts:3-24 | every reading of the pattern is found, with its capture |
| SizeSniffer.Leftmost | frontend/src/lib/parse.ts:12-24 | a capture is a non-empty run of digits and dots |
| SizeSniffer.LeftmostIff | frontend/src/lib/parse.ts:12-24 | `match` is null exactly when the pattern reads nowhere; otherwise it is the capture at the leftmost position |
| SizeSniffer.StyleAtNone | frontend/src/lib/parse.ts:3 | the style scan at a start fails exactly when the style pattern cannot be read there |
| SizeSniffer.StyleAtGreedy | frontend/src/lib/parse.ts:3 | the style captures come from the reading with the latest width part and, for it, the latest height part (greedy `[^"]*`) |
| SizeSniffer.ConfigInside | frontend/src/lib/parse.ts:3 | both parts of a style reading lie inside the attribute value |
| SizeSniffer.StyleMatch | frontend/src/lib/parse.ts:3 | both captures of the first `match` are non-empty runs of digits and dots |
| SizeSniffer.StyleMatchIs | frontend/src/lib/parse.ts:3 | the first `match` is null exactly when the style pattern reads nowhere; otherwise it is the reading at the leftmost start |
| SizeSniffer.SizeTexts | frontend/src/lib/parse.ts:1-34 | every captured width and height is a non-empty run of digits and dots |
| SizeSniffer.SizeTextsNone | frontend/src/lib/parse.ts:33 | the result is null exactly when no tier finds both a width and a height |
| SizeSniffer.StyleTierFirst | frontend/src/lib/parse.ts:3-9 | tier 1 wins whenever the style pattern reads anywhere |
| SizeSniffer.CssTier | frontend/src/lib/parse.ts:12-20 | when tier 1 fails, tier 2 gives the first `width:` and first `height:` parts, in whatever order they lie |
| SizeSniffer.AttrTier | frontend/src/lib/parse.ts:23-31 | when tiers 1 and 2 fail, tier 3 gives the first `width="` and `height="` attributes |
| SizeSniffer.ExtractSizeFromCode | frontend/src/lib/parse.ts:1-34 | null exactly when no texts were found; otherwise `parseFloat` of each |
| Strings.ReplaceChar | backend/src/utils/figmaUrl.ts:19 | `replace(/c/g, rep)` removes every `c` when `rep` has none, keeps length for a one-character `rep`, and keeps other characters |
| Strings.ReplaceCharAt | backend/src/utils/figmaUrl.ts:19 | a one-character replacement rewrites each position on its own |
| Strings.TrimStart | frontend/src/components/CodeBlock.tsx:40 | leading white space is dropped and nothing else |
| Strings.TrimEnd | frontend/src/components/CodeBlock.tsx:44 | trailing white space is dropped and nothing else |
| Strings.Trim | frontend/src/components/CodeBlock.tsx:20 | defined as `trim`: the end trim of the start trim; TrimStart, TrimEnd and TrimEmptyIffBlank state it |
| Strings.TrimEmptyIffBlank | frontend/src/components/CodeBlock.tsx:20 | a token trims to "" exactly when it is all white space |
| Strings.Lower | frontend/src/components/CodeBlock.tsx:31 | `toLowerCase` maps each character on its own |

## Left out

- The upstream API clients (`getFile`, `getNodes`, `getImageUrls`, `initialize`), the controllers, the frontend API module, persistence, sessions, authentication, routing and the UI components are not part of this model: they are network, database, clock or rendering glue.
- The async thunks of `frontend/src/lib/redux/figmaSlice.ts` (lines 41-75) are not modelled; only the actions they dispatch are, as `Action` cases with their payloads.
- The payloads `framesData` and `selectedFrame.data` are opaque values (`Json`); only whether a value is truthy is modelled.
- The `URL` constructor is not modelled; `ParseFigmaUrl` takes its outcome: none when it throws, otherwise the pathname and the raw `node-id` value.
- Number-to-text conversion and `parseFloat` are parameters, not JavaScript's algorithms.
- `Strings.Lower` lowers ASCII letters only; JavaScript's `toLowerCase` also lowers other scripts. The void-tag names it is compared with are ASCII.
- FrameIndex.FrameWalker.WalkNodes: the `if (!node) return;` guard (backend/src/services/figmaApi.ts:51) is not modelled, since a node in the model is never null or undefined.
- Absent `children` and `fills` are the empty sequence; the source reads both with `?? []` or `?.[0]`, so nothing differs.
- The frontend's `fragment`, `includeFonts`, `scale` and `minify` options are not read by the renderer, so they are not modelled.
- Leaves use their absolute `x`/`y`; the code has no coordinates relative to an ancestor, no image fills, no fonts, no fragment mode and no scaling wrapper, so neither does the model. Containers are `position:relative` with their size only, and the document shell is always emitted.
- Frames nested inside frames are listed too (backend/src/services/figmaApi.ts:67-69 walks a frame's children after pushing it).
- HtmlProperties.StylesReadBack and the tag-balance lemmas assume a formatter that prints numbers without `;`, `:`, `<`, `>`, `"` or `&`, as JavaScript's does, and node ids without `<`, `>` or `"`. Without these assumptions they do not hold.
- CodeBlock.Tokenize: `split` with a capturing group is written as a scan for `<` and then the first `>`. This is what the pattern `<[^>]*>` matches.
