/**
 * The frame listing of a design file (`extractFrames` in
 * backend/src/services/figmaApi.ts): one depth-first walk over the pages that
 * pushes an entry for every FRAME or COMPONENT node, tagged with the name of
 * the page it lies on.
 *
 * `FramesOf` is the specification of the walk; `FrameWalker` is the walk
 * itself, pushing into its `frames` field as the source pushes into its local
 * array.
 */
module FrameIndex {
  import opened Wrappers
  import opened Figma

  predicate IsFrameKind(kind: string) {
    kind == "FRAME" || kind == "COMPONENT"
  }

  /** The entry pushed for a frame node: its id and name, the page, and its box's size. */
  function Entry(n: Node, page: string): (e: FrameEntry)
    ensures e.id == n.id && e.name == n.name && e.page == page && e.previewUrl.None?
    ensures n.box.None? ==> e.width.None? && e.height.None?
    ensures n.box.Some? ==> e.width == n.box.value.width && e.height == n.box.value.height
  {
    FrameEntry(n.id, n.name, page,
      if n.box.Some? then n.box.value.width else None,
      if n.box.Some? then n.box.value.height else None,
      None)
  }

  // ---------------------------------------------------------------- specification

  /** What `walkNodes(n, page)` pushes, in order: a CANVAS renames the page for its subtree. */
  function FramesOf(n: Node, page: string): seq<FrameEntry>
    decreases n
  {
    if n.kind == "CANVAS" then FramesOfAll(n.children, n.name)
    else if IsFrameKind(n.kind) then [Entry(n, page)] + FramesOfAll(n.children, page)
    else FramesOfAll(n.children, page)
  }

  function FramesOfAll(cs: seq<Node>, page: string): seq<FrameEntry>
    decreases cs
  {
    if cs == [] then [] else FramesOf(cs[0], page) + FramesOfAll(cs[1..], page)
  }

  /** The top-level nodes of the file; a missing document or child list is empty. */
  function Pages(file: FigmaFile): seq<Node> {
    if file.document.Some? && file.document.value.children.Some? then file.document.value.children.value
    else []
  }

  /** Each page walked under its own name, in order. */
  function PagesFrames(pages: seq<Node>): seq<FrameEntry> {
    if pages == [] then [] else FramesOf(pages[0], pages[0].name) + PagesFrames(pages[1..])
  }

  function FileFrames(file: FigmaFile): seq<FrameEntry> {
    PagesFrames(Pages(file))
  }

  lemma {:induction false} FramesOfAllAppend(a: seq<Node>, b: seq<Node>, page: string)
    ensures FramesOfAll(a + b, page) == FramesOfAll(a, page) + FramesOfAll(b, page)
  {
    if a == [] {
      assert a + b == b;
    } else {
      assert (a + b)[1..] == a[1..] + b;
      FramesOfAllAppend(a[1..], b, page);
    }
  }

  lemma {:induction false} PagesFramesAppend(a: seq<Node>, b: seq<Node>)
    ensures PagesFrames(a + b) == PagesFrames(a) + PagesFrames(b)
  {
    if a == [] {
      assert a + b == b;
    } else {
      assert (a + b)[1..] == a[1..] + b;
      PagesFramesAppend(a[1..], b);
    }
  }

  // ---------------------------------------------------------------- the walk

  class FrameWalker {
    /** The entries pushed so far. */
    var frames: seq<FrameEntry>

    constructor()
      ensures frames == []
    {
      frames := [];
    }

    /** `walkNodes(node, pageName)`. */
    method WalkNodes(n: Node, page: string)
      modifies this
      ensures frames == old(frames) + FramesOf(n, page)
      decreases n
    {
      var current := page;
      if n.kind == "CANVAS" {
        current := n.name;
      } else if IsFrameKind(n.kind) {
        frames := frames + [Entry(n, page)];
      }
      ghost var before := frames;
      var i := 0;
      while i < |n.children|
        invariant 0 <= i <= |n.children|
        invariant frames == before + FramesOfAll(n.children[..i], current)
      {
        FramesOfAllAppend(n.children[..i], [n.children[i]], current);
        assert n.children[..i + 1] == n.children[..i] + [n.children[i]];
        WalkNodes(n.children[i], current);
        i := i + 1;
      }
      assert n.children[..i] == n.children;
    }
  }

  /** `extractFrames(file)`: every page walked under its own name. */
  method ExtractFrames(file: FigmaFile) returns (frames: seq<FrameEntry>)
    ensures frames == FileFrames(file)
  {
    var walker := new FrameWalker();
    var pages := Pages(file);
    var i := 0;
    while i < |pages|
      invariant 0 <= i <= |pages|
      invariant walker.frames == PagesFrames(pages[..i])
    {
      PagesFramesAppend(pages[..i], [pages[i]]);
      assert pages[..i + 1] == pages[..i] + [pages[i]];
      walker.WalkNodes(pages[i], pages[i].name);
      i := i + 1;
    }
    assert pages[..i] == pages;
    frames := walker.frames;
  }

  // ---------------------------------------------------------------- properties

  /** Every node of a tree in depth-first pre-order: a node, then each child's subtree in order. */
  function PreOrder(n: Node): seq<Node>
    decreases n
  {
    [n] + PreOrderAll(n.children)
  }

  function PreOrderAll(cs: seq<Node>): seq<Node>
    decreases cs
  {
    if cs == [] then [] else PreOrder(cs[0]) + PreOrderAll(cs[1..])
  }

  /** The FRAME and COMPONENT nodes of a list, in order. */
  function FrameNodes(ns: seq<Node>): (r: seq<Node>)
    ensures |r| <= |ns|
    ensures forall k :: 0 <= k < |r| ==> IsFrameKind(r[k].kind)
  {
    if ns == [] then [] else (if IsFrameKind(ns[0].kind) then [ns[0]] else []) + FrameNodes(ns[1..])
  }

  lemma {:induction false} FrameNodesAppend(a: seq<Node>, b: seq<Node>)
    ensures FrameNodes(a + b) == FrameNodes(a) + FrameNodes(b)
  {
    if a == [] {
      assert a + b == b;
    } else {
      assert (a + b)[1..] == a[1..] + b;
      FrameNodesAppend(a[1..], b);
    }
  }

  /** `es` lists one entry for each node of `ns`, in the same order, each with some page. */
  predicate EntriesOf(es: seq<FrameEntry>, ns: seq<Node>) {
    |es| == |ns| && forall k :: 0 <= k < |es| ==> es[k] == Entry(ns[k], es[k].page)
  }

  lemma EntriesOfAppend(e1: seq<FrameEntry>, n1: seq<Node>, e2: seq<FrameEntry>, n2: seq<Node>)
    requires EntriesOf(e1, n1) && EntriesOf(e2, n2)
    ensures EntriesOf(e1 + e2, n1 + n2)
  {
    forall k | 0 <= k < |e1 + e2|
      ensures (e1 + e2)[k] == Entry((n1 + n2)[k], (e1 + e2)[k].page)
    {
      if k >= |e1| {
        assert (e1 + e2)[k] == e2[k - |e1|] && (n1 + n2)[k] == n2[k - |n1|];
      }
    }
  }

  /**
   * The walk lists exactly the FRAME and COMPONENT nodes of the tree, nested
   * ones included, in depth-first pre-order: one entry per such node, carrying
   * its id, name and size.
   */
  lemma {:induction false} FramesArePreOrderFrames(n: Node, page: string)
    ensures EntriesOf(FramesOf(n, page), FrameNodes(PreOrder(n)))
    decreases n
  {
    var current := if n.kind == "CANVAS" then n.name else page;
    FramesArePreOrderFramesAll(n.children, current);
    FrameNodesAppend([n], PreOrderAll(n.children));
    if IsFrameKind(n.kind) {
      EntriesOfAppend([Entry(n, page)], [n], FramesOfAll(n.children, page), FrameNodes(PreOrderAll(n.children)));
    } else {
      assert FrameNodes([n]) == [];
      assert FrameNodes(PreOrder(n)) == FrameNodes(PreOrderAll(n.children));
    }
  }

  lemma {:induction false} FramesArePreOrderFramesAll(cs: seq<Node>, page: string)
    ensures EntriesOf(FramesOfAll(cs, page), FrameNodes(PreOrderAll(cs)))
    decreases cs
  {
    if cs != [] {
      FramesArePreOrderFrames(cs[0], page);
      FramesArePreOrderFramesAll(cs[1..], page);
      FrameNodesAppend(PreOrder(cs[0]), PreOrderAll(cs[1..]));
      EntriesOfAppend(FramesOf(cs[0], page), FrameNodes(PreOrder(cs[0])),
                      FramesOfAll(cs[1..], page), FrameNodes(PreOrderAll(cs[1..])));
    }
  }

  lemma {:induction false} PagesFramesArePreOrderFrames(pages: seq<Node>)
    ensures EntriesOf(PagesFrames(pages), FrameNodes(PreOrderAll(pages)))
  {
    if pages != [] {
      FramesArePreOrderFrames(pages[0], pages[0].name);
      PagesFramesArePreOrderFrames(pages[1..]);
      FrameNodesAppend(PreOrder(pages[0]), PreOrderAll(pages[1..]));
      EntriesOfAppend(FramesOf(pages[0], pages[0].name), FrameNodes(PreOrder(pages[0])),
                      PagesFrames(pages[1..]), FrameNodes(PreOrderAll(pages[1..])));
    }
  }

  /** The listing of a file has one entry per FRAME or COMPONENT node under its pages, in pre-order. */
  lemma FileFramesArePreOrderFrames(file: FigmaFile)
    ensures |FileFrames(file)| == |FrameNodes(PreOrderAll(Pages(file)))|
    ensures forall k :: 0 <= k < |FileFrames(file)| ==>
      var e, m := FileFrames(file)[k], FrameNodes(PreOrderAll(Pages(file)))[k];
      e.id == m.id && e.name == m.name && IsFrameKind(m.kind) && e == Entry(m, e.page)
  {
    PagesFramesArePreOrderFrames(Pages(file));
  }

  /** A missing document, a missing child list and an empty one all list nothing. */
  lemma EmptyDocument(lastModified: string)
    ensures FileFrames(FigmaFile(None, lastModified)) == []
    ensures FileFrames(FigmaFile(Some(Document(None)), lastModified)) == []
    ensures FileFrames(FigmaFile(Some(Document(Some([]))), lastModified)) == []
  {
  }

  /** No CANVAS node anywhere in the tree. */
  predicate NoCanvas(n: Node)
    decreases n
  {
    n.kind != "CANVAS" && forall k :: 0 <= k < |n.children| ==> NoCanvas(n.children[k])
  }

  /** Without a CANVAS inside, every entry carries the page the walk started with. */
  lemma {:induction false} NoCanvasKeepsPage(n: Node, page: string)
    requires NoCanvas(n)
    ensures forall k :: 0 <= k < |FramesOf(n, page)| ==> FramesOf(n, page)[k].page == page
    decreases n
  {
    NoCanvasKeepsPageAll(n.children, page);
  }

  lemma {:induction false} NoCanvasKeepsPageAll(cs: seq<Node>, page: string)
    requires forall k :: 0 <= k < |cs| ==> NoCanvas(cs[k])
    ensures forall k :: 0 <= k < |FramesOfAll(cs, page)| ==> FramesOfAll(cs, page)[k].page == page
    decreases cs
  {
    if cs != [] {
      NoCanvasKeepsPage(cs[0], page);
      NoCanvasKeepsPageAll(cs[1..], page);
    }
  }

  // ---------------------------------------------------------------- pages

  /**
   * Every node of a tree in pre-order, paired with the page it lies on: the
   * name of the nearest CANVAS above it, or `page` when there is none.
   */
  function Paged(n: Node, page: string): seq<(Node, string)>
    decreases n
  {
    [(n, page)] + PagedAll(n.children, if n.kind == "CANVAS" then n.name else page)
  }

  function PagedAll(cs: seq<Node>, page: string): seq<(Node, string)>
    decreases cs
  {
    if cs == [] then [] else Paged(cs[0], page) + PagedAll(cs[1..], page)
  }

  /** The pages of a file in order, each with its nodes, starting from the page's own name. */
  function PagesPaged(pages: seq<Node>): seq<(Node, string)> {
    if pages == [] then [] else Paged(pages[0], pages[0].name) + PagesPaged(pages[1..])
  }

  /** The entries made from the FRAME and COMPONENT nodes of a paged listing, in order. */
  function FrameEntries(ps: seq<(Node, string)>): (r: seq<FrameEntry>)
    ensures |r| <= |ps|
  {
    if ps == [] then []
    else (if IsFrameKind(ps[0].0.kind) then [Entry(ps[0].0, ps[0].1)] else []) + FrameEntries(ps[1..])
  }

  lemma {:induction false} FrameEntriesAppend(a: seq<(Node, string)>, b: seq<(Node, string)>)
    ensures FrameEntries(a + b) == FrameEntries(a) + FrameEntries(b)
  {
    if a == [] {
      assert a + b == b;
    } else {
      assert (a + b)[1..] == a[1..] + b;
      FrameEntriesAppend(a[1..], b);
    }
  }

  /** The nodes of a paged listing. */
  function NodesOf(ps: seq<(Node, string)>): (r: seq<Node>)
    ensures |r| == |ps| && forall k :: 0 <= k < |ps| ==> r[k] == ps[k].0
  {
    if ps == [] then [] else [ps[0].0] + NodesOf(ps[1..])
  }

  lemma {:induction false} NodesOfAppend(a: seq<(Node, string)>, b: seq<(Node, string)>)
    ensures NodesOf(a + b) == NodesOf(a) + NodesOf(b)
  {
    if a == [] {
      assert a + b == b;
    } else {
      assert (a + b)[1..] == a[1..] + b;
      NodesOfAppend(a[1..], b);
    }
  }

  /** The paged listing lists the tree in pre-order. */
  lemma {:induction false} PagedIsPreOrder(n: Node, page: string)
    ensures NodesOf(Paged(n, page)) == PreOrder(n)
    decreases n
  {
    var current := if n.kind == "CANVAS" then n.name else page;
    PagedIsPreOrderAll(n.children, current);
    NodesOfAppend([(n, page)], PagedAll(n.children, current));
  }

  lemma {:induction false} PagedIsPreOrderAll(cs: seq<Node>, page: string)
    ensures NodesOf(PagedAll(cs, page)) == PreOrderAll(cs)
    decreases cs
  {
    if cs != [] {
      PagedIsPreOrder(cs[0], page);
      PagedIsPreOrderAll(cs[1..], page);
      NodesOfAppend(Paged(cs[0], page), PagedAll(cs[1..], page));
    }
  }

  /**
   * The walk pushes exactly one entry per FRAME or COMPONENT node, in
   * pre-order, each tagged with the name of the nearest CANVAS above the
   * node or else the page the walk started from.
   */
  lemma {:induction false} FramesArePaged(n: Node, page: string)
    ensures FramesOf(n, page) == FrameEntries(Paged(n, page))
    decreases n
  {
    var current := if n.kind == "CANVAS" then n.name else page;
    FramesArePagedAll(n.children, current);
    FrameEntriesAppend([(n, page)], PagedAll(n.children, current));
    assert [(n, page)][1..] == [];
  }

  lemma {:induction false} FramesArePagedAll(cs: seq<Node>, page: string)
    ensures FramesOfAll(cs, page) == FrameEntries(PagedAll(cs, page))
    decreases cs
  {
    if cs != [] {
      FramesArePaged(cs[0], page);
      FramesArePagedAll(cs[1..], page);
      FrameEntriesAppend(Paged(cs[0], page), PagedAll(cs[1..], page));
    }
  }

  /**
   * The listing of a file: the entries of the FRAME and COMPONENT nodes under
   * its pages, in pre-order, each tagged with the nearest CANVAS above it or
   * else the name of the top-level node it lies under.
   */
  lemma {:induction false} FileFramesArePaged(file: FigmaFile)
    ensures FileFrames(file) == FrameEntries(PagesPaged(Pages(file)))
  {
    var pages := Pages(file);
    var i := |pages|;
    while i > 0
      invariant 0 <= i <= |pages|
      invariant PagesFrames(pages[i..]) == FrameEntries(PagesPaged(pages[i..]))
    {
      i := i - 1;
      assert pages[i..][1..] == pages[i + 1..];
      FramesArePaged(pages[i], pages[i].name);
      FrameEntriesAppend(Paged(pages[i], pages[i].name), PagesPaged(pages[i + 1..]));
    }
    assert pages[0..] == pages;
  }

  /** The names of the CANVAS nodes of a list. */
  function CanvasNames(ns: seq<Node>): set<string> {
    set k | 0 <= k < |ns| && ns[k].kind == "CANVAS" :: ns[k].name
  }

  lemma CanvasNamesAppend(a: seq<Node>, b: seq<Node>)
    ensures CanvasNames(a + b) == CanvasNames(a) + CanvasNames(b)
  {
    var ab := a + b;
    forall x | x in CanvasNames(a + b)
      ensures x in CanvasNames(a) + CanvasNames(b)
    {
      var k :| 0 <= k < |ab| && ab[k].kind == "CANVAS" && ab[k].name == x;
      if k < |a| {
        assert ab[k] == a[k];
      } else {
        assert ab[k] == b[k - |a|];
      }
    }
    forall x | x in CanvasNames(a) + CanvasNames(b)
      ensures x in CanvasNames(a + b)
    {
      if x in CanvasNames(a) {
        var k :| 0 <= k < |a| && a[k].kind == "CANVAS" && a[k].name == x;
        assert ab[k] == a[k];
      } else {
        var k :| 0 <= k < |b| && b[k].kind == "CANVAS" && b[k].name == x;
        assert ab[|a| + k] == b[k];
      }
    }
  }

  /** Every entry of a walk carries the page it started with or the name of a CANVAS of the tree. */
  lemma {:induction false} PageFromCanvas(n: Node, page: string)
    ensures forall k :: 0 <= k < |FramesOf(n, page)| ==>
      FramesOf(n, page)[k].page == page || FramesOf(n, page)[k].page in CanvasNames(PreOrder(n))
    decreases n
  {
    var current := if n.kind == "CANVAS" then n.name else page;
    PageFromCanvasAll(n.children, current);
    CanvasNamesAppend([n], PreOrderAll(n.children));
    if n.kind == "CANVAS" {
      assert n.name in CanvasNames([n]) by { assert [n][0] == n; }
    }
  }

  lemma {:induction false} PageFromCanvasAll(cs: seq<Node>, page: string)
    ensures forall k :: 0 <= k < |FramesOfAll(cs, page)| ==>
      FramesOfAll(cs, page)[k].page == page || FramesOfAll(cs, page)[k].page in CanvasNames(PreOrderAll(cs))
    decreases cs
  {
    if cs != [] {
      PageFromCanvas(cs[0], page);
      PageFromCanvasAll(cs[1..], page);
      CanvasNamesAppend(PreOrder(cs[0]), PreOrderAll(cs[1..]));
      var a: seq<FrameEntry>, b: seq<FrameEntry> := FramesOf(cs[0], page), FramesOfAll(cs[1..], page);
      forall k | 0 <= k < |a + b|
        ensures (a + b)[k].page == page || (a + b)[k].page in CanvasNames(PreOrderAll(cs))
      {
        if k >= |a| {
          assert (a + b)[k] == b[k - |a|];
        }
      }
    }
  }

  /**
   * A CANVAS names the page of the frames below it: whatever page the walk
   * reaches it with, each entry beneath carries the CANVAS's own name, or the
   * name of a CANVAS further down.
   */
  lemma CanvasNamesPage(n: Node, page: string)
    requires n.kind == "CANVAS"
    ensures forall k :: 0 <= k < |FramesOf(n, page)| ==>
      FramesOf(n, page)[k].page == n.name || FramesOf(n, page)[k].page in CanvasNames(PreOrderAll(n.children))
  {
    PageFromCanvasAll(n.children, n.name);
  }

  /** With no further CANVAS below it, a CANVAS's name is the page of every entry beneath it. */
  lemma OnlyCanvasNamesPage(n: Node, page: string)
    requires n.kind == "CANVAS"
    requires forall k :: 0 <= k < |n.children| ==> NoCanvas(n.children[k])
    ensures forall k :: 0 <= k < |FramesOf(n, page)| ==> FramesOf(n, page)[k].page == n.name
  {
    NoCanvasKeepsPageAll(n.children, n.name);
  }
}
