/** The export rules of lib/export.tsx: the export bounds of an element,
    the padded bounds of the whole canvas, the SVG node each element turns
    into (without number formatting), the export drawing order and the JSON
    download. */
module Export {
  import opened Wrappers
  import opened Types
  import opened JsStrings
  import opened Sorting
  import opened CanvasStore
  import opened InfiniteCanvas

  const EXPORT_PADDING: real := 40.0
  const EMPTY_WIDTH: real := 800.0
  const EMPTY_HEIGHT: real := 600.0

  /** getElementBounds of the export file: only rectangle, ellipse and text
      are boxes; an image falls to the default case and has zero size at its
      anchor. `None` for a point variant without points. */
  function ExportBounds(e: Element): Option<Box> {
    match e.shape
    case RectangleShape(w, h) => Some(BoxBounds(e.x, e.y, w, h))
    case EllipseShape(w, h) => Some(BoxBounds(e.x, e.y, w, h))
    case TextShape(_, _, _, _, _, _, w, h) => Some(BoxBounds(e.x, e.y, w, h))
    case ArrowShape(pts, _, _) => PathBounds(e.x, e.y, pts)
    case FreedrawShape(pts) => PathBounds(e.x, e.y, pts)
    case ImageShape(_, _, _) => Some(Box(e.x, e.y, 0.0, 0.0))
  }

  /** The export bounds agree with the on-screen bounds except for images,
      which are zero-sized at their anchor; an image with a non-zero width
      is therefore wider on screen than in an export. */
  lemma {:induction false} ExportBoundsVsScreen(e: Element)
    ensures !e.shape.ImageShape? ==> ExportBounds(e) == ElementBounds(e)
    ensures e.shape.ImageShape? ==> ExportBounds(e) == Some(Box(e.x, e.y, 0.0, 0.0))
    ensures e.shape.ImageShape? && e.shape.width != 0.0 ==> ExportBounds(e).value.width < ElementBounds(e).value.width
  {
  }

  /** The result of getCanvasBounds. `Degenerate` stands for the
      NaN/infinite result a non-deleted arrow or freedraw element without
      points produces. */
  datatype CanvasExtent = Extent(minX: real, minY: real, maxX: real, maxY: real) | Degenerate

  ghost predicate Inside(b: Box, minX: real, minY: real, maxX: real, maxY: real) {
    minX <= b.x && minY <= b.y && b.x + b.width <= maxX && b.y + b.height <= maxY
  }

  /** The export bounds of each element, in order. */
  function BoundsList(es: seq<Element>): (bs: seq<Option<Box>>)
    ensures |bs| == |es| && forall i :: 0 <= i < |es| ==> bs[i] == ExportBounds(es[i])
  {
    seq(|es|, i requires 0 <= i < |es| => ExportBounds(es[i]))
  }

  /** Every box of `bs` is present and lies inside the extent shrunk by the
      padding, and each side of the shrunk extent is touched by one of them. */
  ghost predicate PaddedHull(r: CanvasExtent, bs: seq<Option<Box>>) {
    && r.Extent?
    && (forall i :: 0 <= i < |bs| ==>
          (bs[i].Some? && Inside(bs[i].value, r.minX + EXPORT_PADDING, r.minY + EXPORT_PADDING,
                                 r.maxX - EXPORT_PADDING, r.maxY - EXPORT_PADDING)))
    && (exists i :: 0 <= i < |bs| && bs[i].Some? && bs[i].value.x == r.minX + EXPORT_PADDING)
    && (exists i :: 0 <= i < |bs| && bs[i].Some? && bs[i].value.y == r.minY + EXPORT_PADDING)
    && (exists i :: 0 <= i < |bs| && bs[i].Some? && bs[i].value.x + bs[i].value.width == r.maxX - EXPORT_PADDING)
    && (exists i :: 0 <= i < |bs| && bs[i].Some? && bs[i].value.y + bs[i].value.height == r.maxY - EXPORT_PADDING)
  }

  /** The forEach of getCanvasBounds over the bounds of the non-deleted
      elements, padding included. */
  method Hull(bs: seq<Option<Box>>) returns (r: CanvasExtent)
    requires |bs| > 0
    ensures r.Degenerate? <==> exists i :: 0 <= i < |bs| && bs[i].None?
    ensures r.Extent? ==> PaddedHull(r, bs)
  {
    var broken, seen := false, false;
    var minX, minY, maxX, maxY := 0.0, 0.0, 0.0, 0.0;
    ghost var ix, iy, jx, jy := 0, 0, 0, 0;
    var i := 0;
    while i < |bs|
      invariant 0 <= i <= |bs|
      invariant broken <==> exists j :: 0 <= j < i && bs[j].None?
      invariant seen <==> exists j :: 0 <= j < i && bs[j].Some?
      invariant forall j :: 0 <= j < i && bs[j].Some? ==> Inside(bs[j].value, minX, minY, maxX, maxY)
      invariant seen ==> && 0 <= ix < i && bs[ix].Some? && bs[ix].value.x == minX
                         && 0 <= iy < i && bs[iy].Some? && bs[iy].value.y == minY
                         && 0 <= jx < i && bs[jx].Some? && bs[jx].value.x + bs[jx].value.width == maxX
                         && 0 <= jy < i && bs[jy].Some? && bs[jy].value.y + bs[jy].value.height == maxY
    {
      var b := bs[i];
      if b.None? {
        broken := true;
      } else if !seen {
        minX, minY := b.value.x, b.value.y;
        maxX, maxY := b.value.x + b.value.width, b.value.y + b.value.height;
        ix, iy, jx, jy := i, i, i, i;
        seen := true;
      } else {
        if b.value.x < minX { minX, ix := b.value.x, i; }
        if b.value.y < minY { minY, iy := b.value.y, i; }
        if b.value.x + b.value.width > maxX { maxX, jx := b.value.x + b.value.width, i; }
        if b.value.y + b.value.height > maxY { maxY, jy := b.value.y + b.value.height, i; }
      }
      i := i + 1;
    }
    if broken {
      return Degenerate;
    }
    assert bs[0].Some?;
    r := Extent(minX - EXPORT_PADDING, minY - EXPORT_PADDING, maxX + EXPORT_PADDING, maxY + EXPORT_PADDING);
    assert bs[ix].value.x == r.minX + EXPORT_PADDING;
    assert bs[iy].value.y == r.minY + EXPORT_PADDING;
    assert bs[jx].value.x + bs[jx].value.width == r.maxX - EXPORT_PADDING;
    assert bs[jy].value.y + bs[jy].value.height == r.maxY - EXPORT_PADDING;
  }

  /** getCanvasBounds over `Array.from(elements.values())`: 800 x 600 at the
      origin for an empty canvas, else the hull of the non-deleted elements'
      bounds padded by 40 on every side. */
  method GetCanvasBounds(vals: seq<Element>) returns (r: CanvasExtent)
    ensures |LiveOnly(vals)| == 0 ==> r == Extent(0.0, 0.0, EMPTY_WIDTH, EMPTY_HEIGHT)
    ensures var bs := BoundsList(LiveOnly(vals));
            |bs| > 0 ==> (r.Degenerate? <==> exists i :: 0 <= i < |bs| && bs[i].None?)
    ensures var bs := BoundsList(LiveOnly(vals));
            |bs| > 0 && r.Extent? ==> PaddedHull(r, bs)
  {
    var live := LiveOnly(vals);
    if |live| == 0 {
      return Extent(0.0, 0.0, EMPTY_WIDTH, EMPTY_HEIGHT);
    }
    r := Hull(BoundsList(live));
  }

  // ---------------------------------------------------------------------
  // SVG

  /** The SVG node of an element, its geometry relative to the export
      origin; stroke attributes and number formatting are not modelled. */
  datatype SvgNode =
    | SvgRect(x: real, y: real, width: real, height: real)
    | SvgEllipse(cx: real, cy: real, rx: real, ry: real)
    | SvgPath(points: seq<Point>, arrowhead: bool)
    | SvgText(x: real, y: real, text: string)

  function Translate(pts: seq<Point>, dx: real, dy: real): (r: seq<Point>)
    ensures |r| == |pts| && forall i :: 0 <= i < |pts| ==> r[i] == Point(pts[i].x + dx, pts[i].y + dy)
  {
    seq(|pts|, i requires 0 <= i < |pts| => Point(pts[i].x + dx, pts[i].y + dy))
  }

  /** elementToSVG as written; `None` is the empty string. A rectangle keeps
      its signed width and height. */
  function ElementToSvgAsWritten(e: Element, offX: real, offY: real): (r: Option<SvgNode>)
    ensures r.None? <==> e.shape.ImageShape? || (IsPath(e.shape) && |PointsOf(e.shape).value| < 2)
  {
    var x, y := e.x - offX, e.y - offY;
    match e.shape
    case RectangleShape(w, h) => Some(SvgRect(x, y, w, h))
    case EllipseShape(w, h) => Some(SvgEllipse(x + w / 2.0, y + h / 2.0, Abs(w / 2.0), Abs(h / 2.0)))
    case ArrowShape(pts, _, _) => if |pts| < 2 then None else Some(SvgPath(Translate(pts, x, y), true))
    case FreedrawShape(pts) => if |pts| < 2 then None else Some(SvgPath(Translate(pts, x, y), false))
    case TextShape(t, fs, _, _, _, _, _, _) => Some(SvgText(x, y + fs, t))
    case ImageShape(_, _, _) => None
  }

  /** A rectangle drawn leftwards is exported with a negative width, which
      SVG treats as an error (the rectangle is not rendered), while the
      ellipse case beside it takes absolute values. */
  lemma LeftwardRectangleAsWritten()
    ensures var e := Element("r", 100.0, 100.0, RectangleShape(-50.0, 30.0), "", "", 1.0, 1.0, 0, 0, 0, "", None);
            var n := ElementToSvgAsWritten(e, 0.0, 0.0);
            n.Some? && n.value.SvgRect? && n.value.width < 0.0
  {
  }

  /** elementToSVG with the rectangle normalised like the ellipse. */
  function ElementToSvg(e: Element, offX: real, offY: real): (r: Option<SvgNode>)
    ensures r.None? <==> e.shape.ImageShape? || (IsPath(e.shape) && |PointsOf(e.shape).value| < 2)
    ensures !e.shape.RectangleShape? ==> r == ElementToSvgAsWritten(e, offX, offY)
    ensures r.Some? && r.value.SvgRect? ==> r.value.width >= 0.0 && r.value.height >= 0.0
  {
    match e.shape
    case RectangleShape(w, h) =>
      var b := BoxBounds(e.x, e.y, w, h);
      Some(SvgRect(b.x - offX, b.y - offY, b.width, b.height))
    case _ => ElementToSvgAsWritten(e, offX, offY)
  }

  /** The corrected rectangle covers exactly the element's export bounds,
      shifted to the export origin, and agrees with the written one when
      drawn rightwards and downwards. */
  lemma {:induction false} RectangleExportCoversBounds(e: Element, offX: real, offY: real)
    requires e.shape.RectangleShape?
    ensures var n := ElementToSvg(e, offX, offY).value;
            var b := ExportBounds(e).value;
            n == SvgRect(b.x - offX, b.y - offY, b.width, b.height)
    ensures e.shape.width >= 0.0 && e.shape.height >= 0.0 ==>
            ElementToSvg(e, offX, offY) == ElementToSvgAsWritten(e, offX, offY)
  {
  }

  /** The nodes `svg += elementToSVG(...)` appends, in order, for a list
      of elements, as written: a leftward rectangle keeps its negative size. */
  function Fragments(es: seq<Element>, offX: real, offY: real): (r: seq<SvgNode>)
    ensures |r| <= |es|
  {
    if es == [] then []
    else
      var n := ElementToSvgAsWritten(es[0], offX, offY);
      (if n.Some? then [n.value] else []) + Fragments(es[1..], offX, offY)
  }

  function CreatedKey(e: Element): int {
    e.createdAt
  }

  /** The order every export draws in: the non-deleted elements by
      ascending createdAt (the screen uses zIndex). */
  function ExportOrder(vals: seq<Element>): (r: seq<Element>)
    ensures forall i, j :: 0 <= i < j < |r| ==> r[i].createdAt <= r[j].createdAt
    ensures multiset(r) == multiset(LiveOnly(vals))
    ensures forall i :: 0 <= i < |r| ==> Live(r[i])
  {
    var live := LiveOnly(vals);
    var r := SortBy(live, CreatedKey);
    assert forall i, j :: 0 <= i < j < |r| ==> CreatedKey(r[i]) <= CreatedKey(r[j]);
    forall i | 0 <= i < |r| ensures Live(r[i]) {
      assert r[i] in multiset(live);
    }
    r
  }

  /** Exports keep creation order among elements created at the same
      millisecond: for each createdAt value, the live elements with it
      appear in map order. */
  lemma {:induction false} ExportOrderStable(vals: seq<Element>, t: int)
    ensures WithKey(ExportOrder(vals), CreatedKey, t) == WithKey(LiveOnly(vals), CreatedKey, t)
  {
    SortByStable(LiveOnly(vals), CreatedKey, t);
  }

  /** Sorting two elements puts the smaller key first, keeping their order on a tie. */
  lemma SortTwo(a: Element, b: Element, key: Element -> int)
    ensures SortBy([a, b], key) == if key(a) <= key(b) then [a, b] else [b, a]
  {
    assert [a, b][1..] == [b];
    assert SortBy([b], key) == [b];
  }

  /** An element created earlier but brought to the front is drawn last on
      screen and first in an export. */
  lemma {:induction false} ExportOrderDiffersFromScreen(a: Element, b: Element)
    requires Live(a) && Live(b) && a.createdAt < b.createdAt && a.zIndex > b.zIndex
    ensures ExportOrder([a, b]) == [a, b]
    ensures RenderOrder([a, b]) == [b, a]
  {
    assert [a, b][1..] == [b];
    assert LiveOnly([a, b]) == [a, b];
    SortTwo(a, b, CreatedKey);
    SortTwo(a, b, ZKey);
  }

  lemma FragmentsStep(es: seq<Element>, i: nat, offX: real, offY: real)
    requires i < |es|
    ensures var n := ElementToSvgAsWritten(es[i], offX, offY);
            Fragments(es[i..], offX, offY) == (if n.Some? then [n.value] else []) + Fragments(es[i + 1..], offX, offY)
  {
    assert es[i..][1..] == es[i + 1..];
  }

  lemma AppendAssoc<T>(a: seq<T>, b: seq<T>, c: seq<T>)
    ensures a + (b + c) == (a + b) + c
  {
  }

  /** `svg += elementToSVG(...)` for each element of `es`. */
  method AppendFragments(es: seq<Element>, offX: real, offY: real) returns (nodes: seq<SvgNode>)
    ensures nodes == Fragments(es, offX, offY)
  {
    nodes := [];
    assert es[0..] == es;
    var i := 0;
    while i < |es|
      invariant 0 <= i <= |es|
      invariant nodes + Fragments(es[i..], offX, offY) == Fragments(es, offX, offY)
    {
      var n := ElementToSvgAsWritten(es[i], offX, offY);
      var piece := if n.Some? then [n.value] else [];
      FragmentsStep(es, i, offX, offY);
      AppendAssoc(nodes, piece, Fragments(es[i + 1..], offX, offY));
      nodes := nodes + piece;
      i := i + 1;
    }
  }

  /** The body of downloadSVG: the nodes of the elements in export order. */
  method SvgBody(vals: seq<Element>, offX: real, offY: real) returns (nodes: seq<SvgNode>)
    ensures nodes == Fragments(ExportOrder(vals), offX, offY)
  {
    nodes := AppendFragments(ExportOrder(vals), offX, offY);
  }

  /** Images and point lists with fewer than two points add nothing; every
      other element adds exactly one node. */
  lemma {:induction false} FragmentsCount(es: seq<Element>, offX: real, offY: real)
    ensures (forall i :: 0 <= i < |es| ==> ElementToSvgAsWritten(es[i], offX, offY).Some?) ==> |Fragments(es, offX, offY)| == |es|
    ensures (forall i :: 0 <= i < |es| ==> ElementToSvgAsWritten(es[i], offX, offY).None?) ==> Fragments(es, offX, offY) == []
  {
    if es != [] {
      FragmentsCount(es[1..], offX, offY);
      assert forall i :: 1 <= i < |es| ==> es[1..][i - 1] == es[i];
    }
  }

  // ---------------------------------------------------------------------
  // JSON

  /** The JSON payload of downloadJSON. */
  datatype JsonExport = JsonExport(version: string, canvasId: string, canvasName: string,
                                   exportedAt: int, elements: seq<Element>)

  function ExportJson(vals: seq<Element>, canvasId: string, canvasName: string, now: int): (r: JsonExport)
    ensures r.version == "1.0" && r.canvasId == canvasId && r.canvasName == canvasName && r.exportedAt == now
    ensures forall i :: 0 <= i < |r.elements| ==> Live(r.elements[i]) && r.elements[i] in vals
    ensures forall e :: e in vals && Live(e) ==> e in r.elements
  {
    JsonExport("1.0", canvasId, canvasName, now, LiveOnly(vals))
  }

  /** `s.replace(/\s+/g, "-")`: every maximal run of whitespace becomes one dash. */
  function DashWhitespaceRuns(s: string): (r: string)
    ensures |r| <= |s|
    ensures forall i :: 0 <= i < |r| ==> !IsJsWhitespace(r[i])
    ensures (forall i :: 0 <= i < |s| ==> !IsJsWhitespace(s[i])) ==> r == s
    decreases |s|
  {
    if s == [] then []
    else if IsJsWhitespace(s[0]) then
      var n := LeadingWs(s);
      var rest := DashWhitespaceRuns(s[n..]);
      assert n > 0;
      ['-'] + rest
    else
      var rest := DashWhitespaceRuns(s[1..]);
      assert forall i :: 1 <= i < |s| ==> s[1..][i - 1] == s[i];
      [s[0]] + rest
  }

  /** `LeadingWs` is the index of the first non-whitespace character. */
  lemma LeadingWsAt(s: string, n: nat)
    requires n <= |s| && (forall j :: 0 <= j < n ==> IsJsWhitespace(s[j]))
    requires n == |s| || !IsJsWhitespace(s[n])
    ensures LeadingWs(s) == n
  {
  }

  /** A non-empty run of whitespace alone becomes a single dash. */
  lemma DashOfRun(w: string)
    requires w != [] && forall j :: 0 <= j < |w| ==> IsJsWhitespace(w[j])
    ensures DashWhitespaceRuns(w) == "-"
  {
    LeadingWsAt(w, |w|);
    assert w[|w|..] == [];
  }

  /** The replacement works piece by piece: cut a string where one side of
      the cut is not whitespace (so no run is split) and the pieces are
      replaced independently. With `DashOfRun` and the identity on
      whitespace-free text this determines the result: each maximal run
      becomes one dash and every other character is kept in order. */
  lemma {:induction false} DashOfAppend(a: string, b: string)
    requires (a != [] && !IsJsWhitespace(a[|a| - 1])) || a == [] || b == [] || !IsJsWhitespace(b[0])
    ensures DashWhitespaceRuns(a + b) == DashWhitespaceRuns(a) + DashWhitespaceRuns(b)
    decreases |a|, 1
  {
    if a == [] {
      assert a + b == b;
    } else if !IsJsWhitespace(a[0]) {
      var t := a[1..];
      if t != [] {
        assert t[|t| - 1] == a[|a| - 1];
      }
      DashOfAppend(t, b);
      DashHeadStep(a, b);
    } else {
      DashOfAppendRun(a, b);
    }
  }

  /** The inductive step of `DashOfAppend` for a head that is copied. */
  lemma DashHeadStep(a: string, b: string)
    requires a != [] && !IsJsWhitespace(a[0])
    requires DashWhitespaceRuns(a[1..] + b) == DashWhitespaceRuns(a[1..]) + DashWhitespaceRuns(b)
    ensures DashWhitespaceRuns(a + b) == DashWhitespaceRuns(a) + DashWhitespaceRuns(b)
  {
    DashCons(a, b);
  }

  /** A first character that is not whitespace is copied, also when
      something is appended. */
  lemma DashCons(a: string, b: string)
    requires a != [] && !IsJsWhitespace(a[0])
    ensures DashWhitespaceRuns(a) == [a[0]] + DashWhitespaceRuns(a[1..])
    ensures DashWhitespaceRuns(a + b) == [a[0]] + DashWhitespaceRuns(a[1..] + b)
  {
    assert (a + b)[0] == a[0] && (a + b)[1..] == a[1..] + b;
  }

  /** `DashOfAppend` when `a` starts with whitespace: the leading run of
      `a + b` is that of `a` unless all of `a` is whitespace, and then it
      stops where `b` starts. */
  lemma {:induction false} DashOfAppendRun(a: string, b: string)
    requires a != [] && IsJsWhitespace(a[0])
    requires !IsJsWhitespace(a[|a| - 1]) || b == [] || !IsJsWhitespace(b[0])
    ensures DashWhitespaceRuns(a + b) == DashWhitespaceRuns(a) + DashWhitespaceRuns(b)
    decreases |a|, 0
  {
    var n := LeadingWs(a);
    if n < |a| {
      var t := a[n..];
      assert t[|t| - 1] == a[|a| - 1];
      DashOfAppend(t, b);
      DashRunHead(a, b, n);
    } else if b == [] {
      assert a + b == a;
    } else {
      DashRunWhole(a, b);
    }
  }

  /** A leading run of whitespace that ends inside `a` becomes one dash,
      also when something is appended. */
  lemma DashRunHead(a: string, b: string, n: nat)
    requires a != [] && IsJsWhitespace(a[0]) && n == LeadingWs(a) && n < |a|
    ensures DashWhitespaceRuns(a) == ['-'] + DashWhitespaceRuns(a[n..])
    ensures DashWhitespaceRuns(a + b) == ['-'] + DashWhitespaceRuns(a[n..] + b)
  {
    LeadingWsAt(a + b, n);
    assert (a + b)[n..] == a[n..] + b;
  }

  /** A string that is one whitespace run becomes one dash, and what
      follows it, if it starts with no whitespace, is replaced on its own. */
  lemma DashRunWhole(a: string, b: string)
    requires a != [] && IsJsWhitespace(a[0]) && LeadingWs(a) == |a|
    requires b != [] && !IsJsWhitespace(b[0])
    ensures DashWhitespaceRuns(a) == "-"
    ensures DashWhitespaceRuns(a + b) == ['-'] + DashWhitespaceRuns(b)
  {
    LeadingWsAt(a + b, |a|);
    assert (a + b)[|a|..] == b;
    assert a[|a|..] == [];
  }

  /** The JSON download file name. */
  function JsonFilename(canvasName: string, canvasId: string): string {
    "nostrdraw-" + ToLower(DashWhitespaceRuns(canvasName)) + "-" + Slice(canvasId, 0, 8) + ".json"
  }

  /** The file name starts with "nostrdraw-" and ends with ".json"; the
      part taken from the canvas name has no whitespace and no upper-case
      ASCII letter, and the id part is the first eight characters of the
      id (all of a shorter one). */
  lemma {:induction false} FilenameShape(canvasName: string, canvasId: string)
    ensures var f := JsonFilename(canvasName, canvasId);
            var idPart := if |canvasId| <= 8 then canvasId else canvasId[..8];
            var part := f[10..|f| - 6 - |idPart|];
            && StartsWith(f, "nostrdraw-") && f[|f| - 5..] == ".json"
            && f[|f| - 6 - |idPart|..|f| - 5] == "-" + idPart
            && (forall i :: 0 <= i < |part| ==> !IsJsWhitespace(part[i]) && !('A' <= part[i] <= 'Z'))
  {
    var f := JsonFilename(canvasName, canvasId);
    var d := DashWhitespaceRuns(canvasName);
    var part := ToLower(d);
    var idPart := if |canvasId| <= 8 then canvasId else canvasId[..8];
    assert Slice(canvasId, 0, 8) == idPart;
    assert f == "nostrdraw-" + part + ("-" + idPart) + ".json";
    FourParts("nostrdraw-", part, "-" + idPart, ".json");
    forall i | 0 <= i < |part| ensures !IsJsWhitespace(part[i]) && !('A' <= part[i] <= 'Z') {
      assert part[i] == LowerChar(d[i]);
    }
  }

  /** The four pieces of a concatenation can be cut back out of it. */
  lemma FourParts(p: string, q: string, m: string, e: string)
    ensures var f := p + q + m + e;
            && StartsWith(f, p) && f[|p|..|f| - |m| - |e|] == q
            && f[|f| - |m| - |e|..|f| - |e|] == m && f[|f| - |e|..] == e
  {
    var f := p + q + m + e;
    assert f[..|p|] == p;
  }

  /** Names that differ only in the whitespace between two words (its
      kind or its length) download under the same file name. */
  lemma {:induction false} FilenameIgnoresSpacing(x: string, w1: string, w2: string, y: string, canvasId: string)
    requires x == [] || !IsJsWhitespace(x[|x| - 1])
    requires y == [] || !IsJsWhitespace(y[0])
    requires w1 != [] && forall j :: 0 <= j < |w1| ==> IsJsWhitespace(w1[j])
    requires w2 != [] && forall j :: 0 <= j < |w2| ==> IsJsWhitespace(w2[j])
    ensures JsonFilename(x + w1 + y, canvasId) == JsonFilename(x + w2 + y, canvasId)
  {
    assert x + w1 + y == x + (w1 + y);
    assert x + w2 + y == x + (w2 + y);
    DashOfAppend(x, w1 + y);
    DashOfAppend(x, w2 + y);
    DashOfAppend(w1, y);
    DashOfAppend(w2, y);
    DashOfRun(w1);
    DashOfRun(w2);
  }

  /** The exported file holds exactly the non-deleted elements of the store. */
  lemma {:induction false} JsonHoldsLiveElements(m: ElementMap, vals: seq<Element>, id: string, name: string, now: int)
    requires Enumerates(m, vals)
    ensures forall k :: k in m ==> (m[k] in ExportJson(vals, id, name, now).elements <==> Live(m[k]))
    ensures forall e :: e in ExportJson(vals, id, name, now).elements ==> e.id in m && m[e.id] == e
  {
    forall k | k in m && Live(m[k]) ensures m[k] in ExportJson(vals, id, name, now).elements {
      assert k in IdsOf(vals);
      var i :| 0 <= i < |vals| && vals[i].id == k;
      assert vals[i] == m[k];
    }
  }
}
