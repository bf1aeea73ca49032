/** The pure geometry and the state-changing pointer rules of the canvas
    component (components/canvas/infinite-canvas.tsx): element bounds, hit
    testing, resize handles, click and box selection, resizing, gesture
    validity and commit, the cursor broadcast throttle, stale cursors,
    finishing inline text, the eraser and dragging a selection. Pixel
    output is not modelled. */
module InfiniteCanvas {
  import opened Wrappers
  import opened Types
  import opened JsStrings
  import opened Sorting
  import opened CanvasStore

  const HIT_PADDING: real := 5.0
  const HANDLE_SIZE: real := 8.0
  const MIN_RESIZE: real := 1.0
  const MIN_GESTURE: real := 5.0
  const CURSOR_BROADCAST_INTERVAL: int := 100
  const CURSOR_STALE_AFTER: int := 5000
  const LASER_DURATION: int := 2000

  /** `{x, y, width, height}` */
  datatype Box = Box(x: real, y: real, width: real, height: real)

  function Min(a: real, b: real): real { if a <= b then a else b }
  function Max(a: real, b: real): real { if a >= b then a else b }
  function Abs(a: real): real { if a < 0.0 then -a else a }

  /** `Math.min(...s)` of a non-empty list. */
  function MinOf(s: seq<real>): (m: real)
    requires |s| > 0
    ensures m in s
    ensures forall i :: 0 <= i < |s| ==> m <= s[i]
  {
    if |s| == 1 then s[0] else Min(s[0], MinOf(s[1..]))
  }

  /** `Math.max(...s)` of a non-empty list. */
  function MaxOf(s: seq<real>): (m: real)
    requires |s| > 0
    ensures m in s
    ensures forall i :: 0 <= i < |s| ==> s[i] <= m
  {
    if |s| == 1 then s[0] else Max(s[0], MaxOf(s[1..]))
  }

  /** `[lo, lo + len]` is exactly the range of `vs`: every value lies in it
      and both ends are taken by some value. */
  ghost predicate Spans(lo: real, len: real, vs: seq<real>) {
    && (forall i :: 0 <= i < |vs| ==> lo <= vs[i] <= lo + len)
    && lo in vs && lo + len in vs
  }

  /** The absolute x coordinates of a point list anchored at `anchor`. */
  function AbsXs(anchor: real, pts: seq<Point>): (xs: seq<real>)
    ensures |xs| == |pts| && forall i :: 0 <= i < |pts| ==> xs[i] == anchor + pts[i].x
  {
    seq(|pts|, i requires 0 <= i < |pts| => anchor + pts[i].x)
  }

  function AbsYs(anchor: real, pts: seq<Point>): (ys: seq<real>)
    ensures |ys| == |pts| && forall i :: 0 <= i < |pts| ==> ys[i] == anchor + pts[i].y
  {
    seq(|pts|, i requires 0 <= i < |pts| => anchor + pts[i].y)
  }

  /** The bounds of a box variant: a negative extent is normalised. */
  function BoxBounds(x: real, y: real, w: real, h: real): (b: Box)
    ensures b.width >= 0.0 && b.height >= 0.0
    ensures Spans(b.x, b.width, [x, x + w]) && Spans(b.y, b.height, [y, y + h])
  {
    Box(Min(x, x + w), Min(y, y + h), Abs(w), Abs(h))
  }

  /** The bounds of a point variant; `None` for an empty point list, where
      Math.min() is Infinity and no point or rectangle ever meets the box. */
  function PathBounds(ax: real, ay: real, pts: seq<Point>): (r: Option<Box>)
    ensures r.Some? <==> |pts| > 0
    ensures r.Some? ==> r.value.width >= 0.0 && r.value.height >= 0.0
    ensures r.Some? ==> Spans(r.value.x, r.value.width, AbsXs(ax, pts))
                        && Spans(r.value.y, r.value.height, AbsYs(ay, pts))
  {
    if |pts| == 0 then None
    else
      var xs := AbsXs(ax, pts);
      var ys := AbsYs(ay, pts);
      Some(Box(MinOf(xs), MinOf(ys), MaxOf(xs) - MinOf(xs), MaxOf(ys) - MinOf(ys)))
  }

  /** getElementBounds: the smallest box holding the element's corners or
      points; its width and height are never negative. */
  function ElementBounds(e: Element): (r: Option<Box>)
    ensures r.Some? ==> r.value.width >= 0.0 && r.value.height >= 0.0
    ensures IsBox(e.shape) ==> && r.Some?
                               && Spans(r.value.x, r.value.width, [e.x, e.x + WidthOf(e.shape).value])
                               && Spans(r.value.y, r.value.height, [e.y, e.y + HeightOf(e.shape).value])
    ensures IsPath(e.shape) ==> (r.Some? <==> |PointsOf(e.shape).value| > 0)
    ensures IsPath(e.shape) && r.Some? ==>
      && Spans(r.value.x, r.value.width, AbsXs(e.x, PointsOf(e.shape).value))
      && Spans(r.value.y, r.value.height, AbsYs(e.y, PointsOf(e.shape).value))
  {
    if IsBox(e.shape) then Some(BoxBounds(e.x, e.y, e.shape.width, e.shape.height))
    else PathBounds(e.x, e.y, e.shape.points)
  }

  /** `p` lies in `b` grown by `pad` on every side, edges included. */
  predicate NearBox(p: Point, b: Box, pad: real) {
    b.x - pad <= p.x <= b.x + b.width + pad && b.y - pad <= p.y <= b.y + b.height + pad
  }

  /** isPointInElement */
  predicate PointInElement(p: Point, e: Element) {
    ElementBounds(e).Some? && NearBox(p, ElementBounds(e).value, HIT_PADDING)
  }

  /** `q` lies inside the element's bounds. */
  ghost predicate Covers(e: Element, q: Point) {
    ElementBounds(e).Some? && NearBox(q, ElementBounds(e).value, 0.0)
  }

  /** A hit is exactly a point within 5 units (on each axis) of the bounds. */
  lemma {:induction false} HitIsPaddedBounds(p: Point, e: Element)
    ensures PointInElement(p, e) <==>
            exists q :: Covers(e, q) && Abs(p.x - q.x) <= HIT_PADDING && Abs(p.y - q.y) <= HIT_PADDING
  {
    if ElementBounds(e).Some? {
      NearPaddedBox(p, ElementBounds(e).value);
    }
  }

  /** Growing a box by the padding admits exactly the points within the
      padding of some point of the box. */
  lemma NearPaddedBox(p: Point, b: Box)
    requires b.width >= 0.0 && b.height >= 0.0
    ensures NearBox(p, b, HIT_PADDING) <==>
            exists q :: NearBox(q, b, 0.0) && Abs(p.x - q.x) <= HIT_PADDING && Abs(p.y - q.y) <= HIT_PADDING
  {
    if NearBox(p, b, HIT_PADDING) {
      var q := Point(Max(b.x, Min(p.x, b.x + b.width)), Max(b.y, Min(p.y, b.y + b.height)));
      assert NearBox(q, b, 0.0) && Abs(p.x - q.x) <= HIT_PADDING && Abs(p.y - q.y) <= HIT_PADDING;
    }
  }

  /** Every vertex of a point variant, and both corners of a box variant,
      is a hit. */
  lemma {:induction false} VerticesAreHits(e: Element)
    ensures IsPath(e.shape) ==> forall i :: 0 <= i < |PointsOf(e.shape).value| ==>
      PointInElement(Point(e.x + PointsOf(e.shape).value[i].x, e.y + PointsOf(e.shape).value[i].y), e)
    ensures IsBox(e.shape) ==> PointInElement(Point(e.x, e.y), e)
    ensures IsBox(e.shape) ==> PointInElement(Point(e.x + WidthOf(e.shape).value, e.y + HeightOf(e.shape).value), e)
  {
    if IsPath(e.shape) {
      var pts := PointsOf(e.shape).value;
      forall i | 0 <= i < |pts| ensures PointInElement(Point(e.x + pts[i].x, e.y + pts[i].y), e) {
        assert AbsXs(e.x, pts)[i] == e.x + pts[i].x;
        assert AbsYs(e.y, pts)[i] == e.y + pts[i].y;
      }
    } else {
      assert [e.x, e.x + WidthOf(e.shape).value][1] == e.x + WidthOf(e.shape).value;
      assert [e.y, e.y + HeightOf(e.shape).value][1] == e.y + HeightOf(e.shape).value;
    }
  }

  // ---------------------------------------------------------------------
  // Resize handles

  /** getResizeHandles, in the order Object.entries lists them. */
  function ResizeHandles(b: Box): (hs: seq<(string, Point)>)
    ensures |hs| == 8
    ensures forall i :: 0 <= i < 8 ==> ('w' in hs[i].0 ==> hs[i].1.x == b.x)
    ensures forall i :: 0 <= i < 8 ==> ('e' in hs[i].0 ==> hs[i].1.x == b.x + b.width)
    ensures forall i :: 0 <= i < 8 ==> ('n' in hs[i].0 ==> hs[i].1.y == b.y)
    ensures forall i :: 0 <= i < 8 ==> ('s' in hs[i].0 ==> hs[i].1.y == b.y + b.height)
    ensures forall i :: 0 <= i < 8 ==> ('e' !in hs[i].0 && 'w' !in hs[i].0 ==> hs[i].1.x == b.x + b.width / 2.0)
    ensures forall i :: 0 <= i < 8 ==> ('n' !in hs[i].0 && 's' !in hs[i].0 ==> hs[i].1.y == b.y + b.height / 2.0)
    ensures forall i, j :: 0 <= i < j < 8 ==> hs[i].0 != hs[j].0
  {
    var x, y, w, h := b.x, b.y, b.width, b.height;
    [("nw", Point(x, y)), ("n", Point(x + w / 2.0, y)), ("ne", Point(x + w, y)),
     ("e", Point(x + w, y + h / 2.0)), ("se", Point(x + w, y + h)), ("s", Point(x + w / 2.0, y + h)),
     ("sw", Point(x, y + h)), ("w", Point(x, y + h / 2.0))]
  }

  /** For a normalised box every handle lies on its border. */
  lemma {:induction false} HandlesOnBorder(b: Box)
    requires b.width >= 0.0 && b.height >= 0.0
    ensures forall i :: 0 <= i < 8 ==> NearBox(ResizeHandles(b)[i].1, b, 0.0)
    ensures forall i :: 0 <= i < 8 ==>
      var q := ResizeHandles(b)[i].1;
      q.x == b.x || q.x == b.x + b.width || q.y == b.y || q.y == b.y + b.height
  {
  }

  /** Both coordinates within `size` of `a`. */
  predicate NearPoint(a: Point, p: Point, size: real) {
    Abs(p.x - a.x) <= size && Abs(p.y - a.y) <= size
  }

  /** The first handle within `size` of `p` (the loop returns on the first hit). */
  function HandleAt(hs: seq<(string, Point)>, p: Point, size: real): (r: Option<string>)
    ensures r.None? <==> forall i :: 0 <= i < |hs| ==> !NearPoint(hs[i].1, p, size)
    ensures r.Some? ==> exists i :: && 0 <= i < |hs| && hs[i].0 == r.value && NearPoint(hs[i].1, p, size)
                                    && forall j :: 0 <= j < i ==> !NearPoint(hs[j].1, p, size)
  {
    if hs == [] then None
    else if NearPoint(hs[0].1, p, size) then Some(hs[0].0)
    else
      var r := HandleAt(hs[1..], p, size);
      assert forall i :: 1 <= i < |hs| ==> hs[i] == hs[1..][i - 1];
      if r.Some? then
        var i :| && 0 <= i < |hs[1..]| && hs[1..][i].0 == r.value && NearPoint(hs[1..][i].1, p, size)
                 && forall j :: 0 <= j < i ==> !NearPoint(hs[1..][j].1, p, size);
        assert forall j :: 0 <= j < i + 1 ==> !NearPoint(hs[j].1, p, size) by {
          forall j | 0 <= j < i + 1 ensures !NearPoint(hs[j].1, p, size) {
            if j > 0 { assert hs[j] == hs[1..][j - 1]; }
          }
        }
        r
      else r
  }

  // ---------------------------------------------------------------------
  // Click selection

  /** The element a click selects: the last non-deleted element of
      `Array.from(elements.values())` that contains the point. */
  /** The index of the last `true`, if any. */
  function LastTrue(bs: seq<bool>): (r: Option<nat>)
    ensures r.Some? ==> r.value < |bs| && bs[r.value] && forall j :: r.value < j < |bs| ==> !bs[j]
    ensures r.None? ==> forall j :: 0 <= j < |bs| ==> !bs[j]
  {
    if bs == [] then None
    else if bs[|bs| - 1] then Some(|bs| - 1)
    else
      var r := LastTrue(bs[..|bs| - 1]);
      assert forall j :: 0 <= j < |bs| - 1 ==> bs[..|bs| - 1][j] == bs[j];
      r
  }

  /** The element a click selects: the last non-deleted element of
      `Array.from(elements.values())` that contains the point. */
  function ClickTarget(vals: seq<Element>, p: Point): (r: Option<nat>)
    ensures r.Some? ==> && r.value < |vals| && Live(vals[r.value]) && PointInElement(p, vals[r.value])
                        && forall j :: r.value < j < |vals| ==> !(Live(vals[j]) && PointInElement(p, vals[j]))
    ensures r.None? ==> forall j :: 0 <= j < |vals| ==> !(Live(vals[j]) && PointInElement(p, vals[j]))
  {
    var hits := seq(|vals|, j requires 0 <= j < |vals| => Live(vals[j]) && PointInElement(p, vals[j]));
    assert forall j :: 0 <= j < |vals| ==> (hits[j] <==> Live(vals[j]) && PointInElement(p, vals[j]));
    LastTrue(hits)
  }

  /** The click target follows map order, not the drawing order: an element
      drawn on top (higher zIndex) can lose the click to one drawn below it. */
  lemma ClickIgnoresZOrder()
    ensures var top := Element("a", 0.0, 0.0, RectangleShape(10.0, 10.0), "", "", 1.0, 1.0, 2, 0, 0, "", None);
            var below := top.(id := "b", zIndex := 1);
            ClickTarget([top, below], Point(1.0, 1.0)) == Some(1) && top.zIndex > below.zIndex
  {
    var top := Element("a", 0.0, 0.0, RectangleShape(10.0, 10.0), "", "", 1.0, 1.0, 2, 0, 0, "", None);
    var below := top.(id := "b", zIndex := 1);
    assert ElementBounds(below) == Some(Box(0.0, 0.0, 10.0, 10.0));
  }

  /** The selection after clicking `id`: with shift its membership toggles;
      without, an unselected id becomes the only selection and a selected
      one keeps the selection as it is. */
  function ClickSelection(sel: set<string>, id: string, shift: bool): (r: set<string>)
    ensures shift ==> (id in r <==> id !in sel) && r - {id} == sel - {id}
    ensures !shift && id !in sel ==> r == {id}
    ensures !shift && id in sel ==> r == sel
  {
    if shift then (if id in sel then sel - {id} else sel + {id})
    else if id in sel then sel else {id}
  }

  /** Shift-clicking the same element twice restores the selection. */
  lemma {:induction false} ShiftClickTwice(sel: set<string>, id: string)
    ensures ClickSelection(ClickSelection(sel, id, true), id, true) == sel
  {
    var r := ClickSelection(ClickSelection(sel, id, true), id, true);
    assert forall k :: k in r <==> k in sel;
  }

  /** The initial positions of the selected elements that exist. */
  function DragOrigins(m: ElementMap, sel: set<string>): (o: map<string, Point>)
    ensures o.Keys == sel * m.Keys
    ensures forall k :: k in o ==> o[k] == Point(m[k].x, m[k].y)
  {
    map k | k in sel && k in m :: Point(m[k].x, m[k].y)
  }

  /** What a select-tool pointer-down starts. */
  datatype SelectGesture =
    | Resize(id: string, handle: string, start: Point, original: Element)
    | Drag(start: Point, origins: map<string, Point>)
    | BoxSelect(start: Point)
    | NoGesture

  ghost function PickOne(s: set<string>): (k: string)
    requires |s| == 1
    ensures k in s
  {
    PickKey(s)
  }

  lemma SingletonPick(s: set<string>, a: string)
    requires |s| == 1 && a in s
    ensures a == PickOne(s)
  {
    assert |s - {a}| == 0;
    assert PickOne(s) !in s - {a};
  }

  /** With exactly one selected element, a pointer-down on one of its
      handles (within 8 / zoom) starts a resize. */
  ghost function ResizeStart(m: ElementMap, sel: set<string>, zoom: real, p: Point): Option<SelectGesture>
    requires zoom > 0.0
  {
    if |sel| != 1 then None
    else
      var id := PickOne(sel);
      if id !in m || ElementBounds(m[id]).None? then None
      else
        var h := HandleAt(ResizeHandles(ElementBounds(m[id]).value), p, HANDLE_SIZE / zoom);
        if h.None? then None else Some(Resize(m[id].id, h.value, p, m[id]))
  }

  /** The select-tool pointer-down: a handle hit starts a resize; else the
      click target updates the selection and starts dragging it; a click
      on empty canvas clears the selection (unless shift) and starts a
      selection box. Returns the gesture and the new selection. */
  ghost function SelectDown(m: ElementMap, sel: set<string>, zoom: real, vals: seq<Element>, p: Point, shift: bool)
    : (r: (SelectGesture, set<string>))
    requires zoom > 0.0
    ensures ResizeStart(m, sel, zoom, p).None? && ClickTarget(vals, p).None? ==>
      r == (BoxSelect(p), if shift then sel else {})
    ensures ResizeStart(m, sel, zoom, p).None? && ClickTarget(vals, p).Some? ==>
      r.1 == ClickSelection(sel, vals[ClickTarget(vals, p).value].id, shift)
      && (r.0.Drag? <==> r.1 * m.Keys != {})
  {
    var resize := ResizeStart(m, sel, zoom, p);
    if resize.Some? then (resize.value, sel)
    else match ClickTarget(vals, p)
      case Some(i) =>
        var next := ClickSelection(sel, vals[i].id, shift);
        var origins := DragOrigins(m, next);
        (if |origins| > 0 then Drag(p, origins) else NoGesture, next)
      case None => (BoxSelect(p), if shift then sel else {})
  }

  /** The handle test at the start of the select-tool pointer-down. */
  method HandleHit(store: Store, p: Point) returns (r: Option<SelectGesture>)
    requires store.Valid()
    ensures r == ResizeStart(store.elements, store.selected, store.zoom, p)
  {
    r := None;
    if |store.selected| == 1 {
      var id :| id in store.selected;
      SingletonPick(store.selected, id);
      if id in store.elements {
        var e := store.elements[id];
        var b := ElementBounds(e);
        if b.Some? {
          var h := HandleAt(ResizeHandles(b.value), p, HANDLE_SIZE / store.zoom);
          if h.Some? {
            r := Some(Resize(e.id, h.value, p, e));
          }
        }
      }
    }
  }

  /** The select-tool pointer-down on the store. `vals` is
      `Array.from(elements.values())`. */
  method SelectPointerDown(store: Store, vals: seq<Element>, p: Point, shift: bool) returns (g: SelectGesture)
    requires store.Valid() && Enumerates(store.elements, vals)
    modifies store`selected
    ensures (g, store.selected) == SelectDown(store.elements, old(store.selected), store.zoom, vals, p, shift)
  {
    var resize := HandleHit(store, p);
    if resize.Some? {
      return resize.value;
    }
    var t := ClickTarget(vals, p);
    if t.Some? {
      var next := ClickSelection(store.selected, vals[t.value].id, shift);
      store.SetSelectedElementIds(next);
      var origins := DragOrigins(store.elements, next);
      if |origins| > 0 {
        g := Drag(p, origins);
      } else {
        g := NoGesture;
      }
    } else {
      if !shift {
        store.ClearSelection();
      }
      g := BoxSelect(p);
    }
  }

  // ---------------------------------------------------------------------
  // Box selection

  /** The normalised drag rectangle between the two pointer positions. */
  function DragRect(a: Point, b: Point): (r: Box)
    ensures Spans(r.x, r.width, [a.x, b.x]) && Spans(r.y, r.height, [a.y, b.y])
  {
    Box(Min(a.x, b.x), Min(a.y, b.y), Abs(b.x - a.x), Abs(b.y - a.y))
  }

  /** Strict overlap of two boxes. */
  predicate Overlaps(b: Box, r: Box) {
    b.x < r.x + r.width && b.x + b.width > r.x && b.y < r.y + r.height && b.y + b.height > r.y
  }

  predicate BoxHit(e: Element, r: Box) {
    Live(e) && ElementBounds(e).Some? && Overlaps(ElementBounds(e).value, r)
  }

  /** The non-deleted elements whose bounds strictly overlap the rectangle. */
  function BoxSelection(m: ElementMap, r: Box): set<string> {
    set k | k in m && BoxHit(m[k], r)
  }

  /** The box-select pointer-move: the selection becomes the overlapped ids. */
  method BoxSelectMove(store: Store, start: Point, current: Point)
    modifies store`selected
    ensures store.selected == BoxSelection(store.elements, DragRect(start, current))
  {
    var r := DragRect(start, current);
    var m := store.elements;
    var sel: set<string> := {};
    var todo := m.Keys;
    while todo != {}
      invariant todo <= m.Keys
      invariant sel == BoxHitsAmong(m, m.Keys - todo, r)
      decreases todo
    {
      var k :| k in todo;
      assert m.Keys - (todo - {k}) == (m.Keys - todo) + {k};
      BoxHitsStep(m, m.Keys - todo, k, r);
      if BoxHit(m[k], r) {
        sel := sel + {k};
      }
      todo := todo - {k};
    }
    assert m.Keys - todo == m.Keys;
    store.SetSelectedElementIds(sel);
  }

  /** The ids among `ks` whose elements the rectangle hits. */
  function BoxHitsAmong(m: ElementMap, ks: set<string>, r: Box): (hits: set<string>)
    requires ks <= m.Keys
    ensures hits <= ks
    ensures ks == m.Keys ==> hits == BoxSelection(m, r)
  {
    set k | k in ks && BoxHit(m[k], r)
  }

  lemma BoxHitsStep(m: ElementMap, ks: set<string>, k: string, r: Box)
    requires ks <= m.Keys && k in m && k !in ks
    ensures BoxHitsAmong(m, ks + {k}, r) == BoxHitsAmong(m, ks, r) + (if BoxHit(m[k], r) then {k} else {})
  {
  }

  /** The box selection holds only non-deleted ids, does not depend on the
      drag direction, and grows with the rectangle. */
  lemma {:induction false} BoxSelectionProperties(m: ElementMap, a: Point, b: Point, r1: Box, r2: Box)
    requires r1.width >= 0.0 && r1.height >= 0.0
    requires r2.x <= r1.x && r1.x + r1.width <= r2.x + r2.width
    requires r2.y <= r1.y && r1.y + r1.height <= r2.y + r2.height
    ensures forall k :: k in BoxSelection(m, DragRect(a, b)) ==> k in m && Live(m[k])
    ensures BoxSelection(m, DragRect(a, b)) == BoxSelection(m, DragRect(b, a))
    ensures BoxSelection(m, r1) <= BoxSelection(m, r2)
  {
    assert DragRect(a, b) == DragRect(b, a);
  }

  // ---------------------------------------------------------------------
  // Resizing

  /** A box variant with a new width and height. */
  function WithSize(s: Shape, w: real, h: real): (r: Shape)
    requires IsBox(s)
    ensures IsBox(r) && KindOf(r) == KindOf(s) && WidthOf(r) == Some(w) && HeightOf(r) == Some(h)
  {
    match s
    case RectangleShape(_, _) => RectangleShape(w, h)
    case EllipseShape(_, _) => EllipseShape(w, h)
    case TextShape(t, fs, ff, fw, fst, td, _, _) => TextShape(t, fs, ff, fw, fst, td, w, h)
    case ImageShape(d, _, _) => ImageShape(d, w, h)
  }

  /** The element a resize-move produces from the element as it was at
      pointer-down, or `None` when its type does not resize. An `e` handle
      moves the right edge, a `w` handle the left edge, `s` the bottom and
      `n` the top; width and height never drop below 1. */
  function ResizeElement(orig: Element, handle: string, dx: real, dy: real): (r: Option<Element>)
    ensures r.Some? <==> IsBox(orig.shape)
    ensures r.Some? ==> && r.value == orig.(x := r.value.x, y := r.value.y, shape := r.value.shape)
                        && IsBox(r.value.shape) && KindOf(r.value.shape) == KindOf(orig.shape)
    ensures r.Some? ==> var w0, h0 := WidthOf(orig.shape).value, HeightOf(orig.shape).value;
                        var w, h := WidthOf(r.value.shape).value, HeightOf(r.value.shape).value;
      && ('e' in handle || 'w' in handle ==> w >= MIN_RESIZE)
      && ('n' in handle || 's' in handle ==> h >= MIN_RESIZE)
      && ('w' in handle ==> r.value.x + w == orig.x + w0)
      && ('w' !in handle ==> r.value.x == orig.x)
      && ('e' in handle && 'w' !in handle ==> w == Max(MIN_RESIZE, w0 + dx))
      && ('e' !in handle && 'w' !in handle ==> w == w0)
      && ('n' in handle ==> r.value.y + h == orig.y + h0)
      && ('n' !in handle ==> r.value.y == orig.y)
      && ('s' in handle && 'n' !in handle ==> h == Max(MIN_RESIZE, h0 + dy))
      && ('n' !in handle && 's' !in handle ==> h == h0)
  {
    if !IsBox(orig.shape) then None
    else
      var w0, h0 := WidthOf(orig.shape).value, HeightOf(orig.shape).value;
      var w1 := if 'e' in handle then Max(MIN_RESIZE, w0 + dx) else w0;
      var nw := Max(MIN_RESIZE, w0 - dx);
      var x := if 'w' in handle then orig.x + (w0 - nw) else orig.x;
      var w := if 'w' in handle then nw else w1;
      var h1 := if 's' in handle then Max(MIN_RESIZE, h0 + dy) else h0;
      var nh := Max(MIN_RESIZE, h0 - dy);
      var y := if 'n' in handle then orig.y + (h0 - nh) else orig.y;
      var h := if 'n' in handle then nh else h1;
      Some(orig.(x := x, y := y, shape := WithSize(orig.shape, w, h)))
  }

  /** The resize pointer-move: the resized element is written back with
      `updateElement(el.id, el)`. */
  method ResizeMove(store: Store, g: SelectGesture, p: Point, now: int)
    requires store.Valid() && g.Resize?
    modifies store`elements
    ensures store.Valid()
    ensures var r := ResizeElement(g.original, g.handle, p.x - g.start.x, p.y - g.start.y);
            store.elements == if r.Some? then Updated(old(store.elements), r.value.id, FullPatch(r.value), now)
                              else old(store.elements)
  {
    var r := ResizeElement(g.original, g.handle, p.x - g.start.x, p.y - g.start.y);
    if r.Some? {
      store.UpdateElement(r.value.id, FullPatch(r.value), now);
    }
  }

  /** The stored element after a resize-move is the resized element, with
      the local time as updatedAt, whatever edits happened since pointer-down. */
  lemma {:induction false} ResizeWritesWholeElement(m: ElementMap, orig: Element, handle: string, dx: real, dy: real, now: int)
    requires StoredUnderOwnId(m) && orig.id in m && ResizeElement(orig, handle, dx, dy).Some?
    ensures var el := ResizeElement(orig, handle, dx, dy).value;
            Updated(m, el.id, FullPatch(el), now)[orig.id]
              == el.(updatedAt := now, isDeleted := PickOpt(orig.isDeleted, m[orig.id].isDeleted))
  {
    var el := ResizeElement(orig, handle, dx, dy).value;
    OverlayFullPatch(m[orig.id], el, now);
  }

  // ---------------------------------------------------------------------
  // Drawing gestures

  /** The shape a drawing tool starts with at pointer-down. */
  function StartShape(tool: Tool): Option<Shape> {
    match tool
    case RectangleTool => Some(RectangleShape(0.0, 0.0))
    case EllipseTool => Some(EllipseShape(0.0, 0.0))
    case ArrowTool => Some(ArrowShape([Point(0.0, 0.0)], None, Some(ArrowHead)))
    case FreedrawTool => Some(FreedrawShape([Point(0.0, 0.0)]))
    case LaserTool => Some(FreedrawShape([Point(0.0, 0.0)]))
    case _ => None
  }

  /** The element being drawn after a pointer-move to `p`: a rectangle or
      ellipse spans to `p` (a square with shift), an arrow gets the single
      segment to `p`, a freedraw stroke gains `p`. */
  function DrawMove(cur: Element, p: Point, shift: bool): (r: Element)
    ensures r.id == cur.id && r.x == cur.x && r.y == cur.y && KindOf(r.shape) == KindOf(cur.shape)
    ensures cur.shape.FreedrawShape? ==> r.shape.points == cur.shape.points + [Point(p.x - cur.x, p.y - cur.y)]
  {
    match cur.shape
    case RectangleShape(_, _) =>
      var (w, h) := SpanTo(p.x - cur.x, p.y - cur.y, shift);
      cur.(shape := RectangleShape(w, h))
    case EllipseShape(_, _) =>
      var (w, h) := SpanTo(p.x - cur.x, p.y - cur.y, shift);
      cur.(shape := EllipseShape(w, h))
    case ArrowShape(_, s, e) => cur.(shape := ArrowShape([Point(0.0, 0.0), Point(p.x - cur.x, p.y - cur.y)], s, e))
    case FreedrawShape(pts) => cur.(shape := FreedrawShape(pts + [Point(p.x - cur.x, p.y - cur.y)]))
    case _ => cur
  }

  /** The drawn extent; with shift both sides take the larger magnitude and
      keep their signs. */
  function SpanTo(w: real, h: real, shift: bool): (r: (real, real))
    ensures !shift ==> r == (w, h)
    ensures shift ==> Abs(r.0) == Abs(r.1) == Max(Abs(w), Abs(h))
    ensures shift ==> (r.0 < 0.0 <==> w < 0.0) && (r.1 < 0.0 <==> h < 0.0 && Max(Abs(w), Abs(h)) > 0.0)
  {
    if !shift then (w, h)
    else
      var side := Max(Abs(w), Abs(h));
      (side * (if w < 0.0 then -1.0 else 1.0), side * (if h < 0.0 then -1.0 else 1.0))
  }

  /** The release rule: a rectangle or ellipse needs |width| > 5 or
      |height| > 5, an arrow a last point farther than 5 from its start
      (compared squared), a freedraw stroke more than 2 points; text is
      always kept and an image never. */
  function GestureValid(e: Element): bool {
    match e.shape
    case RectangleShape(w, h) => Abs(w) > MIN_GESTURE || Abs(h) > MIN_GESTURE
    case EllipseShape(w, h) => Abs(w) > MIN_GESTURE || Abs(h) > MIN_GESTURE
    case ArrowShape(pts, _, _) =>
      |pts| >= 2 && pts[|pts| - 1].x * pts[|pts| - 1].x + pts[|pts| - 1].y * pts[|pts| - 1].y > MIN_GESTURE * MIN_GESTURE
    case FreedrawShape(pts) => |pts| > 2
    case TextShape(_, _, _, _, _, _, _, _) => true
    case ImageShape(_, _, _) => false
  }

  /** A click without movement commits nothing, whatever the tool; a
      rectangle dragged more than 5 along either axis is kept, and a
      freedraw stroke is kept from its second move on. */
  lemma {:induction false} GestureRules(cur: Element, tool: Tool, p: Point, q: Point)
    ensures StartShape(tool).Some? ==> !GestureValid(cur.(shape := StartShape(tool).value))
    ensures cur.shape.RectangleShape? ==>
      (GestureValid(DrawMove(cur, p, false)) <==> Abs(p.x - cur.x) > MIN_GESTURE || Abs(p.y - cur.y) > MIN_GESTURE)
    ensures cur.shape == FreedrawShape([Point(0.0, 0.0)]) ==>
      !GestureValid(DrawMove(cur, p, false)) && GestureValid(DrawMove(DrawMove(cur, p, false), q, false))
  {
  }

  /** The drawing branch of pointer-up: a valid laser stroke goes to the
      ephemeral map for 2000 ms, any other valid element is added and a
      history snapshot taken; the element is returned for publishing when
      logged in (laser strokes included). Drawing then stops. */
  method DrawEnd(store: Store, tool: Tool, loggedIn: bool, now: int) returns (published: Option<Element>)
    requires store.Valid()
    modifies store`elements, store`history, store`historyIndex, store`ephemeral, store`isDrawing,
             store`currentElement
    ensures store.Valid() && !store.isDrawing && store.currentElement == None
    ensures var c := old(store.currentElement);
            var committed := old(store.isDrawing) && c.Some? && GestureValid(c.value);
            && published == (if committed && loggedIn then c else None)
            && (committed && tool == LaserTool ==>
                  && store.ephemeral == old(store.ephemeral)[c.value.id := EphemeralElement(c.value, now + LASER_DURATION)]
                  && store.elements == old(store.elements) && store.history == old(store.history)
                  && store.historyIndex == old(store.historyIndex))
            && (committed && tool != LaserTool ==>
                  && store.elements == old(store.elements)[c.value.id := c.value]
                  && History(store.history, store.historyIndex)
                     == SaveSnapshot(History(old(store.history), old(store.historyIndex)), store.elements)
                  && store.ephemeral == old(store.ephemeral))
            && (!committed ==> && store.elements == old(store.elements) && store.ephemeral == old(store.ephemeral)
                               && store.history == old(store.history) && store.historyIndex == old(store.historyIndex))
  {
    published := None;
    if store.isDrawing && store.currentElement.Some? {
      var c := store.currentElement.value;
      if GestureValid(c) {
        if tool == LaserTool {
          store.AddEphemeralElement(c, LASER_DURATION, now);
        } else {
          store.AddElement(c);
          store.SaveHistory();
        }
        if loggedIn {
          published := Some(c);
        }
      }
    }
    store.SetIsDrawing(false);
    store.SetCurrentElement(None);
  }

  // ---------------------------------------------------------------------
  // Collaborator cursors

  /** The pointer-move rate limit on cursor broadcasts. */
  class CursorThrottle {
    var lastBroadcast: int

    constructor ()
      ensures lastBroadcast == 0
    {
      lastBroadcast := 0;
    }

    /** Broadcast only when logged in and more than 100 ms have passed. */
    method OnPointerMove(loggedIn: bool, now: int) returns (broadcast: bool)
      modifies this
      ensures broadcast <==> loggedIn && now - old(lastBroadcast) > CURSOR_BROADCAST_INTERVAL
      ensures lastBroadcast == if broadcast then now else old(lastBroadcast)
    {
      broadcast := loggedIn && now - lastBroadcast > CURSOR_BROADCAST_INTERVAL;
      if broadcast {
        lastBroadcast := now;
      }
    }
  }

  /** The broadcast times of a run of logged-in pointer moves at `times`,
      starting from the last broadcast `last`. */
  function Broadcasts(last: int, times: seq<int>): seq<int>
    decreases |times|
  {
    if times == [] then []
    else if times[0] - last > CURSOR_BROADCAST_INTERVAL then [times[0]] + Broadcasts(times[0], times[1..])
    else Broadcasts(last, times[1..])
  }

  /** Any two consecutive broadcasts are more than 100 ms apart, each is one
      of the move times, and a move more than 100 ms after the previous
      broadcast is always sent. */
  lemma {:induction false} BroadcastSpacing(last: int, times: seq<int>)
    ensures var b := Broadcasts(last, times);
            && |b| <= |times|
            && (|b| > 0 ==> b[0] - last > CURSOR_BROADCAST_INTERVAL)
            && (forall i :: 0 < i < |b| ==> b[i] - b[i - 1] > CURSOR_BROADCAST_INTERVAL)
            && (forall i :: 0 <= i < |b| ==> b[i] in times)
            && (|times| > 0 && times[0] - last > CURSOR_BROADCAST_INTERVAL ==> |b| > 0 && b[0] == times[0])
    decreases |times|
  {
    if times != [] {
      var b := Broadcasts(last, times);
      if times[0] - last > CURSOR_BROADCAST_INTERVAL {
        BroadcastSpacing(times[0], times[1..]);
        var rest := Broadcasts(times[0], times[1..]);
        assert b == [times[0]] + rest;
        forall i | 0 < i < |b| ensures b[i] - b[i - 1] > CURSOR_BROADCAST_INTERVAL {
          assert b[i] == rest[i - 1];
          if i > 1 { assert b[i - 1] == rest[i - 2]; }
        }
        forall i | 0 <= i < |b| ensures b[i] in times {
          if i > 0 { assert b[i] == rest[i - 1]; assert rest[i - 1] in times[1..]; }
        }
      } else {
        BroadcastSpacing(last, times[1..]);
        forall i | 0 <= i < |b| ensures b[i] in times {
          assert b[i] in times[1..];
        }
      }
    }
  }

  /** The cursors drawn at `now`: those at most 5000 ms old. */
  function VisibleCursors(cursors: map<string, CursorPosition>, now: int): (r: map<string, CursorPosition>)
    ensures forall k :: k in r <==> k in cursors && now - cursors[k].timestamp <= CURSOR_STALE_AFTER
    ensures forall k :: k in r ==> r[k] == cursors[k]
  {
    map k | k in cursors && now - cursors[k].timestamp <= CURSOR_STALE_AFTER :: cursors[k]
  }

  /** A cursor that is not drawn now is not drawn later either. */
  lemma {:induction false} CursorsFade(cursors: map<string, CursorPosition>, t1: int, t2: int)
    requires t1 <= t2
    ensures VisibleCursors(cursors, t2).Keys <= VisibleCursors(cursors, t1).Keys
  {
  }

  // ---------------------------------------------------------------------
  // Drawing order

  function ZKey(e: Element): int {
    e.zIndex
  }

  /** The on-screen drawing order: the non-deleted elements by ascending zIndex. */
  function RenderOrder(vals: seq<Element>): (r: seq<Element>)
    ensures forall i, j :: 0 <= i < j < |r| ==> r[i].zIndex <= r[j].zIndex
    ensures multiset(r) == multiset(LiveOnly(vals))
    ensures forall i :: 0 <= i < |r| ==> Live(r[i])
  {
    var live := LiveOnly(vals);
    var r := SortBy(live, ZKey);
    assert forall i, j :: 0 <= i < j < |r| ==> ZKey(r[i]) <= ZKey(r[j]);
    forall i | 0 <= i < |r| ensures Live(r[i]) {
      assert r[i] in multiset(live);
    }
    r
  }

  /** Elements with the same zIndex are drawn in map order. */
  lemma RenderOrderStable(vals: seq<Element>, z: int)
    ensures WithKey(RenderOrder(vals), ZKey, z) == WithKey(LiveOnly(vals), ZKey, z)
  {
    SortByStable(LiveOnly(vals), ZKey, z);
  }

  /** The test that passes every element but the text being edited inline. */
  function NotEdited(editing: Option<string>): Element -> bool {
    (e: Element) => !(editing.Some? && e.id == editing.value)
  }

  /** A filter of a sorted sequence is sorted. */
  lemma {:induction false} KeptSortedBy(s: seq<Element>, p: Element -> bool, key: Element -> int)
    requires SortedBy(s, key)
    ensures SortedBy(Kept(s, p), key)
  {
    if s != [] {
      var t := s[1..];
      SortedTail(s, key);
      KeptSortedBy(t, p, key);
      forall x | x in Kept(t, p) ensures key(s[0]) <= key(x) {
        KeptCount(t, p, x);
        assert x in multiset(t);
      }
      if p(s[0]) {
        PrependSorted(s[0], Kept(t, p), key);
      }
    }
  }

  /** The elements the canvas draws, in drawing order: the on-screen order
      without the text element being edited inline. */
  function DrawnOrder(vals: seq<Element>, editing: Option<string>): (r: seq<Element>)
    ensures SortedBy(r, ZKey)
    ensures multiset(r) == multiset(Kept(LiveOnly(vals), NotEdited(editing)))
    ensures forall i :: 0 <= i < |r| ==> Live(r[i]) && !(editing.Some? && r[i].id == editing.value)
  {
    var p := NotEdited(editing);
    var s := RenderOrder(vals);
    KeptSortedBy(s, p, ZKey);
    KeptSameBag(s, LiveOnly(vals), p);
    var r := Kept(s, p);
    forall i | 0 <= i < |r| ensures Live(r[i]) && p(r[i]) {
      KeptCount(s, p, r[i]);
      assert r[i] in multiset(r);
      assert r[i] in multiset(s);
    }
    r
  }

  /** Only the edited text is left undrawn: without an edit the canvas draws
      the whole on-screen order, and an edited id is missing from it. */
  lemma DrawnOrderSkipsOnlyEdited(vals: seq<Element>, id: string)
    ensures DrawnOrder(vals, None) == RenderOrder(vals)
    ensures forall e :: e in DrawnOrder(vals, Some(id)) ==> e.id != id
  {
    KeptAll(RenderOrder(vals), NotEdited(None));
  }

  /** A filter whose test passes everything keeps the sequence. */
  lemma {:induction false} KeptAll(s: seq<Element>, p: Element -> bool)
    requires forall e :: p(e)
    ensures Kept(s, p) == s
  {
    if s != [] {
      KeptAll(s[1..], p);
      assert s == [s[0]] + s[1..];
    }
  }

  // ---------------------------------------------------------------------
  // Inline text

  /** The edited text element survives finishing: it exists, is a text
      element and its text is not blank. */
  predicate KeepsText(m: ElementMap, id: string) {
    id in m && m[id].shape.TextShape? && Trim(m[id].shape.text) != ""
  }

  /** handleTextFinish on the elements map. */
  function TextFinish(m: ElementMap, id: string): ElementMap {
    if KeepsText(m, id) then m else Deleted(m, id)
  }

  /** After finishing, the edited id is absent, deleted, or a text element
      with non-blank text; nothing else changes. */
  lemma {:induction false} TextFinishOutcome(m: ElementMap, id: string)
    ensures TextFinish(m, id).Keys == m.Keys
    ensures forall k :: k in m && k != id ==> TextFinish(m, id)[k] == m[k]
    ensures id in m ==> !Live(TextFinish(m, id)[id]) || (m[id].shape.TextShape? && Trim(m[id].shape.text) != "")
    ensures id in m && m[id].shape.TextShape? && Trim(m[id].shape.text) == "" ==> !Live(TextFinish(m, id)[id])
  {
  }

  /** handleTextFinish on the store: returns the element to publish as
      "add" when it is kept and the user is logged in. */
  method TextFinishOn(store: Store, id: string, loggedIn: bool) returns (published: Option<Element>)
    requires store.Valid()
    modifies store`elements
    ensures store.Valid()
    ensures store.elements == TextFinish(old(store.elements), id)
    ensures published == if KeepsText(old(store.elements), id) && loggedIn then Some(old(store.elements)[id]) else None
  {
    published := None;
    if !KeepsText(store.elements, id) {
      store.DeleteElement(id);
    } else if loggedIn {
      published := Some(store.elements[id]);
    }
  }

  // ---------------------------------------------------------------------
  // Eraser

  /** The non-deleted elements under the eraser at `p`. */
  function EraseTargets(m: ElementMap, p: Point): set<string> {
    set k | k in m && Live(m[k]) && PointInElement(p, m[k])
  }

  /** The map after `updateElement(id, {isDeleted: true})` for each of `ids`. */
  function ErasedIds(m: ElementMap, ids: set<string>, now: int): ElementMap {
    map k | k in m :: if k in ids then Overlay(m[k], ErasePatch(), now) else m[k]
  }

  /** The eraser patch flags the element deleted and stamps updatedAt. */
  lemma {:induction false} OverlayErase(e: Element, now: int)
    ensures Overlay(e, ErasePatch(), now) == e.(isDeleted := Some(true), updatedAt := now)
  {
    match e.shape
    case RectangleShape(_, _) =>
    case EllipseShape(_, _) =>
    case ArrowShape(_, _, _) =>
    case FreedrawShape(_) =>
    case TextShape(_, _, _, _, _, _, _, _) =>
    case ImageShape(_, _, _) =>
  }

  /** The eraser: every non-deleted element under the pointer is flagged
      deleted (and returned for publishing); the rest is untouched. */
  method Erase(store: Store, p: Point, now: int) returns (erased: set<string>)
    requires store.Valid()
    modifies store`elements
    ensures store.Valid()
    ensures store.elements == ErasedIds(old(store.elements), EraseTargets(old(store.elements), p), now)
    ensures erased == EraseTargets(old(store.elements), p)
  {
    var m0 := store.elements;
    var targets := EraseTargets(m0, p);
    var todo := m0.Keys;
    erased := {};
    while todo != {}
      invariant store.Valid()
      invariant todo <= m0.Keys
      invariant store.elements == ErasedIds(m0, erased, now)
      invariant erased == targets - todo
      decreases todo
    {
      var k :| k in todo;
      if k in targets {
        ErasedStep(m0, erased, k, now);
        store.UpdateElement(k, ErasePatch(), now);
        erased := erased + {k};
      }
      todo := todo - {k};
    }
  }

  /** Erasing one more present id is one more `updateElement`. */
  lemma ErasedStep(m: ElementMap, done: set<string>, k: string, now: int)
    requires k in m && k !in done
    ensures Updated(ErasedIds(m, done, now), k, ErasePatch(), now) == ErasedIds(m, done + {k}, now)
  {
  }

  /** After erasing at `p` no non-deleted element is under `p`, the targets
      only gain the flag and a new updatedAt, nothing else changes, and
      erasing at `p` again, at any later time, changes nothing. */
  lemma {:induction false} EraseProperties(m: ElementMap, p: Point, now: int, later: int)
    ensures var r := ErasedIds(m, EraseTargets(m, p), now);
            && r.Keys == m.Keys
            && (forall k :: k in r && Live(r[k]) ==> !PointInElement(p, r[k]))
            && (forall k :: k in EraseTargets(m, p) ==> r[k] == m[k].(isDeleted := Some(true), updatedAt := now))
            && (forall k :: k in m && k !in EraseTargets(m, p) ==> r[k] == m[k])
            && ErasedIds(r, EraseTargets(r, p), later) == r
  {
    var r := ErasedIds(m, EraseTargets(m, p), now);
    forall k | k in EraseTargets(m, p)
      ensures r[k] == m[k].(isDeleted := Some(true), updatedAt := now)
    {
      OverlayErase(m[k], now);
    }
    assert EraseTargets(r, p) == {};
  }

  // ---------------------------------------------------------------------
  // Dragging a selection

  /** The elements with the dragged ids moved to origin + (dx, dy). */
  function Dragged(m: ElementMap, origins: map<string, Point>, dx: real, dy: real, now: int): ElementMap {
    map k | k in m :: if k in origins then Overlay(m[k], MovePatch(origins[k].x + dx, origins[k].y + dy), now) else m[k]
  }

  /** The drag pointer-move: every dragged id is moved to its origin plus
      the pointer's displacement since pointer-down. */
  method DragMove(store: Store, origins: map<string, Point>, start: Point, p: Point, now: int)
    requires store.Valid()
    modifies store`elements
    ensures store.Valid()
    ensures store.elements == Dragged(old(store.elements), origins, p.x - start.x, p.y - start.y, now)
  {
    var dx, dy := p.x - start.x, p.y - start.y;
    var m0 := store.elements;
    var todo := origins.Keys;
    ghost var moved: map<string, Point> := map[];
    while todo != {}
      invariant store.Valid()
      invariant todo <= origins.Keys
      invariant moved.Keys == origins.Keys - todo
      invariant forall k :: k in moved ==> moved[k] == origins[k]
      invariant store.elements == Dragged(m0, moved, dx, dy, now)
      decreases todo
    {
      var k :| k in todo;
      DraggedStep(m0, moved, k, origins[k], dx, dy, now);
      store.UpdateElement(k, MovePatch(origins[k].x + dx, origins[k].y + dy), now);
      moved := moved[k := origins[k]];
      todo := todo - {k};
    }
    assert moved == origins;
  }

  /** Moving one more id is one more `updateElement`. */
  lemma DraggedStep(m: ElementMap, moved: map<string, Point>, k: string, o: Point, dx: real, dy: real, now: int)
    requires k !in moved
    ensures Updated(Dragged(m, moved, dx, dy, now), k, MovePatch(o.x + dx, o.y + dy), now)
            == Dragged(m, moved[k := o], dx, dy, now)
  {
  }

  /** Dragging moves exactly the dragged elements, keeps their relative
      offsets, changes nothing but position and updatedAt, and does not
      accumulate: the latest move alone decides the positions. */
  lemma {:induction false} DragProperties(m: ElementMap, o: map<string, Point>, dx: real, dy: real,
                                          dx2: real, dy2: real, t: int, t2: int)
    ensures var r := Dragged(m, o, dx, dy, t);
            && r.Keys == m.Keys
            && (forall k :: k in m && k in o ==> r[k] == m[k].(x := o[k].x + dx, y := o[k].y + dy, updatedAt := t))
            && (forall k :: k in m && k !in o ==> r[k] == m[k])
            && (forall a, b :: a in m && b in m && a in o && b in o ==> r[a].x - r[b].x == o[a].x - o[b].x)
    ensures Dragged(Dragged(m, o, dx, dy, t), o, dx2, dy2, t2) == Dragged(m, o, dx2, dy2, t2)
  {
    forall k | k in m && k in o
      ensures Dragged(m, o, dx, dy, t)[k] == m[k].(x := o[k].x + dx, y := o[k].y + dy, updatedAt := t)
      ensures Dragged(Dragged(m, o, dx, dy, t), o, dx2, dy2, t2)[k] == Dragged(m, o, dx2, dy2, t2)[k]
    {
      OverlayMove(m[k], o[k].x + dx, o[k].y + dy, t);
      OverlayMove(Dragged(m, o, dx, dy, t)[k], o[k].x + dx2, o[k].y + dy2, t2);
      OverlayMove(m[k], o[k].x + dx2, o[k].y + dy2, t2);
    }
  }
}
