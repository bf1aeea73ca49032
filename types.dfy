/** Element, cursor and event-kind vocabulary shared by the store, the sync
    layer and the canvas (lib/types.ts). Coordinates are reals; timestamps
    and z-order values are integers (milliseconds). */
module Types {
  import opened Wrappers

  /** The toolbar tools (lib/types.ts:2-11). */
  datatype Tool = SelectTool | RectangleTool | EllipseTool | ArrowTool | FreedrawTool
                | TextTool | EraserTool | HandTool | LaserTool

  datatype Point = Point(x: real, y: real)

  datatype ElementType = Rectangle | Ellipse | Arrow | Freedraw | Text | Image

  datatype Arrowhead = NoHead | ArrowHead
  datatype FontWeight = NormalWeight | Bold
  datatype FontStyle = NormalStyle | Italic
  datatype TextDecoration = NoDecoration | Underline

  /** The variant-specific part of a CanvasElement: box variants carry a
      width and a height, arrow and freedraw carry a point list relative to
      the element's anchor. An absent optional arrowhead is `None`. */
  datatype Shape =
    | RectangleShape(width: real, height: real)
    | EllipseShape(width: real, height: real)
    | ArrowShape(points: seq<Point>, startArrowhead: Option<Arrowhead>, endArrowhead: Option<Arrowhead>)
    | FreedrawShape(points: seq<Point>)
    | TextShape(text: string, fontSize: real, fontFamily: string, fontWeight: FontWeight,
                fontStyle: FontStyle, textDecoration: TextDecoration, width: real, height: real)
    | ImageShape(dataUrl: string, width: real, height: real)

  /** A CanvasElement: the fields of BaseElement plus its Shape. `isDeleted`
      is optional in the source; `None` means the key is absent. */
  datatype Element = Element(
    id: string,
    x: real,
    y: real,
    shape: Shape,
    strokeColor: string,
    fillColor: string,
    strokeWidth: real,
    opacity: real,
    zIndex: int,
    createdAt: int,
    updatedAt: int,
    createdBy: string,
    isDeleted: Option<bool>)

  /** `!el.isDeleted`: an absent flag and `false` both mean the element is live. */
  predicate Live(e: Element) {
    e.isDeleted != Some(true)
  }

  function KindOf(s: Shape): ElementType {
    match s
    case RectangleShape(_, _) => Rectangle
    case EllipseShape(_, _) => Ellipse
    case ArrowShape(_, _, _) => Arrow
    case FreedrawShape(_) => Freedraw
    case TextShape(_, _, _, _, _, _, _, _) => Text
    case ImageShape(_, _, _) => Image
  }

  /** Variants that carry width/height (rectangle, ellipse, text, image). */
  predicate IsBox(s: Shape) {
    s.RectangleShape? || s.EllipseShape? || s.TextShape? || s.ImageShape?
  }

  /** Variants that carry a point list (arrow, freedraw). */
  predicate IsPath(s: Shape) {
    s.ArrowShape? || s.FreedrawShape?
  }

  lemma {:induction false} VariantsPartition(s: Shape)
    ensures IsBox(s) != IsPath(s)
    ensures IsBox(s) <==> KindOf(s) in {Rectangle, Ellipse, Text, Image}
    ensures IsPath(s) <==> KindOf(s) in {Arrow, Freedraw}
  {
    match s
    case RectangleShape(_, _) =>
    case EllipseShape(_, _) =>
    case ArrowShape(_, _, _) =>
    case FreedrawShape(_) =>
    case TextShape(_, _, _, _, _, _, _, _) =>
    case ImageShape(_, _, _) =>
  }

  // Same-named fields of the variants, or None when the variant has no such field.

  function WidthOf(s: Shape): Option<real> {
    if IsBox(s) then Some(s.width) else None
  }

  function HeightOf(s: Shape): Option<real> {
    if IsBox(s) then Some(s.height) else None
  }

  function PointsOf(s: Shape): Option<seq<Point>> {
    if IsPath(s) then Some(s.points) else None
  }

  function StartOf(s: Shape): Option<Arrowhead> {
    if s.ArrowShape? then s.startArrowhead else None
  }

  function EndOf(s: Shape): Option<Arrowhead> {
    if s.ArrowShape? then s.endArrowhead else None
  }

  function TextOf(s: Shape): Option<string> {
    if s.TextShape? then Some(s.text) else None
  }

  function FontSizeOf(s: Shape): Option<real> {
    if s.TextShape? then Some(s.fontSize) else None
  }

  function FontFamilyOf(s: Shape): Option<string> {
    if s.TextShape? then Some(s.fontFamily) else None
  }

  function FontWeightOf(s: Shape): Option<FontWeight> {
    if s.TextShape? then Some(s.fontWeight) else None
  }

  function FontStyleOf(s: Shape): Option<FontStyle> {
    if s.TextShape? then Some(s.fontStyle) else None
  }

  function TextDecorationOf(s: Shape): Option<TextDecoration> {
    if s.TextShape? then Some(s.textDecoration) else None
  }

  function DataUrlOf(s: Shape): Option<string> {
    if s.ImageShape? then Some(s.dataUrl) else None
  }

  /** A `Partial<CanvasElement>`: every field may be absent (`None`). The id
      and updatedAt are not part of it: no caller changes an element's id,
      and updatedAt is always overwritten by the update itself. */
  datatype Patch = Patch(
    kind: Option<ElementType>,
    x: Option<real>,
    y: Option<real>,
    width: Option<real>,
    height: Option<real>,
    points: Option<seq<Point>>,
    startArrowhead: Option<Arrowhead>,
    endArrowhead: Option<Arrowhead>,
    text: Option<string>,
    fontSize: Option<real>,
    fontFamily: Option<string>,
    fontWeight: Option<FontWeight>,
    fontStyle: Option<FontStyle>,
    textDecoration: Option<TextDecoration>,
    dataUrl: Option<string>,
    strokeColor: Option<string>,
    fillColor: Option<string>,
    strokeWidth: Option<real>,
    opacity: Option<real>,
    zIndex: Option<int>,
    createdAt: Option<int>,
    createdBy: Option<string>,
    isDeleted: Option<bool>)

  const EmptyPatch := Patch(None, None, None, None, None, None, None, None, None, None, None, None,
                            None, None, None, None, None, None, None, None, None, None, None)

  /** The patch that carries every field of `e` (a whole element used as an update). */
  function FullPatch(e: Element): Patch {
    Patch(Some(KindOf(e.shape)), Some(e.x), Some(e.y), WidthOf(e.shape), HeightOf(e.shape),
          PointsOf(e.shape), StartOf(e.shape), EndOf(e.shape), TextOf(e.shape),
          FontSizeOf(e.shape), FontFamilyOf(e.shape), FontWeightOf(e.shape), FontStyleOf(e.shape),
          TextDecorationOf(e.shape), DataUrlOf(e.shape), Some(e.strokeColor), Some(e.fillColor),
          Some(e.strokeWidth), Some(e.opacity), Some(e.zIndex), Some(e.createdAt), Some(e.createdBy),
          e.isDeleted)
  }

  /** The patch `{x, y}` sent while dragging a selection. */
  function MovePatch(x: real, y: real): Patch {
    EmptyPatch.(x := Some(x), y := Some(y))
  }

  /** The patch `{isDeleted: true}` sent by the eraser. */
  function ErasePatch(): Patch {
    EmptyPatch.(isDeleted := Some(true))
  }

  /** Object spread `{...old, ...patch}` for one field: the patch's value if
      present, else the old object's same-named field, else `d`. */
  function Pick<T>(p: Option<T>, prev: Option<T>, d: T): T {
    if p.Some? then p.value else prev.GetOr(d)
  }

  function PickOpt<T>(p: Option<T>, prev: Option<T>): Option<T> {
    if p.Some? then p else prev
  }

  /** The variant part of `{...old, ...patch}`: the variant named by the
      patch's `type` (or the old one), each field taken from the patch, else
      from the old variant. */
  function MergeShape(s: Shape, p: Patch): (r: Shape)
    ensures KindOf(r) == p.kind.GetOr(KindOf(s))
  {
    match p.kind.GetOr(KindOf(s))
    case Rectangle => RectangleShape(Pick(p.width, WidthOf(s), 0.0), Pick(p.height, HeightOf(s), 0.0))
    case Ellipse => EllipseShape(Pick(p.width, WidthOf(s), 0.0), Pick(p.height, HeightOf(s), 0.0))
    case Arrow => ArrowShape(Pick(p.points, PointsOf(s), []), PickOpt(p.startArrowhead, StartOf(s)),
                             PickOpt(p.endArrowhead, EndOf(s)))
    case Freedraw => FreedrawShape(Pick(p.points, PointsOf(s), []))
    case Text => TextShape(Pick(p.text, TextOf(s), ""), Pick(p.fontSize, FontSizeOf(s), 0.0),
                           Pick(p.fontFamily, FontFamilyOf(s), ""),
                           Pick(p.fontWeight, FontWeightOf(s), NormalWeight),
                           Pick(p.fontStyle, FontStyleOf(s), NormalStyle),
                           Pick(p.textDecoration, TextDecorationOf(s), NoDecoration),
                           Pick(p.width, WidthOf(s), 0.0), Pick(p.height, HeightOf(s), 0.0))
    case Image => ImageShape(Pick(p.dataUrl, DataUrlOf(s), ""), Pick(p.width, WidthOf(s), 0.0),
                             Pick(p.height, HeightOf(s), 0.0))
  }

  /** `{...e, ...patch, updatedAt: now}` (lib/canvas-store.ts:173-177). */
  function Overlay(e: Element, p: Patch, now: int): (r: Element)
    ensures r.id == e.id && r.updatedAt == now
    ensures KindOf(r.shape) == p.kind.GetOr(KindOf(e.shape))
    ensures r.isDeleted == (if p.isDeleted.Some? then p.isDeleted else e.isDeleted)
  {
    Element(e.id, p.x.GetOr(e.x), p.y.GetOr(e.y), MergeShape(e.shape, p),
            p.strokeColor.GetOr(e.strokeColor), p.fillColor.GetOr(e.fillColor),
            p.strokeWidth.GetOr(e.strokeWidth), p.opacity.GetOr(e.opacity),
            p.zIndex.GetOr(e.zIndex), p.createdAt.GetOr(e.createdAt), now,
            p.createdBy.GetOr(e.createdBy), PickOpt(p.isDeleted, e.isDeleted))
  }

  /** An arrow whose arrowheads are absent keeps the old arrow's ones under a spread. */
  function InheritArrowheads(s: Shape, prev: Shape): Shape {
    if s.ArrowShape? then ArrowShape(s.points, PickOpt(s.startArrowhead, StartOf(prev)),
                                     PickOpt(s.endArrowhead, EndOf(prev)))
    else s
  }

  /** An empty patch only refreshes updatedAt. */
  lemma {:induction false} OverlayEmptyPatch(e: Element, now: int)
    ensures Overlay(e, EmptyPatch, now) == e.(updatedAt := now)
  {
    match e.shape
    case RectangleShape(_, _) =>
    case EllipseShape(_, _) =>
    case ArrowShape(_, _, _) =>
    case FreedrawShape(_) =>
    case TextShape(_, _, _, _, _, _, _, _) =>
    case ImageShape(_, _, _) =>
  }

  /** Updating with a whole element (the remote "update" path) yields that
      element, except that updatedAt is the local time and that fields the
      element leaves absent (isDeleted, arrowheads) keep their old values. */
  lemma {:induction false} OverlayFullPatch(prev: Element, e: Element, now: int)
    requires prev.id == e.id
    ensures Overlay(prev, FullPatch(e), now)
         == e.(updatedAt := now, isDeleted := PickOpt(e.isDeleted, prev.isDeleted),
               shape := InheritArrowheads(e.shape, prev.shape))
  {
    match e.shape
    case RectangleShape(_, _) =>
    case EllipseShape(_, _) =>
    case ArrowShape(_, _, _) =>
    case FreedrawShape(_) =>
    case TextShape(_, _, _, _, _, _, _, _) =>
    case ImageShape(_, _, _) =>
  }

  /** A drag update moves the anchor and touches nothing else but updatedAt. */
  lemma {:induction false} OverlayMove(e: Element, x: real, y: real, now: int)
    ensures Overlay(e, MovePatch(x, y), now) == e.(x := x, y := y, updatedAt := now)
  {
    OverlayEmptyPatch(e, now);
  }

  /** The cursor of a collaborator. `color` is `None` when the palette lookup
      yields `undefined`. */
  datatype CursorPosition = CursorPosition(
    pubkey: string, x: real, y: real, color: Option<string>, name: Option<string>, timestamp: int)

  // Nostr event kinds used by the application (lib/types.ts:136-139).
  const NOSTR_KIND_CANVAS_ACTION: int := 33333
  const NOSTR_KIND_CANVAS_METADATA: int := 30023
  const NOSTR_KIND_CURSOR_POSITION: int := 25050
  const NOSTR_KIND_CANVAS_STATE: int := 30078
  const NOSTR_KIND_TEXT_NOTE: int := 1
  const NOSTR_KIND_NOSTR_CONNECT: int := 24133

  /** How a relay stores an event kind, by the "Kinds" ranges of NIP-01. */
  datatype KindClass = Regular | Replaceable | Ephemeral | Addressable | Unclassified

  function ClassOf(kind: int): (c: KindClass)
    ensures c == Ephemeral <==> 20000 <= kind < 30000
    ensures c == Addressable <==> 30000 <= kind < 40000
  {
    if 1000 <= kind < 10000 || 4 <= kind < 45 || kind == 1 || kind == 2 then Regular
    else if 10000 <= kind < 20000 || kind == 0 || kind == 3 then Replaceable
    else if 20000 <= kind < 30000 then Ephemeral
    else if 30000 <= kind < 40000 then Addressable
    else Unclassified
  }

  /** Cursor events are ephemeral (not stored); canvas state is addressable
      (one per author and d-tag); and so is the canvas action kind, which the
      source sends with a d-tag too: a relay keeps only the latest action per
      author and canvas. */
  lemma KindClasses()
    ensures ClassOf(NOSTR_KIND_CURSOR_POSITION) == Ephemeral
    ensures ClassOf(NOSTR_KIND_CANVAS_STATE) == Addressable
    ensures ClassOf(NOSTR_KIND_CANVAS_ACTION) == Addressable
    ensures ClassOf(NOSTR_KIND_NOSTR_CONNECT) == Ephemeral
    ensures ClassOf(NOSTR_KIND_TEXT_NOTE) == Regular
  {
  }

  /** The partial element of createDefaultElement (lib/types.ts:179-199). */
  datatype ElementDefaults = ElementDefaults(
    id: string, kind: ElementType, x: real, y: real, strokeColor: string, fillColor: string,
    strokeWidth: real, opacity: real, zIndex: int, createdAt: int, updatedAt: int, createdBy: string)

  /** `id` is the fresh id the random generator produced and `now` is Date.now(). */
  function CreateDefaultElement(kind: ElementType, x: real, y: real, pubkey: string, id: string, now: int)
    : (d: ElementDefaults)
    ensures d.zIndex == d.createdAt == d.updatedAt == now
    ensures d.createdBy == pubkey && d.kind == kind && d.x == x && d.y == y && d.id == id
    ensures d.strokeColor == "#ffffff" && d.fillColor == "transparent"
    ensures d.strokeWidth == 2.0 && d.opacity == 1.0
  {
    ElementDefaults(id, kind, x, y, "#ffffff", "transparent", 2.0, 1.0, now, now, now, pubkey)
  }

  /** `elements.filter(el => !el.isDeleted)`: the live elements, in order. */
  function LiveOnly(s: seq<Element>): (r: seq<Element>)
    ensures |r| <= |s|
    ensures forall i :: 0 <= i < |r| ==> Live(r[i]) && r[i] in s
    ensures forall e :: e in s && Live(e) ==> e in r
    ensures (forall i :: 0 <= i < |s| ==> Live(s[i])) ==> r == s
  {
    if s == [] then []
    else if Live(s[0]) then [s[0]] + LiveOnly(s[1..])
    else LiveOnly(s[1..])
  }

  /** `s.filter(p)` for a side-effect-free predicate. */
  function Kept<T>(s: seq<T>, p: T -> bool): seq<T> {
    if s == [] then [] else (if p(s[0]) then [s[0]] else []) + Kept(s[1..], p)
  }

  /** Filtering a concatenation filters each part. */
  lemma {:induction false} KeptAppend<T>(a: seq<T>, b: seq<T>, p: T -> bool)
    ensures Kept(a + b, p) == Kept(a, p) + Kept(b, p)
  {
    if a == [] {
      assert a + b == b;
    } else {
      var t := a[1..];
      var h := if p(a[0]) then [a[0]] else [];
      assert (a + b)[0] == a[0] && (a + b)[1..] == t + b;
      KeptAppend(t, b, p);
      assert Kept(a + b, p) == h + (Kept(t, p) + Kept(b, p));
      assert Kept(a, p) == h + Kept(t, p);
    }
  }

  /** The filter keeps every copy of a value that passes the test and no
      copy of one that fails it. */
  lemma {:induction false} KeptCount<T>(s: seq<T>, p: T -> bool, x: T)
    ensures multiset(Kept(s, p))[x] == if p(x) then multiset(s)[x] else 0
  {
    if s != [] {
      KeptCount(s[1..], p, x);
      assert s == [s[0]] + s[1..];
    }
  }

  /** Filtering two arrangements of the same elements gives two
      arrangements of the same kept elements. */
  lemma KeptSameBag(a: seq<Element>, b: seq<Element>, p: Element -> bool)
    requires multiset(a) == multiset(b)
    ensures multiset(Kept(a, p)) == multiset(Kept(b, p))
  {
    var ka, kb := multiset(Kept(a, p)), multiset(Kept(b, p));
    forall x ensures ka[x] == kb[x] {
      KeptCount(a, p, x);
      KeptCount(b, p, x);
      assert multiset(a)[x] == multiset(b)[x];
    }
    assert ka == kb;
  }

  /** `LiveOnly` is the generic filter with the liveness test. */
  lemma {:induction false} LiveOnlyIsKept(s: seq<Element>)
    ensures LiveOnly(s) == Kept(s, Live)
  {
    if s != [] {
      LiveOnlyIsKept(s[1..]);
    }
  }

  /** The filter keeps order: filtering a concatenation filters each part. */
  lemma LiveOnlyAppend(a: seq<Element>, b: seq<Element>)
    ensures LiveOnly(a + b) == LiveOnly(a) + LiveOnly(b)
  {
    LiveOnlyIsKept(a);
    LiveOnlyIsKept(b);
    LiveOnlyIsKept(a + b);
    KeptAppend(a, b, Live);
  }

  /** A single element is kept exactly when it is live. */
  lemma LiveOnlySingle(e: Element)
    ensures LiveOnly([e]) == if Live(e) then [e] else []
  {
    assert [e][1..] == [];
  }

  /** A relay subscription or query filter; absent keys are `None`. */
  datatype Filter = Filter(
    kinds: seq<int>,
    authors: Option<seq<string>>,
    dTags: Option<seq<string>>,
    pTags: Option<seq<string>>,
    canvasTags: Option<seq<string>>,
    since: Option<int>,
    limit: Option<int>)

  /** An event before signing. `C` is the content before serialisation. */
  datatype UnsignedEvent<C> = UnsignedEvent(
    kind: int, createdAt: int, tags: seq<seq<string>>, content: C, pubkey: string)

  /** `Math.floor(Date.now() / 1000)`: Dafny's `/` rounds down for a positive divisor. */
  function UnixSeconds(nowMs: int): (r: int)
    ensures r * 1000 <= nowMs < r * 1000 + 1000
  {
    nowMs / 1000
  }
}
