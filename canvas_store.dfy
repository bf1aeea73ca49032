/** The element store (lib/canvas-store.ts): an id -> element map with a
    selection set, a one-slot clipboard, an undo/redo history of at most 50
    snapshots, a map of expiring overlay elements and a map of collaborator
    cursors. Each store action is a method of `Store` whose postcondition
    ties the new fields to a pure function of the old ones; the properties
    the store promises are proved as lemmas about those functions. */
module CanvasStore {
  import opened Wrappers
  import opened Types

  type ElementMap = map<string, Element>

  const HISTORY_LIMIT: nat := 50
  const DEFAULT_EPHEMERAL_DURATION: int := 2000
  const PASTE_OFFSET: real := 20.0
  const MIN_ZOOM: real := 0.1
  const MAX_ZOOM: real := 5.0

  /** Every element is stored under its own id (an id never changes). */
  ghost predicate StoredUnderOwnId(m: ElementMap) {
    forall k :: k in m ==> m[k].id == k
  }

  // ---------------------------------------------------------------------
  // Element CRUD

  /** `{...element, isDeleted: true}` */
  function MarkDeleted(e: Element): Element {
    e.(isDeleted := Some(true))
  }

  /** updateElement: absent id -> unchanged; otherwise overlay the patch. */
  function Updated(m: ElementMap, id: string, p: Patch, now: int): ElementMap {
    if id in m then m[id := Overlay(m[id], p, now)] else m
  }

  /** deleteElement: flag a present id, leave everything else. */
  function Deleted(m: ElementMap, id: string): ElementMap {
    if id in m then m[id := MarkDeleted(m[id])] else m
  }

  /** Flag every present id of `ids` (deleteSelectedElements, cut). */
  function DeletedAll(m: ElementMap, ids: set<string>): ElementMap {
    map k | k in m :: if k in ids then MarkDeleted(m[k]) else m[k]
  }

  lemma UpdateAbsentIsNoop(m: ElementMap, id: string, p: Patch, now: int)
    requires id !in m
    ensures Updated(m, id, p, now) == m
  {
  }

  /** An update of a present id overlays the patch, stamps updatedAt with
      `now`, keeps the id, and changes no other key. */
  lemma {:induction false} UpdatePresent(m: ElementMap, id: string, p: Patch, now: int)
    requires id in m
    ensures Updated(m, id, p, now).Keys == m.Keys
    ensures Updated(m, id, p, now)[id].updatedAt == now
    ensures Updated(m, id, p, now)[id].id == m[id].id
    ensures forall k :: k in m && k != id ==> Updated(m, id, p, now)[k] == m[k]
    ensures Updated(m, id, p, now)[id] == Overlay(m[id], p, now)
  {
  }

  /** Deleting is idempotent, a no-op on an absent id, and touches only
      the flag (updatedAt in particular is kept). */
  lemma {:induction false} DeleteProperties(m: ElementMap, id: string)
    ensures Deleted(Deleted(m, id), id) == Deleted(m, id)
    ensures id !in m ==> Deleted(m, id) == m
    ensures Deleted(m, id).Keys == m.Keys
    ensures id in m ==> Deleted(m, id)[id] == m[id].(isDeleted := Some(true))
    ensures id in m ==> !Live(Deleted(m, id)[id]) && Deleted(m, id)[id].updatedAt == m[id].updatedAt
  {
    if id in m {
      assert MarkDeleted(MarkDeleted(m[id])) == MarkDeleted(m[id]);
    }
  }

  /** Bulk deletion flags exactly the present ids it is given and is idempotent. */
  lemma {:induction false} DeleteAllProperties(m: ElementMap, ids: set<string>)
    ensures DeletedAll(m, ids).Keys == m.Keys
    ensures forall k :: k in m && k in ids ==> !Live(DeletedAll(m, ids)[k])
    ensures forall k :: k in m && k !in ids ==> DeletedAll(m, ids)[k] == m[k]
    ensures DeletedAll(DeletedAll(m, ids), ids) == DeletedAll(m, ids)
  {
  }

  // ---------------------------------------------------------------------
  // Bulk load: later duplicates win

  /** The map built by `for (e of elements) newElements.set(e.id, e)`. */
  function FromList(s: seq<Element>): (m: ElementMap)
    ensures StoredUnderOwnId(m)
  {
    if s == [] then map[] else FromList(s[..|s| - 1])[s[|s| - 1].id := s[|s| - 1]]
  }

  /** loadElements keeps exactly the ids of the list, and each id maps to
      its LAST occurrence in the list. */
  lemma {:induction false} LoadLastWins(s: seq<Element>)
    ensures FromList(s).Keys == set i | 0 <= i < |s| :: s[i].id
    ensures forall k :: k in FromList(s) ==>
      exists i :: 0 <= i < |s| && s[i] == FromList(s)[k] && forall j :: i < j < |s| ==> s[j].id != k
  {
    FromListKeys(s);
    forall k | k in FromList(s)
      ensures exists i :: 0 <= i < |s| && s[i] == FromList(s)[k] && forall j :: i < j < |s| ==> s[j].id != k
    {
      FromListLast(s, k);
    }
  }

  lemma {:induction false} FromListKeys(s: seq<Element>)
    ensures FromList(s).Keys == IdsOf(s)
  {
    if s != [] {
      var init := s[..|s| - 1];
      FromListKeys(init);
      IdsOfAppend(init, s[|s| - 1]);
      assert s == init + [s[|s| - 1]];
    }
  }

  lemma {:induction false} FromListLast(s: seq<Element>, k: string)
    requires k in FromList(s)
    ensures exists i :: 0 <= i < |s| && s[i] == FromList(s)[k] && forall j :: i < j < |s| ==> s[j].id != k
  {
    var init := s[..|s| - 1];
    if k == s[|s| - 1].id {
      assert s[|s| - 1] == FromList(s)[k];
    } else {
      FromListLast(init, k);
      var i :| 0 <= i < |init| && init[i] == FromList(init)[k] && forall j :: i < j < |init| ==> init[j].id != k;
      assert s[i] == FromList(s)[k];
      assert forall j :: i < j < |s| ==> s[j].id != k by {
        forall j | i < j < |s| ensures s[j].id != k {
          if j < |s| - 1 {
            assert s[j] == init[j];
          }
        }
      }
    }
  }

  // ---------------------------------------------------------------------
  // Z-order

  /** `v` is `Math.max(floor, ...zIndexes of the live elements under ks)`. */
  ghost predicate IsMaxLiveZ(m: ElementMap, ks: set<string>, floor: int, v: int)
    requires ks <= m.Keys
  {
    && v >= floor
    && (forall k :: k in ks && Live(m[k]) ==> m[k].zIndex <= v)
    && (v == floor || exists k :: k in ks && Live(m[k]) && m[k].zIndex == v)
  }

  /** `v` is `Math.min(ceiling, ...zIndexes of the live elements under ks)`. */
  ghost predicate IsMinLiveZ(m: ElementMap, ks: set<string>, ceiling: int, v: int)
    requires ks <= m.Keys
  {
    && v <= ceiling
    && (forall k :: k in ks && Live(m[k]) ==> v <= m[k].zIndex)
    && (v == ceiling || exists k :: k in ks && Live(m[k]) && m[k].zIndex == v)
  }

  ghost function PickKey(ks: set<string>): (k: string)
    requires ks != {}
    ensures k in ks
  {
    var k :| k in ks; k
  }

  ghost function MaxLiveZ(m: ElementMap, ks: set<string>, floor: int): (v: int)
    requires ks <= m.Keys
    ensures IsMaxLiveZ(m, ks, floor, v)
    decreases ks
  {
    if ks == {} then floor
    else
      var k := PickKey(ks);
      var r := MaxLiveZ(m, ks - {k}, floor);
      if Live(m[k]) && m[k].zIndex > r then m[k].zIndex else r
  }

  ghost function MinLiveZ(m: ElementMap, ks: set<string>, ceiling: int): (v: int)
    requires ks <= m.Keys
    ensures IsMinLiveZ(m, ks, ceiling, v)
    decreases ks
  {
    if ks == {} then ceiling
    else
      var k := PickKey(ks);
      var r := MinLiveZ(m, ks - {k}, ceiling);
      if Live(m[k]) && m[k].zIndex < r then m[k].zIndex else r
  }

  /** The maximum is determined by its characterisation. */
  lemma MaxLiveZUnique(m: ElementMap, ks: set<string>, floor: int, v: int)
    requires ks <= m.Keys && IsMaxLiveZ(m, ks, floor, v)
    ensures v == MaxLiveZ(m, ks, floor)
  {
  }

  lemma MinLiveZUnique(m: ElementMap, ks: set<string>, ceiling: int, v: int)
    requires ks <= m.Keys && IsMinLiveZ(m, ks, ceiling, v)
    ensures v == MinLiveZ(m, ks, ceiling)
  {
  }

  /** bringToFront: zIndex := max(0, live zIndexes) + 1. */
  ghost function Fronted(m: ElementMap, id: string, now: int): ElementMap
    requires id in m
  {
    m[id := m[id].(zIndex := MaxLiveZ(m, m.Keys, 0) + 1, updatedAt := now)]
  }

  /** sendToBack: zIndex := min(0, live zIndexes) - 1. */
  ghost function Backed(m: ElementMap, id: string, now: int): ElementMap
    requires id in m
  {
    m[id := m[id].(zIndex := MinLiveZ(m, m.Keys, 0) - 1, updatedAt := now)]
  }

  /** After bringToFront the element is strictly above every other live
      element, and nothing else changed. */
  lemma FrontIsStrictlyAbove(m: ElementMap, id: string, now: int)
    requires id in m
    ensures Fronted(m, id, now).Keys == m.Keys
    ensures forall k :: k in m && k != id ==> Fronted(m, id, now)[k] == m[k]
    ensures forall k :: k in m && k != id && Live(m[k]) ==> m[k].zIndex < Fronted(m, id, now)[id].zIndex
    ensures Fronted(m, id, now)[id].zIndex >= 1
  {
  }

  /** After sendToBack the element is strictly below every other live element. */
  lemma BackIsStrictlyBelow(m: ElementMap, id: string, now: int)
    requires id in m
    ensures Backed(m, id, now).Keys == m.Keys
    ensures forall k :: k in m && k != id ==> Backed(m, id, now)[k] == m[k]
    ensures forall k :: k in m && k != id && Live(m[k]) ==> Backed(m, id, now)[id].zIndex < m[k].zIndex
    ensures Backed(m, id, now)[id].zIndex <= -1
  {
  }

  /** A second bringToFront keeps the element above all other live
      elements; it never lowers the element. */
  lemma {:induction false} FrontTwice(m: ElementMap, id: string, now1: int, now2: int)
    requires id in m
    ensures var m1 := Fronted(m, id, now1);
            var m2 := Fronted(m1, id, now2);
            && m2.Keys == m.Keys
            && (forall k :: k in m && k != id ==> m2[k] == m[k])
            && (forall k :: k in m && k != id && Live(m[k]) ==> m2[k].zIndex < m2[id].zIndex)
            && m1[id].zIndex <= m2[id].zIndex
  {
    var m1 := Fronted(m, id, now1);
    FrontIsStrictlyAbove(m, id, now1);
    FrontIsStrictlyAbove(m1, id, now2);
    var top := MaxLiveZ(m, m.Keys, 0);
    var top1 := MaxLiveZ(m1, m1.Keys, 0);
    if top != 0 {
      var k :| k in m && Live(m[k]) && m[k].zIndex == top;
      if k == id {
        assert Live(m1[id]) && top1 >= m1[id].zIndex;
      } else {
        assert m1[k] == m[k] && top1 >= m[k].zIndex;
      }
    }
  }

  /** `n` is the live element with the smallest zIndex strictly above id's. */
  ghost predicate IsNextAbove(m: ElementMap, id: string, n: string) {
    && id in m && n in m && Live(m[n]) && m[n].zIndex > m[id].zIndex
    && forall k :: k in m && Live(m[k]) && m[k].zIndex > m[id].zIndex ==> m[n].zIndex <= m[k].zIndex
  }

  /** `n` is the live element with the largest zIndex strictly below id's. */
  ghost predicate IsNextBelow(m: ElementMap, id: string, n: string) {
    && id in m && n in m && Live(m[n]) && m[n].zIndex < m[id].zIndex
    && forall k :: k in m && Live(m[k]) && m[k].zIndex < m[id].zIndex ==> m[k].zIndex <= m[n].zIndex
  }

  ghost predicate HasAbove(m: ElementMap, id: string)
    requires id in m
  {
    exists k :: k in m && Live(m[k]) && m[k].zIndex > m[id].zIndex
  }

  ghost predicate HasBelow(m: ElementMap, id: string)
    requires id in m
  {
    exists k :: k in m && Live(m[k]) && m[k].zIndex < m[id].zIndex
  }

  /** The two elements exchange zIndex; both get updatedAt := now. */
  function Swapped(m: ElementMap, id: string, n: string, now: int): ElementMap
    requires id in m && n in m
  {
    m[n := m[n].(zIndex := m[id].zIndex, updatedAt := now)][id := m[id].(zIndex := m[n].zIndex, updatedAt := now)]
  }

  /** The multiset of zIndex values stored under the keys `ks`. */
  ghost function ZBag(m: ElementMap, ks: set<string>): multiset<int>
    requires ks <= m.Keys
    decreases ks
  {
    if ks == {} then multiset{}
    else
      var k := PickKey(ks);
      ZBag(m, ks - {k}) + multiset{m[k].zIndex}
  }

  lemma {:induction false} ZBagRemove(m: ElementMap, ks: set<string>, k: string)
    requires ks <= m.Keys && k in ks
    ensures ZBag(m, ks) == ZBag(m, ks - {k}) + multiset{m[k].zIndex}
    decreases ks
  {
    var j := PickKey(ks);
    if j != k {
      ZBagRemove(m, ks - {j}, k);
      ZBagRemove(m, ks - {k}, j);
      assert ks - {j} - {k} == ks - {k} - {j};
    }
  }

  /** Maps that agree on the zIndexes of `ks` hold the same multiset there. */
  lemma {:induction false} ZBagAgree(m: ElementMap, r: ElementMap, ks: set<string>)
    requires ks <= m.Keys && ks <= r.Keys
    requires forall k :: k in ks ==> m[k].zIndex == r[k].zIndex
    ensures ZBag(m, ks) == ZBag(r, ks)
    decreases ks
  {
    if ks != {} {
      var k := PickKey(ks);
      ZBagAgree(m, r, ks - {k});
    }
  }

  /** Exchanging the zIndexes of two keys keeps the multiset. */
  lemma {:induction false} ZBagExchange(m: ElementMap, r: ElementMap, ks: set<string>, a: string, b: string)
    requires ks <= m.Keys && ks <= r.Keys && a in ks && b in ks && a != b
    requires forall k :: k in ks && k != a && k != b ==> m[k].zIndex == r[k].zIndex
    requires r[a].zIndex == m[b].zIndex && r[b].zIndex == m[a].zIndex
    ensures ZBag(r, ks) == ZBag(m, ks)
  {
    var ka := ks - {a};
    var kab := ka - {b};
    var x, y := multiset{m[a].zIndex}, multiset{m[b].zIndex};
    assert ZBag(m, ks) == ZBag(m, kab) + y + x by {
      ZBagRemove(m, ks, a);
      ZBagRemove(m, ka, b);
    }
    assert ZBag(r, ks) == ZBag(r, kab) + x + y by {
      ZBagRemove(r, ks, a);
      ZBagRemove(r, ka, b);
    }
    ZBagAgree(m, r, kab);
  }

  /** bringForward/sendBackward only exchange two zIndex values: the
      multiset of zIndexes is preserved and no other key changes. */
  lemma {:induction false} SwapPreservesZBag(m: ElementMap, id: string, n: string, now: int)
    requires id in m && n in m && id != n
    ensures Swapped(m, id, n, now).Keys == m.Keys
    ensures ZBag(Swapped(m, id, n, now), m.Keys) == ZBag(m, m.Keys)
    ensures forall k :: k in m && k != id && k != n ==> Swapped(m, id, n, now)[k] == m[k]
    ensures Swapped(m, id, n, now)[id].zIndex == m[n].zIndex
    ensures Swapped(m, id, n, now)[n].zIndex == m[id].zIndex
  {
    var r := Swapped(m, id, n, now);
    assert r.Keys == m.Keys;
    ZBagExchange(m, r, m.Keys, id, n);
  }

  /** bringForward moves the element past exactly one live neighbour: after
      the swap no other live element lies strictly between the two old
      positions. */
  lemma {:induction false} ForwardPassesOne(m: ElementMap, id: string, n: string, now: int)
    requires IsNextAbove(m, id, n)
    ensures var r := Swapped(m, id, n, now);
            && r[id].zIndex > m[id].zIndex
            && forall k :: k in m && k != id && k != n && Live(m[k]) ==>
                 !(m[id].zIndex < r[k].zIndex < r[id].zIndex)
  {
  }

  // ---------------------------------------------------------------------
  // Clipboard

  function IdsOf(s: seq<Element>): set<string> {
    set i | 0 <= i < |s| :: s[i].id
  }

  lemma IdsOfAppend(s: seq<Element>, e: Element)
    ensures IdsOf(s + [e]) == IdsOf(s) + {e.id}
  {
    assert (s + [e])[|s|] == e;
    assert forall i :: 0 <= i < |s| ==> (s + [e])[i] == s[i];
  }

  lemma DeletedAllStep(m: ElementMap, ids: set<string>, k: string)
    requires k in m
    ensures DeletedAll(m, ids + {k}) == DeletedAll(m, ids)[k := MarkDeleted(m[k])]
  {
  }

  /** Only the present ids of the set matter to a bulk deletion. */
  lemma DeletedAllPresent(m: ElementMap, a: set<string>, b: set<string>)
    requires a * m.Keys == b * m.Keys
    ensures DeletedAll(m, a) == DeletedAll(m, b)
  {
    forall k | k in m ensures (k in a) == (k in b) {
      assert k in a <==> k in a * m.Keys;
    }
  }

  /** The loop of cutSelectedElements: each listed record of `m` is flagged
      as deleted, one at a time. */
  method MarkListedDeleted(m: ElementMap, c: seq<Element>) returns (r: ElementMap)
    requires forall i :: 0 <= i < |c| ==> c[i].id in m && m[c[i].id] == c[i]
    ensures r == DeletedAll(m, IdsOf(c))
  {
    r := m;
    var i := 0;
    while i < |c|
      invariant 0 <= i <= |c|
      invariant r == DeletedAll(m, IdsOf(c[..i]))
    {
      assert c[..i + 1] == c[..i] + [c[i]];
      IdsOfAppend(c[..i], c[i]);
      DeletedAllStep(m, IdsOf(c[..i]), c[i].id);
      r := r[c[i].id := MarkDeleted(c[i])];
      i := i + 1;
    }
    assert c[..|c|] == c;
  }

  /** `c` holds, once each, the elements of the selected ids that exist. */
  ghost predicate IsSelectionCopy(m: ElementMap, sel: set<string>, c: seq<Element>) {
    && (forall i :: 0 <= i < |c| ==> c[i].id in sel && c[i].id in m && m[c[i].id] == c[i])
    && (forall i, j :: 0 <= i < j < |c| ==> c[i].id != c[j].id)
    && (forall k :: k in sel && k in m ==> k in IdsOf(c))
  }

  /** `vals` lists every element of `m` exactly once (some order of `m.values()`). */
  ghost predicate Enumerates(m: ElementMap, vals: seq<Element>) {
    IsSelectionCopy(m, m.Keys, vals)
  }

  /** The clipboard of a copy or cut has one entry per selected existing id. */
  lemma {:induction false} SelectionCopySize(m: ElementMap, sel: set<string>, c: seq<Element>)
    requires IsSelectionCopy(m, sel, c)
    ensures IdsOf(c) == sel * m.Keys
    ensures |c| == |sel * m.Keys|
  {
    IdsCardinality(c);
  }

  lemma {:induction false} IdsCardinality(c: seq<Element>)
    requires forall i, j :: 0 <= i < j < |c| ==> c[i].id != c[j].id
    ensures |IdsOf(c)| == |c|
  {
    if c != [] {
      var init := c[..|c| - 1];
      IdsCardinality(init);
      assert IdsOf(c) == IdsOf(init) + {c[|c| - 1].id};
      assert c[|c| - 1].id !in IdsOf(init);
    }
  }

  /** The element created for clipboard entry `e` with id `id`, where `z` is
      the value of the `now++` counter: zIndex gets the counter before the
      increment, createdAt and updatedAt the value after it. */
  function PasteCopy(e: Element, id: string, z: int): Element {
    e.(id := id, x := e.x + PASTE_OFFSET, y := e.y + PASTE_OFFSET, zIndex := z,
       createdAt := z + 1, updatedAt := z + 1, isDeleted := Some(false))
  }

  function Pasted(m: ElementMap, c: seq<Element>, ids: seq<string>, now: int): (r: ElementMap)
    requires |ids| == |c|
    ensures StoredUnderOwnId(m) ==> StoredUnderOwnId(r)
    decreases |c|
  {
    if c == [] then m
    else Pasted(m[ids[0] := PasteCopy(c[0], ids[0], now)], c[1..], ids[1..], now + 1)
  }

  /** Paste adds exactly the new ids and leaves every element whose id is
      not among them untouched (all existing ones when the ids are fresh). */
  lemma {:induction false} PasteFrame(m: ElementMap, c: seq<Element>, ids: seq<string>, now: int)
    requires |ids| == |c|
    ensures Pasted(m, c, ids, now).Keys == m.Keys + set x | x in ids
    ensures forall k :: k in m && k !in ids ==> Pasted(m, c, ids, now)[k] == m[k]
    decreases |c|
  {
    if c != [] {
      var m' := m[ids[0] := PasteCopy(c[0], ids[0], now)];
      PasteFrame(m', c[1..], ids[1..], now + 1);
      assert (set x | x in ids) == {ids[0]} + set x | x in ids[1..];
      forall k | k in m && k !in ids ensures Pasted(m, c, ids, now)[k] == m[k] {
        PasteKeepsKey(m, c, ids, now, k);
      }
    }
  }

  /** With distinct new ids, entry i of the clipboard becomes the element
      under ids[i], moved by +20/+20, with counter value now + i. */
  lemma {:induction false} PasteCopies(m: ElementMap, c: seq<Element>, ids: seq<string>, now: int)
    requires |ids| == |c|
    requires forall i, j :: 0 <= i < j < |ids| ==> ids[i] != ids[j]
    ensures forall i :: 0 <= i < |c| ==> ids[i] in Pasted(m, c, ids, now)
    ensures forall i :: 0 <= i < |c| ==> Pasted(m, c, ids, now)[ids[i]] == PasteCopy(c[i], ids[i], now + i)
    decreases |c|
  {
    if c != [] {
      var m' := m[ids[0] := PasteCopy(c[0], ids[0], now)];
      var r := Pasted(m, c, ids, now);
      PasteCopies(m', c[1..], ids[1..], now + 1);
      assert ids[0] !in ids[1..] by {
        forall j | 0 <= j < |ids[1..]| ensures ids[1..][j] != ids[0] {
          assert ids[1..][j] == ids[j + 1];
        }
      }
      PasteKeepsKey(m', c[1..], ids[1..], now + 1, ids[0]);
      forall i | 0 <= i < |c| ensures ids[i] in r && r[ids[i]] == PasteCopy(c[i], ids[i], now + i) {
        if i > 0 {
          assert ids[i] == ids[1..][i - 1] && c[i] == c[1..][i - 1];
        }
      }
    }
  }

  /** A key that paste does not write keeps its value. */
  lemma {:induction false} PasteKeepsKey(m: ElementMap, c: seq<Element>, ids: seq<string>, now: int, k: string)
    requires |ids| == |c| && k in m && k !in ids
    ensures k in Pasted(m, c, ids, now) && Pasted(m, c, ids, now)[k] == m[k]
    decreases |c|
  {
    if c != [] {
      PasteKeepsKey(m[ids[0] := PasteCopy(c[0], ids[0], now)], c[1..], ids[1..], now + 1, k);
    }
  }

  /** The pasted copies are live and stack in clipboard order. */
  lemma PastedLiveAndOrdered(m: ElementMap, c: seq<Element>, ids: seq<string>, now: int)
    requires |ids| == |c|
    requires forall i, j :: 0 <= i < j < |ids| ==> ids[i] != ids[j]
    ensures forall i :: 0 <= i < |c| ==> ids[i] in Pasted(m, c, ids, now) && Live(Pasted(m, c, ids, now)[ids[i]])
    ensures forall i, j :: 0 <= i < j < |c| ==>
      Pasted(m, c, ids, now)[ids[i]].zIndex < Pasted(m, c, ids, now)[ids[j]].zIndex
  {
    PasteCopies(m, c, ids, now);
  }

  // ---------------------------------------------------------------------
  // History

  datatype History = History(snapshots: seq<ElementMap>, index: int)

  /** -1 <= historyIndex < |history| <= 50, and the index is -1 only when
      the history is empty. */
  ghost predicate HistoryValid(h: History) {
    -1 <= h.index < |h.snapshots| <= HISTORY_LIMIT && (|h.snapshots| > 0 ==> h.index >= 0)
  }

  /** saveHistory: drop the redo suffix, append a copy of the elements,
      evict the oldest beyond 50, point at the last entry. */
  function SaveSnapshot(h: History, m: ElementMap): (r: History)
    requires HistoryValid(h)
    ensures |r.snapshots| >= 1 && r.index == |r.snapshots| - 1
    ensures HistoryValid(r)
    ensures r.snapshots[r.index] == m
    ensures var d := if h.index + 2 > HISTORY_LIMIT then 1 else 0;
            && |r.snapshots| == h.index + 2 - d
            && forall i :: d <= i <= h.index ==> r.snapshots[i - d] == h.snapshots[i]
  {
    var kept := h.snapshots[..h.index + 1] + [m];
    assert |kept| == h.index + 2 && kept[|kept| - 1] == m;
    var trimmed := if |kept| > HISTORY_LIMIT then kept[1..] else kept;
    assert 1 <= |trimmed| <= HISTORY_LIMIT && trimmed[|trimmed| - 1] == m;
    History(trimmed, |trimmed| - 1)
  }

  /** undo: at index <= 0 nothing happens; otherwise step back and yield
      the snapshot to restore. */
  function UndoStep(h: History): (History, Option<ElementMap>)
    requires HistoryValid(h)
  {
    if h.index <= 0 then (h, None)
    else (h.(index := h.index - 1), Some(h.snapshots[h.index - 1]))
  }

  /** redo: at the last index nothing happens; otherwise step forward. */
  function RedoStep(h: History): (History, Option<ElementMap>)
    requires HistoryValid(h)
  {
    if h.index >= |h.snapshots| - 1 then (h, None)
    else (h.(index := h.index + 1), Some(h.snapshots[h.index + 1]))
  }

  /** Undo and redo keep the history invariant, move the index by exactly
      one when they act, and act exactly when not at their boundary. */
  lemma {:induction false} StepsKeepValid(h: History)
    requires HistoryValid(h)
    ensures HistoryValid(UndoStep(h).0) && HistoryValid(RedoStep(h).0)
    ensures UndoStep(h).1.Some? <==> h.index > 0
    ensures RedoStep(h).1.Some? <==> h.index < |h.snapshots| - 1
    ensures UndoStep(h).1.Some? ==> UndoStep(h).0.index == h.index - 1
    ensures RedoStep(h).1.Some? ==> RedoStep(h).0.index == h.index + 1
    ensures UndoStep(h).0.snapshots == h.snapshots && RedoStep(h).0.snapshots == h.snapshots
  {
  }

  /** Undo right after saveHistory restores the snapshot that was current
      before the save (also when the save evicted the oldest entry). */
  lemma {:induction false} UndoAfterSave(h: History, m: ElementMap)
    requires HistoryValid(h) && h.index >= 0
    ensures UndoStep(SaveSnapshot(h, m)).1 == Some(h.snapshots[h.index])
  {
    var kept := h.snapshots[..h.index + 1] + [m];
    assert kept[h.index] == h.snapshots[h.index];
    if |kept| > HISTORY_LIMIT {
      assert kept[1..][h.index - 1] == kept[h.index];
    }
  }

  /** Redo right after undo returns to the index undo left, restoring the
      snapshot stored there; right after a save, redo does nothing. */
  lemma {:induction false} RedoAfterUndo(h: History, m: ElementMap)
    requires HistoryValid(h) && h.index > 0
    ensures RedoStep(UndoStep(h).0) == (h, Some(h.snapshots[h.index]))
    ensures RedoStep(SaveSnapshot(h, m)).1 == None
  {
  }

  /** `k` undos in a row: the history they leave and the snapshot the last
      of them restores. */
  function Undos(h: History, k: nat): (r: (History, Option<ElementMap>))
    requires HistoryValid(h)
    ensures HistoryValid(r.0) && r.0.snapshots == h.snapshots
    ensures k <= h.index ==> r.0.index == h.index - k
    ensures 0 < k <= h.index ==> r.1 == Some(h.snapshots[h.index - k])
    decreases k
  {
    if k == 0 then (h, None)
    else
      var prev := Undos(h, k - 1).0;
      StepsKeepValid(prev);
      UndoStep(prev)
  }

  /** Undoing `k` times right after a save walks back through the snapshots
      that were current, and before them, at the save; the oldest one is
      out of reach once the save evicted it. */
  lemma UndosAfterSave(h: History, m: ElementMap, k: nat)
    requires HistoryValid(h)
    requires 1 <= k <= h.index + (if h.index + 2 > HISTORY_LIMIT then 0 else 1)
    ensures Undos(SaveSnapshot(h, m), k).1 == Some(h.snapshots[h.index + 1 - k])
  {
  }

  // ---------------------------------------------------------------------
  // Ephemeral overlay elements

  datatype EphemeralElement = EphemeralElement(element: Element, expiresAt: int)

  /** The entries that survive a sweep at time `now` (expiresAt > now). */
  function Unexpired(e: map<string, EphemeralElement>, now: int): map<string, EphemeralElement> {
    map k | k in e && e[k].expiresAt > now :: e[k]
  }

  /** A sweep removes exactly the entries with expiresAt <= now; sweeping at
      a later time subsumes an earlier sweep. */
  lemma {:induction false} SweepProperties(e: map<string, EphemeralElement>, t1: int, t2: int)
    requires t1 <= t2
    ensures forall k :: k in Unexpired(e, t1) <==> k in e && e[k].expiresAt > t1
    ensures forall k :: k in Unexpired(e, t1) ==> Unexpired(e, t1)[k] == e[k]
    ensures Unexpired(Unexpired(e, t1), t2) == Unexpired(e, t2)
    ensures Unexpired(Unexpired(e, t1), t1) == Unexpired(e, t1)
  {
  }

  /** Math.max(0.1, Math.min(5, zoom)) */
  function ClampZoom(z: real): (r: real)
    ensures MIN_ZOOM <= r <= MAX_ZOOM
    ensures MIN_ZOOM <= z <= MAX_ZOOM ==> r == z
    ensures z < MIN_ZOOM ==> r == MIN_ZOOM
    ensures z > MAX_ZOOM ==> r == MAX_ZOOM
  {
    if z > MAX_ZOOM then MAX_ZOOM else if z < MIN_ZOOM then MIN_ZOOM else z
  }

  // ---------------------------------------------------------------------
  // The store object

  class Store {
    var elements: ElementMap
    var selected: set<string>
    var viewportOffset: Point
    var zoom: real
    var canvasId: string
    var canvasName: string
    var ephemeral: map<string, EphemeralElement>
    var isDrawing: bool
    var currentElement: Option<Element>
    var clipboard: Option<seq<Element>>
    var history: seq<ElementMap>
    var historyIndex: int
    var cursors: map<string, CursorPosition>
    var activeTool: Tool
    var strokeColor: string
    var fillColor: string
    var strokeWidth: real

    ghost predicate Valid()
      reads this
    {
      && StoredUnderOwnId(elements)
      && HistoryValid(History(history, historyIndex))
      && (forall i :: 0 <= i < |history| ==> StoredUnderOwnId(history[i]))
      && MIN_ZOOM <= zoom <= MAX_ZOOM
    }

    /** The initial store state. */
    constructor ()
      ensures Valid()
      ensures elements == map[] && selected == {} && ephemeral == map[] && cursors == map[]
      ensures zoom == 1.0 && viewportOffset == Point(0.0, 0.0)
      ensures canvasId == "" && canvasName == "Untitled Canvas"
      ensures clipboard == None && history == [] && historyIndex == -1
      ensures !isDrawing && currentElement == None
      ensures activeTool == SelectTool && strokeColor == "#ffffff" && fillColor == "transparent" && strokeWidth == 2.0
    {
      elements := map[];
      selected := {};
      viewportOffset := Point(0.0, 0.0);
      zoom := 1.0;
      canvasId := "";
      canvasName := "Untitled Canvas";
      ephemeral := map[];
      isDrawing := false;
      currentElement := None;
      clipboard := None;
      history := [];
      historyIndex := -1;
      cursors := map[];
      activeTool := SelectTool;
      strokeColor := "#ffffff";
      fillColor := "transparent";
      strokeWidth := 2.0;
    }

    method SetActiveTool(t: Tool)
      modifies this`activeTool
      ensures activeTool == t
    {
      activeTool := t;
    }

    method SetStrokeColor(c: string)
      modifies this`strokeColor
      ensures strokeColor == c
    {
      strokeColor := c;
    }

    method SetFillColor(c: string)
      modifies this`fillColor
      ensures fillColor == c
    {
      fillColor := c;
    }

    method SetStrokeWidth(w: real)
      modifies this`strokeWidth
      ensures strokeWidth == w
    {
      strokeWidth := w;
    }

    method SetZoom(z: real)
      requires Valid()
      modifies this`zoom
      ensures Valid() && zoom == ClampZoom(z)
    {
      zoom := ClampZoom(z);
    }

    method SetViewportOffset(p: Point)
      modifies this`viewportOffset
      ensures viewportOffset == p
    {
      viewportOffset := p;
    }

    method SetCanvasId(id: string)
      modifies this`canvasId
      ensures canvasId == id
    {
      canvasId := id;
    }

    method SetCanvasName(name: string)
      modifies this`canvasName
      ensures canvasName == name
    {
      canvasName := name;
    }

    method SetIsDrawing(b: bool)
      modifies this`isDrawing
      ensures isDrawing == b
    {
      isDrawing := b;
    }

    method SetCurrentElement(e: Option<Element>)
      modifies this`currentElement
      ensures currentElement == e
    {
      currentElement := e;
    }

    /** addElement: store (or replace) the element under its own id. */
    method AddElement(e: Element)
      requires Valid()
      modifies this`elements
      ensures Valid()
      ensures elements == old(elements)[e.id := e]
    {
      elements := elements[e.id := e];
    }

    /** updateElement(id, updates) at time `now`. */
    method UpdateElement(id: string, p: Patch, now: int)
      requires Valid()
      modifies this`elements
      ensures Valid()
      ensures elements == Updated(old(elements), id, p, now)
    {
      if id in elements {
        elements := elements[id := Overlay(elements[id], p, now)];
      }
    }

    method DeleteElement(id: string)
      requires Valid()
      modifies this`elements
      ensures Valid()
      ensures elements == Deleted(old(elements), id)
    {
      if id in elements {
        elements := elements[id := MarkDeleted(elements[id])];
      }
    }

    /** deleteSelectedElements: flag every present selected id, then empty the selection. */
    method DeleteSelectedElements()
      requires Valid()
      modifies this`elements, this`selected
      ensures Valid()
      ensures elements == DeletedAll(old(elements), old(selected))
      ensures selected == {}
    {
      var m := elements;
      var todo := selected;
      while todo != {}
        invariant todo <= selected
        invariant m == DeletedAll(elements, selected - todo)
        decreases todo
      {
        var k :| k in todo;
        if k in m {
          m := m[k := MarkDeleted(m[k])];
        }
        todo := todo - {k};
      }
      elements := m;
      selected := {};
    }

    method SetSelectedElementIds(ids: set<string>)
      modifies this`selected
      ensures selected == ids
    {
      selected := ids;
    }

    method ClearSelection()
      modifies this`selected
      ensures selected == {}
    {
      selected := {};
    }

    method BringToFront(id: string, now: int)
      requires Valid()
      modifies this`elements
      ensures Valid()
      ensures id !in old(elements) ==> elements == old(elements)
      ensures id in old(elements) ==> elements == Fronted(old(elements), id, now)
    {
      if id !in elements {
        return;
      }
      var mx := 0;
      var todo := elements.Keys;
      while todo != {}
        invariant todo <= elements.Keys
        invariant mx >= 0
        invariant forall k :: k in elements && k !in todo && Live(elements[k]) ==> elements[k].zIndex <= mx
        invariant mx == 0 || exists k :: k in elements && k !in todo && Live(elements[k]) && elements[k].zIndex == mx
        decreases todo
      {
        var k :| k in todo;
        if Live(elements[k]) && elements[k].zIndex > mx {
          mx := elements[k].zIndex;
        }
        todo := todo - {k};
      }
      MaxLiveZUnique(elements, elements.Keys, 0, mx);
      elements := elements[id := elements[id].(zIndex := mx + 1, updatedAt := now)];
    }

    method SendToBack(id: string, now: int)
      requires Valid()
      modifies this`elements
      ensures Valid()
      ensures id !in old(elements) ==> elements == old(elements)
      ensures id in old(elements) ==> elements == Backed(old(elements), id, now)
    {
      if id !in elements {
        return;
      }
      var mn := 0;
      var todo := elements.Keys;
      while todo != {}
        invariant todo <= elements.Keys
        invariant mn <= 0
        invariant forall k :: k in elements && k !in todo && Live(elements[k]) ==> mn <= elements[k].zIndex
        invariant mn == 0 || exists k :: k in elements && k !in todo && Live(elements[k]) && elements[k].zIndex == mn
        decreases todo
      {
        var k :| k in todo;
        if Live(elements[k]) && elements[k].zIndex < mn {
          mn := elements[k].zIndex;
        }
        todo := todo - {k};
      }
      MinLiveZUnique(elements, elements.Keys, 0, mn);
      elements := elements[id := elements[id].(zIndex := mn - 1, updatedAt := now)];
    }

    /** bringForward: swap with the nearest strictly higher live element
        (among equals, the first one met in the map's order). */
    method BringForward(id: string, now: int)
      requires Valid()
      modifies this`elements
      ensures Valid()
      ensures id !in old(elements) ==> elements == old(elements)
      ensures id in old(elements) && !HasAbove(old(elements), id) ==> elements == old(elements)
      ensures id in old(elements) && HasAbove(old(elements), id) ==>
        exists n :: IsNextAbove(old(elements), id, n) && elements == Swapped(old(elements), id, n, now)
    {
      if id !in elements {
        return;
      }
      var cur := elements[id].zIndex;
      var found := false;
      var best := id;
      var todo := elements.Keys;
      while todo != {}
        invariant todo <= elements.Keys
        invariant found ==> best in elements && Live(elements[best]) && elements[best].zIndex > cur
        invariant found ==> forall k :: k in elements && k !in todo && Live(elements[k]) && elements[k].zIndex > cur
                                ==> elements[best].zIndex <= elements[k].zIndex
        invariant !found ==> forall k :: k in elements && k !in todo && Live(elements[k]) ==> elements[k].zIndex <= cur
        decreases todo
      {
        var k :| k in todo;
        if Live(elements[k]) && elements[k].zIndex > cur && (!found || elements[k].zIndex < elements[best].zIndex) {
          best := k;
          found := true;
        }
        todo := todo - {k};
      }
      if found {
        assert IsNextAbove(elements, id, best);
        elements := Swapped(elements, id, best, now);
      }
    }

    /** sendBackward: swap with the nearest strictly lower live element. */
    method SendBackward(id: string, now: int)
      requires Valid()
      modifies this`elements
      ensures Valid()
      ensures id !in old(elements) ==> elements == old(elements)
      ensures id in old(elements) && !HasBelow(old(elements), id) ==> elements == old(elements)
      ensures id in old(elements) && HasBelow(old(elements), id) ==>
        exists n :: IsNextBelow(old(elements), id, n) && elements == Swapped(old(elements), id, n, now)
    {
      if id !in elements {
        return;
      }
      var cur := elements[id].zIndex;
      var found := false;
      var best := id;
      var todo := elements.Keys;
      while todo != {}
        invariant todo <= elements.Keys
        invariant found ==> best in elements && Live(elements[best]) && elements[best].zIndex < cur
        invariant found ==> forall k :: k in elements && k !in todo && Live(elements[k]) && elements[k].zIndex < cur
                                ==> elements[k].zIndex <= elements[best].zIndex
        invariant !found ==> forall k :: k in elements && k !in todo && Live(elements[k]) ==> cur <= elements[k].zIndex
        decreases todo
      {
        var k :| k in todo;
        if Live(elements[k]) && elements[k].zIndex < cur && (!found || elements[k].zIndex > elements[best].zIndex) {
          best := k;
          found := true;
        }
        todo := todo - {k};
      }
      if found {
        assert IsNextBelow(elements, id, best);
        elements := Swapped(elements, id, best, now);
      }
    }

    /** `Array.from(selectedElementIds).map(get).filter(Boolean)`. */
    /** The existing elements among the ids `ks`, each once, in the order
        the set is walked. With `ks == selected` this is
        `Array.from(selectedElementIds).map(get).filter(Boolean)`; with
        `ks == elements.Keys` it is `Array.from(elements.values())`. */
    method Collect(ks: set<string>) returns (c: seq<Element>)
      requires Valid()
      ensures IsSelectionCopy(elements, ks, c)
    {
      c := [];
      var todo := ks;
      while todo != {}
        invariant todo <= ks
        invariant forall i :: 0 <= i < |c| ==> c[i].id in ks - todo && c[i].id in elements && elements[c[i].id] == c[i]
        invariant forall i, j :: 0 <= i < j < |c| ==> c[i].id != c[j].id
        invariant IdsOf(c) == (ks - todo) * elements.Keys
        decreases todo
      {
        var k :| k in todo;
        if k in elements {
          IdsOfAppend(c, elements[k]);
          c := c + [elements[k]];
        }
        todo := todo - {k};
      }
    }

    /** `Array.from(elements.values())` */
    method Values() returns (vals: seq<Element>)
      requires Valid()
      ensures Enumerates(elements, vals)
    {
      vals := Collect(elements.Keys);
    }

    /** copySelectedElements: only the clipboard changes. */
    method CopySelectedElements()
      requires Valid()
      modifies this`clipboard
      ensures Valid()
      ensures clipboard.Some? && IsSelectionCopy(elements, selected, clipboard.value)
    {
      var c := Collect(selected);
      clipboard := Some(c);
    }

    /** cutSelectedElements: the clipboard gets the records as they were
        before deletion; they are then flagged and the selection emptied. */
    method CutSelectedElements()
      requires Valid()
      modifies this`clipboard, this`elements, this`selected
      ensures Valid()
      ensures clipboard.Some? && IsSelectionCopy(old(elements), old(selected), clipboard.value)
      ensures elements == DeletedAll(old(elements), old(selected))
      ensures selected == {}
    {
      var c := Collect(selected);
      var e0, s0 := elements, selected;
      SelectionCopySize(e0, s0, c);
      var m := MarkListedDeleted(e0, c);
      assert IdsOf(c) * e0.Keys == s0 * e0.Keys;
      DeletedAllPresent(e0, IdsOf(c), s0);
      clipboard := Some(c);
      elements := m;
      selected := {};
    }

    /** pasteElements at time `now`; `newIds` are the ids the random
        generator yields, one per clipboard entry. */
    method PasteElements(newIds: seq<string>, now: int)
      requires Valid()
      requires clipboard.Some? ==> |newIds| == |clipboard.value|
      modifies this`elements, this`selected
      ensures Valid()
      ensures (clipboard.None? || clipboard.value == []) ==> elements == old(elements) && selected == old(selected)
      ensures clipboard.Some? && clipboard.value != [] ==>
        && elements == Pasted(old(elements), clipboard.value, newIds, now)
        && selected == set x | x in newIds
    {
      if clipboard.None? || clipboard.value == [] {
        return;
      }
      var c := clipboard.value;
      var m := elements;
      var ids: set<string> := {};
      var counter := now;
      var i := 0;
      while i < |c|
        invariant 0 <= i <= |c|
        invariant counter == now + i
        invariant Pasted(m, c[i..], newIds[i..], counter) == Pasted(elements, c, newIds, now)
        invariant ids == set x | x in newIds[..i]
      {
        assert c[i..][1..] == c[i + 1..] && newIds[i..][1..] == newIds[i + 1..];
        assert newIds[..i + 1] == newIds[..i] + [newIds[i]];
        m := m[newIds[i] := PasteCopy(c[i], newIds[i], counter)];
        ids := ids + {newIds[i]};
        counter := counter + 1;
        i := i + 1;
      }
      assert newIds[..|c|] == newIds;
      elements := m;
      selected := ids;
    }

    method SaveHistory()
      requires Valid()
      modifies this`history, this`historyIndex
      ensures Valid()
      ensures History(history, historyIndex) == SaveSnapshot(History(old(history), old(historyIndex)), elements)
    {
      var kept := history[..historyIndex + 1] + [elements];
      if |kept| > HISTORY_LIMIT {
        kept := kept[1..];
      }
      history := kept;
      historyIndex := |kept| - 1;
    }

    method Undo()
      requires Valid()
      modifies this`elements, this`historyIndex
      ensures Valid()
      ensures var (h, restored) := UndoStep(History(history, old(historyIndex)));
              historyIndex == h.index && elements == restored.GetOr(old(elements))
    {
      if historyIndex <= 0 {
        return;
      }
      historyIndex := historyIndex - 1;
      elements := history[historyIndex];
    }

    method Redo()
      requires Valid()
      modifies this`elements, this`historyIndex
      ensures Valid()
      ensures var (h, restored) := RedoStep(History(history, old(historyIndex)));
              historyIndex == h.index && elements == restored.GetOr(old(elements))
    {
      if historyIndex >= |history| - 1 {
        return;
      }
      historyIndex := historyIndex + 1;
      elements := history[historyIndex];
    }

    method UpdateCursor(c: CursorPosition)
      modifies this`cursors
      ensures cursors == old(cursors)[c.pubkey := c]
    {
      cursors := cursors[c.pubkey := c];
    }

    method RemoveCursor(pubkey: string)
      modifies this`cursors
      ensures cursors == old(cursors) - {pubkey}
    {
      cursors := cursors - {pubkey};
    }

    /** addEphemeralElement(element, duration) at time `now`. */
    method AddEphemeralElement(e: Element, duration: int, now: int)
      modifies this`ephemeral
      ensures ephemeral == old(ephemeral)[e.id := EphemeralElement(e, now + duration)]
    {
      ephemeral := ephemeral[e.id := EphemeralElement(e, now + duration)];
    }

    /** removeExpiredEphemeralElements at time `now`. */
    method RemoveExpiredEphemeralElements(now: int)
      modifies this`ephemeral
      ensures ephemeral == Unexpired(old(ephemeral), now)
    {
      var m := ephemeral;
      var todo := ephemeral.Keys;
      while todo != {}
        invariant todo <= ephemeral.Keys
        invariant m == map k | k in ephemeral && (k in todo || ephemeral[k].expiresAt > now) :: ephemeral[k]
        decreases todo
      {
        var k :| k in todo;
        if ephemeral[k].expiresAt <= now {
          m := m - {k};
        }
        todo := todo - {k};
      }
      ephemeral := m;
    }

    /** loadElements: replace the map wholesale. */
    method LoadElements(items: seq<Element>)
      requires Valid()
      modifies this`elements
      ensures Valid()
      ensures elements == FromList(items)
    {
      var m: ElementMap := map[];
      var i := 0;
      while i < |items|
        invariant 0 <= i <= |items|
        invariant m == FromList(items[..i])
      {
        assert items[..i + 1][..i] == items[..i];
        m := m[items[i].id := items[i]];
        i := i + 1;
      }
      assert items[..|items|] == items;
      elements := m;
    }

    /** clearCanvas: elements, selection and the element being drawn are
        reset; the history is kept. */
    method ClearCanvas()
      requires Valid()
      modifies this`elements, this`selected, this`currentElement
      ensures Valid()
      ensures elements == map[] && selected == {} && currentElement == None
    {
      elements := map[];
      selected := {};
      currentElement := None;
    }
  }
}
