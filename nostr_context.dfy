/** The decision logic of the Nostr sync layer (lib/nostr-context.tsx):
    the envelopes it publishes, how inbound canvas actions and cursors are
    applied to the store, the checkpoint save/load/list rules, key parsing
    and the signer choice. Relays, signing, JSON and key derivation are
    opaque: their outcomes are parameters. */
module NostrContext {
  import opened Wrappers
  import opened Types
  import opened JsStrings
  import opened Sorting
  import opened NostrConnect
  import opened CanvasStore

  const DEFAULT_RELAYS: seq<string> := ["wss://relay.damus.io", "wss://nos.lol", "wss://relay.snort.social",
                                        "wss://relay.nsec.app", "wss://relay.primal.net"]

  const CURSOR_COLORS: seq<string> := ["#f59e0b", "#8b5cf6", "#ec4899", "#06b6d4", "#10b981", "#f97316"]

  /** The logged-in user. */
  datatype User = User(pubkey: string, npub: string, name: Option<string>, picture: Option<string>)

  // ---------------------------------------------------------------------
  // Relay outcomes and signing

  /** The number of `fulfilled` entries of Promise.allSettled. */
  function FulfilledCount(outcomes: seq<bool>): (n: nat)
    ensures n <= |outcomes|
  {
    if outcomes == [] then 0 else (if outcomes[0] then 1 else 0) + FulfilledCount(outcomes[1..])
  }

  /** `successCount > 0` holds exactly when some relay accepted the event. */
  lemma {:induction false} SuccessIffOneAccepted(outcomes: seq<bool>)
    ensures FulfilledCount(outcomes) > 0 <==> exists i :: 0 <= i < |outcomes| && outcomes[i]
    ensures (forall i :: 0 <= i < |outcomes| ==> outcomes[i]) ==> FulfilledCount(outcomes) == |outcomes|
  {
    if outcomes != [] {
      SuccessIffOneAccepted(outcomes[1..]);
      assert forall i :: 1 <= i < |outcomes| ==> outcomes[i] == outcomes[1..][i - 1];
      if FulfilledCount(outcomes[1..]) > 0 {
        var j :| 0 <= j < |outcomes[1..]| && outcomes[1..][j];
        assert outcomes[j + 1];
      }
    }
  }

  /** Which signer signEvent uses. */
  datatype Signer = ExtensionSigner | LocalKeySigner | NoSigner

  /** The browser extension is used only when there is no local key; with
      neither, signEvent returns null. */
  function ChooseSigner(hasExtension: bool, hasPrivateKey: bool): (s: Signer)
    ensures s == LocalKeySigner <==> hasPrivateKey
    ensures s == ExtensionSigner <==> hasExtension && !hasPrivateKey
    ensures s == NoSigner <==> !hasExtension && !hasPrivateKey
  {
    if hasExtension && !hasPrivateKey then ExtensionSigner
    else if hasPrivateKey then LocalKeySigner
    else NoSigner
  }

  /** signEvent yields an event iff a signer exists and it did not throw. */
  function Signed(signer: Signer, signerSucceeded: bool): bool {
    signer != NoSigner && signerSucceeded
  }

  // ---------------------------------------------------------------------
  // Outgoing envelopes

  datatype Action = Add | Update | Delete

  /** The JSON content `{action, element, timestamp}`. */
  datatype ActionContent = ActionContent(action: Action, element: Element, timestamp: int)

  /** The JSON content `{x, y, canvasId, timestamp}`. */
  datatype CursorContent = CursorContent(x: real, y: real, canvasId: string, timestamp: int)

  /** publishCanvasAction: the event handed to the relays, if any. Nothing
      is sent without a pool or a user, or when signing yields nothing. */
  function PublishCanvasAction(hasPool: bool, user: Option<User>, action: Action, element: Element,
                               canvasId: string, nowMs: int, signed: bool): (r: Option<UnsignedEvent<ActionContent>>)
    ensures r.Some? <==> hasPool && user.Some? && signed
    ensures r.Some? ==> && r.value.kind == NOSTR_KIND_CANVAS_ACTION
                        && r.value.tags == [["d", canvasId], ["canvas", canvasId], ["author", user.value.pubkey]]
                        && r.value.content == ActionContent(action, element, nowMs)
                        && r.value.pubkey == user.value.pubkey
                        && r.value.createdAt * 1000 <= nowMs < r.value.createdAt * 1000 + 1000
  {
    if !hasPool || user.None? || !signed then None
    else Some(UnsignedEvent(NOSTR_KIND_CANVAS_ACTION, UnixSeconds(nowMs),
                            [["d", canvasId], ["canvas", canvasId], ["author", user.value.pubkey]],
                            ActionContent(action, element, nowMs), user.value.pubkey))
  }

  /** publishCursorPosition: same gating, kind 25050, no d-tag. */
  function PublishCursorPosition(hasPool: bool, user: Option<User>, x: real, y: real, canvasId: string,
                                 nowMs: int, signed: bool): (r: Option<UnsignedEvent<CursorContent>>)
    ensures r.Some? <==> hasPool && user.Some? && signed
    ensures r.Some? ==> && r.value.kind == NOSTR_KIND_CURSOR_POSITION
                        && r.value.tags == [["canvas", canvasId], ["author", user.value.pubkey]]
                        && r.value.content == CursorContent(x, y, canvasId, nowMs)
                        && r.value.pubkey == user.value.pubkey
  {
    if !hasPool || user.None? || !signed then None
    else Some(UnsignedEvent(NOSTR_KIND_CURSOR_POSITION, UnixSeconds(nowMs),
                            [["canvas", canvasId], ["author", user.value.pubkey]],
                            CursorContent(x, y, canvasId, nowMs), user.value.pubkey))
  }

  /** Cursor events are ephemeral, so relays do not store them; action
      events are addressable and carry a d-tag, so a relay keeps only the
      latest action per author and canvas. */
  lemma {:induction false} EnvelopeStorageClasses(hasPool: bool, user: Option<User>, action: Action, element: Element,
                                                  x: real, y: real, canvasId: string, nowMs: int)
    requires hasPool && user.Some?
    ensures ClassOf(PublishCanvasAction(hasPool, user, action, element, canvasId, nowMs, true).value.kind) == Addressable
    ensures PublishCanvasAction(hasPool, user, action, element, canvasId, nowMs, true).value.tags[0] == ["d", canvasId]
    ensures ClassOf(PublishCursorPosition(hasPool, user, x, y, canvasId, nowMs, true).value.kind) == Ephemeral
  {
    KindClasses();
  }

  /** The two subscriptions of subscribeToCanvas (none without a pool or user). */
  function CanvasSubscriptions(hasPool: bool, user: Option<User>, canvasId: string, nowMs: int): (fs: seq<Filter>)
    ensures |fs| == (if hasPool && user.Some? then 2 else 0)
    ensures |fs| == 2 ==> fs[0].kinds == [NOSTR_KIND_CANVAS_ACTION] && fs[0].canvasTags == Some([canvasId])
                          && fs[0].since.None?
    ensures |fs| == 2 ==> fs[1].kinds == [NOSTR_KIND_CURSOR_POSITION] && fs[1].canvasTags == Some([canvasId])
                          && fs[1].since == Some(UnixSeconds(nowMs) - 60)
  {
    if !hasPool || user.None? then []
    else [Filter([NOSTR_KIND_CANVAS_ACTION], None, None, None, Some([canvasId]), None, None),
          Filter([NOSTR_KIND_CURSOR_POSITION], None, None, None, Some([canvasId]), Some(UnixSeconds(nowMs) - 60), None)]
  }

  // ---------------------------------------------------------------------
  // Inbound canvas actions

  /** The parsed content of an action event: its `action` string and its
      `element` (`None` when absent). */
  datatype ActionPayload = ActionPayload(action: string, element: Option<Element>)

  /** An action event: its author and its content, `None` when JSON.parse throws. */
  datatype InboundAction = InboundAction(pubkey: string, payload: Option<ActionPayload>)

  /** The `onevent` handler of the action subscription, on the elements map.
      A missing element makes the store call throw, which the handler
      swallows: no effect. */
  function ApplyRemoteAction(m: ElementMap, self: string, ev: InboundAction, now: int): ElementMap {
    if ev.payload.None? || ev.pubkey == self || ev.payload.value.element.None? then m
    else
      var e := ev.payload.value.element.value;
      match ev.payload.value.action
      case "add" => m[e.id := e]
      case "update" => Updated(m, e.id, FullPatch(e), now)
      case "delete" => Deleted(m, e.id)
      case _ => m
  }

  /** Own events, unparsable content and unknown actions have no effect. */
  lemma {:induction false} RemoteIgnored(m: ElementMap, self: string, ev: InboundAction, now: int)
    requires || ev.pubkey == self || ev.payload.None?
             || (ev.payload.Some? && ev.payload.value.action !in {"add", "update", "delete"})
    ensures ApplyRemoteAction(m, self, ev, now) == m
  {
  }

  /** Re-delivery of the same add or delete changes nothing more. */
  lemma {:induction false} RemoteAddDeleteIdempotent(m: ElementMap, self: string, ev: InboundAction, now1: int, now2: int)
    requires ev.payload.Some? && ev.payload.value.action in {"add", "delete"}
    ensures ApplyRemoteAction(ApplyRemoteAction(m, self, ev, now1), self, ev, now2) == ApplyRemoteAction(m, self, ev, now1)
  {
    if ev.payload.value.element.Some? && ev.payload.value.action == "delete" {
      DeleteProperties(m, ev.payload.value.element.value.id);
    }
  }

  /** A remote update of an id the store does not hold is dropped. */
  lemma {:induction false} RemoteUpdateOfUnknown(m: ElementMap, self: string, e: Element, pk: string, now: int)
    requires e.id !in m
    ensures ApplyRemoteAction(m, self, InboundAction(pk, Some(ActionPayload("update", Some(e)))), now) == m
  {
  }

  /** Tombstones are not sticky: a remote add of a deleted id without the
      flag revives it, and so does a remote update carrying
      `isDeleted: false`; an update without the flag keeps it deleted. */
  lemma {:induction false} RemoteResurrection(m: ElementMap, self: string, pk: string, e: Element, now: int)
    requires pk != self && e.id in m && !Live(m[e.id])
    ensures e.isDeleted == None ==>
      Live(ApplyRemoteAction(m, self, InboundAction(pk, Some(ActionPayload("add", Some(e)))), now)[e.id])
    ensures e.isDeleted == Some(false) ==>
      Live(ApplyRemoteAction(m, self, InboundAction(pk, Some(ActionPayload("update", Some(e)))), now)[e.id])
    ensures e.isDeleted == None ==>
      !Live(ApplyRemoteAction(m, self, InboundAction(pk, Some(ActionPayload("update", Some(e)))), now)[e.id])
  {
  }

  /** Remote updates are applied in arrival order with no timestamp check:
      of two updates to one element, the one that arrives last wins, even
      when it is older. */
  lemma {:induction false} ArrivalOrderWins(m: ElementMap, self: string, pk1: string, pk2: string,
                                            e1: Element, e2: Element, now1: int, now2: int)
    requires pk1 != self && pk2 != self && e1.id == e2.id && e1.id in m
    ensures var m1 := ApplyRemoteAction(m, self, InboundAction(pk1, Some(ActionPayload("update", Some(e1)))), now1);
            var m2 := ApplyRemoteAction(m1, self, InboundAction(pk2, Some(ActionPayload("update", Some(e2)))), now2);
            && m2[e2.id].x == e2.x && m2[e2.id].y == e2.y && m2[e2.id].zIndex == e2.zIndex
            && m2[e2.id].strokeColor == e2.strokeColor && m2[e2.id].updatedAt == now2
  {
  }

  /** The handler applied to the store: an own event is dropped before
      anything else; otherwise the action is dispatched to addElement,
      updateElement or deleteElement. */
  method OnActionEvent(store: Store, self: string, ev: InboundAction, now: int)
    requires store.Valid()
    modifies store`elements
    ensures store.Valid()
    ensures store.elements == ApplyRemoteAction(old(store.elements), self, ev, now)
  {
    if ev.payload.None? {
      return;
    }
    if ev.pubkey == self {
      return;
    }
    var p := ev.payload.value;
    if p.element.None? {
      return;
    }
    var e := p.element.value;
    if p.action == "add" {
      store.AddElement(e);
    } else if p.action == "update" {
      store.UpdateElement(e.id, FullPatch(e), now);
    } else if p.action == "delete" {
      store.DeleteElement(e.id);
    }
  }

  // ---------------------------------------------------------------------
  // Inbound cursors

  /** JavaScript `%` truncates toward zero: the remainder takes the sign of
      the dividend and is smaller than the divisor in magnitude; on a
      non-negative dividend it is the ordinary remainder. */
  function TruncRem(a: int, b: int): (r: int)
    requires b > 0
    ensures -b < r < b
    ensures a >= 0 ==> r == a % b
    ensures a < 0 ==> r <= 0
  {
    if a >= 0 then a % b else -((-a) % b)
  }

  /** Truncation is symmetric about zero: negating the dividend negates
      the remainder (Euclidean `%` is not, e.g. -7 % 6 == 5 there but -1 here). */
  lemma TruncRemOdd(a: int, b: int)
    requires b > 0
    ensures TruncRem(-a, b) == -TruncRem(a, b)
    ensures TruncRem(-7, 6) == -1 && -7 % 6 == 5
  {
  }

  /** `CURSOR_COLORS[parseInt(pubkey.slice(-2), 16) % 6]`: NaN or a
      negative index yields `undefined` (`None`). */
  function CursorColor(pubkey: string): (c: Option<string>) {
    var v := ParseIntHex(SliceFrom(pubkey, -2));
    if v.None? then None
    else
      var i := TruncRem(v.value, |CURSOR_COLORS|);
      if 0 <= i then Some(CURSOR_COLORS[i]) else None
  }

  /** For a key ending in two hex digits the colour is always defined, and
      it is the palette entry of that byte's value modulo 6. */
  lemma {:induction false} CursorColorOfHexKey(pubkey: string, hi: nat, lo: nat)
    requires |pubkey| >= 2 && hi < 16 && lo < 16
    requires pubkey[|pubkey| - 2..] == [HexDigitChar(hi), HexDigitChar(lo)]
    ensures CursorColor(pubkey) == Some(CURSOR_COLORS[(16 * hi + lo) % 6])
  {
    var v := 16 * hi + lo;
    assert ParseIntHex(SliceFrom(pubkey, -2)) == Some(v) by {
      assert SliceFrom(pubkey, -2) == pubkey[|pubkey| - 2..];
      ParseTwoDigits(hi, lo);
    }
    assert TruncRem(v, |CURSOR_COLORS|) == v % 6;
  }

  /** The colour depends on the last two characters only. */
  lemma {:induction false} CursorColorBySuffix(k1: string, k2: string)
    requires |k1| >= 2 && |k2| >= 2 && k1[|k1| - 2..] == k2[|k2| - 2..]
    ensures CursorColor(k1) == CursorColor(k2)
  {
    assert SliceFrom(k1, -2) == k1[|k1| - 2..];
    assert SliceFrom(k2, -2) == k2[|k2| - 2..];
  }

  /** The parsed content of a cursor event. */
  datatype CursorPayload = CursorPayload(x: real, y: real, timestamp: int)

  datatype InboundCursor = InboundCursor(pubkey: string, payload: Option<CursorPayload>)

  /** The `onevent` handler of the cursor subscription on the cursor map. */
  function ApplyRemoteCursor(cursors: map<string, CursorPosition>, self: string, ev: InboundCursor)
    : (r: map<string, CursorPosition>)
    ensures ev.pubkey == self || ev.payload.None? ==> r == cursors
    ensures ev.pubkey != self && ev.payload.Some? ==>
      && r.Keys == cursors.Keys + {ev.pubkey}
      && (forall k :: k in cursors && k != ev.pubkey ==> r[k] == cursors[k])
      && r[ev.pubkey].x == ev.payload.value.x && r[ev.pubkey].y == ev.payload.value.y
      && r[ev.pubkey].timestamp == ev.payload.value.timestamp
      && r[ev.pubkey].color == CursorColor(ev.pubkey)
  {
    if ev.pubkey == self || ev.payload.None? then cursors
    else
      var p := ev.payload.value;
      cursors[ev.pubkey := CursorPosition(ev.pubkey, p.x, p.y, CursorColor(ev.pubkey), None, p.timestamp)]
  }

  method OnCursorEvent(store: Store, self: string, ev: InboundCursor)
    modifies store`cursors
    ensures store.cursors == ApplyRemoteCursor(old(store.cursors), self, ev)
  {
    if ev.pubkey == self {
      return;
    }
    if ev.payload.None? {
      return;
    }
    var p := ev.payload.value;
    store.UpdateCursor(CursorPosition(ev.pubkey, p.x, p.y, CursorColor(ev.pubkey), None, p.timestamp));
  }

  // ---------------------------------------------------------------------
  // Checkpoints: save, load, list

  /** The JSON content of a checkpoint. */
  datatype CanvasData = CanvasData(version: string, canvasId: string, canvasName: string,
                                   elements: seq<Element>, timestamp: int)

  /** saveCanvasState: the event handed to the relays (if any) and the
      returned boolean. `values` is `Array.from(elements.values())`. */
  function SaveCanvasState(hasPool: bool, user: Option<User>, canvasId: string, canvasName: string,
                           values: seq<Element>, nowMs: int, signed: bool, outcomes: seq<bool>)
    : (r: (bool, Option<UnsignedEvent<CanvasData>>))
    ensures r.1.Some? <==> hasPool && user.Some? && signed
    ensures r.0 <==> r.1.Some? && FulfilledCount(outcomes) > 0
    ensures r.1.Some? ==> && r.1.value.kind == NOSTR_KIND_CANVAS_STATE
                          && r.1.value.tags == [["d", canvasId], ["title", canvasName], ["client", "NostrDraw"]]
                          && r.1.value.content == CanvasData("1.0", canvasId, canvasName, LiveOnly(values), nowMs)
                          && r.1.value.pubkey == user.value.pubkey
  {
    if !hasPool || user.None? || !signed then (false, None)
    else
      var ev := UnsignedEvent(NOSTR_KIND_CANVAS_STATE, UnixSeconds(nowMs),
                              [["d", canvasId], ["title", canvasName], ["client", "NostrDraw"]],
                              CanvasData("1.0", canvasId, canvasName, LiveOnly(values), nowMs), user.value.pubkey);
      (FulfilledCount(outcomes) > 0, Some(ev))
  }

  /** A checkpoint of the store holds exactly its non-deleted elements. */
  lemma {:induction false} CheckpointHoldsLiveElements(m: ElementMap, values: seq<Element>)
    requires Enumerates(m, values)
    ensures forall k :: k in m ==> (m[k] in LiveOnly(values) <==> Live(m[k]))
    ensures forall e :: e in LiveOnly(values) ==> e.id in m && m[e.id] == e
  {
    forall k | k in m && Live(m[k]) ensures m[k] in LiveOnly(values) {
      assert k in IdsOf(values);
      var i :| 0 <= i < |values| && values[i].id == k;
      assert values[i] == m[k];
    }
  }

  /** A stored checkpoint as JSON.parse returns it: `elements` is `None`
      when the key is absent. */
  datatype StoredCanvas = StoredCanvas(canvasId: Option<string>, canvasName: Option<string>,
                                       timestamp: int, elements: Option<seq<Element>>)

  /** An event's content: unparsable, or a parsed checkpoint. */
  datatype StoredContent = Unparsable | Parsed(data: StoredCanvas)

  /** The load filter: the given author if non-empty, else the logged-in
      user, else any author. */
  function LoadFilter(canvasId: string, authorPubkey: Option<string>, user: Option<User>): (f: Filter)
    ensures f.kinds == [NOSTR_KIND_CANVAS_STATE] && f.dTags == Some([canvasId]) && f.limit == Some(1)
    ensures authorPubkey.Some? && authorPubkey.value != "" ==> f.authors == Some([authorPubkey.value])
    ensures (authorPubkey.None? || authorPubkey.value == "") && user.Some? ==> f.authors == Some([user.value.pubkey])
    ensures (authorPubkey.None? || authorPubkey.value == "") && user.None? ==> f.authors.None?
  {
    var authors := if authorPubkey.Some? && authorPubkey.value != "" then Some([authorPubkey.value])
                   else if user.Some? then Some([user.value.pubkey])
                   else None;
    Filter([NOSTR_KIND_CANVAS_STATE], authors, Some([canvasId]), None, None, None, Some(1))
  }

  /** loadCanvasState: the first event's content, or null (`None`) without a
      pool, when the query throws (`query == None`), on no events, or when
      the first content is unparsable or lacks `elements` (the log line
      reads `elements.length`, and the catch turns that into null). */
  function LoadCanvasState(hasPool: bool, query: Option<seq<StoredContent>>): (r: Option<StoredCanvas>)
    ensures r.Some? <==> hasPool && query.Some? && |query.value| > 0 && query.value[0].Parsed?
                         && query.value[0].data.elements.Some?
    ensures r.Some? ==> r.value == query.value[0].data
  {
    if !hasPool || query.None? || query.value == [] then None
    else match query.value[0]
      case Unparsable => None
      case Parsed(d) => if d.elements.None? then None else Some(d)
  }

  /** One row of the canvas list. */
  datatype CanvasSummary = CanvasSummary(canvasId: Option<string>, canvasName: Option<string>,
                                         timestamp: int, elementCount: nat)

  /** `events.map(...)`: `None` as soon as one event throws. */
  function Summaries(events: seq<StoredContent>): (r: Option<seq<CanvasSummary>>)
    ensures r.Some? <==> forall i :: 0 <= i < |events| ==> events[i].Parsed? && events[i].data.elements.Some?
    ensures r.Some? ==> |r.value| == |events|
    ensures r.Some? ==> forall i :: 0 <= i < |events| ==>
      r.value[i] == CanvasSummary(events[i].data.canvasId, events[i].data.canvasName,
                                  events[i].data.timestamp, |events[i].data.elements.value|)
  {
    if events == [] then Some([])
    else
      var rest := Summaries(events[1..]);
      if events[0].Unparsable? || events[0].data.elements.None? || rest.None? then None
      else
        var d := events[0].data;
        Some([CanvasSummary(d.canvasId, d.canvasName, d.timestamp, |d.elements.value|)] + rest.value)
  }

  function NegTimestamp(s: CanvasSummary): int {
    -s.timestamp
  }

  /** listUserCanvases: [] without a pool or user, or when the query or any
      event throws; otherwise the summaries, newest first. */
  function ListUserCanvases(hasPool: bool, user: Option<User>, query: Option<seq<StoredContent>>)
    : seq<CanvasSummary>
  {
    if !hasPool || user.None? || query.None? then []
    else
      var s := Summaries(query.value);
      if s.None? then [] else SortBy(s.value, NegTimestamp)
  }

  /** The query behind the list: this user's checkpoints. */
  function ListFilter(user: User): (f: Filter)
    ensures f.kinds == [NOSTR_KIND_CANVAS_STATE] && f.authors == Some([user.pubkey])
    ensures f.dTags.None? && f.limit.None?
  {
    Filter([NOSTR_KIND_CANVAS_STATE], Some([user.pubkey]), None, None, None, None, None)
  }

  /** The list has one summary per event, newest first, and a single bad
      event empties it. */
  lemma {:induction false} ListingProperties(hasPool: bool, user: Option<User>, events: seq<StoredContent>)
    requires hasPool && user.Some?
    ensures var r := ListUserCanvases(hasPool, user, Some(events));
            && (forall i, j :: 0 <= i < j < |r| ==> r[i].timestamp >= r[j].timestamp)
            && ((exists i :: 0 <= i < |events| && (events[i].Unparsable? || events[i].data.elements.None?)) ==> r == [])
            && (Summaries(events).Some? ==> multiset(r) == multiset(Summaries(events).value) && |r| == |events|)
  {
    var r := ListUserCanvases(hasPool, user, Some(events));
    if Summaries(events).Some? {
      assert SortedBy(r, NegTimestamp);
      forall i, j | 0 <= i < j < |r| ensures r[i].timestamp >= r[j].timestamp {
        assert NegTimestamp(r[i]) <= NegTimestamp(r[j]);
      }
    }
  }

  // ---------------------------------------------------------------------
  // Notes

  const IMETA_BLURHASH := "blurhash LEHV6nWB2yk8pyo0adR*.7kCMdnj"

  /** The content of a note: the image URL is appended after a blank line
      unless the text already contains it. */
  function NoteText(content: string, imageUrl: Option<string>): string {
    if imageUrl.Some? && imageUrl.value != "" && !Contains(content, imageUrl.value)
    then content + "\n\n" + imageUrl.value
    else content
  }

  function NoteTags(imageUrl: Option<string>): seq<seq<string>> {
    var base := [["client", "NostrDraw"], ["t", "nostrdraw"], ["t", "art"]];
    if imageUrl.Some? && imageUrl.value != "" then
      base + [["image", imageUrl.value],
              ["imeta", "url " + imageUrl.value, "m image/png", IMETA_BLURHASH, "dim 1024x768"]]
    else base
  }

  /** publishNote: the kind-1 event sent (if any) and the returned boolean. */
  function PublishNote(hasPool: bool, user: Option<User>, content: string, imageUrl: Option<string>,
                       nowMs: int, signed: bool, outcomes: seq<bool>): (r: (bool, Option<UnsignedEvent<string>>))
    ensures r.1.Some? <==> hasPool && user.Some? && signed
    ensures r.0 <==> r.1.Some? && FulfilledCount(outcomes) > 0
    ensures r.1.Some? ==> r.1.value.kind == NOSTR_KIND_TEXT_NOTE && r.1.value.pubkey == user.value.pubkey
    ensures r.1.Some? ==> r.1.value.content == NoteText(content, imageUrl) && r.1.value.tags == NoteTags(imageUrl)
    ensures r.1.Some? ==> r.1.value.createdAt == UnixSeconds(nowMs)
  {
    if !hasPool || user.None? || !signed then (false, None)
    else (FulfilledCount(outcomes) > 0,
          Some(UnsignedEvent(NOSTR_KIND_TEXT_NOTE, UnixSeconds(nowMs), NoteTags(imageUrl),
                             NoteText(content, imageUrl), user.value.pubkey)))
  }

  /** With an image, the note text always contains the URL, is unchanged
      if it already did, and is not extended a second time; the image and
      imeta tags are present exactly when an image is given. */
  lemma {:induction false} NoteImageRules(content: string, url: string)
    requires url != ""
    ensures Contains(NoteText(content, Some(url)), url)
    ensures Contains(content, url) ==> NoteText(content, Some(url)) == content
    ensures NoteText(NoteText(content, Some(url)), Some(url)) == NoteText(content, Some(url))
    ensures |NoteTags(Some(url))| == 5 && NoteTags(Some(url))[3] == ["image", url]
    ensures NoteTags(None) == NoteTags(Some("")) && |NoteTags(None)| == 3
    ensures NoteText(content, None) == content
  {
    var t := NoteText(content, Some(url));
    if !Contains(content, url) {
      assert t[|t| - |url|..] == url;
      assert OccursAt(t, url, |t| - |url|);
    }
  }

  // ---------------------------------------------------------------------
  // Logging in with a secret key

  /** What nip19.decode returned for the input: its type and data. */
  datatype Nip19Decoded = Nip19Decoded(kind: string, data: seq<byte>)

  /** The secret key of loginWithNsec. `decoded` is nip19.decode(input)
      (`Err(message)` when it throws); it is consulted only for "nsec" keys. */
  function ParseSecretKey(input: string, decoded: Result<Nip19Decoded, string>): (r: Result<seq<byte>, string>)
    ensures !StartsWith(input, "nsec") ==> r == DecodeHex(input)
    ensures StartsWith(input, "nsec") && decoded.Ok? && decoded.value.kind != "nsec" ==> r == Err("Invalid nsec key")
    ensures StartsWith(input, "nsec") && decoded.Ok? && decoded.value.kind == "nsec" ==> r == Ok(decoded.value.data)
    ensures StartsWith(input, "nsec") && decoded.Err? ==> r == Err(decoded.error)
  {
    if StartsWith(input, "nsec") then
      match decoded
      case Err(msg) => Err(msg)
      case Ok(d) => if d.kind != "nsec" then Err("Invalid nsec key") else Ok(d.data)
    else DecodeHex(input)
  }

  /** loginWithNsec: the public key of the logged-in user, or the error
      message shown. `publicKeyOf` is getPublicKey (Err when it throws). */
  function LoginWithNsec(input: string, decoded: Result<Nip19Decoded, string>,
                         publicKeyOf: seq<byte> -> Result<string, string>): (r: Result<string, string>)
    ensures ParseSecretKey(input, decoded).Err? ==> r == Err(ParseSecretKey(input, decoded).error)
    ensures ParseSecretKey(input, decoded).Ok? ==> r == publicKeyOf(ParseSecretKey(input, decoded).value)
  {
    match ParseSecretKey(input, decoded)
    case Err(msg) => Err(msg)
    case Ok(sk) => publicKeyOf(sk)
  }

  /** A hex key is read without the bech32 decoder, an odd-length one is
      refused, and the 64-character rendering of a 32-byte key yields that key. */
  lemma {:induction false} HexKeyParsing(key: seq<byte>, d1: Result<Nip19Decoded, string>, d2: Result<Nip19Decoded, string>)
    requires |key| == 32
    ensures ParseSecretKey(BytesToHex(key), d1) == Ok(key)
    ensures forall s :: !StartsWith(s, "nsec") && |s| % 2 == 1 ==> ParseSecretKey(s, d1) == Err("Invalid hex string")
    ensures forall s :: !StartsWith(s, "nsec") ==> ParseSecretKey(s, d1) == ParseSecretKey(s, d2)
  {
    var s := BytesToHex(key);
    assert !StartsWith(s, "nsec") by {
      ByteToHexDigits(key[0]);
      assert s[0..2] == ByteToHex(key[0]);
      assert s[0] != 'n';
    }
    assert DecodeHex(s) == Ok(key) by {
      HexRoundTrip(key);
    }
  }

  // ---------------------------------------------------------------------
  // Pairing with a remote signer

  /** The login state the context keeps: the user, whether a login is in
      progress, the pairing URI on display and the error shown. */
  datatype Session = Session(user: Option<User>, isLoading: bool, connectUri: Option<string>, error: Option<string>)

  /** The weak pairing subscription's `onevent`. The relay delivers only the
      events its filter matches; each one logs its author in, with no
      decryption and no method check. `npub` is the author's bech32 key and
      `name`, `picture` the fetched metadata (absent when none was found). */
  function WeakPairingLogin(st: Session, f: Filter, ev: InboundEvent,
                            npub: string, name: Option<string>, picture: Option<string>): (r: Session)
    ensures !Matches(f, ev) ==> r == st
    ensures Matches(f, ev) ==>
      && r.user == Some(User(ev.pubkey, npub, name, picture))
      && !r.isLoading && r.connectUri.None? && r.error == st.error
  {
    if Matches(f, ev) then Session(Some(User(ev.pubkey, npub, name, picture)), false, None, st.error)
    else st
  }

  /** The weak subscription listens with the handshake's own filter, so it
      sees every event the handshake sees. An event the handshake ignores
      (it does not decrypt, or is not a connect request) gets no ack and no
      onConnect, yet still logs its author in, replacing any user already
      logged in. */
  lemma {:induction false} WeakPairingBypassesHandshake(st: Session, h: Handshake, clientPubkey: string, ev: InboundEvent,
                                                        d: Option<ConnectMessage>, encrypt: ConnectResponse -> Option<string>,
                                                        nowMs: int, npub: string, name: Option<string>, picture: Option<string>)
    requires ev.kind == NOSTR_KIND_NOSTR_CONNECT && clientPubkey in ev.pTags
    requires ev.createdAt >= UnixSeconds(nowMs) - 60
    requires d.None? || d.value.rpcMethod != Some("connect")
    ensures OnEvent(h, clientPubkey, ev, d, encrypt, nowMs) == h
    ensures var r := WeakPairingLogin(st, ListenFilter(clientPubkey, nowMs), ev, npub, name, picture);
            r.user.Some? && r.user.value.pubkey == ev.pubkey && !r.isLoading && r.connectUri.None?
  {
    NonConnectIgnored(h, clientPubkey, ev, d, encrypt, nowMs);
    var f := ListenFilter(clientPubkey, nowMs);
    assert clientPubkey in f.pTags.value;
    assert Matches(f, ev);
  }

  /** Any matching event takes the session over: of two senders, the later
      one is the user. */
  lemma {:induction false} WeakPairingLastSenderWins(st: Session, f: Filter, ev1: InboundEvent, ev2: InboundEvent,
                                                     n1: string, n2: string)
    requires Matches(f, ev1) && Matches(f, ev2)
    ensures var r := WeakPairingLogin(WeakPairingLogin(st, f, ev1, n1, None, None), f, ev2, n2, None, None);
            r.user == Some(User(ev2.pubkey, n2, None, None)) && r.error == st.error
  {
  }
}
