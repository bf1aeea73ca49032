# NostrDraw in Dafny

A model of the drawing core of NostrDraw, a collaborative whiteboard. The whiteboard keeps its elements in a client-side store and exchanges them with other users through Nostr relays.

The model follows the program module by module.

- **`CanvasStore`** (`lib/canvas-store.ts`): the element store.
  - It is a `class Store`. Its fields are the program's state:
    - the id → element map;
    - the selection;
    - the clipboard;
    - the undo/redo history (at most 50 snapshots, with an index);
    - the ephemeral elements with their expiry times;
    - the collaborator cursors;
    - the view settings.
  - Every store action is a method. Its `modifies` clause names the fields it changes, and its `ensures` ties the new state to a specification function of the old one (`Updated`, `Deleted`, `Fronted`, `Swapped`, `Pasted`, `SaveSnapshot`, `Unexpired`, …).
  - Lemmas prove the promises of those functions: z-order facts, the multiset of zIndex values kept by a swap, undo/redo round trips, the sweep's monotonicity, paste freshness.
  - `Store.Valid()` is the invariant every method keeps: every element is stored under its own id, and the history bounds hold.
- **`Types`** (`lib/types.ts`): the element variants as one `Element` record with a `Shape` union.
  - `isDeleted` is an `Option<bool>`: absent, `false` or `true`.
  - `Partial<CanvasElement>` updates are a `Patch`, applied with the object-spread semantics of `updateElement`.
  - Also here: the NIP-01 kind ranges that relays use to decide what they store, and `createDefaultElement`.
- **`NostrContext`** (`lib/nostr-context.tsx`): the decision logic of the sync layer.
  - The envelopes of canvas actions, cursor positions, checkpoints and notes (kind, tags, content).
  - The signer choice.
  - The "success iff at least one relay accepted" rule.
  - The remote action and cursor handlers, applied to the store. Self-echo is suppressed.
  - The cursor colour rule, with JavaScript `parseInt` and truncating `%`.
  - The load filter and the canvas listing.
  - Key parsing for `nsec` and hex keys.
  - The weak pairing subscription, a transition on the login `Session`, which logs in the author of any kind-24133 event its filter passes.
- **`NostrConnect`** (`lib/nostr-connect.ts`): the NIP-46 pairing handshake as a `class ConnectClient`.
  - Decryption and JSON parsing are inputs.
  - The class also holds the hex encoding of the secret and `hexToBytes`.
  - `hexToBytes` is an array-filling loop, proved against `DecodeHex`; `DecodeHex(BytesToHex(bs)) == Ok(bs)` is proved.
- **`InfiniteCanvas`** (`components/canvas/infinite-canvas.tsx`): the pure geometry and the pointer rules.
  - Geometry: element bounds, hit testing, resize handles.
  - Selection: click selection (last in map order) and box selection.
  - Editing gestures: resize clamping; the drawing gesture and its validity rule on release; drag-moving; the eraser.
  - Cursors: the cursor-broadcast rate limit and the 5-second cursor fade.
  - Rendering and text: the zIndex render order, and finishing text editing.
  - The loops over the map (eraser, drag, box select) are methods on the store, proved against map functions.
- **`Export`** (`lib/export.tsx`):
  - the export bounds and the padded canvas bounds;
  - the SVG node of each element as written, with the corrected rectangle in `ElementToSvg`;
  - the `createdAt` export order;
  - the JSON payload and its file name.
- **`Toolbar`** (`components/canvas/toolbar.tsx`):
  - the "last saved" label;
  - the zoom buttons;
  - the keyboard shortcuts as written (the tool letters are looked up before Ctrl/Cmd+S and +O), with the corrected order in `Shortcut`;
  - the auto-save effect as written (its cleanup cancels a pending save on every re-run) and its status machine, as a `class AutoSaver`; `AutoSaveEffect` is the corrected effect of the third finding below.
- **`Header`**, **`WelcomeModal`**, **`SaveCanvasModal`**, **`LoadCanvasModal`**: the small rules inside those components.
  - Header: who counts as online, avatars and badges, initials, the copied link.
  - Welcome dialog: the canvas id taken from a pasted link.
  - Save and load dialogs: their guards, their status machines and the relative date format.
- Helper modules:
  - `Wrappers`: `Option`, `Result`.
  - `JsStrings`: the JavaScript string built-ins the program calls, on `seq<char>`, such as `trim`, `indexOf`, `slice`, `toUpperCase` and `split(sep).pop()` (a left-to-right scan whose matches do not overlap).
  - `Sorting`: a stable sort by key, standing in for `Array.prototype.sort`.

Things outside the program's own code are inputs or parameters:
- `Date.now()`;
- the random id generator;
- signing and key derivation;
- NIP-04 decryption;
- bech32 decoding;
- `JSON.parse`;
- relay outcomes.

A JavaScript `Map`'s iteration order is given as a sequence `vals` that enumerates the map (`Enumerates(m, vals)`). Rules that depend on that order are therefore exact: the last hit wins a click, and sorts are stable.

Nothing in the code keeps `isDeleted` set once it is set:
- `addElement` replaces the whole record (`lib/canvas-store.ts:161-166`);
- `updateElement` spreads in whatever fields arrive (`lib/canvas-store.ts:168-179`).

So a remote `add`, or an `update` carrying `isDeleted: false`, brings a deleted element back. The model follows the code, and `NostrContext.RemoteResurrection` proves the resurrection. `NostrContext.ArrivalOrderWins` proves that remote updates apply in arrival order, with no timestamp comparison.

## Model

| member | source | states |
|---|---|---|
| Types.VariantsPartition | lib/types.ts:50-99 | every variant carries either width/height (rectangle, ellipse, text, image) or a point list (arrow, freedraw), never both |
| Types.MergeShape | lib/canvas-store.ts:173-177 | the variant after a spread is the one the patch names, else the old one |
| Types.Overlay | lib/canvas-store.ts:173-177 | `{...element, ...updates, updatedAt: now}` keeps the id, stamps updatedAt, takes the patch's type and isDeleted when present |
| Types.OverlayEmptyPatch | lib/canvas-store.ts:173-177 | an empty patch only refreshes updatedAt |
| Types.OverlayFullPatch | lib/nostr-context.tsx:500-502 | updating with a whole element yields that element (arrowheads inherited when absent), with the local updatedAt |
| Types.OverlayMove | components/canvas/infinite-canvas.tsx:742-747 | a drag patch moves the anchor and changes nothing else but updatedAt |
| Types.ClassOf | lib/types.ts:136-139 | a kind is ephemeral iff in 20000-29999 and addressable iff in 30000-39999 (NIP-01 kind ranges) |
| Types.KindClasses | lib/types.ts:136-139 | cursor 25050 and pairing 24133 are ephemeral, checkpoint 30078 and action 33333 addressable, notes regular |
| Types.CreateDefaultElement | lib/types.ts:179-199 | the default element has zIndex = createdAt = updatedAt = now, white stroke, transparent fill, width 2, opacity 1 |
| Types.LiveOnly | lib/nostr-context.tsx:631-632 | `filter(el => !el.isDeleted)` keeps exactly the live elements |
| Types.LiveOnlyAppend | lib/nostr-context.tsx:631-632 | the filter distributes over concatenation, so it keeps the live elements in their order |
| Types.LiveOnlyIsKept | lib/nostr-context.tsx:631-632 | `LiveOnly` is the generic order-keeping filter `Kept` with the liveness test |
| Types.KeptAppend | lib/nostr-context.tsx:631-632 | `Array.prototype.filter` distributes over concatenation |
| Types.KeptCount | components/canvas/infinite-canvas.tsx:434-435 | `Array.prototype.filter` keeps every copy of a passing value and none of a failing one |
| Types.KeptSameBag | components/canvas/infinite-canvas.tsx:434-443 | filtering two permutations of the same elements gives permutations of each other |
| Types.LiveOnlySingle | lib/nostr-context.tsx:631-632 | one element is kept iff it is live |
| Types.UnixSeconds | lib/nostr-context.tsx:408 | `Math.floor(Date.now() / 1000)` is the whole number of seconds |
| CanvasStore.UpdateAbsentIsNoop | lib/canvas-store.ts:168-179 | updating an absent id changes nothing |
| CanvasStore.UpdatePresent | lib/canvas-store.ts:168-179 | updating a present id overlays the patch on it, stamps updatedAt, keeps its id, and leaves every other entry and the key set alone |
| CanvasStore.DeleteProperties | lib/canvas-store.ts:181-189 | deletion flags only the given present id, keeps updatedAt and the key set, is idempotent and a no-op on an absent id |
| CanvasStore.DeleteAllProperties | lib/canvas-store.ts:191-201 | bulk deletion flags exactly the present ids given, leaves the rest, and is idempotent |
| CanvasStore.FromList | lib/canvas-store.ts:487-494 | the loaded map stores every element under its own id |
| CanvasStore.LoadLastWins | lib/canvas-store.ts:487-494 | the loaded map's keys are the ids of the list, and each maps to the last element with that id |
| CanvasStore.FromListKeys | lib/canvas-store.ts:487-494 | the key set of the loaded map is the set of ids of the list |
| CanvasStore.FromListLast | lib/canvas-store.ts:487-494 | each key of the loaded map holds the list's last element with that id |
| CanvasStore.MaxLiveZ | lib/canvas-store.ts:212-216 | the value is `Math.max(0, ...live zIndexes)`: at least the floor and every live zIndex, and one of them |
| CanvasStore.MinLiveZ | lib/canvas-store.ts:234-238 | the value is `Math.min(0, ...live zIndexes)` by the same characterisation |
| CanvasStore.MaxLiveZUnique | lib/canvas-store.ts:212-216 | the maximum is determined by its characterisation |
| CanvasStore.MinLiveZUnique | lib/canvas-store.ts:234-238 | the minimum is determined by its characterisation |
| CanvasStore.FrontIsStrictlyAbove | lib/canvas-store.ts:207-227 | after bringToFront the element is strictly above every other live element, its zIndex is at least 1, and nothing else changes |
| CanvasStore.BackIsStrictlyBelow | lib/canvas-store.ts:229-249 | after sendToBack the element is strictly below every other live element, its zIndex is at most -1, and nothing else changes |
| CanvasStore.FrontTwice | lib/canvas-store.ts:207-227 | a second bringToFront keeps the element above all others |
| CanvasStore.SwapPreservesZBag | lib/canvas-store.ts:251-315 | bringForward/sendBackward exchange two zIndexes: the multiset of zIndexes is unchanged, and every other element is untouched |
| CanvasStore.ForwardPassesOne | lib/canvas-store.ts:251-282 | after bringForward the element sits exactly where its next live neighbour above was, and that neighbour sits where it was |
| CanvasStore.DeletedAllPresent | lib/canvas-store.ts:191-201 | only the present ids of the set matter to a bulk deletion |
| CanvasStore.MarkListedDeleted | lib/canvas-store.ts:328-345 | the cut loop over the clipboard flags exactly the clipboard's ids |
| CanvasStore.SelectionCopySize | lib/canvas-store.ts:318-326 | the clipboard holds one entry per selected id that exists |
| CanvasStore.PasteFrame | lib/canvas-store.ts:347-379 | paste adds exactly the new ids and leaves every other element as it was |
| CanvasStore.PasteCopies | lib/canvas-store.ts:347-379 | with distinct new ids, entry i becomes the copy with id i, offset 20, zIndex now + i |
| CanvasStore.PasteKeepsKey | lib/canvas-store.ts:347-379 | a key paste does not write keeps its element |
| CanvasStore.PastedLiveAndOrdered | lib/canvas-store.ts:347-379 | pasted copies are live and stack in clipboard order |
| CanvasStore.Pasted | lib/canvas-store.ts:347-379 | pasting keeps every element stored under its own id |
| CanvasStore.SaveSnapshot | lib/canvas-store.ts:388-403 | saveHistory keeps the entries up to the current index in order (dropping the redo suffix), appends the current map as the new current entry, and evicts only the oldest entry when that would exceed 50 |
| CanvasStore.StepsKeepValid | lib/canvas-store.ts:405-437 | undo/redo keep the history valid, act iff the index can move, move it by exactly one, and never change the snapshots |
| CanvasStore.UndoAfterSave | lib/canvas-store.ts:388-420 | undo right after saveHistory restores the snapshot current before the save |
| CanvasStore.Undos | lib/canvas-store.ts:405-420 | k undos within reach of the start step the index back by k, restore the snapshot k places back, and leave the snapshots untouched |
| CanvasStore.UndosAfterSave | lib/canvas-store.ts:388-420 | k undos right after a save restore the snapshot k - 1 places before the one current at the save, as far back as the kept entries reach |
| CanvasStore.RedoAfterUndo | lib/canvas-store.ts:405-437 | redo after undo returns to the same history and snapshot; redo right after a save does nothing |
| CanvasStore.SweepProperties | lib/canvas-store.ts:472-484 | the sweep keeps exactly the entries with expiresAt > now, and sweeping is monotone in time and idempotent |
| CanvasStore.ClampZoom | lib/canvas-store.ts:155 | the zoom is clamped to [0.1, 5] and unchanged inside it |
| CanvasStore.Store.constructor | lib/canvas-store.ts:109-144 | the initial state: empty maps, zoom 1, origin offset, "Untitled Canvas", no history, select tool, default colours |
| CanvasStore.Store.SetActiveTool | lib/canvas-store.ts:151 | only the active tool changes |
| CanvasStore.Store.SetStrokeColor | lib/canvas-store.ts:152 | only the stroke colour changes |
| CanvasStore.Store.SetFillColor | lib/canvas-store.ts:153 | only the fill colour changes |
| CanvasStore.Store.SetStrokeWidth | lib/canvas-store.ts:154 | only the stroke width changes |
| CanvasStore.Store.SetZoom | lib/canvas-store.ts:155 | the zoom becomes the clamped value |
| CanvasStore.Store.SetViewportOffset | lib/canvas-store.ts:156 | only the offset changes |
| CanvasStore.Store.SetCanvasId | lib/canvas-store.ts:157 | only the canvas id changes |
| CanvasStore.Store.SetCanvasName | lib/canvas-store.ts:158 | only the canvas name changes |
| CanvasStore.Store.SetIsDrawing | lib/canvas-store.ts:440 | only the drawing flag changes |
| CanvasStore.Store.SetCurrentElement | lib/canvas-store.ts:441 | only the element being drawn changes |
| CanvasStore.Store.AddElement | lib/canvas-store.ts:161-166 | the element is stored (or replaced) under its id; the invariant is kept |
| CanvasStore.Store.UpdateElement | lib/canvas-store.ts:168-179 | the map becomes `Updated(old, id, patch, now)` |
| CanvasStore.Store.DeleteElement | lib/canvas-store.ts:181-189 | the map becomes `Deleted(old, id)` |
| CanvasStore.Store.DeleteSelectedElements | lib/canvas-store.ts:191-201 | every present selected id is flagged and the selection emptied |
| CanvasStore.Store.SetSelectedElementIds | lib/canvas-store.ts:203 | the selection becomes the given set |
| CanvasStore.Store.ClearSelection | lib/canvas-store.ts:204 | the selection becomes empty |
| CanvasStore.Store.BringToFront | lib/canvas-store.ts:207-227 | an absent id changes nothing; otherwise the map becomes `Fronted` |
| CanvasStore.Store.SendToBack | lib/canvas-store.ts:229-249 | an absent id changes nothing; otherwise the map becomes `Backed` |
| CanvasStore.Store.BringForward | lib/canvas-store.ts:251-282 | without a live element strictly above nothing changes; otherwise it swaps with a nearest one |
| CanvasStore.Store.SendBackward | lib/canvas-store.ts:284-315 | without a live element strictly below nothing changes; otherwise it swaps with a nearest one |
| CanvasStore.Store.Collect | lib/canvas-store.ts:320-322 | the existing elements of the selected ids, each once |
| CanvasStore.Store.Values | lib/canvas-store.ts:320-322 | `Array.from(elements.values())` lists every element exactly once |
| CanvasStore.Store.CopySelectedElements | lib/canvas-store.ts:318-326 | the clipboard is a copy of the selection; nothing else changes |
| CanvasStore.Store.CutSelectedElements | lib/canvas-store.ts:328-345 | the clipboard holds the records as they were, which are then flagged deleted, and the selection is emptied |
| CanvasStore.Store.PasteElements | lib/canvas-store.ts:347-379 | an empty clipboard changes nothing; otherwise the map becomes `Pasted` and the selection is the new ids |
| CanvasStore.Store.SaveHistory | lib/canvas-store.ts:388-403 | the history becomes `SaveSnapshot` of the old one |
| CanvasStore.Store.Undo | lib/canvas-store.ts:405-420 | index and elements follow `UndoStep` |
| CanvasStore.Store.Redo | lib/canvas-store.ts:422-437 | index and elements follow `RedoStep` |
| CanvasStore.Store.UpdateCursor | lib/canvas-store.ts:446-451 | the cursor is stored under its pubkey |
| CanvasStore.Store.RemoveCursor | lib/canvas-store.ts:453-459 | the pubkey's cursor is removed |
| CanvasStore.Store.AddEphemeralElement | lib/canvas-store.ts:461-470 | the element is stored with expiry now + duration |
| CanvasStore.Store.RemoveExpiredEphemeralElements | lib/canvas-store.ts:472-484 | the ephemeral map becomes `Unexpired(old, now)` |
| CanvasStore.Store.LoadElements | lib/canvas-store.ts:487-494 | the map is rebuilt from the list |
| CanvasStore.Store.ClearCanvas | lib/canvas-store.ts:496-501 | elements, selection and the element being drawn are cleared |
| NostrContext.FulfilledCount | lib/nostr-context.tsx:656-657 | the number of fulfilled relay outcomes is at most the number of relays |
| NostrContext.SuccessIffOneAccepted | lib/nostr-context.tsx:606-609 | `successCount > 0` holds exactly when some relay accepted |
| NostrContext.ChooseSigner | lib/nostr-context.tsx:378-393 | a local key wins; the extension is used only without one; otherwise no signer |
| NostrContext.PublishCanvasAction | lib/nostr-context.tsx:395-433 | an event is sent iff pool, user and signature exist; kind 33333, tags d/canvas/author, content {action, element, timestamp} |
| NostrContext.PublishCursorPosition | lib/nostr-context.tsx:436-471 | an event is sent iff pool, user and signature exist; kind 25050, tags canvas/author, no d-tag |
| NostrContext.EnvelopeStorageClasses | lib/nostr-context.tsx:406-454 | action events are addressable with d = canvasId (relays keep only the latest per canvas); cursor events are ephemeral |
| NostrContext.CanvasSubscriptions | lib/nostr-context.tsx:474-526 | two filters (actions, cursors since now-60 s) on the canvas tag with pool and user, none otherwise |
| NostrContext.RemoteIgnored | lib/nostr-context.tsx:488-509 | own events, unparsable content and unknown actions leave the map unchanged |
| NostrContext.RemoteAddDeleteIdempotent | lib/nostr-context.tsx:496-505 | re-delivering an add or delete changes nothing more |
| NostrContext.RemoteUpdateOfUnknown | lib/nostr-context.tsx:500-502 | a remote update of an id the store lacks is dropped |
| NostrContext.RemoteResurrection | lib/nostr-context.tsx:496-502 | a remote add without the flag, or an update with `isDeleted: false`, revives a deleted element; an update without the flag does not |
| NostrContext.ArrivalOrderWins | lib/nostr-context.tsx:500-502 | of two remote updates the later-arriving one wins, whatever its timestamp |
| NostrContext.OnActionEvent | lib/nostr-context.tsx:488-509 | the store's map becomes `ApplyRemoteAction` of the old one; the invariant is kept |
| NostrContext.TruncRem | lib/nostr-context.tsx:534-535 | JavaScript `%`: smaller than the divisor in magnitude, with the sign of the dividend, equal to Dafny's `%` for non-negative operands |
| NostrContext.TruncRemOdd | lib/nostr-context.tsx:534-535 | truncation toward zero: negating the dividend negates the remainder (-7 % 6 is -1, where Dafny's `%` gives 5) |
| NostrContext.CursorColorOfHexKey | lib/nostr-context.tsx:534-541 | a key ending in two hex digits hi, lo gets palette colour (16·hi + lo) mod 6 |
| NostrContext.CursorColorBySuffix | lib/nostr-context.tsx:534-535 | the colour depends only on the key's last two characters |
| NostrContext.ApplyRemoteCursor | lib/nostr-context.tsx:528-548 | own or unparsable cursor events change nothing; otherwise the sender's cursor is stored with its coordinates and colour |
| NostrContext.OnCursorEvent | lib/nostr-context.tsx:528-548 | the store's cursors become `ApplyRemoteCursor` of the old ones |
| NostrContext.SaveCanvasState | lib/nostr-context.tsx:625-668 | an event is sent iff pool, user and signature exist; the result is true iff sent and one relay accepted; kind 30078, tags d/title/client, live elements only |
| NostrContext.CheckpointHoldsLiveElements | lib/nostr-context.tsx:631-638 | the checkpoint holds exactly the store's non-deleted elements |
| NostrContext.LoadFilter | lib/nostr-context.tsx:701-713 | kind 30078, d = canvasId, limit 1; authors = the given author if non-empty, else the user, else none |
| NostrContext.LoadCanvasState | lib/nostr-context.tsx:696-729 | the first event's parsed content iff pool, a result and a parsable first event |
| NostrContext.Summaries | lib/nostr-context.tsx:742-750 | one summary per event, or nothing as soon as one event fails to parse or lacks elements |
| NostrContext.ListFilter | lib/nostr-context.tsx:738-741 | the listing asks for this user's kind-30078 events |
| NostrContext.ListingProperties | lib/nostr-context.tsx:732-758 | the list is newest first, a permutation of the summaries, and empty when any event is bad |
| NostrContext.PublishNote | lib/nostr-context.tsx:565-618 | a kind-1 note is sent iff pool, user and signature exist; its content is `NoteText` and its tags `NoteTags` of the input, stamped with the current second; the result is true iff one relay accepted |
| NostrContext.NoteImageRules | lib/nostr-context.tsx:570-594 | with an image the text contains the URL, is unchanged if it already did, and appending is idempotent; the image and imeta tags are added |
| NostrContext.ParseSecretKey | lib/nostr-context.tsx:216-227 | "nsec" input goes through nip19 and must decode to type nsec; anything else is hex-decoded |
| NostrContext.LoginWithNsec | lib/nostr-context.tsx:210-262 | the user's pubkey is derived from the parsed key; a parse error is reported as the error message |
| NostrContext.HexKeyParsing | lib/nostr-context.tsx:218-227 | a 32-byte key written in hex parses back to itself, odd-length hex is rejected, and bech32 is never consulted for it |
| NostrContext.WeakPairingLogin | lib/nostr-context.tsx:324-356 | an event the subscription's filter passes makes its author the user, ends loading and clears the pairing URI, keeping the error; any other event changes nothing |
| NostrContext.WeakPairingBypassesHandshake | lib/nostr-context.tsx:324-363 | an event the handshake ignores (no ack, no onConnect) still logs its author in, since both subscriptions use the same filter |
| NostrContext.WeakPairingLastSenderWins | lib/nostr-context.tsx:336-356 | of two matching events, the later author is the user |
| NostrConnect.ToBase16 | lib/nostr-connect.ts:28 | `toString(16)` yields at least one digit |
| NostrConnect.ByteToHexDigits | lib/nostr-connect.ts:28 | every byte renders as two lowercase digits, high nibble first |
| NostrConnect.BytesToHex | lib/nostr-connect.ts:28 | the secret string has two characters per byte, byte i at 2i..2i+2 |
| NostrConnect.HexRunAt | lib/nostr-connect.ts:131 | the run of hex digits `parseInt` reads is maximal |
| NostrConnect.DecodeHex | lib/nostr-connect.ts:123-133 | odd length throws "Invalid hex string"; otherwise one byte per pair |
| NostrConnect.PairBytes | lib/nostr-connect.ts:129-132 | byte k comes from characters 2k and 2k+1 |
| NostrConnect.HexToBytes | lib/nostr-connect.ts:123-133 | the filling loop computes `DecodeHex` |
| NostrConnect.ParseTwoDigits | lib/nostr-connect.ts:131 | two hex digits parse to their base-16 value |
| NostrConnect.ParseByteHex | lib/nostr-connect.ts:131 | a byte's two-character rendering parses back to the byte |
| NostrConnect.PairByteOfHex | lib/nostr-connect.ts:131 | the pair encoding a byte decodes to that byte |
| NostrConnect.HexRoundTrip | lib/nostr-connect.ts:28 | `hexToBytes` inverts the secret's hex encoding |
| NostrConnect.SecretShape | lib/nostr-connect.ts:18-28 | 32 random bytes encode to 64 lowercase hex characters |
| NostrConnect.BunkerUriInjective | lib/nostr-connect.ts:35-38 | the URI starts with `nostrconnect://`, carries the pubkey right after it, and distinct keys give distinct URIs |
| NostrConnect.ListenFilter | lib/nostr-connect.ts:50-58 | kind 24133, p-tag = the client pubkey, since now-60 s |
| NostrConnect.ConnectAcks | lib/nostr-connect.ts:76-104 | a connect request records the sender; if the ack `{id, result: "ack", error: null}` encrypts, one kind-24133 reply tagged to the sender carries it and onConnect fires |
| NostrConnect.NonConnectIgnored | lib/nostr-connect.ts:65-109 | undecryptable or unparsable content, or another method, leaves the handshake unchanged |
| NostrConnect.RepeatedConnect | lib/nostr-connect.ts:76-104 | there is no once-only guard: a second connect acks and connects again |
| NostrConnect.ConnectClient.constructor | lib/nostr-connect.ts:13-33 | the secret is the hex of the random bytes and decodes back to them; nothing is heard yet |
| NostrConnect.ConnectClient.Listen | lib/nostr-connect.ts:40-59 | the subscription opens with `ListenFilter` |
| NostrConnect.ConnectClient.HandleEvent | lib/nostr-connect.ts:60-110 | while listening the state follows `OnEvent`; once closed nothing changes |
| NostrConnect.ConnectClient.Teardown | lib/nostr-connect.ts:116-119 | the subscription is closed |
| InfiniteCanvas.MinOf | components/canvas/infinite-canvas.tsx:1337-1338 | `Math.min(...s)` is an element of s and at most every element |
| InfiniteCanvas.MaxOf | components/canvas/infinite-canvas.tsx:1339-1340 | `Math.max(...s)` is an element of s and at least every element |
| InfiniteCanvas.AbsXs | components/canvas/infinite-canvas.tsx:1335 | the absolute x coordinates of the points |
| InfiniteCanvas.AbsYs | components/canvas/infinite-canvas.tsx:1336 | the absolute y coordinates of the points |
| InfiniteCanvas.BoxBounds | components/canvas/infinite-canvas.tsx:1320-1331 | the bounds span exactly the two corners, with non-negative extent |
| InfiniteCanvas.PathBounds | components/canvas/infinite-canvas.tsx:1332-1347 | the bounds span exactly the absolute points; none for an empty list |
| InfiniteCanvas.ElementBounds | components/canvas/infinite-canvas.tsx:1318-1351 | box variants span their corners; point variants span their points |
| InfiniteCanvas.HitIsPaddedBounds | components/canvas/infinite-canvas.tsx:1353-1362 | a hit is exactly a point within 5 units, on each axis, of a point of the bounds |
| InfiniteCanvas.NearPaddedBox | components/canvas/infinite-canvas.tsx:1355-1360 | growing a box by the padding admits exactly the points near it |
| InfiniteCanvas.VerticesAreHits | components/canvas/infinite-canvas.tsx:1353-1362 | every vertex, and both corners of a box, is a hit |
| InfiniteCanvas.ResizeHandles | components/canvas/infinite-canvas.tsx:1364-1375 | eight distinct handles, on the edges their names point to, at midpoints otherwise |
| InfiniteCanvas.HandlesOnBorder | components/canvas/infinite-canvas.tsx:1364-1375 | for a normalised box every handle lies on its border |
| InfiniteCanvas.HandleAt | components/canvas/infinite-canvas.tsx:516-528 | the first handle within the handle size, or none when none is near |
| InfiniteCanvas.LastTrue | components/canvas/infinite-canvas.tsx:534-537 | `reverse().find(…)` finds the last match |
| InfiniteCanvas.ClickTarget | components/canvas/infinite-canvas.tsx:534-537 | the last live hit element in map order, or none if nothing is hit |
| InfiniteCanvas.ClickIgnoresZOrder | components/canvas/infinite-canvas.tsx:534-537 | an element drawn above another can lose the click to it |
| InfiniteCanvas.ClickSelection | components/canvas/infinite-canvas.tsx:539-556 | shift toggles membership; a plain click on an unselected element selects only it, on a selected one keeps the selection |
| InfiniteCanvas.ShiftClickTwice | components/canvas/infinite-canvas.tsx:543-549 | two shift-clicks restore the selection |
| InfiniteCanvas.DragOrigins | components/canvas/infinite-canvas.tsx:558-562 | the start positions of exactly the selected ids that exist |
| InfiniteCanvas.HandleHit | components/canvas/infinite-canvas.tsx:508-531 | the handle test equals the `ResizeStart` specification |
| InfiniteCanvas.SelectDown | components/canvas/infinite-canvas.tsx:508-577 | with no handle and nothing hit a box selection starts (the selection is cleared unless shift); a hit starts a drag |
| InfiniteCanvas.SelectPointerDown | components/canvas/infinite-canvas.tsx:508-577 | the gesture and new selection follow `SelectDown` |
| InfiniteCanvas.DragRect | components/canvas/infinite-canvas.tsx:790-795 | the rectangle spans exactly the two pointer positions |
| InfiniteCanvas.BoxSelectMove | components/canvas/infinite-canvas.tsx:787-814 | the selection becomes the live elements whose bounds overlap the rectangle |
| InfiniteCanvas.BoxHitsAmong | components/canvas/infinite-canvas.tsx:798-810 | the loop's partial selection lies within the visited ids and is the box selection once all are visited |
| InfiniteCanvas.BoxSelectionProperties | components/canvas/infinite-canvas.tsx:787-814 | the box selection is live only, symmetric in the two corners, and monotone in the rectangle |
| InfiniteCanvas.WithSize | components/canvas/infinite-canvas.tsx:766-780 | a box variant with the new size and the same kind |
| InfiniteCanvas.ResizeElement | components/canvas/infinite-canvas.tsx:759-785 | only box variants resize; sizes are clamped to at least 1; w/n handles keep the opposite edge fixed |
| InfiniteCanvas.ResizeMove | components/canvas/infinite-canvas.tsx:759-785 | the resized element is written back over the stored one |
| InfiniteCanvas.ResizeWritesWholeElement | components/canvas/infinite-canvas.tsx:764-782 | the stored element after a resize is the resized original, discarding edits made since pointer-down |
| InfiniteCanvas.DrawMove | components/canvas/infinite-canvas.tsx:816-868 | the element keeps its id, anchor and kind; a freedraw stroke gains the relative point |
| InfiniteCanvas.SpanTo | components/canvas/infinite-canvas.tsx:821-828 | with shift both sides take the larger magnitude and keep their signs |
| InfiniteCanvas.GestureRules | components/canvas/infinite-canvas.tsx:916-939 | a click without movement commits nothing; a rectangle needs a side over 5; a freedraw needs three points |
| InfiniteCanvas.DrawEnd | components/canvas/infinite-canvas.tsx:916-961 | a valid laser stroke becomes ephemeral for 2 s, any other valid element is added with a history snapshot; either is published when logged in; drawing ends |
| InfiniteCanvas.CursorThrottle.constructor | components/canvas/infinite-canvas.tsx:733 | the last broadcast time starts at 0 |
| InfiniteCanvas.CursorThrottle.OnPointerMove | components/canvas/infinite-canvas.tsx:733-736 | broadcast iff logged in and more than 100 ms passed; the time is recorded then |
| InfiniteCanvas.BroadcastSpacing | components/canvas/infinite-canvas.tsx:733-736 | consecutive broadcasts are more than 100 ms apart, and each is one of the move times |
| InfiniteCanvas.VisibleCursors | components/canvas/infinite-canvas.tsx:383-385 | the drawn cursors are exactly those at most 5000 ms old |
| InfiniteCanvas.CursorsFade | components/canvas/infinite-canvas.tsx:383-385 | a cursor not drawn now is not drawn later |
| InfiniteCanvas.RenderOrder | components/canvas/infinite-canvas.tsx:434-436 | the screen order is the live elements sorted by ascending zIndex, as a permutation |
| InfiniteCanvas.RenderOrderStable | components/canvas/infinite-canvas.tsx:434-436 | elements with equal zIndex are drawn in map order |
| InfiniteCanvas.DrawnOrder | components/canvas/infinite-canvas.tsx:434-443 | the elements drawn are sorted by zIndex, are live, are never the text being edited inline, and are a permutation of the live elements without it |
| InfiniteCanvas.DrawnOrderSkipsOnlyEdited | components/canvas/infinite-canvas.tsx:439-443 | with no inline edit every element of the screen order is drawn, and an edited id is never drawn |
| InfiniteCanvas.TextFinishOutcome | components/canvas/infinite-canvas.tsx:1236-1251 | after finishing, the element is deleted or is non-blank text; blank text is always deleted; nothing else changes |
| InfiniteCanvas.TextFinishOn | components/canvas/infinite-canvas.tsx:1236-1251 | the store follows `TextFinish`; surviving text is published when logged in |
| InfiniteCanvas.OverlayErase | components/canvas/infinite-canvas.tsx:584 | the eraser patch sets isDeleted and updatedAt only |
| InfiniteCanvas.Erase | components/canvas/infinite-canvas.tsx:580-592 | every live element under the pointer is flagged deleted; the erased set is returned |
| InfiniteCanvas.ErasedStep | components/canvas/infinite-canvas.tsx:581-588 | erasing one more present id is one more `updateElement` |
| InfiniteCanvas.EraseProperties | components/canvas/infinite-canvas.tsx:580-592 | after erasing no live element is under the pointer, the targets alone changed, and erasing again at the same point, at any later time, changes nothing |
| InfiniteCanvas.DragMove | components/canvas/infinite-canvas.tsx:738-749 | every dragged element moves to its origin plus the pointer delta |
| InfiniteCanvas.DraggedStep | components/canvas/infinite-canvas.tsx:742-747 | moving one more id is one more `updateElement` |
| InfiniteCanvas.DragProperties | components/canvas/infinite-canvas.tsx:738-749 | a drag moves exactly the dragged elements, keeps their relative offsets, and the last pointer move alone decides the result |
| Export.ExportBoundsVsScreen | lib/export.tsx:43-74 | export bounds equal screen bounds except for images, which fall back to a zero-size box |
| Export.BoundsList | lib/export.tsx:25-26 | the export bounds of each element, in order |
| Export.Hull | lib/export.tsx:20-40 | every box lies inside the result shrunk by the 40-unit padding, which touches the extreme boxes |
| Export.GetCanvasBounds | lib/export.tsx:11-41 | 800 x 600 from the origin with no live element; otherwise the padded hull of the live elements |
| Export.Translate | lib/export.tsx:134-136 | every point moved by the offset |
| Export.ElementToSvgAsWritten | lib/export.tsx:107-189 | nothing for images and point lists under two points; rectangles keep their signed size |
| Export.LeftwardRectangleAsWritten | lib/export.tsx:112-117 | a rectangle drawn leftwards exports with a negative width |
| Export.ElementToSvg | lib/export.tsx:107-189 | as written, except that rectangles are normalised to a non-negative size |
| Export.RectangleExportCoversBounds | lib/export.tsx:112-117 | the corrected rectangle is exactly the export bounds shifted to the export origin, and agrees with the written one when drawn right and down |
| Export.Fragments | lib/export.tsx:92-94 | the node list of a sequence of elements, each node as written (a leftward rectangle keeps its negative width) |
| Export.ExportOrder | lib/export.tsx:88-90 | exports draw the live elements sorted by createdAt, as a permutation |
| Export.ExportOrderStable | lib/export.tsx:88-90 | elements with equal createdAt keep their map order |
| Export.SortTwo | lib/export.tsx:90 | sorting two elements puts the smaller key first, keeping ties in order |
| Export.ExportOrderDiffersFromScreen | lib/export.tsx:88-90 | an element created earlier but brought to the front is drawn last on screen and first in the export |
| Export.FragmentsStep | lib/export.tsx:92-94 | one more element appends its node |
| Export.AppendFragments | lib/export.tsx:92-94 | the `svg +=` loop produces `Fragments`, the nodes as written |
| Export.SvgBody | lib/export.tsx:78-96 | the SVG body holds the as-written nodes of the elements in export order |
| Export.FragmentsCount | lib/export.tsx:130-188 | images and short point lists add nothing; every other element adds one node |
| Export.ExportJson | lib/export.tsx:342-358 | version "1.0", the canvas id and name, the live elements |
| Export.DashWhitespaceRuns | lib/export.tsx:365 | `replace(/\s+/g, "-")` leaves no whitespace, is no longer than its input, and keeps whitespace-free text |
| Export.DashOfRun | lib/export.tsx:365 | a whitespace run alone becomes exactly one dash |
| Export.DashOfAppend | lib/export.tsx:365 | cut where no run is split, the pieces are replaced independently, so each run becomes one dash and other characters stay in order |
| Export.FilenameShape | lib/export.tsx:365 | the file name is "nostrdraw-", a name part with no whitespace and no upper-case letter, "-", the first eight id characters, ".json" |
| Export.FilenameIgnoresSpacing | lib/export.tsx:365 | names that differ only in one whitespace run between words get the same file name |
| Export.JsonHoldsLiveElements | lib/export.tsx:347-357 | the exported file holds exactly the non-deleted elements of the store |
| Sorting.SortBy | lib/export.tsx:90 | `Array.prototype.sort` by a key: sorted and a permutation |
| Sorting.InsertByWithKey | lib/export.tsx:90 | inserting an element puts it in front of the elements with its key and leaves every key's elements in order |
| Sorting.SortByStable | lib/export.tsx:90 | stable: for each key, the elements with that key keep their input order |
| Toolbar.TimeSinceLastSave | components/canvas/toolbar.tsx:124-134 | no label before a save; "Just now" under a minute, "1 min ago" in the second minute, else "N mins ago" |
| Toolbar.LabelNamesMinutes | components/canvas/toolbar.tsx:128-133 | from two minutes on the label names the whole number of minutes |
| Toolbar.ZoomInTarget | components/canvas/toolbar.tsx:169 | zoom + 0.25, saturating at 5 |
| Toolbar.ZoomOutTarget | components/canvas/toolbar.tsx:170 | zoom − 0.25, saturating at 0.1 |
| Toolbar.ZoomIn | components/canvas/toolbar.tsx:169 | the store's zoom becomes the zoom-in target |
| Toolbar.ZoomOut | components/canvas/toolbar.tsx:170 | the store's zoom becomes the zoom-out target |
| Toolbar.ResetView | components/canvas/toolbar.tsx:171-174 | zoom 1 and offset at the origin |
| Toolbar.ZoomOutUndoesZoomIn | components/canvas/toolbar.tsx:169-170 | zooming out undoes an unsaturated zoom in |
| Toolbar.ZoomInUndoesZoomOut | components/canvas/toolbar.tsx:169-170 | zooming in undoes an unsaturated zoom out |
| Toolbar.ZoomInClicksSaturate | components/canvas/toolbar.tsx:169 | n clicks add n quarters until 5 |
| Toolbar.ZoomOutClicksSaturate | components/canvas/toolbar.tsx:170 | n clicks subtract n quarters until 0.1 |
| Toolbar.TwentyClicksReachTheLimits | components/canvas/toolbar.tsx:169-170 | twenty clicks reach either limit from any zoom |
| Toolbar.FirstShortcutIndex | components/canvas/toolbar.tsx:147 | the first button whose letter matches, or -1 |
| Toolbar.FindTool | components/canvas/toolbar.tsx:147 | `tools.find`: the tool of the first matching button, none iff no match |
| Toolbar.ShortcutAsWritten | components/canvas/toolbar.tsx:138-163 | typing in a field does nothing; otherwise a key with a tool letter chooses that tool, and Ctrl/Cmd+S opens the save dialog |
| Toolbar.CtrlOSelectsEllipseAsWritten | components/canvas/toolbar.tsx:146-161 | Ctrl/Cmd+O selects the ellipse tool; the load dialog is unreachable |
| Toolbar.Shortcut | components/canvas/toolbar.tsx:138-163 | corrected: Ctrl/Cmd+S and +O open their dialogs; every other key press as written |
| Toolbar.HandleKeyDown | components/canvas/toolbar.tsx:138-163 | the command is the as-written one; a tool shortcut (Ctrl+O included) sets the active tool; other keys leave it |
| Toolbar.ShortcutSelectsItsToolAsWritten | components/canvas/toolbar.tsx:37-47 | as written, every tool letter selects its tool in either case, without modifiers |
| Toolbar.ShortcutSelectsItsTool | components/canvas/toolbar.tsx:37-47 | corrected: every tool letter selects its tool in either case, without modifiers |
| Toolbar.AutoSaveEffectAsWritten | components/canvas/toolbar.tsx:78-121 | a run reschedules when the live count changed and is positive; any other run leaves no save pending |
| Toolbar.AutoSaveEffect | components/canvas/toolbar.tsx:78-121 | corrected: a run reschedules as written; losing user or canvas drops the pending save; other runs keep it |
| Toolbar.SameCountEditsCancelAsWritten | components/canvas/toolbar.tsx:84-120 | as written, edits that keep the element count cancel the pending save |
| Toolbar.AddThenMoveLosesSaveAsWritten | components/canvas/toolbar.tsx:84-120 | adding a shape then moving it a second later leaves no save pending |
| Toolbar.SameCountEditsKeepPendingSave | components/canvas/toolbar.tsx:84-113 | corrected: same-count edits keep the pending save and its due time |
| Toolbar.AddThenMoveKeepsSave | components/canvas/toolbar.tsx:84-113 | corrected: the save scheduled by the add survives the move |
| Toolbar.FireAutoSave | components/canvas/toolbar.tsx:91-111 | the due timeout fires once, requesting the save its closure captured |
| Toolbar.SettledStatus | components/canvas/toolbar.tsx:97-110 | "saved" iff the save resolved true, "error" otherwise |
| Toolbar.NotDue | components/canvas/toolbar.tsx:101-109 | the pending "back to idle" timeouts are exactly those later than now |
| Toolbar.ClockTick | components/canvas/toolbar.tsx:101-109 | a due timeout sets the status to idle; without one nothing changes |
| Toolbar.NotDueAllLater | components/canvas/toolbar.tsx:101-109 | with no timeout due, none is dropped |
| Toolbar.SettledStatusShownForThreeSeconds | components/canvas/toolbar.tsx:97-110 | "saved"/"error" stays until three seconds after settling, then turns idle |
| Toolbar.AutoSaver.constructor | components/canvas/toolbar.tsx:72-75 | idle, no save, count 0, no timers |
| Toolbar.AutoSaver.OnEffect | components/canvas/toolbar.tsx:78-121 | the effect state follows the effect as written, cleanup included |
| Toolbar.AutoSaver.OnTimer | components/canvas/toolbar.tsx:91-95 | a due save starts and the status becomes "saving" |
| Toolbar.AutoSaver.OnSaveSettled | components/canvas/toolbar.tsx:95-110 | the status follows the outcome, success records the time, and a 3 s idle timeout is armed |
| Toolbar.AutoSaver.OnClock | components/canvas/toolbar.tsx:101-109 | due idle timeouts fire |
| Toolbar.AutoSaver.SinceLastSave | components/canvas/toolbar.tsx:124-134 | no label before the first save |
| Header.ActiveCollaborators | components/canvas/header.tsx:41-45 | exactly the cursors heard from less than 10 s ago |
| Header.ActiveCollaboratorsAppend | components/canvas/header.tsx:41-45 | the filter distributes over concatenation, so the active cursors keep their order |
| Header.ActiveCollaboratorsAreKept | components/canvas/header.tsx:41-45 | `ActiveCollaborators` is the generic filter `Kept` with the 10 s activity test |
| Header.ActiveCollaboratorsSingle | components/canvas/header.tsx:41-45 | one cursor is kept iff it was heard from less than 10 s ago |
| Header.ShownAvatars | components/canvas/header.tsx:101 | the first five active collaborators |
| Header.OverflowBadge | components/canvas/header.tsx:116-120 | a "+N" badge iff more than five are active |
| Header.OnlineBadge | components/canvas/header.tsx:123-128 | "N online" counts the local user and appears iff someone else is active |
| Header.AvatarsAccountForEveryone | components/canvas/header.tsx:101-120 | avatars plus the overflow number count every active collaborator once |
| Header.DrawnCursorsAreOnline | components/canvas/header.tsx:41-45 | every cursor drawn on the canvas is counted online |
| Header.OnlineButNotDrawn | components/canvas/header.tsx:41-45 | a cursor 7 s old is online but no longer drawn |
| Header.UserInitials | components/canvas/header.tsx:96 | the first two characters of a non-empty name, else characters 5-6 of the npub, upper-cased |
| Header.CollaboratorInitials | components/canvas/header.tsx:111 | the first two characters of the pubkey, upper-cased |
| Header.CopyLinkUrl | components/canvas/header.tsx:47-52 | the link is origin + "/canvas/" + id, and the id can be read back from it |
| WelcomeModal.JoinCanvasId | components/welcome-modal.tsx:34-42 | nothing for blank input; without "/canvas/" the trimmed input; with it, P = the last piece of `split("/canvas/")` (non-overlapping matches) up to its first "?", or the trimmed input when P is empty |
| WelcomeModal.JoinPath | components/welcome-modal.tsx:34-44 | navigation to "/canvas/" + id iff the input is not blank |
| WelcomeModal.BareIdJoins | components/welcome-modal.tsx:38 | a bare id is used as is |
| WelcomeModal.CopiedLinkJoins | components/welcome-modal.tsx:38-40 | pasting a copied link, with or without a query, opens the same canvas, for an origin in which no "/canvas/" starts |
| WelcomeModal.SplitPopSegment | components/welcome-modal.tsx:40 | `split("/canvas/").pop()` of prefix + "/canvas/" + rest is rest when no match starts in the prefix and rest has no "/" |
| WelcomeModal.SplitMatchesDoNotOverlap | components/welcome-modal.tsx:40 | "/canvas/canvas/x" joins "canvas/x": the split does not reuse a match's closing "/" |
| SaveCanvasModal.Guard | components/canvas/save-canvas-modal.tsx:39-49 | the login check comes first, then the blank-name check |
| SaveCanvasModal.Settled | components/canvas/save-canvas-modal.tsx:64-78 | success iff resolved true; relay failure and exceptions get their messages |
| SaveCanvasModal.EnabledButtonIsLoggedIn | components/canvas/save-canvas-modal.tsx:176 | an enabled button never reaches the login error |
| SaveCanvasModal.SaveDialog.constructor | components/canvas/save-canvas-modal.tsx:25-32 | idle, no message, the name starts as the store's |
| SaveCanvasModal.SaveDialog.SetLocalName | components/canvas/save-canvas-modal.tsx:117 | the field's text becomes the input |
| SaveCanvasModal.SaveDialog.BeginSave | components/canvas/save-canvas-modal.tsx:38-62 | a failed guard shows its error and requests nothing; otherwise the store's name is updated and the save requested |
| SaveCanvasModal.SaveDialog.SaveSettled | components/canvas/save-canvas-modal.tsx:62-81 | success arms the 1.5 s close timer; failures show their message; saving ends |
| SaveCanvasModal.SaveDialog.ClickSave | components/canvas/save-canvas-modal.tsx:174-178 | a disabled button does nothing; an enabled one saves iff the name is not blank |
| SaveCanvasModal.SaveDialog.PressEnter | components/canvas/save-canvas-modal.tsx:119-123 | Enter runs the save whenever no save is running |
| SaveCanvasModal.SaveDialog.CloseTimerFires | components/canvas/save-canvas-modal.tsx:67-70 | the dialog closes and the status resets |
| SaveCanvasModal.SaveDialog.HandleOpenChange | components/canvas/save-canvas-modal.tsx:84-93 | ignored while saving; closing resets status and message |
| SaveCanvasModal.EnterBypassesButtonRule | components/canvas/save-canvas-modal.tsx:119-123 | Enter saves an empty or just-saved canvas that the button would refuse |
| LoadCanvasModal.FormatDate | components/canvas/load-canvas-modal.tsx:110-128 | "Just now" under a minute, then minutes, hours and days (pluralised), a calendar date from a week on |
| LoadCanvasModal.JustNowAgreesWithToolbar | components/canvas/load-canvas-modal.tsx:114-118 | the list and the toolbar agree on "Just now" |
| LoadCanvasModal.LoadResultOf | components/canvas/load-canvas-modal.tsx:80-104 | loaded iff the checkpoint exists with elements; otherwise the corrupted or failure message |
| LoadCanvasModal.LiveElements | lib/nostr-context.tsx:631-632 | the non-deleted elements of a map, under their ids |
| LoadCanvasModal.LiveListingCovers | lib/nostr-context.tsx:631-632 | every live element is on the checkpoint's list |
| LoadCanvasModal.LiveListingSound | lib/nostr-context.tsx:631-632 | every listed element is a live element of the map under its id |
| LoadCanvasModal.LoadingLiveListing | lib/canvas-store.ts:487-494 | loading the live listing rebuilds exactly the live part of the map |
| LoadCanvasModal.SavedCanvasLoadsBack | components/canvas/load-canvas-modal.tsx:80-92 | saving and opening a canvas restores exactly its non-deleted elements, id and name |
| LoadCanvasModal.LoadDialog.constructor | components/canvas/load-canvas-modal.tsx:40-44 | not loading, no canvases, no error, nothing selected |
| LoadCanvasModal.LoadDialog.OnOpenOrUserChange | components/canvas/load-canvas-modal.tsx:50-54 | fetching starts iff open and logged in |
| LoadCanvasModal.LoadDialog.FetchSettled | components/canvas/load-canvas-modal.tsx:56-73 | the list is shown; an empty one or a failure shows its message |
| LoadCanvasModal.LoadDialog.BeginLoad | components/canvas/load-canvas-modal.tsx:75-78 | loading starts for the clicked canvas with no error |
| LoadCanvasModal.LoadDialog.LoadSettled | components/canvas/load-canvas-modal.tsx:80-107 | a loadable checkpoint replaces the canvas, id and name and arms the close timer; otherwise its message shows |
| LoadCanvasModal.LoadDialog.CloseTimerFires | components/canvas/load-canvas-modal.tsx:95-98 | the dialog closes and forgets the selection |
| LoadCanvasModal.LoadDialog.HandleOpenChange | components/canvas/load-canvas-modal.tsx:130-138 | ignored while loading; closing clears the error and selection |

## Left out

- Relays, signing and key derivation (`getPublicKey`, `finalizeEvent`, the browser extension), NIP-04 encryption and decryption, bech32 (`nip19`), `JSON.parse`/`JSON.stringify`, `crypto.getRandomValues` and `generateId`: their results are parameters.
- Timers (`setTimeout`), `Date.now()` and `new Date()`: times are parameters, and each asynchronous flow is split into a method that starts it and one that receives its outcome.
- Effect cleanup is modelled as the clearing of the pending timeout at the next run of the effect. React's scheduling of renders is not modelled.
- Drawing pixels (`drawGrid`, `drawElement`, `drawCursors`, images, PNG export, clipboard export) is not modelled. Only the order of drawing and which cursors are drawn are.
- Trigonometry is not modelled: the arrowheads and the 15° shift-snap of arrows. The arrow length test in the release rule (`Math.sqrt`) is modelled by comparing squares in `GestureValid`; for arrows, `GestureRules` states only the click-without-movement case.
- Zooming around the cursor on the wheel, panning by mouse movement, and image drop and scaling are not modelled.
- SVG number formatting and stroke attributes are not modelled. `SvgNode` keeps only geometry and text.
- `toLocaleDateString` is an opaque `CalendarDate(timestamp)`.
- Case mapping (`toUpperCase`, `toLowerCase`) and whitespace (`trim`, `\s`) cover ASCII and the JavaScript whitespace set. There is no Unicode case folding.
- `encodeURIComponent("wss://relay.damus.io")` is a constant, not computed.
- JavaScript numbers are modelled as `real` for coordinates and `int` for times and zIndex. NaN, `undefined` and `Infinity` appear as `Option` (`None`). For example, the bounds of an empty point list are `None`, and the colour of a non-hex key is `None`.
- When a loaded checkpoint lacks `canvasId` or `canvasName`, they are stored as "".
- `updateLastTextConfig` (`lib/canvas-store.ts:382-385`) and `setCurrentUser` (`lib/canvas-store.ts:444`) are not modelled. They store configuration and the user, which no modelled rule reads.
- Not modelled: `loginWithExtension`, `fetchUserMetadata`, `logout`, the relay connection test, `localStorage`, and the auto-load of the last canvas after login. They are I/O around the modelled decisions.
- `Types.MergeShape`: a patch that changes an element's type builds the new variant from the patch's fields, else the old same-named fields, else zero or empty defaults. Fields the new variant does not have are dropped rather than kept as stray properties.
- `InfiniteCanvas.ClickTarget`, `InfiniteCanvas.SelectPointerDown`, `Export.GetCanvasBounds`, `Export.ExportOrder`: JavaScript `Map` iteration order is an input sequence that enumerates the map, not insertion order.
- `CanvasStore.Store.BringForward`, `CanvasStore.Store.SendBackward`: when several live elements tie for the nearest zIndex, the contract says the element swaps with one of them. The source picks the first in map order.
- `CanvasStore.Store.Collect`, `CanvasStore.Store.CopySelectedElements`, `CanvasStore.Store.CutSelectedElements`: the selection is a `set`, so the clipboard order that the JavaScript `Set`'s insertion order fixes is left open; `PastedLiveAndOrdered` then stacks the copies in whatever order the clipboard has.
- `NostrContext.WeakPairingLogin`: the copies of the user in `localStorage` and in the canvas store (`setCurrentUser`) are not modelled, nor is the metadata fetch, whose result is a parameter.
- `NostrConnect.ConnectAcks`: NIP-04 encryption of the ack is a function parameter; an encryption that fails is `None`, and then no reply is sent.
- `WelcomeModal.CopiedLinkJoins`: requires an origin in which no "/canvas/" starts, not even one completed by the "/" the link adds (an origin ending in "/canvas"); for such an origin the pasted link does not give back the id.
- `NostrContext.PublishCanvasAction`, `NostrContext.SaveCanvasState`, `NostrContext.PublishNote`: `Promise.allSettled` outcomes are an input list of booleans; a thrown signer is `signed == false`.

## Findings

| source | as written | input that shows it | evidently intended | confidence | as-written member | corrected member |
|---|---|---|---|---|---|---|
| lib/export.tsx:112-117 | the SVG rectangle takes the element's signed width and height, while the ellipse beside it takes absolute values | a rectangle drawn leftwards: x = 100, width = -50; the exported `<rect>` has width -50 and is not rendered | normalise the rectangle as getElementBounds does | not executed | Export.LeftwardRectangleAsWritten | Export.RectangleExportCoversBounds |
| components/canvas/toolbar.tsx:146-161 | the tool-letter lookup runs before the Ctrl/Meta check, so Ctrl+O matches the ellipse tool ("O") and returns early | Ctrl+O | Ctrl/Cmd+O opens the load dialog, as Ctrl/Cmd+S opens the save dialog | not executed | Toolbar.CtrlOSelectsEllipseAsWritten | Toolbar.Shortcut |
| components/canvas/toolbar.tsx:84-120 | the effect's cleanup clears the pending timeout on every re-run, but a new save is scheduled only when the live element count changes | add a shape (save due in 30 s), then drag it one second later: the save is cancelled, and none is scheduled until the count changes again | a pending save survives edits that keep the count | not executed | Toolbar.AddThenMoveLosesSaveAsWritten | Toolbar.SameCountEditsKeepPendingSave |
