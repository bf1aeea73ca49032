/** The "open canvas" dialog: the list of the user's saved canvases with
    relative dates, and loading one of them into the store. */
module LoadCanvasModal {
  import opened Wrappers
  import opened Types
  import opened JsStrings
  import opened CanvasStore
  import opened NostrContext
  import Toolbar

  const NO_CANVASES_MESSAGE: string := "No saved canvases found. Create and save one first!"
  const FETCH_FAILED_MESSAGE: string := "Failed to load your canvases. Please try again."
  const CORRUPTED_MESSAGE: string := "Canvas data is corrupted or empty."
  const LOAD_FAILED_MESSAGE: string := "Failed to load canvas. Please try again."
  const CLOSE_DELAY: int := 500

  const MINUTE: int := 60000
  const HOUR: int := 3600000
  const DAY: int := 86400000
  const WEEK: int := 604800000

  // ---------------------------------------------------------------------
  // Dates in the list

  /** A relative label, or the calendar date `toLocaleDateString` renders. */
  datatype DateLabel = Relative(text: string) | CalendarDate(timestamp: int)

  function Plural(n: int): string {
    if n > 1 then "s" else ""
  }

  /** formatDate: whole minutes, hours or days since `timestamp` (each the
      floor of the difference), for differences under a week. */
  function FormatDate(timestamp: int, now: int): (r: DateLabel)
    ensures r.Relative? <==> now - timestamp < WEEK
    ensures r == Relative("Just now") <==> now - timestamp < MINUTE
    ensures MINUTE <= now - timestamp < HOUR ==>
      r == Relative(NatToString((now - timestamp) / MINUTE) + " min ago")
    ensures HOUR <= now - timestamp < DAY ==>
      r == Relative(NatToString((now - timestamp) / HOUR) + " hour"
                    + (if now - timestamp >= 2 * HOUR then "s" else "") + " ago")
    ensures DAY <= now - timestamp < WEEK ==>
      r == Relative(NatToString((now - timestamp) / DAY) + " day"
                    + (if now - timestamp >= 2 * DAY then "s" else "") + " ago")
    ensures !r.Relative? ==> r == CalendarDate(timestamp)
  {
    var d := now - timestamp;
    var mins := d / MINUTE;
    var hours := d / HOUR;
    var days := d / DAY;
    if mins < 1 then Relative("Just now")
    else if mins < 60 then Relative(NatToString(mins) + " min ago")
    else if hours < 24 then Relative(NatToString(hours) + " hour" + Plural(hours) + " ago")
    else if days < 7 then Relative(NatToString(days) + " day" + Plural(days) + " ago")
    else CalendarDate(timestamp)
  }

  /** The list and the toolbar agree on what "Just now" means. */
  lemma JustNowAgreesWithToolbar(timestamp: int, now: int)
    ensures FormatDate(timestamp, now) == Relative("Just now")
            <==> Toolbar.TimeSinceLastSave(Some(timestamp), now) == Some("Just now")
  {
  }

  // ---------------------------------------------------------------------
  // Loading a canvas

  /** What handleLoadCanvas does with what loadCanvasState gave it:
      `data` is `None` when the call threw, `Some(None)` for null. */
  datatype LoadResult = Loaded(items: seq<Element>, canvasId: string, canvasName: string)
                      | LoadFailed(message: string)

  /** A checkpoint is loaded when it exists and has an elements array;
      an absent id or name is stored as the empty string. */
  function LoadResultOf(data: Option<Option<StoredCanvas>>): (r: LoadResult)
    ensures r.Loaded? <==> data.Some? && data.value.Some? && data.value.value.elements.Some?
    ensures data.None? ==> r == LoadFailed(LOAD_FAILED_MESSAGE)
    ensures data.Some? && !r.Loaded? ==> r == LoadFailed(CORRUPTED_MESSAGE)
    ensures r.Loaded? ==> var c := data.value.value;
      r.items == c.elements.value && r.canvasId == c.canvasId.GetOr("") && r.canvasName == c.canvasName.GetOr("")
  {
    match data
    case None => LoadFailed(LOAD_FAILED_MESSAGE)
    case Some(None) => LoadFailed(CORRUPTED_MESSAGE)
    case Some(Some(c)) =>
      if c.elements.None? then LoadFailed(CORRUPTED_MESSAGE)
      else Loaded(c.elements.value, c.canvasId.GetOr(""), c.canvasName.GetOr(""))
  }

  /** The non-deleted elements of a map, under their ids. */
  function LiveElements(m: ElementMap): (r: ElementMap)
    ensures forall k :: k in r <==> k in m && Live(m[k])
    ensures forall k :: k in r ==> r[k] == m[k]
  {
    map k | k in m && Live(m[k]) :: m[k]
  }

  /** Every live element of `m` is listed among the live values. */
  lemma {:induction false} LiveListingCovers(m: ElementMap, values: seq<Element>, k: string)
    requires Enumerates(m, values) && k in m && Live(m[k])
    ensures k in IdsOf(LiveOnly(values))
  {
    var live := LiveOnly(values);
    assert k in IdsOf(values);
    var i :| 0 <= i < |values| && values[i].id == k;
    assert values[i] == m[k];
    var j :| 0 <= j < |live| && live[j] == m[k];
    assert live[j].id == k;
  }

  /** Every element on the live listing is the live element of `m` under
      its id. */
  lemma {:induction false} LiveListingSound(m: ElementMap, values: seq<Element>, e: Element)
    requires Enumerates(m, values) && e in LiveOnly(values)
    ensures e.id in m && m[e.id] == e && Live(e)
  {
    var h :| 0 <= h < |values| && values[h] == e;
  }

  lemma {:induction false} LiveLoadCovers(m: ElementMap, values: seq<Element>, k: string)
    requires Enumerates(m, values) && k in m && Live(m[k])
    ensures k in FromList(LiveOnly(values))
  {
    LoadLastWins(LiveOnly(values));
    LiveListingCovers(m, values, k);
  }

  lemma {:induction false} LiveLoadSound(m: ElementMap, values: seq<Element>, k: string)
    requires Enumerates(m, values) && k in FromList(LiveOnly(values))
    ensures k in m && Live(m[k]) && FromList(LiveOnly(values))[k] == m[k]
  {
    var live := LiveOnly(values);
    LoadLastWins(live);
    var i :| 0 <= i < |live| && live[i] == FromList(live)[k] && forall j :: i < j < |live| ==> live[j].id != k;
    assert live[i] in live;
    LiveListingSound(m, values, live[i]);
  }

  /** Loading the live elements of a listing of `m` rebuilds exactly the
      live part of `m`. */
  lemma {:induction false} LoadingLiveListing(m: ElementMap, values: seq<Element>)
    requires Enumerates(m, values)
    ensures FromList(LiveOnly(values)) == LiveElements(m)
  {
    var f := FromList(LiveOnly(values));
    forall k | k in m && Live(m[k]) ensures k in f {
      LiveLoadCovers(m, values, k);
    }
    forall k | k in f ensures k in m && Live(m[k]) && f[k] == m[k] {
      LiveLoadSound(m, values, k);
    }
    assert f.Keys == LiveElements(m).Keys;
  }

  /** Saving a canvas and opening it again (the relay returning the saved
      content) puts exactly its non-deleted elements back, with its id and
      name. */
  lemma SavedCanvasLoadsBack(m: ElementMap, values: seq<Element>, user: User, canvasId: string,
                             canvasName: string, nowMs: int, outcomes: seq<bool>)
    requires Enumerates(m, values)
    ensures var ev := SaveCanvasState(true, Some(user), canvasId, canvasName, values, nowMs, true, outcomes).1.value;
            var stored := StoredCanvas(Some(ev.content.canvasId), Some(ev.content.canvasName),
                                       ev.content.timestamp, Some(ev.content.elements));
            var r := LoadResultOf(Some(LoadCanvasState(true, Some([Parsed(stored)]))));
            r == Loaded(LiveOnly(values), canvasId, canvasName) && FromList(r.items) == LiveElements(m)
  {
    LoadingLiveListing(m, values);
  }

  /** The dialog's state. `open` is the parent's `open` flag, which the
      dialog changes through `onOpenChange`. */
  class LoadDialog {
    var open: bool
    var isLoading: bool
    var isLoadingCanvas: bool
    var canvases: seq<CanvasSummary>
    var error: string
    var selectedCanvasId: Option<string>
    var closeTimerPending: bool

    constructor (open: bool)
      ensures this.open == open && !isLoading && !isLoadingCanvas && canvases == []
      ensures error == "" && selectedCanvasId == None && !closeTimerPending
    {
      this.open := open;
      isLoading := false;
      isLoadingCanvas := false;
      canvases := [];
      error := "";
      selectedCanvasId := None;
      closeTimerPending := false;
    }

    /** The open/user effect: start fetching when the dialog is open and a
        user is logged in. */
    method OnOpenOrUserChange(loggedIn: bool) returns (fetching: bool)
      modifies this`isLoading, this`error
      ensures fetching <==> open && loggedIn
      ensures fetching ==> isLoading && error == ""
      ensures !fetching ==> isLoading == old(isLoading) && error == old(error)
    {
      fetching := open && loggedIn;
      if fetching {
        isLoading := true;
        error := "";
      }
    }

    /** The end of fetchCanvases: `listed` is `None` when listUserCanvases
        threw. */
    method FetchSettled(listed: Option<seq<CanvasSummary>>)
      modifies this`isLoading, this`canvases, this`error
      ensures !isLoading
      ensures listed.Some? ==> canvases == listed.value
      ensures listed.Some? && listed.value == [] ==> error == NO_CANVASES_MESSAGE
      ensures listed.Some? && listed.value != [] ==> error == old(error)
      ensures listed.None? ==> canvases == old(canvases) && error == FETCH_FAILED_MESSAGE
    {
      if listed.Some? {
        canvases := listed.value;
        if listed.value == [] {
          error := NO_CANVASES_MESSAGE;
        }
      } else {
        error := FETCH_FAILED_MESSAGE;
      }
      isLoading := false;
    }

    /** The start of handleLoadCanvas for the canvas clicked in the list. */
    method BeginLoad(canvasId: string)
      modifies this`isLoadingCanvas, this`selectedCanvasId, this`error
      ensures isLoadingCanvas && selectedCanvasId == Some(canvasId) && error == ""
    {
      isLoadingCanvas := true;
      selectedCanvasId := Some(canvasId);
      error := "";
    }

    /** The end of handleLoadCanvas. A loadable checkpoint clears the
        canvas, loads its elements (later duplicates of an id win), sets the
        id and name, and arms the 500 ms close timer; anything else only
        sets the error and leaves the store as it was. */
    method LoadSettled(store: Store, data: Option<Option<StoredCanvas>>)
      requires store.Valid()
      modifies this`isLoadingCanvas, this`error, this`closeTimerPending
      modifies store`elements, store`selected, store`currentElement, store`canvasId, store`canvasName
      ensures store.Valid() && !isLoadingCanvas
      ensures LoadResultOf(data).Loaded? ==>
        var r := LoadResultOf(data);
        && store.elements == FromList(r.items) && store.selected == {} && store.currentElement == None
        && store.canvasId == r.canvasId && store.canvasName == r.canvasName
        && error == old(error) && closeTimerPending
      ensures LoadResultOf(data).LoadFailed? ==>
        && error == LoadResultOf(data).message && closeTimerPending == old(closeTimerPending)
        && unchanged(store)
    {
      var r := LoadResultOf(data);
      if r.Loaded? {
        store.ClearCanvas();
        store.LoadElements(r.items);
        store.SetCanvasId(r.canvasId);
        store.SetCanvasName(r.canvasName);
        closeTimerPending := true;
      } else {
        error := r.message;
      }
      isLoadingCanvas := false;
    }

    /** The close timer fires: the dialog closes and forgets the selection. */
    method CloseTimerFires()
      requires closeTimerPending
      modifies this`open, this`selectedCanvasId, this`closeTimerPending
      ensures !open && selectedCanvasId == None && !closeTimerPending
    {
      open := false;
      selectedCanvasId := None;
      closeTimerPending := false;
    }

    /** handleOpenChange: ignored while a canvas is loading; closing clears
        the error and the selection. */
    method HandleOpenChange(newOpen: bool)
      modifies this`open, this`error, this`selectedCanvasId
      ensures old(isLoadingCanvas) ==> open == old(open) && error == old(error) && selectedCanvasId == old(selectedCanvasId)
      ensures !old(isLoadingCanvas) ==> open == newOpen
      ensures !old(isLoadingCanvas) && !newOpen ==> error == "" && selectedCanvasId == None
      ensures !old(isLoadingCanvas) && newOpen ==> error == old(error) && selectedCanvasId == old(selectedCanvasId)
    {
      if !isLoadingCanvas {
        open := newOpen;
        if !newOpen {
          error := "";
          selectedCanvasId := None;
        }
      }
    }
  }
}
