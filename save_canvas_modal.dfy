/** The "save to Nostr" dialog: its guards, the name update, the status it
    shows, and when its button is enabled. */
module SaveCanvasModal {
  import opened Wrappers
  import opened JsStrings
  import opened CanvasStore
  import opened NostrContext

  const NOT_LOGGED_IN_MESSAGE: string := "You need to be logged in to save"
  const BLANK_NAME_MESSAGE: string := "Please enter a canvas name"
  const RELAYS_FAILED_MESSAGE: string := "Failed to save to relays. Please try again."
  const UNEXPECTED_MESSAGE: string := "An unexpected error occurred"
  const CLOSE_DELAY: int := 1500

  datatype SaveStatus = SaveIdle | SaveSuccess | SaveError

  /** How the guards at the top of handleSave decide. */
  datatype SaveGuard = NotLoggedIn | BlankName | Proceed

  /** The login check comes first, then the name check. */
  function Guard(user: Option<User>, localName: string): (g: SaveGuard)
    ensures g == NotLoggedIn <==> user.None?
    ensures g == BlankName <==> user.Some? && Trim(localName) == ""
    ensures g == Proceed <==> user.Some? && Trim(localName) != ""
  {
    if user.None? then NotLoggedIn
    else if Trim(localName) == "" then BlankName
    else Proceed
  }

  /** How saveCanvasState ended: resolved to a boolean, or threw. */
  datatype SaveResult = Resolved(saved: bool) | Threw

  /** The status and message once the save settles. */
  function Settled(r: SaveResult): (s: (SaveStatus, string))
    ensures s.0 == SaveSuccess <==> r == Resolved(true)
    ensures s.0 == SaveSuccess ==> s.1 == ""
    ensures r == Resolved(false) ==> s == (SaveError, RELAYS_FAILED_MESSAGE)
    ensures r == Threw ==> s == (SaveError, UNEXPECTED_MESSAGE)
  {
    match r
    case Resolved(true) => (SaveSuccess, "")
    case Resolved(false) => (SaveError, RELAYS_FAILED_MESSAGE)
    case Threw => (SaveError, UNEXPECTED_MESSAGE)
  }

  /** The save button is enabled unless a save is running, there is nothing
      to save, nobody is logged in, or the canvas has just been saved. */
  predicate ButtonEnabled(isSaving: bool, liveCount: nat, loggedIn: bool, status: SaveStatus) {
    !(isSaving || liveCount == 0 || !loggedIn || status == SaveSuccess)
  }

  /** A click on an enabled button never reaches the login error. */
  lemma EnabledButtonIsLoggedIn(isSaving: bool, liveCount: nat, user: Option<User>, status: SaveStatus,
                                localName: string)
    requires ButtonEnabled(isSaving, liveCount, user.Some?, status)
    ensures Guard(user, localName) != NotLoggedIn
    ensures Guard(user, localName) == Proceed <==> Trim(localName) != ""
  {
  }

  /** The dialog's state. `open` is the parent's flag, changed through
      `onOpenChange`; `localName` starts as the store's name. */
  class SaveDialog {
    var open: bool
    var isSaving: bool
    var status: SaveStatus
    var errorMessage: string
    var localName: string
    var closeTimerPending: bool

    constructor (open: bool, canvasName: string)
      ensures this.open == open && localName == canvasName
      ensures !isSaving && status == SaveIdle && errorMessage == "" && !closeTimerPending
    {
      this.open := open;
      localName := canvasName;
      isSaving := false;
      status := SaveIdle;
      errorMessage := "";
      closeTimerPending := false;
    }

    method SetLocalName(name: string)
      modifies this`localName
      ensures localName == name
    {
      localName := name;
    }

    /** The start of handleSave. A failed guard shows its error and requests
        nothing. Otherwise the store's name becomes `localName` (it is set
        only when different) and the save of the current canvas under
        `localName` is requested. */
    method BeginSave(store: Store, user: Option<User>) returns (request: Option<(string, string)>)
      modifies this`isSaving, this`status, this`errorMessage, store`canvasName
      ensures request.Some? <==> Guard(user, localName) == Proceed
      ensures Guard(user, localName) == NotLoggedIn ==>
        status == SaveError && errorMessage == NOT_LOGGED_IN_MESSAGE
      ensures Guard(user, localName) == BlankName ==>
        status == SaveError && errorMessage == BLANK_NAME_MESSAGE
      ensures request.None? ==> isSaving == old(isSaving) && store.canvasName == old(store.canvasName)
      ensures request.Some? ==>
        && isSaving && status == SaveIdle && errorMessage == ""
        && store.canvasName == localName
        && request.value == (store.canvasId, localName)
    {
      var g := Guard(user, localName);
      if g == NotLoggedIn {
        errorMessage := NOT_LOGGED_IN_MESSAGE;
        status := SaveError;
        request := None;
      } else if g == BlankName {
        errorMessage := BLANK_NAME_MESSAGE;
        status := SaveError;
        request := None;
      } else {
        isSaving := true;
        status := SaveIdle;
        errorMessage := "";
        if localName != store.canvasName {
          store.SetCanvasName(localName);
        }
        request := Some((store.canvasId, localName));
      }
    }

    /** The end of handleSave: the status and message of the outcome; a
        success arms the 1.5 s close timer. */
    method SaveSettled(r: SaveResult)
      modifies this`isSaving, this`status, this`errorMessage, this`closeTimerPending
      ensures !isSaving
      ensures r == Resolved(true) ==> status == SaveSuccess && errorMessage == old(errorMessage) && closeTimerPending
      ensures r != Resolved(true) ==> (status, errorMessage) == Settled(r) && closeTimerPending == old(closeTimerPending)
    {
      var s := Settled(r);
      status := s.0;
      if r == Resolved(true) {
        closeTimerPending := true;
      } else {
        errorMessage := s.1;
      }
      isSaving := false;
    }

    /** The button: handleSave runs only when the button is enabled. */
    method ClickSave(store: Store, user: Option<User>, liveCount: nat) returns (request: Option<(string, string)>)
      modifies this`isSaving, this`status, this`errorMessage, store`canvasName
      ensures !ButtonEnabled(old(isSaving), liveCount, user.Some?, old(status)) ==>
        request.None? && isSaving == old(isSaving) && status == old(status)
        && errorMessage == old(errorMessage) && store.canvasName == old(store.canvasName)
      ensures ButtonEnabled(old(isSaving), liveCount, user.Some?, old(status)) ==>
        (request.Some? <==> Trim(localName) != "")
    {
      if ButtonEnabled(isSaving, liveCount, user.Some?, status) {
        request := BeginSave(store, user);
      } else {
        request := None;
      }
    }

    /** Enter in the name field: handleSave runs whenever no save is running,
        whatever the button's state. */
    method PressEnter(store: Store, user: Option<User>) returns (request: Option<(string, string)>)
      modifies this`isSaving, this`status, this`errorMessage, store`canvasName
      ensures old(isSaving) ==> request.None? && status == old(status) && errorMessage == old(errorMessage)
      ensures !old(isSaving) ==> (request.Some? <==> Guard(user, localName) == Proceed)
    {
      if !isSaving {
        request := BeginSave(store, user);
      } else {
        request := None;
      }
    }

    /** The close timer fires: the dialog closes and the status resets. */
    method CloseTimerFires()
      requires closeTimerPending
      modifies this`open, this`status, this`closeTimerPending
      ensures !open && status == SaveIdle && !closeTimerPending
    {
      open := false;
      status := SaveIdle;
      closeTimerPending := false;
    }

    /** handleOpenChange: ignored while saving; closing resets the status
        and the message. */
    method HandleOpenChange(newOpen: bool)
      modifies this`open, this`status, this`errorMessage
      ensures old(isSaving) ==> open == old(open) && status == old(status) && errorMessage == old(errorMessage)
      ensures !old(isSaving) ==> open == newOpen
      ensures !old(isSaving) && !newOpen ==> status == SaveIdle && errorMessage == ""
      ensures !old(isSaving) && newOpen ==> status == old(status) && errorMessage == old(errorMessage)
    {
      if !isSaving {
        open := newOpen;
        if !newOpen {
          status := SaveIdle;
          errorMessage := "";
        }
      }
    }
  }

  /** Enter saves where the button would not: an empty canvas, or one just
      saved, is saved again from the keyboard. */
  lemma EnterBypassesButtonRule(user: User, localName: string)
    requires Trim(localName) != ""
    ensures !ButtonEnabled(false, 0, true, SaveIdle) && Guard(Some(user), localName) == Proceed
    ensures !ButtonEnabled(false, 3, true, SaveSuccess)
  {
  }
}
