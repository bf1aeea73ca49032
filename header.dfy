/** The header: who is shown as online, the avatar row with its overflow
    badge, the "N online" badge, avatar initials and the copied link. */
module Header {
  import opened Wrappers
  import opened Types
  import opened JsStrings
  import opened NostrContext
  import InfiniteCanvas

  /** A collaborator counts as active for ten seconds after its last cursor. */
  const ACTIVE_WINDOW: int := 10000
  const MAX_AVATARS: nat := 5

  predicate IsActive(c: CursorPosition, now: int) {
    now - c.timestamp < ACTIVE_WINDOW
  }

  /** activeCollaborators: the cursors (in map order) heard from less than
      ten seconds ago. */
  function ActiveCollaborators(cursors: seq<CursorPosition>, now: int): (r: seq<CursorPosition>)
    ensures |r| <= |cursors|
    ensures forall i :: 0 <= i < |r| ==> r[i] in cursors && IsActive(r[i], now)
    ensures forall c :: c in cursors && IsActive(c, now) ==> c in r
    ensures (forall i :: 0 <= i < |cursors| ==> IsActive(cursors[i], now)) ==> r == cursors
  {
    if cursors == [] then []
    else
      var rest := ActiveCollaborators(cursors[1..], now);
      assert forall c :: c in cursors[1..] ==> c in cursors;
      if IsActive(cursors[0], now) then [cursors[0]] + rest else rest
  }

  /** `ActiveCollaborators` is the generic filter with the activity test. */
  lemma {:induction false} ActiveCollaboratorsAreKept(s: seq<CursorPosition>, now: int)
    ensures ActiveCollaborators(s, now) == Kept(s, c => IsActive(c, now))
  {
    if s != [] {
      ActiveCollaboratorsAreKept(s[1..], now);
    }
  }

  /** The filter keeps map order: filtering a concatenation filters each part. */
  lemma ActiveCollaboratorsAppend(a: seq<CursorPosition>, b: seq<CursorPosition>, now: int)
    ensures ActiveCollaborators(a + b, now) == ActiveCollaborators(a, now) + ActiveCollaborators(b, now)
  {
    ActiveCollaboratorsAreKept(a, now);
    ActiveCollaboratorsAreKept(b, now);
    ActiveCollaboratorsAreKept(a + b, now);
    KeptAppend(a, b, c => IsActive(c, now));
  }

  /** A single cursor is kept exactly when it is active. */
  lemma ActiveCollaboratorsSingle(c: CursorPosition, now: int)
    ensures ActiveCollaborators([c], now) == if IsActive(c, now) then [c] else []
  {
    assert [c][1..] == [];
  }

  /** `activeCollaborators.slice(0, 5)`: the avatars drawn. */
  function ShownAvatars(active: seq<CursorPosition>): (r: seq<CursorPosition>)
    ensures |r| == if |active| <= MAX_AVATARS then |active| else MAX_AVATARS
    ensures r == active[..|r|]
  {
    if |active| <= MAX_AVATARS then active else active[..MAX_AVATARS]
  }

  /** The "+N" badge: present exactly when more than five are active. */
  function OverflowBadge(active: seq<CursorPosition>): (r: Option<nat>)
    ensures r.Some? <==> |active| > MAX_AVATARS
  {
    if |active| > MAX_AVATARS then Some(|active| - MAX_AVATARS) else None
  }

  /** The "N online" badge counts the local user too, and is shown only when
      someone else is active. */
  function OnlineBadge(active: seq<CursorPosition>): (r: Option<nat>)
    ensures r.Some? <==> |active| > 0
    ensures r.Some? ==> r.value >= 2
  {
    if |active| > 0 then Some(|active| + 1) else None
  }

  /** The drawn avatars plus the number on the overflow badge account for
      every active collaborator, each once. */
  lemma AvatarsAccountForEveryone(active: seq<CursorPosition>)
    ensures |ShownAvatars(active)| + OverflowBadge(active).GetOr(0) == |active|
    ensures OnlineBadge(active).Some? ==> OnlineBadge(active).value == |ShownAvatars(active)| + OverflowBadge(active).GetOr(0) + 1
  {
  }

  /** Every cursor drawn on the canvas (at most five seconds old) is among
      the active collaborators (less than ten seconds old). */
  lemma {:induction false} DrawnCursorsAreOnline(cursors: map<string, CursorPosition>, vals: seq<CursorPosition>, now: int)
    requires forall k :: k in cursors ==> cursors[k] in vals
    ensures forall k :: k in InfiniteCanvas.VisibleCursors(cursors, now) ==> cursors[k] in ActiveCollaborators(vals, now)
  {
    forall k | k in InfiniteCanvas.VisibleCursors(cursors, now)
      ensures cursors[k] in ActiveCollaborators(vals, now)
    {
      assert IsActive(cursors[k], now);
    }
  }

  /** ... but not conversely: a cursor last heard seven seconds ago is
      counted online while no longer drawn. */
  lemma OnlineButNotDrawn(c: CursorPosition)
    requires c.timestamp == 0
    ensures c in ActiveCollaborators([c], 7000)
    ensures c.pubkey !in InfiniteCanvas.VisibleCursors(map[c.pubkey := c], 7000)
  {
  }

  /** The fallback initials of the logged-in user: the first two characters
      of a non-empty name, else the two characters after "npub1". */
  function UserInitials(user: User): (r: string)
    ensures |r| <= 2
    ensures user.name.Some? && user.name.value != "" ==>
      |r| == (if |user.name.value| < 2 then |user.name.value| else 2)
      && forall i :: 0 <= i < |r| ==> r[i] == UpperChar(user.name.value[i])
    ensures (user.name.None? || user.name.value == "") && |user.npub| >= 7 ==>
      r == [UpperChar(user.npub[5]), UpperChar(user.npub[6])]
  {
    if user.name.Some? && user.name.value != "" then ToUpper(Slice(user.name.value, 0, 2))
    else ToUpper(Slice(user.npub, 5, 7))
  }

  /** A collaborator's avatar shows the first two characters of its pubkey. */
  function CollaboratorInitials(c: CursorPosition): (r: string)
    ensures |c.pubkey| >= 2 ==> r == [UpperChar(c.pubkey[0]), UpperChar(c.pubkey[1])]
    ensures |c.pubkey| < 2 ==> r == ToUpper(c.pubkey)
  {
    ToUpper(Slice(c.pubkey, 0, 2))
  }

  /** handleCopyLink: the link to the current canvas. */
  function CopyLinkUrl(origin: string, canvasId: string): (r: string)
    ensures |r| == |origin| + 8 + |canvasId|
    ensures r[..|origin|] == origin && r[|origin| + 8..] == canvasId
    ensures OccursAt(r, "/canvas/", |origin|)
  {
    origin + "/canvas/" + canvasId
  }
}
