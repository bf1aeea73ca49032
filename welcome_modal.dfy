/** The welcome dialog's "join" field: a canvas id or a pasted canvas link
    becomes the id of the canvas to open. */
module WelcomeModal {
  import opened Wrappers
  import opened JsStrings
  import Header

  const CANVAS_SEGMENT: string := "/canvas/"

  /** handleJoinCanvas: `None` when the trimmed input is empty (no
      navigation); otherwise the id to navigate to. With "/canvas/" in the
      input, the id is the last piece of `split("/canvas/")` up to its first
      "?", unless that is empty. */
  function JoinCanvasId(input: string): (r: Option<string>)
    ensures r.None? <==> Trim(input) == ""
    ensures r.Some? ==> r.value != ""
    ensures r.Some? && !Contains(Trim(input), CANVAS_SEGMENT) ==> r.value == Trim(input)
    ensures r.Some? && Contains(Trim(input), CANVAS_SEGMENT) ==>
      var piece := SplitPop(Trim(input), CANVAS_SEGMENT);
      if piece == [] || piece[0] == '?' then r.value == Trim(input)
      else && '?' !in r.value && StartsWith(piece, r.value)
           && (|r.value| == |piece| || piece[|r.value|] == '?')
  {
    var t := Trim(input);
    if t == "" then None
    else if Contains(t, CANVAS_SEGMENT) then
      var piece := SplitPop(t, CANVAS_SEGMENT);
      var id := BeforeFirst(piece, '?');
      assert id == [] <==> piece == [] || piece[0] == '?' by {
        if id != [] && piece != [] {
          assert id[0] == piece[0];
        }
      }
      Some(if id == "" then t else id)
    else Some(t)
  }

  /** The navigation target. */
  function JoinPath(input: string): (r: Option<string>)
    ensures r.Some? <==> Trim(input) != ""
    ensures r.Some? ==> r.value == CANVAS_SEGMENT + JoinCanvasId(input).value
  {
    match JoinCanvasId(input)
    case None => None
    case Some(id) => Some(CANVAS_SEGMENT + id)
  }

  lemma TrimNoEdgeWhitespace(s: string)
    requires s != [] && !IsJsWhitespace(s[0]) && !IsJsWhitespace(s[|s| - 1])
    ensures Trim(s) == s
  {
    assert LeadingWs(s) == 0;
    assert s[0..] == s;
  }

  /** The text before the first `c` of `a + b` is `a` when `a` has no `c`
      and `b` is empty or starts with `c`. */
  lemma BeforeFirstOfJoin(a: string, b: string, c: char)
    requires c !in a && (b == [] || b[0] == c)
    ensures BeforeFirst(a + b, c) == a
  {
    var s := a + b;
    var r := BeforeFirst(s, c);
    assert forall j :: 0 <= j < |a| ==> s[j] == a[j] && s[j] != c;
    assert |a| < |s| ==> s[|a|] == c;
    assert r == s[..|r|];
  }

  /** In `prefix + "/canvas/" + rest`, when no "/canvas/" starts inside
      `prefix` (not even one ending at the added "/", as in a prefix
      ending in "/canvas") and `rest` has no "/", the first match of the
      left-to-right scan is the one after `prefix` and it is the last, so
      `split("/canvas/").pop()` gives `rest`. */
  lemma {:induction false} SplitPopSegment(prefix: string, rest: string)
    requires !Contains(prefix + "/", CANVAS_SEGMENT)
    requires '/' !in rest
    ensures SplitPop(prefix + CANVAS_SEGMENT + rest, CANVAS_SEGMENT) == rest
  {
    var t := prefix + CANVAS_SEGMENT + rest;
    var n := |prefix|;
    FirstSegmentMatch(prefix, rest);
    NoSegmentMatchIn(prefix, rest);
    assert SplitPopFrom(t, CANVAS_SEGMENT, n + 8) == t[n + 8..] == rest;
    assert SplitPopFrom(t, CANVAS_SEGMENT, 0) == SplitPopFrom(t, CANVAS_SEGMENT, n + 8);
  }

  /** The scan's first match of "/canvas/" is the one right after `prefix`. */
  lemma FirstSegmentMatch(prefix: string, rest: string)
    requires !Contains(prefix + "/", CANVAS_SEGMENT)
    ensures IndexOfFrom(prefix + CANVAS_SEGMENT + rest, CANVAS_SEGMENT, 0) == |prefix|
  {
    var t := prefix + CANVAS_SEGMENT + rest;
    var n := |prefix|;
    assert OccursAt(t, CANVAS_SEGMENT, n) by {
      assert t[n..n + 8] == CANVAS_SEGMENT;
    }
    forall i | 0 <= i < n ensures !OccursAt(t, CANVAS_SEGMENT, i) {
      NoSegmentMatchBefore(prefix, rest, i);
    }
  }

  /** No "/canvas/" of `prefix + "/canvas/" + rest` starts inside `prefix`. */
  lemma NoSegmentMatchBefore(prefix: string, rest: string, i: nat)
    requires !Contains(prefix + "/", CANVAS_SEGMENT)
    requires i < |prefix|
    ensures !OccursAt(prefix + CANVAS_SEGMENT + rest, CANVAS_SEGMENT, i)
  {
    var t := prefix + CANVAS_SEGMENT + rest;
    var n := |prefix|;
    if i + 8 <= n + 1 {
      assert t[i..i + 8] == (prefix + "/")[i..i + 8];
      assert !OccursAt(prefix + "/", CANVAS_SEGMENT, i);
    } else {
      assert t[i + 7] == CANVAS_SEGMENT[i + 7 - n] != '/';
      assert t[i..i + 8][7] == t[i + 7];
    }
  }

  /** Once past the match after `prefix`, the scan finds no more. */
  lemma NoSegmentMatchIn(prefix: string, rest: string)
    requires '/' !in rest
    ensures IndexOfFrom(prefix + CANVAS_SEGMENT + rest, CANVAS_SEGMENT, |prefix| + 8) == -1
  {
    var t := prefix + CANVAS_SEGMENT + rest;
    var n := |prefix|;
    forall j | n + 8 <= j <= |t| - 8 ensures t[j] != '/' {
      assert t[j] == rest[j - n - 8];
    }
    NoSegmentFrom(t, n + 8);
  }

  /** A scan from `from` finds nothing when no "/" can start a match. */
  lemma NoSegmentFrom(t: string, from: nat)
    requires from <= |t|
    requires forall j :: from <= j <= |t| - 8 ==> t[j] != '/'
    ensures IndexOfFrom(t, CANVAS_SEGMENT, from) == -1
  {
    forall j | from <= j <= |t| - 8 ensures !OccursAt(t, CANVAS_SEGMENT, j) {
      assert t[j..j + 8][0] == t[j];
    }
  }

  /** `split` does not reuse the "/" that ends one match as the start of
      the next: in "/canvas/canvas/x" (`t` below) only the first "/canvas/" is a match,
      so the id joined is "canvas/x", not "x". */
  lemma SplitMatchesDoNotOverlap(t: string)
    requires t == CANVAS_SEGMENT + "canvas/x"
    ensures JoinCanvasId(t) == Some("canvas/x")
  {
    TrimNoEdgeWhitespace(t);
    SplitPopDoubleSegment(t);
    JoinOfPlainPiece(t, "canvas/x");
  }

  /** When the trimmed input holds "/canvas/" and the last piece has no
      "?", the id is that piece. */
  lemma JoinOfPlainPiece(t: string, piece: string)
    requires Trim(t) == t && Contains(t, CANVAS_SEGMENT)
    requires SplitPop(t, CANVAS_SEGMENT) == piece && piece != [] && '?' !in piece
    ensures JoinCanvasId(t) == Some(piece)
  {
    var r := JoinCanvasId(t);
    assert r.Some? && StartsWith(piece, r.value);
    assert |r.value| == |piece|;
    assert r.value == piece[..|r.value|] == piece;
  }

  lemma SplitPopDoubleSegment(t: string)
    requires t == CANVAS_SEGMENT + "canvas/x"
    ensures Contains(t, CANVAS_SEGMENT)
    ensures SplitPop(t, CANVAS_SEGMENT) == "canvas/x" && '?' !in "canvas/x"
  {
    var rest := "canvas/x";
    assert rest[0] == 'c' && |rest| == 8;
    SplitPopAfterSegment(rest);
  }

  /** After a leading "/canvas/", a rest in which no match can start is
      what `split("/canvas/").pop()` gives. */
  lemma SplitPopAfterSegment(rest: string)
    requires forall j :: 0 <= j <= |rest| - 8 ==> rest[j] != '/'
    ensures Contains(CANVAS_SEGMENT + rest, CANVAS_SEGMENT)
    ensures SplitPop(CANVAS_SEGMENT + rest, CANVAS_SEGMENT) == rest
  {
    var t := CANVAS_SEGMENT + rest;
    assert t[0..8] == CANVAS_SEGMENT;
    assert OccursAt(t, CANVAS_SEGMENT, 0);
    assert IndexOfFrom(t, CANVAS_SEGMENT, 0) == 0;
    forall j | 8 <= j <= |t| - 8 ensures t[j] != '/' {
      assert t[j] == rest[j - 8];
    }
    NoSegmentFrom(t, 8);
    assert SplitPopFrom(t, CANVAS_SEGMENT, 8) == t[8..] == rest;
  }

  /** A bare id (no surrounding whitespace, no "/canvas/") is used as is. */
  lemma BareIdJoins(id: string)
    requires id != [] && !IsJsWhitespace(id[0]) && !IsJsWhitespace(id[|id| - 1])
    requires !Contains(id, CANVAS_SEGMENT)
    ensures JoinCanvasId(id) == Some(id)
  {
    TrimNoEdgeWhitespace(id);
  }

  /** Pasting the link that "Copy Link" produces, optionally followed by a
      query string, opens the same canvas: the id is recovered exactly when
      it has no "/" or "?" and the link has no surrounding whitespace. */
  lemma {:induction false} CopiedLinkJoins(origin: string, id: string, query: string)
    requires id != [] && '/' !in id && '?' !in id
    requires query == [] || (query[0] == '?' && '/' !in query)
    requires origin == [] || !IsJsWhitespace(origin[0])
    requires !Contains(origin + "/", CANVAS_SEGMENT)
    requires var tail := id + query; !IsJsWhitespace(tail[|tail| - 1])
    ensures JoinCanvasId(Header.CopyLinkUrl(origin, id) + query) == Some(id)
  {
    var t := Header.CopyLinkUrl(origin, id) + query;
    assert t == origin + CANVAS_SEGMENT + (id + query);
    assert t[0] == if origin == [] then '/' else origin[0];
    assert t[|t| - 1] == (id + query)[|id + query| - 1];
    TrimNoEdgeWhitespace(t);
    assert Contains(t, CANVAS_SEGMENT) by {
      assert OccursAt(t, CANVAS_SEGMENT, |origin|);
    }
    SplitPopSegment(origin, id + query);
    BeforeFirstOfJoin(id, query, '?');
  }
}
