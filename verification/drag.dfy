/** The pointer state machine of the ornament canvas. The state is idle when
    `drag` is `None` and dragging ornament `d` when it is `Some(d)`. Pointer
    positions arrive already converted to canvas coordinates. Touch start,
    move and end are routed to the same handlers as mouse down, move and up. */
module Drag {
  import opened Common
  import opened Geometry
  import opened Canvas

  /** What the handlers read but never change: how many ornament images have
      loaded and the footprint size of every ornament. */
  datatype Scene = Scene(loaded: nat, item: Size)

  /** The mutable part: the current positions, the dragged index, the grab
      offset (pointer minus the ornament's corner at grab time) and the
      hovered index. */
  datatype Pointer = Pointer(positions: seq<Point>, drag: Option<nat>, offset: Point, hovered: Option<nat>)

  datatype Event =
    | Down(p: Point)          // mousedown / touchstart on the canvas
    | Move(p: Point)          // mousemove / touchmove on the canvas
    | Up                      // mouseup / touchend on the canvas
    | Leave                   // mouseleave of the canvas
    | DocumentMove(p: Point)  // mousemove anywhere in the document
    | DocumentUp              // mouseup anywhere in the document

  /** Nothing dragged, nothing hovered, offset zero. */
  function Initial(positions: seq<Point>): Pointer {
    Pointer(positions, None, Point(0.0, 0.0), None)
  }

  /** The dragged index always names an existing position. */
  predicate Valid(s: Pointer) {
    s.drag.Some? ==> s.drag.value < |s.positions|
  }

  /** Pointer-down: over an ornament, start dragging it and remember the grab
      offset; over nothing, change nothing. */
  function OnDown(sc: Scene, s: Pointer, p: Point): (t: Pointer)
    ensures var hit := HoveredImage(sc.loaded, s.positions, sc.item, p);
      && (hit.Some? ==> t == s.(drag := hit, offset := Sub(p, s.positions[hit.value])))
      && (hit.None? ==> t == s)
  {
    match HoveredImage(sc.loaded, s.positions, sc.item, p)
    case None => s
    case Some(i) => s.(drag := Some(i), offset := Sub(p, s.positions[i]))
  }

  /** Pointer-move: while idle only the hover index follows the hit-test;
      while dragging the dragged ornament's corner becomes pointer minus
      offset and nothing else changes. */
  function OnMove(sc: Scene, s: Pointer, p: Point): (t: Pointer)
    requires Valid(s)
    ensures s.drag.None? ==> t == s.(hovered := HoveredImage(sc.loaded, s.positions, sc.item, p))
    ensures s.drag.Some? ==> t.drag == s.drag && t.offset == s.offset && t.hovered == s.hovered
    ensures |t.positions| == |s.positions|
    ensures s.drag.Some? ==> Add(t.positions[s.drag.value], s.offset) == p
    ensures s.drag.Some? ==> forall j :: 0 <= j < |s.positions| && j != s.drag.value ==>
                               t.positions[j] == s.positions[j]
  {
    match s.drag
    case None => s.(hovered := HoveredImage(sc.loaded, s.positions, sc.item, p))
    case Some(d) => s.(positions := s.positions[d := Sub(p, s.offset)])
  }

  /** Pointer-up ends any drag and clears the hover. */
  function OnUp(s: Pointer): (t: Pointer)
    ensures t.drag.None? && t.hovered.None?
    ensures t.positions == s.positions && t.offset == s.offset
  {
    s.(drag := None, hovered := None)
  }

  /** Leaving the canvas clears the hover only when no drag is in progress. */
  function OnLeave(s: Pointer): (t: Pointer)
    ensures s.drag.None? ==> t == s.(hovered := None)
    ensures s.drag.Some? ==> t == s
  {
    if s.drag.None? then s.(hovered := None) else s
  }

  /** The document-level move and up handlers act only during a drag, so a
      drag continues when the pointer leaves the canvas. */
  function OnDocumentMove(sc: Scene, s: Pointer, p: Point): (t: Pointer)
    requires Valid(s)
    ensures s.drag.None? ==> t == s
    ensures s.drag.Some? ==> t == OnMove(sc, s, p)
  {
    if s.drag.Some? then OnMove(sc, s, p) else s
  }

  function OnDocumentUp(s: Pointer): (t: Pointer)
    ensures s.drag.None? ==> t == s
    ensures s.drag.Some? ==> t == OnUp(s)
  {
    if s.drag.Some? then OnUp(s) else s
  }

  function Step(sc: Scene, s: Pointer, e: Event): (t: Pointer)
    requires Valid(s)
    ensures Valid(t)
    ensures |t.positions| == |s.positions|
  {
    match e
    case Down(p) => OnDown(sc, s, p)
    case Move(p) => OnMove(sc, s, p)
    case Up => OnUp(s)
    case Leave => OnLeave(s)
    case DocumentMove(p) => OnDocumentMove(sc, s, p)
    case DocumentUp => OnDocumentUp(s)
  }

  /** The state after a whole sequence of events. */
  function Run(sc: Scene, s: Pointer, es: seq<Event>): (t: Pointer)
    requires Valid(s)
    ensures Valid(t) && |t.positions| == |s.positions|
    decreases |es|
  {
    if es == [] then s else Run(sc, Step(sc, s, es[0]), es[1..])
  }

  /** The handlers start idle, so every reachable state is valid and keeps
      one position per ornament. */
  lemma InitialRunValid(sc: Scene, positions: seq<Point>, es: seq<Event>)
    ensures Valid(Initial(positions))
    ensures Valid(Run(sc, Initial(positions), es))
    ensures |Run(sc, Initial(positions), es).positions| == |positions|
  {
  }

  /** Only pointer-down can start a drag, and only over an ornament. */
  lemma OnlyDownStartsDrag(sc: Scene, s: Pointer, e: Event)
    requires Valid(s) && s.drag.None?
    requires Step(sc, s, e).drag.Some?
    ensures e.Down?
    ensures HoveredImage(sc.loaded, s.positions, sc.item, e.p) == Step(sc, s, e).drag
  {
  }

  /** A mouse move over the canvas reaches both the canvas handler and the
      document handler; the second delivery changes nothing. */
  lemma CanvasThenDocumentMove(sc: Scene, s: Pointer, p: Point)
    requires Valid(s)
    ensures Step(sc, Step(sc, s, Move(p)), DocumentMove(p)) == Step(sc, s, Move(p))
  {
  }

  /** Moves only, each while dragging. */
  predicate AllMoves(es: seq<Event>) {
    forall k :: 0 <= k < |es| ==> es[k].Move? || es[k].DocumentMove?
  }

  /** During a drag, any sequence of moves leaves every other ornament where it
      was and keeps the drag, offset and hover; the dragged ornament is at the
      last pointer position minus the grab offset (or unchanged if there was
      no move). */
  lemma {:induction false} MovesOnlyTouchDragged(sc: Scene, s: Pointer, es: seq<Event>)
    requires Valid(s) && s.drag.Some?
    requires AllMoves(es)
    ensures var t := Run(sc, s, es);
      && t.drag == s.drag && t.offset == s.offset && t.hovered == s.hovered
      && (forall j :: 0 <= j < |s.positions| && j != s.drag.value ==> t.positions[j] == s.positions[j])
      && (es == [] ==> t.positions == s.positions)
      && (es != [] ==> Add(t.positions[s.drag.value], s.offset) == es[|es| - 1].p)
    decreases |es|
  {
    if es != [] {
      var s' := Step(sc, s, es[0]);
      assert AllMoves(es[1..]) by {
        forall k | 0 <= k < |es[1..]| ensures es[1..][k].Move? || es[1..][k].DocumentMove? {
          assert es[1..][k] == es[k + 1];
        }
      }
      MovesOnlyTouchDragged(sc, s', es[1..]);
      if es[1..] == [] {
        assert Run(sc, s', es[1..]) == s';
      } else {
        assert es[1..][|es[1..]| - 1] == es[|es| - 1];
      }
    }
  }

  /** No drift: grab ornament `i` at `p0`, move around, come back to `p0`, and
      every position is exactly what it was before the grab. */
  lemma {:induction false} ReturnToGrabPointRestores(sc: Scene, s: Pointer, p0: Point, es: seq<Event>, i: nat)
    requires Valid(s)
    requires HoveredImage(sc.loaded, s.positions, sc.item, p0) == Some(i)
    requires AllMoves(es) && es != [] && es[|es| - 1].p == p0
    ensures Run(sc, Step(sc, s, Down(p0)), es).positions == s.positions
  {
    var g := Step(sc, s, Down(p0));
    assert g.drag == Some(i) && g.offset == Sub(p0, s.positions[i]);
    MovesOnlyTouchDragged(sc, g, es);
    var t := Run(sc, g, es);
    assert Add(t.positions[i], g.offset) == p0;
    assert t.positions[i] == s.positions[i];
    assert forall j :: 0 <= j < |s.positions| ==> t.positions[j] == s.positions[j];
  }

  /** After pointer-up no event other than pointer-down can change a
      position. */
  lemma IdleKeepsPositions(sc: Scene, s: Pointer, e: Event)
    requires Valid(s) && s.drag.None? && !e.Down?
    ensures Step(sc, s, e).positions == s.positions
  {
  }
}
