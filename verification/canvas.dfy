/** The drawing surface: mapping pointer input to canvas coordinates, the
    stroke lifecycle (start, extend, commit or discard), undo, clear, the
    brush controls, and what a redraw paints. Each event handler is a pure
    step from one state to the next, together with the list (if any) handed
    to the `onStrokeUpdate` observer. */
module Canvas {
  import opened Common

  /** A point in canvas (backing-store) pixel space. */
  datatype Point = Point(x: real, y: real)

  /** One gesture: the brush colour and size read when it started, and its points. */
  datatype Stroke = Stroke(color: string, size: int, points: seq<Point>)

  /** The canvas element's box on screen, as `getBoundingClientRect` reports it. */
  datatype Rect = Rect(left: real, top: real, width: real, height: real)

  /** A mounted canvas: its backing-store size (`canvas.width`, `canvas.height`)
      and its on-screen box. */
  datatype Surface = Surface(width: nat, height: nat, rect: Rect)

  datatype ClientPoint = ClientPoint(x: real, y: real)

  /** The raw events the canvas listens to: a mouse event carries client
      coordinates, a touch event carries the list of active touches (and no
      client coordinates of its own). */
  datatype PointerEvent = MouseEvent(client: ClientPoint) | TouchEvent(touches: seq<ClientPoint>)

  /** The three size buttons. */
  datatype SizeButton = Small | Medium | Large
  {
    function Pixels(): int {
      match this
      case Small => 2
      case Medium => 4
      case Large => 8
    }
  }

  const BrushSizes: set<int> := {2, 4, 8}
  const DefaultBrushSize := 4
  const DefaultBrushColor := "#000000"
  const Origin := Point(0.0, 0.0)

  datatype CanvasState = CanvasState(
    isDrawing: bool,
    strokes: seq<Stroke>,
    current: Option<Stroke>,
    brushSize: int,
    brushColor: string)

  /** The state after an event, and the list passed to `onStrokeUpdate` if it was called. */
  datatype Step = Step(state: CanvasState, notified: Option<seq<Stroke>>)

  const Initial := CanvasState(false, [], None, DefaultBrushSize, DefaultBrushColor)

  /** The mapping divides by the displayed size, so a mounted canvas must
      have a non-zero box. */
  predicate Displayed(canvas: Option<Surface>) {
    canvas.Some? ==> canvas.value.rect.width != 0.0 && canvas.value.rect.height != 0.0
  }

  /** The client position an event carries: a mouse event's own, or the first
      touch of a touch event; a touch event with no touches carries none. */
  function ClientOf(ev: PointerEvent): Option<ClientPoint> {
    match ev
    case MouseEvent(c) => Some(c)
    case TouchEvent(ts) => if |ts| > 0 then Some(ts[0]) else None
  }

  /** Where a canvas-space point sits on screen: the inverse of the mapping. */
  function ClientFromPoint(surface: Surface, p: Point): ClientPoint
    requires surface.width > 0 && surface.height > 0
  {
    var r := surface.rect;
    ClientPoint(r.left + p.x * r.width / surface.width as real, r.top + p.y * r.height / surface.height as real)
  }

  /** `getPointFromEvent`: the client position, relative to the box's corner,
      scaled by backing size over displayed size; (0, 0) when the canvas is
      not mounted or the event carries no position. */
  function PointFromEvent(canvas: Option<Surface>, ev: PointerEvent): (p: Point)
    requires Displayed(canvas)
    ensures canvas.None? || ClientOf(ev).None? ==> p == Origin
    ensures canvas.Some? && canvas.value.width > 0 && canvas.value.height > 0 && ClientOf(ev).Some? ==>
      ClientFromPoint(canvas.value, p) == ClientOf(ev).value
  {
    if canvas.None? then Origin
    else
      match ClientOf(ev)
      case None => Origin
      case Some(c) =>
        MappingInverts(canvas.value, c);
        Scaled(canvas.value, c)
  }

  /** The client point relative to the box's corner, scaled by backing size
      over displayed size. */
  function Scaled(surface: Surface, c: ClientPoint): Point
    requires surface.rect.width != 0.0 && surface.rect.height != 0.0
  {
    var r := surface.rect;
    var scaleX := surface.width as real / r.width;
    var scaleY := surface.height as real / r.height;
    Point((c.x - r.left) * scaleX, (c.y - r.top) * scaleY)
  }

  lemma MappingInverts(surface: Surface, c: ClientPoint)
    requires surface.rect.width != 0.0 && surface.rect.height != 0.0
    ensures surface.width > 0 && surface.height > 0 ==> ClientFromPoint(surface, Scaled(surface, c)) == c
  {
    var r := surface.rect;
    if surface.width > 0 && surface.height > 0 {
      var w := surface.width as real;
      var h := surface.height as real;
      ScaleBack(c.x - r.left, w, r.width);
      ScaleBack(c.y - r.top, h, r.height);
    }
  }

  lemma ScaleBack(d: real, backing: real, shown: real)
    requires backing != 0.0 && shown != 0.0
    ensures d * (backing / shown) * shown / backing == d
  {
    calc {
      d * (backing / shown) * shown / backing;
      == { assert (backing / shown) * shown == backing; }
      d * backing / backing;
    }
  }

  /** A point at a given fraction of the displayed box lands at the same
      fraction of the backing store. */
  lemma MappingIsProportional(surface: Surface, c: ClientPoint)
    requires surface.rect.width != 0.0 && surface.rect.height != 0.0
    requires surface.width > 0 && surface.height > 0
    ensures var p := PointFromEvent(Some(surface), MouseEvent(c));
      && p.x / surface.width as real == (c.x - surface.rect.left) / surface.rect.width
      && p.y / surface.height as real == (c.y - surface.rect.top) / surface.rect.height
  {
    var r := surface.rect;
    var p := PointFromEvent(Some(surface), MouseEvent(c));
    Proportion(c.x - r.left, surface.width as real, r.width);
    Proportion(c.y - r.top, surface.height as real, r.height);
  }

  lemma Proportion(d: real, backing: real, shown: real)
    requires backing != 0.0 && shown != 0.0
    ensures d * (backing / shown) / backing == d / shown
  {
    assert d * (backing / shown) == (d / shown) * backing;
  }

  /** When the box is displayed at its backing size the mapping is a pure translation. */
  lemma UnscaledIsTranslation(surface: Surface, ev: PointerEvent)
    requires surface.rect.width == surface.width as real && surface.rect.height == surface.height as real
    requires surface.width > 0 && surface.height > 0
    requires ClientOf(ev).Some?
    ensures PointFromEvent(Some(surface), ev) ==
      Point(ClientOf(ev).value.x - surface.rect.left, ClientOf(ev).value.y - surface.rect.top)
  {
  }

  /** Only the first touch counts; further simultaneous touches are ignored. */
  lemma FirstTouchOnly(canvas: Option<Surface>, first: ClientPoint, others: seq<ClientPoint>)
    requires Displayed(canvas)
    ensures PointFromEvent(canvas, TouchEvent([first] + others)) == PointFromEvent(canvas, MouseEvent(first))
  {
  }

  /** `startDrawing`: a fresh in-progress stroke holding exactly the mapped
      point, in the current brush colour and size; any earlier in-progress
      stroke is dropped. Committed strokes and the brush are untouched and
      the observer is not called. */
  function StartDrawing(s: CanvasState, canvas: Option<Surface>, ev: PointerEvent): (t: Step)
    requires Displayed(canvas)
    ensures t.state.isDrawing && t.notified.None?
    ensures t.state.current == Some(Stroke(s.brushColor, s.brushSize, [PointFromEvent(canvas, ev)]))
    ensures t.state.strokes == s.strokes
    ensures t.state.brushSize == s.brushSize && t.state.brushColor == s.brushColor
  {
    var stroke := Stroke(s.brushColor, s.brushSize, [PointFromEvent(canvas, ev)]);
    Step(s.(current := Some(stroke), isDrawing := true), None)
  }

  /** `draw`: ignored unless drawing with an in-progress stroke; otherwise the
      mapped point is appended at the end of that stroke and nothing else changes. */
  function Draw(s: CanvasState, canvas: Option<Surface>, ev: PointerEvent): (t: Step)
    requires Displayed(canvas)
    ensures t.notified.None?
    ensures !(s.isDrawing && s.current.Some?) ==> t.state == s
    ensures s.isDrawing && s.current.Some? ==>
      && t.state.current.Some?
      && t.state.current.value.points == s.current.value.points + [PointFromEvent(canvas, ev)]
      && t.state.current.value.color == s.current.value.color
      && t.state.current.value.size == s.current.value.size
      && t.state == s.(current := t.state.current)
  {
    if !s.isDrawing || s.current.None? then Step(s, None)
    else
      var c := s.current.value;
      Step(s.(current := Some(c.(points := c.points + [PointFromEvent(canvas, ev)]))), None)
  }

  /** `stopDrawing`: ignored unless drawing with an in-progress stroke.
      Otherwise a stroke of more than one point is appended to the committed
      list and the observer receives the whole new list; a single-point
      stroke is dropped silently. Either way drawing ends and no stroke is
      in progress. */
  function StopDrawing(s: CanvasState): (t: Step)
    ensures !(s.isDrawing && s.current.Some?) ==> t == Step(s, None)
    ensures s.isDrawing && s.current.Some? ==>
      && !t.state.isDrawing && t.state.current.None?
      && t.state.brushSize == s.brushSize && t.state.brushColor == s.brushColor
      && (|s.current.value.points| > 1 ==>
            t.state.strokes == s.strokes + [s.current.value] && t.notified == Some(t.state.strokes))
      && (|s.current.value.points| <= 1 ==> t.state.strokes == s.strokes && t.notified.None?)
  {
    if !s.isDrawing || s.current.None? then Step(s, None)
    else
      var c := s.current.value;
      if |c.points| > 1 then
        var strokes := s.strokes + [c];
        Step(s.(isDrawing := false, strokes := strokes, current := None), Some(strokes))
      else
        Step(s.(isDrawing := false, current := None), None)
  }

  /** `undoLastStroke`: with no committed strokes nothing happens and the
      observer is not called; otherwise exactly the last stroke is removed
      and the observer receives the remaining prefix. The in-progress stroke
      is untouched. */
  function Undo(s: CanvasState): (t: Step)
    ensures |s.strokes| == 0 ==> t == Step(s, None)
    ensures |s.strokes| > 0 ==>
      && t.state.strokes + [s.strokes[|s.strokes| - 1]] == s.strokes
      && t.notified == Some(t.state.strokes)
      && t.state == s.(strokes := t.state.strokes)
  {
    if |s.strokes| == 0 then Step(s, None)
    else
      var rest := s.strokes[..|s.strokes| - 1];
      assert rest + [s.strokes[|s.strokes| - 1]] == s.strokes;
      Step(s.(strokes := rest), Some(rest))
  }

  /** `clearCanvas`: no committed strokes, no in-progress stroke, and the
      observer always receives the empty list. `isDrawing` is left as it was. */
  function Clear(s: CanvasState): (t: Step)
    ensures t.state.strokes == [] && t.state.current.None? && t.notified == Some([])
    ensures t.state.isDrawing == s.isDrawing
    ensures t.state.brushSize == s.brushSize && t.state.brushColor == s.brushColor
  {
    Step(s.(strokes := [], current := None), Some([]))
  }

  /** The undo and clear buttons are enabled only when something is committed. */
  predicate EditEnabled(s: CanvasState) {
    |s.strokes| > 0
  }

  /** Everything the canvas reacts to. */
  datatype CanvasEvent =
    | PointerDown(down: PointerEvent)   // mousedown, touchstart
    | PointerMove(move: PointerEvent)   // mousemove, touchmove
    | PointerUp                         // mouseup, mouseleave, touchend, touchcancel
    | UndoClicked
    | ClearClicked
    | SizePicked(button: SizeButton)
    | ColorPicked(color: string)

  /** One event on the canvas. A click on a disabled undo or clear button
      does not reach its handler. */
  function Apply(s: CanvasState, canvas: Option<Surface>, e: CanvasEvent): (t: Step)
    requires Displayed(canvas)
    ensures t.notified.Some? ==> t.notified.value == t.state.strokes
    ensures (e.UndoClicked? || e.ClearClicked?) && !EditEnabled(s) ==> t == Step(s, None)
    ensures (e.SizePicked? || e.ColorPicked? || e.PointerMove?) ==> t.state.strokes == s.strokes && t.notified.None?
    ensures e.SizePicked? ==> t.state.brushSize == e.button.Pixels() && t.state.brushColor == s.brushColor
    ensures e.ColorPicked? ==> t.state.brushColor == e.color && t.state.brushSize == s.brushSize
  {
    match e
    case PointerDown(ev) => StartDrawing(s, canvas, ev)
    case PointerMove(ev) => Draw(s, canvas, ev)
    case PointerUp => StopDrawing(s)
    case UndoClicked => if EditEnabled(s) then Undo(s) else Step(s, None)
    case ClearClicked => if EditEnabled(s) then Clear(s) else Step(s, None)
    case SizePicked(b) => Step(s.(brushSize := b.Pixels()), None)
    case ColorPicked(c) => Step(s.(brushColor := c), None)
  }

  /** A picked size or colour is the one the next stroke is drawn in. */
  lemma PickedBrushDrawsNextStroke(s: CanvasState, canvas: Option<Surface>, pick: CanvasEvent, down: PointerEvent)
    requires Displayed(canvas)
    requires pick.SizePicked? || pick.ColorPicked?
    ensures var t := Apply(Apply(s, canvas, pick).state, canvas, PointerDown(down));
      && t.state.current.Some?
      && t.state.current.value.points == [PointFromEvent(canvas, down)]
      && (pick.SizePicked? ==> t.state.current.value.size == pick.button.Pixels() && t.state.current.value.color == s.brushColor)
      && (pick.ColorPicked? ==> t.state.current.value.color == pick.color && t.state.current.value.size == s.brushSize)
  {
  }

  /** The canvas's invariant: committed strokes have at least two points,
      every size in play is one the buttons offer, and an in-progress stroke
      exists only while drawing and holds at least its starting point. */
  predicate Valid(s: CanvasState) {
    && s.brushSize in BrushSizes
    && (forall i :: 0 <= i < |s.strokes| ==> |s.strokes[i].points| >= 2 && s.strokes[i].size in BrushSizes)
    && (s.current.Some? ==> s.isDrawing && |s.current.value.points| >= 1 && s.current.value.size in BrushSizes)
  }

  lemma InitialValid()
    ensures Valid(Initial)
    ensures Initial.brushSize == 4 && Initial.brushColor == "#000000"
  {
  }

  /** Every event keeps the invariant. */
  lemma ApplyPreservesValid(s: CanvasState, canvas: Option<Surface>, e: CanvasEvent)
    requires Displayed(canvas)
    requires Valid(s)
    ensures Valid(Apply(s, canvas, e).state)
  {
    match e {
      case PointerUp =>
        var t := StopDrawing(s);
        if s.isDrawing && s.current.Some? && |s.current.value.points| > 1 {
          assert t.state.strokes == s.strokes + [s.current.value];
        }
      case UndoClicked =>
        var t := Undo(s);
        if |s.strokes| > 0 {
          assert forall i :: 0 <= i < |t.state.strokes| ==> t.state.strokes[i] == s.strokes[i];
        }
      case _ =>
    }
  }

  /** The observer is told exactly when the committed list changes, and is
      always given the list as it now is. */
  lemma ObserverSeesLatest(s: CanvasState, canvas: Option<Surface>, e: CanvasEvent)
    requires Displayed(canvas)
    ensures var t := Apply(s, canvas, e);
      && (t.notified.Some? ==> t.notified.value == t.state.strokes)
      && (t.notified.Some? <==> t.state.strokes != s.strokes)
  {
    match e {
      case PointerUp =>
        if s.isDrawing && s.current.Some? && |s.current.value.points| > 1 {
          assert |StopDrawing(s).state.strokes| == |s.strokes| + 1;
        }
      case UndoClicked =>
        if EditEnabled(s) {
          assert |Undo(s).state.strokes| + 1 == |s.strokes|;
        }
      case _ =>
    }
  }

  /** The state after a sequence of events. */
  function Run(s: CanvasState, canvas: Option<Surface>, es: seq<CanvasEvent>): CanvasState
    requires Displayed(canvas)
    decreases |es|
  {
    if |es| == 0 then s else Run(Apply(s, canvas, es[0]).state, canvas, es[1..])
  }

  /** Every state reachable from the initial one satisfies the invariant; in
      particular no committed stroke has fewer than two points. */
  lemma {:induction false} RunPreservesValid(s: CanvasState, canvas: Option<Surface>, es: seq<CanvasEvent>)
    requires Displayed(canvas)
    requires Valid(s)
    ensures Valid(Run(s, canvas, es))
    decreases |es|
  {
    if |es| > 0 {
      ApplyPreservesValid(s, canvas, es[0]);
      RunPreservesValid(Apply(s, canvas, es[0]).state, canvas, es[1..]);
    }
  }

  /** Clearing twice is the same as clearing once, observer call included. */
  lemma ClearIdempotent(s: CanvasState)
    ensures Clear(Clear(s).state) == Clear(s)
  {
  }

  /** After a clear in mid-gesture, moves and the release do nothing until
      the next press, because no stroke is in progress. */
  lemma ClearEndsGesture(s: CanvasState, canvas: Option<Surface>, ev: PointerEvent)
    requires Displayed(canvas)
    ensures var c := Clear(s).state;
      Draw(c, canvas, ev) == Step(c, None) && StopDrawing(c) == Step(c, None)
  {
  }

  /** The points a sequence of move events contributes. */
  function PointsOf(canvas: Option<Surface>, evs: seq<PointerEvent>): (ps: seq<Point>)
    requires Displayed(canvas)
    ensures |ps| == |evs|
    ensures forall i :: 0 <= i < |evs| ==> ps[i] == PointFromEvent(canvas, evs[i])
    decreases |evs|
  {
    if |evs| == 0 then [] else [PointFromEvent(canvas, evs[0])] + PointsOf(canvas, evs[1..])
  }

  /** Feeding a sequence of move events to `draw`. */
  function DrawAll(s: CanvasState, canvas: Option<Surface>, evs: seq<PointerEvent>): CanvasState
    requires Displayed(canvas)
    decreases |evs|
  {
    if |evs| == 0 then s else DrawAll(Draw(s, canvas, evs[0]).state, canvas, evs[1..])
  }

  /** While a stroke is in progress, moves extend it point by point, in order. */
  lemma {:induction false} DrawAllExtends(s: CanvasState, canvas: Option<Surface>, evs: seq<PointerEvent>)
    requires Displayed(canvas)
    requires s.isDrawing && s.current.Some?
    ensures DrawAll(s, canvas, evs) ==
      s.(current := Some(s.current.value.(points := s.current.value.points + PointsOf(canvas, evs))))
    decreases |evs|
  {
    if |evs| > 0 {
      var c := s.current.value;
      var p0 := PointFromEvent(canvas, evs[0]);
      var s1 := Draw(s, canvas, evs[0]).state;
      assert s1 == s.(current := Some(c.(points := c.points + [p0])));
      DrawAllExtends(s1, canvas, evs[1..]);
      assert PointsOf(canvas, evs) == [p0] + PointsOf(canvas, evs[1..]);
      assert c.points + [p0] + PointsOf(canvas, evs[1..]) == c.points + PointsOf(canvas, evs);
    } else {
      assert s.current.value.points + [] == s.current.value.points;
    }
  }

  /** A whole gesture: press, moves, release. With at least one move exactly
      one stroke — the press point followed by the move points, in the brush
      at press time — is appended and the observer gets the list one longer;
      a bare tap appends nothing and calls no observer. */
  lemma Gesture(s: CanvasState, canvas: Option<Surface>, down: PointerEvent, moves: seq<PointerEvent>)
    requires Displayed(canvas)
    ensures var t := StopDrawing(DrawAll(StartDrawing(s, canvas, down).state, canvas, moves));
      var stroke := Stroke(s.brushColor, s.brushSize, [PointFromEvent(canvas, down)] + PointsOf(canvas, moves));
      && !t.state.isDrawing && t.state.current.None?
      && (|moves| >= 1 ==> t.state.strokes == s.strokes + [stroke] && t.notified == Some(t.state.strokes))
      && (|moves| == 0 ==> t.state.strokes == s.strokes && t.notified.None?)
  {
    var s1 := StartDrawing(s, canvas, down).state;
    DrawAllExtends(s1, canvas, moves);
  }

  /** One drawing operation of a redraw. Every polyline is drawn with round
      caps and joins, straight segments from `start` through `lineTo`. */
  datatype PaintOp =
    | ClearRect(width: nat, height: nat)
    | Polyline(color: string, lineWidth: int, start: Point, lineTo: seq<Point>)

  function PathOf(st: Stroke): (op: PaintOp)
    requires |st.points| >= 1
    ensures op.Polyline? && [op.start] + op.lineTo == st.points
    ensures op.color == st.color && op.lineWidth == st.size
  {
    Polyline(st.color, st.size, st.points[0], st.points[1..])
  }

  /** Committed strokes in list order, skipping any with fewer than two points. */
  function PaintCommitted(strokes: seq<Stroke>): seq<PaintOp>
    decreases |strokes|
  {
    if |strokes| == 0 then []
    else (if |strokes[0].points| < 2 then [] else [PathOf(strokes[0])]) + PaintCommitted(strokes[1..])
  }

  /** `redrawCanvas`: nothing without a mounted canvas; otherwise wipe the
      backing store, paint the committed strokes, then the in-progress stroke
      if it has more than one point. */
  function Redraw(s: CanvasState, canvas: Option<Surface>): (ops: seq<PaintOp>)
    ensures canvas.None? ==> ops == []
    ensures canvas.Some? ==> |ops| >= 1 && ops[0] == ClearRect(canvas.value.width, canvas.value.height)
  {
    if canvas.None? then []
    else
      [ClearRect(canvas.value.width, canvas.value.height)]
      + PaintCommitted(s.strokes)
      + (if s.current.Some? && |s.current.value.points| > 1 then [PathOf(s.current.value)] else [])
  }

  /** Committed strokes always have two points, so the skip never fires: a
      redraw paints every committed stroke, in order, one polyline each, and
      then the in-progress stroke once it has a segment. */
  lemma {:induction false} PaintCommittedAll(strokes: seq<Stroke>)
    requires forall i :: 0 <= i < |strokes| ==> |strokes[i].points| >= 2
    ensures |PaintCommitted(strokes)| == |strokes|
    ensures forall i :: 0 <= i < |strokes| ==> PaintCommitted(strokes)[i] == PathOf(strokes[i])
    decreases |strokes|
  {
    if |strokes| > 0 {
      PaintCommittedAll(strokes[1..]);
    }
  }

  lemma RedrawPaintsAll(s: CanvasState, canvas: Option<Surface>)
    requires Valid(s) && canvas.Some?
    ensures var ops := Redraw(s, canvas);
      var extra := if s.current.Some? && |s.current.value.points| > 1 then 1 else 0;
      && |ops| == 1 + |s.strokes| + extra
      && ops[0] == ClearRect(canvas.value.width, canvas.value.height)
      && (forall i :: 0 <= i < |s.strokes| ==> ops[1 + i] == PathOf(s.strokes[i]))
      && (extra == 1 ==> ops[|ops| - 1] == PathOf(s.current.value))
  {
    PaintCommittedAll(s.strokes);
  }
}
