/** The game screen as the two components compose it: the game state of the
    word screen and the drawing canvas it renders, wired through the
    canvas's stroke observer (`onStrokeUpdate={setStrokes}`). Two defects of
    the composition are modelled as written next to their corrections:
    the image export reads a canvas reference that is never attached, and
    restarting or advancing clears the game's stroke list but not the canvas. */
module GameScreen {
  import opened Common
  import Canvas
  import Game

  // ---------------------------------------------------------------------
  // The PNG export

  /** How the export promise ends: settled with what `toBlob` produced (which
      may be nothing), or never, because `toBlob` is never called. */
  datatype ExportOutcome = Settled(blob: Option<Blob>) | NeverSettles

  /** `canvasUtils.exportToPNG(ref)`: with no element behind the reference,
      `ref.current?.toBlob(resolve)` calls nothing and the promise stays
      pending; otherwise it settles with the rendered image. */
  function ExportToPng(refCurrent: Option<Canvas.Surface>, rendered: Option<Blob>): (o: ExportOutcome)
    ensures o.NeverSettles? <==> refCurrent.None?
    ensures o.Settled? ==> o.blob == rendered
  {
    if refCurrent.None? then NeverSettles else Settled(rendered)
  }

  /** The game screen's own canvas reference: no element is given it (the
      drawing canvas keeps a private reference), so it stays empty. */
  const GameCanvasRef: Option<Canvas.Surface> := None

  /** `submitDrawing` as written: after the word and stroke checks it awaits
      the export of the game's own reference, which never settles, so nothing
      after the `await` runs. */
  function SubmitAsWritten(g: Game.GameState, ws: Option<Game.WordSet>, rendered: Option<Blob>): (o: Game.Outcome)
    ensures o.effect.Silent? && o.state == g
  {
    if Game.CurrentWord(ws, g.wordIndex).None? || |g.strokes| == 0 then Game.Outcome(g, Game.Silent)
    else match ExportToPng(GameCanvasRef, rendered)
      case NeverSettles => Game.Outcome(g, Game.Silent)
      case Settled(blob) => Game.SubmitDrawing(g, ws, blob)
  }

  /** As written, no submission ever reaches the parent and the score never
      moves, even with a word, strokes and a rendered image. */
  lemma SubmitNeverReachesParent(g: Game.GameState, ws: Option<Game.WordSet>, rendered: Option<Blob>)
    ensures SubmitAsWritten(g, ws, rendered) == Game.Outcome(g, Game.Silent)
    ensures Game.CurrentWord(ws, g.wordIndex).Some? && |g.strokes| > 0 && rendered.Some? ==>
      Game.SubmitDrawing(g, ws, rendered).effect.Submitted? && SubmitAsWritten(g, ws, rendered).effect.Silent?
  {
  }

  /** Corrected: the export reads the element the drawing canvas renders into,
      so it settles and the submission goes through whenever the image exists. */
  function SubmitWithAttachedCanvas(g: Game.GameState, ws: Option<Game.WordSet>, surface: Canvas.Surface,
                                    rendered: Option<Blob>): (o: Game.Outcome)
    ensures o.effect.Submitted? <==> Game.CurrentWord(ws, g.wordIndex).Some? && |g.strokes| > 0 && rendered.Some?
    ensures o.effect.Submitted? ==>
      && o.effect.call == Game.Submission(Game.CurrentWord(ws, g.wordIndex).value.word, g.strokes, rendered.value)
      && o.state.score == g.score + 1
      && o.state.submissions == g.submissions + [g.wordIndex]
    ensures !o.effect.Submitted? ==> o == Game.Outcome(g, Game.Silent)
  {
    if Game.CurrentWord(ws, g.wordIndex).None? || |g.strokes| == 0 then Game.Outcome(g, Game.Silent)
    else match ExportToPng(Some(surface), rendered)
      case NeverSettles => Game.Outcome(g, Game.Silent)
      case Settled(blob) => Game.SubmitDrawing(g, ws, blob)
  }

  // ---------------------------------------------------------------------
  // The composed screen

  datatype Screen = Screen(game: Game.GameState, canvas: Canvas.CanvasState)

  datatype ScreenStep = ScreenStep(screen: Screen, effect: Game.Effect)

  /** What the screen reacts to: input on the canvas, and the game's own
      buttons and timers. */
  datatype ScreenEvent =
    | CanvasInput(e: Canvas.CanvasEvent)
    | SubmitClicked(rendered: Option<Blob>)
    | NextWordTriggered
    | RestartClicked
    | HintClicked
    | HintTimerFired

  const InitialScreen := Screen(Game.Initial, Canvas.Initial)

  /** The game's stroke list is the list the canvas shows. */
  predicate Synced(s: Screen) {
    s.game.strokes == s.canvas.strokes
  }

  /** Canvas input, with each notification delivered to the game's `setStrokes`. */
  function CanvasStep(s: Screen, surface: Option<Canvas.Surface>, e: Canvas.CanvasEvent): (t: ScreenStep)
    requires Canvas.Displayed(surface)
    ensures t.screen.canvas == Canvas.Apply(s.canvas, surface, e).state
    ensures Synced(s) ==> Synced(t.screen)
    ensures t.effect.Silent?
  {
    var c := Canvas.Apply(s.canvas, surface, e);
    Canvas.ObserverSeesLatest(s.canvas, surface, e);
    var g := if c.notified.Some? then s.game.(strokes := c.notified.value) else s.game;
    ScreenStep(Screen(g, c.state), Game.Silent)
  }

  /** The screen as written: restart and advance reset only the game's
      stroke list, and submission uses the unattached reference. */
  function StepAsWritten(s: Screen, surface: Option<Canvas.Surface>, ws: Option<Game.WordSet>, e: ScreenEvent): (t: ScreenStep)
    requires Canvas.Displayed(surface)
    ensures e.CanvasInput? ==> t.screen.canvas == Canvas.Apply(s.canvas, surface, e.e).state
    ensures !e.CanvasInput? ==> t.screen.canvas == s.canvas
    ensures !t.effect.Submitted?
  {
    match e
    case CanvasInput(ce) => CanvasStep(s, surface, ce)
    case SubmitClicked(rendered) =>
      var o := SubmitAsWritten(s.game, ws, rendered);
      ScreenStep(s.(game := o.state), o.effect)
    case NextWordTriggered =>
      var o := Game.NextWord(s.game, ws);
      ScreenStep(s.(game := o.state), o.effect)
    case RestartClicked => ScreenStep(s.(game := Game.RestartWord(s.game)), Game.Silent)
    case HintClicked => ScreenStep(s.(game := Game.ShowWordHint(s.game, ws)), Game.Silent)
    case HintTimerFired => ScreenStep(s.(game := s.game.(showHint := false)), Game.Silent)
  }

  /** As written, restarting a drawn word leaves the drawing on the canvas
      while the game holds no strokes (so the submit button is disabled under
      a visible drawing). */
  lemma RestartLeavesDrawing(s: Screen, surface: Option<Canvas.Surface>, ws: Option<Game.WordSet>)
    requires Canvas.Displayed(surface)
    requires Synced(s) && |s.canvas.strokes| > 0
    ensures var t := StepAsWritten(s, surface, ws, RestartClicked).screen;
      && !Synced(t)
      && t.canvas.strokes == s.canvas.strokes
      && !Game.SubmitEnabled(t.game)
  {
  }

  /** ... and the next stroke finished on the canvas reports the old strokes
      to the game again, ahead of the new one. */
  lemma OldStrokesResurface(s: Screen, surface: Option<Canvas.Surface>, ws: Option<Game.WordSet>)
    requires Canvas.Displayed(surface)
    requires |s.canvas.strokes| > 0
    requires s.canvas.isDrawing && s.canvas.current.Some? && |s.canvas.current.value.points| > 1
    ensures var t := StepAsWritten(s, surface, ws, RestartClicked).screen;
      var u := StepAsWritten(t, surface, ws, CanvasInput(Canvas.PointerUp)).screen;
      u.game.strokes == s.canvas.strokes + [s.canvas.current.value]
  {
  }

  /** As written, advancing to the next word leaves the previous word's
      drawing on the canvas under the new word, while the game holds no
      strokes for it. */
  lemma AdvanceLeavesDrawing(s: Screen, surface: Option<Canvas.Surface>, ws: Option<Game.WordSet>)
    requires Canvas.Displayed(surface)
    requires Synced(s) && |s.canvas.strokes| > 0
    requires ws.Some? && s.game.wordIndex < |ws.value.items| - 1
    ensures var t := StepAsWritten(s, surface, ws, NextWordTriggered).screen;
      && t.game.wordIndex == s.game.wordIndex + 1
      && !Synced(t)
      && t.canvas.strokes == s.canvas.strokes
      && !Game.SubmitEnabled(t.game)
  {
  }

  /** ... and the first stroke finished for the new word reports the old
      word's strokes to the game ahead of it, so they would be submitted
      for the new word. */
  lemma AdvanceOldStrokesResurface(s: Screen, surface: Option<Canvas.Surface>, ws: Option<Game.WordSet>)
    requires Canvas.Displayed(surface)
    requires |s.canvas.strokes| > 0
    requires ws.Some? && s.game.wordIndex < |ws.value.items| - 1
    requires s.canvas.isDrawing && s.canvas.current.Some? && |s.canvas.current.value.points| > 1
    ensures var t := StepAsWritten(s, surface, ws, NextWordTriggered).screen;
      var u := StepAsWritten(t, surface, ws, CanvasInput(Canvas.PointerUp)).screen;
      && u.game.wordIndex == s.game.wordIndex + 1
      && u.game.strokes == s.canvas.strokes + [s.canvas.current.value]
  {
  }

  /** A concrete run: one committed stroke, restart, then a second stroke.
      The game ends up holding both strokes for the restarted word. */
  lemma RestartExample()
    ensures var st := Canvas.Stroke("#000000", 4, [Canvas.Point(0.0, 0.0), Canvas.Point(1.0, 1.0)]);
      var s := Screen(Game.Initial.(strokes := [st]), Canvas.Initial.(strokes := [st], isDrawing := true, current := Some(st)));
      var t := StepAsWritten(s, None, None, RestartClicked).screen;
      var u := StepAsWritten(t, None, None, CanvasInput(Canvas.PointerUp)).screen;
      !Synced(t) && |u.game.strokes| == 2
  {
  }

  /** Corrected: restart and an advancing next-word also clear the canvas,
      and submission exports the canvas the drawing is on. */
  function StepCorrected(s: Screen, surface: Canvas.Surface, ws: Option<Game.WordSet>, e: ScreenEvent): (t: ScreenStep)
    requires Canvas.Displayed(Some(surface))
    ensures Synced(s) ==> Synced(t.screen)
  {
    match e
    case CanvasInput(ce) => CanvasStep(s, Some(surface), ce)
    case SubmitClicked(rendered) =>
      var o := SubmitWithAttachedCanvas(s.game, ws, surface, rendered);
      ScreenStep(s.(game := o.state), o.effect)
    case NextWordTriggered =>
      var o := Game.NextWord(s.game, ws);
      if o.state.wordIndex != s.game.wordIndex then
        ScreenStep(Screen(o.state, Canvas.Clear(s.canvas).state), o.effect)
      else ScreenStep(s.(game := o.state), o.effect)
    case RestartClicked => ScreenStep(Screen(Game.RestartWord(s.game), Canvas.Clear(s.canvas).state), Game.Silent)
    case HintClicked => ScreenStep(s.(game := Game.ShowWordHint(s.game, ws)), Game.Silent)
    case HintTimerFired => ScreenStep(s.(game := s.game.(showHint := false)), Game.Silent)
  }

  function RunCorrected(s: Screen, surface: Canvas.Surface, ws: Option<Game.WordSet>, es: seq<ScreenEvent>): Screen
    requires Canvas.Displayed(Some(surface))
    decreases |es|
  {
    if |es| == 0 then s else RunCorrected(StepCorrected(s, surface, ws, es[0]).screen, surface, ws, es[1..])
  }

  /** With the correction, the game's strokes are the canvas's strokes in
      every reachable screen. */
  lemma {:induction false} CorrectedStaysSynced(s: Screen, surface: Canvas.Surface, ws: Option<Game.WordSet>, es: seq<ScreenEvent>)
    requires Canvas.Displayed(Some(surface))
    requires Synced(s)
    ensures Synced(RunCorrected(s, surface, ws, es))
    decreases |es|
  {
    if |es| > 0 {
      CorrectedStaysSynced(StepCorrected(s, surface, ws, es[0]).screen, surface, ws, es[1..]);
    }
  }

  /** With the correction, what is submitted is exactly the drawing on the
      canvas, and after a restart nothing of the earlier drawing remains. */
  lemma CorrectedSubmitsWhatIsShown(s: Screen, surface: Canvas.Surface, ws: Option<Game.WordSet>, rendered: Option<Blob>)
    requires Canvas.Displayed(Some(surface))
    requires Synced(s)
    ensures var t := StepCorrected(s, surface, ws, SubmitClicked(rendered));
      t.effect.Submitted? ==> t.effect.call.strokes == s.canvas.strokes
    ensures var r := StepCorrected(s, surface, ws, RestartClicked).screen;
      r.canvas.strokes == [] && r.game.strokes == []
  {
  }
}
