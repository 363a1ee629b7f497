/** The child's game screen: which word is current, the strokes the canvas
    last reported, the hint flag, the score and the list of submitted word
    indices. Speech, timers and the confetti are left out; the auto-advance
    after a submission is the explicit `NextWordTriggered` event. */
module Game {
  import opened Common
  import Canvas

  datatype WordSet = WordSet(id: int, title: string, items: seq<WordItem>)

  datatype GameState = GameState(
    wordIndex: nat,
    strokes: seq<Canvas.Stroke>,
    showHint: bool,
    score: nat,
    submissions: seq<nat>)

  /** The arguments of one `onSubmission(word, strokes, blob)` call. */
  datatype Submission = Submission(word: string, strokes: seq<Canvas.Stroke>, image: Blob)

  /** What a step does besides changing state. */
  datatype Effect = Silent | Submitted(call: Submission) | CompletionAlert(wordCount: nat)

  datatype Outcome = Outcome(state: GameState, effect: Effect)

  const Initial := GameState(0, [], false, 0, [])

  /** `wordSet?.items?.[currentWordIndex]`. */
  function CurrentWord(ws: Option<WordSet>, index: nat): (w: Option<WordItem>)
    ensures w.Some? <==> ws.Some? && index < |ws.value.items|
    ensures w.Some? ==> w.value in ws.value.items && w.value == ws.value.items[index]
  {
    if ws.Some? && index < |ws.value.items| then Some(ws.value.items[index]) else None
  }

  /** `submitDrawing`, given what the PNG export produced. Without a current
      word, without strokes, or without an exported image nothing happens.
      Otherwise `onSubmission` receives the current word, the strokes and the
      image, the word index is appended to the submissions and the score goes
      up by one. */
  function SubmitDrawing(g: GameState, ws: Option<WordSet>, exported: Option<Blob>): (o: Outcome)
    ensures CurrentWord(ws, g.wordIndex).None? || |g.strokes| == 0 || exported.None? ==> o == Outcome(g, Silent)
    ensures CurrentWord(ws, g.wordIndex).Some? && |g.strokes| > 0 && exported.Some? ==>
      && o.effect == Submitted(Submission(CurrentWord(ws, g.wordIndex).value.word, g.strokes, exported.value))
      && o.state.submissions == g.submissions + [g.wordIndex]
      && o.state.score == g.score + 1
      && o.state.wordIndex == g.wordIndex && o.state.strokes == g.strokes && o.state.showHint == g.showHint
  {
    match CurrentWord(ws, g.wordIndex)
    case None => Outcome(g, Silent)
    case Some(w) =>
      if |g.strokes| == 0 then Outcome(g, Silent)
      else match exported
        case None => Outcome(g, Silent)
        case Some(blob) =>
          Outcome(g.(submissions := g.submissions + [g.wordIndex], score := g.score + 1),
                  Submitted(Submission(w.word, g.strokes, blob)))
  }

  /** `nextWord`: without a word set nothing happens; before the last word
      the index advances by one and the strokes and hint are cleared; at (or
      past) the last word only the completion alert is shown. */
  function NextWord(g: GameState, ws: Option<WordSet>): (o: Outcome)
    ensures ws.None? ==> o == Outcome(g, Silent)
    ensures ws.Some? && g.wordIndex < |ws.value.items| - 1 ==>
      o == Outcome(g.(wordIndex := g.wordIndex + 1, strokes := [], showHint := false), Silent)
    ensures ws.Some? && g.wordIndex >= |ws.value.items| - 1 ==>
      o == Outcome(g, CompletionAlert(|ws.value.items|))
  {
    if ws.None? then Outcome(g, Silent)
    else if g.wordIndex < |ws.value.items| - 1 then
      Outcome(g.(wordIndex := g.wordIndex + 1, strokes := [], showHint := false), Silent)
    else Outcome(g, CompletionAlert(|ws.value.items|))
  }

  /** `restartWord`: no strokes, hint hidden; index, score and submissions kept. */
  function RestartWord(g: GameState): (r: GameState)
    ensures r.strokes == [] && !r.showHint
    ensures r.wordIndex == g.wordIndex && r.score == g.score && r.submissions == g.submissions
  {
    g.(strokes := [], showHint := false)
  }

  /** `showWordHint`: shows the hint only when the current word has a non-empty image. */
  function ShowWordHint(g: GameState, ws: Option<WordSet>): (r: GameState)
    ensures r.showHint <==> g.showHint || (CurrentWord(ws, g.wordIndex).Some? && TruthyText(CurrentWord(ws, g.wordIndex).value.image))
    ensures r == g.(showHint := r.showHint)
  {
    match CurrentWord(ws, g.wordIndex)
    case Some(w) => if TruthyText(w.image) then g.(showHint := true) else g
    case None => g
  }

  /** The submit button is enabled iff the reported stroke list is non-empty. */
  predicate SubmitEnabled(g: GameState) {
    |g.strokes| > 0
  }

  /** The five header stars: star `i` is filled iff `i < score`. */
  function ScoreStars(g: GameState): (stars: seq<bool>)
    ensures |stars| == 5
  {
    StarRow(g.score)
  }

  /** In every state the game reaches, the header fills one star per
      submission made, up to all five, from the left. */
  lemma HeaderStarsCountSubmissions(g: GameState, ws: Option<WordSet>)
    requires Inv(g, ws)
    ensures forall i :: 0 <= i < 5 ==> (ScoreStars(g)[i] <==> i < |g.submissions|)
    ensures CountTrue(ScoreStars(g)) == if |g.submissions| >= 5 then 5 else |g.submissions|
  {
    StarRowCount(g.score);
  }

  datatype GameEvent =
    | StrokesReported(strokes: seq<Canvas.Stroke>)   // onStrokeUpdate={setStrokes}
    | SubmitClicked(exported: Option<Blob>)
    | NextWordTriggered                              // the auto-advance timer
    | RestartClicked
    | HintClicked
    | HintTimerFired                                 // the 3-second hint timer

  /** One event on the word screen. Only a submission scores or calls the
      parent; only a stroke report, a submission's reset or an advance or
      restart touches the stroke list. */
  function Step(g: GameState, ws: Option<WordSet>, e: GameEvent): (o: Outcome)
    ensures o.effect.Submitted? ==> e.SubmitClicked?
    ensures !e.SubmitClicked? ==> o.state.score == g.score && o.state.submissions == g.submissions
    ensures e.StrokesReported? ==> o.state == g.(strokes := e.strokes) && o.effect.Silent?
    ensures (e.HintClicked? || e.HintTimerFired?) ==> o.state.strokes == g.strokes && o.state.wordIndex == g.wordIndex
    ensures e.HintTimerFired? ==> !o.state.showHint && o.state == g.(showHint := false) && o.effect.Silent?
  {
    match e
    case StrokesReported(list) => Outcome(g.(strokes := list), Silent)
    case SubmitClicked(exported) => SubmitDrawing(g, ws, exported)
    case NextWordTriggered => NextWord(g, ws)
    case RestartClicked => Outcome(RestartWord(g), Silent)
    case HintClicked => Outcome(ShowWordHint(g, ws), Silent)
    case HintTimerFired => Outcome(g.(showHint := false), Silent)
  }

  /** The game's invariant for a fixed word set: the score counts the
      submissions, every submitted index names a word of the set, and the
      current index stays within the set (it is 0 when the set is missing or
      empty). */
  predicate Inv(g: GameState, ws: Option<WordSet>) {
    && g.score == |g.submissions|
    && (forall k :: 0 <= k < |g.submissions| ==> ws.Some? && g.submissions[k] < |ws.value.items|)
    && (if ws.Some? && |ws.value.items| > 0 then g.wordIndex < |ws.value.items| else g.wordIndex == 0)
  }

  lemma InitialInv(ws: Option<WordSet>)
    ensures Inv(Initial, ws)
  {
  }

  lemma StepPreservesInv(g: GameState, ws: Option<WordSet>, e: GameEvent)
    requires Inv(g, ws)
    ensures Inv(Step(g, ws, e).state, ws)
  {
    match e {
      case SubmitClicked(exported) =>
        var o := SubmitDrawing(g, ws, exported);
        if o.state != g {
          assert forall k :: 0 <= k < |g.submissions| ==> o.state.submissions[k] == g.submissions[k];
        }
      case _ =>
    }
  }

  /** The state after a sequence of events. */
  function Run(g: GameState, ws: Option<WordSet>, es: seq<GameEvent>): GameState
    decreases |es|
  {
    if |es| == 0 then g else Run(Step(g, ws, es[0]).state, ws, es[1..])
  }

  /** From the start of a game, whatever happens, `score == |submissions|` and
      the word index stays in `[0, |items| - 1]`. */
  lemma {:induction false} RunPreservesInv(g: GameState, ws: Option<WordSet>, es: seq<GameEvent>)
    requires Inv(g, ws)
    ensures Inv(Run(g, ws, es), ws)
    decreases |es|
  {
    if |es| > 0 {
      StepPreservesInv(g, ws, es[0]);
      RunPreservesInv(Step(g, ws, es[0]).state, ws, es[1..]);
    }
  }

  /** Submissions are not deduplicated: submitting the same word twice records
      its index twice and scores twice. */
  lemma RepeatedSubmitCountsTwice(g: GameState, ws: Option<WordSet>, b1: Blob, b2: Blob)
    requires CurrentWord(ws, g.wordIndex).Some? && |g.strokes| > 0
    ensures var o1 := SubmitDrawing(g, ws, Some(b1));
      var o2 := SubmitDrawing(o1.state, ws, Some(b2));
      && o2.state.submissions == g.submissions + [g.wordIndex, g.wordIndex]
      && o2.state.score == g.score + 2
  {
  }
}
