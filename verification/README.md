# Dictation drawing game — a Dafny model of its core

The application is a Next.js web app for young learners. A child hears a word,
draws it on a canvas and submits the drawing. A teacher uploads word lists,
activates one, and rates submissions. This project models the parts of it
that carry logic:

- **Canvas** (`src/components/DrawingCanvas.tsx`): the stroke state machine.
  Pointer-down starts a stroke with the current brush, moves extend it, and
  pointer-up commits it when it has more than one point. Undo and clear are
  also modelled, with their buttons disabled while nothing is committed, along with the mapping from client coordinates to canvas
  pixels, the order in which committed strokes are repainted, and the stroke
  observer.
- **Game** (`src/components/GameInterface.tsx`): the current word, submission,
  next word, restart, the hint, the score and the invariant they keep.
- **GameScreen**: the word screen composed with the canvas it renders. The
  two defects listed under Findings live here.
- **Dashboard** (`src/components/TeacherDashboard.tsx`): the upload guard, and
  prepending the uploaded set. Activation makes exactly one set active. Rating
  fills the star row.
- **WordSetsApi** (`src/app/api/wordsets/route.ts`): the teacher-only role
  gate, which sets are visible, POST validation, and how plain-text and CSV
  files become numbered word items.
- **SubmissionsApi** (`src/app/api/submissions/route.ts`): which rows `GET`
  returns for each role. For `POST`: field validation in the route's order,
  the blob path, and the stored record.
- **Offline** (`src/lib/offline.ts`): the key-value store as a finite map.
  Covers the 24-hour word-set cache (which deletes expired entries), the
  pending-submission queue and its sync, and the 1-hour drawing progress
  (which leaves stale entries in place).
- **Wire**: the dashboard's upload and a queued offline submission, each
  checked against the route that receives it.
- **Common**, **JsString**, **JsNumber**: the shared shapes, and the
  JavaScript string and number functions the code relies on. These are `trim`
  with ECMAScript whitespace, `split`, `endsWith`, and `parseInt` with
  hex-prefix detection. The decimal rendering of integers is proved to parse
  back.

Parameters replace everything outside the code: the session (`auth()`), the
database's answers, the blob store, the CSV tokenizer's rows, `JSON.parse`
and `JSON.stringify`, `Date.now()`, the random id suffix, connectivity, and
the outcome of each `fetch`. Whether each awaited call inside a route handler
(`auth()`, `request.formData()`, `file.text()`) resolves or rejects is a
parameter too; the handlers' `catch` answers a rejection with 500.

The model follows the code where it departs from the intended design: the
canvas has undo but no redo, and restarting a word does not reset the drawing
surface (see Findings).

## Model

| member | source | states |
|---|---|---|
| Common.Filter | src/app/api/wordsets/route.ts:59 | Keeps exactly the elements meeting the predicate and never lengthens the list. |
| Common.FilterAppend | src/app/api/wordsets/route.ts:54-56 | Filtering distributes over concatenation, so survivors keep their relative order. |
| Common.StarRowCount | src/components/GameInterface.tsx:189-196 | The five-star row fills exactly min(max(n, 0), 5) stars, and they are the first ones. |
| JsString.Trim | src/components/TeacherDashboard.tsx:92 | `trim` removes only the whitespace at both ends. The result is empty iff the input is all whitespace, and has no whitespace at either end. |
| JsString.TrimIdempotent | src/components/TeacherDashboard.tsx:96 | Trimming twice gives the same result as trimming once. |
| JsString.Split | src/app/api/wordsets/route.ts:59 | `split` gives at least one piece, no piece contains the separator, and joining the pieces restores the text. |
| JsString.SplitJoin | src/app/api/wordsets/route.ts:59 | Splitting a join of separator-free pieces gives the pieces back. |
| JsNumber.DigitRun | src/app/api/submissions/route.ts:45 | `parseInt` reads the longest run of digits and stops at the first non-digit. |
| JsNumber.ParseInt | src/app/api/submissions/route.ts:45 | `parseInt` of an all-whitespace text is NaN. A number is found only after the leading whitespace, and a negative one only behind a `-` there. |
| JsNumber.NatToString | src/lib/offline.ts:131 | A number's decimal rendering is non-empty, made only of decimal digits, and starts with `0` only when the number is 0, so there are no leading zeros. |
| JsNumber.NatToStringValue | src/lib/offline.ts:131 | The digits of a natural number read back as that number. |
| JsNumber.IntToString | src/lib/offline.ts:81 | An integer's rendering is non-empty, starts with `-` iff the integer is negative, and is otherwise all digits. |
| JsNumber.ParseIntPrefix | src/app/api/submissions/route.ts:45 | A rendered integer followed by a character that cannot continue a number parses back to the integer. |
| JsNumber.ParseIntToString | src/lib/offline.ts:131 | `parseInt` of an integer's decimal rendering is that integer. |
| JsNumber.IntToStringInjective | src/lib/offline.ts:158 | Different integers render differently. |
| Canvas.PointFromEvent | src/components/DrawingCanvas.tsx:44-68 | The point is (0, 0) without a canvas or coordinates. Otherwise it is the client offset scaled by backing size over displayed size, and mapping it back gives the client point. |
| Canvas.MappingIsProportional | src/components/DrawingCanvas.tsx:48-67 | A point's position as a fraction of the canvas equals the pointer's fraction of the displayed rectangle. |
| Canvas.UnscaledIsTranslation | src/components/DrawingCanvas.tsx:49-50 | When the canvas is shown at its backing size, the mapping only subtracts the rectangle's corner. |
| Canvas.FirstTouchOnly | src/components/DrawingCanvas.tsx:54-56 | Only the first touch point counts. |
| Canvas.StartDrawing | src/components/DrawingCanvas.tsx:116-128 | Drawing starts with a stroke that has the current brush colour and size and holds the single mapped start point. Committed strokes and the brush are unchanged. |
| Canvas.Draw | src/components/DrawingCanvas.tsx:131-144 | Ignored unless a stroke is in progress. Otherwise appends exactly the mapped point to it. |
| Canvas.StopDrawing | src/components/DrawingCanvas.tsx:147-161 | A stroke with more than one point is committed and the observer is told the new list. A single-point stroke is dropped silently. Drawing ends either way. |
| Canvas.Undo | src/components/DrawingCanvas.tsx:164-171 | With strokes, removes exactly the last committed stroke and reports the rest. With none, nothing changes and nothing is reported. |
| Canvas.Clear | src/components/DrawingCanvas.tsx:174-178 | No strokes and no stroke in progress. The observer always gets the empty list. The brush is kept. |
| Canvas.Apply | src/components/DrawingCanvas.tsx:249-298 | Undo and clear do nothing while no stroke is committed, because their buttons are disabled. A size button sets the brush size to its 2, 4 or 8 pixels, and the colour input sets the colour; neither touches the other brush setting. Size, colour and move events never change the committed list or call the observer. The observer is only given the current list. |
| Canvas.PickedBrushDrawsNextStroke | src/components/DrawingCanvas.tsx:116-128 | After a size or colour is picked, the next press starts a stroke in that size or colour. |
| Canvas.PointsOf | src/components/DrawingCanvas.tsx:131-144 | Each move event contributes exactly its own mapped point, in event order. |
| Canvas.ApplyPreservesValid | src/components/DrawingCanvas.tsx:249-265 | Every event keeps these true: committed strokes have two or more points, sizes come from the 2/4/8 buttons, and a stroke is in progress only while drawing. |
| Canvas.RunPreservesValid | src/components/DrawingCanvas.tsx:196-205 | The invariant holds after any sequence of pointer, button and picker events. |
| Canvas.ObserverSeesLatest | src/components/DrawingCanvas.tsx:147-178 | The observer is called exactly when the committed list changes, and always with the list as it now is. |
| Canvas.ClearIdempotent | src/components/DrawingCanvas.tsx:174-178 | Clearing twice is clearing once. |
| Canvas.ClearEndsGesture | src/components/DrawingCanvas.tsx:132 | After a clear, pointer moves add nothing until a new gesture starts. |
| Canvas.DrawAllExtends | src/components/DrawingCanvas.tsx:137-142 | A run of moves appends the mapped points in order. |
| Canvas.Gesture | src/components/DrawingCanvas.tsx:116-161 | Down, then moves, then up commits exactly one stroke with all the points iff there was at least one move. |
| Canvas.PaintCommittedAll | src/components/DrawingCanvas.tsx:79-95 | Each committed stroke is painted once, in order, as a polyline through its points in its colour and width. |
| Canvas.RedrawPaintsAll | src/components/DrawingCanvas.tsx:71-113 | A redraw clears the surface, paints every committed stroke in order, then paints the stroke in progress if it has more than one point. |
| Canvas.Redraw | src/components/DrawingCanvas.tsx:71-113 | Nothing is painted without a mounted canvas. Otherwise the first operation wipes the whole backing store. |
| Game.SubmitDrawing | src/components/GameInterface.tsx:83-116 | Nothing happens without a word, strokes or an image. Otherwise the parent receives the word, strokes and image, the index is recorded and the score goes up by one. |
| Game.CurrentWord | src/components/GameInterface.tsx:43 | There is a current word iff a set is loaded and the index is within it, and it is the item at that index. |
| Game.NextWord | src/components/GameInterface.tsx:119-130 | Before the last word, advances and resets strokes and hint. At the last word, only the completion alert shows the word count. |
| Game.RestartWord | src/components/GameInterface.tsx:133-136 | Clears strokes and hint and keeps the word, score and submissions. |
| Game.ShowWordHint | src/components/GameInterface.tsx:73-80 | The hint shows only for a current word with a non-empty image. Nothing else changes. |
| Game.Step | src/components/GameInterface.tsx:83-136 | Only a submission calls the parent or changes the score and submissions. A stroke report only replaces the strokes. The hint button and timer leave the strokes and the word alone. The hint timer hides the hint and changes nothing else. |
| Game.HeaderStarsCountSubmissions | src/components/GameInterface.tsx:189-196 | In every reachable state, the header fills one star per submission, up to five, from the left. |
| Game.StepPreservesInv | src/components/GameInterface.tsx:43 | Every event keeps three things true: the score equals the number of submissions, each submitted index names a word, and the current index stays within the set. |
| Game.RunPreservesInv | src/components/GameInterface.tsx:25-30 | The invariant holds after any sequence of events. |
| Game.RepeatedSubmitCountsTwice | src/components/GameInterface.tsx:95-102 | Submissions are not deduplicated: submitting a word twice records it twice and scores twice. |
| GameScreen.ExportToPng | src/components/DrawingCanvas.tsx:308-314 | The export never settles iff the reference holds no element. Otherwise it settles with the rendered image. |
| GameScreen.SubmitAsWritten | src/components/GameInterface.tsx:83-92 | As written, a submit click never reaches its callback and leaves the game state as it was. |
| GameScreen.SubmitNeverReachesParent | src/components/GameInterface.tsx:33 | With the game's own, unattached reference, a submission never reaches the parent and the score never changes. |
| GameScreen.SubmitWithAttachedCanvas | src/components/GameInterface.tsx:88 | With the drawing's canvas exported, the drawing is submitted iff there are a word, strokes and an image. |
| GameScreen.CanvasStep | src/components/GameInterface.tsx:288 | Canvas input keeps the game's strokes equal to the canvas's committed strokes. |
| GameScreen.StepAsWritten | src/components/GameInterface.tsx:119-136 | As written, only canvas input changes the canvas: restart, advance, submit and hint leave the drawing as it was, and no submission ever goes out. |
| GameScreen.RestartLeavesDrawing | src/components/GameInterface.tsx:133-136 | As written, restarting a drawn word leaves the drawing on the canvas while the game holds no strokes and disables submit. |
| GameScreen.OldStrokesResurface | src/components/GameInterface.tsx:133-136 | As written, the next completed stroke after a restart reports the earlier strokes again, ahead of the new one. |
| GameScreen.AdvanceLeavesDrawing | src/components/GameInterface.tsx:122-124 | As written, advancing to the next word leaves the previous drawing on the canvas while the game holds no strokes, so submit is disabled under it. |
| GameScreen.AdvanceOldStrokesResurface | src/components/GameInterface.tsx:122-124 | As written, the first stroke finished for the new word reports the old word's strokes ahead of it. |
| GameScreen.RestartExample | src/components/GameInterface.tsx:133-136 | A concrete two-stroke run that shows the divergence. |
| GameScreen.StepCorrected | src/components/GameInterface.tsx:119-136 | With restart and advance also clearing the canvas, every event keeps the game's strokes equal to the canvas's. |
| GameScreen.CorrectedStaysSynced | src/components/GameInterface.tsx:288 | With the correction, game and canvas agree after any sequence of events. |
| GameScreen.CorrectedSubmitsWhatIsShown | src/components/GameInterface.tsx:95 | With the correction, the submitted strokes are exactly the drawing shown, and a restart leaves nothing of it. |
| Dashboard.HandleFileUpload | src/components/TeacherDashboard.tsx:89-117 | A request is sent iff there is a file and a non-blank title, and it carries the trimmed title. On success the new set goes first and the form resets. Any failure keeps the state and alerts. |
| Dashboard.UploadTitleIsTrimmed | src/components/TeacherDashboard.tsx:96 | The sent title is non-empty and is its own trim. |
| Dashboard.ActivateOnly | src/components/TeacherDashboard.tsx:130-135 | Each set keeps its contents and is active iff its id is the activated one. |
| Dashboard.ActivateWordSet | src/components/TeacherDashboard.tsx:119-142 | An ok reply makes each set active iff its id is the chosen one. A non-ok reply changes nothing silently. A thrown error changes nothing and alerts. |
| Dashboard.ActivationIsExclusive | src/components/TeacherDashboard.tsx:130-135 | With distinct ids, at most one set is active after activation, and the chosen one is. |
| Dashboard.ActivatedButtonDisabled | src/components/TeacherDashboard.tsx:285-295 | After an activation, the activate button is disabled exactly on the activated set. |
| Dashboard.RateSubmission | src/components/TeacherDashboard.tsx:144-173 | An ok reply gives the matching submissions the rating, reviewer `current_teacher` and the review time. Any other outcome changes nothing. |
| Dashboard.RateMatching | src/components/TeacherDashboard.tsx:155-168 | Submissions with the id get the score, and every other submission is returned unchanged, in place. |
| Dashboard.RatedCardShowsRating | src/components/TeacherDashboard.tsx:332-357 | After picking rating r, the card shows five stars with exactly the first r filled. |
| WordSetsApi.Get | src/app/api/wordsets/route.ts:8-28 | 401 unless the caller is a teacher and 500 when the query fails. Otherwise exactly the sets the caller created plus the system's sets. |
| WordSetsApi.HandleGet | src/app/api/wordsets/route.ts:8-28 | A rejected `auth()` is caught and answered with 500 for any caller. Otherwise the reply is `Get`'s. |
| WordSetsApi.PostedIsListedForOwner | src/app/api/wordsets/route.ts:15-21 | A set a teacher has just uploaded, once its row is in the table, is listed for that teacher. |
| WordSetsApi.ParsePlainText | src/app/api/wordsets/route.ts:57-64 | Every item is a trimmed, non-empty, newline-free word numbered by its position among kept lines, starting at 1, with no image. |
| WordSetsApi.PlainTextRoundTrip | src/app/api/wordsets/route.ts:59-63 | A file with one trimmed word per line gives back exactly those words, numbered 1..n. |
| WordSetsApi.PlainTextLines | src/app/api/wordsets/route.ts:59-63 | For any text, the items are its non-blank lines, trimmed, in file order and numbered 1..n. |
| WordSetsApi.PlainTextEmptyIffBlank | src/app/api/wordsets/route.ts:59 | A file yields no word iff its text is all whitespace. |
| WordSetsApi.BlankLineAddsNothing | src/app/api/wordsets/route.ts:59 | An all-whitespace line anywhere in the file, including the empty line after a final newline, changes nothing. |
| WordSetsApi.RowWord | src/app/api/wordsets/route.ts:53 | The word is the `word` cell when it is non-empty, else the `Word` cell when that is, else empty. |
| WordSetsApi.RowImage | src/app/api/wordsets/route.ts:54 | The image is the `image` cell when it is non-empty, else the `Image` cell as it is. |
| WordSetsApi.CsvItems | src/app/api/wordsets/route.ts:51-56 | Each item comes from the row its order names, orders increase strictly and lie within the rows, and there are no more items than rows. |
| WordSetsApi.CsvItemsIsNumberThenFilter | src/app/api/wordsets/route.ts:52-56 | Reading rows one at a time equals numbering every row first and then dropping wordless items. |
| WordSetsApi.CsvRowKeptIffWord | src/app/api/wordsets/route.ts:56 | A row yields its item, numbered by its row position, iff its word is not blank. Every item has a non-blank word. |
| WordSetsApi.CsvAllWordsKept | src/app/api/wordsets/route.ts:51-56 | When every row has a word, nothing is dropped and the orders run 1..n. |
| WordSetsApi.ParseItems | src/app/api/wordsets/route.ts:48-64 | Every item of an upload has a non-blank word and an order of at least 1. Plain-text items are numbered 1..n and have no image. |
| WordSetsApi.CsvDetectionIsCaseSensitive | src/app/api/wordsets/route.ts:49 | `.csv` selects CSV, while `.CSV` and other suffixes are read as plain text. |
| WordSetsApi.Post | src/app/api/wordsets/route.ts:30-80 | 401 for non-teachers. 400 without a file or with an empty, untrimmed title. 500 when the insert fails. Otherwise the items parsed from the file, owned by the caller, inactive. |
| WordSetsApi.HandlePost | src/app/api/wordsets/route.ts:30-80 | A rejected `auth()` gives 500. Then a non-teacher gets 401. A teacher whose `request.formData()` rejects gets 500. Then a missing file or title gets 400. A rejected `file.text()` gets 500. The reply is ok iff every await resolves and `Post` succeeds. |
| SubmissionsApi.CheckForm | src/app/api/submissions/route.ts:44-51 | Malformed stroke JSON is an error before any field check. A form passes iff the word is non-empty, the word id parses to a non-zero number, the stroke data is truthy and an image is attached. |
| SubmissionsApi.NullIsNotANumber | src/app/api/submissions/route.ts:45 | A missing word-id field reads as `null`, which is not a number. |
| SubmissionsApi.Post | src/app/api/submissions/route.ts:36-72 | 401 without a user. 500 for bad JSON, a failed upload or a failed insert. 400 for missing fields. Otherwise a row for the session's user with the parsed fields and the uploaded URL, unscored. |
| SubmissionsApi.HandlePost | src/app/api/submissions/route.ts:36-72 | A rejected `auth()` gives 500. Then a signed-out caller gets 401. A signed-in caller whose `request.formData()` rejects gets 500 before any field is read. The reply is ok iff both awaits resolve and `Post` succeeds. |
| SubmissionsApi.MissingStrokeDataIsBadRequest | src/app/api/submissions/route.ts:46-50 | An absent stroke-data field parses to `null` and is refused with 400. |
| SubmissionsApi.BlobPath | src/app/api/submissions/route.ts:54 | The blob path ends in `.png`. |
| SubmissionsApi.BlobPathNamesWord | src/app/api/submissions/route.ts:54 | The path starts with `drawings/<user>-`, and what follows parses back to the word id. |
| SubmissionsApi.BlobPathSeparatesWords | src/app/api/submissions/route.ts:54 | For one user at one instant, different words get different paths. |
| SubmissionsApi.StudentFilter | src/app/api/submissions/route.ts:17-26 | A student is always filtered to their own id. Anyone else is filtered iff the `studentId` parameter is non-empty, and then by that parameter. |
| SubmissionsApi.Get | src/app/api/submissions/route.ts:7-34 | A student gets exactly their own rows whatever the query says. Others get the named student's rows when the parameter is non-empty, and all rows otherwise. |
| SubmissionsApi.HandleGet | src/app/api/submissions/route.ts:7-34 | A rejected `auth()` is caught and answered with 500. Otherwise the reply is `Get`'s, and it is ok iff there is a user and the query succeeds. |
| SubmissionsApi.StudentSeesOnlyOwn | src/app/api/submissions/route.ts:17-21 | A student never receives another student's submission. |
| SubmissionsApi.PostedIsListedForAuthor | src/app/api/submissions/route.ts:59-65 | A student's successful POST, once its row is appended to the table, appears in that student's own listing. |
| Offline.ProgressKeyKind | src/lib/offline.ts:158 | Progress keys never collide with the word-set key or the queue key. |
| Offline.ProgressKeyInjective | src/lib/offline.ts:171 | Different word ids use different progress keys. |
| Offline.CacheActiveWordSet | src/lib/offline.ts:37-47 | The stored set carries the caching time, whatever `cachedAt` the caller passed. No other key changes. |
| Offline.GetCachedWordSet | src/lib/offline.ts:50-67 | Returns nothing when nothing is cached. A set older than 24 hours (strictly) is deleted and not returned. Otherwise the stored set is returned and the store is untouched. |
| Offline.CachedSetReadBack | src/lib/offline.ts:56 | A cached set reads back iff at most 24 hours have passed. |
| Offline.ExpiredCacheIsGone | src/lib/offline.ts:57-59 | Once a read finds the set expired, every later read finds nothing. |
| Offline.ClearCachedWordSet | src/lib/offline.ts:70-76 | The word-set key is gone and every other key is as it was. |
| Offline.ClearedCacheReadsNothing | src/lib/offline.ts:70-76 | After a clear, reading the cache finds nothing and the queue is unchanged. |
| Offline.SubmissionIdNamesTime | src/lib/offline.ts:81 | The queue id's time part parses back to the queueing time. |
| Offline.SubmissionIdsDifferInTime | src/lib/offline.ts:81 | Ids made at different times differ, whatever their random suffixes. |
| Offline.QueueSubmission | src/lib/offline.ts:79-96 | Appends exactly the draft with its new id at the end. Nothing else changes. |
| Offline.GetPendingSubmissions | src/lib/offline.ts:99-107 | Returns an empty list when nothing is stored under the queue key, and the stored queue otherwise. |
| Offline.WithoutIds | src/lib/offline.ts:113 | Keeps exactly the entries whose id is not removed. |
| Offline.WithoutIdsAppend | src/lib/offline.ts:113 | Removal keeps the relative order of survivors. |
| Offline.WithoutIdsTwice | src/lib/offline.ts:112-114 | Removing two id sets in turn removes their union. |
| Offline.RemoveSubmissionFromQueue | src/lib/offline.ts:110-118 | The queue keeps exactly the entries with another id. No other key changes. |
| Offline.RemoveIsIdempotent | src/lib/offline.ts:110-118 | Removing an id twice is removing it once. |
| Offline.RemoveAbsentId | src/lib/offline.ts:113 | Removing an id that is not queued leaves the queue as it was. |
| Offline.SyncPendingSubmissions | src/lib/offline.ts:121-153 | Offline, nothing happens. Online, every entry is posted in order and the queue loses exactly the accepted ids, keeping the rest in order. No other key changes. |
| Offline.RemoveAccepted | src/lib/offline.ts:127-145 | Removing each accepted entry of the starting queue one by one leaves the store unchanged when none is accepted, and otherwise stores the starting queue without the accepted ids. |
| Offline.SyncKeepsExactlyRejected | src/lib/offline.ts:140-145 | With distinct ids, an entry survives a sync iff the server did not accept it. |
| Offline.SaveDrawingProgress | src/lib/offline.ts:156-166 | The strokes are stored under the word's key with the current time. No other key changes. |
| Offline.LoadDrawingProgress | src/lib/offline.ts:169-186 | Returns the strokes iff they were saved under one hour ago (strictly). Never changes the store. |
| Offline.ClearDrawingProgress | src/lib/offline.ts:189-196 | Deletes only the word's progress. |
| Offline.ProgressReadBack | src/lib/offline.ts:180-181 | Saved strokes load back exactly while less than an hour has passed. |
| Offline.StaleProgressIsKept | src/lib/offline.ts:177-181 | Unlike the word-set cache, a stale load leaves the entry in place. |
| Offline.ProgressIsPerWord | src/lib/offline.ts:158 | Saving or clearing one word's progress leaves other words, the queue and the cache as they were. |
| Offline.ApplyOpKeepsShape | src/lib/offline.ts:35-197 | Every operation keeps each key holding an entry of its own kind. |
| Wire.DashboardUploadPassesValidation | src/components/TeacherDashboard.tsx:94-96 | Every upload the dashboard sends passes the route's 400 check. For a teacher, it is stored iff the insert succeeds, under the trimmed title. |
| Wire.QueuedFormReadsBack | src/lib/offline.ts:129-133 | The server reads a queued submission back as its word, word id, stroke data and image, and accepts it iff the word is non-empty, the id is non-zero and the stroke text is truthy JSON. |
| Wire.ZeroWordIdIsNeverAccepted | src/app/api/submissions/route.ts:49 | The submission route refuses a queued submission for word id 0, whatever its contents. |
| Wire.ZeroWordIdSurvivesSync | src/lib/offline.ts:127-145 | With distinct ids, an entry for word id 0 is still queued after a sync against the submission route. |
| Wire.SyncedRowNamesSessionUser | src/app/api/submissions/route.ts:60 | The stored row names the signed-in user, not the student id kept with the draft. |

## Left out

- Canvas 2D rendering, `toBlob` encoding, and the device pixel values of real events. The repaint is modelled as a list of paint operations, and the exported image is a parameter.
- Speech synthesis, the confetti, the progress bar, and the 2-second, 2.5-second and 3-second timers. The auto-advance and the hint timeout are explicit events instead.
- React's render scheduling and stale closures. Each handler sees the current state.
- The CSV tokenizer itself. Its header-mode rows are an input to the route.
- The start and end dates written with a new word set, which are derived from the clock and unused by the modelled logic.
- The creation timestamps, the thumbnail column, and loading the dashboard's lists.
- Numbers beyond 2^53 and renderings in exponent form (1e21 and above). Integers are unbounded and render in plain decimal.
- UTF-16 code units. Strings are sequences of code points.
- Failures of the browser store. Every offline operation catches and logs them. `queueSubmission` rethrows.
- Overlapping syncs, the service worker and the `online` listener.
- The `online` flag, which stands in for `navigator.onLine`.
- The game page's parent (`src/app/game/page-client.tsx:79`). It renders the game without a submission callback, so even a working export would reach no server; that file is not part of this model.
- The activation and review routes the dashboard calls. They are not part of this model, so their replies are parameters.
- Wire.ZeroWordIdSurvivesSync: every post of one sync sees the same server clock value. The route reads `Date.now()` per request, but only the blob path depends on it.
- Offline.SyncPendingSubmissions: the server's verdict on each entry is a predicate of the entry, so a verdict that would differ between two posts of the same entry is not modelled.

## Findings

| source | as written | input that shows it | evidently intended | confidence | as-written member | corrected member |
|---|---|---|---|---|---|---|
| src/components/GameInterface.tsx:33 | The screen exports `canvasRef`, but that reference is never attached to an element; the drawing canvas keeps its own. `exportToPNG` calls `current?.toBlob`, which does nothing, so the awaited promise never settles. | A word, one committed stroke, and a click on submit: no callback, no score. | Export the canvas the child drew on, then submit. | high, not executed | GameScreen.SubmitNeverReachesParent | GameScreen.SubmitWithAttachedCanvas |
| src/components/GameInterface.tsx:133-136 | Restarting, or advancing to the next word, empties the game's stroke list but not the drawing canvas. The canvas has no key and is never cleared. | Commit one stroke, restart, then finish a second stroke: the game holds both. Advancing after a drawing does the same for the next word (GameScreen.AdvanceOldStrokesResurface). | Restart and advance clear the drawing too. | high, not executed | GameScreen.RestartExample | GameScreen.StepCorrected |
