/** What one side of the application sends and the other side reads: the
    dashboard's upload form against the word-set route, and a queued offline
    submission against the submission route. */
module Wire {
  import opened Common
  import JsNumber
  import Canvas
  import Dashboard
  import WordSetsApi
  import SubmissionsApi
  import Offline

  /** The file part of an upload as the route receives it. */
  function UploadedFileOf(req: Dashboard.UploadRequest): WordSetsApi.UploadedFile {
    WordSetsApi.UploadedFile(req.file.name, req.file.content)
  }

  /** Every upload the dashboard sends gets past the route's 400 check: for a
      teacher it is stored exactly when the insert succeeds, under the
      trimmed title the dashboard sent. */
  lemma DashboardUploadPassesValidation(d: Dashboard.DashboardState, reply: Dashboard.HttpOutcome<Dashboard.WordSetView>,
                                        teacher: User, rows: seq<WordSetsApi.CsvRow>, insertedId: Option<int>)
    requires teacher.role == Teacher
    requires Dashboard.HandleFileUpload(d, reply).request.Some?
    ensures var req := Dashboard.HandleFileUpload(d, reply).request.value;
      var r := WordSetsApi.Post(Some(teacher), Some(UploadedFileOf(req)), Some(req.title), rows, insertedId);
      && (r.Ok? <==> insertedId.Some?)
      && (r.Err? ==> r.status == 500)
      && (r.Ok? ==> r.body.title == req.title && r.body.createdBy == Some(teacher.id))
  {
    Dashboard.UploadTitleIsTrimmed(d, reply);
  }

  /** A queued submission's fields read back on the server as the draft's
      word, word id, stroke data and image; it passes validation exactly when
      the word is non-empty, the word id is not 0 and its stroke text parses
      to a truthy value. */
  lemma QueuedFormReadsBack(p: Offline.PendingSubmission, encode: seq<Canvas.Stroke> -> string,
                            parse: string -> SubmissionsApi.JsonParse)
    ensures var form := Offline.FormOf(p, encode);
      var text := encode(p.draft.strokeData);
      var c := SubmissionsApi.CheckForm(form, parse);
      && (c.BadJson? <==> parse(text).Malformed?)
      && (c.Valid? <==> p.draft.word != "" && p.draft.wordId != 0 && parse(text).Parsed? && SubmissionsApi.Truthy(parse(text).value))
      && (c.Valid? ==> c.fields == SubmissionsApi.Fields(p.draft.word, p.draft.wordId, parse(text).value, p.draft.imageBlob))
  {
    JsNumber.ParseIntToString(p.draft.wordId);
  }

  /** A queued submission for word id 0 is refused whatever its contents;
      `ZeroWordIdSurvivesSync` carries this over to the queue a sync leaves. */
  lemma ZeroWordIdIsNeverAccepted(user: User, p: Offline.PendingSubmission, encode: seq<Canvas.Stroke> -> string,
                                  parse: string -> SubmissionsApi.JsonParse, now: int,
                                  upload: string -> Option<string>, insertedId: Option<int>)
    requires p.draft.wordId == 0
    ensures SubmissionsApi.Post(Some(user), Offline.FormOf(p, encode), parse, now, upload, insertedId).Err?
  {
    QueuedFormReadsBack(p, encode, parse);
  }

  /** The server's verdict on a queued entry, as a sync sees it: the
      submission route answers ok. */
  function ServerAccepts(user: User, encode: seq<Canvas.Stroke> -> string, parse: string -> SubmissionsApi.JsonParse,
                         now: int, upload: string -> Option<string>, insertedId: Option<int>): (accepted: Offline.PendingSubmission -> bool)
    ensures forall p :: accepted(p) == SubmissionsApi.Post(Some(user), Offline.FormOf(p, encode), parse, now, upload, insertedId).Ok?
  {
    p => SubmissionsApi.Post(Some(user), Offline.FormOf(p, encode), parse, now, upload, insertedId).Ok?
  }

  /** A queued entry for word id 0 is still queued after a sync against the
      submission route (the queue a sync leaves is the starting queue without
      the accepted ids). */
  lemma ZeroWordIdSurvivesSync(q: seq<Offline.PendingSubmission>, p: Offline.PendingSubmission, user: User,
                               encode: seq<Canvas.Stroke> -> string, parse: string -> SubmissionsApi.JsonParse,
                               now: int, upload: string -> Option<string>, insertedId: Option<int>)
    requires Offline.DistinctIds(q)
    requires p in q && p.draft.wordId == 0
    ensures var accepted := ServerAccepts(user, encode, parse, now, upload, insertedId);
      p in Offline.WithoutIds(q, Offline.AcceptedIds(q, accepted))
  {
    var accepted := ServerAccepts(user, encode, parse, now, upload, insertedId);
    ZeroWordIdIsNeverAccepted(user, p, encode, parse, now, upload, insertedId);
    Offline.SyncKeepsExactlyRejected(q, accepted, p);
  }

  /** The stored row names the signed-in user, not the student id kept with
      the queued draft (which is never sent). */
  lemma SyncedRowNamesSessionUser(user: User, p: Offline.PendingSubmission, encode: seq<Canvas.Stroke> -> string,
                                  parse: string -> SubmissionsApi.JsonParse, now: int,
                                  upload: string -> Option<string>, insertedId: Option<int>)
    ensures var r := SubmissionsApi.Post(Some(user), Offline.FormOf(p, encode), parse, now, upload, insertedId);
      r.Ok? ==> r.body.studentId == Some(user.id) && r.body.wordId == p.draft.wordId && r.body.word == p.draft.word
  {
    QueuedFormReadsBack(p, encode, parse);
  }
}
