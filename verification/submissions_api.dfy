/** The submission route: `GET` lists submissions filtered by role, `POST`
    stores a drawing's image and stroke data for the signed-in user. The
    session, the JSON parser's verdict, the clock, the blob store and the
    database's answers are parameters. */
module SubmissionsApi {
  import opened Common
  import JsString
  import JsNumber

  /** A JSON value as `JSON.parse` returns it. */
  datatype Json =
    | JNull
    | JBool(b: bool)
    | JNumber(n: real)
    | JString(s: string)
    | JArray(elements: seq<Json>)
    | JObject(fields: seq<(string, Json)>)

  /** JavaScript truthiness of a parsed JSON value: `null`, `false`, `0` and
      `""` are falsy; arrays and objects, even empty ones, are truthy. */
  predicate Truthy(v: Json) {
    match v
    case JNull => false
    case JBool(b) => b
    case JNumber(n) => n != 0.0
    case JString(s) => s != ""
    case _ => true
  }

  /** What `JSON.parse` does with a text: throws, or returns a value. */
  datatype JsonParse = Malformed | Parsed(value: Json)

  /** The multipart fields of a `POST`; an absent field is `None`. */
  datatype SubmissionForm = SubmissionForm(
    word: Option<string>, wordId: Option<string>, strokeData: Option<string>, image: Option<Blob>)

  /** A `submissions` row (thumbnail and creation time left out). */
  datatype SubmissionRow = SubmissionRow(
    id: int, studentId: Option<string>, wordId: int, word: string, imageURL: string,
    strokeData: Json, autoScore: Option<Json>, teacherScore: Option<Json>)

  /** `formData.get(name) as string`: a missing field reaches the string
      functions as `null`, which both `parseInt` and `JSON.parse` read as the
      text `null`. */
  function FieldText(field: Option<string>): string {
    if field.Some? then field.value else "null"
  }

  /** `!wordId` is false only for a parsed, non-zero number. */
  predicate WordIdPresent(wordId: Option<int>) {
    wordId.Some? && wordId.value != 0
  }

  /** The blob path `drawings/<user>-<wordId>-<now>.png`. */
  function BlobPath(userId: string, wordId: int, now: int): (p: string)
    ensures JsString.EndsWith(p, ".png")
  {
    var p := BlobPrefix(userId) + JsNumber.IntToString(wordId) + BlobSuffix(now);
    assert p[|p| - 4..] == ".png";
    p
  }

  function BlobPrefix(userId: string): string {
    "drawings/" + userId + "-"
  }

  function BlobSuffix(now: int): string {
    "-" + JsNumber.IntToString(now) + ".png"
  }

  /** The fields of a well-formed request, as the route holds them after
      validation. */
  datatype Fields = Fields(word: string, wordId: int, strokeData: Json, image: Blob)

  /** The route's reading of the form: `parseInt` of the word id, then
      `JSON.parse` of the stroke data (which throws on malformed text before
      any field is checked), then the truthiness checks. */
  datatype Checked = BadJson | MissingFields | Valid(fields: Fields)

  function CheckForm(form: SubmissionForm, parse: string -> JsonParse): (c: Checked)
    ensures c.BadJson? <==> parse(FieldText(form.strokeData)).Malformed?
    ensures c.Valid? <==>
      && parse(FieldText(form.strokeData)).Parsed?
      && TruthyText(form.word)
      && WordIdPresent(JsNumber.ParseInt(FieldText(form.wordId)))
      && Truthy(parse(FieldText(form.strokeData)).value)
      && form.image.Some?
    ensures c.Valid? ==>
      && c.fields.word == form.word.value && c.fields.word != ""
      && JsNumber.ParseInt(form.wordId.value) == Some(c.fields.wordId) && c.fields.wordId != 0
      && parse(FieldText(form.strokeData)) == Parsed(c.fields.strokeData) && Truthy(c.fields.strokeData)
      && form.image == Some(c.fields.image)
  {
    var wordId := JsNumber.ParseInt(FieldText(form.wordId));
    match parse(FieldText(form.strokeData))
    case Malformed => BadJson
    case Parsed(strokeData) =>
      if !TruthyText(form.word) || !WordIdPresent(wordId) || !Truthy(strokeData) || form.image.None? then
        MissingFields
      else
        FieldsOf(form, wordId.value, strokeData)
  }

  /** Only a present `wordId` field can parse to a number: `parseInt("null")` is NaN. */
  lemma NullIsNotANumber()
    ensures JsNumber.ParseInt("null") == None
  {
    var s := "null";
    assert !JsString.IsWhitespace(s[0]);
    assert JsString.LeadingSpace(s) == 0;
    assert s[0..] == s;
    assert !JsNumber.IsDigitIn(s[0], 10);
    assert JsNumber.DigitRun(s, 10) == 0;
    assert JsNumber.ParseUnsigned(s) == None;
  }

  function FieldsOf(form: SubmissionForm, wordId: int, strokeData: Json): (c: Checked)
    requires TruthyText(form.word) && form.image.Some?
    requires JsNumber.ParseInt(FieldText(form.wordId)) == Some(wordId) && wordId != 0
    ensures c == Valid(Fields(form.word.value, wordId, strokeData, form.image.value))
    ensures form.wordId.Some?
  {
    NullIsNotANumber();
    Valid(Fields(form.word.value, wordId, strokeData, form.image.value))
  }

  /** `POST`: 401 without a signed-in user; 500 when the stroke data is not
      JSON (this happens before any field is checked); 400 `Missing required
      fields` when the word is empty, the word id is not a non-zero number,
      the stroke data is falsy or the image is absent; 500 when the blob
      upload or the insert fails. Otherwise the stored row: the session's
      user as student, the parsed word id, the word, the uploaded image's URL
      and the parsed stroke data, unscored.
      `parse` is `JSON.parse`, `now` is `Date.now()`, `upload` maps the blob
      path to the stored URL (or nothing, when the upload fails) and
      `insertedId` is the id the database assigns. */
  function Post(session: Session, form: SubmissionForm, parse: string -> JsonParse, now: int,
                upload: string -> Option<string>, insertedId: Option<int>): (r: Reply<SubmissionRow>)
    ensures session.None? ==> r == Unauthorized()
    ensures session.Some? && CheckForm(form, parse).BadJson? ==> r == InternalError()
    ensures session.Some? && CheckForm(form, parse).MissingFields? ==> r == Err(400, "Missing required fields")
    ensures r.Ok? <==>
      && session.Some?
      && CheckForm(form, parse).Valid?
      && upload(BlobPath(session.value.id, CheckForm(form, parse).fields.wordId, now)).Some?
      && insertedId.Some?
    ensures r.Ok? ==>
      && r.body.studentId == Some(session.value.id)
      && r.body.word == CheckForm(form, parse).fields.word
      && r.body.wordId == CheckForm(form, parse).fields.wordId
      && r.body.imageURL == upload(BlobPath(session.value.id, r.body.wordId, now)).value
      && r.body.strokeData == CheckForm(form, parse).fields.strokeData
      && r.body.autoScore.None? && r.body.teacherScore.None?
    ensures r.Err? ==> r.status in {400, 401, 500}
  {
    if session.None? then Unauthorized()
    else
      var user := session.value;
      match CheckForm(form, parse)
      case BadJson => InternalError()
      case MissingFields => Err(400, "Missing required fields")
      case Valid(f) =>
        match upload(BlobPath(user.id, f.wordId, now))
        case None => InternalError()
        case Some(url) =>
          match insertedId
          case None => InternalError()
          case Some(id) => Ok(SubmissionRow(id, Some(user.id), f.wordId, f.word, url, f.strokeData, None, None))
  }

  /** An absent stroke-data field is read as the JSON text `null`; when the
      parser gives `null` for it, the request is refused with 400 even if
      every other field is present. */
  lemma MissingStrokeDataIsBadRequest(user: User, form: SubmissionForm, parse: string -> JsonParse, now: int,
                                      upload: string -> Option<string>, insertedId: Option<int>)
    requires form.strokeData.None?
    requires parse("null") == Parsed(JNull)
    ensures Post(Some(user), form, parse, now, upload, insertedId) == Err(400, "Missing required fields")
  {
  }

  /** The user's id and the word id can be read back off the blob path: it
      starts with `drawings/<user>-` and what follows parses as the word id. */
  lemma BlobPathNamesWord(userId: string, wordId: int, now: int)
    ensures var p := BlobPath(userId, wordId, now);
      var k := |BlobPrefix(userId)|;
      && p[..k] == "drawings/" + userId + "-"
      && JsNumber.ParseInt(p[k..]) == Some(wordId)
  {
    JsNumber.ParseAfterPrefix(BlobPrefix(userId), wordId, BlobSuffix(now));
  }

  /** For one user and one instant, different words give different paths. */
  lemma BlobPathSeparatesWords(userId: string, w1: int, w2: int, now: int)
    requires w1 != w2
    ensures BlobPath(userId, w1, now) != BlobPath(userId, w2, now)
  {
    BlobPathNamesWord(userId, w1, now);
    BlobPathNamesWord(userId, w2, now);
  }

  /** The `studentId` query parameter counts only when non-empty. */
  function StudentFilter(session: User, studentIdParam: Option<string>): (f: Option<string>)
    ensures session.role == Student ==> f == Some(session.id)
    ensures session.role != Student ==> (f.Some? <==> TruthyText(studentIdParam))
    ensures session.role != Student && f.Some? ==> f == studentIdParam
  {
    if session.role == Student then Some(session.id)
    else if TruthyText(studentIdParam) then studentIdParam
    else None
  }

  predicate BelongsTo(row: SubmissionRow, studentId: string) {
    row.studentId == Some(studentId)
  }

  /** `GET`: 401 without a signed-in user; 500 when the query fails. A student
      gets exactly their own submissions whatever the query says; anyone else
      gets exactly the named student's submissions when `studentId` is
      non-empty, and every submission otherwise. */
  function Get(session: Session, studentIdParam: Option<string>, db: Option<seq<SubmissionRow>>): (r: Reply<seq<SubmissionRow>>)
    ensures session.None? ==> r == Unauthorized()
    ensures session.Some? && db.None? ==> r == InternalError()
    ensures session.Some? && db.Some? ==> r.Ok?
    ensures r.Ok? && session.value.role == Student ==>
      forall s :: s in r.body <==> s in db.value && BelongsTo(s, session.value.id)
    ensures r.Ok? && session.value.role != Student && TruthyText(studentIdParam) ==>
      forall s :: s in r.body <==> s in db.value && BelongsTo(s, studentIdParam.value)
    ensures r.Ok? && session.value.role != Student && !TruthyText(studentIdParam) ==> r.body == db.value
  {
    if session.None? then Unauthorized()
    else match db
      case None => InternalError()
      case Some(rows) =>
        match StudentFilter(session.value, studentIdParam)
        case None => Ok(rows)
        case Some(sid) => Ok(Filter(rows, (s: SubmissionRow) => BelongsTo(s, sid)))
  }

  /** A student never receives a submission stored for someone else. */
  lemma StudentSeesOnlyOwn(user: User, param: Option<string>, db: seq<SubmissionRow>, s: SubmissionRow)
    requires user.role == Student
    requires s in Get(Some(user), param, Some(db)).body
    ensures s.studentId == Some(user.id)
  {
  }

  /** A submission stored by `POST` and appended to the table is listed for
      its author by `GET`. */
  lemma PostedIsListedForAuthor(user: User, form: SubmissionForm, parse: string -> JsonParse, now: int,
                                upload: string -> Option<string>, insertedId: Option<int>, before: seq<SubmissionRow>)
    requires user.role == Student
    ensures var r := Post(Some(user), form, parse, now, upload, insertedId);
      r.Ok? ==> r.body in Get(Some(user), None, Some(before + [r.body])).body
  {
    var r := Post(Some(user), form, parse, now, upload, insertedId);
    if r.Ok? {
      assert r.body in before + [r.body];
    }
  }

  /** The exported `GET` handler: `Get` inside the `try`, whose `catch` also
      answers a rejected `auth()` with 500. */
  function HandleGet(auth: Awaited, session: Session, studentIdParam: Option<string>,
                     db: Option<seq<SubmissionRow>>): (r: Reply<seq<SubmissionRow>>)
    ensures auth.Rejects? ==> r == InternalError()
    ensures auth.Resolves? ==> r == Get(session, studentIdParam, db)
    ensures r.Ok? <==> auth.Resolves? && session.Some? && db.Some?
  {
    if auth.Rejects? then InternalError() else Get(session, studentIdParam, db)
  }

  /** The exported `POST` handler: a rejected `auth()`, or for a signed-in
      user a rejected `request.formData()`, is caught and answered with 500
      before any field is read; with both resolved it is `Post`. */
  function HandlePost(auth: Awaited, formData: Awaited, session: Session, form: SubmissionForm,
                      parse: string -> JsonParse, now: int, upload: string -> Option<string>,
                      insertedId: Option<int>): (r: Reply<SubmissionRow>)
    ensures auth.Rejects? ==> r == InternalError()
    ensures auth.Resolves? && session.None? ==> r == Unauthorized()
    ensures auth.Resolves? && session.Some? && formData.Rejects? ==> r == InternalError()
    ensures auth.Resolves? && formData.Resolves? ==> r == Post(session, form, parse, now, upload, insertedId)
    ensures r.Ok? <==> auth.Resolves? && formData.Resolves? && Post(session, form, parse, now, upload, insertedId).Ok?
  {
    if auth.Rejects? then InternalError()
    else if session.None? then Unauthorized()
    else if formData.Rejects? then InternalError()
    else Post(session, form, parse, now, upload, insertedId)
  }
}
