/** The teacher dashboard's client-side state: the word-set list, the
    submission list and the upload form. Each handler is modelled with the
    server's answer as a parameter; the list updates it makes are pure list
    transforms. */
module Dashboard {
  import opened Common
  import JsString

  datatype WordSetView = WordSetView(
    id: int, title: string, startDate: string, endDate: string,
    items: seq<WordItem>, active: bool, createdAt: string)

  datatype TeacherScore = TeacherScore(rating: int, reviewedBy: string, reviewedAt: string)
  datatype AutoScore = AutoScore(confidence: real, predictedLabel: string)

  datatype SubmissionView = SubmissionView(
    id: int, studentId: string, word: string, imageURL: string,
    teacherScore: Option<TeacherScore>, autoScore: Option<AutoScore>, createdAt: string)

  /** The file picked in the upload form. */
  datatype FileChoice = FileChoice(name: string, content: string)

  datatype DashboardState = DashboardState(
    wordSets: seq<WordSetView>,
    submissions: seq<SubmissionView>,
    uploadFile: Option<FileChoice>,
    uploadTitle: string)

  /** How a `fetch` ended: an ok response (with its parsed body), a response
      whose status is not ok, or a thrown error. */
  datatype HttpOutcome<T> = Succeeded(body: T) | Refused | Failed

  datatype Alert = NoAlert | UploadSucceeded | UploadFailed | ActivateSucceeded | ActivateFailed

  /** The form fields sent to `POST /api/wordsets`. */
  datatype UploadRequest = UploadRequest(file: FileChoice, title: string)

  datatype UploadStep = UploadStep(state: DashboardState, request: Option<UploadRequest>, alert: Alert)

  /** The submit button of the upload form is enabled iff a file is chosen and
      the title is not blank. */
  predicate UploadEnabled(d: DashboardState) {
    d.uploadFile.Some? && JsString.Trim(d.uploadTitle) != ""
  }

  /** `handleFileUpload`: without a file or with a blank title nothing is sent
      and nothing changes. Otherwise the file and the trimmed title are sent;
      on success the returned set is put first and the form is reset, on any
      failure the state is unchanged and a failure alert is shown. */
  function HandleFileUpload(d: DashboardState, reply: HttpOutcome<WordSetView>): (u: UploadStep)
    ensures u.request.Some? <==> UploadEnabled(d)
    ensures !UploadEnabled(d) ==> u == UploadStep(d, None, NoAlert)
    ensures u.request.Some? ==> u.request.value == UploadRequest(d.uploadFile.value, JsString.Trim(d.uploadTitle))
    ensures UploadEnabled(d) && reply.Succeeded? ==>
      && u.state.wordSets == [reply.body] + d.wordSets
      && u.state.uploadFile.None? && u.state.uploadTitle == ""
      && u.state.submissions == d.submissions
      && u.alert == UploadSucceeded
    ensures UploadEnabled(d) && !reply.Succeeded? ==> u.state == d && u.alert == UploadFailed
  {
    if d.uploadFile.None? || JsString.Trim(d.uploadTitle) == "" then UploadStep(d, None, NoAlert)
    else
      var request := UploadRequest(d.uploadFile.value, JsString.Trim(d.uploadTitle));
      match reply
      case Succeeded(ws) =>
        UploadStep(d.(wordSets := [ws] + d.wordSets, uploadFile := None, uploadTitle := ""), Some(request), UploadSucceeded)
      case _ => UploadStep(d, Some(request), UploadFailed)
  }

  /** The title an upload sends is already trimmed and is never empty. */
  lemma UploadTitleIsTrimmed(d: DashboardState, reply: HttpOutcome<WordSetView>)
    requires HandleFileUpload(d, reply).request.Some?
    ensures var t := HandleFileUpload(d, reply).request.value.title;
      t != "" && JsString.Trim(t) == t
  {
    JsString.TrimIdempotent(d.uploadTitle);
  }

  /** Mark exactly the sets with id `id` active and every other set inactive. */
  function ActivateOnly(sets: seq<WordSetView>, id: int): (r: seq<WordSetView>)
    ensures |r| == |sets|
    ensures forall i :: 0 <= i < |sets| ==> r[i] == sets[i].(active := sets[i].id == id)
  {
    seq(|sets|, i requires 0 <= i < |sets| => sets[i].(active := sets[i].id == id))
  }

  /** `activateWordSet`: on an ok reply every set is active iff its id is the
      activated one and an alert confirms it; a non-ok reply changes nothing
      silently; a thrown error changes nothing and shows a failure alert. */
  function ActivateWordSet(d: DashboardState, id: int, reply: HttpOutcome<()>): (r: (DashboardState, Alert))
    ensures reply.Succeeded? ==> r.0 == d.(wordSets := ActivateOnly(d.wordSets, id)) && r.1 == ActivateSucceeded
    ensures reply.Refused? ==> r == (d, NoAlert)
    ensures reply.Failed? ==> r == (d, ActivateFailed)
  {
    match reply
    case Succeeded(_) => (d.(wordSets := ActivateOnly(d.wordSets, id)), ActivateSucceeded)
    case Refused => (d, NoAlert)
    case Failed => (d, ActivateFailed)
  }

  predicate DistinctIds(sets: seq<WordSetView>) {
    forall i, j :: 0 <= i < j < |sets| ==> sets[i].id != sets[j].id
  }

  /** With distinct ids (database serials), after activation at most one set
      is active, and exactly one when the id is in the list. */
  lemma ActivationIsExclusive(sets: seq<WordSetView>, id: int)
    requires DistinctIds(sets)
    ensures var r := ActivateOnly(sets, id);
      && (forall i, j :: 0 <= i < |r| && 0 <= j < |r| && r[i].active && r[j].active ==> i == j)
      && (forall k :: 0 <= k < |sets| && sets[k].id == id ==> r[k].active)
  {
  }

  /** The activate button is disabled for a set that is already active. */
  predicate ActivateEnabled(ws: WordSetView) {
    !ws.active
  }

  /** After an activation the activate button is disabled exactly on the
      sets carrying the activated id. */
  lemma ActivatedButtonDisabled(sets: seq<WordSetView>, id: int)
    ensures forall i :: 0 <= i < |sets| ==> (!ActivateEnabled(ActivateOnly(sets, id)[i]) <==> sets[i].id == id)
  {
  }

  const Reviewer := "current_teacher"

  /** Give every submission with id `id` the teacher score; leave the others. */
  function RateMatching(subs: seq<SubmissionView>, id: int, score: TeacherScore): (r: seq<SubmissionView>)
    ensures |r| == |subs|
    ensures forall i :: 0 <= i < |subs| ==>
      r[i] == if subs[i].id == id then subs[i].(teacherScore := Some(score)) else subs[i]
  {
    seq(|subs|, i requires 0 <= i < |subs| => if subs[i].id == id then subs[i].(teacherScore := Some(score)) else subs[i])
  }

  /** `rateSubmission`: on an ok reply the matching submissions get the rating,
      reviewer `current_teacher` and the review time; any other outcome
      changes nothing. */
  function RateSubmission(d: DashboardState, id: int, rating: int, reviewedAt: string, reply: HttpOutcome<()>): (r: DashboardState)
    ensures reply.Succeeded? ==>
      r == d.(submissions := RateMatching(d.submissions, id, TeacherScore(rating, Reviewer, reviewedAt)))
    ensures !reply.Succeeded? ==> r == d
  {
    if reply.Succeeded? then d.(submissions := RateMatching(d.submissions, id, TeacherScore(rating, Reviewer, reviewedAt)))
    else d
  }

  /** The ratings offered for an unrated submission. */
  const RatingChoices: seq<int> := [1, 2, 3, 4, 5]

  /** What a submission card shows: the five stars of its rating, or the rating buttons. */
  datatype RatingWidget = StarsShown(filled: seq<bool>) | RatingButtons(ratings: seq<int>)

  function RatingWidgetFor(sub: SubmissionView): RatingWidget {
    match sub.teacherScore
    case Some(score) => StarsShown(StarRow(score.rating))
    case None => RatingButtons(RatingChoices)
  }

  /** Picking rating `r` from the buttons and getting an ok reply turns the
      card into a row of stars with exactly `r` filled, the first `r`. */
  lemma RatedCardShowsRating(d: DashboardState, k: nat, rating: int, at: string)
    requires k < |d.submissions|
    requires rating in RatingChoices
    ensures var sub := RateSubmission(d, d.submissions[k].id, rating, at, Succeeded(())).submissions[k];
      && RatingWidgetFor(sub).StarsShown?
      && (forall i :: 0 <= i < 5 ==> (RatingWidgetFor(sub).filled[i] <==> i < rating))
      && CountTrue(RatingWidgetFor(sub).filled) == rating
  {
    StarRowCount(rating);
  }
}
