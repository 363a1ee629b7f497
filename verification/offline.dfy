/** The offline store of the game client: a key-value store (modelled as a
    finite map) holding the cached active word set, the queue of submissions
    made while offline, and per-word drawing progress. The clock, the random
    id suffix, connectivity and the server's answers are parameters; a failing
    store, which every operation swallows, is left out. */
module Offline {
  import opened Common
  import JsNumber
  import Canvas
  import SubmissionsApi

  datatype CachedWordSet = CachedWordSet(id: int, title: string, items: seq<WordItem>, cachedAt: int)

  /** A submission as the caller hands it over, before it gets an id. */
  datatype SubmissionDraft = SubmissionDraft(
    studentId: string, wordId: int, word: string, strokeData: seq<Canvas.Stroke>, imageBlob: Blob, createdAt: int)

  datatype PendingSubmission = PendingSubmission(id: string, draft: SubmissionDraft)

  datatype Progress = Progress(strokes: seq<Canvas.Stroke>, savedAt: int)

  /** What the store holds under a key. */
  datatype Entry =
    | WordSetEntry(wordSet: CachedWordSet)
    | QueueEntry(queue: seq<PendingSubmission>)
    | ProgressEntry(progress: Progress)

  type Store = map<string, Entry>

  /** A read's value together with the store as the read leaves it. */
  datatype Read<T> = Read(value: Option<T>, store: Store)

  const ActiveWordSetKey := "activeWordSet"
  const PendingKey := "pendingSubmissions"
  const ProgressPrefix := "drawing_progress_"

  /** 24 hours and 1 hour, in milliseconds. */
  const DayMs := 24 * 60 * 60 * 1000
  const HourMs := 60 * 60 * 1000

  function ProgressKey(wordId: int): string {
    ProgressPrefix + JsNumber.IntToString(wordId)
  }

  predicate IsProgressKey(k: string) {
    |ProgressPrefix| <= |k| && k[..|ProgressPrefix|] == ProgressPrefix
  }

  /** Every key the store's operations write holds an entry of its kind. */
  predicate Wellformed(store: Store) {
    && (ActiveWordSetKey in store ==> store[ActiveWordSetKey].WordSetEntry?)
    && (PendingKey in store ==> store[PendingKey].QueueEntry?)
    && (forall k :: k in store && IsProgressKey(k) ==> store[k].ProgressEntry?)
  }

  // ---------------------------------------------------------------------
  // Keys

  /** Progress keys are progress keys, and differ from the two fixed keys. */
  lemma ProgressKeyKind(wordId: int)
    ensures IsProgressKey(ProgressKey(wordId))
    ensures ProgressKey(wordId) != ActiveWordSetKey && ProgressKey(wordId) != PendingKey
    ensures !IsProgressKey(ActiveWordSetKey) && !IsProgressKey(PendingKey)
  {
    var k := ProgressKey(wordId);
    assert k[..|ProgressPrefix|] == ProgressPrefix;
    assert k[0] == 'd';
  }

  /** Different word ids have different progress keys. */
  lemma ProgressKeyInjective(a: int, b: int)
    requires ProgressKey(a) == ProgressKey(b)
    ensures a == b
  {
    assert ProgressKey(a)[|ProgressPrefix|..] == JsNumber.IntToString(a);
    assert ProgressKey(b)[|ProgressPrefix|..] == JsNumber.IntToString(b);
    JsNumber.IntToStringInjective(a, b);
  }

  // ---------------------------------------------------------------------
  // The cached active word set

  /** `cacheActiveWordSet`: store the set with `cachedAt` set to now, whatever
      the caller passed. */
  function CacheActiveWordSet(store: Store, ws: CachedWordSet, now: int): (s: Store)
    ensures ActiveWordSetKey in s && s[ActiveWordSetKey] == WordSetEntry(ws.(cachedAt := now))
    ensures forall k :: k != ActiveWordSetKey ==> (k in s <==> k in store) && (k in store ==> s[k] == store[k])
  {
    store[ActiveWordSetKey := WordSetEntry(ws.(cachedAt := now))]
  }

  predicate Expired(ws: CachedWordSet, now: int) {
    now - ws.cachedAt > DayMs
  }

  /** `getCachedWordSet`: nothing when nothing is cached; a set cached more
      than 24 hours ago is deleted and not returned; otherwise the stored set,
      with the store untouched. */
  function GetCachedWordSet(store: Store, now: int): (r: Read<CachedWordSet>)
    ensures ActiveWordSetKey !in store ==> r == Read(None, store)
    ensures ActiveWordSetKey in store && store[ActiveWordSetKey].WordSetEntry? ==>
      var ws := store[ActiveWordSetKey].wordSet;
      if Expired(ws, now) then r.value.None? && r.store == store - {ActiveWordSetKey}
      else r == Read(Some(ws), store)
    ensures r.store == store || r.store == store - {ActiveWordSetKey}
  {
    if ActiveWordSetKey !in store then Read(None, store)
    else match store[ActiveWordSetKey]
      case WordSetEntry(ws) =>
        if Expired(ws, now) then Read(None, ClearCachedWordSet(store)) else Read(Some(ws), store)
      case _ => Read(None, store)
  }

  /** `clearCachedWordSet`. */
  function ClearCachedWordSet(store: Store): (s: Store)
    ensures ActiveWordSetKey !in s
    ensures forall k :: k != ActiveWordSetKey ==> (k in s <==> k in store) && (k in store ==> s[k] == store[k])
  {
    store - {ActiveWordSetKey}
  }

  /** After a clear no set is read back, and the queue is the one stored before. */
  lemma ClearedCacheReadsNothing(store: Store, now: int)
    ensures GetCachedWordSet(ClearCachedWordSet(store), now) == Read(None, ClearCachedWordSet(store))
    ensures GetPendingSubmissions(ClearCachedWordSet(store)) == GetPendingSubmissions(store)
  {
  }

  /** A set read back is the set cached, stamped with the caching time, as
      long as at most 24 hours have passed (exactly 24 hours still counts). */
  lemma CachedSetReadBack(store: Store, ws: CachedWordSet, t0: int, t1: int)
    ensures var r := GetCachedWordSet(CacheActiveWordSet(store, ws, t0), t1);
      (r.value.Some? <==> t1 - t0 <= DayMs) && (r.value.Some? ==> r.value.value == ws.(cachedAt := t0))
  {
  }

  /** Once a read found the cache expired, the set is gone: every later read
      finds nothing, whatever the clock says. */
  lemma ExpiredCacheIsGone(store: Store, t1: int, t2: int)
    requires ActiveWordSetKey in store && store[ActiveWordSetKey].WordSetEntry?
    requires Expired(store[ActiveWordSetKey].wordSet, t1)
    ensures GetCachedWordSet(GetCachedWordSet(store, t1).store, t2).value.None?
  {
  }

  // ---------------------------------------------------------------------
  // The pending-submission queue

  /** `getPendingSubmissions`: the stored queue, or `[]` when there is none. */
  function GetPendingSubmissions(store: Store): (q: seq<PendingSubmission>)
    ensures PendingKey !in store ==> q == []
    ensures PendingKey in store && store[PendingKey].QueueEntry? ==> q == store[PendingKey].queue
  {
    if PendingKey in store && store[PendingKey].QueueEntry? then store[PendingKey].queue else []
  }

  /** The id `submission_<now>_<suffix>`; the suffix stands for the random
      base-36 characters. */
  function SubmissionId(now: int, suffix: string): string {
    "submission_" + JsNumber.IntToString(now) + "_" + suffix
  }

  /** The time can be read back off an id: ids made at different times differ,
      whatever their random suffixes. */
  lemma SubmissionIdNamesTime(now: int, suffix: string)
    ensures JsNumber.ParseInt(SubmissionId(now, suffix)[|"submission_"|..]) == Some(now)
  {
    JsNumber.ParseAfterPrefix("submission_", now, "_" + suffix);
    assert SubmissionId(now, suffix) == "submission_" + JsNumber.IntToString(now) + ("_" + suffix);
  }

  lemma SubmissionIdsDifferInTime(t1: int, s1: string, t2: int, s2: string)
    requires t1 != t2
    ensures SubmissionId(t1, s1) != SubmissionId(t2, s2)
  {
    SubmissionIdNamesTime(t1, s1);
    SubmissionIdNamesTime(t2, s2);
  }

  /** `queueSubmission`: give the draft an id and append it to the queue. */
  function QueueSubmission(store: Store, draft: SubmissionDraft, now: int, suffix: string): (r: (Store, string))
    ensures r.1 == SubmissionId(now, suffix)
    ensures GetPendingSubmissions(r.0) == GetPendingSubmissions(store) + [PendingSubmission(r.1, draft)]
    ensures forall k :: k != PendingKey ==> (k in r.0 <==> k in store) && (k in store ==> r.0[k] == store[k])
  {
    var id := SubmissionId(now, suffix);
    (store[PendingKey := QueueEntry(GetPendingSubmissions(store) + [PendingSubmission(id, draft)])], id)
  }

  /** The entries of `q` whose id is not in `ids`, in order. */
  function WithoutIds(q: seq<PendingSubmission>, ids: set<string>): (r: seq<PendingSubmission>)
    ensures |r| <= |q|
    ensures forall s :: s in r <==> s in q && s.id !in ids
    decreases |q|
  {
    if |q| == 0 then []
    else (if q[0].id in ids then [] else [q[0]]) + WithoutIds(q[1..], ids)
  }

  /** Removing ids keeps the relative order: it distributes over concatenation. */
  lemma {:induction false} WithoutIdsAppend(a: seq<PendingSubmission>, b: seq<PendingSubmission>, ids: set<string>)
    ensures WithoutIds(a + b, ids) == WithoutIds(a, ids) + WithoutIds(b, ids)
    decreases |a|
  {
    if |a| == 0 {
      assert a + b == b;
    } else {
      assert (a + b)[1..] == a[1..] + b;
      WithoutIdsAppend(a[1..], b, ids);
    }
  }

  /** Removing two sets of ids one after the other removes their union. */
  lemma {:induction false} WithoutIdsTwice(q: seq<PendingSubmission>, a: set<string>, b: set<string>)
    ensures WithoutIds(WithoutIds(q, a), b) == WithoutIds(q, a + b)
    decreases |q|
  {
    if |q| > 0 {
      WithoutIdsTwice(q[1..], a, b);
      var head := if q[0].id in a then [] else [q[0]];
      assert WithoutIds(q, a) == head + WithoutIds(q[1..], a);
      WithoutIdsAppend(head, WithoutIds(q[1..], a), b);
    }
  }

  /** Removing no id changes nothing. */
  lemma {:induction false} WithoutNoIds(q: seq<PendingSubmission>)
    ensures WithoutIds(q, {}) == q
    decreases |q|
  {
    if |q| > 0 {
      WithoutNoIds(q[1..]);
      assert q == [q[0]] + q[1..];
    }
  }

  /** `removeSubmissionFromQueue`: store the queue without the entries with
      that id (an empty queue is stored when there was none). */
  function RemoveSubmissionFromQueue(store: Store, id: string): (s: Store)
    ensures PendingKey in s && s[PendingKey].QueueEntry?
    ensures forall p :: p in GetPendingSubmissions(s) <==> p in GetPendingSubmissions(store) && p.id != id
    ensures forall k :: k != PendingKey ==> (k in s <==> k in store) && (k in store ==> s[k] == store[k])
  {
    store[PendingKey := QueueEntry(WithoutIds(GetPendingSubmissions(store), {id}))]
  }

  /** Removing the same id twice is removing it once. */
  lemma RemoveIsIdempotent(store: Store, id: string)
    ensures RemoveSubmissionFromQueue(RemoveSubmissionFromQueue(store, id), id) == RemoveSubmissionFromQueue(store, id)
  {
    WithoutIdsTwice(GetPendingSubmissions(store), {id}, {id});
    assert {id} + {id} == {id};
  }

  /** Removing an id that is not queued leaves the queue as it was. */
  lemma RemoveAbsentId(store: Store, id: string)
    requires forall p :: p in GetPendingSubmissions(store) ==> p.id != id
    ensures GetPendingSubmissions(RemoveSubmissionFromQueue(store, id)) == GetPendingSubmissions(store)
  {
    var q := GetPendingSubmissions(store);
    WithoutIdsTwice(q, {}, {id});
    WithoutNoIds(q);
    WithoutIdsUnused(q, {id});
  }

  /** Removing ids no entry carries changes nothing. */
  lemma {:induction false} WithoutIdsUnused(q: seq<PendingSubmission>, ids: set<string>)
    requires forall i :: 0 <= i < |q| ==> q[i].id !in ids
    ensures WithoutIds(q, ids) == q
    decreases |q|
  {
    if |q| > 0 {
      WithoutIdsUnused(q[1..], ids);
      assert q == [q[0]] + q[1..];
    }
  }

  /** The fields one queued submission is posted with (`wordId.toString()`
      and `JSON.stringify(strokeData)`, the latter given as `encode`). */
  function FormOf(p: PendingSubmission, encode: seq<Canvas.Stroke> -> string): SubmissionsApi.SubmissionForm {
    SubmissionsApi.SubmissionForm(
      Some(p.draft.word), Some(JsNumber.IntToString(p.draft.wordId)), Some(encode(p.draft.strokeData)), Some(p.draft.imageBlob))
  }

  /** The ids of the entries the server accepted. */
  function AcceptedIds(q: seq<PendingSubmission>, accepted: PendingSubmission -> bool): (ids: set<string>)
    ensures forall p :: p in q && accepted(p) ==> p.id in ids
    ensures forall id :: id in ids ==> exists p :: p in q && accepted(p) && p.id == id
  {
    set p | p in q && accepted(p) :: p.id
  }

  predicate DistinctIds(q: seq<PendingSubmission>) {
    forall i, j :: 0 <= i < j < |q| ==> q[i].id != q[j].id
  }

  /** `syncPendingSubmissions`: offline, nothing happens. Online, every entry
      of the queue as read at the start is posted, in order; each one the
      server accepts (`accepted`, standing for an ok response) is removed
      from the stored queue by id. The result is the starting queue without
      the accepted ids, in order; nothing else in the store changes. */
  method SyncPendingSubmissions(store: Store, online: bool, accepted: PendingSubmission -> bool,
                                encode: seq<Canvas.Stroke> -> string)
    returns (result: Store, posted: seq<SubmissionsApi.SubmissionForm>)
    ensures !online ==> result == store && posted == []
    ensures online ==> var q := GetPendingSubmissions(store);
      && |posted| == |q|
      && (forall k :: 0 <= k < |q| ==> posted[k] == FormOf(q[k], encode))
      && (if AcceptedIds(q, accepted) == {} then result == store
          else result == store[PendingKey := QueueEntry(WithoutIds(q, AcceptedIds(q, accepted)))])
    ensures online ==> GetPendingSubmissions(result) == WithoutIds(GetPendingSubmissions(store), AcceptedIds(GetPendingSubmissions(store), accepted))
    ensures forall k :: k != PendingKey ==> (k in result <==> k in store) && (k in store ==> result[k] == store[k])
  {
    if !online {
      return store, [];
    }
    var q := GetPendingSubmissions(store);
    posted := seq(|q|, k requires 0 <= k < |q| => FormOf(q[k], encode));
    result := RemoveAccepted(store, q, accepted);
    WithoutNoIds(q);
  }

  /** The removal half of a sync: walks the queue read at the start and
      removes each accepted entry from the store, one call per entry. */
  method RemoveAccepted(store: Store, q: seq<PendingSubmission>, accepted: PendingSubmission -> bool)
    returns (result: Store)
    requires q == GetPendingSubmissions(store)
    ensures AcceptedIds(q, accepted) == {} ==> result == store
    ensures AcceptedIds(q, accepted) != {} ==> result == store[PendingKey := QueueEntry(WithoutIds(q, AcceptedIds(q, accepted)))]
  {
    result := store;
    var i := 0;
    ghost var done: set<string> := {};
    while i < |q|
      invariant 0 <= i <= |q|
      invariant done == AcceptedIds(q[..i], accepted)
      invariant done == {} ==> result == store
      invariant done != {} ==> result == store[PendingKey := QueueEntry(WithoutIds(q, done))]
    {
      var p := q[i];
      AcceptedIdsStep(q, i, accepted);
      if accepted(p) {
        SyncStep(store, done, result, p.id);
        result := RemoveSubmissionFromQueue(result, p.id);
        done := done + {p.id};
      }
      i := i + 1;
    }
    assert q[..|q|] == q;
  }

  /** The accepted ids of one more entry. */
  lemma AcceptedIdsStep(q: seq<PendingSubmission>, i: nat, accepted: PendingSubmission -> bool)
    requires i < |q|
    ensures AcceptedIds(q[..i + 1], accepted) ==
      AcceptedIds(q[..i], accepted) + (if accepted(q[i]) then {q[i].id} else {})
  {
    assert q[..i + 1] == q[..i] + [q[i]];
  }

  /** One removal during a sync: the stored queue loses one more id. */
  lemma SyncStep(store: Store, done: set<string>, result: Store, id: string)
    requires done == {} ==> result == store
    requires done != {} ==> result == store[PendingKey := QueueEntry(WithoutIds(GetPendingSubmissions(store), done))]
    ensures RemoveSubmissionFromQueue(result, id) ==
      store[PendingKey := QueueEntry(WithoutIds(GetPendingSubmissions(store), done + {id}))]
  {
    var q := GetPendingSubmissions(store);
    WithoutIdsTwice(q, done, {id});
    WithoutNoIds(q);
    assert {} + {id} == {id};
  }

  /** With distinct ids (the random suffix makes them so in practice), a
      queued entry survives a sync iff the server did not accept it. */
  lemma SyncKeepsExactlyRejected(q: seq<PendingSubmission>, accepted: PendingSubmission -> bool, p: PendingSubmission)
    requires DistinctIds(q)
    ensures p in WithoutIds(q, AcceptedIds(q, accepted)) <==> p in q && !accepted(p)
  {
  }

  // ---------------------------------------------------------------------
  // Drawing progress

  /** `saveDrawingProgress`: store the strokes under the word's key, stamped now. */
  function SaveDrawingProgress(store: Store, wordId: int, strokes: seq<Canvas.Stroke>, now: int): (s: Store)
    ensures ProgressKey(wordId) in s && s[ProgressKey(wordId)] == ProgressEntry(Progress(strokes, now))
    ensures forall k :: k != ProgressKey(wordId) ==> (k in s <==> k in store) && (k in store ==> s[k] == store[k])
  {
    store[ProgressKey(wordId) := ProgressEntry(Progress(strokes, now))]
  }

  predicate Recent(p: Progress, now: int) {
    now - p.savedAt < HourMs
  }

  /** `loadDrawingProgress`: the saved strokes when they were saved less than
      an hour ago, nothing otherwise; a stale entry is left in place. */
  function LoadDrawingProgress(store: Store, wordId: int, now: int): (r: Read<seq<Canvas.Stroke>>)
    ensures r.store == store
    ensures r.value.Some? <==>
      ProgressKey(wordId) in store && store[ProgressKey(wordId)].ProgressEntry? && Recent(store[ProgressKey(wordId)].progress, now)
    ensures r.value.Some? ==> r.value.value == store[ProgressKey(wordId)].progress.strokes
  {
    var key := ProgressKey(wordId);
    if key in store && store[key].ProgressEntry? && Recent(store[key].progress, now) then
      Read(Some(store[key].progress.strokes), store)
    else Read(None, store)
  }

  /** `clearDrawingProgress`. */
  function ClearDrawingProgress(store: Store, wordId: int): (s: Store)
    ensures ProgressKey(wordId) !in s
    ensures forall k :: k != ProgressKey(wordId) ==> (k in s <==> k in store) && (k in store ==> s[k] == store[k])
  {
    store - {ProgressKey(wordId)}
  }

  /** Saved strokes are loaded back exactly while less than an hour has passed. */
  lemma ProgressReadBack(store: Store, wordId: int, strokes: seq<Canvas.Stroke>, t0: int, t1: int)
    ensures var r := LoadDrawingProgress(SaveDrawingProgress(store, wordId, strokes, t0), wordId, t1);
      (r.value.Some? <==> t1 - t0 < HourMs) && (r.value.Some? ==> r.value.value == strokes)
  {
  }

  /** A stale load keeps the entry, unlike an expired word-set read: a load
      with an earlier clock still finds the strokes. */
  lemma StaleProgressIsKept(store: Store, wordId: int, strokes: seq<Canvas.Stroke>, t0: int)
    ensures var s := SaveDrawingProgress(store, wordId, strokes, t0);
      && LoadDrawingProgress(s, wordId, t0 + HourMs).value.None?
      && LoadDrawingProgress(LoadDrawingProgress(s, wordId, t0 + HourMs).store, wordId, t0).value == Some(strokes)
  {
  }

  /** Saving or clearing one word's progress leaves every other word's
      progress, the queue and the cached word set as they were. */
  lemma ProgressIsPerWord(store: Store, wordId: int, strokes: seq<Canvas.Stroke>, t0: int, other: int, now: int)
    requires other != wordId
    ensures var saved := SaveDrawingProgress(store, wordId, strokes, t0);
      && LoadDrawingProgress(saved, other, now).value == LoadDrawingProgress(store, other, now).value
      && GetPendingSubmissions(saved) == GetPendingSubmissions(store)
      && GetCachedWordSet(saved, now).value == GetCachedWordSet(store, now).value
    ensures var cleared := ClearDrawingProgress(store, wordId);
      && LoadDrawingProgress(cleared, other, now).value == LoadDrawingProgress(store, other, now).value
      && GetPendingSubmissions(cleared) == GetPendingSubmissions(store)
      && GetCachedWordSet(cleared, now).value == GetCachedWordSet(store, now).value
  {
    ProgressKeyKind(wordId);
    if ProgressKey(other) == ProgressKey(wordId) {
      ProgressKeyInjective(other, wordId);
    }
  }

  // ---------------------------------------------------------------------
  // The store's shape

  /** The store operations, for the shape invariant. */
  datatype StoreOp =
    | Cache(wordSet: CachedWordSet)
    | ReadCache
    | ClearCache
    | Enqueue(draft: SubmissionDraft, suffix: string)
    | Remove(id: string)
    | Save(wordId: int, strokes: seq<Canvas.Stroke>)
    | Load(wordId: int)
    | ClearProgress(wordId: int)

  function ApplyOp(store: Store, op: StoreOp, now: int): Store {
    match op
    case Cache(ws) => CacheActiveWordSet(store, ws, now)
    case ReadCache => GetCachedWordSet(store, now).store
    case ClearCache => ClearCachedWordSet(store)
    case Enqueue(d, suffix) => QueueSubmission(store, d, now, suffix).0
    case Remove(id) => RemoveSubmissionFromQueue(store, id)
    case Save(w, strokes) => SaveDrawingProgress(store, w, strokes, now)
    case Load(w) => LoadDrawingProgress(store, w, now).store
    case ClearProgress(w) => ClearDrawingProgress(store, w)
  }

  /** Every operation keeps each key's entry of its kind. */
  lemma ApplyOpKeepsShape(store: Store, op: StoreOp, now: int)
    requires Wellformed(store)
    ensures Wellformed(ApplyOp(store, op, now))
  {
    match op {
      case Save(w, _) => ProgressKeyKind(w);
      case ClearProgress(w) => ProgressKeyKind(w);
      case Cache(_) => ProgressKeyKind(0);
      case Enqueue(_, _) => ProgressKeyKind(0);
      case Remove(_) => ProgressKeyKind(0);
      case _ =>
    }
  }
}
