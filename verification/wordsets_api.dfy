/** The word-set route: `GET` lists the sets a teacher may see, `POST` turns
    an uploaded plain-text or CSV file into a new word set owned by the
    caller. The session, the database's answers and the CSV tokenizer's rows
    are parameters. */
module WordSetsApi {
  import opened Common
  import JsString

  /** One row of the CSV tokenizer's header-mode output: the cells under the
      four headers the route looks at (absent when the file has no such column). */
  datatype CsvRow = CsvRow(word: Option<string>, Word: Option<string>, image: Option<string>, Image: Option<string>)

  datatype UploadedFile = UploadedFile(name: string, text: string)

  /** A `wordsets` row (dates left out). `createdBy` may be NULL. */
  datatype WordSetRow = WordSetRow(id: int, title: string, items: seq<WordItem>, createdBy: Option<string>, active: bool)

  const SystemOwner := "system"

  /** Only a session user whose role is exactly teacher gets past the gate. */
  predicate IsTeacher(session: Session) {
    session.Some? && session.value.role == Teacher
  }

  /** A teacher sees the sets they created and the system's sets. */
  predicate VisibleTo(row: WordSetRow, userId: string) {
    row.createdBy == Some(userId) || row.createdBy == Some(SystemOwner)
  }

  /** `GET`: 401 unless the caller is a teacher; 500 when the query fails;
      otherwise exactly the visible sets, in the order the database returned them. */
  function Get(session: Session, db: Option<seq<WordSetRow>>): (r: Reply<seq<WordSetRow>>)
    ensures !IsTeacher(session) ==> r == Unauthorized()
    ensures IsTeacher(session) && db.None? ==> r == InternalError()
    ensures IsTeacher(session) && db.Some? ==>
      r.Ok? && forall w :: w in r.body <==> w in db.value && VisibleTo(w, session.value.id)
  {
    if !IsTeacher(session) then Unauthorized()
    else match db
      case None => InternalError()
      case Some(rows) => Ok(Filter(rows, (w: WordSetRow) => VisibleTo(w, session.value.id)))
  }

  /** `line.trim()` is truthy: by `Trim`'s contract, iff the line is not all
      whitespace. */
  predicate IsNonBlank(line: string) {
    !JsString.IsBlank(line)
  }

  /** Plain-text format: split on `\n`, drop blank lines, trim the rest and
      number them 1, 2, ... in file order. */
  function ParsePlainText(text: string): (items: seq<WordItem>)
    ensures forall i :: 0 <= i < |items| ==>
      && items[i].order == i + 1
      && items[i].image.None?
      && items[i].word != ""
      && JsString.Trim(items[i].word) == items[i].word
      && '\n' !in items[i].word
  {
    var lines := Filter(JsString.Split(text, '\n'), IsNonBlank);
    assert forall i :: 0 <= i < |lines| ==> lines[i] in JsString.Split(text, '\n');
    var items := seq(|lines|, i requires 0 <= i < |lines| => WordItem(JsString.Trim(lines[i]), None, i + 1));
    TrimmedLines(lines);
    items
  }

  lemma TrimmedLines(lines: seq<string>)
    requires forall i :: 0 <= i < |lines| ==> IsNonBlank(lines[i]) && '\n' !in lines[i]
    ensures forall i :: 0 <= i < |lines| ==>
      var w := JsString.Trim(lines[i]); w != "" && JsString.Trim(w) == w && '\n' !in w
  {
    forall i | 0 <= i < |lines|
      ensures var w := JsString.Trim(lines[i]); w != "" && JsString.Trim(w) == w && '\n' !in w
    {
      JsString.TrimIdempotent(lines[i]);
    }
  }

  /** Any text, seen as its lines: the items are the lines that are not all
      whitespace, trimmed, in file order and numbered 1..n; blank lines are
      dropped without leaving a gap in the numbering. */
  lemma PlainTextLines(ls: seq<string>)
    requires |ls| >= 1
    requires forall i :: 0 <= i < |ls| ==> '\n' !in ls[i]
    ensures var items := ParsePlainText(JsString.Join(ls, '\n'));
      var kept := Filter(ls, IsNonBlank);
      && |items| == |kept|
      && forall i :: 0 <= i < |kept| ==> items[i] == WordItem(JsString.Trim(kept[i]), None, i + 1)
  {
    JsString.SplitJoin(ls, '\n');
  }

  /** A file yields no word at all exactly when its text is all whitespace. */
  lemma PlainTextEmptyIffBlank(text: string)
    ensures ParsePlainText(text) == [] <==> JsString.IsBlank(text)
  {
    var lines := JsString.Split(text, '\n');
    JsString.JoinBlank(lines, '\n');
    var kept := Filter(lines, IsNonBlank);
    if kept == [] {
      assert forall i :: 0 <= i < |lines| ==> JsString.IsBlank(lines[i]) by {
        forall i | 0 <= i < |lines| ensures JsString.IsBlank(lines[i]) {
          assert lines[i] in lines;
          assert lines[i] !in kept;
        }
      }
    } else {
      assert kept[0] in kept;
      var k :| 0 <= k < |lines| && lines[k] == kept[0];
      assert !JsString.IsBlank(lines[k]);
    }
  }

  /** A line that is all whitespace contributes no item, wherever it is:
      in particular the empty last line of a file ending in a newline. */
  lemma BlankLineAddsNothing(before: seq<string>, blank: string, after: seq<string>)
    requires forall i :: 0 <= i < |before| ==> '\n' !in before[i]
    requires forall i :: 0 <= i < |after| ==> '\n' !in after[i]
    requires '\n' !in blank && JsString.IsBlank(blank)
    requires |before + after| >= 1
    ensures ParsePlainText(JsString.Join(before + [blank] + after, '\n')) == ParsePlainText(JsString.Join(before + after, '\n'))
  {
    var with := before + [blank] + after;
    var without := before + after;
    NewlineFreeConcat(before + [blank], after);
    NewlineFreeConcat(before, after);
    JsString.SplitJoin(with, '\n');
    JsString.SplitJoin(without, '\n');
    BlankFiltersOut(before, blank, after);
  }

  lemma NewlineFreeConcat(a: seq<string>, b: seq<string>)
    requires forall i :: 0 <= i < |a| ==> '\n' !in a[i]
    requires forall i :: 0 <= i < |b| ==> '\n' !in b[i]
    ensures forall i :: 0 <= i < |a + b| ==> '\n' !in (a + b)[i]
  {
    forall i | 0 <= i < |a + b| ensures '\n' !in (a + b)[i] {
      if i >= |a| { assert (a + b)[i] == b[i - |a|]; }
    }
  }

  lemma BlankFiltersOut(before: seq<string>, blank: string, after: seq<string>)
    requires JsString.IsBlank(blank)
    ensures Filter(before + [blank] + after, IsNonBlank) == Filter(before + after, IsNonBlank)
  {
    FilterAppend(before + [blank], after, IsNonBlank);
    FilterAppend(before, [blank], IsNonBlank);
    FilterAppend(before, after, IsNonBlank);
    assert Filter([blank], IsNonBlank) == [];
  }

  /** A word on every line, each already trimmed and non-empty: the parse
      gives back exactly those words, numbered 1..n. */
  lemma PlainTextRoundTrip(words: seq<string>)
    requires |words| >= 1
    requires forall i :: 0 <= i < |words| ==> words[i] != "" && '\n' !in words[i] && JsString.Trim(words[i]) == words[i]
    ensures var items := ParsePlainText(JsString.Join(words, '\n'));
      && |items| == |words|
      && forall i :: 0 <= i < |words| ==> items[i] == WordItem(words[i], None, i + 1)
  {
    JsString.SplitJoin(words, '\n');
    FilterAll(words, IsNonBlank);
  }

  /** JavaScript's `a || b` on optional strings. */
  function Either(a: Option<string>, b: Option<string>): Option<string> {
    if TruthyText(a) then a else b
  }

  /** `row.word || row.Word || ''`. */
  function RowWord(row: CsvRow): (w: string)
    ensures TruthyText(row.word) ==> w == row.word.value
    ensures !TruthyText(row.word) && TruthyText(row.Word) ==> w == row.Word.value
    ensures w == "" <==> !TruthyText(row.word) && !TruthyText(row.Word)
  {
    var e := Either(row.word, row.Word);
    if TruthyText(e) then e.value else ""
  }

  /** `row.image || row.Image`. */
  function RowImage(row: CsvRow): (im: Option<string>)
    ensures TruthyText(row.image) ==> im == row.image
    ensures !TruthyText(row.image) ==> im == row.Image
  {
    Either(row.image, row.Image)
  }

  /** The item built from the row at position `order - 1`. */
  function RowItem(row: CsvRow, order: int): WordItem {
    WordItem(RowWord(row), RowImage(row), order)
  }

  /** The items the route builds from the rows before filtering: row `i`
      becomes item number `start + i`. */
  function Numbered(rows: seq<CsvRow>, start: int): (items: seq<WordItem>)
    ensures |items| == |rows|
    ensures forall i :: 0 <= i < |rows| ==> items[i] == RowItem(rows[i], start + i)
  {
    seq(|rows|, i requires 0 <= i < |rows| => RowItem(rows[i], start + i))
  }

  /** `item => item.word.trim()`: the filter the route applies after numbering. */
  predicate HasWord(item: WordItem) {
    IsNonBlank(item.word)
  }

  /** CSV rows, read one row at a time: a row with a non-blank word becomes
      the item numbered by its position (counted from `start`), other rows are
      skipped without renumbering the rest; surviving words are not trimmed. */
  function CsvItems(rows: seq<CsvRow>, start: int): (items: seq<WordItem>)
    ensures |items| <= |rows|
    ensures forall j :: 0 <= j < |items| ==>
      start <= items[j].order < start + |rows| && items[j] == RowItem(rows[items[j].order - start], items[j].order)
    ensures forall j, k :: 0 <= j < k < |items| ==> items[j].order < items[k].order
    decreases |rows|
  {
    if |rows| == 0 then []
    else
      var rest := CsvItems(rows[1..], start + 1);
      if IsNonBlank(RowWord(rows[0])) then [RowItem(rows[0], start)] + rest else rest
  }

  /** The row-at-a-time reading agrees with numbering every row first and
      then dropping the items without a word. */
  lemma {:induction false} CsvItemsIsNumberThenFilter(rows: seq<CsvRow>, start: int)
    ensures CsvItems(rows, start) == Filter(Numbered(rows, start), HasWord)
    decreases |rows|
  {
    if |rows| > 0 {
      CsvItemsIsNumberThenFilter(rows[1..], start + 1);
      assert Numbered(rows, start) == [RowItem(rows[0], start)] + Numbered(rows[1..], start + 1);
      FilterAppend([RowItem(rows[0], start)], Numbered(rows[1..], start + 1), HasWord);
    }
  }

  /** The CSV post-processing of the route: orders are row positions plus one. */
  function ProcessCsvRows(rows: seq<CsvRow>): seq<WordItem> {
    CsvItems(rows, 1)
  }

  /** Row `i` yields an item iff its word is not blank, and that item is
      numbered `i + 1`; every item has a non-blank word. */
  lemma CsvRowKeptIffWord(rows: seq<CsvRow>, i: nat)
    requires i < |rows|
    ensures IsNonBlank(RowWord(rows[i])) <==> RowItem(rows[i], i + 1) in ProcessCsvRows(rows)
    ensures forall it :: it in ProcessCsvRows(rows) ==> IsNonBlank(it.word)
  {
    CsvItemsIsNumberThenFilter(rows, 1);
    assert Numbered(rows, 1)[i] == RowItem(rows[i], i + 1);
  }

  /** When every row has a non-blank word nothing is dropped and the orders
      run 1..n without gaps. */
  lemma CsvAllWordsKept(rows: seq<CsvRow>)
    requires forall i :: 0 <= i < |rows| ==> IsNonBlank(RowWord(rows[i]))
    ensures var items := ProcessCsvRows(rows);
      |items| == |rows| && forall i :: 0 <= i < |rows| ==> items[i] == RowItem(rows[i], i + 1)
  {
    CsvItemsIsNumberThenFilter(rows, 1);
    FilterAll(Numbered(rows, 1), HasWord);
  }

  /** A file is read as CSV iff its name ends with `.csv` (case-sensitive). */
  predicate IsCsvFile(file: UploadedFile) {
    JsString.EndsWith(file.name, ".csv")
  }

  /** The items of an upload: every one has a word that is not blank and an
      order of at least 1; a plain-text file's orders run 1..n. */
  function ParseItems(file: UploadedFile, csvRows: seq<CsvRow>): (items: seq<WordItem>)
    ensures forall i :: 0 <= i < |items| ==> IsNonBlank(items[i].word) && items[i].order >= 1
    ensures !IsCsvFile(file) ==> forall i :: 0 <= i < |items| ==> items[i].order == i + 1 && items[i].image.None?
  {
    if IsCsvFile(file) then
      var items := ProcessCsvRows(csvRows);
      CsvItemsIsNumberThenFilter(csvRows, 1);
      assert forall i :: 0 <= i < |items| ==> items[i] in items;
      items
    else
      var items := ParsePlainText(file.text);
      assert forall i :: 0 <= i < |items| ==> JsString.Trim(items[i].word) != [];
      items
  }

  /** The format is chosen by the exact suffix of the name: `.CSV` and other
      names are read as plain text. */
  lemma CsvDetectionIsCaseSensitive(text: string)
    ensures IsCsvFile(UploadedFile("words.csv", text))
    ensures !IsCsvFile(UploadedFile("words.CSV", text))
    ensures !IsCsvFile(UploadedFile("words.txt", text))
  {
    assert "words.csv"[5..] == ".csv";
    assert "words.CSV"[5..] != ".csv" by { assert "words.CSV"[5..][1] == 'C'; }
    assert "words.txt"[5..] != ".csv" by { assert "words.txt"[5..][1] == 't'; }
  }

  /** `POST`: 401 unless the caller is a teacher; 400 `Missing file or title`
      without a file or with an empty title (the title is not trimmed here);
      otherwise the items parsed from the file are stored with the caller as
      owner, and the inserted row is returned; 500 when the insert fails.
      `csvRows` is the tokenizer's output for the file's text, `insertedId`
      the id the database assigns (or nothing, when the insert fails). */
  function Post(session: Session, file: Option<UploadedFile>, title: Option<string>,
                csvRows: seq<CsvRow>, insertedId: Option<int>): (r: Reply<WordSetRow>)
    ensures !IsTeacher(session) ==> r == Unauthorized()
    ensures IsTeacher(session) && (file.None? || !TruthyText(title)) ==> r == Err(400, "Missing file or title")
    ensures r.Ok? <==> IsTeacher(session) && file.Some? && TruthyText(title) && insertedId.Some?
    ensures IsTeacher(session) && file.Some? && TruthyText(title) && insertedId.None? ==> r == InternalError()
    ensures r.Ok? ==>
      && r.body.createdBy == Some(session.value.id)
      && r.body.title == title.value
      && r.body.items == ParseItems(file.value, csvRows)
      && r.body.id == insertedId.value
      && !r.body.active
  {
    if !IsTeacher(session) then Unauthorized()
    else if file.None? || !TruthyText(title) then Err(400, "Missing file or title")
    else
      var items := ParseItems(file.value, csvRows);
      match insertedId
      case None => InternalError()
      case Some(id) => Ok(WordSetRow(id, title.value, items, Some(session.value.id), false))
  }

  /** The exported `GET` handler: `Get` inside the `try`, whose `catch` also
      answers a rejected `auth()` with 500, whoever the caller is. */
  function HandleGet(auth: Awaited, session: Session, db: Option<seq<WordSetRow>>): (r: Reply<seq<WordSetRow>>)
    ensures auth.Rejects? ==> r == InternalError()
    ensures auth.Resolves? ==> r == Get(session, db)
    ensures r.Ok? <==> auth.Resolves? && IsTeacher(session) && db.Some?
  {
    if auth.Rejects? then InternalError() else Get(session, db)
  }

  /** The exported `POST` handler. The awaits happen in this order: `auth()`,
      then (for a teacher) `request.formData()`, then (once the file and
      title pass the 400 check) `file.text()`; each rejection is caught and
      answered with 500, and an earlier answer stands. With every await
      resolved it is `Post`. */
  function HandlePost(auth: Awaited, formData: Awaited, fileText: Awaited, session: Session,
                      file: Option<UploadedFile>, title: Option<string>,
                      csvRows: seq<CsvRow>, insertedId: Option<int>): (r: Reply<WordSetRow>)
    ensures auth.Rejects? ==> r == InternalError()
    ensures auth.Resolves? && !IsTeacher(session) ==> r == Unauthorized()
    ensures auth.Resolves? && IsTeacher(session) && formData.Rejects? ==> r == InternalError()
    ensures auth.Resolves? && IsTeacher(session) && formData.Resolves? && (file.None? || !TruthyText(title)) ==>
      r == Err(400, "Missing file or title")
    ensures auth.Resolves? && IsTeacher(session) && formData.Resolves? && file.Some? && TruthyText(title) && fileText.Rejects? ==>
      r == InternalError()
    ensures auth.Resolves? && formData.Resolves? && fileText.Resolves? ==> r == Post(session, file, title, csvRows, insertedId)
    ensures r.Ok? <==> auth.Resolves? && formData.Resolves? && fileText.Resolves? && Post(session, file, title, csvRows, insertedId).Ok?
  {
    if auth.Rejects? then InternalError()
    else if !IsTeacher(session) then Unauthorized()
    else if formData.Rejects? then InternalError()
    else if file.None? || !TruthyText(title) then Err(400, "Missing file or title")
    else if fileText.Rejects? then InternalError()
    else Post(session, file, title, csvRows, insertedId)
  }

  /** A set a teacher has just uploaded is listed for that teacher once its
      row is in the table. */
  lemma PostedIsListedForOwner(user: User, file: Option<UploadedFile>, title: Option<string>,
                               csvRows: seq<CsvRow>, insertedId: Option<int>, before: seq<WordSetRow>)
    requires user.role == Teacher
    ensures var r := Post(Some(user), file, title, csvRows, insertedId);
      r.Ok? ==> r.body in Get(Some(user), Some(before + [r.body])).body
  {
    var r := Post(Some(user), file, title, csvRows, insertedId);
    if r.Ok? {
      assert r.body in before + [r.body];
    }
  }
}
