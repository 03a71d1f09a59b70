/** The command layer of commands.py. The database is abstracted as the
    statements a command hands to it (`Execution.issued`); what `execute`
    gives back to its caller is `Execution.returned`. The clock value that
    `Bookmark.date_added` captures when the class is defined, and the list
    of starred repositories the import fetches, are parameters. */
module Commands {
  import opened Wrappers
  import opened Text
  import opened Assoc
  import opened Database

  const BookmarksTable: string := "bookmarks"

  /** The column dict `CreateBookmarksTableCommand` passes to `create_table`. */
  const BookmarkColumns: seq<(string, string)> := [
    ("id", "INTEGER PRIMARY KEY AUTOINCREMENT"),
    ("title", "TEXT NOT NULL"),
    ("url", "TEXT NOT NULL"),
    ("notes", "TEXT"),
    ("date_added", "TEXT NOT NULL")
  ]

  /** What `execute` hands back: Python `None`, a string, or a raised error. */
  datatype Returned = ReturnedNone | ReturnedStr(s: string) | Raised(error: DbError)

  /** One run of a command: the statements it issued, in order, and what it returned. */
  datatype Execution = Execution(issued: seq<Statement>, returned: Returned)

  /** The table and field names are distinct identifiers. */
  lemma Names()
    ensures Identifier(BookmarksTable)
    ensures Identifier("id") && Identifier("title") && Identifier("url")
    ensures Identifier("notes") && Identifier("date_added")
    ensures "title" != "url" && "title" != "notes" && "title" != "date_added"
    ensures "url" != "notes" && "url" != "date_added" && "notes" != "date_added"
  {
    assert "title"[0] == 't' && "notes"[0] == 'n' && "url"[0] == 'u' && "date_added"[0] == 'd';
  }

  lemma SchemaColumnsPlain()
    ensures IdentifierKeys(BookmarkColumns)
    ensures forall i | 0 <= i < |BookmarkColumns| ::
              Lacks(BookmarkColumns[i].1, ',') && Lacks(BookmarkColumns[i].1, '\n')
  {
    Names();
    forall i | 0 <= i < |BookmarkColumns|
      ensures Lacks(BookmarkColumns[i].1, ',') && Lacks(BookmarkColumns[i].1, '\n')
    {
      var s := BookmarkColumns[i].1;
      forall j | 0 <= j < |s| ensures s[j] != ',' && s[j] != '\n' {
        assert 'A' <= s[j] <= 'Z' || s[j] == ' ';
      }
    }
  }

  lemma SchemaRoundTrip()
    ensures ParseCreateTable(CreateTable(BookmarksTable, BookmarkColumns).text)
         == Some((BookmarksTable, ColumnDefinitions(BookmarkColumns)))
  {
    Names();
    SchemaColumnsPlain();
    CreateTableRoundTrip(BookmarksTable, BookmarkColumns);
  }

  // ---------------------------------------------------------------------
  // CreateBookmarksTableCommand

  /** Creates the `bookmarks` table with the fixed five-column schema. */
  function CreateBookmarksTable(): (e: Execution)
    ensures e.returned == ReturnedNone && |e.issued| == 1 && e.issued[0].params == []
    ensures ParseCreateTable(e.issued[0].text) == Some((BookmarksTable, ColumnDefinitions(BookmarkColumns)))
  {
    SchemaRoundTrip();
    Execution([CreateTable(BookmarksTable, BookmarkColumns)], ReturnedNone)
  }

  // ---------------------------------------------------------------------
  // Bookmark and its validation

  /** The validated `Bookmark` model. */
  datatype Bookmark = Bookmark(title: string, url: string, notes: Option<string>, dateAdded: string)

  /** Raw bookmark data: a dict of field name to optional string. */
  type BookmarkData = seq<(string, Option<string>)>

  /** Why a field failed validation: absent although required, or an explicit
      `None` for a field typed `str`. */
  datatype ErrorKind = FieldRequired | NoneNotAllowed

  datatype FieldError = FieldError(field: string, kind: ErrorKind)

  /** `data` holds a string (not `None`) under `field`. */
  predicate Supplied(data: BookmarkData, field: string)
  {
    Get(data, field).Some? && Get(data, field).value.Some?
  }

  function SuppliedText(data: BookmarkData, field: string): string
    requires Supplied(data, field)
  {
    Get(data, field).value.value
  }

  /** `data` passes validation: `title` and `url` are strings and
      `date_added`, if present, is not `None`. An empty string is accepted. */
  predicate Valid(data: BookmarkData)
  {
    Supplied(data, "title") && Supplied(data, "url") && Get(data, "date_added") != Some(None)
  }

  /** The error a failing `str` field draws: "field required" when the key
      is absent, "none is not an allowed value" when it holds `None`. */
  function KindFor(data: BookmarkData, field: string): ErrorKind
  {
    if Get(data, field).None? then FieldRequired else NoneNotAllowed
  }

  /** The position of a validated field in the declaration of `Bookmark`. */
  function FieldRank(field: string): nat
  {
    if field == "title" then 0 else if field == "url" then 1 else if field == "notes" then 2 else 3
  }

  /** A required `str` field. */
  function RequiredField(data: BookmarkData, field: string): (r: Result<string, FieldError>)
    ensures r.Success? <==> Supplied(data, field)
    ensures r.Success? ==> r.value == SuppliedText(data, field)
    ensures r.Failure? ==> r.error.field == field
    ensures r.Failure? ==> r.error.kind == KindFor(data, field)
  {
    var found := Get(data, field);
    if found.None? then Failure(FieldError(field, FieldRequired))
    else if found.value.None? then Failure(FieldError(field, NoneNotAllowed))
    else Success(found.value.value)
  }

  /** A `str` field with a default: absent takes the default, `None` fails. */
  function DefaultedField(data: BookmarkData, field: string, default: string): (r: Result<string, FieldError>)
    ensures r.Success? <==> Get(data, field) != Some(None)
    ensures r.Success? && Get(data, field).None? ==> r.value == default
    ensures r.Success? && Get(data, field).Some? ==> r.value == Get(data, field).value.value
    ensures r.Failure? ==> r.error == FieldError(field, NoneNotAllowed)
  {
    var found := Get(data, field);
    if found.None? then Success(default)
    else if found.value.None? then Failure(FieldError(field, NoneNotAllowed))
    else Success(found.value.value)
  }

  /** An `Optional[str]` field defaulting to `None`. */
  function OptionalField(data: BookmarkData, field: string): (r: Option<string>)
    ensures r.Some? <==> Supplied(data, field)
    ensures r.Some? ==> r.value == SuppliedText(data, field)
  {
    match Get(data, field)
    case None => None
    case Some(v) => v
  }

  function ErrorOf(r: Result<string, FieldError>): seq<FieldError>
  {
    if r.Failure? then [r.error] else []
  }

  /** The errors validation reports: one per failing field, in declaration
      order, each of the kind the field's value calls for. */
  function FieldErrors(data: BookmarkData): (errors: seq<FieldError>)
    ensures errors == [] <==> Valid(data)
    ensures forall f | f == "title" || f == "url" ::
              (!Supplied(data, f) <==> exists i | 0 <= i < |errors| :: errors[i].field == f)
    ensures Get(data, "date_added") == Some(None)
            <==> exists i | 0 <= i < |errors| :: errors[i].field == "date_added"
    ensures forall i | 0 <= i < |errors| :: errors[i].field in ["title", "url", "date_added"]
    ensures forall i | 0 <= i < |errors| :: errors[i].kind == KindFor(data, errors[i].field)
    ensures forall i, j | 0 <= i < j < |errors| :: FieldRank(errors[i].field) < FieldRank(errors[j].field)
  {
    var title := ErrorOf(RequiredField(data, "title"));
    var url := ErrorOf(RequiredField(data, "url"));
    var date := ErrorOf(DefaultedField(data, "date_added", ""));
    Names();
    var errors := title + url + date;
    assert |title| == 1 ==> errors[0] == title[0];
    assert |url| == 1 ==> errors[|title|] == url[0];
    assert |date| == 1 ==> errors[|title| + |url|] == date[0];
    errors
  }

  /** `Bookmark.parse_obj(data)`: every field is checked, in declaration
      order, and all failures are reported together; keys other than the
      four fields are ignored. `defaultDate` is the timestamp fixed when the
      class was defined. */
  function ParseBookmark(data: BookmarkData, defaultDate: string): (r: Result<Bookmark, seq<FieldError>>)
    ensures r.Success? <==> Valid(data)
    ensures r.Success? ==> r.value.title == SuppliedText(data, "title")
    ensures r.Success? ==> r.value.url == SuppliedText(data, "url")
    ensures r.Success? ==> r.value.notes == (if Supplied(data, "notes") then Some(SuppliedText(data, "notes")) else None)
    ensures r.Success? ==> r.value.dateAdded == (if Supplied(data, "date_added") then SuppliedText(data, "date_added") else defaultDate)
    ensures r.Failure? ==> r.error == FieldErrors(data) && |r.error| >= 1
    ensures r.Failure? ==> forall f | f == "title" || f == "url" ::
                             (!Supplied(data, f) <==> exists i | 0 <= i < |r.error| :: r.error[i].field == f)
    ensures r.Failure? ==> (Get(data, "date_added") == Some(None)
                            <==> exists i | 0 <= i < |r.error| :: r.error[i].field == "date_added")
    ensures r.Failure? ==> forall i | 0 <= i < |r.error| ::
                             r.error[i].field in ["title", "url", "date_added"]
                             && r.error[i].kind == KindFor(data, r.error[i].field)
    ensures r.Failure? ==> forall i, j | 0 <= i < j < |r.error| ::
                             FieldRank(r.error[i].field) < FieldRank(r.error[j].field)
  {
    var errors := FieldErrors(data);
    if errors == [] then
      Success(Bookmark(SuppliedText(data, "title"), SuppliedText(data, "url"), OptionalField(data, "notes"),
                       DefaultedField(data, "date_added", defaultDate).value))
    else
      Failure(errors)
  }

  /** Python `None` or a string, as a bound parameter. */
  function ValueOf(o: Option<string>): Value
  {
    if o.Some? then Str(o.value) else Null
  }

  /** The bookmark as a dict: each of the four fields under its own name, in
      declaration order, with `notes` bound as `None` when absent. */
  function BookmarkDict(b: Bookmark): (d: seq<(string, Value)>)
    ensures Keys(d) == ["title", "url", "notes", "date_added"]
    ensures Values(d) == [Str(b.title), Str(b.url), ValueOf(b.notes), Str(b.dateAdded)]
  {
    [("title", Str(b.title)), ("url", Str(b.url)), ("notes", ValueOf(b.notes)), ("date_added", Str(b.dateAdded))]
  }

  // ---------------------------------------------------------------------
  // The text of a pydantic 1.x ValidationError

  function ErrorMessage(k: ErrorKind): string
  {
    match k
    case FieldRequired => "field required"
    case NoneNotAllowed => "none is not an allowed value"
  }

  function ErrorType(k: ErrorKind): string
  {
    match k
    case FieldRequired => "value_error.missing"
    case NoneNotAllowed => "type_error.none.not_allowed"
  }

  /** The indented line under a field's name: the message, then its type. */
  function MessageLine(k: ErrorKind): string
  {
    "  " + ErrorMessage(k) + " (type=" + ErrorType(k) + ")"
  }

  /** Each error as its two lines: the field name, then the indented message. */
  function ErrorPairs(errors: seq<FieldError>): (r: seq<(string, string)>)
    ensures |r| == |errors|
    ensures forall i | 0 <= i < |errors| :: r[i] == (errors[i].field, MessageLine(errors[i].kind))
  {
    seq(|errors|, i requires 0 <= i < |errors| => (errors[i].field, MessageLine(errors[i].kind)))
  }

  /** The error lines of the message, error after error. */
  function ErrorLines(errors: seq<FieldError>): seq<string>
  {
    Flatten(ErrorPairs(errors))
  }

  function ValidationHeader(n: nat): string
  {
    NatToString(n) + " validation error" + (if n == 1 then "" else "s") + " for Bookmark"
  }

  /** `str(e)` for the `ValidationError` raised by `Bookmark.parse_obj`. */
  function ValidationMessage(errors: seq<FieldError>): string
  {
    Join("\n", [ValidationHeader(|errors|)] + ErrorLines(errors))
  }

  lemma HeaderLacksNewline(n: nat)
    ensures Lacks(ValidationHeader(n), '\n')
  {
    var d := NatToString(n);
    assert Lacks(d, '\n') by {
      forall i | 0 <= i < |d| ensures d[i] != '\n' { assert IsDigit(d[i]); }
    }
    var plural := if n == 1 then "" else "s";
    LacksConcat(d, " validation error", '\n');
    LacksConcat(d + " validation error", plural, '\n');
    LacksConcat(d + " validation error" + plural, " for Bookmark", '\n');
  }

  lemma MessageLineLacksNewline(k: ErrorKind)
    ensures Lacks(MessageLine(k), '\n')
  {
    assert Lacks(ErrorMessage(k), '\n') && Lacks(ErrorType(k), '\n') by {
      match k
      case FieldRequired =>
        assert Lacks("field required", '\n');
        assert Lacks("value_error.missing", '\n');
      case NoneNotAllowed =>
        assert Lacks("none is not an allowed value", '\n');
        assert Lacks("type_error.none.not_allowed", '\n');
    }
    assert Lacks("  ", '\n') && Lacks(" (type=", '\n') && Lacks(")", '\n');
    LacksConcat("  ", ErrorMessage(k), '\n');
    LacksConcat("  " + ErrorMessage(k), " (type=", '\n');
    LacksConcat("  " + ErrorMessage(k) + " (type=", ErrorType(k), '\n');
    LacksConcat("  " + ErrorMessage(k) + " (type=" + ErrorType(k), ")", '\n');
  }

  lemma ErrorLinesLackNewline(errors: seq<FieldError>)
    requires forall i | 0 <= i < |errors| :: Identifier(errors[i].field)
    ensures forall j | 0 <= j < |ErrorLines(errors)| :: Lacks(ErrorLines(errors)[j], '\n')
  {
    var ps := ErrorPairs(errors);
    forall i | 0 <= i < |ps|
      ensures Lacks(ps[i].0, '\n') && Lacks(ps[i].1, '\n')
    {
      IdentifierLacks(errors[i].field);
      MessageLineLacksNewline(errors[i].kind);
    }
    FlattenLacks(ps, '\n');
  }

  /** The validation message consists of a header counting the errors and,
      for each error in order, a line naming the field. */
  lemma ValidationMessageLines(errors: seq<FieldError>)
    requires forall i | 0 <= i < |errors| :: Identifier(errors[i].field)
    ensures var ls := Split(ValidationMessage(errors), "\n");
      && |ls| == 1 + 2 * |errors|
      && ls[0] == ValidationHeader(|errors|)
      && forall i | 0 <= i < |errors| ::
           ls[1 + 2 * i] == errors[i].field && ls[2 + 2 * i] == MessageLine(errors[i].kind)
  {
    var lines := [ValidationHeader(|errors|)] + ErrorLines(errors);
    HeaderLacksNewline(|errors|);
    ErrorLinesLackNewline(errors);
    forall i | 0 <= i < |lines|
      ensures Lacks(lines[i], '\n')
    {
      if i > 0 {
        assert lines[i] == ErrorLines(errors)[i - 1];
      }
    }
    SplitJoinLacking(lines, "\n");
    forall i | 0 <= i < |errors|
      ensures lines[1 + 2 * i] == errors[i].field && lines[2 + 2 * i] == MessageLine(errors[i].kind)
    {
      FlattenAt(ErrorPairs(errors), i);
      assert lines[1 + 2 * i] == ErrorLines(errors)[2 * i];
      assert lines[2 + 2 * i] == ErrorLines(errors)[2 * i + 1];
    }
  }

  // ---------------------------------------------------------------------
  // AddBookmarkCommand

  /** The insert of a bookmark names the four fields in declaration order. */
  lemma BookmarkInsertRoundTrip(b: Bookmark)
    ensures ParseInsert(Add(BookmarksTable, BookmarkDict(b)).text)
         == Some(("bookmarks", ["title", "url", "notes", "date_added"], QuestionMarks(4)))
  {
    Names();
    var d := BookmarkDict(b);
    assert IdentifierKeys(d) by {
      forall i | 0 <= i < |d| ensures Identifier(d[i].0) {
        assert d[i].0 == Keys(d)[i];
      }
    }
    AddRoundTrip(BookmarksTable, d);
  }

  /** Validates `data`; on success inserts the bookmark's four fields into
      `bookmarks` and returns a confirmation, otherwise returns the
      validation message and inserts nothing. */
  function AddBookmark(data: BookmarkData, defaultDate: string): (e: Execution)
    ensures Valid(data) ==> |e.issued| == 1
    ensures Valid(data) ==> ParseInsert(e.issued[0].text)
                            == Some(("bookmarks", ["title", "url", "notes", "date_added"], QuestionMarks(4)))
    ensures Valid(data) ==> e.issued[0].params == [
              Str(SuppliedText(data, "title")),
              Str(SuppliedText(data, "url")),
              (if Supplied(data, "notes") then Str(SuppliedText(data, "notes")) else Null),
              Str(if Supplied(data, "date_added") then SuppliedText(data, "date_added") else defaultDate)]
    ensures Valid(data) ==> e.returned == ReturnedStr("Bookmark for " + SuppliedText(data, "title") + " added!")
    ensures !Valid(data) ==> e.issued == []
    ensures !Valid(data) ==> e.returned == ReturnedStr(ValidationMessage(ParseBookmark(data, defaultDate).error))
  {
    match ParseBookmark(data, defaultDate)
    case Success(b) =>
      BookmarkInsertRoundTrip(b);
      BookmarkParams(b);
      Execution([Add(BookmarksTable, BookmarkDict(b))], ReturnedStr("Bookmark for " + b.title + " added!"))
    case Failure(errors) =>
      Execution([], ReturnedStr(ValidationMessage(errors)))
  }

  /** The parameters of a bookmark's insert are its four field values. */
  lemma BookmarkParams(b: Bookmark)
    ensures Add(BookmarksTable, BookmarkDict(b)).params
         == [Str(b.title), Str(b.url), ValueOf(b.notes), Str(b.dateAdded)]
  {
    var ps := Add(BookmarksTable, BookmarkDict(b)).params;
    assert |ps| == 4;
    assert ps[0] == Str(b.title) && ps[1] == Str(b.url);
    assert ps[2] == ValueOf(b.notes) && ps[3] == Str(b.dateAdded);
  }

  /** A rejected add returns a message whose lines name each missing or
      `None` required field. */
  lemma AddBookmarkRejects(data: BookmarkData, defaultDate: string, field: string)
    requires field == "title" || field == "url"
    requires !Supplied(data, field)
    ensures AddBookmark(data, defaultDate).issued == []
    ensures AddBookmark(data, defaultDate).returned.ReturnedStr?
    ensures field in Split(AddBookmark(data, defaultDate).returned.s, "\n")
  {
    var r := ParseBookmark(data, defaultDate);
    var errors := r.error;
    Names();
    forall i | 0 <= i < |errors|
      ensures Identifier(errors[i].field)
    {
      assert errors[i].field in ["title", "url", "date_added"];
    }
    ValidationMessageLines(errors);
    var i :| 0 <= i < |errors| && errors[i].field == field;
    assert Split(ValidationMessage(errors), "\n")[1 + 2 * i] == field;
  }

  /** Every bookmark added in one process without an explicit `date_added`
      gets the same timestamp: the one fixed when the class was defined. */
  lemma DefaultDateShared(d1: BookmarkData, d2: BookmarkData, defaultDate: string)
    requires Valid(d1) && Valid(d2)
    requires Get(d1, "date_added").None? && Get(d2, "date_added").None?
    ensures AddBookmark(d1, defaultDate).issued[0].params[3]
         == AddBookmark(d2, defaultDate).issued[0].params[3]
         == Str(defaultDate)
  {
  }

  // ---------------------------------------------------------------------
  // ListBookmarksCommand

  /** The ordering `ListBookmarksCommand()` uses when none is given. */
  const DefaultListOrder: Option<string> := Some("date_added")

  /** `ListBookmarksCommand(order_by).execute()`: calls `select` without
      criteria, which raises before any statement is issued. */
  function ListBookmarks(orderBy: Option<string> := DefaultListOrder): (e: Execution)
    ensures e.issued == [] && e.returned == Raised(NoneNotIterable)
  {
    match Select(BookmarksTable, None, None, orderBy)
    case Failure(err) => Execution([], Raised(err))
    case Success(s) => Execution([s], ReturnedNone)
  }

  /** The listing the command evidently intends: every bookmark, in the
      given order, through a `select` that emits no `WHERE` line without
      criteria. */
  function ListBookmarksIntended(orderBy: Option<string> := DefaultListOrder): (e: Execution)
    ensures |e.issued| == 1 && e.issued[0].params == [] && e.returned == ReturnedNone
    ensures (orderBy.Some? ==> Lacks(orderBy.value, '\n')) ==>
              Split(e.issued[0].text, "\n")
              == ["", Indent12 + "SELECT " + SelectColumns(None) + " FROM " + BookmarksTable, Indent12 + OrderClause(orderBy), Indent12]
  {
    var s := SelectIntended(BookmarksTable, None, None, orderBy);
    assert (orderBy.Some? ==> Lacks(orderBy.value, '\n')) ==>
           Split(s.text, "\n")
           == ["", Indent12 + "SELECT " + SelectColumns(None) + " FROM " + BookmarksTable, Indent12 + OrderClause(orderBy), Indent12]
    by {
      if orderBy.Some? ==> Lacks(orderBy.value, '\n') {
        Names();
        SelectIntendedWithoutCriteria(BookmarksTable, None, None, orderBy);
      }
    }
    Execution([s], ReturnedNone)
  }

  /** Without an argument the intended listing is ordered by `date_added`. */
  lemma DefaultListingOrder()
    ensures Split(ListBookmarksIntended().issued[0].text, "\n")[2]
         == Indent12 + "ORDER BY date_added"
  {
    assert Lacks("date_added", '\n');
  }

  // ---------------------------------------------------------------------
  // DeleteBookmarkCommand

  /** Deletes by `id` alone and always reports success. */
  function DeleteBookmark(id: string): (e: Execution)
    ensures |e.issued| == 1
    ensures ParseDelete(e.issued[0].text) == Some(("bookmarks", ["id"]))
    ensures e.issued[0].params == [Str(id)]
    ensures e.returned == ReturnedStr("Bookmark deleted!")
  {
    Names();
    assert Keys([("id", Str(id))]) == ["id"];
    DeleteRoundTrip(BookmarksTable, [("id", Str(id))]);
    Execution([Delete(BookmarksTable, [("id", Str(id))])], ReturnedStr("Bookmark deleted!"))
  }

  // ---------------------------------------------------------------------
  // ImportGithubStarsCommand

  /** The fields of a GitHub repository the import reads. */
  datatype Repo = Repo(name: string, htmlUrl: string, description: Option<string>)

  datatype StarredRepo = StarredRepo(starredAt: string, repo: Repo)

  /** `ResponseGithubStars`: the import's input. */
  datatype GithubStarsRequest = GithubStarsRequest(username: string, preserveTimestamps: bool)

  /** `_create_bookmark_data`: title, URL and notes from the repository, and
      the star time as `date_added` only when timestamps are preserved. */
  function CreateBookmarkData(starred: StarredRepo, preserveTimestamps: bool): (d: BookmarkData)
    ensures Get(d, "title") == Some(Some(starred.repo.name))
    ensures Get(d, "url") == Some(Some(starred.repo.htmlUrl))
    ensures Get(d, "notes") == Some(starred.repo.description)
    ensures Get(d, "date_added").Some? <==> preserveTimestamps
    ensures preserveTimestamps ==> Get(d, "date_added") == Some(Some(starred.starredAt))
  {
    Names();
    var repo := starred.repo;
    var data := [("title", Some(repo.name)), ("url", Some(repo.htmlUrl)), ("notes", repo.description)];
    assert data[1..][1..] == [("notes", repo.description)];
    assert Get(data[1..][1..], "notes") == Some(repo.description);
    assert Get(data[1..], "notes") == Get(data[1..][1..], "notes");
    assert Get(data[1..][1..], "date_added") == None;
    assert Get(data[1..], "date_added") == Get(data[1..][1..], "date_added");
    assert Get(data, "title") == Some(Some(repo.name));
    assert Get(data, "url") == Some(Some(repo.htmlUrl));
    assert Get(data, "notes") == Some(repo.description);
    assert Get(data, "date_added") == None;
    GetAppend(data, "date_added", Some(starred.starredAt), "title");
    GetAppend(data, "date_added", Some(starred.starredAt), "url");
    GetAppend(data, "date_added", Some(starred.starredAt), "notes");
    GetAppend(data, "date_added", Some(starred.starredAt), "date_added");
    if preserveTimestamps then data + [("date_added", Some(starred.starredAt))] else data
  }

  /** The data built for a starred repository is a dict whose keys are the
      three repository fields, then `date_added` when timestamps are kept. */
  lemma BookmarkDataKeys(starred: StarredRepo, preserveTimestamps: bool)
    ensures DistinctKeys(CreateBookmarkData(starred, preserveTimestamps))
    ensures Keys(CreateBookmarkData(starred, preserveTimestamps))
         == ["title", "url", "notes"] + (if preserveTimestamps then ["date_added"] else [])
  {
    Names();
    var d := CreateBookmarkData(starred, preserveTimestamps);
    var ks := ["title", "url", "notes"] + (if preserveTimestamps then ["date_added"] else []);
    assert |d| == |ks|;
    forall i | 0 <= i < |d|
      ensures d[i].0 == ks[i]
    {
    }
  }

  /** The row a starred repository becomes. */
  function RepoRow(starred: StarredRepo, preserveTimestamps: bool, defaultDate: string): seq<(string, Value)>
  {
    [("title", Str(starred.repo.name)),
     ("url", Str(starred.repo.htmlUrl)),
     ("notes", ValueOf(starred.repo.description)),
     ("date_added", Str(if preserveTimestamps then starred.starredAt else defaultDate))]
  }

  /** Every starred repository passes validation, so its add inserts one row
      carrying the repository's fields. */
  lemma StarredRepoAdded(starred: StarredRepo, preserveTimestamps: bool, defaultDate: string)
    ensures AddBookmark(CreateBookmarkData(starred, preserveTimestamps), defaultDate).issued
         == [Add(BookmarksTable, RepoRow(starred, preserveTimestamps, defaultDate))]
    ensures AddBookmark(CreateBookmarkData(starred, preserveTimestamps), defaultDate).returned
         == ReturnedStr("Bookmark for " + starred.repo.name + " added!")
  {
    var d := CreateBookmarkData(starred, preserveTimestamps);
    assert Valid(d);
    var b := ParseBookmark(d, defaultDate).value;
    assert BookmarkDict(b) == RepoRow(starred, preserveTimestamps, defaultDate);
  }

  /** The adds an import of `starred` runs, in list order. */
  function ImportRuns(starred: seq<StarredRepo>, preserveTimestamps: bool, defaultDate: string): (r: seq<Execution>)
    ensures |r| == |starred|
  {
    if |starred| == 0 then []
    else
      ImportRuns(starred[..|starred| - 1], preserveTimestamps, defaultDate)
      + [AddBookmark(CreateBookmarkData(starred[|starred| - 1], preserveTimestamps), defaultDate)]
  }

  /** One more repository adds one more run. */
  lemma ImportRunsStep(starred: seq<StarredRepo>, preserveTimestamps: bool, defaultDate: string, k: nat)
    requires k < |starred|
    ensures ImportRuns(starred[..k + 1], preserveTimestamps, defaultDate)
         == ImportRuns(starred[..k], preserveTimestamps, defaultDate)
            + [AddBookmark(CreateBookmarkData(starred[k], preserveTimestamps), defaultDate)]
  {
    assert starred[..k + 1][..k] == starred[..k];
  }

  /** Each add of an import inserts its repository's row and reports it. */
  lemma {:induction false} ImportRunsAt(starred: seq<StarredRepo>, preserveTimestamps: bool, defaultDate: string, i: nat)
    requires i < |starred|
    ensures ImportRuns(starred, preserveTimestamps, defaultDate)[i].issued
         == [Add(BookmarksTable, RepoRow(starred[i], preserveTimestamps, defaultDate))]
    ensures ImportRuns(starred, preserveTimestamps, defaultDate)[i].returned
         == ReturnedStr("Bookmark for " + starred[i].repo.name + " added!")
  {
    var n := |starred| - 1;
    var prefix := ImportRuns(starred[..n], preserveTimestamps, defaultDate);
    var last := AddBookmark(CreateBookmarkData(starred[n], preserveTimestamps), defaultDate);
    assert ImportRuns(starred, preserveTimestamps, defaultDate) == prefix + [last];
    if i == n {
      StarredRepoAdded(starred[i], preserveTimestamps, defaultDate);
      assert (prefix + [last])[i] == last;
    } else {
      ImportRunsAt(starred[..n], preserveTimestamps, defaultDate, i);
      assert (prefix + [last])[i] == prefix[i];
      assert starred[..n][i] == starred[i];
    }
  }

  /** The line printed after an import: the number of starred repositories
      processed, in decimal, which reads back as that number. */
  function ImportSummary(count: nat): (m: string)
    ensures StartsWith(m, "Imported ") && EndsWith(m, " from starred repos")
    ensures |m| >= 29 && forall i | 9 <= i < |m| - 19 :: IsDigit(m[i])
    ensures DecimalValue(m[9..|m| - 19]) == count
    ensures |m| > 29 ==> m[9] != '0'
  {
    NatToStringValue(count);
    var m := "Imported " + NatToString(count) + " from starred repos";
    assert m[9..|m| - 19] == NatToString(count);
    assert m[9] == NatToString(count)[0];
    m
  }

  /** The loop of `ImportGithubStarsCommand.execute`: one add per starred
      repository, in list order. */
  method AddStarredRepos(starred: seq<StarredRepo>, preserveTimestamps: bool, defaultDate: string)
    returns (runs: seq<Execution>)
    ensures runs == ImportRuns(starred, preserveTimestamps, defaultDate)
  {
    runs := [];
    var k := 0;
    while k < |starred|
      invariant 0 <= k <= |starred|
      invariant runs == ImportRuns(starred[..k], preserveTimestamps, defaultDate)
    {
      ImportRunsStep(starred, preserveTimestamps, defaultDate, k);
      runs := runs + [AddBookmark(CreateBookmarkData(starred[k], preserveTimestamps), defaultDate)];
      k := k + 1;
    }
    assert starred[..k] == starred;
  }

  /** `ImportGithubStarsCommand.execute` after the fetch: every starred
      repository is inserted as its own row and reported added, in list
      order; then the count is printed. */
  method ImportGithubStars(request: GithubStarsRequest, starred: seq<StarredRepo>, defaultDate: string)
    returns (runs: seq<Execution>, printed: string)
    ensures |runs| == |starred|
    ensures forall i | 0 <= i < |starred| ::
              runs[i].issued == [Add(BookmarksTable, RepoRow(starred[i], request.preserveTimestamps, defaultDate))]
    ensures forall i | 0 <= i < |starred| ::
              runs[i].returned == ReturnedStr("Bookmark for " + starred[i].repo.name + " added!")
    ensures printed == ImportSummary(|starred|)
  {
    var p := request.preserveTimestamps;
    runs := AddStarredRepos(starred, p, defaultDate);
    forall i | 0 <= i < |starred|
      ensures runs[i].issued == [Add(BookmarksTable, RepoRow(starred[i], p, defaultDate))]
      ensures runs[i].returned == ReturnedStr("Bookmark for " + starred[i].repo.name + " added!")
    {
      ImportRunsAt(starred, p, defaultDate, i);
    }
    printed := ImportSummary(|starred|);
  }
}
