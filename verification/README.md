# bark: a Dafny model of the bookmark manager's core

bark is a terminal bookmark manager. A menu (bark.py) reads the user's
choice and runs one of the command objects of commands.py. Those commands
validate bookmark data with a pydantic `Bookmark` model and store it
through `DatabaseManager` (database.py), which builds SQL statements for
SQLite.

This project models that core in Dafny:

- **Database** (`database.dfy`). The statement builders `create_table`,
  `add`, `delete` and `select`. Each one turns a table name and ordered
  dicts (sequences of pairs) into the statement text and the parameter
  tuple handed to `_execute`. Each builder has a line-based parser that
  reads the text back. Round-trip lemmas connect builder and parser, so
  the contracts state which table, columns, conditions and ordering the
  text names, and in which order values are bound.
- **Commands** (`commands.dfy`). The command layer. A run of a command
  is an `Execution`: the statements it issued, plus what `execute`
  returned (`None`, a string, or a raised error). It covers:
  - the pydantic v1 validation of `Bookmark.parse_obj`, including the
    text of the `ValidationError` message;
  - adding, listing and deleting bookmarks;
  - the GitHub-stars import loop.
- **Bark** (`bark.dfy`). The menu logic:
  - the prompts, with terminal input as a sequence of lines; running out
    of lines plays the part of `EOFError`;
  - the `[Y/n]` answer;
  - the printing decision of `Option.choose`;
  - the options table that `loop` builds.
- **Support modules.** `wrappers.dfy` holds `Option`/`Result`.
  `text.dfy` holds Python's `str.join`/`str.split` with a proved split-join
  round trip, ASCII `upper`/`lower`, and decimal rendering. `assoc.dfy`
  holds insertion-ordered dicts.

Two facts about the code shape the model:

- `Bookmark` accepts an empty title or URL. Only a missing field or an
  explicit `None` is rejected (pydantic v1 `str` fields). The prompts of
  bark.py never produce an empty title or URL, but the import and the
  command layer accept one.
- `ListBookmarksCommand` cannot list anything as written (see Findings).

## Model

| member | source | states |
|---|---|---|
| Database.ColumnDefinitionsSplit | database.py:21-24 | each column's definition string splits at its first space back into the column name and its type, in dict order |
| Database.OrderClause | database.py:70 | the ordering clause is non-empty exactly when `order_by` is truthy |
| Database.CreateTable | database.py:20-30 | `create_table` binds no parameters |
| Database.CreateTableRoundTrip | database.py:20-30 | the statement text reads back as the table name and every column definition, in dict order |
| Database.Add | database.py:32-43 | `add` binds exactly the dict's values, the i-th parameter being the i-th value |
| Database.PlaceholdersShape | database.py:33 | the placeholder list is empty for no columns, else `3n-2` characters holding exactly n `?`, and reads back as n items `?` on one line |
| Database.AddRoundTrip | database.py:32-43 | the insert text reads back as the table, the dict's keys in order, and one `?` per key |
| Database.AddBindsColumnsInOrder | database.py:34-35 | zipping the column names read from the text with the parameters gives back the dict: each value is bound to its own column |
| Database.AddTextIndependentOfValues | database.py:32-43 | values never reach the insert text: dicts with equal keys give equal text |
| Database.Delete | database.py:45-54 | `delete` binds the criteria's values in order |
| Database.WhereRoundTrip | database.py:46-47 | the `AND`-joined conditions read back as the criteria keys, on one line |
| Database.DeleteRoundTrip | database.py:45-54 | the delete text reads back as the table and the criteria keys in order |
| Database.DeleteTextIndependentOfValues | database.py:45-54 | values never reach the delete text |
| Database.Select | database.py:56-73 | `select` raises exactly when `criteria` is None (line 64 iterates it); otherwise it binds the criteria's values in order |
| Database.SelectRoundTrip | database.py:56-73 | the select text reads back as the listed columns (or `*`), the criteria keys, and the ordering exactly when it is truthy |
| Database.SelectTextIndependentOfValues | database.py:56-73 | values never reach the select text |
| Database.SelectEmptyCriteriaDanglingWhere | database.py:64-69 | an empty criteria dict yields a five-line statement whose `WHERE` line has no condition |
| Database.SelectIntended | database.py:56-73 | the corrected `select` accepts missing criteria and binds the criteria's values (none when missing) in order |
| Database.SelectIntendedAgrees | database.py:56-73 | with at least one criterion the corrected `select` issues exactly the written statement |
| Database.SelectIntendedWithoutCriteria | database.py:64-70 | without criteria the corrected `select` issues the column line and the ordering line, with no `WHERE` line and no parameters |
| Commands.SchemaRoundTrip | commands.py:27-36 | the bookmarks schema statement reads back as table `bookmarks` with the five column definitions in order |
| Commands.CreateBookmarksTable | commands.py:27-36 | the command issues one parameterless statement creating `bookmarks` with the five columns, and returns None |
| Commands.RequiredField | commands.py:19-20 | a required `str` field validates exactly when present and not None, and yields its text; a failure names the field, as "field required" when the key is absent and "none is not an allowed value" when it holds None |
| Commands.DefaultedField | commands.py:22 | `date_added` takes the class-definition timestamp when absent, fails only on an explicit None, else yields its text |
| Commands.OptionalField | commands.py:21 | `notes` is None unless a string is supplied |
| Commands.FieldErrors | commands.py:18-22 | validation reports an error for title or url exactly when it is not a string, and for `date_added` exactly when it is None; no other field is reported; each error has the kind its value calls for; errors appear in declaration order, at most one per field |
| Commands.ParseBookmark | commands.py:18-22 | validation succeeds exactly when title and url are strings and `date_added` is not None; the fields carry the input or defaults; a failure carries exactly those errors, with their kinds, in declaration order |
| Commands.BookmarkDict | commands.py:43 | the dict handed to `add` has the four field names in declaration order, each bound to that field's value (`notes` as `None` when absent) |
| Commands.ValidationMessageLines | commands.py:47-48 | the returned error text has a header line and then, per error, a line naming the field and a line with pydantic's message and type |
| Commands.AddBookmark | commands.py:39-48 | valid data issues one insert into `bookmarks` of the four fields with their values (defaults applied) and returns the confirmation; invalid data issues nothing and returns the text of the validation error for exactly the errors validation found |
| Commands.AddBookmarkRejects | commands.py:42-48 | a missing or None title/url adds nothing and the returned message names that field on a line of its own |
| Commands.DefaultDateShared | commands.py:22 | every bookmark added without `date_added` gets the same timestamp: the one fixed when the class was defined |
| Commands.ListBookmarks | commands.py:51-57 | as written, listing raises before any statement is issued |
| Commands.ListBookmarksIntended | commands.py:51-57 | the corrected listing issues one parameterless select of every column of `bookmarks` followed by its ordering line |
| Commands.DefaultListingOrder | commands.py:52 | a listing built without an argument orders by `date_added` |
| Commands.DeleteBookmark | commands.py:60-63 | deleting issues one statement deleting from `bookmarks` by `id` alone with the id bound, and always reports success |
| Commands.CreateBookmarkData | commands.py:85-95 | the import's dict carries the repository's name, URL and description, and the star time exactly when timestamps are preserved |
| Commands.BookmarkDataKeys | commands.py:85-95 | that dict has distinct keys `title`, `url`, `notes`, then `date_added` only when timestamps are preserved |
| Commands.StarredRepoAdded | commands.py:100-102 | every starred repository passes validation and is inserted as its own row; its add returns the confirmation naming it |
| Commands.ImportRunsAt | commands.py:100-102 | the i-th add of an import inserts the i-th repository's row and returns the confirmation naming it |
| Commands.ImportSummary | commands.py:103 | the summary line reads `Imported <n> from starred repos` with n in decimal without leading zeros, which reads back as the count |
| Commands.AddStarredRepos | commands.py:100-102 | the loop runs one add per starred repository, in list order |
| Commands.ImportGithubStars | commands.py:97-103 | the import inserts each starred repository's row in list order, each add returning its confirmation (which `execute` discards), then prints the count |
| Bark.Answer | bark.py:41 | `input(...) or None` is None exactly for the empty line, else the line itself |
| Bark.GetUserInput | bark.py:40-44 | an optional prompt reads one line; a required one returns the first non-empty line after only empty ones, and runs out exactly when every line is empty |
| Bark.GetUserChoice | bark.py:32-38 | the choice is the option under the first line that, upper-cased, is a key; earlier lines are skipped; input runs out exactly when no line is a key |
| Bark.ChosenKeyIsUpper | bark.py:35-36 | a key matched after `upper()` is itself upper case |
| Bark.GetNewBookmarkData | bark.py:46-51 | the dict holds, under title, url and notes, the first non-empty line, the first non-empty line after it, and the answer on the line after that; input runs out exactly when no such lines exist; the dict passes validation with non-empty title and URL |
| Bark.GetDeleteBookmarkData | bark.py:53-54 | the id read is the first non-empty line, after only empty ones; input runs out exactly when every line is empty |
| Bark.PreserveAnswerIff | bark.py:74-75 | timestamps are preserved exactly for the answers `y` and `Y`; the empty answer declines |
| Bark.PreserveAnswerIntendedIff | bark.py:74-75 | the corrected reading also accepts the empty answer and agrees with the written one on every non-empty answer |
| Bark.GetGithubStarsData | bark.py:64-76 | two lines are read: the username verbatim, and the preserve flag true exactly for `y`/`Y` |
| Bark.Choose | bark.py:14-23 | a successful list result is pretty-printed; other successes print the success message when truthy; failures print the error when truthy; no response prints nothing |
| Bark.ChooseNeverMixes | bark.py:17-23 | a list result is never replaced by the success message, and a failure without an error prints nothing |
| Bark.BuildOptions | bark.py:84-92 | building the options dict succeeds exactly when every command class exists, and otherwise fails on the first missing class |
| Bark.MenuFailsAsWritten | bark.py:89 | as written, building the menu fails on `EditBookmarkCommand`, which the commands module does not define |
| Bark.MenuWithEditCommand | bark.py:84-92 | with that class defined, the menu builds as listed |
| Bark.OptionsKeys | bark.py:84-92 | the menu keys are A, B, T, D, E, G, Q: distinct and upper case, so each can be chosen |
| Bark.ListingLabelsSwapped | bark.py:86-87 | as written, option B (labelled by date) sorts by title and option T (labelled by title) sorts by date |
| Bark.IntendedOptionsMatchLabels | bark.py:86-87 | in the corrected table every listing sorts by the column its label names, and every other option is unchanged |

## Left out

- SQLite execution: `_execute`, the connection and the cursor are not modelled. A command's effect is the statement text and parameters it hands over.
- Results of `select`, such as `fetchall` and `pprint` in `ListBookmarksCommand`, are not modelled, since no row data exists in the model.
- `_get_starred_repos` is not modelled because it is HTTP, environment and pagination work. The starred repositories are a parameter of `Commands.ImportGithubStars`.
- Commands.ImportGithubStars: the username is carried in the request but unused. `_get_starred_repos` ignores its argument and always requests `user/starred`, the stars of the token's owner (commands.py:73-78), so the import is not per user.
- `QuitCommand` is not modelled; it only calls `sys.exit`.
- `get_update_bookmark_data` is not modelled. It only feeds the edit option, whose command class does not exist.
- `print_options`, `clear_screen`, the "Press ENTER" pause and the `__main__` loop are not modelled; they are terminal I/O with no logic.
- The clock: `Bookmark.date_added`'s default is evaluated once, when the class is defined. It appears as the parameter `defaultDate`.
- Python's `str.upper`/`str.lower` are modelled on ASCII letters only. Unicode case mapping is not.
- Commands.ValidationMessageLines: only the pydantic 1.x message layout for the two error kinds that can occur is modelled, not pydantic's general formatting.
- Bark.Choose: it is modelled over a `ResponseCommand` as declared. The commands actually return a string (add, delete) or None (create, import). A string has no `.status`, so `choose` would raise on it; a None prints nothing. That interaction is not modelled.
- `Option.choose` passes the prepared data to `execute` as one argument even when there is none. `ListBookmarksCommand.execute` and `QuitCommand.execute` take no argument (commands.py:55, 66), so options B, T and Q would raise `TypeError` there. The model treats each command's `execute` on its own terms instead.
- `Option` declares `command` with the plain class `commands.Command` (bark.py:10). pydantic 1.x normally refuses such a field type unless arbitrary types are allowed, which would stop bark.py as soon as `Option` is defined. The model assumes the class is accepted and models the menu logic behind it.
- Database.CreateTableRoundTrip, Database.AddRoundTrip, Database.DeleteRoundTrip and Database.SelectRoundTrip: the round trips hold only for inputs that every caller in the program supplies, because other text would be ambiguous when read back. The exact assumptions are:
  - the table name, every `add` key and every criteria key is an identifier (letters, digits and `_`);
  - `CreateTableRoundTrip` also needs every column definition to be free of commas and newlines, so a type such as `NUMERIC(10, 2)` is not covered;
  - `SelectRoundTrip` needs each listed column to be non-empty and free of commas and newlines (not necessarily an identifier), and `order_by` to be free of newlines.
- Models and types outside the used fields (`models/app.py`, `pydantic_types.py`, `persistence.py`) are not modelled; the core does not use them.

## Findings

| source | as written | input that shows it | evidently intended | confidence | as-written member | corrected member |
|---|---|---|---|---|---|---|
| database.py:64 | `select` iterates `criteria` even when it is None, and an empty dict leaves `WHERE` with no condition | `ListBookmarksCommand().execute()`, which calls `select` with no criteria | no criteria selects every row, with no `WHERE` line | high, not executed | Commands.ListBookmarks | Commands.ListBookmarksIntended |
| database.py:69 | an empty criteria dict yields a bare `WHERE` line | `select("bookmarks", criteria={})` | the `WHERE` line appears only with a condition | high, not executed | Database.SelectEmptyCriteriaDanglingWhere | Database.SelectIntendedWithoutCriteria |
| bark.py:89 | the menu instantiates `commands.EditBookmarkCommand`, which is not defined | any call of `loop()` | an edit command exists and the menu builds | high, not executed | Bark.MenuFailsAsWritten | Bark.MenuWithEditCommand |
| bark.py:86-87 | "List bookmarks by date" sorts by `title` and "List bookmarks by title" sorts by `date_added` | choosing `B` | each listing sorts by the column its label names | high, not executed | Bark.ListingLabelsSwapped | Bark.IntendedOptionsMatchLabels |
| bark.py:74-75 | the `[Y/n]` prompt treats an empty answer as no | pressing ENTER at "Preserve timestamps [Y/n]" | an empty answer takes the capitalised default, yes | medium, not executed | Bark.PreserveAnswerIff | Bark.PreserveAnswerIntendedIff |
