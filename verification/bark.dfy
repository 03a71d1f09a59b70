/** The terminal front end (bark.py): the menu table, the prompts that read
    the user's answers, and what `Option.choose` prints for a command's
    response. Terminal input is a sequence of lines; running out of lines is
    Python's `EOFError`. */
module Bark {
  import opened Wrappers
  import opened Text
  import opened Assoc
  import opened Database
  import opened Commands

  // ---------------------------------------------------------------------
  // Reading from the terminal

  /** The outcome of a prompt: a value and the number of lines it read, or
      the input ran out first. */
  datatype Read<T> = Got(value: T, consumed: nat) | EndOfInput

  /** A prompt's answer: an empty line reads as no answer (`None`). */
  function Answer(line: string): (r: Option<string>)
    ensures r.None? <==> line == ""
    ensures r.Some? ==> r.value == line
  {
    if line == "" then None else Some(line)
  }

  /** `get_user_input`: a required prompt repeats until it reads a non-empty
      line; an optional one reads exactly one line. */
  method GetUserInput(inputs: seq<string>, required: bool) returns (r: Read<Option<string>>)
    ensures !required ==> r == (if |inputs| == 0 then EndOfInput else Got(Answer(inputs[0]), 1))
    ensures required && r.Got? ==>
              1 <= r.consumed <= |inputs|
              && inputs[r.consumed - 1] != "" && r.value == Some(inputs[r.consumed - 1])
              && forall j | 0 <= j < r.consumed - 1 :: inputs[j] == ""
    ensures required ==> (r.EndOfInput? <==> forall j | 0 <= j < |inputs| :: inputs[j] == "")
  {
    if |inputs| == 0 {
      return EndOfInput;
    }
    var value := Answer(inputs[0]);
    var k := 1;
    while required && value.None?
      invariant 1 <= k <= |inputs| && (!required ==> k == 1)
      invariant value == Answer(inputs[k - 1])
      invariant forall j | 0 <= j < k - 1 :: inputs[j] == ""
      decreases |inputs| - k
    {
      if k == |inputs| {
        return EndOfInput;
      }
      value := Answer(inputs[k]);
      k := k + 1;
    }
    return Got(value, k);
  }

  /** `get_user_choice`: reads lines until one, upper-cased, is a key of the
      options; lines that are not are skipped. */
  method GetUserChoice<T>(options: seq<(string, T)>, inputs: seq<string>) returns (r: Read<T>)
    ensures r.Got? ==>
              1 <= r.consumed <= |inputs|
              && Get(options, Upper(inputs[r.consumed - 1])) == Some(r.value)
              && forall j | 0 <= j < r.consumed - 1 :: Get(options, Upper(inputs[j])).None?
    ensures r.Got? ==> exists i | 0 <= i < |options| :: options[i] == (Upper(inputs[r.consumed - 1]), r.value)
    ensures r.EndOfInput? <==> forall j | 0 <= j < |inputs| :: Get(options, Upper(inputs[j])).None?
  {
    var k := 0;
    while k < |inputs|
      invariant 0 <= k <= |inputs|
      invariant forall j | 0 <= j < k :: Get(options, Upper(inputs[j])).None?
    {
      var found := Get(options, Upper(inputs[k]));
      if found.Some? {
        return Got(found.value, k + 1);
      }
      k := k + 1;
    }
    return EndOfInput;
  }

  /** Every key a choice can match is upper case, so an option stored under
      a lower-case key can never be chosen. */
  lemma ChosenKeyIsUpper(key: string, line: string)
    requires key == Upper(line)
    ensures Upper(key) == key
  {
    UpperIdempotent(line);
  }

  /** Where the three answers of the new-bookmark prompts lie: the title at
      line `t`, the first non-empty line; the URL at line `u`, the first
      non-empty line after it; the notes on the line right after the URL. */
  predicate PromptLines(inputs: seq<string>, t: int, u: int)
  {
    && 0 <= t < u < |inputs| - 1
    && inputs[t] != "" && inputs[u] != ""
    && (forall j | 0 <= j < t :: inputs[j] == "")
    && (forall j | t < j < u :: inputs[j] == "")
  }

  /** The answer lines are determined by the input. */
  lemma PromptLinesUnique(inputs: seq<string>, t: int, u: int, t': int, u': int)
    requires PromptLines(inputs, t, u) && PromptLines(inputs, t', u')
    ensures t == t' && u == u'
  {
  }

  /** `get_new_bookmark_data`: title and URL are required, notes optional;
      the dict holds the answers read, in prompt order. */
  method GetNewBookmarkData(inputs: seq<string>) returns (r: Read<BookmarkData>)
    ensures r.Got? ==>
              exists t, u ::
                && PromptLines(inputs, t, u)
                && r.consumed == u + 2
                && r.value == [("title", Some(inputs[t])), ("url", Some(inputs[u])), ("notes", Answer(inputs[u + 1]))]
    ensures r.EndOfInput? ==> forall t, u :: !PromptLines(inputs, t, u)
    ensures r.Got? ==> Keys(r.value) == ["title", "url", "notes"]
    ensures r.Got? ==> Valid(r.value)
    ensures r.Got? ==> SuppliedText(r.value, "title") != "" && SuppliedText(r.value, "url") != ""
  {
    var title := GetUserInput(inputs, true);
    if title.EndOfInput? {
      return EndOfInput;
    }
    var t := title.consumed - 1;
    var rest := inputs[title.consumed..];
    var url := GetUserInput(rest, true);
    if url.EndOfInput? {
      forall j | t < j < |inputs| ensures inputs[j] == "" {
        assert inputs[j] == rest[j - title.consumed];
      }
      return EndOfInput;
    }
    var u := title.consumed + url.consumed - 1;
    assert inputs[u] == rest[url.consumed - 1];
    forall j | t < j < u ensures inputs[j] == "" {
      assert inputs[j] == rest[j - title.consumed];
    }
    var notes := GetUserInput(rest[url.consumed..], false);
    if notes.EndOfInput? {
      assert u + 1 >= |inputs|;
      return EndOfInput;
    }
    assert rest[url.consumed..][0] == inputs[u + 1];
    assert PromptLines(inputs, t, u);
    var data := [("title", title.value), ("url", url.value), ("notes", notes.value)];
    PromptedDataLookups(data);
    return Got(data, title.consumed + url.consumed + notes.consumed);
  }

  /** Lookups in the dict the bookmark prompts build. */
  lemma PromptedDataLookups(data: BookmarkData)
    requires |data| == 3 && data[0].0 == "title" && data[1].0 == "url" && data[2].0 == "notes"
    ensures Keys(data) == ["title", "url", "notes"]
    ensures Get(data, "title") == Some(data[0].1)
    ensures Get(data, "url") == Some(data[1].1)
    ensures Get(data, "date_added") == None
  {
    Names();
    assert DistinctKeys(data);
    GetAt(data, 0);
    GetAt(data, 1);
  }

  /** `get_delete_bookmark_data`: a required prompt, so never empty. */
  method GetDeleteBookmarkData(inputs: seq<string>) returns (r: Read<string>)
    ensures r.Got? ==> 1 <= r.consumed <= |inputs| && r.value == inputs[r.consumed - 1] && r.value != ""
    ensures r.Got? ==> forall j | 0 <= j < r.consumed - 1 :: inputs[j] == ""
    ensures r.EndOfInput? <==> forall j | 0 <= j < |inputs| :: inputs[j] == ""
  {
    var id := GetUserInput(inputs, true);
    if id.EndOfInput? {
      return EndOfInput;
    }
    return Got(id.value.value, id.consumed);
  }

  /** The written reading of the timestamps answer: it is preserved when the
      answer, lower-cased, is the single letter `y`. */
  predicate PreserveAnswer(answer: string)
  {
    Lower(answer) == "y"
  }

  /** Timestamps are preserved exactly for the answers `y` and `Y`; in
      particular the empty answer declines, though the prompt shows `[Y/n]`. */
  lemma PreserveAnswerIff(answer: string)
    ensures PreserveAnswer(answer) <==> answer == "y" || answer == "Y"
    ensures !PreserveAnswer("")
  {
    if |answer| == 1 {
      LowerCharIsY(answer[0]);
      assert Lower(answer) == [LowerChar(answer[0])];
    }
    assert |Lower("")| == 0;
  }

  /** The `[Y/n]` convention: an empty answer takes the capitalised default. */
  predicate PreserveAnswerIntended(answer: string)
  {
    answer == "" || Lower(answer) == "y"
  }

  /** The intended reading accepts `y`, `Y` and the empty answer, and agrees
      with the written one on every non-empty answer. */
  lemma PreserveAnswerIntendedIff(answer: string)
    ensures PreserveAnswerIntended(answer) <==> answer == "" || answer == "y" || answer == "Y"
    ensures answer != "" ==> (PreserveAnswerIntended(answer) <==> PreserveAnswer(answer))
    ensures PreserveAnswerIntended("") && !PreserveAnswer("")
  {
    PreserveAnswerIff(answer);
  }

  /** `get_github_stars_data`: a username line, then the `[Y/n]` line. */
  function GetGithubStarsData(inputs: seq<string>): (r: Read<GithubStarsRequest>)
    ensures r.Got? <==> |inputs| >= 2
    ensures r.Got? ==> r.consumed == 2 && r.value.username == inputs[0]
    ensures r.Got? ==> (r.value.preserveTimestamps <==> inputs[1] == "y" || inputs[1] == "Y")
  {
    if |inputs| < 2 then EndOfInput
    else
      PreserveAnswerIff(inputs[1]);
      Got(GithubStarsRequest(inputs[0], PreserveAnswer(inputs[1])), 2)
  }

  // ---------------------------------------------------------------------
  // Option.choose

  type Row = seq<Value>

  /** `ResponseCommand`: `result` is either a list or `None`. */
  datatype ResponseCommand = ResponseCommand(status: bool, result: Option<seq<Row>>, error: Option<string>)

  /** What `choose` writes after the command ran. */
  datatype Shown = PrettyPrinted(rows: seq<Row>) | Printed(line: string) | Silent

  /** The success message of an option built without one. */
  const DefaultSuccessMessage: Option<string> := Some("Success!")

  /** The printing decision of `Option.choose` for a command's response. */
  function Choose(response: Option<ResponseCommand>, successMessage: Option<string>): (r: Shown)
    ensures r.PrettyPrinted? <==> response.Some? && response.value.status && response.value.result.Some?
    ensures r.PrettyPrinted? ==> r.rows == response.value.result.value
    ensures (r.Printed? && response.Some? && response.value.status)
        <==> (response.Some? && response.value.status && response.value.result.None? && Truthy(successMessage))
    ensures r.Printed? && response.Some? && response.value.status ==> r.line == successMessage.value
    ensures (r.Printed? && !(response.Some? && response.value.status))
        <==> (response.Some? && !response.value.status && Truthy(response.value.error))
    ensures r.Printed? && !(response.Some? && response.value.status) ==> r.line == response.value.error.value
    ensures response.None? ==> r == Silent
  {
    if response.Some? && response.value.status then
      if response.value.result.Some? then PrettyPrinted(response.value.result.value)
      else if Truthy(successMessage) then Printed(successMessage.value)
      else Silent
    else if response.Some? && Truthy(response.value.error) then Printed(response.value.error.value)
    else Silent
  }

  /** A list result is shown instead of the success message, and a failed
      response never shows the success message. */
  lemma ChooseNeverMixes(response: ResponseCommand, successMessage: Option<string>)
    requires Truthy(successMessage)
    ensures response.result.Some? && response.status ==> Choose(Some(response), successMessage) != Printed(successMessage.value)
    ensures !response.status && !Truthy(response.error) ==> Choose(Some(response), successMessage) == Silent
  {
  }

  // ---------------------------------------------------------------------
  // The options table of `loop`

  /** The command object an option runs. */
  datatype CommandKind =
    | AddCommand
    | ListCommand(orderBy: Option<string>)
    | DeleteCommand
    | EditCommand
    | ImportStarsCommand
    | QuitCommand

  /** The function an option calls to read its command's input. */
  datatype PrepCall = NoPrep | NewBookmarkPrompt | DeletePrompt | UpdatePrompt | GithubStarsPrompt

  datatype MenuOption = MenuOption(name: string, command: CommandKind, prep: PrepCall, successMessage: Option<string>)

  /** The class of the `commands` module each option instantiates. */
  function CommandClass(k: CommandKind): string
  {
    match k
    case AddCommand => "AddBookmarkCommand"
    case ListCommand(_) => "ListBookmarksCommand"
    case DeleteCommand => "DeleteBookmarkCommand"
    case EditCommand => "EditBookmarkCommand"
    case ImportStarsCommand => "ImportGithubStarsCommand"
    case QuitCommand => "QuitCommand"
  }

  /** The command classes the `commands` module defines. */
  const DefinedCommands: set<string> :=
    {"CreateBookmarksTableCommand", "AddBookmarkCommand", "ListBookmarksCommand",
     "DeleteBookmarkCommand", "QuitCommand", "ImportGithubStarsCommand"}

  /** The dict literal of `loop`, entry by entry. */
  const Options: seq<(string, MenuOption)> :=
    [("A", MenuOption("Add a bookmark", AddCommand, NewBookmarkPrompt, Some("Bookmark added!"))),
     ("B", MenuOption("List bookmarks by date", ListCommand(Some("title")), NoPrep, DefaultSuccessMessage)),
     ("T", MenuOption("List bookmarks by title", ListCommand(Some("date_added")), NoPrep, DefaultSuccessMessage)),
     ("D", MenuOption("Delete a bookmark", DeleteCommand, DeletePrompt, Some("Bookmark deleted!"))),
     ("E", MenuOption("Edit a bookmark", EditCommand, UpdatePrompt, Some("Bookmark updated!"))),
     ("G", MenuOption("Import Github stars", ImportStarsCommand, GithubStarsPrompt, Some("Github starts imported!"))),
     ("Q", MenuOption("Quit", QuitCommand, NoPrep, DefaultSuccessMessage))]

  /** Evaluating the dict literal: entries are built in order, and the
      first one naming a class the module lacks raises `AttributeError`. */
  function BuildOptions(entries: seq<(string, MenuOption)>, defined: set<string>): (r: Result<seq<(string, MenuOption)>, string>)
    ensures r.Success? <==> forall i | 0 <= i < |entries| :: CommandClass(entries[i].1.command) in defined
    ensures r.Success? ==> r.value == entries
    ensures r.Failure? ==>
              exists i | 0 <= i < |entries| ::
                r.error == CommandClass(entries[i].1.command) && r.error !in defined
                && forall j | 0 <= j < i :: CommandClass(entries[j].1.command) in defined
  {
    if |entries| == 0 then Success([])
    else if CommandClass(entries[0].1.command) !in defined then Failure(CommandClass(entries[0].1.command))
    else
      match BuildOptions(entries[1..], defined)
      case Success(rest) =>
        assert entries == [entries[0]] + entries[1..];
        Success([entries[0]] + rest)
      case Failure(e) =>
        var i :| 0 <= i < |entries[1..]| && e == CommandClass(entries[1..][i].1.command) && e !in defined
                 && forall j | 0 <= j < i :: CommandClass(entries[1..][j].1.command) in defined;
        assert forall j | 0 <= j < i + 1 :: CommandClass(entries[j].1.command) in defined by {
          forall j | 0 <= j < i + 1 ensures CommandClass(entries[j].1.command) in defined {
            if j > 0 { assert entries[j] == entries[1..][j - 1]; }
          }
        }
        Failure(e)
  }

  /** As written, building the menu fails on the edit option: `commands`
      has no `EditBookmarkCommand`, so every pass of `loop` raises before
      the menu is shown. */
  lemma MenuFailsAsWritten()
    ensures BuildOptions(Options, DefinedCommands) == Failure("EditBookmarkCommand")
  {
    var r := BuildOptions(Options, DefinedCommands);
    assert "EditBookmarkCommand" !in DefinedCommands;
    assert CommandClass(Options[4].1.command) !in DefinedCommands;
    assert r.Failure?;
    var i :| 0 <= i < |Options| && r.error == CommandClass(Options[i].1.command) && r.error !in DefinedCommands
             && forall j | 0 <= j < i :: CommandClass(Options[j].1.command) in DefinedCommands;
    assert i == 4 by {
      assert CommandClass(Options[0].1.command) in DefinedCommands;
      assert CommandClass(Options[1].1.command) in DefinedCommands;
      assert CommandClass(Options[2].1.command) in DefinedCommands;
      assert CommandClass(Options[3].1.command) in DefinedCommands;
    }
  }

  /** With an `EditBookmarkCommand` class the menu builds as listed. */
  lemma MenuWithEditCommand()
    ensures BuildOptions(Options, DefinedCommands + {"EditBookmarkCommand"}) == Success(Options)
  {
    forall i | 0 <= i < |Options|
      ensures CommandClass(Options[i].1.command) in DefinedCommands + {"EditBookmarkCommand"}
    {
    }
  }

  /** The table's keys, in order: one upper-case letter per option. */
  const OptionKeys: seq<string> := ["A", "B", "T", "D", "E", "G", "Q"]

  /** Each key of the table is the letter at its position in `ABTDEGQ`. */
  lemma OptionsKeyLetters()
    ensures forall i | 0 <= i < |Options| :: |Options[i].0| == 1 && Options[i].0[0] == "ABTDEGQ"[i]
  {
    forall i | 0 <= i < |Options|
      ensures |Options[i].0| == 1 && Options[i].0[0] == "ABTDEGQ"[i]
    {
    }
  }

  /** The keys are distinct upper-case letters, so every option can be
      chosen and a line picks at most one. */
  lemma OptionsKeys()
    ensures Keys(Options) == OptionKeys
    ensures DistinctKeys(Options)
    ensures forall i | 0 <= i < |Options| :: Upper(Options[i].0) == Options[i].0
  {
    OptionsKeyLetters();
    forall i, j | 0 <= i < j < |Options|
      ensures Options[i].0 != Options[j].0
    {
      assert Options[i].0[0] != Options[j].0[0];
    }
    forall i | 0 <= i < |Options|
      ensures Upper(Options[i].0) == Options[i].0
    {
      assert Upper(Options[i].0)[0] == UpperChar(Options[i].0[0]);
    }
  }

  /** The sort column a listing label announces. */
  function AnnouncedOrder(name: string): Option<string>
  {
    if name == "List bookmarks by date" then Some("date_added")
    else if name == "List bookmarks by title" then Some("title")
    else None
  }

  /** A listing option sorts by the column its label announces. */
  predicate LabelMatchesOrder(o: MenuOption)
  {
    o.command.ListCommand? ==> o.command.orderBy == AnnouncedOrder(o.name)
  }

  /** As written, both listing options sort by the column the other one
      announces. */
  lemma ListingLabelsSwapped()
    ensures Get(Options, "B") == Some(Options[1].1) && Options[1].1.command == ListCommand(Some("title"))
    ensures Get(Options, "T") == Some(Options[2].1) && Options[2].1.command == ListCommand(Some("date_added"))
    ensures AnnouncedOrder(Options[1].1.name) == Some("date_added") && !LabelMatchesOrder(Options[1].1)
    ensures AnnouncedOrder(Options[2].1.name) == Some("title") && !LabelMatchesOrder(Options[2].1)
  {
    OptionsKeys();
    GetAt(Options, 1);
    GetAt(Options, 2);
  }

  /** The table with each listing sorted as its label says. */
  const IntendedOptions: seq<(string, MenuOption)> :=
    Options[1 := ("B", MenuOption("List bookmarks by date", ListCommand(Some("date_added")), NoPrep, DefaultSuccessMessage))]
           [2 := ("T", MenuOption("List bookmarks by title", ListCommand(Some("title")), NoPrep, DefaultSuccessMessage))]

  /** In the intended table every option keeps its key and every listing
      sorts by the column it announces. */
  lemma IntendedOptionsMatchLabels()
    ensures Keys(IntendedOptions) == Keys(Options)
    ensures forall i | 0 <= i < |IntendedOptions| :: LabelMatchesOrder(IntendedOptions[i].1)
    ensures forall i | 0 <= i < |Options| && !Options[i].1.command.ListCommand? :: IntendedOptions[i] == Options[i]
  {
  }
}
