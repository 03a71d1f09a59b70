/** The statement builders of `DatabaseManager` (database.py): each turns a
    table name and ordered column / criteria dicts into SQL text plus a
    parameter tuple. The store itself is not modelled: a builder's result is
    the `Statement` it hands to `_execute`. Each builder has a parser that
    reads its text back line by line, and round-trip lemmas tie the two. */
module Database {
  import opened Wrappers
  import opened Text
  import opened Assoc

  /** A bound parameter: Python `None` or a string (the only values the
      program ever binds). */
  datatype Value = Null | Str(s: string)

  /** What `_execute` receives: the statement text and the parameter tuple. */
  datatype Statement = Statement(text: string, params: seq<Value>)

  /** The `TypeError` Python raises when `select` iterates `criteria=None`. */
  datatype DbError = NoneNotIterable

  /** The indentation that the triple-quoted templates carry on each line. */
  const Indent8: string := "        "
  const Indent12: string := "            "

  predicate IdentifierChar(c: char)
  {
    'a' <= c <= 'z' || 'A' <= c <= 'Z' || '0' <= c <= '9' || c == '_'
  }

  /** A plain SQL identifier, as every table and column name in the program is. */
  predicate Identifier(s: string)
  {
    |s| > 0 && forall i | 0 <= i < |s| :: IdentifierChar(s[i])
  }

  lemma IdentifierLacks(s: string)
    requires Identifier(s)
    ensures Lacks(s, ',') && Lacks(s, '\n') && Lacks(s, ' ')
  {
  }

  /** Every key of `d` is an identifier. */
  predicate IdentifierKeys<V>(d: seq<(string, V)>)
  {
    forall i | 0 <= i < |d| :: Identifier(d[i].0)
  }

  // ---------------------------------------------------------------------
  // Fragments

  /** One definition per column, in dict order: the column name, a space,
      then its type and constraints. */
  function ColumnDefinitions(columns: seq<(string, string)>): (r: seq<string>)
    ensures |r| == |columns|
    ensures forall i | 0 <= i < |columns| :: r[i] == columns[i].0 + " " + columns[i].1
  {
    seq(|columns|, i requires 0 <= i < |columns| => columns[i].0 + " " + columns[i].1)
  }

  /** `n` one-character strings `"?"`. */
  function QuestionMarks(n: nat): (r: seq<string>)
    ensures |r| == n && forall i | 0 <= i < n :: r[i] == "?"
  {
    seq(n, _ => "?")
  }

  /** The placeholder list of an insert: one `?` per column, separated by a
      comma and a space (joining a string joins its characters). */
  function Placeholders(n: nat): string
  {
    Join(", ", Chars(Repeat('?', n)))
  }

  /** One equality test against a bound parameter per key, in order. */
  function Conditions(keys: seq<string>): (r: seq<string>)
    ensures |r| == |keys| && forall i | 0 <= i < |keys| :: r[i] == keys[i] + " = ?"
  {
    seq(|keys|, i requires 0 <= i < |keys| => keys[i] + " = ?")
  }

  /** The conditions joined by `AND`. */
  function WhereClause(keys: seq<string>): string
  {
    Join(" AND ", Conditions(keys))
  }

  /** The clause emitted for `order_by`: empty unless `order_by` is truthy. */
  function OrderClause(orderBy: Option<string>): (r: string)
    ensures r != "" <==> Truthy(orderBy)
  {
    if Truthy(orderBy) then "ORDER BY " + orderBy.value else ""
  }

  /** The columns `select` lists: `*` when none (or an empty list) are given. */
  function SelectedColumns(columns: Option<seq<string>>): seq<string>
  {
    if columns.None? || columns.value == [] then ["*"] else columns.value
  }

  /** The selected columns separated by a comma and a space. */
  function SelectColumns(columns: Option<seq<string>>): string
  {
    Join(", ", SelectedColumns(columns))
  }

  // ---------------------------------------------------------------------
  // The triple-quoted f-string templates, one per builder

  // Each template is listed line by line; the text is those lines joined by
  // newlines. The first line is empty because every template opens with a
  // newline, and the last holds the indentation before the closing quotes.

  function CreateTableLines(table: string, body: string): seq<string>
  {
    ["", Indent8 + "CREATE TABLE IF NOT EXISTS " + table + " (", Indent12 + body, Indent8 + ")", Indent8]
  }

  function CreateTableTemplate(table: string, body: string): string
  {
    Join("\n", CreateTableLines(table, body))
  }

  function InsertLines(table: string, cols: string, ph: string): seq<string>
  {
    ["", Indent12 + "INSERT INTO " + table, Indent12 + "(" + cols + ")",
     Indent12 + "VALUES (" + ph + ")", Indent12]
  }

  function InsertTemplate(table: string, cols: string, ph: string): string
  {
    Join("\n", InsertLines(table, cols, ph))
  }

  function DeleteLines(table: string, w: string): seq<string>
  {
    ["", Indent12 + "DELETE FROM " + table, Indent12 + "WHERE " + w, Indent12]
  }

  function DeleteTemplate(table: string, w: string): string
  {
    Join("\n", DeleteLines(table, w))
  }

  function SelectLines(cols: string, table: string, w: string, o: string): seq<string>
  {
    ["", Indent12 + "SELECT " + cols + " FROM " + table, Indent12 + "WHERE " + w, Indent12 + o, Indent12]
  }

  function SelectTemplate(cols: string, table: string, w: string, o: string): string
  {
    Join("\n", SelectLines(cols, table, w, o))
  }

  // ---------------------------------------------------------------------
  // Builders

  /** `create_table` (database.py:20-30). No parameters are bound. */
  function CreateTable(table: string, columns: seq<(string, string)>): (s: Statement)
    ensures s.params == []
  {
    Statement(CreateTableTemplate(table, Join(", ", ColumnDefinitions(columns))), [])
  }

  /** `add` (database.py:32-43). The i-th parameter is the i-th value of `data`. */
  function Add(table: string, data: seq<(string, Value)>): (s: Statement)
    ensures |s.params| == |data|
    ensures forall i | 0 <= i < |data| :: s.params[i] == data[i].1
  {
    Statement(InsertTemplate(table, Join(", ", Keys(data)), Placeholders(|data|)), Values(data))
  }

  /** `delete` (database.py:45-54). The i-th parameter is the i-th criterion's value. */
  function Delete(table: string, criteria: seq<(string, Value)>): (s: Statement)
    ensures |s.params| == |criteria|
    ensures forall i | 0 <= i < |criteria| :: s.params[i] == criteria[i].1
  {
    Statement(DeleteTemplate(table, WhereClause(Keys(criteria))), Values(criteria))
  }

  /** `select` (database.py:56-73): fails when `criteria` is None, because
      the comprehension at line 64 iterates it. The method itself returns
      None; the model returns the statement it issues. */
  function Select(table: string, columns: Option<seq<string>>,
                  criteria: Option<seq<(string, Value)>>, orderBy: Option<string>)
    : (r: Result<Statement, DbError>)
    ensures r.Failure? <==> criteria.None?
    ensures r.Success? ==> |r.value.params| == |criteria.value|
    ensures r.Success? ==> forall i | 0 <= i < |criteria.value| :: r.value.params[i] == criteria.value[i].1
  {
    var selectColumns := SelectColumns(columns);
    if criteria.None? then Failure(NoneNotIterable)
    else
      Success(Statement(
        SelectTemplate(selectColumns, table, WhereClause(Keys(criteria.value)), OrderClause(orderBy)),
        Values(criteria.value)))
  }

  // ---------------------------------------------------------------------
  // Parsers: read a statement text back

  function StripPrefix(s: string, p: string): (r: Option<string>)
    ensures r.Some? <==> StartsWith(s, p)
    ensures r.Some? ==> s == p + r.value
  {
    if StartsWith(s, p) then Some(s[|p|..]) else None
  }

  function StripSuffix(s: string, p: string): (r: Option<string>)
    ensures r.Some? <==> EndsWith(s, p)
    ensures r.Some? ==> s == r.value + p
  {
    if EndsWith(s, p) then Some(s[..|s| - |p|]) else None
  }

  /** The items of a `", "`-joined list; the empty string has none. */
  function ParseList(s: string): seq<string>
  {
    if s == "" then [] else Split(s, ", ")
  }

  /** A column definition split at its first space into the column name and
      the rest; None when it holds no space. */
  function SplitDefinition(d: string): Option<(string, string)>
  {
    if |d| == 0 then None
    else if d[0] == ' ' then Some(("", d[1..]))
    else
      match SplitDefinition(d[1..])
      case None => None
      case Some(p) => Some(([d[0]] + p.0, p.1))
  }

  /** The column of each `"<column> = ?"` condition, or None if one is malformed. */
  function ConditionKeys(parts: seq<string>): (r: Option<seq<string>>)
    ensures r.Some? ==> |r.value| == |parts|
  {
    if |parts| == 0 then Some([])
    else
      match StripSuffix(parts[0], " = ?")
      case None => None
      case Some(k) =>
        match ConditionKeys(parts[1..])
        case None => None
        case Some(ks) => Some([k] + ks)
  }

  /** The columns of a `WHERE` clause body. */
  function ParseWhere(s: string): Option<seq<string>>
  {
    if s == "" then Some([]) else ConditionKeys(Split(s, " AND "))
  }

  /** Table name and column definitions of a `CREATE TABLE` text. */
  function ParseCreateTable(text: string): Option<(string, seq<string>)>
  {
    var ls := Split(text, "\n");
    if |ls| != 5 || ls[0] != "" || ls[3] != Indent8 + ")" || ls[4] != Indent8 then None
    else
      match StripPrefix(ls[1], Indent8 + "CREATE TABLE IF NOT EXISTS ")
      case None => None
      case Some(l1) =>
        match (StripSuffix(l1, " ("), StripPrefix(ls[2], Indent12))
        case (Some(table), Some(body)) => Some((table, ParseList(body)))
        case _ => None
  }

  /** Table name, columns and placeholders of an `INSERT` text. */
  function ParseInsert(text: string): Option<(string, seq<string>, seq<string>)>
  {
    var ls := Split(text, "\n");
    if |ls| != 5 || ls[0] != "" || ls[4] != Indent12 then None
    else
      match StripPrefix(ls[1], Indent12 + "INSERT INTO ")
      case None => None
      case Some(table) =>
        match (StripPrefix(ls[2], Indent12 + "("), StripPrefix(ls[3], Indent12 + "VALUES ("))
        case (Some(l2), Some(l3)) =>
          (match (StripSuffix(l2, ")"), StripSuffix(l3, ")"))
           case (Some(cols), Some(ph)) => Some((table, ParseList(cols), ParseList(ph)))
           case _ => None)
        case _ => None
  }

  /** Table name and criteria columns of a `DELETE` text. */
  function ParseDelete(text: string): Option<(string, seq<string>)>
  {
    var ls := Split(text, "\n");
    if |ls| != 4 || ls[0] != "" || ls[3] != Indent12 then None
    else
      match (StripPrefix(ls[1], Indent12 + "DELETE FROM "), StripPrefix(ls[2], Indent12 + "WHERE "))
      case (Some(table), Some(w)) =>
        (match ParseWhere(w)
         case Some(keys) => Some((table, keys))
         case None => None)
      case _ => None
  }

  /** The ordering column of the `ORDER BY` line, None when the line is empty. */
  function ParseOrder(s: string): Option<Option<string>>
  {
    if s == "" then Some(None)
    else
      match StripPrefix(s, "ORDER BY ")
      case Some(o) => Some(Some(o))
      case None => None
  }

  /** Selected columns, criteria columns and ordering of a `SELECT` text on `table`. */
  function ParseSelect(text: string, table: string)
    : Option<(seq<string>, seq<string>, Option<string>)>
  {
    var ls := Split(text, "\n");
    if |ls| != 5 || ls[0] != "" || ls[4] != Indent12 then None
    else
      match (StripPrefix(ls[1], Indent12 + "SELECT "), StripPrefix(ls[2], Indent12 + "WHERE "),
             StripPrefix(ls[3], Indent12))
      case (Some(l1), Some(w), Some(o)) =>
        (match (StripSuffix(l1, " FROM " + table), ParseWhere(w), ParseOrder(o))
         case (Some(cols), Some(keys), Some(order)) => Some((ParseList(cols), keys, order))
         case _ => None)
      case _ => None
  }

  // ---------------------------------------------------------------------
  // Round trips

  /** Splitting a text made of newline-free lines on `"\n"` gives the lines. */
  lemma LinesOf(text: string, lines: seq<string>)
    requires |lines| >= 1 && text == Join("\n", lines)
    requires forall i | 0 <= i < |lines| :: Lacks(lines[i], '\n')
    ensures Split(text, "\n") == lines
  {
    SplitJoinLacking(lines, "\n");
  }

  /** A `", "`-joined list of non-empty items without commas parses back. */
  lemma ParseListJoin(parts: seq<string>)
    requires forall i | 0 <= i < |parts| :: |parts[i]| > 0 && Lacks(parts[i], ',')
    ensures ParseList(Join(", ", parts)) == parts
  {
    if |parts| > 0 {
      assert |Join(", ", parts)| > 0;
      SplitJoinLacking(parts, ", ");
    }
  }

  /** A list of identifiers joined by `", "` parses back and has no newline. */
  lemma IdentifierListRoundTrip(ks: seq<string>)
    requires forall i | 0 <= i < |ks| :: Identifier(ks[i])
    ensures ParseList(Join(", ", ks)) == ks
    ensures Lacks(Join(", ", ks), '\n')
  {
    forall i | 0 <= i < |ks|
      ensures |ks[i]| > 0 && Lacks(ks[i], ',') && Lacks(ks[i], '\n')
    {
      IdentifierLacks(ks[i]);
    }
    JoinLacks(", ", ks, '\n');
    ParseListJoin(ks);
  }

  /** A condition `"<key> = ?"` on an identifier key never contains the
      start of `" AND "`. */
  lemma ConditionSeparable(k: string)
    requires Identifier(k)
    ensures Separable(k + " = ?", " AND ")
  {
    var p := k + " = ?";
    var sep := " AND ";
    forall i | 0 <= i < |p|
      ensures !StartsWith((p + sep)[i..], sep)
    {
      var s := (p + sep)[i..];
      if i < |k| {
        assert s[0] == k[i];
      } else if i == |k| || i == |k| + 2 {
        assert s[1] == (p + sep)[i + 1];
      } else {
        assert s[0] == (p + sep)[i];
      }
    }
  }

  lemma {:induction false} ConditionKeysOf(keys: seq<string>)
    requires forall i | 0 <= i < |keys| :: Identifier(keys[i])
    ensures ConditionKeys(Conditions(keys)) == Some(keys)
  {
    if |keys| > 0 {
      var cs := Conditions(keys);
      assert cs[1..] == Conditions(keys[1..]);
      ConditionKeysOf(keys[1..]);
      assert StripSuffix(cs[0], " = ?") == Some(keys[0]);
      assert [keys[0]] + keys[1..] == keys;
    }
  }

  /** The `WHERE` body built from identifier keys reads back as those keys. */
  lemma WhereRoundTrip(keys: seq<string>)
    requires forall i | 0 <= i < |keys| :: Identifier(keys[i])
    ensures ParseWhere(WhereClause(keys)) == Some(keys)
    ensures Lacks(WhereClause(keys), '\n')
  {
    var cs := Conditions(keys);
    forall i | 0 <= i < |cs|
      ensures Separable(cs[i], " AND ") && Lacks(cs[i], '\n')
    {
      ConditionSeparable(keys[i]);
      IdentifierLacks(keys[i]);
      LacksConcat(keys[i], " = ?", '\n');
    }
    JoinLacks(" AND ", cs, '\n');
    if |keys| > 0 {
      assert |WhereClause(keys)| > 0;
      SplitJoin(cs, " AND ");
    }
    ConditionKeysOf(keys);
  }

  // ----- create_table

  /** A space-free word followed by a space splits back off. */
  lemma {:induction false} SplitDefinitionAfterWord(w: string, rest: string)
    requires Lacks(w, ' ')
    ensures SplitDefinition(w + " " + rest) == Some((w, rest))
  {
    if |w| > 0 {
      assert (w + " " + rest)[1..] == w[1..] + " " + rest;
      SplitDefinitionAfterWord(w[1..], rest);
      assert [w[0]] + w[1..] == w;
    } else {
      assert w + " " + rest == " " + rest;
    }
  }

  /** Each column definition splits at its first space back into the column
      name and its type and constraints. */
  lemma ColumnDefinitionsSplit(columns: seq<(string, string)>)
    requires IdentifierKeys(columns)
    ensures forall i | 0 <= i < |columns| :: SplitDefinition(ColumnDefinitions(columns)[i]) == Some(columns[i])
  {
    forall i | 0 <= i < |columns|
      ensures SplitDefinition(ColumnDefinitions(columns)[i]) == Some(columns[i])
    {
      IdentifierLacks(columns[i].0);
      SplitDefinitionAfterWord(columns[i].0, columns[i].1);
    }
  }

  lemma CreateTableTemplateLines(table: string, body: string)
    requires Lacks(table, '\n') && Lacks(body, '\n')
    ensures Split(CreateTableTemplate(table, body), "\n") == CreateTableLines(table, body)
  {
    LacksConcat(Indent8 + "CREATE TABLE IF NOT EXISTS ", table, '\n');
    LacksConcat(Indent8 + "CREATE TABLE IF NOT EXISTS " + table, " (", '\n');
    LacksConcat(Indent12, body, '\n');
    LinesOf(CreateTableTemplate(table, body), CreateTableLines(table, body));
  }

  lemma CreateTableTemplateParses(table: string, body: string)
    requires Lacks(table, '\n') && Lacks(body, '\n')
    ensures ParseCreateTable(CreateTableTemplate(table, body)) == Some((table, ParseList(body)))
  {
    CreateTableTemplateLines(table, body);
    var p1 := Indent8 + "CREATE TABLE IF NOT EXISTS ";
    assert p1 + table + " (" == p1 + (table + " (");
    assert StripPrefix(p1 + (table + " ("), p1) == Some(table + " (");
    assert StripSuffix(table + " (", " (") == Some(table);
    assert StripPrefix(Indent12 + body, Indent12) == Some(body);
  }

  /** `create_table` round trip: the text names the table and lists
      `"<name> <definition>"` for every column, in dict order. */
  lemma CreateTableRoundTrip(table: string, columns: seq<(string, string)>)
    requires Identifier(table) && IdentifierKeys(columns)
    requires forall i | 0 <= i < |columns| :: Lacks(columns[i].1, ',') && Lacks(columns[i].1, '\n')
    ensures ParseCreateTable(CreateTable(table, columns).text) == Some((table, ColumnDefinitions(columns)))
  {
    var defs := ColumnDefinitions(columns);
    forall i | 0 <= i < |defs|
      ensures |defs[i]| > 0 && Lacks(defs[i], ',') && Lacks(defs[i], '\n')
    {
      IdentifierLacks(columns[i].0);
      LacksConcat(columns[i].0, " ", ',');
      LacksConcat(columns[i].0 + " ", columns[i].1, ',');
      LacksConcat(columns[i].0, " ", '\n');
      LacksConcat(columns[i].0 + " ", columns[i].1, '\n');
    }
    JoinLacks(", ", defs, '\n');
    IdentifierLacks(table);
    CreateTableTemplateParses(table, Join(", ", defs));
    ParseListJoin(defs);
  }

  // ----- add

  lemma PlaceholderItems(n: nat)
    ensures Placeholders(n) == Join(", ", QuestionMarks(n))
  {
    assert Chars(Repeat('?', n)) == QuestionMarks(n);
  }

  lemma {:induction false} QuestionMarksLength(n: nat)
    ensures TotalLength(QuestionMarks(n)) == n
  {
    if n > 0 {
      assert QuestionMarks(n)[1..] == QuestionMarks(n - 1);
      QuestionMarksLength(n - 1);
    }
  }

  lemma {:induction false} QuestionMarksCount(n: nat)
    ensures Count('?', Join(", ", QuestionMarks(n))) == n
  {
    if n == 1 {
      assert Join(", ", QuestionMarks(1)) == "?";
    } else if n > 1 {
      var qs := QuestionMarks(n);
      assert qs[1..] == QuestionMarks(n - 1);
      assert qs == ["?"] + qs[1..];
      JoinCons(", ", "?", qs[1..]);
      QuestionMarksCount(n - 1);
      CountConcat('?', "?" + ", ", Join(", ", qs[1..]));
      CountConcat('?', "?", ", ");
    }
  }

  /** The placeholder list is exactly n question marks separated by `, `:
      empty for no columns, `3n - 2` characters otherwise, n of them `?`. */
  lemma PlaceholdersShape(n: nat)
    ensures n == 0 ==> Placeholders(n) == ""
    ensures n > 0 ==> |Placeholders(n)| == 3 * n - 2
    ensures Count('?', Placeholders(n)) == n
    ensures ParseList(Placeholders(n)) == QuestionMarks(n)
    ensures Lacks(Placeholders(n), '\n')
  {
    PlaceholderItems(n);
    QuestionMarksLength(n);
    QuestionMarksCount(n);
    ParseListJoin(QuestionMarks(n));
    JoinLacks(", ", QuestionMarks(n), '\n');
  }

  lemma InsertLinesLack(table: string, cols: string, ph: string)
    requires Lacks(table, '\n') && Lacks(cols, '\n') && Lacks(ph, '\n')
    ensures forall i | 0 <= i < 5 :: Lacks(InsertLines(table, cols, ph)[i], '\n')
  {
    LacksConcat(Indent12 + "INSERT INTO ", table, '\n');
    LacksConcat(Indent12 + "(", cols, '\n');
    LacksConcat(Indent12 + "(" + cols, ")", '\n');
    LacksConcat(Indent12 + "VALUES (", ph, '\n');
    LacksConcat(Indent12 + "VALUES (" + ph, ")", '\n');
  }

  lemma InsertTemplateLines(table: string, cols: string, ph: string)
    requires Lacks(table, '\n') && Lacks(cols, '\n') && Lacks(ph, '\n')
    ensures Split(InsertTemplate(table, cols, ph), "\n") == InsertLines(table, cols, ph)
  {
    InsertLinesLack(table, cols, ph);
    LinesOf(InsertTemplate(table, cols, ph), InsertLines(table, cols, ph));
  }

  lemma InsertTemplateParses(table: string, cols: string, ph: string)
    requires Lacks(table, '\n') && Lacks(cols, '\n') && Lacks(ph, '\n')
    ensures ParseInsert(InsertTemplate(table, cols, ph)) == Some((table, ParseList(cols), ParseList(ph)))
  {
    InsertTemplateLines(table, cols, ph);
    assert StripPrefix(Indent12 + "INSERT INTO " + table, Indent12 + "INSERT INTO ") == Some(table);
    assert Indent12 + "(" + cols + ")" == (Indent12 + "(") + (cols + ")");
    assert StripPrefix((Indent12 + "(") + (cols + ")"), Indent12 + "(") == Some(cols + ")");
    assert StripSuffix(cols + ")", ")") == Some(cols);
    assert Indent12 + "VALUES (" + ph + ")" == (Indent12 + "VALUES (") + (ph + ")");
    assert StripPrefix((Indent12 + "VALUES (") + (ph + ")"), Indent12 + "VALUES (") == Some(ph + ")");
    assert StripSuffix(ph + ")", ")") == Some(ph);
  }

  /** `add` round trip: the text inserts into `table`, lists the columns of
      `data` in dict order and has one `?` per column. */
  lemma AddRoundTrip(table: string, data: seq<(string, Value)>)
    requires Identifier(table) && IdentifierKeys(data)
    ensures ParseInsert(Add(table, data).text) == Some((table, Keys(data), QuestionMarks(|data|)))
  {
    IdentifierListRoundTrip(Keys(data));
    IdentifierLacks(table);
    PlaceholdersShape(|data|);
    InsertTemplateParses(table, Join(", ", Keys(data)), Placeholders(|data|));
  }

  /** Reading the columns back from the text and zipping them with the
      parameter tuple reconstructs `data`: the i-th column is bound to the
      i-th value. */
  lemma AddBindsColumnsInOrder(table: string, data: seq<(string, Value)>)
    requires Identifier(table) && IdentifierKeys(data)
    ensures ParseInsert(Add(table, data).text).Some?
    ensures |ParseInsert(Add(table, data).text).value.1| == |Add(table, data).params|
    ensures Zip(ParseInsert(Add(table, data).text).value.1, Add(table, data).params) == data
  {
    AddRoundTrip(table, data);
    ZipKeysValues(data);
  }

  /** Values never reach the text of `add`: two dicts with the same keys give
      the same statement text. */
  lemma AddTextIndependentOfValues(table: string, d1: seq<(string, Value)>, d2: seq<(string, Value)>)
    requires Keys(d1) == Keys(d2)
    ensures Add(table, d1).text == Add(table, d2).text
  {
  }

  // ----- delete

  lemma DeleteTemplateLines(table: string, w: string)
    requires Lacks(table, '\n') && Lacks(w, '\n')
    ensures Split(DeleteTemplate(table, w), "\n") == DeleteLines(table, w)
  {
    LacksConcat(Indent12 + "DELETE FROM ", table, '\n');
    LacksConcat(Indent12 + "WHERE ", w, '\n');
    LinesOf(DeleteTemplate(table, w), DeleteLines(table, w));
  }

  /** `delete` round trip: the text deletes from `table` under
      `k1 = ? AND k2 = ? ...` in criteria key order. */
  lemma DeleteRoundTrip(table: string, criteria: seq<(string, Value)>)
    requires Identifier(table) && IdentifierKeys(criteria)
    ensures ParseDelete(Delete(table, criteria).text) == Some((table, Keys(criteria)))
  {
    var w := WhereClause(Keys(criteria));
    WhereRoundTrip(Keys(criteria));
    IdentifierLacks(table);
    DeleteTemplateLines(table, w);
    assert StripPrefix(Indent12 + "DELETE FROM " + table, Indent12 + "DELETE FROM ") == Some(table);
    assert StripPrefix(Indent12 + "WHERE " + w, Indent12 + "WHERE ") == Some(w);
  }

  /** Values never reach the text of `delete`. */
  lemma DeleteTextIndependentOfValues(table: string, c1: seq<(string, Value)>, c2: seq<(string, Value)>)
    requires Keys(c1) == Keys(c2)
    ensures Delete(table, c1).text == Delete(table, c2).text
  {
  }

  // ----- select

  /** Column names `select` can list back unambiguously. */
  predicate PlainColumns(columns: Option<seq<string>>)
  {
    columns.Some? ==>
      forall i | 0 <= i < |columns.value| ::
        |columns.value[i]| > 0 && Lacks(columns.value[i], ',') && Lacks(columns.value[i], '\n')
  }

  lemma SelectLinesLack(cols: string, table: string, w: string, o: string)
    requires Lacks(cols, '\n') && Lacks(table, '\n') && Lacks(w, '\n') && Lacks(o, '\n')
    ensures forall i | 0 <= i < 5 :: Lacks(SelectLines(cols, table, w, o)[i], '\n')
  {
    LacksConcat(Indent12 + "SELECT ", cols, '\n');
    LacksConcat(Indent12 + "SELECT " + cols, " FROM ", '\n');
    LacksConcat(Indent12 + "SELECT " + cols + " FROM ", table, '\n');
    LacksConcat(Indent12 + "WHERE ", w, '\n');
    LacksConcat(Indent12, o, '\n');
  }

  lemma SelectTemplateLines(cols: string, table: string, w: string, o: string)
    requires Lacks(cols, '\n') && Lacks(table, '\n') && Lacks(w, '\n') && Lacks(o, '\n')
    ensures Split(SelectTemplate(cols, table, w, o), "\n") == SelectLines(cols, table, w, o)
  {
    SelectLinesLack(cols, table, w, o);
    LinesOf(SelectTemplate(cols, table, w, o), SelectLines(cols, table, w, o));
  }

  lemma SelectTemplateParses(cols: string, table: string, w: string, o: string)
    requires Lacks(cols, '\n') && Lacks(table, '\n') && Lacks(w, '\n') && Lacks(o, '\n')
    requires ParseWhere(w).Some? && ParseOrder(o).Some?
    ensures ParseSelect(SelectTemplate(cols, table, w, o), table)
         == Some((ParseList(cols), ParseWhere(w).value, ParseOrder(o).value))
  {
    SelectTemplateLines(cols, table, w, o);
    var l1 := Indent12 + "SELECT " + cols + " FROM " + table;
    assert l1 == (Indent12 + "SELECT ") + (cols + (" FROM " + table));
    assert StripPrefix(l1, Indent12 + "SELECT ") == Some(cols + (" FROM " + table));
    assert StripSuffix(cols + (" FROM " + table), " FROM " + table) == Some(cols);
    assert StripPrefix(Indent12 + "WHERE " + w, Indent12 + "WHERE ") == Some(w);
    assert StripPrefix(Indent12 + o, Indent12) == Some(o);
  }

  lemma OrderRoundTrip(orderBy: Option<string>)
    requires orderBy.Some? ==> Lacks(orderBy.value, '\n')
    ensures Lacks(OrderClause(orderBy), '\n')
    ensures ParseOrder(OrderClause(orderBy)) == Some(if Truthy(orderBy) then orderBy else None)
  {
    if Truthy(orderBy) {
      LacksConcat("ORDER BY ", orderBy.value, '\n');
      assert StripPrefix("ORDER BY " + orderBy.value, "ORDER BY ") == Some(orderBy.value);
    }
  }

  /** `select` round trip: the text lists `*` or the given columns, the
      criteria keys in order, and an `ORDER BY` line exactly when `order_by`
      is truthy. */
  lemma SelectRoundTrip(table: string, columns: Option<seq<string>>,
                        criteria: seq<(string, Value)>, orderBy: Option<string>)
    requires Identifier(table) && PlainColumns(columns) && IdentifierKeys(criteria)
    requires orderBy.Some? ==> Lacks(orderBy.value, '\n')
    ensures Select(table, columns, Some(criteria), orderBy).Success?
    ensures ParseSelect(Select(table, columns, Some(criteria), orderBy).value.text, table)
         == Some((SelectedColumns(columns), Keys(criteria), if Truthy(orderBy) then orderBy else None))
  {
    var sc := SelectedColumns(columns);
    assert SelectColumns(columns) == Join(", ", sc);
    JoinLacks(", ", sc, '\n');
    ParseListJoin(sc);
    IdentifierLacks(table);
    WhereRoundTrip(Keys(criteria));
    OrderRoundTrip(orderBy);
    SelectTemplateParses(SelectColumns(columns), table, WhereClause(Keys(criteria)), OrderClause(orderBy));
  }

  /** Values never reach the text of `select`. */
  lemma SelectTextIndependentOfValues(table: string, columns: Option<seq<string>>,
                                      c1: seq<(string, Value)>, c2: seq<(string, Value)>,
                                      orderBy: Option<string>)
    requires Keys(c1) == Keys(c2)
    ensures Select(table, columns, Some(c1), orderBy).value.text
         == Select(table, columns, Some(c2), orderBy).value.text
  {
  }

  // ----- select without criteria

  /** The pieces of a `select` over a plain table, column list and ordering
      lie on one line each. */
  lemma SelectPiecesLack(table: string, columns: Option<seq<string>>, orderBy: Option<string>)
    requires Identifier(table) && PlainColumns(columns)
    requires orderBy.Some? ==> Lacks(orderBy.value, '\n')
    ensures Lacks(table, '\n') && Lacks(SelectColumns(columns), '\n') && Lacks(OrderClause(orderBy), '\n')
  {
    var sc := SelectedColumns(columns);
    assert SelectColumns(columns) == Join(", ", sc);
    JoinLacks(", ", sc, '\n');
    IdentifierLacks(table);
    OrderRoundTrip(orderBy);
  }

  /** As written, an empty criteria dict leaves a `WHERE` line with no
      condition, which is not valid SQL. */
  lemma SelectEmptyCriteriaDanglingWhere(table: string, columns: Option<seq<string>>, orderBy: Option<string>)
    requires Identifier(table) && PlainColumns(columns)
    requires orderBy.Some? ==> Lacks(orderBy.value, '\n')
    ensures Select(table, columns, Some([]), orderBy).Success?
    ensures var lines := Split(Select(table, columns, Some([]), orderBy).value.text, "\n");
      |lines| == 5 && lines[2] == Indent12 + "WHERE "
  {
    SelectPiecesLack(table, columns, orderBy);
    assert Keys<string, Value>([]) == [];
    assert WhereClause([]) == "";
    SelectTemplateLines(SelectColumns(columns), table, "", OrderClause(orderBy));
    assert Indent12 + "WHERE " + "" == Indent12 + "WHERE ";
  }

  /** The lines of a `select` whose `WHERE` line is present only when
      there is a condition. */
  function SelectIntendedLines(cols: string, table: string, w: Option<string>, o: string): seq<string>
  {
    ["", Indent12 + "SELECT " + cols + " FROM " + table]
    + (if w.Some? then [Indent12 + "WHERE " + w.value] else [])
    + [Indent12 + o, Indent12]
  }

  /** `select` as its callers use it: missing or empty criteria select
      every row, with no `WHERE` line. */
  function SelectIntended(table: string, columns: Option<seq<string>>,
                          criteria: Option<seq<(string, Value)>>, orderBy: Option<string>): (s: Statement)
    ensures |s.params| == |criteria.GetOr([])|
    ensures forall i | 0 <= i < |criteria.GetOr([])| :: s.params[i] == criteria.GetOr([])[i].1
  {
    var c := criteria.GetOr([]);
    var w := if |c| == 0 then None else Some(WhereClause(Keys(c)));
    Statement(Join("\n", SelectIntendedLines(SelectColumns(columns), table, w, OrderClause(orderBy))), Values(c))
  }

  /** With at least one criterion the intended `select` is the written one. */
  lemma SelectIntendedAgrees(table: string, columns: Option<seq<string>>,
                             criteria: seq<(string, Value)>, orderBy: Option<string>)
    requires |criteria| > 0
    ensures SelectIntended(table, columns, Some(criteria), orderBy) == Select(table, columns, Some(criteria), orderBy).value
  {
    var cols := SelectColumns(columns);
    var w := WhereClause(Keys(criteria));
    var o := OrderClause(orderBy);
    assert SelectIntendedLines(cols, table, Some(w), o) == SelectLines(cols, table, w, o);
  }

  /** Without criteria the intended `select` lists the columns, then the
      ordering line, with no `WHERE` line and no parameters. */
  lemma SelectIntendedWithoutCriteria(table: string, columns: Option<seq<string>>,
                                      criteria: Option<seq<(string, Value)>>, orderBy: Option<string>)
    requires criteria.None? || criteria == Some([])
    requires Identifier(table) && PlainColumns(columns)
    requires orderBy.Some? ==> Lacks(orderBy.value, '\n')
    ensures SelectIntended(table, columns, criteria, orderBy).params == []
    ensures Split(SelectIntended(table, columns, criteria, orderBy).text, "\n")
         == ["", Indent12 + "SELECT " + SelectColumns(columns) + " FROM " + table, Indent12 + OrderClause(orderBy), Indent12]
  {
    var cols := SelectColumns(columns);
    var o := OrderClause(orderBy);
    var lines := ["", Indent12 + "SELECT " + cols + " FROM " + table, Indent12 + o, Indent12];
    assert SelectIntendedLines(cols, table, None, o) == lines;
    SelectPiecesLack(table, columns, orderBy);
    LacksConcat(Indent12 + "SELECT ", cols, '\n');
    LacksConcat(Indent12 + "SELECT " + cols, " FROM ", '\n');
    LacksConcat(Indent12 + "SELECT " + cols + " FROM ", table, '\n');
    LacksConcat(Indent12, o, '\n');
    LinesOf(SelectIntended(table, columns, criteria, orderBy).text, lines);
  }
}
