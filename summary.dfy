/**
 * The summary dashboard: normalising the columns, priorities and due
 * dates of the stored tasks, counting them, and finding the counter a
 * label on the page stands for.
 */
module Summary {
  import opened Wrappers
  import opened Text
  import Js

  /** The four board columns `normalizeColumn` recognises, and the empty answer. */
  datatype Column = ToDo | InProgress | AwaitFeedback | Done | NoColumn

  /** The column ids the board uses (`""` for no column). */
  function ColumnName(c: Column): string {
    match c
    case ToDo => "toDoColumn"
    case InProgress => "inProgress"
    case AwaitFeedback => "awaitFeedback"
    case Done => "done"
    case NoColumn => ""
  }

  /** `.replace(/\s|_/g, "")` */
  function StripBlanks(s: string): (r: string)
    ensures |r| <= |s|
  {
    if s == [] then []
    else if IsSpace(s[0]) || s[0] == '_' then StripBlanks(s[1..])
    else [s[0]] + StripBlanks(s[1..])
  }

  lemma {:induction false} StripBlanksNoBlanks(s: string)
    requires forall k :: 0 <= k < |s| ==> !IsSpace(s[k]) && s[k] != '_'
    ensures StripBlanks(s) == s
    decreases |s|
  {
    if s != [] {
      StripBlanksNoBlanks(s[1..]);
    }
  }

  /** The text `normalizeColumn` inspects: lower-cased, without white space and underscores. */
  function ColumnKey(raw: string): string {
    StripBlanks(ToLower(raw))
  }

  /**
   * `normalizeColumn(rawColumn)`: "todo" wins, then "inprogress" (or the
   * whole text "progress"), then "await", "feedback" or "review", then
   * "done", "complete" or "finished"; anything else is no column.
   */
  function NormalizeColumn(raw: string): (c: Column)
    ensures c == ToDo <==> Contains(ColumnKey(raw), "todo")
    ensures c == InProgress ==> Contains(ColumnKey(raw), "inprogress") || ColumnKey(raw) == "progress"
    ensures c == NoColumn ==> !Contains(ColumnKey(raw), "done") && !Contains(ColumnKey(raw), "await")
  {
    ColumnOfKey(ColumnKey(raw))
  }

  /** The decision `normalizeColumn` takes on the key. */
  function ColumnOfKey(l: string): Column {
    if Contains(l, "todo") then ToDo
    else if Contains(l, "inprogress") || l == "progress" then InProgress
    else if Contains(l, "await") || Contains(l, "feedback") || Contains(l, "review") then AwaitFeedback
    else if Contains(l, "done") || Contains(l, "complete") || Contains(l, "finished") then Done
    else NoColumn
  }

  /** A column id read back is that column: normalising is idempotent on its own answers. */
  lemma NormalizeColumnOfName(c: Column)
    ensures NormalizeColumn(ColumnName(c)) == c
  {
    var n := ColumnName(c);
    match c
    case ToDo => ToDoKey(n);
    case InProgress => InProgressKey(n);
    case AwaitFeedback => AwaitFeedbackKey(n);
    case Done => DoneKey(n);
    case NoColumn => assert ColumnKey(n) == [];
  }

  lemma NormalizeColumnIdempotent(raw: string)
    ensures NormalizeColumn(ColumnName(NormalizeColumn(raw))) == NormalizeColumn(raw)
  {
    NormalizeColumnOfName(NormalizeColumn(raw));
  }

  /** The key of a lower-case word is the word itself. */
  lemma KeyOfLowerWord(low: string)
    requires forall k :: 0 <= k < |low| ==> 'a' <= low[k] <= 'z'
    ensures ColumnKey(low) == low
  {
    assert ToLower(low) == low;
    StripBlanksNoBlanks(low);
  }

  /** "toDoColumn" reads as "todocolumn", which mentions "todo". */
  lemma ToDoKey(n: string)
    requires n == "toDoColumn"
    ensures Contains(ColumnKey(n), "todo")
  {
    var low := ToLower(n);
    assert low == "todocolumn";
    StripBlanksNoBlanks(low);
    ContainsAt(low, "todo", 0);
  }

  lemma InProgressKey(n: string)
    requires n == "inProgress"
    ensures NormalizeColumn(n) == InProgress
  {
    var low := ToLower(n);
    assert low == "inprogress";
    StripBlanksNoBlanks(low);
    InProgressKeyWords(low);
  }

  lemma InProgressKeyWords(low: string)
    requires low == "inprogress"
    ensures ColumnOfKey(low) == InProgress
  {
    NotContainsMissingChar(low, "todo", 0);
    ContainsSelf(low);
  }

  lemma AwaitFeedbackKey(n: string)
    requires n == "awaitFeedback"
    ensures NormalizeColumn(n) == AwaitFeedback
  {
    var low := ToLower(n);
    assert low == "awaitfeedback";
    StripBlanksNoBlanks(low);
    AwaitWords(low);
  }

  lemma AwaitWords(low: string)
    requires low == "awaitfeedback"
    ensures ColumnOfKey(low) == AwaitFeedback
  {
    assert 'o' !in low && 'n' !in low;
    NotContainsMissingChar(low, "todo", 1);
    NotContainsMissingChar(low, "inprogress", 1);
    ContainsAt(low, "await", 0);
  }

  lemma DoneKey(n: string)
    requires n == "done"
    ensures NormalizeColumn(n) == Done
  {
    KeyOfLowerWord(n);
    DoneWords(n);
  }

  lemma DoneWords(low: string)
    requires low == "done"
    ensures ColumnOfKey(low) == Done
  {
    assert 't' !in low && 'i' !in low && 'a' !in low && 'f' !in low && 'r' !in low;
    NotContainsMissingChar(low, "todo", 0);
    NotContainsMissingChar(low, "inprogress", 0);
    NotContainsMissingChar(low, "await", 0);
    NotContainsMissingChar(low, "feedback", 0);
    NotContainsMissingChar(low, "review", 0);
    ContainsSelf(low);
  }

  /** The three priorities of the dashboard. */
  datatype Level = Urgent | Medium | Low

  function LevelName(p: Level): string {
    match p
    case Urgent => "urgent"
    case Medium => "medium"
    case Low => "low"
  }

  /**
   * `normalizePriority(rawPriority)`: urgent if the lower-cased text
   * mentions "urgent" or is "high"; else low if it mentions "low"; else
   * medium.
   */
  function NormalizePriority(raw: string): (p: Level)
    ensures p == Urgent <==> Contains(ToLower(raw), "urgent") || ToLower(raw) == "high"
    ensures p == Low <==> !(Contains(ToLower(raw), "urgent") || ToLower(raw) == "high") && Contains(ToLower(raw), "low")
  {
    var l := ToLower(raw);
    if Contains(l, "urgent") || l == "high" then Urgent
    else if Contains(l, "low") then Low
    else Medium
  }

  /** A priority name read back is that priority. */
  lemma NormalizePriorityOfName(p: Level)
    ensures NormalizePriority(LevelName(p)) == p
  {
    var n := LevelName(p);
    match p
    case Urgent => UrgentWord(n);
    case Medium => MediumWord(n);
    case Low => LowWord(n);
  }

  lemma UrgentWord(n: string)
    requires n == "urgent"
    ensures Contains(ToLower(n), "urgent")
  {
    ToLowerOfLower(n);
    ContainsSelf(n);
  }

  lemma MediumWord(n: string)
    requires n == "medium"
    ensures ToLower(n) == n && !Contains(n, "urgent") && n != "high" && !Contains(n, "low")
  {
    ToLowerOfLower(n);
    assert n == "medi" + "um";
    NotContainsSplit("medi", "um", "urgent");
    assert "low"[2] == 'w' && 'w' !in n;
    NotContainsMissingChar(n, "low", 2);
  }

  lemma LowWord(n: string)
    requires n == "low"
    ensures ToLower(n) == n && !Contains(n, "urgent") && n != "high" && Contains(n, "low")
  {
    ToLowerOfLower(n);
    NotContainsLonger(n, "urgent");
    ContainsSelf(n);
  }

  /** What `parseDate` makes of a due date. */
  datatype DateValue =
    | NoDate
      /** `new Date(year, monthIndex, day)` */
    | YMD(year: int, monthIndex: int, day: int)
      /** Left to `new Date(text)`. */
    | Unparsed(text: string)

  predicate AllDigits(s: string) {
    Js.AllRadixDigits(s, 10)
  }

  /** `+s` for a string of decimal digits. */
  function Number(s: string): nat
    requires AllDigits(s)
  {
    Js.DigitsValue(s, 10)
  }

  /** `^(\d{4})-(\d{2})-(\d{2})$` */
  predicate IsoShaped(t: string) {
    |t| == 10 && AllDigits(t[..4]) && t[4] == '-' && AllDigits(t[5..7]) && t[7] == '-' && AllDigits(t[8..])
  }

  /** `^(\d{1,2})<sep>(\d{1,2})<sep>(\d{4})$` as the three pieces between separators. */
  predicate DayFirstShaped(parts: seq<string>) {
    |parts| == 3
    && 1 <= |parts[0]| <= 2 && AllDigits(parts[0])
    && 1 <= |parts[1]| <= 2 && AllDigits(parts[1])
    && |parts[2]| == 4 && AllDigits(parts[2])
  }

  function DayFirst(parts: seq<string>): DateValue
    requires DayFirstShaped(parts)
  {
    YMD(Number(parts[2]), Number(parts[1]) - 1, Number(parts[0]))
  }

  /**
   * `parseDate(inputDate)`: nothing for a missing or empty value; the
   * trimmed text read year first as `YYYY-MM-DD`, day first as `D.M.YYYY`
   * or `D/M/YYYY`; anything else is left to the `Date` parser.
   */
  function ParseDate(input: Option<string>): DateValue {
    if input.None? || input.value == "" then NoDate
    else
      var t := Trim(input.value);
      if IsoShaped(t) then YMD(Number(t[..4]), Number(t[5..7]) - 1, Number(t[8..]))
      else if DayFirstOf(t, '.').Some? then DayFirstOf(t, '.').value
      else if DayFirstOf(t, '/').Some? then DayFirstOf(t, '/').value
      else Unparsed(t)
  }

  lemma DigitsAreNotSeparators(s: string)
    requires AllDigits(s)
    ensures forall k :: 0 <= k < |s| ==> s[k] != '.' && s[k] != '/' && s[k] != '-' && !IsSpace(s[k])
  {
  }

  /** A text that starts and ends with a digit is its own trimmed form. */
  lemma TrimDigitEnds(t: string)
    requires t != [] && Js.IsDigit(t[0]) && Js.IsDigit(t[|t| - 1])
    ensures Trim(t) == t
  {
    TrimStartNoSpace(t);
    TrimEndNoSpace(t);
  }

  lemma ParseIsoShaped(t: string)
    requires t != [] && Trim(t) == t && IsoShaped(t)
    ensures ParseDate(Some(t)) == YMD(Number(t[..4]), Number(t[5..7]) - 1, Number(t[8..]))
  {
  }

  /** The day-first reading of a text, if it has that shape for `sep`. */
  function DayFirstOf(t: string, sep: char): Option<DateValue> {
    var parts := Split(t, sep);
    if DayFirstShaped(parts) then Some(DayFirst(parts)) else None
  }

  lemma ParseDayFirstShaped(t: string)
    requires t != [] && Trim(t) == t && !IsoShaped(t)
    ensures DayFirstOf(t, '.').Some? ==> ParseDate(Some(t)) == DayFirstOf(t, '.').value
    ensures DayFirstOf(t, '.').None? && DayFirstOf(t, '/').Some? ==> ParseDate(Some(t)) == DayFirstOf(t, '/').value
  {
  }

  /** `YYYY-MM-DD` is read year first. */
  lemma ParseIsoDate(y: string, m: string, d: string)
    requires |y| == 4 && |m| == 2 && |d| == 2 && AllDigits(y) && AllDigits(m) && AllDigits(d)
    ensures ParseDate(Some(y + "-" + m + "-" + d)) == YMD(Number(y), Number(m) - 1, Number(d))
  {
    var t := y + "-" + m + "-" + d;
    assert t[..4] == y && t[4] == '-' && t[5..7] == m && t[7] == '-' && t[8..] == d;
    assert t[0] == y[0] && t[9] == d[1];
    TrimDigitEnds(t);
    ParseIsoShaped(t);
  }

  predicate DayFirstPieces(d: string, m: string, y: string) {
    1 <= |d| <= 2 && 1 <= |m| <= 2 && |y| == 4 && AllDigits(d) && AllDigits(m) && AllDigits(y)
  }

  lemma DayFirstTrimmed(d: string, m: string, y: string, sep: char)
    requires DayFirstPieces(d, m, y) && (sep == '.' || sep == '/')
    ensures var t := d + [sep] + m + [sep] + y; t != [] && Trim(t) == t && !IsoShaped(t)
  {
    var t := d + [sep] + m + [sep] + y;
    assert t[0] == d[0] && t[|t| - 1] == y[3];
    TrimDigitEnds(t);
    if |t| == 10 {
      assert t[4] == m[1];
    }
  }

  lemma DayFirstSplits(d: string, m: string, y: string, sep: char)
    requires DayFirstPieces(d, m, y) && (sep == '.' || sep == '/')
    ensures Split(d + [sep] + m + [sep] + y, sep) == [d, m, y]
  {
    DigitsAreNotSeparators(d);
    DigitsAreNotSeparators(m);
    DigitsAreNotSeparators(y);
    var parts := [d, m, y];
    assert Join(parts, sep) == d + [sep] + m + [sep] + y by {
      assert Join(parts[1..], sep) == m + [sep] + Join(parts[2..], sep);
    }
    SplitOfJoin(parts, sep);
  }

  lemma SlashDateHasNoDot(d: string, m: string, y: string)
    requires DayFirstPieces(d, m, y)
    ensures DayFirstOf(d + "/" + m + "/" + y, '.').None?
  {
    var t := d + "/" + m + "/" + y;
    DigitsAreNotSeparators(d);
    DigitsAreNotSeparators(m);
    DigitsAreNotSeparators(y);
    assert forall k :: 0 <= k < |t| ==> t[k] != '.' by {
      assert forall k :: 0 <= k < |d| ==> t[k] == d[k];
      assert forall k :: |d| + 1 <= k < |d| + 1 + |m| ==> t[k] == m[k - |d| - 1];
      assert forall k :: |d| + 2 + |m| <= k < |t| ==> t[k] == y[k - |d| - 2 - |m|];
    }
    assert Split(t, '.') == [t];
  }

  lemma DayFirstReading(d: string, m: string, y: string, sep: char)
    requires DayFirstPieces(d, m, y) && (sep == '.' || sep == '/')
    ensures DayFirstOf(d + [sep] + m + [sep] + y, sep) == Some(YMD(Number(y), Number(m) - 1, Number(d)))
  {
    DayFirstSplits(d, m, y, sep);
  }

  /** `D.M.YYYY` is read day first. */
  lemma ParseDotDate(d: string, m: string, y: string)
    requires DayFirstPieces(d, m, y)
    ensures ParseDate(Some(d + "." + m + "." + y)) == YMD(Number(y), Number(m) - 1, Number(d))
  {
    var t := d + "." + m + "." + y;
    DayFirstTrimmed(d, m, y, '.');
    DayFirstReading(d, m, y, '.');
    ParseDayFirstShaped(t);
  }

  /** `D/M/YYYY` is read the same way. */
  lemma ParseSlashDate(d: string, m: string, y: string)
    requires DayFirstPieces(d, m, y)
    ensures ParseDate(Some(d + "/" + m + "/" + y)) == ParseDate(Some(d + "." + m + "." + y))
  {
    var t := d + "/" + m + "/" + y;
    DayFirstTrimmed(d, m, y, '/');
    DayFirstReading(d, m, y, '/');
    SlashDateHasNoDot(d, m, y);
    ParseDayFirstShaped(t);
    ParseDotDate(d, m, y);
  }

  /** A missing or empty due date is no date. */
  lemma ParseEmptyDate()
    ensures ParseDate(None) == NoDate && ParseDate(Some("")) == NoDate
  {
  }

  /** A stored task row: an object with its fields (absent keys are `undefined`), or anything else. */
  datatype Row = Record(fields: map<string, string>) | NotRecord

  /** The task data as loaded: an object keyed by id, an array, or anything else. */
  datatype RawTasks = KeyedRows(values: seq<Row>) | RowList(rows: seq<Row>) | NoRows

  function RowsOf(raw: RawTasks): seq<Row> {
    match raw
    case KeyedRows(values) => values
    case RowList(rows) => rows
    case NoRows => []
  }

  /** `rows.filter(isObj)` */
  function Records(rows: seq<Row>): (r: seq<Row>)
    ensures |r| <= |rows|
    ensures forall k :: 0 <= k < |r| ==> r[k].Record?
  {
    if rows == [] then []
    else if rows[|rows| - 1].Record? then Records(rows[..|rows| - 1]) + [rows[|rows| - 1]]
    else Records(rows[..|rows| - 1])
  }

  /** Rows that are all records are all kept, in order. */
  lemma {:induction false} RecordsOfRecords(rows: seq<Row>)
    requires forall k :: 0 <= k < |rows| ==> rows[k].Record?
    ensures Records(rows) == rows
    decreases |rows|
  {
    if rows != [] {
      RecordsOfRecords(rows[..|rows| - 1]);
    }
  }

  /** Non-records add nothing. */
  lemma {:induction false} RecordsSkipsOthers(rows: seq<Row>, other: seq<Row>)
    requires forall k :: 0 <= k < |other| ==> !other[k].Record?
    ensures Records(rows + other) == Records(rows)
    decreases |other|
  {
    if other == [] {
      assert rows + other == rows;
    } else {
      assert (rows + other)[..|rows + other| - 1] == rows + other[..|other| - 1];
      RecordsSkipsOthers(rows, other[..|other| - 1]);
    }
  }

  /** `a ?? b ?? …`: the first of the keys present. */
  function Coalesce(fields: map<string, string>, keys: seq<string>): (r: string)
    ensures r == "" || exists k :: k in keys && k in fields && fields[k] == r
  {
    if keys == [] then ""
    else if keys[0] in fields then fields[keys[0]]
    else Coalesce(fields, keys[1..])
  }

  /** A field's value when it is truthy (present and non-empty). */
  function Truthy(fields: map<string, string>, key: string): Option<string> {
    if key in fields && fields[key] != "" then Some(fields[key]) else None
  }

  /** The compact task of the dashboard. */
  datatype TaskSummary = TaskSummary(id: string, column: Column, priority: Level, dueDate: DateValue)

  /** One row of `parseAndNormalizeTasks`, the `i`-th record. */
  function Summarize(fields: map<string, string>, i: nat): (t: TaskSummary)
    ensures Truthy(fields, "firebaseKey").Some? ==> t.id == fields["firebaseKey"]
    ensures Truthy(fields, "firebaseKey").None? && Truthy(fields, "id").Some? ==> t.id == fields["id"]
    ensures Truthy(fields, "firebaseKey").None? && Truthy(fields, "id").None? ==> t.id == Js.NatString(i, 10)
  {
    var id :=
      if Truthy(fields, "firebaseKey").Some? then fields["firebaseKey"]
      else if Truthy(fields, "id").Some? then fields["id"]
      else Js.NatString(i, 10);
    TaskSummary(
      id,
      NormalizeColumn(Coalesce(fields, ["column", "status", "state", "list"])),
      NormalizePriority(Coalesce(fields, ["priority", "prio"])),
      ParseDate(Some(Coalesce(fields, ["dueDate", "deadline", "date"]))))
  }

  /**
   * `parseAndNormalizeTasks(rawData)`: the records among the rows, each
   * summarised with its position among the records.
   */
  function ParseAndNormalizeTasks(raw: RawTasks): (r: seq<TaskSummary>)
    ensures |r| == |Records(RowsOf(raw))| <= |RowsOf(raw)|
    ensures forall i :: 0 <= i < |r| ==> r[i] == Summarize(Records(RowsOf(raw))[i].fields, i)
  {
    var recs := Records(RowsOf(raw));
    seq(|recs|, i requires 0 <= i < |recs| => Summarize(recs[i].fields, i))
  }

  /** Without a key or id, the tasks are numbered by their position among the records. */
  lemma ParsedIdsFallBackToPosition(raw: RawTasks, i: nat)
    requires i < |Records(RowsOf(raw))|
    requires var f := Records(RowsOf(raw))[i].fields; Truthy(f, "firebaseKey").None? && Truthy(f, "id").None?
    ensures Js.ParseInt(ParseAndNormalizeTasks(raw)[i].id, None) == Some(i)
  {
    Js.ParseIntOfNatString(i, None);
  }

  /** The dashboard counters. */
  datatype Counters = Counters(total: nat, todo: nat, inProgress: nat, awaitFeedback: nat, done: nat, urgent: nat)

  /** How many tasks are in column `c`. */
  function CountIn(tasks: seq<TaskSummary>, c: Column): (n: nat)
    ensures n <= |tasks|
  {
    if tasks == [] then 0
    else CountIn(tasks[..|tasks| - 1], c) + (if tasks[|tasks| - 1].column == c then 1 else 0)
  }

  /** How many tasks are urgent. */
  function CountUrgent(tasks: seq<TaskSummary>): (n: nat)
    ensures n <= |tasks|
  {
    if tasks == [] then 0
    else CountUrgent(tasks[..|tasks| - 1]) + (if tasks[|tasks| - 1].priority == Urgent then 1 else 0)
  }

  /** The counters as the task list determines them. */
  function CountersOf(tasks: seq<TaskSummary>): Counters {
    Counters(|tasks|, CountIn(tasks, ToDo), CountIn(tasks, InProgress),
      CountIn(tasks, AwaitFeedback), CountIn(tasks, Done), CountUrgent(tasks))
  }

  /** `computeCounters(tasks)` */
  method ComputeCounters(tasks: seq<TaskSummary>) returns (counters: Counters)
    ensures counters == CountersOf(tasks)
  {
    counters := Counters(0, 0, 0, 0, 0, 0);
    for i := 0 to |tasks|
      invariant counters == CountersOf(tasks[..i])
    {
      assert tasks[..i + 1][..i] == tasks[..i];
      var t := tasks[i];
      counters := counters.(total := counters.total + 1);
      if t.column == ToDo {
        counters := counters.(todo := counters.todo + 1);
      } else if t.column == InProgress {
        counters := counters.(inProgress := counters.inProgress + 1);
      } else if t.column == AwaitFeedback {
        counters := counters.(awaitFeedback := counters.awaitFeedback + 1);
      } else if t.column == Done {
        counters := counters.(done := counters.done + 1);
      }
      if t.priority == Urgent {
        counters := counters.(urgent := counters.urgent + 1);
      }
    }
    assert tasks[..|tasks|] == tasks;
  }

  /**
   * Every task counts once in the total and in at most one column, so the
   * column counters add up to the total minus the tasks in no column.
   */
  lemma {:induction false} CountersAddUp(tasks: seq<TaskSummary>)
    ensures var c := CountersOf(tasks);
      c.todo + c.inProgress + c.awaitFeedback + c.done + CountIn(tasks, NoColumn) == c.total
      && c.urgent <= c.total
    decreases |tasks|
  {
    if tasks != [] {
      CountersAddUp(tasks[..|tasks| - 1]);
    }
  }

  /** `.replace(/<br\s*\/?>/gi, " ")`: the length of a line break tag at the start, or 0. */
  function BreakTag(s: string): (n: nat)
    ensures n <= |s|
  {
    if |s| >= 3 && s[0] == '<' && (s[1] == 'b' || s[1] == 'B') && (s[2] == 'r' || s[2] == 'R') then
      var k := 3 + SpaceRun(s[3..]);
      var k' := if k < |s| && s[k] == '/' then k + 1 else k;
      if k' < |s| && s[k'] == '>' then k' + 1 else 0
    else 0
  }

  function ReplaceBreaks(s: string): string
    decreases |s|
  {
    if s == [] then []
    else
      var n := BreakTag(s);
      if n > 0 then " " + ReplaceBreaks(s[n..]) else [s[0]] + ReplaceBreaks(s[1..])
  }

  /** `\w` */
  predicate IsWordChar(c: char) {
    'a' <= c <= 'z' || 'A' <= c <= 'Z' || '0' <= c <= '9' || c == '_'
  }

  predicate Kept(c: char) {
    IsWordChar(c) || c == ' '
  }

  function OtherRun(s: string): (n: nat)
    ensures n <= |s| && (n == |s| || Kept(s[n]))
  {
    if s != [] && !Kept(s[0]) then 1 + OtherRun(s[1..]) else 0
  }

  /** `.replace(/[^\w ]+/g, " ")` */
  function ReplaceOthers(s: string): string
    decreases |s|
  {
    if s == [] then []
    else if !Kept(s[0]) then " " + ReplaceOthers(s[OtherRun(s)..])
    else [s[0]] + ReplaceOthers(s[1..])
  }

  /** `.replace(/\s+/g, " ")` */
  function CollapseSpaces(s: string): string
    decreases |s|
  {
    if s == [] then []
    else if IsSpace(s[0]) then " " + CollapseSpaces(s[SpaceRun(s)..])
    else [s[0]] + CollapseSpaces(s[1..])
  }

  /** `norm(rawLabelHtml)` */
  function Norm(raw: string): string {
    Trim(CollapseSpaces(ReplaceOthers(ToLower(ReplaceBreaks(raw)))))
  }

  /** The label texts and the counter each stands for (`LABELS_MAP`). */
  const LabelsMap: map<string, string> := map[
    "to do" := "todo", "to-do" := "todo", "done" := "done",
    "tasks in board" := "total", "tasks in progress" := "inProgress",
    "awaiting feedback" := "awaitFeedback"
  ]

  /** The counter a key of `LABELS_MAP` names. */
  function CounterOfKey(counters: Counters, key: string): (r: Option<nat>)
    ensures r.Some? <==> key in LabelsMap
  {
    if key !in LabelsMap then None
    else
      var name := LabelsMap[key];
      if name == "todo" then Some(counters.todo)
      else if name == "done" then Some(counters.done)
      else if name == "total" then Some(counters.total)
      else if name == "inProgress" then Some(counters.inProgress)
      else Some(counters.awaitFeedback)
  }

  /** The counter a value box shows (`counters[LABELS_MAP[norm(label)]]`), if its label is known. */
  function CounterFor(counters: Counters, caption: string): Option<nat> {
    CounterOfKey(counters, Norm(caption))
  }

  lemma {:induction false} ReplaceBreaksPrefix(a: string, b: string)
    requires '<' !in a
    ensures ReplaceBreaks(a + b) == a + ReplaceBreaks(b)
    decreases |a|
  {
    if a != [] {
      assert (a + b)[1..] == a[1..] + b;
      ReplaceBreaksPrefix(a[1..], b);
    } else {
      assert a + b == b;
    }
  }

  /** A `<br>` tag between two texts reads as a space. */
  lemma BreakReadsAsSpace(a: string, b: string)
    requires '<' !in a
    ensures ReplaceBreaks(a + "<br>" + b) == ReplaceBreaks(a + " " + b)
  {
    assert a + "<br>" + b == a + ("<br>" + b);
    assert a + " " + b == a + (" " + b);
    ReplaceBreaksPrefix(a, "<br>" + b);
    ReplaceBreaksPrefix(a, " " + b);
    var s := "<br>" + b;
    assert s[3..] == ">" + b;
    assert SpaceRun(s[3..]) == 0;
    assert BreakTag(s) == 4;
    assert s[4..] == b;
    assert (" " + b)[1..] == b;
  }

  /** Lower-case words of word characters. */
  predicate LowerWord(w: string) {
    w != [] && forall k :: 0 <= k < |w| ==> ('a' <= w[k] <= 'z' || '0' <= w[k] <= '9' || w[k] == '_')
  }

  lemma {:induction false} LowerWordsSurvive(s: string)
    requires forall k :: 0 <= k < |s| ==> Kept(s[k]) && s[k] != '<'
    ensures ReplaceBreaks(s) == s && ReplaceOthers(s) == s
    decreases |s|
  {
    if s != [] {
      LowerWordsSurvive(s[1..]);
    }
  }

  lemma {:induction false} CollapseSingleSpaces(words: seq<string>)
    requires |words| >= 1 && forall k :: 0 <= k < |words| ==> LowerWord(words[k])
    ensures CollapseSpaces(Join(words, ' ')) == Join(words, ' ')
    decreases |words|
  {
    var w := words[0];
    NoSpaceWord(w);
    if |words| == 1 {
      CollapseNoSpace(w, []);
      assert w + [] == w;
    } else {
      var rest := Join(words[1..], ' ');
      CollapseSingleSpaces(words[1..]);
      JoinEnds(words[1..], ' ');
      NoSpaceWord(words[1]);
      CollapseSpaceBefore(rest);
      assert Join(words, ' ') == w + (" " + rest);
      CollapseNoSpace(w, " " + rest);
    }
  }

  lemma CollapseSpaceBefore(rest: string)
    requires rest != [] && !IsSpace(rest[0]) && CollapseSpaces(rest) == rest
    ensures CollapseSpaces(" " + rest) == " " + rest
  {
    var tail := " " + rest;
    assert tail[1..] == rest;
    assert SpaceRun(tail) == 1;
  }

  lemma NoSpaceWord(w: string)
    requires LowerWord(w)
    ensures forall k :: 0 <= k < |w| ==> !IsSpace(w[k])
  {
  }

  lemma {:induction false} CollapseNoSpace(w: string, tail: string)
    requires forall k :: 0 <= k < |w| ==> !IsSpace(w[k])
    ensures CollapseSpaces(w + tail) == w + CollapseSpaces(tail)
    decreases |w|
  {
    if w == [] {
      assert w + tail == tail;
    } else {
      assert (w + tail)[1..] == w[1..] + tail;
      CollapseNoSpace(w[1..], tail);
    }
  }

  /** Lower-case words separated by single spaces are their own `norm`. */
  lemma NormOfWords(words: seq<string>)
    requires |words| >= 1 && forall k :: 0 <= k < |words| ==> LowerWord(words[k])
    ensures Norm(Join(words, ' ')) == Join(words, ' ')
  {
    var s := Join(words, ' ');
    JoinChars(words);
    LowerWordsSurvive(s);
    ToLowerOfLower(s);
    CollapseSingleSpaces(words);
    TrimOfWords(words);
  }

  /** Words without white space at their ends joined by spaces are their own `trim`. */
  lemma TrimOfWords(words: seq<string>)
    requires |words| >= 1 && forall k :: 0 <= k < |words| ==> LowerWord(words[k])
    ensures Trim(Join(words, ' ')) == Join(words, ' ')
  {
    var s := Join(words, ' ');
    JoinEnds(words, ' ');
    NoSpaceWord(words[0]);
    NoSpaceWord(words[|words| - 1]);
    TrimStartNoSpace(s);
    TrimEndNoSpace(s);
  }

  lemma {:induction false} JoinChars(words: seq<string>)
    requires |words| >= 1 && forall k :: 0 <= k < |words| ==> LowerWord(words[k])
    ensures var s := Join(words, ' ');
      IsLowerCase(s) && forall k :: 0 <= k < |s| ==> Kept(s[k]) && s[k] != '<'
    decreases |words|
  {
    if |words| > 1 {
      JoinChars(words[1..]);
      var s := Join(words, ' ');
      assert s == words[0] + [' '] + Join(words[1..], ' ');
    }
  }

  lemma {:induction false} JoinAppend(w1: seq<string>, w2: seq<string>)
    requires |w1| >= 1 && |w2| >= 1
    ensures Join(w1 + w2, ' ') == Join(w1, ' ') + " " + Join(w2, ' ')
    decreases |w1|
  {
    if |w1| > 1 {
      assert (w1 + w2)[1..] == w1[1..] + w2;
      JoinAppend(w1[1..], w2);
    }
  }

  /** A label whose words are broken over two lines by `<br>` reads as the words on one line. */
  lemma NormOfBrokenLabel(w1: seq<string>, w2: seq<string>)
    requires |w1| >= 1 && |w2| >= 1
    requires forall k :: 0 <= k < |w1| ==> LowerWord(w1[k])
    requires forall k :: 0 <= k < |w2| ==> LowerWord(w2[k])
    ensures Norm(Join(w1, ' ') + "<br>" + Join(w2, ' ')) == Join(w1 + w2, ' ')
  {
    JoinChars(w1);
    BreakReadsAsSpace(Join(w1, ' '), Join(w2, ' '));
    JoinAppend(w1, w2);
    NormOfWords(w1 + w2);
  }

  lemma InProgressWords(w1: seq<string>, w2: seq<string>)
    requires w1 == ["tasks", "in"] && w2 == ["progress"]
    ensures forall k :: 0 <= k < |w1| ==> LowerWord(w1[k])
    ensures forall k :: 0 <= k < |w2| ==> LowerWord(w2[k])
  {
    assert LowerWord(w1[0]) && LowerWord(w1[1]) && LowerWord(w2[0]);
  }

  lemma InProgressJoined(words: seq<string>, joined: string)
    requires words == ["tasks", "in", "progress"] && joined == "tasks in progress"
    ensures Join(words, ' ') == joined
  {
    var a, b, c := words[0], words[1], words[2];
    assert Join(words[2..], ' ') == c;
    assert Join(words[1..], ' ') == b + " " + c;
    assert Join(words, ' ') == a + " " + (b + " " + c);
  }

  lemma InProgressEntry(counters: Counters, joined: string)
    requires joined == "tasks in progress"
    ensures CounterOfKey(counters, joined) == Some(counters.inProgress)
  {
    assert joined in LabelsMap && LabelsMap[joined] == "inProgress";
  }

  /** The label "tasks in<br>progress" shows the in-progress counter. */
  lemma InProgressLabel(counters: Counters, w1: seq<string>, w2: seq<string>, joined: string)
    requires w1 == ["tasks", "in"] && w2 == ["progress"] && joined == "tasks in progress"
    ensures CounterFor(counters, Join(w1, ' ') + "<br>" + Join(w2, ' ')) == Some(counters.inProgress)
  {
    InProgressWords(w1, w2);
    InProgressJoined(w1 + w2, joined);
    NormOfBrokenLabel(w1, w2);
    InProgressEntry(counters, joined);
  }

  lemma {:induction false} SpaceRunOfLower(s: string)
    ensures SpaceRun(ToLower(s)) == SpaceRun(s)
    decreases |s|
  {
    if s != [] {
      assert ToLower(s)[1..] == ToLower(s[1..]);
      SpaceRunOfLower(s[1..]);
    }
  }

  /** The `/<br\s*\/?>/i` match ignores case. */
  lemma BreakTagOfLower(s: string)
    ensures BreakTag(ToLower(s)) == BreakTag(s)
  {
    if |s| >= 3 {
      assert ToLower(s)[3..] == ToLower(s[3..]);
      SpaceRunOfLower(s[3..]);
    }
  }

  /** Replacing line breaks and lower-casing commute. */
  lemma {:induction false} ReplaceBreaksOfLower(s: string)
    ensures ReplaceBreaks(ToLower(s)) == ToLower(ReplaceBreaks(s))
    decreases |s|
  {
    if s != [] {
      BreakTagOfLower(s);
      var n := BreakTag(s);
      var m := if n > 0 then n else 1;
      ToLowerDrop(s, m);
      ReplaceBreaksOfLower(s[m..]);
      ToLowerConcat(if n > 0 then " " else [s[0]], ReplaceBreaks(s[m..]));
    }
  }

  lemma ToLowerDrop(s: string, m: nat)
    requires m <= |s|
    ensures ToLower(s)[m..] == ToLower(s[m..])
  {
  }

  /** `norm` ignores case: a label in any capitalisation reads as its lower-case form. */
  lemma NormIgnoresCase(raw: string)
    ensures Norm(ToLower(raw)) == Norm(raw)
  {
    var r := ReplaceBreaks(raw);
    ReplaceBreaksOfLower(raw);
    ToLowerOfLower(ToLower(r));
  }

  /** "Tasks in<br>Progress" lower-cases letter by letter to "tasks in<br>progress". */
  lemma CapitalisedLabelLower(caption: string)
    requires caption == "Tasks in<br>Progress"
    ensures ToLower(caption) == "tasks in<br>progress"
  {
    var l := ToLower(caption);
    assert l[0] == 't' && l[12] == 'p';
    forall k | 0 <= k < |caption| && k != 0 && k != 12
      ensures l[k] == caption[k]
    {
      assert !('A' <= caption[k] <= 'Z');
    }
  }

  lemma InProgressLabelWords(w1: seq<string>, w2: seq<string>)
    requires w1 == ["tasks", "in"] && w2 == ["progress"]
    ensures Join(w1, ' ') + "<br>" + Join(w2, ' ') == "tasks in<br>progress"
  {
    assert Join(w1[1..], ' ') == "in";
    assert Join(w2, ' ') == "progress";
  }

  /** The label "Tasks in<br>Progress", capitalised as on the page, shows the in-progress counter. */
  lemma InProgressLabelCapitalised(counters: Counters, caption: string)
    requires caption == "Tasks in<br>Progress"
    ensures CounterFor(counters, caption) == Some(counters.inProgress)
  {
    CapitalisedLabelLower(caption);
    NormIgnoresCase(caption);
    var w1, w2 := ["tasks", "in"], ["progress"];
    InProgressLabelWords(w1, w2);
    InProgressLabel(counters, w1, w2, "tasks in progress");
  }
}
