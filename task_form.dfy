/**
 * The add-task form of the board: the due-date check (`dd/mm/yyyy`, a
 * real calendar day, not in the past), the form validity that drives the
 * create button, and the task record collected from the form.
 */
module TaskForm {
  import opened Wrappers
  import opened Text
  import Priority
  import Progress

  /** `isLeap(y)`: the Gregorian leap-year rule. */
  predicate IsLeap(y: nat) {
    (y % 4 == 0 && y % 100 != 0) || y % 400 == 0
  }

  /** The Gregorian calendar repeats every 400 years. */
  lemma LeapPeriod(y: nat)
    ensures IsLeap(y + 400) == IsLeap(y)
  {
    assert (y + 400) % 4 == y % 4;
    assert (y + 400) % 100 == y % 100;
    assert (y + 400) % 400 == y % 400;
  }

  /** The `mdays` table: the length of `month` (1-based) in `year`. */
  function DaysInMonth(month: nat, year: nat): (n: nat)
    requires 1 <= month <= 12
    ensures 28 <= n <= 31
    ensures n == 29 <==> month == 2 && IsLeap(year)
    ensures n == 31 <==> month in {1, 3, 5, 7, 8, 10, 12}
  {
    [31, if IsLeap(year) then 29 else 28, 31, 30, 31, 30, 31, 31, 30, 31, 30, 31][month - 1]
  }

  /** A day of the calendar. */
  datatype Day = Day(year: nat, month: nat, day: nat)

  predicate IsCalendarDay(d: Day) {
    1 <= d.month <= 12 && 1 <= d.day <= DaysInMonth(d.month, d.year)
  }

  /** `sel >= today` for two midnights. */
  predicate OnOrAfter(a: Day, b: Day) {
    a.year > b.year
    || (a.year == b.year && (a.month > b.month || (a.month == b.month && a.day >= b.day)))
  }

  /** `new Date(y, …)` reads the years 0 to 99 as 1900 to 1999. */
  function DateYear(y: nat): (r: nat)
    ensures r >= 100
    ensures y >= 100 ==> r == y
  {
    if y <= 99 then 1900 + y else y
  }

  predicate DigitIn(c: char, hi: char) {
    '0' <= c <= hi
  }

  /** `^([0-3]\d)\/([0-1]\d)\/(\d{4})$` */
  predicate DueDateShaped(s: string) {
    |s| == 10 && DigitIn(s[0], '3') && DigitIn(s[1], '9') && s[2] == '/'
    && DigitIn(s[3], '1') && DigitIn(s[4], '9') && s[5] == '/'
    && DigitIn(s[6], '9') && DigitIn(s[7], '9') && DigitIn(s[8], '9') && DigitIn(s[9], '9')
  }

  function Digit(c: char): nat
    requires DigitIn(c, '9')
  {
    c as nat - '0' as nat
  }

  /** `parseInt(s, 10)` of a string of decimal digits. */
  function DigitsOf(s: string): nat
    requires forall k :: 0 <= k < |s| ==> DigitIn(s[k], '9')
  {
    if s == [] then 0 else DigitsOf(s[..|s| - 1]) * 10 + Digit(s[|s| - 1])
  }

  /** The day, month and year the pattern captures, each read with `parseInt(…, 10)`. */
  function ReadDueDate(s: string): (r: Option<Day>)
    ensures r.Some? <==> DueDateShaped(s)
    ensures r.Some? ==> r.value.day < 40 && r.value.month < 20 && r.value.year < 10000
  {
    if !DueDateShaped(s) then None
    else
      DigitsBound(s[..2]);
      DigitsBound(s[3..5]);
      DigitsBound(s[6..]);
      Some(Day(DigitsOf(s[6..]), DigitsOf(s[3..5]), DigitsOf(s[..2])))
  }

  lemma DigitsBound(s: string)
    requires 1 <= |s| <= 4 && forall k :: 0 <= k < |s| ==> DigitIn(s[k], '9')
    ensures |s| == 2 && DigitIn(s[0], '3') ==> DigitsOf(s) < 40
    ensures |s| == 2 && DigitIn(s[0], '1') ==> DigitsOf(s) < 20
    ensures |s| == 4 ==> DigitsOf(s) < 10000
  {
    if |s| == 2 {
      TwoDigitsValue(s);
    }
    if |s| == 4 {
      FourDigitsValue(s);
    }
  }

  lemma TwoDigitsValue(s: string)
    requires |s| == 2 && forall k :: 0 <= k < |s| ==> DigitIn(s[k], '9')
    ensures DigitsOf(s) == 10 * Digit(s[0]) + Digit(s[1])
  {
    assert s[..1][..0] == [];
    assert DigitsOf(s[..1]) == Digit(s[0]);
  }

  lemma FourDigitsValue(s: string)
    requires |s| == 4 && forall k :: 0 <= k < |s| ==> DigitIn(s[k], '9')
    ensures DigitsOf(s) == 1000 * Digit(s[0]) + 100 * Digit(s[1]) + 10 * Digit(s[2]) + Digit(s[3])
  {
    assert s[..3][..2] == s[..2];
    TwoDigitsValue(s[..2]);
    assert DigitsOf(s[..3]) == DigitsOf(s[..2]) * 10 + Digit(s[2]);
  }

  /**
   * `isValidDueDate(s)`: false for an empty text, a text not of the form
   * `dd/mm/yyyy`, a month outside 1..12 or a day outside the month;
   * otherwise whether that day is today or later.
   */
  function IsValidDueDate(s: string, today: Day): (ok: bool)
    ensures ok ==> ReadDueDate(s).Some? && IsCalendarDay(ReadDueDate(s).value)
  {
    if s == "" then false
    else
      match ReadDueDate(s)
      case None => false
      case Some(d) =>
        if d.month < 1 || d.month > 12 then false
        else if d.day < 1 || d.day > DaysInMonth(d.month, d.year) then false
        else OnOrAfter(Day(DateYear(d.year), d.month, d.day), today)
  }

  function DigitChar(n: nat): (c: char)
    requires n < 10
    ensures DigitIn(c, '9') && Digit(c) == n
  {
    ('0' as int + n) as char
  }

  /** `n` with two digits, a leading zero when needed. */
  function TwoDigits(n: nat): (s: string)
    requires n < 100
    ensures |s| == 2 && forall k :: 0 <= k < |s| ==> DigitIn(s[k], '9')
  {
    [DigitChar(n / 10), DigitChar(n % 10)]
  }

  /** `n` with four digits, leading zeros when needed. */
  function FourDigits(n: nat): (s: string)
    requires n < 10000
    ensures |s| == 4 && forall k :: 0 <= k < |s| ==> DigitIn(s[k], '9')
  {
    TwoDigits(n / 100) + TwoDigits(n % 100)
  }

  lemma TwoDigitsRoundTrip(n: nat)
    requires n < 100
    ensures DigitsOf(TwoDigits(n)) == n
  {
    TwoDigitsValue(TwoDigits(n));
  }

  lemma TwoDigitsOfValue(s: string)
    requires |s| == 2 && forall k :: 0 <= k < |s| ==> DigitIn(s[k], '9')
    ensures DigitsOf(s) < 100 && TwoDigits(DigitsOf(s)) == s
  {
    TwoDigitsValue(s);
    var n := DigitsOf(s);
    assert n / 10 == Digit(s[0]) && n % 10 == Digit(s[1]);
    assert DigitChar(Digit(s[0])) == s[0];
    assert DigitChar(Digit(s[1])) == s[1];
  }

  lemma FourDigitsRoundTrip(n: nat)
    requires n < 10000
    ensures DigitsOf(FourDigits(n)) == n
  {
    var s := FourDigits(n);
    FourDigitsValue(s);
    TwoDigitsValue(s[..2]);
    TwoDigitsValue(s[2..]);
    assert s[..2] == TwoDigits(n / 100) && s[2..] == TwoDigits(n % 100);
    TwoDigitsRoundTrip(n / 100);
    TwoDigitsRoundTrip(n % 100);
  }

  lemma FourDigitsOfValue(s: string)
    requires |s| == 4 && forall k :: 0 <= k < |s| ==> DigitIn(s[k], '9')
    ensures DigitsOf(s) < 10000 && FourDigits(DigitsOf(s)) == s
  {
    FourDigitsValue(s);
    TwoDigitsValue(s[..2]);
    TwoDigitsValue(s[2..]);
    var n := DigitsOf(s);
    assert n / 100 == DigitsOf(s[..2]) && n % 100 == DigitsOf(s[2..]);
    TwoDigitsOfValue(s[..2]);
    TwoDigitsOfValue(s[2..]);
    assert s == s[..2] + s[2..];
  }

  /** A day written `dd/mm/yyyy` with leading zeros. */
  function FormatDueDate(d: Day): (s: string)
    requires d.day < 40 && d.month < 20 && d.year < 10000
    ensures |s| == 10
  {
    TwoDigits(d.day) + "/" + TwoDigits(d.month) + "/" + FourDigits(d.year)
  }

  /** Reading a written day gives it back. */
  lemma ReadFormattedDueDate(d: Day)
    requires d.day < 40 && d.month < 20 && d.year < 10000
    ensures ReadDueDate(FormatDueDate(d)) == Some(d)
  {
    var s := FormatDueDate(d);
    assert s[..2] == TwoDigits(d.day) && s[3..5] == TwoDigits(d.month) && s[6..] == FourDigits(d.year);
    assert DigitIn(s[0], '3') by {
      assert s[0] == DigitChar(d.day / 10);
    }
    assert DigitIn(s[3], '1') by {
      assert s[3] == DigitChar(d.month / 10);
    }
    assert DueDateShaped(s);
    TwoDigitsRoundTrip(d.day);
    TwoDigitsRoundTrip(d.month);
    FourDigitsRoundTrip(d.year);
  }

  /** Every text the pattern accepts is the written form of the day read from it. */
  lemma FormatReadDueDate(s: string)
    requires ReadDueDate(s).Some?
    ensures FormatDueDate(ReadDueDate(s).value) == s
  {
    TwoDigitsOfValue(s[..2]);
    TwoDigitsOfValue(s[3..5]);
    FourDigitsOfValue(s[6..]);
    assert s == s[..2] + "/" + s[3..5] + "/" + s[6..];
  }

  /** A written calendar day is a valid due date exactly when it is not before today. */
  lemma ValidDueDateIff(d: Day, today: Day)
    requires IsCalendarDay(d) && d.year < 10000
    ensures IsValidDueDate(FormatDueDate(d), today) <==> OnOrAfter(Day(DateYear(d.year), d.month, d.day), today)
  {
    ReadFormattedDueDate(d);
  }

  /** The 29th of February is accepted only in leap years. */
  lemma LeapDayNeedsLeapYear(y: nat, today: Day)
    requires y < 10000
    ensures IsValidDueDate(FormatDueDate(Day(y, 2, 29)), today) ==> IsLeap(y)
    ensures IsLeap(y) && OnOrAfter(Day(DateYear(y), 2, 29), today) ==> IsValidDueDate(FormatDueDate(Day(y, 2, 29)), today)
  {
    ReadFormattedDueDate(Day(y, 2, 29));
  }

  /** What the form's fields hold. */
  datatype FormInputs = FormInputs(
    title: Option<string>,
    description: Option<string>,
    dueDate: Option<string>,
    /** The `data-value` of the selected category item, if one is selected. */
    category: Option<string>,
    activePriority: Option<Priority.PriorityOption>,
    /** The `data-contact-name` of each assigned profile badge. */
    profileNames: seq<Option<string>>,
    /** The text of each subtask row. */
    subtaskTexts: seq<string>)

  /** `getInputValue(selector, fallback)`: the trimmed value, or the fallback when that is empty or the input is missing. */
  function InputValue(input: Option<string>, fallback: string): (r: string)
    ensures input.Some? && !IsBlank(input.value) ==> r == Trim(input.value) && r != ""
    ensures input.None? || IsBlank(input.value) ==> r == fallback
  {
    if input.Some? && Trim(input.value) != "" then Trim(input.value) else fallback
  }

  /** The value read is trimmed whenever the fallback is. */
  lemma InputValueTrimmed(input: Option<string>, fallback: string)
    requires Trim(fallback) == fallback
    ensures Trim(InputValue(input, fallback)) == InputValue(input, fallback)
  {
    if input.Some? {
      TrimIdempotent(input.value);
    }
  }

  predicate HasCategory(f: FormInputs) {
    f.category.Some? && f.category.value != ""
  }

  /** `isTaskFormValid()` of the validation script: a title, a valid due date and a category. */
  predicate IsTaskFormValid(f: FormInputs, today: Day) {
    InputValue(f.title, "") != "" && IsValidDueDate(InputValue(f.dueDate, ""), today) && HasCategory(f)
  }

  /** `isTaskFormValid()` of the modal script: a title, some due date and a category. */
  predicate IsTaskFormFilled(f: FormInputs) {
    InputValue(f.title, "") != "" && InputValue(f.dueDate, "") != "" && HasCategory(f)
  }

  /** The validation script's check is the stricter one. */
  lemma ValidFormIsFilled(f: FormInputs, today: Day)
    ensures IsTaskFormValid(f, today) ==> IsTaskFormFilled(f)
  {
  }

  /** Any due date that is not ten characters long passes only the modal script's check. */
  lemma FilledFormNeedNotBeValid(f: FormInputs, today: Day)
    requires IsTaskFormFilled(f) && |InputValue(f.dueDate, "")| != 10
    ensures !IsTaskFormValid(f, today)
  {
  }

  /** The create button (`.create-btn`). */
  class CreateButton {
    var disabled: bool
    var pointerEvents: string
    var opacity: string

    constructor ()
      ensures disabled && pointerEvents == "none" && opacity == "0.5"
    {
      disabled, pointerEvents, opacity := true, "none", "0.5";
    }

    /** `updateCreateButtonState(isValid)` */
    method UpdateState(isValid: bool)
      modifies this
      ensures disabled == !isValid
      ensures pointerEvents == (if isValid then "auto" else "none")
      ensures opacity == (if isValid then "1" else "0.5")
    {
      if isValid {
        disabled, pointerEvents, opacity := false, "auto", "1";
      } else {
        disabled, pointerEvents, opacity := true, "none", "0.5";
      }
    }
  }

  /** `validateForm()`: the form's validity, which the button (when present) now shows. */
  method ValidateForm(f: FormInputs, today: Day, button: CreateButton?) returns (isValid: bool)
    modifies button
    ensures isValid == IsTaskFormValid(f, today)
    ensures button != null ==> button.disabled == !isValid
  {
    isValid := IsTaskFormValid(f, today);
    if button != null {
      button.UpdateState(isValid);
    }
  }

  /** The assigned names, trimmed, without the empty ones (the `map`/`filter` of `getSelectedUsers`). */
  function TrimmedNames(attrs: seq<Option<string>>): (r: seq<string>)
    ensures |r| <= |attrs|
    ensures forall k :: 0 <= k < |r| ==> r[k] != "" && Trim(r[k]) == r[k]
  {
    if attrs == [] then []
    else
      var rest := TrimmedNames(attrs[..|attrs| - 1]);
      var last := attrs[|attrs| - 1];
      if last.Some? && Trim(last.value) != "" then
        TrimIdempotent(last.value);
        rest + [Trim(last.value)]
      else rest
  }

  /** Each name once, at its first occurrence. */
  function Dedup(names: seq<string>): (r: seq<string>)
    ensures |r| <= |names|
  {
    if names == [] then []
    else
      var rest := Dedup(names[..|names| - 1]);
      if names[|names| - 1] in rest then rest else rest + [names[|names| - 1]]
  }

  predicate Distinct(names: seq<string>) {
    forall i, j :: 0 <= i < j < |names| ==> names[i] != names[j]
  }

  /** The result holds the same names, each once. */
  lemma {:induction false} DedupSpec(names: seq<string>)
    ensures Distinct(Dedup(names))
    ensures forall x :: x in Dedup(names) <==> x in names
    decreases |names|
  {
    if names != [] {
      var init := names[..|names| - 1];
      DedupSpec(init);
      assert names == init + [names[|names| - 1]];
    }
  }

  /** Names already distinct are kept as they are, in order. */
  lemma {:induction false} DedupOfDistinct(names: seq<string>)
    requires Distinct(names)
    ensures Dedup(names) == names
    decreases |names|
  {
    if names != [] {
      var init := names[..|names| - 1];
      DedupOfDistinct(init);
      assert names[|names| - 1] !in init;
    }
  }

  /** `getSelectedUsers()`: the names of the assigned profiles, trimmed, non-empty, each once in first-seen order. */
  method GetSelectedUsers(attrs: seq<Option<string>>) returns (unique: seq<string>)
    ensures unique == Dedup(TrimmedNames(attrs))
  {
    var users := TrimmedNames(attrs);
    var seen: set<string> := {};
    unique := [];
    for i := 0 to |users|
      invariant unique == Dedup(users[..i])
      invariant forall x :: x in seen <==> x in unique
    {
      assert users[..i + 1][..i] == users[..i];
      if users[i] !in seen {
        seen := seen + {users[i]};
        unique := unique + [users[i]];
      }
    }
    assert users[..|users|] == users;
  }

  /** `getSubtasks()`: one open subtask per row, with its trimmed text. */
  function GetSubtasks(texts: seq<string>): (r: seq<Progress.Subtask>)
    ensures |r| == |texts|
    ensures forall k :: 0 <= k < |r| ==> !r[k].completed && r[k].text == Trim(texts[k])
    ensures Progress.CompletedCount(r) == 0
  {
    var r := seq(|texts|, k requires 0 <= k < |texts| => Progress.Subtask(Trim(texts[k]), false));
    NoneCompleted(r);
    r
  }

  lemma {:induction false} NoneCompleted(s: seq<Progress.Subtask>)
    requires forall k :: 0 <= k < |s| ==> !s[k].completed
    ensures Progress.CompletedCount(s) == 0
    decreases |s|
  {
    if s != [] {
      NoneCompleted(s[..|s| - 1]);
    }
  }

  const DefaultCategory: string := "Technical task"

  /** `getSelectedCategory()`: the selected item's value, or "Technical task". */
  function SelectedCategory(category: Option<string>): string {
    if category.Some? then category.value else DefaultCategory
  }

  datatype TaskData = TaskData(
    column: string, description: string, dueDate: string, id: Option<string>,
    priority: string, progress: nat, title: string, users: seq<string>,
    subtasks: seq<Progress.Subtask>, category: string)

  const PriorityFolder: string := "../img/priority-img/"

  /** The icon path template of `getTaskData`, for a level. */
  lemma PriorityTemplate(p: string)
    requires Priority.IsLevel(p)
    ensures PriorityFolder + p + ".png" == Priority.PriorityPath(p)
  {
  }

  /**
   * `getTaskData()`: a new open task in the to-do column, whose stored
   * priority icon names the active priority button.
   */
  function GetTaskData(f: FormInputs): (t: TaskData)
    ensures t.column == "toDoColumn" && t.progress == 0 && t.id.None?
    ensures Priority.ExtractPriority(t.priority) == Priority.AddModalSelectedPriority(f.activePriority)
    ensures t.users == Dedup(TrimmedNames(f.profileNames)) && Distinct(t.users)
    ensures Progress.CompletedCount(t.subtasks) == 0
    ensures f.description.None? || IsBlank(f.description.value) ==> t.description == "No description provided"
  {
    var level := Priority.AddModalSelectedPriority(f.activePriority);
    PriorityTemplate(level);
    Priority.ExtractPriorityOfPath(level);
    DedupSpec(TrimmedNames(f.profileNames));
    TaskData(
      "toDoColumn",
      InputValue(f.description, "No description provided"),
      InputValue(f.dueDate, ""),
      None,
      PriorityFolder + level + ".png",
      0,
      InputValue(f.title, ""),
      Dedup(TrimmedNames(f.profileNames)),
      GetSubtasks(f.subtaskTexts),
      SelectedCategory(f.category))
  }

  /** The next display value of `toggleCategoryOptions`. */
  function Toggled(display: string): (r: string)
    ensures r == "block" || r == "none"
    ensures r == "block" <==> display != "block"
  {
    if display == "block" then "none" else "block"
  }

  /** Two toggles restore an open or closed list; an unset display ends closed. */
  lemma ToggleTwice(display: string)
    ensures display == "block" || display == "none" ==> Toggled(Toggled(display)) == display
    ensures display != "block" && display != "none" ==> Toggled(Toggled(display)) == "none"
  {
  }

  /** The parts of the modal the category list and the subtask input change. */
  class AddTaskModal {
    var categoryDisplay: string
    var subtaskInput: string
    var subtaskItems: seq<string>

    constructor ()
      ensures categoryDisplay == "" && subtaskInput == "" && subtaskItems == []
    {
      categoryDisplay, subtaskInput, subtaskItems := "", "", [];
    }

    /** `toggleCategoryOptions(categoryOptions)` */
    method ToggleCategoryOptions()
      modifies this`categoryDisplay
      ensures categoryDisplay == Toggled(old(categoryDisplay))
    {
      if categoryDisplay == "block" {
        categoryDisplay := "none";
      } else {
        categoryDisplay := "block";
      }
    }

    /** `handleAddSubtask(subtaskInput, container)`: a non-blank text becomes a new row and the input is cleared. */
    method HandleAddSubtask()
      modifies this`subtaskInput, this`subtaskItems
      ensures IsBlank(old(subtaskInput)) ==> subtaskInput == old(subtaskInput) && subtaskItems == old(subtaskItems)
      ensures !IsBlank(old(subtaskInput)) ==> subtaskInput == "" && subtaskItems == old(subtaskItems) + [Trim(old(subtaskInput))]
    {
      var text := Trim(subtaskInput);
      if text != "" {
        subtaskItems := subtaskItems + [text];
        subtaskInput := "";
      }
    }
  }
}
