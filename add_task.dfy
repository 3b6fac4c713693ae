/**
 * The stand-alone add-task page: the assignee picker (an insertion-ordered
 * map from names to colour indices, the rows of its panel and the preview
 * strip of at most three badges and a "+N"), the subtask composer list,
 * the category select and the required-field check.
 */
module AddTaskPage {
  import opened Wrappers
  import opened Text
  import Avatars
  import Progress

  /** An entry of `selectedByName`. */
  datatype Assignee = Assignee(name: string, colorIndex: int)

  /** A contact row of the panel and whether it is marked selected. */
  datatype Row = Row(name: string, selected: bool)

  /** What the preview shows: nothing, or a strip of badges and maybe a "+N". */
  datatype Preview = NoPreview | Strip(badges: seq<Assignee>, more: nat)

  function NamesOf(sel: seq<Assignee>): (r: seq<string>)
    ensures |r| == |sel| && forall k :: 0 <= k < |sel| ==> r[k] == sel[k].name
  {
    seq(|sel|, k requires 0 <= k < |sel| => sel[k].name)
  }

  /** The map's keys are unique and every entry carries the colour of its name. */
  predicate WellFormed(sel: seq<Assignee>) {
    (forall i, j :: 0 <= i < j < |sel| ==> sel[i].name != sel[j].name)
    && forall k :: 0 <= k < |sel| ==> sel[k].colorIndex == Avatars.ColorIdx(sel[k].name)
  }

  /** `selectedByName.delete(name)` */
  function Without(sel: seq<Assignee>, name: string): (r: seq<Assignee>)
    ensures |r| <= |sel|
    ensures forall k :: 0 <= k < |r| ==> r[k] in sel && r[k].name != name
    ensures forall a {:trigger a in r} :: a in sel && a.name != name ==> a in r
  {
    if sel == [] then []
    else
      var rest := Without(sel[..|sel| - 1], name);
      var last := sel[|sel| - 1];
      assert forall a :: a in sel ==> a in sel[..|sel| - 1] || a == last;
      if last.name == name then rest else rest + [last]
  }

  lemma WithoutAbsent(sel: seq<Assignee>, name: string)
    requires name !in NamesOf(sel)
    ensures Without(sel, name) == sel
  {
    forall k | 0 <= k < |sel|
      ensures sel[k].name != name
    {
      assert NamesOf(sel)[k] == sel[k].name;
    }
    WithoutNoMatch(sel, name);
  }

  lemma {:induction false} WithoutNoMatch(sel: seq<Assignee>, name: string)
    requires forall k :: 0 <= k < |sel| ==> sel[k].name != name
    ensures Without(sel, name) == sel
    decreases |sel|
  {
    if sel != [] {
      var init, last := sel[..|sel| - 1], sel[|sel| - 1];
      WithoutNoMatch(init, name);
      assert init + [last] == sel;
    }
  }

  lemma {:induction false} WithoutWellFormed(sel: seq<Assignee>, name: string)
    requires WellFormed(sel)
    ensures WellFormed(Without(sel, name))
    decreases |sel|
  {
    if sel != [] {
      var init := sel[..|sel| - 1];
      WithoutWellFormed(init, name);
      var rest := Without(init, name);
      var last := sel[|sel| - 1];
      if last.name != name {
        forall k | 0 <= k < |rest|
          ensures rest[k].name != last.name
        {
          var j :| 0 <= j < |init| && init[j] == rest[k];
        }
      }
    }
  }

  /** `toggleAssignee(state, name)` on the map: delete a chosen name, add an unchosen one at the end. */
  function Toggle(sel: seq<Assignee>, name: string): seq<Assignee> {
    if name in NamesOf(sel) then Without(sel, name) else sel + [Assignee(name, Avatars.ColorIdx(name))]
  }

  /** Toggling flips exactly the membership of that name and keeps the map well formed. */
  lemma ToggleFlips(sel: seq<Assignee>, name: string)
    requires WellFormed(sel)
    ensures WellFormed(Toggle(sel, name))
    ensures name in NamesOf(Toggle(sel, name)) <==> name !in NamesOf(sel)
    ensures forall x :: x != name ==> (x in NamesOf(Toggle(sel, name)) <==> x in NamesOf(sel))
  {
    if name in NamesOf(sel) {
      WithoutWellFormed(sel, name);
      var r := Without(sel, name);
      forall x | x != name
        ensures x in NamesOf(r) <==> x in NamesOf(sel)
      {
        if x in NamesOf(sel) {
          var k :| 0 <= k < |sel| && sel[k].name == x;
          assert sel[k] in r;
        }
      }
    } else {
      var r := sel + [Assignee(name, Avatars.ColorIdx(name))];
      assert NamesOf(r) == NamesOf(sel) + [name];
    }
  }

  /**
   * Two toggles of a name restore the selection's entries; the order
   * changes only when the name was chosen before others still chosen.
   */
  lemma ToggleTwice(sel: seq<Assignee>, name: string)
    requires WellFormed(sel)
    ensures forall a :: a in Toggle(Toggle(sel, name), name) <==> a in sel
    ensures name !in NamesOf(sel) ==> Toggle(Toggle(sel, name), name) == sel
  {
    var once := Toggle(sel, name);
    if name in NamesOf(sel) {
      ToggleFlips(sel, name);
      var k :| 0 <= k < |sel| && sel[k].name == name;
      assert sel[k] == Assignee(name, Avatars.ColorIdx(name));
      forall a | a in sel
        ensures a in Toggle(once, name)
      {
        if a.name != name {
          assert a in once;
        }
      }
    } else {
      var added := Assignee(name, Avatars.ColorIdx(name));
      assert NamesOf(once) == NamesOf(sel) + [name];
      WithoutAbsent(sel, name);
      assert once[..|once| - 1] == sel;
    }
  }

  /** `renderAssigneePreview(state)`: the first three entries as badges and a "+N" for the rest. */
  function PreviewOf(sel: seq<Assignee>): (p: Preview)
    ensures sel == [] <==> p.NoPreview?
    ensures p.Strip? ==> |p.badges| <= 3 && |p.badges| + p.more == |sel| && p.badges == sel[..|p.badges|]
    ensures p.Strip? ==> (p.more > 0 <==> |sel| > 3)
  {
    if sel == [] then NoPreview
    else if |sel| <= 3 then Strip(sel, 0)
    else Strip(sel[..3], |sel| - 3)
  }

  /** Every panel row shows whether its name is chosen. */
  predicate RowsSynced(rows: seq<Row>, sel: seq<Assignee>) {
    forall k :: 0 <= k < |rows| ==> rows[k].selected == (rows[k].name in NamesOf(sel))
  }

  /** The picker's state (`state` of `initAssigned`). */
  class AssigneePicker {
    var selected: seq<Assignee>
    var rows: seq<Row>
    var preview: Preview
    var inputError: bool

    predicate Valid()
      reads this
    {
      WellFormed(selected) && RowsSynced(rows, selected) && preview == PreviewOf(selected)
    }

    constructor ()
      ensures Valid() && selected == [] && rows == [] && !inputError
    {
      selected, rows, preview, inputError := [], [], NoPreview, false;
    }

    /** `rebuildContacts(state)`: one row per fetched contact, marked when chosen. */
    method RebuildContacts(contacts: seq<string>)
      requires Valid()
      modifies this`rows
      ensures Valid()
      ensures |rows| == |contacts| && forall k :: 0 <= k < |rows| ==> rows[k].name == contacts[k]
    {
      rows := [];
      for i := 0 to |contacts|
        invariant |rows| == i && RowsSynced(rows, selected)
        invariant forall k :: 0 <= k < i ==> rows[k].name == contacts[k]
      {
        rows := rows + [Row(contacts[i], contacts[i] in NamesOf(selected))];
      }
    }

    /** Flip the marking of every row for `name` (`classList.toggle` over the panel). */
    method FlipRows(name: string)
      modifies this`rows
      ensures |rows| == |old(rows)|
      ensures forall k :: 0 <= k < |rows| ==>
        rows[k] == if old(rows[k]).name == name then old(rows[k]).(selected := !old(rows[k]).selected) else old(rows[k])
    {
      var i := 0;
      while i < |rows|
        invariant 0 <= i <= |rows| == |old(rows)|
        invariant forall k :: 0 <= k < i ==>
          rows[k] == if old(rows[k]).name == name then old(rows[k]).(selected := !old(rows[k]).selected) else old(rows[k])
        invariant forall k :: i <= k < |rows| ==> rows[k] == old(rows[k])
      {
        if rows[i].name == name {
          rows := rows[i := rows[i].(selected := !rows[i].selected)];
        }
        i := i + 1;
      }
    }

    /** Unmark every row for `name` (`markRowDeselected`). */
    method DeselectRows(name: string)
      modifies this`rows
      ensures |rows| == |old(rows)|
      ensures forall k :: 0 <= k < |rows| ==>
        rows[k] == if old(rows[k]).name == name then old(rows[k]).(selected := false) else old(rows[k])
    {
      var i := 0;
      while i < |rows|
        invariant 0 <= i <= |rows| == |old(rows)|
        invariant forall k :: 0 <= k < i ==>
          rows[k] == if old(rows[k]).name == name then old(rows[k]).(selected := false) else old(rows[k])
        invariant forall k :: i <= k < |rows| ==> rows[k] == old(rows[k])
      {
        if rows[i].name == name {
          rows := rows[i := rows[i].(selected := false)];
        }
        i := i + 1;
      }
    }

    /** `toggleAssignee(state, fullName)`; adding also clears the field's error. */
    method ToggleAssignee(name: string)
      requires Valid()
      modifies this`selected, this`rows, this`preview, this`inputError
      ensures Valid()
      ensures selected == Toggle(old(selected), name)
      ensures name in NamesOf(selected) <==> name !in NamesOf(old(selected))
      ensures name in NamesOf(selected) ==> !inputError
      ensures name !in NamesOf(selected) ==> inputError == old(inputError)
    {
      ToggleFlips(selected, name);
      if name in NamesOf(selected) {
        selected := Without(selected, name);
      } else {
        selected := selected + [Assignee(name, Avatars.ColorIdx(name))];
        inputError := false;
      }
      FlipRows(name);
      preview := PreviewOf(selected);
    }

    /** A click on a preview badge: the name leaves the map and its rows are unmarked. */
    method RemoveBadge(name: string)
      requires Valid()
      modifies this`selected, this`rows, this`preview
      ensures Valid()
      ensures selected == Without(old(selected), name) && name !in NamesOf(selected)
    {
      WithoutWellFormed(selected, name);
      if name in NamesOf(selected) {
        ToggleFlips(selected, name);
      } else {
        WithoutAbsent(selected, name);
      }
      selected := Without(selected, name);
      DeselectRows(name);
      preview := PreviewOf(selected);
    }

    /** `clearSelection()` / `clearAssignees(state)` */
    method ClearSelection()
      requires Valid()
      modifies this`selected, this`rows, this`preview
      ensures Valid() && selected == [] && preview == NoPreview
      ensures |rows| == |old(rows)| && forall k :: 0 <= k < |rows| ==> rows[k] == old(rows[k]).(selected := false)
    {
      selected := [];
      preview := PreviewOf(selected);
      var i := 0;
      while i < |rows|
        invariant 0 <= i <= |rows| == |old(rows)|
        invariant selected == [] && preview == NoPreview
        invariant forall k :: 0 <= k < i ==> rows[k] == old(rows[k]).(selected := false)
        invariant forall k :: i <= k < |rows| ==> rows[k] == old(rows[k])
      {
        rows := rows[i := rows[i].(selected := false)];
        i := i + 1;
      }
    }

    /** `getSelectedUsers()`: the chosen names in the order they were chosen. */
    function SelectedUsers(): (r: seq<string>)
      reads this
      requires Valid()
      ensures |r| == |selected| && forall i, j :: 0 <= i < j < |r| ==> r[i] != r[j]
    {
      NamesOf(selected)
    }
  }

  /** The text an edited subtask keeps: the trimmed input when committed and not blank, else `previous`. */
  function EditedText(previous: string, commit: bool, input: string): (r: string)
    requires previous != "" && Trim(previous) == previous
    ensures r != "" && Trim(r) == r
    ensures commit && !IsBlank(input) ==> r == Trim(input)
    ensures !commit || IsBlank(input) ==> r == previous
  {
    TrimIdempotent(input);
    var val := if commit then Trim(input) else previous;
    if val != "" then val else previous
  }

  /** Replacing one trimmed, non-empty item by another keeps every item so. */
  lemma SetKeepsTrimmed(items: seq<string>, i: nat, t: string)
    requires i < |items| && forall k :: 0 <= k < |items| ==> items[k] != "" && Trim(items[k]) == items[k]
    requires t != "" && Trim(t) == t
    ensures var s := items[i := t]; forall k :: 0 <= k < |s| ==> s[k] != "" && Trim(s[k]) == s[k]
  {
    var s := items[i := t];
    forall k | 0 <= k < |s|
      ensures s[k] != "" && Trim(s[k]) == s[k]
    {
      if k != i {
        assert s[k] == items[k];
      }
    }
  }

  /** The subtask list of the composer and whether its shell is open. */
  class SubtaskComposer {
    var items: seq<string>
    var shellOpen: bool

    /** Every item's text is trimmed and non-empty. */
    predicate Valid()
      reads this
    {
      forall k :: 0 <= k < |items| ==> items[k] != "" && Trim(items[k]) == items[k]
    }

    constructor ()
      ensures Valid() && items == [] && !shellOpen
    {
      items, shellOpen := [], false;
    }

    /** The add button: `appendSubtask(list, input.value.trim())`, which ignores empty text. */
    method AddFromInput(input: string)
      requires Valid()
      modifies this
      ensures Valid()
      ensures IsBlank(input) ==> items == old(items) && shellOpen == old(shellOpen)
      ensures !IsBlank(input) ==> items == old(items) + [Trim(input)] && shellOpen
    {
      var t := Trim(input);
      TrimIdempotent(input);
      if t != "" {
        items := items + [t];
        shellOpen := true;
      }
    }

    /** The delete button of item `i`, then `checkAutoClose(list)`: the shell closes once the list is empty. */
    method DeleteItem(i: nat)
      requires Valid() && i < |items|
      modifies this
      ensures Valid()
      ensures items == old(items)[..i] + old(items)[i + 1..]
      ensures shellOpen == (old(shellOpen) && items != [])
    {
      items := items[..i] + items[i + 1..];
      if items == [] {
        shellOpen := false;
      }
    }

    /**
     * `finish(commit)` of `enterEditMode`: the trimmed input when committing
     * (Enter or blur) and not blank, otherwise the old text.
     */
    method FinishEdit(i: nat, commit: bool, input: string)
      requires Valid() && i < |items|
      modifies this`items
      ensures Valid()
      ensures |items| == |old(items)| && forall k :: 0 <= k < |items| && k != i ==> items[k] == old(items[k])
      ensures items[i] == if commit && !IsBlank(input) then Trim(input) else old(items[i])
    {
      var text := EditedText(Trim(items[i]), commit, input);
      SetKeepsTrimmed(items, i, text);
      items := items[i := text];
    }

    /** `collect()`: every item as an open subtask. */
    function Collect(): (r: seq<Progress.Subtask>)
      reads this
      ensures |r| == |items| && forall k :: 0 <= k < |r| ==> r[k] == Progress.Subtask(items[k], false)
    {
      var texts := items;
      seq(|texts|, k requires 0 <= k < |texts| => Progress.Subtask(texts[k], false))
    }
  }

  /** An option of the category select. */
  datatype SelectOption = SelectOption(value: string, text: string, disabled: bool, hidden: bool, selected: bool)

  /** `ensureCategoryOptions(container)` over the select's options. */
  function EnsureCategoryOptions(options: seq<SelectOption>): (r: seq<SelectOption>)
    ensures |r| >= |options|
    ensures options != [] && IsBlank(options[0].value) ==>
      r[0] == options[0].(disabled := true, hidden := true, selected := true)
    ensures |r| == |options| + 2 <==> |options| == 1 && IsBlank(options[0].value)
    ensures |r| != |options| + 2 ==> |r| == |options|
    ensures |r| == |options| + 2 ==> r[1..] == [SelectOption("technical", "Technical Task", false, false, false), SelectOption("user", "User Story", false, false, false)]
    ensures forall k :: 1 <= k < |options| ==> r[k] == options[k]
  {
    var marked := if options != [] && IsBlank(options[0].value) then
      options[0 := options[0].(disabled := true, hidden := true, selected := true)] else options;
    if |options| == 1 && IsBlank(options[0].value) then
      marked + [SelectOption("technical", "Technical Task", false, false, false), SelectOption("user", "User Story", false, false, false)]
    else marked
  }

  /** The placeholder-only select gains the two categories once; a second call adds nothing. */
  lemma EnsureCategoryOptionsIdempotent(options: seq<SelectOption>)
    ensures EnsureCategoryOptions(EnsureCategoryOptions(options)) == EnsureCategoryOptions(options)
  {
  }

  /** The three required fields of the page. */
  datatype Field = TitleField | DueDateField | CategoryField

  /** A field's value is missing when the element is absent or its trimmed value is empty. */
  predicate Missing(value: Option<string>) {
    value.None? || IsBlank(value.value)
  }

  /**
   * `validate()`: the fields flagged as required, in page order, and
   * whether none was.
   */
  function Validate(title: Option<string>, due: Option<string>, category: Option<string>): (r: (bool, seq<Field>))
    ensures r.0 <==> r.1 == []
    ensures TitleField in r.1 <==> Missing(title)
    ensures DueDateField in r.1 <==> Missing(due)
    ensures CategoryField in r.1 <==> Missing(category)
    ensures |r.1| <= 3
  {
    var flagged := Flagged(Missing(title), Missing(due), Missing(category));
    (flagged == [], flagged)
  }

  /** The fields whose flag is set, in page order. */
  function Flagged(title: bool, due: bool, category: bool): (r: seq<Field>)
    ensures TitleField in r <==> title
    ensures DueDateField in r <==> due
    ensures CategoryField in r <==> category
    ensures |r| <= 3
  {
    (if title then [TitleField] else [])
    + (if due then [DueDateField] else [])
    + (if category then [CategoryField] else [])
  }
}
