/**
 * The subtask list of the task edit dialogs: reading subtask text out of
 * the shapes the database may hold, normalising the stored list, the rows
 * of `#editSubtasksList` (one per subtask, in order), adding, deleting and
 * editing rows, and reading the rows back into subtasks.
 */
module EditSubtasks {
  import opened Wrappers
  import opened Text
  import opened Progress

  /**
   * A JavaScript value where a subtask is expected: a string, an object
   * (its `text`, its `innerText` when that is a string, and whether its
   * `completed` is truthy), or any other primitive, `null` and `undefined`.
   */
  datatype Value = Str(s: string) | Obj(text: Option<Value>, innerText: Option<string>, completed: bool) | Prim

  /**
   * The text `extractSubtaskText` finds with `steps` unwrappings of `.text`
   * left: a string is the text; an object is unwrapped through `.text`,
   * or gives its string `innerText`; anything else gives `''`.
   */
  function TextAfter(t: Value, steps: nat): string
    decreases steps
  {
    match t
    case Str(s) => s
    case Prim => ""
    case Obj(text, innerText, _) =>
      if steps == 0 then ""
      else if text.Some? then TextAfter(text.value, steps - 1)
      else if innerText.Some? then innerText.value
      else ""
  }

  /** `extractSubtaskText(value)`: at most three unwrappings of `.text`. */
  method ExtractSubtaskText(value: Value) returns (r: string)
    ensures r == TextAfter(value, 3)
  {
    if value.Str? {
      return value.s;
    }
    var t := value;
    var i := 0;
    while i < 3 && t.Obj?
      invariant 0 <= i <= 3
      invariant TextAfter(t, 3 - i) == TextAfter(value, 3)
      decreases 3 - i
    {
      if t.text.Some? {
        t := t.text.value;
        i := i + 1;
        continue;
      }
      if t.innerText.Some? {
        return t.innerText.value;
      }
      break;
    }
    if t.Str? {
      return t.s;
    }
    return "";
  }

  /** `n` objects nested through `.text` around `x`. */
  function Nest(n: nat, x: Value): Value {
    if n == 0 then x else Obj(Some(Nest(n - 1, x)), None, false)
  }

  lemma {:induction false} NestUnwraps(n: nat, k: nat, x: Value)
    requires n <= k
    ensures TextAfter(Nest(n, x), k) == TextAfter(x, k - n)
    decreases n
  {
    if n > 0 {
      NestUnwraps(n - 1, k - 1, x);
    }
  }

  lemma {:induction false} NestTooDeep(n: nat, k: nat, x: Value)
    requires n > k
    ensures TextAfter(Nest(n, x), k) == ""
    decreases k
  {
    if k > 0 {
      NestTooDeep(n - 1, k - 1, x);
    }
  }

  /** A string wrapped in up to three `.text` objects is found; four are too deep and give `''`. */
  lemma ExtractFindsNestedText(n: nat, s: string)
    ensures n <= 3 ==> TextAfter(Nest(n, Str(s)), 3) == s
    ensures n > 3 ==> TextAfter(Nest(n, Str(s)), 3) == ""
  {
    if n <= 3 {
      NestUnwraps(n, 3, Str(s));
    } else {
      NestTooDeep(n, 3, Str(s));
    }
  }

  /** What `currentTask.subtasks` may hold: nothing (falsy), an array, or an object keyed by id. */
  datatype SubtaskField = Absent | List(items: seq<Value>) | Keyed(values: seq<Value>)

  /** The entries in order (`Object.values` for a keyed object). */
  function Elements(f: SubtaskField): seq<Value> {
    match f
    case Absent => []
    case List(items) => items
    case Keyed(values) => values
  }

  /** One entry of `normalizeSubtasks`: its text and `!!(st && st.completed)`. */
  function NormalizeSubtask(v: Value): Subtask {
    Subtask(TextAfter(v, 3), v.Obj? && v.completed)
  }

  /** `normalizeSubtasks(subtasks)`: entry by entry, in order; nothing for a falsy field. */
  function NormalizeSubtasks(f: SubtaskField): (r: seq<Subtask>)
    ensures |r| == |Elements(f)|
    ensures forall k :: 0 <= k < |r| ==> r[k] == NormalizeSubtask(Elements(f)[k])
  {
    var e := Elements(f);
    seq(|e|, k requires 0 <= k < |e| => NormalizeSubtask(e[k]))
  }

  /** A subtask as the dialogs store it: `{text, completed}`. */
  function Stored(st: Subtask): Value {
    Obj(Some(Str(st.text)), None, st.completed)
  }

  function StoredList(subtasks: seq<Subtask>): (r: seq<Value>)
    ensures |r| == |subtasks| && forall k :: 0 <= k < |r| ==> r[k] == Stored(subtasks[k])
  {
    seq(|subtasks|, k requires 0 <= k < |subtasks| => Stored(subtasks[k]))
  }

  /** Normalising stored subtasks gives them back, in an array or keyed by id. */
  lemma NormalizeStored(subtasks: seq<Subtask>)
    ensures NormalizeSubtasks(List(StoredList(subtasks))) == subtasks
    ensures NormalizeSubtasks(Keyed(StoredList(subtasks))) == subtasks
  {
  }

  /**
   * `normalizeCurrentTaskSubtasks()` of both dialogs: a falsy field becomes
   * an empty array, a keyed object the array of its values.
   */
  function NormalizeField(f: SubtaskField): (r: SubtaskField)
    ensures r.List? && r.items == Elements(f)
  {
    List(Elements(f))
  }

  /**
   * `normalizeCurrentSubtasks()` of `taskDataUtils.js`: a keyed object
   * becomes its values; anything else is returned as it is.
   */
  function NormalizeCurrentSubtasks(f: SubtaskField): (r: SubtaskField)
    ensures f.Keyed? ==> r == List(f.values)
    ensures !f.Keyed? ==> r == f
  {
    if f.Keyed? then List(f.values) else f
  }

  /** Both normalisations keep the entries and their order, and are idempotent. */
  lemma NormalizationsKeepEntries(f: SubtaskField)
    ensures Elements(NormalizeField(f)) == Elements(f) && NormalizeField(NormalizeField(f)) == NormalizeField(f)
    ensures Elements(NormalizeCurrentSubtasks(f)) == Elements(f)
    ensures NormalizeCurrentSubtasks(NormalizeCurrentSubtasks(f)) == NormalizeCurrentSubtasks(f)
  {
  }

  predicate NoDupRows(rows: seq<nat>) {
    forall i, j :: 0 <= i < j < |rows| ==> rows[i] != rows[j]
  }

  /** `Array.from(list.children).indexOf(item)` */
  function IndexOfRow(rows: seq<nat>, item: nat): (i: int)
    ensures -1 <= i < |rows|
    ensures i == -1 <==> item !in rows
    ensures i >= 0 ==> rows[i] == item && item !in rows[..i]
  {
    if rows == [] then -1
    else if rows[0] == item then 0
    else
      var j := IndexOfRow(rows[1..], item);
      if j == -1 then -1
      else
        assert rows[..j + 1] == [rows[0]] + rows[1..][..j];
        j + 1
  }

  /** `item.remove()` on a row of the list. */
  function RemoveRow(rows: seq<nat>, item: nat): (r: seq<nat>)
    ensures item !in r
    ensures forall x :: x in r <==> x in rows && x != item
  {
    if rows == [] then []
    else if rows[0] == item then RemoveRow(rows[1..], item)
    else [rows[0]] + RemoveRow(rows[1..], item)
  }

  /** Removing a row present once takes out exactly its position. */
  lemma {:induction false} RemoveRowAt(rows: seq<nat>, item: nat)
    requires NoDupRows(rows) && item in rows
    ensures var i := IndexOfRow(rows, item);
      RemoveRow(rows, item) == rows[..i] + rows[i + 1..]
    decreases |rows|
  {
    if rows[0] == item {
      assert item !in rows[1..];
      RemoveRowAbsent(rows[1..], item);
    } else {
      RemoveRowAt(rows[1..], item);
      var j := IndexOfRow(rows[1..], item);
      assert rows[..j + 1] == [rows[0]] + rows[1..][..j];
      assert rows[j + 2..] == rows[1..][j + 1..];
    }
  }

  lemma {:induction false} RemoveRowAbsent(rows: seq<nat>, item: nat)
    requires item !in rows
    ensures RemoveRow(rows, item) == rows
    decreases |rows|
  {
    if rows != [] {
      RemoveRowAbsent(rows[1..], item);
    }
  }

  /** `if (idx !== -1) subtasks.splice(idx, 1)`; a splice past the end removes nothing. */
  function SpliceOut<T>(s: seq<T>, idx: int): (r: seq<T>)
    ensures !(0 <= idx < |s|) ==> r == s
    ensures 0 <= idx < |s| ==> |r| == |s| - 1 && r == s[..idx] + s[idx + 1..]
  {
    if 0 <= idx < |s| then s[..idx] + s[idx + 1..] else s
  }

  /**
   * The delete handlers as written (`handleSubtaskDelete`, the row's own
   * delete icon in both dialogs): the row is detached first and its index
   * looked up afterwards.
   */
  function DeleteAsWritten(rows: seq<nat>, items: seq<Value>, item: nat): (seq<nat>, seq<Value>)
  {
    var rest := RemoveRow(rows, item);
    var idx := IndexOfRow(rest, item);
    assert idx == -1;
    (rest, SpliceOut(items, idx))
  }

  /**
   * As written, deleting a row never removes a subtask: afterwards the
   * list has one row fewer than the task's `subtasks` has entries, and
   * the deleted subtask stays in them until Save re-reads the rows.
   */
  lemma DeleteAsWrittenKeepsSubtask(rows: seq<nat>, items: seq<Value>, item: nat)
    requires |rows| == |items| && NoDupRows(rows) && item in rows
    ensures DeleteAsWritten(rows, items, item).1 == items
    ensures |DeleteAsWritten(rows, items, item).0| == |items| - 1
  {
    RemoveRowAt(rows, item);
  }

  /**
   * After a delete as written, the rows behind the deleted one have moved
   * up one place while the stored subtasks have not, so an edit of row
   * `j`, which finds its subtask by the row's position, writes into the
   * entry before its own: the deleted subtask's when `j == k + 1`.
   */
  lemma EditAfterDeleteAsWrittenMisses(rows: seq<nat>, items: seq<Value>, k: nat, j: nat)
    requires |rows| == |items| && NoDupRows(rows) && k < j < |rows|
    ensures var (rest, its) := DeleteAsWritten(rows, items, rows[k]);
      its == items && IndexOfRow(rest, rows[j]) == j - 1
  {
    assert rows[k] in rows;
    RemoveRowAt(rows, rows[k]);
    DropAtDistinct(rows, k);
    var rest := rows[..k] + rows[k + 1..];
    assert rest[j - 1] == rows[j];
    DeleteAsWrittenKeepsSubtask(rows, items, rows[k]);
  }

  /** Deleting a row with its index looked up while the row is still in the list. */
  function DeleteRow(rows: seq<nat>, items: seq<Value>, item: nat): (seq<nat>, seq<Value>)
  {
    (RemoveRow(rows, item), SpliceOut(items, IndexOfRow(rows, item)))
  }

  /**
   * With the index taken first, the row and its subtask leave together:
   * both lose the same position, so every remaining row still shows the
   * subtask at its own position.
   */
  lemma DeleteRowKeepsRowsAligned(rows: seq<nat>, items: seq<Value>, item: nat)
    requires |rows| == |items| && NoDupRows(rows) && item in rows
    ensures var (r, s) := DeleteRow(rows, items, item);
      var i := IndexOfRow(rows, item);
      |r| == |s| && NoDupRows(r)
      && r == rows[..i] + rows[i + 1..] && s == items[..i] + items[i + 1..]
  {
    RemoveRowAt(rows, item);
    DropAtDistinct(rows, IndexOfRow(rows, item));
  }

  lemma DropAtDistinct(rows: seq<nat>, i: nat)
    requires NoDupRows(rows) && i < |rows|
    ensures NoDupRows(rows[..i] + rows[i + 1..])
  {
    var r := rows[..i] + rows[i + 1..];
    forall a, b | 0 <= a < b < |r| ensures r[a] != r[b] {
      var a' := if a < i then a else a + 1;
      var b' := if b < i then b else b + 1;
      assert r[a] == rows[a'] && r[b] == rows[b'];
    }
  }

  /** A fresh row identity appended keeps the rows distinct and below the next identity. */
  lemma AppendFreshRow(rows: seq<nat>, n: nat)
    requires NoDupRows(rows) && forall r :: r in rows ==> r < n
    ensures NoDupRows(rows + [n]) && forall r :: r in rows + [n] ==> r < n + 1
  {
    var t := rows + [n];
    forall a, b | 0 <= a < b < |t| ensures t[a] != t[b] {
      if b == |rows| {
        assert t[a] == rows[a] && rows[a] in rows;
      } else {
        assert t[a] == rows[a] && t[b] == rows[b];
      }
    }
  }

  /** Removing a row keeps the remaining ones distinct. */
  lemma RemoveRowDistinct(rows: seq<nat>, item: nat)
    requires NoDupRows(rows)
    ensures NoDupRows(RemoveRow(rows, item))
  {
    if item in rows {
      RemoveRowAt(rows, item);
      DropAtDistinct(rows, IndexOfRow(rows, item));
    } else {
      RemoveRowAbsent(rows, item);
    }
  }

  /** Deleting a row that is not in the list changes nothing, as written or corrected. */
  lemma DeleteAbsentRow(rows: seq<nat>, items: seq<Value>, item: nat)
    requires item !in rows
    ensures DeleteRow(rows, items, item) == (rows, items)
    ensures DeleteAsWritten(rows, items, item) == (rows, items)
  {
    RemoveRowAbsent(rows, item);
  }

  /**
   * The text a finished inline edit keeps (`input.value.trim() || current`,
   * and the blur handlers that only assign a non-blank text).
   */
  function EditedText(current: string, input: string): (r: string)
    ensures IsBlank(input) ==> r == current
    ensures !IsBlank(input) ==> r == Trim(input) && !IsBlank(r)
  {
    var t := Trim(input);
    TrimIdempotent(input);
    if t != "" then t else current
  }

  const BulletChar: char := '•'

  /** The span text of a row: `• ` and the subtask's text. */
  function Bullet(text: string): string {
    [BulletChar, ' '] + text
  }

  /** `text.replace(/^•\s*\/, '')` */
  function StripBullet(s: string): string {
    if |s| > 0 && s[0] == BulletChar then TrimStart(s[1..]) else s
  }

  /** Editing a row starts from its text without the bullet and its leading blanks. */
  lemma StripBulletRoundTrip(text: string)
    ensures StripBullet(Bullet(text)) == TrimStart(text)
  {
    var b := Bullet(text);
    assert b[1..] == [' '] + text;
    assert TrimStart(b[1..]) == TrimStart(text);
  }

  /** `s.replace(pat, '')` for a string pattern: the first occurrence is removed. */
  function RemoveFirst(s: string, pat: string): string
    requires pat != []
  {
    if |s| < |pat| then s
    else if s[..|pat|] == pat then s[|pat|..]
    else [s[0]] + RemoveFirst(s[1..], pat)
  }

  lemma RemoveFirstPrefix(pat: string, t: string)
    requires pat != []
    ensures RemoveFirst(pat + t, pat) == t
  {
    assert (pat + t)[..|pat|] == pat;
  }

  lemma {:induction false} RemoveFirstAbsent(s: string, pat: string)
    requires pat != [] && !Contains(s, pat)
    ensures RemoveFirst(s, pat) == s
    decreases |s|
  {
    if |s| >= |pat| {
      if s[..|pat|] == pat {
        ContainsAt(s, pat, 0);
      }
      assert !Contains(s[1..], pat) by {
        if Contains(s[1..], pat) {
          var i: nat :| i + |pat| <= |s[1..]| && MatchAt(s[1..], pat, i);
          assert s[i + 1..i + 1 + |pat|] == s[1..][i..i + |pat|];
          ContainsAt(s, pat, i + 1);
        }
      }
      RemoveFirstAbsent(s[1..], pat);
      assert s == [s[0]] + s[1..];
    }
  }

  /** `getCleanText(span)`: the first `• ` is removed, wherever it is. */
  function CleanText(spanText: string): string {
    RemoveFirst(spanText, [BulletChar, ' '])
  }

  /** The bullet a row adds is exactly what `getCleanText` takes away. */
  lemma CleanTextRoundTrip(text: string)
    ensures CleanText(Bullet(text)) == text
  {
    RemoveFirstPrefix([BulletChar, ' '], text);
  }

  /** Only the first `• ` goes. */
  lemma CleanTextRemovesOnlyFirst(text: string)
    ensures CleanText(Bullet(Bullet(text))) == Bullet(text)
  {
    CleanTextRoundTrip(Bullet(text));
  }

  /** The bullet as it reads when UTF-8 bytes are decoded as Windows-1252. */
  const MisreadBullet: string := ['â', '€', '¢']

  /** `span.innerText.replace(/^(•|â€¢)\s*\/, '').trim()` */
  function RowText(spanText: string): string {
    var s := if |spanText| > 0 && spanText[0] == BulletChar then spanText[1..]
             else if |spanText| >= 3 && spanText[..3] == MisreadBullet then spanText[3..]
             else spanText;
    Trim(TrimStart(s))
  }

  /** `span.innerText.replace('â€¢ ', '').trim()` of `newModalContr.js` */
  function ContrRowText(spanText: string): string {
    Trim(RemoveFirst(spanText, MisreadBullet + " "))
  }

  /** A row of `#editSubtasksList` as the readers see it: its span text, if any, and its checkbox, if any. */
  datatype RowView = RowView(span: Option<string>, checkbox: Option<bool>)

  /** The row a subtask is shown in. */
  function RowOf(st: Subtask): RowView {
    RowView(Some(Bullet(st.text)), Some(st.completed))
  }

  function RowsOf(subtasks: seq<Subtask>): (r: seq<RowView>)
    ensures |r| == |subtasks| && forall k :: 0 <= k < |r| ==> r[k] == RowOf(subtasks[k])
  {
    seq(|subtasks|, k requires 0 <= k < |subtasks| => RowOf(subtasks[k]))
  }

  /** The subtasks a reader collects: rows without a span are skipped; no checkbox reads as not done. */
  function ReadRows(rows: seq<RowView>, contr: bool): (r: seq<Subtask>)
    ensures |r| <= |rows|
  {
    if rows == [] then []
    else
      var init := ReadRows(rows[..|rows| - 1], contr);
      match ReadRow(rows[|rows| - 1], contr)
      case None => init
      case Some(st) => init + [st]
  }

  /** The subtask one row reads as, if it has a span. */
  function ReadRow(row: RowView, contr: bool): (r: Option<Subtask>)
    ensures r.Some? <==> row.span.Some?
  {
    if row.span.None? then None
    else
      var text := if contr then ContrRowText(row.span.value) else RowText(row.span.value);
      Some(Subtask(text, row.checkbox.Some? && row.checkbox.value))
  }

  lemma SplitLast(s: seq<Subtask>)
    requires s != []
    ensures s == s[..|s| - 1] + [s[|s| - 1]]
  {
  }

  /** A row rendered from a subtask with a trimmed text reads back as that subtask. */
  lemma ReadRowOfRow(st: Subtask)
    requires TrimmedText(st)
    ensures ReadRow(RowOf(st), false) == Some(st)
  {
    RowTextOfBullet(st.text);
  }

  /** `readSubtasksFromEditModal()` of `taskDataUtils.js` */
  method ReadSubtasksFromEditModal(rows: seq<RowView>) returns (subtasks: seq<Subtask>)
    ensures subtasks == ReadRows(rows, false)
  {
    subtasks := [];
    for index := 0 to |rows|
      invariant subtasks == ReadRows(rows[..index], false)
    {
      assert rows[..index + 1][..index] == rows[..index];
      var item := rows[index];
      if item.span.Some? {
        var text := RowText(item.span.value);
        var completed := if item.checkbox.Some? then item.checkbox.value else false;
        subtasks := subtasks + [Subtask(text, completed)];
      }
    }
    assert rows[..|rows|] == rows;
  }

  /** `readSubtasksFromEditModal()` of `newModalContr.js`, through `extractSubtaskFromItem` */
  method ReadSubtasksFromEditModalContr(rows: seq<RowView>) returns (subtasks: seq<Subtask>)
    ensures subtasks == ReadRows(rows, true)
  {
    subtasks := [];
    for index := 0 to |rows|
      invariant subtasks == ReadRows(rows[..index], true)
    {
      assert rows[..index + 1][..index] == rows[..index];
      var item := rows[index];
      if item.span.Some? {
        subtasks := subtasks + [Subtask(ContrRowText(item.span.value), item.checkbox.Some? && item.checkbox.value)];
      }
    }
    assert rows[..|rows|] == rows;
  }

  predicate TrimmedText(st: Subtask) {
    Trim(st.text) == st.text
  }

  /** Rows rendered from subtasks with trimmed texts read back as those subtasks. */
  lemma {:induction false} ReadRowsRoundTrip(subtasks: seq<Subtask>)
    requires forall k :: 0 <= k < |subtasks| ==> TrimmedText(subtasks[k])
    ensures ReadRows(RowsOf(subtasks), false) == subtasks
    decreases |subtasks|
  {
    if subtasks != [] {
      var n := |subtasks| - 1;
      var init := subtasks[..n];
      forall k | 0 <= k < n ensures TrimmedText(init[k]) {
        assert init[k] == subtasks[k];
      }
      ReadRowsRoundTrip(init);
      ReadRowsSnoc(init, subtasks[n]);
      SplitLast(subtasks);
    }
  }

  /** One more subtask renders one more row, which reads back as that subtask. */
  lemma ReadRowsSnoc(init: seq<Subtask>, last: Subtask)
    requires TrimmedText(last) && ReadRows(RowsOf(init), false) == init
    ensures ReadRows(RowsOf(init + [last]), false) == init + [last]
  {
    var rows := RowsOf(init + [last]);
    assert rows[..|init|] == RowsOf(init);
    assert rows[|init|] == RowOf(last);
    ReadRowOfRow(last);
  }

  lemma RowTextOfBullet(t: string)
    requires Trim(t) == t
    ensures RowText(Bullet(t)) == t
  {
    var b := Bullet(t);
    assert b[0] == BulletChar;
    assert b[1..] == [' '] + t;
    assert TrimStart(b[1..]) == TrimStart(t);
    TrimIdempotent(t);
    assert TrimStart(TrimStart(t)) == TrimStart(t) by {
      var s := TrimStart(t);
      TrimStartNoSpace(s);
    }
    if t != [] {
      assert !IsSpace(t[0]);
      TrimStartNoSpace(t);
    }
  }

  /** The `newModalContr.js` reader leaves the real bullet in the text. */
  lemma ContrReaderKeepsBullet(t: string)
    requires t != [] && Trim(t) == t && 'â' !in t
    ensures ContrRowText(Bullet(t)) == Bullet(t)
  {
    BulletLacksMisreadBullet(t);
    RemoveFirstAbsent(Bullet(t), MisreadBullet + " ");
    BulletTrimmed(t);
  }

  lemma BulletLacksMisreadBullet(t: string)
    requires 'â' !in t
    ensures !Contains(Bullet(t), MisreadBullet + " ")
  {
    var b := Bullet(t);
    assert b == [BulletChar, ' '] + t;
    assert 'â' !in b;
    var pat := MisreadBullet + " ";
    assert pat[0] == 'â';
    NotContainsMissingChar(b, pat, 0);
  }

  lemma BulletTrimmed(t: string)
    requires t != [] && !IsSpace(t[|t| - 1])
    ensures Trim(Bullet(t)) == Bullet(t)
  {
    var b := Bullet(t);
    assert b[0] == BulletChar;
    TrimStartNoSpace(b);
    assert b[|b| - 1] == t[|t| - 1];
    TrimEndNoSpace(b);
  }

  /** What a click in the list does (`handleSubtaskIconClick`). */
  datatype IconAction = Ignore | DeleteItem | EditItem

  /** The delete icon wins over the edit icon; a click on neither, or outside a row, does nothing. */
  function IconClick(onEditIcon: bool, onDeleteIcon: bool, inItem: bool): (a: IconAction)
    ensures a == DeleteItem <==> onDeleteIcon && inItem
    ensures a == EditItem <==> onEditIcon && !onDeleteIcon && inItem
  {
    if !onEditIcon && !onDeleteIcon then Ignore
    else if !inItem then Ignore
    else if onDeleteIcon then DeleteItem
    else EditItem
  }

  /** The edit dialog's subtask list and the open task's stored subtasks. */
  class EditList {
    /** Whether `window.currentTask` is set. */
    var taskOpen: bool
    /** `window.currentTask.subtasks` */
    var subtasks: SubtaskField
    /** Whether the page has `#editSubtasksList`. */
    const listPresent: bool
    /** The rows of `#editSubtasksList`, by element identity. */
    var rows: seq<nat>
    /** Identity of the next row element created. */
    var nextRow: nat
    /** The new-subtask input field. */
    var input: string

    ghost predicate Valid()
      reads this
    {
      NoDupRows(rows) && (forall r :: r in rows ==> r < nextRow)
    }

    /** Row `k` shows stored subtask `k`. */
    ghost predicate Synced()
      reads this
    {
      taskOpen && subtasks.List? && |rows| == |subtasks.items|
    }

    constructor(open: bool, stored: SubtaskField, present: bool)
      ensures Valid() && taskOpen == open && subtasks == stored && listPresent == present
      ensures rows == [] && input == ""
    {
      taskOpen := open;
      subtasks := stored;
      listPresent := present;
      rows := [];
      nextRow := 0;
      input := "";
    }

    /** `setSubtasksList(task)`: the list is emptied and one row appended per normalised subtask. */
    method SetSubtasksList(stored: SubtaskField)
      requires Valid()
      modifies this`rows, this`nextRow
      ensures Valid()
      ensures !listPresent ==> rows == old(rows)
      ensures listPresent ==> |rows| == |NormalizeSubtasks(stored)| && forall r :: r in rows ==> r >= old(nextRow)
    {
      if !listPresent {
        return;
      }
      var shown := NormalizeSubtasks(stored);
      rows := [];
      var start := nextRow;
      for k := 0 to |shown|
        invariant |rows| == k && nextRow == start + k
        invariant forall j :: 0 <= j < k ==> rows[j] == start + j
      {
        rows := rows + [nextRow];
        nextRow := nextRow + 1;
      }
    }

    /**
     * `addNewSubtask(text, list)`: without an open task nothing happens;
     * otherwise the stored list is normalised to an array, `{text,
     * completed: false}` pushed, and a row for it appended whose index is
     * the new length minus one.
     */
    method AddNewSubtask(text: string) returns (index: Option<int>)
      requires Valid()
      modifies this`subtasks, this`rows, this`nextRow
      ensures Valid()
      ensures !old(taskOpen) ==> index.None? && subtasks == old(subtasks) && rows == old(rows)
      ensures old(taskOpen) ==>
        subtasks == List(Elements(old(subtasks)) + [Stored(Subtask(text, false))])
        && rows == old(rows) + [old(nextRow)]
        && index == Some(|subtasks.items| - 1)
      ensures old(Synced()) ==> Synced()
    {
      if !taskOpen {
        return None;
      }
      subtasks := List(Elements(NormalizeField(subtasks)) + [Stored(Subtask(text, false))]);
      AppendFreshRow(rows, nextRow);
      rows := rows + [nextRow];
      nextRow := nextRow + 1;
      index := Some(|subtasks.items| - 1);
    }

    /** The check button: a blank input or a missing list does nothing; otherwise the subtask is added and the input cleared. */
    method OnCheckClick()
      requires Valid()
      modifies this`subtasks, this`rows, this`nextRow, this`input
      ensures Valid()
      ensures IsBlank(old(input)) || !listPresent ==>
        subtasks == old(subtasks) && rows == old(rows) && input == old(input)
      ensures !IsBlank(old(input)) && listPresent ==>
        input == ""
        && (old(taskOpen) ==> subtasks == List(Elements(old(subtasks)) + [Stored(Subtask(Trim(old(input)), false))]))
      ensures old(Synced()) ==> Synced()
    {
      var text := Trim(input);
      if text == "" || !listPresent {
        return;
      }
      var _ := AddNewSubtask(text);
      input := "";
    }

    /**
     * `createNewSubtaskElement(text)` and `addNewSubtaskToList` of the
     * board dialog: `null` without an open task; otherwise the subtask is
     * pushed at index old length and its row appended.
     */
    method AddNewSubtaskToList(text: string) returns (created: Option<(nat, int)>)
      requires Valid()
      modifies this`subtasks, this`rows, this`nextRow, this`input
      ensures Valid() && input == ""
      ensures !old(taskOpen) ==> created.None? && subtasks == old(subtasks) && rows == old(rows)
      ensures old(taskOpen) ==>
        subtasks == List(Elements(old(subtasks)) + [Stored(Subtask(text, false))])
        && created == Some((old(nextRow), |Elements(old(subtasks))|))
        && rows == old(rows) + [old(nextRow)]
      ensures old(Synced()) ==> Synced()
    {
      created := None;
      if taskOpen {
        var index := |Elements(subtasks)|;
        subtasks := List(Elements(NormalizeField(subtasks)) + [Stored(Subtask(text, false))]);
        created := Some((nextRow, index));
        AppendFreshRow(rows, nextRow);
        rows := rows + [nextRow];
        nextRow := nextRow + 1;
      }
      input := "";
    }

    /**
     * The delete handlers as written: the row is removed from the list,
     * then looked up in it, which fails, so the stored subtasks are never
     * spliced.
     */
    method DeleteSubtaskRowAsWritten(item: nat)
      requires Valid()
      modifies this`rows, this`subtasks
      ensures Valid()
      ensures rows == RemoveRow(old(rows), item) && subtasks == old(subtasks)
      ensures old(Synced()) && item in old(rows) ==> |rows| + 1 == |subtasks.items|
    {
      RemoveRowDistinct(rows, item);
      if item in rows {
        RemoveRowAt(rows, item);
      }
      rows := RemoveRow(rows, item);
      if !taskOpen || subtasks.Absent? || !listPresent {
        return;
      }
      var idx := IndexOfRow(rows, item);
      subtasks := if subtasks.List? then List(SpliceOut(subtasks.items, idx)) else subtasks;
    }

    /**
     * Deleting a row with its index taken before it is detached: the row
     * and the subtask at its position leave together; splicing a keyed
     * object throws.
     */
    method DeleteSubtaskRow(item: nat) returns (threw: bool)
      requires Valid()
      modifies this`rows, this`subtasks
      ensures Valid()
      ensures rows == RemoveRow(old(rows), item)
      ensures threw <==> old(taskOpen) && old(subtasks).Keyed? && listPresent && item in old(rows)
      ensures !threw && old(taskOpen) && old(subtasks).List? && listPresent ==>
        subtasks == List(SpliceOut(old(subtasks).items, IndexOfRow(old(rows), item)))
      ensures !(old(taskOpen) && old(subtasks).List? && listPresent) ==> subtasks == old(subtasks)
      ensures old(Synced()) && listPresent ==> Synced()
    {
      var idx := IndexOfRow(rows, item);
      var before := rows;
      RemoveRowDistinct(rows, item);
      if idx == -1 {
        RemoveRowAbsent(rows, item);
      }
      rows := RemoveRow(rows, item);
      if !taskOpen || subtasks.Absent? || !listPresent || idx == -1 {
        return false;
      }
      if subtasks.Keyed? {
        return true;
      }
      threw := false;
      if |before| == |subtasks.items| {
        DeleteRowKeepsRowsAligned(before, subtasks.items, item);
      }
      subtasks := List(SpliceOut(subtasks.items, idx));
    }

    /**
     * `saveSubtaskEditAndReplace(input, item, current)`: the kept text
     * (`current` for a blank input) is written into the stored subtask at
     * the row's index when the task's subtasks are an array.
     */
    method SaveSubtaskEdit(item: nat, inputValue: string, current: string) returns (saved: string, threw: bool)
      requires Valid()
      modifies this`subtasks
      ensures saved == EditedText(current, inputValue)
      ensures var idx := IndexOfRow(rows, item);
        var applies := idx != -1 && taskOpen && old(subtasks).List? && listPresent;
        (threw <==> applies && idx >= |old(subtasks).items|)
        && (applies && !threw ==> subtasks == List(old(subtasks).items[idx := SetText(old(subtasks).items[idx], saved)]))
        && (!applies || threw ==> subtasks == old(subtasks))
      ensures old(Synced()) ==> !threw && Synced()
    {
      saved := EditedText(current, inputValue);
      threw := false;
      var idx := if listPresent then IndexOfRow(rows, item) else -1;
      if idx != -1 && taskOpen && subtasks.List? {
        if idx < |subtasks.items| {
          subtasks := List(subtasks.items[idx := SetText(subtasks.items[idx], saved)]);
        } else {
          threw := true;
        }
      }
    }
  }

  /** `subtask.text = newText` on a stored entry (ignored on a primitive). */
  function SetText(v: Value, newText: string): (r: Value)
    ensures v.Obj? ==> NormalizeSubtask(r) == Subtask(newText, v.completed)
  {
    if v.Obj? then v.(text := Some(Str(newText))) else v
  }
}
