/**
 * The board page as the desktop drag-and-drop handlers of `draganddrop.js`
 * see it: the columns and their children, the module-level `selectedTask`,
 * the cards carrying the `dragging` class, the empty-state images, the
 * listeners that have been attached, the body's scroll lock, and the PATCH
 * requests the column synchronizer has sent.
 */
module BoardPage {
  import opened Wrappers
  import opened Board
  import opened DragResolver
  import opened DragAndDrop
  import ColumnSync

  /** The cards of the board in document order, column after column. */
  function DocumentCards(cols: Columns, order: seq<ColumnId>): (ids: seq<TaskId>)
    requires forall k :: 0 <= k < |order| ==> order[k] in cols
    ensures forall t :: t in ids <==> exists k :: 0 <= k < |order| && Card(t) in cols[order[k]]
  {
    if order == [] then []
    else
      var rest := DocumentCards(cols, order[1..]);
      assert forall t :: t in rest <==> exists k :: 1 <= k < |order| && Card(t) in cols[order[k]] by {
        forall t ensures t in rest <==> exists k :: 1 <= k < |order| && Card(t) in cols[order[k]] {
          if t in rest {
            var k :| 0 <= k < |order[1..]| && Card(t) in cols[order[1..][k]];
            assert order[1..][k] == order[k + 1];
          }
          if exists k :: 1 <= k < |order| && Card(t) in cols[order[k]] {
            var k :| 1 <= k < |order| && Card(t) in cols[order[k]];
            assert order[1..][k - 1] == order[k];
          }
        }
      }
      CardIds(cols[order[0]]) + rest
  }

  /** `document.querySelector('.dragging')` over the cards: the first marked one. */
  function FirstMarked(ids: seq<TaskId>, marked: set<TaskId>): (r: Option<TaskId>)
    ensures r.None? <==> forall k :: 0 <= k < |ids| ==> ids[k] !in marked
    ensures r.Some? ==> exists k :: 0 <= k < |ids| && ids[k] == r.value && r.value in marked
                                    && forall j :: 0 <= j < k ==> ids[j] !in marked
  {
    if ids == [] then None
    else if ids[0] in marked then Some(ids[0])
    else
      var r := FirstMarked(ids[1..], marked);
      if r.Some? then
        var k :| 0 <= k < |ids[1..]| && ids[1..][k] == r.value && r.value in marked
                 && forall j :: 0 <= j < k ==> ids[1..][j] !in marked;
        assert ids[k + 1] == r.value;
        assert forall j :: 0 <= j < k + 1 ==> ids[j] !in marked by {
          forall j | 0 <= j < k + 1 ensures ids[j] !in marked {
            if j > 0 { assert ids[j] == ids[1..][j - 1]; }
          }
        }
        r
      else
        assert forall k :: 0 <= k < |ids| ==> ids[k] !in marked by {
          forall k | 0 <= k < |ids| ensures ids[k] !in marked {
            if k > 0 { assert ids[k] == ids[1..][k - 1]; }
          }
        }
        r
  }

  /**
   * The cards of `tasks` that a binding pass attaches handlers to: those
   * not flagged `dragInitialized` before the pass, each once, in order.
   */
  function NewlyBound(tasks: seq<TaskId>, flagged: set<TaskId>): seq<TaskId>
  {
    if tasks == [] then []
    else
      var init := tasks[..|tasks| - 1];
      var t := tasks[|tasks| - 1];
      if t in flagged || t in init then NewlyBound(init, flagged) else NewlyBound(init, flagged) + [t]
  }

  /**
   * The drag bindings of the cards: each card bound at most once, touch
   * handlers exactly on the flagged cards, desktop handlers only on
   * flagged cards and never on a touch device.
   */
  ghost predicate Bindings(flagged: set<TaskId>, touch: seq<TaskId>, desktop: seq<TaskId>, isTouch: bool) {
    NoDup(touch) && NoDup(desktop)
    && (forall t :: t in touch <==> t in flagged)
    && (forall t :: t in desktop ==> t in flagged)
    && (isTouch ==> desktop == [])
  }

  /** A binding pass over `tasks` keeps the bindings consistent. */
  lemma BindPassKeepsBindings(flagged: set<TaskId>, touch: seq<TaskId>, desktop: seq<TaskId>, isTouch: bool,
                              tasks: seq<TaskId>, after: set<TaskId>)
    requires Bindings(flagged, touch, desktop, isTouch)
    requires forall x :: x in after <==> x in flagged || x in tasks
    ensures var bound := NewlyBound(tasks, flagged);
      Bindings(after, touch + bound, desktop + (if isTouch then [] else bound), isTouch)
  {
    var bound := NewlyBound(tasks, flagged);
    NewlyBoundSpec(tasks, flagged);
    NoDupAppendFresh(touch, bound, flagged);
    if !isTouch {
      NoDupAppendFresh(desktop, bound, flagged);
    } else {
      assert desktop + [] == [];
    }
  }

  /**
   * The loop of `initializeTasks(tasks)`: each card not yet flagged gets
   * the touch handlers (and, off touch devices, the desktop ones) and is
   * flagged.
   */
  method BindPass(flagged: set<TaskId>, touch: seq<TaskId>, desktop: seq<TaskId>, isTouch: bool, tasks: seq<TaskId>)
      returns (flagged': set<TaskId>, touch': seq<TaskId>, desktop': seq<TaskId>)
    ensures forall x :: x in flagged' <==> x in flagged || x in tasks
    ensures touch' == touch + NewlyBound(tasks, flagged)
    ensures desktop' == desktop + (if isTouch then [] else NewlyBound(tasks, flagged))
  {
    flagged', touch', desktop' := flagged, touch, desktop;
    for i := 0 to |tasks|
      invariant forall x :: x in flagged' <==> x in flagged || x in tasks[..i]
      invariant touch' == touch + NewlyBound(tasks[..i], flagged)
      invariant desktop' == desktop + (if isTouch then [] else NewlyBound(tasks[..i], flagged))
    {
      var t := tasks[i];
      NewlyBoundStep(tasks, i, flagged);
      if t !in flagged' {
        if !isTouch {
          desktop' := desktop' + [t];
        }
        touch' := touch' + [t];
        flagged' := flagged' + {t};
      }
    }
    assert tasks[..|tasks|] == tasks;
  }

  /** Appending cards none of which is flagged to flagged ones keeps them duplicate-free. */
  lemma NoDupAppendFresh(a: seq<TaskId>, b: seq<TaskId>, flagged: set<TaskId>)
    requires NoDup(a) && NoDup(b)
    requires forall x :: x in a ==> x in flagged
    requires forall x :: x in b ==> x !in flagged
    ensures NoDup(a + b)
  {
    forall i, j | 0 <= i < j < |a + b| ensures (a + b)[i] != (a + b)[j] {
      if j >= |a| && i < |a| {
        assert (a + b)[i] in a && (a + b)[j] in b;
      }
    }
  }

  /** One more card seen: it is bound when neither flagged nor seen before. */
  lemma NewlyBoundStep(tasks: seq<TaskId>, i: nat, flagged: set<TaskId>)
    requires i < |tasks|
    ensures var t := tasks[i];
      NewlyBound(tasks[..i + 1], flagged) ==
        if t in flagged || t in tasks[..i] then NewlyBound(tasks[..i], flagged) else NewlyBound(tasks[..i], flagged) + [t]
    ensures forall x :: x in tasks[..i + 1] <==> x in tasks[..i] || x == tasks[i]
  {
    assert tasks[..i + 1][..i] == tasks[..i] && tasks[..i + 1][i] == tasks[i];
    assert tasks[..i + 1] == tasks[..i] + [tasks[i]];
  }

  /**
   * A binding pass binds each card at most once, never one flagged before,
   * and every unflagged card it sees.
   */
  lemma {:induction false} NewlyBoundSpec(tasks: seq<TaskId>, flagged: set<TaskId>)
    ensures var b := NewlyBound(tasks, flagged);
      NoDup(b) && forall t :: t in b <==> t in tasks && t !in flagged
    decreases |tasks|
  {
    if tasks != [] {
      var init := tasks[..|tasks| - 1];
      NewlyBoundSpec(init, flagged);
      assert tasks == init + [tasks[|tasks| - 1]];
    }
  }

  /**
   * A second pass of the unguarded column binding over columns that
   * already carry listeners gives some column two listener pairs.
   */
  lemma RebindingDuplicatesListeners(listeners: seq<ColumnId>, order: seq<ColumnId>)
    requires order != [] && order[0] in listeners
    ensures !NoDup(listeners + order)
  {
    var k :| 0 <= k < |listeners| && listeners[k] == order[0];
    assert (listeners + order)[k] == (listeners + order)[|listeners|];
  }

  /** How many drop listener pairs column `c` carries. */
  function ListenerCount(listeners: seq<ColumnId>, c: ColumnId): nat {
    if listeners == [] then 0
    else ListenerCount(listeners[..|listeners| - 1], c) + (if listeners[|listeners| - 1] == c then 1 else 0)
  }

  /** Counts add up over two runs of bindings. */
  lemma {:induction false} ListenerCountAppend(a: seq<ColumnId>, b: seq<ColumnId>, c: ColumnId)
    ensures ListenerCount(a + b, c) == ListenerCount(a, c) + ListenerCount(b, c)
    decreases |b|
  {
    if b == [] {
      assert a + b == a;
    } else {
      var init := b[..|b| - 1];
      ListenerCountAppend(a, init, c);
      assert (a + b)[..|a + b| - 1] == a + init;
    }
  }

  /** A column bound once in a duplicate-free binding list has one listener pair; an unbound one none. */
  lemma {:induction false} ListenerCountDistinct(s: seq<ColumnId>, c: ColumnId)
    requires NoDup(s)
    ensures ListenerCount(s, c) == if c in s then 1 else 0
    decreases |s|
  {
    if s != [] {
      var init := s[..|s| - 1];
      NoDupSliceIds(s, |s| - 1);
      ListenerCountDistinct(init, c);
      assert c in s <==> c in init || s[|s| - 1] == c;
      if s[|s| - 1] == c {
        assert c !in init by {
          forall k | 0 <= k < |init| ensures init[k] != c {
            assert init[k] == s[k];
          }
        }
      }
    }
  }

  lemma NoDupSliceIds(s: seq<ColumnId>, n: nat)
    requires NoDup(s) && n <= |s|
    ensures NoDup(s[..n])
  {
    forall a, b | 0 <= a < b < n ensures s[..n][a] != s[..n][b] {
      assert s[..n][a] == s[a] && s[..n][b] == s[b];
    }
  }

  /**
   * The board after the drop handler has run `n` times for column `c`,
   * each run with the same `selectedTask` (only dragend clears it).
   */
  function DropTimes(cols: Columns, c: ColumnId, sel: Option<TaskId>, n: nat): (r: Columns)
    requires Wf(cols) && c in cols
    ensures Wf(r) && r.Keys == cols.Keys
  {
    if n == 0 then cols else DropStep(DropTimes(cols, c, sel, n - 1), c, sel)
  }

  /** One run of the drop handler on the board: place the selected card, or only take the placeholder out. */
  function DropStep(cols: Columns, c: ColumnId, sel: Option<TaskId>): (r: Columns)
    requires Wf(cols) && c in cols
    ensures Wf(r) && r.Keys == cols.Keys
  {
    if sel.Some? then
      PlaceKeepsWf(cols, c, sel.value);
      PlaceAtPlaceholderOrEnd(cols, c, sel.value)
    else
      DetachWf(cols, Placeholder);
      Detach(cols, Placeholder)
  }

  lemma PlaceKeepsWf(cols: Columns, c: ColumnId, t: TaskId)
    requires Wf(cols) && c in cols
    ensures var r := PlaceAtPlaceholderOrEnd(cols, c, t); Wf(r) && r.Keys == cols.Keys
  {
    PlaceAtPlaceholderOrEndSpec(cols, c, t);
  }

  /** The PATCH requests `n` runs of the drop handler send. */
  function PatchTimes(sel: Option<TaskId>, c: ColumnId, n: nat): (r: seq<ColumnSync.Request>)
    ensures sel.None? ==> r == []
    ensures sel.Some? ==> |r| == n && forall k :: 0 <= k < n ==> r[k] == ColumnSync.PatchTaskColumn(sel.value, c)
  {
    if n == 0 || sel.None? then [] else PatchTimes(sel, c, n - 1) + [ColumnSync.PatchTaskColumn(sel.value, c)]
  }

  /** One more run sends one more PATCH when a card is selected. */
  lemma PatchTimesSnoc(sent: seq<ColumnSync.Request>, sel: Option<TaskId>, c: ColumnId, n: nat)
    ensures sent + PatchTimes(sel, c, n) + (if sel.Some? then [ColumnSync.PatchTaskColumn(sel.value, c)] else [])
      == sent + PatchTimes(sel, c, n + 1)
  {
    if sel.Some? {
      var p, q := PatchTimes(sel, c, n), [ColumnSync.PatchTaskColumn(sel.value, c)];
      assert PatchTimes(sel, c, n + 1) == p + q;
      assert (sent + p) + q == sent + (p + q);
    }
  }

  /**
   * With two or more drop listener pairs on the column, the dragged card
   * ends up last in the column whatever the placeholder's position was.
   */
  lemma RepeatedDropEndsLast(cols: Columns, c: ColumnId, t: TaskId, n: nat)
    requires Wf(cols) && c in cols && n >= 2
    ensures var r := DropTimes(cols, c, Some(t), n); r[c] != [] && r[c][|r[c]| - 1] == Card(t)
  {
    var before := DropTimes(cols, c, Some(t), n - 2);
    DoubleDropAppends(before, c, t);
    assert DropTimes(cols, c, Some(t), n - 1) == PlaceAtPlaceholderOrEnd(before, c, t);
  }

  /**
   * The placeholder move of `updatePlaceholderInColumn` for the touch point
   * at `y` over column `c`, with the card the resolver picks.
   */
  function PlaceholderForTouch(cols: Columns, c: ColumnId, y: int, dragging: set<TaskId>, layout: Layout): Columns
    requires c in cols
  {
    AfterElementInColumn(y, cols[c], dragging, layout);
    TouchPlaceholder(cols, c, GetDragAfterElement(y, Candidates(cols[c], dragging, layout)))
  }

  /** Placing the touch placeholder keeps the board well formed and its columns, and moves no card. */
  lemma PlaceholderForTouchSpec(cols: Columns, c: ColumnId, y: int, dragging: set<TaskId>, layout: Layout)
    requires Wf(cols) && c in cols
    ensures var r := PlaceholderForTouch(cols, c, y, dragging, layout);
      Wf(r) && r.Keys == cols.Keys && SameCardOrder(r, cols) && PlaceholderOnlyIn(r, c)
      && (Placeholder in cols[c] ==> r == cols)
  {
    var after := GetDragAfterElement(y, Candidates(cols[c], dragging, layout));
    AfterElementInColumn(y, cols[c], dragging, layout);
    TouchPlaceholderSpec(cols, c, after);
  }

  class Page {
    /** Children of every `.task-board-container`, keyed by the column's id. */
    var columns: Columns
    /** The columns in document order. */
    const order: seq<ColumnId>
    /** `isTouchDevice()`, fixed for the page's lifetime. */
    const isTouch: bool
    /** Cards carrying the `dragging` class. */
    var dragging: set<TaskId>
    /** The module-level `selectedTask`. */
    var selectedTask: Option<TaskId>
    /** Columns that hold an `.empty-state-img`, and whether it is displayed. */
    var emptyImage: map<ColumnId, bool>
    /** PATCH requests sent by the column synchronizer, oldest first. */
    var requests: seq<ColumnSync.Request>
    /** Cards whose `dataset.dragInitialized` is `'true'`. */
    var initialized: set<TaskId>
    /** Cards that received the dragstart/dragend handlers, in binding order. */
    var desktopBound: seq<TaskId>
    /** Cards that received the touch handlers, in binding order. */
    var touchBound: seq<TaskId>
    /** One entry per dragover/drop listener pair attached to a column. */
    var columnListeners: seq<ColumnId>
    /** Cards given the class-toggling dragstart/dragend pair of `enableDragAndDrop`. */
    var classToggleCards: seq<TaskId>
    /** Columns given the append-on-dragover listener of `enableDragAndDrop`. */
    var appendColumns: seq<ColumnId>
    /** Document events given a `cleanupPlaceholders` listener, one entry per listener. */
    var cleanupEvents: seq<string>
    /** `window.scrollY` */
    var scrollY: int
    /** `document.body.dataset.scrollY` */
    var storedScrollY: Option<int>
    /** Whether the body carries `no-scroll-drag`. */
    var scrollLocked: bool
    /** `document.body.style.top`, `None` for the empty string. */
    var bodyTop: Option<int>

    ghost predicate Valid()
      reads this
    {
      Wf(columns) && NoDup(order) && (forall c :: c in columns <==> c in order)
      && emptyImage.Keys <= columns.Keys
      && Bindings(initialized, touchBound, desktopBound, isTouch)
    }

    /** Every empty-state image is shown exactly when its column has no card. */
    ghost predicate ImagesAgree()
      reads this
    {
      forall c :: c in emptyImage && c in columns ==> emptyImage[c] == !HasCards(columns[c])
    }

    constructor(cols: Columns, order: seq<ColumnId>, images: map<ColumnId, bool>, scrollY: int, isTouch: bool)
      requires Wf(cols) && NoDup(order) && (forall c :: c in cols <==> c in order) && images.Keys <= cols.Keys
      ensures Valid()
      ensures columns == cols && this.order == order && emptyImage == images
      ensures this.scrollY == scrollY && this.isTouch == isTouch
      ensures dragging == {} && selectedTask == None && requests == []
      ensures initialized == {} && desktopBound == [] && touchBound == [] && columnListeners == []
      ensures classToggleCards == [] && appendColumns == [] && cleanupEvents == []
      ensures storedScrollY == None && !scrollLocked && bodyTop == None
    {
      columns := cols;
      this.order := order;
      this.isTouch := isTouch;
      emptyImage := images;
      this.scrollY := scrollY;
      dragging := {};
      selectedTask := None;
      requests := [];
      initialized := {};
      desktopBound := [];
      touchBound := [];
      columnListeners := [];
      classToggleCards := [];
      appendColumns := [];
      cleanupEvents := [];
      storedScrollY := None;
      scrollLocked := false;
      bodyTop := None;
    }

    /** `removePlaceholder()`: a no-op when the placeholder is already detached. */
    method RemovePlaceholder()
      requires Valid()
      modifies this`columns
      ensures Valid()
      ensures columns == Detach(old(columns), Placeholder)
      ensures NoPlaceholder(columns) && SameCardOrder(columns, old(columns))
      ensures NoPlaceholder(old(columns)) ==> columns == old(columns)
    {
      DetachWf(columns, Placeholder);
      forall e | e in columns
        ensures RemoveFrom(Detach(columns, Placeholder)[e], Placeholder) == RemoveFrom(columns[e], Placeholder)
      {
        RemovePlaceholderTwice(columns[e]);
      }
      if !NoPlaceholder(columns) {
        columns := Detach(columns, Placeholder);
      } else {
        DetachAbsent(columns, Placeholder);
      }
    }

    /**
     * `cleanupPlaceholders()`, run on every mouseup, touchend and dragend of
     * the document: every `.placeholder-drag` is detached; on this page the
     * shared placeholder is the only one.
     */
    method CleanupPlaceholders()
      requires Valid()
      modifies this`columns
      ensures Valid()
      ensures columns == Detach(old(columns), Placeholder) && NoPlaceholder(columns)
    {
      RemovePlaceholder();
    }

    /** `checkColumns()`: one pass over the columns in document order. */
    method CheckColumns()
      requires Valid()
      modifies this`emptyImage
      ensures Valid() && ImagesAgree()
      ensures emptyImage.Keys == old(emptyImage).Keys
    {
      for i := 0 to |order|
        invariant Valid() && emptyImage.Keys == old(emptyImage).Keys
        invariant forall k :: 0 <= k < i && order[k] in emptyImage ==> emptyImage[order[k]] == !HasCards(columns[order[k]])
      {
        var c := order[i];
        if c in emptyImage {
          emptyImage := emptyImage[c := !HasCards(columns[c])];
        }
      }
      forall c | c in emptyImage && c in columns ensures emptyImage[c] == !HasCards(columns[c]) {
        var k :| 0 <= k < |order| && order[k] == c;
      }
    }

    /**
     * `ensureEmptyStateImages()`: a column with no card and no image gets
     * one; then every image is shown exactly when its column is empty.
     */
    method EnsureEmptyStateImages()
      requires Valid()
      modifies this`emptyImage
      ensures Valid() && ImagesAgree()
      ensures forall c :: c in emptyImage <==> c in old(emptyImage) || (c in columns && !HasCards(columns[c]))
    {
      for i := 0 to |order|
        invariant Valid()
        invariant forall c :: c in emptyImage <==>
          c in old(emptyImage) || exists k :: 0 <= k < i && order[k] == c && !HasCards(columns[c])
      {
        var c := order[i];
        if !HasCards(columns[c]) && c !in emptyImage {
          emptyImage := emptyImage[c := true];
        }
      }
      CheckColumns();
    }

    /** `handleTaskDragStart`: the dragged card becomes `selectedTask` and, after the zero-delay timer, gets `dragging`. */
    method HandleTaskDragStart(t: TaskId)
      requires Valid()
      modifies this`selectedTask, this`dragging
      ensures Valid()
      ensures selectedTask == Some(t) && dragging == old(dragging) + {t}
    {
      selectedTask := Some(t);
      dragging := dragging + {t};
    }

    /**
     * `handleTaskDragEnd`: un-marks and forgets the selected card if there
     * is one, detaches the placeholder and re-checks the columns; safe when
     * no drag is active.
     */
    method HandleTaskDragEnd()
      requires Valid()
      modifies this`selectedTask, this`dragging, this`columns, this`emptyImage
      ensures Valid() && ImagesAgree()
      ensures selectedTask == None
      ensures dragging == old(dragging) - (if old(selectedTask).Some? then {old(selectedTask).value} else {})
      ensures columns == Detach(old(columns), Placeholder) && NoPlaceholder(columns)
      ensures emptyImage.Keys == old(emptyImage).Keys
    {
      if selectedTask.Some? {
        dragging := dragging - {selectedTask.value};
        selectedTask := None;
      }
      RemovePlaceholder();
      CheckColumns();
    }

    /** `insertTaskAtPlaceholderOrEnd(column, task)` */
    method InsertTaskAtPlaceholderOrEnd(c: ColumnId, t: TaskId)
      requires Valid() && c in columns
      modifies this`columns
      ensures Valid()
      ensures columns == PlaceAtPlaceholderOrEnd(old(columns), c, t)
      ensures columns[c] == CardReplacesPlaceholder(old(columns)[c], t) && NoPlaceholder(columns)
    {
      PlaceAtPlaceholderOrEndSpec(columns, c, t);
      columns := PlaceAtPlaceholderOrEnd(columns, c, t);
    }

    /** `handleColumnDragOver(e, column)` with the pointer at `y` and the cards laid out by `layout`. */
    method HandleColumnDragOver(c: ColumnId, y: int, layout: Layout)
      requires Valid() && c in columns
      modifies this`columns
      ensures Valid()
      ensures columns == DragOverColumn(old(columns), c, GetDragAfterElement(y, Candidates(old(columns)[c], dragging, layout)))
      ensures PlaceholderOnlyIn(columns, c) && SameCardOrder(columns, old(columns))
    {
      var after := GetDragAfterElement(y, Candidates(columns[c], dragging, layout));
      DragOverColumnSpec(columns, c, after);
      columns := DragOverColumn(columns, c, after);
    }

    /**
     * `updateTaskDOMPosition(taskId, newColumn)`: re-parents the card, then
     * re-checks the columns; nothing happens when the card or the column is
     * missing.
     */
    method UpdateTaskDOMPosition(t: TaskId, c: ColumnId)
      requires Valid()
      modifies this`columns, this`emptyImage
      ensures Valid()
      ensures columns == ColumnSync.UpdateTaskDOMPosition(old(columns), t, c)
      ensures !OnBoard(old(columns), Card(t)) || c !in old(columns) ==> emptyImage == old(emptyImage)
      ensures OnBoard(old(columns), Card(t)) && c in old(columns) ==> ImagesAgree()
      ensures emptyImage.Keys == old(emptyImage).Keys
    {
      ColumnSync.UpdateTaskDOMPositionSpec(columns, t, c);
      if !OnBoard(columns, Card(t)) || c !in columns {
        return;
      }
      columns := ColumnSync.UpdateTaskDOMPosition(columns, t, c);
      CheckColumns();
    }

    /**
     * `updateTaskColumnInFirebase(taskId, newColumn)`: the PATCH is sent,
     * and the card is moved only when it succeeds (`patchOk`); a failure is
     * logged and leaves the page as it was.
     */
    method UpdateTaskColumnInFirebase(t: TaskId, c: ColumnId, patchOk: bool)
      requires Valid()
      modifies this`requests, this`columns, this`emptyImage
      ensures Valid()
      ensures requests == old(requests) + [ColumnSync.PatchTaskColumn(t, c)]
      ensures patchOk ==> columns == ColumnSync.UpdateTaskDOMPosition(old(columns), t, c)
      ensures !patchOk ==> columns == old(columns) && emptyImage == old(emptyImage)
      ensures emptyImage.Keys == old(emptyImage).Keys
    {
      requests := requests + [ColumnSync.PatchTaskColumn(t, c)];
      if patchOk {
        UpdateTaskDOMPosition(t, c);
      }
    }

    /**
     * `dropTaskInColumn(column, task)`: the card takes the placeholder's
     * place (or goes last) and its new column is persisted.  Whatever the
     * PATCH's outcome, the card already sits in the column, so the
     * synchronizer's own move changes nothing.
     */
    method DropTaskInColumn(c: ColumnId, t: TaskId, patchOk: bool)
      requires Valid() && c in columns
      modifies this`columns, this`requests, this`emptyImage
      ensures Valid() && NoPlaceholder(columns)
      ensures columns == PlaceAtPlaceholderOrEnd(old(columns), c, t)
      ensures requests == old(requests) + [ColumnSync.PatchTaskColumn(t, c)]
      ensures emptyImage.Keys == old(emptyImage).Keys
    {
      InsertTaskAtPlaceholderOrEnd(c, t);
      DropLeavesCardOnce(old(columns), c, t);
      ColumnSync.UpdateTaskDOMPositionSpec(columns, t, c);
      UpdateTaskColumnInFirebase(t, c, patchOk);
    }

    /**
     * `updatePlaceholderInColumn` once the touch point has entered column
     * `c`: the placeholder is placed by the resolver only when `c` does not
     * hold it yet.
     */
    method UpdatePlaceholderInColumn(c: ColumnId, y: int, layout: Layout)
      requires Valid() && c in columns
      modifies this`columns
      ensures Valid()
      ensures columns == PlaceholderForTouch(old(columns), c, y, dragging, layout)
      ensures PlaceholderOnlyIn(columns, c) && SameCardOrder(columns, old(columns))
      ensures Placeholder in old(columns)[c] ==> columns == old(columns)
    {
      PlaceholderForTouchSpec(columns, c, y, dragging, layout);
      columns := PlaceholderForTouch(columns, c, y, dragging, layout);
    }

    /**
     * The column's drop listener: with a selected card, drop it at the
     * placeholder (or last) and persist the new column; without one, only
     * detach the placeholder.  `selectedTask` is left for dragend to clear.
     */
    method Drop(c: ColumnId, patchOk: bool)
      requires Valid() && c in columns
      modifies this`columns, this`requests, this`emptyImage
      ensures Valid() && ImagesAgree() && NoPlaceholder(columns)
      ensures emptyImage.Keys == old(emptyImage).Keys
      ensures old(selectedTask).Some? ==>
        columns == PlaceAtPlaceholderOrEnd(old(columns), c, old(selectedTask).value)
        && requests == old(requests) + [ColumnSync.PatchTaskColumn(old(selectedTask).value, c)]
      ensures old(selectedTask).None? ==> columns == Detach(old(columns), Placeholder) && requests == old(requests)
    {
      if selectedTask.Some? {
        DropTaskInColumn(c, selectedTask.value, patchOk);
      } else {
        RemovePlaceholder();
      }
      CheckColumns();
    }

    /**
     * The dragover listener of `taskDataTemplate.drag.js` (and its copies in
     * `taskData.js` and `taskDataTemplate.js`): the first card marked
     * `dragging` is appended to the hovered column.
     */
    method DragOverAppend(c: ColumnId)
      requires Valid() && c in columns
      modifies this`columns
      ensures Valid()
      ensures var card := FirstMarked(DocumentCards(old(columns), order), dragging);
        (card.None? ==> columns == old(columns))
        && (card.Some? ==>
              columns == AppendChild(old(columns), c, Card(card.value))
              && Card(card.value) == columns[c][|columns[c]| - 1]
              && forall d :: d in columns && d != c ==> Card(card.value) !in columns[d])
    {
      var card := FirstMarked(DocumentCards(columns, order), dragging);
      if card.Some? {
        AppendChildSpec(columns, c, Card(card.value));
        columns := AppendChild(columns, c, Card(card.value));
      }
    }

    /**
     * `enableDragAndDrop()` of `taskDataTemplate.drag.js` (and of
     * `taskData.js` and `taskDataTemplate.js`): off touch devices every card
     * gets the class-toggling pair and every column the append listener;
     * on touch devices nothing is bound.
     */
    method EnableDragAndDrop()
      requires Valid()
      modifies this`classToggleCards, this`appendColumns
      ensures Valid()
      ensures isTouch ==> classToggleCards == old(classToggleCards) && appendColumns == old(appendColumns)
      ensures !isTouch ==>
        classToggleCards == old(classToggleCards) + DocumentCards(columns, order)
        && appendColumns == old(appendColumns) + order
    {
      if isTouch {
        return;
      }
      classToggleCards := classToggleCards + DocumentCards(columns, order);
      appendColumns := appendColumns + order;
    }

    /** The card listeners of `taskDataTemplate.drag.js`: dragstart marks the card `dragging`. */
    method MarkDragging(t: TaskId)
      requires Valid()
      modifies this`dragging
      ensures Valid() && dragging == old(dragging) + {t}
    {
      dragging := dragging + {t};
    }

    /** The matching dragend listener: the card loses the `dragging` mark. */
    method UnmarkDragging(t: TaskId)
      requires Valid()
      modifies this`dragging
      ensures Valid() && dragging == old(dragging) - {t}
    {
      dragging := dragging - {t};
    }

    /**
     * `initializeTasks(tasks, columns)`: every card not yet flagged
     * `dragInitialized` gets the touch handlers (and, off touch devices,
     * the desktop ones) and is flagged; flagged cards are skipped.
     */
    method InitializeTasks(tasks: seq<TaskId>)
      requires Valid()
      modifies this`initialized, this`touchBound, this`desktopBound
      ensures Valid()
      ensures forall x :: x in initialized <==> x in old(initialized) || x in tasks
      ensures touchBound == old(touchBound) + NewlyBound(tasks, old(initialized))
      ensures desktopBound == old(desktopBound) + (if isTouch then [] else NewlyBound(tasks, old(initialized)))
    {
      var flagged, touch, desktop := BindPass(initialized, touchBound, desktopBound, isTouch, tasks);
      BindPassKeepsBindings(initialized, touchBound, desktopBound, isTouch, tasks, flagged);
      initialized, touchBound, desktopBound := flagged, touch, desktop;
    }

    /**
     * `initializeColumns(columns)` as written: off touch devices every
     * column gets one more dragover/drop listener pair on each call.
     */
    method InitializeColumns()
      requires Valid()
      modifies this`columnListeners
      ensures Valid()
      ensures columnListeners == old(columnListeners) + (if isTouch then [] else order)
    {
      for i := 0 to |order|
        invariant columnListeners == old(columnListeners) + (if isTouch then [] else order[..i])
      {
        if !isTouch {
          columnListeners := columnListeners + [order[i]];
        }
      }
      assert order[..|order|] == order;
    }

    /**
     * `initializeColumns` guarded like `initializeTasks`: a column that
     * already carries the listener pair is skipped, so every column has
     * at most one and each drop runs the drop handler once.
     */
    method InitializeColumnsOnce()
      requires Valid() && NoDup(columnListeners)
      modifies this`columnListeners
      ensures Valid() && NoDup(columnListeners)
      ensures isTouch ==> columnListeners == old(columnListeners)
      ensures !isTouch ==> forall c :: c in columnListeners <==> c in old(columnListeners) || c in order
    {
      for i := 0 to |order|
        invariant NoDup(columnListeners)
        invariant isTouch ==> columnListeners == old(columnListeners)
        invariant !isTouch ==> forall c :: c in columnListeners <==> c in old(columnListeners) || c in order[..i]
      {
        var c := order[i];
        assert order[..i + 1] == order[..i] + [c];
        if !isTouch && c !in columnListeners {
          columnListeners := columnListeners + [c];
        }
      }
      assert order[..|order|] == order;
    }

    /**
     * `reinitializeDragAndDrop()`: binds the cards now on the board and,
     * through the unguarded `initializeColumns`, the columns once more.
     */
    method ReinitializeDragAndDrop()
      requires Valid()
      modifies this`initialized, this`touchBound, this`desktopBound, this`columnListeners
      ensures Valid()
      ensures initialized == old(initialized) + set t | t in DocumentCards(columns, order)
      ensures touchBound == old(touchBound) + NewlyBound(DocumentCards(columns, order), old(initialized))
      ensures columnListeners == old(columnListeners) + (if isTouch then [] else order)
    {
      InitializeTasks(DocumentCards(columns, order));
      InitializeColumns();
    }

    /** The DOMContentLoaded handler: empty-state images, the bindings, then the document's placeholder clean-up listeners. */
    method OnDomContentLoaded()
      requires Valid()
      modifies this`emptyImage, this`initialized, this`touchBound, this`desktopBound, this`columnListeners, this`cleanupEvents
      ensures Valid() && ImagesAgree()
      ensures forall c :: c in columns && !HasCards(columns[c]) ==> c in emptyImage
      ensures initialized == old(initialized) + set t | t in DocumentCards(columns, order)
      ensures columnListeners == old(columnListeners) + (if isTouch then [] else order)
      ensures cleanupEvents == old(cleanupEvents) + ["mouseup", "touchend", "dragend"]
    {
      EnsureEmptyStateImages();
      InitializeTasks(DocumentCards(columns, order));
      InitializeColumns();
      cleanupEvents := cleanupEvents + ["mouseup", "touchend", "dragend"];
    }

    /**
     * The page loads and the board data then reinitializes the drag and
     * drop, as the board script does after rendering: off touch devices
     * every column ends up with two drop listener pairs.
     */
    method LoadThenReinitialize()
      requires Valid() && columnListeners == [] && !isTouch
      modifies this`emptyImage, this`initialized, this`touchBound, this`desktopBound, this`columnListeners, this`cleanupEvents
      ensures Valid()
      ensures forall c :: c in order ==> ListenerCount(columnListeners, c) == 2
    {
      OnDomContentLoaded();
      assert columnListeners == order;
      ReinitializeDragAndDrop();
      forall c | c in order
        ensures ListenerCount(columnListeners, c) == 2
      {
        ListenerCountAppend(order, order, c);
        ListenerCountDistinct(order, c);
      }
    }

    /** The same two bindings with the guarded `InitializeColumnsOnce`: one listener pair per column. */
    method BindColumnsTwiceOnce()
      requires Valid() && columnListeners == [] && !isTouch
      modifies this`columnListeners
      ensures Valid() && NoDup(columnListeners)
      ensures forall c :: c in order ==> ListenerCount(columnListeners, c) == 1
    {
      InitializeColumnsOnce();
      InitializeColumnsOnce();
      forall c | c in order
        ensures ListenerCount(columnListeners, c) == 1
      {
        ListenerCountDistinct(columnListeners, c);
      }
    }

    /**
     * A drop event on column `c`: every drop listener pair bound to `c`
     * runs the drop handler, in binding order, with the same selection.
     */
    method DropEvent(c: ColumnId, patchOk: bool)
      requires Valid() && c in columns
      modifies this`columns, this`requests, this`emptyImage
      ensures Valid()
      ensures columns == DropTimes(old(columns), c, selectedTask, ListenerCount(columnListeners, c))
      ensures requests == old(requests) + PatchTimes(selectedTask, c, ListenerCount(columnListeners, c))
      ensures ListenerCount(columnListeners, c) > 0 ==> ImagesAgree() && NoPlaceholder(columns)
    {
      var n := 0;
      for k := 0 to |columnListeners|
        invariant Valid() && c in columns
        invariant n == ListenerCount(columnListeners[..k], c)
        invariant columns == DropTimes(old(columns), c, selectedTask, n)
        invariant requests == old(requests) + PatchTimes(selectedTask, c, n)
        invariant n > 0 ==> ImagesAgree() && NoPlaceholder(columns)
      {
        assert columnListeners[..k + 1][..k] == columnListeners[..k];
        if columnListeners[k] == c {
          DropAgain(old(columns), old(requests), n, c, patchOk);
          n := n + 1;
        }
      }
      assert columnListeners[..|columnListeners|] == columnListeners;
    }

    /** One more run of the drop handler, the `n + 1`-th since the board was `start`. */
    method DropAgain(ghost start: Columns, ghost sent: seq<ColumnSync.Request>, ghost n: nat, c: ColumnId, patchOk: bool)
      requires Valid() && Wf(start) && c in start
      requires columns == DropTimes(start, c, selectedTask, n) && requests == sent + PatchTimes(selectedTask, c, n)
      modifies this`columns, this`requests, this`emptyImage
      ensures Valid() && ImagesAgree() && NoPlaceholder(columns)
      ensures columns == DropTimes(start, c, selectedTask, n + 1)
      ensures requests == sent + PatchTimes(selectedTask, c, n + 1)
    {
      ghost var before, sel := columns, selectedTask;
      PatchTimesSnoc(sent, sel, c, n);
      Drop(c, patchOk);
      assert columns == DropTimes(start, c, sel, n + 1) by {
        assert DropTimes(start, c, sel, n + 1) == DropStep(before, c, sel);
      }
    }

    /** `lockScrollForDrag()`: remembers the scroll position and pins the body there. */
    method LockScrollForDrag()
      requires Valid()
      modifies this`storedScrollY, this`scrollLocked, this`bodyTop
      ensures Valid()
      ensures storedScrollY == Some(scrollY) && scrollLocked && bodyTop == Some(-scrollY)
    {
      storedScrollY := Some(scrollY);
      scrollLocked := true;
      bodyTop := Some(-scrollY);
    }

    /**
     * `unlockScrollFromDrag()`: releases the body and, when a position was
     * stored, scrolls back to it and forgets it, so a second unlock does not
     * scroll.  It is safe without a prior lock.
     */
    method UnlockScrollFromDrag()
      requires Valid()
      modifies this`storedScrollY, this`scrollLocked, this`bodyTop, this`scrollY
      ensures Valid()
      ensures !scrollLocked && bodyTop == None && storedScrollY == None
      ensures scrollY == (if old(storedScrollY).Some? then old(storedScrollY).value else old(scrollY))
    {
      scrollLocked := false;
      bodyTop := None;
      if storedScrollY.Some? {
        scrollY := storedScrollY.value;
        storedScrollY := None;
      }
    }
  }
}
