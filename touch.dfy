/**
 * The touch gesture of `draganddrop.touch.js` (and its copy inside
 * `draganddrop.js`): a long press of 200 ms starts a drag of the card, the
 * placeholder follows the finger from column to column, and lifting the
 * finger drops the card where the placeholder is.  One `TouchGesture` is the
 * per-card `state` object that `attachTouchDragEvents` closes over.
 */
module TouchDrag {
  import opened Wrappers
  import opened Board
  import opened DragResolver
  import opened DragAndDrop
  import opened BoardPage
  import ColumnSync

  /**
   * The browser's timers as the gesture sees them: the handle stored in
   * `state.dragTimeout`, the handles scheduled but neither fired nor
   * cleared, and the next handle `setTimeout` will return.
   */
  datatype Timers = Timers(current: Option<nat>, pending: set<nat>, next: nat)

  /** Every pending or stored handle was issued by an earlier `setTimeout`. */
  predicate Issued(t: Timers) {
    (forall h :: h in t.pending ==> h < t.next)
    && (t.current.Some? ==> t.current.value < t.next)
  }

  /** Handles were issued, and only the stored one can be pending. */
  predicate SingleTimer(t: Timers) {
    Issued(t) && forall h :: h in t.pending ==> t.current == Some(h)
  }

  /** `state.dragTimeout = setTimeout(…, 200)`: a fresh handle replaces the stored one. */
  function Schedule(t: Timers): (r: Timers)
    ensures r.current == Some(t.next) && t.next in r.pending && t.pending <= r.pending && r.next > t.next
  {
    Timers(Some(t.next), t.pending + {t.next}, t.next + 1)
  }

  /** `clearTimeout(state.dragTimeout)`: cancels the stored handle if it is still pending. */
  function ClearStored(t: Timers): (r: Timers)
    ensures r.current == t.current && r.next == t.next
    ensures forall h :: h in r.pending <==> h in t.pending && Some(h) != t.current
  {
    if t.current.Some? then t.(pending := t.pending - {t.current.value}) else t
  }

  /** The 200 ms timer `h` runs its callback and is no longer pending. */
  function Fire(t: Timers, h: nat): (r: Timers)
    requires h in t.pending
    ensures r.current == t.current && r.next == t.next && h !in r.pending && r.pending + {h} == t.pending
  {
    t.(pending := t.pending - {h})
  }

  /** `onTouchStart` as written: the new timer overwrites the stored handle without clearing it. */
  function StartAsWritten(t: Timers): Timers {
    Schedule(t)
  }

  /** `onTouchStart` clearing the stored handle before scheduling a new one. */
  function Start(t: Timers): Timers {
    Schedule(ClearStored(t))
  }

  /**
   * As written, a second touchstart before the first timer fires leaves the
   * first timer pending and no longer reachable through `dragTimeout`: the
   * touchend that follows cannot cancel it, so the drag begins after the
   * finger has lifted.
   */
  lemma StaleTimerAsWritten(t: Timers)
    requires SingleTimer(t)
    ensures var first := StartAsWritten(t);
      var after := ClearStored(StartAsWritten(first));
      t.next in after.pending && !SingleTimer(StartAsWritten(first))
  {
    var first := StartAsWritten(t);
    var second := StartAsWritten(first);
    assert t.next in second.pending && second.current == Some(t.next + 1);
  }

  /** Clearing before scheduling keeps at most the stored timer pending. */
  lemma StartKeepsSingleTimer(t: Timers)
    requires SingleTimer(t)
    ensures SingleTimer(Start(t)) && Start(t).pending == {t.next}
  {
    var c := ClearStored(t);
    forall h ensures h !in c.pending {
      if h in t.pending {
        assert t.current == Some(h);
      }
    }
    assert c.pending == {};
  }

  /** `clearTimeout(state.dragTimeout)` cancels the stored handle and no other. */
  lemma ClearRemovesStored(t: Timers)
    requires Issued(t)
    ensures Issued(ClearStored(t))
    ensures ClearStored(t).pending == t.pending - (if t.current.Some? then {t.current.value} else {})
  {
  }

  /** With one timer at most, the timer firing leaves none pending. */
  lemma FireLeavesNone(t: Timers, h: nat)
    requires SingleTimer(t) && h in t.pending
    ensures Fire(t, h).pending == {}
  {
    forall g ensures g !in Fire(t, h).pending {
      if g in t.pending {
        assert t.current == Some(g) && t.current == Some(h);
      }
    }
  }

  /** With one timer at most, touchend or touchcancel leaves none pending. */
  lemma ClearLeavesNone(t: Timers)
    requires SingleTimer(t)
    ensures SingleTimer(ClearStored(t)) && ClearStored(t).pending == {}
  {
    var c := ClearStored(t);
    forall h ensures h !in c.pending {
      if h in t.pending {
        assert t.current == Some(h);
      }
    }
    assert c.pending == {};
  }

  class TouchGesture {
    /** The board the card lives on. */
    const page: Page
    /** `state.task` */
    const task: TaskId
    /** `state.isDragging` */
    var isDragging: bool
    /** `state.currentColumn` */
    var currentColumn: Option<ColumnId>
    /** Whether `state.clone` holds a floating copy of the card. */
    var hasClone: bool
    var timers: Timers

    ghost predicate Valid()
      reads this, page
    {
      page.Valid() && Issued(timers)
      && (currentColumn.Some? ==> currentColumn.value in page.order)
    }

    /** `attachTouchDragEvents(task, columns)`: the gesture's initial state. */
    constructor(page: Page, task: TaskId)
      requires page.Valid()
      ensures Valid()
      ensures this.page == page && this.task == task
      ensures !isDragging && currentColumn == None && !hasClone
      ensures timers == Timers(None, {}, 0)
    {
      this.page := page;
      this.task := task;
      isDragging := false;
      currentColumn := None;
      hasClone := false;
      timers := Timers(None, {}, 0);
    }

    /**
     * `onTouchStart`: a new 200 ms timer is stored in place of the old
     * handle, which is not cleared and so stays pending; the gesture is not
     * dragging (any clone of a drag in progress stays on the page).
     */
    method OnTouchStart()
      requires Valid()
      modifies this`timers, this`isDragging
      ensures Valid()
      ensures !isDragging && timers == StartAsWritten(old(timers))
      ensures timers.current == Some(old(timers).next) && timers.pending == old(timers).pending + {old(timers).next}
    {
      timers := StartAsWritten(timers);
      isDragging := false;
    }

    /** `onTouchStart` clearing the stored handle before it schedules the new one. */
    method OnTouchStartClearing()
      requires Valid() && SingleTimer(timers)
      modifies this`timers, this`isDragging
      ensures Valid() && SingleTimer(timers)
      ensures !isDragging && timers == Start(old(timers)) && timers.pending == {old(timers).next}
    {
      StartKeepsSingleTimer(timers);
      timers := Start(timers);
      isDragging := false;
    }

    /**
     * The 200 ms timer `h` fires: `beginTouchDrag` makes the card the
     * selected, dragging card, locks the page scroll and floats a clone.
     */
    method TimerFired(h: nat)
      requires Valid() && h in timers.pending
      modifies this`timers, this`isDragging, this`hasClone
      modifies page`selectedTask, page`dragging, page`storedScrollY, page`scrollLocked, page`bodyTop
      ensures Valid()
      ensures timers == Fire(old(timers), h)
      ensures SingleTimer(old(timers)) ==> timers.pending == {}
      ensures isDragging && hasClone
      ensures page.selectedTask == Some(task) && page.dragging == old(page.dragging) + {task}
      ensures page.scrollLocked && page.storedScrollY == Some(page.scrollY)
    {
      if SingleTimer(timers) {
        FireLeavesNone(timers, h);
      }
      timers := Fire(timers, h);
      isDragging := true;
      page.selectedTask := Some(task);
      page.dragging := page.dragging + {task};
      page.LockScrollForDrag();
      hasClone := true;
    }

    /**
     * `onTouchMove` with the column under the finger (`None` when the
     * finger is over no column): ignored unless a drag with a clone is in
     * progress; entering a different column moves the placeholder there
     * unless that column already holds it.
     */
    method OnTouchMove(columnBelow: Option<ColumnId>, y: int, layout: Layout)
      requires Valid() && (columnBelow.Some? ==> columnBelow.value in page.columns)
      modifies this`currentColumn, page`columns
      ensures Valid()
      ensures var moved := old(isDragging) && old(hasClone) && columnBelow.Some? && columnBelow != old(currentColumn);
        (!moved ==> page.columns == old(page.columns) && currentColumn == old(currentColumn))
        && (moved ==>
              currentColumn == columnBelow
              && page.columns == PlaceholderForTouch(old(page.columns), columnBelow.value, y, page.dragging, layout)
              && PlaceholderOnlyIn(page.columns, columnBelow.value))
      ensures SameCardOrder(page.columns, old(page.columns))
    {
      if !isDragging || !hasClone {
        return;
      }
      if columnBelow.Some? && columnBelow != currentColumn {
        currentColumn := columnBelow;
        page.UpdatePlaceholderInColumn(columnBelow.value, y, layout);
      }
    }

    /**
     * `resetTaskDragState`: the card stops dragging, loses its drag styling
     * and its clone.
     */
    method ResetTaskDragState()
      requires Valid()
      modifies this`isDragging, this`hasClone, page`dragging
      ensures Valid()
      ensures !isDragging && !hasClone && page.dragging == old(page.dragging) - {task}
    {
      isDragging := false;
      page.dragging := page.dragging - {task};
      hasClone := false;
    }

    /**
     * `cleanupDragState`: the selection and the entered column are
     * forgotten, the placeholder detached and the images re-checked.
     */
    method CleanupDragState()
      requires Valid()
      modifies this`currentColumn, page`selectedTask, page`columns, page`emptyImage
      ensures Valid() && page.ImagesAgree()
      ensures currentColumn == None && page.selectedTask == None
      ensures page.columns == Detach(old(page.columns), Placeholder) && NoPlaceholder(page.columns)
      ensures NoPlaceholder(old(page.columns)) ==> page.columns == old(page.columns)
    {
      page.selectedTask := None;
      currentColumn := None;
      page.RemovePlaceholder();
      page.CheckColumns();
    }

    /** `clearTimeout(state.dragTimeout)` */
    method ClearDragTimeout()
      requires Valid()
      modifies this`timers
      ensures Valid()
      ensures timers == ClearStored(old(timers))
      ensures timers.pending == old(timers).pending - (if old(timers).current.Some? then {old(timers).current.value} else {})
      ensures SingleTimer(old(timers)) ==> timers.pending == {}
    {
      ClearRemovesStored(timers);
      if SingleTimer(timers) {
        ClearLeavesNone(timers);
      }
      timers := ClearStored(timers);
    }

    /**
     * `onTouchEnd`: the stored timer is cleared and the scroll unlocked.
     * A tap (no drag) changes nothing else.  After a drag, when a column
     * was entered and a card is selected, that card takes the
     * placeholder's place and its column is persisted; then the selection,
     * the placeholder and the images are reset.
     */
    method OnTouchEnd(patchOk: bool)
      requires Valid()
      modifies this`timers, this`isDragging, this`hasClone, this`currentColumn
      modifies page`columns, page`dragging, page`selectedTask, page`requests, page`emptyImage
      modifies page`storedScrollY, page`scrollLocked, page`bodyTop, page`scrollY
      ensures Valid()
      ensures timers == ClearStored(old(timers))
      ensures timers.pending == old(timers).pending - (if old(timers).current.Some? then {old(timers).current.value} else {})
      ensures SingleTimer(old(timers)) ==> timers.pending == {}
      ensures !page.scrollLocked && page.storedScrollY == None
      ensures !old(isDragging) ==>
        page.columns == old(page.columns) && page.requests == old(page.requests)
        && page.selectedTask == old(page.selectedTask) && page.dragging == old(page.dragging)
        && hasClone == old(hasClone) && currentColumn == old(currentColumn)
      ensures old(isDragging) ==>
        !isDragging && !hasClone && currentColumn == None && page.selectedTask == None
        && page.dragging == old(page.dragging) - {task}
        && NoPlaceholder(page.columns) && page.ImagesAgree()
      ensures old(isDragging) && old(currentColumn).Some? && old(page.selectedTask).Some? ==>
        page.columns == PlaceAtPlaceholderOrEnd(old(page.columns), old(currentColumn).value, old(page.selectedTask).value)
        && page.requests == old(page.requests)
                            + [ColumnSync.PatchTaskColumn(old(page.selectedTask).value, old(currentColumn).value)]
      ensures old(isDragging) && (old(currentColumn).None? || old(page.selectedTask).None?) ==>
        page.columns == Detach(old(page.columns), Placeholder) && page.requests == old(page.requests)
    {
      ClearDragTimeout();
      page.UnlockScrollFromDrag();
      if !isDragging {
        return;
      }
      EndDrag(patchOk);
    }

    /**
     * The part of `onTouchEnd` after a drag: the card stops dragging, is
     * dropped into the entered column when there is one and a card is
     * selected, and the drag state is cleaned up.
     */
    method EndDrag(patchOk: bool)
      requires Valid()
      modifies this`isDragging, this`hasClone, this`currentColumn
      modifies page`columns, page`dragging, page`selectedTask, page`requests, page`emptyImage
      ensures Valid()
      ensures !isDragging && !hasClone && currentColumn == None && page.selectedTask == None
        && page.dragging == old(page.dragging) - {task}
        && NoPlaceholder(page.columns) && page.ImagesAgree()
      ensures old(currentColumn).Some? && old(page.selectedTask).Some? ==>
        page.columns == PlaceAtPlaceholderOrEnd(old(page.columns), old(currentColumn).value, old(page.selectedTask).value)
        && page.requests == old(page.requests)
                            + [ColumnSync.PatchTaskColumn(old(page.selectedTask).value, old(currentColumn).value)]
      ensures old(currentColumn).None? || old(page.selectedTask).None? ==>
        page.columns == Detach(old(page.columns), Placeholder) && page.requests == old(page.requests)
    {
      ResetTaskDragState();
      if currentColumn.Some? && page.selectedTask.Some? {
        page.DropTaskInColumn(currentColumn.value, page.selectedTask.value, patchOk);
      }
      CleanupDragState();
    }

    /**
     * Two touchstarts and a touchend with `onTouchStart` as written: the
     * first timer is still pending after the finger has lifted, and when it
     * fires `beginTouchDrag` starts a drag that no touch is driving.
     */
    method RestartThenEndAsWritten(patchOk: bool) returns (stale: nat)
      requires Valid()
      modifies this`timers, this`isDragging, this`hasClone, this`currentColumn
      modifies page`columns, page`dragging, page`selectedTask, page`requests, page`emptyImage
      modifies page`storedScrollY, page`scrollLocked, page`bodyTop, page`scrollY
      ensures Valid()
      ensures stale == old(timers).next
      ensures isDragging && page.selectedTask == Some(task) && page.scrollLocked
    {
      stale := timers.next;
      OnTouchStart();
      OnTouchStart();
      OnTouchEnd(patchOk);
      TimerFired(stale);
    }

    /** The same gestures with `OnTouchStartClearing`: the touchend leaves no timer that could fire. */
    method RestartThenEndClearing(patchOk: bool)
      requires Valid() && SingleTimer(timers)
      modifies this`timers, this`isDragging, this`hasClone, this`currentColumn
      modifies page`columns, page`dragging, page`selectedTask, page`requests, page`emptyImage
      modifies page`storedScrollY, page`scrollLocked, page`bodyTop, page`scrollY
      ensures Valid() && SingleTimer(timers)
      ensures timers.pending == {}
    {
      OnTouchStartClearing();
      OnTouchStartClearing();
      OnTouchEnd(patchOk);
      ClearLeavesNone(timers);
    }

    /**
     * `onTouchCancel`: the stored timer is cleared, the scroll unlocked and
     * the clone removed; the selected card (whichever it is) loses its drag
     * styling, and the selection and placeholder are reset.  No card moves
     * and nothing is persisted.
     */
    method OnTouchCancel()
      requires Valid()
      modifies this`timers, this`isDragging, this`hasClone, this`currentColumn
      modifies page`columns, page`dragging, page`selectedTask
      modifies page`storedScrollY, page`scrollLocked, page`bodyTop, page`scrollY
      ensures Valid()
      ensures timers == ClearStored(old(timers))
      ensures timers.pending == old(timers).pending - (if old(timers).current.Some? then {old(timers).current.value} else {})
      ensures SingleTimer(old(timers)) ==> timers.pending == {}
      ensures !isDragging && !hasClone && currentColumn == None && page.selectedTask == None
      ensures !page.scrollLocked && page.storedScrollY == None
      ensures page.dragging == old(page.dragging)
                               - (if old(page.selectedTask).Some? then {old(page.selectedTask).value} else {})
      ensures page.columns == Detach(old(page.columns), Placeholder) && NoPlaceholder(page.columns)
      ensures SameCardOrder(page.columns, old(page.columns))
    {
      ClearDragTimeout();
      page.UnlockScrollFromDrag();
      hasClone := false;
      RevertTaskState();
      ResetDragState();
    }

    /** `revertTaskState`: the selected card, if any, loses its drag styling. */
    method RevertTaskState()
      requires Valid()
      modifies page`dragging
      ensures Valid()
      ensures page.dragging == old(page.dragging)
                               - (if page.selectedTask.Some? then {page.selectedTask.value} else {})
    {
      if page.selectedTask.Some? {
        page.dragging := page.dragging - {page.selectedTask.value};
      }
    }

    /** `resetDragState`: no drag, no selection, no entered column, no placeholder. */
    method ResetDragState()
      requires Valid()
      modifies this`isDragging, this`currentColumn, page`selectedTask, page`columns
      ensures Valid()
      ensures !isDragging && currentColumn == None && page.selectedTask == None
      ensures page.columns == Detach(old(page.columns), Placeholder) && NoPlaceholder(page.columns)
      ensures SameCardOrder(page.columns, old(page.columns))
    {
      isDragging := false;
      page.selectedTask := None;
      currentColumn := None;
      page.RemovePlaceholder();
    }
  }
}
