# Join: a verified model of the board's drag and drop and its helpers

Join is a kanban board for small teams. Its tasks sit in four columns:
to do, in progress, await feedback and done. This project models, in Dafny,
the part of the board page that moves task cards between those columns and
keeps the stored task in step. It also models the helpers around it: the
task dialogs, the add-task pages, the summary page, the contact and login
pages.

What each module models:

- `Board`: the columns of the board as lists of children (task cards and
  the drop placeholder), and the list surgery the DOM performs. That is
  `appendChild`, `insertBefore` and `remove`, with a card in at most one
  column.
- `DragResolver`: `getDragAfterElement`, the fold that finds the first card
  whose middle lies below the pointer.
  - The same function is copied in `task-added-content.js:91-102`.
- `DragAndDrop`: the pure steps of a drop. The card goes where the
  placeholder is, or at the end of the column.
- `ColumnSync`: moving a card in the DOM after a successful
  `PATCH /tasks/<id>.json`.
- `BoardPage.Page`: the board document as one object. It holds:
  - the columns;
  - the cards being dragged and the selected card;
  - the images for empty columns;
  - the log of PATCH requests;
  - the scroll lock;
  - the listeners bound to each column.

  Its methods are the desktop drag handlers, `checkColumns`, the column
  synchronizer and the page's start-up.
- `TouchDrag.TouchGesture`: the long-press touch controller of
  `draganddrop.touch.js`.
  - `draganddrop.js:182-273` holds a copy that behaves the same.
- `AddedContent`: the drag handlers of `task-added-content.js`.
- `TaskData`: loading, enriching, searching and rendering the tasks, and
  the "move to" dropdown of a card.
- `TaskUsers`, `Priority`, `Progress`, `EditSubtasks`, `EditAssignees`,
  `EditTask`: the task card's user badges, its priority icon, its subtask
  progress, and the edit dialog's subtasks, assignees and fields.
- `TaskForm`, `AddTaskPage`, `AssignedContacts`: the add-task dialog and
  page, with due-date validation, the category list, subtasks and the
  contact picker.
- `Summary`: the counters and the greeting of the summary page.
- `Avatars`, `ContactsUi`, `ContactsValidation`: initials, avatar classes,
  the grouped contact list and the contact form's checks.
- Login and signup:
  - `AuthCore`: the form checks and page state of `auth-core.js`;
  - `AuthStore`: its account store and hash;
  - `Logi`: the second login page `logi.js`, with its own e-mail pattern
    and lookup.
- `Text` and `Js`: the string built-ins the scripts use (`trim`,
  `toLowerCase`, `split`, `includes`) and `parseInt` / `toString`.
- `Wrappers`: `Option`.

Values that the browser or the network supply become parameters. These are:

- the outcome of each `fetch` or Firebase call;
- the card boxes from `getBoundingClientRect`;
- the pointer position;
- the pick of `Math.random`;
- `Date.now()`;
- the contents of `localStorage`.

A pending timer is part of the state, and it fires when a method says so.

Where the code and its evident intent differ, the code is modelled as it is
written. Each such member is paired with a corrected member that carries the
intended property (see "## Findings").

## Model

| member | source | states |
|---|---|---|
| Board.RemoveFrom | scripts/draganddrop.js:10-14 | removing a node leaves every other node of the column, in order, and drops only that node |
| Board.RemoveFromAt | scripts/draganddrop.js:10-14 | removing the one occurrence at index i closes the gap: the rest keep their order |
| Board.Detach | scripts/draganddrop.js:10-14 | `node.parentNode.removeChild(node)`: the node is in no column afterwards, other nodes stay where they were |
| Board.DetachAbsent | scripts/draganddrop.js:11 | detaching a node that has no parent changes nothing (the `parentNode` guard) |
| Board.DetachIdempotent | scripts/draganddrop.js:10-14 | detaching twice is detaching once |
| Board.DetachWf | scripts/draganddrop.js:10-14 | detaching keeps the board invariant (every card and the placeholder in at most one column, at most once) |
| Board.AppendChild | scripts/draganddrop.js:91 | `appendChild` first detaches the node, then makes it the last child of the column |
| Board.AppendChildSpec | scripts/draganddrop.js:91 | after `appendChild` the node is the last child of the column, in no other column, and the invariant holds |
| Board.InsertBefore | scripts/draganddrop.js:89 | `insertBefore(n, ref)` detaches n and puts it immediately before ref; inserting a node before itself leaves the tree unchanged |
| Board.InsertBeforeSpec | scripts/draganddrop.js:89 | after `insertBefore` the node sits right before ref in that column only, and the invariant holds |
| Board.WfReplace | scripts/draganddrop.js:82-93 | giving a column a duplicate-free list made of its own nodes plus one node that was in no column keeps the invariant |
| Board.CardIds | scripts/draganddrop.js:42 | the `.draggable-cards` children of a column, in document order |
| Board.HasCardsIff | scripts/draganddrop.js:42 | a column has cards exactly when one of its nodes is a card |
| DragResolver.Candidates | scripts/draganddrop.js:48 | the candidates are the column's cards without the `dragging` class, in document order |
| DragResolver.StepKeepsSummary | scripts/draganddrop.js:49-55 | one step of the reduce keeps the accumulator equal to the nearest card below the pointer among the cards seen so far |
| DragResolver.ReduceSummarises | scripts/draganddrop.js:49-56 | the whole reduce, seeded with offset -Infinity, returns the nearest card whose midpoint is below the pointer, the earliest one on ties |
| DragResolver.GetDragAfterElementSpec | scripts/draganddrop.js:47-57 | the result is none exactly when the pointer is below every candidate's midpoint; otherwise it is the card with the largest strictly negative offset, the earliest on ties |
| DragResolver.NearestBelowUnique | scripts/draganddrop.js:53 | the strict `>` makes the chosen card unique, so the answer depends only on the boxes and their order |
| DragResolver.AfterElementInColumn | scripts/draganddrop.js:48 | the chosen card is a child of the column and never the card carrying `dragging` |
| ColumnSync.PatchTaskColumn | scripts/taskDataTemplate.drag.js:57-65 | the request is a PATCH of `{column: newColumn}` to `tasks/{taskId}.json` |
| ColumnSync.TaskUrlRoundTrip | scripts/taskDataTemplate.drag.js:58 | the task id can be read back from the URL of its PATCH |
| ColumnSync.TaskUrlInjective | scripts/taskDataTemplate.drag.js:58 | PATCHes for different tasks never target the same URL |
| ColumnSync.UpdateTaskDOMPositionSpec | scripts/taskDataTemplate.drag.js:73-104 | a missing card or column is a no-op; otherwise the card ends in the target column and no other, keeps its place when already there (`removeFromOldParent`/`appendToNewColumn` guards), goes last otherwise, and nothing else moves |
| DragAndDrop.PlacedBeforeItself | scripts/draganddrop.js:82-93 | when the node after the placeholder is the card itself, the drop leaves the card where it is and only removes the placeholder |
| DragAndDrop.CardAroundPlaceholder | scripts/draganddrop.js:85-89 | with the card right after the placeholder, removing the card leaves both sides unchanged |
| DragAndDrop.PlacedBeforeOther | scripts/draganddrop.js:85-89 | when another node follows the placeholder, the card is detached and inserted right before that node |
| DragAndDrop.PlacedAtEnd | scripts/draganddrop.js:88-92 | when nothing follows the placeholder, or the column does not hold it, the card is appended |
| DragAndDrop.DropBeforeItself | scripts/draganddrop.js:82-93 | the drop case where the card is the placeholder's next sibling keeps the invariant and takes the placeholder off the board |
| DragAndDrop.DropBeforeOther | scripts/draganddrop.js:82-93 | the drop case with another next sibling puts the card where the placeholder was, removes the placeholder from every column and keeps the invariant |
| DragAndDrop.DropAtEnd | scripts/draganddrop.js:82-93 | the append case of the drop leaves the card last in the column, no placeholder anywhere, and the invariant |
| DragAndDrop.PlaceAtPlaceholderOrEndSpec | scripts/draganddrop.js:82-93 | `insertTaskAtPlaceholderOrEnd`: the card takes the placeholder's place when the column holds it, else goes last; the placeholder is gone from the board; other columns only lose the card and the placeholder; the invariant holds |
| DragAndDrop.DoubleDropAppends | scripts/draganddrop.js:357-369 | running the drop handler a second time for the same event (two listeners on one column) appends the card, so a card placed before another node no longer stays there |
| DragAndDrop.PlacedLastIsNotCard | scripts/draganddrop.js:82-93 | when the placeholder had a node after it, the first drop does not leave the card last, so the second append moves it |
| DragAndDrop.DropLeavesCardOnce | scripts/draganddrop.js:82-93 | after a drop the card is in exactly one column, the target |
| DragAndDrop.RemovePlaceholderTwice | scripts/draganddrop.js:10-14 | `removePlaceholder` is idempotent |
| DragAndDrop.AppendPlaceholderSpec | scripts/draganddrop.js:347 | appending the placeholder moves no card and leaves it last in that column only |
| DragAndDrop.SplicedPlaceholderRemoved | scripts/draganddrop.js:350 | inserting the placeholder before a card and taking it out again gives the column's cards back |
| DragAndDrop.InsertPlaceholderSpec | scripts/draganddrop.js:350 | inserting the placeholder before a child card moves no card and puts it right before that card, in that column only |
| DragAndDrop.DragOverColumnSpec | scripts/draganddrop.js:343-355 | after `handleColumnDragOver` the placeholder is in the hovered column only and no card moved; it is right before the chosen card when that card is a child, stays put when no card was chosen and the column held it, and is last otherwise |
| DragAndDrop.TouchPlaceholderSpec | scripts/draganddrop.js:218-225 | entering a column moves no card and leaves the placeholder in that column only: a column already holding it is left as it is, otherwise the placeholder goes right before the chosen card, or last when there is none |
| BoardPage.DocumentCards | scripts/taskDataTemplate.drag.js:30 | the board's cards in document order, column after column, each once |
| BoardPage.FirstMarked | scripts/taskDataTemplate.drag.js:30 | `document.querySelector('.dragging')`: the first card in document order that carries `dragging`, or none |
| BoardPage.BindPassKeepsBindings | scripts/draganddrop.js:100-110 | a binding pass keeps every flagged card bound exactly once for touch, and off touch devices also for desktop |
| BoardPage.BindPass | scripts/draganddrop.js:100-110 | the pass flags every card it sees and appends exactly the newly bound cards to the touch bindings, and to the desktop bindings off touch devices (`prepareTaskForDrag`) |
| BoardPage.NewlyBoundStep | scripts/draganddrop.js:103 | one more card seen is bound exactly when it was neither flagged before nor seen earlier in the pass |
| BoardPage.NewlyBoundSpec | scripts/draganddrop.js:100-110 | a pass binds each card at most once, never one already flagged `dragInitialized`, and every unflagged card it sees |
| BoardPage.RebindingDuplicatesListeners | scripts/draganddrop.js:140-147 | a second unguarded `initializeColumns` over columns that already carry listeners gives some column two listener pairs |
| BoardPage.ListenerCountAppend | scripts/draganddrop.js:140-147 | listener pairs counted over two runs of bindings add up |
| BoardPage.ListenerCountDistinct | scripts/draganddrop.js:140-147 | in a binding list without repeats a column carries one listener pair when bound and none otherwise |
| BoardPage.DropTimes | scripts/draganddrop.js:357-369 | the board after the drop handler has run n times for one column with the same `selectedTask` is well formed over the same columns |
| BoardPage.DropStep | scripts/draganddrop.js:358-366 | one run of the drop handler keeps the board well formed over the same columns |
| BoardPage.PlaceKeepsWf | scripts/draganddrop.js:82-93 | placing the card at the placeholder or last keeps the board well formed over the same columns |
| BoardPage.PatchTimes | scripts/draganddrop.js:363 | n runs send no PATCH without a selected card, and otherwise n copies of the PATCH `(selectedTask.id, column.id)` |
| BoardPage.PatchTimesSnoc | scripts/draganddrop.js:363 | one more run sends one more PATCH exactly when a card is selected |
| BoardPage.RepeatedDropEndsLast | scripts/draganddrop.js:357-369 | with two or more drop listeners on the column the dragged card ends last in the column, wherever the placeholder was |
| BoardPage.PlaceholderForTouchSpec | scripts/draganddrop.js:218-225 | the touch placeholder step keeps the board well formed, moves no card, leaves the placeholder only in the entered column, and changes nothing when that column holds it already |
| BoardPage.Page.constructor | scripts/draganddrop.js:1-4 | a fresh page: given columns and images, no selection, nothing marked, nothing bound, no requests, scroll not locked |
| BoardPage.Page.RemovePlaceholder | scripts/draganddrop.js:10-14 | the placeholder is detached, no card moves, and a detached placeholder leaves the board as it was |
| BoardPage.Page.CleanupPlaceholders | scripts/draganddrop.js:16-23 | every placeholder is detached |
| BoardPage.Page.CheckColumns | scripts/draganddrop.js:39-45 | afterwards every existing empty-state image is shown exactly when its column has no card; no image is added or removed |
| BoardPage.Page.EnsureEmptyStateImages | scripts/draganddrop.js:25-37 | every column without cards has an image afterwards, the images present before stay, and every image is shown exactly when its column is empty |
| BoardPage.Page.HandleTaskDragStart | scripts/draganddrop.js:59-65 | the dragged card becomes `selectedTask` and is marked `dragging`; nothing else changes |
| BoardPage.Page.HandleTaskDragEnd | scripts/draganddrop.js:67-75 | `selectedTask` is none, only the previously selected card loses `dragging`, the placeholder is detached and the images agree with the columns; safe without a drag |
| BoardPage.Page.InsertTaskAtPlaceholderOrEnd | scripts/draganddrop.js:82-93 | the column's nodes become the card in the placeholder's place (or last) and no placeholder is left on the board |
| BoardPage.Page.HandleColumnDragOver | scripts/draganddrop.js:343-355 | the board becomes the drag-over placement for the resolver's choice over the non-dragging cards: placeholder only in this column, no card moved |
| BoardPage.Page.UpdateTaskDOMPosition | scripts/taskDataTemplate.drag.js:73-80 | the board is re-parented as `UpdateTaskDOMPositionSpec` states; a missing card or column leaves the images too; otherwise the images agree with the columns |
| BoardPage.Page.UpdateTaskColumnInFirebase | scripts/taskDataTemplate.drag.js:42-49 | the PATCH is always sent; the card moves only when it succeeds; on failure the board and images are unchanged |
| BoardPage.Page.DropTaskInColumn | scripts/draganddrop.touch.js:119-122 | the card takes the placeholder's place (or goes last), no placeholder remains and its new column is PATCHed once |
| BoardPage.Page.UpdatePlaceholderInColumn | scripts/draganddrop.touch.js:75-82 | the placeholder moves only when the entered column does not hold it; then it is placed by the resolver; no card moves |
| BoardPage.Page.Drop | scripts/draganddrop.js:357-369 | with a selected card it is placed at the placeholder (or last) and one PATCH `(task, column)` is sent; without one only the placeholder is detached and nothing is sent; the images then agree |
| BoardPage.Page.DragOverAppend | scripts/taskDataTemplate.drag.js:26-34 | the first card marked `dragging` becomes the last child of the hovered column; with no marked card nothing changes |
| BoardPage.Page.EnableDragAndDrop | scripts/taskDataTemplate.drag.js:5-9 | on touch devices nothing is bound; otherwise every card gets the class-toggling pair and every column the append listener |
| BoardPage.Page.MarkDragging | scripts/taskDataTemplate.drag.js:17 | dragstart adds the card to the `dragging` set and changes nothing else |
| BoardPage.Page.UnmarkDragging | scripts/taskDataTemplate.drag.js:18 | dragend removes the card from the `dragging` set and changes nothing else |
| BoardPage.Page.InitializeTasks | scripts/draganddrop.js:100-110 | flagged cards are skipped, every other card seen is bound once (touch; desktop off touch devices) and flagged |
| BoardPage.Page.InitializeColumns | scripts/draganddrop.js:140-147 | as written, every call adds one dragover/drop listener pair to every column off touch devices, and none on touch devices |
| BoardPage.Page.InitializeColumnsOnce | scripts/draganddrop.js:140-147 | the intended binding: a column already carrying the pair is skipped, so the listener list stays without repeats and covers every column |
| BoardPage.Page.ReinitializeDragAndDrop | scripts/draganddrop.js:375-380 | every card now on the board is flagged and the newly seen ones are bound; every column gets one more listener pair off touch devices |
| BoardPage.Page.OnDomContentLoaded | scripts/draganddrop.js:385-394 | empty columns get images that agree with them, every card is flagged and bound, every column gets one more listener pair off touch devices, and the document gets one `cleanupPlaceholders` listener each for mouseup, touchend and dragend |
| BoardPage.Page.LoadThenReinitialize | scripts/taskData.js:126-131 | the DOMContentLoaded binding followed by the board script's `reinitializeDragAndDrop` leaves every column with two drop listener pairs off touch devices |
| BoardPage.Page.BindColumnsTwiceOnce | scripts/draganddrop.js:140-147 | the same two bindings with the guarded binding leave one listener pair per column |
| BoardPage.Page.DropEvent | scripts/draganddrop.js:357-369 | a drop event runs the drop handler once per listener pair bound to the column: the board and the PATCH log are those of that many runs |
| BoardPage.Page.DropAgain | scripts/draganddrop.js:357-369 | one more run of the drop handler moves the board and the PATCH log one step further |
| BoardPage.Page.LockScrollForDrag | scripts/draganddrop.js:308-313 | the scroll position is stored, the body is locked and pinned at it |
| BoardPage.Page.UnlockScrollFromDrag | scripts/draganddrop.js:319-327 | the body is released; a stored position is scrolled back to and forgotten, so a second unlock does not scroll; safe without a prior lock |
| TouchDrag.Schedule | scripts/draganddrop.touch.js:33 | `setTimeout` returns a fresh handle that is stored and pending; earlier pending timers stay pending |
| TouchDrag.ClearStored | scripts/draganddrop.touch.js:90 | `clearTimeout(state.dragTimeout)` cancels the stored handle and no other |
| TouchDrag.Fire | scripts/draganddrop.touch.js:33 | a firing timer is no longer pending and nothing else about the timers changes |
| TouchDrag.StaleTimerAsWritten | scripts/draganddrop.touch.js:28-34 | as written, two touchstarts followed by the touchend's `clearTimeout` leave the first timer pending, so more than the stored timer can be pending |
| TouchDrag.StartKeepsSingleTimer | scripts/draganddrop.touch.js:28-34 | the intended touchstart (clear, then schedule) leaves exactly the new timer pending |
| TouchDrag.ClearRemovesStored | scripts/draganddrop.touch.js:90 | clearing takes exactly the stored handle out of the pending ones |
| TouchDrag.FireLeavesNone | scripts/draganddrop.touch.js:33 | with at most the stored timer pending, its firing leaves none |
| TouchDrag.ClearLeavesNone | scripts/draganddrop.touch.js:90 | with at most the stored timer pending, touchend and touchcancel leave no timer that could still fire |
| TouchDrag.TouchGesture.constructor | scripts/draganddrop.touch.js:6-21 | the state `attachTouchDragEvents` sets up: not dragging, no column, no clone, no timer |
| TouchDrag.TouchGesture.OnTouchStart | scripts/draganddrop.touch.js:28-34 | as written: not dragging, a new timer stored in `dragTimeout` while the old handle stays pending |
| TouchDrag.TouchGesture.OnTouchStartClearing | scripts/draganddrop.touch.js:28-34 | the intended touchstart: the old timer cleared first, so only the new one is pending |
| TouchDrag.TouchGesture.TimerFired | scripts/draganddrop.touch.js:42-51 | `beginTouchDrag`: dragging with a clone, the card selected and marked `dragging`, the scroll locked at the current position; the timer is no longer pending |
| TouchDrag.TouchGesture.OnTouchMove | scripts/draganddrop.touch.js:58-67 | nothing changes unless dragging with a clone and a different column is under the finger; then that column is current and the placeholder is placed there only if it lacks it; no card moves |
| TouchDrag.TouchGesture.ResetTaskDragState | scripts/draganddrop.touch.js:104-112 | not dragging, no clone, the card loses `dragging` |
| TouchDrag.TouchGesture.CleanupDragState | scripts/draganddrop.touch.js:128-133 | no selection and no column, the placeholder detached, the images agree with the columns |
| TouchDrag.TouchGesture.ClearDragTimeout | scripts/draganddrop.touch.js:90 | exactly the stored timer is cancelled; with at most that one pending none is left |
| TouchDrag.TouchGesture.OnTouchEnd | scripts/draganddrop.touch.js:89-98 | the stored timer is cleared and the scroll unlocked; a tap changes nothing else; after a drag the card is dropped at the placeholder and PATCHed exactly when a column was entered and a card is selected, and the selection, column, clone and placeholder are reset |
| TouchDrag.TouchGesture.EndDrag | scripts/draganddrop.touch.js:93-97 | the drag branch of touchend: drop and PATCH only with both a column and a selected card, then everything reset |
| TouchDrag.TouchGesture.RestartThenEndAsWritten | scripts/draganddrop.touch.js:28-34 | two touchstarts and a touchend as written leave the first timer pending; when it fires, a drag starts with the finger lifted: dragging, card selected, scroll locked |
| TouchDrag.TouchGesture.RestartThenEndClearing | scripts/draganddrop.touch.js:28-34 | the same gestures with the clearing touchstart leave no timer pending |
| TouchDrag.TouchGesture.OnTouchCancel | scripts/draganddrop.touch.js:139-148 | timer cleared, scroll unlocked, clone removed, not dragging, no selection, no column, placeholder detached; the selected card loses `dragging`; no card moves and nothing is PATCHed |
| TouchDrag.TouchGesture.RevertTaskState | scripts/draganddrop.touch.js:153-158 | the selected card, if any, loses `dragging`; nothing else changes |
| TouchDrag.TouchGesture.ResetDragState | scripts/draganddrop.touch.js:164-169 | not dragging, no selection, no column, placeholder detached, no card moved |
| AddedContent.PlacePlaceholderSpec | scripts/task-added-content.js:60-69 | no card moves; the placeholder is appended only when no card was chosen and the column lacks it, inserted before the chosen card when the column contains that card, and otherwise left where it was |
| AddedContent.Page.constructor | scripts/task-added-content.js:1 | a fresh page with the given columns and image, nothing marked `dragging` |
| AddedContent.Page.CheckToDoColumn | scripts/task-added-content.js:6-12 | throws exactly when there is no `#toDoColumn`; otherwise an existing image is shown exactly when the column holds no card, and a missing image is left missing |
| AddedContent.Page.DragStart | scripts/task-added-content.js:34-38 | the card is marked `dragging` and nothing else changes |
| AddedContent.Page.DragEnd | scripts/task-added-content.js:40-46 | the card loses `dragging`, the placeholder is detached from every column, and the to-do image is re-checked (throwing exactly when there is no to-do column) |
| AddedContent.Page.HandleDragOver | scripts/task-added-content.js:60-69 | the board becomes the placement above for the resolver's choice; the hovered column holds the placeholder afterwards and no card moves |
| AddedContent.Page.HandleDrop | scripts/task-added-content.js:75-83 | throws exactly when the column holds the placeholder (its `firstChild` is null), and in every case no card moves and the placeholder stays |
| TaskUsers.Ids | scripts/taskDataTemplate.js:51 | the identifiers (`user.name \|\| JSON.stringify(user)`) of the users, one per user, in order |
| TaskUsers.RemoveDuplicatesIsFirstPerIdentifier | scripts/taskDataTemplate.js:43-58 | the `filter` with a `seen` set holding the identifiers of a prefix keeps exactly what the first-per-identifier reference keeps after that prefix |
| TaskUsers.RemoveDuplicateUsersIsReference | scripts/taskDataTemplate.js:43-58 | `removeDuplicateUsers` equals the reference "keep each user whose identifier no earlier user has" |
| TaskUsers.FirstPerIdentifierSubset | scripts/taskDataTemplate.js:43-58 | the result holds only users of the input |
| TaskUsers.FirstPerIdentifierCovers | scripts/taskDataTemplate.js:43-58 | the result has exactly the identifiers of the input |
| TaskUsers.FirstPerIdentifierDistinct | scripts/taskDataTemplate.js:43-58 | the result has no two users with the same identifier |
| TaskUsers.FirstPerIdentifierKeepsFirst | scripts/taskDataTemplate.js:53-57 | every user whose identifier no earlier user has is kept |
| TaskUsers.DistinctFirstPerIdentifier | scripts/taskDataTemplate.js:43-58 | a list whose identifiers are already distinct is kept whole |
| TaskUsers.RemoveDuplicateUsersIdempotent | scripts/taskDataTemplate.js:43-58 | removing duplicates from the result changes nothing |
| TaskUsers.ExtractPlaceholder | scripts/taskDataTemplate.js:26-40 | the users are either unchanged with count 0, or lose exactly their last entry; only a last entry whose trimmed name starts with `+` and parses is dropped |
| TaskUsers.PlusDigits | scripts/taskDataTemplate.js:32 | `parseInt("+N".replace('+', ''))` reads N |
| TaskUsers.PlusUserCount | scripts/taskDataTemplate.js:31-33 | the name `+N` is recognised with count N |
| TaskUsers.ExtractPlusUser | scripts/taskDataTemplate.js:26-40 | a trailing `+N` user is removed and N counted |
| TaskUsers.ExtractKeepsNamedUser | scripts/taskDataTemplate.js:31 | a last user whose trimmed name does not start with `+` is never removed and the count is 0 |
| TaskUsers.GetRealUserArrayAndCount | scripts/taskDataTemplate.js:9-20 | a non-array gives `([], 0)`; otherwise the real users are the extracted ones and `totalCount = \|realUsers\| + placeholderCount` |
| TaskUsers.TotalCountWithPlusUser | scripts/taskDataTemplate.js:9-20 | a stored list ending in `+N` counts its real users plus N |
| TaskUsers.BadgeOf | scripts/taskDataTemplate.render.js:71-72 | a badge always has a non-empty colour class and initials (`'default'` and `'?'` fallbacks) |
| TaskUsers.VisibleBadges | scripts/taskDataTemplate.render.js:70-75 | the badges of the first `maxToShow` users: `min(\|users\|, maxToShow)` of them, each the badge of the user at the same position |
| TaskUsers.CalculateOverflow | scripts/taskDataTemplate.render.js:85-90 | at most one badge, present exactly when total > max, and then `+(total - max)` with a positive count |
| TaskUsers.BuildBadges | scripts/taskDataTemplate.render.js:69-77 | the loop's accumulated badges are the visible badges |
| TaskUsers.RenderUserBadges | scripts/taskDataTemplate.render.js:51-61 | nothing for a missing, non-array or empty list; otherwise the visible badges of the de-duplicated real users followed by the overflow badge |
| TaskUsers.RenderUserBadgesInline | scripts/taskDataTemplate.js:60-80 | the same badges as the render version: visible badges of the unique users, then `+(unique - maxToShow)` only when unique exceeds maxToShow |
| TaskUsers.BadgeLayout | scripts/taskDataTemplate.js:60-80 | at most `maxToShow` user badges in order, then one `+k` badge exactly when users are left over, k being how many |
| TaskUsers.BadgesAccountForEveryUser | scripts/taskDataTemplate.render.js:51-61 | every distinct user is shown while they fit; otherwise `maxToShow` are shown and the `+k` badge counts exactly the distinct users not shown |
| Priority.PriorityPath | scripts/taskDataUtils.js:163-170 | the result is always one of the three stored icon paths |
| Priority.ExtractPriority | scripts/taskDataUtils.js:214-221 | the result is always a level (`urgent`, `medium` or `low`) |
| Priority.ExtractPriorityUrgentLow | scripts/newModal.js:166-172 | the edit dialog's extraction also always yields a level |
| Priority.PriorityLabel | scripts/taskDataUtils.js:201-207 | the label is one of `Urgent`, `Medium`, `Low`, `Unknown` |
| Priority.PriorityImage | scripts/taskDataTemplate.render.js:166-175 | the card icon is always one of the three mapped paths |
| Priority.ExtractNamedLevel | scripts/taskDataUtils.js:214-221 | lower-case text naming exactly one level is read as that level by both extractions |
| Priority.ExtractPriorityOfPath | scripts/taskDataUtils.js:163-170 | round trip: for every level p, `extractPriority(getPriorityPath(p)) == p`, for both extractions |
| Priority.PriorityPathDefault | scripts/taskDataUtils.js:169 | any name that is not a level is stored with the medium path and read back as medium |
| Priority.ExtractPriorityIgnoresCase | scripts/taskDataUtils.js:216 | both extractions give the same result for a text and its lower-case form |
| Priority.ExtractPriorityIdempotent | scripts/taskDataUtils.js:214-221 | extracting from an extracted level gives the level again |
| Priority.LevelsNameThemselves | scripts/taskDataUtils.js:214-221 | each level name is read as itself by both extractions |
| Priority.LabelAgreesWithExtract | scripts/taskDataTemplate.js:117-132 | on lower-case text the label is `Unknown` exactly when no level is named, and otherwise names the extracted level |
| Priority.LabelOfPath | scripts/taskDataUtils.js:201-207 | every stored path is labelled with its own level |
| Priority.LabelIsCaseSensitive | scripts/taskDataTemplate.js:117-132 | `"URGENT"` is labelled `Unknown` but extracted as `urgent` |
| Priority.PriorityImageRoundTrip | scripts/taskDataTemplate.render.js:166-175 | the card icon, read as a priority, gives the same level as the task's priority |
| Priority.ExtractionsDiffer | scripts/newModal.js:166-172 | the board's and the edit dialog's extractions differ exactly on text naming both `medium` and `low` but not `urgent` |
| Priority.SelectedPriority | scripts/newModalContr.js:275-280 | the result is a level; `urgent` exactly when the urgent button is active; `low` exactly when only the low button is; `medium` otherwise |
| Priority.SetEditPriority | scripts/newModal.js:178-196 | exactly one of the three buttons is active afterwards |
| Priority.SelectedAfterSet | scripts/newModal.js:178-196 | the level set into the edit dialog is the one read back by `getSelectedPriority`; unknown names read back as medium |
| Priority.PriorityValueFromOption | scripts/addTaskModalBoard.data.js:45-52 | the result is always a level, and a `data-priority` naming a level wins |
| Priority.AddModalSelectedPriority | scripts/addTaskModalBoard.data.js:34-38 | the result is a level, and `low` when no option is active |
| Priority.OptionClassRoundTrip | scripts/addTaskModalBoard.data.js:45-52 | an option marked by a level's class alone reads as that level unless its data attribute names another level |
| Progress.CompletedCount | scripts/taskDataModal.firebase.js:52 | the number of completed subtasks is at most the number of subtasks |
| Progress.SetCompleted | scripts/taskDataModal.firebase.js:42-44 | only subtask i's `completed` flag changes: its text and every other subtask stay |
| Progress.CompletedCountAll | scripts/taskDataModal.firebase.js:50-54 | the count reaches the length exactly when every subtask is done, and is 0 exactly when none is |
| Progress.CompletedCountSet | scripts/taskDataModal.firebase.js:42-44 | setting one flag moves the count by at most one, in the direction of the change |
| Progress.ProgressBounds | scripts/taskDataModal.firebase.js:50-54 | `total ? completed / total * 100 : 0` lies in [0, 100], is 0 for no subtasks or none done, and 100 exactly when all are done |
| Progress.ShareBounds | scripts/taskDataModal.firebase.js:53 | a share of a positive whole, in percent, lies in [0, 100] and reaches the ends only at 0 and at the whole |
| Progress.ProgressMonotone | scripts/taskDataModal.firebase.js:111-124 | ticking a subtask never lowers the progress, unticking never raises it |
| Progress.CalculateProgress | scripts/taskDataTemplate.js:273-278 | completed ≤ total, progress in [0, 100] and 0 when total is 0; a missing subtask list counts as `(0, 0, 0)` |
| Progress.ProgressSectionTemplate | scripts/taskDataTemplate.js:307-318 | the section is always built and displayed exactly when there are subtasks, with the given counts and width |
| Progress.ProgressSectionRender | scripts/taskDataTemplate.render.js:125-138 | nothing exactly when there are no subtasks or none is done; otherwise the section with the given counts and width |
| Progress.ProgressSectionsAgree | scripts/taskDataTemplate.render.js:125-128 | the two scripts' sections agree whenever a subtask is done; with subtasks but none done the template shows "0 / n" and the render script nothing |
| Progress.SubtaskPatch | scripts/taskDataModal.firebase.js:133-140 | the PATCH carries the given list and a progress in [0, 100] |
| Progress.RemoteStatusPatch | scripts/taskDataModal.firebase.js:63-74 | no PATCH exactly when the fetched record has no subtask array or the index is out of range; otherwise the list with subtask i set, and its progress |
| Progress.RemoteStatusPatchChangesOneFlag | scripts/taskDataModal.firebase.js:111-124 | the PATCHed list differs from the fetched one only in subtask i's flag, and its progress is the new share of done subtasks |
| Progress.UpdateTaskRequest | scripts/taskDataModal.firebase.js:158-169 | a PUT of the whole task to its URL exactly when the task exists and has a `firebaseKey` |
| Progress.TaskDialog.constructor | scripts/taskDataTemplate.js:1-3 | the open task and its id as given, nothing sent, nothing refreshed |
| Progress.TaskDialog.UpdateSubtaskStatusWithLocalData | scripts/taskDataModal.firebase.js:8-18 | an invalid index changes nothing and sends nothing; otherwise the local subtask's flag is set, one PATCH of the new list is sent, and the card is refreshed when the PATCH resolves |
| Progress.TaskDialog.UpdateSubtaskStatus | scripts/taskDataTemplate.js:100-115 | nothing unless a task is open under `taskId`; an index without a subtask throws before anything changes; otherwise the flag is set, one PATCH sent, and the page reloads only on an ok response |
| Progress.TaskDialog.UpdateSubtaskText | scripts/taskDataModal.firebase.js:177-183 | with an open task, a subtask list and a row index, that subtask takes the new text (an index without a subtask throws) and the task is PUT when it has a key; otherwise nothing changes |
| EditSubtasks.ExtractSubtaskText | scripts/newModal.subtasks.js:36-49 | a string is its own text; an object gives its `text`, else its string `innerText`, else `''`; other values give `''`, and the recursion on `.text` stops after three levels |
| EditSubtasks.ExtractFindsNestedText | scripts/newModal.subtasks.js:36-49 | a string wrapped in up to three `.text` objects is found, one wrapped in four is not |
| EditSubtasks.NormalizeSubtasks | scripts/newModal.subtasks.js:22-31 | one subtask per stored entry, in order; a falsy field gives none |
| EditSubtasks.NormalizeStored | scripts/newModal.subtasks.js:22-31 | normalising stored subtasks, as an array or keyed by id, gives them back unchanged |
| EditSubtasks.NormalizeField | scripts/newModal.subtasks.js:234-237 | the result is always an array holding the field's entries in order |
| EditSubtasks.NormalizeCurrentSubtasks | scripts/taskDataUtils.js:139-145 | a keyed object becomes the array of its values; any other field is returned unchanged |
| EditSubtasks.NormalizationsKeepEntries | scripts/taskDataModal.subtasks.js:222-228 | both normalisations keep the entries and their order, and applying either twice equals applying it once |
| EditSubtasks.IndexOfRow | scripts/newModal.subtasks.js:176-182 | -1 exactly when the row is not in the list; otherwise the position of its first occurrence |
| EditSubtasks.RemoveRow | scripts/newModal.subtasks.js:165-171 | the detached row is gone and every other row stays |
| EditSubtasks.RemoveRowAt | scripts/newModal.subtasks.js:165-171 | detaching a row present once removes exactly its position |
| EditSubtasks.SpliceOut | scripts/newModal.subtasks.js:181 | an index in range removes exactly that entry; -1 or an index past the end removes nothing |
| EditSubtasks.DeleteAsWrittenKeepsSubtask | scripts/newModal.subtasks.js:330-333 | as written, deleting a row leaves the stored subtasks unchanged, so the list then has one row fewer than the task has subtasks |
| EditSubtasks.EditAfterDeleteAsWrittenMisses | scripts/newModal.subtasks.js:382-388 | after a delete as written, editing a row behind the deleted one finds its subtask one place too early, in the entry of the subtask before it |
| EditSubtasks.DeleteRowKeepsRowsAligned | scripts/taskDataModal.subtasks.js:196-202 | with the index taken before the row is detached, the row and its subtask leave the same position, so rows and subtasks stay aligned and distinct |
| EditSubtasks.DeleteAbsentRow | scripts/newModal.subtasks.js:176-182 | deleting a row that is not in the list changes nothing, as written or corrected |
| EditSubtasks.AppendFreshRow | scripts/newModal.subtasks.js:223-229 | appending a new row element keeps the rows distinct |
| EditSubtasks.RemoveRowDistinct | scripts/newModal.subtasks.js:165-171 | detaching a row keeps the remaining rows distinct |
| EditSubtasks.EditedText | scripts/newModal.subtasks.js:372-377 | a blank input keeps the current text; otherwise the trimmed input, which is not blank |
| EditSubtasks.StripBulletRoundTrip | scripts/newModal.subtasks.js:340-347 | editing a row starts from its subtask's text without the bullet and its leading blanks |
| EditSubtasks.CleanTextRoundTrip | scripts/taskDataModal.subtasks.js:273-275 | `getCleanText` removes exactly the bullet a row adds |
| EditSubtasks.CleanTextRemovesOnlyFirst | scripts/taskDataModal.subtasks.js:273-275 | only the first bullet is removed |
| EditSubtasks.ReadRow | scripts/newModalContr.js:314-324 | a row reads as a subtask exactly when it has a span; without a checkbox it reads as not done |
| EditSubtasks.ReadRows | scripts/taskDataUtils.js:120-133 | never more subtasks than rows |
| EditSubtasks.ReadRowOfRow | scripts/taskDataUtils.js:120-133 | a row rendered from a subtask with a trimmed text reads back as that subtask |
| EditSubtasks.ReadSubtasksFromEditModal | scripts/taskDataUtils.js:120-133 | the loop collects exactly the subtasks the rows read as, in order |
| EditSubtasks.ReadSubtasksFromEditModalContr | scripts/newModalContr.js:295-324 | the loop collects exactly the subtasks the rows read as with this file's bullet rule, in order |
| EditSubtasks.ReadRowsRoundTrip | scripts/taskDataUtils.js:120-133 | rows rendered from subtasks with trimmed texts read back as exactly those subtasks |
| EditSubtasks.ReadRowsSnoc | scripts/taskDataUtils.js:120-133 | one more subtask gives one more row, which reads back as that subtask |
| EditSubtasks.ContrReaderKeepsBullet | scripts/newModalContr.js:320 | the `newModalContr.js` reader leaves a real `• ` bullet in the text, because it only removes the misdecoded one |
| EditSubtasks.IconClick | scripts/newModal.subtasks.js:317-328 | delete exactly when the delete icon was hit inside a row; edit exactly when only the edit icon was hit inside a row |
| EditSubtasks.EditList.constructor | scripts/newModal.subtasks.js:5-15 | an empty list over the given task state |
| EditSubtasks.EditList.SetSubtasksList | scripts/newModal.subtasks.js:5-15 | without the list element nothing changes; otherwise the list holds one new row per normalised subtask |
| EditSubtasks.EditList.AddNewSubtask | scripts/newModal.subtasks.js:223-229 | without an open task nothing changes; otherwise the stored list is an array ending in `{text, completed: false}`, one row is appended, and rows stay aligned with subtasks |
| EditSubtasks.EditList.OnCheckClick | scripts/newModal.subtasks.js:207-218 | a blank input or a missing list changes nothing; otherwise the trimmed text is added as a subtask and the input is cleared |
| EditSubtasks.EditList.AddNewSubtaskToList | scripts/taskDataModal.js:158-164 | without an open task no row and no subtask; otherwise the subtask is pushed at the old length and its row appended; the input is always cleared |
| EditSubtasks.EditList.DeleteSubtaskRowAsWritten | scripts/newModal.subtasks.js:165-182 | the row is detached and the stored subtasks stay unchanged, so a synced list ends one row short |
| EditSubtasks.EditList.DeleteSubtaskRow | scripts/taskDataModal.subtasks.js:183-202 | the row is detached; the subtask at its position goes too when the stored subtasks are an array; a keyed object throws; a synced list stays synced |
| EditSubtasks.EditList.SaveSubtaskEdit | scripts/newModal.subtasks.js:372-388 | the saved text is the edited text; it replaces the text of the stored subtask at the row's index when the subtasks are an array and the row is listed; a synced list never throws |
| EditSubtasks.SetText | scripts/newModal.subtasks.js:386 | an object entry takes the new text and keeps its flag |
| Summary.StripBlanks | scripts/summary.js:37 | removing blanks and underscores never lengthens the text |
| Summary.NormalizeColumn | scripts/summary.js:34-45 | to-do exactly when the key mentions "todo"; in progress only when it mentions "inprogress" or is "progress"; no column only when it mentions neither "done" nor "await" |
| Summary.NormalizeColumnOfName | scripts/summary.js:34-45 | each column id it returns reads back as that column |
| Summary.NormalizeColumnIdempotent | scripts/summary.js:34-45 | normalising the id of a normalised column gives the same column |
| Summary.NormalizePriority | scripts/summary.js:49-54 | urgent exactly when the lower-cased text mentions "urgent" or is "high"; low exactly when it is not urgent and mentions "low"; medium otherwise |
| Summary.NormalizePriorityOfName | scripts/summary.js:49-54 | each priority name reads back as that priority |
| Summary.ParseIsoDate | scripts/summary.js:61-62 | `YYYY-MM-DD` is the date with that year, month minus one, and day |
| Summary.ParseIsoShaped | scripts/summary.js:61-62 | any text of that shape is read year first |
| Summary.ParseDayFirstShaped | scripts/summary.js:63-66 | a `D.M.YYYY` match wins over a `D/M/YYYY` match, and each is read day first |
| Summary.ParseDotDate | scripts/summary.js:63-64 | `D.M.YYYY` is the date with year YYYY, month M minus one, and day D |
| Summary.ParseSlashDate | scripts/summary.js:65-66 | `D/M/YYYY` reads as the same date as `D.M.YYYY` |
| Summary.ParseEmptyDate | scripts/summary.js:59 | a missing or empty due date is no date |
| Summary.Records | scripts/summary.js:74-76 | only records are kept, and never more rows than given |
| Summary.RecordsOfRecords | scripts/summary.js:76 | rows that are all records are all kept, in order |
| Summary.RecordsSkipsOthers | scripts/summary.js:76 | rows that are not records add nothing |
| Summary.Coalesce | scripts/summary.js:78-80 | the result is `''` or the value of one of the given keys |
| Summary.Summarize | scripts/summary.js:77-81 | the id is a truthy `firebaseKey`, else a truthy `id`, else the position written in decimal |
| Summary.ParseAndNormalizeTasks | scripts/summary.js:73-82 | one summary per record among the rows, in order, each built from the record and its position among the records |
| Summary.ParsedIdsFallBackToPosition | scripts/summary.js:78 | a record without a key or an id gets its position as its id |
| Summary.CountIn | scripts/summary.js:86-97 | the tasks in a column are never more than the tasks |
| Summary.CountUrgent | scripts/summary.js:95 | the urgent tasks are never more than the tasks |
| Summary.ComputeCounters | scripts/summary.js:86-97 | the loop's counters are the total, the count per column and the urgent count |
| Summary.CountersAddUp | scripts/summary.js:86-97 | the four column counters and the tasks in no column add up to the total, and urgent ≤ total |
| Summary.BreakTag | scripts/summary.js:118 | the tag length found at the start never exceeds the text |
| Summary.CounterOfKey | scripts/summary.js:14-21 | a counter exactly when the normalised label is a key of `LABELS_MAP` |
| Summary.BreakReadsAsSpace | scripts/summary.js:118 | a `<br>` tag between two texts reads as a space |
| Summary.NormOfWords | scripts/summary.js:116-122 | lower-case words separated by single spaces are their own `norm` |
| Summary.NormOfBrokenLabel | scripts/summary.js:116-122 | words broken over two lines by `<br>` read as the same words on one line |
| Summary.InProgressLabel | scripts/summary.js:126-133 | the label "tasks in<br>progress" shows the in-progress counter |
| Summary.ReplaceBreaksOfLower | scripts/summary.js:118-119 | replacing `<br>` tags, which the `i` flag matches in any case, commutes with lower-casing |
| Summary.NormIgnoresCase | scripts/summary.js:116-122 | `norm` gives a label in any capitalisation the key of its lower-case form |
| Summary.InProgressLabelCapitalised | scripts/summary.js:126-133 | the capitalised label "Tasks in<br>Progress" shows the in-progress counter |
| TaskForm.LeapPeriod | scripts/addTaskModalBoard.validation.js:58-60 | the leap-year rule repeats every 400 years |
| TaskForm.DaysInMonth | scripts/addTaskModalBoard.validation.js:44 | 28 to 31 days; 29 exactly for February of a leap year; 31 exactly for January, March, May, July, August, October and December |
| TaskForm.DateYear | scripts/addTaskModalBoard.validation.js:46 | `new Date` reads a year below 100 as 1900 plus it; other years are kept |
| TaskForm.ReadDueDate | scripts/addTaskModalBoard.validation.js:38-42 | a day exactly when the text has the form `[0-3]d/[0-1]d/dddd`, with day < 40, month < 20 and year < 10000 |
| TaskForm.IsValidDueDate | scripts/addTaskModalBoard.validation.js:36-51 | an accepted text always has the pattern's form and names a real calendar day |
| TaskForm.ReadFormattedDueDate | scripts/addTaskModalBoard.validation.js:38-42 | a day written `dd/mm/yyyy` reads back as that day |
| TaskForm.FormatReadDueDate | scripts/addTaskModalBoard.validation.js:38-42 | every text the pattern accepts is the written form of the day read from it |
| TaskForm.ValidDueDateIff | scripts/addTaskModalBoard.validation.js:36-51 | a written calendar day is accepted exactly when it is today or later |
| TaskForm.LeapDayNeedsLeapYear | scripts/addTaskModalBoard.validation.js:44-45 | the 29th of February is accepted only in a leap year, and in any leap year when it is not past |
| TaskForm.InputValue | scripts/addTaskModalBoard.data.js:26-28 | the trimmed value, which is not empty; the fallback when the input is missing or blank |
| TaskForm.InputValueTrimmed | scripts/addTaskModalBoard.data.js:26-28 | the value read is trimmed whenever the fallback is |
| TaskForm.ValidFormIsFilled | scripts/addTaskModalBoard.validation.js:24-29 | a form the validation script accepts also passes the modal script's filled-in check |
| TaskForm.FilledFormNeedNotBeValid | scripts/addTaskModalBoard.js:490-495 | a filled-in form whose due date is not ten characters long passes only the modal script's check |
| TaskForm.CreateButton.constructor | scripts/addTaskModalBoard.validation.js:6-18 | the button starts disabled |
| TaskForm.CreateButton.UpdateState | scripts/addTaskModalBoard.validation.js:6-18 | disabled exactly when the form is not valid; pointer events and opacity follow |
| TaskForm.ValidateForm | scripts/addTaskModalBoard.validation.js:66-70 | the result is the form's validity, and a present button is disabled exactly when the form is not valid |
| TaskForm.TrimmedNames | scripts/addTaskModalBoard.data.js:60-65 | every name kept is trimmed and not empty, and there are never more names than badges |
| TaskForm.Dedup | scripts/addTaskModalBoard.data.js:66-74 | never more names than given |
| TaskForm.DedupSpec | scripts/addTaskModalBoard.data.js:66-74 | the result holds exactly the given names, each once |
| TaskForm.DedupOfDistinct | scripts/addTaskModalBoard.data.js:66-74 | distinct names are kept as they are, in order |
| TaskForm.GetSelectedUsers | scripts/addTaskModalBoard.data.js:58-75 | the loop returns the trimmed, non-empty names, each once, in first-seen order |
| TaskForm.GetSubtasks | scripts/addTaskModalBoard.data.js:81-86 | one open subtask per row, with the row's trimmed text, so none is completed |
| TaskForm.NoneCompleted | scripts/addTaskModalBoard.data.js:83 | subtasks that are all open have a completed count of 0 |
| TaskForm.PriorityTemplate | scripts/addTaskModalBoard.data.js:11 | the icon path the template builds for a level is that level's priority path |
| TaskForm.GetTaskData | scripts/addTaskModalBoard.data.js:5-18 | a new task in the to-do column with progress 0 and no id; its icon reads back as the active priority; its users are the distinct selected names; no subtask is done; a blank description becomes "No description provided" |
| TaskForm.Toggled | scripts/addTaskModalBoard.category.js:43-49 | "block" exactly when the list was not shown; "none" otherwise |
| TaskForm.ToggleTwice | scripts/addTaskModalBoard.category.js:43-49 | two toggles restore a shown or hidden list; an unset display ends hidden |
| TaskForm.AddTaskModal.constructor | scripts/addTaskModalBoard.js:183-193 | an unset category display, an empty input and no subtask rows |
| TaskForm.AddTaskModal.ToggleCategoryOptions | scripts/addTaskModalBoard.category.js:43-49 | the display becomes the toggled value |
| TaskForm.AddTaskModal.HandleAddSubtask | scripts/addTaskModalBoard.subtasks.js:20-28 | a blank input changes nothing; otherwise the trimmed text is appended as a row and the input cleared |
| AddTaskPage.NamesOf | scripts/addtask-widgets.js:124 | the names of the selection's entries, one per entry, in insertion order |
| AddTaskPage.Without | scripts/addtask-widgets.js:124 | the entries other than `name`, each kept, and no more entries than before |
| AddTaskPage.WithoutAbsent | scripts/addtask-widgets.js:124 | deleting a name that is not selected changes nothing |
| AddTaskPage.WithoutWellFormed | scripts/addtask-widgets.js:124 | deleting a name keeps every name at most once |
| AddTaskPage.ToggleFlips | scripts/addtask-widgets.js:123-136 | toggling flips exactly the membership of that name, leaves every other name as it was, and keeps names unique |
| AddTaskPage.ToggleTwice | scripts/addtask-widgets.js:123-136 | two toggles restore the selection's entries, and its order too when the name was not chosen before |
| AddTaskPage.PreviewOf | scripts/addtask-widgets.js:151-181 | no preview exactly when nothing is chosen; otherwise the first at most three entries as badges and a "+N" that counts the rest, present exactly when more than three are chosen |
| AddTaskPage.AssigneePicker.constructor | scripts/addtask-widgets.js:66-86 | nothing chosen, no rows, no error shown |
| AddTaskPage.AssigneePicker.RebuildContacts | scripts/addtask-widgets.js:99-120 | one row per fetched contact, in order, marked exactly when that name is chosen |
| AddTaskPage.AssigneePicker.FlipRows | scripts/addtask-widgets.js:129-134 | every row for the name has its mark flipped; every other row is unchanged |
| AddTaskPage.AssigneePicker.DeselectRows | scripts/addtask-widgets.js:161-169 | every row for the name is unmarked; every other row is unchanged |
| AddTaskPage.AssigneePicker.ToggleAssignee | scripts/addtask-widgets.js:123-136 | the selection is the toggled one and the name's membership flips; adding clears the field error, removing leaves it |
| AddTaskPage.AssigneePicker.RemoveBadge | scripts/addtask-widgets.js:139-149 | the name leaves the selection and its rows are unmarked |
| AddTaskPage.AssigneePicker.ClearSelection | scripts/addtask-widgets.js:88-96 | nothing is chosen, no preview, and every row is kept but unmarked |
| AddTaskPage.AssigneePicker.SelectedUsers | scripts/addTask.js:128-131 | one name per chosen entry, all distinct |
| AddTaskPage.EditedText | scripts/addtask-widgets.js:259-264 | the trimmed input when committed and not blank, otherwise the old text; never empty and always trimmed |
| AddTaskPage.SetKeepsTrimmed | scripts/addtask-widgets.js:259-264 | replacing one trimmed, non-empty item by another keeps every item so |
| AddTaskPage.SubtaskComposer.constructor | scripts/addtask-widgets.js:184-198 | an empty list in a closed shell |
| AddTaskPage.SubtaskComposer.AddFromInput | scripts/addtask-widgets.js:278-284 | a blank input changes nothing; otherwise the trimmed text is appended and the shell is open |
| AddTaskPage.SubtaskComposer.DeleteItem | scripts/addtask-widgets.js:228-231 | exactly item i leaves; the shell closes once the list is empty |
| AddTaskPage.SubtaskComposer.FinishEdit | scripts/addtask-widgets.js:249-270 | only item i changes: to the trimmed input when committed and not blank, otherwise it stays |
| AddTaskPage.SubtaskComposer.Collect | scripts/addtask-widgets.js:296-300 | one open subtask per item, with its text, in order |
| AddTaskPage.EnsureCategoryOptions | scripts/addtask-widgets.js:35-46 | the two categories are added exactly when the select holds only a blank placeholder; a blank first option is hidden; other options stay |
| AddTaskPage.EnsureCategoryOptionsIdempotent | scripts/addtask-widgets.js:35-46 | a second call changes nothing |
| AddTaskPage.Validate | scripts/addTask-page.js:53-68 | valid exactly when no field is flagged; each field is flagged exactly when it is missing or blank |
| AddTaskPage.Flagged | scripts/addTask.js:496-511 | exactly the fields whose flag is set, at most three |
| AssignedContacts.Names | scripts/addTaskModalBoard.contacts.js:72-73 | the badge names in container order, never more than the children |
| AssignedContacts.Profiles | scripts/addTaskModalBoard.contacts.js:240-242 | the contact badges with their display reset, without any "+N" badge |
| AssignedContacts.ProfilesKeepNames | scripts/addTaskModalBoard.contacts.js:240-242 | removing the "+N" badges and resetting the display keeps the names in order |
| AssignedContacts.BadgesViewCounts | scripts/addTaskModalBoard.contacts.js:237-250 | the first five badges are shown (all when there are at most five), and one "+N" badge with N the number hidden appears exactly when there are more than five |
| AssignedContacts.ViewKeepsNames | scripts/addTaskModalBoard.contacts.js:237-250 | the view keeps the badges' names and their order |
| AssignedContacts.BadgesViewIdempotent | scripts/addTaskModalBoard.contacts.js:237-250 | running the view again over its own result changes nothing, because the stale "+N" badge is removed first |
| AssignedContacts.AssignedContacts.constructor | scripts/addTaskModalBoard.contacts.js:112-140 | one dropdown row per contact, in order, none checked, no badge yet |
| AssignedContacts.AssignedContacts.UpdateAssignedBadgesView | scripts/addTaskModalBoard.contacts.js:237-250 | the container becomes the view of its badges, with the same names |
| AssignedContacts.AssignedContacts.AddContactToAssigned | scripts/addTaskModalBoard.contacts.js:55-65 | without the container, or when the contact already has a badge, nothing changes; otherwise its name is appended once |
| AssignedContacts.AssignedContacts.RemoveContactFromAssigned | scripts/addTaskModalBoard.contacts.js:88-95 | the contact has no badge afterwards and every other badge stays |
| AssignedContacts.AssignedContacts.ProfileClick | scripts/addTaskModalBoard.contacts.js:224-231 | the clicked contact leaves and every other badge stays |
| AssignedContacts.AssignedContacts.UpdateDropdownStates | scripts/addTaskModalBoard.contacts.js:71-81 | each checkbox is checked exactly when its contact has a badge; rows without a checkbox are skipped |
| AssignedContacts.AssignedContacts.OnCheckboxChange | scripts/addTaskModalBoard.contacts.js:165-174 | the checkbox ends checked exactly when its contact has a badge; checking adds it at most once, unchecking removes it |
| AssignedContacts.AssignedContacts.ItemClick | scripts/addTaskModalBoard.contacts.js:182-200 | a click on the checkbox itself does nothing; otherwise an unchecked contact ends with one badge and a checked one with none |
| AssignedContacts.FirstBadge | scripts/addTaskModalBoard.contacts.js:58 | the position of the first badge for the name, or the length when there is none |
| AssignedContacts.NamesMembership | scripts/addTaskModalBoard.contacts.js:72-73 | a name is listed exactly when some badge carries it |
| AssignedContacts.RemoveChild | scripts/addTaskModalBoard.contacts.js:91-92 | removing a badge from a duplicate-free container removes exactly its name |
| EditAssignees.ColorWordRoundTrip | scripts/newModal.js:276-293 | every colour's word reads back as that colour |
| EditAssignees.ColorOfWord | scripts/newModal.js:281-291 | a colour found is one whose word is the given text |
| EditAssignees.GetSimpleColor | scripts/newModalContr.js:74-87 | a value that is not a hex code is returned unchanged; a hex code gives a lower-case colour name of at most seven letters |
| EditAssignees.GetSimpleColorIdempotent | scripts/newModalContr.js:74-87 | naming a simple colour again changes nothing |
| EditAssignees.GetSimpleColorIgnoresCase | scripts/newModalContr.js:76 | hex codes are matched ignoring the case of their letters |
| EditAssignees.GetBadgeClassFromAnyColor | scripts/newModal.js:276-293 | always a badge class; a badge class is kept; a colour name, trimmed and in any case, selects its floating class; anything else, the empty value included, the default class |
| EditAssignees.BadgeClassIdempotent | scripts/newModal.js:276-293 | mapping a badge class again keeps it |
| EditAssignees.BadgeClassFromColor | scripts/newModalContr.js:231-234 | always a badge class; a missing colour reads as `default` |
| EditAssignees.ColorOrDefault | scripts/newModalContr.js:183 | a non-empty colour is kept; otherwise the result is still not empty |
| EditAssignees.ItemsOf | scripts/taskDataUtils.contacts.js:101-105 | one item per contact |
| EditAssignees.ItemsOfContacts | scripts/newModalContr.js:30-57 | item k has contact k's id and name, and is marked exactly when that contact's name is among the task's users |
| EditAssignees.AddBadge | scripts/newModalContr.js:215-229 | nothing when a badge already has that id or name; otherwise the badge is appended |
| EditAssignees.AddBadgeUnique | scripts/newModalContr.js:215-229 | adding keeps badge ids and names unique, and afterwards the contact has a badge |
| EditAssignees.WithoutBadge | scripts/newModalContr.js:163-172 | exactly the badges with another id stay, and uniqueness is kept |
| EditAssignees.AssignedUserNames | scripts/taskDataUtils.contacts.js:88-92 | the normalised names of the task's users, a missing name as empty; a missing list gives the empty set |
| EditAssignees.ContactAssignedIgnoresCase | scripts/newModalContr.js:54-57 | a contact is preselected whatever padding and capitals the task's user name carries |
| EditAssignees.PreselectedBadgesCover | scripts/newModalContr.js:59-66 | the preselected badges are unique, every marked item has one, and each belongs to a marked item |
| EditAssignees.ExtractUserFromBadge | scripts/newModalContr.js:265-273 | a user only for a named badge, with a non-empty colour defaulting to `default` |
| EditAssignees.ReadAssignees | scripts/newModalContr.js:244-258 | never more users than badges |
| EditAssignees.ReadAssigneesDistinct | scripts/newModalContr.js:244-258 | the users read back have distinct names |
| EditAssignees.ReadAssigneesAreBadgeUsers | scripts/newModalContr.js:244-258 | every user read back is some badge's user |
| EditAssignees.ReadAssigneesCover | scripts/newModalContr.js:244-258 | no badge's user is lost: its name is among the names read back |
| EditAssignees.ReadAssigneesGrow | scripts/newModalContr.js:244-258 | one more badge keeps every name read so far and adds the new badge's user |
| EditAssignees.ReadAssigneesOfUniqueBadges | scripts/taskDataUtils.contacts.js:370-382 | badges with distinct, non-empty names read back one user each, in order |
| EditAssignees.ReadAssigneesFromBadges | scripts/newModalContr.js:244-258 | the walk with a `seen` set returns exactly the first user per name |
| EditAssignees.StaleMarkAsWritten | scripts/newModalContr.js:187-206 | as written, a badge click leaves the contact's item marked while it has left `selectedContacts`, so items and set disagree |
| EditAssignees.PopulatedValid | scripts/taskDataUtils.contacts.js:101-105 | a freshly filled dropdown is consistent: marked items are exactly the selected contacts, ids are distinct, and badges are unique and selected |
| EditAssignees.RemoveBadgeAt | scripts/newModalContr.js:189 | dropping a badge keeps the rest unique and removes its contact's only badge |
| EditAssignees.UnmarkId | scripts/newModalContr.js:194-203 | corrected half of the badge-click findings: the items of the badge's contact, found by its id as `newModalContr.js` means to, lose `selected` and the checked box; no other item changes |
| EditAssignees.UnmarkIdSynced | scripts/newModalContr.js:187-206 | corrected half of the badge-click findings: unmarking the deselected contact's items keeps items and `selectedContacts` in step |
| EditAssignees.FindItemByName | scripts/taskDataUtils.contacts.js:347-351 | the first item whose `.contact-name` text equals the name, none when no item's does |
| EditAssignees.NamedDeselectKeepsMark | scripts/taskDataUtils.contacts.js:331-351 | as written, the lookup by name finds no item for a named contact (the items built at `taskDataUtils.contacts.js:200-213` hold the name in `.contact-name-edit`), so its item stays marked while the contact has left `selectedContacts` |
| EditAssignees.NamelessDeselectUnmarksFirst | scripts/taskDataUtils.contacts.js:331-351 | as written, for a contact without a name `undefined === undefined` matches the first item, which is unmarked even when it is another, still selected contact's |
| EditAssignees.FillEntries | scripts/taskDataUtils.contacts.js:101-105 | the loop gives the items, selected ids and badges that the contacts determine |
| EditAssignees.AssigneeDropdown.constructor | scripts/taskDataUtils.contacts.js:78-81 | empty containers and an empty `selectedContacts` |
| EditAssignees.AssigneeDropdown.Populate | scripts/taskDataUtils.contacts.js:101-149 | one item per contact; exactly the contacts assigned to the task are selected, marked and given one badge |
| EditAssignees.AssigneeDropdown.HandleDropdownSelection | scripts/newModalContr.js:146-172 | the item's mark flips and no other item changes; a selected contact is deselected and its badge removed, otherwise it is selected and given a badge |
| EditAssignees.AssigneeDropdown.BadgeClickAsWritten | scripts/newModalContr.js:187-206 | the badge goes and its contact leaves the set, but the contact's items stay marked |
| EditAssignees.AssigneeDropdown.BadgeClickByNameAsWritten | scripts/taskDataUtils.contacts.js:319-351 | as written in this copy: the badge goes, its contact leaves the set, and only the item the lookup by name finds is unmarked |
| EditAssignees.AssigneeDropdown.BadgeClick | scripts/newModalContr.js:187-206 | corrected half of the badge-click findings: the badge goes, its contact leaves the set, and that contact's items are unmarked, so everything stays consistent |
| EditTask.CategoryValue | scripts/newModal.js:97-103 | `technical` exactly for a technical task, `userstory` exactly for a user story, and the empty placeholder exactly for any other category |
| EditTask.CategoryOfValue | scripts/newModal.js:223 | a technical task exactly for `technical`; a user story for every other value |
| EditTask.CategoryRoundTrip | scripts/newModal.js:92-105 | a known category survives opening and saving the dialog; any other category is saved as a user story |
| EditTask.ValueRoundTrip | scripts/newModal.js:215-227 | a select value survives saving and reopening exactly when it is one of the two category values |
| EditTask.FillForm | scripts/newModal.js:92-105 | the text fields show the task's values, empty when missing; the selected priority is the one the stored path names; the category select shows the category's value |
| EditTask.Edited | scripts/newModal.js:217-219 | a blank input keeps the field; otherwise the trimmed input, which is not blank |
| EditTask.ApplyInputs | scripts/newModal.js:215-227 | the text fields as edited; the stored path of the selected priority; the category the select names; the subtasks and users the readers return |
| EditTask.SaveUnchangedKeepsTask | scripts/taskDataModal.js:27-79 | opening the dialog and saving it unchanged keeps a task whose text fields are filled, whose priority is a level's path and whose category is one of the two |
| EditTask.ApplyInputsIdempotent | scripts/taskDataModal.js:27-33 | saving again with the same inputs changes nothing further |
| EditTask.EditDialog.constructor | scripts/newModal.js:5-85 | the dialog holds the task and its filled form |
| EditTask.EditDialog.SetTaskFields | scripts/newModal.js:92-105 | the form becomes the task's filled form |
| EditTask.EditDialog.UpdateTaskFromInputs | scripts/taskDataModal.js:27-33 | the task becomes the old task with the form's inputs applied |
| Avatars.Prefix2 | scripts/utils.js:25 | at most the first two characters of the word |
| Avatars.SpokenIsTrimmed | scripts/utils.js:21 | a name written as words with single spaces is its own trimmed form |
| Avatars.GetInitials | scripts/utils.js:20-27 | never more than two letters |
| Avatars.GetInitialsOfWords | scripts/utils.js:20-27 | for a name of two or more words the first letters of the first and last word, upper-cased; for one word its first two letters, upper-cased |
| Avatars.GetInitialsOfSplit | scripts/utils.js:20-27 | the same, for any trimmed name in terms of the pieces it splits into at spaces |
| Avatars.GetInitialsIgnoresPadding | scripts/utils.js:21 | blanks around a name do not change its initials, and a blank name has none |
| Avatars.TaskDataGetInitials | scripts/taskData.js:14-19 | never more than two letters |
| Avatars.GetInitialsCopiesAgree | scripts/taskData.js:14-19 | the `taskData.js` copy agrees with the `utils.js` one on every name |
| Avatars.CoreInitials | scripts/addtask-core.js:13-19 | one or two letters; `"??"` for a blank name; otherwise the first is the upper-cased first letter of the trimmed name |
| Avatars.CoreInitialsOfWords | scripts/addtask-core.js:13-19 | for a name of words with single spaces it agrees with `getInitials` of `utils.js` |
| Avatars.CoreInitialsOfSplit | scripts/addtask-core.js:13-19 | for a trimmed name of words: first and last initial for two or more words; the first one or two letters of a single word |
| Avatars.AccountInitials | scripts/account-name.js:9-15 | one or two letters; `"G"` for a missing or blank name |
| Avatars.AccountInitialsOfWords | scripts/account-name.js:9-15 | first and last initial for two or more words; one letter for a single word |
| Avatars.AccountInitialsOfSplit | scripts/account-name.js:9-15 | the same for any trimmed, non-empty name, in terms of its words |
| Avatars.ReadState | scripts/account-name.js:21-26 | a stored name means no guest and that name's initials; without a name the initials are `"G"` and the guest flag is the stored one |
| Avatars.GuestFlag | scripts/account-name.js:23 | a guest exactly when the stored flag is `"true"` |
| Avatars.Utf16LengthConcat | scripts/utils.js:11 | the UTF-16 length of two joined texts is the sum of their lengths |
| Avatars.GetAvatarClass | scripts/utils.js:6-13 | always one of the seven avatar classes |
| Avatars.AvatarClassPeriodic | scripts/utils.js:11 | appending a multiple of seven code units keeps the avatar class |
| Avatars.AvatarClassByLength | scripts/utils.js:11 | names of the same UTF-16 length get the same class |
| Avatars.FirstCodeUnit | scripts/addtask-core.js:23 | always a single UTF-16 code unit |
| Avatars.CodeSumConcat | scripts/addtask-core.js:23 | the code sum of two joined texts is the sum of their code sums |
| Avatars.ColorIdx | scripts/addtask-core.js:22-23 | always between 1 and 7 |
| Avatars.ColorIdxOrderFree | scripts/addtask-core.js:22-23 | the colour index does not depend on the order of a name's two halves |
| Avatars.NormCategory | scripts/addtask-core.js:37-44 | always one of the two labels; a user story exactly when the trimmed, lower-cased text mentions "user" and not "technical" |
| Avatars.NormCategoryIdempotent | scripts/addtask-core.js:37-44 | the two labels normalise to themselves, so normalising twice equals normalising once |
| ContactsUi.FirstLetter | scripts/contacts.ui.js:21 | at most one character; empty exactly when the name is missing or empty; otherwise the name's first character, upper-cased |
| ContactsUi.GroupOf | scripts/contacts.ui.js:18-26 | never more contacts than the list |
| ContactsUi.GroupOfConcat | scripts/contacts.ui.js:20-24 | grouping distributes over concatenation, so within a group contacts keep their list order |
| ContactsUi.GroupOfCounts | scripts/contacts.ui.js:18-26 | a group holds every contact of its letter as often as the list does, and no other contact |
| ContactsUi.GroupOfPermutation | scripts/contacts.ui.js:6-7 | reordering the list does not change which contacts land in which group |
| ContactsUi.Letters | scripts/contacts.ui.js:18-26 | exactly the first letters that occur in the list |
| ContactsUi.GroupOfMissing | scripts/contacts.ui.js:18-26 | a letter no contact has has an empty group |
| ContactsUi.GroupsSnoc | scripts/contacts.ui.js:22-23 | appending a contact appends it to its letter's group, creating the group when needed, and leaves the other groups alone |
| ContactsUi.GroupsSpec | scripts/contacts.ui.js:18-26 | a group for each letter that occurs, holding that letter's contacts in list order |
| ContactsUi.GroupContactsByLetter | scripts/contacts.ui.js:18-26 | the loop builds exactly those groups, and `letters` lists each group's letter once |
| ContactsUi.DisplayContacts | scripts/contacts.ui.js:5-11 | whatever order the sort produces, there is a group exactly for each letter that occurs, holding exactly that letter's contacts |
| ContactsValidation.ShapeAtFirstAt | scripts/contacts.validation.js:133 | in a match the local part holds no `@`, so the `@` is the first one |
| ContactsValidation.ShapeDotPosition | scripts/contacts.validation.js:133 | in a match the dot before the top-level domain is three or four characters from the end |
| ContactsValidation.ContactEmailTest | scripts/contacts.validation.js:133-134 | the test holds exactly when the address has the pattern's form `local@domain.(de\|com\|net)` |
| ContactsValidation.IsValidEmail | scripts/contacts.validation.js:132-135 | valid exactly when the trimmed address matches the pattern |
| ContactsValidation.IsValidPhone | scripts/contacts.validation.js:142-144 | valid exactly when the trimmed number has at least six characters |
| ContactsValidation.ShapeSingleAt | scripts/contacts.validation.js:133 | after the `@` of a match the address holds no other `@` |
| ContactsValidation.ValidEmailHasOneAt | scripts/contacts.validation.js:132-135 | a valid address is not blank and has exactly one `@`, with something on each side |
| ContactsValidation.ExampleAddressValid | scripts/contacts.validation.js:133 | `foo@bar.de` is valid |
| ContactsValidation.OrgAddressInvalid | scripts/contacts.validation.js:133 | `foo@bar.org` is not, because `.org` is not an accepted top-level domain |
| ContactsValidation.EmailInputFlagged | scripts/contacts.validation.js:14 | flagged exactly when the trimmed value is not blank and does not match |
| ContactsValidation.EditAgreesWithAddOnTrimmed | scripts/contacts.validation.js:153-158 | on trimmed values the edit form accepts exactly what the add form accepts |
| ContactsValidation.AcceptedEmailNotFlagged | scripts/contacts.validation.js:5-29 | an address the add form accepts shows no live error |
| ContactsValidation.AddContactForm.constructor | scripts/contacts.validation.js:107-125 | no red border and no error shown |
| ContactsValidation.AddContactForm.ValidateAllFields | scripts/contacts.validation.js:35-102 | accepted exactly when all fields are filled, the address is valid and the phone long enough; the first failing check, in that order, shows its error and leaves the later ones alone; success clears every error |
| ContactsValidation.AddContactForm.ValidateEmailInput | scripts/contacts.validation.js:5-29 | border and error are shown exactly when the value is flagged |
| ContactsValidation.EditContactForm.constructor | scripts/contacts.validation.js:203-224 | no red border and no error shown |
| ContactsValidation.EditContactForm.ValidateEditContactFields | scripts/contacts.validation.js:153-198 | accepted exactly when the three values are non-empty, the address valid and the phone long enough; an empty value fails without touching any error; the address error then follows the address, and the phone error is checked only after a valid address |
| ContactsValidation.EditContactForm.ValidateEmailInput | scripts/contacts.validation.js:5-29 | border and error are shown exactly when the value is flagged |
| AuthCore.IsValidEmailAddress | scripts/auth-core.js:48-50 | valid exactly when the trimmed address matches `EMAIL_REGEX`; a valid address is never blank |
| AuthCore.DomainHasNoAt | scripts/auth-core.js:48-50 | a domain the pattern accepts holds no `@` |
| AuthCore.DomainEndsWithLetter | scripts/auth-core.js:48-50 | a domain the pattern accepts ends with a letter of its top-level domain |
| AuthCore.MatchSingleAt | scripts/auth-core.js:48-50 | a matching address has exactly one `@`, with something before it |
| AuthCore.MatchEndsWithLetter | scripts/auth-core.js:48-50 | a matching address ends with a letter, so never with a dot |
| AuthCore.MatchesAfterLocal | scripts/auth-core.js:48-50 | behind a valid local part, an address matches exactly when the text after its `@` is a valid domain |
| AuthCore.SimpleAddressMatches | scripts/auth-core.js:48-50 | a local part, a host label and a top-level domain of the pattern's shape make a matching address |
| AuthCore.ComAddressValid | scripts/auth-core.js:48-50 | `a@b.com` is valid |
| AuthCore.OneLetterDomainInvalid | scripts/auth-core.js:48-50 | a domain whose top-level part is a single character is refused |
| AuthCore.OneLetterTopLevelInvalid | scripts/auth-core.js:48-50 | an address with a one-letter top-level domain is refused |
| AuthCore.CollectSignupData | scripts/auth-core.js:148-156 | the four text fields trimmed, and the policy box as ticked |
| AuthCore.ValidateMissing | scripts/auth-core.js:159-167 | exactly the empty controls, each once, in page order |
| AuthCore.SignupCheck | scripts/auth-core.js:223-241 | passes exactly when nothing is missing, the address is valid and the passwords agree; otherwise the first failing check in that order decides the message and the marked controls, and the address and password checks mark only the address |
| AuthCore.PassedSignupIsComplete | scripts/auth-core.js:223-241 | a form that passes has a name, a valid address, a confirmed non-empty password and the policy ticked |
| AuthCore.EmptyLoginEmailIsFormatError | scripts/auth-core.js:272-279 | the empty address fails the format check, so the message about empty fields never shows for it |
| AuthCore.LoginCheck | scripts/auth-core.js:272-279 | passes exactly when the address is valid and the password not empty; the format check comes first and marks only the address; an empty password marks both controls |
| AuthCore.Marks | scripts/auth-core.js:43-45 | exactly the controls of the failed check |
| AuthCore.SessionOf | scripts/auth-core.js:256-263 | not a guest, the splash triggered, and the user's trimmed name when it has one |
| AuthCore.AuthPage.constructor | scripts/auth-core.js:312-315 | empty fields, no marks, no message, no session and no redirect |
| AuthCore.AuthPage.HandleSignupSubmit | scripts/auth-core.js:223-241 | marks and message are cleared first; a failed check marks its controls, shows its message and sends nothing; a passed check sends exactly the collected data |
| AuthCore.AuthPage.ShowCheck | scripts/auth-core.js:38-45 | the form's marks are cleared, then a failed check marks its controls and shows its message; a passed one leaves the message cleared |
| AuthCore.AuthPage.CompleteSignup | scripts/auth-core.js:242-252 | success empties the form and clears its marks; failure marks the address and shows the error's message, or the fallback when it has none, and keeps the form |
| AuthCore.AuthPage.OnPolicyChange | scripts/auth-core.js:292-298 | ticking clears the policy mark and the message; unticking changes nothing |
| AuthCore.AuthPage.HandleLoginSubmit | scripts/auth-core.js:266-279 | marks and message are cleared; a failed check marks its controls and sends nothing; a passed one sends the trimmed address and password |
| AuthCore.AuthPage.CompleteLogin | scripts/auth-core.js:280-288 | success stores the user's session, shows the success message and redirects; failure marks both login controls, shows the rejection and keeps session and location |
| AuthCore.AuthPage.EnterSession | scripts/auth-core.js:256-263 | the session is stored, the success message shown and the page redirected |
| AuthCore.SignupPassesLoginChecks | scripts/auth-core.js:223-289 | the address and password a signup passed with also pass the login checks, unchanged by the login's trimming |
| AuthCore.SignedUpCanLogIn | scripts/auth-core.js:114-135 | an account created through the signup form logs in with the address and password typed there |
| AuthStore.Utf8 | scripts/auth-core.js:54 | one to four bytes, a single byte exactly for ASCII, continuation bytes in `0x80..0xBF` |
| AuthStore.Utf8RoundTrip | scripts/auth-core.js:54 | decoding a code point's encoding gives it back, so the encoding is injective |
| AuthStore.EncodeConcat | scripts/auth-core.js:54 | encoding a concatenation concatenates the encodings |
| AuthStore.ByteSumPermutation | scripts/auth-core.js:53-57 | the byte sum of a password does not depend on the order of its characters |
| AuthStore.ParseHexOfHex | scripts/auth-core.js:55-56 | reading back the hexadecimal text of `toString(16)` gives the number |
| AuthStore.SimpleHash | scripts/auth-core.js:53-57 | the hash is `h:` followed by at least one hexadecimal digit |
| AuthStore.SimpleHashEqual | scripts/auth-core.js:53-57 | two passwords hash alike exactly when their UTF-8 byte sums agree |
| AuthStore.AnagramsHashAlike | scripts/auth-core.js:53-57 | a rearrangement of a password's characters hashes alike |
| AuthStore.SafeKey | scripts/auth-core.js:108-111 | same length; every forbidden character becomes `_`, every other one is kept; no forbidden character remains |
| AuthStore.SafeKeyIdempotent | scripts/auth-core.js:108-111 | sanitising a key again changes nothing |
| AuthStore.SafeKeyCollides | scripts/auth-core.js:108-111 | two addresses of one length share a key exactly when, at every position, they agree or both hold `_` or a forbidden character |
| AuthStore.NormalizeStable | scripts/auth-core.js:115-117 | a normalised address is its own normal form |
| AuthStore.UserAt | scripts/auth-core.js:60-69 | a user is found exactly when one is stored under the id, and it is a stored user |
| AuthStore.Put | scripts/auth-core.js:103-105 | afterwards the id holds the record and every other id holds what it held |
| AuthStore.Scan | scripts/auth-core.js:72-79 | finds a user exactly when one is registered under the address, and then one whose address it is |
| AuthStore.IndexedId | scripts/auth-core.js:60-69 | a hit exactly when the address's key is in the index with a non-empty id, and then that id |
| AuthStore.FetchUserByEmailAsWritten | scripts/auth-core.js:60-84 | with an index hit for a stored id, that user whatever its address; without one, the scan; a registered address is always found |
| AuthStore.FetchUserByEmailChecked | scripts/auth-core.js:60-84 | finds a user exactly when the address is registered, and only a user with that address |
| AuthStore.FetchAgreesWithoutIndex | scripts/auth-core.js:60-84 | with no index entry for the address the lookup as written and the intended one agree |
| AuthStore.CheckCredentials | scripts/auth-core.js:133-134 | accepted exactly when a user was found whose stored hash is the password's hash; otherwise `auth/wrong-credentials` |
| AuthStore.VerifyLoginCredentials | scripts/auth-core.js:128-135 | a user it returns is stored and has the password's hash; without an index hit it is the intended login |
| AuthStore.VerifyLoginCredentialsChecked | scripts/auth-core.js:128-135 | returns only a stored user with the address typed and the password's hash; an unregistered address gets `auth/wrong-credentials` |
| AuthStore.CreateNewUser | scripts/auth-core.js:114-125 | a blank address and a registered one are refused with their messages; a new record is saved and indexed; without an index hit it is the intended signup |
| AuthStore.CreateNewUserChecked | scripts/auth-core.js:114-125 | accepted exactly for a non-blank unregistered address, and then the record is saved under the new id and the address indexed to it |
| AuthStore.SaveUser | scripts/auth-core.js:92-111 | the record built from the form, stored under its id, every other user kept, and the address's key pointing at the id |
| AuthStore.FetchIndexHit | scripts/auth-core.js:60-69 | an index hit whose user has the address asked for is what the intended lookup returns |
| AuthStore.CreatedIsIndexed | scripts/auth-core.js:114-125 | after a signup the address's index entry leads to the new record, which has the address and the password's hash |
| AuthStore.SignupThenLogin | scripts/auth-core.js:114-135 | logging in with the address and password of a signup returns its record, in both the as-written and the intended login |
| AuthStore.SignupTwiceRefused | scripts/auth-core.js:114-125 | a second signup with the same address is refused as already registered |
| AuthStore.UserAtRegistered | scripts/auth-core.js:72-79 | a stored user's address is registered |
| AuthStore.AnagramPasswordAccepted | scripts/auth-core.js:53-57 | a password with the same characters in another order logs in as well |
| AuthStore.CollidingLoginAsWritten | scripts/auth-core.js:60-84 | another address sharing the key of one that signed up logs in as that account with its password |
| AuthStore.CollidingKeyHits | scripts/auth-core.js:60-84 | an address whose key collides with an indexed one is given that user by the lookup as written |
| AuthStore.CollidingSignupRefusedAsWritten | scripts/auth-core.js:114-125 | an unregistered address sharing a key with a signed-up one is refused as written and accepted by the intended signup |
| AuthStore.LoginNeverReturnsOtherAddress | scripts/auth-core.js:128-135 | the intended login never returns a user with another address |
| AuthStore.IndexHitAsWritten | scripts/auth-core.js:60-69 | an index hit returns the user stored under its id, whatever that user's address |
| AuthStore.KeyCollisionExample | scripts/auth-core.js:108-111 | `a.b@x.de` and `a_b@x.de` are different addresses with the same key |
| AuthStore.NormalizeFixed | scripts/auth-core.js:115-117 | an address already lower-case and trimmed is its own normal form |
| AuthStore.DisplayName | scripts/auth-core.js:257-258 | the trimmed name when it is not blank, else the joined first and last names; never starts or ends with whitespace |
| AuthStore.JoinNames | scripts/auth-core.js:258 | the present names, joined by one space |
| AuthStore.SignupDisplayName | scripts/auth-core.js:92-100 | an account created with a trimmed name greets its owner by that name |
| Logi.IsValidEmailAddress | scripts/logi.js:4 | valid exactly when the trimmed address matches this page's `EMAIL_REGEX`; a valid address is never blank |
| Logi.MatchesAfterLocal | scripts/logi.js:4 | behind a valid local part, an address matches exactly when the text after its `@` is a domain of this page's pattern |
| Logi.TopLevelLength | scripts/logi.js:4 | without a dot, the whole domain is its top-level part |
| Logi.DomainAgreement | scripts/logi.js:4 | this page's domain pattern and the one of `auth-core.js` agree exactly on domains whose host labels suit both and whose top-level domain has two letters |
| Logi.TopLevelHasNoDot | scripts/logi.js:4 | a top-level domain of either pattern holds no dot |
| Logi.LongTopLevelRefusedHere | scripts/logi.js:4 | a one-host domain whose top-level part is not two characters long is refused here |
| Logi.HyphenDomainHere | scripts/logi.js:4 | a host of a single hyphen is a label here |
| Logi.HyphenDomainRefusedByCore | scripts/auth-core.js:48-50 | a host of a single hyphen is no label for `auth-core.js` |
| Logi.LongTopLevelRefusedHereOnly | scripts/logi.js:4 | an address with a top-level domain longer than two letters passes the pattern of `auth-core.js` but not this page's |
| Logi.HyphenHostAcceptedHere | scripts/logi.js:4 | an address whose host is a bare hyphen passes this page's pattern but not the one of `auth-core.js` |
| Logi.ValidateSignupPayload | scripts/logi.js:128-148 | passes exactly when nothing is missing, the address is valid and the passwords agree; missing controls come first, then the address (marking it), then the confirmation (marking both password controls) |
| Logi.PassedPayloadIsComplete | scripts/logi.js:128-148 | a payload that passes has every field filled, the policy accepted, a valid address and a confirmed password |
| Logi.PayloadAgreesWithCore | scripts/logi.js:128-148 | where the two pages' address patterns agree on a form, both pages accept the same forms, and a form with a missing control fails on both with the same controls marked |
| Logi.LoginCheck | scripts/logi.js:210-219 | the address format first, marking the address; then an empty password, marking both controls; passes exactly when the address is valid and the password not empty |
| Logi.FetchUserByEmailAsWritten | scripts/logi.js:60-73 | what it returns is a stored user; without an index entry it is the scan |
| Logi.FetchAgreesWithoutIndex | scripts/logi.js:60-73 | without an index entry the lookup as written is the intended one |
| Logi.StaleIndexHidesUser | scripts/logi.js:60-73 | an index entry naming a missing record hides a registered address, which the intended lookup finds |
| Logi.VerifyLoginCredentialsAsWritten | scripts/logi.js:96-103 | a user it returns is stored and has the password's hash; without an index entry it is the intended login |
| Logi.CreateNewUserAsWritten | scripts/logi.js:75-94 | a blank address is refused; failures are the two messages; success saves and indexes the record built from the form |
| Logi.CreateAgreesWithoutIndex | scripts/logi.js:75-94 | without an index entry for the address, signing up here is the intended signup |
| Logi.CreatedIsIndexedAsWritten | scripts/logi.js:75-94 | after a signup the address's index entry leads to the new record, which has the address and the password's hash |
| Logi.CollidingLoginAsWritten | scripts/logi.js:60-73 | another address sharing the index key of one that signed up logs in as that account with its password |
| Logi.CollidingKeyHitsAsWritten | scripts/logi.js:60-73 | any address sharing an index key with an indexed account gets that account |
| Logi.LogiPage.constructor | scripts/logi.js:240-254 | empty fields, no marks, no message, no session and no redirect |
| Logi.LogiPage.ShowCheck | scripts/logi.js:168-182 | the form's marks and the message are cleared; a failed check then marks its controls and shows its message |
| Logi.LogiPage.HandleSignupSubmit | scripts/logi.js:166-186 | a failed payload marks its controls and sends nothing; a passed one sends the collected data |
| Logi.LogiPage.CompleteSignup | scripts/logi.js:186-199 | success empties the form and clears its marks; failure marks the address and shows the error's message, or `Sign up failed.` |
| Logi.LogiPage.HandleLoginSubmit | scripts/logi.js:202-219 | marks and message cleared; the trimmed address and password are sent only when the login checks pass |
| Logi.LogiPage.CompleteLogin | scripts/logi.js:220-237 | success stores the session and redirects to the summary; failure marks both login controls and shows the rejection |
| Logi.LogiPage.EnterSession | scripts/logi.js:222-233 | the session stored, the success message shown and the page redirected |
| Logi.LogiPage.OnPolicyChange | scripts/logi.js:246-254 | ticking clears the policy mark and the message; unticking changes nothing |
| Js.DigitRun | scripts/taskDataTemplate.js:32 | the longest prefix of digits of the radix: all of it digits, and the next character none |
| Js.DigitChar | scripts/auth-core.js:56 | the lower-case digit whose value is the number, a decimal digit exactly below ten |
| Js.NatString | scripts/auth-core.js:56 | non-empty digits of the radix, without a leading zero unless the number is zero |
| Js.DigitRunAll | scripts/taskDataTemplate.js:32 | a string made only of digits is read to its end |
| Js.NatStringValue | scripts/auth-core.js:56 | the digits of a number read back give the number |
| Js.ParseUnsignedOfNatString | scripts/addTaskModalBoard.validation.js:40-42 | reading the decimal digits of a number gives it back |
| Js.ParseIntOfNatString | scripts/addTaskModalBoard.validation.js:40-42 | `parseInt` of a number's decimal string gives the number, with or without radix 10 |
| Js.ParseIntOfIntString | scripts/draganddrop.js:324 | `parseInt(String(i))` is `i` for every integer, negative ones included |
| Js.ParseIntNoDigits | scripts/taskDataTemplate.js:32 | a string whose first non-blank character is no sign and no digit is `NaN` |
| TaskData.EnrichUser | scripts/taskData.js:33-36 | the name kept; filled initials and colour kept; a missing colour becomes the random pick |
| TaskData.EnrichUsersAt | scripts/taskData.js:33-36 | user `j` of task `i` is enriched with the pick made for it |
| TaskData.EnrichTasksAt | scripts/taskData.js:31-37 | task `i` is enriched with its own picks |
| TaskData.EnrichKeepsFilledFields | scripts/taskData.js:30-38 | only the users change: a task without users is kept, users keep their names and order, filled initials and colours are never overwritten, and every user ends with a colour |
| TaskData.EnrichUserIdempotent | scripts/taskData.js:33-36 | enriching a user twice changes nothing, whatever the second pick |
| TaskData.EnrichUsersIdempotent | scripts/taskData.js:33-36 | enriching a task's users twice changes nothing |
| TaskData.EnrichTasksIdempotent | scripts/taskData.js:30-38 | enriching the tasks a second time changes nothing, whatever colours come up |
| TaskData.EnrichTasksWithUserData | scripts/taskData.js:30-38 | the nested loops leave exactly the enriched tasks |
| TaskData.EnrichUsersOfTask | scripts/taskData.js:33-36 | the inner loop leaves exactly the enriched users of the task |
| TaskData.WithKey | scripts/taskData.js:52 | the record has a key: the entry's, unless the stored value carries one of its own, which wins; every other field is the stored value's |
| TaskData.KeptRecords | scripts/taskData.js:50-52 | at most one record per entry, each with a key |
| TaskData.KeptRecordsCover | scripts/taskData.js:50-52 | every entry not keyed `null` or `task-3` is loaded |
| TaskData.KeptRecordsFromKeptEntries | scripts/taskData.js:50-52 | every loaded record comes from an entry not keyed `null` or `task-3` |
| TaskData.LoadTasks | scripts/taskData.js:44-59 | a failed fetch and a non-object payload load nothing; otherwise the kept entries, enriched |
| TaskData.EmptyTermMatches | scripts/taskData.js:71-85 | the empty term matches every card |
| TaskData.CardFoundByTitle | scripts/taskData.js:71-85 | a card is found by its own title typed in lower case |
| TaskData.LongerTermMatchesLess | scripts/taskData.js:71-85 | typing more of the term never brings a hidden card back |
| TaskData.SearchView.constructor | scripts/taskData.js:71-85 | every card shown, no message |
| TaskData.SearchView.FilterTasks | scripts/taskData.js:71-85 | a card is shown exactly when its title or description contains the lower-cased term; the message shows exactly when no card matches |
| TaskData.EmptySearchShowsAll | scripts/taskData.js:71-85 | clearing the search shows every card, and the message only when there is no card |
| TaskData.Generate | scripts/taskDataUtils.js:104-114 | the board keeps its columns |
| TaskData.GenerateWf | scripts/taskDataUtils.js:104-114 | rendering keeps every card in at most one column |
| TaskData.RenderedIntoIds | scripts/taskDataUtils.js:104-114 | every card rendered into a column is the card of a task that has a title and a column |
| TaskData.AppendAbsent | scripts/taskDataUtils.js:108-109 | appending a card that is on no column puts it last in its column and changes no other |
| TaskData.FreshCardNotRendered | scripts/taskDataUtils.js:104-114 | a later task's card is not among the cards rendered before it |
| TaskData.GenerateStep | scripts/taskDataUtils.js:105-112 | a task with a fresh card adds exactly its card to the column it names |
| TaskData.CardStep | scripts/taskDataUtils.js:108-109 | appending a fresh card, or leaving the columns alone, adds to each column the card the task names |
| TaskData.StepColumns | scripts/taskDataUtils.js:105-112 | one more task extends each column by that task's card, if it names the column |
| TaskData.GenerateAppendsInOrder | scripts/taskDataUtils.js:104-114 | when every rendered task has a description and the ids are fresh, no card throws and each column ends with the cards of the tasks naming it, in task order, after the children it had |
| TaskData.GenerateTasks | scripts/taskDataUtils.js:104-114 | the page's columns become the rendering of the tasks; the empty-column images agree with the columns unless a card threw |
| TaskData.RestAfterThrow | scripts/taskDataUtils.js:104-114 | once a card has thrown, later tasks change nothing |
| TaskData.MoveDropdown.constructor | scripts/taskDataUtils.js:47-58 | the dropdown of a card, hidden |
| TaskData.MoveDropdown.ChooseOption | scripts/taskDataUtils.js:86-98 | the PATCH for the card's new column is sent; when the column exists the card ends last in it and in no other column; the dropdown is hidden and the images agree with the columns |
| Text.Trim | scripts/taskData.js:15 | `trim()` never lengthens a string and leaves no white space at either end |
| Text.TrimIdempotent | scripts/auth-core.js:115-117 | trimming twice is trimming once |
| Text.TrimPadded | scripts/auth-core.js:148-156 | white space around a string does not change its trimmed form |
| Text.LowerTrimIdempotent | scripts/auth-core.js:115-117 | `toLowerCase().trim()` applied twice is applied once |
| Text.ToLower | scripts/taskData.js:71-85 | same length, each character lower-cased |
| Text.Split | scripts/taskData.js:15 | at least one piece, none holding the separator |
| Text.SplitJoin | scripts/taskData.js:15 | splitting and re-joining with the separator gives the string back |
| Text.SplitOfJoin | scripts/utils.js:21 | pieces free of the separator, joined and split again, come back |
| Text.SplitWs | scripts/account-name.js:11 | at least one piece, none holding white space |
| Text.SplitWsOfTrimmed | scripts/account-name.js:11 | a trimmed non-empty string splits on white space into non-empty words only |
| Text.SplitWsOfJoin | scripts/account-name.js:11 | words free of white space, joined by single spaces, split back into the words |

## Left out

- Text.ToLower, Text.ToUpper: only ASCII letters change case. JavaScript maps all of Unicode, so `ContactsUi` files "Ölmann" under "ö" where the page shows "Ö", and "ß" is not upper-cased to "SS". The source's data is German, so this matters for umlauts.
- DragResolver.GetDragAfterElement: card boxes and the pointer position are integers. `getBoundingClientRect` returns fractional floating-point values, and the model's comparison of doubled offsets is exact where the browser rounds.
- Progress.CalculateProgress: the progress share is an exact `real`, not an IEEE double, so rounding of the bar width is not modelled.
- Progress.CalculateProgress: subtasks stored as a keyed object, on which `.filter` throws, are excluded by the `Option<seq>` type rather than modelled as a throw.
- ContactsUi.FirstLetter, Avatars: `charAt(0)` and `name[0]` take one UTF-16 code unit. The model takes one Dafny `char`, so a name starting with a character outside the Basic Multilingual Plane yields half a surrogate pair in the source and a whole character here.
- ContactsUi.DisplayContacts: a contact without a name makes `a.name.localeCompare` throw, which the model does not reproduce. The locale order itself is a parameter (any permutation of the contacts); only the grouping of that order is proved.
- BoardPage.Page.Drop, BoardPage.Page.DropEvent: the PATCH request and its response are one step. Interleavings, such as a dragend or a second drop arriving before the response, are not modelled. Every listener of one drop event gets the same PATCH outcome.
- BoardPage.Page.HandleTaskDragStart, AddedContent.Page.DragStart: the `setTimeout(..., 0)` that adds the `dragging` class (`draganddrop.js:59-65`, `task-added-content.js:36`) is folded into the dragstart event, so a dragover arriving before the timer runs already sees the class.
- TouchDrag.TouchGesture: the 200 ms timer fires only when `TimerFired` is called. Wall-clock time and the browser's event ordering are not modelled.
- TaskUsers.RenderUserBadgesInline: the badge loop is proved against `BuildBadges`, which returns the badges. The HTML string it builds is not modelled.
- TaskForm.AddTaskModal.HandleAddSubtask: the `validateForm()` call after adding a row is not repeated. `TaskForm.ValidateForm` models it, and the form's validity does not depend on the subtasks.
- `nextDeadline` (`summary.js:101-112`) is not part of this model. It reads the clock and formats a date with the browser's locale.
- Network, timers and randomness become parameters: `fetch`, the Firebase helpers, `setTimeout`, `Math.random` (user ids, `getRandomColor`) and `Date.now()`. The same holds for `localStorage` and `sessionStorage`, which are fields written by the methods.
- Rendering (HTML templates, CSS classes other than those that carry state, scrolling positions, focus) is not modelled beyond the state it sets.
- EditAssignees.ItemsOfContacts, EditAssignees.AssignedUserNames: follow the `taskDataUtils.contacts.js` copy, which reads a missing user list as empty and a missing name as the empty string (`taskDataUtils.contacts.js:88-92`). The `newModalContr.js` copy calls `assignedUsers.map` (`:20`) and `contact.name.trim()` (`:55`) unguarded. There, a null user list, a user without a name or a contact without one throws, `loadContacts` logs the error, and the dropdown keeps only the items appended before the throw. The model does not reproduce that throw.
- EditAssignees.ExtractUserFromBadge, EditAssignees.ReadAssignees: follow `newModalContr.js:244-273`. The `taskDataUtils.contacts.js:370-382` copy reads the same names in the same order but returns `{name}` users without a colour. The model gives every user a colour, `default` when the badge records none.
- TaskData.LoadTasks: the model's users always carry a name string, and `users` is a list or absent. In the source, a user stored with neither `initials` nor `name` makes `getInitials(undefined)` throw, and so does a `users` field that is not an array. The catch at `taskData.js:54-57` then loads no tasks at all, where the model loads every kept task.
- TaskData.Generate: a card is identified by its task's key (`CardId`), and `appendChild` of a card already on the board moves it. `createTaskElement` makes a new element each time, so two tasks with the same key (or two without `firebaseKey` and `id`, both "undefined") give two cards in the source and one here.
- BoardPage.Page.CheckColumns: models `draganddrop.js:39-45`, which finds the image by its `.empty-state-img` class. The copies at `taskDataTemplate.js:247-254` and `taskDataTemplate.drag.js:110-117` take the column's first `img` instead. They run after `BoardPage.Page.UpdateTaskDOMPosition`, `TaskData.GenerateTasks` and `TaskData.MoveDropdown.ChooseOption`, and behave the same only while the empty-state image comes before every image inside the column's cards.
- The other copies of shared helpers are not modelled separately, because they behave the same as the copy that is: the touch controller in `draganddrop.js` and `getDragAfterElement` in `task-added-content.js`.

## Findings

| source | as written | input that shows it | evidently intended | confidence | as-written member | corrected member |
|---|---|---|---|---|---|---|
| scripts/draganddrop.touch.js:28-34 | `touchstart` stores a new 200 ms timer in `state.dragTimeout` without clearing the one already pending | two touchstarts on a card, then a touchend: the end clears only the second timer, and the first one still fires `beginTouchDrag` after the gesture has ended | clear the pending timer before starting a new one, so that end and cancel leave no timer | high, not executed | TouchDrag.TouchGesture.OnTouchStart, TouchDrag.TouchGesture.RestartThenEndAsWritten, TouchDrag.StaleTimerAsWritten | TouchDrag.TouchGesture.OnTouchStartClearing, TouchDrag.TouchGesture.RestartThenEndClearing, TouchDrag.StartKeepsSingleTimer |
| scripts/draganddrop.js:140-147 | `initializeColumns` adds new arrow-function listeners each time it runs, and `initTaskData` runs it again after DOMContentLoaded on the same columns | load the board, then drop a card on a column: two drop listeners run, and the card is appended at the end of the column with a second PATCH instead of staying where the placeholder was | bind each column once | high, not executed | BoardPage.Page.InitializeColumns, BoardPage.Page.LoadThenReinitialize, BoardPage.RepeatedDropEndsLast, DragAndDrop.DoubleDropAppends | BoardPage.Page.InitializeColumnsOnce, BoardPage.Page.BindColumnsTwiceOnce, DragAndDrop.DropLeavesCardOnce |
| scripts/newModal.subtasks.js:165-182 | the delete handler removes the row from the DOM, then looks up its index among the rows that remain, gets -1 and splices nothing, so `currentTask.subtasks` keeps the deleted subtask | an edit dialog with two subtasks; delete the first, then edit the second one's text. `currentTask.subtasks` still holds both. The edit handler at `newModal.subtasks.js:382-388` finds the entry by the row's position and writes the new text into the first, deleted entry. The `taskDataModal` edit handlers PUT `currentTask` through `updateSubtaskInFirebase` (`taskDataModal.firebase.js:177-181`) with the deleted subtask still in it. Save itself is unaffected, because it re-reads the rows (`newModal.js:223-224`) | find the row's index before removing it, and splice that subtask | high, not executed | EditSubtasks.DeleteAsWrittenKeepsSubtask, EditSubtasks.EditAfterDeleteAsWrittenMisses, EditSubtasks.EditList.DeleteSubtaskRowAsWritten | EditSubtasks.DeleteRowKeepsRowsAligned, EditSubtasks.EditList.DeleteSubtaskRow |
| scripts/auth-core.js:59-83 | `fetchUserByEmail` trusts any hit in the e-mail index, whose keys replace `.` and other characters by `_` | sign up `a.b@x.de`, then log in as `a_b@x.de` with the same password: the login succeeds as `a.b@x.de`, and a signup of `a_b@x.de` is refused as already registered | accept an index hit only when the user found has the address asked for | high, not executed | AuthStore.FetchUserByEmailAsWritten, AuthStore.VerifyLoginCredentials, AuthStore.CollidingLoginAsWritten, AuthStore.CollidingSignupRefusedAsWritten | AuthStore.FetchUserByEmailChecked, AuthStore.VerifyLoginCredentialsChecked, AuthStore.LoginNeverReturnsOtherAddress |
| scripts/logi.js:60-73 | an index hit returns whatever is stored under its id, even nothing, and then the scan is skipped | an index entry for a registered address whose id names no record: the lookup returns null and the login fails, although the scan would find the user | fall back to the scan when the index hit finds no user | medium, not executed | Logi.FetchUserByEmailAsWritten, Logi.StaleIndexHidesUser | AuthStore.FetchUserByEmailChecked |
| scripts/newModalContr.js:187-206 | a badge click looks up the dropdown item through a `[data-contact-id]` descendant, which the items built at `newModalContr.js:104-121` do not have | select a contact in the edit dialog, then click its badge: the badge goes, but the item keeps its `selected` class and checked box | unmark the item of the removed contact | medium, not executed | EditAssignees.AssigneeDropdown.BadgeClickAsWritten, EditAssignees.StaleMarkAsWritten | EditAssignees.AssigneeDropdown.BadgeClick, EditAssignees.UnmarkIdSynced |
| scripts/taskDataUtils.contacts.js:331-351 | the badge click's `deselectDropdownItem` looks the item up by the text of its `.contact-name` element, which the items built at `taskDataUtils.contacts.js:200-213` do not have (they use `.contact-name-edit`), so every item's text is `undefined` | click the badge of a contact with a name: the item keeps its `selected` class and checked box. Click the badge of a contact stored without a `name` field: `undefined === undefined` matches, and the first item of the list is unmarked, whichever contact it belongs to | unmark the item of the removed contact | medium, not executed | EditAssignees.AssigneeDropdown.BadgeClickByNameAsWritten, EditAssignees.NamedDeselectKeepsMark, EditAssignees.NamelessDeselectUnmarksFirst | EditAssignees.AssigneeDropdown.BadgeClick, EditAssignees.UnmarkIdSynced |
