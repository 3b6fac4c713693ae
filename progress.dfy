/**
 * Subtask completion and the progress bar of a task: the share of
 * completed subtasks, the local and remote status updates that rewrite one
 * subtask's `completed` flag and PATCH the list with the new progress, and
 * the full-task PUT after a subtask's text is edited.  Requests are values;
 * whether the network call resolves is a parameter.  Progress is an exact
 * real, without floating-point rounding.
 */
module Progress {
  import opened Wrappers
  import ColumnSync

  datatype Subtask = Subtask(text: string, completed: bool)

  /** `subtasks.filter(st => st.completed).length` */
  function CompletedCount(subtasks: seq<Subtask>): (n: nat)
    ensures n <= |subtasks|
  {
    if subtasks == [] then 0
    else CompletedCount(subtasks[..|subtasks| - 1]) + (if subtasks[|subtasks| - 1].completed then 1 else 0)
  }

  /** `total ? (completed / total) * 100 : 0` */
  function ProgressOf(subtasks: seq<Subtask>): real {
    if |subtasks| == 0 then 0.0 else (CompletedCount(subtasks) as real / |subtasks| as real) * 100.0
  }

  /** `subtasks[i].completed = newStatus` */
  function SetCompleted(subtasks: seq<Subtask>, i: nat, newStatus: bool): (r: seq<Subtask>)
    requires i < |subtasks|
    ensures |r| == |subtasks| && r[i].completed == newStatus && r[i].text == subtasks[i].text
    ensures forall j :: 0 <= j < |r| && j != i ==> r[j] == subtasks[j]
  {
    subtasks[i := subtasks[i].(completed := newStatus)]
  }

  /** A subtask list is all done exactly when every subtask is completed. */
  predicate AllDone(subtasks: seq<Subtask>) {
    forall j :: 0 <= j < |subtasks| ==> subtasks[j].completed
  }

  /** The count is the number of completed positions; it reaches the length exactly when all are done. */
  lemma {:induction false} CompletedCountAll(subtasks: seq<Subtask>)
    ensures CompletedCount(subtasks) == |subtasks| <==> AllDone(subtasks)
    ensures CompletedCount(subtasks) == 0 <==> forall j :: 0 <= j < |subtasks| ==> !subtasks[j].completed
    decreases |subtasks|
  {
    if subtasks != [] {
      var init := subtasks[..|subtasks| - 1];
      CompletedCountAll(init);
      assert forall j :: 0 <= j < |init| ==> init[j] == subtasks[j];
    }
  }

  /** Setting one flag moves the count by at most one, in the direction of the change. */
  lemma {:induction false} CompletedCountSet(subtasks: seq<Subtask>, i: nat, newStatus: bool)
    requires i < |subtasks|
    ensures CompletedCount(SetCompleted(subtasks, i, newStatus))
         == CompletedCount(subtasks) - (if subtasks[i].completed then 1 else 0) + (if newStatus then 1 else 0)
    decreases |subtasks|
  {
    var r := SetCompleted(subtasks, i, newStatus);
    var n := |subtasks| - 1;
    if i == n {
      assert r[..n] == subtasks[..n];
    } else {
      CompletedCountSet(subtasks[..n], i, newStatus);
      assert r[..n] == SetCompleted(subtasks[..n], i, newStatus);
    }
  }

  /** The progress lies between 0 and 100, is 0 for no subtasks and 100 when all are done. */
  lemma ProgressBounds(subtasks: seq<Subtask>)
    ensures 0.0 <= ProgressOf(subtasks) <= 100.0
    ensures |subtasks| == 0 ==> ProgressOf(subtasks) == 0.0
    ensures |subtasks| > 0 ==> (ProgressOf(subtasks) == 100.0 <==> AllDone(subtasks))
    ensures ProgressOf(subtasks) == 0.0 <==> forall j :: 0 <= j < |subtasks| ==> !subtasks[j].completed
  {
    CompletedCountAll(subtasks);
    if |subtasks| > 0 {
      ShareBounds(CompletedCount(subtasks) as real, |subtasks| as real);
    }
  }

  /** A share of a positive whole, in percent, lies in [0, 100] and hits the ends only at 0 and the whole. */
  lemma ShareBounds(c: real, t: real)
    requires 0.0 <= c <= t && t > 0.0
    ensures 0.0 <= (c / t) * 100.0 <= 100.0
    ensures (c / t) * 100.0 == 100.0 <==> c == t
    ensures (c / t) * 100.0 == 0.0 <==> c == 0.0
  {
    var q := c / t;
    assert q * t == c;
    assert (1.0 - q) * t == t - c;
    FactorSign(q, t);
    FactorSign(1.0 - q, t);
  }

  /** Multiplying by a positive number keeps the sign. */
  lemma FactorSign(x: real, t: real)
    requires t > 0.0
    ensures x * t >= 0.0 <==> x >= 0.0
    ensures x * t == 0.0 <==> x == 0.0
  {
  }

  lemma ShareMonotone(a: real, b: real, t: real)
    requires t > 0.0 && a <= b
    ensures (a / t) * 100.0 <= (b / t) * 100.0
  {
    assert a / t <= b / t by {
      assert b / t - a / t == (b - a) / t;
    }
  }

  /** Ticking a subtask never lowers the progress, and unticking never raises it. */
  lemma ProgressMonotone(subtasks: seq<Subtask>, i: nat)
    requires i < |subtasks|
    ensures ProgressOf(SetCompleted(subtasks, i, true)) >= ProgressOf(subtasks)
    ensures ProgressOf(SetCompleted(subtasks, i, false)) <= ProgressOf(subtasks)
  {
    CompletedCountSet(subtasks, i, true);
    CompletedCountSet(subtasks, i, false);
    var t := |subtasks| as real;
    var c := CompletedCount(subtasks) as real;
    ShareMonotone(c, CompletedCount(SetCompleted(subtasks, i, true)) as real, t);
    ShareMonotone(CompletedCount(SetCompleted(subtasks, i, false)) as real, c, t);
  }

  /** The counts `calculateProgress` reports for a card. */
  datatype Counts = Counts(total: nat, completed: nat, progress: real)

  /** `calculateProgress(task)`: a missing subtask list counts as empty. */
  function CalculateProgress(subtasks: Option<seq<Subtask>>): (r: Counts)
    ensures r.completed <= r.total
    ensures 0.0 <= r.progress <= 100.0
    ensures r.total == 0 ==> r.progress == 0.0
    ensures subtasks.None? ==> r == Counts(0, 0, 0.0)
  {
    var s := if subtasks.Some? then subtasks.value else [];
    ProgressBounds(s);
    Counts(|s|, CompletedCount(s), ProgressOf(s))
  }

  /** The progress bar of a card: its width, its "completed / total" text, and whether it is displayed. */
  datatype Section = Section(displayed: bool, completed: nat, total: nat, width: real)

  /** `createProgressSection` of `taskDataTemplate.js`: always rendered, hidden when there are no subtasks. */
  function ProgressSectionTemplate(c: Counts): (r: Section)
    ensures r.displayed <==> c.total > 0
    ensures r.completed == c.completed && r.total == c.total && r.width == c.progress
  {
    Section(c.total > 0, c.completed, c.total, c.progress)
  }

  /** `createProgressSection` of `taskDataTemplate.render.js`: nothing when there are no subtasks or none is done. */
  function ProgressSectionRender(c: Counts): (r: Option<Section>)
    ensures r.None? <==> c.total == 0 || c.completed == 0
    ensures r.Some? ==> r.value == Section(true, c.completed, c.total, c.progress)
  {
    if c.total == 0 || c.completed == 0 then None else Some(Section(true, c.completed, c.total, c.progress))
  }

  /**
   * For a card's subtasks the two progress sections agree whenever a
   * subtask is done; with subtasks but none done the template shows "0 / n"
   * and the render script shows nothing.
   */
  lemma ProgressSectionsAgree(subtasks: seq<Subtask>)
    ensures var c := CalculateProgress(Some(subtasks));
      (ProgressSectionRender(c).Some? <==> exists j :: 0 <= j < |subtasks| && subtasks[j].completed)
      && (ProgressSectionRender(c).Some? ==> ProgressSectionRender(c).value == ProgressSectionTemplate(c))
      && (|subtasks| > 0 && ProgressSectionRender(c).None? ==>
            ProgressSectionTemplate(c).displayed && ProgressSectionTemplate(c).completed == 0)
  {
    CompletedCountAll(subtasks);
  }

  /** `validateLocalSubtaskUpdate` / `validateRemoteSubtaskUpdate` (a subtask entry is an object, so truthy). */
  predicate ValidSubtaskUpdate(subtasks: Option<seq<Subtask>>, i: int) {
    subtasks.Some? && 0 <= i < |subtasks.value|
  }

  /** The requests the subtask code sends for a task. */
  datatype Request =
    | PatchSubtasks(url: string, subtasks: seq<Subtask>, progress: real)
    | PutTask(url: string, task: TaskRecord)

  /** The PATCH `{subtasks, progress}` for a task's subtask list. */
  function SubtaskPatch(taskId: string, subtasks: seq<Subtask>): (r: Request)
    ensures r.PatchSubtasks? && r.subtasks == subtasks && 0.0 <= r.progress <= 100.0
  {
    ProgressBounds(subtasks);
    PatchSubtasks(ColumnSync.TaskUrl(taskId), subtasks, ProgressOf(subtasks))
  }

  /**
   * `updateSubtaskStatusInFirebase` on the fetched record (both the edit
   * dialog's and the board dialog's version): no PATCH for a record without
   * a subtask array or an index out of range; otherwise the list with
   * subtask `i` set to `newStatus` and its progress.
   */
  function RemoteStatusPatch(taskId: string, fetched: Option<seq<Subtask>>, i: int, newStatus: bool): (r: Option<Request>)
    ensures r.None? <==> !ValidSubtaskUpdate(fetched, i)
    ensures r.Some? ==> r.value == SubtaskPatch(taskId, SetCompleted(fetched.value, i, newStatus))
  {
    if !ValidSubtaskUpdate(fetched, i) then None
    else Some(SubtaskPatch(taskId, SetCompleted(fetched.value, i, newStatus)))
  }

  /**
   * A PATCHed list differs from the fetched one only in subtask `i`'s flag,
   * and its progress is the new share of done subtasks.
   */
  lemma RemoteStatusPatchChangesOneFlag(taskId: string, fetched: seq<Subtask>, i: nat, newStatus: bool)
    requires i < |fetched|
    ensures var r := RemoteStatusPatch(taskId, Some(fetched), i, newStatus).value;
      |r.subtasks| == |fetched|
      && (forall j :: 0 <= j < |fetched| ==> r.subtasks[j].text == fetched[j].text)
      && (forall j :: 0 <= j < |fetched| && j != i ==> r.subtasks[j].completed == fetched[j].completed)
      && r.subtasks[i].completed == newStatus
      && (CompletedCount(r.subtasks) as real) * 100.0 == r.progress * (|fetched| as real)
  {
    var s := SetCompleted(fetched, i, newStatus);
    var c := CompletedCount(s) as real;
    var t := |fetched| as real;
    assert (c / t) * 100.0 * t == c * 100.0;
  }

  /** `window.currentTask` as the board dialog holds it. */
  datatype TaskRecord = TaskRecord(firebaseKey: string, subtasks: Option<seq<Subtask>>)

  /** `updateTaskInFirebase(task)`: a PUT of the whole task, only when it has a key. */
  function UpdateTaskRequest(task: Option<TaskRecord>): (r: Option<Request>)
    ensures r.Some? <==> task.Some? && task.value.firebaseKey != ""
    ensures r.Some? ==> r.value == PutTask(ColumnSync.TaskUrl(task.value.firebaseKey), task.value)
  {
    if task.None? || task.value.firebaseKey == "" then None
    else Some(PutTask(ColumnSync.TaskUrl(task.value.firebaseKey), task.value))
  }

  /** The board dialog's open task and the requests it has sent. */
  class TaskDialog {
    /** `window.currentTask` */
    var currentTask: Option<TaskRecord>
    /** `window.currentTaskId` */
    var currentTaskId: string
    var requests: seq<Request>
    /** Tasks whose card was refreshed in the background. */
    var cardUpdates: seq<string>
    /** Whether the page was reloaded. */
    var reloaded: bool

    constructor(task: Option<TaskRecord>, taskId: string)
      ensures currentTask == task && currentTaskId == taskId
      ensures requests == [] && cardUpdates == [] && !reloaded
    {
      currentTask := task;
      currentTaskId := taskId;
      requests := [];
      cardUpdates := [];
      reloaded := false;
    }

    function LocalSubtasks(): Option<seq<Subtask>>
      reads this
    {
      if currentTask.Some? then currentTask.value.subtasks else None
    }

    /**
     * `updateSubtaskStatusInFirebaseWithLocalData(taskId, i, newStatus)`:
     * an invalid index changes nothing and sends nothing; otherwise the
     * local subtask is updated first, the list is PATCHed with its new
     * progress, and the card is refreshed once the request resolves.
     */
    method UpdateSubtaskStatusWithLocalData(taskId: string, i: int, newStatus: bool, resolved: bool)
      modifies this`currentTask, this`requests, this`cardUpdates
      ensures !ValidSubtaskUpdate(old(LocalSubtasks()), i) ==>
        currentTask == old(currentTask) && requests == old(requests) && cardUpdates == old(cardUpdates)
      ensures ValidSubtaskUpdate(old(LocalSubtasks()), i) ==>
        var s := SetCompleted(old(LocalSubtasks()).value, i, newStatus);
        currentTask == Some(old(currentTask).value.(subtasks := Some(s)))
        && requests == old(requests) + [SubtaskPatch(taskId, s)]
        && cardUpdates == old(cardUpdates) + (if resolved then [taskId] else [])
    {
      if !ValidSubtaskUpdate(LocalSubtasks(), i) {
        return;
      }
      var s := SetCompleted(currentTask.value.subtasks.value, i, newStatus);
      currentTask := Some(currentTask.value.(subtasks := Some(s)));
      requests := requests + [SubtaskPatch(taskId, s)];
      if resolved {
        cardUpdates := cardUpdates + [taskId];
      }
    }

    /**
     * `updateSubtaskStatus(taskId, i, newStatus)` of `taskDataTemplate.js`:
     * nothing unless a task is open under `taskId`; an index without a
     * subtask throws before anything is sent; otherwise the flag is set,
     * the list PATCHed, and the page reloaded when the response is ok.
     */
    method UpdateSubtaskStatus(taskId: string, i: int, newStatus: bool, responseOk: bool) returns (threw: bool)
      modifies this`currentTask, this`requests, this`reloaded
      ensures old(currentTask).None? || old(currentTaskId) != taskId ==>
        !threw && currentTask == old(currentTask) && requests == old(requests) && reloaded == old(reloaded)
      ensures old(currentTask).Some? && old(currentTaskId) == taskId ==>
        (threw <==> !ValidSubtaskUpdate(old(LocalSubtasks()), i))
      ensures threw ==> currentTask == old(currentTask) && requests == old(requests) && reloaded == old(reloaded)
      ensures old(currentTask).Some? && old(currentTaskId) == taskId && !threw ==>
        var s := SetCompleted(old(LocalSubtasks()).value, i, newStatus);
        currentTask == Some(old(currentTask).value.(subtasks := Some(s)))
        && requests == old(requests) + [SubtaskPatch(taskId, s)]
        && reloaded == (old(reloaded) || responseOk)
    {
      if currentTask.None? || currentTaskId != taskId {
        return false;
      }
      if !ValidSubtaskUpdate(LocalSubtasks(), i) {
        return true;
      }
      threw := false;
      var s := SetCompleted(currentTask.value.subtasks.value, i, newStatus);
      currentTask := Some(currentTask.value.(subtasks := Some(s)));
      requests := requests + [SubtaskPatch(taskId, s)];
      if responseOk {
        reloaded := true;
      }
    }

    /**
     * `updateSubtaskInFirebase(container, finalText)`: with an open task,
     * a subtask list and a row index, subtask `index` takes the new text
     * (an index without a subtask throws) and the whole task is PUT when
     * it has a key; otherwise nothing happens.
     */
    method UpdateSubtaskText(index: Option<int>, finalText: string) returns (threw: bool)
      modifies this`currentTask, this`requests
      ensures old(LocalSubtasks()).None? || index.None? ==>
        !threw && currentTask == old(currentTask) && requests == old(requests)
      ensures old(LocalSubtasks()).Some? && index.Some? ==>
        (threw <==> !ValidSubtaskUpdate(old(LocalSubtasks()), index.value))
      ensures threw ==> currentTask == old(currentTask) && requests == old(requests)
      ensures old(LocalSubtasks()).Some? && index.Some? && !threw ==>
        var s := old(LocalSubtasks()).value;
        currentTask == Some(old(currentTask).value.(subtasks := Some(s[index.value := s[index.value].(text := finalText)])))
        && requests == old(requests) + (match UpdateTaskRequest(currentTask) case Some(r) => [r] case None => [])
    {
      if LocalSubtasks().None? || index.None? {
        return false;
      }
      if !ValidSubtaskUpdate(LocalSubtasks(), index.value) {
        return true;
      }
      threw := false;
      var s := currentTask.value.subtasks.value;
      currentTask := Some(currentTask.value.(subtasks := Some(s[index.value := s[index.value].(text := finalText)])));
      match UpdateTaskRequest(currentTask)
      case Some(r) => requests := requests + [r];
      case None =>
    }
  }
}
