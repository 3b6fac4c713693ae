/**
 * The column synchronizer of `taskDataTemplate.drag.js`: a task's new
 * column is sent to the realtime database with a PATCH, and only when that
 * succeeds is the card re-parented in the DOM.  The request is a value here;
 * sending it and the response are left to the caller (a success flag).
 */
module ColumnSync {
  import opened Wrappers
  import opened Board

  const DatabaseUrl: string := "https://join-360-fb6db-default-rtdb.europe-west1.firebasedatabase.app/"

  /** The JSON body `{ column: newColumn }`. */
  datatype Body = ColumnField(column: ColumnId)

  datatype Request = Patch(url: string, body: Body)

  function TaskUrl(taskId: TaskId): string {
    DatabaseUrl + "tasks/" + taskId + ".json"
  }

  /** `patchTaskColumn(taskId, newColumn)`: the request it sends. */
  function PatchTaskColumn(taskId: TaskId, newColumn: ColumnId): (r: Request)
    ensures r.body.column == newColumn
    ensures StartsWith(r.url, DatabaseUrl + "tasks/")
  {
    Patch(TaskUrl(taskId), ColumnField(newColumn))
  }

  predicate StartsWith(s: string, p: string) {
    |p| <= |s| && s[..|p|] == p
  }

  /** Reads the task id back out of a task URL. */
  function TaskIdOfUrl(url: string): Option<TaskId> {
    var prefix := DatabaseUrl + "tasks/";
    if |url| >= |prefix| + 5 && url[..|prefix|] == prefix && url[|url| - 5..] == ".json"
    then Some(url[|prefix|..|url| - 5])
    else None
  }

  /** The URL of a PATCH names exactly the task it was built for. */
  lemma TaskUrlRoundTrip(taskId: TaskId, newColumn: ColumnId)
    ensures TaskIdOfUrl(PatchTaskColumn(taskId, newColumn).url) == Some(taskId)
  {
    var prefix := DatabaseUrl + "tasks/";
    var url := TaskUrl(taskId);
    assert url == prefix + taskId + ".json";
    assert url[..|prefix|] == prefix;
    assert url[|url| - 5..] == ".json";
    assert url[|prefix|..|url| - 5] == taskId;
  }

  /** Two PATCHes for different tasks never target the same URL. */
  lemma TaskUrlInjective(a: TaskId, b: TaskId, c: ColumnId, d: ColumnId)
    requires PatchTaskColumn(a, c).url == PatchTaskColumn(b, d).url
    ensures a == b
  {
    TaskUrlRoundTrip(a, c);
    TaskUrlRoundTrip(b, d);
  }

  /** `removeFromOldParent`: detach the card unless it already sits in the target column. */
  function RemoveFromOldParent(cols: Columns, t: TaskId, target: ColumnId): Columns
    requires target in cols
  {
    if OnBoard(cols, Card(t)) && Card(t) !in cols[target] then Detach(cols, Card(t)) else cols
  }

  /** `appendToNewColumn`: append the card unless the target already contains it. */
  function AppendToNewColumn(cols: Columns, t: TaskId, target: ColumnId): Columns
    requires target in cols
  {
    if Card(t) in cols[target] then cols else AppendChild(cols, target, Card(t))
  }

  /**
   * `updateTaskDOMPosition(taskId, newColumn)` without its final
   * `checkColumns`: nothing happens when the card or the column is missing.
   */
  function UpdateTaskDOMPosition(cols: Columns, t: TaskId, target: ColumnId): Columns {
    if !OnBoard(cols, Card(t)) || target !in cols then cols
    else AppendToNewColumn(RemoveFromOldParent(cols, t, target), t, target)
  }

  /**
   * After the move the card is a child of the target column and of no
   * other; a card already in the target keeps its place; a moved card goes
   * last; nothing else changes; a missing card or column is a no-op.
   */
  lemma UpdateTaskDOMPositionSpec(cols: Columns, t: TaskId, target: ColumnId)
    requires Wf(cols)
    ensures var r := UpdateTaskDOMPosition(cols, t, target);
      Wf(r) && r.Keys == cols.Keys
      && (!OnBoard(cols, Card(t)) || target !in cols ==> r == cols)
      && (target in cols && Card(t) in cols[target] ==> r == cols)
      && (OnBoard(cols, Card(t)) && target in cols ==>
            Card(t) in r[target]
            && (forall d :: d in r && d != target ==> Card(t) !in r[d])
            && (Card(t) !in cols[target] ==>
                  r[target] == cols[target] + [Card(t)]
                  && forall d :: d in r && d != target ==> r[d] == RemoveFrom(cols[d], Card(t))))
  {
    if OnBoard(cols, Card(t)) && target in cols && Card(t) !in cols[target] {
      var d := Detach(cols, Card(t));
      DetachWf(cols, Card(t));
      RemoveFromAbsent(cols[target], Card(t));
      AppendChildSpec(d, target, Card(t));
      DetachIdempotent(cols, Card(t));
    }
  }
}
