/**
 * The board's task loading and rendering of `taskData.js` and
 * `taskDataUtils.js`: the stored entries kept as tasks, the initials and
 * colours filled into their users, the search filter over the rendered
 * cards, the cards generated into their columns, and the "move to"
 * dropdown of a card.
 */
module TaskData {
  import opened Wrappers
  import opened Text
  import opened Board
  import Avatars
  import EditAssignees
  import ColumnSync
  import BoardPage

  /** A user entry of a task; the empty string stands for a missing field. */
  datatype TaskUser = TaskUser(name: string, initials: string, color: string)

  /** The fields of a stored task record that loading and rendering look at. */
  datatype Record = Record(
    firebaseKey: Option<string>,
    id: Option<string>,
    title: Option<string>,
    description: Option<string>,
    column: Option<string>,
    users: Option<seq<TaskUser>>)

  // ---------------------------------------------------------------------
  // enrichTasksWithUserData

  /**
   * One user after enrichment: missing initials are computed from the
   * name, a missing colour takes the random pick, and filled fields stay.
   */
  function EnrichUser(u: TaskUser, color: string): (r: TaskUser)
    ensures r.name == u.name
    ensures u.initials != "" ==> r.initials == u.initials
    ensures u.color != "" ==> r.color == u.color
    ensures u.color == "" ==> r.color == color
  {
    TaskUser(u.name,
             if u.initials != "" then u.initials else Avatars.TaskDataGetInitials(u.name),
             if u.color != "" then u.color else color)
  }

  /**
   * The users of task `i` after enrichment; `random(i, j)` is what
   * `getRandomColor()` returns for user `j` of task `i`.
   */
  function EnrichUsers(users: seq<TaskUser>, i: nat, random: (nat, nat) -> EditAssignees.Color): (r: seq<TaskUser>)
    ensures |r| == |users|
  {
    if users == [] then []
    else EnrichUsers(users[..|users| - 1], i, random)
         + [EnrichUser(users[|users| - 1], EditAssignees.ColorWord(random(i, |users| - 1)))]
  }

  function EnrichTask(t: Record, i: nat, random: (nat, nat) -> EditAssignees.Color): Record {
    if t.users.None? then t else t.(users := Some(EnrichUsers(t.users.value, i, random)))
  }

  function EnrichTasks(tasks: seq<Record>, random: (nat, nat) -> EditAssignees.Color): (r: seq<Record>)
    ensures |r| == |tasks|
  {
    if tasks == [] then []
    else EnrichTasks(tasks[..|tasks| - 1], random) + [EnrichTask(tasks[|tasks| - 1], |tasks| - 1, random)]
  }

  lemma {:induction false} EnrichUsersAt(users: seq<TaskUser>, i: nat, random: (nat, nat) -> EditAssignees.Color, j: nat)
    requires j < |users|
    ensures EnrichUsers(users, i, random)[j] == EnrichUser(users[j], EditAssignees.ColorWord(random(i, j)))
    decreases |users|
  {
    if j < |users| - 1 {
      EnrichUsersAt(users[..|users| - 1], i, random, j);
    }
  }

  lemma {:induction false} EnrichTasksAt(tasks: seq<Record>, random: (nat, nat) -> EditAssignees.Color, i: nat)
    requires i < |tasks|
    ensures EnrichTasks(tasks, random)[i] == EnrichTask(tasks[i], i, random)
    decreases |tasks|
  {
    if i < |tasks| - 1 {
      EnrichTasksAt(tasks[..|tasks| - 1], random, i);
    }
  }

  /**
   * Enrichment changes only the users: a task without users is kept, the
   * users keep their names and order, filled initials and colours are never
   * overwritten, and afterwards every user has a colour.
   */
  lemma EnrichKeepsFilledFields(tasks: seq<Record>, random: (nat, nat) -> EditAssignees.Color, i: nat, j: nat)
    requires i < |tasks|
    ensures var r := EnrichTasks(tasks, random)[i];
      r.(users := tasks[i].users) == tasks[i] && (r.users.Some? <==> tasks[i].users.Some?)
      && (r.users.Some? ==> |r.users.value| == |tasks[i].users.value|)
    ensures var r := EnrichTasks(tasks, random)[i];
      tasks[i].users.Some? && j < |tasks[i].users.value| ==>
        var u := tasks[i].users.value[j];
        var v := r.users.value[j];
        v.name == u.name && v.color != ""
        && (u.initials != "" ==> v.initials == u.initials)
        && (u.initials == "" ==> v.initials == Avatars.TaskDataGetInitials(u.name))
        && (u.color != "" ==> v.color == u.color)
  {
    EnrichTasksAt(tasks, random, i);
    if tasks[i].users.Some? && j < |tasks[i].users.value| {
      EnrichUsersAt(tasks[i].users.value, i, random, j);
    }
  }

  lemma EnrichUserIdempotent(u: TaskUser, c1: string, c2: string)
    requires c1 != ""
    ensures EnrichUser(EnrichUser(u, c1), c2) == EnrichUser(u, c1)
  {
  }

  lemma {:induction false} EnrichUsersIdempotent(users: seq<TaskUser>, i: nat, r1: (nat, nat) -> EditAssignees.Color, r2: (nat, nat) -> EditAssignees.Color)
    ensures EnrichUsers(EnrichUsers(users, i, r1), i, r2) == EnrichUsers(users, i, r1)
    decreases |users|
  {
    if users != [] {
      var e := EnrichUsers(users, i, r1);
      assert e[..|e| - 1] == EnrichUsers(users[..|users| - 1], i, r1);
      EnrichUsersIdempotent(users[..|users| - 1], i, r1, r2);
      EnrichUserIdempotent(users[|users| - 1], EditAssignees.ColorWord(r1(i, |users| - 1)),
                           EditAssignees.ColorWord(r2(i, |users| - 1)));
    }
  }

  /** Enriching tasks a second time changes nothing, whatever colours come up. */
  lemma {:induction false} EnrichTasksIdempotent(tasks: seq<Record>, r1: (nat, nat) -> EditAssignees.Color, r2: (nat, nat) -> EditAssignees.Color)
    ensures EnrichTasks(EnrichTasks(tasks, r1), r2) == EnrichTasks(tasks, r1)
    decreases |tasks|
  {
    if tasks != [] {
      var e := EnrichTasks(tasks, r1);
      assert e[..|e| - 1] == EnrichTasks(tasks[..|tasks| - 1], r1);
      EnrichTasksIdempotent(tasks[..|tasks| - 1], r1, r2);
      var t := tasks[|tasks| - 1];
      if t.users.Some? {
        EnrichUsersIdempotent(t.users.value, |tasks| - 1, r1, r2);
      }
    }
  }

  /** `enrichTasksWithUserData(tasks)`: the nested `forEach` loops. */
  method EnrichTasksWithUserData(tasks: seq<Record>, random: (nat, nat) -> EditAssignees.Color) returns (r: seq<Record>)
    ensures r == EnrichTasks(tasks, random)
  {
    r := [];
    for i := 0 to |tasks|
      invariant r == EnrichTasks(tasks[..i], random)
    {
      var t := tasks[i];
      if t.users.Some? {
        var enriched := EnrichUsersOfTask(t.users.value, i, random);
        t := t.(users := Some(enriched));
      }
      r := r + [t];
      assert tasks[..i + 1][..i] == tasks[..i];
    }
    assert tasks[..|tasks|] == tasks;
  }

  /** The inner `forEach` of `enrichTasksWithUserData` over the users of task `i`. */
  method EnrichUsersOfTask(users: seq<TaskUser>, i: nat, random: (nat, nat) -> EditAssignees.Color)
      returns (enriched: seq<TaskUser>)
    ensures enriched == EnrichUsers(users, i, random)
  {
    enriched := [];
    for j := 0 to |users|
      invariant enriched == EnrichUsers(users[..j], i, random)
    {
      enriched := enriched + [EnrichUser(users[j], EditAssignees.ColorWord(random(i, j)))];
      assert users[..j + 1][..j] == users[..j];
    }
    assert users[..|users|] == users;
  }

  // ---------------------------------------------------------------------
  // loadTasksFromFirebase: the entry filter

  /** Keys whose entries are never loaded. */
  const NullKey: string := "null"
  const SkippedKey: string := "task-3"

  /** The parsed response: an object's entries (`None` for a non-object value), or any other value. */
  datatype Payload = NotObject | Object(entries: seq<(string, Option<Record>)>)

  const EmptyRecord: Record := Record(None, None, None, None, None, None)

  /**
   * `{ firebaseKey: key, ...value }`: the entry's key, unless the stored
   * value carries a `firebaseKey` of its own, which the spread copies over it.
   */
  function WithKey(key: string, value: Option<Record>): (r: Record)
    ensures r.firebaseKey.Some?
    ensures value.None? ==> r == EmptyRecord.(firebaseKey := Some(key))
    ensures value.Some? ==> r.(firebaseKey := value.value.firebaseKey) == value.value
    ensures value.Some? && value.value.firebaseKey.None? ==> r.firebaseKey == Some(key)
  {
    if value.None? then EmptyRecord.(firebaseKey := Some(key))
    else if value.value.firebaseKey.Some? then value.value
    else value.value.(firebaseKey := Some(key))
  }

  predicate Kept(key: string) {
    key != NullKey && key != SkippedKey
  }

  /** The `filter` and `map` over `Object.entries(data)`. */
  function KeptRecords(entries: seq<(string, Option<Record>)>): (r: seq<Record>)
    ensures |r| <= |entries|
    ensures forall k :: 0 <= k < |r| ==> r[k].firebaseKey.Some?
  {
    if entries == [] then []
    else
      var e := entries[|entries| - 1];
      KeptRecords(entries[..|entries| - 1]) + (if Kept(e.0) then [WithKey(e.0, e.1)] else [])
  }

  /** Every kept entry is loaded, under its key unless it stores its own. */
  lemma {:induction false} KeptRecordsCover(entries: seq<(string, Option<Record>)>, k: nat)
    requires k < |entries| && Kept(entries[k].0)
    ensures WithKey(entries[k].0, entries[k].1) in KeptRecords(entries)
    decreases |entries|
  {
    if k < |entries| - 1 {
      KeptRecordsCover(entries[..|entries| - 1], k);
    }
  }

  /** Every loaded record comes from a kept entry. */
  lemma {:induction false} KeptRecordsFromKeptEntries(entries: seq<(string, Option<Record>)>, rec: Record)
    requires rec in KeptRecords(entries)
    ensures exists k :: 0 <= k < |entries| && Kept(entries[k].0) && rec == WithKey(entries[k].0, entries[k].1)
    decreases |entries|
  {
    var init := entries[..|entries| - 1];
    var e := entries[|entries| - 1];
    if rec in KeptRecords(init) {
      KeptRecordsFromKeptEntries(init, rec);
      var k :| 0 <= k < |init| && Kept(init[k].0) && rec == WithKey(init[k].0, init[k].1);
      assert entries[k] == init[k];
    } else {
      assert Kept(e.0) && rec == WithKey(e.0, e.1);
    }
  }

  /**
   * `loadTasksFromFirebase()` given the outcome of the fetch (`None` when
   * the request fails, the response is not ok or its body is not JSON): a
   * non-object payload loads nothing, otherwise the kept entries, enriched.
   */
  function LoadTasks(response: Option<Payload>, random: (nat, nat) -> EditAssignees.Color): (r: seq<Record>)
    ensures response.None? || response == Some(NotObject) ==> r == []
    ensures response.Some? && response.value.Object? ==>
      |r| <= |response.value.entries| && forall k :: 0 <= k < |r| ==> r[k].firebaseKey.Some?
  {
    if response.None? || response.value.NotObject? then []
    else
      var kept := KeptRecords(response.value.entries);
      var r := EnrichTasks(kept, random);
      assert forall k :: 0 <= k < |r| ==> r[k].firebaseKey.Some? by {
        forall k | 0 <= k < |r| ensures r[k].firebaseKey.Some? {
          EnrichTasksAt(kept, random, k);
        }
      }
      r
  }

  // ---------------------------------------------------------------------
  // filterTasks

  /** A rendered card's `data-title` and `data-description`. */
  datatype CardText = CardText(title: Option<string>, description: Option<string>)

  function ValueOr(field: Option<string>): string {
    if field.Some? then field.value else ""
  }

  /** The dataset `createTaskElement` gives a task's card: its title and description in lower case. */
  function CardTextOf(t: Record): CardText {
    CardText(if t.title.Some? then Some(ToLower(t.title.value)) else None,
             if t.description.Some? then Some(ToLower(t.description.value)) else None)
  }

  /** `title.includes(searchTerm) || description.includes(searchTerm)` */
  predicate Matches(card: CardText, term: string) {
    Contains(ValueOr(card.title), term) || Contains(ValueOr(card.description), term)
  }

  /** The empty term matches every card. */
  lemma EmptyTermMatches(card: CardText)
    ensures Matches(card, "")
  {
    ContainsAt(ValueOr(card.title), "", 0);
  }

  /** A card is found by its own title, typed in lower case. */
  lemma CardFoundByTitle(t: Record)
    requires t.title.Some?
    ensures Matches(CardTextOf(t), ToLower(t.title.value))
  {
    ContainsSelf(ToLower(t.title.value));
  }

  /** Typing more of the term never brings a hidden card back. */
  lemma LongerTermMatchesLess(card: CardText, term: string, more: string)
    ensures Matches(card, term + more) ==> Matches(card, term)
  {
    forall s: string | Contains(s, term + more) ensures Contains(s, term) {
      var i: nat :| i + |term + more| <= |s| && MatchAt(s, term + more, i);
      assert s[i..i + |term|] == (term + more)[..|term|];
      ContainsAt(s, term, i);
    }
  }

  /** The cards of the board with their display state and the "no task found" message. */
  class SearchView {
    const cards: seq<CardText>
    /** Whether each card is displayed (`flex`) rather than hidden (`none`). */
    var shown: seq<bool>
    /** Whether `#errorTaskFound` is displayed. */
    var errorShown: bool

    predicate Valid()
      reads this
    {
      |shown| == |cards|
    }

    constructor(cards: seq<CardText>)
      ensures Valid() && this.cards == cards
      ensures shown == seq(|cards|, _ => true) && !errorShown
    {
      this.cards := cards;
      shown := seq(|cards|, _ => true);
      errorShown := false;
    }

    /** `filterTasks(searchTerm)` */
    method FilterTasks(term: string)
      modifies this`shown, this`errorShown
      ensures Valid()
      ensures forall i :: 0 <= i < |cards| ==> (shown[i] <==> Matches(cards[i], term))
      ensures errorShown <==> forall i :: 0 <= i < |cards| ==> !Matches(cards[i], term)
    {
      var display: seq<bool> := [];
      var found := false;
      for i := 0 to |cards|
        invariant |display| == i
        invariant forall k :: 0 <= k < i ==> (display[k] <==> Matches(cards[k], term))
        invariant found <==> exists k :: 0 <= k < i && Matches(cards[k], term)
      {
        var title := ValueOr(cards[i].title);
        var description := ValueOr(cards[i].description);
        if Contains(title, term) || Contains(description, term) {
          display := display + [true];
          found := true;
        } else {
          display := display + [false];
        }
      }
      shown := display;
      errorShown := !found;
    }
  }

  /** Clearing the search shows every card, and the message only when there is no card. */
  lemma EmptySearchShowsAll(cards: seq<CardText>)
    ensures forall i :: 0 <= i < |cards| ==> Matches(cards[i], "")
    ensures (forall i :: 0 <= i < |cards| ==> !Matches(cards[i], "")) <==> cards == []
  {
    forall i | 0 <= i < |cards| ensures Matches(cards[i], "") {
      EmptyTermMatches(cards[i]);
    }
    if cards != [] {
      assert Matches(cards[0], "");
    }
  }

  // ---------------------------------------------------------------------
  // generateTasks

  /** `el.id = task.firebaseKey || task.id` (an absent id reads "undefined"). */
  function CardId(t: Record): TaskId {
    if t.firebaseKey.Some? && t.firebaseKey.value != "" then t.firebaseKey.value
    else if t.id.Some? then t.id.value
    else "undefined"
  }

  /** Tasks `generateTasks` renders: those with a title and a column. */
  predicate Renderable(t: Record) {
    t.title.Some? && t.title.value != "" && t.column.Some? && t.column.value != ""
  }

  /** The page after rendering: the columns, and whether `createTaskElement` threw. */
  datatype Rendered = Rendered(columns: Columns, threw: bool)

  /**
   * `generateTasks(tasksData)`: each renderable task's new card is
   * appended to the column with its `column` id, if there is one.  A
   * renderable task without a description makes `createTaskElement` throw
   * on `task.description.toLowerCase()`, which ends the loop with the cards
   * appended so far.
   */
  function Generate(cols: Columns, tasks: seq<Record>): (r: Rendered)
    ensures r.columns.Keys == cols.Keys
  {
    if tasks == [] then Rendered(cols, false)
    else
      var prev := Generate(cols, tasks[..|tasks| - 1]);
      var t := tasks[|tasks| - 1];
      if prev.threw || !Renderable(t) then prev
      else if t.description.None? then Rendered(prev.columns, true)
      else if t.column.value in prev.columns then Rendered(AppendChild(prev.columns, t.column.value, Card(CardId(t))), false)
      else prev
  }

  /** Rendering keeps the board well formed. */
  lemma {:induction false} GenerateWf(cols: Columns, tasks: seq<Record>)
    requires Wf(cols)
    ensures Wf(Generate(cols, tasks).columns)
    decreases |tasks|
  {
    if tasks != [] {
      var prev := Generate(cols, tasks[..|tasks| - 1]);
      var t := tasks[|tasks| - 1];
      GenerateWf(cols, tasks[..|tasks| - 1]);
      if !prev.threw && Renderable(t) && t.description.Some? && t.column.value in prev.columns {
        AppendChildSpec(prev.columns, t.column.value, Card(CardId(t)));
      }
    }
  }

  /** The ids of the cards rendered into column `c`, in task order. */
  function RenderedInto(tasks: seq<Record>, c: ColumnId): seq<Node> {
    if tasks == [] then []
    else
      var t := tasks[|tasks| - 1];
      RenderedInto(tasks[..|tasks| - 1], c) + CardFor(t, c)
  }

  /** The card task `t` adds to column `c`: its own when it is renderable and names `c`. */
  function CardFor(t: Record, c: ColumnId): seq<Node> {
    if Renderable(t) && t.column.value == c then [Card(CardId(t))] else []
  }

  lemma {:induction false} RenderedIntoIds(tasks: seq<Record>, c: ColumnId, n: Node)
    requires n in RenderedInto(tasks, c)
    ensures exists k :: 0 <= k < |tasks| && Renderable(tasks[k]) && n == Card(CardId(tasks[k]))
    decreases |tasks|
  {
    var init := tasks[..|tasks| - 1];
    if n in RenderedInto(init, c) {
      RenderedIntoIds(init, c, n);
      var k :| 0 <= k < |init| && Renderable(init[k]) && n == Card(CardId(init[k]));
      assert tasks[k] == init[k];
    }
  }

  /** Renderable tasks get distinct card ids that are not on the board yet. */
  predicate FreshIds(cols: Columns, tasks: seq<Record>) {
    (forall k, l :: 0 <= k < l < |tasks| && Renderable(tasks[k]) && Renderable(tasks[l]) ==> CardId(tasks[k]) != CardId(tasks[l]))
    && forall k, c :: 0 <= k < |tasks| && Renderable(tasks[k]) && c in cols ==> Card(CardId(tasks[k])) !in cols[c]
  }

  /** Appending a node that is on no column: it goes last in `c`, and every other column is unchanged. */
  lemma AppendAbsent(cols: Columns, c: ColumnId, n: Node)
    requires Wf(cols) && c in cols && forall d :: d in cols ==> n !in cols[d]
    ensures forall d :: d in cols ==> AppendChild(cols, c, n)[d] == cols[d] + (if d == c then [n] else [])
  {
    AppendChildSpec(cols, c, n);
    forall d | d in cols ensures RemoveFrom(cols[d], n) == cols[d] {
      RemoveFromAbsent(cols[d], n);
    }
  }

  /** The card of a later renderable task is not among the cards rendered before it. */
  lemma FreshCardNotRendered(cols: Columns, tasks: seq<Record>, c: ColumnId)
    requires tasks != [] && FreshIds(cols, tasks) && Renderable(tasks[|tasks| - 1]) && c in cols
    ensures Card(CardId(tasks[|tasks| - 1])) !in cols[c] + RenderedInto(tasks[..|tasks| - 1], c)
  {
    var init := tasks[..|tasks| - 1];
    var n := Card(CardId(tasks[|tasks| - 1]));
    if n in RenderedInto(init, c) {
      RenderedIntoIds(init, c, n);
    }
  }


  lemma GenerateLast(cols: Columns, tasks: seq<Record>)
    requires Wf(cols) && tasks != []
    requires var prev := Generate(cols, tasks[..|tasks| - 1]); var t := tasks[|tasks| - 1];
      !prev.threw && (Renderable(t) ==> t.description.Some?)
    ensures var prev := Generate(cols, tasks[..|tasks| - 1]); var t := tasks[|tasks| - 1];
      var r := Generate(cols, tasks);
      && (Renderable(t) && t.column.value in prev.columns ==> r == Rendered(AppendChild(prev.columns, t.column.value, Card(CardId(t))), false))
      && (!(Renderable(t) && t.column.value in prev.columns) ==> r == prev)
  {
  }

  /** A rendered task with a fresh card adds exactly its card to the column it names. */
  lemma GenerateStep(cols: Columns, tasks: seq<Record>)
    requires Wf(cols) && tasks != []
    requires var prev := Generate(cols, tasks[..|tasks| - 1]); var t := tasks[|tasks| - 1];
      !prev.threw && (Renderable(t) ==> t.description.Some? && forall c :: c in cols ==> Card(CardId(t)) !in prev.columns[c])
    ensures var prev := Generate(cols, tasks[..|tasks| - 1]); var t := tasks[|tasks| - 1];
      var r := Generate(cols, tasks);
      !r.threw && forall c :: c in cols ==> r.columns[c] == prev.columns[c] + CardFor(t, c)
  {
    var prev := Generate(cols, tasks[..|tasks| - 1]);
    var t := tasks[|tasks| - 1];
    GenerateLast(cols, tasks);
    GenerateWf(cols, tasks[..|tasks| - 1]);
    CardStep(cols, prev.columns, t, Generate(cols, tasks).columns);
  }

  /** Appending a fresh card, or leaving the columns alone, adds to each column the card the task names. */
  lemma CardStep(cols: Columns, prevCols: Columns, t: Record, newCols: Columns)
    requires Wf(prevCols) && prevCols.Keys == cols.Keys
    requires Renderable(t) ==> forall c :: c in cols ==> Card(CardId(t)) !in prevCols[c]
    requires Renderable(t) && t.column.value in prevCols ==> newCols == AppendChild(prevCols, t.column.value, Card(CardId(t)))
    requires !(Renderable(t) && t.column.value in prevCols) ==> newCols == prevCols
    ensures forall c :: c in cols ==> c in newCols && newCols[c] == prevCols[c] + CardFor(t, c)
  {
    if Renderable(t) && t.column.value in prevCols {
      var col, n := t.column.value, Card(CardId(t));
      AppendAbsent(prevCols, col, n);
      forall c | c in cols ensures newCols[c] == prevCols[c] + CardFor(t, c) {
        assert CardFor(t, c) == if c == col then [n] else [];
      }
    } else {
      forall c | c in cols ensures CardFor(t, c) == [] {
        assert c in prevCols;
      }
    }
  }

  /** One more task extends each column by that task's card, if the task names it. */
  lemma StepColumns(cols: Columns, prevCols: Columns, init: seq<Record>, t: Record, newCols: Columns)
    requires forall c :: c in cols ==> c in prevCols && prevCols[c] == cols[c] + RenderedInto(init, c)
    requires forall c :: c in cols ==> c in newCols && newCols[c] == prevCols[c] + CardFor(t, c)
    ensures forall c :: c in cols ==> newCols[c] == cols[c] + RenderedInto(init + [t], c)
  {
    var tasks := init + [t];
    assert tasks[..|tasks| - 1] == init;
    forall c | c in cols ensures newCols[c] == cols[c] + RenderedInto(tasks, c) {
      var before, extra := RenderedInto(init, c), CardFor(t, c);
      assert cols[c] + before + extra == cols[c] + (before + extra);
    }
  }

  /**
   * When every renderable task has a description and the ids are fresh,
   * every column ends with the cards of the tasks naming it, in task order,
   * after the children it had; tasks naming no column leave no card.
   */
  lemma {:induction false} GenerateAppendsInOrder(cols: Columns, tasks: seq<Record>)
    requires Wf(cols) && FreshIds(cols, tasks)
    requires forall k :: 0 <= k < |tasks| && Renderable(tasks[k]) ==> tasks[k].description.Some?
    ensures !Generate(cols, tasks).threw
    ensures forall c :: c in cols ==> Generate(cols, tasks).columns[c] == cols[c] + RenderedInto(tasks, c)
    decreases |tasks|
  {
    if tasks != [] {
      var init := tasks[..|tasks| - 1];
      assert FreshIds(cols, init);
      GenerateAppendsInOrder(cols, init);
      if Renderable(tasks[|tasks| - 1]) {
        forall c | c in cols ensures Card(CardId(tasks[|tasks| - 1])) !in Generate(cols, init).columns[c] {
          FreshCardNotRendered(cols, tasks, c);
        }
      }
      GenerateStep(cols, tasks);
      assert init + [tasks[|tasks| - 1]] == tasks;
      StepColumns(cols, Generate(cols, init).columns, init, tasks[|tasks| - 1], Generate(cols, tasks).columns);
    }
  }

  /** `generateTasks(tasksData)` on the board page, then `checkColumns()` unless a card threw. */
  method GenerateTasks(page: BoardPage.Page, tasks: seq<Record>) returns (threw: bool)
    requires page.Valid()
    modifies page`columns, page`emptyImage
    ensures page.Valid()
    ensures Rendered(page.columns, threw) == Generate(old(page.columns), tasks)
    ensures !threw ==> page.ImagesAgree()
    ensures threw ==> page.emptyImage == old(page.emptyImage)
  {
    threw := false;
    var cols := page.columns;
    var i := 0;
    while i < |tasks|
      invariant 0 <= i <= |tasks|
      invariant Generate(page.columns, tasks[..i]) == Rendered(cols, false)
    {
      var t := tasks[i];
      assert tasks[..i + 1][..i] == tasks[..i];
      if Renderable(t) {
        if t.description.None? {
          threw := true;
          RestAfterThrow(page.columns, tasks, i + 1);
          GenerateWf(page.columns, tasks[..i]);
          page.columns := cols;
          return;
        }
        if t.column.value in cols {
          cols := AppendChild(cols, t.column.value, Card(CardId(t)));
        }
      }
      i := i + 1;
    }
    assert tasks[..|tasks|] == tasks;
    GenerateWf(page.columns, tasks);
    page.columns := cols;
    page.CheckColumns();
  }

  /** Once a card has thrown, later tasks change nothing. */
  lemma {:induction false} RestAfterThrow(cols: Columns, tasks: seq<Record>, i: nat)
    requires i <= |tasks| && Generate(cols, tasks[..i]).threw
    ensures Generate(cols, tasks) == Generate(cols, tasks[..i])
    decreases |tasks| - i
  {
    if i < |tasks| {
      assert tasks[..i + 1][..i] == tasks[..i];
      RestAfterThrow(cols, tasks, i + 1);
    } else {
      assert tasks[..i] == tasks;
    }
  }

  // ---------------------------------------------------------------------
  // attachMoveDropdownOptions

  /** The "move to" dropdown of one card. */
  class MoveDropdown {
    const card: TaskId
    /** Whether the dropdown carries `visible`. */
    var visible: bool

    constructor(card: TaskId)
      ensures this.card == card && !visible
    {
      this.card := card;
      visible := false;
    }

    /**
     * A click on the option for column `ns`: the column update is awaited
     * (the PATCH, and the synchronizer's move when it succeeds), then the
     * card is appended to `ns` if that column exists, the dropdown is
     * hidden and the columns are re-checked.
     */
    method ChooseOption(page: BoardPage.Page, ns: ColumnId, patchOk: bool)
      requires page.Valid()
      modifies this`visible, page`requests, page`columns, page`emptyImage
      ensures page.Valid() && page.ImagesAgree() && !visible
      ensures page.requests == old(page.requests) + [ColumnSync.PatchTaskColumn(card, ns)]
      ensures ns !in old(page.columns) ==> page.columns == old(page.columns)
      ensures ns in old(page.columns) ==>
        page.columns == AppendChild(if patchOk then ColumnSync.UpdateTaskDOMPosition(old(page.columns), card, ns)
                                    else old(page.columns), ns, Card(card))
      ensures ns in page.columns ==>
        page.columns[ns] != [] && page.columns[ns][|page.columns[ns]| - 1] == Card(card)
        && forall d :: d in page.columns && d != ns ==> Card(card) !in page.columns[d]
    {
      page.UpdateTaskColumnInFirebase(card, ns, patchOk);
      if ns in page.columns {
        AppendChildSpec(page.columns, ns, Card(card));
        page.columns := AppendChild(page.columns, ns, Card(card));
      } else {
        ColumnSync.UpdateTaskDOMPositionSpec(old(page.columns), card, ns);
      }
      visible := false;
      page.CheckColumns();
    }
  }
}
