/**
 * The drag-and-drop of `task-added-content.js`, a page with its own
 * placeholder `div` and only one empty-state image, the first `img` of
 * `#toDoColumn`.  Its drop handler inserts the placeholder's first child,
 * which the empty placeholder does not have, so the drop throws before it
 * moves anything.
 */
module AddedContent {
  import opened Wrappers
  import opened Board
  import opened DragResolver
  import opened DragAndDrop

  const ToDoColumn: ColumnId := "toDoColumn"

  /**
   * `handleDragOver` once the resolver has chosen `after`: with no card
   * below the pointer the placeholder is appended unless the column holds
   * it already; before a card of the column it is inserted there; in every
   * other case nothing moves.
   */
  function PlacePlaceholder(cols: Columns, c: ColumnId, after: Option<TaskId>): Columns
    requires c in cols
  {
    if after.None? && Placeholder !in cols[c] then AppendChild(cols, c, Placeholder)
    else if after.Some? && Card(after.value) in cols[c] then InsertBefore(cols, c, Placeholder, Card(after.value))
    else cols
  }

  /**
   * No card moves; when something happens the placeholder ends up in the
   * hovered column only, right before the chosen card or last.
   */
  lemma PlacePlaceholderSpec(cols: Columns, c: ColumnId, after: Option<TaskId>)
    requires Wf(cols) && c in cols
    ensures var r := PlacePlaceholder(cols, c, after);
      Wf(r) && SameCardOrder(r, cols)
      && (after.None? && Placeholder !in cols[c] ==>
            PlaceholderOnlyIn(r, c) && r[c] == RemoveFrom(cols[c], Placeholder) + [Placeholder])
      && (after.Some? && Card(after.value) in cols[c] ==>
            PlaceholderOnlyIn(r, c)
            && exists i :: 0 <= i < |r[c]| - 1 && r[c][i] == Placeholder && r[c][i + 1] == Card(after.value))
      && ((after.None? && Placeholder in cols[c]) || (after.Some? && Card(after.value) !in cols[c]) ==> r == cols)
  {
    if after.None? && Placeholder !in cols[c] {
      AppendPlaceholderSpec(cols, c);
    } else if after.Some? && Card(after.value) in cols[c] {
      InsertPlaceholderSpec(cols, c, after.value);
    }
  }

  class Page {
    /** The children of every `.task-board-container`. */
    var columns: Columns
    /** Cards carrying the `dragging` class. */
    var dragging: set<TaskId>
    /** The first `img` of `#toDoColumn`, if any, and whether it is displayed. */
    var todoImage: Option<bool>

    ghost predicate Valid()
      reads this
    {
      Wf(columns) && (todoImage.Some? ==> ToDoColumn in columns)
    }

    constructor(cols: Columns, image: Option<bool>)
      requires Wf(cols) && (image.Some? ==> ToDoColumn in cols)
      ensures Valid() && columns == cols && todoImage == image && dragging == {}
    {
      columns := cols;
      todoImage := image;
      dragging := {};
    }

    /**
     * `checkToDoColumn()`: throws (`threw`) when the page has no
     * `#toDoColumn`; otherwise the image, when there is one, is shown
     * exactly when the column holds no card.
     */
    method CheckToDoColumn() returns (threw: bool)
      requires Valid()
      modifies this`todoImage
      ensures Valid()
      ensures threw <==> ToDoColumn !in columns
      ensures threw || old(todoImage).None? ==> todoImage == old(todoImage)
      ensures !threw && old(todoImage).Some? ==> todoImage == Some(!HasCards(columns[ToDoColumn]))
    {
      if ToDoColumn !in columns {
        return true;
      }
      threw := false;
      if todoImage.Some? {
        todoImage := Some(!HasCards(columns[ToDoColumn]));
      }
    }

    /** The dragstart listener: the card is marked `dragging` (after a zero-delay timer). */
    method DragStart(t: TaskId)
      requires Valid()
      modifies this`dragging
      ensures Valid() && dragging == old(dragging) + {t}
    {
      dragging := dragging + {t};
    }

    /**
     * The dragend listener: the card loses `dragging`, the placeholder is
     * detached wherever it is, and the to-do image is re-checked.
     */
    method DragEnd(t: TaskId) returns (threw: bool)
      requires Valid()
      modifies this`dragging, this`columns, this`todoImage
      ensures Valid()
      ensures dragging == old(dragging) - {t}
      ensures columns == Detach(old(columns), Placeholder)
      ensures forall c :: c in columns ==> Placeholder !in columns[c]
      ensures threw <==> ToDoColumn !in columns
      ensures !threw && old(todoImage).Some? ==> todoImage == Some(!HasCards(columns[ToDoColumn]))
    {
      dragging := dragging - {t};
      DetachWf(columns, Placeholder);
      columns := Detach(columns, Placeholder);
      threw := CheckToDoColumn();
    }

    /** `handleDragOver(e)` over column `c` with the pointer at `y`. */
    method HandleDragOver(c: ColumnId, y: int, layout: Layout)
      requires Valid() && c in columns
      modifies this`columns
      ensures Valid() && SameCardOrder(columns, old(columns))
      ensures columns == PlacePlaceholder(old(columns), c, GetDragAfterElement(y, Candidates(old(columns)[c], dragging, layout)))
      ensures Placeholder in columns[c]
    {
      var after := GetDragAfterElement(y, Candidates(columns[c], dragging, layout));
      AfterElementInColumn(y, columns[c], dragging, layout);
      PlacePlaceholderSpec(columns, c, after);
      columns := PlacePlaceholder(columns, c, after);
    }

    /**
     * `handleDrop(e)` on column `c`: when the column holds the placeholder
     * the insertion of the placeholder's (missing) first child throws, so
     * no card moves, the placeholder stays and the image is not re-checked;
     * otherwise nothing happens either.
     */
    method HandleDrop(c: ColumnId) returns (threw: bool)
      requires Valid() && c in columns
      ensures Valid()
      ensures threw <==> Placeholder in columns[c]
    {
      threw := Placeholder in columns[c];
    }
  }
}
