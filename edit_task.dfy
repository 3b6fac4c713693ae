/**
 * The task edit dialog of the board: filling its form from a task
 * (`setTaskFields`) and writing the form back into the task
 * (`updateTaskFromInputs`), including the category select's two values.
 */
module EditTask {
  import opened Wrappers
  import opened Text
  import Priority
  import Avatars
  import Progress
  import EditAssignees

  /** The select values of the two categories. */
  const TechnicalValue: string := "technical"
  const UserStoryValue: string := "userstory"

  /** The select value for a task's category: unknown categories select the empty placeholder. */
  function CategoryValue(category: Option<string>): (v: string)
    ensures v == TechnicalValue <==> category == Some(Avatars.TechnicalTask)
    ensures v == UserStoryValue <==> category == Some(Avatars.UserStory)
    ensures v == "" <==> category != Some(Avatars.TechnicalTask) && category != Some(Avatars.UserStory)
  {
    if category == Some(Avatars.TechnicalTask) then TechnicalValue
    else if category == Some(Avatars.UserStory) then UserStoryValue
    else ""
  }

  /** The category saved for a select value: everything but `technical` saves as a user story. */
  function CategoryOfValue(v: string): (c: string)
    ensures c == Avatars.TechnicalTask <==> v == TechnicalValue
    ensures c == Avatars.UserStory <==> v != TechnicalValue
  {
    if v == TechnicalValue then Avatars.TechnicalTask else Avatars.UserStory
  }

  /** A known category survives the dialog; any other is saved as a user story. */
  lemma CategoryRoundTrip(category: Option<string>)
    ensures category == Some(Avatars.TechnicalTask) || category == Some(Avatars.UserStory) ==>
      CategoryOfValue(CategoryValue(category)) == category.value
    ensures category != Some(Avatars.TechnicalTask) ==> CategoryOfValue(CategoryValue(category)) == Avatars.UserStory
  {
  }

  /** A select value survives saving and reopening exactly when it is one of the two category values. */
  lemma ValueRoundTrip(v: string)
    ensures CategoryValue(Some(CategoryOfValue(v))) == v <==> v == TechnicalValue || v == UserStoryValue
  {
  }

  /** The task fields the dialog edits; absent fields are `None`. */
  datatype Task = Task(
    title: Option<string>,
    description: Option<string>,
    dueDate: Option<string>,
    priority: Option<string>,
    category: Option<string>,
    subtasks: seq<Progress.Subtask>,
    users: seq<EditAssignees.AssigneeUser>)

  /** The dialog's inputs: three text fields, the priority buttons and the category select. */
  datatype Form = Form(title: string, description: string, dueDate: string,
                       buttons: Priority.PriorityButtons, categoryValue: string)

  function ValueOr(field: Option<string>): string {
    if field.Some? then field.value else ""
  }

  /** `setTaskFields(task)`: missing fields show empty; the priority is read from the stored path. */
  function FillForm(t: Task): (f: Form)
    ensures f.title == ValueOr(t.title) && f.description == ValueOr(t.description) && f.dueDate == ValueOr(t.dueDate)
    ensures Priority.SelectedPriority(f.buttons) == Priority.ExtractPriorityUrgentLow(ValueOr(t.priority))
    ensures f.categoryValue == CategoryValue(t.category)
  {
    Priority.SelectedAfterSet(Priority.ExtractPriorityUrgentLow(ValueOr(t.priority)));
    Form(ValueOr(t.title), ValueOr(t.description), ValueOr(t.dueDate),
         Priority.SetEditPriority(Priority.ExtractPriorityUrgentLow(ValueOr(t.priority))),
         CategoryValue(t.category))
  }

  /** `input.value.trim() || current`: a blank input keeps the field. */
  function Edited(input: string, current: Option<string>): (r: Option<string>)
    ensures IsBlank(input) ==> r == current
    ensures !IsBlank(input) ==> r == Some(Trim(input)) && !IsBlank(r.value)
  {
    TrimIdempotent(input);
    if Trim(input) != "" then Some(Trim(input)) else current
  }

  /**
   * `updateTaskFromInputs()`: the text fields as edited, the stored path
   * of the selected priority, the category of the select, and the subtasks
   * and users read from the dialog's lists.
   */
  function ApplyInputs(t: Task, f: Form, subtasks: seq<Progress.Subtask>, users: seq<EditAssignees.AssigneeUser>): (r: Task)
    ensures r.title == Edited(f.title, t.title) && r.description == Edited(f.description, t.description)
    ensures r.dueDate == Edited(f.dueDate, t.dueDate)
    ensures r.priority.Some? && Priority.ExtractPriorityUrgentLow(r.priority.value) == Priority.SelectedPriority(f.buttons)
    ensures r.category == Some(CategoryOfValue(f.categoryValue))
    ensures r.subtasks == subtasks && r.users == users
  {
    Priority.ExtractPriorityOfPath(Priority.SelectedPriority(f.buttons));
    Task(Edited(f.title, t.title), Edited(f.description, t.description), Edited(f.dueDate, t.dueDate),
         Some(Priority.PriorityPath(Priority.SelectedPriority(f.buttons))),
         Some(CategoryOfValue(f.categoryValue)), subtasks, users)
  }

  /** A field holding trimmed, non-empty text. */
  predicate Filled(field: Option<string>) {
    field.Some? && field.value != [] && Trim(field.value) == field.value
  }

  /**
   * Opening the dialog and saving it unchanged keeps a task whose text
   * fields are filled, whose priority is a stored level path and whose
   * category is one of the two categories.
   */
  lemma SaveUnchangedKeepsTask(t: Task, p: string)
    requires Filled(t.title) && Filled(t.description) && Filled(t.dueDate)
    requires Priority.IsLevel(p) && t.priority == Some(Priority.PriorityPath(p))
    requires t.category == Some(Avatars.TechnicalTask) || t.category == Some(Avatars.UserStory)
    ensures ApplyInputs(t, FillForm(t), t.subtasks, t.users) == t
  {
    Priority.ExtractPriorityOfPath(p);
    Priority.SelectedAfterSet(p);
  }

  /** Saving once more with the same inputs changes nothing further. */
  lemma ApplyInputsIdempotent(t: Task, f: Form, subtasks: seq<Progress.Subtask>, users: seq<EditAssignees.AssigneeUser>)
    ensures ApplyInputs(ApplyInputs(t, f, subtasks, users), f, subtasks, users) == ApplyInputs(t, f, subtasks, users)
  {
  }

  /** The edit dialog: the task being edited (`currentTask`) and the form. */
  class EditDialog {
    var task: Task
    var form: Form

    constructor (t: Task)
      ensures task == t && form == FillForm(t)
    {
      task := t;
      form := FillForm(t);
    }

    /** `setTaskFields(currentTask)` */
    method SetTaskFields()
      modifies this`form
      ensures form == FillForm(task)
    {
      form := FillForm(task);
    }

    /** `updateTaskFromInputs()`, given what the subtask and badge readers return. */
    method UpdateTaskFromInputs(subtasks: seq<Progress.Subtask>, users: seq<EditAssignees.AssigneeUser>)
      modifies this`task
      ensures task == ApplyInputs(old(task), form, subtasks, users)
    {
      task := ApplyInputs(task, form, subtasks, users);
    }
  }
}
