/**
 * The add and edit task dialogs: the raw form fields, the normalisation applied on
 * submit, the reset after adding, the form filled from a task, and the activity tab.
 */
module TaskDialogs {
  import opened Wrappers
  import opened Text
  import opened ClientModel

  /** The form as typed: every field a string except the priority picker. */
  datatype Draft = Draft(
    title: string,
    description: string,
    priority: Priority,
    assignee: string,
    dueDate: string,
    tags: string)

  /** What a submit hands on: the task's editable fields, normalised. */
  datatype Fields = Fields(
    title: string,
    description: Option<string>,
    priority: Priority,
    assignee: Option<string>,
    dueDate: Option<string>,
    tags: seq<string>)

  /** The form a freshly opened (or reset) add dialog shows. */
  const EMPTY_DRAFT: Draft := Draft("", "", Medium, "", "", "")

  /** `s.trim() || undefined`: the trimmed text, or nothing when that is empty. */
  function OptionalText(s: string): (r: Option<string>)
    ensures r.None? <==> AllWhitespace(s)
    ensures r.Some? ==> r.value == Trim(s) && r.value != [] && IsTrimmed(r.value)
    ensures IsTrimmed(s) && s != [] ==> r == Some(s)
  {
    var t := Trim(s);
    if t == [] then None else Some(t)
  }

  /** `s || undefined` for a field that is not trimmed (the date input). */
  function OptionalRaw(s: string): (r: Option<string>)
    ensures r.None? <==> s == []
    ensures r.Some? ==> r.value == s
  {
    if s == [] then None else Some(s)
  }

  /** An optional text that is trimmed and non-empty when present. */
  predicate NormalText(o: Option<string>) {
    o.Some? ==> o.value != [] && IsTrimmed(o.value)
  }

  /** Fields as a submit produces them: trimmed, no empty strings, tags well formed. */
  predicate NormalFields(f: Fields) {
    && f.title != [] && IsTrimmed(f.title)
    && NormalText(f.description)
    && NormalText(f.assignee)
    && (f.dueDate.Some? ==> f.dueDate.value != [])
    && forall t :: t in f.tags ==> IsTag(t)
  }

  /**
   * The submit handlers' shared normalisation: nothing for a blank title; otherwise the
   * trimmed title, the optional texts trimmed or dropped, the date dropped when empty,
   * and the tags split on commas, trimmed, with empty pieces dropped.
   */
  function Normalise(d: Draft): (r: Option<Fields>)
    ensures r.None? <==> IsBlank(d.title)
    ensures r.Some? ==> NormalFields(r.value)
    ensures r.Some? ==>
      && r.value.title == Trim(d.title)
      && r.value.description == OptionalText(d.description)
      && r.value.priority == d.priority
      && r.value.assignee == OptionalText(d.assignee)
      && r.value.dueDate == OptionalRaw(d.dueDate)
      && r.value.tags == ParseTags(d.tags)
  {
    if IsBlank(d.title) then None
    else
      Some(Fields(Trim(d.title), OptionalText(d.description), d.priority,
        OptionalText(d.assignee), OptionalRaw(d.dueDate), ParseTags(d.tags)))
  }

  /** The add dialog: its form and whether it is open. */
  datatype AddDialog = AddDialog(draft: Draft, open: bool)

  /** A submit's outcome: the dialog afterwards and what was handed to `onAdd`. */
  datatype AddOutcome = AddOutcome(dialog: AddDialog, added: Option<Fields>)

  /**
   * The add dialog's `handleSubmit`: a blank title does nothing at all; otherwise the
   * normalised fields go to `onAdd`, the form is reset and the dialog closes.
   */
  function AddSubmit(dlg: AddDialog): (r: AddOutcome)
    ensures r.added.None? <==> IsBlank(dlg.draft.title)
    ensures r.added.None? ==> r.dialog == dlg
    ensures r.added.Some? ==> r.added == Normalise(dlg.draft) && r.dialog == AddDialog(EMPTY_DRAFT, false)
  {
    match Normalise(dlg.draft)
    case None => AddOutcome(dlg, None)
    case Some(f) => AddOutcome(AddDialog(EMPTY_DRAFT, false), Some(f))
  }

  /** After a successful add (a title with some visible character), submitting again sends nothing. */
  lemma AddTwice(dlg: AddDialog)
    requires !AllWhitespace(dlg.draft.title)
    ensures AddSubmit(AddSubmit(dlg).dialog).added.None?
  {
    assert AllWhitespace(EMPTY_DRAFT.title);
  }

  /**
   * The edit dialog's form filled from a task (on mount and whenever the task changes):
   * missing texts become empty, a missing priority becomes medium, tags are joined with ", ".
   */
  function EditInit(task: Task): (d: Draft)
    ensures d.title == task.title
    ensures d.priority == task.priority.GetOr(Medium)
    ensures task.description.None? ==> d.description == ""
    ensures task.description.Some? ==> d.description == task.description.value
    ensures task.assignee.None? ==> d.assignee == ""
    ensures task.assignee.Some? ==> d.assignee == task.assignee.value
    ensures task.dueDate.None? ==> d.dueDate == ""
    ensures task.dueDate.Some? ==> d.dueDate == task.dueDate.value
    ensures task.tags.None? ==> d.tags == ""
    ensures task.tags.Some? ==> d.tags == Join(task.tags.value, ", ")
  {
    Draft(task.title, task.description.GetOr(""), task.priority.GetOr(Medium),
      task.assignee.GetOr(""), task.dueDate.GetOr(""),
      if task.tags.Some? then Join(task.tags.value, ", ") else "")
  }

  /** The edit request: `onUpdate(task.id, fields)`. */
  datatype EditRequest = EditRequest(taskId: string, fields: Fields)

  /** The edit dialog: its form and whether it is open (`open`, set through `onOpenChange`). */
  datatype EditDialog = EditDialog(draft: Draft, open: bool)

  /** A submit's outcome: the dialog afterwards and what was handed to `onUpdate`. */
  datatype EditOutcome = EditOutcome(dialog: EditDialog, request: Option<EditRequest>)

  /** The edit dialog as it opens on a task. */
  function EditOpen(task: Task): (dlg: EditDialog)
    ensures dlg.open && dlg.draft == EditInit(task)
  {
    EditDialog(EditInit(task), true)
  }

  /**
   * The edit dialog's `handleSubmit`: a blank title does nothing at all, and the dialog
   * stays open; otherwise the normalised fields go to `onUpdate` under the task's id and
   * the dialog closes, its form left as typed (unlike the add dialog, it is not reset).
   */
  function EditSubmit(task: Task, dlg: EditDialog): (r: EditOutcome)
    ensures r.request.None? <==> IsBlank(dlg.draft.title)
    ensures r.request.None? ==> r.dialog == dlg
    ensures r.request.Some? ==>
      && r.request.value.taskId == task.id
      && Some(r.request.value.fields) == Normalise(dlg.draft)
      && r.dialog == EditDialog(dlg.draft, false)
  {
    match Normalise(dlg.draft)
    case None => EditOutcome(dlg, None)
    case Some(f) => EditOutcome(EditDialog(dlg.draft, false), Some(EditRequest(task.id, f)))
  }

  /** A task whose texts are trimmed and non-empty where present, as a submit leaves them. */
  predicate NormalTask(task: Task) {
    && task.title != [] && IsTrimmed(task.title)
    && NormalText(task.description)
    && NormalText(task.assignee)
    && (task.dueDate.Some? ==> task.dueDate.value != [])
    && (task.tags.Some? ==> forall t :: t in task.tags.value ==> IsTag(t))
  }

  /** The fields a task carries, with the dialog's defaults for what is missing. */
  function FieldsOf(task: Task): (f: Fields)
    ensures f.title == task.title && f.description == task.description
    ensures f.priority == task.priority.GetOr(Medium) && f.tags == task.tags.GetOr([])
  {
    Fields(task.title, task.description, task.priority.GetOr(Medium), task.assignee,
      task.dueDate, task.tags.GetOr([]))
  }

  lemma EmptyTags()
    ensures ParseTags("") == []
  {
    TagsRoundTrip([]);
  }

  /** A trimmed, non-empty title is not blank and survives trimming. */
  lemma TitleBack(title: string)
    requires title != [] && IsTrimmed(title)
    ensures !IsBlank(title) && Trim(title) == title
  {
    assert !IsWhitespace(title[0]);
  }

  /** An optional text shown in the form and read back is unchanged. */
  lemma OptionalTextBack(o: Option<string>)
    requires NormalText(o)
    ensures OptionalText(o.GetOr("")) == o
  {
    assert AllWhitespace("");
  }

  /** Tags shown in the form and read back are unchanged; no tags read back as none. */
  lemma TagsBack(tags: Option<seq<string>>)
    requires tags.Some? ==> forall t :: t in tags.value ==> IsTag(t)
    ensures ParseTags(if tags.Some? then Join(tags.value, ", ") else "") == tags.GetOr([])
  {
    if tags.Some? {
      TagsRoundTrip(tags.value);
    } else {
      EmptyTags();
    }
  }

  /** The form filled from a normal task normalises back to the task's fields. */
  lemma NormaliseInit(task: Task)
    requires NormalTask(task)
    ensures Normalise(EditInit(task)) == Some(FieldsOf(task))
  {
    TitleBack(task.title);
    OptionalTextBack(task.description);
    OptionalTextBack(task.assignee);
    TagsBack(task.tags);
  }

  /**
   * Opening the edit dialog and saving without touching anything sends the task's own
   * fields back, only with the defaults filled in.
   */
  lemma EditRoundTrip(task: Task)
    requires NormalTask(task)
    ensures EditSubmit(task, EditOpen(task)) ==
      EditOutcome(EditDialog(EditInit(task), false), Some(EditRequest(task.id, FieldsOf(task))))
  {
    NormaliseInit(task);
  }

  /** The task as the board holds it once the server echoes the edit back. */
  function WithFields(task: Task, f: Fields): (t: Task)
    ensures t.id == task.id && t.activityLog == task.activityLog
    ensures FieldsOf(t) == f
  {
    Task(task.id, f.title, f.description, Some(f.priority), f.assignee, f.dueDate, Some(f.tags),
      task.activityLog)
  }

  /**
   * Saving twice changes nothing further: once a save with a non-blank title is applied,
   * reopening on the saved task and saving sends the same fields.
   */
  lemma SaveIsIdempotent(task: Task, dlg: EditDialog)
    requires !AllWhitespace(dlg.draft.title)
    ensures
      var f := EditSubmit(task, dlg).request.value.fields;
      var saved := WithFields(task, f);
      EditSubmit(saved, EditOpen(saved)).request == Some(EditRequest(task.id, f))
  {
    var f := EditSubmit(task, dlg).request.value.fields;
    EditRoundTrip(WithFields(task, f));
  }

  /** `[...log].reverse()`. */
  function Reverse(log: seq<Activity>): (r: seq<Activity>)
    ensures |r| == |log|
    ensures forall i :: 0 <= i < |log| ==> r[i] == log[|log| - 1 - i]
  {
    if |log| == 0 then [] else Reverse(log[1..]) + [log[0]]
  }

  /** The activity tab: newest entry first; nothing listed when the log is missing or empty. */
  function ActivityView(task: Task): (r: seq<Activity>)
    ensures task.activityLog.None? ==> r == []
    ensures task.activityLog.Some? ==> r == Reverse(task.activityLog.value)
  {
    match task.activityLog
    case None => []
    case Some(log) => if |log| > 0 then Reverse(log) else []
  }

  /** Reversing the listing gives the log back in recorded order. */
  lemma ViewRestoresLog(task: Task)
    requires task.activityLog.Some?
    ensures Reverse(ActivityView(task)) == task.activityLog.value
  {
  }
}
