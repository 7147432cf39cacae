/**
 * The task form (src/components/todo-dialog.tsx): five state fields, the effect
 * that re-initialises them when `open` or `initialData` changes, and the submit
 * handler with its `isSubmitting` guard.
 */
module TodoDialog {
  import opened Wrappers
  import opened TodoTypes

  /** The form's five `useState` fields. */
  datatype FormState = FormState(
    title: string,
    description: string,
    assignee: string,
    deadline: Option<Time>,
    isSubmitting: bool)

  /** The fields on first render: empty text, no deadline, not submitting. */
  const InitialForm: FormState := FormState("", "", "", None, false)

  /** The object `handleSubmit` passes to `onSubmit`: the four fields, never id, createdAt or status. */
  function FieldsOf(st: FormState): (f: TodoFields)
    ensures f.title == st.title && f.deadline == st.deadline
    ensures f.description == Some(st.description) && f.assignee == Some(st.assignee)
  {
    TodoFields(st.title, Some(st.description), st.deadline, Some(st.assignee))
  }

  /** The effect on `[open, initialData]`. */
  function Sync(st: FormState, open: bool, initialData: Option<Todo>): (r: FormState)
    ensures r.isSubmitting == (open && st.isSubmitting)
    ensures open && initialData.Some? ==>
      var t := initialData.value;
      && r.title == t.title && r.deadline == t.deadline
      && r.description == (if t.description.Some? then t.description.value else "")
      && r.assignee == (if t.assignee.Some? then t.assignee.value else "")
    ensures open && initialData.None? ==> FieldsOf(r) == TodoFields("", Some(""), None, Some(""))
    ensures !open ==> r == st.(isSubmitting := false)
  {
    var filled :=
      if open && initialData.Some? then
        var t := initialData.value;
        st.(title := t.title, description := t.description.GetOr(""),
            assignee := t.assignee.GetOr(""), deadline := t.deadline)
      else if open then
        st.(title := "", description := "", assignee := "", deadline := None)
      else st;
    if !open then filled.(isSubmitting := false) else filled
  }

  /** What one press of the submit button does. */
  datatype SubmitResult = SubmitResult(next: FormState, submitted: Option<TodoFields>, closeRequested: bool)

  /** `handleSubmit`: ignored while submitting; else mark submitting, call `onSubmit`, ask to close. */
  function Submit(st: FormState): (r: SubmitResult)
    ensures r.submitted.Some? <==> !st.isSubmitting
    ensures r.submitted.Some? ==>
      r.submitted.value == FieldsOf(st) && r.closeRequested && r.next == st.(isSubmitting := true)
    ensures r.submitted.None? ==> r.next == st && !r.closeRequested
  {
    if st.isSubmitting then SubmitResult(st, None, false)
    else SubmitResult(st.(isSubmitting := true), Some(FieldsOf(st)), true)
  }

  /** `disabled={isSubmitting}` on the submit button. */
  function SubmitDisabled(st: FormState): (disabled: bool)
    ensures disabled <==> Submit(st).submitted.None?
  {
    st.isSubmitting
  }

  /** What the user types into one of the inputs. */
  datatype FieldInput =
    | TitleInput(title: string)
    | DescriptionInput(description: string)
    | AssigneeInput(assignee: string)
    | DeadlineInput(deadline: Option<Time>)

  /** The `onChange` / `onSelect` handlers: set one field. */
  function Input(st: FormState, i: FieldInput): (r: FormState)
    ensures r.isSubmitting == st.isSubmitting
    ensures r.title == (if i.TitleInput? then i.title else st.title)
    ensures r.description == (if i.DescriptionInput? then i.description else st.description)
    ensures r.assignee == (if i.AssigneeInput? then i.assignee else st.assignee)
    ensures r.deadline == (if i.DeadlineInput? then i.deadline else st.deadline)
  {
    match i
    case TitleInput(v) => st.(title := v)
    case DescriptionInput(v) => st.(description := v)
    case AssigneeInput(v) => st.(assignee := v)
    case DeadlineInput(v) => st.(deadline := v)
  }

  /** What can happen to the form: the parent changes its props, the user types, or submits. */
  datatype DialogEvent =
    | PropsChanged(open: bool, initialData: Option<Todo>)
    | Typed(input: FieldInput)
    | SubmitPressed

  /** An event that closes the dialog. */
  predicate Closes(e: DialogEvent)
  {
    e.PropsChanged? && !e.open
  }

  /** The form after a sequence of events, and every object passed to `onSubmit`, in order. */
  function Run(st: FormState, evs: seq<DialogEvent>): (r: (FormState, seq<TodoFields>))
    decreases |evs|
  {
    if evs == [] then (st, [])
    else
      match evs[0]
      case PropsChanged(open, d) => Run(Sync(st, open, d), evs[1..])
      case Typed(i) => Run(Input(st, i), evs[1..])
      case SubmitPressed =>
        var res := Submit(st);
        var rest := Run(res.next, evs[1..]);
        (rest.0, (if res.submitted.Some? then [res.submitted.value] else []) + rest.1)
  }

  /**
   * Until the dialog is closed, `onSubmit` is called at most once, and not at
   * all if a submit is already in flight: closing is the only way to re-arm it.
   */
  lemma {:induction false} AtMostOneSubmitUntilClose(st: FormState, evs: seq<DialogEvent>)
    requires forall i :: 0 <= i < |evs| ==> !Closes(evs[i])
    ensures |Run(st, evs).1| <= if st.isSubmitting then 0 else 1
    ensures |Run(st, evs).1| == 1 ==> Run(st, evs).0.isSubmitting
    ensures st.isSubmitting ==> Run(st, evs).0.isSubmitting
    decreases |evs|
  {
    if evs != [] {
      match evs[0]
      case PropsChanged(open, d) =>
        assert !Closes(evs[0]);
        AtMostOneSubmitUntilClose(Sync(st, open, d), evs[1..]);
      case Typed(i) =>
        AtMostOneSubmitUntilClose(Input(st, i), evs[1..]);
      case SubmitPressed =>
        AtMostOneSubmitUntilClose(Submit(st).next, evs[1..]);
    }
  }

  /** After a close, reopening and submitting calls `onSubmit` once, with the prefilled fields. */
  lemma CloseRearms(st: FormState, d: Option<Todo>, d': Option<Todo>)
    ensures var st' := Sync(Sync(st, false, d), true, d');
            Run(st, [PropsChanged(false, d), PropsChanged(true, d'), SubmitPressed]).1 == [FieldsOf(st')]
  {
    var evs := [PropsChanged(false, d), PropsChanged(true, d'), SubmitPressed];
    var closed := Sync(st, false, d);
    var reopened := Sync(closed, true, d');
    assert evs[1..] == [PropsChanged(true, d'), SubmitPressed];
    assert evs[1..][1..] == [SubmitPressed];
    assert Run(st, evs) == Run(closed, evs[1..]) == Run(reopened, [SubmitPressed]);
    assert [SubmitPressed][1..] == [];
    assert Run(reopened, [SubmitPressed]).1 == [FieldsOf(reopened)] + Run(Submit(reopened).next, []).1;
  }

  /** The form component, its state fields updated in place by its handlers. */
  class Dialog {
    var title: string
    var description: string
    var assignee: string
    var deadline: Option<Time>
    var isSubmitting: bool

    /** The current values of the five fields. */
    function State(): (st: FormState)
      reads this
    {
      FormState(title, description, assignee, deadline, isSubmitting)
    }

    constructor ()
      ensures State() == InitialForm
    {
      title, description, assignee, deadline, isSubmitting := "", "", "", None, false;
    }

    /** The effect, run after `open` or `initialData` changes. */
    method SyncWithProps(open: bool, initialData: Option<Todo>)
      modifies this
      ensures State() == Sync(old(State()), open, initialData)
    {
      if open && initialData.Some? {
        var t := initialData.value;
        title := t.title;
        description := t.description.GetOr("");
        assignee := t.assignee.GetOr("");
        deadline := t.deadline;
      } else if open && initialData.None? {
        title := "";
        description := "";
        assignee := "";
        deadline := None;
      }
      if !open {
        isSubmitting := false;
      }
    }

    /** An input's change handler. */
    method HandleInput(i: FieldInput)
      modifies this
      ensures State() == Input(old(State()), i)
    {
      match i
      case TitleInput(v) => title := v;
      case DescriptionInput(v) => description := v;
      case AssigneeInput(v) => assignee := v;
      case DeadlineInput(v) => deadline := v;
    }

    /**
     * `handleSubmit`: returns the object passed to `onSubmit`, if it was called,
     * and whether `onOpenChange(false)` was called.
     */
    method HandleSubmit() returns (submitted: Option<TodoFields>, closeRequested: bool)
      modifies this
      ensures var r := Submit(old(State()));
              State() == r.next && submitted == r.submitted && closeRequested == r.closeRequested
    {
      if isSubmitting {
        submitted, closeRequested := None, false;
        return;
      }
      isSubmitting := true;
      submitted := Some(TodoFields(title, Some(description), deadline, Some(assignee)));
      closeRequested := true;
    }

    /** Whether the submit button is disabled. */
    function SubmitButtonDisabled(): (disabled: bool)
      reads this
      ensures disabled == SubmitDisabled(State())
    {
      isSubmitting
    }
  }
}
