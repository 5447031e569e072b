/**
 * The list screen's handlers that feed the presenter: the add and edit
 * dialogs, guarded against an empty title, and the completion checkbox.
 */
module ListActions {
  import opened Wrappers
  import opened Text
  import opened TaskModel
  import opened Interactor
  import opened Presenter

  /**
   * The dialogs' guard on the title field: its text, when the field has one
   * and it is not empty. The text is not trimmed.
   */
  function SubmittedTitle(text: Option<string>): (title: Option<string>)
    ensures title.Some? <==> text.Some? && text.value != []
    ensures title.Some? ==> title == text
  {
    if text.Some? && text.value != [] then text else None
  }

  /**
   * The guard and the listing disagree on blank titles: a title of spaces
   * passes the dialog, and the task it creates is stored but never listed.
   */
  lemma SpacesPassGuardButAreNotListed(s: seq<Task>, ref: nat, id: int, details: string, now: int)
    ensures SubmittedTitle(Some("   ")) == Some("   ")
    ensures NewTask(ref, id, "   ", details, now) in s + [NewTask(ref, id, "   ", details, now)]
    ensures NewTask(ref, id, "   ", details, now) !in Listed(s + [NewTask(ref, id, "   ", details, now)])
  {
    var t := NewTask(ref, id, "   ", details, now);
    assert (s + [t])[|s|] == t;
    assert IsBlank("   ") by {
      assert "   "[1..] == "  " && "  "[1..] == " " && " "[1..] == [];
    }
  }

  /** The "Добавить" action of the new-task dialog. */
  method ConfirmAddAlert(presenter: ToDoListPresenter, titleText: Option<string>, detailsText: Option<string>,
                         id: int, now: int, saveOk: bool) returns (submitted: bool)
    requires presenter.Valid()
    modifies presenter, presenter.view, presenter.interactor.Object()
    ensures presenter.Valid()
    ensures submitted <==> SubmittedTitle(titleText).Some?
    ensures !submitted ==> unchanged(presenter, presenter.view, presenter.interactor.Object())
    ensures submitted ==>
              presenter.interactor.Stored() ==
                old(presenter.interactor.Stored()) +
                [NewTask(old(presenter.interactor.NextRef()), id, titleText.value, detailsText.GetOr(""), now)] &&
              presenter.interactor.NextRef() == old(presenter.interactor.NextRef()) + 1 &&
              (presenter.interactor.Double? ==>
                 presenter.interactor.mock.CallsMade() == old(presenter.interactor.mock.CallsMade()).(add := true)) &&
              presenter.tasks == presenter.interactor.Fetched() &&
              presenter.view.Shows(presenter.tasks) &&
              presenter.view.reloadCount == old(presenter.view.reloadCount) + 1
  {
    var title := SubmittedTitle(titleText);
    if title.None? {
      return false;
    }
    presenter.AddTask(title.value, detailsText.GetOr(""), id, now, saveOk);
    return true;
  }

  /** The "Сохранить" action of the edit dialog for `task`: the completion flag is kept. */
  method ConfirmEditAlert(presenter: ToDoListPresenter, task: Task, titleText: Option<string>,
                          detailsText: Option<string>, saveOk: bool) returns (submitted: bool)
    requires presenter.Valid()
    modifies presenter, presenter.view, presenter.interactor.Object()
    ensures presenter.Valid()
    ensures submitted <==> SubmittedTitle(titleText).Some?
    ensures !submitted ==> unchanged(presenter, presenter.view, presenter.interactor.Object())
    ensures submitted ==>
              presenter.interactor.Stored() ==
                UpdateRef(old(presenter.interactor.Stored()), task.ref, titleText.value, detailsText.GetOr(""), task.isCompleted) &&
              presenter.interactor.NextRef() == old(presenter.interactor.NextRef()) &&
              (presenter.interactor.Double? ==>
                 presenter.interactor.mock.CallsMade() == old(presenter.interactor.mock.CallsMade()).(update := true)) &&
              presenter.tasks == presenter.interactor.Fetched() &&
              presenter.view.Shows(presenter.tasks) &&
              presenter.view.reloadCount == old(presenter.view.reloadCount) + 1
  {
    var title := SubmittedTitle(titleText);
    if title.None? {
      return false;
    }
    presenter.UpdateTask(task, title.value, detailsText.GetOr(""), task.isCompleted, saveOk);
    return true;
  }

  /** A tap on the checkbox of the row showing `task`: same title and details, the flag negated. */
  method CheckboxTapped(presenter: ToDoListPresenter, task: Task, saveOk: bool)
    requires presenter.Valid()
    modifies presenter, presenter.view, presenter.interactor.Object()
    ensures presenter.Valid()
    ensures presenter.interactor.Stored() ==
              UpdateRef(old(presenter.interactor.Stored()), task.ref, task.title.GetOr(""), task.details, !task.isCompleted)
    ensures presenter.interactor.NextRef() == old(presenter.interactor.NextRef())
    ensures presenter.interactor.Double? ==>
              presenter.interactor.mock.CallsMade() == old(presenter.interactor.mock.CallsMade()).(update := true)
    ensures presenter.tasks == presenter.interactor.Fetched()
    ensures presenter.view.Shows(presenter.tasks)
    ensures presenter.view.reloadCount == old(presenter.view.reloadCount) + 1
  {
    presenter.UpdateTask(task, task.title.GetOr(""), task.details, !task.isCompleted, saveOk);
  }

  /**
   * Two taps on a titled task's checkbox, the second on the row refreshed by
   * the first, leave the store as it was.
   */
  lemma CheckboxTwiceRestores(s: seq<Task>, t: Task)
    requires t.title.Some?
    requires forall i :: 0 <= i < |s| && s[i].ref == t.ref ==> s[i] == t
    ensures UpdateRef(UpdateRef(s, t.ref, t.title.value, t.details, !t.isCompleted),
                      t.ref, t.title.value, t.details, !!t.isCompleted) == s
  {
    var once := UpdateRef(s, t.ref, t.title.value, t.details, !t.isCompleted);
    var twice := UpdateRef(once, t.ref, t.title.value, t.details, t.isCompleted);
    forall i | 0 <= i < |s|
      ensures twice[i] == s[i]
    {
    }
  }
}
