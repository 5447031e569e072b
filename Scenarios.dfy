/**
 * The behaviour the test target expects, as client code over fresh objects:
 * the production store on its own, and the presenter over the in-memory double.
 * The ids and clock readings the tests take from the system clock are inputs.
 */
module Scenarios {
  import opened Wrappers
  import opened Text
  import opened TaskModel
  import opened Interactor
  import opened TestDouble
  import opened ListView
  import opened Presenter

  /** A sequence whose elements are all `x`, with `x` once, is `[x]`. */
  lemma OnlyElement(r: seq<Task>, x: Task)
    requires forall t :: multiset(r)[t] == if t == x then 1 else 0
    ensures r == [x]
  {
    assert multiset(r) == multiset{x};
    assert |r| == |multiset(r)| == 1;
    assert r[0] in multiset(r);
  }

  /** A titled task alone in a store is listed alone. */
  lemma ListedSingle(t: Task)
    requires HasTitle(t)
    ensures Listed([t]) == [t]
  {
    forall u ensures multiset(Listed([t]))[u] == if u == t then 1 else 0 {
      ListedCount([t], u);
    }
    OnlyElement(Listed([t]), t);
  }

  /** `T` is not blank: it starts with a character that is not white space. */
  lemma NotBlankByFirst(s: string)
    requires s != [] && !IsWhitespace(s[0])
    ensures !IsBlank(s)
  {
  }

  /** A query longer than both fields of a task matches neither. */
  lemma TooLongForTask(t: Task, query: string)
    requires t.title.Some? && |query| > |t.title.value| && |query| > |t.details|
    ensures !MatchesExactly(t, query) && !MatchesFolded(t, query)
  {
    LongerNeverContained(t.title.value, query);
    LongerNeverContained(t.details, query);
    LongerNeverContained(Fold(t.title.value), Fold(query));
    LongerNeverContained(Fold(t.details), Fold(query));
  }

  /**
   * A search finds exactly `x` when `x` is stored once, titled and matching,
   * and no other stored task matches.
   */
  lemma FoundOnlyMatch(s: seq<Task>, query: string, x: Task)
    requires HasTitle(x) && MatchesFolded(x, query) && multiset(s)[x] == 1
    requires forall t :: t in s && t != x ==> !MatchesFolded(t, query)
    ensures Found(s, query) == [x]
  {
    forall u ensures multiset(Found(s, query))[u] == if u == x then 1 else 0 {
      FoundCount(s, query, u);
    }
    OnlyElement(Found(s, query), x);
  }

  /** The three tasks of `testSearchTasks`, as a fresh store holds them. */
  function SpecialTasks(ids: seq<int>, times: seq<int>): seq<Task>
    requires |ids| == 3 && |times| == 3
  {
    [NewTask(0, ids[0], "Task 0", "", times[0]),
     NewTask(1, ids[1], "Task 1", "Special", times[1]),
     NewTask(2, ids[2], "Task 2", "", times[2])]
  }

  /** Only the second of those tasks mentions "Special". */
  lemma SpecialTasksSearch(ids: seq<int>, times: seq<int>)
    requires |ids| == 3 && |times| == 3
    ensures Found(SpecialTasks(ids, times), "Special") == [SpecialTasks(ids, times)[1]]
  {
    var s := SpecialTasks(ids, times);
    TooLongForTask(s[0], "Special");
    TooLongForTask(s[2], "Special");
    ContainsItself(Fold("Special"));
    NotBlankByFirst("Task 1");
    assert multiset(s)[s[1]] == 1;
    FoundOnlyMatch(s, "Special", s[1]);
  }

  /** `testAddAndFetchTask`: an added task is reported, and a fetch lists exactly it. */
  method AddThenFetch(id: int, now: int) returns (added: Option<Task>, fetched: seq<Task>)
    ensures added.Some?
    ensures |fetched| == 1 && fetched[0].title == Some("Test") && fetched[0] == added.value
  {
    var store := new ToDoListInteractor();
    added := store.AddTask("Test", "Details", id, now, true);
    fetched := store.FetchTasks();
    NotBlankByFirst("Test");
    ListedSingle(added.value);
  }

  /** `testDeleteTask`: deleting the task just added succeeds, and a fetch lists nothing. */
  method AddThenDelete(id: int, now: int) returns (deleted: bool, fetched: seq<Task>)
    ensures deleted
    ensures fetched == []
  {
    var store := new ToDoListInteractor();
    var added := store.AddTask("ToDelete", "D", id, now, true);
    deleted := store.DeleteTask(added.value, true);
    fetched := store.FetchTasks();
    assert store.tasks == [];
    FilterNoneKept(SortNewestFirst([]), Titled);
  }

  /**
   * `testSearchTasks`: among "Task 0", "Task 1" and "Task 2", where only
   * "Task 1" has the details "Special", a search for "Special" finds exactly
   * that task, whatever the ids and creation times.
   */
  method SearchSpecial(ids: seq<int>, times: seq<int>) returns (found: seq<Task>)
    requires |ids| == 3 && |times| == 3
    ensures |found| == 1 && found[0].title == Some("Task 1") && found[0].details == "Special"
  {
    var store := new ToDoListInteractor();
    var a0 := store.AddTask("Task 0", "", ids[0], times[0], true);
    var a1 := store.AddTask("Task 1", "Special", ids[1], times[1], true);
    var a2 := store.AddTask("Task 2", "", ids[2], times[2], true);
    assert store.tasks == SpecialTasks(ids, times);
    SpecialTasksSearch(ids, times);
    found := store.SearchTasks("Special");
  }

  /**
   * `testPresenterAddAndFetch`: over the double, adding "PresenterTest" and
   * searching for it shows exactly that task, after a reload.
   */
  method PresenterAddThenSearch(id: int, now: int) returns (addCalled: bool, reloaded: bool, shown: seq<Task>)
    ensures addCalled && reloaded
    ensures |shown| == 1 && shown[0].title == Some("PresenterTest")
  {
    var view := new ListScreen();
    var mock := new MockInteractor();
    var presenter := new ToDoListPresenter(view, Double(mock));
    presenter.AddTask("PresenterTest", "PresenterDetails", id, now, true);
    presenter.SearchTasks("PresenterTest");
    addCalled := mock.addTaskCalled;
    reloaded := view.reloadCount > 0;
    shown := presenter.tasks;
    var t := mock.tasks[0];
    assert mock.tasks == [t];
    ContainsItself("PresenterTest");
    assert Filter([t], ContainsExactly("PresenterTest")) == Filter([], ContainsExactly("PresenterTest")) + [t];
  }

  /** `testPresenterDelete`: deleting the double's only task through the presenter shows nothing. */
  method PresenterDeleteOnly(id: int, now: int) returns (deleteCalled: bool, reloaded: bool, shown: seq<Task>)
    ensures deleteCalled && reloaded
    ensures shown == []
  {
    var view := new ListScreen();
    var mock := new MockInteractor();
    var presenter := new ToDoListPresenter(view, Double(mock));
    var added := mock.AddTask("ToDelete", "", id, now);
    presenter.DeleteTask(mock.tasks[0], true);
    deleteCalled := mock.deleteTaskCalled;
    reloaded := view.reloadCount > 0;
    shown := presenter.tasks;
  }

  /**
   * `testPresenterSearch`: with "FindMe" and "Other" in the double, a search
   * for "FindMe" through the presenter shows exactly the first.
   */
  method PresenterSearchFindMe(ids: seq<int>, times: seq<int>) returns (searchCalled: bool, shown: seq<Task>)
    requires |ids| == 2 && |times| == 2
    ensures searchCalled
    ensures |shown| == 1 && shown[0].title == Some("FindMe")
  {
    var view := new ListScreen();
    var mock := new MockInteractor();
    var presenter := new ToDoListPresenter(view, Double(mock));
    var f := mock.AddTask("FindMe", "", ids[0], times[0]);
    var o := mock.AddTask("Other", "", ids[1], times[1]);
    presenter.SearchTasks("FindMe");
    searchCalled := mock.searchTaskCalled;
    shown := presenter.tasks;
    assert mock.tasks == [f, o];
    FindMeFilter(f, o);
  }

  /** Of "FindMe" and "Other", the case-sensitive search for "FindMe" keeps the first alone. */
  lemma FindMeFilter(f: Task, o: Task)
    requires f.title == Some("FindMe") && o.title == Some("Other") && o.details == []
    ensures Filter([f, o], ContainsExactly("FindMe")) == [f]
  {
    ContainsItself("FindMe");
    TooLongForTask(o, "FindMe");
    var c := ContainsExactly("FindMe");
    assert [f, o][..1] == [f];
    assert Filter([f, o], c) == Filter([f], c);
    assert Filter([f], c) == Filter([], c) + [f];
  }
}
