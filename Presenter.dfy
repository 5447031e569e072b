/**
 * The presenter of the list screen: it owns the snapshot of tasks the screen
 * shows and refreshes it from the interactor after every change. Completion
 * handlers run in submission order, so every chain of calls is a sequence.
 */
module Presenter {
  import opened Wrappers
  import opened TaskModel
  import opened Interactor
  import opened TestDouble
  import opened ListView

  /**
   * The interactor behind the presenter: the production store, or the
   * in-memory double of the tests. The downcast in `viewDidLoad` tells them
   * apart.
   */
  datatype Backend = Live(store: ToDoListInteractor) | Double(mock: MockInteractor)
  {
    /** The object that holds the interactor's state. */
    function Object(): object {
      match this
      case Live(store) => store
      case Double(mock) => mock
    }

    ghost predicate Valid()
      reads Object()
    {
      match this
      case Live(store) => store.Valid()
      case Double(mock) => mock.Valid()
    }

    /** The task records the interactor holds. */
    function Stored(): seq<Task>
      reads Object()
    {
      match this
      case Live(store) => store.tasks
      case Double(mock) => mock.tasks
    }

    /** The identity the interactor gives to the next object it creates. */
    function NextRef(): nat
      reads Object()
    {
      match this
      case Live(store) => store.nextRef
      case Double(mock) => mock.nextRef
    }

    /** What `fetchTasks` delivers. */
    function Fetched(): seq<Task>
      reads Object()
    {
      match this
      case Live(store) => store.FetchTasks()
      case Double(mock) => mock.FetchTasks()
    }

    /** What `searchTasks(query)` delivers. */
    function Searched(query: string): seq<Task>
      reads Object()
    {
      match this
      case Live(store) => store.SearchTasks(query)
      case Double(mock) => Filter(mock.tasks, ContainsExactly(query))
    }
  }

  /** The production store after the start-up chain's purge and import. */
  function Startup(s: seq<Task>, response: Option<seq<DummyTodo>>, now: int, base: nat): seq<Task> {
    ImportIfEmpty(Filter(s, Titled), response, now, base)
  }

  class ToDoListPresenter {
    /** The screen the presenter reloads. */
    const view: ListScreen
    const interactor: Backend
    /** The snapshot the screen shows: the last fetch or search result. */
    var tasks: seq<Task>

    ghost predicate Valid()
      reads interactor.Object()
    {
      interactor.Valid()
    }

    /** A presenter over `view` and `interactor`, holding no tasks yet. */
    constructor (view: ListScreen, interactor: Backend)
      ensures this.view == view && this.interactor == interactor && tasks == []
    {
      this.view := view;
      this.interactor := interactor;
      tasks := [];
    }

    /** `fetchTasks`: replaces the snapshot by the interactor's listing and reloads the screen. */
    method FetchTasks()
      requires Valid()
      modifies this, view
      ensures Valid()
      ensures tasks == interactor.Fetched()
      ensures view.Shows(tasks) && view.reloadCount == old(view.reloadCount) + 1
    {
      match interactor {
        case Live(store) => tasks := store.FetchTasks();
        case Double(mock) => tasks := mock.FetchTasks();
      }
      view.ReloadData(tasks);
    }

    /**
     * `viewDidLoad`: with the production store, purge, then import if the
     * store is empty, then fetch; with any other interactor, import if
     * needed, then fetch.
     */
    method ViewDidLoad(response: Option<seq<DummyTodo>>, now: int)
      requires Valid()
      modifies this, view, interactor.Object()
      ensures Valid()
      ensures interactor.Live? ==>
                interactor.Stored() == Startup(old(interactor.Stored()), response, now, old(interactor.NextRef())) &&
                interactor.NextRef() == old(interactor.NextRef()) + |interactor.Stored()| - |Filter(old(interactor.Stored()), Titled)|
      ensures interactor.Double? ==>
                interactor.Stored() == old(interactor.Stored()) && interactor.NextRef() == old(interactor.NextRef()) &&
                interactor.mock.CallsMade() == old(interactor.mock.CallsMade()).(load := true)
      ensures tasks == interactor.Fetched()
      ensures view.Shows(tasks) && view.reloadCount == old(view.reloadCount) + 1
    {
      match interactor {
        case Live(store) =>
          store.RemoveEmptyTasks();
          var loaded := store.LoadTasksFromAPIIfNeeded(response, now);
        case Double(mock) =>
          var loaded := mock.LoadTasksFromAPIIfNeeded();
      }
      FetchTasks();
    }

    /** `addTask`: adds through the interactor, then fetches whatever it reports. */
    method AddTask(title: string, details: string, id: int, now: int, saveOk: bool)
      requires Valid()
      modifies this, view, interactor.Object()
      ensures Valid()
      ensures interactor.Stored() == old(interactor.Stored()) + [NewTask(old(interactor.NextRef()), id, title, details, now)]
      ensures interactor.NextRef() == old(interactor.NextRef()) + 1
      ensures interactor.Double? ==> interactor.mock.CallsMade() == old(interactor.mock.CallsMade()).(add := true)
      ensures tasks == interactor.Fetched()
      ensures view.Shows(tasks) && view.reloadCount == old(view.reloadCount) + 1
    {
      match interactor {
        case Live(store) =>
          var added := store.AddTask(title, details, id, now, saveOk);
        case Double(mock) =>
          var added := mock.AddTask(title, details, id, now);
      }
      FetchTasks();
    }

    /** `updateTask`: updates through the interactor, then fetches whatever it reports. */
    method UpdateTask(task: Task, title: string, details: string, isCompleted: bool, saveOk: bool)
      requires Valid()
      modifies this, view, interactor.Object()
      ensures Valid()
      ensures interactor.Stored() == UpdateRef(old(interactor.Stored()), task.ref, title, details, isCompleted)
      ensures interactor.NextRef() == old(interactor.NextRef())
      ensures interactor.Double? ==> interactor.mock.CallsMade() == old(interactor.mock.CallsMade()).(update := true)
      ensures tasks == interactor.Fetched()
      ensures view.Shows(tasks) && view.reloadCount == old(view.reloadCount) + 1
    {
      match interactor {
        case Live(store) =>
          var updated := store.UpdateTask(task, title, details, isCompleted, saveOk);
        case Double(mock) =>
          var updated := mock.UpdateTask(task, title, details, isCompleted);
      }
      FetchTasks();
    }

    /** `deleteTask`: deletes through the interactor, then fetches whatever it reports. */
    method DeleteTask(task: Task, saveOk: bool)
      requires Valid()
      modifies this, view, interactor.Object()
      ensures Valid()
      ensures interactor.Stored() == RemoveFirst(old(interactor.Stored()), task.ref)
      ensures interactor.NextRef() == old(interactor.NextRef())
      ensures interactor.Double? ==> interactor.mock.CallsMade() == old(interactor.mock.CallsMade()).(delete := true)
      ensures tasks == interactor.Fetched()
      ensures view.Shows(tasks) && view.reloadCount == old(view.reloadCount) + 1
    {
      match interactor {
        case Live(store) =>
          var deleted := store.DeleteTask(task, saveOk);
        case Double(mock) =>
          var deleted := mock.DeleteTask(task);
      }
      FetchTasks();
    }

    /**
     * `searchTasks`: an empty query is a plain fetch; any other query
     * replaces the snapshot by the interactor's search result.
     */
    method SearchTasks(query: string)
      requires Valid()
      modifies this, view, interactor.Object()
      ensures Valid()
      ensures interactor.Stored() == old(interactor.Stored()) && interactor.NextRef() == old(interactor.NextRef())
      ensures interactor.Double? ==>
                interactor.mock.CallsMade() ==
                  old(interactor.mock.CallsMade()).(search := old(interactor.mock.searchTaskCalled) || query != [])
      ensures tasks == if query == [] then interactor.Fetched() else interactor.Searched(query)
      ensures view.Shows(tasks) && view.reloadCount == old(view.reloadCount) + 1
    {
      if query == [] {
        FetchTasks();
        return;
      }
      match interactor {
        case Live(store) =>
          tasks := store.SearchTasks(query);
        case Double(mock) =>
          tasks := mock.SearchTasks(query);
      }
      view.ReloadData(tasks);
    }
  }

  /**
   * Why the purge runs first: a store holding only untitled records keeps the
   * import gate closed on its own, but after the purge the import goes ahead.
   */
  lemma PurgeOpensImportGate(s: seq<Task>, todos: seq<DummyTodo>, now: int, base: nat)
    requires s != []
    requires forall t :: t in s ==> !HasTitle(t)
    ensures ImportIfEmpty(s, Some(todos), now, base) == s
    ensures Startup(s, Some(todos), now, base) == ImportedTasks(todos, now, base)
  {
    FilterNoneKept(s, Titled);
  }

  /** After start-up every stored record has a title, so the listing hides none of them. */
  lemma StartupListsEverything(s: seq<Task>, response: Option<seq<DummyTodo>>, now: int, base: nat)
    ensures forall t :: t in Startup(s, response, now, base) ==> HasTitle(t)
    ensures forall t :: t in Listed(Startup(s, response, now, base)) <==> t in Startup(s, response, now, base)
  {
    FilterMembers(s, Titled);
    if response.Some? {
      ImportedAreTitled(response.value, now, base);
    }
  }
}
