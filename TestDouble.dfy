/**
 * The in-memory interactor of the test target: a plain array of task objects,
 * no listing rules, and one flag per operation recording that it was called.
 */
module TestDouble {
  import opened Wrappers
  import opened Text
  import opened TaskModel
  import opened Interactor

  /** The five call flags of the double, in declaration order. */
  datatype Calls = Calls(add: bool, update: bool, delete: bool, search: bool, load: bool)

  /** `firstIndex(of:)` on task objects: the first position holding the object `ref`. */
  function FirstIndex(s: seq<Task>, ref: nat): (r: Option<nat>)
    ensures r.Some? ==> r.value < |s| && s[r.value].ref == ref &&
                        forall j :: 0 <= j < r.value ==> s[j].ref != ref
    ensures r.None? ==> forall j :: 0 <= j < |s| ==> s[j].ref != ref
  {
    if s == [] then None
    else if s[0].ref == ref then Some(0)
    else match FirstIndex(s[1..], ref)
      case None => None
      case Some(k) => Some(k + 1)
  }

  class MockInteractor {
    var tasks: seq<Task>
    /** The identity the next object created by `addTask` receives. */
    var nextRef: nat
    var addTaskCalled: bool
    var updateTaskCalled: bool
    var deleteTaskCalled: bool
    var searchTaskCalled: bool
    var loadFromAPICalled: bool

    /** The calls recorded so far. */
    function CallsMade(): Calls
      reads this
    {
      Calls(addTaskCalled, updateTaskCalled, deleteTaskCalled, searchTaskCalled, loadFromAPICalled)
    }

    ghost predicate Valid()
      reads this
    {
      StoreInvariant(tasks, nextRef)
    }

    /** A double with no tasks and no call recorded. */
    constructor ()
      ensures Valid() && tasks == [] && nextRef == 0
      ensures !addTaskCalled && !updateTaskCalled && !deleteTaskCalled
      ensures !searchTaskCalled && !loadFromAPICalled
    {
      tasks := [];
      nextRef := 0;
      addTaskCalled, updateTaskCalled, deleteTaskCalled := false, false, false;
      searchTaskCalled, loadFromAPICalled := false, false;
    }

    /** `fetchTasks`: the array as it stands, unfiltered and unsorted. */
    function FetchTasks(): (r: seq<Task>)
      reads this
      ensures r == tasks
    {
      tasks
    }

    /** `addTask`: appends one new object, not completed, created now, and reports it. */
    method AddTask(title: string, details: string, id: int, now: int) returns (task: Task)
      requires Valid()
      modifies this
      ensures Valid()
      ensures task == NewTask(old(nextRef), id, title, details, now)
      ensures tasks == old(tasks) + [task] && nextRef == old(nextRef) + 1
      ensures addTaskCalled
      ensures updateTaskCalled == old(updateTaskCalled) && deleteTaskCalled == old(deleteTaskCalled)
      ensures searchTaskCalled == old(searchTaskCalled) && loadFromAPICalled == old(loadFromAPICalled)
    {
      addTaskCalled := true;
      task := NewTask(nextRef, id, title, details, now);
      AppendKeepsStoreInvariant(tasks, task, nextRef);
      tasks := tasks + [task];
      nextRef := nextRef + 1;
    }

    /** `updateTask`: sets title, details and completion flag of the object `task`; always reports success. */
    method UpdateTask(task: Task, title: string, details: string, isCompleted: bool) returns (updated: bool)
      requires Valid()
      modifies this
      ensures Valid()
      ensures tasks == UpdateRef(old(tasks), task.ref, title, details, isCompleted)
      ensures nextRef == old(nextRef) && updated
      ensures updateTaskCalled
      ensures addTaskCalled == old(addTaskCalled) && deleteTaskCalled == old(deleteTaskCalled)
      ensures searchTaskCalled == old(searchTaskCalled) && loadFromAPICalled == old(loadFromAPICalled)
    {
      updateTaskCalled := true;
      UpdateKeepsStoreInvariant(tasks, task.ref, title, details, isCompleted, nextRef);
      tasks := UpdateRef(tasks, task.ref, title, details, isCompleted);
      updated := true;
    }

    /**
     * `deleteTask`: removes the object `task` at its first position, if it is
     * there at all; always reports success.
     */
    method DeleteTask(task: Task) returns (deleted: bool)
      requires Valid()
      modifies this
      ensures Valid()
      ensures tasks == RemoveFirst(old(tasks), task.ref)
      ensures nextRef == old(nextRef) && deleted
      ensures deleteTaskCalled
      ensures addTaskCalled == old(addTaskCalled) && updateTaskCalled == old(updateTaskCalled)
      ensures searchTaskCalled == old(searchTaskCalled) && loadFromAPICalled == old(loadFromAPICalled)
    {
      deleteTaskCalled := true;
      RemoveFirstExact(tasks, task.ref);
      match FirstIndex(tasks, task.ref) {
        case Some(idx) =>
          RemoveFirstAt(tasks, task.ref, idx);
          tasks := tasks[..idx] + tasks[idx + 1..];
        case None =>
          RemoveFirstAbsent(tasks, task.ref);
      }
      deleted := true;
    }

    /** `searchTasks`: the tasks, in array order, whose title or details contain `query` exactly. */
    method SearchTasks(query: string) returns (found: seq<Task>)
      modifies this
      ensures found == Filter(tasks, ContainsExactly(query))
      ensures tasks == old(tasks) && nextRef == old(nextRef)
      ensures searchTaskCalled
      ensures addTaskCalled == old(addTaskCalled) && updateTaskCalled == old(updateTaskCalled)
      ensures deleteTaskCalled == old(deleteTaskCalled) && loadFromAPICalled == old(loadFromAPICalled)
    {
      searchTaskCalled := true;
      found := Filter(tasks, ContainsExactly(query));
    }

    /** `loadTasksFromAPIIfNeeded`: never imports anything and reports failure. */
    method LoadTasksFromAPIIfNeeded() returns (loaded: bool)
      modifies this
      ensures !loaded
      ensures tasks == old(tasks) && nextRef == old(nextRef)
      ensures loadFromAPICalled
      ensures addTaskCalled == old(addTaskCalled) && updateTaskCalled == old(updateTaskCalled)
      ensures deleteTaskCalled == old(deleteTaskCalled) && searchTaskCalled == old(searchTaskCalled)
    {
      loadFromAPICalled := true;
      loaded := false;
    }
  }

  /**
   * The search of the double, in store order: exactly the tasks of the store
   * whose title or details contain `query`, each as often as it is stored.
   */
  lemma ExactSearchContents(s: seq<Task>, query: string)
    ensures IsSubsequence(Filter(s, ContainsExactly(query)), s)
    ensures forall t :: t in Filter(s, ContainsExactly(query)) <==> t in s && MatchesExactly(t, query)
    ensures forall t :: multiset(Filter(s, ContainsExactly(query)))[t] ==
                        if MatchesExactly(t, query) then multiset(s)[t] else 0
  {
    FilterIsSubsequence(s, ContainsExactly(query));
    FilterMembers(s, ContainsExactly(query));
    forall t ensures multiset(Filter(s, ContainsExactly(query)))[t] ==
                     if MatchesExactly(t, query) then multiset(s)[t] else 0 {
      FilterCount(s, ContainsExactly(query), t);
    }
  }

  /**
   * The double lists what the production store hides: its fetch returns every
   * stored task, untitled ones included, where the production listing drops them.
   */
  lemma DoubleListsUntitled(m: MockInteractor, t: Task)
    requires t in m.tasks && !HasTitle(t)
    ensures t in m.FetchTasks() && t !in Listed(m.tasks)
  {
  }

  /**
   * The double's case-sensitive match is finer than the production store's
   * folded match: a task the double finds is also found by `CONTAINS[cd]`.
   */
  lemma ExactMatchIsFolded(t: Task, query: string)
    requires MatchesExactly(t, query)
    ensures MatchesFolded(t, query)
  {
    if t.title.Some? && Contains(t.title.value, query) {
      FoldKeepsContains(t.title.value, query);
    } else {
      FoldKeepsContains(t.details, query);
    }
  }
}
