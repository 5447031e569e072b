/**
 * The production interactor: the task store behind the list screen. The
 * managed-object context is a sequence of task records in insertion order;
 * fetches see every change made to it, saved or not.
 */
module Interactor {
  import opened Wrappers
  import opened Text
  import opened TaskModel

  /**
   * The list query: the tasks with a title, newest first. Every titled task
   * of `s` is listed and nothing else is.
   */
  function Listed(s: seq<Task>): (r: seq<Task>)
    ensures NewestFirst(r)
    ensures forall t :: t in r <==> t in s && HasTitle(t)
  {
    var sorted := SortNewestFirst(s);
    SortIsPermutation(s);
    FilterKeepsNewestFirst(sorted, Titled);
    FilterMembers(sorted, Titled);
    Filter(sorted, Titled)
  }

  /**
   * The search query: the titled tasks whose title or details contain `query`
   * ignoring case and diacritics, newest first.
   */
  function Found(s: seq<Task>, query: string): (r: seq<Task>)
    ensures NewestFirst(r)
    ensures forall t :: t in r <==> t in s && HasTitle(t) && Keeps(ContainsFolded(query), t)
  {
    var matching := Filter(s, ContainsFolded(query));
    var sorted := SortNewestFirst(matching);
    FilterMembers(s, ContainsFolded(query));
    SortIsPermutation(matching);
    FilterKeepsNewestFirst(sorted, Titled);
    FilterMembers(sorted, Titled);
    Filter(sorted, Titled)
  }

  /** The listing keeps every titled task as often as the store holds it. */
  lemma ListedCount(s: seq<Task>, t: Task)
    ensures multiset(Listed(s))[t] == if HasTitle(t) then multiset(s)[t] else 0
  {
    FilterCount(SortNewestFirst(s), Titled, t);
  }

  /** The search keeps every matching titled task as often as the store holds it. */
  lemma FoundCount(s: seq<Task>, query: string, t: Task)
    ensures multiset(Found(s, query))[t] ==
            if HasTitle(t) && MatchesFolded(t, query) then multiset(s)[t] else 0
  {
    var matching := Filter(s, ContainsFolded(query));
    FilterCount(s, ContainsFolded(query), t);
    FilterCount(SortNewestFirst(matching), Titled, t);
  }

  /**
   * After a delete the object is gone from the listing, and every other
   * listed object is still listed.
   */
  lemma DeletedNotListed(s: seq<Task>, ref: nat)
    requires DistinctRefs(s)
    ensures forall t :: t in Listed(RemoveFirst(s, ref)) <==> t in Listed(s) && t.ref != ref
  {
    RemoveFirstExact(s, ref);
  }

  /**
   * The purge keeps exactly the titled tasks, each as often as before, in
   * their order.
   */
  lemma PurgeContents(s: seq<Task>)
    ensures IsSubsequence(Filter(s, Titled), s)
    ensures forall t :: t in Filter(s, Titled) <==> t in s && HasTitle(t)
    ensures forall t :: HasTitle(t) ==> multiset(Filter(s, Titled))[t] == multiset(s)[t]
  {
    FilterIsSubsequence(s, Titled);
    FilterMembers(s, Titled);
    forall t | HasTitle(t) ensures multiset(Filter(s, Titled))[t] == multiset(s)[t] {
      FilterCount(s, Titled, t);
    }
  }

  /**
   * What the one-shot import leaves in the store: the store itself when it
   * holds any record (blank ones included) or when nothing was received,
   * otherwise the imported tasks.
   */
  function ImportIfEmpty(s: seq<Task>, response: Option<seq<DummyTodo>>, now: int, base: nat): (r: seq<Task>)
    ensures |s| != 0 || response.None? ==> r == s
    ensures |s| == 0 && response.Some? ==> forall t :: t in r ==> HasTitle(t)
  {
    ImportedAreTitled(response.GetOr([]), now, base);
    if |s| != 0 || response.None? then s else ImportedTasks(response.value, now, base)
  }

  /**
   * One step of the purge: the object under inspection sits right after the
   * objects already kept; deleting it there, or keeping it, extends the
   * filtered prefix by one element of the snapshot.
   */
  lemma PurgeStep(tasks: seq<Task>, fetched: seq<Task>, i: nat, kept: nat)
    requires i < |fetched|
    requires tasks == Filter(fetched[..i], Titled) + fetched[i..]
    requires kept == |Filter(fetched[..i], Titled)|
    ensures kept < |tasks| && tasks[kept] == fetched[i]
    ensures HasTitle(fetched[i]) ==>
              tasks == Filter(fetched[..i + 1], Titled) + fetched[i + 1..] &&
              kept + 1 == |Filter(fetched[..i + 1], Titled)|
    ensures !HasTitle(fetched[i]) ==>
              tasks[..kept] + tasks[kept + 1..] == Filter(fetched[..i + 1], Titled) + fetched[i + 1..] &&
              kept == |Filter(fetched[..i + 1], Titled)|
  {
    FilterStep(fetched, i, Titled);
    assert tasks[..kept] == Filter(fetched[..i], Titled);
    assert tasks[kept + 1..] == fetched[i + 1..];
  }

  /**
   * The purge loop of `removeEmptyTasks`: walks the fetched snapshot and
   * deletes from the context every object without a visible title. The
   * deletions close up the context, so the object under inspection always
   * sits right after the objects kept so far.
   */
  method Purge(fetched: seq<Task>) returns (context: seq<Task>)
    ensures context == Filter(fetched, Titled)
  {
    context := fetched;
    var i, kept := 0, 0;
    while i < |fetched|
      invariant 0 <= i <= |fetched|
      invariant context == Filter(fetched[..i], Titled) + fetched[i..]
      invariant kept == |Filter(fetched[..i], Titled)|
    {
      PurgeStep(context, fetched, i, kept);
      if !HasTitle(fetched[i]) {
        context := context[..kept] + context[kept + 1..];
      } else {
        kept := kept + 1;
      }
      i := i + 1;
    }
    assert fetched[..i] == fetched;
    assert context == Filter(fetched, Titled) + [];
  }

  /** One step of the import: a todo with text adds its task, a blank one nothing. */
  lemma ImportStep(context: seq<Task>, todos: seq<DummyTodo>, i: nat, now: int, base: nat)
    requires i < |todos|
    requires context == ImportedTasks(todos[..i], now, base)
    ensures Trim(todos[i].todo) != [] ==>
              context + [FromTodo(todos[i], now, base + |context|)] == ImportedTasks(todos[..i + 1], now, base)
    ensures Trim(todos[i].todo) == [] ==> context == ImportedTasks(todos[..i + 1], now, base)
  {
    BlankIffTrimmedEmpty(todos[i].todo);
    ImportedTasksStep(todos, i, now, base);
  }

  /**
   * The import loop of `loadTasksFromAPIIfNeeded`: inserts, in order, one
   * object per todo whose trimmed text is not empty, each on the next
   * identity from `base`.
   */
  method Import(todos: seq<DummyTodo>, now: int, base: nat) returns (context: seq<Task>)
    ensures context == ImportedTasks(todos, now, base)
  {
    context := [];
    var i := 0;
    while i < |todos|
      invariant 0 <= i <= |todos|
      invariant context == ImportedTasks(todos[..i], now, base)
    {
      ImportStep(context, todos, i, now, base);
      if Trim(todos[i].todo) != [] {
        context := context + [FromTodo(todos[i], now, base + |context|)];
      }
      i := i + 1;
    }
    assert todos[..i] == todos;
  }

  class ToDoListInteractor {
    /** The records of the context, in insertion order. */
    var tasks: seq<Task>
    /** The identity the next inserted object receives. */
    var nextRef: nat

    ghost predicate Valid()
      reads this
    {
      StoreInvariant(tasks, nextRef)
    }

    /** An interactor over an empty store. */
    constructor ()
      ensures Valid() && tasks == [] && nextRef == 0
    {
      tasks := [];
      nextRef := 0;
    }

    /** `fetchTasks`: the listing of the store. */
    function FetchTasks(): (r: seq<Task>)
      reads this
      ensures NewestFirst(r)
      ensures forall t :: t in r <==> t in tasks && HasTitle(t)
    {
      Listed(tasks)
    }

    /** `searchTasks`: the search over the store. */
    function SearchTasks(query: string): (r: seq<Task>)
      reads this
      ensures NewestFirst(r)
      ensures forall t :: t in r <==> t in tasks && HasTitle(t) && MatchesFolded(t, query)
    {
      Found(tasks, query)
    }

    /**
     * `addTask`: inserts one new object, not completed, created now, and
     * reports it when the save succeeds. A failed save leaves the insertion
     * pending in the context.
     */
    method AddTask(title: string, details: string, id: int, now: int, saveOk: bool) returns (added: Option<Task>)
      requires Valid()
      modifies this
      ensures Valid()
      ensures tasks == old(tasks) + [NewTask(old(nextRef), id, title, details, now)]
      ensures nextRef == old(nextRef) + 1
      ensures added == if saveOk then Some(NewTask(old(nextRef), id, title, details, now)) else None
    {
      var task := NewTask(nextRef, id, title, details, now);
      AppendKeepsStoreInvariant(tasks, task, nextRef);
      tasks := tasks + [task];
      nextRef := nextRef + 1;
      added := if saveOk then Some(task) else None;
    }

    /**
     * `updateTask`: sets title, details and completion flag of the object
     * `task` and reports the save outcome.
     */
    method UpdateTask(task: Task, title: string, details: string, isCompleted: bool, saveOk: bool) returns (updated: bool)
      requires Valid()
      modifies this
      ensures Valid()
      ensures tasks == UpdateRef(old(tasks), task.ref, title, details, isCompleted)
      ensures nextRef == old(nextRef)
      ensures updated == saveOk
    {
      UpdateKeepsStoreInvariant(tasks, task.ref, title, details, isCompleted, nextRef);
      tasks := UpdateRef(tasks, task.ref, title, details, isCompleted);
      updated := saveOk;
    }

    /** `deleteTask`: removes the object `task` and reports the save outcome. */
    method DeleteTask(task: Task, saveOk: bool) returns (deleted: bool)
      requires Valid()
      modifies this
      ensures Valid()
      ensures tasks == RemoveFirst(old(tasks), task.ref)
      ensures nextRef == old(nextRef)
      ensures deleted == saveOk
    {
      RemoveFirstExact(tasks, task.ref);
      tasks := RemoveFirst(tasks, task.ref);
      deleted := saveOk;
    }

    /**
     * `loadTasksFromAPIIfNeeded`, given the decoded response (`None` when the
     * transfer or the decoding failed). The gate counts every record, blank
     * ones included; the import itself inserts the non-blank todos one by one
     * and reports success whatever the save does.
     */
    method LoadTasksFromAPIIfNeeded(response: Option<seq<DummyTodo>>, now: int) returns (loaded: bool)
      requires Valid()
      modifies this
      ensures Valid()
      ensures loaded == (|old(tasks)| == 0 && response.Some?)
      ensures |old(tasks)| != 0 ==> tasks == old(tasks)
      ensures tasks == ImportIfEmpty(old(tasks), response, now, old(nextRef))
      ensures nextRef == old(nextRef) + |tasks| - |old(tasks)|
    {
      if |tasks| != 0 {
        return false;
      }
      if response.None? {
        return false;
      }
      tasks := Import(response.value, now, nextRef);
      nextRef := nextRef + |tasks|;
      ImportedStoreInvariant(response.value, now, old(nextRef));
      return true;
    }

    /**
     * `removeEmptyTasks`: deletes every object whose title is missing or
     * blank; every other object stays, in its order.
     */
    method RemoveEmptyTasks()
      requires Valid()
      modifies this
      ensures Valid()
      ensures tasks == Filter(old(tasks), Titled)
      ensures nextRef == old(nextRef)
    {
      FilterKeepsStoreInvariant(tasks, Titled, nextRef);
      tasks := Purge(tasks);
    }
  }
}
