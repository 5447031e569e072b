/**
 * The task record, the remote todo record, and the collection rules shared by
 * the stores: the fetch filters, the newest-first ordering, in-place edits and
 * removals, and the conversion of imported todos into tasks.
 */
module TaskModel {
  import opened Wrappers
  import opened Text

  /**
   * A stored task. `ref` is the identity of the managed object that holds the
   * record: updates and deletions address the object, not its `id`, which the
   * application does not keep unique.
   */
  datatype Task = Task(
    ref: nat,
    id: int,
    title: Option<string>,
    details: string,
    createdAt: int,
    isCompleted: bool)

  /** One entry of the remote list: `{id, todo, completed}`. */
  datatype DummyTodo = DummyTodo(id: int, todo: string, completed: bool)

  /** Seconds in the synthetic spacing between imported tasks. */
  const SecondsPerHour := 3600

  /** A task created by an add: the given title and details, not completed, created now. */
  function NewTask(ref: nat, id: int, title: string, details: string, now: int): (t: Task)
    ensures HasTitle(t) <==> !IsBlank(title)
    ensures t.ref == ref && !t.isCompleted
  {
    Task(ref, id, Some(title), details, now, false)
  }

  /** The record a non-blank remote todo becomes: its id, trimmed text, no details, its flag, and `now - id` hours. */
  function FromTodo(d: DummyTodo, now: int, ref: nat): (t: Task)
    ensures HasTitle(t) <==> !IsBlank(d.todo)
    ensures t.ref == ref && t.id == d.id && t.isCompleted == d.completed
  {
    BlankIffTrimmedEmpty(d.todo);
    assert Trim(d.todo) != [] ==> !IsBlank(Trim(d.todo)) by {
      if Trim(d.todo) != [] {
        TrimmedIsNotBlank(d.todo);
      }
    }
    Task(ref, d.id, Some(Trim(d.todo)), "", now - d.id * SecondsPerHour, d.completed)
  }

  /** The selection rules of the fetch requests and of the filters applied to their results. */
  datatype Criterion =
    | /** Title present and not blank after trimming. */
      Titled
    | /** `title CONTAINS[cd] q OR details CONTAINS[cd] q`. */
      ContainsFolded(q: string)
    | /** `title.contains(q) || details.contains(q)`, case-sensitive. */
      ContainsExactly(q: string)

  /** A task that every read path returns: its title is present and not blank. */
  predicate HasTitle(t: Task) {
    t.title.Some? && !IsBlank(t.title.value)
  }

  /** `CONTAINS[cd]` on title or details. */
  predicate MatchesFolded(t: Task, q: string) {
    (t.title.Some? && Contains(Fold(t.title.value), Fold(q))) || Contains(Fold(t.details), Fold(q))
  }

  /** `contains` on title or details, case-sensitive. */
  predicate MatchesExactly(t: Task, q: string) {
    (t.title.Some? && Contains(t.title.value, q)) || Contains(t.details, q)
  }

  predicate Keeps(c: Criterion, t: Task) {
    match c
    case Titled => HasTitle(t)
    case ContainsFolded(q) => MatchesFolded(t, q)
    case ContainsExactly(q) => MatchesExactly(t, q)
  }

  /** The tasks of `s` that `c` keeps, in their order. */
  function Filter(s: seq<Task>, c: Criterion): (r: seq<Task>)
    ensures |r| <= |s|
  {
    if s == [] then []
    else Filter(s[..|s| - 1], c) + if Keeps(c, s[|s| - 1]) then [s[|s| - 1]] else []
  }

  /** A task is in the result exactly when it is in `s` and `c` keeps it. */
  lemma {:induction false} FilterMembers(s: seq<Task>, c: Criterion)
    ensures forall t :: t in Filter(s, c) <==> t in s && Keeps(c, t)
  {
    if s != [] {
      FilterMembers(s[..|s| - 1], c);
      assert s == s[..|s| - 1] + [s[|s| - 1]];
    }
  }

  /** Each kept task occurs in the result as often as in `s`; every other task not at all. */
  lemma {:induction false} FilterCount(s: seq<Task>, c: Criterion, t: Task)
    ensures multiset(Filter(s, c))[t] == if Keeps(c, t) then multiset(s)[t] else 0
  {
    if s != [] {
      FilterCount(s[..|s| - 1], c, t);
      assert s == s[..|s| - 1] + [s[|s| - 1]];
    }
  }

  /** When `c` keeps no task of `s`, nothing is left. */
  lemma {:induction false} FilterNoneKept(s: seq<Task>, c: Criterion)
    requires forall t :: t in s ==> !Keeps(c, t)
    ensures Filter(s, c) == []
  {
    if s != [] {
      var init := s[..|s| - 1];
      assert forall t :: t in init ==> t in s;
      FilterNoneKept(init, c);
      assert s[|s| - 1] in s;
    }
  }

  /** Filtering one more element of `s` appends it when `c` keeps it. */
  lemma FilterStep(s: seq<Task>, i: nat, c: Criterion)
    requires i < |s|
    ensures Filter(s[..i + 1], c) == Filter(s[..i], c) + if Keeps(c, s[i]) then [s[i]] else []
  {
    assert s[..i + 1][..i] == s[..i];
  }

  /** `r` is `s` with some elements left out and the rest in their order. */
  ghost predicate IsSubsequence(r: seq<Task>, s: seq<Task>)
    decreases |s|
  {
    if r == [] then true
    else if s == [] then false
    else (r[|r| - 1] == s[|s| - 1] && IsSubsequence(r[..|r| - 1], s[..|s| - 1]))
         || IsSubsequence(r, s[..|s| - 1])
  }

  /** Filtering keeps the stored order. */
  lemma {:induction false} FilterIsSubsequence(s: seq<Task>, c: Criterion)
    ensures IsSubsequence(Filter(s, c), s)
  {
    if s != [] {
      var init := s[..|s| - 1];
      var last := s[|s| - 1];
      FilterIsSubsequence(init, c);
      var r := Filter(s, c);
      if Keeps(c, last) {
        assert r == Filter(init, c) + [last];
        assert r[..|r| - 1] == Filter(init, c);
      } else {
        assert r == Filter(init, c);
      }
    }
  }

  /** Filtering twice with the same rule is filtering once. */
  lemma {:induction false} FilterIdempotent(s: seq<Task>, c: Criterion)
    ensures Filter(Filter(s, c), c) == Filter(s, c)
  {
    if s != [] {
      var init := s[..|s| - 1];
      var last := s[|s| - 1];
      FilterIdempotent(init, c);
      var r := Filter(s, c);
      if Keeps(c, last) {
        assert r == Filter(init, c) + [last];
        assert r[..|r| - 1] == Filter(init, c);
        assert Filter(r, c) == Filter(r[..|r| - 1], c) + [last];
      } else {
        assert r == Filter(init, c);
      }
    }
  }

  /** Newest first: `createdAt` never increases along the sequence. */
  ghost predicate NewestFirst(s: seq<Task>) {
    forall i, j :: 0 <= i < j < |s| ==> s[i].createdAt >= s[j].createdAt
  }

  /** Filtering an ordered sequence leaves it ordered. */
  lemma {:induction false} FilterKeepsNewestFirst(s: seq<Task>, c: Criterion)
    requires NewestFirst(s)
    ensures NewestFirst(Filter(s, c))
  {
    if s != [] {
      var init := s[..|s| - 1];
      var last := s[|s| - 1];
      FilterKeepsNewestFirst(init, c);
      var prev := Filter(init, c);
      FilterMembers(init, c);
      forall k | 0 <= k < |prev|
        ensures prev[k].createdAt >= last.createdAt
      {
        assert prev[k] in init;
        var j :| 0 <= j < |init| && init[j] == prev[k];
        assert s[j] == init[j];
      }
    }
  }

  /** Places `x` before the first task of `s` that is older than it, so ties keep `x` first. */
  function InsertNewestFirst(x: Task, s: seq<Task>): (r: seq<Task>)
    requires NewestFirst(s)
    ensures NewestFirst(r)
    ensures multiset(r) == multiset(s) + multiset{x}
    ensures |r| == |s| + 1 && (r[0] == x || (s != [] && r[0] == s[0]))
  {
    if s == [] || x.createdAt >= s[0].createdAt then [x] + s
    else
      assert s == [s[0]] + s[1..];
      [s[0]] + InsertNewestFirst(x, s[1..])
  }

  /**
   * The `createdAt`-descending sort of the fetch requests: a permutation of
   * `s` with the newest task first. Ties keep their stored order.
   */
  function SortNewestFirst(s: seq<Task>): (r: seq<Task>)
    ensures NewestFirst(r)
    ensures multiset(r) == multiset(s)
  {
    if s == [] then []
    else
      assert s == [s[0]] + s[1..];
      InsertNewestFirst(s[0], SortNewestFirst(s[1..]))
  }

  /** The same sort seen as a sequence: same length, same elements. */
  lemma SortIsPermutation(s: seq<Task>)
    ensures |SortNewestFirst(s)| == |s|
    ensures forall t :: t in SortNewestFirst(s) <==> t in s
  {
    var r := SortNewestFirst(s);
    assert |multiset(r)| == |multiset(s)|;
    forall t ensures t in r <==> t in s {
      assert t in r <==> t in multiset(r);
      assert t in s <==> t in multiset(s);
    }
  }

  /** The identities of the objects of `s`, in order. */
  ghost function Refs(s: seq<Task>): seq<nat> {
    seq(|s|, i requires 0 <= i < |s| => s[i].ref)
  }

  /** No two tasks are the same object. */
  ghost predicate DistinctRefs(s: seq<Task>) {
    forall i, j :: 0 <= i < j < |Refs(s)| ==> Refs(s)[i] != Refs(s)[j]
  }

  /** `DistinctRefs` read on the tasks themselves. */
  lemma DistinctRefsIff(s: seq<Task>)
    ensures DistinctRefs(s) <==> forall i, j :: 0 <= i < j < |s| ==> s[i].ref != s[j].ref
  {
    assert forall i :: 0 <= i < |s| ==> Refs(s)[i] == s[i].ref;
  }

  /** The invariant of a store that allocates identities from `nextRef` upwards. */
  ghost predicate StoreInvariant(s: seq<Task>, nextRef: nat) {
    DistinctRefs(s) && forall i :: 0 <= i < |s| ==> s[i].ref < nextRef
  }

  /** Inserting an object with the next identity keeps the invariant. */
  lemma AppendKeepsStoreInvariant(s: seq<Task>, t: Task, nextRef: nat)
    requires StoreInvariant(s, nextRef) && t.ref == nextRef
    ensures StoreInvariant(s + [t], nextRef + 1)
  {
    DistinctRefsIff(s);
    DistinctRefsIff(s + [t]);
  }

  /** Filtering a store keeps its invariant. */
  lemma {:induction false} FilterKeepsStoreInvariant(s: seq<Task>, c: Criterion, nextRef: nat)
    requires StoreInvariant(s, nextRef)
    ensures StoreInvariant(Filter(s, c), nextRef)
  {
    DistinctRefsIff(s);
    DistinctRefsIff(Filter(s, c));
    if s != [] {
      var init := s[..|s| - 1];
      var last := s[|s| - 1];
      DistinctRefsIff(init);
      FilterKeepsStoreInvariant(init, c, nextRef);
      var prev := Filter(init, c);
      DistinctRefsIff(prev);
      FilterMembers(init, c);
      forall k | 0 <= k < |prev|
        ensures prev[k].ref != last.ref
      {
        assert prev[k] in init;
        var j :| 0 <= j < |init| && init[j] == prev[k];
        assert s[j] == init[j];
      }
    }
  }

  /**
   * The setting of title, details and completion flag on the object `ref`
   * (Core Data property assignment): identity, `id` and `createdAt` are never
   * touched, and every other object is unchanged.
   */
  function UpdateRef(s: seq<Task>, ref: nat, title: string, details: string, isCompleted: bool): (r: seq<Task>)
    ensures |r| == |s|
    ensures forall i :: 0 <= i < |s| ==>
              r[i].ref == s[i].ref && r[i].id == s[i].id && r[i].createdAt == s[i].createdAt
    ensures forall i :: 0 <= i < |s| && s[i].ref != ref ==> r[i] == s[i]
    ensures forall i :: 0 <= i < |s| && s[i].ref == ref ==>
              r[i].title == Some(title) && r[i].details == details && r[i].isCompleted == isCompleted
  {
    seq(|s|, i requires 0 <= i < |s| =>
      if s[i].ref == ref then s[i].(title := Some(title), details := details, isCompleted := isCompleted)
      else s[i])
  }

  /** An update keeps the store invariant. */
  lemma UpdateKeepsStoreInvariant(s: seq<Task>, ref: nat, title: string, details: string, isCompleted: bool, nextRef: nat)
    requires StoreInvariant(s, nextRef)
    ensures StoreInvariant(UpdateRef(s, ref, title, details, isCompleted), nextRef)
  {
    DistinctRefsIff(s);
    DistinctRefsIff(UpdateRef(s, ref, title, details, isCompleted));
  }

  /** The first object `ref` taken out of `s`; the rest keep their order. */
  function RemoveFirst(s: seq<Task>, ref: nat): (r: seq<Task>)
  {
    if s == [] then []
    else if s[0].ref == ref then s[1..]
    else [s[0]] + RemoveFirst(s[1..], ref)
  }

  /** Removing at the first position that holds `ref` is `RemoveFirst`. */
  lemma {:induction false} RemoveFirstAt(s: seq<Task>, ref: nat, k: nat)
    requires k < |s| && s[k].ref == ref
    requires forall j :: 0 <= j < k ==> s[j].ref != ref
    ensures RemoveFirst(s, ref) == s[..k] + s[k + 1..]
  {
    if k > 0 {
      RemoveFirstAt(s[1..], ref, k - 1);
      assert s[1..][..k - 1] == s[1..k];
      assert s[..k] == [s[0]] + s[1..k];
    }
  }

  /** Removing an object that is not there changes nothing. */
  lemma {:induction false} RemoveFirstAbsent(s: seq<Task>, ref: nat)
    requires forall j :: 0 <= j < |s| ==> s[j].ref != ref
    ensures RemoveFirst(s, ref) == s
  {
    if s != [] {
      RemoveFirstAbsent(s[1..], ref);
    }
  }

  /**
   * In a store whose objects are distinct, removing `ref` leaves exactly the
   * other objects: nothing else is lost and `ref` is gone.
   */
  lemma {:induction false} RemoveFirstExact(s: seq<Task>, ref: nat)
    requires DistinctRefs(s)
    ensures DistinctRefs(RemoveFirst(s, ref))
    ensures forall t :: t in RemoveFirst(s, ref) <==> t in s && t.ref != ref
  {
    DistinctRefsIff(s);
    DistinctRefsIff(RemoveFirst(s, ref));
    if s != [] {
      var rest := RemoveFirst(s[1..], ref);
      DistinctRefsIff(s[1..]);
      DistinctRefsIff(rest);
      RemoveFirstExact(s[1..], ref);
      if s[0].ref == ref {
        forall t | t in s[1..] ensures t.ref != ref {
          var j :| 0 <= j < |s[1..]| && s[1..][j] == t;
          assert s[j + 1] == t;
        }
      } else {
        forall j | 0 <= j < |rest| ensures rest[j].ref != s[0].ref {
          assert rest[j] in rest;
          var k :| 0 <= k < |s[1..]| && s[1..][k] == rest[j];
          assert s[k + 1] == rest[j];
        }
      }
    }
  }

  /** The remote todos whose text is not blank, in their order. */
  function KeptTodos(todos: seq<DummyTodo>): (r: seq<DummyTodo>)
  {
    if todos == [] then []
    else KeptTodos(todos[..|todos| - 1]) + if IsBlank(todos[|todos| - 1].todo) then [] else [todos[|todos| - 1]]
  }

  /** A todo is kept exactly when it is in the list and its text is not blank. */
  lemma {:induction false} KeptTodosMembers(todos: seq<DummyTodo>)
    ensures forall d :: d in KeptTodos(todos) <==> d in todos && !IsBlank(d.todo)
  {
    if todos != [] {
      KeptTodosMembers(todos[..|todos| - 1]);
      assert todos == todos[..|todos| - 1] + [todos[|todos| - 1]];
    }
  }

  /**
   * What an import of `todos` inserts: one task per non-blank todo, in the
   * order of the list, on consecutive fresh identities from `base`.
   */
  function ImportedTasks(todos: seq<DummyTodo>, now: int, base: nat): (r: seq<Task>)
  {
    Converted(KeptTodos(todos), now, base)
  }

  /** The tasks `kept` becomes, the `k`-th on identity `base + k`. */
  function Converted(kept: seq<DummyTodo>, now: int, base: nat): (r: seq<Task>)
    ensures |r| == |kept|
  {
    if kept == [] then []
    else Converted(kept[..|kept| - 1], now, base) + [FromTodo(kept[|kept| - 1], now, base + |kept| - 1)]
  }

  /** The `k`-th converted task is the `k`-th todo's, on identity `base + k`. */
  lemma {:induction false} ConvertedAt(kept: seq<DummyTodo>, now: int, base: nat, k: nat)
    requires k < |kept|
    ensures Converted(kept, now, base)[k] == FromTodo(kept[k], now, base + k)
  {
    if k < |kept| - 1 {
      ConvertedAt(kept[..|kept| - 1], now, base, k);
    }
  }

  /** One more todo is kept exactly when its text is not blank. */
  lemma KeptTodosStep(todos: seq<DummyTodo>, i: nat)
    requires i < |todos|
    ensures KeptTodos(todos[..i + 1]) == KeptTodos(todos[..i]) + if IsBlank(todos[i].todo) then [] else [todos[i]]
  {
    var prefix := todos[..i + 1];
    assert prefix[..|prefix| - 1] == todos[..i] && prefix[|prefix| - 1] == todos[i];
  }

  /** Importing one more todo appends at most one task. */
  lemma ImportedTasksStep(todos: seq<DummyTodo>, i: nat, now: int, base: nat)
    requires i < |todos|
    ensures ImportedTasks(todos[..i + 1], now, base) ==
            ImportedTasks(todos[..i], now, base) +
            if IsBlank(todos[i].todo) then []
            else [FromTodo(todos[i], now, base + |ImportedTasks(todos[..i], now, base)|)]
  {
    if IsBlank(todos[i].todo) {
      ImportedBlankStep(todos, i, now, base);
      assert ImportedTasks(todos[..i], now, base) + [] == ImportedTasks(todos[..i], now, base);
    } else {
      ImportedKeptStep(todos, i, now, base);
    }
  }

  /** A blank todo adds nothing to the import. */
  lemma ImportedBlankStep(todos: seq<DummyTodo>, i: nat, now: int, base: nat)
    requires i < |todos| && IsBlank(todos[i].todo)
    ensures ImportedTasks(todos[..i + 1], now, base) == ImportedTasks(todos[..i], now, base)
  {
    KeptTodosStep(todos, i);
    assert KeptTodos(todos[..i]) + [] == KeptTodos(todos[..i]);
  }

  /** A todo with text adds its task on the next identity. */
  lemma ImportedKeptStep(todos: seq<DummyTodo>, i: nat, now: int, base: nat)
    requires i < |todos| && !IsBlank(todos[i].todo)
    ensures ImportedTasks(todos[..i + 1], now, base) ==
            ImportedTasks(todos[..i], now, base) + [FromTodo(todos[i], now, base + |ImportedTasks(todos[..i], now, base)|)]
  {
    KeptTodosStep(todos, i);
    var kept := KeptTodos(todos[..i]);
    var done := Converted(kept, now, base);
    var t := FromTodo(todos[i], now, base + |kept|);
    ConvertedAppend(kept, todos[i], now, base);
    assert ImportedTasks(todos[..i + 1], now, base) == Converted(kept + [todos[i]], now, base);
    assert ImportedTasks(todos[..i], now, base) == done;
    assert ImportedTasks(todos[..i + 1], now, base) == done + [t];
    assert FromTodo(todos[i], now, base + |ImportedTasks(todos[..i], now, base)|) == t;
  }

  /** Converting one more todo appends its task on the next identity. */
  lemma ConvertedAppend(kept: seq<DummyTodo>, d: DummyTodo, now: int, base: nat)
    ensures Converted(kept + [d], now, base) == Converted(kept, now, base) + [FromTodo(d, now, base + |kept|)]
  {
    assert (kept + [d])[..|kept|] == kept;
  }

  /** Every imported task is visible: its title is the trimmed, non-blank text. */
  lemma ImportedAreTitled(todos: seq<DummyTodo>, now: int, base: nat)
    ensures forall t :: t in ImportedTasks(todos, now, base) ==> HasTitle(t)
  {
    var r := ImportedTasks(todos, now, base);
    forall k | 0 <= k < |r| ensures HasTitle(r[k]) {
      ImportedTitledAt(todos, now, base, k);
    }
  }

  /** The task imported at position `k` has a title. */
  lemma ImportedTitledAt(todos: seq<DummyTodo>, now: int, base: nat, k: nat)
    requires k < |ImportedTasks(todos, now, base)|
    ensures HasTitle(ImportedTasks(todos, now, base)[k])
  {
    var d := KeptTodos(todos)[k];
    KeptTodosMembers(todos);
    assert d in KeptTodos(todos);
    ConvertedAt(KeptTodos(todos), now, base, k);
  }

  /**
   * The synthetic spacing: an imported task with a larger remote id is older,
   * by exactly one hour per unit of id.
   */
  lemma ImportedSpacing(a: DummyTodo, b: DummyTodo, now: int, ra: nat, rb: nat)
    requires a.id < b.id
    ensures FromTodo(b, now, rb).createdAt < FromTodo(a, now, ra).createdAt
    ensures FromTodo(a, now, ra).createdAt - FromTodo(b, now, rb).createdAt == (b.id - a.id) * SecondsPerHour
  {
  }

  /**
   * An import gives consecutive identities from `base`, all fresh with
   * respect to a store whose identities lie below `base`, and the imported
   * store keeps the invariant.
   */
  lemma ImportedStoreInvariant(todos: seq<DummyTodo>, now: int, base: nat)
    ensures forall k :: 0 <= k < |ImportedTasks(todos, now, base)| ==> ImportedTasks(todos, now, base)[k].ref == base + k
    ensures StoreInvariant(ImportedTasks(todos, now, base), base + |ImportedTasks(todos, now, base)|)
  {
    var r := ImportedTasks(todos, now, base);
    forall k | 0 <= k < |r|
      ensures r[k].ref == base + k
    {
      ConvertedAt(KeptTodos(todos), now, base, k);
    }
    DistinctRefsIff(r);
    assert forall i :: 0 <= i < |r| ==> r[i].ref < base + |r|;
  }
}
