# ToDoApp task list — a Dafny model

This project models the data logic behind the task-list screen of the ToDoApp iOS
application:

- **`ToDoListInteractor`**, the Core Data task store. It covers listing, search, add,
  update, delete, the start-up purge of untitled tasks and the one-shot import of the
  remote todo list.
- **`ToDoListPresenter`**, which keeps the snapshot of tasks the screen shows. It
  refreshes the snapshot after every change and fixes the start-up order: purge, then
  import, then fetch.
- **`MockInteractor`**, the in-memory store of the test target, together with the
  scenarios its test cases state.
- **The part of `ToDoListViewController` that the data drives**: the task-count label,
  the empty-list placeholder, the empty-title guard of the add and edit dialogs, and the
  completion checkbox.

Modules, one per file:

| module | models |
|---|---|
| `Wrappers` | Swift optionals (`Option`, with `GetOr` for `??`) |
| `Text` | `trimmingCharacters(in: .whitespacesAndNewlines)`, the folding behind `CONTAINS[cd]`, and substring containment |
| `TaskModel` | the `Task` record and the remote `DummyTodo` record, plus the collection rules both stores share: filters, newest-first order, in-place update, removal of an object, and conversion of imported todos |
| `Interactor` | `ToDoListInteractor` as a class over the context's records, plus the fetch and search queries |
| `TestDouble` | `MockInteractor` as a class with its array and call flags |
| `ListView` | the count label rule and the screen state that `reloadData` sets |
| `Presenter` | `ToDoListPresenter`, over either interactor |
| `ListActions` | the dialog and checkbox handlers that call the presenter |
| `Scenarios` | the test cases of `ToDoAppTests`, as client methods over fresh objects |

Modelling choices:

- **Object identity.** A task object is a `Task` value with an extra `ref`, the identity
  of its managed object. Update and delete address the object, as the application does.
  `id` is not unique in the application: two adds in the same millisecond collide, and
  imported ids can meet added ones.
- **Store invariant.** Each store hands out identities from `nextRef` upwards. Its
  invariant is that identities are distinct and below `nextRef`.
- **Save failures.** A failed save is a `saveOk` parameter. It changes only what the
  operation reports, because the background context keeps the unsaved change and later
  fetches see it.
- **Time and ids.** Clock readings and generated ids are parameters.
- **Completion handlers.** They run in submission order, so every callback chain is a
  sequence of calls.
- **Update or delete of an absent object.** The code has no "not found" case. An update
  or delete that targets an object the store does not hold leaves the store unchanged,
  and the reported flag is the save outcome.

## Model

| member | source | states |
|---|---|---|
| Text.Trim | ToDoApp/ToDoList/Interactor/ToDoListInteractor.swift:107 | trimming yields the piece `s[a..b]` of the text with only whitespace before `a` and after `b`; unless empty, it starts and ends with a character outside `whitespacesAndNewlines` |
| Text.BlankIffTrimmedEmpty | ToDoApp/ToDoList/Interactor/ToDoListInteractor.swift:24 | a title is blank (all whitespace) exactly when trimming it leaves the empty string, the test the fetch applies |
| Text.TrimIdempotent | ToDoApp/ToDoList/Interactor/ToDoListInteractor.swift:107 | trimming twice equals trimming once |
| Text.TrimmedIsNotBlank | ToDoApp/ToDoList/Interactor/ToDoListInteractor.swift:107-111 | a non-empty trimmed text is not blank, so an imported title is always visible |
| Text.FoldStable | ToDoApp/ToDoList/Interactor/ToDoListInteractor.swift:78 | folding a folded text changes nothing, so folded forms are canonical |
| Text.FoldIgnoresCase | ToDoApp/ToDoList/Interactor/ToDoListInteractor.swift:78 | texts that differ only in the case of their letters fold to the same text |
| Text.FoldedContainsIgnoresCase | ToDoApp/ToDoList/Interactor/ToDoListInteractor.swift:78 | `CONTAINS[c]`: changing the case of letters in the text or the query never changes whether they match |
| Text.FoldStripsDiacritics | ToDoApp/ToDoList/Interactor/ToDoListInteractor.swift:78 | `CONTAINS[d]`: every accented Latin-1 letter, and "ё" and "й", of either case folds to its base letter |
| Text.FoldExamples | ToDoApp/ToDoList/Interactor/ToDoListInteractor.swift:78 | "Café" folds like "CAFE", and "ёлка" like "ЕЛКА" |
| Text.ContainsIffOccurs | ToDoApp/ToDoList/Interactor/ToDoListInteractor.swift:78 | `Contains` holds exactly when the query occurs at some offset of the text |
| Text.LongerNeverContained | ToDoApp/ToDoList/Interactor/ToDoListInteractor.swift:78 | a query longer than the text is never contained |
| Text.FoldKeepsContains | ToDoApp/ToDoList/Interactor/ToDoListInteractor.swift:78 | folding both sides keeps every match |
| TaskModel.NewTask | ToDoApp/ToDoList/Interactor/ToDoListInteractor.swift:31-36 | an added task starts not completed on the given identity, and it is listable exactly when its title is not blank |
| TaskModel.FromTodo | ToDoApp/ToDoList/Interactor/ToDoListInteractor.swift:107-117 | an imported task keeps the remote id and flag, and it is listable exactly when the todo's text is not blank |
| TaskModel.FilterMembers | ToDoApp/ToDoList/Interactor/ToDoListInteractor.swift:24 | a task is in a filter's result exactly when it is in the input and the criterion keeps it |
| TaskModel.FilterCount | ToDoApp/ToDoList/Interactor/ToDoListInteractor.swift:24 | a filter keeps every kept task as often as the input holds it, and drops every other task |
| TaskModel.FilterNoneKept | ToDoApp/ToDoList/Interactor/ToDoListInteractor.swift:24 | when the criterion keeps no task of the input, the result is empty |
| TaskModel.FilterIsSubsequence | ToDoApp/ToDoList/Interactor/ToDoListInteractor.swift:24 | a filter keeps the input's order |
| TaskModel.FilterIdempotent | ToDoApp/ToDoList/Interactor/ToDoListInteractor.swift:130-144 | filtering twice with one criterion equals filtering once; at `Titled`, a second purge deletes nothing |
| TaskModel.FilterKeepsNewestFirst | ToDoApp/ToDoList/Interactor/ToDoListInteractor.swift:22-24 | filtering a newest-first sequence keeps it newest first |
| TaskModel.InsertNewestFirst | ToDoApp/ToDoList/Interactor/ToDoListInteractor.swift:22 | inserting into a newest-first sequence keeps it newest first and adds exactly the one task |
| TaskModel.SortNewestFirst | ToDoApp/ToDoList/Interactor/ToDoListInteractor.swift:22 | the `createdAt` descending sort is newest first and a permutation of its input |
| TaskModel.SortIsPermutation | ToDoApp/ToDoList/Interactor/ToDoListInteractor.swift:22 | the sort keeps the length and the set of elements |
| TaskModel.AppendKeepsStoreInvariant | ToDoApp/ToDoList/Interactor/ToDoListInteractor.swift:31 | inserting a new object with the next identity keeps identities distinct and allocated |
| TaskModel.FilterKeepsStoreInvariant | ToDoApp/ToDoList/Interactor/ToDoListInteractor.swift:135-139 | deleting objects by a filter keeps the store invariant |
| TaskModel.UpdateRef | ToDoApp/ToDoList/Interactor/ToDoListInteractor.swift:49-51 | an update sets title, details and completion flag of the addressed object only; identity, `id` and `createdAt` never change, and every other object is untouched |
| TaskModel.UpdateKeepsStoreInvariant | ToDoApp/ToDoList/Interactor/ToDoListInteractor.swift:47-60 | an update keeps the store invariant |
| TaskModel.RemoveFirstAt | ToDoAppTests/ToDoAppTests.swift:185 | removing at the first position holding the object is removal of that object, and the rest keep their order |
| TaskModel.RemoveFirstAbsent | ToDoAppTests/ToDoAppTests.swift:185 | removing an object that is not stored changes nothing |
| TaskModel.RemoveFirstExact | ToDoApp/ToDoList/Interactor/ToDoListInteractor.swift:64 | in a store of distinct objects, a delete leaves exactly the other objects and keeps them distinct |
| TaskModel.KeptTodosMembers | ToDoApp/ToDoList/Interactor/ToDoListInteractor.swift:107-108 | the import keeps exactly the todos whose text is not blank |
| TaskModel.ImportedTasksStep | ToDoApp/ToDoList/Interactor/ToDoListInteractor.swift:106-118 | one more todo adds one task when its text is not blank and nothing otherwise |
| TaskModel.ImportedAreTitled | ToDoApp/ToDoList/Interactor/ToDoListInteractor.swift:107-111 | every imported task has a visible title |
| TaskModel.ImportedSpacing | ToDoApp/ToDoList/Interactor/ToDoListInteractor.swift:114-116 | an imported task with a larger remote id is older, by exactly one hour per unit of id |
| TaskModel.ImportedStoreInvariant | ToDoApp/ToDoList/Interactor/ToDoListInteractor.swift:106-118 | the k-th imported task gets identity `base + k`; into a store whose identities lie below `base`, the imported tasks keep identities distinct and below the new next identity |
| Interactor.Listed | ToDoApp/ToDoList/Interactor/ToDoListInteractor.swift:19-27 | the fetch returns newest first exactly the stored tasks whose title is present and not blank |
| Interactor.ListedCount | ToDoApp/ToDoList/Interactor/ToDoListInteractor.swift:19-27 | the fetch lists each titled task as often as it is stored, and no other task |
| Interactor.Found | ToDoApp/ToDoList/Interactor/ToDoListInteractor.swift:75-84 | the search returns newest first exactly the titled tasks whose folded title or details contain the folded query |
| Interactor.FoundCount | ToDoApp/ToDoList/Interactor/ToDoListInteractor.swift:75-84 | the search returns each matching titled task as often as it is stored, and no other task |
| Interactor.DeletedNotListed | ToDoApp/ToDoList/Interactor/ToDoListInteractor.swift:62-73 | after a delete the object is no longer listed, and every other listed object still is |
| Interactor.PurgeContents | ToDoApp/ToDoList/Interactor/ToDoListInteractor.swift:130-144 | the purge keeps exactly the titled tasks, as often as before and in their order |
| Interactor.Purge | ToDoApp/ToDoList/Interactor/ToDoListInteractor.swift:133-139 | the loop that deletes, in place, every fetched object without a visible title leaves exactly the filtered store |
| Interactor.Import | ToDoApp/ToDoList/Interactor/ToDoListInteractor.swift:106-118 | the import loop inserts one task per non-blank todo, in order, with the remote id, the trimmed title, no details, the remote flag and `now - id` hours |
| Interactor.ImportIfEmpty | ToDoApp/ToDoList/Interactor/ToDoListInteractor.swift:89-93 | a store holding any record, or a failed transfer, is left as it is; otherwise every record the import leaves is titled |
| Interactor.ToDoListInteractor.FetchTasks | ToDoApp/ToDoList/Interactor/ToDoListInteractor.swift:19-27 | the fetch returns newest first exactly the stored tasks with a visible title |
| Interactor.ToDoListInteractor.SearchTasks | ToDoApp/ToDoList/Interactor/ToDoListInteractor.swift:75-84 | the search returns newest first exactly the stored titled tasks whose title or details match the query ignoring case and diacritics |
| Interactor.ToDoListInteractor.AddTask | ToDoApp/ToDoList/Interactor/ToDoListInteractor.swift:29-45 | appends one new object with the given title and details, not completed, created now; reports it if the save succeeds and nil otherwise; keeps the invariant |
| Interactor.ToDoListInteractor.UpdateTask | ToDoApp/ToDoList/Interactor/ToDoListInteractor.swift:47-60 | the store becomes the update of the addressed object; the flag is the save outcome |
| Interactor.ToDoListInteractor.DeleteTask | ToDoApp/ToDoList/Interactor/ToDoListInteractor.swift:62-73 | the store loses the addressed object and nothing else; the flag is the save outcome |
| Interactor.ToDoListInteractor.LoadTasksFromAPIIfNeeded | ToDoApp/ToDoList/Interactor/ToDoListInteractor.swift:86-128 | the gate counts every record, untitled ones included; a non-empty store or a failed transfer leaves the store unchanged and reports false; otherwise the import runs and reports true whatever the save does |
| Interactor.ToDoListInteractor.RemoveEmptyTasks | ToDoApp/ToDoList/Interactor/ToDoListInteractor.swift:130-144 | the store becomes its filter by visible title, and the invariant holds |
| TestDouble.FirstIndex | ToDoAppTests/ToDoAppTests.swift:185 | `firstIndex(of:)` finds the first position holding the object, or reports that no position holds it |
| TestDouble.MockInteractor.FetchTasks | ToDoAppTests/ToDoAppTests.swift:164 | the double's fetch returns its array as it stands: no sorting and no filtering |
| TestDouble.DoubleListsUntitled | ToDoAppTests/ToDoAppTests.swift:164 | the double lists an untitled task that the production listing hides |
| TestDouble.MockInteractor.AddTask | ToDoAppTests/ToDoAppTests.swift:165-175 | appends exactly one new task with the given title and details, not completed; earlier tasks unchanged; sets only its own flag |
| TestDouble.MockInteractor.UpdateTask | ToDoAppTests/ToDoAppTests.swift:176-182 | sets title, details and flag of the addressed object and reports true |
| TestDouble.MockInteractor.DeleteTask | ToDoAppTests/ToDoAppTests.swift:183-187 | removes the first occurrence of the object, keeping the others in order; an absent object leaves the array unchanged; reports true |
| TestDouble.MockInteractor.SearchTasks | ToDoAppTests/ToDoAppTests.swift:188-192 | returns the case-sensitive filter of the array and leaves the array unchanged |
| TestDouble.MockInteractor.LoadTasksFromAPIIfNeeded | ToDoAppTests/ToDoAppTests.swift:193-196 | never changes the array and always reports false |
| TestDouble.ExactSearchContents | ToDoAppTests/ToDoAppTests.swift:188-192 | the double's search returns, in stored order, exactly the tasks whose title or details contain the query, each as often as it is stored |
| TestDouble.ExactMatchIsFolded | ToDoAppTests/ToDoAppTests.swift:190 | whatever the double's case-sensitive search matches, the store's `CONTAINS[cd]` matches too |
| ListView.DecimalString | ToDoApp/ToDoList/View/ToDoListViewController.swift:305 | interpolating a count gives a non-empty string of decimal digits without a leading zero |
| ListView.DecimalRoundTrip | ToDoApp/ToDoList/View/ToDoListViewController.swift:305 | reading the interpolated digits back gives the count |
| ListView.LeadingDigitsOf | ToDoApp/ToDoList/View/ToDoListViewController.swift:305-307 | the digits in front of the noun are exactly the interpolated count |
| ListView.TasksCountText | ToDoApp/ToDoList/View/ToDoListViewController.swift:298-309 | the label reads "Нет задач" exactly when the count is zero |
| ListView.CountTextRoundTrip | ToDoApp/ToDoList/View/ToDoListViewController.swift:298-309 | the label's leading number is the count, so distinct counts give distinct labels |
| ListView.TwentyOneTasksText | ToDoApp/ToDoList/View/ToDoListViewController.swift:306-307 | as written, 21 and 22 tasks read "21 задач" and "22 задач" |
| ListView.ListScreen.constructor | ToDoApp/ToDoList/View/ToDoListViewController.swift:108-149 | the screen starts with the placeholder hidden and the label reading "0 задач" |
| ListView.ListScreen.ReloadData | ToDoApp/ToDoList/View/ToDoListViewController.swift:292-296 | after a reload the table shows the tasks, the placeholder is hidden exactly when there is at least one, and the label is the count rule's text |
| ListView.PlaceholderMatchesLabel | ToDoApp/ToDoList/View/ToDoListViewController.swift:292-309 | after a reload the placeholder is visible exactly when the label reads "Нет задач" |
| Presenter.ToDoListPresenter.constructor | ToDoApp/ToDoList/Presenter/ToDoListPresenter.swift:20-25 | a new presenter holds its view and interactor and no tasks |
| Presenter.ToDoListPresenter.FetchTasks | ToDoApp/ToDoList/Presenter/ToDoListPresenter.swift:42-47 | the snapshot becomes the interactor's fetch result wholesale, then the screen reloads |
| Presenter.ToDoListPresenter.ViewDidLoad | ToDoApp/ToDoList/Presenter/ToDoListPresenter.swift:27-40 | over the production store the store becomes purge-then-import of the old store, then a fetch; over the double the store is unchanged, only the load call is recorded, then a fetch |
| Presenter.ToDoListPresenter.AddTask | ToDoApp/ToDoList/Presenter/ToDoListPresenter.swift:49-53 | the add reaches the interactor (over the double, only the add call is recorded) and is followed by a fetch, whatever the reported outcome |
| Presenter.ToDoListPresenter.UpdateTask | ToDoApp/ToDoList/Presenter/ToDoListPresenter.swift:55-59 | the update reaches the interactor (over the double, only the update call is recorded) and is followed by a fetch, whatever the reported outcome |
| Presenter.ToDoListPresenter.DeleteTask | ToDoApp/ToDoList/Presenter/ToDoListPresenter.swift:61-65 | the delete reaches the interactor (over the double, only the delete call is recorded) and is followed by a fetch, whatever the reported outcome |
| Presenter.ToDoListPresenter.SearchTasks | ToDoApp/ToDoList/Presenter/ToDoListPresenter.swift:67-76 | an empty query gives exactly a fetch; any other query sets the snapshot to the interactor's search result and reloads, with no fetch and no change to the store |
| Presenter.PurgeOpensImportGate | ToDoApp/ToDoList/Presenter/ToDoListPresenter.swift:29-34 | a store of untitled records alone keeps the import gate closed; after the purge that runs first, the import goes ahead |
| Presenter.StartupListsEverything | ToDoApp/ToDoList/Presenter/ToDoListPresenter.swift:29-34 | after the start-up chain every stored record has a title, so the fetch hides none |
| ListActions.SubmittedTitle | ToDoApp/ToDoList/View/ToDoListViewController.swift:329-338 | the dialogs pass the title text on exactly when it is present and non-empty, untrimmed |
| ListActions.SpacesPassGuardButAreNotListed | ToDoApp/ToDoList/View/ToDoListViewController.swift:336-338 | a title of spaces passes the dialog, and the task it creates is stored but never listed |
| ListActions.ConfirmAddAlert | ToDoApp/ToDoList/View/ToDoListViewController.swift:335-339 | an empty or missing title changes nothing; otherwise the presenter adds with that title and the details or "", on the next identity, recording only the add call, and the screen reloads once |
| ListActions.ConfirmEditAlert | ToDoApp/ToDoList/View/ToDoListViewController.swift:328-332 | an empty or missing title changes nothing; otherwise the presenter updates the task, keeping its completion flag and the next identity, recording only the update call, and the screen reloads once |
| ListActions.CheckboxTapped | ToDoApp/ToDoList/View/ToDoListViewController.swift:357-359 | a checkbox tap requests an update with the same title (or "") and details, and the negated flag; the next identity is kept, only the update call is recorded, and the screen reloads once |
| ListActions.CheckboxTwiceRestores | ToDoApp/ToDoList/View/ToDoListViewController.swift:357-359 | two taps on a titled task's checkbox leave the store as it was |
| Scenarios.AddThenFetch | ToDoAppTests/ToDoAppTests.swift:53-68 | adding "Test" reports the task, and a fetch then lists exactly that task |
| Scenarios.AddThenDelete | ToDoAppTests/ToDoAppTests.swift:70-93 | deleting the task just added succeeds, and a fetch then lists nothing |
| Scenarios.SpecialTasksSearch | ToDoAppTests/ToDoAppTests.swift:95-112 | among "Task 0", "Task 1" and "Task 2", the search for "Special" finds only "Task 1" |
| Scenarios.SearchSpecial | ToDoAppTests/ToDoAppTests.swift:95-112 | after three adds, the search for "Special" returns one task, the one whose details are "Special" |
| Scenarios.PresenterAddThenSearch | ToDoAppTests/ToDoAppTests.swift:114-124 | over the double, add then search shows exactly "PresenterTest", with the add flag set and the screen reloaded |
| Scenarios.PresenterDeleteOnly | ToDoAppTests/ToDoAppTests.swift:126-135 | deleting the double's only task through the presenter shows no task, with the delete flag set and the screen reloaded |
| Scenarios.PresenterSearchFindMe | ToDoAppTests/ToDoAppTests.swift:137-147 | with "FindMe" and "Other" in the double, the search shows exactly "FindMe", with the search flag set |

## Left out

- TaskModel.SortNewestFirst: tasks with equal `createdAt` keep their stored order. The application sorts on that one key and leaves the order of ties unspecified, so the model fixes one admissible order.
- Concurrency: `backgroundContext.perform`, `DispatchQueue.main.async` and the weak captures. Every call is synchronous and runs in submission order.
- The network request and JSON decoding of the remote list. `LoadTasksFromAPIIfNeeded` takes the decoded todos, with `None` standing for any transfer or decoding failure; the URL check cannot fail.
- A fetch or count that throws. The application reads it as an empty result or a zero count; the model's context never fails to read.
- Dates and time intervals are floating point in the application. The model uses integer seconds, with `now` as a parameter.
- The import reads the clock once per todo. The model uses one `now` for the whole batch.
- Generated ids (milliseconds since 1970) are parameters. Nothing in the model relies on ids being unique.
- 64-bit overflow of `Int64` ids and of `id * 3600` is not modelled; integers are unbounded.
- Text.Fold: covers ASCII, Latin-1 and Russian letters only, one character to one character. Foundation folds every Unicode letter, compares by grapheme cluster, and can fold one character to several (so "ß" matches "ss"); the model's folding keeps the length. The model's `Contains` finds the empty query in every text, where Foundation may not; the presenter never sends an empty query to a search.
- The access control on the presenter's `tasks`, which is `private(set)` in the application. Dafny fields are always assignable, so the model states the new snapshot in every method's contract instead.
- Shared task objects. Snapshots hold copies, not the live objects. Edits made through one snapshot are visible in another only after a fetch.
- Interactor.Purge and Interactor.Import: they return the context's new contents, and the store assigns them once. The application changes its context object by object during the loop.
- All UIKit code: layout, cells, the share sheet, the context menu, the search bar wiring, voice input and date formatting.
- `TaskDetailViewController.swift` is not part of this model.
- The router, the unused `ToDoItem` struct and the test harness (expectations, dispatch groups, in-memory store setup).
- `MockView`: the presenter scenarios drive the `ListScreen` model instead, and its reload count stands for `reloadDataCalled`.
