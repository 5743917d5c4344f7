# TaskManagerPro task store, in Dafny

This project models the core of TaskManagerPro, a console to-do list manager written in C#.
It covers the store of tasks, the queries over it, the single-field editor and the input checks.

- **TaskBase** (`tasks.dfy`, module `Tasks`) is a class with the five properties: id, title,
  description, due date and completion flag. Each property has its own setter method. The
  editor overwrites these fields in place.
- **TaskManager** (`task_manager.dfy`, module `TaskManagement`) is one object. It holds:
  - the task list `tasks`, a sequence of references, so an edit made through a reference
    shows in the list;
  - the id counter `currentTaskId`;
  - the file `tasks.txt`, held as the list of property values its JSON encodes.

  In the C# program the list and the counter are static fields.
- **List operations** (`task_lists.dfy`, module `TaskLists`) are the LINQ and `List<T>`
  operations the queries use: `Any`, `Find`, `Where(...).ToList()`, `Max`, and `Remove`
  of the first task with a given id.
- **Text search** (`text_match.dfy`, module `TextMatch`) is `IndexOf` with
  `StringComparison.OrdinalIgnoreCase`.
- **Input checks** (`prompts.dfy`, module `Prompts`) are the loops that prompt again until
  the answer is acceptable.

Foreign pieces are abstracted:
- A `DateTime` is an integer tick count, so two due dates match only when they are the same
  instant.
- `DateTime.TryParse` and `int.TryParse` are function parameters of type
  `string -> Option<..>`.
- The user's answers are a sequence of lines, `input`. A method that reads answers returns how
  many lines it consumed (`used`). The three prompt loops also return the lines they wrote
  (`written`).
- Saving copies the property values of the list into the file. Loading builds new task objects
  from the file.

Behaviour of the code that the model keeps:
- With no `tasks.txt`, `InitializeApp` creates the file and resets the counter to 0. It does
  not clear the in-memory list (TaskManager.cs:35-39).
- An edit choice outside "1" to "6" only prints a message and changes nothing
  (TaskManager.cs:271-273).
- The only due-date query is equality with one instant (TaskManager.cs:193-203). There are no
  queries for a range of dates.

## Model

| member | source | states |
|---|---|---|
| Tasks.TaskBase.constructor | TaskManagerPro/TaskManagerPro/TaskBase.cs:13-20 | the new task holds the given id, title, description and due date unchanged; the completion flag is the one given, false by default |
| Tasks.TaskBase.SetTaskId | TaskManagerPro/TaskManagerPro/TaskBase.cs:7 | assigning the id leaves the other four properties unchanged |
| Tasks.TaskBase.SetTaskTitle | TaskManagerPro/TaskManagerPro/TaskBase.cs:8 | assigning the title leaves the other four properties unchanged |
| Tasks.TaskBase.SetTaskDescription | TaskManagerPro/TaskManagerPro/TaskBase.cs:9 | assigning the description leaves the other four properties unchanged |
| Tasks.TaskBase.SetDueDate | TaskManagerPro/TaskManagerPro/TaskBase.cs:10 | assigning the due date leaves the other four properties unchanged |
| Tasks.TaskBase.SetTaskIsComplete | TaskManagerPro/TaskManagerPro/TaskBase.cs:11 | assigning the completion flag leaves the other four properties unchanged |
| Tasks.NewTaskDefaultsToIncomplete | TaskManagerPro/TaskManagerPro/TaskBase.cs:13 | a task built without a completion flag is not complete |
| TextMatch.IndexOf | TaskManagerPro/TaskManagerPro/TaskManager.cs:208 | the result is the first position where the pattern occurs, or -1 exactly when it occurs nowhere |
| TextMatch.ContainsIgnoreCase | TaskManagerPro/TaskManagerPro/TaskManager.cs:208 | the partial-search test `IndexOf(..., OrdinalIgnoreCase) >= 0` holds exactly when the upper-cased pattern occurs somewhere in the upper-cased text |
| TextMatch.CaseInsensitive | TaskManagerPro/TaskManagerPro/TaskManager.cs:217 | upper-casing either the text or the pattern never changes the outcome of the partial-search test |
| TextMatch.EmptyPatternMatches | TaskManagerPro/TaskManagerPro/TaskManager.cs:208 | every text contains the empty search text |
| TextMatch.PartialTitleExamples | TaskManagerPro/TaskManagerProTests/TaskManagerUnitTests.cs:417-424 | of the five titles of the unit test, "Task 1", "Task 2" and "Another Task 1" contain "Task" ignoring case; "Another Title 1" and "Another Title 2" do not |
| TaskLists.Snapshot | TaskManagerPro/TaskManagerPro/TaskManager.cs:95 | the serialized list has one record per task, in list order, holding that task's property values |
| TaskLists.Any | TaskManagerPro/TaskManagerPro/TaskManager.cs:145-148 | true exactly when some task of the list satisfies the predicate |
| TaskLists.FindIndex | TaskManagerPro/TaskManagerPro/TaskManager.cs:180 | the result is the position of the first task that satisfies the predicate, or -1 when none does |
| TaskLists.Find | TaskManagerPro/TaskManagerPro/TaskManager.cs:178-191 | null exactly when no task satisfies the predicate; otherwise the first such task in list order |
| TaskLists.Where | TaskManagerPro/TaskManagerPro/TaskManager.cs:198-228 | the result is a subsequence of the list; it holds only tasks that satisfy the predicate, and every task that does |
| TaskLists.WhereCounts | TaskManagerPro/TaskManagerPro/TaskManager.cs:198-228 | each task occurs in the result as often as in the list when it satisfies the predicate, and not at all otherwise |
| TaskLists.WhereAppend | TaskManagerPro/TaskManagerPro/TaskManager.cs:200-202 | filtering a concatenation gives the concatenation of the filtered parts, so the filter keeps list order exactly |
| TaskLists.WhereComplement | TaskManagerPro/TaskManagerPro/TaskManager.cs:223-228 | a filter and its complement split the list: as multisets their results add up to the whole list |
| TaskLists.WhereNoneOrAll | TaskManagerPro/TaskManagerPro/TaskManager.cs:198-203 | the result is empty when no task matches, and is the whole list when every task does |
| TaskLists.MaxId | TaskManagerPro/TaskManagerPro/TaskManager.cs:44 | the result is an id that occurs in the list, and no id in the list exceeds it |
| TaskLists.IndexOfRef | TaskManagerPro/TaskManagerPro/TaskManager.cs:232 | the result is the first position that holds the given reference, or -1 |
| TaskLists.FirstReferenceIsFirstMatch | TaskManagerPro/TaskManagerPro/TaskManager.cs:232 | removing the found task by reference removes the first task with the id |
| TaskLists.WithoutFirstId | TaskManagerPro/TaskManagerPro/TaskManager.cs:230-234 | when some task has the id, the result is the list with exactly the task at the first position holding that id taken out; otherwise the same list. The rest keep their order, every task with another id is kept, and no task is added |
| TaskLists.WithoutFirstIdKeepsIds | TaskManagerPro/TaskManagerPro/TaskManager.cs:230-234 | deleting keeps ids unique, and no id of the result exceeds a bound that every id of the list respected |
| TaskLists.AppendKeepsUniqueIds | TaskManagerPro/TaskManagerPro/TaskManager.cs:87-90 | appending a task whose id exceeds every listed id keeps ids unique |
| TaskLists.RemovedIdIsGone | TaskManagerPro/TaskManagerPro/TaskManager.cs:230-234 | when ids are unique, no task with the id is left after the deletion |
| Prompts.ValidatedUserDateInput | TaskManagerPro/TaskManagerPro/TaskManager.cs:48-69 | returns the date of the first line that parses; writes one prompt per attempt and exactly one diagnostic per rejected line |
| Prompts.SelectChoice | TaskManagerPro/TaskManagerPro/TaskManager.cs:132-143 | returns the first line in the choice set; every earlier line is outside it; writes one prompt, then one complaint and one prompt per rejected line |
| Prompts.ValidatedEditSelection | TaskManagerPro/TaskManagerPro/TaskManager.cs:132-143 | returns the first line among "1" to "6"; writes exactly one complaint per rejected line |
| Prompts.ValidatedTaskCompletionStatusSelection | TaskManagerPro/TaskManagerPro/TaskManager.cs:276-287 | returns the first line among "1" to "3"; writes exactly one complaint per rejected line |
| Prompts.EditSelectionRetries | TaskManagerPro/TaskManagerProTests/TaskManagerUnitTests.cs:162-179 | after "random" and "7", the answer "3" is returned and two complaints are written |
| Prompts.DateInputRetries | TaskManagerPro/TaskManagerProTests/TaskManagerUnitTests.cs:43-57 | after one unparsable line, the date of the next line is returned and one diagnostic is written |
| TaskManagement.TaskManager.constructor | TaskManagerPro/TaskManagerPro/TaskManager.cs:14-21 | the store of a fresh process: the list is empty and the counter is 0 |
| TaskManagement.TaskManager.SaveTasksToFile | TaskManagerPro/TaskManagerPro/TaskManager.cs:92-97 | the file holds the current property values of every task, in order; the list and the counter are unchanged |
| TaskManagement.TaskManager.LoadTasksFromFile | TaskManagerPro/TaskManagerPro/TaskManager.cs:27-31 | the list is replaced by new task objects, one distinct object per record, whose values are the file's records, in order |
| TaskManagement.TaskManager.SaveThenLoad | TaskManagerPro/TaskManagerPro/TaskManager.cs:27-31 | saving and then loading reproduces the same values in the same order, held by new and distinct objects |
| TaskManagement.TaskManager.InitializeApp | TaskManagerPro/TaskManagerPro/TaskManager.cs:33-46 | with no file: creates an empty file and resets the counter to 0. With a file: loads it into new, distinct objects; the counter is 0 for an empty list, otherwise an id of the list that no other id exceeds |
| TaskManagement.TaskManager.NewTask | TaskManagerPro/TaskManagerPro/TaskManager.cs:71-85 | increments the counter and uses the new value as the id. The title, description and date come from the input; the task is not complete. When no listed id exceeded the counter before the call, the new id exceeds every id in the list |
| TaskManagement.TaskManager.AddTask | TaskManagerPro/TaskManagerPro/TaskManager.cs:87-90 | the task is appended at the end; earlier tasks keep their positions |
| TaskManagement.TaskManager.CreateTask | TaskManagerPro/TaskManagerPro/Program.cs:34-36 | new task, append and save keep every id unique and at most the counter; the new id is greater than every earlier id |
| TaskManagement.FirstTaskOfFreshStore | TaskManagerPro/TaskManagerPro/TaskManager.cs:73 | in a fresh store with no file, the first task gets id 1 |
| TaskManagement.TaskManager.TaskIdExists | TaskManagerPro/TaskManagerPro/TaskManager.cs:145-148 | true exactly when some task has the id |
| TaskManagement.TaskManager.FindTaskById | TaskManagerPro/TaskManagerPro/TaskManager.cs:178-181 | null exactly when no task has the id; otherwise the first task in list order with the id |
| TaskManagement.TaskManager.TaskTitleExists | TaskManagerPro/TaskManagerPro/TaskManager.cs:183-186 | true exactly when some task's title equals the given text, case-sensitively |
| TaskManagement.TaskManager.FindTaskByTitle | TaskManagerPro/TaskManagerPro/TaskManager.cs:188-191 | null exactly when no title is equal; otherwise the first task in list order with that exact title |
| TaskManagement.TaskManager.TaskDueDateExists | TaskManagerPro/TaskManagerPro/TaskManager.cs:193-196 | true exactly when some task is due at exactly that instant |
| TaskManagement.TaskManager.FindTasksByDueDate | TaskManagerPro/TaskManagerPro/TaskManager.cs:198-203 | exactly the tasks due at that instant, in list order; empty exactly when none exists |
| TaskManagement.TaskManager.FindTasksByPartialTitle | TaskManagerPro/TaskManagerPro/TaskManager.cs:205-212 | exactly the tasks whose title contains the text ignoring case, in list order |
| TaskManagement.TaskManager.FindTasksByPartialDescription | TaskManagerPro/TaskManagerPro/TaskManager.cs:214-221 | exactly the tasks whose description contains the text ignoring case, in list order |
| TaskManagement.TaskManager.FindTasksByCompletionStatus | TaskManagerPro/TaskManagerPro/TaskManager.cs:223-228 | exactly the tasks with the given completion flag, in list order |
| TaskManagement.TaskManager.CompletionStatusPartitions | TaskManagerPro/TaskManagerPro/TaskManager.cs:223-228 | the complete and the incomplete tasks together are the whole list, each task in exactly one of them |
| TaskManagement.TaskManager.EmptySearchReturnsAll | TaskManagerPro/TaskManagerPro/TaskManager.cs:205-221 | an empty search text returns the whole list from both partial searches |
| TaskManagement.TaskManager.ValidateTaskId | TaskManagerPro/TaskManagerPro/TaskManager.cs:150-160 | true exactly when the line parses to the id of an existing task; the out value is the parsed number whenever the line parses, and 0 when it does not |
| TaskManagement.TaskManager.GetValidTaskId | TaskManagerPro/TaskManagerPro/TaskManager.cs:162-176 | 0 for "0"; for any other line, either -1 or a parsed id that exists; it is that id whenever the line parses to an existing id |
| TaskManagement.TaskManager.TaskIdOutcomesAreDistinct | TaskManagerPro/TaskManagerPro/TaskManager.cs:162-176 | with positive ids, 0 means only cancel, -1 means only not found or not numeric, and a positive result always names a task |
| TaskManagement.TaskManager.DeleteTask | TaskManagerPro/TaskManagerPro/TaskManager.cs:230-234 | the first task with the id is removed and the others keep their order; with no such task the list is unchanged. If no id exceeded the counter and ids were unique before, both still hold |
| TaskManagement.TaskManager.EditTask | TaskManagerPro/TaskManagerPro/TaskManager.cs:236-274 | "1", "2" and "3" replace only the title, the description or the due date. "4" flips the flag and "5" deletes by id. Other tasks never change. Choices "1" to "5" save the list; "6" and any other choice change nothing |
| TaskManagement.TaskManager.EditKeepsIds | TaskManagerPro/TaskManagerPro/TaskManager.cs:236-274 | the same edit as `EditTask`, with all of its guarantees, and in addition the id invariant that new tasks rely on: if no id exceeded the counter and ids were unique before, both still hold |
| TaskManagement.TaskManager.ToggleCompletionTwice | TaskManagerPro/TaskManagerPro/TaskManager.cs:257-261 | flipping the completion flag twice restores it, and the list is saved |
| TaskManagement.TaskManager.DeleteThroughEditor | TaskManagerPro/TaskManagerPro/TaskManager.cs:262-266 | when ids are unique, choice "5" leaves one task fewer and no task with that id |
| TaskManagement.PartialTitleSearchFindsThree | TaskManagerPro/TaskManagerProTests/TaskManagerUnitTests.cs:413-432 | with the five tasks of the unit test, searching titles for "Task" returns three tasks: "Task 1", "Task 2" and "Another Task 1", in that order |
| TaskManagement.TaskTitleSearchOnFive | TaskManagerPro/TaskManagerPro/TaskManager.cs:205-212 | on any five tasks with the unit test's titles, the title filter for "Task" keeps exactly the first, second and fifth |

## Left out

- File access and JSON are not modelled. `tasks.txt` is an optional list of task records. A
  file that does not decode, a `null` list, `null` tasks and `null` strings are not modelled.
- TaskManagement.TaskManager.EditTask: it requires an input line for choices "1" and "2". At
  end of input `ReadLine` returns `null`, and the C# code stores that `null` as the new title or
  description.
- TaskManagement.TaskManager.constructor: it always starts from an empty list and a zero
  counter. In C# the list and the counter are static. `new TaskManager(ui)` resets only the
  counter and never clears the list. The parameterless constructor (TaskManager.cs:23-25)
  resets neither. A second instance in the same process therefore sees the earlier list. Each
  method here states the conditions it needs on the list and the counter (`IdsIssued`,
  `UniqueIds`) instead.
- Strings are sequences of Unicode scalar values. C# strings are sequences of UTF-16 code units,
  and `IndexOf` and equality compare those. The two agree except on text with characters outside
  the Basic Multilingual Plane.
- `DateTime.TryParse` and `int.TryParse` are not modelled. They are parameters that may
  return no value. A due date is an integer tick count.
- TextMatch.ContainsIgnoreCase: case folding covers ASCII letters only. `OrdinalIgnoreCase`
  also folds non-ASCII letters.
- TaskManagement.TaskManager.NewTask: ids and the counter are unbounded integers. The 32-bit
  wrap-around of `++CurrentTaskId` past `int.MaxValue` is not modelled.
- Prompts.ValidatedUserDateInput: it requires some line of the input to be acceptable. The C#
  loop never returns otherwise, because at end of input `ReadLine` keeps returning `null`.
  The same holds for Prompts.ValidatedEditSelection and
  Prompts.ValidatedTaskCompletionStatusSelection.
- Prompts.ValidatedUserDateInput: the source writes its diagnostic with `Console.WriteLine` and
  its prompt through the user-interface port. The model puts both into one transcript.
- Prompts and console messages are not modelled for `NewTask`, `GetValidTaskId`, `EditTask`
  and `DeleteTask`. This includes the confirmation lines and "Task with ID ... has been
  deleted.". Only the lines these operations consume are counted.
- `DisplayTask`, `DisplayAllTasks` and `DisplayTasksByCompletion` are console output. They
  use colours and compare with `DateTime.Now`. Choice "2" of `DisplayTasksByCompletion` checks
  the number of complete tasks before listing incomplete ones. Only the display shows this, and
  it is not modelled.
- `SearchForTasks` is menu dispatch. It calls itself again after an empty result and reads raw
  keys. Only the queries it calls are modelled.
- The main menu loop (Program.cs), the menu text (UserInterface.cs) and the console port
  (ConsoleUserInterface.cs, IUserInterface.cs) are not part of this model. The exception is the
  "Add New Task" sequence, modelled as `CreateTask`.
