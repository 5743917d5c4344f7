/**
 * TaskManager.cs: the task list and id counter (static fields in the C#
 * program, one object here), the persisted tasks.txt, the queries over the
 * list, task-id input, deletion and the single-field editor.
 */
module TaskManagement {
  import opened Wrappers
  import opened Tasks
  import opened TaskLists
  import opened TextMatch
  import Prompts

  /** The partial-search lambdas: a case-insensitive substring test on one property. */
  function TitleContains(partial: string): (p: TaskData -> bool)
  {
    (d: TaskData) => ContainsIgnoreCase(d.title, partial)
  }

  function DescriptionContains(partial: string): (p: TaskData -> bool)
  {
    (d: TaskData) => ContainsIgnoreCase(d.description, partial)
  }

  class TaskManager {
    /** `Tasks`: the in-memory list, in insertion order. */
    var tasks: seq<TaskBase>
    /** `CurrentTaskId`: the last id handed out. */
    var currentTaskId: int
    /** tasks.txt, as the list its JSON encodes; None while the file does not exist. */
    var file: Option<seq<TaskData>>

    constructor (persisted: Option<seq<TaskData>>)
      ensures tasks == [] && currentTaskId == 0 && file == persisted
    {
      tasks := [];
      currentTaskId := 0;
      file := persisted;
    }

    /** No task in the list has an id above the counter, so the next id is new. */
    ghost predicate IdsIssued()
      reads this, tasks
    {
      forall t :: t in tasks ==> t.taskId <= currentTaskId
    }

    // ---------------------------------------------------------------- persistence

    /** Overwrites the file with the current property values of the list, in order. */
    method SaveTasksToFile()
      modifies this
      ensures file == Some(Snapshot(tasks))
      ensures tasks == old(tasks) && currentTaskId == old(currentTaskId)
    {
      file := Some(Snapshot(tasks));
    }

    /** Replaces the list by new task objects carrying the values the file holds. */
    method LoadTasksFromFile()
      requires file.Some?
      modifies this
      ensures file == old(file) && currentTaskId == old(currentTaskId)
      ensures Snapshot(tasks) == old(file).value
      ensures forall t :: t in tasks ==> fresh(t)
      ensures Distinct(tasks)
    {
      var records := file.value;
      var loaded: seq<TaskBase> := [];
      var i := 0;
      while i < |records|
        invariant 0 <= i <= |records| && |loaded| == i
        invariant forall k :: 0 <= k < i ==> loaded[k].Data() == records[k]
        invariant forall t :: t in loaded ==> fresh(t)
        invariant Distinct(loaded)
        invariant file == old(file) && currentTaskId == old(currentTaskId)
      {
        var r := records[i];
        var t := new TaskBase(r.id, r.title, r.description, r.dueDate, r.isComplete);
        loaded := loaded + [t];
        i := i + 1;
      }
      tasks := loaded;
    }

    /** Saving and then loading gives back a list of new objects with the same values in the same order. */
    method SaveThenLoad()
      modifies this
      ensures Snapshot(tasks) == old(Snapshot(tasks))
      ensures forall t :: t in tasks ==> fresh(t)
      ensures currentTaskId == old(currentTaskId) && file == Some(Snapshot(tasks))
      ensures Distinct(tasks)
    {
      SaveTasksToFile();
      LoadTasksFromFile();
    }

    /**
     * Startup: a missing file is created empty and the counter reset (the list
     * is left as it is); an existing file is loaded and the counter set to the
     * largest id in it, or 0 for an empty list.
     */
    method InitializeApp()
      modifies this
      ensures old(file).None? ==> file == Some([]) && tasks == old(tasks) && currentTaskId == 0
      ensures old(file).Some? ==> file == old(file) && Snapshot(tasks) == old(file).value
      ensures old(file).Some? ==> forall t :: t in tasks ==> fresh(t)
      ensures old(file).Some? ==> Distinct(tasks)
      ensures old(file).Some? ==> IdsIssued()
      ensures old(file).Some? && tasks == [] ==> currentTaskId == 0
      ensures old(file).Some? && tasks != [] ==> exists t :: t in tasks && t.taskId == currentTaskId
    {
      if file.None? {
        file := Some([]);
        currentTaskId := 0;
      } else {
        LoadTasksFromFile();
        label Loaded:
        currentTaskId := if |tasks| > 0 then MaxId(tasks) else 0;
        SnapshotUnchanged@Loaded(tasks);
      }
    }

    /** The snapshot of a list depends only on its tasks, so a step that changes none of them keeps it. */
    static twostate lemma SnapshotUnchanged(ts: seq<TaskBase>)
      requires forall t :: t in ts ==> unchanged(t)
      ensures Snapshot(ts) == old(Snapshot(ts))
    {
      forall i | 0 <= i < |ts| ensures Snapshot(ts)[i] == old(Snapshot(ts))[i] {
        assert ts[i] in ts;
      }
    }

    // ---------------------------------------------------------------- creation

    /**
     * Takes the next id (the counter is incremented first), then reads a title,
     * a description and a due date from `input`. The new task is not complete.
     */
    method NewTask(input: seq<string>, parseDate: string -> Option<Tick>) returns (newTask: TaskBase, used: nat)
      requires |input| >= 2 && Prompts.HasValidDate(input[2..], parseDate)
      modifies this
      ensures currentTaskId == old(currentTaskId) + 1
      ensures fresh(newTask) && newTask.taskId == currentTaskId
      ensures newTask.taskTitle == input[0] && newTask.taskDescription == input[1] && !newTask.taskIsComplete
      ensures 3 <= used <= |input| && parseDate(input[used - 1]) == Some(newTask.dueDate)
      ensures forall j :: 2 <= j < used - 1 ==> parseDate(input[j]).None?
      ensures tasks == old(tasks) && file == old(file)
      ensures old(IdsIssued()) ==> forall t :: t in tasks ==> t.taskId < newTask.taskId
    {
      currentTaskId := currentTaskId + 1;
      var newTaskId := currentTaskId;
      var title := input[0];
      var description := input[1];
      var dueDate, dateLines, _ := Prompts.ValidatedUserDateInput(input[2..], parseDate);
      newTask := new TaskBase(newTaskId, title, description, dueDate);
      used := 2 + dateLines;
    }

    /** Appends the task at the end; nothing is checked. */
    method AddTask(newTask: TaskBase)
      modifies this
      ensures tasks == old(tasks) + [newTask]
      ensures currentTaskId == old(currentTaskId) && file == old(file)
    {
      tasks := tasks + [newTask];
    }

    /**
     * The "Add New Task" menu action: NewTask, AddTask, SaveTasksToFile. The new
     * id exceeds every id in the list, so ids stay unique and below the counter.
     */
    method CreateTask(input: seq<string>, parseDate: string -> Option<Tick>) returns (newTask: TaskBase, used: nat)
      requires IdsIssued() && UniqueIds(tasks)
      requires |input| >= 2 && Prompts.HasValidDate(input[2..], parseDate)
      modifies this
      ensures IdsIssued() && UniqueIds(tasks)
      ensures fresh(newTask) && tasks == old(tasks) + [newTask]
      ensures newTask.taskId == currentTaskId == old(currentTaskId) + 1
      ensures forall t :: t in old(tasks) ==> t.taskId < newTask.taskId
      ensures file == Some(Snapshot(tasks))
    {
      newTask, used := NewTask(input, parseDate);
      AddTask(newTask);
      SaveTasksToFile();
      AppendKeepsUniqueIds(old(tasks), newTask);
    }

    // ---------------------------------------------------------------- queries

    predicate TaskIdExists(taskId: int)
      reads this, tasks
      ensures TaskIdExists(taskId) <==> exists i :: 0 <= i < |tasks| && tasks[i].taskId == taskId
    {
      Any(tasks, IdIs(taskId))
    }

    /** The first task with this id, or null exactly when there is none. */
    function FindTaskById(taskId: int): (r: TaskBase?)
      reads this, tasks
      ensures r == null <==> !TaskIdExists(taskId)
      ensures r != null ==> r in tasks && r.taskId == taskId
      ensures r != null ==> exists i :: 0 <= i < |tasks| && tasks[i] == r && forall j :: 0 <= j < i ==> tasks[j].taskId != taskId
    {
      Find(tasks, IdIs(taskId))
    }

    /** Exact, case-sensitive title equality. */
    predicate TaskTitleExists(taskTitle: string)
      reads this, tasks
      ensures TaskTitleExists(taskTitle) <==> exists i :: 0 <= i < |tasks| && tasks[i].taskTitle == taskTitle
    {
      Any(tasks, TitleIs(taskTitle))
    }

    /** The first task with exactly this title, or null exactly when there is none. */
    function FindTaskByTitle(taskTitle: string): (r: TaskBase?)
      reads this, tasks
      ensures r == null <==> !TaskTitleExists(taskTitle)
      ensures r != null ==> r in tasks && r.taskTitle == taskTitle
      ensures r != null ==> exists i :: 0 <= i < |tasks| && tasks[i] == r && forall j :: 0 <= j < i ==> tasks[j].taskTitle != taskTitle
    {
      Find(tasks, TitleIs(taskTitle))
    }

    /** Exact date-time equality, not calendar-day equality. */
    predicate TaskDueDateExists(dueDate: Tick)
      reads this, tasks
      ensures TaskDueDateExists(dueDate) <==> exists i :: 0 <= i < |tasks| && tasks[i].dueDate == dueDate
    {
      Any(tasks, DueOn(dueDate))
    }

    /** The tasks due at exactly this instant, in list order; empty when there are none. */
    function FindTasksByDueDate(dueDate: Tick): (r: seq<TaskBase>)
      reads this, tasks
      ensures IsSubsequence(r, tasks)
      ensures forall t :: t in r ==> t in tasks && t.dueDate == dueDate
      ensures forall t :: t in tasks && t.dueDate == dueDate ==> t in r
      ensures r == [] <==> !TaskDueDateExists(dueDate)
    {
      WhereNoneOrAll(tasks, DueOn(dueDate));
      Where(tasks, DueOn(dueDate))
    }

    /** The tasks whose title contains `partialTitle`, ignoring case, in list order. */
    function FindTasksByPartialTitle(partialTitle: string): (r: seq<TaskBase>)
      reads this, tasks
      ensures IsSubsequence(r, tasks)
      ensures forall t :: t in r ==> t in tasks && ContainsIgnoreCase(t.taskTitle, partialTitle)
      ensures forall t :: t in tasks && ContainsIgnoreCase(t.taskTitle, partialTitle) ==> t in r
    {
      Where(tasks, TitleContains(partialTitle))
    }

    /** The tasks whose description contains `partialDescription`, ignoring case, in list order. */
    function FindTasksByPartialDescription(partialDescription: string): (r: seq<TaskBase>)
      reads this, tasks
      ensures IsSubsequence(r, tasks)
      ensures forall t :: t in r ==> t in tasks && ContainsIgnoreCase(t.taskDescription, partialDescription)
      ensures forall t :: t in tasks && ContainsIgnoreCase(t.taskDescription, partialDescription) ==> t in r
    {
      Where(tasks, DescriptionContains(partialDescription))
    }

    /** The tasks whose completion flag equals `completionStatus`, in list order. */
    function FindTasksByCompletionStatus(completionStatus: bool): (r: seq<TaskBase>)
      reads this, tasks
      ensures IsSubsequence(r, tasks)
      ensures forall t :: t in r ==> t in tasks && t.taskIsComplete == completionStatus
      ensures forall t :: t in tasks && t.taskIsComplete == completionStatus ==> t in r
    {
      Where(tasks, CompletionIs(completionStatus))
    }

    /** Complete and incomplete tasks split the list: each task is in exactly one of the two results. */
    lemma CompletionStatusPartitions()
      ensures multiset(FindTasksByCompletionStatus(true)) + multiset(FindTasksByCompletionStatus(false)) == multiset(tasks)
      ensures |FindTasksByCompletionStatus(true)| + |FindTasksByCompletionStatus(false)| == |tasks|
    {
      WhereComplement(tasks, CompletionIs(true), CompletionIs(false));
    }

    /** An empty search text matches every task, so the partial searches then return the whole list. */
    lemma EmptySearchReturnsAll()
      ensures FindTasksByPartialTitle("") == tasks
      ensures FindTasksByPartialDescription("") == tasks
    {
      forall t | t in tasks ensures TitleContains("")(t.Data()) && DescriptionContains("")(t.Data()) {
        EmptyPatternMatches(t.taskTitle);
        EmptyPatternMatches(t.taskDescription);
      }
      WhereNoneOrAll(tasks, TitleContains(""));
      WhereNoneOrAll(tasks, DescriptionContains(""));
    }

    // ---------------------------------------------------------------- task-id input

    /**
     * `ValidateTaskId`: true with the parsed id when the line parses and a task
     * has that id; the out value is 0 when the line does not parse.
     */
    function ValidateTaskId(userInput: string, parseInt: string -> Option<int>): (r: (bool, int))
      reads this, tasks
      ensures r.0 <==> parseInt(userInput).Some? && TaskIdExists(parseInt(userInput).value)
      ensures r.0 ==> FindTaskById(r.1) != null
      ensures parseInt(userInput).None? ==> r.1 == 0
      ensures parseInt(userInput).Some? ==> r.1 == parseInt(userInput).value
    {
      match parseInt(userInput)
      case None => (false, 0)
      case Some(taskId) => (TaskIdExists(taskId), taskId)
    }

    /** `GetValidTaskId` on one line: 0 for "0", the id of an existing task, or -1 for anything else. */
    function GetValidTaskId(userInput: string, parseInt: string -> Option<int>): (r: int)
      reads this, tasks
      ensures userInput == "0" ==> r == 0
      ensures userInput != "0" && r != -1 ==> parseInt(userInput) == Some(r) && TaskIdExists(r)
      ensures (userInput != "0" && parseInt(userInput).Some? && TaskIdExists(parseInt(userInput).value))
                ==> r == parseInt(userInput).value
    {
      if userInput == "0" then 0
      else
        var (valid, taskId) := ValidateTaskId(userInput, parseInt);
        if valid then taskId else -1
    }

    /** With positive ids the three outcomes never overlap: cancel, a found task, or not found. */
    lemma TaskIdOutcomesAreDistinct(userInput: string, parseInt: string -> Option<int>)
      requires forall t :: t in tasks ==> t.taskId > 0
      ensures GetValidTaskId(userInput, parseInt) == 0 <==> userInput == "0"
      ensures GetValidTaskId(userInput, parseInt) == -1 <==> userInput != "0" && !ValidateTaskId(userInput, parseInt).0
      ensures GetValidTaskId(userInput, parseInt) > 0 <==> userInput != "0" && ValidateTaskId(userInput, parseInt).0
      ensures GetValidTaskId(userInput, parseInt) > 0 ==> FindTaskById(GetValidTaskId(userInput, parseInt)) != null
    {
      var r := GetValidTaskId(userInput, parseInt);
      if userInput != "0" && r != -1 {
        var t := FindTaskById(r);
        assert t != null && t in tasks;
      }
    }

    // ---------------------------------------------------------------- deletion and editing

    /** `Tasks.Remove(FindTaskById(taskId))`: drops the first task with this id, if any. */
    method DeleteTask(taskId: int)
      modifies this
      ensures tasks == old(WithoutFirstId(tasks, taskId))
      ensures currentTaskId == old(currentTaskId) && file == old(file)
      ensures old(IdsIssued()) ==> IdsIssued()
      ensures old(UniqueIds(tasks)) ==> UniqueIds(tasks)
    {
      WithoutFirstIdKeepsIds(tasks, taskId, currentTaskId);
      var target := FindTaskById(taskId);
      if target != null {
        // List.Remove drops the first element that is this very reference.
        FirstReferenceIsFirstMatch(tasks, taskId);
        var i := IndexOfRef(tasks, target);
        tasks := tasks[..i] + tasks[i + 1..];
      }
    }

    /**
     * Applies the edit selected by `editChoice` to `taskToEdit`, reading any new
     * value from `input`: "1" title, "2" description, "3" due date, "4" flips the
     * completion flag, "5" deletes the task with its id from the list; each of
     * these then saves the list. "6" and any other choice change nothing.
     */
    method EditTask(taskToEdit: TaskBase, editChoice: string, input: seq<string>, parseDate: string -> Option<Tick>)
      returns (used: nat)
      requires editChoice == "1" || editChoice == "2" ==> input != []
      requires editChoice == "3" ==> Prompts.HasValidDate(input, parseDate)
      modifies this, taskToEdit
      ensures used <= |input| && currentTaskId == old(currentTaskId)
      ensures editChoice == "1" ==> used == 1 && taskToEdit.Data() == old(taskToEdit.Data()).(title := input[0])
      ensures editChoice == "2" ==> used == 1 && taskToEdit.Data() == old(taskToEdit.Data()).(description := input[0])
      ensures editChoice == "3" ==>
                && used >= 1
                && parseDate(input[used - 1]) == Some(taskToEdit.dueDate)
                && (forall j :: 0 <= j < used - 1 ==> parseDate(input[j]).None?)
                && taskToEdit.Data() == old(taskToEdit.Data()).(dueDate := taskToEdit.dueDate)
      ensures editChoice == "4" ==> taskToEdit.Data() == old(taskToEdit.Data()).(isComplete := !old(taskToEdit.taskIsComplete))
      ensures editChoice !in {"1", "2", "3", "4"} ==> taskToEdit.Data() == old(taskToEdit.Data())
      ensures editChoice !in {"1", "2", "3"} ==> used == 0
      ensures forall t :: t in old(tasks) && t != taskToEdit ==> t.Data() == old(t.Data())
      ensures editChoice == "5" ==> tasks == old(WithoutFirstId(tasks, taskToEdit.taskId))
      ensures editChoice != "5" ==> tasks == old(tasks)
      ensures editChoice in {"1", "2", "3", "4", "5"} ==> file == Some(Snapshot(tasks))
      ensures editChoice !in {"1", "2", "3", "4", "5"} ==> file == old(file)
    {
      used := 0;
      if editChoice == "1" {
        taskToEdit.SetTaskTitle(input[0]);
        used := 1;
        SaveTasksToFile();
      } else if editChoice == "2" {
        taskToEdit.SetTaskDescription(input[0]);
        used := 1;
        SaveTasksToFile();
      } else if editChoice == "3" {
        var dueDate, dateLines, _ := Prompts.ValidatedUserDateInput(input, parseDate);
        taskToEdit.SetDueDate(dueDate);
        used := dateLines;
        SaveTasksToFile();
      } else if editChoice == "4" {
        taskToEdit.SetTaskIsComplete(!taskToEdit.taskIsComplete);
        SaveTasksToFile();
      } else if editChoice == "5" {
        DeleteTask(taskToEdit.taskId);
        SaveTasksToFile();
      }
    }

    /**
     * `EditTask` with the id invariant that `CreateTask` relies on: the same
     * edit, and since "1" to "4" change no id and "5" only removes a task, no
     * id exceeds the counter and no two tasks share an id afterwards if that
     * held before.
     */
    method EditKeepsIds(taskToEdit: TaskBase, editChoice: string, input: seq<string>, parseDate: string -> Option<Tick>)
      returns (used: nat)
      requires editChoice == "1" || editChoice == "2" ==> input != []
      requires editChoice == "3" ==> Prompts.HasValidDate(input, parseDate)
      modifies this, taskToEdit
      ensures used <= |input| && currentTaskId == old(currentTaskId)
      ensures editChoice == "1" ==> used == 1 && taskToEdit.Data() == old(taskToEdit.Data()).(title := input[0])
      ensures editChoice == "2" ==> used == 1 && taskToEdit.Data() == old(taskToEdit.Data()).(description := input[0])
      ensures editChoice == "3" ==>
                && used >= 1
                && parseDate(input[used - 1]) == Some(taskToEdit.dueDate)
                && (forall j :: 0 <= j < used - 1 ==> parseDate(input[j]).None?)
                && taskToEdit.Data() == old(taskToEdit.Data()).(dueDate := taskToEdit.dueDate)
      ensures editChoice == "4" ==> taskToEdit.Data() == old(taskToEdit.Data()).(isComplete := !old(taskToEdit.taskIsComplete))
      ensures editChoice !in {"1", "2", "3", "4"} ==> taskToEdit.Data() == old(taskToEdit.Data())
      ensures editChoice !in {"1", "2", "3"} ==> used == 0
      ensures forall t :: t in old(tasks) && t != taskToEdit ==> t.Data() == old(t.Data())
      ensures editChoice == "5" ==> tasks == old(WithoutFirstId(tasks, taskToEdit.taskId))
      ensures editChoice != "5" ==> tasks == old(tasks)
      ensures editChoice in {"1", "2", "3", "4", "5"} ==> file == Some(Snapshot(tasks))
      ensures editChoice !in {"1", "2", "3", "4", "5"} ==> file == old(file)
      ensures old(IdsIssued()) ==> IdsIssued()
      ensures old(UniqueIds(tasks)) ==> UniqueIds(tasks)
    {
      WithoutFirstIdKeepsIds(tasks, taskToEdit.taskId, currentTaskId);
      ghost var survivors := if editChoice == "5" then WithoutFirstId(tasks, taskToEdit.taskId) else tasks;
      assert forall t :: t in survivors ==> t in tasks;
      used := EditTask(taskToEdit, editChoice, input, parseDate);
      forall s | s in old(tasks) ensures s.taskId == old(s.taskId) {
        if s != taskToEdit {
          assert s.Data() == old(s.Data());
        }
      }
      IdsCarryOver(survivors);
    }

    /**
     * The list is now `before`, drawn from the old list, whose tasks all kept
     * their ids, and the counter is unchanged: what held of `before` in the old
     * state holds of the list now.
     */
    twostate lemma IdsCarryOver(before: seq<TaskBase>)
      requires tasks == before && currentTaskId == old(currentTaskId)
      requires forall t :: t in before ==> t in old(tasks)
      requires forall t :: t in old(tasks) ==> t.taskId == old(t.taskId)
      ensures old(forall t :: t in before ==> t.taskId <= currentTaskId) ==> IdsIssued()
      ensures old(UniqueIds(before)) ==> UniqueIds(tasks)
    {
    }

    /** Choosing "4" twice gives the task back its completion flag, saving each time. */
    method ToggleCompletionTwice(taskToEdit: TaskBase, parseDate: string -> Option<Tick>)
      modifies this, taskToEdit
      ensures taskToEdit.Data() == old(taskToEdit.Data())
      ensures tasks == old(tasks) && file == Some(Snapshot(tasks))
    {
      var _ := EditTask(taskToEdit, "4", [], parseDate);
      var _ := EditTask(taskToEdit, "4", [], parseDate);
    }

    /** Choosing "5" on a task of a list with unique ids removes it: one task fewer, and the id is gone. */
    method DeleteThroughEditor(taskToEdit: TaskBase, parseDate: string -> Option<Tick>)
      requires UniqueIds(tasks) && TaskIdExists(taskToEdit.taskId)
      modifies this, taskToEdit
      ensures |tasks| == |old(tasks)| - 1
      ensures !TaskIdExists(taskToEdit.taskId)
    {
      ghost var id := taskToEdit.taskId;
      RemovedIdIsGone(tasks, id);
      var _ := EditTask(taskToEdit, "5", [], parseDate);
    }
  }

  /** A fresh store with no file gives its first task id 1. */
  method FirstTaskOfFreshStore(input: seq<string>, parseDate: string -> Option<Tick>) returns (id: int)
    requires |input| >= 2 && Prompts.HasValidDate(input[2..], parseDate)
    ensures id == 1
  {
    var manager := new TaskManager(None);
    manager.InitializeApp();
    var newTask, _ := manager.CreateTask(input, parseDate);
    id := newTask.taskId;
  }

  /**
   * The partial-title unit test: five tasks, of which "Task 1", "Task 2" and
   * "Another Task 1" contain "Task"; the search returns those three, in list order.
   */
  method PartialTitleSearchFindsThree(now: Tick, day: Tick) returns (matching: seq<TaskBase>)
    ensures |matching| == 3
    ensures [matching[0].taskTitle, matching[1].taskTitle, matching[2].taskTitle] == ["Task 1", "Task 2", "Another Task 1"]
  {
    var t1 := new TaskBase(1, "Task 1", "Description 1", now, true);
    var t2 := new TaskBase(2, "Task 2", "Description 2", now + day, false);
    var t3 := new TaskBase(3, "Another Title 1", "Description 3", now + 2 * day, true);
    var t4 := new TaskBase(4, "Another Title 2", "Description 4", now + 10 * day, false);
    var t5 := new TaskBase(5, "Another Task 1", "Description 5", now + 2 * day, false);
    var manager := new TaskManager(None);
    manager.tasks := [t1, t2, t3, t4, t5];
    TaskTitleSearchOnFive(manager.tasks);
    matching := manager.FindTasksByPartialTitle("Task");
  }

  /** Filtering the five tasks of the partial-title unit test by "Task" keeps the first, second and fifth. */
  lemma TaskTitleSearchOnFive(ts: seq<TaskBase>)
    requires |ts| == 5
    requires ts[0].taskTitle == "Task 1" && ts[1].taskTitle == "Task 2"
    requires ts[2].taskTitle == "Another Title 1" && ts[3].taskTitle == "Another Title 2"
    requires ts[4].taskTitle == "Another Task 1"
    ensures Where(ts, TitleContains("Task")) == [ts[0], ts[1], ts[4]]
  {
    PartialTitleExamples();
    var p := TitleContains("Task");
    assert p(ts[0].Data()) && p(ts[1].Data()) && p(ts[4].Data());
    assert !p(ts[2].Data()) && !p(ts[3].Data());
    var w4 := Where(ts[4..], p);
    assert w4 == [ts[4]] by {
      assert ts[4..][0] == ts[4] && ts[4..][1..] == [];
    }
    var w3 := Where(ts[3..], p);
    assert w3 == w4 by {
      assert ts[3..][0] == ts[3] && ts[3..][1..] == ts[4..];
    }
    var w2 := Where(ts[2..], p);
    assert w2 == w3 by {
      assert ts[2..][0] == ts[2] && ts[2..][1..] == ts[3..];
    }
    var w1 := Where(ts[1..], p);
    assert w1 == [ts[1]] + w2 by {
      assert ts[1..][0] == ts[1] && ts[1..][1..] == ts[2..];
    }
    assert Where(ts, p) == [ts[0]] + w1;
  }
}
