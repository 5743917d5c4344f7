/**
 * The task record of TaskBase.cs: a class whose five auto-properties are
 * set by the constructor and overwritten in place later by the editor.
 */
module Tasks {

  /** A DateTime, seen as its tick count: two due dates are equal exactly when their ticks are. */
  type Tick = int

  /** The five property values of one task: what the JSON file holds for it. */
  datatype TaskData = TaskData(id: int, title: string, description: string, dueDate: Tick, isComplete: bool)

  class TaskBase {
    var taskId: int
    var taskTitle: string
    var taskDescription: string
    var dueDate: Tick
    var taskIsComplete: bool

    /** The current property values of this task. */
    function Data(): (d: TaskData)
      reads this
    {
      TaskData(taskId, taskTitle, taskDescription, dueDate, taskIsComplete)
    }

    /** Stores the arguments unchanged; the completion flag is false unless given. */
    constructor (id: int, title: string, description: string, dueDate: Tick, taskCompleted: bool := false)
      ensures Data() == TaskData(id, title, description, dueDate, taskCompleted)
    {
      taskId := id;
      taskTitle := title;
      taskDescription := description;
      this.dueDate := dueDate;
      taskIsComplete := taskCompleted;
    }

    // One setter per property; each leaves the other four properties as they were.

    method SetTaskId(value: int)
      modifies this
      ensures Data() == old(Data()).(id := value)
    {
      taskId := value;
    }

    method SetTaskTitle(value: string)
      modifies this
      ensures Data() == old(Data()).(title := value)
    {
      taskTitle := value;
    }

    method SetTaskDescription(value: string)
      modifies this
      ensures Data() == old(Data()).(description := value)
    {
      taskDescription := value;
    }

    method SetDueDate(value: Tick)
      modifies this
      ensures Data() == old(Data()).(dueDate := value)
    {
      dueDate := value;
    }

    method SetTaskIsComplete(value: bool)
      modifies this
      ensures Data() == old(Data()).(isComplete := value)
    {
      taskIsComplete := value;
    }
  }

  /** The constructor's default: a task built without a completion flag is not complete. */
  method NewTaskDefaultsToIncomplete(id: int, title: string, description: string, dueDate: Tick)
    returns (complete: bool)
    ensures !complete
  {
    var t := new TaskBase(id, title, description, dueDate);
    complete := t.taskIsComplete;
  }
}
