/**
 * The TaskManager component's state and handlers. The component holds the
 * list `tasks` and the input draft `newTask`; each handler awaits one call
 * of the task service and only then updates the state ("confirm, then
 * apply"), and a rejected call leaves the state as it was.
 *
 * The service is not modelled: each handler takes the outcome the awaited
 * call would settle with (`reply`) and returns the call it issues, so that
 * both the issued request and the two branches can be stated.
 */
module TaskManagerState {
  import opened JsTrim
  import opened TaskList

  datatype Option<T> = None | Some(value: T)

  /** How an awaited service call settles: resolved with a value, or rejected. */
  datatype Outcome<T> = Ok(value: T) | Fail

  /** The task-service calls the handlers make. */
  datatype Request =
    | FetchTasks
    | CreateTask(title: string)
    | DeleteTask(id: string)
    | UpdateTask(id: string, completed: bool)

  /** The `maxLength` of the draft input field. */
  const MaxDraftLength: nat := 100

  class TaskManager {
    var tasks: seq<Task>
    var newTask: string

    /** The draft never exceeds the input's `maxLength`. This only records
        the bound the input field enforces; no handler's behaviour depends
        on it. */
    ghost predicate Valid()
      reads this
    {
      |newTask| <= MaxDraftLength
    }

    /** Initial state: no tasks, empty draft. */
    constructor ()
      ensures Valid()
      ensures tasks == [] && newTask == ""
    {
      tasks := [];
      newTask := "";
    }

    /** The input's change handler: the draft becomes what was typed. */
    method SetNewTask(value: string)
      requires Valid()
      requires |value| <= MaxDraftLength
      modifies this
      ensures Valid()
      ensures newTask == value && tasks == old(tasks)
    {
      newTask := value;
    }

    /** `loadTasks`: fetch the list and take it wholesale, in the order the
        server returned it. The source has no `catch` here; a rejected fetch
        never reaches `setTasks`, so the list stays as it was. */
    method LoadTasks(reply: Outcome<seq<Task>>) returns (sent: Request)
      requires Valid()
      modifies this
      ensures Valid()
      ensures sent == FetchTasks
      ensures newTask == old(newTask)
      ensures reply.Ok? ==> tasks == reply.value
      ensures reply.Fail? ==> tasks == old(tasks)
    {
      sent := FetchTasks;
      match reply
      case Ok(data) => tasks := data;
      case Fail =>
    }

    /** `handleAdd`: a blank draft is refused before any call; otherwise the
        raw, untrimmed draft is sent as the title, and on success the
        server's task goes in front and the draft is cleared. */
    method HandleAdd(reply: Outcome<Task>) returns (sent: Option<Request>)
      requires Valid()
      modifies this
      ensures Valid()
      ensures IsBlank(old(newTask)) ==>
                sent == None && tasks == old(tasks) && newTask == old(newTask)
      ensures !IsBlank(old(newTask)) ==> sent == Some(CreateTask(old(newTask)))
      ensures !IsBlank(old(newTask)) && reply.Ok? ==>
                && tasks == [reply.value] + old(tasks)
                && newTask == ""
      ensures !IsBlank(old(newTask)) && reply.Fail? ==>
                tasks == old(tasks) && newTask == old(newTask)
      ensures UniqueIds(old(tasks)) && (reply.Ok? ==> reply.value.id !in Ids(old(tasks))) ==>
                UniqueIds(tasks)
    {
      if IsBlank(newTask) {
        sent := None;
        return;
      }
      sent := Some(CreateTask(newTask));
      match reply
      case Ok(task) =>
        PrependKeepsUniqueIds(task, tasks);
        tasks := [task] + tasks;
        newTask := "";
      case Fail =>
    }

    /** `handleDelete`: after the service confirms, every task with that id
        is dropped and the others keep their order. */
    method HandleDelete(id: string, reply: Outcome<()>) returns (sent: Request)
      requires Valid()
      modifies this
      ensures Valid()
      ensures sent == DeleteTask(id)
      ensures newTask == old(newTask)
      ensures reply.Ok? ==>
                && tasks == RemoveById(old(tasks), id)
                && id !in Ids(tasks)
                && |tasks| == |old(tasks)| - CountId(old(tasks), id)
                && IsSubsequence(tasks, old(tasks))
      ensures reply.Fail? ==> tasks == old(tasks)
      ensures UniqueIds(old(tasks)) ==> UniqueIds(tasks)
    {
      sent := DeleteTask(id);
      match reply
      case Ok(_) =>
        RemoveByIdKeepsOrder(tasks, id);
        RemoveByIdMembers(tasks, id);
        if UniqueIds(tasks) {
          RemoveByIdKeepsUniqueIds(tasks, id);
        }
        tasks := RemoveById(tasks, id);
      case Fail =>
    }

    /** `toggleComplete`: ask for the negated flag of the task as it was
        rendered, then substitute the server's record at every position
        holding that id. */
    method ToggleComplete(task: Task, reply: Outcome<Task>) returns (sent: Request)
      requires Valid()
      modifies this
      ensures Valid()
      ensures sent == UpdateTask(task.id, !task.completed)
      ensures newTask == old(newTask)
      ensures reply.Ok? ==>
                && |tasks| == |old(tasks)|
                && forall i :: 0 <= i < |tasks| ==>
                     tasks[i] == (if old(tasks)[i].id == task.id then reply.value else old(tasks)[i])
      ensures reply.Fail? ==> tasks == old(tasks)
      ensures UniqueIds(old(tasks)) && (reply.Ok? ==> reply.value.id == task.id) ==>
                UniqueIds(tasks)
    {
      sent := UpdateTask(task.id, !task.completed);
      match reply
      case Ok(updated) =>
        if updated.id == task.id {
          ReplaceSameIdKeepsIds(tasks, task.id, updated);
        }
        tasks := ReplaceById(tasks, task.id, updated);
      case Fail =>
    }
  }

  /** A draft of spaces is blank; a draft with a letter in it is not. */
  lemma BlankExamples()
    ensures IsBlank("   ") && !IsBlank("walk dog")
  {
  }

  /** A session on the add path: load one task, refuse a blank draft, fail
      to add, then add a second task in front. */
  method AddSession() {
    var m := new TaskManager();
    var milk := Task("1", "buy milk", false);
    var dog := Task("2", "walk dog", false);

    var sent := m.LoadTasks(Ok([milk]));
    assert m.tasks == [milk];

    var spaces, title := "   ", "walk dog";
    BlankExamples();

    m.SetNewTask(spaces);
    var added := m.HandleAdd(Ok(dog));
    assert added == None && m.tasks == [milk] && m.newTask == spaces;

    m.SetNewTask(title);
    added := m.HandleAdd(Fail);
    assert added == Some(CreateTask(title)) && m.tasks == [milk] && m.newTask == title;
    added := m.HandleAdd(Ok(dog));
    assert m.tasks == [dog, milk] && m.newTask == "";
  }

  /** A session on the toggle and delete paths: toggle the first of two
      tasks, fail to delete the second, then delete it. */
  method ToggleDeleteSession() {
    var m := new TaskManager();
    var milk := Task("1", "buy milk", false);
    var dog := Task("2", "walk dog", false);
    var sent := m.LoadTasks(Ok([dog, milk]));

    var doneDog := dog.(completed := true);
    sent := m.ToggleComplete(dog, Ok(doneDog));
    assert sent == UpdateTask("2", true);
    assert m.tasks == [doneDog, milk];

    sent := m.HandleDelete("1", Fail);
    assert m.tasks == [doneDog, milk];
    sent := m.HandleDelete("1", Ok(()));
    assert m.tasks == [doneDog] by {
      assert [doneDog, milk] == [doneDog] + [milk];
      assert RemoveById([doneDog, milk], "1") == [doneDog] + RemoveById([milk], "1");
    }
  }
}
