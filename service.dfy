/**
 * service/link_service.go: LinkService, the task registry. It maps task
 * IDs to tasks, each holding its links in insertion order.
 *
 * The registry is single-threaded here (the read/write lock is left out)
 * and the fresh ID that `uuid.New` would draw is a parameter of CreateTask.
 * The configuration is stored but, as in the source, never consulted: no
 * operation enforces a per-task link limit or an extension allow-list.
 */
module Service {
  import opened Wrappers

  type TaskId = string
  type Link = string

  /** A task: its ID and its links in the order they were added. */
  datatype Task = Task(id: TaskId, links: seq<Link>)

  /** The configured limits and allowed file types, read as plain values. */
  datatype Config = Config(
    maxConcurrentTasks: int,
    maxFilesPerTask: int,
    maxFileSizeMB: int,
    allowedTypes: seq<string>)

  datatype RegistryError = TaskNotFound(id: TaskId)

  class LinkService {
    var tasks: map<TaskId, Task>
    const cfg: Config

    /** Every task is stored under its own ID. */
    ghost predicate Valid()
      reads this
    {
      forall id :: id in tasks ==> tasks[id].id == id
    }

    /** New: a registry with no tasks. */
    constructor (cfg: Config)
      ensures Valid()
      ensures tasks == map[] && this.cfg == cfg
      ensures ActiveTasksCount() == 0
    {
      tasks := map[];
      this.cfg := cfg;
    }

    /**
     * Registers `newId` (the ID the generator drew) with an empty link list
     * and returns it. An ID already present would be overwritten.
     */
    method CreateTask(newId: TaskId) returns (taskId: TaskId)
      requires Valid()
      modifies this
      ensures Valid()
      ensures taskId == newId
      ensures tasks == old(tasks)[newId := Task(newId, [])]
      ensures GetLinks(newId) == Ok([])
      ensures forall id :: id != newId ==> GetLinks(id) == old(GetLinks(id))
      ensures newId !in old(tasks) ==> ActiveTasksCount() == old(ActiveTasksCount()) + 1
    {
      tasks := tasks[newId := Task(newId, [])];
      taskId := newId;
    }

    /**
     * Appends `link` at the end of the task's links, without a limit or a
     * type check; an unknown task is an error and changes nothing.
     */
    method AddLink(taskId: TaskId, link: Link) returns (err: Option<RegistryError>)
      requires Valid()
      modifies this
      ensures Valid()
      ensures err == None <==> taskId in old(tasks)
      ensures err != None ==> err == Some(TaskNotFound(taskId)) && tasks == old(tasks)
      ensures err == None ==> GetLinks(taskId) == Ok(old(GetLinks(taskId)).value + [link])
      ensures forall id :: id != taskId ==> GetLinks(id) == old(GetLinks(id))
      ensures ActiveTasksCount() == old(ActiveTasksCount())
    {
      if taskId !in tasks {
        return Some(TaskNotFound(taskId));
      }
      var task := tasks[taskId];
      tasks := tasks[taskId := task.(links := task.links + [link])];
      err := None;
    }

    /** The task's links in insertion order, or an error for an unknown task. */
    function GetLinks(taskId: TaskId): (r: Result<seq<Link>, RegistryError>)
      reads this
      ensures r.Ok? <==> taskId in tasks
      ensures r.Ok? ==> r.value == tasks[taskId].links
      ensures r.Err? ==> r.error == TaskNotFound(taskId)
    {
      if taskId in tasks then Ok(tasks[taskId].links) else Err(TaskNotFound(taskId))
    }

    /** Removes the task; an unknown task is an error and changes nothing. */
    method ClearTask(taskId: TaskId) returns (err: Option<RegistryError>)
      requires Valid()
      modifies this
      ensures Valid()
      ensures err == None <==> taskId in old(tasks)
      ensures err != None ==> err == Some(TaskNotFound(taskId)) && tasks == old(tasks)
      ensures GetLinks(taskId) == Err(TaskNotFound(taskId))
      ensures GetTaskStatus(taskId) == Err(TaskNotFound(taskId))
      ensures forall id :: id != taskId ==> GetLinks(id) == old(GetLinks(id))
      ensures err == None ==> ActiveTasksCount() == old(ActiveTasksCount()) - 1
    {
      if taskId !in tasks {
        return Some(TaskNotFound(taskId));
      }
      tasks := tasks - {taskId};
      err := None;
    }

    /** The number of links of the task: the length of GetLinks, failing on exactly the same IDs. */
    function GetTaskStatus(taskId: TaskId): (r: Result<int, RegistryError>)
      reads this
      ensures r.Ok? <==> GetLinks(taskId).Ok?
      ensures r.Ok? ==> r.value == |GetLinks(taskId).value|
      ensures r.Err? ==> r.error == GetLinks(taskId).error
    {
      if taskId in tasks then Ok(|tasks[taskId].links|) else Err(TaskNotFound(taskId))
    }

    /** The number of registered tasks. */
    function ActiveTasksCount(): (n: nat)
      reads this
      ensures n == |tasks.Keys|
    {
      |tasks|
    }
  }
}
