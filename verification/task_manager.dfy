/**
 * The server's in-memory task table (task_manager.py): a map from task id to a task
 * record, changed in place by create, update and cleanup. The lock around each
 * operation is not modelled: every operation here runs to completion before the next.
 */
module Tasks {
  import opened Common

  /** The task status enumeration; `Value` is the string stored in the record. */
  datatype TaskStatus =
    | Pending | Processing | OcrCompleted | TextProcessing | TtsGenerating | Completed | Failed
  {
    function Value(): (v: string)
      ensures |v| > 0
    {
      match this
      case Pending => "pending"
      case Processing => "processing"
      case OcrCompleted => "ocr_completed"
      case TextProcessing => "text_processing"
      case TtsGenerating => "tts_generating"
      case Completed => "completed"
      case Failed => "failed"
    }

    /** True for the two statuses after which the pipeline makes no further update. */
    predicate IsTerminal() {
      this == Completed || this == Failed
    }
  }

  /** Distinct statuses are stored as distinct strings, so the enum and its value agree. */
  lemma StatusValueInjective(a: TaskStatus, b: TaskStatus)
    ensures a.Value() == b.Value() <==> a == b
  {
  }

  /** The three stage names of the `progress` map, in pipeline order. */
  const Stages: seq<string> := ["ocr", "text_processing", "tts"]

  /** Task lifetime before cleanup, in seconds (`self.task_ttl`). */
  const TaskTtl: int := 3600

  /** Timestamps are integer microseconds, the resolution of `datetime.isoformat()`. */
  const MicrosPerSecond: int := 1_000_000

  /** One task record. `createdAt` and `updatedAt` are microsecond timestamps. */
  datatype Task<R> = Task(
    taskId: string,
    filename: string,
    filepath: string,
    status: TaskStatus,
    progress: map<string, string>,
    createdAt: int,
    updatedAt: int,
    result: Option<R>,
    error: Option<string>)

  /** The record `create_task` stores for a fresh id. */
  function NewTask<R>(id: string, filename: string, filepath: string, now: int): (t: Task<R>)
    ensures t.taskId == id && t.filename == filename && t.filepath == filepath
    ensures t.status == Pending && t.result == None && t.error == None
    ensures forall s :: s in Stages ==> s in t.progress && t.progress[s] == "pending"
    ensures t.progress.Keys == set s | s in Stages
    ensures t.createdAt == now && t.updatedAt == now
  {
    Task(id, filename, filepath, Pending,
         map["ocr" := "pending", "text_processing" := "pending", "tts" := "pending"],
         now, now, None, None)
  }

  /** Python truthiness of the optional `error` argument: present and non-empty. */
  predicate ErrorGiven(error: Option<string>) {
    error.Some? && error.value != ""
  }

  /**
   * The record after `update_task_status(status, progress, result, error)`: the status is
   * set, `progress` merges only the keys it supplies, `result` is overwritten only when
   * given, and a non-empty error is recorded and forces the status to failed.
   */
  function Updated<R>(t: Task<R>, status: TaskStatus, progress: map<string, string>,
                      result: Option<R>, error: Option<string>, now: int): (u: Task<R>)
    ensures u.taskId == t.taskId && u.filename == t.filename && u.filepath == t.filepath
    ensures u.createdAt == t.createdAt && u.updatedAt == now
    ensures u.status == (if ErrorGiven(error) then Failed else status)
    ensures u.progress.Keys == t.progress.Keys + progress.Keys
    ensures forall k :: k in progress ==> u.progress[k] == progress[k]
    ensures forall k :: k in t.progress && k !in progress ==> u.progress[k] == t.progress[k]
    ensures u.result == (if result.Some? then result else t.result)
    ensures u.error == (if ErrorGiven(error) then error else t.error)
  {
    var t1 := t.(status := status, updatedAt := now);
    var t2 := if progress != map[] then t1.(progress := t1.progress + progress) else t1;
    var t3 := if result.Some? then t2.(result := result) else t2;
    if ErrorGiven(error) then t3.(error := error, status := Failed) else t3
  }

  /** An update with no progress, no result and no error only sets the status and time. */
  lemma UpdateStatusOnly<R>(t: Task<R>, status: TaskStatus, now: int)
    ensures Updated(t, status, map[], None, None, now) == t.(status := status, updatedAt := now)
  {
  }

  /** A task is expired when more than `TaskTtl` seconds passed since its creation. */
  predicate Expired<R>(t: Task<R>, now: int) {
    now - t.createdAt > TaskTtl * MicrosPerSecond
  }

  /** The table `cleanup_old_tasks` leaves: every task that is not expired, unchanged. */
  function Live<R>(tasks: map<string, Task<R>>, now: int): (m: map<string, Task<R>>)
    ensures m.Keys <= tasks.Keys
    ensures forall k :: k in tasks ==> (k in m <==> !Expired(tasks[k], now))
    ensures forall k :: k in m ==> m[k] == tasks[k]
  {
    map k | k in tasks && !Expired(tasks[k], now) :: tasks[k]
  }

  /** Cleaning up twice at the same time removes nothing the first pass kept. */
  lemma LiveIdempotent<R>(tasks: map<string, Task<R>>, now: int)
    ensures Live(Live(tasks, now), now) == Live(tasks, now)
  {
  }

  /** A later cleanup keeps no task that an earlier one removed. */
  lemma LiveShrinksOverTime<R>(tasks: map<string, Task<R>>, now: int, later: int)
    requires now <= later
    ensures Live(tasks, later).Keys <= Live(tasks, now).Keys
  {
  }

  class TaskManager<R> {
    /** The task table, `self.tasks`. */
    var tasks: map<string, Task<R>>

    /**
     * Every record is stored under its own id and tracks the three stages (updates only
     * ever add keys to `progress`).
     */
    ghost predicate Valid()
      reads this
    {
      forall k :: k in tasks ==>
        tasks[k].taskId == k && (set s | s in Stages) <= tasks[k].progress.Keys
    }

    constructor ()
      ensures Valid() && tasks == map[]
    {
      tasks := map[];
    }

    /**
     * `create_task`. The id is the caller-supplied `uuid4()` value, which the source
     * relies on being new to the table.
     */
    method CreateTask(id: string, filename: string, filepath: string, now: int)
      returns (taskId: string)
      requires Valid() && id !in tasks
      modifies this
      ensures Valid()
      ensures taskId == id && taskId !in old(tasks)
      ensures tasks == old(tasks)[id := NewTask(id, filename, filepath, now)]
    {
      tasks := tasks[id := NewTask(id, filename, filepath, now)];
      taskId := id;
    }

    /** `get_task`: the stored record, or None for an unknown id. */
    function GetTask(id: string): (r: Option<Task<R>>)
      reads this
      ensures r.Some? <==> id in tasks
      ensures r.Some? ==> r.value == tasks[id]
    {
      if id in tasks then Some(tasks[id]) else None
    }

    /** `update_task_status`: changes the one record named, and nothing for an unknown id. */
    method UpdateTaskStatus(id: string, status: TaskStatus, progress: map<string, string>,
                            result: Option<R>, error: Option<string>, now: int)
      requires Valid()
      modifies this
      ensures Valid()
      ensures id !in old(tasks) ==> tasks == old(tasks)
      ensures id in old(tasks) ==>
        tasks == old(tasks)[id := Updated(old(tasks)[id], status, progress, result, error, now)]
    {
      if id in tasks {
        var task := tasks[id];
        task := task.(status := status, updatedAt := now);
        if progress != map[] {
          task := task.(progress := task.progress + progress);
        }
        if result.Some? {
          task := task.(result := result);
        }
        if error.Some? && error.value != "" {
          task := task.(error := error, status := Failed);
        }
        tasks := tasks[id := task];
      }
    }

    /** `cleanup_old_tasks`: first collect the expired ids, then delete them. */
    method CleanupOldTasks(now: int)
      requires Valid()
      modifies this
      ensures Valid()
      ensures tasks == Live(old(tasks), now)
    {
      var expired: seq<string> := [];
      var pending := tasks.Keys;
      while pending != {}
        invariant pending <= tasks.Keys
        invariant forall k :: k in expired <==> k in tasks && k !in pending && Expired(tasks[k], now)
        decreases pending
      {
        var k :| k in pending;
        if Expired(tasks[k], now) {
          expired := expired + [k];
        }
        pending := pending - {k};
      }
      var i := 0;
      while i < |expired|
        invariant 0 <= i <= |expired|
        invariant tasks.Keys == old(tasks).Keys - set j | 0 <= j < i :: expired[j]
        invariant forall k :: k in tasks ==> tasks[k] == old(tasks)[k]
      {
        tasks := tasks - {expired[i]};
        i := i + 1;
      }
    }
  }
}
