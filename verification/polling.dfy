/**
 * The task-polling hook of frontend/lib/hooks/useTaskPolling.ts as a sequence of events:
 * React re-running the effect for a new task id, the interval timer firing, a status
 * query answering or failing, and the component unmounting. Timers are handles in a map
 * from handle to the task id its `poll` closure queries.
 */
module Polling {
  import opened Common

  /** The fields of a status response (`TaskResult` of frontend/lib/api.ts) that the views read. */
  datatype TaskView = TaskView(taskId: string, status: string, progress: Option<map<string, string>>)

  /** A status after which polling stops. */
  predicate Terminal(status: string) {
    status == "completed" || status == "failed"
  }

  const QueryFailedMessage := "查询失败"

  class TaskPoller {
    var task: Option<TaskView>
    var loading: bool
    var error: Option<string>
    var intervalRef: Option<nat>           // `intervalRef.current`
    var armed: map<nat, string>            // running intervals and the task id each one polls
    var nextHandle: nat                    // the handle the next `setInterval` returns
    var queries: seq<string>               // the task ids passed to `getTaskStatus`, in order
    var hasCleanup: bool                   // whether the last effect run returned a cleanup
    const period: nat                      // `interval`, in milliseconds

    /**
     * At most one interval runs, it is the one `intervalRef` names, and only an effect run
     * that returned a cleanup can have left one running.
     */
    ghost predicate Valid()
      reads this
    {
      && (forall h :: h in armed ==> intervalRef == Some(h))
      && (!hasCleanup ==> armed == map[])
      && (forall h :: h in armed ==> h < nextHandle)
    }

    /** A freshly mounted hook, before its effect ran. */
    constructor(period: nat)
      ensures Valid()
      ensures this.period == period && task == None && !loading && error == None
      ensures intervalRef == None && armed == map[] && queries == [] && !hasCleanup
    {
      this.period := period;
      task := None;
      loading := false;
      error := None;
      intervalRef := None;
      armed := map[];
      nextHandle := 0;
      queries := [];
      hasCleanup := false;
    }

    /** The effect's cleanup: clears the interval `intervalRef` names, but leaves the ref set. */
    method Cleanup()
      requires Valid()
      modifies this
      ensures Valid()
      ensures armed == map[]
      ensures intervalRef == old(intervalRef) && task == old(task) && loading == old(loading) && error == old(error)
      ensures queries == old(queries) && nextHandle == old(nextHandle) && hasCleanup == old(hasCleanup)
    {
      if intervalRef.Some? {
        armed := armed - {intervalRef.value};
      }
    }

    /**
     * React re-running the effect for `taskId`: the previous run's cleanup first, then,
     * for a non-empty id, one immediate query and a new interval polling that id.
     */
    method Effect(taskId: Option<string>)
      requires Valid()
      modifies this
      ensures Valid()
      ensures taskId.None? || taskId == Some("") ==>
                && armed == map[] && !hasCleanup && queries == old(queries)
                && loading == old(loading) && error == old(error) && intervalRef == old(intervalRef)
      ensures taskId.Some? && taskId != Some("") ==>
                && armed == map[old(nextHandle) := taskId.value] && intervalRef == Some(old(nextHandle))
                && loading && error == None && hasCleanup && queries == old(queries) + [taskId.value]
      ensures task == old(task)
    {
      if hasCleanup {
        Cleanup();
      }
      if taskId.None? || taskId == Some("") {
        hasCleanup := false;
        return;
      }
      loading := true;
      error := None;
      queries := queries + [taskId.value];
      armed := map[];
      armed := armed[nextHandle := taskId.value];
      intervalRef := Some(nextHandle);
      nextHandle := nextHandle + 1;
      hasCleanup := true;
    }

    /** The component unmounting: React runs the last effect's cleanup. */
    method Unmount()
      requires Valid()
      modifies this
      ensures Valid()
      ensures armed == map[] && task == old(task) && queries == old(queries)
    {
      if hasCleanup {
        Cleanup();
      }
    }

    /** Interval `h` firing: a running interval queries its task again; a cleared one never fires. */
    method Tick(h: nat)
      requires Valid()
      modifies this
      ensures Valid()
      ensures h in old(armed) ==> queries == old(queries) + [old(armed)[h]]
      ensures h !in old(armed) ==> queries == old(queries)
      ensures armed == old(armed) && intervalRef == old(intervalRef) && task == old(task)
      ensures loading == old(loading) && error == old(error)
    {
      if h in armed {
        queries := queries + [armed[h]];
      }
    }

    /**
     * A query answering. The answer is shown whichever task it was asked for; a terminal
     * status clears and forgets whatever interval `intervalRef` names at that moment.
     */
    method Response(result: TaskView)
      requires Valid()
      modifies this
      ensures Valid()
      ensures task == Some(result) && !loading && error == old(error)
      ensures Terminal(result.status) ==> armed == map[] && intervalRef == None
      ensures !Terminal(result.status) ==> armed == old(armed) && intervalRef == old(intervalRef)
      ensures queries == old(queries)
    {
      task := Some(result);
      loading := false;
      if Terminal(result.status) && intervalRef.Some? {
        armed := armed - {intervalRef.value};
        intervalRef := None;
      }
    }

    /** A query throwing: its `Error` message or `查询失败` is shown and polling stops. */
    method QueryError(message: Option<string>)
      requires Valid()
      modifies this
      ensures Valid()
      ensures error == Some(if message.Some? then message.value else QueryFailedMessage)
      ensures !loading && armed == map[] && intervalRef == None
      ensures task == old(task) && queries == old(queries)
    {
      error := Some(if message.Some? then message.value else QueryFailedMessage);
      loading := false;
      if intervalRef.Some? {
        armed := armed - {intervalRef.value};
        intervalRef := None;
      }
    }
  }

  /**
   * An answer is not matched against the task it was asked for: an answer for the previous
   * task that arrives after the id changed is shown, and its terminal status stops the
   * polling of the new task.
   */
  method LateAnswerForPreviousTask() returns (poller: TaskPoller)
    ensures poller.queries == ["a", "b"]
    ensures poller.task == Some(TaskView("a", "completed", None))
    ensures poller.armed == map[] && poller.intervalRef == None
  {
    poller := new TaskPoller(1000);
    poller.Effect(Some("a"));
    poller.Effect(Some("b"));
    poller.Response(TaskView("a", "completed", None));
  }
}
