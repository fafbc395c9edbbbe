/**
 * A batch of arena tasks that can be cancelled together (ArenaBatchScheduler.java).
 */
module BatchScheduling {
  import opened Scheduling

  /** `ArenaBatchScheduler`: schedules through `ArenaScheduler` for one arena and keeps every handle. */
  class ArenaBatchScheduler {
    const arena: GameManager
    /** The handles in `_tasks`, oldest first. */
    var tasks: seq<ScheduledTask>
    /** Every handle this batch has cancelled, in the order it cancelled them. */
    ghost var cancelLog: seq<ScheduledTask>

    /** Each handle is held once (each comes fresh from the scheduler). */
    ghost predicate Valid()
      reads this
    {
      forall i, j :: 0 <= i < j < |tasks| ==> tasks[i] != tasks[j]
    }

    constructor (arena: GameManager)
      ensures Valid()
      ensures this.arena == arena && tasks == [] && cancelLog == []
    {
      this.arena := arena;
      tasks := [];
      cancelLog := [];
    }

    /**
     * `cancelAll`: take handles from the head of the list until it is empty,
     * cancelling each one.
     */
    method CancelAll()
      requires Valid()
      modifies this, tasks
      ensures Valid() && tasks == []
      ensures cancelLog == old(cancelLog) + old(tasks)
      ensures forall t :: t in old(tasks) ==> t.status == AfterCancel(old(t.status))
    {
      ghost var held := tasks;
      while tasks != []
        invariant Valid()
        invariant |tasks| <= |held| && tasks == held[|held| - |tasks|..]
        invariant cancelLog == old(cancelLog) + held[..|held| - |tasks|]
        invariant forall t :: t in held[..|held| - |tasks|] ==> t.status == AfterCancel(old(t.status))
        invariant forall t :: t in tasks ==> t.status == old(t.status)
        decreases |tasks|
      {
        var done := |held| - |tasks|;
        var task := tasks[0];
        tasks := tasks[1..];
        assert task !in tasks;
        task.Cancel();
        cancelLog := cancelLog + [task];
        assert held[..done + 1] == held[..done] + [task];
      }
      assert held[..|held|] == held;
    }

    /** `runTaskLater(runnable, delayTicks)`: schedule through `ArenaScheduler` and keep the handle. */
    method RunTaskLater(runnable: RunnableId, delayTicks: int) returns (task: ScheduledTask)
      requires Valid()
      modifies this
      ensures Valid() && cancelLog == old(cancelLog)
      ensures tasks == old(tasks) + [task]
      ensures fresh(task) && task.status == Pending
      ensures task.runnable == runnable && task.body == Unwrapped && task.timing == After(delayTicks)
    {
      task := Scheduling.RunTaskLater(arena, delayTicks, runnable);
      tasks := tasks + [task];
    }

    /** `runTaskLater(runnable)`: the same, for the first available tick. */
    method RunTaskSoon(runnable: RunnableId) returns (task: ScheduledTask)
      requires Valid()
      modifies this
      ensures Valid() && cancelLog == old(cancelLog)
      ensures tasks == old(tasks) + [task]
      ensures fresh(task) && task.status == Pending
      ensures task.runnable == runnable && task.body == Unwrapped && task.timing == FirstChance
    {
      task := Scheduling.RunTaskSoon(arena, runnable);
      tasks := tasks + [task];
    }

    /** `runTaskRepeat`: a session-guarded repeating task of this batch's arena, kept in the list. */
    method RunTaskRepeat(initialDelay: int, interval: int, runnable: RunnableId) returns (task: ScheduledTask)
      requires Valid()
      requires initialDelay >= 0 && interval >= 0
      modifies this
      ensures Valid() && cancelLog == old(cancelLog)
      ensures tasks == old(tasks) + [task]
      ensures fresh(task) && task.runnable == runnable && task.timing == Every(initialDelay, interval)
      ensures task.body == SessionGuarded(arena.startTime)
      ensures task.status == if arena.running then Pending else Cancelled
    {
      task := Scheduling.RunTaskRepeat(arena, initialDelay, interval, runnable);
      tasks := tasks + [task];
    }
  }

  /** A second `cancelAll` right after the first cancels nothing and leaves the list empty. */
  method CancelAllTwice(batch: ArenaBatchScheduler)
    requires batch.Valid()
    modifies batch, batch.tasks
    ensures batch.tasks == [] && batch.cancelLog == old(batch.cancelLog) + old(batch.tasks)
  {
    batch.CancelAll();
    ghost var afterFirst := batch.cancelLog;
    batch.CancelAll();
    assert batch.cancelLog == afterFirst;
  }
}
