/**
 * Session-guarded scheduling of arena tasks (ArenaScheduler.java).
 *
 * The arena's game manager is reduced to what the scheduler reads: whether the
 * game is running and the `Date` object of the current start time. A
 * repeating task captures that object when it is wrapped and, on every tick,
 * cancels itself unless the game is running and the live start time is still
 * the very same object. One-shot tasks are handed to the platform scheduler
 * as they are.
 */
module Scheduling {

  /** A start-time object of the game manager; sessions are compared by object identity. */
  class StartTime {
    constructor ()
    {
    }
  }

  /**
   * The running flag and start time of an arena's game manager. This is the
   * collaborator the scheduler reads; `Start` and `End` stand for the
   * arena's own start and end transitions.
   */
  class GameManager {
    var running: bool
    var startTime: StartTime?

    constructor ()
      ensures !running && startTime == null
    {
      running := false;
      startTime := null;
    }

    /** A new session: running, with a start-time object that did not exist before. */
    method Start()
      modifies this
      ensures running && startTime != null && fresh(startTime)
    {
      startTime := new StartTime();
      running := true;
    }

    /** The session ends; the last start time is kept. */
    method End()
      modifies this
      ensures !running && startTime == old(startTime)
    {
      running := false;
    }
  }

  /** Identity of a caller's `Runnable`. */
  type RunnableId = nat

  /** When the platform scheduler runs a task. */
  datatype Timing =
    | FirstChance                                   // runTaskLater without a delay
    | After(delayTicks: int)                        // runTaskLater with a delay
    | Every(initialDelay: int, interval: int)       // runTaskRepeat

  /** What the platform scheduler actually runs: the caller's runnable, or the session-checking wrapper. */
  datatype Body =
    | Unwrapped
    | SessionGuarded(token: StartTime?)

  /** The life of a scheduled task. */
  datatype Status = Pending | Cancelled | Completed

  /** Cancelling a pending task cancels it; cancelling a finished or cancelled one changes nothing. */
  function AfterCancel(s: Status): (r: Status)
    ensures r != Pending
    ensures s != Pending ==> r == s
  {
    if s == Pending then Cancelled else s
  }

  /** `wrapRunnable`: one-shot runnables are passed through, repeating ones guarded by the current start time. */
  function WrapRunnable(startTime: StartTime?, isRepeating: bool): (b: Body)
    ensures b.Unwrapped? <==> !isRepeating
    ensures b.SessionGuarded? ==> b.token == startTime
  {
    if !isRepeating then Unwrapped else SessionGuarded(startTime)
  }

  /** The wrapper's decision on one tick. */
  datatype Verdict = RunIt | CancelIt

  /**
   * The wrapper's `run`: with a task attached, it cancels that task (and does
   * not run the runnable) unless the game is running and its start time is
   * the captured object; with no task attached it always runs the runnable.
   */
  function GuardVerdict(attached: bool, running: bool, current: StartTime?, token: StartTime?): (v: Verdict)
    ensures v == CancelIt ==> attached
    ensures v == RunIt ==> !attached || (running && current == token)
    ensures attached && !running ==> v == CancelIt
    ensures attached && current != token ==> v == CancelIt
  {
    if attached && (!running || current != token) then CancelIt else RunIt
  }

  /** The state of a task after one tick of the platform scheduler, and whether the runnable ran. */
  datatype TickResult = TickResult(status: Status, ran: bool)

  /**
   * One tick for a task that is due. A cancelled or completed task is not run.
   * A guarded task whose session check fails is cancelled; otherwise the
   * runnable runs once, and a one-shot task is then complete.
   */
  function TickStep(status: Status, body: Body, timing: Timing, running: bool, current: StartTime?): (r: TickResult)
    ensures status != Pending ==> r == TickResult(status, false)
    ensures r.ran ==> status == Pending
    ensures r.ran && body.SessionGuarded? ==> running && current == body.token
    ensures status == Pending && body.Unwrapped? ==> r.ran
    ensures r.status == Pending ==> r.ran && timing.Every?
  {
    if status != Pending then TickResult(status, false)
    else
      var verdict := match body
        case Unwrapped => RunIt
        case SessionGuarded(token) => GuardVerdict(true, running, current, token);
      if verdict == CancelIt then TickResult(Cancelled, false)
      else TickResult(if timing.Every? then Pending else Completed, true)
  }

  /** What a tick sees of the game manager: its running flag and its start-time object. */
  datatype GameView = GameView(running: bool, startTime: StartTime?)

  /** The task's status and the number of runs after a series of ticks. */
  datatype Replay = Replay(status: Status, runs: nat)

  function ReplayTicks(status: Status, body: Body, timing: Timing, ticks: seq<GameView>): Replay
    decreases |ticks|
  {
    if |ticks| == 0 then Replay(status, 0)
    else
      var r := TickStep(status, body, timing, ticks[0].running, ticks[0].startTime);
      var rest := ReplayTicks(r.status, body, timing, ticks[1..]);
      Replay(rest.status, rest.runs + (if r.ran then 1 else 0))
  }

  /** A task that is cancelled (or complete) never runs again, however many ticks follow. */
  lemma {:induction false} StoppedTaskNeverRuns(status: Status, body: Body, timing: Timing, ticks: seq<GameView>)
    requires status != Pending
    ensures ReplayTicks(status, body, timing, ticks) == Replay(status, 0)
    decreases |ticks|
  {
    if |ticks| > 0 {
      StoppedTaskNeverRuns(status, body, timing, ticks[1..]);
    }
  }

  /**
   * A repeating task is cut off by the first tick that sees the game stopped
   * or a start time other than its captured one: from that tick on it runs
   * no more and ends cancelled, even if a later tick sees the game running again.
   */
  lemma {:induction false} StaleSessionStopsForever(status: Status, token: StartTime?, initialDelay: int, interval: int, ticks: seq<GameView>)
    requires |ticks| > 0 && (!ticks[0].running || ticks[0].startTime != token)
    ensures ReplayTicks(status, SessionGuarded(token), Every(initialDelay, interval), ticks).runs == 0
    ensures ReplayTicks(status, SessionGuarded(token), Every(initialDelay, interval), ticks).status != Pending
    ensures status == Pending ==> ReplayTicks(status, SessionGuarded(token), Every(initialDelay, interval), ticks).status == Cancelled
  {
    var body, timing := SessionGuarded(token), Every(initialDelay, interval);
    var r := TickStep(status, body, timing, ticks[0].running, ticks[0].startTime);
    assert !r.ran && r.status != Pending;
    StoppedTaskNeverRuns(r.status, body, timing, ticks[1..]);
  }

  /** While every tick sees the game running in the captured session, a pending repeating task runs on each tick. */
  lemma {:induction false} SameSessionRunsEveryTick(token: StartTime?, initialDelay: int, interval: int, ticks: seq<GameView>)
    requires forall k :: 0 <= k < |ticks| ==> ticks[k].running && ticks[k].startTime == token
    ensures ReplayTicks(Pending, SessionGuarded(token), Every(initialDelay, interval), ticks) == Replay(Pending, |ticks|)
    decreases |ticks|
  {
    if |ticks| > 0 {
      SameSessionRunsEveryTick(token, initialDelay, interval, ticks[1..]);
    }
  }

  /** A pending one-shot task runs exactly once, on its first tick, whatever the game's state. */
  lemma OneShotRunsOnceRegardless(timing: Timing, ticks: seq<GameView>)
    requires !timing.Every? && |ticks| > 0
    ensures ReplayTicks(Pending, Unwrapped, timing, ticks) == Replay(Completed, 1)
  {
    StoppedTaskNeverRuns(Completed, Unwrapped, timing, ticks[1..]);
  }

  /** A task handle of the platform scheduler. */
  class ScheduledTask {
    const runnable: RunnableId
    const body: Body
    const timing: Timing
    var status: Status

    constructor (runnable: RunnableId, body: Body, timing: Timing)
      ensures this.runnable == runnable && this.body == body && this.timing == timing
      ensures status == Pending
    {
      this.runnable := runnable;
      this.body := body;
      this.timing := timing;
      status := Pending;
    }

    /** `cancel()`: idempotent. */
    method Cancel()
      modifies this
      ensures status == AfterCancel(old(status))
    {
      status := AfterCancel(status);
    }
  }

  /** `runTaskLater(arena, delayTicks, runnable)`: the runnable is scheduled unwrapped. */
  method RunTaskLater(arena: GameManager, delayTicks: int, runnable: RunnableId) returns (task: ScheduledTask)
    ensures fresh(task) && task.status == Pending
    ensures task.runnable == runnable && task.body == Unwrapped && task.timing == After(delayTicks)
  {
    task := new ScheduledTask(runnable, WrapRunnable(arena.startTime, false), After(delayTicks));
  }

  /** `runTaskLater(arena, runnable)`: the runnable is scheduled unwrapped, for the first available tick. */
  method RunTaskSoon(arena: GameManager, runnable: RunnableId) returns (task: ScheduledTask)
    ensures fresh(task) && task.status == Pending
    ensures task.runnable == runnable && task.body == Unwrapped && task.timing == FirstChance
  {
    task := new ScheduledTask(runnable, WrapRunnable(arena.startTime, false), FirstChance);
  }

  /**
   * `runTaskRepeat`: both delays must be non-negative. The wrapper captures
   * the arena's current start time; if the game is not running the task is
   * cancelled before it is returned.
   */
  method RunTaskRepeat(arena: GameManager, initialDelay: int, interval: int, runnable: RunnableId)
    returns (task: ScheduledTask)
    requires initialDelay >= 0 && interval >= 0
    ensures fresh(task)
    ensures task.runnable == runnable && task.timing == Every(initialDelay, interval)
    ensures task.body == SessionGuarded(arena.startTime)
    ensures task.status == if arena.running then Pending else Cancelled
  {
    task := new ScheduledTask(runnable, WrapRunnable(arena.startTime, true), Every(initialDelay, interval));
    if !arena.running {
      task.Cancel();
    }
  }

  /** The platform scheduler runs a due task once, reading the game manager's state at that moment. */
  method Tick(task: ScheduledTask, arena: GameManager) returns (ran: bool)
    modifies task
    ensures TickResult(task.status, ran) == TickStep(old(task.status), task.body, task.timing, arena.running, arena.startTime)
  {
    var r := TickStep(task.status, task.body, task.timing, arena.running, arena.startTime);
    task.status := r.status;
    ran := r.ran;
  }

  /**
   * An arena that ends and starts again within one tick window still
   * supersedes a repeating task of the earlier session: its next tick
   * cancels it without running it.
   */
  method RestartCancelsEarlierSession(arena: GameManager, runnable: RunnableId) returns (task: ScheduledTask, ran: bool)
    requires arena.running
    modifies arena
    ensures !ran && task.status == Cancelled
  {
    task := RunTaskRepeat(arena, 0, 1, runnable);
    arena.End();
    arena.Start();
    ran := Tick(task, arena);
  }
}
