/**
 * Timer tasks and the actions the fault-tolerant scheduler runs when a
 * transaction commits: arming a task on the executor, or cancelling it.
 * The executor is a recorder of the schedule requests it accepted; the
 * clock is a `now` parameter.
 */
module Timers {
  import opened Wrappers

  type TaskId = string

  /** How a periodic timer repeats. */
  datatype PeriodicScheduleStrategy = WithFixedDelay | AtFixedRate

  /** What the task was handed to the executor with (milliseconds). */
  datatype ScheduleRequest =
    | Schedule(task: TaskId, delay: int)
    | ScheduleWithFixedDelay(task: TaskId, delay: int, period: int)
    | ScheduleAtFixedRate(task: TaskId, delay: int, period: int)

  /** The handle the executor returns: the position of its request in the log. */
  datatype Future = Future(request: nat)

  /** The delay until `startTime`, never negative: a start in the past fires at once. */
  function ClampedDelay(startTime: int, now: int): (d: int)
    ensures d >= 0 && d >= startTime - now
    ensures d == 0 || d == startTime - now
  {
    if startTime - now < 0 then 0 else startTime - now
  }

  /**
   * The request the set-timer action submits: a one-shot schedule for a
   * negative period, otherwise a repetition with that period, fixed-delay
   * when the strategy says so and fixed-rate in every other case.
   */
  function RequestFor(id: TaskId, startTime: int, period: int, strategy: PeriodicScheduleStrategy, now: int): (r: ScheduleRequest)
    ensures r.task == id && r.delay == ClampedDelay(startTime, now)
    ensures r.Schedule? <==> period < 0
    ensures r.ScheduleWithFixedDelay? <==> period >= 0 && strategy == WithFixedDelay
    ensures r.ScheduleAtFixedRate? <==> period >= 0 && strategy != WithFixedDelay
    ensures !r.Schedule? ==> r.period == period
  {
    var delay := ClampedDelay(startTime, now);
    if period < 0 then Schedule(id, delay)
    else if strategy == WithFixedDelay then ScheduleWithFixedDelay(id, delay, period)
    else ScheduleAtFixedRate(id, delay, period)
  }

  /**
   * Whether the executor takes a request at all: a repetition needs a
   * positive period, and one of zero or less is rejected with an
   * IllegalArgumentException.
   */
  predicate Admissible(r: ScheduleRequest)
  {
    r.Schedule? || r.period > 0
  }

  /**
   * The set-timer request is refused for a zero period and only then: a
   * negative period makes a one-shot schedule, a positive one a repetition.
   */
  lemma RequestAdmissible(id: TaskId, startTime: int, period: int, strategy: PeriodicScheduleStrategy, now: int)
    ensures Admissible(RequestFor(id, startTime, period, strategy, now)) <==> period != 0
  {
  }

  /** The start time after recovery: moved up to `now` if it lies in the past. */
  function RecoveredStartTime(startTime: int, now: int): (s: int)
    ensures s >= startTime && s >= now
    ensures s == startTime || s == now
  {
    if startTime < now then now else startTime
  }

  /** Recovery at a fixed instant is idempotent. */
  lemma RecoveryIdempotent(startTime: int, now: int)
    ensures RecoveredStartTime(RecoveredStartTime(startTime, now), now) == RecoveredStartTime(startTime, now)
  {
  }

  /**
   * A task recovered at `now` and armed at `now` fires with the same delay it
   * would have had anyway: at once if its start lay in the past, never with a
   * negative delay.
   */
  lemma RecoveredDelay(startTime: int, now: int)
    ensures ClampedDelay(RecoveredStartTime(startTime, now), now) == ClampedDelay(startTime, now)
    ensures startTime <= now ==> ClampedDelay(RecoveredStartTime(startTime, now), now) == 0
  {
  }

  /** The running-task map without `id`: every other entry kept, an absent id a no-op. */
  function WithoutTask<T>(tasks: map<TaskId, T>, id: TaskId): (r: map<TaskId, T>)
    ensures id !in r
    ensures forall k :: k != id ==> (k in r <==> k in tasks)
    ensures forall k :: k in r ==> r[k] == tasks[k]
    ensures id !in tasks ==> r == tasks
  {
    tasks - {id}
  }

  /** The replicated description of a timer, with the accessors the actions call. */
  class TimerTaskData {
    const taskId: TaskId
    var startTime: int
    const period: int
    const periodicScheduleStrategy: PeriodicScheduleStrategy

    constructor (taskId: TaskId, startTime: int, period: int, strategy: PeriodicScheduleStrategy)
      ensures this.taskId == taskId && this.startTime == startTime
      ensures this.period == period && this.periodicScheduleStrategy == strategy
    {
      this.taskId := taskId;
      this.startTime := startTime;
      this.period := period;
      this.periodicScheduleStrategy := strategy;
    }
  }

  /**
   * The scheduled thread pool, as a log of the requests it accepted and the
   * futures cancelled; a submission throws while it is not accepting (shut
   * down or saturated) and for a request that is not admissible.
   */
  class ScheduledExecutor {
    var requests: seq<ScheduleRequest>
    var cancelledFutures: set<Future>
    var accepting: bool

    constructor (accepting: bool)
      ensures requests == [] && cancelledFutures == {} && this.accepting == accepting
    {
      requests := [];
      cancelledFutures := {};
      this.accepting := accepting;
    }

    /** Submits `r`; `None` stands for the exception a rejected request throws. */
    method Submit(r: ScheduleRequest) returns (f: Option<Future>)
      modifies this`requests
      ensures accepting && Admissible(r) ==> requests == old(requests) + [r] && f == Some(Future(|old(requests)|))
      ensures !(accepting && Admissible(r)) ==> requests == old(requests) && f == None
    {
      if accepting && Admissible(r) {
        f := Some(Future(|requests|));
        requests := requests + [r];
      } else {
        f := None;
      }
    }

    /** Cancels the execution behind `f`. */
    method Cancel(f: Future)
      modifies this`cancelledFutures
      ensures cancelledFutures == old(cancelledFutures) + {f}
    {
      cancelledFutures := cancelledFutures + {f};
    }
  }

  /**
   * The part of the fault-tolerant scheduler the actions use: its executor,
   * the local map of running tasks and the ids of the timers kept in the
   * replicated store.
   */
  class FaultTolerantScheduler {
    const executor: ScheduledExecutor
    var localRunningTasks: map<TaskId, TimerTask>
    var storedTasks: set<TaskId>

    constructor (executor: ScheduledExecutor)
      ensures this.executor == executor && localRunningTasks == map[] && storedTasks == {}
    {
      this.executor := executor;
      localRunningTasks := map[];
      storedTasks := {};
    }

    /** Forgets a task locally and, if asked, removes its data from the store. */
    method Remove(id: TaskId, removeFromCache: bool)
      modifies this`localRunningTasks, this`storedTasks
      ensures localRunningTasks == WithoutTask(old(localRunningTasks), id)
      ensures storedTasks == if removeFromCache then old(storedTasks) - {id} else old(storedTasks)
    {
      localRunningTasks := WithoutTask(localRunningTasks, id);
      if removeFromCache {
        storedTasks := storedTasks - {id};
      }
    }
  }

  /** A task to be run by the scheduler; what it runs is application code. */
  class TimerTask {
    const data: TimerTaskData
    var scheduledFuture: Option<Future>
    var action: Option<SetTimerAfterTxCommitRunnable>

    /** The data given here is the data for the task's whole life: the field is final. */
    constructor (data: TimerTaskData)
      ensures this.data == data && scheduledFuture == None && action == None
    {
      this.data := data;
      scheduledFuture := None;
      action := None;
    }

    function GetScheduledFuture(): Option<Future>
      reads this
    {
      scheduledFuture
    }

    method SetScheduledFuture(f: Option<Future>)
      modifies this`scheduledFuture
      ensures GetScheduledFuture() == f
    {
      scheduledFuture := f;
    }

    function GetSetTimerTransactionalAction(): Option<SetTimerAfterTxCommitRunnable>
      reads this
    {
      action
    }

    method SetSetTimerTransactionalAction(a: Option<SetTimerAfterTxCommitRunnable>)
      modifies this`action
      ensures GetSetTimerTransactionalAction() == a
    {
      action := a;
    }

    /** Before a recovered task is armed, a start time in the past is moved up to `now`. */
    method BeforeRecover(now: int)
      modifies data`startTime
      ensures data.startTime == RecoveredStartTime(old(data.startTime), now)
    {
      if data.startTime < now {
        data.startTime := now;
      }
    }

    /** Cancels the task's scheduled execution, if it has one. */
    method Cancel(executor: ScheduledExecutor)
      modifies executor`cancelledFutures
      ensures executor.cancelledFutures ==
                old(executor.cancelledFutures) + (if scheduledFuture.Some? then {scheduledFuture.value} else {})
    {
      if scheduledFuture.Some? {
        executor.Cancel(scheduledFuture.value);
      }
    }
  }

  /** The commit action that arms a task on the executor. */
  class SetTimerAfterTxCommitRunnable {
    const task: TimerTask
    const scheduler: FaultTolerantScheduler
    var canceled: bool

    constructor (task: TimerTask, scheduler: FaultTolerantScheduler)
      ensures this.task == task && this.scheduler == scheduler && !canceled
    {
      this.task := task;
      this.scheduler := scheduler;
      canceled := false;
    }

    /**
     * Clears the task's pending action; unless canceled, submits the request
     * for the task's data at `now` and keeps the returned future on the task;
     * a rejected submission (an executor not accepting, or a repetition with
     * period zero) removes the task from the scheduler and the store instead
     * of propagating.
     */
    method Run(now: int)
      modifies task`action, task`scheduledFuture, scheduler`localRunningTasks, scheduler`storedTasks,
        scheduler.executor`requests
      ensures task.action == None
      ensures canceled ==> task.scheduledFuture == old(task.scheduledFuture)
      ensures canceled ==> scheduler.executor.requests == old(scheduler.executor.requests)
      ensures var d := task.data;
              var armed := scheduler.executor.accepting && d.period != 0;
              (canceled || armed ==>
                scheduler.localRunningTasks == old(scheduler.localRunningTasks) &&
                scheduler.storedTasks == old(scheduler.storedTasks)) &&
              (!canceled && armed ==>
                scheduler.executor.requests ==
                  old(scheduler.executor.requests) + [RequestFor(d.taskId, d.startTime, d.period, d.periodicScheduleStrategy, now)] &&
                task.scheduledFuture == Some(Future(|old(scheduler.executor.requests)|)))
      ensures !canceled && !(scheduler.executor.accepting && task.data.period != 0) ==>
                scheduler.executor.requests == old(scheduler.executor.requests) &&
                task.scheduledFuture == old(task.scheduledFuture) &&
                scheduler.localRunningTasks == WithoutTask(old(scheduler.localRunningTasks), task.data.taskId) &&
                scheduler.storedTasks == old(scheduler.storedTasks) - {task.data.taskId}
    {
      task.SetSetTimerTransactionalAction(None);
      if !canceled {
        var d := task.data;
        var delay := ClampedDelay(d.startTime, now);
        var request;
        if d.period < 0 {
          request := Schedule(d.taskId, delay);
        } else if d.periodicScheduleStrategy == WithFixedDelay {
          request := ScheduleWithFixedDelay(d.taskId, delay, d.period);
        } else {
          request := ScheduleAtFixedRate(d.taskId, delay, d.period);
        }
        RequestAdmissible(d.taskId, d.startTime, d.period, d.periodicScheduleStrategy, now);
        var f := scheduler.executor.Submit(request);
        if f.Some? {
          task.SetScheduledFuture(f);
        } else {
          scheduler.Remove(d.taskId, true);
        }
      }
    }

    /** Marks the action canceled, so a later run schedules nothing, and removes the task. */
    method Cancel()
      modifies this`canceled, scheduler`localRunningTasks, scheduler`storedTasks
      ensures canceled
      ensures scheduler.localRunningTasks == WithoutTask(old(scheduler.localRunningTasks), task.data.taskId)
      ensures scheduler.storedTasks == old(scheduler.storedTasks) - {task.data.taskId}
    {
      canceled := true;
      scheduler.Remove(task.data.taskId, true);
    }
  }

  /**
   * Cancelling a timer whose set action is still pending, and then committing:
   * nothing is armed, the task is neither running locally nor stored, and the
   * task no longer holds a pending action.
   */
  method CancelBeforeCommit(setAction: SetTimerAfterTxCommitRunnable, now: int)
    modifies setAction, setAction.task, setAction.scheduler, setAction.scheduler.executor
    ensures setAction.scheduler.executor.requests == old(setAction.scheduler.executor.requests)
    ensures setAction.task.data.taskId !in setAction.scheduler.localRunningTasks
    ensures setAction.task.data.taskId !in setAction.scheduler.storedTasks
    ensures setAction.task.action == None
  {
    setAction.Cancel();
    setAction.Run(now);
  }

  /** The commit action that cancels a task. */
  class CancelTimerAfterTxCommitRunnable {
    const task: TimerTask
    const executor: FaultTolerantScheduler

    constructor (task: TimerTask, executor: FaultTolerantScheduler)
      ensures this.task == task && this.executor == executor
    {
      this.task := task;
      this.executor := executor;
    }

    /**
     * Removes the task's id from the local running-task map, then cancels the
     * task; `cancelThrows` stands for a failure inside the task's cancel,
     * which is caught, after the removal has happened.
     */
    method Run(cancelThrows: bool)
      modifies executor`localRunningTasks, executor.executor`cancelledFutures
      ensures executor.localRunningTasks == WithoutTask(old(executor.localRunningTasks), task.data.taskId)
      ensures cancelThrows ==> executor.executor.cancelledFutures == old(executor.executor.cancelledFutures)
      ensures !cancelThrows ==>
                executor.executor.cancelledFutures ==
                  old(executor.executor.cancelledFutures) +
                  (if task.scheduledFuture.Some? then {task.scheduledFuture.value} else {})
    {
      var id := task.data.taskId;
      executor.localRunningTasks := WithoutTask(executor.localRunningTasks, id);
      if !cancelThrows {
        task.Cancel(executor.executor);
      }
    }
  }
}
