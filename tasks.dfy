/** The firmware's cooperative scheduler (Task.cpp, Task.h): a task starts,
    stops and runs its hook when its period has elapsed on the 32-bit
    millisecond clock, and a task manager visits its tasks in insertion order.
    The hooks OnStart/OnStop/OnRun belong to the concrete tasks; here each
    task only counts how often each hook was called. */
module Tasks {
  import opened Bytes

  /** millis() - since, computed in uint32_t arithmetic. */
  function Elapsed(now: nat, since: nat): (r: nat)
    ensures r < U32
    ensures now < U32 && since < U32 && since <= now ==> r == now - since
    ensures now < U32 && since < U32 && now < since ==> r == now + U32 - since
  {
    (now - since) % U32
  }

  /** The unsigned difference measures the true elapsed time across a wrap of
      the clock, as long as less than 2^32 ms have passed. */
  lemma ElapsedAcrossWrap(start: nat, d: nat)
    requires d < U32
    ensures Elapsed((start + d) % U32, start % U32) == d
  {
    var q := start / U32;
    var s := start % U32;
    assert start == q * U32 + s;
    if s + d < U32 {
      ModUnique(start + d, U32, q, s + d);
    } else {
      ModUnique(start + d, U32, q + 1, s + d - U32);
    }
  }

  /** The largest period, 0xFFFFFFFF, which the firmware uses for "never run". */
  const NEVER: nat := 0xFFFF_FFFF

  /** An ITask with the state Task.h declares. */
  class Task {
    var isRunning: bool
    var lastExecutionTime: nat
    var executionPeriod: nat
    var starts: nat
    var stops: nat
    var runs: nat

    /** Both times are uint32_t values. */
    predicate Valid()
      reads this
    {
      lastExecutionTime < U32 && executionPeriod < U32
    }

    /** Whether Run at time now calls OnRun (once the task is running). */
    predicate Due(now: nat)
      reads this
    {
      executionPeriod == 0 || Elapsed(now, lastExecutionTime) > executionPeriod
    }

    /** A new task is stopped, has never run and carries the period its
        concrete class gives it. */
    constructor (period: nat)
      requires period < U32
      ensures Valid()
      ensures !isRunning && lastExecutionTime == 0 && executionPeriod == period
      ensures starts == 0 && stops == 0 && runs == 0
    {
      isRunning := false;
      lastExecutionTime := 0;
      executionPeriod := period;
      starts, stops, runs := 0, 0, 0;
    }

    /** Start: nothing when already running; otherwise set isRunning and call
        OnStart once. */
    method Start()
      requires Valid()
      modifies this
      ensures Valid() && isRunning
      ensures starts == old(starts) + (if old(isRunning) then 0 else 1)
      ensures stops == old(stops) && runs == old(runs)
      ensures lastExecutionTime == old(lastExecutionTime) && executionPeriod == old(executionPeriod)
    {
      if isRunning {
        return;
      }
      isRunning := true;
      starts := starts + 1;
    }

    /** Stop: nothing when already stopped; otherwise clear isRunning and call
        OnStop once. */
    method Stop()
      requires Valid()
      modifies this
      ensures Valid() && !isRunning
      ensures stops == old(stops) + (if old(isRunning) then 1 else 0)
      ensures starts == old(starts) && runs == old(runs)
      ensures lastExecutionTime == old(lastExecutionTime) && executionPeriod == old(executionPeriod)
    {
      if !isRunning {
        return;
      }
      isRunning := false;
      stops := stops + 1;
    }

    /** Run at millis() == now: a stopped task does nothing; a running task
        whose period is 0 or has elapsed records now and calls OnRun. */
    method Run(now: nat)
      requires Valid() && now < U32
      modifies this
      ensures Valid()
      ensures var ran := old(isRunning) && old(Due(now));
              && runs == old(runs) + (if ran then 1 else 0)
              && lastExecutionTime == (if ran then now else old(lastExecutionTime))
      ensures isRunning == old(isRunning) && executionPeriod == old(executionPeriod)
      ensures starts == old(starts) && stops == old(stops)
    {
      if !isRunning {
        return;
      }
      if executionPeriod == 0 || Elapsed(now, lastExecutionTime) > executionPeriod {
        lastExecutionTime := now;
        runs := runs + 1;
      }
    }
  }

  /** A task whose period is 0xFFFFFFFF is never due, whatever the clock says. */
  lemma NeverPeriodNeverDue(now: nat, last: nat)
    ensures !(NEVER == 0 || Elapsed(now, last) > NEVER)
  {
  }

  /** How often t occurs in ts. */
  function Occurrences(ts: seq<Task>, t: Task): (r: nat)
    ensures r <= |ts|
    ensures r == 0 <==> t !in ts
  {
    if |ts| == 0 then 0
    else Occurrences(ts[..|ts| - 1], t) + (if ts[|ts| - 1] == t then 1 else 0)
  }

  /** The TaskManager of Task.h: a vector of task pointers. */
  class TaskManager {
    var tasks: seq<Task>

    /** Every registered task keeps its times within uint32_t. */
    predicate Valid()
      reads this, set t | t in tasks
    {
      forall t :: t in tasks ==> t.Valid()
    }

    constructor ()
      ensures Valid() && tasks == []
    {
      tasks := [];
    }

    /** AddTask appends, keeping insertion order. */
    method AddTask(task: Task)
      requires Valid() && task.Valid()
      modifies this
      ensures Valid() && tasks == old(tasks) + [task]
    {
      tasks := tasks + [task];
    }

    /** StartTasks calls Start on every registered task in order; a task
        registered twice is started once. */
    method StartTasks()
      requires Valid()
      modifies set t | t in tasks
      ensures Valid()
      ensures forall t :: t in tasks ==> t.isRunning
      ensures forall t :: t in tasks ==> t.starts == old(t.starts) + (if old(t.isRunning) then 0 else 1)
      ensures forall t :: t in tasks ==> t.stops == old(t.stops) && t.runs == old(t.runs)
      ensures forall t :: t in tasks ==> t.lastExecutionTime == old(t.lastExecutionTime) && t.executionPeriod == old(t.executionPeriod)
    {
      var i := 0;
      while i < |tasks|
        invariant 0 <= i <= |tasks|
        invariant forall t :: t in tasks[..i] ==> t.isRunning && t.starts == old(t.starts) + (if old(t.isRunning) then 0 else 1)
        invariant forall t :: t in tasks && t !in tasks[..i] ==> t.isRunning == old(t.isRunning) && t.starts == old(t.starts)
        invariant forall t :: t in tasks ==> t.stops == old(t.stops) && t.runs == old(t.runs)
        invariant forall t :: t in tasks ==> t.lastExecutionTime == old(t.lastExecutionTime) && t.executionPeriod == old(t.executionPeriod)
      {
        assert tasks[..i + 1] == tasks[..i] + [tasks[i]];
        tasks[i].Start();
        i := i + 1;
      }
      assert tasks[..|tasks|] == tasks;
    }

    /** StopTasks calls Stop on every registered task in order; a task
        registered twice is stopped once. */
    method StopTasks()
      requires Valid()
      modifies set t | t in tasks
      ensures Valid()
      ensures forall t :: t in tasks ==> !t.isRunning
      ensures forall t :: t in tasks ==> t.stops == old(t.stops) + (if old(t.isRunning) then 1 else 0)
      ensures forall t :: t in tasks ==> t.starts == old(t.starts) && t.runs == old(t.runs)
      ensures forall t :: t in tasks ==> t.lastExecutionTime == old(t.lastExecutionTime) && t.executionPeriod == old(t.executionPeriod)
    {
      var i := 0;
      while i < |tasks|
        invariant 0 <= i <= |tasks|
        invariant forall t :: t in tasks[..i] ==> !t.isRunning && t.stops == old(t.stops) + (if old(t.isRunning) then 1 else 0)
        invariant forall t :: t in tasks && t !in tasks[..i] ==> t.isRunning == old(t.isRunning) && t.stops == old(t.stops)
        invariant forall t :: t in tasks ==> t.starts == old(t.starts) && t.runs == old(t.runs)
        invariant forall t :: t in tasks ==> t.lastExecutionTime == old(t.lastExecutionTime) && t.executionPeriod == old(t.executionPeriod)
      {
        assert tasks[..i + 1] == tasks[..i] + [tasks[i]];
        tasks[i].Stop();
        i := i + 1;
      }
      assert tasks[..|tasks|] == tasks;
    }

    /** RunTasks calls Run on every registered task in order at one instant.
        A stopped task stays idle; a running task with period 0 runs once per
        registration; any other running task runs once if its period has
        elapsed, because its second visit sees no time pass. */
    method RunTasks(now: nat)
      requires Valid() && now < U32
      modifies set t | t in tasks
      ensures Valid()
      ensures forall t :: t in tasks ==>
        t.runs == old(t.runs) + (if !old(t.isRunning) then 0
                                 else if old(t.executionPeriod) == 0 then Occurrences(tasks, t)
                                 else if old(t.Due(now)) then 1 else 0)
      ensures forall t :: t in tasks ==>
        t.lastExecutionTime == (if old(t.isRunning) && old(t.Due(now)) then now else old(t.lastExecutionTime))
      ensures forall t :: t in tasks ==> t.isRunning == old(t.isRunning) && t.executionPeriod == old(t.executionPeriod)
      ensures forall t :: t in tasks ==> t.starts == old(t.starts) && t.stops == old(t.stops)
    {
      var i := 0;
      while i < |tasks|
        invariant 0 <= i <= |tasks|
        invariant forall t :: t in tasks ==> t.Valid()
        invariant forall t :: t in tasks ==> t.isRunning == old(t.isRunning) && t.executionPeriod == old(t.executionPeriod)
        invariant forall t :: t in tasks ==> t.starts == old(t.starts) && t.stops == old(t.stops)
        invariant forall t :: t in tasks && !old(t.isRunning) ==>
          t.runs == old(t.runs) && t.lastExecutionTime == old(t.lastExecutionTime)
        invariant forall t :: t in tasks && old(t.isRunning) && old(t.executionPeriod) == 0 ==>
          t.runs == old(t.runs) + Occurrences(tasks[..i], t)
          && t.lastExecutionTime == (if t in tasks[..i] then now else old(t.lastExecutionTime))
        invariant forall t :: t in tasks && old(t.isRunning) && old(t.executionPeriod) != 0 ==>
          if old(t.Due(now)) && t in tasks[..i] then t.runs == old(t.runs) + 1 && t.lastExecutionTime == now
          else t.runs == old(t.runs) && t.lastExecutionTime == old(t.lastExecutionTime)
      {
        var task := tasks[i];
        assert tasks[..i + 1] == tasks[..i] + [task];
        assert tasks[..i + 1][..i] == tasks[..i];
        task.Run(now);
        i := i + 1;
      }
      assert tasks[..|tasks|] == tasks;
    }
  }
}
