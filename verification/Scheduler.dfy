/** The scheduler's table, updated in place by the timer interrupt and by `schedule`. */
module Scheduler {
  import opened Sequences
  import opened RunQueue
  import opened RunQueueTheorems

  class ScheduleTable {
    var running: nat          // is_running
    var queue: seq<nat>       // task_queue
    var count: int            // running_task_count
    var slice: int            // CPU_exec_task_jiffies
    var vrun: map<nat, int>   // vrun_time of each task
    const prio: map<nat, int> // priority of each task
    var ready: set<nat>       // tasks in state TASK_RUNNING
    var need: set<nat>        // tasks flagged NEED_SCHEDULE
    var jiffies: nat

    ghost function Abs(): Sched
      reads this
    {
      Sched(running, queue, vrun, prio, ready, need, count, slice)
    }

    /** `schedule_init`: the idle task runs alone; it is not yet in state TASK_RUNNING. */
    constructor (priorities: map<nat, int>)
      ensures Inv(Abs()) && Abs() == Sched(IDLE, [], map[], priorities, {}, {}, 1, 4)
    {
      running, queue, count, slice := IDLE, [], 1, 4;
      vrun, prio, ready, need, jiffies := map[], priorities, {}, {}, 0;
    }

    /** The end of `task_init`: the idle task is in state TASK_RUNNING from now on, with run time 0. */
    method StartIdle()
      requires Inv(Abs())
      modifies this`ready, this`vrun
      ensures Inv(Abs()) && Abs() == old(Abs()).(ready := old(ready) + {IDLE}, vrun := old(vrun)[IDLE := 0])
    {
      ghost var s := Abs();
      ready := ready + {IDLE};
      vrun := vrun[IDLE := 0];
      assert forall y :: y in queue ==> V(vrun, y) == V(s.vrun, y);
    }

    /** `get_next_task`. */
    method GetNextTask() returns (tsk: nat)
      modifies this`queue, this`count
      ensures (Abs(), tsk) == Next(old(Abs()))
    {
      if queue == [] {
        return IDLE;
      }
      tsk := queue[0];
      queue := queue[1..];
      count := count - 1;
    }

    /** `insert_task_queue`. */
    method InsertTaskQueue(tsk: nat)
      modifies this`queue, this`count
      ensures Abs() == Insert(old(Abs()), tsk)
    {
      if tsk == IDLE {
        return;
      }
      if queue == [] {
        queue := [tsk];
      } else {
        var i := 0;
        while i < |queue| && V(vrun, queue[i]) <= V(vrun, tsk)
          invariant 0 <= i <= |queue|
          invariant forall j :: 0 <= j < i ==> V(vrun, queue[j]) <= V(vrun, tsk)
        {
          i := i + 1;
        }
        PlaceIs(queue, vrun, tsk, i);
        queue := Put(queue, i, tsk);
      }
      count := count + 1;
      assert queue == Put(old(queue), Place(old(queue), vrun, tsk), tsk);
    }

    /** `supplement_process_time_slice`. */
    method SupplementTimeSlice()
      requires count > 0
      modifies this`slice
      ensures Abs() == Refill(old(Abs()))
      ensures var share := if count == 1 then 4 else if count == 2 then 2 else if count <= 4 then 1 else 0;
        slice == if Priority(Abs()) == 0 || Priority(Abs()) == 1 then share else 3 * share
    {
      if Low(prio, running) {
        slice := 4 / count;
      } else {
        slice := 4 / count * 3;
      }
    }

    /** `schedule`; `running_task_count` is positive where it divides. */
    method Reschedule()
      requires Inv(Abs())
      modifies this
      ensures Abs() == Schedule(old(Abs())) && Inv(Abs()) && Fair(Abs()) && jiffies == old(jiffies)
    {
      ghost var s := Abs();
      SwitchKeeps(s);
      need := need - {running};
      var tsk := GetNextTask();
      if V(vrun, running) >= V(vrun, tsk) || running !in ready {
        if running in ready {
          InsertTaskQueue(running);
        }
        running := tsk;
        ready := ready + {tsk};
        assert Abs() == Switch(s);
        SupplementTimeSlice();
      } else {
        InsertTaskQueue(tsk);
        assert Abs() == Switch(s);
        SupplementTimeSlice();
      }
    }

    /** `intr_timer_handler`. */
    method TimerHandler()
      modifies this
      ensures Abs() == Tick(old(Abs())) && jiffies == old(jiffies) + 1
    {
      jiffies := jiffies + 1;
      if Low(prio, running) {
        slice := slice - 1;
        vrun := vrun[running := V(vrun, running) + 1];
      } else {
        slice := slice - 2;
        vrun := vrun[running := V(vrun, running) + 2];
      }
      if slice <= 0 {
        need := need + {running};
      }
    }

    /** A timer interrupt up to its return: the handler, then `reschedule` if the task is flagged. */
    method TimerInterrupt()
      requires Inv(Abs())
      modifies this
      ensures Abs() == TickStep(old(Abs())) && Inv(Abs())
    {
      TickKeepsInv(Abs());
      TimerHandler();
      SwitchKeeps(Abs());
      if running in need {
        Reschedule();
      }
    }

    /** `wakeup_process` and `__up`. */
    method Wakeup(tsk: nat)
      requires Inv(Abs()) && tsk !in queue && tsk != running
      modifies this
      ensures Abs() == Apply(old(Abs()), Wake(tsk)) && Inv(Abs())
    {
      InsertKeepsInv(Abs().(ready := ready + {tsk}), tsk);
      ready := ready + {tsk};
      InsertTaskQueue(tsk);
      need := need + {running};
    }
  }
}
