/**
  The ready queue and the timer tick. Tasks are ordered by virtual run time; a tick charges the
  running task and, once its slice is used up, lets the scheduler pick the next one.
*/
module RunQueue {
  import opened Sequences

  const IDLE: nat := 0  // init_task_union.task

  /**
    `need` holds the tasks with NEED_SCHEDULE set and `ready` those in state TASK_RUNNING; tasks
    without an entry have run time and priority 0.
  */
  datatype Sched = Sched(
    running: nat, queue: seq<nat>, vrun: map<nat, int>, prio: map<nat, int>,
    ready: set<nat>, need: set<nat>, count: int, slice: int)

  function V(vrun: map<nat, int>, x: nat): int { if x in vrun then vrun[x] else 0 }

  /** Priorities 0 and 1 are the cheap ones: `case 0: case 1:` against `default:`. */
  predicate Low(prio: map<nat, int>, x: nat) { x in prio ==> prio[x] == 0 || prio[x] == 1 }

  /** The position of the first element with a larger run time than x. */
  function Place(q: seq<nat>, vrun: map<nat, int>, x: nat): (i: nat)
    ensures i <= |q|
    ensures i < |q| ==> V(vrun, q[i]) > V(vrun, x)
    ensures forall j :: 0 <= j < i ==> V(vrun, q[j]) <= V(vrun, x)
  {
    if q == [] || V(vrun, q[0]) > V(vrun, x) then 0
    else
      var i := Place(q[1..], vrun, x);
      assert forall j :: 1 <= j < i + 1 ==> q[j] == q[1..][j - 1];
      i + 1
  }

  function Put(q: seq<nat>, i: nat, x: nat): seq<nat>
    requires i <= |q|
  {
    q[..i] + [x] + q[i..]
  }

  /** `insert_task_queue`. */
  function Insert(s: Sched, x: nat): Sched {
    if x == IDLE then s
    else s.(queue := Put(s.queue, Place(s.queue, s.vrun, x), x), count := s.count + 1)
  }

  /** `supplement_process_time_slice`. */
  function Refill(s: Sched): Sched
    requires s.count > 0
  {
    s.(slice := if Low(s.prio, s.running) then 4 / s.count else 4 / s.count * 3)
  }

  /** `get_next_task`: the front of the queue, or the idle task. */
  function Next(s: Sched): (Sched, nat) {
    if s.queue == [] then (s, IDLE)
    else (s.(queue := s.queue[1..], count := s.count - 1), s.queue[0])
  }

  /** The list and pointer changes of `schedule`, before the slice is refilled. */
  function Switch(s: Sched): Sched {
    var s0 := s.(need := s.need - {s.running});
    var (s1, t) := Next(s0);
    if V(s.vrun, s.running) >= V(s.vrun, t) || s.running !in s.ready then
      var s2 := if s.running in s.ready then Insert(s1, s.running) else s1;
      s2.(running := t, ready := s2.ready + {t})
    else Insert(s1, t)
  }

  /** `schedule`. */
  function Schedule(s: Sched): Sched
    requires Switch(s).count > 0
  {
    Refill(Switch(s))
  }

  /** What one tick charges a task. */
  function Charge(s: Sched): int { if Low(s.prio, s.running) then 1 else 2 }

  /** `intr_timer_handler`. */
  function Tick(s: Sched): Sched {
    var c := Charge(s);
    s.(vrun := s.vrun[s.running := V(s.vrun, s.running) + c], slice := s.slice - c,
       need := if s.slice - c <= 0 then s.need + {s.running} else s.need)
  }

  // ---------- invariant ----------

  ghost predicate Sorted(q: seq<nat>, vrun: map<nat, int>) {
    forall i, j :: 0 <= i < j < |q| ==> V(vrun, q[i]) <= V(vrun, q[j])
  }

  ghost predicate Inv(s: Sched) {
    && Distinct(s.queue) && s.running !in s.queue && IDLE !in s.queue
    && Sorted(s.queue, s.vrun) && s.count == 1 + |s.queue|
  }

  /** The running task has run no longer than any task in the queue. */
  ghost predicate Fair(s: Sched) {
    forall x :: x in s.queue ==> V(s.vrun, s.running) <= V(s.vrun, x)
  }
}
