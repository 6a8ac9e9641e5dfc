/** What the ready queue keeps over every run, and how soon a waiting task runs. */
module RunQueueTheorems {
  import opened Sequences
  import opened RunQueue

  // ---------- the queue ----------

  lemma PlaceBetween(q: seq<nat>, vrun: map<nat, int>, x: nat)
    requires Sorted(q, vrun)
    ensures var i := Place(q, vrun, x);
      && (forall j :: 0 <= j < i ==> V(vrun, q[j]) <= V(vrun, x))
      && (forall j :: i <= j < |q| ==> V(vrun, x) < V(vrun, q[j]))
  {
  }

  lemma PutAt(q: seq<nat>, i: nat, x: nat)
    requires i <= |q|
    ensures |Put(q, i, x)| == |q| + 1 && Put(q, i, x)[i] == x
    ensures forall j :: 0 <= j < i ==> Put(q, i, x)[j] == q[j]
    ensures forall j :: i < j <= |q| ==> Put(q, i, x)[j] == q[j - 1]
    ensures forall j :: 0 <= j <= |q| && j != i ==> Put(q, i, x)[j] in q
    ensures forall y :: y in Put(q, i, x) <==> y in q || y == x
  {
    assert q == q[..i] + q[i..];
  }

  lemma PutSorted(q: seq<nat>, vrun: map<nat, int>, x: nat, i: nat, p: seq<nat>)
    requires Sorted(q, vrun) && i == Place(q, vrun, x) && p == Put(q, i, x)
    ensures Sorted(p, vrun)
  {
    PlaceBetween(q, vrun, x);
    PutAt(q, i, x);
    forall a, b | 0 <= a < b < |p|
      ensures V(vrun, p[a]) <= V(vrun, p[b])
    {
      assert p[a] == if a < i then q[a] else if a == i then x else q[a - 1];
      assert p[b] == if b < i then q[b] else if b == i then x else q[b - 1];
    }
  }

  lemma PutDistinct(q: seq<nat>, i: nat, x: nat)
    requires Distinct(q) && x !in q && i <= |q|
    ensures Distinct(Put(q, i, x))
  {
    PutAt(q, i, x);
    assert forall j :: 0 <= j < |q| ==> q[j] in q;
  }

  lemma PutBehindEquals(q: seq<nat>, vrun: map<nat, int>, x: nat, p: seq<nat>, i: nat, j: nat)
    requires Sorted(q, vrun) && x !in q && p == Put(q, Place(q, vrun, x), x)
    requires i < |p| && j < |p| && p[i] == x && V(vrun, p[j]) == V(vrun, x)
    ensures j <= i
  {
    PlaceBetween(q, vrun, x);
    PutAt(q, Place(q, vrun, x), x);
    assert i == Place(q, vrun, x);
  }

  /** Insertion keeps the queue sorted; the new task goes behind those with the same run time. */
  lemma InsertKeepsSorted(q: seq<nat>, vrun: map<nat, int>, x: nat)
    requires Sorted(q, vrun) && Distinct(q) && x !in q
    ensures var p := Put(q, Place(q, vrun, x), x);
      && Sorted(p, vrun) && Distinct(p)
      && (forall y :: y in p <==> y in q || y == x)
      && (forall i, j :: 0 <= i < |p| && 0 <= j < |p| && p[i] == x && V(vrun, p[j]) == V(vrun, x) ==> j <= i)
  {
    var p := Put(q, Place(q, vrun, x), x);
    PutAt(q, Place(q, vrun, x), x);
    PutSorted(q, vrun, x, Place(q, vrun, x), p);
    PutDistinct(q, Place(q, vrun, x), x);
    forall i, j | 0 <= i < |p| && 0 <= j < |p| && p[i] == x && V(vrun, p[j]) == V(vrun, x)
      ensures j <= i
    {
      PutBehindEquals(q, vrun, x, p, i, j);
    }
  }

  /** The position is determined by what stands before it and at it. */
  lemma {:induction false} PlaceIs(q: seq<nat>, vrun: map<nat, int>, x: nat, i: nat)
    requires i <= |q| && (i < |q| ==> V(vrun, q[i]) > V(vrun, x))
    requires forall j :: 0 <= j < i ==> V(vrun, q[j]) <= V(vrun, x)
    ensures Place(q, vrun, x) == i
  {
    var k := Place(q, vrun, x);
    assert k < |q| ==> V(vrun, q[k]) > V(vrun, x);
    assert i < |q| ==> V(vrun, q[i]) > V(vrun, x);
  }

  lemma InsertKeepsInv(s: Sched, x: nat)
    requires Inv(s) && x !in s.queue && x != s.running
    ensures Inv(Insert(s, x))
    ensures forall y :: y in Insert(s, x).queue <==> y in s.queue || (y == x && x != IDLE)
  {
    if x != IDLE {
      InsertKeepsSorted(s.queue, s.vrun, x);
    }
  }

  lemma TailKeeps(q: seq<nat>, vrun: map<nat, int>)
    requires Sorted(q, vrun) && Distinct(q) && q != []
    ensures Sorted(q[1..], vrun) && Distinct(q[1..]) && q[0] !in q[1..]
    ensures forall y :: y in q[1..] <==> y in q && y != q[0]
    ensures forall y :: y in q ==> V(vrun, q[0]) <= V(vrun, y)
  {
    assert q == [q[0]] + q[1..];
  }

  // ---------- schedule ----------

  /** Every task that was running or queued still is, the idle task and a blocked one aside. */
  ghost predicate SameTasks(s: Sched, t: Sched) {
    forall y :: y != IDLE ==>
      (y in t.queue || y == t.running <==> y in s.queue || (y == s.running && (y in s.ready || y == t.running)))
  }

  /**
    `schedule` keeps the queue duplicate-free and sorted and the count exact, loses no task, and
    leaves a task running that has run no longer than any task in the queue.
  */
  lemma SwitchKeeps(s: Sched)
    requires Inv(s)
    ensures var t := Switch(s); Inv(t) && Fair(t) && SameTasks(s, t) && t.count > 0
    ensures s.running in s.ready ==> Switch(s).running in Switch(s).ready
  {
    var s0 := s.(need := s.need - {s.running});
    var (s1, n) := Next(s0);
    if s.queue != [] {
      TailKeeps(s.queue, s.vrun);
    }
    if V(s.vrun, s.running) >= V(s.vrun, n) || s.running !in s.ready {
      if s.running in s.ready && s.running != IDLE {
        InsertKeepsSorted(s1.queue, s1.vrun, s.running);
      }
    } else if n != IDLE {
      InsertKeepsSorted(s1.queue, s1.vrun, n);
    }
  }

  /** It charges nobody and unflags the task that ran... */
  lemma SwitchLeaves(s: Sched)
    ensures Switch(s).vrun == s.vrun && Switch(s).prio == s.prio && Switch(s).need == s.need - {s.running}
  {
  }

  /** ...and leaves a running task in state TASK_RUNNING and no other state changed. */
  lemma SwitchReadies(s: Sched, x: nat)
    ensures x in Switch(s).ready <==> x in s.ready || x == Switch(s).running
  {
  }

  /** Without a switch the queue is unchanged exactly when no second task ties with the front. */
  lemma NoSwitchRotatesTies(s: Sched)
    requires Inv(s) && s.running in s.ready && s.queue != [] && V(s.vrun, s.running) < V(s.vrun, s.queue[0])
    ensures Switch(s).queue == s.queue <==> |s.queue| == 1 || V(s.vrun, s.queue[0]) < V(s.vrun, s.queue[1])
  {
    var q := s.queue;
    var i := Place(q[1..], s.vrun, q[0]);
    TailKeeps(q, s.vrun);
    PutAt(q[1..], i, q[0]);
    PlaceBetween(q[1..], s.vrun, q[0]);
    if i == 0 {
      assert Put(q[1..], 0, q[0]) == q;
    } else {
      assert q[1..][0] == q[1];
      assert Put(q[1..], i, q[0])[0] == q[1] != q[0];
    }
  }

  /** Task x stands before task y in the queue. */
  ghost predicate Before(q: seq<nat>, x: nat, y: nat) {
    exists i, j :: 0 <= i < j < |q| && q[i] == x && q[j] == y
  }

  /** Tasks with equal run times that stay queued keep their order across `schedule`. */
  ghost predicate TiesKeepOrder(s: Sched) {
    forall x, y {:trigger Before(s.queue, x, y)} ::
      V(s.vrun, x) == V(s.vrun, y) && Before(s.queue, x, y) && x in Switch(s).queue && y in Switch(s).queue ==>
        Before(Switch(s).queue, x, y)
  }

  /** The guard of `schedule`: the running task gives way. */
  predicate Switches(s: Sched) {
    var n := if s.queue == [] then IDLE else s.queue[0];
    V(s.vrun, s.running) >= V(s.vrun, n) || s.running !in s.ready
  }

  /** Taking the front off and putting a task in between leaves the order of the others. */
  lemma TailPutKeepsOrder(q: seq<nat>, i: nat, z: nat, x: nat, y: nat)
    requires Distinct(q) && q != [] && i <= |q| - 1 && Before(q, x, y) && x != q[0]
    ensures Before(Put(q[1..], i, z), x, y) && Before(q[1..], x, y)
  {
    var a, b :| 0 <= a < b < |q| && q[a] == x && q[b] == y;
    PutAt(q[1..], i, z);
    var a1, b1 := if a - 1 < i then a - 1 else a, if b - 1 < i then b - 1 else b;
    assert q[1..][a - 1] == x && q[1..][b - 1] == y;
    assert Put(q[1..], i, z)[a1] == x && Put(q[1..], i, z)[b1] == y;
  }

  /** A rotated tie changes order. */
  lemma RotatedTie(q: seq<nat>, vrun: map<nat, int>)
    requires Distinct(q) && Sorted(q, vrun) && |q| >= 2 && V(vrun, q[0]) == V(vrun, q[1])
    ensures var p := Put(q[1..], Place(q[1..], vrun, q[0]), q[0]);
      q[0] in p && q[1] in p && Before(q, q[0], q[1]) && !Before(p, q[0], q[1])
  {
    var rest := q[1..];
    var i := Place(rest, vrun, q[0]);
    TailKeeps(q, vrun);
    PlaceBetween(rest, vrun, q[0]);
    assert rest[0] == q[1];
    InsertKeepsSorted(rest, vrun, q[0]);
    PutAt(rest, i, q[0]);
  }

  lemma SwitchKeepsTies(s: Sched)
    requires Inv(s) && Switches(s)
    ensures TiesKeepOrder(s)
  {
    if s.queue != [] {
      TailKeeps(s.queue, s.vrun);
      forall x, y | Before(s.queue, x, y) && x in Switch(s).queue && y in Switch(s).queue
        ensures Before(Switch(s).queue, x, y)
      {
        TailPutKeepsOrder(s.queue, Place(s.queue[1..], s.vrun, s.running), s.running, x, y);
      }
    }
  }

  /** Without a switch and with a tie at the front, two equals change places. */
  lemma TieIsBroken(s: Sched)
    requires Inv(s) && !Switches(s) && |s.queue| >= 2 && V(s.vrun, s.queue[0]) == V(s.vrun, s.queue[1])
    ensures !TiesKeepOrder(s)
  {
    RotatedTie(s.queue, s.vrun);
    NotSwitched(s);
    assert Before(s.queue, s.queue[0], s.queue[1]);
  }

  lemma NotSwitched(s: Sched)
    requires Inv(s) && !Switches(s) && s.queue != []
    ensures Switch(s).queue == Put(s.queue[1..], Place(s.queue[1..], s.vrun, s.queue[0]), s.queue[0])
  {
  }

  /**
    Ties keep their order across `schedule` exactly when it switches, or the queue holds fewer
    than two tasks, or no second task ties with the front.
  */
  lemma TiesKeepOrderIff(s: Sched)
    requires Inv(s)
    ensures TiesKeepOrder(s) <==>
            Switches(s) || |s.queue| < 2 || V(s.vrun, s.queue[0]) < V(s.vrun, s.queue[1])
  {
    if Switches(s) {
      SwitchKeepsTies(s);
    } else if |s.queue| >= 2 {
      if V(s.vrun, s.queue[0]) < V(s.vrun, s.queue[1]) {
        NoSwitchRotatesTies(s);
      } else {
        TieIsBroken(s);
      }
    }
  }

  /** A running task with less run time than two tied ones: `schedule` swaps the two. */
  lemma TieExample()
    ensures var s := Sched(1, [2, 3], map[1 := 0, 2 := 5, 3 := 5], map[], {1, 2, 3}, {}, 3, 0);
      Inv(s) && Switch(s).queue == [3, 2] && Switch(s).running == 1 && !TiesKeepOrder(s)
  {
    var s := Sched(1, [2, 3], map[1 := 0, 2 := 5, 3 := 5], map[], {1, 2, 3}, {}, 3, 0);
    var rest := s.queue[1..];
    assert rest == [3] && rest[1..] == [];
    assert Place(rest[1..], s.vrun, 2) == 0 && Place(rest, s.vrun, 2) == 1;
    assert Put(rest, 1, 2) == [3, 2];
    TiesKeepOrderIff(s);
  }

  // ---------- runs ----------

  datatype Op = Timer | Yield | Block | Wake(x: nat)

  predicate Legal(s: Sched, op: Op) {
    op.Wake? ==> op.x !in s.queue && op.x != s.running
  }

  /** A tick, the scheduler called by hand, the running task blocking, and a task becoming ready. */
  function Apply(s: Sched, op: Op): Sched {
    match op
    case Timer => TickStep(s)
    case Yield => Reschedule(s)
    case Block => Reschedule(s.(ready := s.ready - {s.running}))
    case Wake(x) => Insert(s.(ready := s.ready + {x}), x).(need := s.need + {s.running})
  }

  function Reschedule(s: Sched): Sched {
    if Switch(s).count > 0 then Schedule(s) else s
  }

  /** A timer interrupt: the handler, then `reschedule` if the running task is flagged. */
  function TickStep(s: Sched): Sched {
    var t := Tick(s);
    if t.running in t.need then Reschedule(t) else t
  }

  lemma TickKeepsInv(s: Sched)
    requires Inv(s)
    ensures Inv(Tick(s))
  {
    assert forall y :: y in s.queue ==> V(Tick(s).vrun, y) == V(s.vrun, y);
  }

  lemma ApplyKeepsInv(s: Sched, op: Op)
    requires Inv(s) && Legal(s, op)
    ensures Inv(Apply(s, op))
    ensures op.Yield? || op.Block? ==> Fair(Apply(s, op))
  {
    match op {
      case Timer => TickKeepsInv(s); SwitchKeeps(Tick(s));
      case Yield => SwitchKeeps(s);
      case Block => SwitchKeeps(s.(ready := s.ready - {s.running}));
      case Wake(x) => InsertKeepsInv(s.(ready := s.ready + {x}), x);
    }
  }

  ghost predicate LegalRun(s: Sched, ops: seq<Op>)
    decreases ops
  {
    ops != [] ==> Legal(s, ops[0]) && LegalRun(Apply(s, ops[0]), ops[1..])
  }

  function Run(s: Sched, ops: seq<Op>): Sched
    decreases ops
  {
    if ops == [] then s else Run(Apply(s, ops[0]), ops[1..])
  }

  /** If tasks are inserted only while neither queued nor running, every run keeps the queue right. */
  lemma {:induction false} RunKeepsInv(s: Sched, ops: seq<Op>)
    requires Inv(s) && LegalRun(s, ops)
    ensures Inv(Run(s, ops))
    decreases ops
  {
    if ops != [] {
      ApplyKeepsInv(s, ops[0]);
      RunKeepsInv(Apply(s, ops[0]), ops[1..]);
    }
  }

  // ---------- progress ----------

  /** Run time x still lacks before it is past the bound. */
  function Gap(vrun: map<nat, int>, x: nat, bound: int): nat {
    if V(vrun, x) < bound then bound - V(vrun, x) else 0
  }

  function SumGap(q: seq<nat>, vrun: map<nat, int>, bound: int): nat {
    if q == [] then 0 else Gap(vrun, q[0], bound) + SumGap(q[1..], vrun, bound)
  }

  lemma {:induction false} SumGapPut(q: seq<nat>, i: nat, x: nat, vrun: map<nat, int>, bound: int)
    requires i <= |q|
    ensures SumGap(Put(q, i, x), vrun, bound) == SumGap(q, vrun, bound) + Gap(vrun, x, bound)
  {
    if i == 0 {
      assert Put(q, 0, x) == [x] + q;
    } else {
      assert Put(q, i, x) == [q[0]] + Put(q[1..], i - 1, x);
      SumGapPut(q[1..], i - 1, x, vrun, bound);
    }
  }

  /** Charging the running task leaves the queue's gaps alone. */
  lemma {:induction false} SumGapOthers(q: seq<nat>, v: map<nat, int>, w: map<nat, int>, bound: int)
    requires forall x :: x in q ==> V(v, x) == V(w, x)
    ensures SumGap(q, v, bound) == SumGap(q, w, bound)
  {
    if q != [] {
      assert forall x :: x in q[1..] ==> x in q;
      SumGapOthers(q[1..], v, w, bound);
    }
  }

  function Phi(s: Sched, bound: int): nat { Gap(s.vrun, s.running, bound) + SumGap(s.queue, s.vrun, bound) }

  /**
    An upper bound on the ticks until tsk runs: the run time that the running and queued tasks still
    lack before they are past tsk, then whether the running task already is, then the slice.
  */
  function Wait(s: Sched, tsk: nat): nat {
    13 * (2 * Phi(s, V(s.vrun, tsk) + 1) + (if V(s.vrun, s.running) > V(s.vrun, tsk) then 1 else 0))
    + (if s.slice > 0 then s.slice else 0)
  }

  /** `schedule` moves tasks around but adds no missing run time. */
  lemma SwitchKeepsPhi(s: Sched, bound: int)
    requires Inv(s) && s.running in s.ready && s.queue != []
    ensures Phi(Switch(s), bound) <= Phi(s, bound)
  {
    var n := s.queue[0];
    var rest := s.queue[1..];
    assert s.queue == [n] + rest;
    SumGapPut(rest, Place(rest, s.vrun, s.running), s.running, s.vrun, bound);
    SumGapPut(rest, Place(rest, s.vrun, n), n, s.vrun, bound);
  }

  lemma SwitchTowards(s: Sched, tsk: nat)
    requires Inv(s) && s.running in s.ready && tsk in s.queue
    ensures Switch(s).count > 0
    ensures var t := Schedule(s);
      && Inv(t) && t.running in t.ready && t.vrun == s.vrun && t.slice <= 12
      && Phi(t, V(s.vrun, tsk) + 1) <= Phi(s, V(s.vrun, tsk) + 1)
      && (t.running == tsk || (tsk in t.queue && V(t.vrun, t.running) <= V(t.vrun, tsk)))
  {
    SwitchKeeps(s);
    SwitchKeepsPhi(s, V(s.vrun, tsk) + 1);
    SliceAtMost(Switch(s).count);
  }

  lemma SliceAtMost(n: int)
    requires n > 0
    ensures 0 <= 4 / n <= 4
  {
  }

  lemma TickTowards(s: Sched, tsk: nat)
    requires Inv(s) && tsk in s.queue
    ensures var t := Tick(s);
      && V(t.vrun, tsk) == V(s.vrun, tsk) && t.running == s.running && t.queue == s.queue
      && (if V(s.vrun, s.running) > V(s.vrun, tsk)
          then Phi(t, V(s.vrun, tsk) + 1) == Phi(s, V(s.vrun, tsk) + 1) && V(t.vrun, t.running) > V(t.vrun, tsk)
          else Phi(t, V(s.vrun, tsk) + 1) < Phi(s, V(s.vrun, tsk) + 1))
  {
    assert forall y :: y in s.queue ==> V(Tick(s).vrun, y) == V(s.vrun, y);
    SumGapOthers(s.queue, s.vrun, Tick(s).vrun, V(s.vrun, tsk) + 1);
  }

  /** The state u is closer to running tsk than s. */
  ghost predicate Closer(s: Sched, u: Sched, tsk: nat) {
    Inv(u) && u.running in u.ready && (u.running == tsk || (tsk in u.queue && Wait(u, tsk) < Wait(s, tsk)))
  }

  /** A tick after which the running task goes on. */
  lemma TickAloneHelps(s: Sched, tsk: nat)
    requires Inv(s) && s.running in s.ready && tsk in s.queue && s.running !in Tick(s).need
    ensures Closer(s, Tick(s), tsk)
  {
    TickKeepsInv(s);
    TickTowards(s, tsk);
  }

  /** A tick after which `schedule` is called. */
  lemma TickAndScheduleHelp(s: Sched, tsk: nat, t: Sched)
    requires Inv(s) && s.running in s.ready && tsk in s.queue && t == Tick(s)
    ensures Switch(t).count > 0 && Closer(s, Schedule(t), tsk)
  {
    TickKeepsInv(s);
    TickTowards(s, tsk);
    SwitchTowards(t, tsk);
    WaitDrops(s, t, Schedule(t), tsk, V(s.vrun, tsk) + 1);
  }

  lemma WaitDrops(s: Sched, t: Sched, u: Sched, tsk: nat, bound: int)
    requires V(u.vrun, tsk) == V(t.vrun, tsk) == V(s.vrun, tsk) == bound - 1 && u.slice <= 12
    requires Phi(u, bound) <= Phi(t, bound) && Phi(t, bound) <= Phi(s, bound)
    requires V(s.vrun, s.running) > V(s.vrun, tsk) || Phi(t, bound) < Phi(s, bound)
    requires V(u.vrun, u.running) <= V(u.vrun, tsk)
    ensures Wait(u, tsk) < Wait(s, tsk)
  {
  }

  /** Every tick either gets tsk to run or strictly lowers the bound. */
  lemma EveryTickHelps(s: Sched, tsk: nat)
    requires Inv(s) && s.running in s.ready && tsk in s.queue
    ensures Closer(s, TickStep(s), tsk)
  {
    if s.running in Tick(s).need {
      TickAndScheduleHelp(s, tsk, Tick(s));
    } else {
      TickAloneHelps(s, tsk);
    }
  }

  function Ticks(s: Sched, n: nat): Sched
    decreases n
  {
    if n == 0 then s else Ticks(TickStep(s), n - 1)
  }

  // ---------- how long a slice lasts ----------

  function Priority(s: Sched): int { if s.running in s.prio then s.prio[s.running] else 0 }

  /** Ticks from the one after `schedule` up to and with the one that calls it again, among n tasks. */
  function Lasts(n: nat, priority: int): (k: nat)
    requires n > 0
    ensures k > 0
    ensures priority == 0 || priority == 1 ==> k == if n == 1 then 4 else if n == 2 then 2 else 1
    ensures priority != 0 && priority != 1 ==> k == if n == 1 then 6 else if n == 2 then 3 else if n <= 4 then 2 else 1
  {
    var share := 4 / n;
    var ticks := if priority == 0 || priority == 1 then share else (3 * share + 1) / 2;
    if ticks == 0 then 1 else ticks
  }

  /** Only the running task is ever flagged. */
  ghost predicate OnlyRunningFlagged(s: Sched) { s.need <= {s.running} }

  lemma ApplyKeepsFlags(s: Sched, op: Op)
    requires Inv(s) && OnlyRunningFlagged(s) && Legal(s, op)
    ensures OnlyRunningFlagged(Apply(s, op))
    ensures op.Yield? || op.Block? ==> Apply(s, op).need == {}
  {
    var u := match op
      case Timer => Tick(s)
      case Yield => s
      case Block => s.(ready := s.ready - {s.running})
      case Wake(_) => s;
    if op.Timer? {
      TickKeepsInv(s);
    }
    SwitchKeeps(u);
  }

  /** In every run, no task but the running one is flagged. */
  lemma {:induction false} RunKeepsFlags(s: Sched, ops: seq<Op>)
    requires Inv(s) && OnlyRunningFlagged(s) && LegalRun(s, ops)
    ensures OnlyRunningFlagged(Run(s, ops))
    decreases ops
  {
    if ops != [] {
      ApplyKeepsInv(s, ops[0]);
      ApplyKeepsFlags(s, ops[0]);
      RunKeepsFlags(Apply(s, ops[0]), ops[1..]);
    }
  }

  /** Task t.running has run k ticks of its slice: nothing but its run time and the slice has changed. */
  ghost predicate RanFor(t: Sched, k: nat, each: int, u: Sched) {
    u == t.(vrun := u.vrun, slice := t.slice - k * each)
    && V(u.vrun, t.running) == V(t.vrun, t.running) + k * each
    && forall x :: x != t.running ==> V(u.vrun, x) == V(t.vrun, x)
  }

  lemma OneMoreTick(k: nat, each: int)
    ensures (k + 1) * each == k * each + each
  {
  }

  lemma TickWithin(t: Sched, k: nat, each: int, u: Sched)
    requires t.need == {} && RanFor(t, k, each, u) && each == (if Priority(t) == 0 || Priority(t) == 1 then 1 else 2)
    ensures t.slice - (k + 1) * each > 0 ==> Tick(u).need == {} && RanFor(t, k + 1, each, Tick(u))
    ensures t.slice - (k + 1) * each <= 0 ==> Tick(u).running in Tick(u).need
  {
    OneMoreTick(k, each);
  }

  lemma {:induction false} TicksMore(s: Sched, k: nat)
    ensures Ticks(s, k + 1) == TickStep(Ticks(s, k))
    decreases k
  {
    if k > 0 {
      TicksMore(TickStep(s), k - 1);
    }
  }

  lemma {:induction false} TicksWithin(t: Sched, k: nat, each: int)
    requires t.need == {} && each == (if Priority(t) == 0 || Priority(t) == 1 then 1 else 2)
    requires k == 0 || k * each < t.slice
    ensures Ticks(t, k).need == {} && RanFor(t, k, each, Ticks(t, k))
    decreases k
  {
    if k > 0 {
      OneMoreTick(k - 1, each);
      TicksWithin(t, k - 1, each);
      TickWithin(t, k - 1, each, Ticks(t, k - 1));
      TicksMore(t, k - 1);
    }
  }

  /** The slice that `schedule` hands out is used up by tick Lasts(n, priority) and by none before. */
  lemma SliceIsLasts(t: Sched, n: nat, each: int)
    requires n > 0 && each == (if Priority(t) == 0 || Priority(t) == 1 then 1 else 2)
    requires t.slice == (if each == 1 then 4 / n else 4 / n * 3)
    ensures (Lasts(n, Priority(t)) - 1) * each < t.slice || Lasts(n, Priority(t)) == 1
    ensures t.slice <= Lasts(n, Priority(t)) * each
  {
    assert n > 4 ==> 4 / n == 0;
  }

  /**
    How long a task goes on after `schedule`, if none blocks, wakes or is created: of n tasks, one of
    priority 0 or 1 is charged 1 a tick and `schedule` is called again by tick max(1, 4/n) and by none
    before; any other is charged 2 a tick and it is called again by tick max(1, 3 * (4/n) / 2 rounded up).
  */
  lemma SliceLasts(s: Sched, k: nat)
    requires Inv(s) && OnlyRunningFlagged(s) && Switch(s).count > 0
    requires k <= Lasts(1 + |Schedule(s).queue|, Priority(Schedule(s)))
    ensures var t, each := Schedule(s), if Priority(Schedule(s)) == 0 || Priority(Schedule(s)) == 1 then 1 else 2;
      if k < Lasts(1 + |t.queue|, Priority(t)) then RanFor(t, k, each, Ticks(t, k))
      else
        && RanFor(t, k - 1, each, Ticks(t, k - 1)) && Tick(Ticks(t, k - 1)).running in Tick(Ticks(t, k - 1)).need
        && Ticks(t, k) == Reschedule(Tick(Ticks(t, k - 1)))
  {
    var t, n := Schedule(s), 1 + |Schedule(s).queue|;
    var each := if Priority(t) == 0 || Priority(t) == 1 then 1 else 2;
    SwitchKeeps(s);
    SwitchLeaves(s);
    SliceIsLasts(t, n, each);
    var m: nat := if k < Lasts(n, Priority(t)) then k else k - 1;
    TicksWithin(t, m, each);
    TickWithin(t, m, each, Ticks(t, m));
    TicksMore(t, m);
  }

  /** After a wake-up the next tick leaves a running task that has run no longer than the woken one. */
  lemma WokenIsServed(s: Sched, x: nat)
    requires Inv(s) && x !in s.queue && x != s.running && x != IDLE
    ensures var u := TickStep(Apply(s, Wake(x)));
      && Inv(u) && Fair(u) && x in u.ready
      && (x == u.running || (x in u.queue && V(u.vrun, u.running) <= V(u.vrun, x)))
  {
    var w := Apply(s, Wake(x));
    InsertKeepsInv(s.(ready := s.ready + {x}), x);
    TickKeepsInv(w);
    SwitchKeeps(Tick(w));
    SwitchReadies(Tick(w), x);
  }

  /** A queued task runs after at most Wait(s, tsk) ticks if no task blocks, wakes or is created. */
  lemma {:induction false} QueuedTaskRuns(s: Sched, tsk: nat) returns (n: nat)
    requires Inv(s) && s.running in s.ready && tsk in s.queue
    ensures 1 <= n <= Wait(s, tsk) && Ticks(s, n).running == tsk
    decreases Wait(s, tsk)
  {
    var t := TickStep(s);
    EveryTickHelps(s, tsk);
    if t.running == tsk {
      n := 1;
      assert Ticks(s, 1) == Ticks(t, 0);
      WaitIsPositive(s, tsk);
    } else {
      var m := QueuedTaskRuns(t, tsk);
      n := m + 1;
    }
  }

  lemma {:induction false} WaitIsPositive(s: Sched, tsk: nat)
    requires tsk in s.queue
    ensures Wait(s, tsk) >= 1
  {
    GapOfMember(s.queue, tsk, s.vrun, V(s.vrun, tsk) + 1);
  }

  lemma {:induction false} GapOfMember(q: seq<nat>, x: nat, vrun: map<nat, int>, bound: int)
    requires x in q
    ensures SumGap(q, vrun, bound) >= Gap(vrun, x, bound)
  {
    if q[0] != x {
      GapOfMember(q[1..], x, vrun, bound);
    }
  }
}
