/**
  The fair spin lock: a 32-bit word with the owner's ticket in the low and the next ticket in the
  high 16 bits. Every instruction that touches the word is one step of one thread; a schedule is
  the sequence of threads that step.
*/
module TicketLock {
  import opened Sequences

  const TICKETS: nat := 0x1_0000
  const WORD: nat := 0x1_0000_0000

  /**
    Where a thread is: outside; about to compare its ticket with the owner it has read; about to
    read the owner again; or holding the lock.
  */
  datatype Pc = Out | Compare(ticket: nat, seen: nat) | Spin(ticket: nat) | Hold(ticket: nat)

  /** `fetched` and `entered` record who took a ticket and who got the lock, in order. */
  datatype Lock = Lock(word: nat, pc: seq<Pc>, fetched: seq<nat>, entered: seq<nat>, released: nat)

  function Owner(word: nat): nat { word % TICKETS }

  function NextTicket(word: nat): nat { word / TICKETS % TICKETS }

  /** `fair_spin_init` with n threads outside. */
  function Init(n: nat): Lock { Lock(0, seq(n, i => Out), [], [], 0) }

  /** The next step of thread i in `fair_spin_lock` or `fair_spin_unlock`. */
  function Step(s: Lock, i: nat): (t: Lock)
    ensures |t.pc| == |s.pc|
  {
    if i >= |s.pc| then s
    else
      match s.pc[i]
      case Out =>  // lock; xaddl
        s.(word := (s.word + TICKETS) % WORD, fetched := s.fetched + [i],
           pc := s.pc[i := Compare(NextTicket(s.word), Owner(s.word))])
      case Compare(ticket, seen) =>  // cmpl; je
        if ticket == seen then s.(pc := s.pc[i := Hold(ticket)], entered := s.entered + [i])
        else s.(pc := s.pc[i := Spin(ticket)])
      case Spin(ticket) =>  // movzwl
        s.(pc := s.pc[i := Compare(ticket, Owner(s.word))])
      case Hold(_) =>  // lock; incw
        s.(word := s.word / TICKETS * TICKETS + (Owner(s.word) + 1) % TICKETS,
           pc := s.pc[i := Out], released := s.released + 1)
  }

  function Run(s: Lock, schedule: seq<nat>): (t: Lock)
    ensures |t.pc| == |s.pc|
    decreases schedule
  {
    if schedule == [] then s else Run(Step(s, schedule[0]), schedule[1..])
  }

  // ---------- invariant ----------

  predicate HasTicket(p: Pc, t: nat) { !p.Out? && p.ticket == t }

  /** The thread has the lock, or has seen that it is its turn. */
  predicate Chosen(p: Pc) { p.Hold? || (p.Compare? && p.ticket == p.seen) }

  /** Threads waiting for the lock or holding it, in ticket order. */
  function Waiting(s: Lock): seq<nat>
    requires s.released <= |s.fetched|
  {
    s.fetched[s.released..]
  }

  ghost predicate Counts(s: Lock) {
    && s.released <= |s.fetched| <= s.released + |s.pc|
    && s.word == |s.fetched| % TICKETS * TICKETS + s.released % TICKETS
  }

  /** q holds exactly the threads that are not outside, the k-th with ticket base + k. */
  ghost predicate Lined(q: seq<nat>, pc: seq<Pc>, base: nat) {
    && Distinct(q)
    && (forall k :: 0 <= k < |q| ==> q[k] < |pc| && HasTicket(pc[q[k]], (base + k) % TICKETS))
    && (forall i :: 0 <= i < |pc| && !pc[i].Out? ==> i in q)
    && (forall k :: 0 < k < |q| ==> !Chosen(pc[q[k]]))
  }

  /** The lock was entered in ticket order, by all who released it and by the holder. */
  ghost predicate InOrder(s: Lock)
    requires s.released <= |s.fetched|
  {
    var q := Waiting(s);
    var holding := q != [] && q[0] < |s.pc| && s.pc[q[0]].Hold?;
    s.entered == s.fetched[..s.released + if holding then 1 else 0]
  }

  ghost predicate Inv(s: Lock) {
    Counts(s) && Lined(Waiting(s), s.pc, s.released) && InOrder(s)
  }

  /** At most one thread holds the lock. */
  ghost predicate Exclusive(s: Lock) {
    forall i, j :: 0 <= i < |s.pc| && 0 <= j < |s.pc| && s.pc[i].Hold? && s.pc[j].Hold? ==> i == j
  }
}
