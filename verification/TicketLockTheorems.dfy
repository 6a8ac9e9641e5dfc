/** Mutual exclusion and first-come-first-served order of the fair spin lock. */
module TicketLockTheorems {
  import opened Sequences
  import opened TicketLock

  // ---------- one step ----------

  /** The lock word read back. */
  lemma WordParts(s: Lock)
    requires Counts(s)
    ensures Owner(s.word) == s.released % TICKETS && NextTicket(s.word) == |s.fetched| % TICKETS
  {
  }

  lemma WordAfterFetch(f: nat, u: nat, word: nat)
    requires word == f % TICKETS * TICKETS + u % TICKETS
    ensures (word + TICKETS) % WORD == (f + 1) % TICKETS * TICKETS + u % TICKETS
  {
    if f % TICKETS == TICKETS - 1 {
      assert (f + 1) % TICKETS == 0;
    } else {
      assert (f + 1) % TICKETS == f % TICKETS + 1;
    }
  }

  lemma WordAfterRelease(f: nat, u: nat, word: nat)
    requires word == f % TICKETS * TICKETS + u % TICKETS
    ensures word / TICKETS * TICKETS + (Owner(word) + 1) % TICKETS == f % TICKETS * TICKETS + (u + 1) % TICKETS
  {
    assert word / TICKETS == f % TICKETS;
  }

  /** Fewer than 2^16 apart, equal modulo 2^16 means equal. */
  lemma SameTicket(base: nat, k: nat)
    requires k < TICKETS && (base + k) % TICKETS == base % TICKETS
    ensures k == 0
  {
  }

  lemma LinedFetch(q: seq<nat>, pc: seq<Pc>, base: nat, i: nat, seen: nat)
    requires Lined(q, pc, base) && i < |pc| <= TICKETS && pc[i].Out? && seen == base % TICKETS
    ensures Lined(q + [i], pc[i := Compare((base + |q|) % TICKETS, seen)], base)
    ensures |q| < |pc|
  {
    assert i !in q;
    DistinctBound(q + [i], |pc|);
    if |q| > 0 && (base + |q|) % TICKETS == seen {
      SameTicket(base, |q|);
    }
  }

  /** A thread that changes neither its ticket nor, unless it is the first, whether it is chosen. */
  lemma LinedChange(q: seq<nat>, pc: seq<Pc>, base: nat, i: nat, p: Pc)
    requires Lined(q, pc, base) && i < |pc| && !pc[i].Out? && HasTicket(p, pc[i].ticket)
    requires Chosen(p) ==> q[0] == i
    ensures Lined(q, pc[i := p], base)
  {
    forall k | 0 < k < |q|
      ensures !Chosen(pc[i := p][q[k]])
    {
      assert q[0] != q[k];
    }
  }

  lemma LinedRelease(q: seq<nat>, pc: seq<Pc>, base: nat)
    requires Lined(q, pc, base) && q != []
    ensures Lined(q[1..], pc[q[0] := Out], base + 1)
  {
    forall k | 0 <= k < |q| - 1
      ensures q[1..][k] == q[k + 1] && q[k + 1] != q[0]
    {
    }
    forall i | 0 <= i < |pc| && i != q[0] && !pc[i].Out?
      ensures i in q[1..]
    {
      assert i in q;
    }
    forall k | 0 <= k < |q| - 1
      ensures HasTicket(pc[q[0] := Out][q[1..][k]], (base + 1 + k) % TICKETS)
    {
      assert HasTicket(pc[q[k + 1]], (base + (k + 1)) % TICKETS);
    }
  }

  /** Whoever is chosen is the first in line. */
  lemma ChosenIsFirst(q: seq<nat>, pc: seq<Pc>, base: nat, i: nat)
    requires Lined(q, pc, base) && i < |pc| && Chosen(pc[i])
    ensures q != [] && q[0] == i
  {
    assert i in q;
    var k :| 0 <= k < |q| && q[k] == i;
  }

  lemma FetchCounts(s: Lock, i: nat)
    requires Counts(s) && i < |s.pc| && s.pc[i].Out? && |s.fetched| < s.released + |s.pc|
    ensures Counts(Step(s, i))
    ensures Step(s, i).pc[i] == Compare(|s.fetched| % TICKETS, s.released % TICKETS)
  {
    WordParts(s);
    WordAfterFetch(|s.fetched|, s.released, s.word);
  }

  lemma FetchInOrder(s: Lock, i: nat)
    requires s.released <= |s.fetched| && InOrder(s) && i < |s.pc| && s.pc[i].Out? && i !in Waiting(s)
    ensures InOrder(Step(s, i)) && Waiting(Step(s, i)) == Waiting(s) + [i]
  {
    var t, q := Step(s, i), Waiting(s);
    assert Waiting(t) == q + [i];
    assert q != [] ==> Waiting(t)[0] == q[0] && q[0] in q;
  }

  /** The thread joins the line behind those that wait. */
  lemma FetchLined(s: Lock, i: nat, q: seq<nat>)
    requires Counts(s) && q == Waiting(s) && Lined(q, s.pc, s.released)
    requires |s.pc| <= TICKETS && i < |s.pc| && s.pc[i].Out? && |s.fetched| < s.released + |s.pc|
    ensures Lined(q + [i], Step(s, i).pc, s.released)
  {
    FetchCounts(s, i);
    LinedFetch(q, s.pc, s.released, i, s.released % TICKETS);
    assert |s.fetched| == s.released + |q|;
    assert Step(s, i).pc == s.pc[i := Step(s, i).pc[i]];
  }

  lemma OutIsNotWaiting(q: seq<nat>, pc: seq<Pc>, base: nat, i: nat)
    requires Lined(q, pc, base) && i < |pc| <= TICKETS && pc[i].Out?
    ensures i !in q && |q| < |pc|
  {
    LinedFetch(q, pc, base, i, base % TICKETS);
  }

  lemma FetchKeeps(s: Lock, i: nat)
    requires Inv(s) && |s.pc| <= TICKETS && i < |s.pc| && s.pc[i].Out?
    ensures Inv(Step(s, i))
  {
    OutIsNotWaiting(Waiting(s), s.pc, s.released, i);
    FetchLined(s, i, Waiting(s));
    FetchInOrder(s, i);
    FetchCounts(s, i);
  }

  /** Comparing or reading again moves nobody in line. */
  lemma WaitLined(s: Lock, i: nat, q: seq<nat>)
    requires Counts(s) && q == Waiting(s) && Lined(q, s.pc, s.released)
    requires |s.pc| <= TICKETS && i < |s.pc| && (s.pc[i].Compare? || s.pc[i].Spin?)
    ensures Lined(q, Step(s, i).pc, s.released)
  {
    WordParts(s);
    if s.pc[i].Compare? {
      if s.pc[i].ticket == s.pc[i].seen {
        ChosenIsFirst(q, s.pc, s.released, i);
        LinedChange(q, s.pc, s.released, i, Hold(s.pc[i].ticket));
      } else {
        LinedChange(q, s.pc, s.released, i, Spin(s.pc[i].ticket));
      }
    } else {
      assert i in q;
      var k :| 0 <= k < |q| && q[k] == i;
      if s.pc[i].ticket == Owner(s.word) {
        SameTicket(s.released, k);
      }
      LinedChange(q, s.pc, s.released, i, Compare(s.pc[i].ticket, Owner(s.word)));
    }
  }

  /** Comparing or reading again changes no ticket. */
  lemma WaitKeeps(s: Lock, i: nat)
    requires Inv(s) && |s.pc| <= TICKETS && i < |s.pc| && (s.pc[i].Compare? || s.pc[i].Spin?)
    ensures Inv(Step(s, i))
  {
    WaitLined(s, i, Waiting(s));
    assert Waiting(Step(s, i)) == Waiting(s);
    if Chosen(s.pc[i]) {
      ChosenIsFirst(Waiting(s), s.pc, s.released, i);
    }
  }

  lemma ReleaseKeeps(s: Lock, i: nat)
    requires Inv(s) && |s.pc| <= TICKETS && i < |s.pc| && s.pc[i].Hold?
    ensures Inv(Step(s, i))
  {
    var t, q := Step(s, i), Waiting(s);
    ChosenIsFirst(q, s.pc, s.released, i);
    WordParts(s);
    WordAfterRelease(|s.fetched|, s.released, s.word);
    assert Waiting(t) == q[1..];
    LinedRelease(q, s.pc, s.released);
    assert q[1..] != [] ==> q[1..][0] == q[1] && !Chosen(s.pc[q[1]]);
  }

  lemma StepKeeps(s: Lock, i: nat)
    requires Inv(s) && |s.pc| <= TICKETS
    ensures Inv(Step(s, i))
  {
    if i < |s.pc| {
      if s.pc[i].Out? {
        FetchKeeps(s, i);
      } else if s.pc[i].Hold? {
        ReleaseKeeps(s, i);
      } else {
        WaitKeeps(s, i);
      }
    }
  }

  // ---------- every run ----------

  lemma {:induction false} RunKeeps(s: Lock, schedule: seq<nat>)
    requires Inv(s) && |s.pc| <= TICKETS
    ensures Inv(Run(s, schedule))
    decreases schedule
  {
    if schedule != [] {
      StepKeeps(s, schedule[0]);
      RunKeeps(Step(s, schedule[0]), schedule[1..]);
    }
  }

  lemma InvIsExclusive(s: Lock)
    requires Inv(s)
    ensures Exclusive(s)
  {
    forall i, j | 0 <= i < |s.pc| && 0 <= j < |s.pc| && s.pc[i].Hold? && s.pc[j].Hold?
      ensures i == j
    {
      ChosenIsFirst(Waiting(s), s.pc, s.released, i);
      ChosenIsFirst(Waiting(s), s.pc, s.released, j);
    }
  }

  /** The lock goes to the threads in the order in which they took their tickets. */
  ghost predicate FirstComeFirstServed(s: Lock) {
    && s.released <= |s.entered| <= s.released + 1
    && |s.entered| <= |s.fetched| && s.entered == s.fetched[..|s.entered|]
  }

  /** Tickets of waiters and holder are distinct and fill owner..next modulo 2^16. */
  ghost predicate TicketsFill(s: Lock)
    requires s.released <= |s.fetched|
  {
    && (forall k :: 0 <= k < |Waiting(s)| ==>
          Waiting(s)[k] < |s.pc| && HasTicket(s.pc[Waiting(s)[k]], (Owner(s.word) + k) % TICKETS))
    && (forall i :: 0 <= i < |s.pc| && !s.pc[i].Out? ==> i in Waiting(s))
    && NextTicket(s.word) == (Owner(s.word) + |Waiting(s)|) % TICKETS
    && |Waiting(s)| <= |s.pc|
  }

  lemma TicketSum(u: nat, k: nat)
    ensures (u % TICKETS + k) % TICKETS == (u + k) % TICKETS
  {
  }

  lemma InvMeans(s: Lock)
    requires Inv(s)
    ensures FirstComeFirstServed(s) && TicketsFill(s)
  {
    WordParts(s);
    TicketSum(s.released, |Waiting(s)|);
    forall k | 0 <= k < |Waiting(s)|
      ensures HasTicket(s.pc[Waiting(s)[k]], (Owner(s.word) + k) % TICKETS)
    {
      TicketSum(s.released, k);
    }
  }

  /** With up to 2^16 threads, every interleaving is fair. */
  lemma EveryRunIsFair(n: nat, schedule: seq<nat>)
    requires n <= TICKETS
    ensures var s := Run(Init(n), schedule);
      Exclusive(s) && FirstComeFirstServed(s) && TicketsFill(s)
  {
    assert Waiting(Init(n)) == [];
    RunKeeps(Init(n), schedule);
    InvIsExclusive(Run(Init(n), schedule));
    InvMeans(Run(Init(n), schedule));
  }

  // ---------- too many threads ----------

  /** Threads a up to b, one after another. */
  function Each(a: nat, b: nat): seq<nat>
    requires a <= b
    decreases b - a
  {
    if a == b then [] else [a] + Each(a + 1, b)
  }

  lemma {:induction false} RunAppend(s: Lock, a: seq<nat>, b: seq<nat>)
    ensures Run(s, a + b) == Run(Run(s, a), b)
    decreases a
  {
    if a == [] {
      assert a + b == b;
    } else {
      assert (a + b)[1..] == a[1..] + b;
      RunAppend(Step(s, a[0]), a[1..], b);
    }
  }

  lemma AddOnceMore(word: nat, k: nat)
    requires word < WORD
    ensures ((word + TICKETS) % WORD + k * TICKETS) % WORD == (word + (k + 1) * TICKETS) % WORD
  {
    if word + TICKETS >= WORD {
      assert (word + TICKETS) % WORD == word + TICKETS - WORD;
    }
  }

  /** Fetching moves the next ticket on and leaves the owner and the other threads alone. */
  lemma {:induction false} EachFetches(s: Lock, a: nat, b: nat)
    requires a <= b <= |s.pc| && s.word < WORD && forall i :: a <= i < b ==> s.pc[i].Out?
    ensures var t := Run(s, Each(a, b));
      && t.word == (s.word + (b - a) * TICKETS) % WORD
      && forall i :: 0 <= i < |s.pc| && !(a <= i < b) ==> t.pc[i] == s.pc[i]
    decreases b - a
  {
    if a < b {
      EachFetches(Step(s, a), a + 1, b);
      AddOnceMore(s.word, b - a - 1);
      assert Each(a, b)[1..] == Each(a + 1, b);
    }
  }

  /** With the next ticket wrapped around to 0, a thread walks in on the holder of ticket 0. */
  lemma LastWalksIn(s: Lock, i: nat)
    requires s.word == 0 && 0 < i < |s.pc| && s.pc[0].Hold? && s.pc[i].Out?
    ensures !Exclusive(Run(s, [i, i]))
  {
    var s1 := Step(s, i);
    var s2 := Step(s1, i);
    assert [i, i][1..] == [i] && [i][1..] == [];
    assert Run(s, [i, i]) == Run(s1, [i]) == Run(s2, []) == s2;
    assert s2.pc[0].Hold? && s2.pc[i].Hold?;
  }

  /** With more than 2^16 threads the tickets wrap around onto the holder's. */
  lemma TicketsRunOut(n: nat) returns (schedule: seq<nat>)
    requires n > TICKETS
    ensures !Exclusive(Run(Init(n), schedule))
  {
    var s1 := Run(Init(n), [0, 0]);
    FirstHolds(n);
    var rest := Each(1, TICKETS);
    EachFetches(s1, 1, TICKETS);
    LastWalksIn(Run(s1, rest), TICKETS);
    RunAppend(s1, rest, [TICKETS, TICKETS]);
    schedule := [0, 0] + (rest + [TICKETS, TICKETS]);
    RunAppend(Init(n), [0, 0], rest + [TICKETS, TICKETS]);
  }

  lemma FirstHolds(n: nat)
    requires n > 0
    ensures var s := Run(Init(n), [0, 0]);
      s.word == TICKETS && |s.pc| == n && s.pc[0] == Hold(0) && forall i :: 0 < i < n ==> s.pc[i].Out?
  {
    var s1 := Step(Init(n), 0);
    var s2 := Step(s1, 0);
    assert [0, 0][1..] == [0] && [0][1..] == [];
    assert Run(Init(n), [0, 0]) == Run(s1, [0]) == Run(s2, []) == s2;
  }

  /** The lock is mutually exclusive in every run exactly when there are at most 2^16 threads. */
  lemma ExclusiveIff(n: nat)
    ensures (forall schedule :: Exclusive(Run(Init(n), schedule))) <==> n <= TICKETS
  {
    if n <= TICKETS {
      forall schedule
        ensures Exclusive(Run(Init(n), schedule))
      {
        EveryRunIsFair(n, schedule);
      }
    } else {
      var schedule := TicketsRunOut(n);
    }
  }

  // ---------- progress ----------

  /** Nothing the others do takes the first in line out of its place. */
  lemma OthersKeepFirst(s: Lock, j: nat)
    requires Inv(s) && |s.pc| <= TICKETS && Waiting(s) != [] && j != Waiting(s)[0]
    ensures var t := Step(s, j);
      t.released == s.released && Owner(t.word) == Owner(s.word)
      && Waiting(t) != [] && Waiting(t)[0] == Waiting(s)[0] && t.pc[Waiting(s)[0]] == s.pc[Waiting(s)[0]]
  {
    StepKeeps(s, j);
    if j < |s.pc| {
      if s.pc[j].Hold? {
        ChosenIsFirst(Waiting(s), s.pc, s.released, j);
      }
      WordParts(s);
      WordParts(Step(s, j));
    }
  }

  function Times(m: nat, i: nat): seq<nat> {
    if m == 0 then [] else [i] + Times(m - 1, i)
  }

  lemma TimesStep(s: Lock, m: nat, i: nat)
    requires m > 0
    ensures Run(s, Times(m, i)) == Run(Step(s, i), Times(m - 1, i))
  {
    assert Times(m, i)[1..] == Times(m - 1, i);
  }

  /** The first in line gets the lock within three of its own steps. */
  lemma FirstGetsLock(s: Lock) returns (m: nat)
    requires Inv(s) && |s.pc| <= TICKETS && Waiting(s) != []
    ensures m <= 3
    ensures var i := Waiting(s)[0]; i < |s.pc| && Run(s, Times(m, i)).pc[i].Hold?
  {
    var i := Waiting(s)[0];
    WordParts(s);
    assert HasTicket(s.pc[i], (s.released + 0) % TICKETS);
    var s1 := Step(s, i);
    var s2 := Step(s1, i);
    m := if s.pc[i].Hold? then 0 else if Chosen(s.pc[i]) then 1 else if s.pc[i].Spin? then 2 else 3;
    if m > 0 {
      TimesStep(s, m, i);
    }
    if m > 1 {
      TimesStep(s1, m - 1, i);
    }
    if m > 2 {
      TimesStep(s2, 1, i);
    }
  }
}
