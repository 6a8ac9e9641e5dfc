/** Slots, containers and the bookkeeping of page runs. */
module SmallObjectsLaws {
  import opened BitMath
  import opened Sequences
  import opened SmallObjects

  // ---------- slots ----------

  lemma DivModUnique(m: nat, q: int, r: nat)
    requires r < m
    ensures (m * q + r) % m == r
  {
    var d := (m * q + r) / m;
    var e := (m * q + r) % m;
    assert m * q + r == m * d + e;
    if d > q {
      Larger(m, d, q);
    } else if d < q {
      Larger(m, q, d);
    }
  }

  lemma Larger(m: nat, a: int, b: int)
    requires a > b
    ensures m * a >= m * b + m
  {
    assert m * (a - b - 1) >= 0;
    assert m * a == m * b + m + m * (a - b - 1);
  }

  lemma ModShift(x: nat, m: nat)
    requires m > 0
    ensures (x + m) % m == x % m
  {
    assert x == m * (x / m) + x % m;
    assert m * (x / m + 1) == m * (x / m) + m;
    DivModUnique(m, x / m + 1, x % m);
  }

  /** A slot of the given size starts at x. */
  predicate SlotAt(ap: nat, objsz: nat, end: int, x: nat)
    requires objsz > 0
  {
    ap <= x && x + objsz <= end && (x - ap) % objsz == 0
  }

  lemma SlotFurther(ap: nat, objsz: nat, end: int, x: nat)
    requires objsz > 0 && SlotAt(ap + objsz, objsz, end, x)
    ensures SlotAt(ap, objsz, end, x)
  {
    ModShift(x - ap - objsz, objsz);
  }

  /** Slots start past ap, sit at multiples of the size and do not overlap. */
  lemma {:induction false} SlotsFacts(ap: nat, objsz: nat, end: int, q: seq<nat>)
    requires objsz > 0 && q == Slots(ap, objsz, end)
    ensures forall i :: 0 <= i < |q| ==> SlotAt(ap, objsz, end, q[i])
    ensures forall i, j :: 0 <= i < j < |q| ==> q[i] + objsz <= q[j]
    ensures ap + objsz <= end ==> q != []
    decreases end - ap
  {
    if ap + objsz <= end {
      var rest := Slots(ap + objsz, objsz, end);
      SlotsFacts(ap + objsz, objsz, end, rest);
      assert q == [ap] + rest;
      forall i | 0 <= i < |q|
        ensures SlotAt(ap, objsz, end, q[i])
        ensures i > 0 ==> q[i] >= ap + objsz
      {
        if i > 0 {
          assert q[i] == rest[i - 1] && SlotAt(ap + objsz, objsz, end, rest[i - 1]);
          SlotFurther(ap, objsz, end, q[i]);
        }
      }
      forall i, j | 0 <= i < j < |q|
        ensures q[i] + objsz <= q[j]
      {
        assert q[j] == rest[j - 1];
        assert i > 0 ==> q[i] == rest[i - 1];
      }
    } else {
      assert Slots(ap + objsz, objsz, end) == [];
    }
  }

  lemma MultipleAbove(d: nat, m: nat)
    requires 0 < m && 0 < d && d % m == 0
    ensures d >= m && (d - m) % m == 0
  {
    if d >= m {
      ModShift(d - m, m);
    }
  }

  /** Exactly the slots there is room for are carved. */
  lemma {:induction false} SlotsHas(ap: nat, objsz: nat, end: int, x: nat)
    requires objsz > 0
    ensures x in Slots(ap, objsz, end) <==> SlotAt(ap, objsz, end, x)
    decreases end - ap
  {
    if ap + objsz <= end {
      SlotsHas(ap + objsz, objsz, end, x);
      assert Slots(ap, objsz, end) == [ap] + Slots(ap + objsz, objsz, end);
      if SlotAt(ap, objsz, end, x) && x != ap {
        MultipleAbove(x - ap, objsz);
      }
      if SlotAt(ap + objsz, objsz, end, x) {
        SlotFurther(ap, objsz, end, x);
      }
    } else {
      assert Slots(ap + objsz, objsz, end) == [];
    }
  }

  lemma DivStep(d: nat, m: nat)
    requires 0 < m <= d
    ensures d / m == (d - m) / m + 1
  {
    var q, e := (d - m) / m, (d - m) % m;
    assert d == m * (q + 1) + e;
    DivIs(d, m, q + 1, e);
  }

  lemma DivIs(d: nat, m: nat, q: nat, e: nat)
    requires e < m && d == m * q + e
    ensures d / m == q
  {
    var k := d / m;
    if k > q {
      Larger(m, k, q);
    } else if k < q {
      Larger(m, q, k);
    }
  }

  /** ...so their number is the room divided by the size. */
  lemma {:induction false} SlotsCount(ap: nat, objsz: nat, end: int)
    requires objsz > 0 && ap <= end
    ensures |Slots(ap, objsz, end)| == (end - ap) / objsz
    decreases end - ap
  {
    if ap + objsz <= end {
      SlotsCount(ap + objsz, objsz, end);
      DivStep(end - ap, objsz);
    } else {
      assert Slots(ap + objsz, objsz, end) == [];
      DivIs(end - ap, objsz, 0, end - ap);
    }
  }

  /** A container or an extension holds at least 29 objects of up to 128 bytes, 15 of up to 512, 7 of any. */
  lemma RunHolds(i: nat, start: nat, header: nat)
    requires i < CLASSES && header <= 368
    ensures |SlotsOf(Run(start, PagesFor(ObjSize(i)), header), ObjSize(i))| >= if i < 4 then 29 else if i < 16 then 15 else 7
  {
    var r := Run(start, PagesFor(ObjSize(i)), header);
    SlotsCount(r.start + r.header, ObjSize(i), Last(r));
    AtLeast(Last(r) - (r.start + r.header), ObjSize(i), if i < 4 then 29 else if i < 16 then 15 else 7);
  }

  /** A first page holds 116 objects of 32 bytes, and a page that is added 126. */
  lemma PageHolds(start: nat)
    ensures |SlotsOf(Run(start, 1, KMSOB_T), 32)| == 116 && |SlotsOf(Run(start, 1, KMBEXT_T), 32)| == 126
  {
    SlotsCount(start + KMSOB_T, 32, Last(Run(start, 1, KMSOB_T)));
    SlotsCount(start + KMBEXT_T, 32, Last(Run(start, 1, KMBEXT_T)));
  }

  lemma AtLeast(d: nat, m: nat, n: nat)
    requires 0 < m && n * m <= d
    ensures d / m >= n
  {
    var q := d / m;
    assert d == m * q + d % m;
    if q < n {
      Larger(m, n, q);
    }
  }

  lemma SlotIn(r: Run, objsz: nat, a: nat)
    requires objsz > 0 && a in SlotsOf(r, objsz)
    ensures WithinRun(r, a, objsz) && IsSlot(r, a, objsz)
  {
    var q := SlotsOf(r, objsz);
    SlotsFacts(r.start + r.header, objsz, Last(r), q);
    var i :| 0 <= i < |q| && q[i] == a;
    assert SlotAt(r.start + r.header, objsz, Last(r), a);
  }

  /** Every run holds at least one slot. */
  lemma RoomForOne(start: nat, header: nat, i: nat)
    requires i < CLASSES && header <= KMSOB_T
    ensures SlotsOf(Run(start, PagesFor(ObjSize(i)), header), ObjSize(i)) != []
  {
    var r := Run(start, PagesFor(ObjSize(i)), header);
    SlotsFacts(r.start + r.header, ObjSize(i), Last(r), SlotsOf(r, ObjSize(i)));
  }

  ghost predicate InSomeRun(runs: seq<Run>, objsz: nat, a: nat)
    requires objsz > 0
  {
    exists k :: 0 <= k < |runs| && a in SlotsOf(runs[k], objsz)
  }

  /** No two different slots overlap. */
  ghost predicate Spaced(q: seq<nat>, objsz: nat) {
    forall i, j :: 0 <= i < j < |q| ==> q[i] + objsz <= q[j] || q[j] + objsz <= q[i]
  }

  lemma InFrontRun(runs: seq<Run>, n: nat, objsz: nat, a: nat) returns (k: nat)
    requires objsz > 0 && n <= |runs| && InSomeRun(runs[..n], objsz, a)
    ensures k < n && a in SlotsOf(runs[k], objsz)
  {
    k :| k < n && a in SlotsOf(runs[..n][k], objsz);
    assert runs[..n][k] == runs[k];
  }

  /** Slots of two runs do not overlap. */
  lemma SlotsOfTwoRuns(r: Run, t: Run, objsz: nat, a: nat, b: nat)
    requires objsz > 0 && Apart(r, t) && a in SlotsOf(r, objsz) && b in SlotsOf(t, objsz)
    ensures a + objsz <= b || b + objsz <= a
  {
    SlotIn(r, objsz, a);
    SlotIn(t, objsz, b);
  }

  lemma SpacedJoin(p: seq<nat>, q: seq<nat>, objsz: nat)
    requires Spaced(p, objsz) && Spaced(q, objsz)
    requires forall a, b :: a in p && b in q ==> a + objsz <= b || b + objsz <= a
    ensures Spaced(p + q, objsz)
  {
    var w := p + q;
    forall i, j | 0 <= i < j < |w|
      ensures w[i] + objsz <= w[j] || w[j] + objsz <= w[i]
    {
      if i < |p| <= j {
        assert w[i] == p[i] && p[i] in p && w[j] == q[j - |p|] && q[j - |p|] in q;
      }
    }
  }

  lemma {:induction false} AllSlotsFacts(runs: seq<Run>, objsz: nat)
    requires objsz > 0 && forall k, l :: 0 <= k < l < |runs| ==> Apart(runs[k], runs[l])
    ensures forall a :: a in AllSlots(runs, objsz) ==> InSomeRun(runs, objsz, a)
    ensures Spaced(AllSlots(runs, objsz), objsz)
    decreases |runs|
  {
    if runs != [] {
      var n := |runs| - 1;
      var front, last := AllSlots(runs[..n], objsz), SlotsOf(runs[n], objsz);
      AllSlotsFacts(runs[..n], objsz);
      SlotsFacts(runs[n].start + runs[n].header, objsz, Last(runs[n]), last);
      forall a | a in front
        ensures InSomeRun(runs, objsz, a)
        ensures forall b :: b in last ==> a + objsz <= b || b + objsz <= a
      {
        var k := InFrontRun(runs, n, objsz, a);
        forall b | b in last
          ensures a + objsz <= b || b + objsz <= a
        {
          SlotsOfTwoRuns(runs[k], runs[n], objsz, a, b);
        }
      }
      SpacedJoin(front, last, objsz);
    }
  }

  /** All slots of all runs are there. */
  lemma {:induction false} AllSlotsHas(runs: seq<Run>, objsz: nat, k: nat, x: nat)
    requires objsz > 0 && k < |runs| && SlotAt(runs[k].start + runs[k].header, objsz, Last(runs[k]), x)
    ensures x in AllSlots(runs, objsz)
    decreases |runs|
  {
    var n := |runs| - 1;
    if k < n {
      AllSlotsHas(runs[..n], objsz, k, x);
    } else {
      SlotsHas(runs[n].start + runs[n].header, objsz, Last(runs[n]), x);
    }
  }

  lemma {:induction false} SpacedOnce(q: seq<nat>, objsz: nat, a: nat)
    requires Spaced(q, objsz) && objsz > 0
    ensures multiset(q)[a] <= 1
    decreases |q|
  {
    if q != [] {
      var n := |q| - 1;
      assert q == q[..n] + [q[n]];
      SpacedOnce(q[..n], objsz, a);
      forall i | 0 <= i < n
        ensures q[..n][i] != q[n]
      {
      }
    }
  }

  /** Two different members of a spaced list do not overlap. */
  lemma SpacedMembers(q: seq<nat>, objsz: nat, a: nat, b: nat)
    requires Spaced(q, objsz) && a in q && b in q && a != b
    ensures a + objsz <= b || b + objsz <= a
  {
    var i :| 0 <= i < |q| && q[i] == a;
    var j :| 0 <= j < |q| && q[j] == b;
  }

  // ---------- containers ----------

  /** Runs of 1, 2 and 4 pages are listed under orders 0, 1 and 2. */
  lemma MscIndex(objsz: nat)
    ensures var k := DivOrder(PagesFor(objsz)); k < MSCLST_MAX && Pow2(k) == PagesFor(objsz)
  {
    if 512 < objsz {
      assert Pow2(2) == 4;
      DivOrderOfPow2(4, 2);
    } else if 128 < objsz {
      assert Pow2(1) == 2;
      DivOrderOfPow2(2, 1);
    } else {
      assert Pow2(0) == 1;
      DivOrderOfPow2(1, 0);
    }
  }

  lemma CreateOk(i: nat, start: nat)
    requires i < CLASSES && start > 0
    ensures var c := Create(ObjSize(i), start);
      ContainerOk(c, i) && c.free != [] && c.live == multiset{} && c.runs == [Run(start, PagesFor(ObjSize(i)), KMSOB_T)]
  {
    RoomForOne(start, KMSOB_T, i);
    var c := Create(ObjSize(i), start);
    assert c.runs[..0] == [];
    assert AllSlots(c.runs, c.objsz) == c.free;
    assert Starts(c.runs[1..]) == [];
  }

  lemma ExtendOk(c: Container, i: nat, start: nat)
    requires i < CLASSES && ContainerOk(c, i) && start > 0
    requires forall k :: 0 <= k < |c.runs| ==> Apart(c.runs[k], Run(start, PagesFor(c.objsz), KMBEXT_T))
    ensures var d := Extend(c, start);
      && ContainerOk(d, i) && |d.free| > |c.free| && d.live == c.live && d.fobjnr > c.fobjnr && d.mobjnr > c.mobjnr
      && d.runs == c.runs + [Run(start, PagesFor(c.objsz), KMBEXT_T)]
  {
    var r := Run(start, PagesFor(c.objsz), KMBEXT_T);
    MscIndex(c.objsz);
    RoomForOne(start, KMBEXT_T, i);
    ExtendSlots(c, r, SlotsOf(r, c.objsz), Extend(c, start));
    ExtendListed(c, start);
    ExtendRuns(c.runs, c.objsz, r);
  }

  lemma ExtendRuns(runs: seq<Run>, objsz: nat, r: Run)
    requires RunsOk(runs, objsz) && r.start > 0 && r.pages == PagesFor(objsz) && r.header == KMBEXT_T
    requires forall k :: 0 <= k < |runs| ==> Apart(runs[k], r)
    ensures RunsOk(runs + [r], objsz)
  {
  }

  lemma ExtendSlots(c: Container, r: Run, slots: seq<nat>, d: Container)
    requires c.objsz > 0 && SlotsKept(c) && slots == SlotsOf(r, c.objsz)
    requires d.objsz == c.objsz && d.runs == c.runs + [r] && d.free == c.free + slots && d.live == c.live
    requires d.fobjnr == c.fobjnr + |slots| && d.mobjnr == c.mobjnr + |slots|
    ensures SlotsKept(d)
  {
    assert d.runs[..|d.runs| - 1] == c.runs;
    assert AllSlots(d.runs, d.objsz) == AllSlots(c.runs, c.objsz) + slots;
  }

  lemma StartsSnoc(runs: seq<Run>, r: Run)
    requires runs != []
    ensures Starts((runs + [r])[1..]) == Starts(runs[1..]) + [r.start]
  {
    assert (runs + [r])[1..] == runs[1..] + [r];
  }

  lemma ExtendListed(c: Container, start: nat)
    requires PagesListed(c) && c.objsz > 0
    ensures PagesListed(Extend(c, start))
  {
    MscIndex(c.objsz);
    var d := Extend(c, start);
    StartsSnoc(c.runs, Run(start, PagesFor(c.objsz), KMBEXT_T));
    forall j | 0 <= j < MSCLST_MAX
      ensures d.mc[j] == if Pow2(j) == PagesFor(c.objsz) then Starts(d.runs[1..]) else []
    {
      if Pow2(j) == PagesFor(c.objsz) {
        Pow2Injective(j, DivOrder(PagesFor(c.objsz)));
      }
    }
  }

  /** A free slot is not live, lies in a run past its header, and overlaps no live slot. */
  lemma FreeSlotIsNew(c: Container, i: nat, a: nat)
    requires ContainerOk(c, i) && a in c.free
    ensures a !in c.live && InSomeRun(c.runs, c.objsz, a)
    ensures forall b :: b in c.live ==> a + c.objsz <= b || b + c.objsz <= a
  {
    var q := AllSlots(c.runs, c.objsz);
    AllSlotsFacts(c.runs, c.objsz);
    SpacedOnce(q, c.objsz, a);
    var slots: multiset<nat> := multiset(q);
    assert slots[a] == multiset(c.free)[a] + c.live[a];
    assert a in slots && a in q;
    forall b | b in c.live
      ensures a + c.objsz <= b || b + c.objsz <= a
    {
      assert b in multiset(q);
      SpacedMembers(q, c.objsz, a, b);
    }
  }

  lemma PopOk(c: Container, i: nat)
    requires ContainerOk(c, i) && c.free != []
    ensures var d := Pop(c); ContainerOk(d, i) && d.runs == c.runs && d.live == c.live + multiset{c.free[0]}
  {
    assert c.free == [c.free[0]] + c.free[1..];
  }

  /** A live object is where its address says: in one run, past the header, at a slot. */
  lemma LiveIsSlot(c: Container, i: nat, a: nat) returns (k: nat)
    requires ContainerOk(c, i) && a in c.live
    ensures k < |c.runs| && a in SlotsOf(c.runs[k], c.objsz) && IsSlot(c.runs[k], a, c.objsz)
  {
    AllSlotsFacts(c.runs, c.objsz);
    assert a in multiset(AllSlots(c.runs, c.objsz));
    assert InSomeRun(c.runs, c.objsz, a);
    k :| 0 <= k < |c.runs| && a in SlotsOf(c.runs[k], c.objsz);
    SlotIn(c.runs[k], c.objsz, a);
  }

  /** The scan by bytes finds the run a slot lies in. */
  lemma RunOfSlot(c: Container, i: nat, a: nat, fsz: nat, k: nat)
    requires ContainerOk(c, i) && k < |c.runs| && WithinRun(c.runs[k], a, c.objsz) && 1 <= fsz <= c.objsz
    ensures RunOf(c.runs, 0, a, fsz) == k
  {
    var j := RunOf(c.runs, 0, a, fsz);
    assert forall l :: 0 <= l < k ==> Apart(c.runs[l], c.runs[k]);
  }

  /** Giving a live object back makes its slot free. */
  lemma PushOk(c: Container, i: nat, a: nat, fsz: nat)
    requires ContainerOk(c, i) && a in c.live && 1 <= fsz <= c.objsz
    ensures var (d, ok) := Push(c, a, fsz);
      ok && ContainerOk(d, i) && d.runs == c.runs && d.live == c.live - multiset{a}
      && (d.mobjnr == d.fobjnr <==> d.live == multiset{}) && d.fobjnr <= d.mobjnr
      && d.kmobinpnr == c.kmobinpnr && d.kmobin == c.kmobin && d.mc == c.mc
  {
    var k := LiveIsSlot(c, i, a);
    RunOfSlot(c, i, a, fsz, k);
    var q := AllSlots(c.runs, c.objsz);
    assert |multiset(c.free)| + |c.live| == |multiset(q)|;
    assert c.live == (c.live - multiset{a}) + multiset{a};
    var d := Push(c, a, fsz).0;
    assert multiset(d.free) == multiset(c.free) + multiset{a};
    assert |multiset(d.free)| + |d.live| == |multiset(q)|;
  }

  // ---------- pages ----------

  lemma {:induction false} ExtentsSnoc(q: seq<nat>, x: nat, p: nat)
    ensures Extents(q + [x], p) == Extents(q, p) + multiset{Extent(x, p)}
  {
    if q != [] {
      assert (q + [x])[1..] == q[1..] + [x];
      ExtentsSnoc(q[1..], x, p);
    } else {
      assert q + [x] == [x];
    }
  }

  lemma {:induction false} ExtentsOfRuns(runs: seq<Run>, p: nat)
    requires forall k :: 0 <= k < |runs| ==> runs[k].pages == p
    ensures Extents(Starts(runs), p) == RunExtents(runs)
    decreases |runs|
  {
    if runs != [] {
      var n := |runs| - 1;
      ExtentsOfRuns(runs[..n], p);
      assert Starts(runs) == Starts(runs[..n]) + [runs[n].start];
      ExtentsSnoc(Starts(runs[..n]), runs[n].start, p);
    }
  }

  lemma ExtentsCons(x: nat, q: seq<nat>, p: nat)
    ensures Extents([x] + q, p) == multiset{Extent(x, p)} + Extents(q, p)
  {
    assert ([x] + q)[1..] == q;
  }

  lemma AllStarts(runs: seq<Run>, p: nat)
    requires runs != [] && forall k :: 0 <= k < |runs| ==> runs[k].pages == p
    ensures Extents([runs[0].start], p) + Extents(Starts(runs[1..]), p) == RunExtents(runs)
  {
    ExtentsOfRuns(runs, p);
    assert Starts(runs) == [runs[0].start] + Starts(runs[1..]);
    ExtentsCons(runs[0].start, Starts(runs[1..]), p);
    ExtentsCons(runs[0].start, [], p);
    assert [runs[0].start] + [] == [runs[0].start];
  }

  /** Destroying a container returns exactly the page runs it took. */
  lemma ReturnsItsRuns(c: Container, i: nat)
    requires ContainerOk(c, i)
    ensures Returned(c, 0) == RunExtents(c.runs)
  {
    var p := PagesFor(c.objsz);
    ReturnedLists(c, 0, p, c.runs[1..]);
    AllStarts(c.runs, p);
  }

  /** Only the list for the container's run size has runs on it. */
  lemma ListedRuns(c: Container, j: nat, p: nat, rest: seq<Run>)
    requires PagesListed(c) && j < MSCLST_MAX && p == PagesFor(c.objsz) && rest == c.runs[1..]
    ensures Extents(c.mc[j], Pow2(j)) == if j == DivOrder(p) then Extents(Starts(rest), p) else multiset{}
  {
    MscIndex(c.objsz);
    if Pow2(j) == p {
      Pow2Injective(j, DivOrder(p));
    }
  }

  lemma JoinLists(own: multiset<Extent>, here: multiset<Extent>, ext: multiset<Extent>, j: nat, k: nat)
    requires here == if j == k then ext else multiset{}
    ensures here + (own + if j + 1 <= k then ext else multiset{}) == own + if j <= k then ext else multiset{}
  {
  }

  lemma {:induction false} ReturnedLists(c: Container, j: nat, p: nat, rest: seq<Run>)
    requires PagesListed(c) && j <= MSCLST_MAX && p == PagesFor(c.objsz) && rest == c.runs[1..]
    ensures Returned(c, j) ==
      Extents(c.kmobin, p) + if j <= DivOrder(p) then Extents(Starts(rest), p) else multiset{}
    decreases MSCLST_MAX - j
  {
    if j < MSCLST_MAX {
      ListedRuns(c, j, p, rest);
      ReturnedLists(c, j + 1, p, rest);
      JoinLists(Extents(c.kmobin, p), Extents(c.mc[j], Pow2(j)), Extents(Starts(rest), p), j, DivOrder(p));
    } else {
      MscIndex(c.objsz);
    }
  }

  // ---------- the manager ----------

  lemma {:induction false} UpdateContainers(classes: seq<Class>, i: nat, x: Class, n: nat)
    requires i < |classes| && n <= |classes|
    ensures ContainersBelow(classes[i := x], n) ==
      ContainersBelow(classes, n) + if i < n then |x.list| - |classes[i].list| else 0
  {
    if n > 0 {
      UpdateContainers(classes, i, x, n - 1);
    }
  }

  /** How often each class holds the extent e. */
  function Owns(classes: seq<Class>, e: Extent): (q: seq<nat>)
    ensures |q| == |classes| && forall k :: 0 <= k < |q| ==> q[k] == RunExtents(RunsIn(classes[k]))[e]
  {
    seq(|classes|, k requires 0 <= k < |classes| => RunExtents(RunsIn(classes[k]))[e])
  }

  function Sum(q: seq<nat>, n: nat): nat
    requires n <= |q|
  {
    if n == 0 then 0 else Sum(q, n - 1) + q[n - 1]
  }

  lemma {:induction false} SumUpdate(q: seq<nat>, i: nat, v: nat, n: nat)
    requires i < |q| && n <= |q|
    ensures Sum(q[i := v], n) == Sum(q, n) + if i < n then v - q[i] else 0
  {
    if n > 0 {
      SumUpdate(q, i, v, n - 1);
    }
  }

  lemma {:induction false} HeldIsSum(classes: seq<Class>, n: nat, e: Extent, q: seq<nat>)
    requires n <= |classes| && q == Owns(classes, e)
    ensures HeldBelow(classes, n)[e] == Sum(q, n)
  {
    if n > 0 {
      HeldIsSum(classes, n - 1, e, q);
    }
  }

  lemma OwnsUpdated(classes: seq<Class>, i: nat, x: Class, e: Extent, q: seq<nat>, v: nat)
    requires i < |classes| && q == Owns(classes, e) && v == RunExtents(RunsIn(x))[e]
    ensures Owns(classes[i := x], e) == q[i := v]
  {
  }

  lemma UpdateHeldAt(classes: seq<Class>, i: nat, x: Class, e: Extent, q: seq<nat>, v: nat)
    requires i < |classes| && q == Owns(classes, e) && v == RunExtents(RunsIn(x))[e]
    ensures HeldBelow(classes[i := x], |classes|)[e] + q[i] == HeldBelow(classes, |classes|)[e] + v
  {
    OwnsUpdated(classes, i, x, e, q, v);
    HeldIsSum(classes, |classes|, e, q);
    HeldIsSum(classes[i := x], |classes|, e, q[i := v]);
    SumUpdate(q, i, v, |classes|);
  }

  lemma UpdateHeld(classes: seq<Class>, i: nat, x: Class, was: multiset<Extent>, now: multiset<Extent>)
    requires i < |classes| && was == RunExtents(RunsIn(classes[i])) && now == RunExtents(RunsIn(x))
    ensures HeldBelow(classes[i := x], |classes|) + was == HeldBelow(classes, |classes|) + now
  {
    forall e: Extent
      ensures HeldBelow(classes[i := x], |classes|)[e] + was[e] == HeldBelow(classes, |classes|)[e] + now[e]
    {
      UpdateHeldAt(classes, i, x, e, Owns(classes, e), now[e]);
    }
    SameCounts(HeldBelow(classes[i := x], |classes|), was, HeldBelow(classes, |classes|), now);
  }

  lemma SameCounts<T>(a: multiset<T>, b: multiset<T>, c: multiset<T>, d: multiset<T>)
    requires forall e :: a[e] + b[e] == c[e] + d[e]
    ensures a + b == c + d
  {
  }

  /** The runs of x touch no other class. */
  ghost predicate ApartFromOthers(m: Mgr, i: nat, runs: seq<Run>)
    requires |m.classes| == CLASSES
  {
    forall j :: 0 <= j < CLASSES && j != i ==> AllApart(runs, RunsIn(m.classes[j]))
  }

  lemma StillApart(m: Mgr, i: nat, x: Class)
    requires |m.classes| == CLASSES && i < CLASSES && ApartFromOthers(m, i, RunsIn(x)) && Disjoint(m.classes)
    ensures Disjoint(m.classes[i := x])
  {
    var d := m.classes[i := x];
    forall k, j | 0 <= k < j < |d|
      ensures AllApart(RunsIn(d[k]), RunsIn(d[j]))
    {
      if k == i {
        assert AllApart(RunsIn(x), RunsIn(m.classes[j]));
      } else if j == i {
        assert AllApart(RunsIn(x), RunsIn(m.classes[k]));
      } else {
        assert AllApart(RunsIn(m.classes[k]), RunsIn(m.classes[j]));
      }
    }
  }

  lemma StillBooked(m: Mgr, i: nat, x: Class, msobnr: int, held: multiset<Extent>)
    requires Booked(m) && i < |m.classes|
    requires msobnr == m.msobnr - |m.classes[i].list| + |x.list|
    requires held + RunExtents(RunsIn(m.classes[i])) == m.held + RunExtents(RunsIn(x))
    ensures Booked(m.(classes := m.classes[i := x], msobnr := msobnr, held := held))
  {
    var was, now := RunExtents(RunsIn(m.classes[i])), RunExtents(RunsIn(x));
    UpdateContainers(m.classes, i, x, |m.classes|);
    UpdateHeld(m.classes, i, x, was, now);
    SameAfterRemoving(HeldBelow(m.classes[i := x], |m.classes|), held, was);
  }

  /** Replacing class i by x keeps the invariant if the books are kept. */
  lemma PutClass(m: Mgr, i: nat, x: Class, msobnr: int, held: multiset<Extent>)
    requires Inv(m) && i < CLASSES && ClassOk(x, i) && ApartFromOthers(m, i, RunsIn(x))
    requires msobnr == m.msobnr - |m.classes[i].list| + |x.list|
    requires held + RunExtents(RunsIn(m.classes[i])) == m.held + RunExtents(RunsIn(x))
    ensures Inv(m.(classes := m.classes[i := x], msobnr := msobnr, held := held))
  {
    StillBooked(m, i, x, msobnr, held);
    StillApart(m, i, x);
  }

  lemma SameAfterRemoving<T>(a: multiset<T>, b: multiset<T>, e: multiset<T>)
    requires a + e == b + e
    ensures a == b
  {
    forall t: T
      ensures a[t] == b[t]
    {
      assert (a + e)[t] == (b + e)[t];
    }
  }

  lemma OwnRunsApart(m: Mgr, i: nat)
    requires Inv(m) && i < CLASSES
    ensures ApartFromOthers(m, i, RunsIn(m.classes[i]))
  {
    forall j | 0 <= j < CLASSES && j != i
      ensures AllApart(RunsIn(m.classes[i]), RunsIn(m.classes[j]))
    {
      if j < i {
        assert AllApart(RunsIn(m.classes[j]), RunsIn(m.classes[i]));
      } else {
        assert AllApart(RunsIn(m.classes[i]), RunsIn(m.classes[j]));
      }
    }
  }
}
