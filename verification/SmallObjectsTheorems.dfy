/** What a small-object request promises, over every run of requests. */
module SmallObjectsTheorems {
  import opened BitMath
  import opened Sequences
  import opened SmallObjects
  import opened SmallObjectsLaws

  /** The page allocator's run touches none that is held. */
  ghost predicate FreshRun(m: Mgr, start: nat, pages: nat) {
    start > 0 && forall j :: 0 <= j < |m.classes| ==> AllApart([Run(start, pages, 0)], RunsIn(m.classes[j]))
  }

  /** The run on offer for class i: none, or a fresh one of the size the class asks for. */
  ghost predicate Offered(m: Mgr, i: nat, start: nat) {
    start == 0 || FreshRun(m, start, PagesFor(ObjSize(i)))
  }

  lemma ClassOfSize(msz: nat)
    requires 1 <= msz <= MAX_SIZE
    ensures ClassFrom(0, msz) < CLASSES && msz <= ObjSize(ClassFrom(0, msz)) < msz + 32
  {
    var k := ClassFrom(0, msz);
    if k > 0 {
      assert ObjSize(k - 1) < msz;
    }
  }

  lemma Readable(m: Mgr)
    requires Inv(m)
    ensures Usable(m)
  {
    forall i, j | 0 <= i < |m.classes| && 0 <= j < |m.classes[i].list|
      ensures m.classes[i].list[j].objsz > 0 && |m.classes[i].list[j].mc| == MSCLST_MAX
    {
      assert ClassOk(m.classes[i], i);
    }
  }

  lemma FreshIsApart(m: Mgr, i: nat, start: nat, pages: nat, header: nat)
    requires FreshRun(m, start, pages) && i < |m.classes|
    ensures forall k :: 0 <= k < |RunsIn(m.classes[i])| ==> Apart(RunsIn(m.classes[i])[k], Run(start, pages, header))
    ensures AllApart([Run(start, pages, header)], RunsIn(m.classes[i]))
  {
    assert AllApart([Run(start, pages, 0)], RunsIn(m.classes[i]));
    forall k | 0 <= k < |RunsIn(m.classes[i])|
      ensures Apart(RunsIn(m.classes[i])[k], Run(start, pages, header))
      ensures Apart(Run(start, pages, header), RunsIn(m.classes[i])[k])
    {
      assert Apart([Run(start, pages, 0)][0], RunsIn(m.classes[i])[k]);
    }
  }

  lemma FreshFromOthers(m: Mgr, i: nat, runs: seq<Run>, r: Run)
    requires |m.classes| == CLASSES && ApartFromOthers(m, i, runs) && FreshRun(m, r.start, r.pages)
    ensures ApartFromOthers(m, i, runs + [r])
  {
    forall j | 0 <= j < CLASSES && j != i
      ensures AllApart(runs + [r], RunsIn(m.classes[j]))
    {
      assert AllApart(runs, RunsIn(m.classes[j]));
      FreshIsApart(m, j, r.start, r.pages, r.header);
    }
  }

  // ---------- allocation ----------

  /** The pages held after a request that takes the run on offer, or not. */
  function HeldAfter(m: Mgr, start: nat, pages: nat, takes: bool): multiset<Extent> {
    if takes then m.held + multiset{Extent(start, pages)} else m.held
  }

  /** Class i of t is class i of m with one more live object a, which was a free slot of container c. */
  ghost predicate Gives(m: Mgr, t: Mgr, i: nat, a: nat, c: Container)
    requires |m.classes| == CLASSES && i < CLASSES
  {
    && Inv(t) && ContainerOk(c, i) && c.free != [] && a == c.free[0]
    && (forall j :: 0 <= j < CLASSES && j != i ==> t.classes[j] == m.classes[j])
    && t.classes[i].list == [Pop(c)]
    && c.live == (if m.classes[i].list == [] then multiset{} else m.classes[i].list[0].live)
  }

  /** A container with a free object has objects at all. */
  lemma SlotCount(c: Container)
    requires c.objsz > 0 && SlotsKept(c)
    ensures c.mobjnr >= c.fobjnr
  {
    var q := AllSlots(c.runs, c.objsz);
    assert |multiset(c.free)| + |c.live| == |multiset(q)|;
  }

  /** Class i with c as its only container, last used. */
  function Only(c: Container): Class { Class([c], Address(c), 1) }

  lemma OnlyOk(c: Container, i: nat)
    requires ContainerOk(c, i) && c.free != []
    ensures ClassOk(Only(Pop(c)), i) && RunsIn(Only(Pop(c))) == c.runs && Address(c) != 0
  {
    PopOk(c, i);
    assert c.free[0] in Pop(c).live;
  }

  /** Class i becomes c, which may have grown or be new, with one object popped. */
  lemma PopGives(m: Mgr, i: nat, c: Container, msobnr: int, held: multiset<Extent>)
    requires Inv(m) && i < CLASSES && ContainerOk(c, i) && c.free != [] && ApartFromOthers(m, i, c.runs)
    requires c.live == (if m.classes[i].list == [] then multiset{} else m.classes[i].list[0].live)
    requires msobnr == m.msobnr - |m.classes[i].list| + 1
    requires held + RunExtents(RunsIn(m.classes[i])) == m.held + RunExtents(c.runs)
    ensures Gives(m, m.(classes := m.classes[i := Only(Pop(c))], msobnr := msobnr, held := held), i, c.free[0], c)
  {
    OnlyOk(c, i);
    PutClass(m, i, Only(Pop(c)), msobnr, held);
  }

  /** The result of a request on the only container, c1 being what it is when it is popped. */
  lemma NewOnResult(m: Mgr, i: nat, msz: nat, start: nat, c: Container, c1: Container)
    requires i < |m.classes| && m.classes[i].list == [c] && m.classes[i].emnr == 1
    requires c.objsz > 0 && |c.mc| == MSCLST_MAX
    requires if c.fobjnr < 1 then CanExtend(c, start) && c1 == Extend(c, start) else c1 == c
    requires c1.free != [] && c1.fobjnr >= 1 && c1.mobjnr >= 1 && msz <= c1.objsz
    ensures NewOn(m, i, 0, msz, start) ==
      (m.(classes := m.classes[i := Only(Pop(c1))],
          held := if c.fobjnr < 1 then m.held + multiset{Extent(start, PagesFor(c.objsz))} else m.held), c1.free[0])
  {
    assert [c][0 := Pop(c1)] == [Pop(c1)];
  }

  /** An object from a container that has one. */
  lemma NewFromFree(m: Mgr, i: nat, msz: nat, start: nat, c: Container)
    requires Inv(m) && i < CLASSES && 1 <= msz <= ObjSize(i) && m.classes[i].list == [c] && c.fobjnr > 0
    requires |c.mc| == MSCLST_MAX && c.objsz > 0
    ensures var (t, a) := NewOn(m, i, 0, msz, start); Gives(m, t, i, a, c) && t.held == m.held
  {
    assert ClassOk(m.classes[i], i);
    SlotCount(c);
    OwnRunsApart(m, i);
    PopGives(m, i, c, m.msobnr, m.held);
    NewOnResult(m, i, msz, start, c, c);
  }

  /** The container grown by the run on offer. */
  lemma Grown(m: Mgr, i: nat, start: nat, c: Container)
    requires Inv(m) && i < CLASSES && m.classes[i].list == [c] && c.objsz == ObjSize(i) && |c.mc| == MSCLST_MAX
    requires FreshRun(m, start, PagesFor(ObjSize(i)))
    ensures var d := Extend(c, start);
      && ContainerOk(d, i) && d.free != [] && d.fobjnr > c.fobjnr && d.mobjnr > c.mobjnr && d.live == c.live
      && ApartFromOthers(m, i, d.runs)
      && RunExtents(d.runs) == RunExtents(c.runs) + multiset{Extent(start, PagesFor(c.objsz))}
  {
    assert ClassOk(m.classes[i], i);
    var r, d := Run(start, PagesFor(c.objsz), KMBEXT_T), Extend(c, start);
    FreshIsApart(m, i, start, r.pages, KMBEXT_T);
    ExtendOk(c, i, start);
    OwnRunsApart(m, i);
    FreshFromOthers(m, i, c.runs, r);
    assert d.runs[..|d.runs| - 1] == c.runs;
  }

  lemma Swap<T>(h: multiset<T>, x: multiset<T>, e: multiset<T>)
    ensures (h + x) + e == h + (e + x)
  {
  }

  /** An object from a container that first grows by the run on offer. */
  lemma NewFromExtension(m: Mgr, i: nat, msz: nat, start: nat, c: Container)
    requires Inv(m) && i < CLASSES && 1 <= msz <= ObjSize(i) && m.classes[i].list == [c] && c.fobjnr == 0 <= c.mobjnr
    requires |c.mc| == MSCLST_MAX && c.objsz == ObjSize(i) && m.classes[i].emnr == 1
    requires FreshRun(m, start, PagesFor(ObjSize(i)))
    ensures var (t, a) := NewOn(m, i, 0, msz, start);
      Gives(m, t, i, a, Extend(c, start)) && t.held == HeldAfter(m, start, PagesFor(ObjSize(i)), true)
  {
    var d, x := Extend(c, start), multiset{Extent(start, PagesFor(c.objsz))};
    Grown(m, i, start, c);
    MscIndex(c.objsz);
    Swap(m.held, x, RunExtents(c.runs));
    PopGives(m, i, d, m.msobnr, m.held + x);
    NewOnResult(m, i, msz, start, c, d);
  }

  /** The result of a request that makes a container first. */
  lemma NewOnNewResult(m: Mgr, i: nat, msz: nat, start: nat, c: Container)
    requires i < |m.classes| && m.classes[i] == Class([], 0, 0) && c == Create(ObjSize(i), start)
    requires c.free != [] && c.fobjnr >= 1 && c.mobjnr >= 1 && msz <= c.objsz
    ensures NewOn(AddContainer(m, i, start), i, 0, msz, 0) ==
      (m.(classes := m.classes[i := Only(Pop(c))], msobnr := m.msobnr + 1,
          held := m.held + multiset{Extent(start, c.kmobinpnr)}), c.free[0])
  {
    var m1 := AddContainer(m, i, start);
    assert [] + [c] == [c] && [c][0 := Pop(c)] == [Pop(c)];
    assert m1.classes[i := Only(Pop(c))] == m.classes[i := Only(Pop(c))];
  }

  /** An object from a container made on the run on offer. */
  lemma NewFromNew(m: Mgr, i: nat, msz: nat, start: nat)
    requires Inv(m) && i < CLASSES && 1 <= msz <= ObjSize(i) && m.classes[i].list == []
    requires FreshRun(m, start, PagesFor(ObjSize(i)))
    ensures var (t, a) := NewOn(AddContainer(m, i, start), i, 0, msz, 0);
      Gives(m, t, i, a, Create(ObjSize(i), start)) && t.held == HeldAfter(m, start, PagesFor(ObjSize(i)), true)
  {
    var c := Create(ObjSize(i), start);
    assert ClassOk(m.classes[i], i);
    CreateOk(i, start);
    SlotCount(c);
    FreshFromOthers(m, i, [], c.runs[0]);
    assert [] + [c.runs[0]] == c.runs && c.runs[..0] == [];
    PopGives(m, i, c, m.msobnr + 1, m.held + multiset{Extent(start, c.kmobinpnr)});
    NewOnNewResult(m, i, msz, start, c);
  }

  /** Live objects of different classes, or different ones of one class, do not overlap. */
  lemma LiveApart(m: Mgr, i: nat, a: nat, j: nat, b: nat)
    requires Inv(m) && Live(m, i, a) && Live(m, j, b) && (i != j || a != b)
    ensures a + ObjSize(i) <= b || b + ObjSize(j) <= a
  {
    assert ClassOk(m.classes[i], i) && ClassOk(m.classes[j], j);
    var c, d := m.classes[i].list[0], m.classes[j].list[0];
    if i == j {
      AllSlotsFacts(c.runs, c.objsz);
      var q := AllSlots(c.runs, c.objsz);
      assert a in multiset(q) && b in multiset(q);
      SpacedMembers(q, c.objsz, a, b);
    } else {
      var k := LiveIsSlot(c, i, a);
      var l := LiveIsSlot(d, j, b);
      OwnRunsApart(m, i);
      assert AllApart(RunsIn(m.classes[i]), RunsIn(m.classes[j]));
      assert Apart(c.runs[k], d.runs[l]);
    }
  }

  /** The grant: a slot of at least the asked size, past its run's header, inside its run, and new. */
  ghost predicate GoodGrant(m: Mgr, t: Mgr, i: nat, a: nat, msz: nat)
    requires |m.classes| == CLASSES && i < CLASSES
  {
    && a > 0 && msz <= ObjSize(i) && Live(t, i, a)
    && (exists k :: 0 <= k < |RunsIn(t.classes[i])| && IsSlot(RunsIn(t.classes[i])[k], a, ObjSize(i)))
    && (forall j: nat, b: nat :: Live(m, j, b) ==> a + ObjSize(i) <= b || b + ObjSize(j) <= a)
    && (forall j: nat, b: nat :: Live(t, j, b) <==> Live(m, j, b) || (j == i && b == a))
  }

  /** Exactly one object has become live. */
  lemma GivesOne(m: Mgr, t: Mgr, i: nat, a: nat, c: Container, j: nat, b: nat)
    requires Inv(m) && i < CLASSES && Gives(m, t, i, a, c)
    ensures Live(t, j, b) <==> Live(m, j, b) || (j == i && b == a)
  {
    if j < CLASSES && j != i {
      assert t.classes[j] == m.classes[j];
    }
  }

  lemma GivesSlot(m: Mgr, t: Mgr, i: nat, a: nat, c: Container)
    requires Inv(m) && i < CLASSES && Gives(m, t, i, a, c)
    ensures a > 0 && exists k :: 0 <= k < |RunsIn(t.classes[i])| && IsSlot(RunsIn(t.classes[i])[k], a, ObjSize(i))
  {
    PopOk(c, i);
    assert a in Pop(c).live;
    var k := LiveIsSlot(Pop(c), i, a);
    assert RunsIn(t.classes[i]) == c.runs;
  }

  lemma GivesGood(m: Mgr, t: Mgr, i: nat, a: nat, c: Container, msz: nat)
    requires Inv(m) && i < CLASSES && Gives(m, t, i, a, c) && msz <= ObjSize(i)
    ensures GoodGrant(m, t, i, a, msz)
  {
    FreeSlotIsNew(c, i, a);
    GivesSlot(m, t, i, a, c);
    forall j: nat, b: nat
      ensures Live(t, j, b) <==> Live(m, j, b) || (j == i && b == a)
    {
      GivesOne(m, t, i, a, c, j, b);
    }
    forall j: nat, b: nat | Live(m, j, b)
      ensures a + ObjSize(i) <= b || b + ObjSize(j) <= a
    {
      GivesOne(m, t, i, a, c, j, b);
      GivesOne(m, t, i, a, c, i, a);
      if j == i {
        assert b in c.live;
      } else {
        LiveApart(t, i, a, j, b);
      }
    }
  }

  /** With at most one container, both searches find it. */
  lemma PickOnly(x: Class, msz: nat)
    requires |x.list| <= 1 && (x.list != [] ==> msz <= x.list[0].objsz)
    ensures PickNew(x, msz) == 0
  {
  }

  /** `kmsob_new` once the class and the container are known. */
  lemma NewIs(m: Mgr, msz: nat, start: nat, i: nat)
    requires Usable(m) && 1 <= msz <= MAX_SIZE && i == ClassFrom(0, msz) < |m.classes| && PickNew(m.classes[i], msz) == 0
    ensures New(m, msz, start) ==
      if m.classes[i].list != [] then NewOn(m, i, 0, msz, start)
      else if start == 0 then (m, 0)
      else NewOn(AddContainer(m, i, start), i, 0, msz, 0)
  {
  }

  /** A container without a free object cannot serve without a run. */
  lemma NewOnEmpty(m: Mgr, i: nat, msz: nat, c: Container)
    requires i < |m.classes| && m.classes[i].list == [c] && c.fobjnr < 1 && c.objsz > 0 && |c.mc| == MSCLST_MAX
    ensures NewOn(m, i, 0, msz, 0) == (m, 0)
  {
  }

  /** Every position for an object of class i behind the header of a run of the class is live. */
  ghost predicate AllLive(m: Mgr, i: nat)
    requires i < |m.classes|
  {
    forall k: nat, x: nat :: k < |RunsIn(m.classes[i])| && IsPosition(RunsIn(m.classes[i])[k], ObjSize(i), x) ==> Live(m, i, x)
  }

  /** An object at x lies behind the run's header and before its last byte, at a multiple of the size. */
  predicate IsPosition(r: Run, objsz: nat, x: nat)
    requires objsz > 0
  {
    && r.start + r.header <= x && x + objsz <= r.start + r.pages * 0x1000 - 1
    && (x - (r.start + r.header)) % objsz == 0
  }

  lemma NoRunsAllLive(m: Mgr, i: nat)
    requires i < |m.classes| && m.classes[i].list == []
    ensures AllLive(m, i)
  {
  }

  lemma NoFreeMeansAllLive(m: Mgr, i: nat, c: Container)
    requires i < |m.classes| && m.classes[i].list == [c] && ContainerOk(c, i) && c.free == []
    ensures AllLive(m, i)
  {
    assert RunsIn(m.classes[i]) == c.runs && c.live == multiset(AllSlots(c.runs, c.objsz));
    forall k: nat, x: nat | k < |RunsIn(m.classes[i])| && IsPosition(RunsIn(m.classes[i])[k], ObjSize(i), x)
      ensures Live(m, i, x)
    {
      AllSlotsHas(c.runs, c.objsz, k, x);
    }
  }

  lemma FreeIsNotLive(m: Mgr, i: nat, c: Container, x: nat)
    requires i < |m.classes| && m.classes[i].list == [c] && ContainerOk(c, i) && x in c.free
    ensures !AllLive(m, i)
  {
    AllSlotsFacts(c.runs, c.objsz);
    SpacedOnce(AllSlots(c.runs, c.objsz), c.objsz, x);
    NotBoth(multiset(c.free), c.live, multiset(AllSlots(c.runs, c.objsz)), x);
    var k := SlotInRun(c.runs, c.objsz, x);
    assert RunsIn(m.classes[i]) == c.runs;
    assert !Live(m, i, x);
  }

  lemma NotBoth(free: multiset<nat>, live: multiset<nat>, all: multiset<nat>, x: nat)
    requires free + live == all && all[x] <= 1 && x in free
    ensures x in all && x !in live
  {
    assert all[x] == free[x] + live[x];
  }

  lemma SlotInRun(runs: seq<Run>, objsz: nat, x: nat) returns (k: nat)
    requires objsz > 0 && x in AllSlots(runs, objsz)
    requires forall a :: a in AllSlots(runs, objsz) ==> InSomeRun(runs, objsz, a)
    ensures k < |runs| && IsPosition(runs[k], objsz, x)
  {
    assert InSomeRun(runs, objsz, x);
    k :| k < |runs| && x in SlotsOf(runs[k], objsz);
    SlotsHas(runs[k].start + runs[k].header, objsz, Last(runs[k]), x);
  }

  lemma NoFreeInContainer(m: Mgr, i: nat, c: Container)
    requires i < |m.classes| && m.classes[i].list == [c] && ContainerOk(c, i)
    ensures AllLive(m, i) <==> c.fobjnr == 0
  {
    if c.free == [] {
      NoFreeMeansAllLive(m, i, c);
    } else {
      FreeIsNotLive(m, i, c, c.free[0]);
    }
  }

  /** A class has no free object exactly when all its positions are live. */
  lemma NoFreeIff(m: Mgr, i: nat)
    requires Inv(m) && i < CLASSES
    ensures AllLive(m, i) <==> m.classes[i].list == [] || m.classes[i].list[0].fobjnr == 0
  {
    if m.classes[i].list == [] {
      NoRunsAllLive(m, i);
    } else {
      OnlyContainer(m, i, m.classes[i].list[0]);
      NoFreeInContainer(m, i, m.classes[i].list[0]);
    }
  }

  lemma OnlyContainer(m: Mgr, i: nat, c: Container)
    requires ClassesOk(m.classes) && i < CLASSES && m.classes[i].list != [] && c == m.classes[i].list[0]
    ensures m.classes[i].list == [c] && ContainerOk(c, i)
  {
    assert ClassOk(m.classes[i], i);
  }

  /** The same in terms of the count of free objects. */
  lemma NewServes(m: Mgr, msz: nat, start: nat)
    requires Inv(m) && 1 <= msz <= MAX_SIZE && Offered(m, ClassFrom(0, msz), start)
    ensures Usable(m) && ClassFrom(0, msz) < CLASSES
    ensures var (t, a) := New(m, msz, start); var i := ClassFrom(0, msz);
      Answer(m, i, msz, start, m.classes[i].list == [] || m.classes[i].list[0].fobjnr == 0, t, a)
  {
    Readable(m);
    ClassOfSize(msz);
    var i := ClassFrom(0, msz);
    assert ClassOk(m.classes[i], i);
    PickOnly(m.classes[i], msz);
    NewIs(m, msz, start, i);
    if m.classes[i].list == [] {
      if start != 0 {
        FirstAnswer(m, i, msz, start);
      }
    } else {
      OldAnswer(m, i, msz, start, m.classes[i].list[0]);
    }
  }

  /** The answer of a request to class i, which has no free object or has one. */
  ghost predicate Answer(m: Mgr, i: nat, msz: nat, start: nat, none: bool, t: Mgr, a: nat)
    requires |m.classes| == CLASSES && i < CLASSES
  {
    && Inv(t) && (a == 0 <==> start == 0 && none)
    && (if a == 0 then t == m else t.held == HeldAfter(m, start, PagesFor(ObjSize(i)), none) && GoodGrant(m, t, i, a, msz))
  }

  lemma FirstAnswer(m: Mgr, i: nat, msz: nat, start: nat)
    requires Inv(m) && i < CLASSES && 1 <= msz <= ObjSize(i) && m.classes[i].list == []
    requires start != 0 && FreshRun(m, start, PagesFor(ObjSize(i)))
    ensures var (t, a) := NewOn(AddContainer(m, i, start), i, 0, msz, 0); Answer(m, i, msz, start, true, t, a)
  {
    var (t, a) := NewOn(AddContainer(m, i, start), i, 0, msz, 0);
    NewFromNew(m, i, msz, start);
    GivesGood(m, t, i, a, Create(ObjSize(i), start), msz);
  }

  lemma OldAnswer(m: Mgr, i: nat, msz: nat, start: nat, c: Container)
    requires Inv(m) && i < CLASSES && 1 <= msz <= ObjSize(i) && m.classes[i].list == [c]
    requires start == 0 || FreshRun(m, start, PagesFor(ObjSize(i)))
    requires c.objsz > 0 && |c.mc| == MSCLST_MAX
    ensures var (t, a) := NewOn(m, i, 0, msz, start); Answer(m, i, msz, start, c.fobjnr == 0, t, a)
  {
    assert ClassOk(m.classes[i], i);
    SlotCount(c);
    var (t, a) := NewOn(m, i, 0, msz, start);
    if c.fobjnr > 0 {
      NewFromFree(m, i, msz, start, c);
      GivesGood(m, t, i, a, c, msz);
    } else if start != 0 {
      NewFromExtension(m, i, msz, start, c);
      GivesGood(m, t, i, a, Extend(c, start), msz);
    } else {
      NewOnEmpty(m, i, msz, c);
    }
  }

  /**
    `kmsob_new` for a supported size fails only when no run of pages is on offer and every position
    for an object in every run of its class is live; otherwise the address starts a new slot that
    overlaps no live object, and the run is taken exactly when no position was left.
  */
  lemma NewGrants(m: Mgr, msz: nat, start: nat)
    requires Inv(m) && 1 <= msz <= MAX_SIZE && Offered(m, ClassFrom(0, msz), start)
    ensures Usable(m) && ClassFrom(0, msz) < CLASSES
    ensures var (t, a) := New(m, msz, start); var i := ClassFrom(0, msz);
      && Inv(t)
      && (a == 0 <==> start == 0 && AllLive(m, i))
      && (a == 0 ==> t == m)
      && (a != 0 ==> t.held == HeldAfter(m, start, if i < 4 then 1 else if i < 16 then 2 else 4, AllLive(m, i)))
      && (a != 0 ==> GoodGrant(m, t, i, a, msz))
  {
    NewServes(m, msz, start);
    NoFreeIff(m, ClassFrom(0, msz));
  }

  // ---------- release ----------

  lemma PickTheHolder(x: Class, i: nat, a: nat, fsz: nat)
    requires ClassOk(x, i) && x.list != [] && a in x.list[0].live && 1 <= fsz <= ObjSize(i)
    ensures PickHolder(x, a, fsz) == 0
  {
    var c := x.list[0];
    var k := LiveIsSlot(c, i, a);
    assert WithinRun(c.runs[k], a, fsz) && Holds(c, a, fsz);
  }

  /** What a release leaves: the object is dead; with the last one the container and its runs are gone. */
  ghost predicate Takes(m: Mgr, t: Mgr, i: nat, a: nat)
    requires |m.classes| == CLASSES && i < CLASSES && m.classes[i].list != []
  {
    && Inv(t) && (forall j :: 0 <= j < CLASSES && j != i ==> t.classes[j] == m.classes[j])
    && var live := m.classes[i].list[0].live - multiset{a};
       if live == multiset{} then
         t.classes[i].list == [] && t.held == m.held - RunExtents(RunsIn(m.classes[i]))
       else
         t.classes[i].list != [] && t.classes[i].list[0].live == live && t.held == m.held
  }

  lemma WithinSum<T>(e: multiset<T>, a: multiset<T>, b: multiset<T>)
    requires e <= a
    ensures e <= a + b && e <= b + a
  {
  }

  /** The runs of class i are among those held. */
  lemma {:induction false} RunsAreHeld(classes: seq<Class>, i: nat, n: nat, e: multiset<Extent>)
    requires i < n <= |classes| && e == RunExtents(RunsIn(classes[i]))
    ensures e <= HeldBelow(classes, n)
  {
    if i < n - 1 {
      RunsAreHeld(classes, i, n - 1, e);
      WithinSum(e, HeldBelow(classes, n - 1), RunExtents(RunsIn(classes[n - 1])));
    } else {
      WithinSum(e, e, HeldBelow(classes, n - 1));
    }
  }

  lemma {:induction false} ContainersAreCounted(classes: seq<Class>, i: nat, n: nat)
    requires n <= |classes|
    ensures ContainersBelow(classes, n) >= if i < n then |classes[i].list| else 0
  {
    if n > 0 {
      ContainersAreCounted(classes, i, n - 1);
    }
  }

  /** Giving back an object that is not the last: the container stays. */
  lemma SettleStays(m: Mgr, i: nat, c: Container, d: Container)
    requires Inv(m) && i < CLASSES && m.classes[i].list == [c] && ContainerOk(d, i) && d.live != multiset{}
    requires d.runs == c.runs && d.fobjnr < d.mobjnr
    ensures var t := m.(classes := m.classes[i := Only(d)]);
      Settle(m.(classes := m.classes[i := m.classes[i].(list := [d])]), i, 0) == (t, true) && Inv(t)
  {
    assert ClassOk(m.classes[i], i);
    ContainersAreCounted(m.classes, i, CLASSES);
    OwnRunsApart(m, i);
    SettleResult(m, i, c, d);
    PutClass(m, i, Only(d), m.msobnr, m.held);
  }

  /** The two outcomes of `_destroy_kmsob`. */
  lemma SettleResult(m: Mgr, i: nat, c: Container, d: Container)
    requires i < |m.classes| && m.classes[i].list == [c] && m.classes[i].emnr == 1 && m.msobnr >= 1
    requires Address(d) == Address(c) && |d.mc| == MSCLST_MAX && d.kmobinpnr >= 1 && d.kmobin != [] && d.fobjnr <= d.mobjnr
    requires m.classes[i].cahe == 0 || m.classes[i].cahe == Address(c)
    ensures Settle(m.(classes := m.classes[i := m.classes[i].(list := [d])]), i, 0) ==
      if d.fobjnr < d.mobjnr then (m.(classes := m.classes[i := Only(d)]), true)
      else (m.(classes := m.classes[i := Class([], 0, 0)], msobnr := m.msobnr - 1, held := m.held - Returned(d, 0)), true)
  {
    var x := m.classes[i].(list := [d]);
    assert Without([d], 0) == [];
    assert m.classes[i := x][i := Only(d)] == m.classes[i := Only(d)];
    assert m.classes[i := x][i := Class([], 0, 0)] == m.classes[i := Class([], 0, 0)];
  }

  lemma TakeOut<T>(a: multiset<T>, e: multiset<T>)
    requires e <= a
    ensures (a - e) + e == a + multiset{}
  {
  }

  lemma DropClass(m: Mgr, i: nat, c: Container, e: multiset<Extent>)
    requires Inv(m) && i < CLASSES && m.classes[i].list == [c] && e == RunExtents(c.runs)
    ensures Inv(m.(classes := m.classes[i := Class([], 0, 0)], msobnr := m.msobnr - 1, held := m.held - e))
  {
    RunsAreHeld(m.classes, i, CLASSES, e);
    TakeOut(m.held, e);
    PutClass(m, i, Class([], 0, 0), m.msobnr - 1, m.held - e);
  }

  /** Giving back the last object: the container goes, with exactly its runs. */
  lemma SettleGoes(m: Mgr, i: nat, c: Container, d: Container)
    requires Inv(m) && i < CLASSES && m.classes[i].list == [c] && ContainerOk(d, i) && d.fobjnr == d.mobjnr
    requires d.runs == c.runs
    ensures var t := m.(classes := m.classes[i := Class([], 0, 0)], msobnr := m.msobnr - 1, held := m.held - RunExtents(c.runs));
      Settle(m.(classes := m.classes[i := m.classes[i].(list := [d])]), i, 0) == (t, true) && Inv(t)
  {
    assert ClassOk(m.classes[i], i);
    ContainersAreCounted(m.classes, i, CLASSES);
    ReturnsItsRuns(d, i);
    DropClass(m, i, c, RunExtents(c.runs));
    SettleResult(m, i, c, d);
  }

  /** `kmsob_delete` once the class and the container are known. */
  lemma DeleteIs(m: Mgr, a: nat, fsz: nat, i: nat, c: Container, d: Container)
    requires Usable(m) && a != 0 && 1 <= fsz <= MAX_SIZE && i == ClassFrom(0, fsz) < |m.classes|
    requires m.classes[i].list == [c] && PickHolder(m.classes[i], a, fsz) == 0 && Push(c, a, fsz) == (d, true)
    requires |d.mc| == MSCLST_MAX
    ensures Delete(m, a, fsz) == Settle(m.(classes := m.classes[i := m.classes[i].(list := [d])]), i, 0)
  {
    assert [c][0 := d] == [d];
  }

  /** The two ends of a release: the container stays or goes. */
  lemma SettleTakes(m: Mgr, i: nat, a: nat, c: Container, d: Container)
    requires Inv(m) && i < CLASSES && m.classes[i].list == [c] && ContainerOk(d, i) && d.runs == c.runs
    requires d.live == c.live - multiset{a} && d.fobjnr <= d.mobjnr && (d.mobjnr == d.fobjnr <==> d.live == multiset{})
    ensures var (t, ok) := Settle(m.(classes := m.classes[i := m.classes[i].(list := [d])]), i, 0);
      ok && Takes(m, t, i, a)
  {
    if d.live == multiset{} {
      SettleGoes(m, i, c, d);
      GoneTakes(m, i, a, c, RunExtents(c.runs));
    } else {
      SettleStays(m, i, c, d);
      StaysTakes(m, i, a, c, d);
    }
  }

  lemma GoneTakes(m: Mgr, i: nat, a: nat, c: Container, e: multiset<Extent>)
    requires |m.classes| == CLASSES && i < CLASSES && m.classes[i].list == [c] && e == RunExtents(c.runs)
    requires c.live - multiset{a} == multiset{}
    requires Inv(m.(classes := m.classes[i := Class([], 0, 0)], msobnr := m.msobnr - 1, held := m.held - e))
    ensures Takes(m, m.(classes := m.classes[i := Class([], 0, 0)], msobnr := m.msobnr - 1, held := m.held - e), i, a)
  {
  }

  lemma StaysTakes(m: Mgr, i: nat, a: nat, c: Container, d: Container)
    requires |m.classes| == CLASSES && i < CLASSES && m.classes[i].list == [c]
    requires d.live == c.live - multiset{a} && d.live != multiset{} && Inv(m.(classes := m.classes[i := Only(d)]))
    ensures Takes(m, m.(classes := m.classes[i := Only(d)]), i, a)
  {
  }

  /**
    `kmsob_delete` of a live object, with a size of its class, succeeds; releasing the last live
    object of a class returns exactly the page runs the class took.
  */
  lemma DeleteTakes(m: Mgr, a: nat, fsz: nat)
    requires Inv(m) && 1 <= fsz <= MAX_SIZE && Live(m, ClassFrom(0, fsz), a)
    ensures Usable(m) && ClassFrom(0, fsz) < CLASSES
    ensures var (t, ok) := Delete(m, a, fsz); ok && Takes(m, t, ClassFrom(0, fsz), a)
  {
    Readable(m);
    ClassOfSize(fsz);
    var i := ClassFrom(0, fsz);
    assert ClassOk(m.classes[i], i);
    var c := m.classes[i].list[0];
    PickTheHolder(m.classes[i], i, a, fsz);
    PushOk(c, i, a, fsz);
    var k := LiveIsSlot(c, i, a);
    var d := Push(c, a, fsz).0;
    DeleteIs(m, a, fsz, i, c, d);
    SettleTakes(m, i, a, c, d);
  }

  /** Address a is a position for an object of class i, live or not. */
  ghost predicate InClass(m: Mgr, i: nat, a: nat)
    requires i < |m.classes|
  {
    exists k :: 0 <= k < |RunsIn(m.classes[i])| && IsPosition(RunsIn(m.classes[i])[k], ObjSize(i), a)
  }

  /** Behind the header of its run, the first run that has the bytes of a position has it as a slot. */
  lemma PositionIsFound(c: Container, i: nat, a: nat, fsz: nat, k: nat)
    requires i < CLASSES && ContainerOk(c, i) && 1 <= fsz <= c.objsz && k < |c.runs| && IsPosition(c.runs[k], c.objsz, a)
    ensures RunOf(c.runs, 0, a, fsz) == k && IsSlot(c.runs[k], a, c.objsz) && Holds(c, a, fsz)
  {
    assert WithinRun(c.runs[k], a, fsz);
    RunOfSlot(c, i, a, fsz, k);
  }

  /** What is accepted is a position. */
  lemma AcceptedIsPosition(c: Container, i: nat, a: nat, fsz: nat)
    requires i < CLASSES && ContainerOk(c, i) && Push(c, a, fsz).1
    ensures var k := RunOf(c.runs, 0, a, fsz); k < |c.runs| && IsPosition(c.runs[k], c.objsz, a)
  {
  }

  /**
    `kmsob_delete` accepts exactly the positions for objects of the class of the size given, whether
    they are live or not: that the object is live is left to the caller.
  */
  lemma DeleteAcceptsIff(m: Mgr, a: nat, fsz: nat)
    requires Inv(m) && 1 <= fsz <= MAX_SIZE
    ensures Usable(m) && ClassFrom(0, fsz) < CLASSES
    ensures Delete(m, a, fsz).1 <==> InClass(m, ClassFrom(0, fsz), a)
    ensures !Delete(m, a, fsz).1 ==> Delete(m, a, fsz).0 == m
  {
    Readable(m);
    ClassOfSize(fsz);
    var i := ClassFrom(0, fsz);
    if m.classes[i].list != [] {
      OnlyContainer(m, i, m.classes[i].list[0]);
      DeleteFrom(m, a, fsz, i, m.classes[i].list[0]);
    }
  }

  /** A container that is full accepts nothing, but one of a class always has a live object. */
  lemma RoomToPush(m: Mgr, i: nat, c: Container)
    requires ClassesOk(m.classes) && i < CLASSES && m.classes[i].list == [c]
    ensures c.fobjnr < c.mobjnr && m.classes[i].emnr == 1 && (m.classes[i].cahe != 0 ==> m.classes[i].cahe == Address(c))
  {
    assert ClassOk(m.classes[i], i);
    assert |multiset(c.free)| + |c.live| == |multiset(AllSlots(c.runs, c.objsz))|;
  }

  /** The search for the holder finds the only container or nothing. */
  lemma PickOne(x: Class, c: Container, a: nat, fsz: nat)
    requires x.list == [c]
    ensures PickHolder(x, a, fsz) == if Holds(c, a, fsz) then 0 else 1
  {
  }

  lemma DeleteFrom(m: Mgr, a: nat, fsz: nat, i: nat, c: Container)
    requires Inv(m) && Usable(m) && 1 <= fsz <= MAX_SIZE && i == ClassFrom(0, fsz) < CLASSES && fsz <= ObjSize(i)
    requires m.classes[i].list == [c] && ContainerOk(c, i)
    ensures Delete(m, a, fsz).1 <==> InClass(m, i, a)
    ensures !Delete(m, a, fsz).1 ==> Delete(m, a, fsz).0 == m
  {
    RoomToPush(m, i, c);
    PickOne(m.classes[i], c, a, fsz);
    assert RunsIn(m.classes[i]) == c.runs;
    if k: nat :| k < |c.runs| && IsPosition(c.runs[k], c.objsz, a) {
      PositionIsFound(c, i, a, fsz, k);
      PushSettles(m, a, fsz, i, c);
    } else if Push(c, a, fsz).1 {
      AcceptedIsPosition(c, i, a, fsz);
    }
  }

  /** A position that was accepted: the container stays or goes. */
  lemma PushSettles(m: Mgr, a: nat, fsz: nat, i: nat, c: Container)
    requires Inv(m) && Usable(m) && 1 <= fsz <= MAX_SIZE && i == ClassFrom(0, fsz) < CLASSES
    requires m.classes[i].list == [c] && ContainerOk(c, i) && c.fobjnr < c.mobjnr && m.classes[i].emnr == 1
    requires m.classes[i].cahe == 0 || m.classes[i].cahe == Address(c)
    requires PickHolder(m.classes[i], a, fsz) == 0 && a > 0
    requires RunOf(c.runs, 0, a, fsz) < |c.runs| && IsSlot(c.runs[RunOf(c.runs, 0, a, fsz)], a, c.objsz)
    ensures Delete(m, a, fsz).1
  {
    DeleteIs(m, a, fsz, i, c, Push(c, a, fsz).0);
    ContainersAreCounted(m.classes, i, CLASSES);
    SettleResult(m, i, c, Push(c, a, fsz).0);
  }

  /** Every object but a of class i that was live still is. */
  ghost predicate OthersLive(m: Mgr, t: Mgr, i: nat, a: nat) {
    forall j: nat, b: nat :: Live(m, j, b) && (j != i || b != a) ==> Live(t, j, b)
  }

  /**
    A release keeps the invariant and every other object exactly when the address is no position of
    the class, and is refused, or is live. A free position given back once more is listed twice or,
    if only one object is live, takes the container away under it.
  */
  lemma DeleteSafeIff(m: Mgr, a: nat, fsz: nat)
    requires Inv(m) && 1 <= fsz <= MAX_SIZE
    ensures Usable(m) && ClassFrom(0, fsz) < CLASSES
    ensures var t, i := Delete(m, a, fsz).0, ClassFrom(0, fsz);
      Inv(t) && OthersLive(m, t, i, a) <==> !InClass(m, i, a) || Live(m, i, a)
  {
    DeleteAcceptsIff(m, a, fsz);
    var i := ClassFrom(0, fsz);
    if Live(m, i, a) {
      DeleteTakes(m, a, fsz);
      TakesSpares(m, Delete(m, a, fsz).0, i, a);
    } else if InClass(m, i, a) {
      ClassOfSize(fsz);
      OnlyContainer(m, i, m.classes[i].list[0]);
      TwiceFree(m, a, fsz, i, m.classes[i].list[0]);
    }
  }

  lemma TakesSpares(m: Mgr, t: Mgr, i: nat, a: nat)
    requires |m.classes| == CLASSES && i < CLASSES && m.classes[i].list != [] && Takes(m, t, i, a)
    ensures OthersLive(m, t, i, a)
  {
    forall j: nat, b: nat | Live(m, j, b) && (j != i || b != a)
      ensures Live(t, j, b)
    {
      if j == i {
        assert b in m.classes[i].list[0].live - multiset{a};
      } else {
        assert t.classes[j] == m.classes[j];
      }
    }
  }

  /** The container with a free position given back once more. */
  lemma PushedTwice(c: Container, d: Container, i: nat, a: nat, fsz: nat)
    requires ContainerOk(c, i) && a !in c.live && a in AllSlots(c.runs, c.objsz) && Push(c, a, fsz) == (d, true)
    ensures !ContainerOk(d, i)
  {
    AllSlotsFacts(c.runs, c.objsz);
    SpacedOnce(AllSlots(c.runs, c.objsz), c.objsz, a);
    var all := multiset(AllSlots(c.runs, c.objsz));
    FreeOnce(multiset(c.free), c.live, all, a);
    assert multiset(d.free) == multiset(c.free) + multiset{a};
    assert (multiset(d.free) + d.live)[a] > all[a];
  }

  lemma FreeOnce(free: multiset<nat>, live: multiset<nat>, all: multiset<nat>, a: nat)
    requires free + live == all && a in all && a !in live
    ensures free[a] == all[a]
  {
    assert all[a] == free[a] + live[a];
  }

  lemma TwiceFree(m: Mgr, a: nat, fsz: nat, i: nat, c: Container)
    requires Inv(m) && Usable(m) && 1 <= fsz <= MAX_SIZE && i == ClassFrom(0, fsz) < CLASSES && fsz <= ObjSize(i)
    requires m.classes[i].list == [c] && ContainerOk(c, i) && InClass(m, i, a) && a !in c.live
    ensures !(Inv(Delete(m, a, fsz).0) && OthersLive(m, Delete(m, a, fsz).0, i, a))
  {
    assert RunsIn(m.classes[i]) == c.runs;
    var k: nat :| k < |c.runs| && IsPosition(c.runs[k], c.objsz, a);
    RoomToPush(m, i, c);
    PickOne(m.classes[i], c, a, fsz);
    var d := Push(c, a, fsz).0;
    TwicePushed(c, d, i, a, fsz, k);
    PositionIsFound(c, i, a, fsz, k);
    DeleteIs(m, a, fsz, i, c, d);
    TwiceSettled(m, i, a, c, d);
  }

  lemma TwicePushed(c: Container, d: Container, i: nat, a: nat, fsz: nat, k: nat)
    requires i < CLASSES && ContainerOk(c, i) && 1 <= fsz <= c.objsz && k < |c.runs| && IsPosition(c.runs[k], c.objsz, a)
    requires c.fobjnr < c.mobjnr && a !in c.live && d == Push(c, a, fsz).0
    ensures Push(c, a, fsz).1 && !ContainerOk(d, i) && d.runs == c.runs && d.fobjnr <= d.mobjnr
    ensures d.mc == c.mc && d.kmobin == c.kmobin && d.kmobinpnr == c.kmobinpnr
  {
    PositionIsFound(c, i, a, fsz, k);
    AllSlotsHas(c.runs, c.objsz, k, a);
    PushedTwice(c, d, i, a, fsz);
  }

  lemma TwiceSettled(m: Mgr, i: nat, a: nat, c: Container, d: Container)
    requires Inv(m) && i < CLASSES && m.classes[i].list == [c] && ContainerOk(c, i) && a !in c.live
    requires !ContainerOk(d, i) && d.runs == c.runs && d.fobjnr <= d.mobjnr
    requires d.mc == c.mc && d.kmobin == c.kmobin && d.kmobinpnr == c.kmobinpnr
    ensures var t := Settle(m.(classes := m.classes[i := m.classes[i].(list := [d])]), i, 0).0;
      !(Inv(t) && OthersLive(m, t, i, a))
  {
    RoomToPush(m, i, c);
    ContainersAreCounted(m.classes, i, CLASSES);
    SettleResult(m, i, c, d);
    if d.fobjnr < d.mobjnr {
      NotInOrder(m.(classes := m.classes[i := Only(d)]), i, d);
    } else {
      LosesLive(m, Settle(m.(classes := m.classes[i := m.classes[i].(list := [d])]), i, 0).0, i, c, a);
    }
  }

  lemma NotInOrder(t: Mgr, i: nat, d: Container)
    requires i < |t.classes| && t.classes[i].list == [d] && !ContainerOk(d, i)
    ensures !Inv(t)
  {
    assert i < CLASSES && ClassesOk(t.classes) ==> ClassOk(t.classes[i], i);
  }

  lemma LosesLive(m: Mgr, t: Mgr, i: nat, c: Container, a: nat)
    requires ClassesOk(m.classes) && i < CLASSES && m.classes[i].list == [c] && a !in c.live
    requires i < |t.classes| && t.classes[i].list == []
    ensures !OthersLive(m, t, i, a)
  {
    assert ClassOk(m.classes[i], i);
    var b :| b in c.live;
    assert Live(m, i, b) && !Live(t, i, b);
  }

  /** With a free object in the class, the one that has been free longest is handed out. */
  lemma NextIsOldest(m: Mgr, msz: nat, start: nat)
    requires Inv(m) && Usable(m) && 1 <= msz <= MAX_SIZE && ClassFrom(0, msz) < CLASSES
    requires m.classes[ClassFrom(0, msz)].list != [] && m.classes[ClassFrom(0, msz)].list[0].free != []
    ensures New(m, msz, start).1 == m.classes[ClassFrom(0, msz)].list[0].free[0]
  {
    ClassOfSize(msz);
    var i := ClassFrom(0, msz);
    var c := m.classes[i].list[0];
    OnlyContainer(m, i, c);
    PickOnly(m.classes[i], msz);
    NewIs(m, msz, start, i);
    NewFromFree(m, i, msz, start, c);
  }

  /** So giving an object back does not change which one is handed out next, unless none was free. */
  lemma ReuseIsLast(m: Mgr, a: nat, fsz: nat, msz: nat, start: nat)
    requires Inv(m) && 1 <= fsz <= MAX_SIZE && 1 <= msz <= MAX_SIZE && ClassFrom(0, msz) == ClassFrom(0, fsz)
    requires Live(m, ClassFrom(0, fsz), a) && m.classes[ClassFrom(0, fsz)].list[0].free != []
    ensures Usable(m) && Usable(Delete(m, a, fsz).0)
    ensures var t := Delete(m, a, fsz).0;
      HasContainer(t, ClassFrom(0, fsz)) ==> New(t, msz, start).1 == New(m, msz, start).1
  {
    DeleteTakes(m, a, fsz);
    var i := ClassFrom(0, fsz);
    var c, t := m.classes[i].list[0], Delete(m, a, fsz).0;
    Readable(t);
    NextIsOldest(m, msz, start);
    ClassOfSize(fsz);
    OnlyContainer(m, i, c);
    if HasContainer(t, i) {
      DeleteAppends(m, a, fsz, i, c);
      NextIsOldest(t, msz, start);
    }
  }

  predicate HasContainer(m: Mgr, i: nat) { i < |m.classes| && m.classes[i].list != [] }

  lemma DeleteAppends(m: Mgr, a: nat, fsz: nat, i: nat, c: Container)
    requires Inv(m) && Usable(m) && 1 <= fsz <= MAX_SIZE && i == ClassFrom(0, fsz) < CLASSES && fsz <= ObjSize(i)
    requires m.classes[i].list == [c] && ContainerOk(c, i) && a in c.live
    ensures var t := Delete(m, a, fsz).0; HasContainer(t, i) ==> t.classes[i].list[0].free == c.free + [a]
  {
    PickTheHolderOnly(m, i, c, a, fsz);
    PushOk(c, i, a, fsz);
    RoomToPush(m, i, c);
    ContainersAreCounted(m.classes, i, CLASSES);
    var k := LiveIsSlot(c, i, a);
    DeleteIs(m, a, fsz, i, c, Push(c, a, fsz).0);
    SettleResult(m, i, c, Push(c, a, fsz).0);
  }

  lemma PickTheHolderOnly(m: Mgr, i: nat, c: Container, a: nat, fsz: nat)
    requires ClassesOk(m.classes) && i < CLASSES && m.classes[i].list == [c] && a in c.live && 1 <= fsz <= ObjSize(i)
    ensures PickHolder(m.classes[i], a, fsz) == 0
  {
    assert ClassOk(m.classes[i], i);
    PickTheHolder(m.classes[i], i, a, fsz);
  }

  // ---------- runs ----------

  datatype Op = NewOp(msz: nat, start: nat) | DeleteOp(a: nat, fsz: nat)

  /** Requests are served from fresh runs; only live objects are given back, with their size. */
  ghost predicate Legal(m: Mgr, op: Op) {
    match op
    case NewOp(msz, start) => 1 <= msz <= MAX_SIZE ==> Offered(m, ClassFrom(0, msz), start)
    case DeleteOp(a, fsz) => 1 <= fsz <= MAX_SIZE && Live(m, ClassFrom(0, fsz), a)
  }

  function Apply(m: Mgr, op: Op): Mgr
    requires Usable(m)
  {
    match op
    case NewOp(msz, start) => New(m, msz, start).0
    case DeleteOp(a, fsz) => Delete(m, a, fsz).0
  }

  ghost predicate LegalRun(m: Mgr, ops: seq<Op>)
    decreases ops
  {
    Usable(m) && (ops != [] ==> Legal(m, ops[0]) && LegalRun(Apply(m, ops[0]), ops[1..]))
  }

  function After(m: Mgr, ops: seq<Op>): Mgr
    requires LegalRun(m, ops)
    decreases ops
  {
    if ops == [] then m else After(Apply(m, ops[0]), ops[1..])
  }

  /** Every run keeps each class to at most one container, all slots apart and all pages booked. */
  lemma {:induction false} RunKeepsInv(m: Mgr, ops: seq<Op>)
    requires Inv(m) && LegalRun(m, ops)
    ensures Inv(After(m, ops))
    decreases ops
  {
    if ops != [] {
      match ops[0] {
        case NewOp(msz, start) =>
          if 1 <= msz <= MAX_SIZE {
            NewGrants(m, msz, start);
          }
        case DeleteOp(a, fsz) => DeleteTakes(m, a, fsz);
      }
      RunKeepsInv(Apply(m, ops[0]), ops[1..]);
    }
  }

  /** When no object is live, no page is held. */
  lemma {:induction false} NothingLiveNothingHeld(m: Mgr, n: nat)
    requires Inv(m) && n <= CLASSES && forall i: nat, a: nat :: !Live(m, i, a)
    ensures HeldBelow(m.classes, n) == multiset{}
    ensures n == CLASSES ==> m.held == multiset{}
  {
    if n > 0 {
      NothingLiveNothingHeld(m, n - 1);
      var x := m.classes[n - 1];
      assert ClassOk(x, n - 1);
      SomeMember(x);
      assert x.list == [] || Live(m, n - 1, SomeLive(x));
    }
  }

  ghost function SomeLive(x: Class): nat {
    if x.list != [] && exists a :: a in x.list[0].live then var a :| a in x.list[0].live; a else 0
  }

  lemma SomeMember(x: Class)
    ensures x.list != [] && x.list[0].live != multiset{} ==> SomeLive(x) in x.list[0].live
  {
    if x.list != [] && x.list[0].live != multiset{} {
      var live := x.list[0].live;
      assert exists a :: a in live;
    }
  }
}
