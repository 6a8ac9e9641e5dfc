/** The small-object manager, updated in place by allocation and release. */
module SmallObjectPools {
  import opened BitMath
  import opened Sequences
  import opened SmallObjects
  import opened SmallObjectsLaws
  import opened SmallObjectsTheorems

  lemma SubtractTwice<T>(h: multiset<T>, a: multiset<T>, b: multiset<T>)
    ensures (h - a) - b == h - (a + b)
  {
  }

  /** Class x without its j-th container. */
  function Unlinked(x: Class, j: nat): Class
    requires j < |x.list|
  {
    Class(Without(x.list, j), if x.cahe == Address(x.list[j]) then 0 else x.cahe, x.emnr - 1)
  }

  /** The four outcomes of `_destroy_kmsob`. */
  lemma SettleCases(m: Mgr, i: nat, j: nat, c: Container, pages: multiset<Extent>)
    requires i < |m.classes| && j < |m.classes[i].list| && c == m.classes[i].list[j] && |c.mc| == MSCLST_MAX
    requires pages == Returned(c, 0)
    ensures Settle(m, i, j) ==
      if m.msobnr < 1 || m.classes[i].emnr < 1 || c.mobjnr < c.fobjnr then (m, false)
      else if c.mobjnr > c.fobjnr then (m.(classes := m.classes[i := m.classes[i].(cahe := Address(c))]), true)
      else if c.kmobinpnr < 1 || c.kmobin == [] then (m, false)
      else (Mgr(m.classes[i := Unlinked(m.classes[i], j)], m.msobnr - 1, m.held - pages), true)
  {
  }

  class KmsobMgr {
    var classes: seq<Class>       // ks_msoblst
    var msobnr: int               // ks_msobnr
    var held: multiset<Extent>    // pages held from the page allocator

    ghost function Abs(): Mgr
      reads this
    {
      Mgr(classes, msobnr, held)
    }

    /** `kmsobmgrhed_t_init`. */
    constructor ()
      ensures Inv(Abs()) && held == multiset{} && forall i: nat, a: nat :: !Live(Abs(), i, a)
    {
      classes, msobnr, held := seq(CLASSES, _ => Class([], 0, 0)), 0, multiset{};
      new;
      NoContainers(classes, CLASSES);
    }

    /** `onmsz_retn_koblst`. */
    method RetnKoblst(msz: nat) returns (i: nat)
      ensures i == ClassFrom(0, msz)
    {
      i := 0;
      while i < CLASSES && ObjSize(i) < msz
        invariant 0 <= i <= CLASSES && ClassFrom(0, msz) == ClassFrom(i, msz)
      {
        i := i + 1;
      }
    }

    /** The carving loop of `_create_init_kmsob` and `kmsob_extn_pages`. */
    method Carve(first: nat, objsz: nat, end: int) returns (slots: seq<nat>)
      requires objsz > 0
      ensures slots == Slots(first, objsz, end)
      ensures forall x: nat :: x in slots <==> first <= x && x + objsz <= end && (x - first) % objsz == 0
      ensures first <= end ==> |slots| == (end - first) / objsz
    {
      slots := [];
      var ap := first;
      while ap < end
        invariant slots + Slots(ap, objsz, end) == Slots(first, objsz, end)
        decreases end - ap
      {
        if ap + objsz <= end {
          slots := slots + [ap];
        }
        ap := ap + objsz;
      }
      forall x: nat
        ensures x in slots <==> SlotAt(first, objsz, end, x)
      {
        SlotsHas(first, objsz, end, x);
      }
      if first <= end {
        SlotsCount(first, objsz, end);
      }
    }

    /** `_create_init_kmsob`. */
    method CreateContainer(objsz: nat, start: nat) returns (c: Container)
      requires objsz > 0
      ensures c == Create(objsz, start)
    {
      var r := Run(start, PagesFor(objsz), KMSOB_T);
      var slots := Carve(r.start + r.header, objsz, Last(r));
      c := Container(objsz, [r], slots, |slots|, |slots|, [[], [], [], [], []], [start], r.pages, multiset{});
    }

    /** `kmsob_extn_pages`. */
    method ExtendContainer(c: Container, start: nat) returns (d: Container)
      requires c.objsz > 0 && |c.mc| == MSCLST_MAX
      ensures d == Extend(c, start)
    {
      var r := Run(start, PagesFor(c.objsz), KMBEXT_T);
      var k := DivOrder(r.pages);
      if MSCLST_MAX <= k {
        return c;
      }
      var slots := Carve(r.start + r.header, c.objsz, Last(r));
      d := c.(runs := c.runs + [r], free := c.free + slots, mobjnr := c.mobjnr + |slots|, fobjnr := c.fobjnr + |slots|,
              mc := c.mc[k := c.mc[k] + [start]]);
    }

    /** `onkoblst_retn_newkmsob`. */
    method RetnNewKmsob(x: Class, msz: nat) returns (j: nat)
      ensures j == PickNew(x, msz)
    {
      j := Locate(x.list, 0, x.cahe);
      if x.cahe != 0 && j < |x.list| && msz <= x.list[j].objsz {
        return;
      }
      j := 0;
      while j < |x.list| && msz > x.list[j].objsz
        invariant 0 <= j <= |x.list| && FindNew(x, 0, msz) == FindNew(x, j, msz)
      {
        j := j + 1;
      }
    }

    /** `scan_delkmsob_isok`. */
    method ScanDelKmsob(c: Container, a: nat, fsz: nat) returns (ok: bool)
      ensures ok <==> Holds(c, a, fsz)
    {
      var k := 0;
      while k < |c.runs|
        invariant 0 <= k <= |c.runs|
        invariant forall l :: 0 <= l < k ==> !(WithinRun(c.runs[l], a, fsz) && fsz <= c.objsz)
      {
        if WithinRun(c.runs[k], a, fsz) && fsz <= c.objsz {
          return true;
        }
        k := k + 1;
      }
      ok := false;
    }

    /** `onkoblst_retn_delkmsob`. */
    method RetnDelKmsob(x: Class, a: nat, fsz: nat) returns (j: nat)
      ensures j == PickHolder(x, a, fsz)
    {
      j := Locate(x.list, 0, x.cahe);
      if x.cahe != 0 && j < |x.list| {
        var ok := ScanDelKmsob(x.list[j], a, fsz);
        if ok {
          return;
        }
      }
      j := 0;
      while j < |x.list|
        invariant 0 <= j <= |x.list| && FindHolder(x, 0, a, fsz) == FindHolder(x, j, a, fsz)
      {
        var ok := ScanDelKmsob(x.list[j], a, fsz);
        if ok {
          return;
        }
        j := j + 1;
      }
    }

    /** `kmsob_new_onkmsob` and `kmsob_new_opkmsob` on container j of class i. */
    method NewOnKmsob(i: nat, j: nat, msz: nat, start: nat) returns (a: nat)
      requires i < |classes| && j < |classes[i].list|
      requires classes[i].list[j].objsz > 0 && |classes[i].list[j].mc| == MSCLST_MAX
      modifies this`classes, this`held
      ensures (Abs(), a) == NewOn(old(Abs()), i, j, msz, start)
    {
      var c := classes[i].list[j];
      if c.fobjnr < 1 {
        if !CanExtend(c, start) {
          return 0;
        }
        held := held + multiset{Extent(start, PagesFor(c.objsz))};
        c := ExtendContainer(c, start);
      }
      if c.free == [] || c.fobjnr < 1 || c.mobjnr < 1 || msz > c.objsz {
        classes := classes[i := classes[i].(list := classes[i].list[j := c])];
        return 0;
      }
      a := c.free[0];
      c := c.(free := c.free[1..], fobjnr := c.fobjnr - 1, live := c.live + multiset{a});
      classes := classes[i := classes[i].(list := classes[i].list[j := c], cahe := Address(c))];
    }

    /** `kmsob_new`; `start` is the run the page allocator has on offer, 0 for none. */
    method NewObject(msz: nat, start: nat) returns (a: nat)
      requires Inv(Abs()) && (1 <= msz <= MAX_SIZE ==> Offered(Abs(), ClassFrom(0, msz), start))
      modifies this
      ensures Usable(old(Abs())) && (Abs(), a) == New(old(Abs()), msz, start) && Inv(Abs())
    {
      Readable(Abs());
      if msz < 1 || MAX_SIZE < msz {
        return 0;
      }
      NewGrants(Abs(), msz, start);
      a := NewCore(msz, start);
    }

    /** `_create_kmsob`. */
    method CreateKmsob(i: nat, start: nat)
      requires i < |classes|
      modifies this
      ensures Abs() == AddContainer(old(Abs()), i, start)
    {
      var c := CreateContainer(ObjSize(i), start);
      held := held + multiset{Extent(start, c.kmobinpnr)};
      classes := classes[i := classes[i].(list := classes[i].list + [c], emnr := classes[i].emnr + 1)];
      msobnr := msobnr + 1;
    }

    /** `kmsob_new_core`. */
    method NewCore(msz: nat, start: nat) returns (a: nat)
      requires Usable(Abs()) && 1 <= msz <= MAX_SIZE
      modifies this
      ensures (Abs(), a) == New(old(Abs()), msz, start)
    {
      var i := RetnKoblst(msz);
      if i >= |classes| {
        return 0;
      }
      var j := RetnNewKmsob(classes[i], msz);
      if j < |classes[i].list| {
        a := NewOnKmsob(i, j, msz, start);
      } else if start == 0 {
        a := 0;
      } else {
        CreateKmsob(i, start);
        a := NewOnKmsob(i, j, msz, 0);
      }
    }

    /** `kmsob_del_opkmsob` with `scan_dfszkmsob_isok`. */
    method DelOpKmsob(c: Container, a: nat, fsz: nat) returns (d: Container, ok: bool)
      requires c.objsz > 0
      ensures (d, ok) == Push(c, a, fsz)
    {
      if c.fobjnr + 1 > c.mobjnr {
        return c, false;
      }
      var k := 0;
      while k < |c.runs| && !(c.runs[k].start <= a && a + fsz - 1 <= Last(c.runs[k]))
        invariant 0 <= k <= |c.runs| && RunOf(c.runs, 0, a, fsz) == RunOf(c.runs, k, a, fsz)
      {
        k := k + 1;
      }
      if k == |c.runs| || !IsSlot(c.runs[k], a, c.objsz) {
        return c, false;
      }
      d, ok := c.(free := c.free + [a], fobjnr := c.fobjnr + 1, live := c.live - multiset{a}), true;
    }

    /** Give back one list of page runs. */
    method ReturnRuns(q: seq<nat>, pages: nat)
      modifies this`held
      ensures held == old(held) - Extents(q, pages)
    {
      var k := 0;
      while k < |q|
        invariant 0 <= k <= |q|
        invariant held - Extents(q[k..], pages) == old(held) - Extents(q, pages)
      {
        assert q[k..][1..] == q[k + 1..];
        SubtractTwice(held, multiset{Extent(q[k], pages)}, Extents(q[k + 1..], pages));
        held := held - multiset{Extent(q[k], pages)};
        k := k + 1;
      }
    }

    /** `_destroy_kmsob_core`: the page lists in turn, then the container's own run. */
    method ReturnPages(c: Container, ghost pages: multiset<Extent>)
      requires |c.mc| == MSCLST_MAX && pages == Returned(c, 0)
      modifies this`held
      ensures held == old(held) - pages
    {
      var j := 0;
      while j < MSCLST_MAX
        invariant 0 <= j <= MSCLST_MAX
        invariant held - Returned(c, j) == old(held) - Returned(c, 0)
      {
        SubtractTwice(held, Extents(c.mc[j], Pow2(j)), Returned(c, j + 1));
        ReturnRuns(c.mc[j], Pow2(j));
        j := j + 1;
      }
      ReturnRuns(c.kmobin, c.kmobinpnr);
    }

    /** `_destroy_kmsob`, with `_destroy_kmsob_core` when every object is free. */
    method DestroyKmsob(i: nat, j: nat) returns (ok: bool)
      requires i < |classes| && j < |classes[i].list| && |classes[i].list[j].mc| == MSCLST_MAX
      modifies this
      ensures (Abs(), ok) == Settle(old(Abs()), i, j)
    {
      var c := classes[i].list[j];
      ghost var pages := Returned(c, 0);
      SettleCases(Abs(), i, j, c, pages);
      if msobnr < 1 || classes[i].emnr < 1 || c.mobjnr < c.fobjnr {
        ok := false;
      } else if c.mobjnr > c.fobjnr {
        classes := classes[i := classes[i].(cahe := Address(c))];
        ok := true;
      } else if c.kmobinpnr < 1 || c.kmobin == [] {
        ok := false;
      } else {
        UnlinkContainer(i, j);
        ReturnPages(c, pages);
        ok := true;
      }
    }

    /** Take container j off the list of class i and out of its cache. */
    method UnlinkContainer(i: nat, j: nat)
      requires i < |classes| && j < |classes[i].list|
      modifies this`classes, this`msobnr
      ensures msobnr == old(msobnr) - 1
      ensures classes == old(classes)[i := Unlinked(old(classes)[i], j)]
    {
      var x := classes[i];
      var cahe := if x.cahe == Address(x.list[j]) then 0 else x.cahe;
      classes := classes[i := Class(Without(x.list, j), cahe, x.emnr - 1)];
      msobnr := msobnr - 1;
    }

    /** `kmsob_delete`. */
    method DeleteObject(a: nat, fsz: nat) returns (ok: bool)
      requires Inv(Abs())
      modifies this
      ensures Usable(old(Abs())) && (Abs(), ok) == Delete(old(Abs()), a, fsz)
      ensures 1 <= fsz <= MAX_SIZE && old(Live(Abs(), ClassFrom(0, fsz), a)) ==> ok && Inv(Abs())
    {
      Readable(Abs());
      if 1 <= fsz <= MAX_SIZE && Live(Abs(), ClassFrom(0, fsz), a) {
        DeleteTakes(Abs(), a, fsz);
      }
      ok := DeleteCore(a, fsz);
    }

    /** `kmsob_delete_core`. */
    method DeleteCore(a: nat, fsz: nat) returns (ok: bool)
      requires Usable(Abs())
      modifies this
      ensures (Abs(), ok) == Delete(old(Abs()), a, fsz)
    {
      if a == 0 || fsz < 1 || MAX_SIZE < fsz {
        return false;
      }
      var i := RetnKoblst(fsz);
      if i >= |classes| {
        return false;
      }
      var x := classes[i];
      var j := RetnDelKmsob(x, a, fsz);
      if j == |x.list| {
        return false;
      }
      var c;
      c, ok := DelOpKmsob(x.list[j], a, fsz);
      if ok {
        classes := classes[i := x.(list := x.list[j := c])];
        ok := DestroyKmsob(i, j);
      }
    }
  }

  lemma {:induction false} NoContainers(classes: seq<Class>, n: nat)
    requires n <= |classes| && forall i :: 0 <= i < |classes| ==> classes[i] == Class([], 0, 0)
    ensures ContainersBelow(classes, n) == 0 && HeldBelow(classes, n) == multiset{}
  {
    if n > 0 {
      NoContainers(classes, n - 1);
    }
  }
}
