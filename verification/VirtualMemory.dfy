/** The virtual memory of a process: its region list and its page tables, changed together. */
module VirtualMemory {
  import opened Regions
  import opened RegionsTheorems
  import opened RegionsTraits
  import PageTable
  import opened PageTableTheorems
  import opened AddressSpace

  // ---------- unmapping a range ----------

  /** The page tables after unmapping every page from v up to end. */
  function UnmapRange(s: PageTable.Mmu, v: nat, end: nat): (r: PageTable.Mmu)
    requires PageTable.Levels(s)
    ensures PageTable.Levels(r)
    decreases end - v
  {
    if v >= end then s else UnmapRange(PageTable.Untransform(s, v).0, v + PAGE, end)
  }

  /** s1 maps no address from lo up to hi and translates every other address as s does. */
  ghost predicate UnmappedBetween(s: PageTable.Mmu, s1: PageTable.Mmu, lo: nat, hi: nat) {
    forall w: nat :: w < PageTable.USER_END ==>
      PageTable.Translate(s1, w) == if lo <= w < hi then 0 else PageTable.Translate(s, w)
  }

  /** Unmapping the first page, then the rest. */
  lemma ThenUnmapped(s: PageTable.Mmu, s0: PageTable.Mmu, s1: PageTable.Mmu, v: nat, end: nat)
    requires v + PAGE <= end
    requires UnmappedBetween(s, s0, v, v + PAGE) && UnmappedBetween(s0, s1, v + PAGE, end)
    ensures UnmappedBetween(s, s1, v, end)
  {
    forall w: nat | w < PageTable.USER_END
      ensures PageTable.Translate(s1, w) == if v <= w < end then 0 else PageTable.Translate(s, w)
    {
      assert PageTable.Translate(s0, w) == if v <= w < v + PAGE then 0 else PageTable.Translate(s, w);
    }
  }

  lemma NextPage(v: nat, end: nat)
    requires v < end && v % PAGE == 0 && end % PAGE == 0
    ensures v + PAGE <= end
  {
  }

  lemma OnePageUnmapped(s: PageTable.Mmu, at: PageTable.Atlas, v: nat) returns (at1: PageTable.Atlas)
    requires PageTable.Tree(s, at) && v % PAGE == 0 && v < PageTable.USER_END
    ensures PageTable.Tree(PageTable.Untransform(s, v).0, at1)
    ensures UnmappedBetween(s, PageTable.Untransform(s, v).0, v, v + PAGE)
  {
    at1 := UntransformUnmapsOnePage(s, at, v);
    assert forall w: nat :: v / PAGE == w / PAGE <==> v <= w < v + PAGE;
  }

  /** No page of the range stays mapped and every other translation is left alone. */
  lemma {:induction false} UnmapRangeExact(s: PageTable.Mmu, at: PageTable.Atlas, v: nat, end: nat)
    returns (at1: PageTable.Atlas)
    requires PageTable.Tree(s, at) && v % PAGE == 0 && end % PAGE == 0 && end <= PageTable.USER_END
    ensures PageTable.Tree(UnmapRange(s, v, end), at1) && UnmappedBetween(s, UnmapRange(s, v, end), v, end)
    decreases end - v
  {
    if v >= end {
      at1 := at;
    } else {
      var s0 := PageTable.Untransform(s, v).0;
      var at0 := OnePageUnmapped(s, at, v);
      at1 := UnmapRangeExact(s0, at0, v + PAGE, end);
      NextPage(v, end);
      ThenUnmapped(s, s0, UnmapRange(s0, v + PAGE, end), v, end);
    }
  }

  class MemSpace {
    var list: seq<Region>  // vs_list
    var curr: int          // vs_currkmvdsc as a position in the list, -1 for null
    var last: int          // vs_endkmvdsc likewise
    var nr: int            // vs_kmvdscnr
    const mmu: MmuDsc      // msd_mmu

    /** The pointers lead to members of the list and the count is its length. */
    ghost predicate Linked()
      reads this
    {
      HintOk(list, curr) && last == |list| - 1 && nr == |list|
    }

    ghost predicate Valid()
      reads this, mmu
    {
      Linked() && Ordered(list) && mmu.Valid()
    }

    /** `kvma_inituserspace_virmemadrs`: a small region at the bottom and the stack at the top. */
    constructor (tables: MmuDsc)
      requires tables.Valid()
      ensures Valid() && mmu == tables && curr == -1
      ensures list == [Region(0x1000, 0x5000, 0, 0, 0, 0), Region(0x7fff_ffff_8000, 0x7fff_ffff_ffff, 0, 0, 0, 1)]
    {
      mmu := tables;
      list := [Region(PAGE, PAGE + 0x4000, 0, 0, 0, 0), Region(Align(ALLOC_END - 0x8000), ALLOC_END, 0, 0, 0, 1)];
      curr, last, nr := -1, 1, 2;
    }

    /** `list_add_to_behind` behind position k: members after it move up by one. */
    method ListAdd(k: nat, r: Region)
      requires k < |list|
      modifies this`list, this`curr, this`last
      ensures list == old(list)[..k + 1] + [r] + old(list)[k + 1..]
      ensures curr == (if old(curr) > k then old(curr) + 1 else old(curr))
      ensures last == (if old(last) > k then old(last) + 1 else old(last))
    {
      list := list[..k + 1] + [r] + list[k + 1..];
      curr := if curr > k then curr + 1 else curr;
      last := if last > k then last + 1 else last;
    }

    /** `list_del` at position k, no longer pointed to: members after it move down by one. */
    method ListDel(k: nat)
      requires k < |list| && curr != k && last != k
      modifies this`list, this`curr, this`last
      ensures list == old(list)[..k] + old(list)[k + 1..]
      ensures curr == (if old(curr) > k then old(curr) - 1 else old(curr))
      ensures last == (if old(last) > k then old(last) - 1 else old(last))
    {
      list := list[..k] + list[k + 1..];
      curr := if curr > k then curr - 1 else curr;
      last := if last > k then last - 1 else last;
    }

    /** `vma_find_kmvarsdsc`. */
    method FindKmvarsdsc(start: nat, size: nat) returns (k: int)
      ensures k == FindGap(list, curr, start, size)
    {
      if size < PAGE {
        return -1;
      }
      if Add64(start, size) > ALLOC_END {
        return -1;
      }
      if 0 <= curr < |list| && FitsAfter(list, curr, start, size) {
        return curr;
      }
      var i := 0;
      while i < |list|
        invariant 0 <= i <= |list| && FirstFit(list, 0, start, size) == FirstFit(list, i, start, size)
      {
        if FitsAfter(list, i, start, size) {
          return i;
        }
        i := i + 1;
      }
      k := -1;
    }

    /** `vma_new_vadrs` and `vma_new_vadrs_core`. */
    method NewVadrs(start: nat, size: nat, t: Traits, node: bool) returns (address: nat)
      requires Linked()
      modifies this`list, this`curr, this`last, this`nr
      ensures Linked()
      ensures Granted(list, curr, address) == New(old(list), old(curr), start, size, t, node)
    {
      address := 0;
      if size < 1 {
        return;
      }
      if start != 0 && (start % PAGE != 0 || PAGE > start || ALLOC_END < Add64(start, size)) {
        return;
      }
      var z := Align(size);
      var k := FindKmvarsdsc(start, z);
      if k == -1 {
        return;
      }
      var r := list[k];
      if (start == 0 || start == r.end) && t.limits == r.limits && t.kind == r.kind && t.file == 0 {
        address := r.end;
        list := list[k := r.(end := Add64(r.end, z))];
        curr := k;
        return;
      }
      if !node {
        return;
      }
      address := if start == 0 then r.end else start;
      ListAdd(k, Region(address, Add64(address, z), t.limits, t.kind, t.file, t.flags));
      curr := k + 1;
      nr := nr + 1;
      if k + 1 == |list| - 1 {
        last := k + 1;
      }
    }

    /** `vma_del_find_kmvarsdsc`. */
    method DelFindKmvarsdsc(start: nat, size: nat) returns (k: int)
      ensures k == FindHolder(list, curr, start, size)
      ensures start + size < TWO64 && k >= 0 ==> list[k].start <= start && start + size <= list[k].end
      ensures start + size < TWO64 && size >= 0x1000 && k < 0 ==>
        forall i :: 0 <= i < |list| ==> !(list[i].start <= start && start + size <= list[i].end)
    {
      if size < PAGE {
        return -1;
      }
      if 0 <= curr < |list| && Inside(list[curr], start, size) {
        return curr;
      }
      var i := 0;
      while i < |list|
        invariant 0 <= i <= |list| && FirstInside(list, 0, start, size) == FirstInside(list, i, start, size)
      {
        if Inside(list[i], start, size) {
          return i;
        }
        i := i + 1;
      }
      k := -1;
    }

    /** `vma_del_set_endcurrkmvd`. */
    method DelSetEndCurr(k: nat)
      requires k < |list|
      modifies this`curr, this`last
      ensures if k == |list| - 1 then curr == k - 1 && last == k - 1 else curr == k + 1 && last == old(last)
    {
      if k == |list| - 1 {
        if k != 0 {
          last := k - 1;
          curr := k - 1;
        } else {
          last := -1;
          curr := -1;
        }
      } else {
        curr := k + 1;
      }
    }

    /** `vma_del_unmapping_phyadrs`, without the page box. */
    method DelUnmapping(start: nat, end: nat)
      requires mmu.Valid() && end <= PageTable.USER_END
      modifies mmu
      ensures mmu.Valid() && mmu.Abs() == UnmapRange(old(mmu.Abs()), start, end)
    {
      var v := start;
      while v < end
        invariant mmu.Valid()
        invariant UnmapRange(mmu.Abs(), v, end) == UnmapRange(old(mmu.Abs()), start, end)
      {
        var f := mmu.Untransform(v);
        v := v + PAGE;
      }
    }

    /** `vma_del_vadrs` and `vma_del_vadrs_core`: all four ways of cutting a region. */
    method DelVadrs(start: nat, size: nat, node: bool) returns (ok: bool)
      requires Linked() && mmu.Valid() && Ordered(list)
      modifies this`list, this`curr, this`last, this`nr, mmu
      ensures Linked() && mmu.Valid()
      ensures Cut(list, curr, ok) == Delete(old(list), old(curr), start, size, node)
      ensures mmu.Abs() == if ok then UnmapRange(old(mmu.Abs()), start, Add64(start, Align(size))) else old(mmu.Abs())
    {
      if size < 1 || start == 0 {
        return false;
      }
      var z := Align(size);
      var k := DelFindKmvarsdsc(start, z);
      if k == -1 {
        return false;
      }
      var r, end := list[k], Add64(start, z);
      ok := true;
      if r.start == start && r.end == end {
        DelUnmapping(start, end);
        DelSetEndCurr(k);
        ListDel(k);
        nr := nr - 1;
      } else if r.start == start && r.end > end {
        list := list[k := r.(start := end)];
        DelUnmapping(start, end);
      } else if r.start < start && r.end == end {
        list := list[k := r.(end := start)];
        DelUnmapping(start, end);
      } else if node {
        list := list[k := r.(end := start)];
        DelUnmapping(start, end);
        AddUpper(k, Region(end, r.end, r.limits, r.kind, 0, 0));
        assert list == old(list)[..k] + [r.(end := start), Region(end, r.end, r.limits, r.kind, 0, 0)] + old(list)[k + 1..];
      } else {
        ok := false;
      }
    }

    /** What a cut in the middle leaves above the cut goes behind region k. */
    method AddUpper(k: nat, upper: Region)
      requires k < |list| && Linked()
      modifies this`list, this`curr, this`last, this`nr
      ensures list == old(list)[..k + 1] + [upper] + old(list)[k + 1..] && curr == k + 1 && Linked()
    {
      ListAdd(k, upper);
      nr := nr + 1;
      if k + 1 == |list| - 1 {
        last := k + 1;
        curr := k + 1;
      } else {
        curr := k + 1;
      }
    }

    /** `vma_map_find_kmvarsdsc`. */
    method MapFindKmvarsdsc(a: nat) returns (k: int)
      ensures k == Lookup(list, curr, a)
    {
      if 0 <= curr < |list| && Holds(list[curr], a) {
        return curr;
      }
      var i := 0;
      while i < |list|
        invariant 0 <= i <= |list| && FirstHolding(list, 0, a) == FirstHolding(list, i, a)
      {
        if Holds(list[i], a) {
          return i;
        }
        i := i + 1;
      }
      k := -1;
    }

    /**
      A page-aligned range deleted: exactly its addresses leave the regions, none of its pages stays
      mapped, and every other translation is what it was.
    */
    method Release(start: nat, size: nat, node: bool) returns (ok: bool)
      requires Valid() && start % PAGE == 0 && 1 <= size <= ALLOC_END && start + Align(size) < TWO64
      modifies this`list, this`curr, this`last, this`nr, mmu
      ensures Valid()
      ensures ok <==> CanCut(old(list), start, start + Align(size), node)
      ensures !ok ==> list == old(list) && mmu.Abs() == old(mmu.Abs())
      ensures ok ==> forall a: nat :: At(list, a) == AfterDelete(old(list), start, start + Align(size), a)
      ensures ok ==> RemovesExactly(old(list), list, start, Align(size))
      ensures ok ==> UnmappedBetween(old(mmu.Abs()), mmu.Abs(), start, start + Align(size))
    {
      ghost var q, h, s, a := list, curr, mmu.Abs(), mmu.at;
      ok := DelVadrs(start, size, node);
      ReleaseExact(q, h, s, a, start, size, node);
      DeleteGrantedIff(q, h, start, size, node);
      ReleaseCarries(q, h, start, size, node);
    }
  }

  lemma AlignedSum(a: nat, b: nat)
    requires a % PAGE == 0 && b % PAGE == 0
    ensures (a + b) % PAGE == 0
  {
  }

  /** A range that was cut out lay within a region. */
  lemma CutWasInside(q: seq<Region>, h: int, start: nat, size: nat, node: bool, z: nat)
    requires Ordered(q) && z == Align(size) && Delete(q, h, start, size, node).ok && start + z < TWO64
    ensures start + z <= ALLOC_END
  {
  }

  lemma PagesReleased(s: PageTable.Mmu, a: PageTable.Atlas, start: nat, z: nat, end: nat)
    requires PageTable.Tree(s, a) && start % PAGE == 0 && z % PAGE == 0 && end == start + z <= PageTable.USER_END
    ensures UnmappedBetween(s, UnmapRange(s, start, end), start, end)
  {
    AlignedSum(start, z);
    var b := UnmapRangeExact(s, a, start, end);
  }

  lemma RegionsReleased(q: seq<Region>, h: int, start: nat, size: nat, node: bool, z: nat)
    requires Ordered(q) && HintOk(q, h) && 1 <= size <= ALLOC_END && z == Align(size) && start + z < TWO64
    ensures var c := Delete(q, h, start, size, node);
      && Ordered(c.regions) && (!c.ok ==> c.regions == q)
      && (c.ok ==> RemovesExactly(q, c.regions, start, z) && start + z <= ALLOC_END)
  {
    if start > 0 {
      DeleteRemovesIff(q, h, start, size, node);
      if Delete(q, h, start, size, node).ok {
        CutWasInside(q, h, start, size, node, z);
      }
    }
  }

  lemma ReleaseCarries(q: seq<Region>, h: int, start: nat, size: nat, node: bool)
    requires Ordered(q) && HintOk(q, h) && 1 <= size <= ALLOC_END && start + Align(size) < TWO64
    ensures var c := Delete(q, h, start, size, node);
      c.ok ==> forall a: nat :: At(c.regions, a) == AfterDelete(q, start, start + Align(size), a)
  {
    if Delete(q, h, start, size, node).ok {
      forall a: nat
        ensures At(Delete(q, h, start, size, node).regions, a) == AfterDelete(q, start, start + Align(size), a)
      {
        DeleteCarries(q, h, start, size, node, a);
      }
    }
  }

  lemma ReleaseExact(q: seq<Region>, h: int, s: PageTable.Mmu, a: PageTable.Atlas, start: nat, size: nat, node: bool)
    requires Ordered(q) && HintOk(q, h) && PageTable.Tree(s, a)
    requires start % PAGE == 0 && 1 <= size <= ALLOC_END && start + Align(size) < TWO64
    ensures var c, end := Delete(q, h, start, size, node), start + Align(size);
      && Ordered(c.regions) && Add64(start, Align(size)) == end
      && (!c.ok ==> c.regions == q)
      && (c.ok ==> RemovesExactly(q, c.regions, start, Align(size)) && UnmappedBetween(s, UnmapRange(s, start, end), start, end))
  {
    AlignBounds(size);
    RegionsReleased(q, h, start, size, node, Align(size));
    if Delete(q, h, start, size, node).ok {
      PagesReleased(s, a, start, Align(size), start + Align(size));
    }
  }
}
