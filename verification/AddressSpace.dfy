/** The page tables of one address space, built and pruned in place. */
module AddressSpace {
  import opened BitMath
  import opened Sequences
  import opened PageTable
  import opened PageTableLaws
  import opened PageTableTheorems

  /** The table in frame t is there, and so is the one below it on the walk of v, if any. */
  ghost predicate Walkable(s: Mmu, t: nat, v: nat, d: nat)
    requires d < 3
  {
    var c := Child(s, t, v, d);
    && Levels(s) && t in s.tables && |s.tables[t]| == ENTRIES && c != t
    && (c != 0 ==> c in s.tables && |s.tables[c]| == ENTRIES)
  }

  lemma TreeWalkable(s: Mmu, a: Atlas, hole: Loc, v: nat, d: nat)
    requires d < 3 && v < USER_END && TreeBut(s, a, hole) && PathLoc(v, d) in a
    ensures Walkable(s, a[PathLoc(v, d)], v, d)
  {
    ChildPlaced(s, a, hole, v, d);
    PathDepth(v, d);
  }

  /** Unmapping below table t leaves it, its entry and the table below in place. */
  lemma WalkableBelow(s: Mmu, a: Atlas, v: nat, d: nat, t: nat, c: nat, s0: Mmu)
    requires d < 3 && v < USER_END && Tree(s, a) && PathLoc(v, d) in a && t == a[PathLoc(v, d)]
    requires c == Child(s, t, v, d) != 0 && s0 == UnmapFrom(s, c, d + 1, v).0
    ensures Walkable(s0, t, v, d) && Child(s0, t, v, d) == c
  {
    ChildPlaced(s, a, Top, v, d);
    if Maps(s, a, v) == 0 {
      UnmapAbsent(s, a, v, d + 1);
      TreeWalkable(s, a, Top, v, d);
    } else {
      var (s1, f) := UnmapFrom(s, c, d + 1, v);
      var a0 := UnmapKeeps(s, a, v, d + 1, s1, f);
      PathDepth(v, d);
      TreeWalkable(s0, a0, PathLoc(v, d + 1), v, d);
      ChildKept(s, a, s0, a0, v, d);
    }
  }

  /** Pruning after a failed walk below table t ends the walk from t in failure. */
  lemma MapBack(s: Mmu, t: nat, v: nat, d: nat, e: nat, flags: nat, s1: Mmu, c: nat)
    requires Levels(s) && d < 3 && (s1, c) == Descend(s, t, v, d, flags)
    requires c == 0 || MapFrom(s1, c, d + 1, v, e, flags) == (s1, false)
    ensures MapFrom(s, t, d, v, e, flags) == (Prune(s1, t, v, d), false)
  {
  }

  /** A walk that succeeds below table t succeeds from t. */
  lemma MapOn(s: Mmu, t: nat, v: nat, d: nat, e: nat, flags: nat, s1: Mmu, c: nat, s2: Mmu)
    requires Levels(s) && d < 3 && (s1, c) == Descend(s, t, v, d, flags)
    requires c != 0 && MapFrom(s1, c, d + 1, v, e, flags) == (s2, true)
    ensures MapFrom(s, t, d, v, e, flags) == (s2, true)
  {
  }

  lemma WalkStep(s: Mmu, t: nat, v: nat, d: nat)
    requires d < 3
    ensures WalkFrom(s, t, d, v) == if Child(s, t, v, d) == 0 then 0 else WalkFrom(s, Child(s, t, v, d), d + 1, v)
  {
  }

  lemma UnmapStops(s: Mmu, t: nat, d: nat, v: nat)
    requires Levels(s) && d < 3 && Child(s, t, v, d) == 0
    ensures UnmapFrom(s, t, d, v) == (s, 0)
  {
  }

  class MmuDsc {
    const root: nat             // mud_tdirearr
    var tables: map<nat, seq<nat>>
    var dirs: seq<seq<nat>>     // mud_tdirhead, mud_sdirhead, mud_idirhead, mud_mdirhead
    var nrs: seq<int>           // mud_tdirmsanr, mud_sdirmsanr, mud_idirmsanr, mud_mdirmsanr
    var avail: seq<nat>
    ghost var at: Atlas

    ghost function Abs(): Mmu
      reads this`tables, this`dirs, this`nrs, this`avail
    {
      Mmu(root, tables, dirs, nrs, avail)
    }

    ghost predicate Valid()
      reads this
    {
      Tree(Abs(), at)
    }

    /**
      `hal_mmu_init`: a root table in the first frame of the stock, its user half empty and its
      kernel half taken over from the running page table.
    */
    constructor (stock: seq<nat>, kernel: seq<nat>)
      requires stock != [] && Distinct(stock) && (forall f :: f in stock ==> 0 < f < FRAMES)
      requires |kernel| == 256
      ensures Valid() && forall v: nat :: v < USER_END ==> Translate(Abs(), v) == 0
      ensures forall i :: 256 <= i < 512 ==> Entry(Abs(), root, i) == kernel[i - 256]
    {
      root, avail := stock[0], stock[1..];
      tables := map[stock[0] := seq(USER_ENTRIES, i => 0) + kernel];
      dirs, nrs := [[stock[0]], [], [], []], [1, 0, 0, 0];
      at := map[Top := stock[0]];
      TailHas(stock);
      assert stock[0] in stock;
      new;
      EmptyTree(Abs());
    }

    ghost predicate IsTable(t: nat)
      reads this`tables
    {
      t in tables && |tables[t]| == ENTRIES
    }

    /** `mmu_new_sdirearr` and its siblings; 0 when no frame is left. */
    method NewDir(d: nat) returns (f: nat)
      requires Levels(Abs()) && d < 4 && Stocked(Abs())
      modifies this`tables, this`dirs, this`nrs, this`avail
      ensures f == 0 <==> old(avail) == []
      ensures f == 0 ==> Abs() == old(Abs())
      ensures f != 0 ==> f == old(avail)[0] && Abs() == NewTable(old(Abs()), d)
    {
      if avail == [] {
        return 0;
      }
      f := avail[0];
      assert f in avail;
      avail := avail[1..];
      tables := tables[f := Zeros()];
      dirs := dirs[d := [f] + dirs[d]];
      nrs := nrs[d := nrs[d] + 1];
    }

    /** `mmu_del_sdirearr` and its siblings: by the descriptor at hand, else by searching the list. */
    method DelDir(d: nat, f: nat, msa: nat) returns (ok: bool)
      requires Levels(Abs()) && d < 4 && (msa == f ==> f in dirs[d])
      modifies this`tables, this`dirs, this`nrs, this`avail
      ensures ok <==> f in old(dirs[d])
      ensures Abs() == if ok then DelTable(old(Abs()), d, f) else old(Abs())
    {
      if msa == f {
        dirs := dirs[d := Remove(dirs[d], f)];
      } else {
        var found, q := SearchAndDelete(dirs[d], f);
        if !found {
          return false;
        }
        dirs := dirs[d := q];
      }
      tables := tables - {f};
      avail := [f] + avail;
      nrs := nrs[d := nrs[d] - 1];
      ok := true;
    }

    /** `sdirearr_is_allzero` and its siblings. */
    method IsAllZero(f: nat) returns (zero: bool)
      requires IsTable(f)
      ensures zero <==> AllZero(tables[f])
    {
      for i := 0 to ENTRIES
        invariant forall j :: 0 <= j < i ==> tables[f][j] == 0
      {
        if tables[f][i] != 0 {
          return false;
        }
      }
      zero := true;
    }

    /** `mmu_transform_sdire` and its siblings; msa is the descriptor of a table made here, else 0. */
    method TransformDir(t: nat, v: nat, d: nat, flags: nat) returns (c: nat, msa: nat)
      requires Levels(Abs()) && d < 3 && IsTable(t) && Stocked(Abs())
      modifies this`tables, this`dirs, this`nrs, this`avail
      ensures (Abs(), c) == Descend(old(Abs()), t, v, d, flags)
      ensures msa == 0 || (msa == c && msa in dirs[d + 1])
    {
      var e := tables[t][Index(v, d)];
      if Have(e) {
        return FrameOf(e), 0;
      }
      msa := NewDir(d + 1);
      c := msa;
      if msa != 0 {
        tables := tables[t := Written(tables[t], Index(v, d), msa * PAGE + flags)];
      }
    }

    /** `mmu_untransform_sdire` and its siblings. */
    method UntransformDir(t: nat, msa: nat, v: nat, d: nat) returns (ok: bool)
      requires d < 3 && Walkable(Abs(), t, v, d)
      requires msa == 0 || msa in dirs[d + 1]
      modifies this`tables, this`dirs, this`nrs, this`avail
      ensures Abs() == Prune(old(Abs()), t, v, d)
      ensures var c := Child(old(Abs()), t, v, d);
        ok <==> c == 0 || !AllZero(old(tables)[c]) || c in old(dirs)[d + 1]
    {
      var e := tables[t][Index(v, d)];
      if !Have(e) {
        return true;
      }
      var zero := IsAllZero(FrameOf(e));
      if !zero {
        return true;
      }
      ok := DelDir(d + 1, FrameOf(e), msa);
      if ok {
        tables := tables[t := Written(tables[t], Index(v, d), 0)];
      }
    }

    /** The walk has reached the table at level d and may go on. */
    ghost predicate Reached(s: Mmu, a: Atlas, v: nat, d: nat, t: nat)
      requires d < 4
    {
      TreeBut(s, a, PathLoc(v, d)) && PathLoc(v, d) in a && a[PathLoc(v, d)] == t
    }

    /** `hal_mmu_transform`: map the page of v to frame f, or roll back. */
    method Transform(v: nat, f: nat, flags: nat) returns (ok: bool)
      requires Valid() && v < USER_END && 0 < f < FRAMES && flags < PAGE
      modifies this
      ensures Valid() && (Abs(), ok) == PageTable.Transform(old(Abs()), v, f, flags)
    {
      ghost var a0, s0 := at, Abs();
      at := TransformMapsOnePage(s0, a0, v, f, flags);
      ok := TransformWalk(v, f * PAGE + flags, flags, a0);
    }

    /** A step down, with the tree it leads to. */
    method StepDown(t: nat, v: nat, d: nat, flags: nat, ghost a: Atlas)
      returns (c: nat, msa: nat, ghost a1: Atlas)
      requires d < 3 && v < USER_END && flags < PAGE && Reached(Abs(), a, v, d, t)
      modifies this`tables, this`dirs, this`nrs, this`avail
      ensures (Abs(), c) == Descend(old(Abs()), t, v, d, flags)
      ensures msa == 0 || (msa == c && msa in dirs[d + 1])
      ensures c != 0 ==> Reached(Abs(), a1, v, d + 1, c)
      ensures c == 0 ==> Abs() == old(Abs())
    {
      a1 := a;
      ghost var s := Abs();
      PathDepth(v, d);
      ChildPlaced(s, a, PathLoc(v, d), v, d);
      assert avail != [] ==> avail[0] in avail;
      c, msa := TransformDir(t, v, d, flags);
      if c != 0 {
        a1 := DescendKeeps(s, a, v, d, flags);
      }
    }

    /** A roll-back label: prune what the step down from s made, the walk below having failed. */
    method StepBack(t: nat, ghost c: nat, msa: nat, v: nat, d: nat, e: nat, flags: nat, ghost s: Mmu, ghost a: Atlas, ghost d1: nat)
      requires d < 3 && v < USER_END && flags < PAGE && Reached(s, a, v, d, t) && d1 == d + 1
      requires (Abs(), c) == Descend(s, t, v, d, flags) && (msa == 0 || msa in dirs[d1])
      requires c == 0 || MapFrom(Abs(), c, d1, v, e, flags) == (Abs(), false)
      modifies this`tables, this`dirs, this`nrs, this`avail
      ensures Abs() == s && MapFrom(s, t, d, v, e, flags) == (s, false)
    {
      ghost var s1 := Abs();
      PruneUndoesDescend(s, a, v, d, flags);
      MapBack(s, t, v, d, e, flags, s1, c);
      if c != 0 {
        ghost var a1 := DescendKeeps(s, a, v, d, flags);
        TreeWalkable(s1, a1, PathLoc(v, d + 1), v, d);
      } else {
        TreeWalkable(s, a, PathLoc(v, d), v, d);
      }
      var r := UntransformDir(t, msa, v, d);
    }

    /** `hal_mmu_transform_core`: the walk and the last of its three roll-back labels. */
    method TransformWalk(v: nat, e: nat, flags: nat, ghost a: Atlas) returns (ok: bool)
      requires Tree(Abs(), a) && v < USER_END && flags < PAGE
      modifies this`tables, this`dirs, this`nrs, this`avail
      ensures (Abs(), ok) == MapFrom(old(Abs()), root, 0, v, e, flags)
    {
      assert PathLoc(v, 0) == Top;
      ghost var s := Abs();
      var sdir, msa;
      ghost var a1;
      ok := false;
      sdir, msa, a1 := StepDown(root, v, 0, flags, a);
      if sdir != 0 {
        ghost var s1 := Abs();
        ok := WalkFromSdir(sdir, v, e, flags, a1);
        if ok {
          MapOn(s, root, v, 0, e, flags, s1, sdir, Abs());
          return;
        }
      }
      StepBack(root, sdir, msa, v, 0, e, flags, s, a, 1);
    }

    /** The walk from the second table on, with the roll-back label of the third. */
    method WalkFromSdir(sdir: nat, v: nat, e: nat, flags: nat, ghost a: Atlas) returns (ok: bool)
      requires v < USER_END && flags < PAGE && Reached(Abs(), a, v, 1, sdir)
      modifies this`tables, this`dirs, this`nrs, this`avail
      ensures (Abs(), ok) == MapFrom(old(Abs()), sdir, 1, v, e, flags) && (!ok ==> Abs() == old(Abs()))
    {
      ghost var s := Abs();
      var idir, msa;
      ghost var a1;
      ok := false;
      idir, msa, a1 := StepDown(sdir, v, 1, flags, a);
      if idir != 0 {
        ghost var s1 := Abs();
        ok := WalkFromIdir(idir, v, e, flags, a1);
        if ok {
          MapOn(s, sdir, v, 1, e, flags, s1, idir, Abs());
          return;
        }
      }
      StepBack(sdir, idir, msa, v, 1, e, flags, s, a, 2);
    }

    /** The walk from the third table on: the page's entry is written into the fourth. */
    method WalkFromIdir(idir: nat, v: nat, e: nat, flags: nat, ghost a: Atlas) returns (ok: bool)
      requires v < USER_END && flags < PAGE && Reached(Abs(), a, v, 2, idir)
      modifies this`tables, this`dirs, this`nrs, this`avail
      ensures (Abs(), ok) == MapFrom(old(Abs()), idir, 2, v, e, flags) && (!ok ==> Abs() == old(Abs()))
    {
      ghost var s := Abs();
      var mdir, msa;
      ghost var a1;
      mdir, msa, a1 := StepDown(idir, v, 2, flags, a);
      if mdir != 0 {
        ghost var s1 := Abs();
        tables := tables[mdir := Written(tables[mdir], Index(v, 3), e)];
        MapOn(s, idir, v, 2, e, flags, s1, mdir, Abs());
        return true;
      }
      StepBack(idir, mdir, msa, v, 2, e, flags, s, a, 3);
      ok := false;
    }

    /** `mmu_find_sdirearr` and its siblings: the next table or page frame, 0 if there is none. */
    method Find(t: nat, v: nat, d: nat) returns (c: nat)
      requires IsTable(t) && d < 4
      ensures c == Child(Abs(), t, v, d)
    {
      var e := tables[t][Index(v, d)];
      c := if Have(e) then FrameOf(e) else 0;
    }

    /** `hal_mmu_virtophy`: the frame the page of v is mapped to, 0 if there is none. */
    method VirToPhy(v: nat) returns (f: nat)
      requires Valid() && v < USER_END
      ensures f == Translate(Abs(), v)
    {
      ghost var s := Abs();
      assert PathLoc(v, 0) == Top;
      ChildPlaced(s, at, Top, v, 0);
      var sdir := Find(root, v, 0);
      WalkStep(s, root, v, 0);
      if sdir == 0 {
        return 0;
      }
      ChildPlaced(s, at, Top, v, 1);
      var idir := Find(sdir, v, 1);
      WalkStep(s, sdir, v, 1);
      if idir == 0 {
        return 0;
      }
      ChildPlaced(s, at, Top, v, 2);
      var mdir := Find(idir, v, 2);
      WalkStep(s, idir, v, 2);
      if mdir == 0 {
        return 0;
      }
      f := Find(mdir, v, 3);
    }

    /** `mmu_untransform_msa`: clear the page's entry and return its frame. */
    method UntransformMsa(t: nat, v: nat) returns (f: nat)
      requires Levels(Abs()) && IsTable(t)
      modifies this`tables
      ensures (Abs(), f) == UnmapFrom(old(Abs()), t, 3, v)
    {
      var e := tables[t][Index(v, 3)];
      if !Have(e) {
        return 0;
      }
      f := FrameOf(e);
      tables := tables[t := Written(tables[t], Index(v, 3), 0)];
    }

    /** `hal_mmu_untransform`: unmap the page of v and return its frame, 0 if it was not mapped. */
    method Untransform(v: nat) returns (f: nat)
      requires Valid() && v < USER_END
      modifies this
      ensures Valid() && (Abs(), f) == PageTable.Untransform(old(Abs()), v)
    {
      ghost var s, a := Abs(), at;
      at := UntransformUnmapsOnePage(s, a, v);
      f := UntransformWalk(v, a);
    }

    /** A prune label: the page of v is unmapped below the table in frame c, which hangs in table t. */
    method StepUp(t: nat, c: nat, v: nat, d: nat, ghost f: nat, ghost s: Mmu, ghost a: Atlas)
      requires d < 3 && v < USER_END && Tree(s, a) && PathLoc(v, d) in a && t == a[PathLoc(v, d)]
      requires c == Child(s, t, v, d) != 0 && (Abs(), f) == UnmapFrom(s, c, d + 1, v)
      modifies this`tables, this`dirs, this`nrs, this`avail
      ensures (Abs(), f) == UnmapFrom(s, t, d, v)
    {
      ghost var s1 := Abs();
      WalkableBelow(s, a, v, d, t, c, s1);
      UnmapStep(s, t, d, v, c, s1, f);
      var r := UntransformDir(t, 0, v, d);
    }

    /** `hal_mmu_untransform_core`: the walk and its prune labels. */
    method UntransformWalk(v: nat, ghost a: Atlas) returns (f: nat)
      requires Tree(Abs(), a) && v < USER_END
      modifies this`tables, this`dirs, this`nrs, this`avail
      ensures (Abs(), f) == UnmapFrom(old(Abs()), root, 0, v)
    {
      ghost var s := Abs();
      assert PathLoc(v, 0) == Top;
      ChildPlaced(s, a, Top, v, 0);
      f := 0;
      var sdir := Find(root, v, 0);
      if sdir == 0 {
        UnmapStops(s, root, 0, v);
        return;
      }
      ChildPlaced(s, a, Top, v, 1);
      var idir := Find(sdir, v, 1);
      if idir == 0 {
        UnmapStops(s, sdir, 1, v);
      } else {
        ChildPlaced(s, a, Top, v, 2);
        var mdir := Find(idir, v, 2);
        if mdir == 0 {
          UnmapStops(s, idir, 2, v);
        } else {
          f := UntransformMsa(mdir, v);
          StepUp(idir, mdir, v, 2, f, s, a);
        }
        StepUp(sdir, idir, v, 1, f, s, a);
      }
      StepUp(root, sdir, v, 0, f, s, a);
    }
  }
}
