/** One level of the page-table walk: what making, filling, clearing and freeing a table keep. */
module PageTableLaws {
  import opened BitMath
  import opened Sequences
  import opened PageTable

  /** An entry made of a frame number and flag bits gives the frame number back. */
  lemma EntryFrame(f: nat, flags: nat)
    requires f < FRAMES && flags < PAGE
    ensures FrameOf(f * PAGE + flags) == f
  {
  }

  lemma {:induction false} PathDepth(v: nat, d: nat)
    requires d < 4
    ensures Depth(PathLoc(v, d)) == d
  {
    if d > 0 {
      PathDepth(v, d - 1);
    }
  }

  lemma UserIndex(v: nat, d: nat)
    requires v < USER_END && d < 4
    ensures Index(v, d) < Limit(PathLoc(v, d))
  {
  }

  /** The ancestors of a placed location are placed. */
  lemma {:induction false} PathClosed(s: Mmu, at: Atlas, v: nat, d: nat, e: nat)
    requires Hung(s, at) && d <= e < 4 && PathLoc(v, e) in at
    ensures PathLoc(v, d) in at
    decreases e
  {
    if d < e {
      assert HungAt(s, at, PathLoc(v, e));
      PathClosed(s, at, v, d, e - 1);
    }
  }

  lemma ChildPlaced(s: Mmu, at: Atlas, hole: Loc, v: nat, d: nat)
    requires TreeBut(s, at, hole) && v < USER_END && d < 3 && PathLoc(v, d) in at
    ensures Have(Entry(s, at[PathLoc(v, d)], Index(v, d))) <==> PathLoc(v, d + 1) in at
    ensures PathLoc(v, d + 1) in at ==> at[PathLoc(v, d + 1)] == Child(s, at[PathLoc(v, d)], v, d)
    ensures PathLoc(v, d + 1) !in at ==> Entry(s, at[PathLoc(v, d)], Index(v, d)) == 0
  {
    PathDepth(v, d);
    UserIndex(v, d);
    assert EntryOk(s, at, PathLoc(v, d), Index(v, d));
    assert PathLoc(v, d + 1) in at ==> HungAt(s, at, PathLoc(v, d + 1));
  }

  /** Two user addresses lie in the same page exactly when their walks agree at every level. */
  lemma SamePagePath(v: nat, w: nat)
    requires v < USER_END && w < USER_END
    ensures v / PAGE == w / PAGE <==> PathLoc(v, 3) == PathLoc(w, 3) && Index(v, 3) == Index(w, 3)
  {
    Decompose(v);
    Decompose(w);
    assert PathLoc(v, 1) == Under(Top, Index(v, 0));
    assert PathLoc(v, 2) == Under(PathLoc(v, 1), Index(v, 1));
    assert PathLoc(w, 1) == Under(Top, Index(w, 0));
    assert PathLoc(w, 2) == Under(PathLoc(w, 1), Index(w, 1));
  }

  /** The four indices are the base-512 digits of the page number. */
  lemma Decompose(v: nat)
    requires v < USER_END
    ensures v / PAGE == Index(v, 3) + 512 * (Index(v, 2) + 512 * (Index(v, 1) + 512 * Index(v, 0)))
  {
    assert v / 0x20_0000 == v / PAGE / 512;
    assert v / 0x4000_0000 == v / 0x20_0000 / 512;
    assert v / 0x80_0000_0000 == v / 0x4000_0000 / 512;
  }

  lemma Digit(v: nat, d: nat)
    requires 0 < d < 4
    ensures v / Shift(d) == 512 * (v / Shift(d - 1)) + Index(v, d)
  {
    if d == 1 {
      assert v / 0x80_0000_0000 == v / 0x4000_0000 / 512;
    } else if d == 2 {
      assert v / 0x4000_0000 == v / 0x20_0000 / 512;
    } else {
      assert v / 0x20_0000 == v / PAGE / 512;
    }
  }

  /** Two user addresses meet at the same entry of a level exactly when their walks agree up to there. */
  lemma {:induction false} SameEntryPath(v: nat, w: nat, d: nat)
    requires v < USER_END && w < USER_END && d < 4
    ensures SameEntry(v, w, d) <==> PathLoc(v, d) == PathLoc(w, d) && Index(v, d) == Index(w, d)
  {
    if d == 0 {
      assert v / Shift(0) < ENTRIES && w / Shift(0) < ENTRIES;
    } else {
      Digit(v, d);
      Digit(w, d);
      SameEntryPath(v, w, d - 1);
    }
  }

  /** The tables of the levels above d have not changed. */
  ghost predicate SameAbove(s: Mmu, at: Atlas, s1: Mmu, at1: Atlas, d: nat) {
    forall l :: l in at && Depth(l) < d ==>
      l in at1 && at1[l] == at[l] && at[l] in s.tables && at[l] in s1.tables && s1.tables[at[l]] == s.tables[at[l]]
  }

  // ---------- making a table ----------

  /** The state after making the table at Under(l, i). */
  function Made(s: Mmu, at: Atlas, l: Loc, i: nat, flags: nat): (r: Mmu)
    requires Levels(s) && s.avail != [] && l in at && Depth(l) < 3
  {
    SetEntry(NewTable(s, Depth(l) + 1), at[l], i, s.avail[0] * PAGE + flags)
  }

  lemma MadeEntries(s: Mmu, at: Atlas, l: Loc, i: nat, flags: nat)
    requires Placed(s, at) && Stocked(s) && Levels(s) && s.avail != [] && l in at && Depth(l) < 3
    requires i < ENTRIES && flags < PAGE
    ensures var s1 := Made(s, at, l, i, flags);
      && s.avail[0] in s1.tables && s1.tables[s.avail[0]] == Zeros()
      && (forall m, j: nat :: m in at ==>
          Entry(s1, at[m], j) == if m == l && j == i then s.avail[0] * PAGE + flags else Entry(s, at[m], j))
      && (forall m :: m in at ==> at[m] in s1.tables && |s1.tables[at[m]]| == ENTRIES)
      && (forall m :: m in at && m != l ==> s1.tables[at[m]] == s.tables[at[m]])
  {
    assert s.avail[0] in s.avail;
  }

  /** Nothing hangs in a zero entry. */
  lemma ZeroEntry(s: Mmu, at: Atlas, l: Loc, i: nat)
    requires Placed(s, at) && Hung(s, at) && l in at && Entry(s, at[l], i) == 0
    ensures Under(l, i) !in at
  {
    assert FrameOf(0) == 0;
    assert Under(l, i) in at ==> HungAt(s, at, Under(l, i));
  }

  lemma MadePlaced(s: Mmu, at: Atlas, l: Loc, i: nat, flags: nat)
    requires Placed(s, at) && Stocked(s) && Levels(s) && s.avail != []
    requires l in at && Depth(l) < 3 && i < Limit(l) && flags < PAGE && Under(l, i) !in at
    ensures Placed(Made(s, at, l, i, flags), at[Under(l, i) := s.avail[0]])
  {
    MadeEntries(s, at, l, i, flags);
    assert s.avail[0] in s.avail;
  }

  lemma MadeHung(s: Mmu, at: Atlas, l: Loc, i: nat, flags: nat)
    requires Placed(s, at) && Hung(s, at) && Stocked(s) && Levels(s) && s.avail != []
    requires l in at && Depth(l) < 3 && i < Limit(l) && flags < PAGE && Under(l, i) !in at
    ensures Hung(Made(s, at, l, i, flags), at[Under(l, i) := s.avail[0]])
  {
    MadeEntries(s, at, l, i, flags);
    assert s.avail[0] in s.avail;
    EntryFrame(s.avail[0], flags);
    var s1, at1 := Made(s, at, l, i, flags), at[Under(l, i) := s.avail[0]];
    forall m | m in at1
      ensures HungAt(s1, at1, m)
    {
      if m != Under(l, i) {
        assert HungAt(s, at, m);
      }
    }
  }

  lemma MadeRooted(s: Mmu, at: Atlas, l: Loc, i: nat, flags: nat)
    requires Placed(s, at) && Rooted(s, at) && Stocked(s) && Levels(s) && s.avail != []
    requires l in at && Depth(l) < 3 && i < Limit(l) && flags < PAGE && Under(l, i) !in at
    ensures Rooted(Made(s, at, l, i, flags), at[Under(l, i) := s.avail[0]])
  {
    MadeEntries(s, at, l, i, flags);
    assert s.avail[0] in s.avail;
    EntryFrame(s.avail[0], flags);
    var s1, at1 := Made(s, at, l, i, flags), at[Under(l, i) := s.avail[0]];
    forall m, j: nat | m in at1 && j < Limit(m)
      ensures EntryOk(s1, at1, m, j)
    {
      if m != Under(l, i) {
        assert EntryOk(s, at, m, j);
      }
    }
  }

  /** A new table joins the list of its level and no other. */
  lemma LevelPushed(q: seq<nat>, n: int, at: Atlas, d: nat, m: Loc, f: nat)
    requires LevelListed(q, n, at, d) && m !in at && forall l :: l in at ==> at[l] != f
    ensures if Depth(m) == d then LevelListed([f] + q, n + 1, at[m := f], d) else LevelListed(q, n, at[m := f], d)
  {
    var at1 := at[m := f];
    assert forall l :: l in at ==> at1[l] == at[l];
    if Depth(m) == d {
      assert forall l :: !TableAt(at, l, f, d);
      assert f in q ==> exists l :: TableAt(at, l, f, d);
      assert TableAt(at1, m, f, d);
    }
    forall g | g in q
      ensures exists l :: TableAt(at1, l, g, d)
    {
      var l :| TableAt(at, l, g, d);
      assert TableAt(at1, l, g, d);
    }
  }

  lemma MadeListed(s: Mmu, at: Atlas, l: Loc, i: nat, flags: nat)
    requires Placed(s, at) && Listed(s, at) && Stocked(s) && s.avail != []
    requires l in at && Depth(l) < 3 && Under(l, i) !in at
    ensures Listed(Made(s, at, l, i, flags), at[Under(l, i) := s.avail[0]])
  {
    assert s.avail[0] in s.avail;
    forall d | 0 <= d < 4
      ensures LevelListed(Made(s, at, l, i, flags).dirs[d], Made(s, at, l, i, flags).nrs[d], at[Under(l, i) := s.avail[0]], d)
    {
      LevelPushed(s.dirs[d], s.nrs[d], at, d, Under(l, i), s.avail[0]);
    }
  }

  lemma MadeStocked(s: Mmu, at: Atlas, l: Loc, i: nat, flags: nat)
    requires Stocked(s) && Levels(s) && s.avail != [] && l in at && Depth(l) < 3
    ensures Stocked(Made(s, at, l, i, flags))
  {
    TailHas(s.avail);
  }

  lemma MadeTree(s: Mmu, at: Atlas, l: Loc, i: nat, flags: nat)
    requires TreeBut(s, at, l) && s.avail != []
    requires l in at && Depth(l) < 3 && i < Limit(l) && flags < PAGE && Entry(s, at[l], i) == 0
    ensures var s1, at1 := Made(s, at, l, i, flags), at[Under(l, i) := s.avail[0]];
      TreeBut(s1, at1, Under(l, i)) && Under(l, i) !in at
  {
    ZeroEntry(s, at, l, i);
    MadePlaced(s, at, l, i, flags);
    MadeHung(s, at, l, i, flags);
    MadeRooted(s, at, l, i, flags);
    MadeListed(s, at, l, i, flags);
    MadeStocked(s, at, l, i, flags);
    MadeEntries(s, at, l, i, flags);
    var s1 := Made(s, at, l, i, flags);
    assert s.avail[0] in s.avail;
    assert s1.tables[at[l]][i] == Entry(s1, at[l], i) > 0;
  }

  lemma MadeEntryAt(s: Mmu, at: Atlas, l: Loc, i: nat, flags: nat, w: nat, k: nat)
    requires Placed(s, at) && Stocked(s) && Levels(s) && s.avail != [] && l in at && Depth(l) < 3
    requires i < ENTRIES && flags < PAGE && Under(l, i) !in at && k < 4
    ensures EntryAt(Made(s, at, l, i, flags), at[Under(l, i) := s.avail[0]], w, k) ==
      if PathLoc(w, k) == l && Index(w, k) == i then s.avail[0] * PAGE + flags else EntryAt(s, at, w, k)
  {
    MadeEntries(s, at, l, i, flags);
  }

  // ---------- filling and clearing a page entry ----------

  lemma LeafEntries(s: Mmu, at: Atlas, l: Loc, i: nat, e: nat)
    requires Placed(s, at) && l in at && i < ENTRIES
    ensures var s1 := SetEntry(s, at[l], i, e);
      && s1.tables.Keys == s.tables.Keys && s1.tables[at[l]] == Written(s.tables[at[l]], i, e)
      && (forall m, j: nat :: m in at ==>
          Entry(s1, at[m], j) == if m == l && j == i then e else Entry(s, at[m], j))
      && (forall m :: m in at && m != l ==> s1.tables[at[m]] == s.tables[at[m]])
  {
  }

  /** Writing e to entry i of the lowest table at l. */
  lemma LeafTree(s: Mmu, at: Atlas, l: Loc, hole: Loc, i: nat, e: nat)
    requires TreeBut(s, at, l) && l in at && Depth(l) == 3 && i < ENTRIES
    requires e == 0 || Have(e)
    requires hole == if e == 0 then l else Top
    ensures TreeBut(SetEntry(s, at[l], i, e), at, hole)
  {
    var s1 := SetEntry(s, at[l], i, e);
    LeafEntries(s, at, l, i, e);
    forall m, j: nat | m in at && j < Limit(m)
      ensures EntryOk(s1, at, m, j)
    {
      assert EntryOk(s, at, m, j);
    }
    assert s1.tables[at[l]][i] == e;
    forall m | m in at
      ensures HungAt(s1, at, m)
    {
      assert HungAt(s, at, m);
    }
  }

  /** ...changes exactly the entry of the pages whose walk ends there. */
  lemma LeafEntryAt(s: Mmu, at: Atlas, v: nat, e: nat, w: nat, k: nat)
    requires Placed(s, at) && PathLoc(v, 3) in at && v < USER_END && w < USER_END && k < 4
    ensures EntryAt(SetEntry(s, at[PathLoc(v, 3)], Index(v, 3), e), at, w, k) ==
              if k == 3 && SameEntry(v, w, 3) then e else EntryAt(s, at, w, k)
  {
    SameEntryPath(v, w, 3);
    PathDepth(v, 3);
    PathDepth(w, k);
    LeafEntries(s, at, PathLoc(v, 3), Index(v, 3), e);
  }

  // ---------- freeing a table ----------

  /** The state after freeing the empty table at m. */
  function Freed(s: Mmu, at: Atlas, m: Loc): (r: Mmu)
    requires Levels(s) && m in at && Depth(m) < 4 && m.Under? && m.parent in at
  {
    SetEntry(DelTable(s, Depth(m), at[m]), at[m.parent], m.idx, 0)
  }

  lemma FreedEntries(s: Mmu, at: Atlas, m: Loc)
    requires Placed(s, at) && Hung(s, at) && Levels(s) && m in at && m.Under? && m.parent in at
    ensures var s1 := Freed(s, at, m);
      && (forall l, j: nat :: l in at && l != m ==>
          Entry(s1, at[l], j) == if l == m.parent && j == m.idx then 0 else Entry(s, at[l], j))
      && (forall l :: l in at && l != m ==> at[l] in s1.tables && |s1.tables[at[l]]| == ENTRIES)
      && (forall l :: l in at && l != m && l != m.parent ==> s1.tables[at[l]] == s.tables[at[l]])
  {
  }

  /** An empty table has no tables below it. */
  lemma EmptyHasNoChildren(s: Mmu, at: Atlas, m: Loc, l: Loc)
    requires Placed(s, at) && Hung(s, at) && m in at && m.Under? && m.parent in at && AllZero(s.tables[at[m]])
    requires l in at && l.Under?
    ensures l.parent != m
  {
    assert Entry(s, at[m], l.idx) == 0 && HungAt(s, at, l);
    assert FrameOf(0) == 0;
  }

  lemma FreedPlaced(s: Mmu, at: Atlas, m: Loc)
    requires Placed(s, at) && Hung(s, at) && Rooted(s, at) && Levels(s)
    requires m in at && m.Under? && m.parent in at && AllZero(s.tables[at[m]])
    ensures Placed(Freed(s, at, m), at - {m}) && Hung(Freed(s, at, m), at - {m}) && Rooted(Freed(s, at, m), at - {m})
  {
    FreedEntries(s, at, m);
    var s1, at1 := Freed(s, at, m), at - {m};
    assert HungAt(s, at, m);
    forall l | l in at1
      ensures HungAt(s1, at1, l)
    {
      assert HungAt(s, at, l);
      if l.Under? {
        EmptyHasNoChildren(s, at, m, l);
      }
    }
    forall l, j: nat | l in at1 && j < Limit(l)
      ensures EntryOk(s1, at1, l, j)
    {
      assert EntryOk(s, at, l, j);
    }
  }

  /** A freed table leaves the list of its level and no other. */
  lemma LevelRemoved(q: seq<nat>, n: int, at: Atlas, d: nat, m: Loc)
    requires LevelListed(q, n, at, d) && m in at && forall l :: l in at && at[l] == at[m] ==> l == m
    ensures if Depth(m) == d then at[m] in q && LevelListed(Remove(q, at[m]), n - 1, at - {m}, d)
            else LevelListed(q, n, at - {m}, d)
  {
    if Depth(m) == d {
      RemoveHas(q, at[m]);
    }
    forall g | g in q && (g != at[m] || Depth(m) != d)
      ensures exists l :: TableAt(at - {m}, l, g, d)
    {
      var l :| TableAt(at, l, g, d);
      assert TableAt(at - {m}, l, g, d);
    }
  }

  lemma FreedListed(s: Mmu, at: Atlas, m: Loc)
    requires Placed(s, at) && Hung(s, at) && Listed(s, at) && Stocked(s) && m in at && m.Under? && m.parent in at
    ensures Listed(Freed(s, at, m), at - {m}) && Stocked(Freed(s, at, m))
  {
    var s1 := Freed(s, at, m);
    forall d | 0 <= d < 4
      ensures LevelListed(s1.dirs[d], s1.nrs[d], at - {m}, d)
    {
      LevelRemoved(s.dirs[d], s.nrs[d], at, d, m);
    }
  }

  lemma FreedTree(s: Mmu, at: Atlas, m: Loc)
    requires TreeBut(s, at, m) && m in at && m.Under? && m.parent in at && AllZero(s.tables[at[m]])
    ensures TreeBut(Freed(s, at, m), at - {m}, m.parent)
  {
    FreedPlaced(s, at, m);
    FreedListed(s, at, m);
    FreedEntries(s, at, m);
  }

  lemma FreedEntryAt(s: Mmu, at: Atlas, m: Loc, w: nat, k: nat)
    requires Placed(s, at) && Hung(s, at) && Levels(s) && m in at && m.Under? && m.parent in at && AllZero(s.tables[at[m]])
    requires k < 4
    ensures EntryAt(Freed(s, at, m), at - {m}, w, k) ==
      if PathLoc(w, k) == m.parent && Index(w, k) == m.idx then 0 else EntryAt(s, at, w, k)
  {
    FreedEntries(s, at, m);
  }
}
