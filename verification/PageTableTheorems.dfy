/**
  The page table refines a map from page number to frame: mapping changes one page and rolls back
  exactly when it fails, unmapping removes one page and undoes a mapping exactly.
*/
module PageTableTheorems {
  import opened BitMath
  import opened Sequences
  import opened PageTable
  import opened PageTableLaws

  // ---------- translation ----------

  /** The walk from level d on finds what the tree maps. */
  lemma {:induction false} WalkIsMaps(s: Mmu, at: Atlas, v: nat, d: nat)
    requires Tree(s, at) && v < USER_END && d < 4 && PathLoc(v, d) in at
    ensures WalkFrom(s, at[PathLoc(v, d)], d, v) == Maps(s, at, v)
    decreases 4 - d
  {
    if d < 3 {
      ChildPlaced(s, at, Top, v, d);
      if PathLoc(v, d + 1) in at {
        WalkIsMaps(s, at, v, d + 1);
      } else if PathLoc(v, 3) in at {
        PathClosed(s, at, v, d + 1, 3);
      }
    }
  }

  /** `hal_mmu_virtophy` looks pages up in the tree. */
  lemma TranslateIsMaps(s: Mmu, at: Atlas, v: nat)
    requires Tree(s, at) && v < USER_END
    ensures Translate(s, v) == Maps(s, at, v)
  {
    WalkIsMaps(s, at, v, 0);
  }

  /** A root table with an empty user half is a tree that maps nothing. */
  lemma EmptyTree(s: Mmu)
    requires s.root in s.tables && |s.tables[s.root]| == ENTRIES && 0 < s.root < FRAMES
    requires forall i :: 0 <= i < USER_ENTRIES ==> s.tables[s.root][i] == 0
    requires s.dirs == [[s.root], [], [], []] && s.nrs == [1, 0, 0, 0] && Stocked(s)
    ensures Tree(s, map[Top := s.root])
    ensures forall v: nat :: v < USER_END ==> Translate(s, v) == 0
  {
    var at: Atlas := map[Top := s.root];
    assert TableAt(at, Top, s.root, 0);
    assert Tree(s, at);
    forall v: nat | v < USER_END
      ensures Translate(s, v) == 0
    {
      TranslateIsMaps(s, at, v);
    }
  }

  // ---------- entries ----------

  lemma {:induction false} EntryFromIsAt(s: Mmu, at: Atlas, v: nat, k: nat, d: nat)
    requires Tree(s, at) && v < USER_END && k <= d < 4 && PathLoc(v, k) in at
    ensures EntryFrom(s, at[PathLoc(v, k)], k, v, d) == EntryAt(s, at, v, d)
    decreases d - k
  {
    if k < d {
      ChildPlaced(s, at, Top, v, k);
      if PathLoc(v, k + 1) in at {
        EntryFromIsAt(s, at, v, k + 1, d);
      } else if PathLoc(v, d) in at {
        PathClosed(s, at, v, k + 1, d);
      }
    }
  }

  /** The walk meets the entries the tree holds. */
  lemma EntryOfIsAt(s: Mmu, at: Atlas, v: nat, d: nat)
    requires Tree(s, at) && v < USER_END && d < 4
    ensures EntryOf(s, v, d) == EntryAt(s, at, v, d)
  {
    assert PathLoc(v, 0) == Top;
    EntryFromIsAt(s, at, v, 0, d);
  }

  /** An entry that led to no table now leads to one and carries the flags; any other is what it was. */
  predicate FilledIn(old0: nat, new0: nat, flags: nat) {
    if old0 == 0 then Have(new0) && new0 % 0x1000 == flags else new0 == old0
  }

  /** One entry of level d, on the walk of v, was filled in if it was empty; all others are as they were. */
  ghost predicate Joined(s: Mmu, at: Atlas, s1: Mmu, at1: Atlas, v: nat, d: nat, flags: nat)
    requires d < 4
  {
    forall w: nat, k: nat :: w < USER_END && k < 4 ==>
      if k == d && SameEntry(v, w, d) then FilledIn(EntryAt(s, at, w, k), EntryAt(s1, at1, w, k), flags)
      else EntryAt(s1, at1, w, k) == EntryAt(s, at, w, k)
  }

  /** The entries on the walk of v from level d on: those that led nowhere are filled in, the page's is e. */
  ghost predicate Grown(s: Mmu, at: Atlas, s1: Mmu, at1: Atlas, v: nat, d: nat, flags: nat, e: nat) {
    forall w: nat, k: nat :: w < USER_END && k < 4 ==>
      if k < d || !SameEntry(v, w, k) then EntryAt(s1, at1, w, k) == EntryAt(s, at, w, k)
      else if k == 3 then EntryAt(s1, at1, w, k) == e
      else FilledIn(EntryAt(s, at, w, k), EntryAt(s1, at1, w, k), flags)
  }

  /** The entries on the walk of v from level d on: the page's is cleared, the others perhaps. */
  ghost predicate Shrunk(s: Mmu, at: Atlas, s1: Mmu, at1: Atlas, v: nat, d: nat) {
    forall w: nat, k: nat :: w < USER_END && k < 4 ==>
      if k < d || !SameEntry(v, w, k) then EntryAt(s1, at1, w, k) == EntryAt(s, at, w, k)
      else EntryAt(s1, at1, w, k) == 0 || (k < 3 && EntryAt(s1, at1, w, k) == EntryAt(s, at, w, k))
  }

  // ---------- mapping ----------

  /** One level down, after making the next table when it is missing. */
  lemma DescendKeeps(s: Mmu, at: Atlas, v: nat, d: nat, flags: nat) returns (at1: Atlas)
    requires d < 3 && v < USER_END && TreeBut(s, at, PathLoc(v, d)) && PathLoc(v, d) in at && flags < PAGE
    requires Descend(s, at[PathLoc(v, d)], v, d, flags).1 != 0
    ensures var (s1, c) := Descend(s, at[PathLoc(v, d)], v, d, flags);
      && TreeBut(s1, at1, PathLoc(v, d + 1))
      && PathLoc(v, d + 1) in at1 && at1[PathLoc(v, d + 1)] == c
      && Joined(s, at, s1, at1, v, d, flags) && SameAbove(s, at, s1, at1, d)
      && PathLoc(v, d) in at1 && at1[PathLoc(v, d)] == at[PathLoc(v, d)]
  {
    var l, i := PathLoc(v, d), Index(v, d);
    ChildPlaced(s, at, l, v, d);
    UserIndex(v, d);
    PathDepth(v, d);
    if Under(l, i) in at {
      at1 := at;
      FilledUnder(s, at, l, i);
      FoundJoins(s, at, v, d, flags);
    } else {
      at1 := at[Under(l, i) := s.avail[0]];
      MadeTree(s, at, l, i, flags);
      MadeEntries(s, at, l, i, flags);
      MadeJoins(s, at, v, d, flags);
    }
  }

  lemma FoundJoins(s: Mmu, at: Atlas, v: nat, d: nat, flags: nat)
    requires d < 3 && v < USER_END && PathLoc(v, d) in at && Have(Entry(s, at[PathLoc(v, d)], Index(v, d)))
    ensures Joined(s, at, s, at, v, d, flags)
  {
    assert FrameOf(0) == 0;
    forall w: nat | w < USER_END && SameEntry(v, w, d)
      ensures EntryAt(s, at, w, d) != 0
    {
      SameEntryPath(v, w, d);
    }
  }

  lemma MadeJoins(s: Mmu, at: Atlas, v: nat, d: nat, flags: nat)
    requires d < 3 && v < USER_END && Placed(s, at) && Stocked(s) && Levels(s) && s.avail != [] && flags < PAGE
    requires PathLoc(v, d) in at && Under(PathLoc(v, d), Index(v, d)) !in at && Depth(PathLoc(v, d)) == d
    requires Entry(s, at[PathLoc(v, d)], Index(v, d)) == 0
    ensures Joined(s, at, Made(s, at, PathLoc(v, d), Index(v, d), flags),
                   at[Under(PathLoc(v, d), Index(v, d)) := s.avail[0]], v, d, flags)
  {
    var l, i := PathLoc(v, d), Index(v, d);
    assert s.avail[0] in s.avail;
    EntryFrame(s.avail[0], flags);
    EntryFlags(s.avail[0], flags);
    var s1, at1 := Made(s, at, l, i, flags), at[Under(l, i) := s.avail[0]];
    forall w: nat, k: nat | w < USER_END && k < 4
      ensures if k == d && SameEntry(v, w, d) then FilledIn(EntryAt(s, at, w, k), EntryAt(s1, at1, w, k), flags)
        else EntryAt(s1, at1, w, k) == EntryAt(s, at, w, k)
    {
      MadeEntryAt(s, at, l, i, flags, w, k);
      PathDepth(w, k);
      SameEntryPath(v, w, d);
    }
  }

  lemma EntryFlags(f: nat, flags: nat)
    requires flags < PAGE
    ensures (f * PAGE + flags) % 0x1000 == flags
  {
  }

  /** A table with a table below it is not empty. */
  lemma FilledUnder(s: Mmu, at: Atlas, l: Loc, i: nat)
    requires TreeBut(s, at, l) && l in at && Under(l, i) in at
    ensures TreeBut(s, at, Top)
  {
    assert FrameOf(0) == 0;
    assert HungAt(s, at, Under(l, i));
    assert Have(s.tables[at[l]][i]);
  }

  /** Freeing the table just made restores the tables, the lists and the stock. */
  lemma FreeUndoesMake(s: Mmu, at: Atlas, l: Loc, i: nat, flags: nat)
    requires Placed(s, at) && Stocked(s) && Levels(s) && s.avail != [] && l in at && Depth(l) < 3
    requires i < ENTRIES && flags < PAGE && Entry(s, at[l], i) == 0
    ensures SetEntry(DelTable(Made(s, at, l, i, flags), Depth(l) + 1, s.avail[0]), at[l], i, 0) == s
  {
    var f, t, d := s.avail[0], at[l], Depth(l) + 1;
    var s1 := Made(s, at, l, i, flags);
    var s2 := SetEntry(DelTable(s1, d, f), t, i, 0);
    assert s1.dirs[d] == [f] + s.dirs[d];
    assert s2.dirs == s.dirs && s2.nrs == s.nrs && s2.avail == s.avail;
    TablesRestored(s, at, l, i, flags, s1, s2);
  }

  lemma TablesRestored(s: Mmu, at: Atlas, l: Loc, i: nat, flags: nat, s1: Mmu, s2: Mmu)
    requires Placed(s, at) && Stocked(s) && Levels(s) && s.avail != [] && l in at && Depth(l) < 3
    requires i < ENTRIES && flags < PAGE && Entry(s, at[l], i) == 0 && s1 == Made(s, at, l, i, flags)
    requires s2 == SetEntry(DelTable(s1, Depth(l) + 1, s.avail[0]), at[l], i, 0)
    ensures s2.tables == s.tables
  {
    MadeEntries(s, at, l, i, flags);
    assert s.avail[0] in s.avail;
    assert s2.tables[at[l]] == s.tables[at[l]];
  }

  /** The table just made is empty, listed and hangs in its entry. */
  lemma MadeEmpty(s: Mmu, at: Atlas, l: Loc, i: nat, flags: nat)
    requires Placed(s, at) && Stocked(s) && Levels(s) && s.avail != [] && l in at && Depth(l) < 3
    requires i < ENTRIES && flags < PAGE && Entry(s, at[l], i) == 0
    ensures var s1, f := Made(s, at, l, i, flags), s.avail[0];
      f != 0 && FrameOf(Entry(s1, at[l], i)) == f && f in s1.dirs[Depth(l) + 1] && f in s1.tables && AllZero(s1.tables[f])
  {
    MadeEntries(s, at, l, i, flags);
    assert s.avail[0] in s.avail;
    EntryFrame(s.avail[0], flags);
  }

  /** Pruning right after a step down gives back exactly the table that step made. */
  lemma PruneUndoesDescend(s: Mmu, at: Atlas, v: nat, d: nat, flags: nat)
    requires d < 3 && v < USER_END && TreeBut(s, at, PathLoc(v, d)) && PathLoc(v, d) in at && flags < PAGE
    ensures Prune(Descend(s, at[PathLoc(v, d)], v, d, flags).0, at[PathLoc(v, d)], v, d) == s
  {
    var l, i := PathLoc(v, d), Index(v, d);
    ChildPlaced(s, at, l, v, d);
    PathDepth(v, d);
    if Under(l, i) !in at && s.avail != [] {
      FreeUndoesMake(s, at, l, i, flags);
      MadeEmpty(s, at, l, i, flags);
    }
  }

  /** A walk that runs out of frames leaves everything as it was. */
  lemma {:induction false} MapFails(s: Mmu, at: Atlas, v: nat, d: nat, e: nat, flags: nat)
    requires d < 4 && v < USER_END && TreeBut(s, at, PathLoc(v, d)) && PathLoc(v, d) in at && flags < PAGE
    requires !MapFrom(s, at[PathLoc(v, d)], d, v, e, flags).1
    ensures MapFrom(s, at[PathLoc(v, d)], d, v, e, flags).0 == s
    decreases 4 - d
  {
    if d < 3 {
      PruneUndoesDescend(s, at, v, d, flags);
      var (s1, c) := Descend(s, at[PathLoc(v, d)], v, d, flags);
      if c != 0 {
        var at1 := DescendKeeps(s, at, v, d, flags);
        MapFails(s1, at1, v, d + 1, e, flags);
      }
    }
  }

  /** Only the entry of the page of v differs, and is e. */
  ghost predicate LeafOnly(s: Mmu, at: Atlas, s1: Mmu, v: nat, e: nat) {
    forall w: nat, k: nat :: w < USER_END && k < 4 ==>
      EntryAt(s1, at, w, k) == if k == 3 && SameEntry(v, w, 3) then e else EntryAt(s, at, w, k)
  }

  lemma LeafRemaps(s: Mmu, at: Atlas, v: nat, e: nat)
    requires Placed(s, at) && PathLoc(v, 3) in at && v < USER_END
    ensures LeafOnly(s, at, SetEntry(s, at[PathLoc(v, 3)], Index(v, 3), e), v, e)
    ensures SameAbove(s, at, SetEntry(s, at[PathLoc(v, 3)], Index(v, 3), e), at, 3)
  {
    PathDepth(v, 3);
    LeafEntries(s, at, PathLoc(v, 3), Index(v, 3), e);
    forall w: nat, k: nat | w < USER_END && k < 4
      ensures EntryAt(SetEntry(s, at[PathLoc(v, 3)], Index(v, 3), e), at, w, k) ==
                if k == 3 && SameEntry(v, w, 3) then e else EntryAt(s, at, w, k)
    {
      LeafEntryAt(s, at, v, e, w, k);
    }
  }

  /** The recursion equations of the two walks. */
  lemma MapStep(s: Mmu, t: nat, d: nat, v: nat, e: nat, flags: nat)
    requires Levels(s) && d < 3 && MapFrom(s, t, d, v, e, flags).1
    ensures var (s1, c) := Descend(s, t, v, d, flags);
      c != 0 && MapFrom(s1, c, d + 1, v, e, flags).1
      && MapFrom(s, t, d, v, e, flags).0 == MapFrom(s1, c, d + 1, v, e, flags).0
  {
  }

  lemma UnmapStep(s: Mmu, t: nat, d: nat, v: nat, c: nat, s1: Mmu, f: nat)
    requires Levels(s) && d < 3 && c == Child(s, t, v, d) != 0 && UnmapFrom(s, c, d + 1, v) == (s1, f)
    ensures UnmapFrom(s, t, d, v) == (Prune(s1, t, v, d), f)
  {
  }

  /** s1 is s with e written to the page of v and the tables from level d on made for it. */
  ghost predicate Mapped(s: Mmu, at: Atlas, s1: Mmu, at1: Atlas, v: nat, d: nat, flags: nat, e: nat) {
    TreeBut(s1, at1, Top) && Grown(s, at, s1, at1, v, d, flags, e) && SameAbove(s, at, s1, at1, d)
  }

  /** One entry filled in, then those below it. */
  lemma ThenGrown(s: Mmu, at: Atlas, s0: Mmu, at0: Atlas, s1: Mmu, at1: Atlas, v: nat, d: nat, flags: nat, e: nat)
    requires d < 3 && Joined(s, at, s0, at0, v, d, flags) && Grown(s0, at0, s1, at1, v, d + 1, flags, e)
    ensures Grown(s, at, s1, at1, v, d, flags, e)
  {
    forall w: nat, k: nat | w < USER_END && k < 4
      ensures if k < d || !SameEntry(v, w, k) then EntryAt(s1, at1, w, k) == EntryAt(s, at, w, k)
        else if k == 3 then EntryAt(s1, at1, w, k) == e
        else FilledIn(EntryAt(s, at, w, k), EntryAt(s1, at1, w, k), flags)
    {
      assert k != d ==> EntryAt(s0, at0, w, k) == EntryAt(s, at, w, k);
    }
  }

  lemma ThenMapped(s: Mmu, at: Atlas, s0: Mmu, at0: Atlas, s1: Mmu, at1: Atlas, v: nat, d: nat, flags: nat, e: nat)
    requires d < 3 && Joined(s, at, s0, at0, v, d, flags) && SameAbove(s, at, s0, at0, d)
    requires Mapped(s0, at0, s1, at1, v, d + 1, flags, e)
    ensures Mapped(s, at, s1, at1, v, d, flags, e)
  {
    ThenGrown(s, at, s0, at0, s1, at1, v, d, flags, e);
  }

  lemma LeafChanged(s: Mmu, at: Atlas, v: nat, e: nat, hole: Loc)
    requires v < USER_END && TreeBut(s, at, PathLoc(v, 3)) && PathLoc(v, 3) in at && (e == 0 || Have(e))
    requires hole == if e == 0 then PathLoc(v, 3) else Top
    ensures var s1 := SetEntry(s, at[PathLoc(v, 3)], Index(v, 3), e);
      TreeBut(s1, at, hole) && LeafOnly(s, at, s1, v, e) && SameAbove(s, at, s1, at, 3)
  {
    PathDepth(v, 3);
    LeafTree(s, at, PathLoc(v, 3), hole, Index(v, 3), e);
    LeafRemaps(s, at, v, e);
  }

  lemma {:induction false} MapSucceeds(s: Mmu, at: Atlas, v: nat, d: nat, f: nat, flags: nat, s1: Mmu)
    returns (at1: Atlas)
    requires d < 4 && v < USER_END && TreeBut(s, at, PathLoc(v, d)) && PathLoc(v, d) in at
    requires 0 < f < FRAMES && flags < PAGE
    requires MapFrom(s, at[PathLoc(v, d)], d, v, f * PAGE + flags, flags) == (s1, true)
    ensures Mapped(s, at, s1, at1, v, d, flags, f * PAGE + flags)
    decreases 4 - d
  {
    if d == 3 {
      at1 := at;
      EntryFrame(f, flags);
      LeafChanged(s, at, v, f * PAGE + flags, Top);
    } else {
      MapStep(s, at[PathLoc(v, d)], d, v, f * PAGE + flags, flags);
      var s0 := Descend(s, at[PathLoc(v, d)], v, d, flags).0;
      var at0 := DescendKeeps(s, at, v, d, flags);
      at1 := MapSucceeds(s0, at0, v, d + 1, f, flags, s1);
      ThenMapped(s, at, s0, at0, s1, at1, v, d, flags, f * PAGE + flags);
    }
  }

  /** Tables missing on the walk of v from table t of level d on. */
  function Missing(s: Mmu, t: nat, d: nat, v: nat): nat
    requires d < 4
    decreases 4 - d, t
  {
    if d == 3 then 0
    else if Child(s, t, v, d) == 0 then 3 - d
    else Missing(s, Child(s, t, v, d), d + 1, v)
  }

  /** A new table has everything below it still missing. */
  lemma MissingBelowNew(s: Mmu, t: nat, d: nat, v: nat)
    requires d < 4 && t in s.tables && AllZero(s.tables[t])
    ensures Missing(s, t, d, v) == 3 - d
  {
    assert FrameOf(0) == 0;
  }

  lemma {:induction false} MapNeeds(s: Mmu, at: Atlas, v: nat, d: nat, e: nat, flags: nat)
    requires d < 4 && v < USER_END && TreeBut(s, at, PathLoc(v, d)) && PathLoc(v, d) in at && flags < PAGE
    ensures MapFrom(s, at[PathLoc(v, d)], d, v, e, flags).1 <==> |s.avail| >= Missing(s, at[PathLoc(v, d)], d, v)
    decreases 4 - d
  {
    if d < 3 {
      var (s1, c) := Descend(s, at[PathLoc(v, d)], v, d, flags);
      ChildPlaced(s, at, PathLoc(v, d), v, d);
      PathDepth(v, d);
      assert s.avail != [] ==> s.avail[0] in s.avail;
      if c != 0 {
        var at1 := DescendKeeps(s, at, v, d, flags);
        MapNeeds(s1, at1, v, d + 1, e, flags);
        if PathLoc(v, d + 1) !in at {
          MadeEntries(s, at, PathLoc(v, d), Index(v, d), flags);
          MissingBelowNew(s1, c, d + 1, v);
        }
      }
    }
  }

  /**
    Every entry the walk of w meets, page by page and level by level: the page of v has the entry e,
    the entries that led nowhere on the walk of v now lead to tables and carry the flags, and no other
    entry has changed.
  */
  ghost predicate MapsOnly(s: Mmu, s1: Mmu, v: nat, flags: nat, e: nat) {
    forall w: nat, k: nat :: w < USER_END && k < 4 ==>
      if !SameEntry(v, w, k) then EntryOf(s1, w, k) == EntryOf(s, w, k)
      else if k == 3 then EntryOf(s1, w, k) == e
      else FilledIn(EntryOf(s, w, k), EntryOf(s1, w, k), flags)
  }

  lemma GrownMapsOnly(s: Mmu, at: Atlas, s1: Mmu, at1: Atlas, v: nat, flags: nat, e: nat)
    requires Tree(s, at) && Tree(s1, at1) && Grown(s, at, s1, at1, v, 0, flags, e)
    ensures MapsOnly(s, s1, v, flags, e)
  {
    forall w: nat, k: nat | w < USER_END && k < 4
      ensures EntryOf(s, w, k) == EntryAt(s, at, w, k) && EntryOf(s1, w, k) == EntryAt(s1, at1, w, k)
    {
      EntryOfIsAt(s, at, w, k);
      EntryOfIsAt(s1, at1, w, k);
    }
  }

  lemma TranslatesRemapped(s: Mmu, at: Atlas, s1: Mmu, at1: Atlas, v: nat, f: nat, flags: nat)
    requires Tree(s, at) && Tree(s1, at1) && Grown(s, at, s1, at1, v, 0, flags, f * PAGE + flags)
    requires f < FRAMES && flags < PAGE
    ensures forall w: nat :: w < USER_END ==> Translate(s1, w) == if v / PAGE == w / PAGE then f else Translate(s, w)
  {
    forall w: nat | w < USER_END
      ensures Translate(s1, w) == if v / PAGE == w / PAGE then f else Translate(s, w)
    {
      TranslateIsMaps(s, at, w);
      TranslateIsMaps(s1, at1, w);
      EntryFrame(f, flags);
      assert EntryAt(s1, at1, w, 3) == if SameEntry(v, w, 3) then f * PAGE + flags else EntryAt(s, at, w, 3);
    }
  }

  /**
    `hal_mmu_transform` succeeds exactly when the page allocator can supply the missing tables. It
    then writes the frame and the flags to the entry of that page, gives the same flags to the
    entries of the tables it makes, and changes no other entry; otherwise it changes nothing at all.
  */
  lemma TransformMapsOnePage(s: Mmu, at: Atlas, v: nat, f: nat, flags: nat) returns (at1: Atlas)
    requires Tree(s, at) && v < USER_END && 0 < f < 0x100_0000_0000 && flags < 0x1000
    ensures var (s1, ok) := Transform(s, v, f, flags);
      && (ok <==> |s.avail| >= Missing(s, s.root, 0, v))
      && Tree(s1, at1)
      && (!ok ==> s1 == s && at1 == at)
      && (ok ==> MapsOnly(s, s1, v, flags, f * 0x1000 + flags))
      && (ok ==> forall w: nat :: w < USER_END ==>
            Translate(s1, w) == if v / PAGE == w / PAGE then f else Translate(s, w))
  {
    var (s1, ok) := Transform(s, v, f, flags);
    assert PathLoc(v, 0) == Top;
    MapNeeds(s, at, v, 0, f * PAGE + flags, flags);
    if ok {
      at1 := MapSucceeds(s, at, v, 0, f, flags, s1);
      GrownMapsOnly(s, at, s1, at1, v, flags, f * PAGE + flags);
      TranslatesRemapped(s, at, s1, at1, v, f, flags);
    } else {
      at1 := at;
      MapFails(s, at, v, 0, f * PAGE + flags, flags);
    }
  }

  // ---------- unmapping ----------

  /** The tables of levels up to d are where they were. */
  ghost predicate SamePlaces(at: Atlas, at1: Atlas, d: nat) {
    forall l :: l in at && Depth(l) <= d ==> l in at1 && at1[l] == at[l]
  }

  /** One entry of level d, on the walk of v, was perhaps cleared; all others are as they were. */
  ghost predicate Pruned(s: Mmu, at: Atlas, s1: Mmu, at1: Atlas, v: nat, d: nat)
    requires d < 4
  {
    forall w: nat, k: nat :: w < USER_END && k < 4 ==>
      EntryAt(s1, at1, w, k) == EntryAt(s, at, w, k) || (k == d && SameEntry(v, w, d) && EntryAt(s1, at1, w, k) == 0)
  }

  lemma FreedPrunes(s: Mmu, at: Atlas, v: nat, d: nat)
    requires d < 3 && v < USER_END && Placed(s, at) && Hung(s, at) && Levels(s) && PathLoc(v, d) in at
    requires PathLoc(v, d + 1) in at && AllZero(s.tables[at[PathLoc(v, d + 1)]])
    ensures Pruned(s, at, Freed(s, at, PathLoc(v, d + 1)), at - {PathLoc(v, d + 1)}, v, d)
  {
    var m := PathLoc(v, d + 1);
    forall w: nat, k: nat | w < USER_END && k < 4
      ensures var e := EntryAt(Freed(s, at, m), at - {m}, w, k);
        e == EntryAt(s, at, w, k) || (k == d && SameEntry(v, w, d) && e == 0)
    {
      FreedEntryAt(s, at, m, w, k);
      PathDepth(v, d);
      PathDepth(w, k);
      SameEntryPath(v, w, d);
    }
  }

  /** Pruning above a table that may have become empty. */
  lemma PruneKeeps(s: Mmu, at: Atlas, v: nat, d: nat) returns (at1: Atlas)
    requires d < 3 && v < USER_END && TreeBut(s, at, PathLoc(v, d + 1)) && PathLoc(v, d + 1) in at
    ensures PathLoc(v, d) in at && SamePlaces(at, at1, d)
    ensures var s1 := Prune(s, at[PathLoc(v, d)], v, d);
      TreeBut(s1, at1, PathLoc(v, d)) && Pruned(s, at, s1, at1, v, d) && SameAbove(s, at, s1, at1, d)
  {
    PathDepth(v, d);
    var m := PathLoc(v, d + 1);
    PathDepth(v, d + 1);
    assert m == Under(PathLoc(v, d), Index(v, d)) && HungAt(s, at, m);
    ChildPlaced(s, at, m, v, d);
    assert at[m] in s.dirs[d + 1];
    if AllZero(s.tables[at[m]]) {
      at1 := at - {m};
      FreedTree(s, at, m);
      FreedEntries(s, at, m);
      assert Prune(s, at[PathLoc(v, d)], v, d) == Freed(s, at, m);
      FreedPrunes(s, at, v, d);
    } else {
      at1 := at;
    }
  }

  /** s1 is s with the page of v unmapped below level d, where the table may have become empty. */
  ghost predicate Unmapped(s: Mmu, at: Atlas, s1: Mmu, at1: Atlas, v: nat, d: nat)
    requires d < 4
  {
    && SamePlaces(at, at1, d) && TreeBut(s1, at1, PathLoc(v, d))
    && Shrunk(s, at, s1, at1, v, d) && SameAbove(s, at, s1, at1, d)
  }

  /** Unmapping below level d+1, then pruning at level d. */
  lemma ThenPruned(s: Mmu, at: Atlas, s0: Mmu, at0: Atlas, v: nat, d: nat) returns (at1: Atlas)
    requires d < 3 && v < USER_END && PathLoc(v, d + 1) in at0 && PathLoc(v, d) in at
    requires Unmapped(s, at, s0, at0, v, d + 1)
    ensures Unmapped(s, at, Prune(s0, at[PathLoc(v, d)], v, d), at1, v, d)
  {
    PathDepth(v, d);
    at1 := PruneKeeps(s0, at0, v, d);
    ThenShrunk(s, at, s0, at0, Prune(s0, at[PathLoc(v, d)], v, d), at1, v, d);
  }

  lemma ThenShrunk(s: Mmu, at: Atlas, s0: Mmu, at0: Atlas, s1: Mmu, at1: Atlas, v: nat, d: nat)
    requires d < 3 && Shrunk(s, at, s0, at0, v, d + 1) && Pruned(s0, at0, s1, at1, v, d)
    ensures Shrunk(s, at, s1, at1, v, d)
  {
    forall w: nat, k: nat | w < USER_END && k < 4
      ensures if k < d || !SameEntry(v, w, k) then EntryAt(s1, at1, w, k) == EntryAt(s, at, w, k)
        else EntryAt(s1, at1, w, k) == 0 || (k < 3 && EntryAt(s1, at1, w, k) == EntryAt(s, at, w, k))
    {
      assert k != d ==> EntryAt(s1, at1, w, k) == EntryAt(s0, at0, w, k);
    }
  }

  /** A mapped page has a table below every level of its walk. */
  lemma MappedGoesOn(s: Mmu, at: Atlas, v: nat, d: nat)
    requires d < 3 && v < USER_END && Tree(s, at) && PathLoc(v, d) in at && Maps(s, at, v) != 0
    ensures PathLoc(v, d + 1) in at && at[PathLoc(v, d + 1)] == Child(s, at[PathLoc(v, d)], v, d) != 0
  {
    ChildPlaced(s, at, Top, v, d);
    PathClosed(s, at, v, d + 1, 3);
  }

  lemma LeafUnmapped(s: Mmu, at: Atlas, v: nat, s1: Mmu, f: nat)
    requires v < USER_END && Tree(s, at) && PathLoc(v, 3) in at && Maps(s, at, v) != 0
    requires UnmapFrom(s, at[PathLoc(v, 3)], 3, v) == (s1, f)
    ensures f == Maps(s, at, v) && Unmapped(s, at, s1, at, v, 3)
  {
    UnmapLeaf(s, at[PathLoc(v, 3)], v);
    assert FrameOf(0) == 0;
    LeafChanged(s, at, v, 0, PathLoc(v, 3));
  }

  lemma UnmapLeaf(s: Mmu, t: nat, v: nat)
    requires Levels(s)
    ensures UnmapFrom(s, t, 3, v) ==
      if Child(s, t, v, 3) == 0 then (s, 0) else (SetEntry(s, t, Index(v, 3), 0), Child(s, t, v, 3))
  {
  }

  lemma {:induction false} UnmapKeeps(s: Mmu, at: Atlas, v: nat, d: nat, s1: Mmu, f: nat) returns (at1: Atlas)
    requires d < 4 && v < USER_END && Tree(s, at) && PathLoc(v, d) in at && Maps(s, at, v) != 0
    requires UnmapFrom(s, at[PathLoc(v, d)], d, v) == (s1, f)
    ensures f == Maps(s, at, v) && Unmapped(s, at, s1, at1, v, d)
    decreases 4 - d
  {
    if d == 3 {
      at1 := at;
      LeafUnmapped(s, at, v, s1, f);
    } else {
      MappedGoesOn(s, at, v, d);
      var (s0, g) := UnmapFrom(s, at[PathLoc(v, d + 1)], d + 1, v);
      var at0 := UnmapKeeps(s, at, v, d + 1, s0, g);
      UnmapStep(s, at[PathLoc(v, d)], d, v, at[PathLoc(v, d + 1)], s0, g);
      PathDepth(v, d + 1);
      at1 := ThenPruned(s, at, s0, at0, v, d);
    }
  }

  /** Pruning changes nothing where no table is empty. */
  lemma PruneIdle(s: Mmu, at: Atlas, v: nat, d: nat)
    requires Tree(s, at) && v < USER_END && d < 3 && PathLoc(v, d) in at
    ensures Prune(s, at[PathLoc(v, d)], v, d) == s
  {
    ChildPlaced(s, at, Top, v, d);
  }

  /** Unmapping a page that is not mapped changes nothing. */
  lemma {:induction false} UnmapAbsent(s: Mmu, at: Atlas, v: nat, d: nat)
    requires Tree(s, at) && v < USER_END && d < 4 && PathLoc(v, d) in at && Maps(s, at, v) == 0
    ensures UnmapFrom(s, at[PathLoc(v, d)], d, v) == (s, 0)
    decreases 4 - d
  {
    if d < 3 {
      ChildPlaced(s, at, Top, v, d);
      PruneIdle(s, at, v, d);
      if PathLoc(v, d + 1) in at {
        UnmapAbsent(s, at, v, d + 1);
      }
    }
  }

  /**
    Every entry the walk of w meets, page by page and level by level: that of the page of v is clear,
    those above it are as they were or clear, and no other entry has changed.
  */
  ghost predicate UnmapsOnly(s: Mmu, s1: Mmu, v: nat) {
    forall w: nat, k: nat :: w < USER_END && k < 4 ==>
      if !SameEntry(v, w, k) then EntryOf(s1, w, k) == EntryOf(s, w, k)
      else EntryOf(s1, w, k) == 0 || (k < 3 && EntryOf(s1, w, k) == EntryOf(s, w, k))
  }

  lemma ShrunkUnmapsOnly(s: Mmu, at: Atlas, s1: Mmu, at1: Atlas, v: nat)
    requires Tree(s, at) && Tree(s1, at1) && Shrunk(s, at, s1, at1, v, 0)
    ensures UnmapsOnly(s, s1, v)
  {
    forall w: nat, k: nat | w < USER_END && k < 4
      ensures EntryOf(s, w, k) == EntryAt(s, at, w, k) && EntryOf(s1, w, k) == EntryAt(s1, at1, w, k)
    {
      EntryOfIsAt(s, at, w, k);
      EntryOfIsAt(s1, at1, w, k);
    }
  }

  /** A page without a frame has no entry, so leaving all as it is clears it. */
  lemma AbsentShrunk(s: Mmu, at: Atlas, v: nat)
    requires Tree(s, at) && v < USER_END && Maps(s, at, v) == 0
    ensures Shrunk(s, at, s, at, v, 0)
  {
    forall w: nat | w < USER_END && SameEntry(v, w, 3)
      ensures EntryAt(s, at, w, 3) == 0
    {
      SameEntryPath(v, w, 3);
      UserIndex(v, 3);
      assert PathLoc(v, 3) in at ==> EntryOk(s, at, PathLoc(v, 3), Index(v, 3));
    }
  }

  lemma TranslatesShrunk(s: Mmu, at: Atlas, s1: Mmu, at1: Atlas, v: nat)
    requires Tree(s, at) && Tree(s1, at1) && Shrunk(s, at, s1, at1, v, 0)
    ensures forall w: nat :: w < USER_END ==> Translate(s1, w) == if v / PAGE == w / PAGE then 0 else Translate(s, w)
  {
    assert FrameOf(0) == 0;
    forall w: nat | w < USER_END
      ensures Translate(s1, w) == if v / PAGE == w / PAGE then 0 else Translate(s, w)
    {
      TranslateIsMaps(s, at, w);
      TranslateIsMaps(s1, at1, w);
      assert EntryAt(s1, at1, w, 3) == if SameEntry(v, w, 3) then 0 else EntryAt(s, at, w, 3);
    }
  }

  /** `hal_mmu_untransform` returns the page's frame, clears its entry and changes no entry off its walk. */
  lemma UntransformUnmapsOnePage(s: Mmu, at: Atlas, v: nat) returns (at1: Atlas)
    requires Tree(s, at) && v < USER_END
    ensures var (s1, f) := Untransform(s, v);
      && f == Translate(s, v) && Tree(s1, at1)
      && (f == 0 ==> s1 == s && at1 == at)
      && UnmapsOnly(s, s1, v)
      && (forall w: nat :: w < USER_END ==> Translate(s1, w) == if v / PAGE == w / PAGE then 0 else Translate(s, w))
  {
    var (s1, f) := Untransform(s, v);
    assert PathLoc(v, 0) == Top;
    TranslateIsMaps(s, at, v);
    if Maps(s, at, v) == 0 {
      at1 := at;
      UnmapAbsent(s, at, v, 0);
      AbsentShrunk(s, at, v);
    } else {
      at1 := UnmapKeeps(s, at, v, 0, s1, f);
    }
    ShrunkUnmapsOnly(s, at, s1, at1, v);
    TranslatesShrunk(s, at, s1, at1, v);
  }

  // ---------- round trip ----------

  lemma ClearUndoesWrite(s: Mmu, at: Atlas, l: Loc, i: nat, e: nat)
    requires Placed(s, at) && l in at && i < ENTRIES && Entry(s, at[l], i) == 0
    ensures SetEntry(SetEntry(s, at[l], i, e), at[l], i, 0) == s
  {
    var s1 := SetEntry(SetEntry(s, at[l], i, e), at[l], i, 0);
    assert s1.tables[at[l]] == s.tables[at[l]];
    assert s1.tables == s.tables;
  }

  lemma UnmapUndoesLeaf(s: Mmu, at: Atlas, v: nat, f: nat, flags: nat)
    requires v < USER_END && TreeBut(s, at, PathLoc(v, 3)) && PathLoc(v, 3) in at
    requires 0 < f < FRAMES && flags < PAGE && Maps(s, at, v) == 0
    ensures UnmapFrom(MapFrom(s, at[PathLoc(v, 3)], 3, v, f * PAGE + flags, flags).0, at[PathLoc(v, 3)], 3, v) == (s, f)
  {
    var e := f * PAGE + flags;
    EntryFrame(f, flags);
    PathDepth(v, 3);
    LeafEntries(s, at, PathLoc(v, 3), Index(v, 3), e);
    UserIndex(v, 3);
    assert EntryOk(s, at, PathLoc(v, 3), Index(v, 3));
    ClearUndoesWrite(s, at, PathLoc(v, 3), Index(v, 3), e);
  }

  /** Mapping below level d leaves the entry of level d alone. */
  lemma ChildKept(s: Mmu, at: Atlas, s1: Mmu, at1: Atlas, v: nat, d: nat)
    requires d < 3 && PathLoc(v, d) in at && SameAbove(s, at, s1, at1, d + 1)
    ensures Child(s1, at[PathLoc(v, d)], v, d) == Child(s, at[PathLoc(v, d)], v, d)
  {
    PathDepth(v, d);
  }

  lemma {:induction false} UnmapUndoesMap(s: Mmu, at: Atlas, v: nat, d: nat, f: nat, flags: nat, s2: Mmu)
    requires d < 4 && v < USER_END && TreeBut(s, at, PathLoc(v, d)) && PathLoc(v, d) in at
    requires 0 < f < FRAMES && flags < PAGE && Maps(s, at, v) == 0
    requires MapFrom(s, at[PathLoc(v, d)], d, v, f * PAGE + flags, flags) == (s2, true)
    ensures UnmapFrom(s2, at[PathLoc(v, d)], d, v) == (s, f)
    decreases 4 - d
  {
    if d == 3 {
      UnmapUndoesLeaf(s, at, v, f, flags);
    } else {
      var t, e := at[PathLoc(v, d)], f * PAGE + flags;
      MapStep(s, t, d, v, e, flags);
      var (s1, c) := Descend(s, t, v, d, flags);
      var at0 := DescendKeeps(s, at, v, d, flags);
      UnmapUndoesMap(s1, at0, v, d + 1, f, flags, s2);
      var at1 := MapSucceeds(s1, at0, v, d + 1, f, flags, s2);
      ChildKept(s1, at0, s2, at1, v, d);
      ChildPlaced(s1, at0, PathLoc(v, d + 1), v, d);
      UnmapStep(s2, t, d, v, c, s1, f);
      PruneUndoesDescend(s, at, v, d, flags);
    }
  }

  /**
    Mapping a page that was not mapped and unmapping it again restores every table, list and
    count, and frees just the tables the mapping made.
  */
  lemma UntransformUndoesTransform(s: Mmu, at: Atlas, v: nat, f: nat, flags: nat)
    requires Tree(s, at) && v < USER_END && 0 < f < FRAMES && flags < PAGE
    requires Translate(s, v) == 0 && Transform(s, v, f, flags).1
    ensures Untransform(Transform(s, v, f, flags).0, v) == (s, f)
  {
    assert PathLoc(v, 0) == Top;
    TranslateIsMaps(s, at, v);
    UnmapUndoesMap(s, at, v, 0, f, flags, Transform(s, v, f, flags).0);
  }

  // ---------- the kernel half ----------

  /** The kernel's root entries have not changed. */
  ghost predicate SameKernelHalf(s: Mmu, s1: Mmu) {
    s1.root == s.root && forall i :: 256 <= i < 512 ==> Entry(s1, s.root, i) == Entry(s, s.root, i)
  }

  lemma MappingKeepsKernelHalf(s: Mmu, at: Atlas, v: nat, f: nat, flags: nat)
    requires Tree(s, at) && v < USER_END && 0 < f < FRAMES && flags < PAGE
    ensures SameKernelHalf(s, Transform(s, v, f, flags).0)
  {
    var t := s.root;
    assert PathLoc(v, 0) == Top;
    var (s1, ok) := Transform(s, v, f, flags);
    if ok {
      MapStep(s, t, 0, v, f * PAGE + flags, flags);
      var s0 := Descend(s, t, v, 0, flags).0;
      var at0 := DescendKeeps(s, at, v, 0, flags);
      var at1 := MapSucceeds(s0, at0, v, 1, f, flags, s1);
      DescendKeepsKernelHalf(s, at, v, flags);
      assert s1.tables[at0[Top]] == s0.tables[at0[Top]];
    } else {
      MapFails(s, at, v, 0, f * PAGE + flags, flags);
    }
  }

  lemma DescendKeepsKernelHalf(s: Mmu, at: Atlas, v: nat, flags: nat)
    requires Tree(s, at) && v < USER_END && flags < PAGE
    ensures SameKernelHalf(s, Descend(s, s.root, v, 0, flags).0)
  {
    assert PathLoc(v, 0) == Top;
    UserIndex(v, 0);
    if s.avail != [] {
      MadeEntries(s, at, Top, Index(v, 0), flags);
    }
  }

  lemma PruneKeepsKernelHalf(s: Mmu, at: Atlas, v: nat)
    requires v < USER_END && TreeBut(s, at, PathLoc(v, 1)) && PathLoc(v, 1) in at
    ensures SameKernelHalf(s, Prune(s, s.root, v, 0))
  {
    assert PathLoc(v, 0) == Top;
    ChildPlaced(s, at, PathLoc(v, 1), v, 0);
    UserIndex(v, 0);
    PathDepth(v, 1);
    assert at[Top] != at[PathLoc(v, 1)];
  }

  lemma UnmappingKeepsKernelHalf(s: Mmu, at: Atlas, v: nat)
    requires Tree(s, at) && v < USER_END
    ensures SameKernelHalf(s, Untransform(s, v).0)
  {
    assert PathLoc(v, 0) == Top;
    TranslateIsMaps(s, at, v);
    if Maps(s, at, v) == 0 {
      UnmapAbsent(s, at, v, 0);
    } else {
      MappedGoesOn(s, at, v, 0);
      PathDepth(v, 1);
      var (s0, f) := UnmapFrom(s, at[PathLoc(v, 1)], 1, v);
      var at0 := UnmapKeeps(s, at, v, 1, s0, f);
      UnmapStep(s, s.root, 0, v, at[PathLoc(v, 1)], s0, f);
      assert s0.tables[at[Top]] == s.tables[at[Top]];
      PruneKeepsKernelHalf(s0, at0, v);
    }
  }

  // ---------- runs ----------

  datatype Op = MapPage(v: nat, f: nat, flags: nat) | UnmapPage(v: nat)

  predicate Legal(op: Op) {
    op.v < USER_END && (op.MapPage? ==> 0 < op.f < FRAMES && op.flags < PAGE)
  }

  function Apply(s: Mmu, op: Op): (r: Mmu)
    requires Levels(s)
    ensures Levels(r)
  {
    match op
    case MapPage(v, f, flags) => Transform(s, v, f, flags).0
    case UnmapPage(v) => Untransform(s, v).0
  }

  function Run(s: Mmu, ops: seq<Op>): (r: Mmu)
    requires Levels(s)
    ensures Levels(r)
    decreases ops
  {
    if ops == [] then s else Run(Apply(s, ops[0]), ops[1..])
  }

  /** The plain map from page number to frame and flags that the same operations produce. */
  function RunPlain(m: map<nat, (nat, nat)>, s: Mmu, ops: seq<Op>): map<nat, (nat, nat)>
    requires Levels(s)
    decreases ops
  {
    if ops == [] then m else RunPlain(PlainStep(m, s, ops[0]), Apply(s, ops[0]), ops[1..])
  }

  function PlainStep(m: map<nat, (nat, nat)>, s: Mmu, op: Op): map<nat, (nat, nat)> {
    if op.UnmapPage? then m - {op.v / PAGE}
    else if |s.avail| >= Missing(s, s.root, 0, op.v) then m[op.v / PAGE := (op.f, op.flags)]
    else m
  }

  /** Every page has the entry its frame and flags make, or none. */
  ghost predicate Refines(s: Mmu, m: map<nat, (nat, nat)>) {
    forall v: nat :: v < USER_END ==>
      EntryOf(s, v, 3) == if v / PAGE in m then m[v / PAGE].0 * 0x1000 + m[v / PAGE].1 else 0
  }

  lemma StepRefines(s: Mmu, at: Atlas, m: map<nat, (nat, nat)>, op: Op) returns (at1: Atlas)
    requires Tree(s, at) && Refines(s, m) && Legal(op)
    ensures Tree(Apply(s, op), at1) && Refines(Apply(s, op), PlainStep(m, s, op))
  {
    if op.MapPage? {
      at1 := TransformMapsOnePage(s, at, op.v, op.f, op.flags);
    } else {
      at1 := UntransformUnmapsOnePage(s, at, op.v);
    }
    forall v: nat | v < USER_END
      ensures EntryOf(Apply(s, op), v, 3) ==
        var n := PlainStep(m, s, op); if v / PAGE in n then n[v / PAGE].0 * 0x1000 + n[v / PAGE].1 else 0
    {
      assert SameEntry(op.v, v, 3) <==> op.v / PAGE == v / PAGE;
    }
  }

  /** Every run of operations keeps the tree and holds the entries of a plain map from page to frame and flags. */
  lemma {:induction false} RunRefinesPlainMap(s: Mmu, at: Atlas, m: map<nat, (nat, nat)>, ops: seq<Op>)
    returns (at1: Atlas)
    requires Tree(s, at) && Refines(s, m) && forall i :: 0 <= i < |ops| ==> Legal(ops[i])
    ensures Tree(Run(s, ops), at1) && Refines(Run(s, ops), RunPlain(m, s, ops))
    decreases ops
  {
    at1 := at;
    if ops != [] {
      assert Legal(ops[0]);
      var at0 := StepRefines(s, at, m, ops[0]);
      at1 := RunRefinesPlainMap(Apply(s, ops[0]), at0, PlainStep(m, s, ops[0]), ops[1..]);
    }
  }

  /** And it translates every page to the frame the plain map has for it. */
  lemma RefinesTranslates(s: Mmu, at: Atlas, m: map<nat, (nat, nat)>, v: nat)
    requires Tree(s, at) && Refines(s, m) && v < USER_END
    requires v / PAGE in m ==> m[v / PAGE].0 < FRAMES && m[v / PAGE].1 < PAGE
    ensures Translate(s, v) == if v / PAGE in m then m[v / PAGE].0 else 0
  {
    TranslateIsMaps(s, at, v);
    EntryOfIsAt(s, at, v, 3);
    if v / PAGE in m {
      EntryFrame(m[v / PAGE].0, m[v / PAGE].1);
    }
  }
}
