/**
  The four-level page table of an address space. Tables hold 512 entries; level 0 is the root and
  level 3 holds the page frames. The state below is what `mmudsc_t` and the frames it owns amount
  to; every operation is given as a function that the imperative code computes.
*/
module PageTable {
  import opened BitMath
  import opened Sequences

  const ENTRIES: nat := 512
  const USER_ENTRIES: nat := 256      // root entries below the kernel half
  const PAGE: nat := 0x1000
  const FRAMES: nat := 0x100_0000_0000 // a 40-bit frame number
  const USER_END: nat := 0x8000_0000_0000

  /**
    `tables` are the frames that hold page tables, by frame number. `dirs[d]` and `nrs[d]` are the
    list and the count of the tables of level d. `avail` lists the frames the page allocator hands
    out next; giving a frame back puts it in front.
  */
  datatype Mmu = Mmu(root: nat, tables: map<nat, seq<nat>>, dirs: seq<seq<nat>>, nrs: seq<int>, avail: seq<nat>)

  /** `mmu_tdire_index`, `mmu_sdire_index`, `mmu_idire_index` and `mmu_mdire_index`. */
  function Index(v: nat, d: nat): (i: nat)
    requires d < 4
    ensures i < ENTRIES
  {
    v / Shift(d) % ENTRIES
  }

  function Shift(d: nat): nat
    requires d < 4
  {
    if d == 0 then 0x80_0000_0000 else if d == 1 then 0x4000_0000 else if d == 2 then 0x20_0000 else PAGE
  }

  /** The frame-number field of an entry. */
  function FrameOf(e: nat): nat { e / PAGE % FRAMES }

  predicate Have(e: nat) { FrameOf(e) > 0 }

  predicate AllZero(q: seq<nat>) {
    forall i :: 0 <= i < |q| ==> q[i] == 0
  }

  function Zeros(): (q: seq<nat>)
    ensures |q| == ENTRIES && AllZero(q)
  {
    seq(ENTRIES, i => 0)
  }

  function Written(q: seq<nat>, i: nat, e: nat): (r: seq<nat>)
    requires i < |q|
    ensures |r| == |q| && r[i] == e && forall j :: 0 <= j < |q| && j != i ==> r[j] == q[j]
  {
    q[i := e]
  }

  /** Entry i of the table in frame t. */
  function Entry(s: Mmu, t: nat, i: nat): nat {
    if t in s.tables && i < |s.tables[t]| then s.tables[t][i] else 0
  }

  function SetEntry(s: Mmu, t: nat, i: nat, e: nat): Mmu {
    if t in s.tables && i < |s.tables[t]| then s.(tables := s.tables[t := Written(s.tables[t], i, e)]) else s
  }

  /** The table or page frame that the walk of v finds in table t of level d, 0 if none. */
  function Child(s: Mmu, t: nat, v: nat, d: nat): nat
    requires d < 4
  {
    FrameOf(Entry(s, t, Index(v, d)))
  }

  predicate Levels(s: Mmu) { |s.dirs| == |s.nrs| == 4 }

  /** `mmu_new_sdirearr` and its siblings: take a frame and make it an empty table of level d. */
  function NewTable(s: Mmu, d: nat): (t: Mmu)
    requires Levels(s) && s.avail != [] && d < 4
    ensures Levels(t)
  {
    s.(tables := s.tables[s.avail[0] := Zeros()], dirs := s.dirs[d := [s.avail[0]] + s.dirs[d]],
       nrs := s.nrs[d := s.nrs[d] + 1], avail := s.avail[1..])
  }

  /** `mmu_del_sdirearr` and its siblings: give the table in frame f, of level d, back. */
  function DelTable(s: Mmu, d: nat, f: nat): (t: Mmu)
    requires Levels(s) && d < 4
    ensures Levels(t)
  {
    s.(tables := s.tables - {f}, dirs := s.dirs[d := Remove(s.dirs[d], f)],
       nrs := s.nrs[d := s.nrs[d] - 1], avail := [f] + s.avail)
  }

  /** `mmu_transform_sdire` and its siblings: the next table, made if it is missing; 0 on failure. */
  function Descend(s: Mmu, t: nat, v: nat, d: nat, flags: nat): (r: (Mmu, nat))
    requires Levels(s) && d < 3
    ensures Levels(r.0) && r.0.root == s.root
  {
    if Have(Entry(s, t, Index(v, d))) then (s, Child(s, t, v, d))
    else if s.avail == [] then (s, 0)
    else (SetEntry(NewTable(s, d + 1), t, Index(v, d), s.avail[0] * PAGE + flags), s.avail[0])
  }

  /** `mmu_untransform_sdire` and its siblings: free the next table if it has become empty. */
  function Prune(s: Mmu, t: nat, v: nat, d: nat): (r: Mmu)
    requires Levels(s) && d < 3
    ensures Levels(r) && r.root == s.root
  {
    var c := Child(s, t, v, d);
    if c == 0 || (c in s.tables && !AllZero(s.tables[c])) || c !in s.dirs[d + 1] then s
    else SetEntry(DelTable(s, d + 1, c), t, Index(v, d), 0)
  }

  /** The walk of `hal_mmu_transform_core` from table t of level d on, with its roll-back labels. */
  function MapFrom(s: Mmu, t: nat, d: nat, v: nat, e: nat, flags: nat): (r: (Mmu, bool))
    requires Levels(s) && d < 4
    ensures Levels(r.0) && r.0.root == s.root
    decreases 4 - d, t
  {
    if d == 3 then (SetEntry(s, t, Index(v, 3), e), true)
    else
      var (s1, c) := Descend(s, t, v, d, flags);
      if c == 0 then (Prune(s1, t, v, d), false)
      else
        var (s2, ok) := MapFrom(s1, c, d + 1, v, e, flags);
        if ok then (s2, true) else (Prune(s2, t, v, d), false)
  }

  /** The walk of `hal_mmu_untransform_core` from table t of level d on; returns the page's frame. */
  function UnmapFrom(s: Mmu, t: nat, d: nat, v: nat): (r: (Mmu, nat))
    requires Levels(s) && d < 4
    ensures Levels(r.0) && r.0.root == s.root
    decreases 4 - d, t
  {
    var c := Child(s, t, v, d);
    if c == 0 then (s, 0)
    else if d == 3 then (SetEntry(s, t, Index(v, 3), 0), c)
    else
      var (s1, f) := UnmapFrom(s, c, d + 1, v);
      (Prune(s1, t, v, d), f)
  }

  /** The walk of `hal_mmu_virtophy`. */
  function WalkFrom(s: Mmu, t: nat, d: nat, v: nat): nat
    requires d < 4
    decreases 4 - d, t
  {
    var c := Child(s, t, v, d);
    if c == 0 || d == 3 then c else WalkFrom(s, c, d + 1, v)
  }

  /** `hal_mmu_transform`: map the page of v to frame f. */
  function Transform(s: Mmu, v: nat, f: nat, flags: nat): (r: (Mmu, bool))
    requires Levels(s)
    ensures Levels(r.0) && r.0.root == s.root
  {
    MapFrom(s, s.root, 0, v, f * PAGE + flags, flags)
  }

  /** `hal_mmu_untransform`: unmap the page of v. */
  function Untransform(s: Mmu, v: nat): (r: (Mmu, nat))
    requires Levels(s)
    ensures Levels(r.0) && r.0.root == s.root
  {
    UnmapFrom(s, s.root, 0, v)
  }

  /** `hal_mmu_virtophy`: the frame the page of v is mapped to, 0 if none. */
  function Translate(s: Mmu, v: nat): nat {
    WalkFrom(s, s.root, 0, v)
  }

  /**
    The entry, flags and all, that the walk of v from table t of level k on meets at level d; 0 if
    the walk ends before.
  */
  function EntryFrom(s: Mmu, t: nat, k: nat, v: nat, d: nat): nat
    requires k <= d < 4
    decreases d - k, t
  {
    var e := Entry(s, t, Index(v, k));
    if k == d then e else if !Have(e) then 0 else EntryFrom(s, FrameOf(e), k + 1, v, d)
  }

  /** The entry of level d on the walk of v. */
  function EntryOf(s: Mmu, v: nat, d: nat): nat
    requires d < 4
  {
    EntryFrom(s, s.root, 0, v, d)
  }

  /** The walks of v and w meet at the same entry of level d. */
  predicate SameEntry(v: nat, w: nat, d: nat)
    requires d < 4
  {
    v / Shift(d) == w / Shift(d)
  }

  // ---------- the tree ----------

  /** Where a table hangs: the root, or entry idx of the table at parent. */
  datatype Loc = Top | Under(parent: Loc, idx: nat)

  function Depth(l: Loc): nat { if l.Top? then 0 else 1 + Depth(l.parent) }

  /** The location the walk of v reaches at level d. */
  function PathLoc(v: nat, d: nat): Loc
    requires d < 4
  {
    if d == 0 then Top else Under(PathLoc(v, d - 1), Index(v, d - 1))
  }

  /** Entries of the root from 256 on are the kernel's and not part of the tree. */
  function Limit(l: Loc): nat { if l.Top? then USER_ENTRIES else ENTRIES }

  type Atlas = map<Loc, nat>

  /** Every location names its own table. */
  ghost predicate Placed(s: Mmu, at: Atlas) {
    && Top in at && at[Top] == s.root
    && (forall l :: l in at ==> Depth(l) < 4 && 0 < at[l] < FRAMES && at[l] in s.tables && |s.tables[at[l]]| == ENTRIES)
    && (forall l, m :: l in at && m in at && at[l] == at[m] ==> l == m)
  }

  ghost predicate HungAt(s: Mmu, at: Atlas, l: Loc)
    requires l in at
  {
    l.Under? ==> l.parent in at && l.idx < Limit(l.parent) && FrameOf(Entry(s, at[l.parent], l.idx)) == at[l]
  }

  /** Every table but the root hangs in the entry its location says. */
  ghost predicate Hung(s: Mmu, at: Atlas) {
    forall l {:trigger HungAt(s, at, l)} :: l in at ==> HungAt(s, at, l)
  }

  ghost predicate EntryOk(s: Mmu, at: Atlas, l: Loc, i: nat)
    requires l in at
  {
    var e := Entry(s, at[l], i);
    (Have(e) && (Depth(l) < 3 ==> Under(l, i) in at)) || e == 0
  }

  /** Every entry is zero or leads to a table or page. */
  ghost predicate Rooted(s: Mmu, at: Atlas) {
    forall l, i: nat :: l in at && i < Limit(l) ==> EntryOk(s, at, l, i)
  }

  /** No table is empty, except the root and perhaps the one at hole. */
  ghost predicate Filled(s: Mmu, at: Atlas, hole: Loc) {
    forall l :: l in at && l.Under? && l != hole ==> at[l] in s.tables && !AllZero(s.tables[at[l]])
  }

  ghost predicate TableAt(at: Atlas, l: Loc, f: nat, d: nat) {
    l in at && at[l] == f && Depth(l) == d
  }

  /** q lists exactly the tables of level d, each once, and n counts them. */
  ghost predicate LevelListed(q: seq<nat>, n: int, at: Atlas, d: nat) {
    && Distinct(q) && n == |q|
    && (forall l :: l in at && Depth(l) == d ==> at[l] in q)
    && (forall f :: f in q ==> exists l :: TableAt(at, l, f, d))
  }

  ghost predicate Listed(s: Mmu, at: Atlas) {
    Levels(s) && forall d :: 0 <= d < 4 ==> LevelListed(s.dirs[d], s.nrs[d], at, d)
  }

  /** The frames still to be handed out are fresh. */
  ghost predicate Stocked(s: Mmu) {
    Distinct(s.avail) && forall f :: f in s.avail ==> 0 < f < FRAMES && f !in s.tables
  }

  ghost predicate TreeBut(s: Mmu, at: Atlas, hole: Loc) {
    Placed(s, at) && Hung(s, at) && Rooted(s, at) && Filled(s, at, hole) && Listed(s, at) && Stocked(s)
  }

  /** A tree of tables, none of them empty but perhaps the root. */
  ghost predicate Tree(s: Mmu, at: Atlas) { TreeBut(s, at, Top) }

  /** The entry of level d on the walk of v in the tree, 0 if the walk ends before. */
  ghost function EntryAt(s: Mmu, at: Atlas, v: nat, d: nat): nat
    requires d < 4
  {
    if PathLoc(v, d) in at then Entry(s, at[PathLoc(v, d)], Index(v, d)) else 0
  }

  /** The frame the tree maps the page of v to, 0 if none. */
  ghost function Maps(s: Mmu, at: Atlas, v: nat): nat {
    FrameOf(EntryAt(s, at, v, 3))
  }
}
