/**
  What the addresses of a process carry: the limits, kind, file and flags of the region they lie in,
  and how requests and deletions change that, address by address.
*/
module RegionsTraits {
  import opened Regions
  import opened RegionsTheorems

  datatype Carried = Nothing | Carries(traits: Traits)

  function Of(r: Region): Traits { Traits(r.limits, r.kind, r.file, r.flags) }

  /** What address a carries. */
  ghost function At(q: seq<Region>, a: nat): Carried {
    if exists i :: 0 <= i < |q| && Holds(q[i], a) then
      var i :| 0 <= i < |q| && Holds(q[i], a);
      Carries(Of(q[i]))
    else Nothing
  }

  lemma AtIs(q: seq<Region>, i: nat, a: nat)
    requires Ordered(q) && i < |q| && Holds(q[i], a)
    ensures At(q, a) == Carries(Of(q[i]))
  {
    var j :| 0 <= j < |q| && Holds(q[j], a) && At(q, a) == Carries(Of(q[j]));
    HolderUnique(q, i, j, a);
  }

  lemma AtNothing(q: seq<Region>, a: nat)
    requires !Covered(q, a)
    ensures At(q, a) == Nothing
  {
  }

  /** Every region but those named passes on unchanged from q to p. */
  lemma AtKept(q: seq<Region>, i: nat, p: seq<Region>, j: nat, a: nat)
    requires Ordered(q) && Ordered(p) && i < |q| && j < |p| && Holds(q[i], a) && Holds(p[j], a) && Of(q[i]) == Of(p[j])
    ensures At(p, a) == At(q, a)
  {
    AtIs(q, i, a);
    AtIs(p, j, a);
  }

  // ---------- requests ----------

  /**
    What a grant carries: what was asked for, except that without a file a region that ends where
    the grant starts and has the limits and kind asked for just grows, file and flags included.
  */
  ghost function Granting(q: seq<Region>, address: nat, t: Traits): Traits {
    if address > 0 && t.file == 0 && At(q, address - 1).Carries?
       && At(q, address - 1).traits.limits == t.limits && At(q, address - 1).traits.kind == t.kind
    then At(q, address - 1).traits
    else t
  }

  /** What address a carries after a grant. */
  ghost function AfterNew(q: seq<Region>, address: nat, z: nat, t: Traits, a: nat): Carried {
    if address != 0 && address <= a < address + z then Carries(Granting(q, address, t)) else At(q, a)
  }

  lemma ExtendCarries(q: seq<Region>, k: nat, size: nat, a: nat)
    requires Ordered(q) && k < |q| && size > 0
    requires q[k].end + size <= if k + 1 < |q| then q[k + 1].start else ALLOC_END
    ensures At(q[k := q[k].(end := q[k].end + size)], a) ==
      if q[k].end <= a < q[k].end + size then Carries(Of(q[k])) else At(q, a)
  {
    var p := q[k := q[k].(end := q[k].end + size)];
    ExtendKeeps(q, k, size);
    if q[k].end <= a < q[k].end + size {
      AtIs(p, k, a);
    } else if i :| 0 <= i < |q| && Holds(q[i], a) {
      AtKept(q, i, p, i, a);
    } else {
      assert !Covered(q, a);
      AtNothing(q, a);
      AtNothing(p, a);
    }
  }

  lemma InsertCarries(q: seq<Region>, k: nat, r: Region, a: nat)
    requires Ordered(q) && k < |q| && q[k].end <= r.start < r.end
    requires r.end <= if k + 1 < |q| then q[k + 1].start else ALLOC_END
    ensures At(q[..k + 1] + [r] + q[k + 1..], a) == if Holds(r, a) then Carries(Of(r)) else At(q, a)
  {
    var p := q[..k + 1] + [r] + q[k + 1..];
    InsertKeeps(q, k, r);
    if Holds(r, a) {
      AtIs(p, k + 1, a);
    } else if i :| 0 <= i < |q| && Holds(q[i], a) {
      AtKept(q, i, p, if i <= k then i else i + 1, a);
    } else {
      assert !Covered(q, a);
      AtNothing(q, a);
      AtNothing(p, a);
    }
  }

  /** The address before a grant behind region k is covered exactly if the grant starts where k ends. */
  lemma BeforeGrant(q: seq<Region>, k: nat, s: nat)
    requires Ordered(q) && k < |q| && q[k].end <= s && (k + 1 < |q| ==> s < q[k + 1].start)
    ensures At(q, s - 1) == if s == q[k].end then Carries(Of(q[k])) else Nothing
  {
    if s == q[k].end {
      AtIs(q, k, s - 1);
    } else {
      assert forall i :: 0 <= i < |q| ==> if i <= k then q[i].end <= q[k].end else q[i].start >= q[k + 1].start;
      AtNothing(q, s - 1);
    }
  }

  lemma PlaceCarries(q: seq<Region>, hint: int, k: nat, start: nat, size: nat, t: Traits, node: bool, s: nat, a: nat)
    requires Ordered(q) && HintOk(q, hint) && k < |q| && size > 0
    requires s == (if start == 0 then q[k].end else start) && PAGE <= q[k].end <= s && Add64(s, size) == s + size
    requires s + size <= if k + 1 < |q| then q[k + 1].start else ALLOC_END
    ensures At(Place(q, hint, k, start, size, t, node).regions, a) ==
      AfterNew(q, Place(q, hint, k, start, size, t, node).address, size, t, a)
  {
    BeforeGrant(q, k, s);
    if (start == 0 || start == q[k].end) && Alike(q[k], t) {
      ExtendCarries(q, k, size, a);
    } else if node {
      InsertCarries(q, k, Region(s, s + size, t.limits, t.kind, t.file, t.flags), a);
    }
  }

  /**
    `vma_new_vadrs`: every granted address carries what was asked for, or what the region carries
    that grew; every other address carries what it did.
  */
  lemma NewCarries(q: seq<Region>, hint: int, start: nat, size: nat, t: Traits, node: bool, a: nat)
    requires Ordered(q) && HintOk(q, hint) && 1 <= size <= ALLOC_END && start + Align(size) < TWO64
    ensures var g := New(q, hint, start, size, t, node);
      At(g.regions, a) == AfterNew(q, g.address, Align(size), t, a)
  {
    AlignBounds(size);
    var z := Align(size);
    var k := FindGap(q, hint, start, z);
    if Acceptable(start, size) && k >= 0 {
      GapHasRoom(q, hint, start, z);
      FitIsRoom(q, k, start, z);
      PlaceCarries(q, hint, k, start, z, t, node, if start == 0 then q[k].end else start, a);
    }
  }

  /** After a grant the hint is the region the grant lies in. */
  lemma NewHints(q: seq<Region>, hint: int, start: nat, size: nat, t: Traits, node: bool)
    requires Ordered(q) && HintOk(q, hint) && 1 <= size <= ALLOC_END && start + Align(size) < TWO64
    ensures var g := New(q, hint, start, size, t, node);
      if g.address == 0 then g.hint == hint else 0 <= g.hint < |g.regions| && Holds(g.regions[g.hint], g.address)
  {
    AlignBounds(size);
    var k := FindGap(q, hint, start, Align(size));
    if Acceptable(start, size) && k >= 0 {
      GapHasRoom(q, hint, start, Align(size));
      FitIsRoom(q, k, start, Align(size));
    }
  }

  /** A request for a file gets the file, the limits, the kind and the flags asked for. */
  lemma FileIsMapped(q: seq<Region>, hint: int, start: nat, size: nat, t: Traits, node: bool, a: nat)
    requires Ordered(q) && HintOk(q, hint) && 1 <= size <= ALLOC_END && start + Align(size) < TWO64 && t.file != 0
    ensures var g := New(q, hint, start, size, t, node);
      g.address != 0 && g.address <= a < g.address + Align(size) ==> At(g.regions, a) == Carries(t)
  {
    NewCarries(q, hint, start, size, t, node, a);
  }

  /** A request without a file, granted behind a mapped file, carries the file. */
  lemma GrowsFileExample()
    ensures var q := [Region(0x1000, 0x2000, 0, 0, 7, 0)];
      Ordered(q) && At(New(q, -1, 0, 0x1000, Traits(0, 0, 0, 0), true).regions, 0x2000) == Carries(Traits(0, 0, 7, 0))
  {
    var q := [Region(0x1000, 0x2000, 0, 0, 7, 0)];
    assert Align(0x1000) == 0x1000;
    assert FitsAfter(q, 0, 0, 0x1000);
    NewCarries(q, -1, 0, 0x1000, Traits(0, 0, 0, 0), true, 0x2000);
    AtIs(q, 0, 0x1fff);
  }

  /**
    A grant carries exactly what was asked for unless it has no file and the region before it has
    the limits and kind asked for but another file or other flags.
  */
  lemma CarriesAskedIff(q: seq<Region>, hint: int, start: nat, size: nat, t: Traits, node: bool, a: nat)
    requires Ordered(q) && HintOk(q, hint) && 1 <= size <= ALLOC_END && start + Align(size) < TWO64
    ensures var g := New(q, hint, start, size, t, node);
      g.address != 0 && g.address <= a < g.address + Align(size) ==>
        (At(g.regions, a) == Carries(t) <==>
          t.file != 0 || forall u :: At(q, g.address - 1) == Carries(u) && u.limits == t.limits && u.kind == t.kind ==> u == t)
  {
    NewCarries(q, hint, start, size, t, node, a);
  }

  // ---------- deletion ----------

  /** Addresses x and y lie in one region. */
  ghost predicate SameRegion(q: seq<Region>, x: int, y: nat) {
    exists i :: 0 <= i < |q| && q[i].start <= x < q[i].end && q[i].start <= y < q[i].end
  }

  /**
    What address a carries after start..end was deleted: nothing inside it; above it, in a region
    that goes on below it too, no file and no flags any more; elsewhere what it did.
  */
  ghost function AfterDelete(q: seq<Region>, start: nat, end: nat, a: nat): Carried {
    if start <= a < end then Nothing
    else if end <= a && SameRegion(q, start - 1, a) && At(q, a).Carries? then
      Carries(At(q, a).traits.(file := 0, flags := 0))
    else At(q, a)
  }

  /** The region that address a lies in decides which addresses it shares it with. */
  lemma SharedIs(q: seq<Region>, i: nat, x: int, a: nat)
    requires Ordered(q) && i < |q| && Holds(q[i], a)
    ensures SameRegion(q, x, a) <==> q[i].start <= x < q[i].end
  {
    if j: nat :| j < |q| && q[j].start <= x < q[j].end && q[j].start <= a < q[j].end {
      HolderUnique(q, i, j, a);
    }
  }

  /** An address of another region carries what it did. */
  lemma OtherRegion(q: seq<Region>, k: nat, start: nat, end: nat, i: nat, a: nat)
    requires Ordered(q) && k < |q| && i < |q| && i != k && Holds(q[i], a)
    requires q[k].start <= start < end <= q[k].end
    ensures AfterDelete(q, start, end, a) == At(q, a)
  {
    SharedIs(q, i, start - 1, a);
    assert if i < k then q[i].end <= q[k].start else q[k].end <= q[i].start;
  }

  /** An address of region k outside what is deleted of it. */
  lemma RestOfRegion(q: seq<Region>, k: nat, start: nat, end: nat, a: nat)
    requires Ordered(q) && k < |q| && Holds(q[k], a) && q[k].start <= start < end <= q[k].end && !(start <= a < end)
    ensures AfterDelete(q, start, end, a) ==
      Carries(if end <= a && q[k].start < start then Of(q[k]).(file := 0, flags := 0) else Of(q[k]))
  {
    AtIs(q, k, a);
    SharedIs(q, k, start - 1, a);
  }

  /** Outside every region nothing is carried before and after. */
  lemma StillNothing(q: seq<Region>, p: seq<Region>, start: nat, size: nat, a: nat)
    requires Ordered(q) && RemovesExactly(q, p, start, size) && (!Covered(q, a) || start <= a < start + size)
    ensures At(p, a) == AfterDelete(q, start, start + size, a)
  {
    AtNothing(p, a);
    if !Covered(q, a) {
      AtNothing(q, a);
    }
  }

  /** List p is q with region k, of which start..start + size was deleted, replaced by what is left. */
  ghost predicate Leaves(q: seq<Region>, k: nat, start: nat, size: nat, p: seq<Region>)
    requires k < |q|
  {
    && (forall i :: 0 <= i < |q| && i != k ==> q[i] in p)
    && (q[k].start < start ==> q[k].(end := start) in p)
    && (start + size < q[k].end ==>
          Region(start + size, q[k].end, q[k].limits, q[k].kind,
                 if q[k].start < start then 0 else q[k].file, if q[k].start < start then 0 else q[k].flags) in p)
  }

  lemma LeavesCarries(q: seq<Region>, k: nat, start: nat, size: nat, p: seq<Region>, a: nat)
    requires Ordered(q) && Ordered(p) && k < |q| && q[k].start <= start && start + size <= q[k].end && size > 0
    requires RemovesExactly(q, p, start, size) && Leaves(q, k, start, size, p)
    ensures At(p, a) == AfterDelete(q, start, start + size, a)
  {
    if !Covered(q, a) || start <= a < start + size {
      StillNothing(q, p, start, size, a);
    } else {
      var i: nat :| i < |q| && Holds(q[i], a);
      if i == k {
        RestOfRegion(q, k, start, start + size, a);
        var part := if a < start then q[k].(end := start)
          else Region(start + size, q[k].end, q[k].limits, q[k].kind,
                      if q[k].start < start then 0 else q[k].file, if q[k].start < start then 0 else q[k].flags);
        var j :| 0 <= j < |p| && p[j] == part;
        AtIs(p, j, a);
      } else {
        OtherRegion(q, k, start, start + size, i, a);
        var j :| 0 <= j < |p| && p[j] == q[i];
        AtKept(q, i, p, j, a);
      }
    }
  }

  lemma WholeLeaves(q: seq<Region>, k: nat, p: seq<Region>)
    requires k < |q| && p == q[..k] + q[k + 1..] && q[k].start < q[k].end
    ensures Leaves(q, k, q[k].start, q[k].end - q[k].start, p)
  {
    forall i | 0 <= i < |q| && i != k
      ensures q[i] in p
    {
      assert q[i] == p[if i < k then i else i - 1];
    }
  }

  lemma EndLeaves(q: seq<Region>, k: nat, r: Region, start: nat, size: nat, p: seq<Region>)
    requires k < |q| && size > 0 && p == q[k := r]
    requires r == if q[k].start == start then q[k].(start := start + size) else q[k].(end := start)
    requires if q[k].start == start then start + size < q[k].end else q[k].start < start && start + size == q[k].end
    ensures Leaves(q, k, start, size, p)
  {
    assert p[k] == r;
    assert forall i :: 0 <= i < |q| && i != k ==> p[i] == q[i];
  }

  lemma MiddleLeaves(q: seq<Region>, k: nat, l: Region, u: Region, start: nat, size: nat, p: seq<Region>)
    requires k < |q| && p == q[..k] + [l, u] + q[k + 1..] && q[k].start < start
    requires l == q[k].(end := start) && u == Region(start + size, q[k].end, q[k].limits, q[k].kind, 0, 0)
    ensures Leaves(q, k, start, size, p)
  {
    CutMiddleAt(q, k, l, u);
    assert forall i :: 0 <= i < |q| && i != k ==> q[i] == p[if i < k then i else i + 1];
  }

  lemma DeleteLeaves(q: seq<Region>, hint: int, start: nat, size: nat, node: bool, k: int, p: seq<Region>)
    requires Ordered(q) && HintOk(q, hint) && start + size < TWO64 && k == FindHolder(q, hint, start, size)
    requires DeleteAligned(q, hint, start, size, node).ok && p == DeleteAligned(q, hint, start, size, node).regions
    ensures k >= 0 && size > 0 && q[k].start <= start && start + size <= q[k].end && Leaves(q, k, start, size, p)
  {
    assert Add64(start, size) == start + size;
    CutLeaves(q, k, start, size, p);
  }

  lemma CutLeaves(q: seq<Region>, k: nat, start: nat, size: nat, p: seq<Region>)
    requires k < |q| && size > 0 && q[k].start <= start && start + size <= q[k].end
    requires var r, end := q[k], start + size;
      p == if r.start == start && r.end == end then q[..k] + q[k + 1..]
           else if r.start == start then q[k := r.(start := end)]
           else if r.end == end then q[k := r.(end := start)]
           else q[..k] + [r.(end := start), Region(end, r.end, r.limits, r.kind, 0, 0)] + q[k + 1..]
    ensures Leaves(q, k, start, size, p)
  {
    var r, end := q[k], start + size;
    if r.start == start && r.end == end {
      WholeLeaves(q, k, p);
    } else if r.start == start {
      EndLeaves(q, k, r.(start := end), start, size, p);
    } else if r.end == end {
      EndLeaves(q, k, r.(end := start), start, size, p);
    } else {
      MiddleLeaves(q, k, r.(end := start), Region(end, r.end, r.limits, r.kind, 0, 0), start, size, p);
    }
  }

  /**
    `vma_del_vadrs`: the addresses deleted carry nothing, the part above a cut in the middle keeps
    limits and kind and loses file and flags, and every other address carries what it did.
  */
  lemma DeleteCarries(q: seq<Region>, hint: int, start: nat, size: nat, node: bool, a: nat)
    requires Ordered(q) && HintOk(q, hint) && 1 <= size <= ALLOC_END && start + Align(size) < TWO64
    ensures var c := Delete(q, hint, start, size, node);
      At(c.regions, a) == if c.ok then AfterDelete(q, start, start + Align(size), a) else At(q, a)
  {
    AlignBounds(size);
    var z := Align(size);
    if start > 0 {
      DeleteAlignedExact(q, hint, start, z, node);
      if DeleteAligned(q, hint, start, z, node).ok {
        var k, p := FindHolder(q, hint, start, z), DeleteAligned(q, hint, start, z, node).regions;
        DeleteLeaves(q, hint, start, z, node, k, p);
        LeavesCarries(q, k, start, z, p, a);
      }
    }
  }

  /**
    After a whole region was cut the hint is the one that followed it, or the last one left; after a
    cut in the middle it is the part above; otherwise it stays.
  */
  lemma DeleteHints(q: seq<Region>, hint: int, start: nat, size: nat, node: bool)
    requires Ordered(q) && HintOk(q, hint) && 1 <= size <= ALLOC_END && start + Align(size) < TWO64
    ensures var c, end := Delete(q, hint, start, size, node), start + Align(size);
      && (!c.ok ==> c.hint == hint)
      && (c.ok && |c.regions| < |q| ==>
            if c.hint == |c.regions| - 1 && (c.hint >= 0 ==> c.regions[c.hint].end <= start)
            then forall i :: 0 <= i < |q| ==> q[i].start <= start
            else 0 <= c.hint < |c.regions| && end <= c.regions[c.hint].start && (c.hint > 0 ==> c.regions[c.hint - 1].end <= start))
      && (c.ok && |c.regions| > |q| ==> 0 <= c.hint < |c.regions| && c.regions[c.hint].start == end)
      && (c.ok && |c.regions| == |q| ==> c.hint == hint)
  {
    AlignBounds(size);
    var k := FindHolder(q, hint, start, Align(size));
    if start > 0 && k >= 0 {
      assert forall i :: 0 <= i < |q| ==> if i < k then q[i].end <= q[k].start else i > k ==> q[k].end <= q[i].start;
    }
  }

  /** A hole punched into a mapped file takes the file away from what lies above the hole. */
  lemma HoleExample()
    ensures var q := [Region(0x1000, 0x4000, 0, 0, 7, 0)];
      Ordered(q) && At(q, 0x3000) == Carries(Traits(0, 0, 7, 0))
      && At(Delete(q, -1, 0x2000, 0x1000, true).regions, 0x3000) == Carries(Traits(0, 0, 0, 0))
  {
    var q := [Region(0x1000, 0x4000, 0, 0, 7, 0)];
    AtIs(q, 0, 0x3000);
    assert Align(0x1000) == 0x1000;
    DeleteGrantedIff(q, -1, 0x2000, 0x1000, true);
    DeleteCarries(q, -1, 0x2000, 0x1000, true, 0x3000);
    assert q[0].start <= 0x1fff < q[0].end && SameRegion(q, 0x1fff, 0x3000);
  }

  // ---------- runs ----------

  /** What address a carries after one request, given what the grant or the cut goes by. */
  ghost function CarriedStep(c: Carried, q: seq<Region>, hint: int, op: Op, a: nat): Carried {
    match op
    case NewOp(start, size, t, node) =>
      var g := New(q, hint, start, size, t, node).address;
      if g != 0 && g <= a < g + Align(size) then Carries(Granting(q, g, t)) else c
    case DeleteOp(start, size, node) =>
      if !Delete(q, hint, start, size, node).ok then c
      else if start <= a < start + Align(size) then Nothing
      else if start + Align(size) <= a && c.Carries? && SameRegion(q, start - 1, a) then
        Carries(c.traits.(file := 0, flags := 0))
      else c
  }

  ghost function CarriedRun(c: Carried, q: seq<Region>, hint: int, ops: seq<Op>, a: nat): Carried
    decreases ops
  {
    if ops == [] then c
    else var (p, h) := Step(q, hint, ops[0]); CarriedRun(CarriedStep(c, q, hint, ops[0], a), p, h, ops[1..], a)
  }

  lemma StepCarries(q: seq<Region>, hint: int, op: Op, a: nat)
    requires Ordered(q) && HintOk(q, hint) && Sensible(op)
    ensures At(Step(q, hint, op).0, a) == CarriedStep(At(q, a), q, hint, op, a)
  {
    match op {
      case NewOp(start, size, t, node) => NewCarries(q, hint, start, size, t, node, a);
      case DeleteOp(start, size, node) => DeleteCarries(q, hint, start, size, node, a);
    }
  }

  /** After every run each address carries what the grants and deletions of the run left it. */
  lemma {:induction false} RunCarries(q: seq<Region>, hint: int, ops: seq<Op>, a: nat)
    requires Ordered(q) && HintOk(q, hint) && forall i :: 0 <= i < |ops| ==> Sensible(ops[i])
    ensures At(Run(q, hint, ops).0, a) == CarriedRun(At(q, a), q, hint, ops, a)
    decreases ops
  {
    if ops != [] {
      StepCarries(q, hint, ops[0], a);
      StepCovers(q, hint, ops[0], a);
      var (p, h) := Step(q, hint, ops[0]);
      RunCarries(p, h, ops[1..], a);
    }
  }
}
