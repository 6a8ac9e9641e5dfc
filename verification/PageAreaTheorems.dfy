/** The guarantees of an area over whole requests and whole runs. */
module PageAreaTheorems {
  import opened BitMath
  import opened Sequences
  import opened PageArea
  import opened PageAreaLaws

  // ---------- allocation ----------

  lemma TakeKeepsMerged(s: Area, d: nat, r: nat)
    requires Structure(s) && FullyMerged(s.padrs, s.pools) && r <= d < LMAX && s.pools[d] != []
    requires forall k :: r <= k < d ==> s.pools[k] == []
    ensures FullyMerged(s.padrs, SplitDown(Take(s, d), s.pools[d][0], d, r).pools)
  {
    var t := SplitDown(Take(s, d), s.pools[d][0], d, r);
    SplitDownPools(Take(s, d), s.pools[d][0], d, r);
    forall k | 0 <= k < LMAX - 1
      ensures Unmergeable(t.padrs, t.pools[k], k)
    {
      assert Unmergeable(s.padrs, s.pools[k], k);
      assert !(r <= k < d) ==> forall x :: x in t.pools[k] ==> x in s.pools[k];
    }
  }

  /** A request is granted exactly when some pool of sufficient order is not empty. */
  lemma AllocSucceeds(s: Area, n: nat)
    requires Inv(s) && n >= 1
    ensures Alloc(s, n).1.Pages? <==> exists k :: DivOrder(n) <= k < LMAX && s.pools[k] != []
  {
    var r := DivOrder(n);
    if r < LMAX && FindPool(s.pools, r) < LMAX {
      var d := FindPool(s.pools, r);
      FreeSumBound(s.pools, d, |s.pools|);
      Pow2Monotone(r, d);
    }
  }

  lemma AllocKeepsInv(s: Area, n: nat)
    requires Inv(s)
    ensures Inv(Alloc(s, n).0)
    ensures SamePages(s.blocks, Alloc(s, n).0.blocks)
  {
    if Alloc(s, n).1.Pages? {
      var r := DivOrder(n);
      var d := FindPool(s.pools, r);
      var t := TakeAndSplit(s, d, r);
      TakeKeepsMerged(s, d, r);
    }
  }

  /** Unlinking the front block of pool d and cutting it to order r. */
  lemma TakeAndSplit(s: Area, d: nat, r: nat) returns (t: Area)
    requires Structure(s) && r <= d < LMAX && s.pools[d] != []
    ensures t == SplitDown(Take(s, d), s.pools[d][0], d, r) && Structure(t) && LiveAt(t, s.pools[d][0], r)
    ensures Total(t) == Total(s) && Live(t) == Live(s) + Pow2(r) && SamePages(s.blocks, t.blocks)
    ensures !IsLive(s.blocks, s.pools[d][0]) && SameLive(s.blocks, t.blocks, s.pools[d][0])
  {
    var u := TakeKeeps(s, d);
    t := SplitDown(u, s.pools[d][0], d, r);
    SplitDownKeeps(u, s.pools[d][0], d, r, t);
  }

  lemma TakeKeeps(s: Area, d: nat) returns (u: Area)
    requires Structure(s) && d < LMAX && s.pools[d] != []
    ensures u == Take(s, d) && Structure(u) && LiveAt(u, s.pools[d][0], d)
    ensures Total(u) == Total(s) && Live(u) == Live(s) + Pow2(d) && SamePages(s.blocks, u.blocks)
    ensures !IsLive(s.blocks, s.pools[d][0]) && SameLive(s.blocks, u.blocks, s.pools[d][0])
  {
    u := Take(s, d);
    assert Lists(s.pools[d], s.blocks, d) && s.pools[d][0] in s.pools[d];
    TakeSums(s, d);
    SameKeysSamePages(s.blocks, u.blocks);
    TakeStructure(s, d);
  }

  /** A granted request of n pages yields exactly the rounded-up size. */
  lemma AllocGrants(s: Area, n: nat)
    requires |s.pools| == LMAX
    ensures Alloc(s, n).1.NoPages? ==> Alloc(s, n).0 == s
    ensures Alloc(s, n).1.Pages? ==>
      var (t, g) := Alloc(s, n);
      var r := DivOrder(n);
      && g.count == Pow2(r) && n <= g.count && (r > 0 ==> Pow2(r - 1) < n)
      && t.allocPages == s.allocPages + g.count && t.freePages == s.freePages - g.count && t.maxPages == s.maxPages
  {
  }

  /** The granted block was free before, is live after, and no other live block changes. */
  lemma AllocFresh(s: Area, n: nat)
    requires Structure(s) && Alloc(s, n).1.Pages?
    ensures !IsLive(s.blocks, Alloc(s, n).1.head)
    ensures LiveAt(Alloc(s, n).0, Alloc(s, n).1.head, DivOrder(n))
    ensures SameLive(s.blocks, Alloc(s, n).0.blocks, Alloc(s, n).1.head)
  {
    var t := TakeAndSplit(s, FindPool(s.pools, DivOrder(n)), DivOrder(n));
  }

  lemma TakeMerged(s: Area, d: nat)
    requires FullyMerged(s.padrs, s.pools) && d < LMAX && s.pools[d] != []
    ensures FullyMerged(s.padrs, Take(s, d).pools)
  {
    forall k | 0 <= k < LMAX - 1
      ensures Unmergeable(s.padrs, Take(s, d).pools[k], k)
    {
      assert Unmergeable(s.padrs, s.pools[k], k);
    }
  }

  lemma AllocMaxKeepsInv(s: Area)
    requires Inv(s)
    ensures Inv(AllocMax(s).0)
    ensures SamePages(s.blocks, AllocMax(s).0.blocks)
    ensures AllocMax(s).0.maxPages == s.maxPages
  {
    var d := FindLargest(s.pools, |s.pools|);
    if d > 0 {
      var t := TakeKeeps(s, d - 1);
      TakeMerged(s, d - 1);
      var p := Pow2(d - 1);
      assert AllocMax(s).0 == t.(freePages := s.freePages - p, allocPages := s.allocPages + p);
    }
  }

  /** The largest-block request fails only on an empty area and never returns a smaller block. */
  lemma AllocMaxGrants(s: Area)
    requires Structure(s)
    ensures AllocMax(s).1.NoPages? <==> forall h :: h in s.blocks ==> IsLive(s.blocks, h)
    ensures AllocMax(s).1.Pages? ==>
      var (t, g) := AllocMax(s);
      && g.head in s.blocks && !IsLive(s.blocks, g.head) && t.blocks == s.blocks[g.head := Block(s.blocks[g.head].order, 1)]
      && g.count == Pow2(s.blocks[g.head].order)
      && forall h :: h in s.blocks && !IsLive(s.blocks, h) ==> Pow2(s.blocks[h].order) <= g.count
  {
    var d := FindLargest(s.pools, |s.pools|);
    if d > 0 {
      assert Lists(s.pools[d - 1], s.blocks, d - 1) && s.pools[d - 1][0] in s.pools[d - 1];
    }
    forall x | x in s.blocks && !IsLive(s.blocks, x)
      ensures d > 0 && Pow2(s.blocks[x].order) <= Pow2(d - 1)
    {
      var k := s.blocks[x].order;
      assert Lists(s.pools[k], s.blocks, k) && s.blocks[x] == Block(k, 0);
      Pow2Monotone(k, d - 1);
    }
  }

  // ---------- release ----------

  /** The 32-bit `1 << d` of the release entry point agrees with 2^d only up to order 30. */
  lemma ShiftOneExact(d: nat)
    ensures ShiftOne(d) == Pow2(d) <==> d <= 30
  {
    ShiftOfRest(d, d % 32);
  }

  lemma ShiftOfRest(d: nat, m: nat)
    requires m <= d && (m == d || d > 31) && m < 32 && (d <= 31 ==> m == d)
    ensures (if m == 31 then 0xffff_ffff_8000_0000 else Pow2(m)) == Pow2(d) <==> d <= 30
  {
    if m == 31 {
      PowersMissTheShift(d);
    } else if m < d {
      Pow2Monotone(m, d);
    }
  }

  /** Powers whose exponents are given, so that they need not be computed. */
  lemma Pow2Of31(a: nat, b: nat)
    requires a == 31 && b == 32
    ensures Pow2(a) == 0x8000_0000 && Pow2(b) == 0x1_0000_0000
  {
    assert Pow2(8) == 256;
    Pow2Add(8, 8);
    assert Pow2(15) == 32768;
    Pow2Add(16, 15);
  }

  /** A sign-extended 2^31 lies between 2^63 and 2^64. */
  lemma NotAPowerOfTwo(d: nat, a: nat, b: nat)
    requires a == 31 && b == 32
    ensures Pow2(a + b) < 0xffff_ffff_8000_0000 < Pow2(b + b) && Pow2(d) != 0xffff_ffff_8000_0000
  {
    Pow2Of31(a, b);
    Pow2Add(a, b);
    Pow2Add(b, b);
    if d <= a + b {
      Pow2Monotone(d, a + b);
    } else {
      Pow2Monotone(b + b, d);
    }
  }

  lemma PowersMissTheShift(d: nat)
    ensures Pow2(d) != 0xffff_ffff_8000_0000
  {
    var a: nat :| a == 31;
    var b: nat :| b == 32;
    NotAPowerOfTwo(d, a, b);
  }

  lemma OrderOfShift(n: nat)
    requires n == 0xffff_ffff_8000_0000
    ensures DivOrder(n) == 64
  {
    var a: nat :| a == 31;
    var b: nat :| b == 32;
    NotAPowerOfTwo(0, a, b);
    OrderUnique(n, DivOrder(n), b + b);
  }

  /** A size that equals the shift of its own order is a power of two up to 2^30. */
  lemma ShiftOfOwnOrder(n: nat, r: nat)
    requires n >= 1 && r == DivOrder(n) && n == ShiftOne(r)
    ensures r <= 30 && n == Pow2(r)
  {
    if r % 32 == 31 {
      OrderOfShift(n);
    } else if r > 30 {
      Pow2Monotone(r % 32, r - 1);
    }
  }

  /** The release entry point turns down, with a message, every size but the powers of two up to 2^30. */
  lemma SizeRefusedIff(n: nat)
    ensures SizeRefused(n) <==> n >= 1 && forall d :: 0 <= d <= 30 ==> n != Pow2(d)
  {
    if n >= 1 {
      var r := DivOrder(n);
      if n == ShiftOne(r) {
        ShiftOfOwnOrder(n, r);
      }
      forall d | 0 <= d <= 30 && n == Pow2(d)
        ensures n == ShiftOne(r)
      {
        DivOrderOfPow2(n, d);
        ShiftOneExact(d);
      }
    }
  }

  lemma FreeKeepsInv(s: Area, h: nat, n: nat)
    requires Inv(s)
    ensures Inv(Free(s, h, n).0)
    ensures SamePages(s.blocks, Free(s, h, n).0.blocks)
    ensures SameLive(s.blocks, Free(s, h, n).0.blocks, h)
    ensures Free(s, h, n).0.maxPages == s.maxPages
  {
    if Releasable(s, h, n) {
      if s.blocks[h].refs > 1 {
        DropReference(s, h);
      } else {
        ReleaseKeepsInv(s, h);
      }
    }
  }

  /**
    A release is accepted exactly for the head of a live block, given with its size, of at most 2^30
    pages. It takes one reference off, and with the last one the block's pages are free again.
  */
  lemma FreeGives(s: Area, h: nat, n: nat)
    requires Inv(s)
    ensures Free(s, h, n).1 <==> IsLive(s.blocks, h) && n == Pow2(s.blocks[h].order) && s.blocks[h].order <= 30
    ensures !Free(s, h, n).1 ==> Free(s, h, n).0 == s
    ensures Free(s, h, n).1 ==>
      var (t, b) := (Free(s, h, n).0, s.blocks[h]);
      if b.refs > 1 then t == s.(blocks := s.blocks[h := Block(b.order, b.refs - 1)])
      else !IsLive(t.blocks, h) && t.freePages == s.freePages + n && t.allocPages == s.allocPages - n
  {
    if IsLive(s.blocks, h) {
      ShiftOneExact(s.blocks[h].order);
      if Releasable(s, h, n) && s.blocks[h].refs == 1 {
        ReleaseKeepsInv(s, h);
      }
    }
  }

  lemma ReleaseKeepsInv(s: Area, h: nat)
    requires Inv(s) && h in s.blocks && s.blocks[h].refs == 1
    ensures Inv(Release(s, h))
    ensures SamePages(s.blocks, Release(s, h).blocks)
    ensures SameLive(s.blocks, Release(s, h).blocks, h) && !IsLive(Release(s, h).blocks, h)
  {
    var k := s.blocks[h].order;
    assert LiveAt(s, h, k);
    var t := MergeUp(s, h, k);
    MergeUpKeeps(s, h, k, t);
    MergeUpFullyMerged(s, h, k, t);
  }

  lemma DropReference(s: Area, h: nat)
    requires Inv(s) && h in s.blocks && s.blocks[h].refs > 1
    ensures var t := s.(blocks := s.blocks[h := Block(s.blocks[h].order, s.blocks[h].refs - 1)]);
      Inv(t) && SamePages(s.blocks, t.blocks)
  {
    var t := s.(blocks := s.blocks[h := Block(s.blocks[h].order, s.blocks[h].refs - 1)]);
    RefsSeparate(s.padrs, s.blocks, h, s.blocks[h].refs - 1);
    SameKeysSamePages(s.blocks, t.blocks);
    LiveSumUpdate(s.blocks, t.blocks, h, |s.padrs|);
    forall k | 0 <= k < LMAX
      ensures Lists(t.pools[k], t.blocks, k)
    {
      assert Lists(s.pools[k], s.blocks, k);
    }
  }

  // ---------- a release undoes its allocation ----------

  lemma {:induction false} SplitDownLast(s: Area, h: nat, d: nat, r: nat)
    requires r < d <= |s.pools|
    ensures SplitDown(s, h, d, r) == SplitOnce(SplitDown(s, h, d, r + 1), h, r + 1)
    decreases d
  {
    if r + 1 < d {
      SplitDownLast(SplitOnce(s, h, d), h, d - 1, r);
    }
  }

  lemma SplitHalvesJoin(s: Area, h: nat, k: nat)
    requires Structure(s) && LiveAt(s, h, k + 1)
    ensures Joins(s.padrs, h, h + Pow2(k), k) && h + Pow2(k) !in s.blocks
  {
    SplitSeparate(s, h, k + 1);
    var p := Pow2(k);
    assert Pow2(k + 1) == 2 * p;
    assert Contiguous(s.padrs, h, 2 * p);
    assert s.padrs[h + p] == s.padrs[h] + p && s.padrs[h + p - 1] == s.padrs[h] + (p - 1);
  }

  /** Releasing the lower half right after a split finds the upper half and restores the block. */
  lemma CoalesceUndoesSplit(v: Area, h: nat, k: nat)
    requires |v.pools| == LMAX && k < LMAX - 1 && LiveAt(v, h, k + 1) && v.pools[k] == []
    requires Joins(v.padrs, h, h + Pow2(k), k) && h + Pow2(k) !in v.blocks
    ensures MergeUp(SplitOnce(v, h, k + 1), h, k) == MergeUp(v, h, k + 1)
  {
    var u := SplitOnce(v, h, k + 1);
    var g := h + Pow2(k);
    assert u.pools[k] == [g];
    var c := Coalesce(u, h, k, 0);
    assert c.pools == v.pools;
    assert c.blocks == v.blocks;
    assert c == v;
  }

  lemma MergeUndoesLastSplit(s: Area, h: nat, d: nat, r: nat, v: Area)
    requires Structure(s) && r < d < LMAX && LiveAt(s, h, d) && v == SplitDown(s, h, d, r + 1)
    requires v.pools[r] == []
    ensures MergeUp(SplitDown(s, h, d, r), h, r) == MergeUp(v, h, r + 1)
  {
    SplitDownKeeps(s, h, d, r + 1, v);
    SplitDownLast(s, h, d, r);
    SplitHalvesJoin(v, h, r);
    CoalesceUndoesSplit(v, h, r);
  }

  lemma {:induction false} MergeUndoesSplit(s: Area, h: nat, d: nat, r: nat)
    requires Structure(s) && r <= d < LMAX && LiveAt(s, h, d)
    requires forall k :: r <= k < d ==> s.pools[k] == []
    ensures MergeUp(SplitDown(s, h, d, r), h, r) == MergeUp(s, h, d)
    decreases d - r
  {
    if r < d {
      MergeUndoesSplit(s, h, d, r + 1);
      SplitDownPools(s, h, d, r + 1);
      MergeUndoesLastSplit(s, h, d, r, SplitDown(s, h, d, r + 1));
    }
  }

  lemma MergeUndoesTake(s: Area, d: nat)
    requires Structure(s) && FullyMerged(s.padrs, s.pools) && d < LMAX && s.pools[d] != []
    ensures MergeUp(Take(s, d), s.pools[d][0], d) == s
  {
    var h := s.pools[d][0];
    var t := Take(s, d);
    assert Lists(s.pools[d], s.blocks, d) && h in s.pools[d];
    assert Insert(t, h, d) == s by {
      assert [h] + t.pools[d] == s.pools[d];
      assert Insert(t, h, d).pools == s.pools;
      assert Insert(t, h, d).blocks == s.blocks;
    }
    if d < LMAX - 1 {
      assert Unmergeable(s.padrs, s.pools[d], d);
      assert forall x :: x in t.pools[d] ==> x in s.pools[d];
    }
  }

  /**
    Releasing what was just allocated restores the whole area: every pool, in order, every block
    and every counter. The one exception is a block of more than 2^30 pages, which the release
    entry point turns away.
  */
  lemma AllocFreeRoundTrip(s: Area, n: nat)
    requires Inv(s) && Alloc(s, n).1.Pages?
    ensures var (t, g) := Alloc(s, n);
      if DivOrder(n) <= 30 then Free(t, g.head, g.count) == (s, true)
      else Free(t, g.head, g.count) == (t, false)
  {
    var (t, g) := Alloc(s, n);
    AllocGrants(s, n);
    AllocFresh(s, n);
    FreeSole(t, g.head, DivOrder(n));
    if DivOrder(n) <= 30 {
      ReleaseUndoesAlloc(s, n);
    }
  }

  /** The release entry point on an accepted block. */
  lemma FreeAccepted(s: Area, h: nat, n: nat)
    requires |s.pools| == LMAX && Releasable(s, h, n)
    ensures s.blocks[h].refs == 1 ==> Free(s, h, n) == (Release(s, h), true)
    ensures s.blocks[h].refs > 1 ==>
      Free(s, h, n) == (s.(blocks := s.blocks[h := Block(s.blocks[h].order, s.blocks[h].refs - 1)]), true)
  {
  }

  /** What the release entry point does with a block held once. */
  lemma FreeSole(t: Area, h: nat, k: nat)
    requires |t.pools| == LMAX && LiveAt(t, h, k) && k < LMAX
    ensures Free(t, h, Pow2(k)) == if k <= 30 then (Release(t, h), true) else (t, false)
  {
    ShiftOneExact(k);
  }

  lemma ReleaseUndoesAlloc(s: Area, n: nat)
    requires Inv(s) && Alloc(s, n).1.Pages? && LiveAt(Alloc(s, n).0, Alloc(s, n).1.head, DivOrder(n))
    ensures Release(Alloc(s, n).0, Alloc(s, n).1.head) == s
  {
    var (t, g) := Alloc(s, n);
    var r := DivOrder(n);
    var d := FindPool(s.pools, r);
    TakeStructure(s, d);
    MergeUndoesSplit(Take(s, d), g.head, d, r);
    MergeUndoesTake(s, d);
    MergeIgnoresCounters(SplitDown(Take(s, d), g.head, d, r), t, g.head, r);
  }

  lemma {:induction false} MergeIgnoresCounters(s: Area, t: Area, h: nat, k: nat)
    requires |s.pools| == LMAX && k < LMAX
    requires t == s.(freePages := t.freePages, allocPages := t.allocPages, maxPages := t.maxPages)
    ensures MergeUp(t, h, k)
         == MergeUp(s, h, k).(freePages := t.freePages, allocPages := t.allocPages, maxPages := t.maxPages)
    decreases LMAX - k
  {
    var i := FindNeighbour(s.padrs, s.pools[k], h, k);
    if k < LMAX - 1 && i < |s.pools[k]| {
      MergeIgnoresCounters(Coalesce(s, h, k, i), Coalesce(t, h, k, i), Min(h, s.pools[k][i]), k + 1);
    }
  }

  // ---------- runs ----------

  datatype Request = Divide(pages: nat) | DivideMax | Merge(page: nat, count: nat)

  function Step(s: Area, q: Request): Area
    requires |s.pools| == LMAX
  {
    match q
    case Divide(n) => Alloc(s, n).0
    case DivideMax => AllocMax(s).0
    case Merge(h, n) => Free(s, h, n).0
  }

  ghost predicate Reaches(s: Area, qs: seq<Request>, t: Area)
    decreases |qs|
  {
    if qs == [] then s == t
    else |s.pools| == LMAX && Reaches(Step(s, qs[0]), qs[1..], t)
  }

  /** Every state of every run is well formed, fully merged and counted, over the same pages. */
  lemma {:induction false} RunKeepsInv(s: Area, qs: seq<Request>, t: Area)
    requires Inv(s) && Reaches(s, qs, t)
    ensures Inv(t) && SamePages(s.blocks, t.blocks) && t.maxPages == s.maxPages
    decreases |qs|
  {
    if qs != [] {
      match qs[0] {
        case Divide(n) =>
          AllocKeepsInv(s, n);
          AllocGrants(s, n);
        case DivideMax => AllocMaxKeepsInv(s);
        case Merge(h, n) => FreeKeepsInv(s, h, n);
      }
      RunKeepsInv(Step(s, qs[0]), qs[1..], t);
    }
  }
}
