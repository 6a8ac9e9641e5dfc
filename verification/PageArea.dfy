/**
  The abstract state of one kernel or hardware memory area: which blocks of 2^k pages exist,
  which of them lie in the free list of pool k, and the page counters. Allocation splits the
  front block of the smallest non-empty pool; release merges by adjacency while a neighbour of
  the same order is found. The functions here are what the imperative allocator computes.
*/
module PageArea {
  import opened BitMath
  import opened Sequences

  const LMAX: nat := 52  // MDIVMER_ARR_LMAX

  /** A block of 2^order pages; `refs == 0` means it is free. */
  datatype Block = Block(order: nat, refs: nat)

  /** `pools[k]` lists the heads of the free blocks of order k, front of the list first. */
  datatype Area = Area(
    padrs: seq<nat>, pools: seq<seq<nat>>, blocks: map<nat, Block>,
    freePages: int, allocPages: int, maxPages: int)

  datatype Grant = NoPages | Pages(head: nat, count: nat)

  // ---------- invariant ----------

  /** Every block lies in the descriptor table and its pages are physically contiguous. */
  ghost predicate Fits(padrs: seq<nat>, blocks: map<nat, Block>) {
    forall h :: h in blocks ==>
      && blocks[h].order < LMAX
      && h + Pow2(blocks[h].order) <= |padrs|
      && Contiguous(padrs, h, Pow2(blocks[h].order))
  }

  ghost predicate Contiguous(padrs: seq<nat>, h: nat, n: nat)
    requires h + n <= |padrs|
  {
    forall i :: h <= i < h + n ==> padrs[i] == padrs[h] + (i - h)
  }

  /** Blocks do not overlap. */
  ghost predicate Separate(blocks: map<nat, Block>) {
    forall h, g :: h in blocks && g in blocks && h < g ==> h + Pow2(blocks[h].order) <= g
  }

  /** The list q holds exactly the free blocks of order k, each once. */
  ghost predicate Lists(q: seq<nat>, blocks: map<nat, Block>, k: nat) {
    && Distinct(q)
    && (forall h :: h in q ==> h in blocks && blocks[h] == Block(k, 0))
    && (forall h :: h in blocks && blocks[h] == Block(k, 0) ==> h in q)
  }

  ghost predicate PoolsMatch(pools: seq<seq<nat>>, blocks: map<nat, Block>) {
    && |pools| == LMAX
    && forall k :: 0 <= k < LMAX ==> Lists(pools[k], blocks, k)
  }

  /** The block of order k at g starts where the one at h ends, in the table and in memory. */
  predicate Joins(padrs: seq<nat>, h: nat, g: nat, k: nat) {
    h + Pow2(k) == g && g < |padrs| && padrs[g - 1] + 1 == padrs[g]
  }

  predicate Adjacent(padrs: seq<nat>, h: nat, g: nat, k: nat) {
    Joins(padrs, h, g, k) || Joins(padrs, g, h, k)
  }

  ghost predicate Unmergeable(padrs: seq<nat>, q: seq<nat>, k: nat) {
    forall h, g :: h in q && g in q ==> !Joins(padrs, h, g, k)
  }

  /** Below the last order no two free blocks of one pool could be merged. */
  ghost predicate FullyMerged(padrs: seq<nat>, pools: seq<seq<nat>>) {
    |pools| == LMAX && forall k :: 0 <= k < LMAX - 1 ==> Unmergeable(padrs, pools[k], k)
  }

  ghost predicate Structure(s: Area) {
    Fits(s.padrs, s.blocks) && Separate(s.blocks) && PoolsMatch(s.pools, s.blocks)
  }

  /** c blocks of p pages each. */
  function Copies(c: nat, p: nat): nat {
    if c == 0 then 0 else p + Copies(c - 1, p)
  }

  /** Pages in the free lists of the pools below m. */
  function FreeSum(pools: seq<seq<nat>>, m: nat): nat
    requires m <= |pools|
  {
    if m == 0 then 0 else FreeSum(pools, m - 1) + Copies(|pools[m - 1]|, Pow2(m - 1))
  }

  function Weight(blocks: map<nat, Block>, h: nat): nat {
    if h in blocks && blocks[h].refs > 0 then Pow2(blocks[h].order) else 0
  }

  /** Pages held by live blocks whose head lies below m. */
  function LiveSum(blocks: map<nat, Block>, m: nat): nat {
    if m == 0 then 0 else LiveSum(blocks, m - 1) + Weight(blocks, m - 1)
  }

  ghost predicate Counted(s: Area)
    requires |s.pools| == LMAX
  {
    && s.freePages == FreeSum(s.pools, |s.pools|)
    && s.allocPages == LiveSum(s.blocks, |s.padrs|)
    && s.maxPages == s.freePages + s.allocPages
  }

  ghost predicate Inv(s: Area) {
    Structure(s) && FullyMerged(s.padrs, s.pools) && Counted(s)
  }

  ghost predicate InBlock(blocks: map<nat, Block>, h: nat, i: nat) {
    h in blocks && h <= i < h + Pow2(blocks[h].order)
  }

  /** Page i belongs to some block. */
  ghost predicate Covers(blocks: map<nat, Block>, i: nat) {
    exists h :: InBlock(blocks, h, i)
  }

  ghost predicate SamePages(a: map<nat, Block>, b: map<nat, Block>) {
    forall i: nat :: Covers(a, i) <==> Covers(b, i)
  }

  ghost predicate IsLive(blocks: map<nat, Block>, h: nat) {
    h in blocks && blocks[h].refs > 0
  }

  /** The live blocks of a and b other than h are the same. */
  ghost predicate SameLive(a: map<nat, Block>, b: map<nat, Block>, h: nat) {
    forall x :: x != h ==> (IsLive(a, x) <==> IsLive(b, x)) && (IsLive(a, x) ==> a[x] == b[x])
  }

  // ---------- elementary moves ----------

  /** Unlink the front block of pool d and hand it out whole. */
  function Take(s: Area, d: nat): Area
    requires d < |s.pools| && s.pools[d] != []
  {
    s.(pools := s.pools[d := s.pools[d][1..]], blocks := s.blocks[s.pools[d][0] := Block(d, 1)])
  }

  /** Give the upper half of the block at h, of order d, to pool d-1. */
  function SplitOnce(s: Area, h: nat, d: nat): Area
    requires 0 < d <= |s.pools|
  {
    s.(pools := s.pools[d - 1 := [h + Pow2(d - 1)] + s.pools[d - 1]],
       blocks := s.blocks[h := Block(d - 1, 1)][h + Pow2(d - 1) := Block(d - 1, 0)])
  }

  function SplitDown(s: Area, h: nat, d: nat, r: nat): (t: Area)
    requires r <= d <= |s.pools|
    ensures |t.pools| == |s.pools| && t.padrs == s.padrs
    ensures t.freePages == s.freePages && t.allocPages == s.allocPages && t.maxPages == s.maxPages
    decreases d
  {
    if d == r then s else SplitDown(SplitOnce(s, h, d), h, d - 1, r)
  }

  function Min(a: nat, b: nat): nat { if a < b then a else b }

  /** Merge the block at h with the i-th block of pool k. */
  function Coalesce(s: Area, h: nat, k: nat, i: nat): Area
    requires k < |s.pools| && i < |s.pools[k]|
  {
    var g := s.pools[k][i];
    s.(pools := s.pools[k := Without(s.pools[k], i)],
       blocks := (s.blocks - {h, g})[Min(h, g) := Block(k + 1, 1)])
  }

  /** Put the block at h on the front of pool k. */
  function Insert(s: Area, h: nat, k: nat): Area
    requires k < |s.pools|
  {
    s.(pools := s.pools[k := [h] + s.pools[k]], blocks := s.blocks[h := Block(k, 0)])
  }

  /** The first block of the list that can be merged with h, or the length of the list. */
  function FindNeighbour(padrs: seq<nat>, q: seq<nat>, h: nat, k: nat): (i: nat)
    ensures i <= |q|
    ensures i < |q| ==> Adjacent(padrs, h, q[i], k)
    ensures forall j :: 0 <= j < i ==> !Adjacent(padrs, h, q[j], k)
  {
    if q == [] || Adjacent(padrs, h, q[0], k) then 0
    else
      var i := FindNeighbour(padrs, q[1..], h, k);
      assert forall j :: 1 <= j < i + 1 ==> q[j] == q[1..][j - 1];
      i + 1
  }

  function MergeUp(s: Area, h: nat, k: nat): (t: Area)
    requires |s.pools| == LMAX && k < LMAX
    ensures |t.pools| == LMAX && t.padrs == s.padrs
    ensures t.freePages == s.freePages && t.allocPages == s.allocPages && t.maxPages == s.maxPages
    decreases LMAX - k
  {
    if k == LMAX - 1 then Insert(s, h, k)
    else
      var i := FindNeighbour(s.padrs, s.pools[k], h, k);
      if i == |s.pools[k]| then Insert(s, h, k)
      else MergeUp(Coalesce(s, h, k, i), Min(h, s.pools[k][i]), k + 1)
  }

  /** The smallest order from k on whose pool is not empty, or the number of pools. */
  function FindPool(pools: seq<seq<nat>>, k: nat): (d: nat)
    requires k <= |pools|
    ensures k <= d <= |pools|
    ensures d < |pools| ==> pools[d] != []
    ensures forall j :: k <= j < d ==> pools[j] == []
    decreases |pools| - k
  {
    if k == |pools| || pools[k] != [] then k else FindPool(pools, k + 1)
  }

  // ---------- requests ----------

  /** A `DMF_RELDIV` request for n pages. */
  function Alloc(s: Area, n: nat): (Area, Grant)
    requires |s.pools| == LMAX
  {
    if n < 1 || s.freePages < n || s.maxPages < n || DivOrder(n) >= LMAX then (s, NoPages)
    else
      var r := DivOrder(n);
      var d := FindPool(s.pools, r);
      if d == LMAX then (s, NoPages)
      else
        var h := s.pools[d][0];
        var t := SplitDown(Take(s, d), h, d, r);
        (t.(freePages := t.freePages - Pow2(r), allocPages := t.allocPages + Pow2(r)), Pages(h, Pow2(r)))
  }

  /** The largest order below k whose pool is not empty, plus one; 0 if there is none. */
  function FindLargest(pools: seq<seq<nat>>, k: nat): (d: nat)
    requires k <= |pools|
    ensures d <= k
    ensures d > 0 ==> pools[d - 1] != []
    ensures forall j :: d <= j < k ==> pools[j] == []
  {
    if k == 0 || pools[k - 1] != [] then k else FindLargest(pools, k - 1)
  }

  /** A `DMF_MAXDIV` request: the front block of the largest non-empty pool. */
  function AllocMax(s: Area): (Area, Grant)
    requires |s.pools| == LMAX
  {
    var d := FindLargest(s.pools, |s.pools|);
    if d == 0 then (s, NoPages)
    else
      var n := Pow2(d - 1);
      (Take(s, d - 1).(freePages := s.freePages - n, allocPages := s.allocPages + n),
       Pages(s.pools[d - 1][0], n))
  }

  /** `1 << d` as a 32-bit int, whose shift count x86 reduces modulo 32, widened to 64 bits. */
  function ShiftOne(d: nat): nat {
    if d % 32 == 31 then 0xffff_ffff_8000_0000 else Pow2(d % 32)
  }

  /** `mm_merge_pages` turns the size down, with a message, before it looks at any page. */
  predicate SizeRefused(n: nat) { n >= 1 && n != ShiftOne(DivOrder(n)) }

  /** Page h is the head of a live block of n pages. */
  predicate Releasable(s: Area, h: nat, n: nat) {
    && h in s.blocks && s.blocks[h].refs > 0 && s.blocks[h].order < LMAX
    && n == Pow2(s.blocks[h].order) && n == ShiftOne(s.blocks[h].order)
  }

  /** Give up the last reference to the block at h. */
  function Release(s: Area, h: nat): Area
    requires |s.pools| == LMAX && h in s.blocks && s.blocks[h].order < LMAX
  {
    var n := Pow2(s.blocks[h].order);
    MergeUp(s, h, s.blocks[h].order).(freePages := s.freePages + n, allocPages := s.allocPages - n)
  }

  /** `mm_merge_pages` on page h for n pages. */
  function Free(s: Area, h: nat, n: nat): (Area, bool)
    requires |s.pools| == LMAX
  {
    if !Releasable(s, h, n) then (s, false)
    else if s.blocks[h].refs > 1 then
      (s.(blocks := s.blocks[h := Block(s.blocks[h].order, s.blocks[h].refs - 1)]), true)
    else (Release(s, h), true)
  }
}
