/**
  Mounting: carving maximal runs of contiguous free pages into blocks of decreasing order. The
  largest power of two that fits goes first, so the orders are the set bits of the run's length.
*/
module PageMount {
  import opened BitMath
  import opened Sequences
  import opened PageArea
  import opened PageAreaLaws
  import opened PageTags

  /** 2 to the last order: the length from which on a run is refused. */
  const RUN_LIMIT: nat := 0x8_0000_0000_0000

  /** Hang the fresh block of order k at page p on its pool. */
  function Add(s: Area, p: nat, k: nat): Area
    requires k < |s.pools|
  {
    s.(pools := s.pools[k := [p] + s.pools[k]], blocks := s.blocks[p := Block(k, 0)],
       freePages := s.freePages + Pow2(k), maxPages := s.maxPages + Pow2(k))
  }

  /** Hang consecutive blocks of the given orders, starting at page p. */
  function AddAll(s: Area, p: nat, orders: seq<nat>): (t: Area)
    requires |s.pools| == LMAX && forall i :: 0 <= i < |orders| ==> orders[i] < LMAX
    ensures |t.pools| == LMAX
    decreases |orders|
  {
    if orders == [] then s
    else AddAll(Add(s, p, orders[0]), p + Pow2(orders[0]), orders[1..])
  }

  /** All the blocks of a run of n pages starting at p. */
  function AddRun(s: Area, p: nat, n: nat): (t: Area)
    requires |s.pools| == LMAX && n < RUN_LIMIT
    ensures |t.pools| == LMAX
    decreases n
  {
    if n == 0 then s
    else
      var k := HighBit(n);
      HighBitBelow(n);
      AddRun(Add(s, p, k), p + Pow2(k), n - Pow2(k))
  }

  /** A run is carved into the blocks of its orders. */
  lemma RunIsItsOrders(s: Area, p: nat, n: nat)
    requires |s.pools| == LMAX && n < RUN_LIMIT
    ensures forall i :: 0 <= i < |Orders(n)| ==> Orders(n)[i] < LMAX
    ensures AddRun(s, p, n) == AddAll(s, p, Orders(n))
  {
    OrdersArePools(n);
    RunIsList(s, p, n, Orders(n));
  }

  lemma {:induction false} RunIsList(s: Area, p: nat, n: nat, orders: seq<nat>)
    requires |s.pools| == LMAX && n < RUN_LIMIT && orders == Orders(n) && forall i :: 0 <= i < |orders| ==> orders[i] < LMAX
    ensures AddRun(s, p, n) == AddAll(s, p, orders)
    decreases n
  {
    if n > 0 {
      var k := HighBit(n);
      var m, rest := n - Pow2(k), orders[1..];
      AddRunStep(s, p, n, k, p + Pow2(k), m);
      assert orders == [k] + rest && rest == Orders(m);
      AddAllStep(s, p, orders, k, rest);
      RunIsList(Add(s, p, k), p + Pow2(k), m, rest);
    }
  }

  lemma AddAllStep(s: Area, p: nat, orders: seq<nat>, k: nat, rest: seq<nat>)
    requires |s.pools| == LMAX && orders == [k] + rest && forall i :: 0 <= i < |orders| ==> orders[i] < LMAX
    ensures forall i :: 0 <= i < |rest| ==> rest[i] < LMAX
    ensures AddAll(s, p, orders) == AddAll(Add(s, p, k), p + Pow2(k), rest)
  {
    assert orders[0] == k && orders[1..] == rest;
    assert forall i :: 0 <= i < |rest| ==> rest[i] == orders[i + 1];
  }

  /** Carving a run of n pages raises the page counters by n and nothing else. */
  lemma {:induction false} RunCounts(s: Area, p: nat, n: nat)
    requires |s.pools| == LMAX && n < RUN_LIMIT
    ensures var t := AddRun(s, p, n);
      t.freePages == s.freePages + n && t.maxPages == s.maxPages + n && t.allocPages == s.allocPages && t.padrs == s.padrs
    decreases n
  {
    if n > 0 {
      var k := HighBit(n);
      HighBitBelow(n);
      RunCounts(Add(s, p, k), p + Pow2(k), n - Pow2(k));
    }
  }

  lemma {:induction false} HighBitBelow(n: nat)
    requires 1 <= n < RUN_LIMIT
    ensures HighBit(n) < LMAX - 1
  {
    LastOrder();
    if HighBit(n) >= LMAX - 1 {
      Pow2Monotone(LMAX - 1, HighBit(n));
    }
  }

  /** The orders of the blocks of a run of n pages. */
  function Orders(n: nat): seq<nat>
    decreases n
  {
    if n == 0 then [] else [HighBit(n)] + Orders(n - Pow2(HighBit(n)))
  }

  function SumPow2(q: seq<nat>): nat {
    if q == [] then 0 else Pow2(q[0]) + SumPow2(q[1..])
  }

  /** What is left after the highest bit has a smaller highest bit. */
  lemma RestIsSmaller(n: nat)
    requires n >= 1
    ensures n - Pow2(HighBit(n)) > 0 ==> HighBit(n - Pow2(HighBit(n))) < HighBit(n)
  {
    var k := HighBit(n);
    var m := n - Pow2(k);
    if m > 0 && HighBit(m) >= k {
      Pow2Monotone(k, HighBit(m));
    }
  }

  /** The orders are strictly decreasing and add up to the run: they are its set bits. */
  lemma {:induction false} OrdersAreBits(n: nat)
    ensures SumPow2(Orders(n)) == n
    ensures forall i, j :: 0 <= i < j < |Orders(n)| ==> Orders(n)[i] > Orders(n)[j]
    ensures n > 0 ==> Orders(n) != [] && Orders(n)[0] == HighBit(n)
    decreases n
  {
    if n > 0 {
      var m := n - Pow2(HighBit(n));
      OrdersAreBits(m);
      RestIsSmaller(n);
      assert Orders(n)[1..] == Orders(m);
      forall i, j | 0 <= i < j < |Orders(n)|
        ensures Orders(n)[i] > Orders(n)[j]
      {
        assert j >= 1 && Orders(n)[j] == Orders(m)[j - 1];
        if i > 0 {
          assert Orders(n)[i] == Orders(m)[i - 1];
        } else if j > 1 {
          assert Orders(m)[0] > Orders(m)[j - 1];
        }
      }
    }
  }

  // ---------- invariants of mounting ----------

  /** All blocks end at or before p. */
  ghost predicate Below(blocks: map<nat, Block>, p: nat) {
    forall x :: x in blocks ==> x + Pow2(blocks[x].order) <= p
  }

  /** Blocks at or after a have an order above k. */
  ghost predicate Larger(blocks: map<nat, Block>, a: nat, k: int) {
    forall x :: x in blocks && x >= a ==> blocks[x].order > k
  }

  /** No block could be joined to one starting at a. */
  ghost predicate Detached(padrs: seq<nat>, blocks: map<nat, Block>, a: nat) {
    forall x :: x in blocks && x < a ==> !Joins(padrs, x, a, blocks[x].order)
  }

  lemma AddFits(s: Area, p: nat, k: nat)
    requires Fits(s.padrs, s.blocks) && k < LMAX && k < |s.pools|
    requires p + Pow2(k) <= |s.padrs| && Contiguous(s.padrs, p, Pow2(k))
    ensures Fits(s.padrs, Add(s, p, k).blocks)
  {
    var t := Add(s, p, k).blocks;
    forall x | x in t
      ensures t[x].order < LMAX && x + Pow2(t[x].order) <= |s.padrs| && Contiguous(s.padrs, x, Pow2(t[x].order))
    {
      assert x != p ==> x in s.blocks;
    }
  }

  lemma AddSeparate(s: Area, p: nat, k: nat)
    requires Separate(s.blocks) && k < |s.pools| && Below(s.blocks, p)
    ensures Separate(Add(s, p, k).blocks) && p !in s.blocks && Below(Add(s, p, k).blocks, p + Pow2(k))
  {
    var t := Add(s, p, k).blocks;
    assert p !in s.blocks;
    forall x, y | x in t && y in t && x < y
      ensures x + Pow2(t[x].order) <= y
    {
      assert x in s.blocks;
    }
  }

  lemma AddLists(s: Area, p: nat, k: nat, j: nat)
    requires k < |s.pools| && j < |s.pools| && p !in s.blocks && Lists(s.pools[j], s.blocks, j)
    ensures Lists(Add(s, p, k).pools[j], Add(s, p, k).blocks, j)
  {
    assert j == k ==> Add(s, p, k).pools[j] == [p] + s.pools[j];
  }

  lemma AddStructure(s: Area, p: nat, k: nat)
    requires Structure(s) && k < LMAX && Below(s.blocks, p)
    requires p + Pow2(k) <= |s.padrs| && Contiguous(s.padrs, p, Pow2(k))
    ensures Structure(Add(s, p, k)) && Below(Add(s, p, k).blocks, p + Pow2(k)) && p !in s.blocks
  {
    AddFits(s, p, k);
    AddSeparate(s, p, k);
    forall j | 0 <= j < LMAX
      ensures Lists(Add(s, p, k).pools[j], Add(s, p, k).blocks, j)
    {
      assert Lists(s.pools[j], s.blocks, j);
      AddLists(s, p, k, j);
    }
  }

  /** In a run starting at a, a block smaller than those before it joins nothing. */
  lemma AddMerged(s: Area, a: nat, p: nat, k: nat)
    requires PoolsMatch(s.pools, s.blocks) && FullyMerged(s.padrs, s.pools) && k < LMAX - 1
    requires Below(s.blocks, p) && a <= p && Larger(s.blocks, a, k) && Detached(s.padrs, s.blocks, a)
    requires forall x :: x in s.blocks && x < a ==> x + Pow2(s.blocks[x].order) <= a
    ensures FullyMerged(s.padrs, Add(s, p, k).pools)
  {
    var t := Add(s, p, k);
    forall j | 0 <= j < LMAX - 1
      ensures Unmergeable(s.padrs, t.pools[j], j)
    {
      assert Unmergeable(s.padrs, s.pools[j], j) && Lists(s.pools[j], s.blocks, j);
      if j == k {
        assert t.pools[k] == [p] + s.pools[k];
        forall x, y | x in t.pools[k] && y in t.pools[k]
          ensures !Joins(s.padrs, x, y, k)
        {
          assert x != p ==> x in s.pools[k] && x < a;
          assert y != p ==> y in s.pools[k] && y < a;
        }
      }
    }
  }

  // ---------- descriptors during mounting ----------

  /** A page the scan may put in a run of the area. */
  predicate Eligible(x: Desc, kind: nat) {
    x.marty == kind && x.refcnt == 0 && x.free && !x.alloc
  }

  /** `continumsadsc_is_ok` on two neighbours: both may be mounted and they are contiguous. */
  predicate Continues(x: Desc, y: Desc, kind: nat) {
    Eligible(x, kind) && Eligible(y, kind) && x.padrs + 1 == y.padrs
  }

  /** The n pages from start on may be mounted and each follows the one before. */
  ghost predicate IsRun(d: seq<Desc>, start: nat, n: nat, kind: nat) {
    && start + n <= |d|
    && (forall i :: start <= i < start + n ==> Eligible(d[i], kind))
    && (forall i :: start <= i < start + n - 1 ==> Continues(d[i], d[i + 1], kind))
  }

  ghost predicate Untouched(d: seq<Desc>, d0: seq<Desc>, p: nat) {
    |d| == |d0| && forall i :: p <= i < |d| ==> d[i] == d0[i]
  }

  /** The area's pages as the boot code leaves them, with a non-mountable descriptor after the last. */
  ghost predicate Fresh(d: seq<Desc>, n: nat, kind: nat) {
    && n < |d| && !Eligible(d[n], kind)
    && (forall i :: 0 <= i < n && Eligible(d[i], kind) ==> d[i].olkty == Init && d[i].odlink == Null)
    && (forall i :: 0 <= i < n && d[i].olkty == Oder ==>
        d[i].marty != kind && d[i].odlink.ToPage? && d[i].odlink.page < n)
  }

  ghost predicate AllFree(blocks: map<nat, Block>) {
    forall x :: x in blocks ==> blocks[x].refs == 0
  }

  lemma {:induction false} NothingLive(blocks: map<nat, Block>, m: nat)
    requires AllFree(blocks)
    ensures LiveSum(blocks, m) == 0
  {
    if m > 0 {
      NothingLive(blocks, m - 1);
    }
  }

  /** Below p exactly the eligible pages are covered. */
  ghost predicate CoveredBelow(blocks: map<nat, Block>, d0: seq<Desc>, kind: nat, p: nat)
    requires p <= |d0|
  {
    forall i {:trigger Covers(blocks, i)} :: 0 <= i < p ==> (Covers(blocks, i) <==> Eligible(d0[i], kind))
  }

  ghost predicate SameIdentity(d: seq<Desc>, d0: seq<Desc>) {
    |d| == |d0| && forall i :: 0 <= i < |d| ==> d[i].padrs == d0[i].padrs && d[i].marty == d0[i].marty
  }

  lemma AddCovers(s: Area, p: nat, k: nat, i: nat)
    requires k < |s.pools| && p !in s.blocks
    ensures Covers(Add(s, p, k).blocks, i) <==> Covers(s.blocks, i) || p <= i < p + Pow2(k)
  {
    var t := Add(s, p, k).blocks;
    if Covers(s.blocks, i) {
      var x :| InBlock(s.blocks, x, i);
      assert InBlock(t, x, i);
    }
    if p <= i < p + Pow2(k) {
      assert InBlock(t, p, i);
    }
    if Covers(t, i) {
      var x :| InBlock(t, x, i);
      assert x != p ==> InBlock(s.blocks, x, i);
    }
  }

  lemma AddCoveredBelow(s: Area, d0: seq<Desc>, kind: nat, p: nat, k: nat)
    requires k < |s.pools| && p !in s.blocks && Below(s.blocks, p) && p + Pow2(k) <= |d0|
    requires CoveredBelow(s.blocks, d0, kind, p)
    requires forall i :: p <= i < p + Pow2(k) ==> Eligible(d0[i], kind)
    ensures CoveredBelow(Add(s, p, k).blocks, d0, kind, p + Pow2(k))
  {
    forall i | 0 <= i < p + Pow2(k)
      ensures Covers(Add(s, p, k).blocks, i) <==> Eligible(d0[i], kind)
    {
      AddCovers(s, p, k, i);
    }
  }

  lemma AddTags(d: seq<Desc>, e: seq<Desc>, s: Area, p: nat, k: nat)
    requires k < |s.pools| && Below(s.blocks, p) && Tagged(d, s.blocks)
    requires p + Pow2(k) <= |d| && AgreeOutside(d, e, p, p + Pow2(k)) && FreeTags(e, p, k)
    ensures Tagged(e, Add(s, p, k).blocks)
  {
    var t := Add(s, p, k).blocks;
    forall x | x in t
      ensures x + Pow2(t[x].order) <= |e| && BlockTags(e, x, t[x])
    {
      if x != p {
        assert x in s.blocks;
        TagsLocal(d, e, x, t[x], p, p + Pow2(k));
      }
    }
  }

  lemma AddOwned(d: seq<Desc>, e: seq<Desc>, n: nat, s: Area, p: nat, k: nat, kind: nat)
    requires k < |s.pools| && p !in s.blocks && n <= |d| && Owned(d, n, s.blocks, kind)
    requires AgreeOutside(d, e, p, p + Pow2(k))
    requires forall i :: p <= i < p + Pow2(k) && i < n ==> d[i].marty == kind
    ensures Owned(e, n, Add(s, p, k).blocks, kind)
  {
    forall i | 0 <= i < n
      ensures if Covers(Add(s, p, k).blocks, i) then e[i].marty == kind
        else e[i].olkty == Oder ==> e[i].marty != kind && e[i].odlink.ToPage? && e[i].odlink.page < n
    {
      AddCovers(s, p, k, i);
      assert Covers(s.blocks, i) ==> d[i].marty == kind;
    }
  }

  /** The writes that hang a fresh block on pool k. */
  function AddWrites(d: seq<Desc>, p: nat, k: nat): seq<Desc>
    requires p + Pow2(k) <= |d|
  {
    var e := p + Pow2(k) - 1;
    var d1 := d[p := d[p].(olkty := Oder, odlink := ToPage(e))];
    d1[e := d1[e].(olkty := Bafh, odlink := ToPool(k))]
  }

  lemma AddBlockTags(d: seq<Desc>, p: nat, k: nat)
    requires p + Pow2(k) <= |d|
    requires forall i :: p <= i < p + Pow2(k) ==> Idle(d[i]) && d[i].olkty == Init && d[i].odlink == Null
    ensures FreeTags(AddWrites(d, p, k), p, k)
    ensures AgreeOutside(d, AddWrites(d, p, k), p, p + Pow2(k))
  {
  }

  // ---------- progress of the scan ----------

  /** The area's blocks after everything below p has been mounted. */
  ghost predicate Laid(s: Area, d0: seq<Desc>, n: nat, kind: nat, p: nat) {
    && Structure(s) && FullyMerged(s.padrs, s.pools) && AllFree(s.blocks)
    && s.freePages == s.maxPages == FreeSum(s.pools, |s.pools|) && s.allocPages == 0 && s.maxPages <= p <= n
    && |s.padrs| == n <= |d0| && Below(s.blocks, p) && CoveredBelow(s.blocks, d0, kind, p)
  }

  /** The table d started as d0, records the blocks and is unchanged from p on. */
  ghost predicate Retagged(d: seq<Desc>, d0: seq<Desc>, n: nat, s: Area, kind: nat, p: nat) {
    Rep(d, n, s.padrs, s.blocks, kind) && Fresh(d0, n, kind) && Untouched(d, d0, p) && SameIdentity(d, d0)
  }

  /** Everything below p is mounted. */
  ghost predicate Mounted(d: seq<Desc>, d0: seq<Desc>, n: nat, s: Area, kind: nat, p: nat) {
    Laid(s, d0, n, kind, p) && Retagged(d, d0, n, s, kind, p)
  }

  /** The run a..b is being carved and p is the first page not yet in a block. */
  ghost predicate Carving(s: Area, d0: seq<Desc>, kind: nat, a: nat, p: nat, b: nat) {
    && a <= p <= b < |d0| && b <= |s.padrs|
    && (forall i :: a <= i < b ==> Eligible(d0[i], kind)) && Contiguous(s.padrs, a, b - a)
    && (forall x :: x in s.blocks && x < a ==> x + Pow2(s.blocks[x].order) <= a)
    && Detached(s.padrs, s.blocks, a)
    && (p < b ==> Larger(s.blocks, a, HighBit(b - p)))
  }

  /** Everything below p is mounted, p being the first page not yet carved of the run a..b. */
  ghost predicate CarvedTo(d: seq<Desc>, d0: seq<Desc>, n: nat, s: Area, kind: nat, a: nat, p: nat, b: nat) {
    Mounted(d, d0, n, s, kind, p) && Carving(s, d0, kind, a, p, b) && b <= n
  }

  lemma CarveCounts(s: Area, p: nat, k: nat)
    requires |s.pools| == LMAX && k < LMAX && s.freePages == s.maxPages == FreeSum(s.pools, |s.pools|)
    ensures var t := Add(s, p, k); t.freePages == t.maxPages == FreeSum(t.pools, |t.pools|)
  {
    FreeSumPush(s.pools, k, [p] + s.pools[k], |s.pools|);
  }

  lemma CarveLaid(d0: seq<Desc>, n: nat, s: Area, kind: nat, a: nat, p: nat, b: nat, k: nat)
    requires Laid(s, d0, n, kind, p) && Carving(s, d0, kind, a, p, b) && b <= n && p + Pow2(k) <= b
    requires k < LMAX - 1 && Larger(s.blocks, a, k)
    ensures Laid(Add(s, p, k), d0, n, kind, p + Pow2(k)) && p !in s.blocks
  {
    ContiguousParts(s.padrs, a, p - a, b - a);
    ContiguousParts(s.padrs, p, Pow2(k), b - p);
    AddStructure(s, p, k);
    AddMerged(s, a, p, k);
    AddCoveredBelow(s, d0, kind, p, k);
    CarveCounts(s, p, k);
  }

  lemma CarveTags(d: seq<Desc>, d0: seq<Desc>, n: nat, s: Area, kind: nat, p: nat, k: nat)
    requires Retagged(d, d0, n, s, kind, p) && Below(s.blocks, p) && p !in s.blocks
    requires k < |s.pools| && p + Pow2(k) <= n && forall i :: p <= i < p + Pow2(k) ==> Eligible(d0[i], kind)
    ensures Retagged(AddWrites(d, p, k), d0, n, Add(s, p, k), kind, p + Pow2(k))
  {
    assert forall i :: p <= i < p + Pow2(k) ==> d[i] == d0[i];
    var e := AddWrites(d, p, k);
    AddBlockTags(d, p, k);
    AddTags(d, e, s, p, k);
    AddOwned(d, e, n, s, p, k, kind);
  }

  lemma CarveOn(s: Area, d0: seq<Desc>, kind: nat, a: nat, p: nat, b: nat, k: nat)
    requires Carving(s, d0, kind, a, p, b) && p < b && k == HighBit(b - p) && k < |s.pools|
    requires p !in s.blocks
    ensures Carving(Add(s, p, k), d0, kind, a, p + Pow2(k), b)
  {
    RestIsSmaller(b - p);
    var t := Add(s, p, k).blocks;
    assert forall x :: x in t && x < a ==> x in s.blocks;
    if p + Pow2(k) < b {
      LargerOn(s, a, p, k, HighBit(b - p - Pow2(k)));
    }
  }

  lemma LargerOn(s: Area, a: nat, p: nat, k: nat, j: nat)
    requires Larger(s.blocks, a, k) && k < |s.pools| && j < k
    ensures Larger(Add(s, p, k).blocks, a, j)
  {
    forall x | x in Add(s, p, k).blocks && x >= a
      ensures Add(s, p, k).blocks[x].order > j
    {
      assert x != p ==> x in s.blocks;
    }
  }

  /** The numbers in the orders of a mountable run name pools. */
  lemma {:induction false} OrdersArePools(n: nat)
    requires n < RUN_LIMIT
    ensures forall i :: 0 <= i < |Orders(n)| ==> Orders(n)[i] < LMAX
  {
    if n > 0 {
      OrdersAreBits(n);
      HighBitBelow(n);
    }
  }

  lemma EmptyMounted(d: seq<Desc>, n: nat, s: Area, kind: nat)
    requires Fresh(d, n, kind) && s.blocks == map[] && |s.pools| == LMAX && |s.padrs| == n
    requires forall k :: 0 <= k < LMAX ==> s.pools[k] == []
    requires s.freePages == s.maxPages == s.allocPages == 0
    requires forall i :: 0 <= i < n ==> d[i].padrs == s.padrs[i]
    ensures Mounted(d, d, n, s, kind, 0)
  {
    EmptySum(s.pools, |s.pools|);
    assert forall k :: 0 <= k < LMAX ==> Lists(s.pools[k], s.blocks, k);
  }

  lemma {:induction false} EmptySum(pools: seq<seq<nat>>, m: nat)
    requires m <= |pools| && forall k :: 0 <= k < m ==> pools[k] == []
    ensures FreeSum(pools, m) == 0
  {
    if m > 0 {
      EmptySum(pools, m - 1);
    }
  }

  /** Pages that may not be mounted are skipped. */
  lemma SkipIneligible(d: seq<Desc>, d0: seq<Desc>, n: nat, s: Area, kind: nat, p: nat, q: nat)
    requires Mounted(d, d0, n, s, kind, p) && p <= q <= n
    requires forall i :: p <= i < q ==> !Eligible(d0[i], kind)
    ensures Mounted(d, d0, n, s, kind, q)
  {
    forall i | p <= i < q
      ensures !Covers(s.blocks, i)
    {
    }
  }

  /** A run that starts where the last one was broken off, or later, joins no mounted block. */
  lemma RunStarts(d: seq<Desc>, d0: seq<Desc>, n: nat, s: Area, kind: nat, a: nat, b: nat)
    requires Mounted(d, d0, n, s, kind, a) && a < b <= n
    requires a > 0 ==> !Continues(d0[a - 1], d0[a], kind)
    requires forall i :: a <= i < b ==> Eligible(d0[i], kind)
    requires forall i :: a <= i < b - 1 ==> Continues(d0[i], d0[i + 1], kind)
    ensures Carving(s, d0, kind, a, a, b)
  {
    RunContiguous(d0, n, s.padrs, kind, a, b - a);
    forall x | x in s.blocks && x < a
      ensures !Joins(s.padrs, x, a, s.blocks[x].order)
    {
      if x + Pow2(s.blocks[x].order) == a {
        assert InBlock(s.blocks, x, a - 1);
        assert Covers(s.blocks, a - 1);
      }
    }
  }

  lemma {:induction false} RunContiguous(d0: seq<Desc>, n: nat, padrs: seq<nat>, kind: nat, a: nat, m: nat)
    requires |padrs| == n <= |d0| && a + m <= n && forall i :: 0 <= i < n ==> d0[i].padrs == padrs[i]
    requires forall i :: a <= i < a + m - 1 ==> Continues(d0[i], d0[i + 1], kind)
    ensures Contiguous(padrs, a, m)
  {
    if m > 1 {
      RunContiguous(d0, n, padrs, kind, a, m - 1);
      assert Continues(d0[a + m - 2], d0[a + m - 2 + 1], kind);
    }
  }

  function PageNumbers(d: seq<Desc>, n: nat): (q: seq<nat>)
    requires n <= |d|
    ensures |q| == n && forall i :: 0 <= i < n ==> q[i] == d[i].padrs
  {
    if n == 0 then [] else PageNumbers(d, n - 1) + [d[n - 1].padrs]
  }

  lemma LastOrder()
    ensures Pow2(LMAX - 1) == RUN_LIMIT
  {
    assert Pow2(3) == 8 && Pow2(8) == 0x100;
    Pow2Add(8, 8);
    Pow2Add(16, 16);
    Pow2Add(32, 16);
    Pow2Add(48, 3);
  }

  lemma CarveFits(d: seq<Desc>, d0: seq<Desc>, n: nat, s: Area, kind: nat, a: nat, p: nat, b: nat, k: nat)
    requires CarvedTo(d, d0, n, s, kind, a, p, b)
    requires p < b && k == HighBit(b - p) && b - p < RUN_LIMIT
    ensures k < LMAX - 1 && p + Pow2(k) <= b <= |d| && |s.pools| == LMAX
  {
    HighBitBelow(b - p);
  }

  /** One turn of the carve loop keeps everything the loop relies on. */
  lemma CarveTurn(d: seq<Desc>, d0: seq<Desc>, n: nat, s: Area, kind: nat, a: nat, p: nat, b: nat, k: nat)
    requires CarvedTo(d, d0, n, s, kind, a, p, b) && p < b && k == HighBit(b - p) && k < LMAX - 1
    requires p + Pow2(k) <= b <= |d| && |s.pools| == LMAX
    ensures CarvedTo(AddWrites(d, p, k), d0, n, Add(s, p, k), kind, a, p + Pow2(k), b)
  {
    CarveLaid(d0, n, s, kind, a, p, b, k);
    CarveTags(d, d0, n, s, kind, p, k);
    CarveOn(s, d0, kind, a, p, b, k);
  }

  lemma AddRunStep(s: Area, p: nat, n: nat, k: nat, q: nat, m: nat)
    requires |s.pools| == LMAX && 0 < n < RUN_LIMIT && k == HighBit(n) && q == p + Pow2(k) && n == m + Pow2(k)
    ensures k < LMAX && AddRun(s, p, n) == AddRun(Add(s, p, k), q, m)
  {
    HighBitBelow(n);
  }

  /** The writes that carve a run of n pages at p. */
  function CarveDescs(d: seq<Desc>, p: nat, n: nat): (e: seq<Desc>)
    requires p + n <= |d|
    ensures |e| == |d|
    decreases n
  {
    if n == 0 then d
    else
      var k := HighBit(n);
      CarveDescs(AddWrites(d, p, k), p + Pow2(k), n - Pow2(k))
  }

  lemma CarveDescsStep(d: seq<Desc>, p: nat, n: nat, k: nat, q: nat, m: nat)
    requires p + n <= |d| && 0 < n && k == HighBit(n) && q == p + Pow2(k) && n == m + Pow2(k)
    ensures CarveDescs(d, p, n) == CarveDescs(AddWrites(d, p, k), q, m)
  {
  }

  /** The first page not yet carved of the run a..b is p, and carving the m pages left leads to e and t. */
  ghost predicate CarvesTo(d: seq<Desc>, d0: seq<Desc>, n: nat, s: Area, kind: nat, a: nat, p: nat, b: nat,
      m: nat, e: seq<Desc>, t: Area)
  {
    && CarvedTo(d, d0, n, s, kind, a, p, b) && b == p + m <= |d| && m < RUN_LIMIT && |s.pools| == LMAX
    && e == CarveDescs(d, p, m) && t == AddRun(s, p, m)
  }

  lemma CarveOneMore(d: seq<Desc>, d0: seq<Desc>, n: nat, s: Area, kind: nat, a: nat, p: nat, b: nat,
      m: nat, e: seq<Desc>, t: Area) returns (d1: seq<Desc>, u: Area, q: nat, left: nat)
    requires CarvesTo(d, d0, n, s, kind, a, p, b, m, e, t) && m > 0
    ensures CarvesTo(d1, d0, n, u, kind, a, q, b, left, e, t) && left < m
  {
    var k := HighBit(m);
    CarveFits(d, d0, n, s, kind, a, p, b, k);
    CarveTurn(d, d0, n, s, kind, a, p, b, k);
    d1, u, q, left := AddWrites(d, p, k), Add(s, p, k), p + Pow2(k), m - Pow2(k);
    AddRunStep(s, p, m, k, q, left);
    CarveDescsStep(d, p, m, k, q, left);
  }

  /** The whole carve loop: the run is mounted. */
  lemma {:induction false} CarveAll(d: seq<Desc>, d0: seq<Desc>, n: nat, s: Area, kind: nat, a: nat, p: nat, b: nat,
      m: nat, e: seq<Desc>, t: Area)
    requires CarvesTo(d, d0, n, s, kind, a, p, b, m, e, t)
    ensures Mounted(e, d0, n, t, kind, b)
    decreases m
  {
    if m > 0 {
      var d1, u, q, left := CarveOneMore(d, d0, n, s, kind, a, p, b, m, e, t);
      CarveAll(d1, d0, n, u, kind, a, q, b, left, e, t);
    }
  }

  /** The scan found the run of m pages at a, skipping only pages that may not be mounted. */
  lemma RunFound(d: seq<Desc>, d0: seq<Desc>, n: nat, s: Area, kind: nat, from: nat, a: nat, m: nat, z: nat)
    requires Mounted(d, d0, n, s, kind, from) && from <= a && z == a + m <= n && IsRun(d, a, m, kind)
    requires from > 0 ==> !Continues(d0[from - 1], d0[from], kind)
    requires forall i :: from <= i < a ==> !Eligible(d[i], kind)
    requires if m == 0 then from < n && a == n else !Continues(d[a + m - 1], d[a + m], kind)
    ensures if m == 0 then Mounted(d, d0, n, s, kind, z) else CarvedTo(d, d0, n, s, kind, a, a, z)
    ensures from < z < |d0| && !Continues(d0[z - 1], d0[z], kind)
  {
    SkipIneligible(d, d0, n, s, kind, from, a);
    if m > 0 {
      RunStarts(d, d0, n, s, kind, a, a + m);
    }
  }
}
