/**
  The tags by which page descriptors record blocks: the head of a free block links to its tail,
  the tail links to its pool, head and tail of a live block carry the reference count, and every
  page in between is untouched.
*/
module PageTags {
  import opened BitMath
  import opened Sequences
  import opened PageArea
  import opened PageAreaLaws

  datatype LinkType = Init | Oder | Bafh                         // mf_olkty
  datatype Link = Null | ToPage(page: nat) | ToPool(pool: nat)  // md_odlink

  /** One `msadsc_t`: link type and link, reference count, allocation bit, area type, page number. */
  datatype Desc = Desc(olkty: LinkType, odlink: Link, refcnt: nat, alloc: bool,
                       free: bool, marty: nat, padrs: nat)

  predicate Idle(x: Desc) { x.refcnt == 0 && !x.alloc }

  ghost predicate Interior(d: seq<Desc>, h: nat, e: nat)
    requires e < |d|
  {
    forall i :: h < i < e ==> Idle(d[i]) && d[i].olkty == Init && d[i].odlink == Null
  }

  ghost predicate FreeTags(d: seq<Desc>, h: nat, k: nat)
    requires h + Pow2(k) <= |d|
  {
    var e := h + Pow2(k) - 1;
    && Idle(d[h]) && Idle(d[e])
    && d[e].olkty == Bafh && d[e].odlink == ToPool(k)
    && (h < e ==> d[h].olkty == Oder && d[h].odlink == ToPage(e))
    && Interior(d, h, e)
  }

  ghost predicate LiveTags(d: seq<Desc>, h: nat, k: nat, refs: nat)
    requires h + Pow2(k) <= |d|
  {
    var e := h + Pow2(k) - 1;
    && d[h].olkty == Oder && d[h].odlink == ToPage(e)
    && d[h].alloc && d[h].refcnt == refs && d[e].alloc && d[e].refcnt == refs
    && (h < e ==> d[e].olkty != Oder)
    && Interior(d, h, e)
  }

  /** A block taken off its list and not yet marked: its head already links to its tail. */
  ghost predicate LooseTags(d: seq<Desc>, h: nat, k: nat)
    requires h + Pow2(k) <= |d|
  {
    var e := h + Pow2(k) - 1;
    && Idle(d[h]) && Idle(d[e])
    && d[h].olkty == Oder && d[h].odlink == ToPage(e)
    && (h < e ==> d[e].olkty != Oder)
    && Interior(d, h, e)
  }

  ghost predicate BlockTags(d: seq<Desc>, h: nat, b: Block)
    requires h + Pow2(b.order) <= |d|
  {
    if b.refs == 0 then FreeTags(d, h, b.order) else LiveTags(d, h, b.order, b.refs)
  }

  ghost predicate InTable(d: seq<Desc>, blocks: map<nat, Block>) {
    forall x :: x in blocks ==> x + Pow2(blocks[x].order) <= |d|
  }

  /** Every block other than the one at `but` is tagged as recorded. */
  ghost predicate TaggedBut(d: seq<Desc>, blocks: map<nat, Block>, but: nat) {
    InTable(d, blocks) && forall x :: x in blocks && x != but ==> BlockTags(d, x, blocks[x])
  }

  ghost predicate Tagged(d: seq<Desc>, blocks: map<nat, Block>) {
    InTable(d, blocks) && forall x :: x in blocks ==> BlockTags(d, x, blocks[x])
  }

  /** d and e differ at most in the tags of pages lo..hi. */
  ghost predicate AgreeOutside(d: seq<Desc>, e: seq<Desc>, lo: nat, hi: nat) {
    && |d| == |e|
    && (forall i :: 0 <= i < |d| ==> d[i].padrs == e[i].padrs && d[i].marty == e[i].marty && d[i].free == e[i].free)
    && (forall i :: 0 <= i < |d| && !(lo <= i < hi) ==> d[i] == e[i])
  }

  lemma TagsLocal(d: seq<Desc>, e: seq<Desc>, x: nat, b: Block, lo: nat, hi: nat)
    requires AgreeOutside(d, e, lo, hi)
    requires x + Pow2(b.order) <= |d| && BlockTags(d, x, b)
    requires x + Pow2(b.order) <= lo || hi <= x
    ensures BlockTags(e, x, b)
  {
  }

  /** Changing the pages of the block at h leaves the tags of the others alone. */
  lemma OthersKeepTags(d: seq<Desc>, e: seq<Desc>, blocks: map<nat, Block>, h: nat)
    requires TaggedBut(d, blocks, h) && Separate(blocks) && h in blocks
    requires AgreeOutside(d, e, h, h + Pow2(blocks[h].order))
    ensures TaggedBut(e, blocks, h)
  {
    forall x | x in blocks && x != h
      ensures BlockTags(e, x, blocks[x])
    {
      TagsLocal(d, e, x, blocks[x], h, h + Pow2(blocks[h].order));
    }
  }

  /** The descriptor writes of one turn of the split loop. */
  function SplitWrites(d: seq<Desc>, h: nat, k: nat): seq<Desc>
    requires h + Pow2(k + 1) <= |d|
  {
    var m, e := h + Pow2(k), h + Pow2(k + 1) - 1;
    var d1 := d[m := d[m].(olkty := Oder, odlink := ToPage(e))];
    var d2 := d1[e := d1[e].(olkty := Bafh, odlink := ToPool(k))];
    d2[h := d2[h].(odlink := ToPage(m - 1))]
  }

  /** ...and of all its turns, from order k down to r. */
  function SplitDescs(d: seq<Desc>, h: nat, k: nat, r: nat): (e: seq<Desc>)
    requires r <= k && h + Pow2(k) <= |d|
    ensures |e| == |d|
    decreases k
  {
    if k == r then d
    else
      assert Pow2(k - 1) < Pow2(k);
      SplitDescs(SplitWrites(d, h, k - 1), h, k - 1, r)
  }

  lemma SplitDescsStep(d: seq<Desc>, h: nat, k: nat, r: nat, j: nat, d1: seq<Desc>)
    requires r < k == j + 1 && h + Pow2(k) <= |d| && d1 == SplitWrites(d, h, j)
    ensures h + Pow2(j) <= |d1| && SplitDescs(d, h, k, r) == SplitDescs(d1, h, j, r)
  {
  }

  lemma HalvesTags(d: seq<Desc>, h: nat, k: nat)
    requires h + Pow2(k + 1) <= |d| && LooseTags(d, h, k + 1)
    ensures Pow2(k + 1) == 2 * Pow2(k)
    ensures LooseTags(SplitWrites(d, h, k), h, k)
    ensures FreeTags(SplitWrites(d, h, k), h + Pow2(k), k)
    ensures AgreeOutside(d, SplitWrites(d, h, k), h, h + Pow2(k + 1))
  {
  }

  lemma SplitTags(d: seq<Desc>, e: seq<Desc>, s: Area, h: nat, k: nat)
    requires TaggedBut(d, s.blocks, h) && Separate(s.blocks) && LiveAt(s, h, k + 1) && k < |s.pools|
    requires h + Pow2(k) !in s.blocks && Pow2(k + 1) == 2 * Pow2(k)
    requires AgreeOutside(d, e, h, h + Pow2(k + 1)) && h + Pow2(k + 1) <= |d| && FreeTags(e, h + Pow2(k), k)
    ensures TaggedBut(e, SplitOnce(s, h, k + 1).blocks, h)
  {
    var t := SplitOnce(s, h, k + 1).blocks;
    OthersKeepTags(d, e, s.blocks, h);
    forall x | x in t
      ensures x + Pow2(t[x].order) <= |e| && (x != h ==> BlockTags(e, x, t[x]))
    {
      if x != h + Pow2(k) {
        assert x in s.blocks;
        assert x != h ==> t[x] == s.blocks[x];
      }
    }
  }

  /** Marking the block at h allocated. */
  function AllocWrites(d: seq<Desc>, h: nat, e: nat): seq<Desc>
    requires h <= e < |d|
  {
    var d1 := d[h := d[h].(refcnt := d[h].refcnt + 1, alloc := true, olkty := Oder, odlink := ToPage(e))];
    if h == e then d1 else d1[e := d1[e].(refcnt := d1[e].refcnt + 1, alloc := true)]
  }

  lemma AllocBlockTags(d: seq<Desc>, h: nat, k: nat)
    requires h + Pow2(k) <= |d| && (FreeTags(d, h, k) || LooseTags(d, h, k))
    ensures LiveTags(AllocWrites(d, h, h + Pow2(k) - 1), h, k, 1)
    ensures AgreeOutside(d, AllocWrites(d, h, h + Pow2(k) - 1), h, h + Pow2(k))
  {
  }

  /** Dropping one reference; the last one also retags the block as free. */
  function FreeWrites(d: seq<Desc>, h: nat, e: nat, k: nat): seq<Desc>
    requires h <= e < |d| && d[h].refcnt > 0 && d[e].refcnt > 0
  {
    var d1 := d[h := d[h].(refcnt := d[h].refcnt - 1)];
    var d2 := if h == e then d1 else d1[e := d1[e].(refcnt := d1[e].refcnt - 1)];
    if d2[h].refcnt > 0 then d2
    else
      var d3 := d2[h := d2[h].(alloc := false, olkty := Oder, odlink := ToPage(e))];
      d3[e := d3[e].(alloc := false, olkty := Bafh, odlink := ToPool(k))]
  }

  lemma FreeBlockTags(d: seq<Desc>, h: nat, k: nat, refs: nat)
    requires refs > 0 && h + Pow2(k) <= |d| && LiveTags(d, h, k, refs)
    ensures var e := FreeWrites(d, h, h + Pow2(k) - 1, k);
      && AgreeOutside(d, e, h, h + Pow2(k))
      && if refs == 1 then FreeTags(e, h, k) else LiveTags(e, h, k, refs - 1)
  {
  }

  /** Retagging two adjacent free blocks of order k, at a and b, as one of order k+1. */
  function MergeWrites(d: seq<Desc>, a: nat, b: nat, k: nat): seq<Desc>
    requires a + Pow2(k) == b && b + Pow2(k) <= |d|
  {
    var e := b + Pow2(k) - 1;
    var d1 := d[b - 1 := d[b - 1].(olkty := Init, odlink := Null)];
    var d2 := d1[b := d1[b].(olkty := Init, odlink := Null)];
    var d3 := d2[a := d2[a].(olkty := Oder, odlink := ToPage(e))];
    d3[e := d3[e].(olkty := Bafh, odlink := ToPool(k + 1))]
  }

  lemma MergedBlockTags(d: seq<Desc>, a: nat, b: nat, k: nat)
    requires a + Pow2(k) == b && b + Pow2(k) <= |d| && FreeTags(d, a, k) && FreeTags(d, b, k)
    ensures Pow2(k + 1) == 2 * Pow2(k)
    ensures FreeTags(MergeWrites(d, a, b, k), a, k + 1)
    ensures AgreeOutside(d, MergeWrites(d, a, b, k), a, b + Pow2(k))
  {
  }

  lemma JoinKeepsTags(d: seq<Desc>, e: seq<Desc>, blocks: map<nat, Block>, h: nat, a: nat, b: nat, t: map<nat, Block>)
    requires TaggedBut(d, blocks, h) && Separate(blocks) && a in blocks && b in blocks && a < b
    requires h == a || h == b
    requires t.Keys == blocks.Keys - {b} && forall x :: x in t && x != a ==> t[x] == blocks[x]
    requires a + Pow2(t[a].order) <= |d|
    requires AgreeOutside(d, e, a, b + Pow2(blocks[b].order))
    requires a + Pow2(blocks[a].order) == b
    ensures TaggedBut(e, t, a)
  {
    forall x | x in t
      ensures x + Pow2(t[x].order) <= |e| && (x != a ==> BlockTags(e, x, t[x]))
    {
      if x != a {
        assert x in blocks && x != b;
        TagsLocal(d, e, x, t[x], a, b + Pow2(blocks[b].order));
      }
    }
  }

  /** Recording the block at h differently leaves the other blocks tagged. */
  lemma LoosenTags(d: seq<Desc>, blocks: map<nat, Block>, h: nat, refs: nat)
    requires Tagged(d, blocks) && h in blocks
    ensures TaggedBut(d, blocks[h := Block(blocks[h].order, refs)], h)
  {
  }

  /** Retagging the block at h completes the table. */
  lemma Retag(d: seq<Desc>, e: seq<Desc>, blocks: map<nat, Block>, h: nat, b: Block)
    requires TaggedBut(d, blocks, h) && Separate(blocks) && h in blocks && b.order == blocks[h].order
    requires AgreeOutside(d, e, h, h + Pow2(b.order)) && BlockTags(e, h, b)
    ensures Tagged(e, blocks[h := b])
  {
    OthersKeepTags(d, e, blocks, h);
    var t := blocks[h := b];
    forall x | x in t
      ensures x + Pow2(t[x].order) <= |e| && BlockTags(e, x, t[x])
    {
      assert x in blocks;
    }
  }

  /** The pages of the area carry its type, and no other page passes for the head of its blocks. */
  ghost predicate Owned(d: seq<Desc>, n: nat, blocks: map<nat, Block>, kind: nat)
    requires n <= |d|
  {
    forall i {:trigger Covers(blocks, i)} :: 0 <= i < n ==>
      if Covers(blocks, i) then d[i].marty == kind
      else d[i].olkty == Oder ==> d[i].marty != kind && d[i].odlink.ToPage? && d[i].odlink.page < n
  }

  /** Rewriting tags of the area's own pages keeps its ownership. */
  lemma OwnedKept(d: seq<Desc>, e: seq<Desc>, n: nat, a: map<nat, Block>, b: map<nat, Block>,
                  kind: nat, lo: nat, hi: nat)
    requires n <= |d| && Owned(d, n, a, kind) && SamePages(a, b)
    requires AgreeOutside(d, e, lo, hi)
    requires forall i :: lo <= i < hi ==> Covers(a, i)
    ensures Owned(e, n, b, kind)
  {
    forall i | 0 <= i < n
      ensures if Covers(b, i) then e[i].marty == kind
        else e[i].olkty == Oder ==> e[i].marty != kind && e[i].odlink.ToPage? && e[i].odlink.page < n
    {
      assert Covers(a, i) <==> Covers(b, i);
    }
  }

  lemma BlockCovers(blocks: map<nat, Block>, h: nat)
    requires h in blocks
    ensures forall i :: h <= i < h + Pow2(blocks[h].order) ==> Covers(blocks, i)
  {
    forall i | h <= i < h + Pow2(blocks[h].order)
      ensures Covers(blocks, i)
    {
      assert InBlock(blocks, h, i);
    }
  }

  lemma FrontTags(d: seq<Desc>, s: Area, k: nat)
    requires PoolsMatch(s.pools, s.blocks) && k < LMAX && s.pools[k] != [] && Tagged(d, s.blocks)
    ensures var h := s.pools[k][0];
      && h in s.blocks && s.blocks[h] == Block(k, 0)
      && h + Pow2(k) <= |d| && FreeTags(d, h, k) && (0 < k ==> LooseTags(d, h, k))
  {
    var h := s.pools[k][0];
    assert Lists(s.pools[k], s.blocks, k) && h in s.pools[k];
    assert BlockTags(d, h, s.blocks[h]);
  }

  // ---------- descriptors represent an area ----------

  /** The first n descriptors of d represent the blocks of an area of the given type. */
  ghost predicate Rep(d: seq<Desc>, n: nat, padrs: seq<nat>, blocks: map<nat, Block>, kind: nat) {
    && |padrs| == n <= |d|
    && (forall i :: 0 <= i < n ==> d[i].padrs == padrs[i])
    && Tagged(d, blocks)
    && Owned(d, n, blocks, kind)
  }

  /** The block at h, of order k, is off its list; every other block of s is tagged. */
  ghost predicate TransitRep(d: seq<Desc>, n: nat, s: Area, h: nat, k: nat, kind: nat) {
    && Structure(s) && k < LMAX && LiveAt(s, h, k)
    && |s.padrs| == n <= |d| && (forall i :: 0 <= i < n ==> d[i].padrs == s.padrs[i])
    && TaggedBut(d, s.blocks, h) && h + Pow2(k) <= |d|
    && Owned(d, n, s.blocks, kind)
  }

  /** Taking the front block of pool k off its list. */
  lemma TakeRep(d: seq<Desc>, n: nat, s: Area, k: nat, kind: nat)
    requires Structure(s) && Rep(d, n, s.padrs, s.blocks, kind) && k < LMAX && s.pools[k] != []
    ensures TransitRep(d, n, Take(s, k), s.pools[k][0], k, kind)
  {
    var h := s.pools[k][0];
    FrontTags(d, s, k);
    TakeStructure(s, k);
    LoosenTags(d, s.blocks, h, 1);
    SameKeysSamePages(s.blocks, Take(s, k).blocks);
    OwnedKept(d, d, n, s.blocks, Take(s, k).blocks, kind, 0, 0);
  }

  /** The front block of pool k, taken off its list, may be split and marked. */
  lemma FrontReady(d: seq<Desc>, n: nat, s: Area, k: nat, kind: nat, h: nat)
    requires Structure(s) && Rep(d, n, s.padrs, s.blocks, kind) && k < LMAX && s.pools[k] != [] && h == s.pools[k][0]
    ensures TransitRep(d, n, Take(s, k), h, k, kind)
    ensures FreeTags(d, h, k) && (0 < k ==> LooseTags(d, h, k))
  {
    FrontTags(d, s, k);
    TakeRep(d, n, s, k, kind);
  }

  lemma SplitOwned(d: seq<Desc>, e: seq<Desc>, n: nat, s: Area, h: nat, k: nat, kind: nat)
    requires n <= |d| && Owned(d, n, s.blocks, kind) && LiveAt(s, h, k + 1) && k < |s.pools|
    requires h + Pow2(k) !in s.blocks && AgreeOutside(d, e, h, h + Pow2(k + 1))
    ensures Owned(e, n, SplitOnce(s, h, k + 1).blocks, kind)
  {
    BlockCovers(s.blocks, h);
    HalvesSamePages(s.blocks, SplitOnce(s, h, k + 1).blocks, h, k);
    OwnedKept(d, e, n, s.blocks, SplitOnce(s, h, k + 1).blocks, kind, h, h + Pow2(k + 1));
  }

  /** Giving the upper half of the loose block at h to pool k. */
  lemma SplitStepRep(d: seq<Desc>, e: seq<Desc>, n: nat, s: Area, h: nat, k: nat, kind: nat)
    requires TransitRep(d, n, s, h, k + 1, kind) && Pow2(k + 1) == 2 * Pow2(k)
    requires AgreeOutside(d, e, h, h + Pow2(k + 1)) && FreeTags(e, h + Pow2(k), k)
    ensures TransitRep(e, n, SplitOnce(s, h, k + 1), h, k, kind)
  {
    SplitSeparate(s, h, k + 1);
    SplitTags(d, e, s, h, k);
    SplitOwned(d, e, n, s, h, k, kind);
    SplitStructure(s, h, k + 1);
  }

  /** The block at h is off its list and cut loose; everything else represents s. */
  ghost predicate Splitting(d: seq<Desc>, n: nat, s: Area, h: nat, k: nat, kind: nat) {
    TransitRep(d, n, s, h, k, kind) && LooseTags(d, h, k)
  }

  /** One turn of the split loop, from order k to k - 1 = j. */
  lemma SplitTurn(d: seq<Desc>, n: nat, s: Area, h: nat, k: nat, j: nat, kind: nat, d1: seq<Desc>, u: Area)
    requires Splitting(d, n, s, h, k, kind) && k == j + 1 && d1 == SplitWrites(d, h, j) && u == SplitOnce(s, h, k)
    ensures Splitting(d1, n, u, h, j, kind)
  {
    HalvesTags(d, h, j);
    SplitStepRep(d, d1, n, s, h, j, kind);
  }

  /** Either the loop is over, or one turn leads from d and s to d1 and u, with e and t ahead. */
  lemma SplitNext(d: seq<Desc>, n: nat, s: Area, h: nat, k: nat, r: nat, kind: nat, e: seq<Desc>, t: Area)
    returns (d1: seq<Desc>, u: Area, j: nat)
    requires Splitting(d, n, s, h, k, kind) && r <= k && e == SplitDescs(d, h, k, r) && t == SplitDown(s, h, k, r)
    ensures r == k ==> Splitting(e, n, t, h, r, kind)
    ensures r < k ==> j < k && r <= j && Splitting(d1, n, u, h, j, kind)
    ensures r < k ==> e == SplitDescs(d1, h, j, r) && t == SplitDown(u, h, j, r)
  {
    d1, u, j := d, s, k;
    if r < k {
      j := k - 1;
      SplitDownStep(s, h, k, r);
      d1, u := SplitWrites(d, h, j), SplitOnce(s, h, k);
      SplitDescsStep(d, h, k, r, j, d1);
      SplitTurn(d, n, s, h, k, j, kind, d1, u);
    }
  }

  /** The whole split loop on the loose block at h: the table represents the area split down as far. */
  lemma {:induction false} SplitAllRep(d: seq<Desc>, n: nat, s: Area, h: nat, k: nat, r: nat, kind: nat,
      e: seq<Desc>, t: Area)
    requires Splitting(d, n, s, h, k, kind) && r <= k && e == SplitDescs(d, h, k, r) && t == SplitDown(s, h, k, r)
    ensures Splitting(e, n, t, h, r, kind)
    decreases k
  {
    var d1, u, j := SplitNext(d, n, s, h, k, r, kind, e, t);
    if r < k {
      SplitAllRep(d1, n, u, h, j, r, kind, e, t);
    }
  }

  /** Marking the block at h allocated. */
  lemma MarkRep(d: seq<Desc>, e: seq<Desc>, n: nat, s: Area, h: nat, k: nat, kind: nat)
    requires TransitRep(d, n, s, h, k, kind) && AgreeOutside(d, e, h, h + Pow2(k)) && LiveTags(e, h, k, 1)
    ensures Rep(e, n, s.padrs, s.blocks, kind)
  {
    Retag(d, e, s.blocks, h, Block(k, 1));
    assert s.blocks[h := Block(k, 1)] == s.blocks;
    BlockCovers(s.blocks, h);
    OwnedKept(d, e, n, s.blocks, s.blocks, kind, h, h + Pow2(k));
  }

  // ---------- release ----------

  /** Where the head of a live block can be: no other page of the table looks like one. */
  lemma OnlyHeadsLookLive(d: seq<Desc>, n: nat, padrs: seq<nat>, blocks: map<nat, Block>, kind: nat, p: nat)
    requires Rep(d, n, padrs, blocks, kind) && p < n && d[p].olkty == Oder
    ensures d[p].odlink.ToPage? && (d[p].marty == kind && d[p].alloc ==> p in blocks && blocks[p].refs > 0)
  {
    if Covers(blocks, p) {
      var g :| InBlock(blocks, g, p);
      assert BlockTags(d, g, blocks[g]);
      assert p == g;
    }
  }

  lemma OderLinksInTable(d: seq<Desc>, n: nat, padrs: seq<nat>, blocks: map<nat, Block>, kind: nat, p: nat)
    requires Rep(d, n, padrs, blocks, kind) && Fits(padrs, blocks) && p < n && d[p].olkty == Oder
    ensures d[p].odlink.ToPage? && d[p].odlink.page < n
  {
    if Covers(blocks, p) {
      var g :| InBlock(blocks, g, p);
      assert BlockTags(d, g, blocks[g]);
      assert p == g;
    }
  }

  /** A live block's descriptors as the release path reads them. */
  lemma LiveBlockTags(d: seq<Desc>, n: nat, padrs: seq<nat>, blocks: map<nat, Block>, kind: nat, h: nat)
    requires Rep(d, n, padrs, blocks, kind) && Fits(padrs, blocks) && h in blocks && blocks[h].refs > 0
    ensures h + Pow2(blocks[h].order) <= n && LiveTags(d, h, blocks[h].order, blocks[h].refs)
    ensures d[h].marty == kind && d[h + Pow2(blocks[h].order) - 1].marty == kind
  {
    assert BlockTags(d, h, blocks[h]);
    assert InBlock(blocks, h, h) && InBlock(blocks, h, h + Pow2(blocks[h].order) - 1);
    assert Covers(blocks, h) && Covers(blocks, h + Pow2(blocks[h].order) - 1);
  }

  /** Every listed block of order k is a free block next to which the one at h may lie. */
  ghost predicate Candidates(d: seq<Desc>, q: seq<nat>, h: nat, k: nat) {
    forall i :: 0 <= i < |q| ==> CandidateBlock(d, q[i], k) && q[i] != h
  }

  ghost predicate CandidateBlock(d: seq<Desc>, g: nat, k: nat) {
    && g + Pow2(k) <= |d| && FreeTags(d, g, k)
    && d[g + Pow2(k) - 1].padrs == d[g].padrs + (Pow2(k) - 1)
  }

  lemma PoolCandidates(d: seq<Desc>, n: nat, s: Area, h: nat, k: nat)
    requires Structure(s) && k < LMAX && LiveAt(s, h, k) && TaggedBut(d, s.blocks, h)
    requires |s.padrs| == n <= |d| && forall i :: 0 <= i < n ==> d[i].padrs == s.padrs[i]
    ensures Candidates(d, s.pools[k], h, k)
    ensures forall i :: 0 <= i < |s.pools[k]| ==> s.pools[k][i] + Pow2(k) <= n
    ensures h + Pow2(k) <= n && d[h + Pow2(k) - 1].padrs == d[h].padrs + (Pow2(k) - 1)
  {
    assert Lists(s.pools[k], s.blocks, k);
    assert Contiguous(s.padrs, h, Pow2(k));
    forall i | 0 <= i < |s.pools[k]|
      ensures CandidateBlock(d, s.pools[k][i], k) && s.pools[k][i] != h && s.pools[k][i] + Pow2(k) <= n
    {
      var g := s.pools[k][i];
      assert g in s.pools[k] && BlockTags(d, g, s.blocks[g]);
      assert Contiguous(s.padrs, g, Pow2(k));
    }
  }

  /** One merge step keeps the rest of the table in order. */
  lemma MergeStepTags(d: seq<Desc>, e: seq<Desc>, s: Area, h: nat, k: nat, i: nat, a: nat, b: nat)
    requires Separate(s.blocks) && k < |s.pools| && i < |s.pools[k]| && LiveAt(s, h, k)
    requires s.pools[k][i] in s.blocks && s.blocks[s.pools[k][i]].order == k
    requires TaggedBut(d, s.blocks, h) && Adjacent(s.padrs, h, s.pools[k][i], k)
    requires a == Min(h, s.pools[k][i]) && b == (if h < s.pools[k][i] then s.pools[k][i] else h)
    requires a + Pow2(k + 1) <= |d| && AgreeOutside(d, e, a, b + Pow2(k))
    ensures TaggedBut(e, Coalesce(s, h, k, i).blocks, a)
  {
    var t := Coalesce(s, h, k, i).blocks;
    assert t.Keys == s.blocks.Keys - {b};
    JoinKeepsTags(d, e, s.blocks, h, a, b, t);
  }

  lemma MergeStepOwned(d: seq<Desc>, e: seq<Desc>, n: nat, s: Area, kind: nat, h: nat, k: nat, i: nat, a: nat, b: nat)
    requires Structure(s) && k < LMAX - 1 && i < |s.pools[k]| && LiveAt(s, h, k)
    requires Adjacent(s.padrs, h, s.pools[k][i], k) && n <= |d| && Owned(d, n, s.blocks, kind)
    requires a == Min(h, s.pools[k][i]) && b == (if h < s.pools[k][i] then s.pools[k][i] else h)
    requires AgreeOutside(d, e, a, b + Pow2(k))
    ensures Owned(e, n, Coalesce(s, h, k, i).blocks, kind)
  {
    assert Lists(s.pools[k], s.blocks, k) && s.pools[k][i] in s.pools[k];
    BlockCovers(s.blocks, a);
    BlockCovers(s.blocks, b);
    CoalesceSamePages(s, h, k, i);
    OwnedKept(d, e, n, s.blocks, Coalesce(s, h, k, i).blocks, kind, a, b + Pow2(k));
  }

  lemma MergeStepRep(d: seq<Desc>, e: seq<Desc>, n: nat, s: Area, h: nat, k: nat, kind: nat, i: nat, a: nat, b: nat)
    requires TransitRep(d, n, s, h, k, kind) && k < LMAX - 1
    requires i == FindNeighbour(s.padrs, s.pools[k], h, k) < |s.pools[k]|
    requires a == Min(h, s.pools[k][i]) && b == (if h < s.pools[k][i] then s.pools[k][i] else h)
    requires a + Pow2(k + 1) <= |d| && AgreeOutside(d, e, a, b + Pow2(k))
    ensures TransitRep(e, n, Coalesce(s, h, k, i), a, k + 1, kind)
  {
    assert Lists(s.pools[k], s.blocks, k) && s.pools[k][i] in s.pools[k];
    MergeStepTags(d, e, s, h, k, i, a, b);
    MergeStepOwned(d, e, n, s, kind, h, k, i, a, b);
    CoalesceStructure(s, h, k, i);
  }

  lemma InsertRep(d: seq<Desc>, n: nat, s: Area, h: nat, k: nat, kind: nat)
    requires TransitRep(d, n, s, h, k, kind) && FreeTags(d, h, k)
    ensures Rep(d, n, s.padrs, Insert(s, h, k).blocks, kind)
  {
    Retag(d, d, s.blocks, h, Block(k, 0));
    SameKeysSamePages(s.blocks, Insert(s, h, k).blocks);
    OwnedKept(d, d, n, s.blocks, Insert(s, h, k).blocks, kind, 0, 0);
  }

  lemma PoolBound(s: Area, k: nat)
    requires Structure(s) && k < LMAX
    ensures |s.pools[k]| <= |s.padrs|
  {
    assert Lists(s.pools[k], s.blocks, k);
    forall i | 0 <= i < |s.pools[k]|
      ensures s.pools[k][i] < |s.padrs|
    {
      assert s.pools[k][i] in s.pools[k];
    }
    DistinctBound(s.pools[k], |s.padrs|);
  }

  /** Rewriting the descriptors of a block held once takes it into transit. */
  lemma DropLastRep(d: seq<Desc>, e: seq<Desc>, n: nat, s: Area, h: nat, k: nat, kind: nat)
    requires Structure(s) && Rep(d, n, s.padrs, s.blocks, kind) && LiveAt(s, h, k)
    requires h + Pow2(k) <= |d| && AgreeOutside(d, e, h, h + Pow2(k))
    ensures TransitRep(e, n, s, h, k, kind)
  {
    assert TaggedBut(d, s.blocks, h);
    OthersKeepTags(d, e, s.blocks, h);
    BlockCovers(s.blocks, h);
    OwnedKept(d, e, n, s.blocks, s.blocks, kind, h, h + Pow2(k));
  }

  lemma DropOneRep(d: seq<Desc>, e: seq<Desc>, n: nat, padrs: seq<nat>, blocks: map<nat, Block>, h: nat, kind: nat)
    requires Separate(blocks) && Rep(d, n, padrs, blocks, kind) && h in blocks && blocks[h].refs > 1
    requires h + Pow2(blocks[h].order) <= |d| && AgreeOutside(d, e, h, h + Pow2(blocks[h].order))
    requires LiveTags(e, h, blocks[h].order, blocks[h].refs - 1)
    ensures Rep(e, n, padrs, blocks[h := Block(blocks[h].order, blocks[h].refs - 1)], kind)
  {
    var b := Block(blocks[h].order, blocks[h].refs - 1);
    assert TaggedBut(d, blocks, h);
    Retag(d, e, blocks, h, b);
    BlockCovers(blocks, h);
    SameKeysSamePages(blocks, blocks[h := b]);
    OwnedKept(d, e, n, blocks, blocks[h := b], kind, h, h + Pow2(b.order));
  }
}
