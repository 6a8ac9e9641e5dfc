/** What every allocation and release keeps, and that a release undoes its allocation. */
module PageAreaLaws {
  import opened BitMath
  import opened Sequences
  import opened PageArea

  // ---------- sums ----------

  lemma {:induction false} FreeSumPush(pools: seq<seq<nat>>, k: nat, q: seq<nat>, m: nat)
    requires k < |pools| && m <= |pools| && |q| == |pools[k]| + 1
    ensures FreeSum(pools[k := q], m) == FreeSum(pools, m) + if k < m then Pow2(k) else 0
  {
    if m > 0 {
      FreeSumPush(pools, k, q, m - 1);
    }
  }

  lemma FreeSumPop(pools: seq<seq<nat>>, k: nat, q: seq<nat>)
    requires k < |pools| && |q| + 1 == |pools[k]|
    ensures FreeSum(pools[k := q], |pools|) + Pow2(k) == FreeSum(pools, |pools|)
  {
    FreeSumPush(pools[k := q], k, pools[k], |pools|);
    assert pools[k := q][k := pools[k]] == pools;
  }

  lemma {:induction false} FreeSumBound(pools: seq<seq<nat>>, k: nat, m: nat)
    requires k < m <= |pools| && pools[k] != []
    ensures FreeSum(pools, m) >= Pow2(k)
  {
    if k < m - 1 {
      FreeSumBound(pools, k, m - 1);
    }
  }

  lemma {:induction false} LiveSumUpdate(a: map<nat, Block>, b: map<nat, Block>, h: nat, m: nat)
    requires forall g :: g != h ==> Weight(a, g) == Weight(b, g)
    ensures LiveSum(b, m) == LiveSum(a, m) + if h < m then Weight(b, h) - Weight(a, h) else 0
  {
    if m > 0 {
      LiveSumUpdate(a, b, h, m - 1);
    }
  }

  function Live(s: Area): nat { LiveSum(s.blocks, |s.padrs|) }

  function Total(s: Area): nat { FreeSum(s.pools, |s.pools|) + Live(s) }

  // ---------- one move at a time ----------

  ghost predicate LiveAt(s: Area, h: nat, k: nat) {
    h in s.blocks && s.blocks[h] == Block(k, 1)
  }

  lemma TakeLists(s: Area, d: nat, k: nat)
    requires d < |s.pools| && k < |s.pools| && s.pools[d] != []
    requires Lists(s.pools[d], s.blocks, d) && Lists(s.pools[k], s.blocks, k)
    ensures Lists(Take(s, d).pools[k], Take(s, d).blocks, k)
  {
    var h := s.pools[d][0];
    assert h in s.pools[d];
    assert s.pools[d] == [h] + Take(s, d).pools[d];
  }

  /** Counting references differently moves no block. */
  lemma RefsSeparate(padrs: seq<nat>, a: map<nat, Block>, h: nat, refs: nat)
    requires Fits(padrs, a) && Separate(a) && h in a
    ensures var b := a[h := Block(a[h].order, refs)];
      Fits(padrs, b) && Separate(b) && b.Keys == a.Keys
  {
    var b := a[h := Block(a[h].order, refs)];
    assert b.Keys == a.Keys && forall x :: x in a ==> b[x].order == a[x].order;
  }

  lemma TakeStructure(s: Area, d: nat)
    requires Structure(s) && d < LMAX && s.pools[d] != []
    ensures Structure(Take(s, d)) && LiveAt(Take(s, d), s.pools[d][0], d)
  {
    assert Lists(s.pools[d], s.blocks, d) && s.pools[d][0] in s.pools[d];
    RefsSeparate(s.padrs, s.blocks, s.pools[d][0], 1);
    forall k | 0 <= k < LMAX
      ensures Lists(Take(s, d).pools[k], Take(s, d).blocks, k)
    {
      TakeLists(s, d, k);
    }
  }

  lemma TakeSums(s: Area, d: nat)
    requires d < |s.pools| && s.pools[d] != [] && s.pools[d][0] < |s.padrs|
    requires !IsLive(s.blocks, s.pools[d][0])
    ensures Total(Take(s, d)) == Total(s) && Live(Take(s, d)) == Live(s) + Pow2(d)
  {
    var h := s.pools[d][0];
    FreeSumPop(s.pools, d, s.pools[d][1..]);
    LiveSumUpdate(s.blocks, Take(s, d).blocks, h, |s.padrs|);
  }

  lemma ContiguousParts(padrs: seq<nat>, h: nat, m: nat, n: nat)
    requires m <= n && h + n <= |padrs| && Contiguous(padrs, h, n)
    ensures Contiguous(padrs, h, m)
    ensures Contiguous(padrs, h + m, n - m)
  {
    if m < n {
      assert padrs[h + m] == padrs[h] + m;
    }
  }

  lemma ContiguousJoin(padrs: seq<nat>, h: nat, m: nat, n: nat)
    requires 0 < m <= n && h + n <= |padrs|
    requires Contiguous(padrs, h, m) && Contiguous(padrs, h + m, n - m)
    requires m < n ==> padrs[h + m - 1] + 1 == padrs[h + m]
    ensures Contiguous(padrs, h, n)
  {
    assert padrs[h + m - 1] == padrs[h] + (m - 1);
    forall i | h <= i < h + n
      ensures padrs[i] == padrs[h] + (i - h)
    {
      if i >= h + m {
        assert padrs[i] == padrs[h + m] + (i - (h + m));
      }
    }
  }

  lemma SplitFits(s: Area, h: nat, d: nat)
    requires Structure(s) && 0 < d && LiveAt(s, h, d)
    ensures Fits(s.padrs, SplitOnce(s, h, d).blocks)
  {
    var t := SplitOnce(s, h, d);
    var p := Pow2(d - 1);
    assert Pow2(d) == 2 * p;
    ContiguousParts(s.padrs, h, p, 2 * p);
    forall x | x in t.blocks
      ensures t.blocks[x].order < LMAX && x + Pow2(t.blocks[x].order) <= |t.padrs|
      ensures Contiguous(t.padrs, x, Pow2(t.blocks[x].order))
    {
      if x != h && x != h + p {
        assert x in s.blocks;
      }
    }
  }

  lemma SplitSeparate(s: Area, h: nat, d: nat)
    requires Structure(s) && 0 < d && LiveAt(s, h, d)
    ensures h + Pow2(d - 1) !in s.blocks
    ensures Separate(SplitOnce(s, h, d).blocks)
  {
    var p := Pow2(d - 1);
    assert Pow2(d) == 2 * p;
    assert h + p !in s.blocks;
    CutSeparate(s.blocks, h, h + p, SplitOnce(s, h, d).blocks);
  }

  /** Cutting the block at a in two leaves the blocks separate. */
  lemma CutSeparate(blocks: map<nat, Block>, a: nat, b: nat, t: map<nat, Block>)
    requires Separate(blocks) && a in blocks && b !in blocks && a < b
    requires t.Keys == blocks.Keys + {b} && forall x :: x in blocks && x != a ==> t[x] == blocks[x]
    requires a + Pow2(t[a].order) <= b && b + Pow2(t[b].order) <= a + Pow2(blocks[a].order)
    ensures Separate(t)
  {
    forall x, y | x in t && y in t && x < y
      ensures x + Pow2(t[x].order) <= y
    {
      assert x != b ==> x in blocks;
      assert y != b ==> y in blocks;
    }
  }

  lemma SplitLists(s: Area, h: nat, d: nat, k: nat)
    requires |s.pools| == LMAX && k < LMAX && 0 < d <= LMAX && LiveAt(s, h, d)
    requires h + Pow2(d - 1) !in s.blocks && Lists(s.pools[k], s.blocks, k)
    ensures Lists(SplitOnce(s, h, d).pools[k], SplitOnce(s, h, d).blocks, k)
  {
    var t := SplitOnce(s, h, d);
    var g := h + Pow2(d - 1);
    assert k == d - 1 ==> t.pools[k] == [g] + s.pools[k] && g !in s.pools[k];
  }

  lemma SplitStructure(s: Area, h: nat, d: nat)
    requires Structure(s) && 0 < d && LiveAt(s, h, d)
    ensures Structure(SplitOnce(s, h, d)) && LiveAt(SplitOnce(s, h, d), h, d - 1)
  {
    SplitFits(s, h, d);
    SplitSeparate(s, h, d);
    forall k | 0 <= k < LMAX
      ensures Lists(SplitOnce(s, h, d).pools[k], SplitOnce(s, h, d).blocks, k)
    {
      SplitLists(s, h, d, k);
    }
  }

  lemma SplitSums(s: Area, h: nat, d: nat)
    requires 0 < d <= |s.pools| && LiveAt(s, h, d) && h < |s.padrs| && h + Pow2(d - 1) !in s.blocks
    ensures Total(SplitOnce(s, h, d)) == Total(s) && Live(SplitOnce(s, h, d)) == Live(s) - Pow2(d - 1)
  {
    var g := h + Pow2(d - 1);
    FreeSumPush(s.pools, d - 1, [g] + s.pools[d - 1], |s.pools|);
    LiveSumUpdate(s.blocks, SplitOnce(s, h, d).blocks, h, |s.padrs|);
  }

  lemma WithoutMembers(q: seq<nat>, i: nat)
    requires i < |q| && Distinct(q)
    ensures Distinct(Without(q, i))
    ensures forall x :: x in Without(q, i) <==> x in q && x != q[i]
  {
    var w := Without(q, i);
    forall x
      ensures x in w <==> x in q && x != q[i]
    {
      if x in w {
        var j :| 0 <= j < |w| && w[j] == x;
        assert x == if j < i then q[j] else q[j + 1];
      }
      if x in q && x != q[i] {
        var j :| 0 <= j < |q| && q[j] == x;
        assert x == if j < i then w[j] else w[j - 1];
      }
    }
  }

  lemma CoalesceFits(s: Area, h: nat, k: nat, i: nat)
    requires Structure(s) && k < LMAX - 1 && i < |s.pools[k]| && LiveAt(s, h, k)
    requires Adjacent(s.padrs, h, s.pools[k][i], k)
    ensures Fits(s.padrs, Coalesce(s, h, k, i).blocks)
  {
    var g := s.pools[k][i];
    assert Lists(s.pools[k], s.blocks, k) && g in s.pools[k];
    JoinFits(s.padrs, s.blocks, Min(h, g), Max(h, g), k, Coalesce(s, h, k, i).blocks);
  }

  function Max(a: nat, b: nat): nat { if a < b then b else a }

  lemma JoinFits(padrs: seq<nat>, blocks: map<nat, Block>, a: nat, b: nat, k: nat, t: map<nat, Block>)
    requires Fits(padrs, blocks) && a in blocks && b in blocks && k < LMAX - 1
    requires blocks[a].order == blocks[b].order == k && Joins(padrs, a, b, k)
    requires t.Keys == blocks.Keys - {b} && t[a].order == k + 1
    requires forall x :: x in t && x != a ==> t[x] == blocks[x]
    ensures Fits(padrs, t)
  {
    var p := Pow2(k);
    assert Pow2(k + 1) == 2 * p;
    ContiguousJoin(padrs, a, p, 2 * p);
    forall x | x in t
      ensures t[x].order < LMAX && x + Pow2(t[x].order) <= |padrs|
      ensures Contiguous(padrs, x, Pow2(t[x].order))
    {
      assert x in blocks;
    }
  }

  lemma JoinSeparate(blocks: map<nat, Block>, a: nat, b: nat, t: map<nat, Block>)
    requires Separate(blocks) && a in blocks && b in blocks && a < b
    requires t.Keys == blocks.Keys - {b}
    requires forall x :: x in t && x != a ==> t[x] == blocks[x]
    requires a + Pow2(t[a].order) <= b + Pow2(blocks[b].order) && b <= a + Pow2(blocks[a].order)
    ensures Separate(t)
  {
    forall x, y | x in t && y in t && x < y
      ensures x + Pow2(t[x].order) <= y
    {
      if x == a {
        assert b < y;
      }
    }
  }

  lemma CoalesceSeparate(s: Area, h: nat, k: nat, i: nat)
    requires Separate(s.blocks) && k < |s.pools| && i < |s.pools[k]|
    requires h in s.blocks && s.blocks[h].order == k
    requires s.pools[k][i] in s.blocks && s.blocks[s.pools[k][i]].order == k
    requires Adjacent(s.padrs, h, s.pools[k][i], k)
    ensures Separate(Coalesce(s, h, k, i).blocks)
  {
    var g := s.pools[k][i];
    assert Pow2(k + 1) == 2 * Pow2(k);
    JoinSeparate(s.blocks, Min(h, g), if h < g then g else h, Coalesce(s, h, k, i).blocks);
  }

  lemma CoalesceLists(s: Area, h: nat, k: nat, i: nat, j: nat)
    requires |s.pools| == LMAX && k < LMAX && j < LMAX && i < |s.pools[k]| && LiveAt(s, h, k)
    requires Lists(s.pools[j], s.blocks, j) && Lists(s.pools[k], s.blocks, k)
    ensures Lists(Coalesce(s, h, k, i).pools[j], Coalesce(s, h, k, i).blocks, j)
  {
    assert s.pools[k][i] in s.pools[k];
    WithoutMembers(s.pools[k], i);
  }

  lemma CoalesceStructure(s: Area, h: nat, k: nat, i: nat)
    requires Structure(s) && k < LMAX - 1 && i < |s.pools[k]| && LiveAt(s, h, k)
    requires Adjacent(s.padrs, h, s.pools[k][i], k)
    ensures Structure(Coalesce(s, h, k, i))
    ensures LiveAt(Coalesce(s, h, k, i), Min(h, s.pools[k][i]), k + 1)
  {
    var t := Coalesce(s, h, k, i);
    assert Lists(s.pools[k], s.blocks, k) && s.pools[k][i] in s.pools[k];
    CoalesceFits(s, h, k, i);
    CoalesceSeparate(s, h, k, i);
    forall j | 0 <= j < LMAX
      ensures Lists(t.pools[j], t.blocks, j)
    {
      CoalesceLists(s, h, k, i, j);
    }
  }

  lemma CoalesceSums(s: Area, h: nat, k: nat, i: nat)
    requires k < |s.pools| && i < |s.pools[k]| && LiveAt(s, h, k) && h < |s.padrs|
    requires !IsLive(s.blocks, s.pools[k][i])
    ensures Total(Coalesce(s, h, k, i)) == Total(s) && Live(Coalesce(s, h, k, i)) == Live(s) + Pow2(k)
  {
    var g := s.pools[k][i];
    var mid := s.blocks - {h, g};
    FreeSumPop(s.pools, k, Without(s.pools[k], i));
    LiveSumUpdate(s.blocks, mid, h, |s.padrs|);
    LiveSumUpdate(mid, mid[Min(h, g) := Block(k + 1, 1)], Min(h, g), |s.padrs|);
  }

  lemma InsertStructure(s: Area, h: nat, k: nat)
    requires Structure(s) && k < LMAX && LiveAt(s, h, k)
    ensures Structure(Insert(s, h, k))
  {
    var t := Insert(s, h, k);
    RefsSeparate(s.padrs, s.blocks, h, 0);
    forall j | 0 <= j < LMAX
      ensures Lists(t.pools[j], t.blocks, j)
    {
      assert Lists(s.pools[j], s.blocks, j);
      assert j == k ==> t.pools[j] == [h] + s.pools[j];
    }
  }

  lemma InsertSums(s: Area, h: nat, k: nat)
    requires k < |s.pools| && LiveAt(s, h, k) && h < |s.padrs|
    ensures Total(Insert(s, h, k)) == Total(s) && Live(Insert(s, h, k)) == Live(s) - Pow2(k)
  {
    FreeSumPush(s.pools, k, [h] + s.pools[k], |s.pools|);
    LiveSumUpdate(s.blocks, Insert(s, h, k).blocks, h, |s.padrs|);
  }

  // ---------- the pages an area covers ----------

  lemma SameKeysSamePages(a: map<nat, Block>, b: map<nat, Block>)
    requires a.Keys == b.Keys
    requires forall h :: h in a ==> a[h].order == b[h].order
    ensures SamePages(a, b)
  {
    forall i: nat
      ensures Covers(a, i) <==> Covers(b, i)
    {
      assert forall h :: InBlock(a, h, i) <==> InBlock(b, h, i);
    }
  }

  /** Cutting the block at h, of order k+1, into its two halves covers the same pages. */
  lemma HalvesSamePages(a: map<nat, Block>, b: map<nat, Block>, h: nat, k: nat)
    requires h in a && a[h].order == k + 1
    requires h in b && b[h].order == k
    requires h + Pow2(k) in b && b[h + Pow2(k)].order == k
    requires b.Keys == a.Keys + {h + Pow2(k)} && h + Pow2(k) !in a
    requires forall x :: x in a && x != h ==> b[x].order == a[x].order
    ensures SamePages(a, b)
  {
    assert Pow2(k + 1) == 2 * Pow2(k);
    forall i: nat
      ensures Covers(a, i) <==> Covers(b, i)
    {
      if Covers(a, i) {
        var x :| InBlock(a, x, i);
        assert x != h ==> InBlock(b, x, i);
        assert x == h ==> InBlock(b, h, i) || InBlock(b, h + Pow2(k), i);
      }
      if Covers(b, i) {
        var x :| InBlock(b, x, i);
        assert InBlock(a, if x == h + Pow2(k) then h else x, i);
      }
    }
  }

  lemma CoalesceSamePages(s: Area, h: nat, k: nat, i: nat)
    requires k < |s.pools| && i < |s.pools[k]| && LiveAt(s, h, k)
    requires s.pools[k][i] in s.blocks && s.blocks[s.pools[k][i]].order == k
    requires Adjacent(s.padrs, h, s.pools[k][i], k)
    ensures SamePages(s.blocks, Coalesce(s, h, k, i).blocks)
  {
    var t := Coalesce(s, h, k, i);
    var a := Min(h, s.pools[k][i]);
    assert s.blocks.Keys == t.blocks.Keys + {a + Pow2(k)};
    HalvesSamePages(t.blocks, s.blocks, a, k);
  }

  // ---------- whole requests ----------

  // The inductive lemmas below take the result t of the recursion as an argument, and a lemma of
  // its own describes one level, so that the induction sees neither function unfold.

  /** t is s with the live block at h, of order d, cut down to order r. */
  ghost predicate SplitFrom(s: Area, h: nat, d: nat, r: nat, t: Area) {
    && Structure(t) && LiveAt(t, h, r)
    && SamePages(s.blocks, t.blocks) && SameLive(s.blocks, t.blocks, h)
    && Total(t) == Total(s) && Live(t) == Live(s) - Pow2(d) + Pow2(r)
  }

  lemma SplitSame(s: Area, h: nat, d: nat)
    requires Structure(s) && 0 < d && LiveAt(s, h, d)
    ensures SamePages(s.blocks, SplitOnce(s, h, d).blocks) && SameLive(s.blocks, SplitOnce(s, h, d).blocks, h)
  {
    SplitSeparate(s, h, d);
    HalvesSamePages(s.blocks, SplitOnce(s, h, d).blocks, h, d - 1);
  }

  lemma SplitTotal(s: Area, h: nat, d: nat)
    requires Structure(s) && 0 < d && LiveAt(s, h, d)
    ensures Total(SplitOnce(s, h, d)) == Total(s)
    ensures Live(SplitOnce(s, h, d)) == Live(s) - Pow2(d) + Pow2(d - 1)
  {
    SplitSeparate(s, h, d);
    SplitSums(s, h, d);
    assert Pow2(d) == 2 * Pow2(d - 1);
  }

  /** One level of a split leads from s to u. */
  lemma SplitLevel(s: Area, h: nat, d: nat, r: nat, t: Area, u: Area)
    requires Structure(s) && r < d && LiveAt(s, h, d) && t == SplitDown(s, h, d, r) && u == SplitOnce(s, h, d)
    ensures t == SplitDown(u, h, d - 1, r) && SplitFrom(s, h, d, d - 1, u)
  {
    SplitDownStep(s, h, d, r);
    SplitSame(s, h, d);
    SplitTotal(s, h, d);
    SplitStructure(s, h, d);
  }

  lemma SplitBoth(s: Area, h: nat, d: nat, u: Area, r: nat, t: Area)
    requires 0 < d && SplitFrom(s, h, d, d - 1, u) && SplitFrom(u, h, d - 1, r, t)
    ensures SplitFrom(s, h, d, r, t)
  {
  }

  lemma {:induction false} SplitDownKeeps(s: Area, h: nat, d: nat, r: nat, t: Area)
    requires Structure(s) && r <= d && LiveAt(s, h, d) && t == SplitDown(s, h, d, r)
    ensures SplitFrom(s, h, d, r, t)
    decreases d
  {
    if r < d {
      var u := SplitOnce(s, h, d);
      SplitLevel(s, h, d, r, t, u);
      SplitDownKeeps(u, h, d - 1, r, t);
      SplitBoth(s, h, d, u, r, t);
    }
  }

  /** Splitting fills the empty pools between the two orders with one block each. */
  lemma {:induction false} SplitDownPools(s: Area, h: nat, d: nat, r: nat)
    requires r <= d <= |s.pools|
    requires forall k :: r <= k < d ==> s.pools[k] == []
    ensures var t := SplitDown(s, h, d, r);
      forall k :: 0 <= k < |s.pools| ==>
        t.pools[k] == if r <= k < d then [h + Pow2(k)] else s.pools[k]
    decreases d
  {
    if r < d {
      SplitDownPools(SplitOnce(s, h, d), h, d - 1, r);
    }
  }

  lemma SplitDownStep(s: Area, h: nat, d: nat, r: nat)
    requires r < d <= |s.pools|
    ensures SplitDown(s, h, d, r) == SplitDown(SplitOnce(s, h, d), h, d - 1, r)
  {
  }

  lemma MergeUpStep(s: Area, h: nat, k: nat, i: nat)
    requires |s.pools| == LMAX && k < LMAX - 1
    requires i == FindNeighbour(s.padrs, s.pools[k], h, k) < |s.pools[k]|
    ensures MergeUp(s, h, k) == MergeUp(Coalesce(s, h, k, i), Min(h, s.pools[k][i]), k + 1)
  {
  }

  lemma CoalesceLive(s: Area, h: nat, k: nat, i: nat, t: map<nat, Block>)
    requires k < |s.pools| && i < |s.pools[k]| && h in s.blocks && !IsLive(s.blocks, s.pools[k][i])
    requires !IsLive(t, Min(h, s.pools[k][i]))
    requires SameLive(Coalesce(s, h, k, i).blocks, t, Min(h, s.pools[k][i]))
    ensures !IsLive(t, h) && SameLive(s.blocks, t, h)
  {
    var c := Coalesce(s, h, k, i).blocks;
    var g := s.pools[k][i];
    var b := if h < g then g else h;
    assert b != Min(h, g) ==> b !in c && !IsLive(t, b);
    assert forall x :: x != h && x != g ==> (IsLive(s.blocks, x) <==> IsLive(c, x));
  }

  /** t is s with the block at h, of order k, merged into a free block. */
  ghost predicate MergedFrom(s: Area, h: nat, k: nat, t: Area)
    requires |s.pools| == LMAX
  {
    && Structure(t) && !IsLive(t.blocks, h)
    && SamePages(s.blocks, t.blocks) && SameLive(s.blocks, t.blocks, h)
    && Total(t) == Total(s) && Live(t) == Live(s) - Pow2(k)
  }

  /** One level of a merge leads from the block at h in s to the block at a in u. */
  lemma MergeLevel(s: Area, h: nat, k: nat, t: Area) returns (u: Area, a: nat)
    requires Structure(s) && k < LMAX - 1 && LiveAt(s, h, k) && t == MergeUp(s, h, k)
    requires FindNeighbour(s.padrs, s.pools[k], h, k) < |s.pools[k]|
    ensures Structure(u) && LiveAt(u, a, k + 1) && t == MergeUp(u, a, k + 1)
    ensures MergedFrom(u, a, k + 1, t) ==> MergedFrom(s, h, k, t)
  {
    var i := FindNeighbour(s.padrs, s.pools[k], h, k);
    u, a := Coalesce(s, h, k, i), Min(h, s.pools[k][i]);
    assert Lists(s.pools[k], s.blocks, k) && s.pools[k][i] in s.pools[k];
    MergeUpStep(s, h, k, i);
    CoalesceSums(s, h, k, i);
    CoalesceSamePages(s, h, k, i);
    CoalesceStructure(s, h, k, i);
    if !IsLive(t.blocks, a) && SameLive(u.blocks, t.blocks, a) {
      CoalesceLive(s, h, k, i, t.blocks);
    }
  }

  /** The last level puts the block on its list. */
  lemma MergeEnd(s: Area, h: nat, k: nat, t: Area)
    requires Structure(s) && k < LMAX && LiveAt(s, h, k) && t == Insert(s, h, k)
    ensures MergedFrom(s, h, k, t)
  {
    InsertSums(s, h, k);
    SameKeysSamePages(s.blocks, t.blocks);
    InsertStructure(s, h, k);
  }

  /** Either no neighbour is found and the block is listed, or the merge goes up one level. */
  lemma MergeTurn(s: Area, h: nat, k: nat, t: Area) returns (more: bool, u: Area, a: nat)
    requires Structure(s) && k < LMAX && LiveAt(s, h, k) && t == MergeUp(s, h, k)
    ensures !more ==> MergedFrom(s, h, k, t)
    ensures more ==> k < LMAX - 1 && Structure(u) && LiveAt(u, a, k + 1) && t == MergeUp(u, a, k + 1)
    ensures more && MergedFrom(u, a, k + 1, t) ==> MergedFrom(s, h, k, t)
  {
    more := k < LMAX - 1 && FindNeighbour(s.padrs, s.pools[k], h, k) < |s.pools[k]|;
    u, a := s, h;
    if more {
      u, a := MergeLevel(s, h, k, t);
    } else {
      MergeEnd(s, h, k, t);
    }
  }

  lemma {:induction false} MergeUpKeeps(s: Area, h: nat, k: nat, t: Area)
    requires Structure(s) && k < LMAX && LiveAt(s, h, k) && t == MergeUp(s, h, k)
    ensures MergedFrom(s, h, k, t)
    decreases LMAX - k
  {
    var more, u, a := MergeTurn(s, h, k, t);
    if more {
      MergeUpKeeps(u, a, k + 1, t);
    }
  }

  lemma {:induction false} MergeUpFullyMerged(s: Area, h: nat, k: nat, t: Area)
    requires FullyMerged(s.padrs, s.pools) && k < LMAX && t == MergeUp(s, h, k)
    ensures FullyMerged(s.padrs, t.pools)
    decreases LMAX - k
  {
    var i := FindNeighbour(s.padrs, s.pools[k], h, k);
    if k == LMAX - 1 || i == |s.pools[k]| {
      forall j | 0 <= j < LMAX - 1
        ensures Unmergeable(s.padrs, t.pools[j], j)
      {
        assert Unmergeable(s.padrs, s.pools[j], j);
      }
    } else {
      var u := Coalesce(s, h, k, i);
      forall j | 0 <= j < LMAX - 1
        ensures Unmergeable(s.padrs, u.pools[j], j)
      {
        assert Unmergeable(s.padrs, s.pools[j], j);
      }
      MergeUpFullyMerged(u, Min(h, s.pools[k][i]), k + 1, t);
    }
  }
}
