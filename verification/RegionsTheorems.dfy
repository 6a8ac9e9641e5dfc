/** What allocation and deletion of address ranges promise, and exactly when. */
module RegionsTheorems {
  import opened Regions

  /** Rounding up keeps small sizes small and never loses bytes. */
  lemma AlignBounds(x: nat)
    requires 1 <= x <= ALLOC_END
    ensures x <= Align(x) < x + PAGE && Align(x) % PAGE == 0 && PAGE <= Align(x) <= ALLOC_END + 1
  {
  }

  // ---------- the hint ----------

  /** An address lies in at most one region. */
  lemma HolderUnique(q: seq<Region>, i: nat, j: nat, a: nat)
    requires Ordered(q) && i < |q| && j < |q| && Holds(q[i], a) && Holds(q[j], a)
    ensures i == j
  {
  }

  /** The hint never changes which region a lookup returns. */
  lemma LookupIgnoresHint(q: seq<Region>, hint: int, a: nat)
    requires Ordered(q)
    ensures Lookup(q, hint, a) == Lookup(q, -1, a)
    ensures Lookup(q, hint, a) >= 0 <==> Covered(q, a)
  {
    var k := FirstHolding(q, 0, a);
    if 0 <= hint < |q| && Holds(q[hint], a) {
      HolderUnique(q, hint, k, a);
    }
  }

  /** The hint never changes whether a gap is found. */
  lemma GapIgnoresHint(q: seq<Region>, hint: int, start: nat, size: nat)
    ensures FindGap(q, hint, start, size) >= 0 <==> FindGap(q, -1, start, size) >= 0
  {
  }

  /** Whatever hint is set, the request succeeds or fails alike. */
  ghost predicate HintsAgree(q: seq<Region>, start: nat, size: nat, t: Traits, node: bool) {
    forall h: int, g: int :: HintOk(q, h) && HintOk(q, g) ==>
      (New(q, h, start, size, t, node).address == 0 <==> New(q, g, start, size, t, node).address == 0)
  }

  /** The regions with room behind them either all can grow as asked or all cannot. */
  ghost predicate CandidatesAlike(q: seq<Region>, size: nat, t: Traits) {
    forall i, j :: 0 <= i < |q| && 0 <= j < |q| && FitsAfter(q, i, 0, size) && FitsAfter(q, j, 0, size) ==>
      (Alike(q[i], t) <==> Alike(q[j], t))
  }

  lemma NextStartsBelow(q: seq<Region>, m: nat, n: nat)
    requires Ordered(q) && m <= n < |q|
    ensures m < n ==> q[m + 1].start < q[n].end
  {
  }

  /** A range that starts at a given address and does not wrap around fits behind one region at most. */
  lemma FitUnique(q: seq<Region>, i: nat, j: nat, start: nat, size: nat)
    requires Ordered(q) && 0 < start && start + size < TWO64 && size > 0
    requires i < |q| && j < |q| && FitsAfter(q, i, start, size) && FitsAfter(q, j, start, size)
    ensures i == j
  {
    NextStartsBelow(q, if i <= j then i else j, if i <= j then j else i);
  }

  /** With a start address the hint changes neither the answer nor the list, with or without a descriptor. */
  lemma NewAtStartIgnoresHint(q: seq<Region>, hint: int, start: nat, size: nat, t: Traits, node: bool)
    requires Ordered(q) && 0 < start && 1 <= size <= ALLOC_END && start + Align(size) < TWO64
    ensures New(q, hint, start, size, t, node).address == New(q, -1, start, size, t, node).address
    ensures New(q, hint, start, size, t, node).regions == New(q, -1, start, size, t, node).regions
  {
    AlignBounds(size);
    var z := Align(size);
    var k, l := FindGap(q, hint, start, z), FindGap(q, -1, start, z);
    if k >= 0 && l >= 0 {
      FitUnique(q, k, l, start, z);
    }
  }

  /** The answer to a request, in terms of the region that was chosen. */
  lemma NewAnswer(q: seq<Region>, hint: int, start: nat, size: nat, t: Traits, node: bool)
    requires Ordered(q) && Acceptable(start, size)
    ensures var k := FindGap(q, hint, start, Align(size));
      New(q, hint, start, size, t, node).address != 0 <==>
        k >= 0 && (node || ((start == 0 || start == q[k].end) && Alike(q[k], t)))
  {
  }

  /** A range that wraps around never starts where a region ends. */
  lemma WrapIsAbove(q: seq<Region>, k: nat, start: nat, size: nat)
    requires Ordered(q) && k < |q| && 1 <= size <= ALLOC_END && start + Align(size) >= TWO64
    ensures start != q[k].end
  {
    AlignBounds(size);
  }

  lemma HintsAgreeOtherwise(q: seq<Region>, start: nat, size: nat, t: Traits, node: bool)
    requires Ordered(q) && start < TWO64 && 1 <= size <= ALLOC_END && (start > 0 || node)
    ensures HintsAgree(q, start, size, t, node)
  {
    forall h: int, g: int | HintOk(q, h) && HintOk(q, g)
      ensures New(q, h, start, size, t, node).address == 0 <==> New(q, g, start, size, t, node).address == 0
    {
      NewAgrees(q, h, g, start, size, t, node);
    }
  }

  /**
    The hint changes whether a request succeeds only if no start address is given, no descriptor
    can be had, and of the regions with room some can grow as asked and some cannot.
  */
  lemma HintsAgreeIff(q: seq<Region>, start: nat, size: nat, t: Traits, node: bool)
    requires Ordered(q) && start < TWO64 && 1 <= size <= ALLOC_END
    ensures HintsAgree(q, start, size, t, node) <==>
            start > 0 || node || Align(size) > ALLOC_END || CandidatesAlike(q, Align(size), t)
  {
    if start > 0 || node {
      HintsAgreeOtherwise(q, start, size, t, node);
    } else {
      HintsAgreeWithoutNode(q, size, t);
    }
  }

  lemma NewAgrees(q: seq<Region>, h: int, g: int, start: nat, size: nat, t: Traits, node: bool)
    requires Ordered(q) && start < TWO64 && 1 <= size <= ALLOC_END && (start > 0 || node)
    ensures New(q, h, start, size, t, node).address == 0 <==> New(q, g, start, size, t, node).address == 0
  {
    if Acceptable(start, size) {
      GapIgnoresHint(q, h, start, Align(size));
      GapIgnoresHint(q, g, start, Align(size));
      NewAnswer(q, h, start, size, t, node);
      NewAnswer(q, g, start, size, t, node);
      if !node && start + Align(size) < TWO64 {
        NewAtStartIgnoresHint(q, h, start, size, t, node);
        NewAtStartIgnoresHint(q, g, start, size, t, node);
      } else if !node {
        forall k: nat | k < |q|
          ensures start != q[k].end
        {
          WrapIsAbove(q, k, start, size);
        }
      }
    }
  }

  /** Without a descriptor and a start address, a request is granted when the region chosen can grow. */
  lemma AnswerWithoutNode(q: seq<Region>, h: int, size: nat, t: Traits)
    requires Ordered(q) && 1 <= size <= ALLOC_END
    ensures var k := FindGap(q, h, 0, Align(size));
      New(q, h, 0, size, t, false).address != 0 <==> k >= 0 && Alike(q[k], t)
  {
    NewAnswer(q, h, 0, size, t, false);
  }

  /** Hints at two regions with room choose those regions. */
  lemma AgreeingCandidates(q: seq<Region>, size: nat, t: Traits, i: nat, j: nat)
    requires Ordered(q) && 1 <= size <= ALLOC_END && Align(size) <= ALLOC_END && HintsAgree(q, 0, size, t, false)
    requires i < |q| && j < |q| && FitsAfter(q, i, 0, Align(size)) && FitsAfter(q, j, 0, Align(size))
    ensures Alike(q[i], t) <==> Alike(q[j], t)
  {
    AlignBounds(size);
    AnswerWithoutNode(q, i, size, t);
    AnswerWithoutNode(q, j, size, t);
    assert HintOk(q, i) && HintOk(q, j);
  }

  lemma AgreeingAnswers(q: seq<Region>, size: nat, t: Traits, h: int, g: int)
    requires Ordered(q) && 1 <= size <= ALLOC_END && (Align(size) > ALLOC_END || CandidatesAlike(q, Align(size), t))
    ensures New(q, h, 0, size, t, false).address == 0 <==> New(q, g, 0, size, t, false).address == 0
  {
    AlignBounds(size);
    AnswerWithoutNode(q, h, size, t);
    AnswerWithoutNode(q, g, size, t);
    GapIgnoresHint(q, h, 0, Align(size));
    GapIgnoresHint(q, g, 0, Align(size));
  }

  lemma HintsAgreeWithoutNode(q: seq<Region>, size: nat, t: Traits)
    requires Ordered(q) && 1 <= size <= ALLOC_END
    ensures HintsAgree(q, 0, size, t, false) <==> Align(size) > ALLOC_END || CandidatesAlike(q, Align(size), t)
  {
    if Align(size) > ALLOC_END || CandidatesAlike(q, Align(size), t) {
      forall h: int, g: int
        ensures New(q, h, 0, size, t, false).address == 0 <==> New(q, g, 0, size, t, false).address == 0
      {
        AgreeingAnswers(q, size, t, h, g);
      }
    }
    if HintsAgree(q, 0, size, t, false) && Align(size) <= ALLOC_END {
      forall i, j | 0 <= i < |q| && 0 <= j < |q| && FitsAfter(q, i, 0, Align(size)) && FitsAfter(q, j, 0, Align(size))
        ensures Alike(q[i], t) <==> Alike(q[j], t)
      {
        AgreeingCandidates(q, size, t, i, j);
      }
    }
  }

  /** With descriptors to be had, whether a request succeeds does not depend on the hint. */
  lemma NewIgnoresHint(q: seq<Region>, hint: int, start: nat, size: nat, t: Traits)
    requires Ordered(q)
    ensures New(q, hint, start, size, t, true).address == 0 <==> New(q, -1, start, size, t, true).address == 0
  {
    if Acceptable(start, size) {
      GapIgnoresHint(q, hint, start, Align(size));
    }
  }

  /** Without a descriptor the first region grows, but a hint at the second turns the request down. */
  lemma HintDecidesExample()
    ensures var q := [Region(0x1000, 0x2000, 0, 0, 0, 0), Region(0x4000, 0x5000, 1, 0, 0, 0), Region(0x8000, 0x9000, 0, 0, 0, 0)];
      var t := Traits(0, 0, 0, 0);
      && Ordered(q) && HintOk(q, 1)
      && New(q, -1, 0, 0x1000, t, false).address == 0x2000 && New(q, 1, 0, 0x1000, t, false).address == 0
      && !HintsAgree(q, 0, 0x1000, t, false)
  {
    var q := [Region(0x1000, 0x2000, 0, 0, 0, 0), Region(0x4000, 0x5000, 1, 0, 0, 0), Region(0x8000, 0x9000, 0, 0, 0, 0)];
    assert FitsAfter(q, 0, 0, 0x1000) && FitsAfter(q, 1, 0, 0x1000);
    assert HintOk(q, -1) && HintOk(q, 1);
  }

  /** The hint never changes which region is cut. */
  lemma HolderIgnoresHint(q: seq<Region>, hint: int, start: nat, size: nat)
    requires Ordered(q) && start + size < TWO64
    ensures FindHolder(q, hint, start, size) == FindHolder(q, -1, start, size)
  {
    var k := FirstInside(q, 0, start, size);
    if size >= PAGE && 0 <= hint < |q| && Inside(q[hint], start, size) {
      HolderUnique(q, hint, k, start);
    }
  }

  // ---------- allocation ----------

  /** Region k grew at its end. */
  lemma ExtendKeeps(q: seq<Region>, k: nat, size: nat)
    requires Ordered(q) && k < |q| && size > 0
    requires q[k].end + size <= if k + 1 < |q| then q[k + 1].start else ALLOC_END
    ensures var p := q[k := q[k].(end := q[k].end + size)];
      && Ordered(p)
      && forall a: nat :: Covered(p, a) <==> Covered(q, a) || q[k].end <= a < q[k].end + size
    ensures forall a: nat :: q[k].end <= a < q[k].end + size ==> !Covered(q, a)
  {
    var p := q[k := q[k].(end := q[k].end + size)];
    assert forall j :: k + 1 <= j < |q| ==> q[k + 1].start <= q[j].start;
    forall a: nat
      ensures Covered(p, a) <==> Covered(q, a) || q[k].end <= a < q[k].end + size
    {
      assert forall i :: 0 <= i < |q| && Holds(q[i], a) ==> Holds(p[i], a);
      assert Holds(p[k], a) <==> Holds(q[k], a) || q[k].end <= a < q[k].end + size;
      assert forall i :: 0 <= i < |q| && i != k ==> (Holds(q[i], a) <==> Holds(p[i], a));
    }
  }

  /** List p is q with r put behind region k. */
  ghost predicate PutBehind(q: seq<Region>, k: nat, r: Region, p: seq<Region>) {
    && k < |q| && |p| == |q| + 1 && p[k + 1] == r
    && (forall i :: 0 <= i <= k ==> p[i] == q[i])
    && (forall i :: k + 1 < i < |p| ==> p[i] == q[i - 1])
  }

  lemma InsertOrdered(q: seq<Region>, k: nat, r: Region, p: seq<Region>)
    requires Ordered(q) && PutBehind(q, k, r, p) && q[k].end <= r.start < r.end
    requires r.end <= if k + 1 < |q| then q[k + 1].start else ALLOC_END
    ensures Ordered(p)
  {
    assert forall j :: k + 1 <= j < |q| ==> q[k + 1].start <= q[j].start;
    assert forall i :: 0 <= i <= k ==> q[i].end <= r.start;
  }

  lemma InsertNew(q: seq<Region>, k: nat, r: Region)
    requires Ordered(q) && k < |q| && q[k].end <= r.start < r.end
    requires r.end <= if k + 1 < |q| then q[k + 1].start else ALLOC_END
    ensures forall a: nat :: Holds(r, a) ==> !Covered(q, a)
  {
    assert forall j :: k + 1 <= j < |q| ==> q[k + 1].start <= q[j].start;
    assert forall i :: 0 <= i <= k ==> q[i].end <= r.start;
  }

  lemma InsertCovers(q: seq<Region>, k: nat, r: Region, p: seq<Region>, a: nat)
    requires PutBehind(q, k, r, p)
    ensures Covered(p, a) <==> Covered(q, a) || Holds(r, a)
  {
    if i :| 0 <= i < |q| && Holds(q[i], a) {
      assert Holds(p[if i <= k then i else i + 1], a);
    }
    if i :| 0 <= i < |p| && i != k + 1 && Holds(p[i], a) {
      assert Holds(q[if i <= k then i else i - 1], a);
    }
  }

  /** A region was put behind region k. */
  lemma InsertKeeps(q: seq<Region>, k: nat, r: Region)
    requires Ordered(q) && k < |q| && q[k].end <= r.start < r.end
    requires r.end <= if k + 1 < |q| then q[k + 1].start else ALLOC_END
    ensures var p := q[..k + 1] + [r] + q[k + 1..];
      && Ordered(p)
      && forall a: nat :: Covered(p, a) <==> Covered(q, a) || Holds(r, a)
    ensures forall a: nat :: Holds(r, a) ==> !Covered(q, a)
  {
    var p := q[..k + 1] + [r] + q[k + 1..];
    InsertOrdered(q, k, r, p);
    InsertNew(q, k, r);
    forall a: nat
      ensures Covered(p, a) <==> Covered(q, a) || Holds(r, a)
    {
      InsertCovers(q, k, r, p, a);
    }
  }

  /** The grant is new: it was free before, and exactly it is covered in addition. */
  ghost predicate GrantsExactly(q: seq<Region>, g: Granted, size: nat) {
    && (forall a: nat :: g.address <= a < g.address + size ==> !Covered(q, a))
    && (forall a: nat :: Covered(g.regions, a) <==> Covered(q, a) || g.address <= a < g.address + size)
  }

  /** What fits after region k without wrapping around ends before the next region. */
  lemma FitIsRoom(q: seq<Region>, k: nat, start: nat, size: nat)
    requires Ordered(q) && k < |q| && FitsAfter(q, k, start, size) && start + size < TWO64 && size <= ALLOC_END
    ensures var s := if start == 0 then q[k].end else start;
      && PAGE <= q[k].end <= s && Add64(s, size) == s + size
      && s + size <= if k + 1 < |q| then q[k + 1].start else ALLOC_END
  {
  }

  /** A request left the list alone, or was granted exactly what it asked for. */
  ghost predicate Served(q: seq<Region>, hint: int, start: nat, size: nat, g: Granted) {
    && Ordered(g.regions) && HintOk(g.regions, g.hint)
    && (g.address == 0 ==> g.regions == q && g.hint == hint)
    && (g.address != 0 ==> GrantsExactly(q, g, size) && (start != 0 ==> g.address == start) && g.address >= PAGE)
  }

  lemma ExtendServes(q: seq<Region>, hint: int, k: nat, start: nat, size: nat)
    requires Ordered(q) && k < |q| && size > 0 && (start == 0 || start == q[k].end)
    requires q[k].end + size <= if k + 1 < |q| then q[k + 1].start else ALLOC_END
    ensures Served(q, hint, start, size, Granted(q[k := q[k].(end := q[k].end + size)], k, q[k].end))
  {
    ExtendKeeps(q, k, size);
  }

  lemma InsertServes(q: seq<Region>, hint: int, k: nat, start: nat, size: nat, r: Region)
    requires Ordered(q) && k < |q| && size > 0 && q[k].end <= r.start && r.end == r.start + size
    requires start == 0 || start == r.start
    requires r.end <= if k + 1 < |q| then q[k + 1].start else ALLOC_END
    ensures Served(q, hint, start, size, Granted(q[..k + 1] + [r] + q[k + 1..], k + 1, r.start))
  {
    InsertKeeps(q, k, r);
  }

  lemma PlaceIs(q: seq<Region>, hint: int, k: nat, start: nat, size: nat, t: Traits, node: bool, s: nat, r: Region)
    requires k < |q| && s == (if start == 0 then q[k].end else start) && Add64(s, size) == s + size
    requires r == Region(s, s + size, t.limits, t.kind, t.file, t.flags)
    ensures Place(q, hint, k, start, size, t, node) ==
      if (start == 0 || start == q[k].end) && Alike(q[k], t) then
        Granted(q[k := q[k].(end := q[k].end + size)], k, q[k].end)
      else if !node then Granted(q, hint, 0)
      else Granted(q[..k + 1] + [r] + q[k + 1..], k + 1, r.start)
  {
  }

  lemma PlaceServes(q: seq<Region>, hint: int, k: nat, start: nat, size: nat, t: Traits, node: bool, s: nat)
    requires Ordered(q) && HintOk(q, hint) && k < |q| && size > 0
    requires s == (if start == 0 then q[k].end else start) && PAGE <= q[k].end <= s && Add64(s, size) == s + size
    requires s + size <= if k + 1 < |q| then q[k + 1].start else ALLOC_END
    ensures Served(q, hint, start, size, Place(q, hint, k, start, size, t, node))
  {
    var r := Region(s, s + size, t.limits, t.kind, t.file, t.flags);
    PlaceIs(q, hint, k, start, size, t, node, s, r);
    if (start == 0 || start == q[k].end) && Alike(q[k], t) {
      ExtendServes(q, hint, k, start, size);
    } else if node {
      InsertServes(q, hint, k, start, size, r);
    }
  }

  /** A gap that was found has room. */
  lemma GapHasRoom(q: seq<Region>, hint: int, start: nat, size: nat)
    requires Ordered(q) && start + size < TWO64 && FindGap(q, hint, start, size) >= 0
    ensures FitsAfter(q, FindGap(q, hint, start, size), start, size) && PAGE <= size <= ALLOC_END
  {
  }

  lemma NewAlignedExact(q: seq<Region>, hint: int, start: nat, size: nat, t: Traits, node: bool)
    requires Ordered(q) && HintOk(q, hint) && start + size < TWO64
    ensures Served(q, hint, start, size, NewAligned(q, hint, start, size, t, node))
  {
    var k := FindGap(q, hint, start, size);
    if k >= 0 {
      GapHasRoom(q, hint, start, size);
      FitIsRoom(q, k, start, size);
      PlaceServes(q, hint, k, start, size, t, node, if start == 0 then q[k].end else start);
    }
  }

  ghost predicate HasRoom(q: seq<Region>, start: nat, size: nat) {
    exists k: nat :: k < |q| && FitsAfter(q, k, start, size)
  }

  lemma RoomIsFound(q: seq<Region>, hint: int, start: nat, size: nat, k: nat)
    requires Ordered(q) && PAGE <= size <= ALLOC_END + 1 && start + size < TWO64
    requires k < |q| && FitsAfter(q, k, start, size)
    ensures Add64(start, size) <= ALLOC_END && FirstFit(q, 0, start, size) >= 0
  {
    FitBelowEnd(q, k, start, size);
  }

  lemma FitBelowEnd(q: seq<Region>, k: nat, start: nat, size: nat)
    requires Ordered(q) && size <= ALLOC_END + 1 && start + size < TWO64 && k < |q| && FitsAfter(q, k, start, size)
    ensures Add64(start, size) <= ALLOC_END
  {
    assert q[k].end + size < TWO64;
  }

  lemma GapFoundIff(q: seq<Region>, hint: int, start: nat, size: nat)
    requires Ordered(q) && PAGE <= size <= ALLOC_END + 1 && start + size < TWO64
    ensures FindGap(q, hint, start, size) >= 0 <==> HasRoom(q, start, size)
  {
    var g := FindGap(q, hint, start, size);
    assert g >= 0 ==> FitsAfter(q, g, start, size);
    if k: nat :| k < |q| && FitsAfter(q, k, start, size) {
      RoomIsFound(q, hint, start, size, k);
    }
  }

  /**
    Between the end of region i and the start of the next, or the last byte but one of the user half,
    there are size bytes, from start on if a start is given.
  */
  predicate GapBehind(q: seq<Region>, i: nat, start: nat, size: nat)
    requires i < |q|
  {
    var limit: nat := if i + 1 < |q| then q[i + 1].start else 0x7fff_ffff_fffe;
    var from := if start == 0 then q[i].end else start;
    q[i].end <= from && from + size <= limit
  }

  lemma FitsIsGap(q: seq<Region>, i: nat, start: nat, size: nat)
    requires Ordered(q) && i < |q| && PAGE <= size <= ALLOC_END + 1 && start + size < TWO64
    ensures FitsAfter(q, i, start, size) <==> GapBehind(q, i, start, size)
  {
    assert q[i].end + size < TWO64;
  }

  /**
    With descriptors to be had, a request that does not wrap is granted exactly when its start, if
    given, is a page and it ends in the user half, and there is a gap for its whole pages.
  */
  lemma NewGrantedIff(q: seq<Region>, hint: int, start: nat, size: nat, t: Traits)
    requires Ordered(q) && HintOk(q, hint) && 1 <= size <= ALLOC_END && start + Align(size) < TWO64
    ensures New(q, hint, start, size, t, true).address != 0 <==>
      && (start == 0 || (start % 0x1000 == 0 && start + size <= 0x7fff_ffff_ffff))
      && exists i :: 0 <= i < |q| && GapBehind(q, i, start, Align(size))
  {
    AlignBounds(size);
    GapFoundIff(q, hint, start, Align(size));
    forall i | 0 <= i < |q|
      ensures FitsAfter(q, i, start, Align(size)) <==> GapBehind(q, i, start, Align(size))
    {
      FitsIsGap(q, i, start, Align(size));
    }
    assert HasRoom(q, start, Align(size)) <==> exists i :: 0 <= i < |q| && GapBehind(q, i, start, Align(size));
  }

  /**
    For sizes up to the end of the user half, `vma_new_vadrs` keeps the list sorted, disjoint and
    in bounds exactly when start + size does not wrap around (or nothing can be granted anyway);
    then a grant was free before and is exactly what is added.
  */
  lemma NewKeepsOrderedIff(q: seq<Region>, hint: int, start: nat, size: nat, t: Traits, node: bool)
    requires Ordered(q) && HintOk(q, hint) && start < TWO64 && 1 <= size <= ALLOC_END
    ensures var g := New(q, hint, start, size, t, node);
      && (Ordered(g.regions) <==> start + size < TWO64 || start % PAGE != 0 || q == [] || !node)
      && HintOk(g.regions, g.hint)
      && (start + size < TWO64 && g.address != 0 ==> GrantsExactly(q, g, Align(size)))
      && (g.address == 0 ==> g.regions == q)
  {
    AlignBounds(size);
    if Acceptable(start, size) {
      if start + size < TWO64 {
        assert start + Align(size) < TWO64;
        NewAlignedExact(q, hint, start, Align(size), t, node);
      } else if start % PAGE == 0 {
        NewWraps(q, hint, start, size, t, node);
      }
    }
  }

  /** A wrapping request is granted behind every region, as a region that ends before it starts. */
  lemma NewWraps(q: seq<Region>, hint: int, start: nat, size: nat, t: Traits, node: bool)
    requires Ordered(q) && HintOk(q, hint) && start < TWO64 <= start + size && size <= ALLOC_END && start % PAGE == 0
    ensures var g := New(q, hint, start, size, t, node);
      if q == [] || !node then g == Granted(q, hint, 0)
      else g.address == start && !Ordered(g.regions) && HintOk(g.regions, g.hint)
  {
    AlignBounds(size);
    var z := Align(size);
    assert Add64(start, z) == start + z - TWO64 < ALLOC_END;
    var k := FindGap(q, hint, start, z);
    if q != [] {
      assert FitsAfter(q, |q| - 1, start, z);
      var g := New(q, hint, start, size, t, node);
      assert node ==> g.regions[k + 1].start == start;
    }
  }

  /** The smallest such request. */
  lemma NewWrapExample(q: seq<Region>, t: Traits)
    requires Ordered(q) && q != []
    ensures !Ordered(New(q, -1, 0xffff_ffff_ffff_f000, 0x1000, t, true).regions)
  {
    NewWraps(q, -1, 0xffff_ffff_ffff_f000, 0x1000, t, true);
  }

  // ---------- deletion ----------

  /** Exactly the addresses of the range are no longer covered. */
  ghost predicate RemovesExactly(q: seq<Region>, p: seq<Region>, start: nat, size: nat) {
    && (forall a: nat :: start <= a < start + size ==> Covered(q, a))
    && (forall a: nat :: Covered(p, a) <==> Covered(q, a) && !(start <= a < start + size))
  }

  lemma CutWhole(q: seq<Region>, k: nat)
    requires Ordered(q) && k < |q|
    ensures Ordered(q[..k] + q[k + 1..])
    ensures RemovesExactly(q, q[..k] + q[k + 1..], q[k].start, q[k].end - q[k].start)
  {
    var p := q[..k] + q[k + 1..];
    forall a: nat
      ensures Covered(p, a) <==> Covered(q, a) && !Holds(q[k], a)
    {
      forall i | 0 <= i < |q| && i != k
        ensures Holds(q[i], a) ==> Covered(p, a) && !Holds(q[k], a)
      {
        assert q[i] == p[if i < k then i else i - 1];
      }
      forall i | 0 <= i < |p|
        ensures Holds(p[i], a) ==> Covered(q, a) && !Holds(q[k], a)
      {
        assert p[i] == q[if i < k then i else i + 1];
      }
    }
  }

  /** Region k became r, a part of it. */
  lemma CutEnd(q: seq<Region>, k: nat, r: Region, start: nat, size: nat)
    requires Ordered(q) && k < |q| && q[k].start <= r.start < r.end <= q[k].end
    requires forall a: nat :: Holds(r, a) <==> Holds(q[k], a) && !(start <= a < start + size)
    requires q[k].start <= start && start + size <= q[k].end
    ensures Ordered(q[k := r]) && RemovesExactly(q, q[k := r], start, size)
  {
    var p := q[k := r];
    forall a: nat
      ensures Covered(p, a) <==> Covered(q, a) && !(start <= a < start + size)
      ensures start <= a < start + size ==> Covered(q, a)
    {
      assert start <= a < start + size ==> Holds(q[k], a);
      forall i | 0 <= i < |q|
        ensures Holds(q[i], a) && !(start <= a < start + size) ==> Holds(p[i], a)
        ensures Holds(p[i], a) ==> Holds(q[i], a) && !(start <= a < start + size)
      {
      }
    }
  }

  lemma CutMiddleAt(q: seq<Region>, k: nat, l: Region, u: Region)
    requires k < |q|
    ensures var p := q[..k] + [l, u] + q[k + 1..];
      && |p| == |q| + 1 && p[k] == l && p[k + 1] == u
      && (forall i :: 0 <= i < k ==> p[i] == q[i])
      && (forall i :: k < i < |q| ==> p[i + 1] == q[i])
      && (forall i :: k + 1 < i < |p| ==> p[i] == q[i - 1])
  {
  }

  lemma CutMiddle(q: seq<Region>, k: nat, l: Region, u: Region, start: nat, size: nat, p: seq<Region>)
    requires Ordered(q) && k < |q| && q[k].start < start && start + size < q[k].end && size > 0
    requires l.start == q[k].start && l.end == start && u.start == start + size && u.end == q[k].end
    requires p == q[..k] + [l, u] + q[k + 1..]
    ensures Ordered(p) && RemovesExactly(q, p, start, size)
  {
    CutMiddleOrdered(q, k, l, u, p);
    forall a: nat
      ensures Covered(p, a) <==> Covered(q, a) && !(start <= a < start + size)
      ensures start <= a < start + size ==> Covered(q, a)
    {
      CutMiddleCovers(q, k, l, u, start, size, p, a);
    }
  }

  lemma CutMiddleOrdered(q: seq<Region>, k: nat, l: Region, u: Region, p: seq<Region>)
    requires Ordered(q) && k < |q| && q[k].start == l.start < l.end <= u.start < u.end == q[k].end
    requires p == q[..k] + [l, u] + q[k + 1..]
    ensures Ordered(p)
  {
    CutMiddleAt(q, k, l, u);
  }

  lemma CutMiddleCovers(q: seq<Region>, k: nat, l: Region, u: Region, start: nat, size: nat, p: seq<Region>, a: nat)
    requires Ordered(q) && k < |q| && q[k].start < start && start + size < q[k].end && size > 0
    requires l.start == q[k].start && l.end == start && u.start == start + size && u.end == q[k].end
    requires p == q[..k] + [l, u] + q[k + 1..]
    ensures Covered(p, a) <==> Covered(q, a) && !(start <= a < start + size)
    ensures start <= a < start + size ==> Covered(q, a)
  {
    CutMiddleAt(q, k, l, u);
    if start <= a < start + size {
      assert Holds(q[k], a);
    } else if i :| 0 <= i < |q| && Holds(q[i], a) {
      assert Holds(p[if i < k then i else if i > k then i + 1 else if a < start then k else k + 1], a);
    }
    if i :| 0 <= i < |p| && Holds(p[i], a) {
      assert Holds(q[if i <= k then i else i - 1], a);
    }
  }

  lemma DeleteAlignedExact(q: seq<Region>, hint: int, start: nat, size: nat, node: bool)
    requires Ordered(q) && HintOk(q, hint) && start + size < TWO64
    ensures var c := DeleteAligned(q, hint, start, size, node);
      && Ordered(c.regions) && HintOk(c.regions, c.hint)
      && (!c.ok ==> c.regions == q && c.hint == hint)
      && (c.ok ==> RemovesExactly(q, c.regions, start, size))
  {
    var k := FindHolder(q, hint, start, size);
    if k >= 0 {
      var r, end := q[k], start + size;
      assert Add64(start, size) == end;
      if r.start == start && r.end == end {
        CutWhole(q, k);
      } else if r.start == start && r.end > end {
        CutEnd(q, k, r.(start := end), start, size);
      } else if r.start < start && r.end == end {
        CutEnd(q, k, r.(end := start), start, size);
      } else if node {
        var l, u := r.(end := start), Region(end, r.end, r.limits, r.kind, 0, 0);
        CutMiddle(q, k, l, u, start, size, q[..k] + [l, u] + q[k + 1..]);
      }
    }
  }

  /** A range that wraps around and is found cuts a region to one that ends beyond the user half. */
  lemma DeleteWraps(q: seq<Region>, hint: int, start: nat, size: nat, node: bool)
    requires Ordered(q) && HintOk(q, hint) && start < TWO64 && 1 <= size <= ALLOC_END
    requires start + Align(size) >= TWO64
    ensures var c, k := Delete(q, hint, start, size, node), FindHolder(q, hint, start, Align(size));
      if k == -1 || (!node && q[k].end > Add64(start, Align(size))) then c == Cut(q, hint, false)
      else !Ordered(c.regions)
  {
    AlignBounds(size);
    var z := Align(size);
    var k := FindHolder(q, hint, start, z);
    if k >= 0 {
      assert q[k].start < start;
      var c := Delete(q, hint, start, size, node);
      assert c.ok ==> c.regions[k].end == start > ALLOC_END;
    }
  }

  /** A wrapping range is found exactly when some region ends at or after the range's wrapped end. */
  lemma WrapFoundIff(q: seq<Region>, hint: int, start: nat, size: nat)
    requires Ordered(q) && start < TWO64 && 1 <= size <= ALLOC_END && start + Align(size) >= TWO64
    ensures FindHolder(q, hint, start, Align(size)) == -1 <==>
            forall i :: 0 <= i < |q| ==> q[i].end < start + Align(size) - TWO64
  {
    AlignBounds(size);
    var z := Align(size);
    assert Add64(start, z) == start + z - TWO64;
    assert forall i :: 0 <= i < |q| ==> (Inside(q[i], start, z) <==> start + z - TWO64 <= q[i].end);
  }

  /** Region k holds start..end and can be cut there: at one of its ends, or in the middle with a descriptor. */
  predicate Cuttable(q: seq<Region>, k: nat, start: nat, end: nat, node: bool)
    requires k < |q|
  {
    q[k].start <= start && end <= q[k].end && (node || q[k].start == start || q[k].end == end)
  }

  ghost predicate CanCut(q: seq<Region>, start: nat, end: nat, node: bool) {
    exists k :: 0 <= k < |q| && Cuttable(q, k, start, end, node)
  }

  /** A range that does not wrap is deleted exactly when some region holds it and can be cut there. */
  lemma DeleteGrantedIff(q: seq<Region>, hint: int, start: nat, size: nat, node: bool)
    requires Ordered(q) && HintOk(q, hint) && 1 <= size <= ALLOC_END && start + Align(size) < TWO64
    ensures Delete(q, hint, start, size, node).ok <==> CanCut(q, start, start + Align(size), node)
  {
    AlignBounds(size);
    var z, end := Align(size), start + Align(size);
    var k := FindHolder(q, hint, start, z);
    assert k >= 0 ==> q[k].start <= start && end <= q[k].end;
    assert k >= 0 ==> (Cuttable(q, k, start, end, node) <==> DeleteAligned(q, hint, start, z, node).ok);
    if i: nat :| i < |q| && Cuttable(q, i, start, end, node) {
      HolderIs(q, hint, start, z, i);
    }
  }

  /** The search finds the region that holds the range. */
  lemma HolderIs(q: seq<Region>, hint: int, start: nat, z: nat, i: nat)
    requires Ordered(q) && PAGE <= z && start + z < TWO64 && i < |q| && q[i].start <= start && start + z <= q[i].end
    ensures FindHolder(q, hint, start, z) == i
  {
    var k := FindHolder(q, hint, start, z);
    assert Inside(q[i], start, z);
    if k >= 0 {
      HolderUnique(q, i, k, start);
    }
  }

  /** For a range that wraps to end: the region searched first, or the first one, that ends at or after it. */
  ghost predicate CutAcross(q: seq<Region>, hint: int, end: nat, k: nat) {
    && k < |q| && end <= q[k].end
    && (k == hint || ((0 <= hint < |q| ==> q[hint].end < end) && forall j :: 0 <= j < k ==> q[j].end < end))
  }

  /** ...and it ends beyond it. */
  ghost predicate CutBeyond(q: seq<Region>, hint: int, end: nat) {
    exists k: nat :: CutAcross(q, hint, end, k) && q[k].end > end
  }

  /** A wrapping range is taken to lie in that region. */
  lemma WrapHolder(q: seq<Region>, hint: int, start: nat, size: nat, end: nat, k: nat)
    requires Ordered(q) && start < TWO64 && 1 <= size <= ALLOC_END && start + Align(size) == end + TWO64
    requires FindHolder(q, hint, start, Align(size)) == k
    ensures Add64(start, Align(size)) == end && (CutBeyond(q, hint, end) <==> q[k].end > end)
  {
    AlignBounds(size);
    var z := Align(size);
    assert Add64(start, z) == end;
    assert forall i :: 0 <= i < |q| ==> (Inside(q[i], start, z) <==> end <= q[i].end);
    assert CutAcross(q, hint, end, k);
  }

  /**
    `vma_del_vadrs` keeps the list sorted, disjoint and in bounds, and removes exactly the range
    it was given, exactly when start plus the rounded size does not wrap around, or every region
    ends before the wrapped end, or a middle cut would be needed and no descriptor can be had.
  */
  lemma DeleteRemovesIff(q: seq<Region>, hint: int, start: nat, size: nat, node: bool)
    requires Ordered(q) && HintOk(q, hint) && 0 < start < TWO64 && 1 <= size <= ALLOC_END
    ensures var c, end := Delete(q, hint, start, size, node), start + Align(size);
      && (Ordered(c.regions) <==>
          || end < TWO64
          || (forall i :: 0 <= i < |q| ==> q[i].end < end - TWO64)
          || (!node && CutBeyond(q, hint, end - TWO64)))
      && (end < TWO64 && c.ok ==> RemovesExactly(q, c.regions, start, Align(size)) && HintOk(c.regions, c.hint))
      && (end < TWO64 ==> (c.ok <==> CanCut(q, start, end, node)))
      && (!c.ok ==> c.regions == q && c.hint == hint)
  {
    if start + Align(size) < TWO64 {
      DeleteWithin(q, hint, start, size, node);
    } else {
      DeleteAcross(q, hint, start, size, start + Align(size) - TWO64, node);
    }
  }

  lemma DeleteWithin(q: seq<Region>, hint: int, start: nat, size: nat, node: bool)
    requires Ordered(q) && HintOk(q, hint) && 0 < start && 1 <= size <= ALLOC_END && start + Align(size) < TWO64
    ensures var c := Delete(q, hint, start, size, node);
      && Ordered(c.regions) && (c.ok ==> RemovesExactly(q, c.regions, start, Align(size)) && HintOk(c.regions, c.hint))
      && (c.ok <==> CanCut(q, start, start + Align(size), node))
      && (!c.ok ==> c.regions == q && c.hint == hint)
  {
    DeleteAlignedExact(q, hint, start, Align(size), node);
    DeleteGrantedIff(q, hint, start, size, node);
  }

  lemma DeleteAcross(q: seq<Region>, hint: int, start: nat, size: nat, end: nat, node: bool)
    requires Ordered(q) && HintOk(q, hint) && start < TWO64 && 1 <= size <= ALLOC_END && start + Align(size) == end + TWO64
    ensures var c := Delete(q, hint, start, size, node);
      && (Ordered(c.regions) <==> (forall i :: 0 <= i < |q| ==> q[i].end < end) || (!node && CutBeyond(q, hint, end)))
      && (!c.ok ==> c.regions == q && c.hint == hint)
  {
    var k := FindHolder(q, hint, start, Align(size));
    DeleteWraps(q, hint, start, size, node);
    WrapFoundIff(q, hint, start, size);
    if k >= 0 {
      WrapHolder(q, hint, start, size, end, k);
    }
  }

  /** The smallest such range. */
  lemma DeleteWrapExample(q: seq<Region>)
    requires Ordered(q) && q != []
    ensures !Ordered(Delete(q, -1, 0xffff_ffff_ffff_f000, 0x1000, true).regions)
  {
    assert Align(0x1000) == 0x1000;
    DeleteRemovesIff(q, -1, 0xffff_ffff_ffff_f000, 0x1000, true);
    assert q[0].end >= 0;
  }

  // ---------- runs ----------

  datatype Op =
    | NewOp(start: nat, size: nat, t: Traits, node: bool)
    | DeleteOp(start: nat, size: nat, node: bool)

  /** The range does not wrap around and is no larger than the user half. */
  predicate Sensible(op: Op) {
    1 <= op.size <= ALLOC_END && op.start + Align(op.size) < TWO64
  }

  function Step(q: seq<Region>, hint: int, op: Op): (seq<Region>, int) {
    match op
    case NewOp(start, size, t, node) => var g := New(q, hint, start, size, t, node); (g.regions, g.hint)
    case DeleteOp(start, size, node) => var c := Delete(q, hint, start, size, node); (c.regions, c.hint)
  }

  function Run(q: seq<Region>, hint: int, ops: seq<Op>): (seq<Region>, int)
    decreases ops
  {
    if ops == [] then (q, hint)
    else var (p, h) := Step(q, hint, ops[0]); Run(p, h, ops[1..])
  }

  /** Every run keeps the list sorted, disjoint and in bounds, and the hint null or a member. */
  lemma {:induction false} RunKeepsOrdered(q: seq<Region>, hint: int, ops: seq<Op>)
    requires Ordered(q) && HintOk(q, hint) && forall i :: 0 <= i < |ops| ==> Sensible(ops[i])
    ensures Ordered(Run(q, hint, ops).0) && HintOk(Run(q, hint, ops).0, Run(q, hint, ops).1)
    decreases ops
  {
    if ops != [] {
      StepCovers(q, hint, ops[0], 0);
      var (p, h) := Step(q, hint, ops[0]);
      RunKeepsOrdered(p, h, ops[1..]);
    }
  }

  /** Whether an address is in a plain set that gains each grant of the run and loses each deletion. */
  function Plain(c: bool, q: seq<Region>, hint: int, ops: seq<Op>, a: nat): bool
    decreases ops
  {
    if ops == [] then c
    else var (p, h) := Step(q, hint, ops[0]); Plain(PlainStep(c, q, hint, ops[0], a), p, h, ops[1..], a)
  }

  function PlainStep(c: bool, q: seq<Region>, hint: int, op: Op, a: nat): bool {
    match op
    case NewOp(start, size, t, node) =>
      var g := New(q, hint, start, size, t, node).address;
      c || (g != 0 && g <= a < g + Align(size))
    case DeleteOp(start, size, node) =>
      c && !(Delete(q, hint, start, size, node).ok && start <= a < start + Align(size))
  }

  lemma StepCovers(q: seq<Region>, hint: int, op: Op, a: nat)
    requires Ordered(q) && HintOk(q, hint) && Sensible(op)
    ensures Covered(Step(q, hint, op).0, a) <==> PlainStep(Covered(q, a), q, hint, op, a)
    ensures Ordered(Step(q, hint, op).0) && HintOk(Step(q, hint, op).0, Step(q, hint, op).1)
  {
    AlignBounds(op.size);
    match op {
      case NewOp(start, size, t, node) => NewKeepsOrderedIff(q, hint, start, size, t, node);
      case DeleteOp(start, size, node) =>
        if start > 0 {
          DeleteRemovesIff(q, hint, start, size, node);
        }
    }
  }

  /** Every run covers what a plain set of addresses would hold. */
  lemma {:induction false} RunCovers(q: seq<Region>, hint: int, ops: seq<Op>, a: nat)
    requires Ordered(q) && HintOk(q, hint) && forall i :: 0 <= i < |ops| ==> Sensible(ops[i])
    ensures Covered(Run(q, hint, ops).0, a) <==> Plain(Covered(q, a), q, hint, ops, a)
    decreases ops
  {
    if ops != [] {
      StepCovers(q, hint, ops[0], a);
      var (p, h) := Step(q, hint, ops[0]);
      RunCovers(p, h, ops[1..], a);
    }
  }

  /** So a grant is disjoint from every region there was and every earlier grant not since deleted. */
  lemma GrantAfterRunIsNew(q: seq<Region>, hint: int, ops: seq<Op>, start: nat, size: nat, t: Traits, node: bool, a: nat)
    requires Ordered(q) && HintOk(q, hint) && forall i :: 0 <= i < |ops| ==> Sensible(ops[i])
    requires Sensible(NewOp(start, size, t, node))
    ensures var (p, h) := Run(q, hint, ops);
      var g := New(p, h, start, size, t, node).address;
      g != 0 && g <= a < g + Align(size) ==> !Plain(Covered(q, a), q, hint, ops, a)
  {
    RunCovers(q, hint, ops, a);
    RunKeepsOrdered(q, hint, ops);
    var (p, h) := Run(q, hint, ops);
    AlignBounds(size);
    NewKeepsOrderedIff(p, h, start, size, t, node);
  }
}
