/**
  The virtual regions of a process: a sorted list of address ranges with a "last used" hint. New
  ranges extend a region or insert one behind it; deletion cuts a region in one of four ways.
  Addresses are 64-bit and sums wrap around.
*/
module Regions {

  const TWO64: nat := 0x1_0000_0000_0000_0000
  const PAGE: nat := 0x1000
  const ALLOC_END: nat := 0x7fff_ffff_ffff  // USER_VIRTUAL_ADDRESS_END, vs_isalcend

  /** One `kmvarsdsc_t`; file 0 is no file. */
  datatype Region = Region(start: nat, end: nat, limits: nat, kind: nat, file: nat, flags: nat)

  /** What a caller asks a new region to be. */
  datatype Traits = Traits(limits: nat, kind: nat, file: nat, flags: nat)

  function Add64(a: nat, b: nat): nat { (a + b) % TWO64 }

  /** `VADSZ_ALIGN`: round up to a whole page, in 64 bits. */
  function Align(x: nat): nat { Add64(x, PAGE - 1) / PAGE * PAGE }

  // ---------- search ----------

  /** `vma_find_kmvarsdsc_is_ok`: the range fits between region i and the next. */
  predicate FitsAfter(q: seq<Region>, i: nat, start: nat, size: nat)
    requires i < |q|
  {
    if i + 1 < |q| then
      if start == 0 then Add64(q[i].end, size) <= q[i + 1].start
      else q[i].end <= start && Add64(start, size) <= q[i + 1].start
    else
      if start == 0 then Add64(q[i].end, size) < ALLOC_END
      else q[i].end <= start && Add64(start, size) < ALLOC_END
  }

  /** The first region from i on that the range fits after, or -1. */
  function FirstFit(q: seq<Region>, i: nat, start: nat, size: nat): (k: int)
    requires i <= |q|
    ensures k == -1 || i <= k < |q|
    ensures k >= 0 ==> FitsAfter(q, k, start, size)
    ensures forall j :: i <= j < (if k == -1 then |q| else k) ==> !FitsAfter(q, j, start, size)
    decreases |q| - i
  {
    if i == |q| then -1 else if FitsAfter(q, i, start, size) then i else FirstFit(q, i + 1, start, size)
  }

  /** `vma_find_kmvarsdsc`: the hinted region if the range fits after it, else the first that does. */
  function FindGap(q: seq<Region>, hint: int, start: nat, size: nat): (k: int)
    ensures k == -1 || 0 <= k < |q|
  {
    if size < PAGE || Add64(start, size) > ALLOC_END then -1
    else if 0 <= hint < |q| && FitsAfter(q, hint, start, size) then hint
    else FirstFit(q, 0, start, size)
  }

  /** The range lies inside region r. */
  predicate Inside(r: Region, start: nat, size: nat) {
    r.start <= start && Add64(start, size) <= r.end
  }

  function FirstInside(q: seq<Region>, i: nat, start: nat, size: nat): (k: int)
    requires i <= |q|
    ensures k == -1 || i <= k < |q|
    ensures k >= 0 ==> Inside(q[k], start, size)
    ensures forall j :: i <= j < (if k == -1 then |q| else k) ==> !Inside(q[j], start, size)
    decreases |q| - i
  {
    if i == |q| then -1 else if Inside(q[i], start, size) then i else FirstInside(q, i + 1, start, size)
  }

  /** `vma_del_find_kmvarsdsc`: the region to cut, or -1. */
  function FindHolder(q: seq<Region>, hint: int, start: nat, size: nat): (k: int)
    ensures k == -1 || 0 <= k < |q|
    ensures k >= 0 ==> Inside(q[k], start, size) && PAGE <= size
  {
    if size < PAGE then -1
    else if 0 <= hint < |q| && Inside(q[hint], start, size) then hint
    else FirstInside(q, 0, start, size)
  }

  predicate Holds(r: Region, a: nat) { r.start <= a < r.end }

  function FirstHolding(q: seq<Region>, i: nat, a: nat): (k: int)
    requires i <= |q|
    ensures k == -1 || i <= k < |q|
    ensures k >= 0 ==> Holds(q[k], a)
    ensures forall j :: i <= j < (if k == -1 then |q| else k) ==> !Holds(q[j], a)
    decreases |q| - i
  {
    if i == |q| then -1 else if Holds(q[i], a) then i else FirstHolding(q, i + 1, a)
  }

  /** `vma_map_find_kmvarsdsc`: the region an address lies in, or -1. */
  function Lookup(q: seq<Region>, hint: int, a: nat): (k: int)
    ensures k == -1 || 0 <= k < |q|
    ensures k >= 0 ==> Holds(q[k], a)
  {
    if 0 <= hint < |q| && Holds(q[hint], a) then hint else FirstHolding(q, 0, a)
  }

  // ---------- updates ----------

  datatype Granted = Granted(regions: seq<Region>, hint: int, address: nat)

  /** The region can simply grow to hold what is asked for. */
  predicate Alike(r: Region, t: Traits) {
    t.limits == r.limits && t.kind == r.kind && t.file == 0
  }

  /** Extend region k, or put a new region behind it if a descriptor (`node`) can be had. */
  function Place(q: seq<Region>, hint: int, k: nat, start: nat, size: nat, t: Traits, node: bool): Granted
    requires k < |q|
  {
    if (start == 0 || start == q[k].end) && Alike(q[k], t) then
      Granted(q[k := q[k].(end := Add64(q[k].end, size))], k, q[k].end)
    else if !node then Granted(q, hint, 0)
    else
      var s := if start == 0 then q[k].end else start;
      var r := Region(s, Add64(s, size), t.limits, t.kind, t.file, t.flags);
      Granted(q[..k + 1] + [r] + q[k + 1..], k + 1, s)
  }

  /** `vma_new_vadrs_core` on a size already rounded. */
  function NewAligned(q: seq<Region>, hint: int, start: nat, size: nat, t: Traits, node: bool): Granted {
    var k := FindGap(q, hint, start, size);
    if k == -1 then Granted(q, hint, 0) else Place(q, hint, k, start, size, t, node)
  }

  /** The checks of `vma_new_vadrs`. */
  predicate Acceptable(start: nat, size: nat) {
    size >= 1 && (start == 0 || (start % PAGE == 0 && start >= PAGE && Add64(start, size) <= ALLOC_END))
  }

  /** `vma_new_vadrs`: address 0 means refused. */
  function New(q: seq<Region>, hint: int, start: nat, size: nat, t: Traits, node: bool): Granted {
    if Acceptable(start, size) then NewAligned(q, hint, start, Align(size), t, node) else Granted(q, hint, 0)
  }

  datatype Cut = Cut(regions: seq<Region>, hint: int, ok: bool)

  /** `vma_del_vadrs_core` on a size already rounded. */
  function DeleteAligned(q: seq<Region>, hint: int, start: nat, size: nat, node: bool): Cut {
    var k := FindHolder(q, hint, start, size);
    if k == -1 then Cut(q, hint, false)
    else
      var r, end := q[k], Add64(start, size);
      if r.start == start && r.end == end then
        Cut(q[..k] + q[k + 1..], if k == |q| - 1 then k - 1 else k, true)
      else if r.start == start && r.end > end then
        Cut(q[k := r.(start := end)], hint, true)
      else if r.start < start && r.end == end then
        Cut(q[k := r.(end := start)], hint, true)
      else if !node then Cut(q, hint, false)
      else
        var upper := Region(end, r.end, r.limits, r.kind, 0, 0);
        Cut(q[..k] + [r.(end := start), upper] + q[k + 1..], k + 1, true)
  }

  /** `vma_del_vadrs`. */
  function Delete(q: seq<Region>, hint: int, start: nat, size: nat, node: bool): Cut {
    if size < 1 || start == 0 then Cut(q, hint, false) else DeleteAligned(q, hint, start, Align(size), node)
  }

  // ---------- invariant ----------

  /** Regions are non-empty, within bounds, sorted and disjoint. */
  ghost predicate Ordered(q: seq<Region>) {
    && (forall i :: 0 <= i < |q| ==> PAGE <= q[i].start < q[i].end <= ALLOC_END)
    && (forall i, j :: 0 <= i < j < |q| ==> q[i].end <= q[j].start)
  }

  /** Address a lies in some region. */
  ghost predicate Covered(q: seq<Region>, a: nat) {
    exists i :: 0 <= i < |q| && Holds(q[i], a)
  }

  ghost predicate HintOk(q: seq<Region>, hint: int) { -1 <= hint < |q| }
}
