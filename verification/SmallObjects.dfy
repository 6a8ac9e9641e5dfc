/**
  Small-object pools: 64 size classes, each carving page runs into slots of its size. A class takes
  its first run when it is first used, grows by further runs, and returns all of them with its last
  live object. Free-list headers and container headers live inside the runs.
*/
module SmallObjects {
  import opened BitMath
  import opened Sequences

  const CLASSES: nat := 64     // KOBLST_MAX
  const MSCLST_MAX: nat := 5
  const PAGESIZE: nat := 0x1000
  const MAX_SIZE: nat := 2048
  const KMSOB_T: nat := 368    // sizeof(kmsob_t)
  const KMBEXT_T: nat := 48    // sizeof(kmbext_t)

  /** Pages held from the page allocator. */
  datatype Extent = Extent(start: nat, pages: nat)

  /** A run of pages with a header at its start: `so_vstat`/`mt_vstat`. */
  datatype Run = Run(start: nat, pages: nat, header: nat)

  /** The address of the last byte: `so_vend`/`mt_vend`. */
  function Last(r: Run): int { r.start + r.pages * PAGESIZE - 1 }

  /**
    One `kmsob_t` with its extensions; runs[0] is its own. `mc` lists the extension runs by the order
    of their page count, `kmobin` its own run. `live` records the objects handed out.
  */
  datatype Container = Container(
    objsz: nat, runs: seq<Run>, free: seq<nat>, mobjnr: int, fobjnr: int,
    mc: seq<seq<nat>>, kmobin: seq<nat>, kmobinpnr: nat, live: multiset<nat>)

  /** One `koblst_t`; `cahe` is the start of the container last used, 0 for none. */
  datatype Class = Class(list: seq<Container>, cahe: nat, emnr: int)

  /** The pool manager; `held` are the pages it holds from the page allocator. */
  datatype Mgr = Mgr(classes: seq<Class>, msobnr: int, held: multiset<Extent>)

  function ObjSize(i: nat): nat { 32 * (i + 1) }

  /** `onmsz_retn_koblst`: the first class from i on whose objects are large enough. */
  function ClassFrom(i: nat, msz: nat): (k: nat)
    requires i <= CLASSES
    ensures i <= k <= CLASSES
    ensures k < CLASSES ==> msz <= ObjSize(k)
    ensures forall j :: i <= j < k ==> ObjSize(j) < msz
    decreases CLASSES - i
  {
    if i == CLASSES || ObjSize(i) >= msz then i else ClassFrom(i + 1, msz)
  }

  /** Pages per run: 1 up to 128 bytes, 2 up to 512, else 4. */
  function PagesFor(objsz: nat): nat { if 512 < objsz then 4 else if 128 < objsz then 2 else 1 }

  /** The carving loop from address ap on. */
  function Slots(ap: nat, objsz: nat, end: int): seq<nat>
    requires objsz > 0
    decreases end - ap
  {
    if ap >= end then []
    else (if ap + objsz <= end then [ap] else []) + Slots(ap + objsz, objsz, end)
  }

  function SlotsOf(r: Run, objsz: nat): seq<nat>
    requires objsz > 0
  {
    Slots(r.start + r.header, objsz, Last(r))
  }

  /** The slots of all runs, in the order they were carved. */
  function AllSlots(runs: seq<Run>, objsz: nat): seq<nat>
    requires objsz > 0
  {
    if runs == [] then [] else AllSlots(runs[..|runs| - 1], objsz) + SlotsOf(runs[|runs| - 1], objsz)
  }

  // ---------- containers ----------

  /** `_create_init_kmsob` on a run that starts at `start`. */
  function Create(objsz: nat, start: nat): Container
    requires objsz > 0
  {
    var r := Run(start, PagesFor(objsz), KMSOB_T);
    var slots := SlotsOf(r, objsz);
    Container(objsz, [r], slots, |slots|, |slots|, [[], [], [], [], []], [start], r.pages, multiset{})
  }

  /** `kmsob_extn_pages` on a run that starts at `start`. */
  function Extend(c: Container, start: nat): Container
    requires c.objsz > 0 && |c.mc| == MSCLST_MAX
  {
    var r := Run(start, PagesFor(c.objsz), KMBEXT_T);
    var slots := SlotsOf(r, c.objsz);
    var k := DivOrder(r.pages);
    if k >= MSCLST_MAX then c
    else c.(runs := c.runs + [r], free := c.free + slots, mobjnr := c.mobjnr + |slots|, fobjnr := c.fobjnr + |slots|,
            mc := c.mc[k := c.mc[k] + [start]])
  }

  /** `kmsob_new_opkmsob`: pop the front of the free list. */
  function Pop(c: Container): Container
    requires c.free != []
  {
    c.(free := c.free[1..], fobjnr := c.fobjnr - 1, live := c.live + multiset{c.free[0]})
  }

  /** `scan_delkmsob_isok`: the object lies past a run's header and inside the run. */
  predicate Holds(c: Container, a: nat, fsz: nat) {
    exists k :: 0 <= k < |c.runs| && WithinRun(c.runs[k], a, fsz) && fsz <= c.objsz
  }

  predicate WithinRun(r: Run, a: nat, fsz: nat) {
    r.start + r.header <= a && a + fsz <= Last(r)
  }

  /** The first run from k on whose bytes include the object, or the number of runs. */
  function RunOf(runs: seq<Run>, k: nat, a: nat, fsz: nat): (j: nat)
    requires k <= |runs|
    ensures k <= j <= |runs|
    ensures j < |runs| ==> runs[j].start <= a && a + fsz - 1 <= Last(runs[j])
    ensures forall i :: k <= i < j ==> !(runs[i].start <= a && a + fsz - 1 <= Last(runs[i]))
    decreases |runs| - k
  {
    if k == |runs| || (runs[k].start <= a && a + fsz - 1 <= Last(runs[k])) then k else RunOf(runs, k + 1, a, fsz)
  }

  /** `scan_fadrskmsob_isok`: a slot of the run starts at a. */
  predicate IsSlot(r: Run, a: nat, objsz: nat)
    requires objsz > 0
  {
    WithinRun(r, a, objsz) && (a - (r.start + r.header)) % objsz == 0
  }

  /** `kmsob_del_opkmsob`. */
  function Push(c: Container, a: nat, fsz: nat): (Container, bool)
    requires c.objsz > 0
  {
    var k := RunOf(c.runs, 0, a, fsz);
    if c.fobjnr + 1 > c.mobjnr || k == |c.runs| || !IsSlot(c.runs[k], a, c.objsz) then (c, false)
    else (c.(free := c.free + [a], fobjnr := c.fobjnr + 1, live := c.live - multiset{a}), true)
  }

  function Extents(q: seq<nat>, pages: nat): multiset<Extent> {
    if q == [] then multiset{} else multiset{Extent(q[0], pages)} + Extents(q[1..], pages)
  }

  /** What `_destroy_kmsob_core` gives back from list j on, then the container's own run. */
  function Returned(c: Container, j: nat): multiset<Extent>
    requires |c.mc| == MSCLST_MAX && j <= MSCLST_MAX
    decreases MSCLST_MAX - j
  {
    if j == MSCLST_MAX then Extents(c.kmobin, c.kmobinpnr) else Extents(c.mc[j], Pow2(j)) + Returned(c, j + 1)
  }

  // ---------- requests ----------

  /** `onkoblst_retn_newkmsob`: the cached container if it fits, else the first that does, else the length. */
  function FindNew(x: Class, k: nat, msz: nat): (j: nat)
    requires k <= |x.list|
    ensures k <= j <= |x.list|
    ensures j < |x.list| ==> msz <= x.list[j].objsz
    decreases |x.list| - k
  {
    if k == |x.list| || msz <= x.list[k].objsz then k else FindNew(x, k + 1, msz)
  }

  function Address(c: Container): nat { if c.runs == [] then 0 else c.runs[0].start }

  /** The position of the container at an address, or the length of the list. */
  function Locate(q: seq<Container>, k: nat, address: nat): (j: nat)
    requires k <= |q|
    ensures k <= j <= |q|
    ensures j < |q| ==> Address(q[j]) == address
    decreases |q| - k
  {
    if k == |q| || Address(q[k]) == address then k else Locate(q, k + 1, address)
  }

  function PickNew(x: Class, msz: nat): (j: nat)
    ensures j <= |x.list|
  {
    var h := Locate(x.list, 0, x.cahe);
    if x.cahe != 0 && h < |x.list| && msz <= x.list[h].objsz then h else FindNew(x, 0, msz)
  }

  /** `onkoblst_retn_delkmsob`. */
  function FindHolder(x: Class, k: nat, a: nat, fsz: nat): (j: nat)
    requires k <= |x.list|
    ensures k <= j <= |x.list|
    ensures j < |x.list| ==> Holds(x.list[j], a, fsz)
    decreases |x.list| - k
  {
    if k == |x.list| || Holds(x.list[k], a, fsz) then k else FindHolder(x, k + 1, a, fsz)
  }

  function PickHolder(x: Class, a: nat, fsz: nat): (j: nat)
    ensures j <= |x.list|
  {
    var h := Locate(x.list, 0, x.cahe);
    if x.cahe != 0 && h < |x.list| && Holds(x.list[h], a, fsz) then h else FindHolder(x, 0, a, fsz)
  }

  /** `kmsob_extn_pages` succeeds: there is a run on offer and a list for its size. */
  predicate CanExtend(c: Container, start: nat) {
    start != 0 && DivOrder(PagesFor(c.objsz)) < MSCLST_MAX
  }

  /**
    `kmsob_new_onkmsob` on container j of class i; `start` is the run the page allocator has, 0 for
    none. A run of a size that is not listed goes straight back.
  */
  function NewOn(m: Mgr, i: nat, j: nat, msz: nat, start: nat): (Mgr, nat)
    requires i < |m.classes| && j < |m.classes[i].list|
    requires m.classes[i].list[j].objsz > 0 && |m.classes[i].list[j].mc| == MSCLST_MAX
  {
    var c := m.classes[i].list[j];
    if c.fobjnr < 1 && !CanExtend(c, start) then (m, 0)
    else
      var c1 := if c.fobjnr < 1 then Extend(c, start) else c;
      var held := if c.fobjnr < 1 then m.held + multiset{Extent(start, PagesFor(c.objsz))} else m.held;
      if c1.free == [] || c1.fobjnr < 1 || c1.mobjnr < 1 || msz > c1.objsz then
        (m.(classes := m.classes[i := m.classes[i].(list := m.classes[i].list[j := c1])], held := held), 0)
      else
        var x := m.classes[i].(list := m.classes[i].list[j := Pop(c1)], cahe := Address(c1));
        (m.(classes := m.classes[i := x], held := held), c1.free[0])
  }

  /** `_create_kmsob` for class i. */
  function AddContainer(m: Mgr, i: nat, start: nat): Mgr
    requires i < |m.classes|
  {
    var x := m.classes[i];
    var c := Create(ObjSize(i), start);
    m.(classes := m.classes[i := x.(list := x.list + [c], emnr := x.emnr + 1)], msobnr := m.msobnr + 1,
       held := m.held + multiset{Extent(start, c.kmobinpnr)})
  }

  /** `kmsob_new`: address 0 means refused. */
  function New(m: Mgr, msz: nat, start: nat): (Mgr, nat)
    requires Usable(m)
  {
    if msz < 1 || msz > MAX_SIZE then (m, 0)
    else
      var i := ClassFrom(0, msz);
      if i >= |m.classes| then (m, 0)
      else
        var j := PickNew(m.classes[i], msz);
        if j < |m.classes[i].list| then NewOn(m, i, j, msz, start)
        else if start == 0 then (m, 0)
        else NewOn(AddContainer(m, i, start), i, |m.classes[i].list|, msz, 0)
  }

  /** What reading the records needs. */
  ghost predicate Usable(m: Mgr) {
    forall i, j :: 0 <= i < |m.classes| && 0 <= j < |m.classes[i].list| ==>
      m.classes[i].list[j].objsz > 0 && |m.classes[i].list[j].mc| == MSCLST_MAX
  }

  /** `_destroy_kmsob` on container j of class i once an object has come back. */
  function Settle(m: Mgr, i: nat, j: nat): (Mgr, bool)
    requires i < |m.classes| && j < |m.classes[i].list| && |m.classes[i].list[j].mc| == MSCLST_MAX
  {
    var x := m.classes[i];
    var c := x.list[j];
    if m.msobnr < 1 || x.emnr < 1 || c.mobjnr < c.fobjnr then (m, false)
    else if c.mobjnr > c.fobjnr then (m.(classes := m.classes[i := x.(cahe := Address(c))]), true)
    else if c.kmobinpnr < 1 || c.kmobin == [] then (m, false)
    else
      var x1 := Class(Without(x.list, j), if x.cahe == Address(c) then 0 else x.cahe, x.emnr - 1);
      (m.(classes := m.classes[i := x1], msobnr := m.msobnr - 1, held := m.held - Returned(c, 0)), true)
  }

  /** `kmsob_delete`. */
  function Delete(m: Mgr, a: nat, fsz: nat): (Mgr, bool)
    requires Usable(m)
  {
    if a == 0 || fsz < 1 || fsz > MAX_SIZE then (m, false)
    else
      var i := ClassFrom(0, fsz);
      if i >= |m.classes| then (m, false)
      else
        var x := m.classes[i];
        var j := PickHolder(x, a, fsz);
        if j == |x.list| then (m, false)
        else
          var (c, ok) := Push(x.list[j], a, fsz);
          if !ok then (m, false)
          else Settle(m.(classes := m.classes[i := x.(list := x.list[j := c])]), i, j)
  }

  // ---------- invariant ----------

  /** Two runs share no byte. */
  predicate Apart(r: Run, t: Run) { Last(r) < t.start || Last(t) < r.start }

  ghost predicate RunsOk(runs: seq<Run>, objsz: nat) {
    && runs != []
    && (forall k :: 0 <= k < |runs| ==> runs[k].start > 0 && runs[k].pages == PagesFor(objsz))
    && (forall k :: 0 <= k < |runs| ==> runs[k].header == if k == 0 then KMSOB_T else KMBEXT_T)
    && (forall k, l :: 0 <= k < l < |runs| ==> Apart(runs[k], runs[l]))
  }

  function Starts(runs: seq<Run>): (q: seq<nat>)
    ensures |q| == |runs| && forall k :: 0 <= k < |runs| ==> q[k] == runs[k].start
  {
    seq(|runs|, k requires 0 <= k < |runs| => runs[k].start)
  }

  /** The page lists name exactly the container's runs. */
  ghost predicate PagesListed(c: Container) {
    && c.runs != [] && c.kmobin == [c.runs[0].start] && c.kmobinpnr == PagesFor(c.objsz)
    && |c.mc| == MSCLST_MAX
    && forall j :: 0 <= j < MSCLST_MAX ==> c.mc[j] == if Pow2(j) == PagesFor(c.objsz) then Starts(c.runs[1..]) else []
  }

  /** Every slot is either free or live, and the counts are right. */
  ghost predicate SlotsKept(c: Container)
    requires c.objsz > 0
  {
    && multiset(c.free) + c.live == multiset(AllSlots(c.runs, c.objsz))
    && c.fobjnr == |c.free| && c.mobjnr == |AllSlots(c.runs, c.objsz)|
  }

  ghost predicate ContainerOk(c: Container, i: nat) {
    c.objsz == ObjSize(i) && RunsOk(c.runs, c.objsz) && PagesListed(c) && SlotsKept(c)
  }

  /** A class has at most one container, which has live objects. */
  ghost predicate ClassOk(x: Class, i: nat) {
    && |x.list| <= 1 && x.emnr == |x.list|
    && (x.list != [] ==> ContainerOk(x.list[0], i) && x.list[0].live != multiset{})
    && (x.cahe != 0 ==> x.list != [] && x.cahe == Address(x.list[0]))
  }

  function RunsIn(x: Class): seq<Run> { if x.list == [] then [] else x.list[0].runs }

  ghost predicate AllApart(p: seq<Run>, q: seq<Run>) {
    forall k, l :: 0 <= k < |p| && 0 <= l < |q| ==> Apart(p[k], q[l])
  }

  function RunExtents(runs: seq<Run>): multiset<Extent> {
    if runs == [] then multiset{} else RunExtents(runs[..|runs| - 1]) + multiset{Extent(runs[|runs| - 1].start, runs[|runs| - 1].pages)}
  }

  /** Containers, and pages, of the classes below n. */
  function ContainersBelow(classes: seq<Class>, n: nat): int
    requires n <= |classes|
  {
    if n == 0 then 0 else ContainersBelow(classes, n - 1) + |classes[n - 1].list|
  }

  function HeldBelow(classes: seq<Class>, n: nat): multiset<Extent>
    requires n <= |classes|
  {
    if n == 0 then multiset{} else HeldBelow(classes, n - 1) + RunExtents(RunsIn(classes[n - 1]))
  }

  ghost predicate ClassesOk(classes: seq<Class>) {
    |classes| == CLASSES && forall i :: 0 <= i < CLASSES ==> ClassOk(classes[i], i)
  }

  /** No two classes share a byte. */
  ghost predicate Disjoint(classes: seq<Class>) {
    forall i, j :: 0 <= i < j < |classes| ==> AllApart(RunsIn(classes[i]), RunsIn(classes[j]))
  }

  ghost predicate Booked(m: Mgr) {
    m.msobnr == ContainersBelow(m.classes, |m.classes|) && m.held == HeldBelow(m.classes, |m.classes|)
  }

  ghost predicate Inv(m: Mgr) {
    ClassesOk(m.classes) && Disjoint(m.classes) && Booked(m)
  }

  /** Object a of class i is live. */
  ghost predicate Live(m: Mgr, i: nat, a: nat) {
    i < |m.classes| && m.classes[i].list != [] && a in m.classes[i].list[0].live
  }
}
