/**
 Process creation and memory (kernel-rs/src/proc.rs, proc/elf.rs, sys_sbrk): loading an ELF
 image, building the initial stack, growing the heap, and giving every page back.
 */
module Proc {
  import opened Common
  import opened Pmm
  import opened PageTable
  import opened AddressSpaces
  import opened Budget
  import opened Vmm
  import opened UserMemory

  // ---- writing user memory -------------------------------------------------------------------

  lemma MappedFrame(vm: Vm, r: nat, v: Path)
    requires Ok(vm) && InRange(vm) && r in vm.spaces && v in FlatOf(vm, r)
    ensures 0 < FlatOf(vm, r)[v].frame < BITMAP_PAGES
  {
    FlatFrame(vm, r, v);
    PagesHas(vm.spaces[r], v);
  }

  lemma AllDataKept(a: Vm, r: nat, f: nat, o: nat, chunk: seq<Byte>)
    requires IsDataPage(a.mem, f) && o + |chunk| <= 4096 && r in a.spaces && AllData(a, r)
    requires SameMaps(a, WithBytes(a, f, o, chunk))
    ensures AllData(WithBytes(a, f, o, chunk), r)
  {
    hide FlatOf;
  }

  lemma InRangeKept(a: Vm, b: Vm)
    requires InRange(a) && b.spaces == a.spaces && b.free == a.free
    ensures InRange(b)
  {
  }

  // Copies `chunk`, which does not cross a page boundary, to the page mapped at `dst`.
  method CopyToPage(m: AddressSpaceManager, space: nat, dst: nat, pa: nat, chunk: seq<Byte>)
    requires m.Valid() && space in m.spaces && dst < USER_TOP && dst % 4096 + |chunk| <= 4096
    requires AllData(m.State(), space)
    requires PathOf(dst) in FlatOf(m.State(), space) && pa == Translation(FlatOf(m.State(), space), dst)
    modifies m`mem
    ensures m.Valid() && space in m.spaces && AllData(m.State(), space)
    ensures Wrote(old(m.State()), m.State(), space, dst, chunk) && Paid(old(m.State()), m.State(), space, {}, 0, true)
  {
    hide Ok, InRange, SharedHalf, Pmm.Allocator.Valid, Wrote, FlatOf, PathOf, Paid;
    ghost var start := m.State();
    var f := pa / PAGE_SIZE;
    assert f == FlatOf(start, space)[PathOf(dst)].frame && pa % PAGE_SIZE == dst % 4096;
    PageWrite(start, space, dst, chunk);
    WroteMaps(start, WithBytes(start, f, dst % 4096, chunk), space, dst, chunk);
    AllDataKept(start, space, f, dst % 4096, chunk);
    InRangeKept(start, WithBytes(start, f, dst % 4096, chunk));
    LeafNotTable(start, space, PathOf(dst));
    SharedData(start, m.kernelSpace, f, Spliced(m.mem[f].b, pa % PAGE_SIZE, chunk));
    m.mem := m.mem[f := Data(Spliced(m.mem[f].b, pa % PAGE_SIZE, chunk))];
    assert m.State() == WithBytes(start, f, dst % 4096, chunk);
    PaidNothing(start, m.State(), space);
  }

  lemma WroteMaps(a: Vm, b: Vm, r: nat, dst: nat, src: seq<Byte>)
    requires Wrote(a, b, r, dst, src)
    ensures SameMaps(a, b) && b.spaces == a.spaces && b.free == a.free && r in b.spaces && FlatOf(b, r) == FlatOf(a, r)
  {
    hide VByte, FlatOf, Pages;
  }

  /** Page-by-page copying is one virtual write; it succeeds exactly when every byte is mapped. */
  method UstackWrite(m: AddressSpaceManager, space: nat, dst: nat, src: seq<Byte>)
    returns (ok: bool, ghost done: nat)
    requires m.Valid() && space in m.spaces && dst + |src| <= USER_TOP && AllData(m.State(), space)
    modifies m`mem, m`spaces, m.pmm`free, m.pmm`freePages, m.pmm.bitmap
    ensures m.Valid() && SameMaps(old(m.State()), m.State()) && space in m.spaces && AllData(m.State(), space)
    ensures ok <==> forall a :: dst <= a < dst + |src| ==> PathOf(a) in FlatOf(old(m.State()), space)
    ensures done <= |src| && (ok ==> done == |src|)
    ensures Wrote(old(m.State()), m.State(), space, dst, src[..done])
    ensures Paid(old(m.State()), m.State(), space, {}, 0, true)
  {
    hide Ok, InRange, SharedHalf, Pmm.Allocator.Valid, Wrote, FlatOf, PathOf, AllData, SameMaps, Paid;
    ghost var start := m.State();
    PaidNow(start, space);
    var p := 0;
    WroteNothing(start, space, dst);
    WroteMaps(start, start, space, dst, []);
    assert src[..0] == [];
    while p < |src|
      invariant p <= |src| && m.Valid() && space in m.spaces && AllData(m.State(), space)
      invariant Wrote(start, m.State(), space, dst, src[..p]) && SameMaps(start, m.State())
      invariant Paid(start, m.State(), space, {}, 0, true)
      invariant FlatOf(m.State(), space) == FlatOf(start, space)
      invariant forall a :: dst <= a < dst + p ==> PathOf(a) in FlatOf(start, space)
    {
      var d := dst + p;
      var pa := m.Translate(space, d);
      if PathOf(d) in FlatOf(start, space) { MappedFrame(m.State(), space, PathOf(d)); }
      if pa == 0 { return false, p; }
      var chunk := PAGE_SIZE - d % PAGE_SIZE;
      if chunk > |src| - p { chunk := |src| - p; }
      ghost var s0 := m.State();
      CopyToPage(m, space, d, pa, src[p..p + chunk]);
      WroteTrans(start, s0, m.State(), space, dst, src[..p], src[p..p + chunk]);
      PaidSame(start, s0, m.State(), space, {}, 0);
      assert src[..p] + src[p..p + chunk] == src[..p + chunk];
      WroteMaps(start, m.State(), space, dst, src[..p + chunk]);
      forall a | d <= a < d + chunk ensures PathOf(a) in FlatOf(start, space) {
        PathsArePages(d, a);
      }
      p := p + chunk;
    }
    return true, p;
  }

  // ---- adding one page -----------------------------------------------------------------------

  // A failed attempt to add a page: nothing is mapped differently, and at most one page is lost.
  ghost predicate PageRefused(a: Vm, b: Vm, r: nat, lost: set<nat>) {
    && Balanced(a, b, r, lost) && AllData(b, r) && AtMostOne(lost)
    && forall x :: 0 <= x < USER_TOP ==> View(b, r, x) == View(a, r, x)
  }

  lemma RefusedAtOnce(a: Vm, r: nat)
    requires Ok(a) && r in a.spaces && AllData(a, r)
    ensures PageRefused(a, a, r, {})
  {
    hide Pages, FlatOf;
  }

  lemma RefusedBooks(a: Vm, a1: Vm, f: nat, b: Vm, r: nat)
    requires Ok(a) && f in a.free && r in a.spaces && r in b.spaces
    requires a1.spaces == a.spaces && a1.half == a.half && a1.free == a.free - {f} && SameData(a, a1)
    requires forall s :: s in a.spaces ==> FlatOf(a1, s) == FlatOf(a, s)
    requires Grown(a1, b, r)
    ensures Balanced(a, b, r, {f}) && SameData(a, b) && FlatOf(b, r) == FlatOf(a, r)
  {
    hide FlatOf, Pages, Ok;
    PagesNotFree(a, r);
    OthersKeptTrans(a, a1, b, r);
  }

  lemma SameFlatSameView(a: Vm, b: Vm, r: nat)
    requires Ok(a) && r in a.spaces && r in b.spaces && AllData(a, r) && SameData(a, b) && FlatOf(b, r) == FlatOf(a, r)
    ensures AllData(b, r)
    ensures forall x :: 0 <= x < USER_TOP ==> View(b, r, x) == View(a, r, x)
  {
    hide Ok, FlatOf, PathOf;
    forall w | w in FlatOf(a, r) ensures FlatOf(a, r)[w].frame !in a.free { LeafInUse(a, r, w); }
  }

  lemma RefusedByMap(a: Vm, mem1: Mem, f: nat, b: Vm, r: nat)
    requires Ok(a) && InRange(a) && f in a.free && r in a.spaces && r in b.spaces && AllData(a, r)
    requires forall g :: g in a.mem && g != f ==> g in mem1 && mem1[g] == a.mem[g]
    requires Grown(a.(mem := mem1, free := a.free - {f}), b, r)
    ensures PageRefused(a, b, r, {f})
  {
    hide Ok, InRange, FlatOf, Pages, PathOf, Grown, AllData, Unowned, SameData, View;
    TakeFrame(a, mem1, f);
    RefusedBooks(a, a.(mem := mem1, free := a.free - {f}), f, b, r);
    SameFlatSameView(a, b, r);
  }

  // There is a free page to take, but not one more for every table that mapping it needs.
  ghost predicate LosesPage(vm: Vm, r: nat, va: nat)
    requires r in vm.spaces
  {
    0 < |vm.free| < Cost(vm, r, TablesOf(va), 1)
  }

  lemma WhenLost(a: Vm, b: Vm, r: nat, va: nat, ok: bool, lost: set<nat>)
    requires Paid(a, b, r, TablesOf(va), 1, ok)
    requires ok ==> lost == {}
    requires !ok ==> (lost == {} <==> a.free == {})
    ensures NoHuge(a, r) ==> (ok <==> Cost(a, r, TablesOf(va), 1) <= |a.free|)
    ensures NoHuge(a, r) ==> (lost != {} <==> LosesPage(a, r, va))
  {
    hide NoHuge, TablesOf, Paid;
    PaidIff(a, b, r, TablesOf(va), 1, ok);
    if a.free != {} {
      var f :| f in a.free;
      NotEmpty(a.free, f);
    }
  }

  /** Takes a page, zeroes it and maps it. If the map fails, that page is lost. Without huge pages both are
      decided by the number of free pages before the call and the tables missing on the way. */
  method MapSegmentPage(m: AddressSpaceManager, space: nat, va: nat, flags: Flags)
    returns (ok: bool, ghost lost: set<nat>)
    requires m.Valid() && space in m.spaces && va < USER_TOP && va % 4096 == 0 && AllData(m.State(), space)
    modifies m`mem, m`spaces, m.pmm`free, m.pmm`freePages, m.pmm.bitmap
    ensures m.Valid() && space in m.spaces && AllData(m.State(), space)
    ensures ok ==> ZeroPageAdded(old(m.State()), m.State(), space, va / 4096, flags)
    ensures !ok ==> PageRefused(old(m.State()), m.State(), space, lost) && (lost == {} <==> old(m.pmm.free) == {})
    ensures Paid(old(m.State()), m.State(), space, TablesOf(va), 1, ok)
    ensures NoHuge(old(m.State()), space) ==>
      (ok <==> Cost(old(m.State()), space, TablesOf(va), 1) <= |old(m.pmm.free)|)
    ensures NoHuge(old(m.State()), space) ==> (lost != {} <==> LosesPage(old(m.State()), space, va))
  {
    hide Ok, InRange, SharedHalf, Pmm.Allocator.Valid, Grown, Mapped, Unowned, AllData, FlatOf, PathOf, Balanced;
    hide Paid, NoHuge, LosesPage, TablesOf;
    ghost var a := m.State();
    lost := {};
    var f := m.pmm.AllocPage();
    if f == 0 {
      RefusedAtOnce(a, space);
      PaidNone(a, space, TablesOf(va));
      WhenLost(a, a, space, va, false, {});
      return false, {};
    }
    TakeFrame(a, m.mem[f := Data(ZeroBytes())], f);
    FreeInRange(a, f);
    SharedData(a, m.kernelSpace, f, ZeroBytes());
    m.mem := m.mem[f := Data(ZeroBytes())];
    ghost var a1 := m.State();
    assert a1 == a.(mem := a.mem[f := Data(ZeroBytes())], free := a.free - {f});
    PaidTake(a, a1, space, f);
    ok := m.Map(space, va, f, flags);
    PaidPage(a, a1, m.State(), space, TablesOf(va), ok);
    if ok {
      MappedKeepsFrame(a1, m.State(), space, PathOf(va), Pte(true, f, flags));
      FreshPage(a, a1.mem, f, m.State(), space, va / 4096, flags);
      assert m.mem == m.mem[f := Data(ZeroBytes())];
    } else {
      RefusedByMap(a, a1.mem, f, m.State(), space);
      lost := {f};
    }
    WhenLost(a, m.State(), space, va, ok, lost);
  }

  lemma FreeInRange(vm: Vm, f: nat)
    requires InRange(vm) && f in vm.free
    ensures 0 < f < BITMAP_PAGES
  {
  }

  lemma MappedKeepsFrame(a: Vm, b: Vm, r: nat, v: Path, e: Pte)
    requires Mapped(a, b, r, v, e) && Unowned(a, e.frame)
    requires e.frame in a.mem && a.mem[e.frame].Data?
    ensures e.frame in b.mem && b.mem[e.frame] == a.mem[e.frame]
  {
  }

  lemma MappedLeaf(a: Vm, b: Vm, r: nat, v: Path, f: nat, flags: Flags)
    requires Mapped(a, b, r, v, Pte(true, f, flags))
    ensures r in b.spaces && v in FlatOf(b, r) && FlatOf(b, r)[v].frame == f
  {
    hide Pages, Flat;
  }

  /** Takes a page, maps it and then zeroes it, as the stack and heap loops do. */
  method MapUserPage(m: AddressSpaceManager, space: nat, va: nat, flags: Flags)
    returns (ok: bool, ghost lost: set<nat>)
    requires m.Valid() && space in m.spaces && va < USER_TOP && va % 4096 == 0 && AllData(m.State(), space)
    modifies m`mem, m`spaces, m.pmm`free, m.pmm`freePages, m.pmm.bitmap
    ensures m.Valid() && space in m.spaces && AllData(m.State(), space)
    ensures ok ==> ZeroPageAdded(old(m.State()), m.State(), space, va / 4096, flags)
    ensures !ok ==> PageRefused(old(m.State()), m.State(), space, lost) && (lost == {} <==> old(m.pmm.free) == {})
    ensures Paid(old(m.State()), m.State(), space, TablesOf(va), 1, ok)
    ensures NoHuge(old(m.State()), space) ==>
      (ok <==> Cost(old(m.State()), space, TablesOf(va), 1) <= |old(m.pmm.free)|)
    ensures NoHuge(old(m.State()), space) ==> (lost != {} <==> LosesPage(old(m.State()), space, va))
  {
    hide Ok, InRange, SharedHalf, Pmm.Allocator.Valid, Grown, Mapped, Unowned, AllData, FlatOf, PathOf, Balanced;
    hide Paid, NoHuge, LosesPage, TablesOf;
    ghost var a := m.State();
    lost := {};
    var f := m.pmm.AllocPage();
    if f == 0 {
      RefusedAtOnce(a, space);
      PaidNone(a, space, TablesOf(va));
      WhenLost(a, a, space, va, false, {});
      return false, {};
    }
    TakeFrame(a, m.mem, f);
    FreeInRange(a, f);
    PaidTake(a, m.State(), space, f);
    ghost var a1 := m.State();
    ok := m.Map(space, va, f, flags);
    ghost var b := m.State();
    PaidPage(a, a1, b, space, TablesOf(va), ok);
    if ok {
      FreshPage(a, a.mem, f, m.State(), space, va / 4096, flags);
      MappedLeaf(a1, b, space, PathOf(va), f, flags);
      LeafNotTable(b, space, PathOf(va));
      SharedData(b, m.kernelSpace, f, ZeroBytes());
      m.mem := m.mem[f := Data(ZeroBytes())];
      PaidNothing(b, m.State(), space);
      PaidSame(a, b, m.State(), space, TablesOf(va), 1);
    } else {
      RefusedByMap(a, a.mem, f, m.State(), space);
      lost := {f};
    }
    WhenLost(a, m.State(), space, va, ok, lost);
  }

  lemma {:induction false} PrefixCount(v: Path, k: nat)
    requires k <= |v|
    ensures |Prefixes(v, k)| == k && forall p :: p in Prefixes(v, k) ==> 1 <= |p| <= k
  {
    if k > 0 { PrefixCount(v, k - 1); }
  }

  /** The first page of an empty space takes three tables; with one to three pages free it is lost. */
  lemma FirstPageLost(vm: Vm, r: nat, va: nat)
    requires r in vm.spaces && TableKeys(vm.spaces[r]) == {[]}
    ensures Cost(vm, r, TablesOf(va), 1) == 4
    ensures LosesPage(vm, r, va) <==> 1 <= |vm.free| <= 3
  {
    hide TableKeys, Prefixes;
    PrefixCount(PathOf(va), 3);
    assert TablesOf(va) - {[]} == TablesOf(va);
  }

  /** A machine of three pages: one is the kernel's root, one the root of a new space. Mapping a page there takes
      the third, fails, and leaves it with no owner. */
  method LastPageLost() returns (ok: bool, left: nat, ghost lost: set<nat>)
    ensures !ok && left == 0 && |lost| == 1
  {
    hide Ok, InRange, SharedHalf, Created, Paid, PageRefused, LosesPage, TablesOf, DropLowest, Cost, FlatOf, AllData;
    var pmm := new Allocator();
    var e := MemEntry(4096, 12288, true);
    pmm.Init([e]);
    ThreePages(e);
    NoOverlap(e);
    var m := new AddressSpaceManager(pmm, map[], ZeroTable(), {});
    ghost var a := m.State();
    var space := m.NewSpace();
    ghost var b := m.State();
    BlankSpace(a, b, space);
    DropSize(a.free, 1);
    FirstPageLost(b, space, 0);
    ok, lost := MapUserPage(m, space, 0, Flags(true, true, false, true));
    PaidLeaves(b, m.State(), space, TablesOf(0), 1, ok);
    LostOne(b, m.State(), space, lost);
    left := m.pmm.freePages;
  }

  lemma ThreePages(e: MemEntry)
    requires e == MemEntry(4096, 12288, true)
    ensures UsablePages([e]) == {1, 2, 3} && |UsablePages([e])| == 3
  {
    assert [e][..0] == [];
    assert UsablePages([e]) == EntryPages(e);
    assert EntryPages(e) == {1, 2, 3};
  }

  lemma NoOverlap(e: MemEntry)
    ensures PageDisjoint([e])
  {
  }

  lemma BlankSpace(a: Vm, b: Vm, r: nat)
    requires Created(a, b, r)
    ensures r in b.spaces && AllData(b, r)
  {
  }

  lemma LostOne(a: Vm, b: Vm, r: nat, lost: set<nat>)
    requires PageRefused(a, b, r, lost) && lost != {}
    ensures |lost| == 1
  {
  }

  // ---- keeping the books over several pages ------------------------------------------------------

  // The tables needed to map pages lo..hi.
  ghost function TablesFor(lo: nat, hi: nat): set<Path> {
    if hi <= lo then {} else TablesFor(lo, hi - 1) + TablesOf((hi - 1) * 4096)
  }

  /** What it takes to map pages lo..hi: the pages, and one for each table missing on the way to any of them. */
  ghost function Need(vm: Vm, r: nat, lo: nat, hi: nat): nat
    requires r in vm.spaces && lo <= hi
  {
    Cost(vm, r, TablesFor(lo, hi), hi - lo)
  }

  lemma {:induction false} TablesForHas(lo: nat, hi: nat, p: Path)
    ensures p in TablesFor(lo, hi) <==> exists n :: lo <= n < hi && p in TablesOf(n * 4096)
    decreases hi
  {
    hide TablesOf;
    if lo < hi {
      TablesForHas(lo, hi - 1, p);
      if p in TablesOf((hi - 1) * 4096) {
        assert exists n :: lo <= n < hi && p in TablesOf(n * 4096);
      }
    }
  }

  lemma TablesForGrow(lo: nat, n: nat, hi: nat)
    requires n <= hi
    ensures TablesFor(lo, n) <= TablesFor(lo, hi)
  {
    hide TablesFor, TablesOf;
    forall p | p in TablesFor(lo, n) ensures p in TablesFor(lo, hi) {
      TablesForHas(lo, n, p);
      TablesForHas(lo, hi, p);
    }
  }

  lemma PaidNoPages(a: Vm, r: nat, lo: nat)
    requires r in a.spaces
    ensures Paid(a, a, r, TablesFor(lo, lo), 0, true)
  {
    hide Paid;
    PaidNow(a, r);
  }

  // One more page of a range; a failure now is a failure of the whole range.
  lemma PaidNext(a: Vm, b: Vm, c: Vm, r: nat, lo: nat, n: nat, hi: nat, ok: bool)
    requires lo <= n < hi && Paid(a, b, r, TablesFor(lo, n), n - lo, true) && Paid(b, c, r, TablesOf(n * 4096), 1, ok)
    ensures Paid(a, c, r, TablesFor(lo, n + 1), n + 1 - lo, ok)
    ensures !ok ==> Paid(a, c, r, TablesFor(lo, hi), hi - lo, false)
  {
    hide Paid, TablesOf;
    var t := TablesFor(lo, n + 1);
    assert t == TablesFor(lo, n) + TablesOf(n * 4096);
    PaidThen(a, b, c, r, TablesFor(lo, n), n - lo, TablesOf(n * 4096), 1, ok);
    if !ok {
      PaidMore(a, c, r, t, n + 1 - lo, TablesFor(lo, hi), hi - n - 1);
      TablesForGrow(lo, n + 1, hi);
      assert t + TablesFor(lo, hi) == TablesFor(lo, hi);
    }
  }

  ghost predicate AtMostOne(lost: set<nat>) { lost == {} || exists f :: lost == {f} }

  lemma BalancedNow(a: Vm, r: nat)
    requires r in a.spaces
    ensures Balanced(a, a, r, {})
  {
    hide Pages, FlatOf;
  }

  lemma BalancedTwice(a: Vm, b: Vm, c: Vm, r: nat)
    requires Balanced(a, b, r, {}) && Balanced(b, c, r, {})
    ensures Balanced(a, c, r, {})
  {
    BalancedTrans(a, b, c, r, {}, {});
    var none: set<nat> := {};
    assert none + none == none;
    hide Balanced;
  }
}
