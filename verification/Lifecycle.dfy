/**
 A process from spawn to reap (spawn_elf, sys_sbrk, sched_reap): which pages it holds at every
 point, and that all of them come back.
 */
module Lifecycle {
  import opened Common
  import opened Pmm
  import opened PageTable
  import opened AddressSpaces
  import opened Budget
  import opened Vmm
  import opened UserMemory
  import opened Proc
  import opened Elf
  import opened UserStack

  const USER_HEAP_BASE: nat := 0x6000_0000_0000
  const HEAP_LIMIT: nat := 0x400_0000            // 64 MiB
  const KSTACK_PAGES: nat := 4
  const USER_RW := Flags(true, true, false, true)  // PTE_US | PTE_RW | PTE_NX

  datatype Process = Process(space: nat, kstack: nat, entry: nat, sp: nat, brk: nat)

  // Pages lo..hi hold zeroes, open to user code, writable and not executable; the rest is as in `a`.
  ghost predicate ShowsZeroes(a: Vm, b: Vm, r: nat, lo: nat, hi: nat)
    requires r in a.spaces && r in b.spaces
  {
    forall x :: 0 <= x < USER_TOP ==>
      View(b, r, x) == if lo <= x / 4096 < hi then Some((0, Flags(true, true, false, true))) else View(a, r, x)
  }

  lemma ZeroesMore(a: Vm, b: Vm, c: Vm, r: nat, lo: nat, n: nat)
    requires r in a.spaces && r in b.spaces && r in c.spaces && lo <= n
    requires ShowsZeroes(a, b, r, lo, n) && ZeroPageAdded(b, c, r, n, USER_RW)
    ensures ShowsZeroes(a, c, r, lo, n + 1)
  {
    hide View, Balanced, AllData, FlatOf, PathOf;
  }

  // Mapping the pages before page `n` left page `n` as it was.
  lemma PageStillAsBefore(a: Vm, b: Vm, r: nat, lo: nat, n: nat)
    requires r in a.spaces && r in b.spaces && AllData(b, r) && lo <= n && n * 4096 < USER_TOP
    requires ShowsZeroes(a, b, r, lo, n)
    ensures PathOf(n * 4096) in FlatOf(b, r) <==> !Unmapped(a, r, n, n + 1)
  {
    hide FlatOf, PathOf, View, AllData;
    PageMapped(b, r, n);
    assert forall x :: 0 <= x < USER_TOP && x / 4096 == n ==> View(b, r, x) == View(a, r, x);
  }

  // Where a loop over pages gave up: before page `page`, in state `at`, having lost `before`.
  datatype Stop = Stop(at: Vm, page: nat, before: set<nat>)

  /** The pages below `s.page` were mapped and page `s.page` was not. The page taken for it is lost, so that
      this last attempt lost something exactly when a page was free. Without huge pages all this is known
      beforehand: `s.page` is the first page whose need exceeds what is free, and a page is lost on it exactly when
      more is free than the pages before it need. */
  ghost predicate StoppedAt(a: Vm, s: Stop, c: Vm, r: nat, lo: nat, hi: nat, lost: set<nat>) {
    && r in a.spaces && r in s.at.spaces && lo <= s.page < hi
    && Balanced(a, s.at, r, s.before) && ShowsZeroes(a, s.at, r, lo, s.page)
    && (s.before == {} <==> Unmapped(a, r, lo, s.page))
    && s.before <= lost && PageRefused(s.at, c, r, lost - s.before)
    && (lost == s.before <==> s.at.free == {})
    && (NoHuge(a, r) ==>
        && Need(a, r, lo, s.page) <= |a.free| < Need(a, r, lo, s.page + 1)
        && (lost != s.before <==> Need(a, r, lo, s.page) < |a.free|))
  }

  lemma WhereItStops(a: Vm, b: Vm, c: Vm, r: nat, lo: nat, n: nat)
    requires lo <= n && Paid(a, b, r, TablesFor(lo, n), n - lo, true)
    requires Paid(a, c, r, TablesFor(lo, n + 1), n + 1 - lo, false)
    ensures NoHuge(a, r) ==>
      Need(a, r, lo, n) <= |a.free| < Need(a, r, lo, n + 1) && (b.free != {} <==> Need(a, r, lo, n) < |a.free|)
  {
    hide TableKeys, DropLowest, Cost, NoHuge, TablesFor;
    DropSize(a.free, Need(a, r, lo, n));
  }

  /** Maps zero pages lo..hi one by one. Success loses no page exactly when nothing was mapped there before. */
  method MapZeroPages(m: AddressSpaceManager, space: nat, lo: nat, hi: nat)
    returns (ok: bool, ghost lost: set<nat>, ghost stop: Stop)
    requires m.Valid() && space in m.spaces && AllData(m.State(), space) && lo <= hi && hi * 4096 <= USER_TOP
    modifies m`mem, m`spaces, m.pmm`free, m.pmm`freePages, m.pmm.bitmap
    ensures m.Valid() && space in m.spaces && AllData(m.State(), space)
    ensures Balanced(old(m.State()), m.State(), space, lost)
    ensures ok ==> ShowsZeroes(old(m.State()), m.State(), space, lo, hi)
    ensures ok ==> (lost == {} <==> Unmapped(old(m.State()), space, lo, hi))
    ensures !ok ==> StoppedAt(old(m.State()), stop, m.State(), space, lo, hi, lost)
    ensures Unmapped(old(m.State()), space, lo, hi) ==> AtMostOne(lost)
    ensures Paid(old(m.State()), m.State(), space, TablesFor(lo, hi), hi - lo, ok)
    ensures NoHuge(old(m.State()), space) ==> (ok <==> Need(old(m.State()), space, lo, hi) <= |old(m.pmm.free)|)
  {
    hide Ok, InRange, SharedHalf, Pmm.Allocator.Valid, AllData, FlatOf, PathOf, Balanced, ShowsZeroes, Unmapped;
    hide PageRefused;
    hide ZeroPageAdded, Paid, NoHuge, AtMostOne, TablesFor, TablesOf, Cost, LosesPage;
    ghost var a := m.State();
    lost, stop := {}, Stop(a, lo, {});
    BalancedNow(a, space);
    PaidNoPages(a, space, lo);
    ZeroesNone(a, space, lo);
    NothingUnmapped(a, space, lo);
    NoneLost();
    for n := lo to hi
      invariant m.Valid() && space in m.spaces && AllData(m.State(), space)
      invariant Balanced(a, m.State(), space, lost) && ShowsZeroes(a, m.State(), space, lo, n)
      invariant lost == {} <==> Unmapped(a, space, lo, n)
      invariant Paid(a, m.State(), space, TablesFor(lo, n), n - lo, true)
    {
      ghost var b, before := m.State(), lost;
      stop := Stop(b, n, before);
      UnmappedMore(a, space, lo, n, hi);
      PageStillAsBefore(a, b, space, lo, n);
      ghost var more;
      ok, more := MapUserPage(m, space, n * 4096, USER_RW);
      PaidNext(a, b, m.State(), space, lo, n, hi, ok);
      if !ok {
        WhereItStops(a, b, m.State(), space, lo, n);
        PaidIff(a, m.State(), space, TablesFor(lo, hi), hi - lo, false);
        RefusedLoses(b, m.State(), space, more);
        BalancedTrans(a, b, m.State(), space, before, more);
        LostApart(a, b, m.State(), space, before, more);
        lost := before + more;
        assert lost - before == more;
        assert before == {} ==> lost == more;
        return;
      }
      more := Released(FlatOf(b, space), PathOf(n * 4096));
      AddedLoses(b, m.State(), space, n);
      BalancedTrans(a, b, m.State(), space, before, more);
      ZeroesMore(a, b, m.State(), space, lo, n);
      lost := before + more;
    }
    PaidIff(a, m.State(), space, TablesFor(lo, hi), hi - lo, true);
    ok := true;
  }

  // What is lost later was not lost before.
  lemma LostApart(a: Vm, b: Vm, c: Vm, r: nat, l1: set<nat>, l2: set<nat>)
    requires Balanced(a, b, r, l1) && Balanced(b, c, r, l2)
    ensures l1 !! l2
  {
    hide FlatOf, Pages;
    assert l2 <= b.free + Pages(b.spaces[r]);
  }

  lemma ZeroesNone(a: Vm, r: nat, n: nat)
    requires r in a.spaces
    ensures ShowsZeroes(a, a, r, n, n)
  {
  }

  lemma RefusedLoses(b: Vm, c: Vm, r: nat, more: set<nat>)
    requires PageRefused(b, c, r, more)
    ensures Balanced(b, c, r, more) && AtMostOne(more)
  {
    hide Balanced, View, AllData;
  }

  lemma AddedLoses(b: Vm, c: Vm, r: nat, n: nat)
    requires ZeroPageAdded(b, c, r, n, USER_RW)
    ensures r in b.spaces && Balanced(b, c, r, Released(FlatOf(b, r), PathOf(n * 4096)))
  {
    hide Balanced, View, AllData;
  }

  // ---- the heap --------------------------------------------------------------------------------

  // Everything from the program break to the end of the heap area is unmapped.
  ghost predicate HeapClear(vm: Vm, r: nat, brk: nat)
    requires r in vm.spaces
  {
    Unmapped(vm, r, PageUp(brk), PageUp(USER_HEAP_BASE + HEAP_LIMIT))
  }

  // A growing break below the limit does not wrap.
  lemma NoWrap(brk: nat, incr: int)
    requires brk <= USER_HEAP_BASE + HEAP_LIMIT && -0x8000_0000_0000_0000 <= incr < 0x8000_0000_0000_0000 && incr != 0
    requires brk <= WrappingAdd(brk, incr) <= USER_HEAP_BASE + HEAP_LIMIT
    ensures 0 < incr && WrappingAdd(brk, incr) == brk + incr
  {
  }

  predicate BreakInHeap(brk: nat, incr: int) { 0 <= incr && brk + incr <= USER_HEAP_BASE + HEAP_LIMIT }

  // The pages that moving the break up by `incr` bytes takes.
  ghost function HeapNeed(vm: Vm, p: Process, incr: int): nat
    requires p.space in vm.spaces && 0 <= incr
  {
    Need(vm, p.space, PageUp(p.brk), PageUp(p.brk + incr))
  }

  lemma NoHeapNeed(a: Vm, p: Process)
    requires p.space in a.spaces
    ensures HeapNeed(a, p, 0) == 0
  {
    NoTables(a, p.space, 0);
  }

  // old + incr in 64-bit arithmetic.
  function WrappingAdd(old_: nat, incr: int): nat { (old_ + incr) % 0x1_0000_0000_0000_0000 }

  /** Moves the program break. Between two successful calls from a clear heap no page is lost; the
      new pages are zero and the rest of memory is unchanged. */
  method Sbrk(m: AddressSpaceManager, p: Process, incr: int)
    returns (ok: bool, q: Process, ret: int, ghost lost: set<nat>, ghost stop: Stop)
    requires m.Valid() && p.space in m.spaces && AllData(m.State(), p.space)
    requires USER_HEAP_BASE <= p.brk <= USER_HEAP_BASE + HEAP_LIMIT
    requires -0x8000_0000_0000_0000 <= incr < 0x8000_0000_0000_0000
    modifies m`mem, m`spaces, m.pmm`free, m.pmm`freePages, m.pmm.bitmap
    ensures m.Valid() && p.space in m.spaces && AllData(m.State(), p.space)
    ensures Balanced(old(m.State()), m.State(), p.space, lost)
    ensures q == p.(brk := q.brk) && USER_HEAP_BASE <= q.brk <= USER_HEAP_BASE + HEAP_LIMIT
    ensures ok <==> ret == p.brk
    ensures ok ==>
      q.brk == p.brk + incr && ShowsZeroes(old(m.State()), m.State(), p.space, PageUp(p.brk), PageUp(q.brk))
    ensures !ok ==> q == p
    ensures ok ==> (lost == {} <==> Unmapped(old(m.State()), p.space, PageUp(p.brk), PageUp(q.brk)))
    ensures !ok && ret == -1 ==> m.State() == old(m.State()) && lost == {}
    ensures !ok && ret != -1 ==>
      && p.brk + incr >= 0
      && StoppedAt(old(m.State()), stop, m.State(), p.space, PageUp(p.brk), PageUp(p.brk + incr), lost)
    ensures HeapClear(old(m.State()), p.space, p.brk) ==>
      AtMostOne(lost) && (ok ==> lost == {} && HeapClear(m.State(), p.space, q.brk))
    ensures NoHuge(old(m.State()), p.space) ==> NoHuge(m.State(), p.space)
    ensures ok ==> BreakInHeap(p.brk, incr)
    ensures !ok ==> (ret == -1 <==> !BreakInHeap(p.brk, incr))
    ensures NoHuge(old(m.State()), p.space) ==>
      (ok <==> BreakInHeap(p.brk, incr) && HeapNeed(old(m.State()), p, incr) <= |old(m.pmm.free)|)
    ensures !ok && ret != -1 && NoHuge(old(m.State()), p.space) ==> m.pmm.free == {}
  {
    hide Ok, InRange, SharedHalf, Pmm.Allocator.Valid, AllData, FlatOf, PathOf, Balanced, ShowsZeroes, Unmapped;
    hide NoHuge, Need, Paid;
    hide StoppedAt, AtMostOne;
    ghost var a := m.State();
    BalancedNow(a, p.space);
    stop := Stop(a, 0, {});
    NoneLost();
    NothingUnmapped(a, p.space, PageUp(p.brk));
    if incr == 0 {
      ZeroesNone(a, p.space, PageUp(p.brk));
      NoHeapNeed(a, p);
      return true, p, p.brk, {}, stop;
    }
    var newb := WrappingAdd(p.brk, incr);
    if newb < p.brk || newb - USER_HEAP_BASE > HEAP_LIMIT { return false, p, -1, {}, stop; }
    var lo, hi := PageUp(p.brk), PageUp(newb);
    assert 0 < incr && newb == p.brk + incr by { NoWrap(p.brk, incr); }
    ClearPrefix(a, p.space, p.brk, newb);
    ok, lost, stop := MapZeroPages(m, p.space, lo, hi);
    PaidLeaves(a, m.State(), p.space, TablesFor(lo, hi), hi - lo, ok);
    if !ok {
      return false, p, p.brk - 1, lost, stop;
    }
    q := p.(brk := newb);
    ClearSuffix(a, m.State(), p.space, p.brk, newb);
    return true, q, p.brk, lost, stop;
  }

  lemma ClearPrefix(a: Vm, r: nat, brk: nat, newb: nat)
    requires r in a.spaces && brk <= newb <= USER_HEAP_BASE + HEAP_LIMIT
    ensures HeapClear(a, r, brk) ==> Unmapped(a, r, PageUp(brk), PageUp(newb))
  {
    hide View;
  }

  lemma ClearSuffix(a: Vm, b: Vm, r: nat, brk: nat, newb: nat)
    requires r in a.spaces && r in b.spaces && brk <= newb && ShowsZeroes(a, b, r, PageUp(brk), PageUp(newb))
    ensures HeapClear(a, r, brk) ==> HeapClear(b, r, newb)
  {
    hide View;
  }

  // ---- spawn ------------------------------------------------------------------------------------

  // No segment has a part in pages lo..hi.
  ghost predicate NoSegmentIn(data: seq<Byte>, lo: nat, hi: nat)
    requires HeaderOk(data) && WellFormed(data)
  {
    forall i, x: nat :: 0 <= i < PhNum(data) && Covers(PhdrAt(data, PhOff(data, i)), x) ==> !(lo <= x / 4096 < hi)
  }

  // Of pages lo..hi those of the image are mapped.
  ghost predicate MappedAsLoaded(vm: Vm, r: nat, data: seq<Byte>, lo: nat, hi: nat)
    requires r in vm.spaces && HeaderOk(data) && WellFormed(data)
  {
    forall x :: 0 <= x < USER_TOP && lo <= x / 4096 < hi ==>
      (View(vm, r, x).Some? <==> Loaded(data, PhNum(data), x).Some?)
  }

  lemma SegmentsMapped(vm: Vm, r: nat, data: seq<Byte>, lo: nat, hi: nat)
    requires r in vm.spaces && HeaderOk(data) && WellFormed(data) && MappedAsLoaded(vm, r, data, lo, hi)
    ensures Unmapped(vm, r, lo, hi) <==> NoSegmentIn(data, lo, hi)
  {
    hide View, Le, HeaderOk, PhdrAt, PhOff, FirstPage, EndOfPages, Covers;
    if NoSegmentIn(data, lo, hi) {
      forall x | 0 <= x < USER_TOP && lo <= x / 4096 < hi ensures View(vm, r, x).None? {
        LoadedByHeader(data, PhNum(data), x);
      }
    } else {
      var i, x: nat :| 0 <= i < PhNum(data) && Covers(PhdrAt(data, PhOff(data, i)), x) && lo <= x / 4096 < hi;
      HeaderInFile(data, i);
      CoveredBelowTop(data, PhdrAt(data, PhOff(data, i)), x);
      LoadedByHeader(data, PhNum(data), x);
      assert View(vm, r, x).Some?;
    }
  }

  lemma ImageAbsent(vm: Vm, r: nat, data: seq<Byte>, lo: nat, hi: nat)
    requires r in vm.spaces && HeaderOk(data) && WellFormed(data) && ShowsImage(vm, r, data, PhNum(data))
    ensures Unmapped(vm, r, lo, hi) <==> NoSegmentIn(data, lo, hi)
  {
    hide View, Le, HeaderOk, WellFormed, Loaded, Unmapped, NoSegmentIn;
    SegmentsMapped(vm, r, data, lo, hi);
  }

  const HEAP_LO: nat := USER_HEAP_BASE / 4096
  const HEAP_HI: nat := (USER_HEAP_BASE + HEAP_LIMIT) / 4096
  const STACK_HI: nat := USER_STACK_TOP / 4096
  const STACK_LO: nat := STACK_HI - USER_STACK_PAGES

  // No page of the image is shared by two segments or with the stack.
  ghost predicate NoSharing(data: seq<Byte>)
    requires HeaderOk(data) && WellFormed(data)
  {
    PageDisjointSegments(data) && NoSegmentIn(data, STACK_LO, STACK_HI)
  }

  // As far as anyone but the new process can tell, nothing happened.
  ghost predicate OldSpacesKept(a: Vm, b: Vm) {
    && (forall s :: s in a.spaces ==> s in b.spaces && b.spaces[s] == a.spaces[s] && FlatOf(b, s) == FlatOf(a, s))
    && SameData(a, b) && b.half == a.half
  }

  /** Between creation and now, space `r` took its pages from what was free at the start. */
  ghost predicate Spawning(a: Vm, c: Vm, r: nat, lost: set<nat>) {
    && r !in a.spaces && c.spaces.Keys == a.spaces.Keys + {r} && OldSpacesKept(a, c)
    && c.free + Pages(c.spaces[r]) + lost == a.free
    && lost !! c.free && lost !! Pages(c.spaces[r])
  }

  lemma SpawningStart(a: Vm, b: Vm, r: nat)
    requires Created(a, b, r)
    ensures Spawning(a, b, r, {})
  {
    hide FlatOf, Pages;
  }

  lemma SpawningStep(a: Vm, b: Vm, c: Vm, r: nat, l1: set<nat>, l2: set<nat>)
    requires Ok(a) && Spawning(a, b, r, l1) && Balanced(b, c, r, l2)
    ensures Spawning(a, c, r, l1 + l2)
  {
    hide FlatOf, Pages, Ok;
    forall f | f in a.mem && a.mem[f].Data? && f !in a.free ensures f in c.mem && c.mem[f] == a.mem[f] {
      assert f in b.mem && b.mem[f] == a.mem[f] && f !in b.free && f !in Pages(b.spaces[r]);
    }
    assert c.free + Pages(c.spaces[r]) <= b.free + Pages(b.spaces[r]);
  }

  lemma SpawningLoss(a: Vm, b: Vm, c: Vm, r: nat, lost: set<nat>)
    requires Ok(a) && Spawning(a, b, r, {}) && Balanced(b, c, r, lost)
    ensures Spawning(a, c, r, lost)
  {
    SpawningStep(a, b, c, r, {}, lost);
    assert {} + lost == lost;
    hide Spawning;
  }

  /** A spawn that failed: all spaces are as before, and every page is back except `lost`. */
  ghost predicate Undone(a: Vm, d: Vm, lost: set<nat>) {
    d.spaces == a.spaces && OldSpacesKept(a, d) && d.free + lost == a.free && lost !! d.free
  }

  lemma SpawnUndone(a: Vm, c: Vm, d: Vm, r: nat, lost: set<nat>)
    requires Spawning(a, c, r, lost) && Dropped(c, d, r)
    ensures Undone(a, d, lost)
  {
    hide FlatOf, Pages;
  }

  /** The memory a process starts with: the argument vector from sp up, zeroes below it on the stack pages, the
      image everywhere else. A segment can be written over only if it reaches up to the stack. */
  ghost predicate ProcessImage(vm: Vm, p: Process, data: seq<Byte>, argv: seq<seq<Byte>>)
    requires p.space in vm.spaces && HeaderOk(data) && WellFormed(data)
  {
    && p.entry == Entry(data) && p.brk == USER_HEAP_BASE
    && MappedAsLoaded(vm, p.space, data, PageUp(p.brk), HEAP_HI)
    && ArgvReads(vm, p.space, p.sp, Args(argv))
    && (NoSegmentIn(data, STACK_LO - 1, STACK_LO) ==> Fits(argv))
    && (Fits(argv) ==> STACK_LO * 4096 <= p.sp)
    && forall x :: 0 <= x < USER_TOP && !(p.sp <= x < USER_STACK_TOP) ==>
         View(vm, p.space, x) ==
           if STACK_LO <= x / 4096 < STACK_HI then Some((0, Flags(true, true, false, true)))
           else Loaded(data, PhNum(data), x)
  }

  // What a process's space is made of: the pages of the image and the stack, and the tables to map them.
  ghost function SpacePages(data: seq<Byte>): nat
    requires HeaderOk(data) && WellFormed(data)
  {
    ImagePages(data, PhNum(data)) + USER_STACK_PAGES
  }

  ghost function SpaceTables(data: seq<Byte>): set<Path>
    requires HeaderOk(data) && WellFormed(data)
  {
    ImageTables(data, PhNum(data)) + TablesFor(STACK_LO, STACK_HI)
  }

  /** The pages it takes to fill an empty space. */
  ghost function SpaceNeed(data: seq<Byte>): nat
    requires HeaderOk(data) && WellFormed(data)
  {
    SpacePages(data) + |SpaceTables(data)|
  }

  ghost predicate SpacePaid(a: Vm, b: Vm, r: nat, data: seq<Byte>, ok: bool)
    requires HeaderOk(data) && WellFormed(data)
  {
    Paid(a, b, r, SpaceTables(data), SpacePages(data), ok)
  }

  lemma NoSpaceForImage(a: Vm, b: Vm, r: nat, data: seq<Byte>)
    requires HeaderOk(data) && WellFormed(data) && ImagePaid(a, b, r, data, PhNum(data), false)
    ensures SpacePaid(a, b, r, data, false)
  {
    hide Paid, HeaderOk, WellFormed, ImageTables, ImagePages, TablesFor, PhNum;
    PaidMore(a, b, r, ImageTables(data, PhNum(data)), ImagePages(data, PhNum(data)),
      TablesFor(STACK_LO, STACK_HI), USER_STACK_PAGES);
  }

  lemma StackPaid(a: Vm, b: Vm, c: Vm, r: nat, data: seq<Byte>, ok: bool)
    requires HeaderOk(data) && WellFormed(data) && ImagePaid(a, b, r, data, PhNum(data), true)
    requires Paid(b, c, r, TablesFor(STACK_LO, STACK_HI), STACK_HI - STACK_LO, ok)
    ensures SpacePaid(a, c, r, data, ok)
  {
    hide Paid, HeaderOk, WellFormed, ImageTables, ImagePages, TablesFor, PhNum;
    PaidThen(a, b, c, r, ImageTables(data, PhNum(data)), ImagePages(data, PhNum(data)),
      TablesFor(STACK_LO, STACK_HI), USER_STACK_PAGES, ok);
  }

  lemma SpaceStays(a: Vm, b: Vm, c: Vm, r: nat, data: seq<Byte>)
    requires HeaderOk(data) && WellFormed(data) && SpacePaid(a, b, r, data, true) && Paid(b, c, r, {}, 0, true)
    ensures SpacePaid(a, c, r, data, true)
  {
    hide Paid, HeaderOk, WellFormed, SpaceTables, SpacePages;
    PaidSame(a, b, c, r, SpaceTables(data), SpacePages(data));
  }

  // ---- an empty space has every table still to pay for

  lemma {:induction false} NotTheRoot(v: Path, k: nat)
    requires k <= |v|
    ensures [] !in Prefixes(v, k)
  {
    if k > 0 { NotTheRoot(v, k - 1); }
  }

  lemma RangeWithoutRoot(lo: nat, hi: nat)
    ensures [] !in TablesFor(lo, hi)
  {
    hide TablesFor, Index, Prefixes;
    TablesForHas(lo, hi, []);
    forall n | lo <= n < hi ensures [] !in TablesOf(n * 4096) { NotTheRoot(PathOf(n * 4096), 3); }
  }

  lemma {:induction false} ImageWithoutRoot(data: seq<Byte>, k: nat)
    requires HeaderOk(data) && WellFormed(data) && k <= PhNum(data)
    ensures [] !in ImageTables(data, k)
  {
    hide HeaderOk, WellFormed, TablesFor, FirstPage, EndOfPages, PhdrAt, Loadable;
    if k > 0 {
      ImageWithoutRoot(data, k - 1);
      HeaderInFile(data, k - 1);
      var ph := PhdrAt(data, PhOff(data, k - 1));
      RangeWithoutRoot(FirstPage(ph), EndOfPages(ph));
    }
  }

  lemma EmptySpaceNeed(vm: Vm, r: nat, data: seq<Byte>)
    requires HeaderOk(data) && WellFormed(data) && r in vm.spaces && TableKeys(vm.spaces[r]) == {[]}
    ensures Cost(vm, r, SpaceTables(data), SpacePages(data)) == SpaceNeed(data)
  {
    hide HeaderOk, WellFormed, TablesFor, ImageTables, ImagePages, TableKeys, PhNum;
    ImageWithoutRoot(data, PhNum(data));
    RangeWithoutRoot(STACK_LO, STACK_HI);
    assert SpaceTables(data) - {[]} == SpaceTables(data);
  }

  // A proper executable with an entry point, and arguments that fit on the stack.
  ghost predicate Startable(data: seq<Byte>, argv: seq<seq<Byte>>) {
    HeaderOk(data) && Entry(data) != 0 && Fits(argv)
  }

  lemma StackIsMapped(b: Vm, c: Vm, r: nat)
    requires r in b.spaces && r in c.spaces && ShowsZeroes(b, c, r, STACK_LO, STACK_HI)
    ensures StackMapped(c, r)
  {
    hide FlatOf, PathOf;
    forall x | USER_STACK_TOP - STACK_BYTES <= x < USER_STACK_TOP ensures PathOf(x) in FlatOf(c, r) {
      assert View(c, r, x).Some?;
    }
  }

  /** Fills a fresh space: image, stack pages, argument vector. Success loses no page exactly when no page of the
      image is shared. */
  method FillSpace(m: AddressSpaceManager, space: nat, data: seq<Byte>, argv: seq<seq<Byte>>)
    returns (p: Option<Process>, ghost lost: set<nat>)
    requires m.Valid() && space in m.spaces && FlatOf(m.State(), space) == map[] && WellFormed(data)
    requires TotalLen(argv) + 0x1000 < USER_STACK_TOP
    modifies m`mem, m`spaces, m.pmm`free, m.pmm`freePages, m.pmm.bitmap
    ensures m.Valid() && space in m.spaces && AllData(m.State(), space)
    ensures Balanced(old(m.State()), m.State(), space, lost)
    ensures HeaderOk(data) && NoSharing(data) ==> AtMostOne(lost)
    ensures !HeaderOk(data) ==> lost == {}
    ensures p.Some? ==> p.value.space == space && HeaderOk(data) && (lost == {} <==> NoSharing(data))
    ensures p.Some? ==> ProcessImage(m.State(), p.value, data, argv)
    ensures Startable(data, argv) ==> SpacePaid(old(m.State()), m.State(), space, data, p.Some?)
    ensures Startable(data, argv) && NoHuge(old(m.State()), space) ==>
      (p.Some? <==> Cost(old(m.State()), space, SpaceTables(data), SpacePages(data)) <= |old(m.pmm.free)|)
  {
    hide Ok, InRange, SharedHalf, Pmm.Allocator.Valid, AllData, FlatOf, PathOf, Balanced, ShowsZeroes, Unmapped;
    hide HeaderOk, WellFormed;
    hide MappedRange, OnlyAbove, PageDisjointSegments, NoSegmentIn, ShowsImage, ArgvReads, SameMaps, TotalLen;
    hide ProcessImage;
    hide Paid, ImagePaid, SpacePaid, NoHuge, SpacePages, SpaceTables, AtMostOne, StoppedAt, EntrySp, Cost, ImageNeed;
    hide Need, Fits;
    ghost var a := m.State();
    var entry: nat;
    entry, lost := ElfLoad(m, space, data);
    ghost var b := m.State();
    if entry == 0 {
      if Startable(data, argv) {
        NoSpaceForImage(a, b, space, data);
        SpaceDecides(a, b, space, data, false);
      }
      return None, lost;
    }
    ImageAbsent(b, space, data, STACK_LO, STACK_HI);
    var ok: bool;
    ghost var lost1, lost2, stop := lost, {}, Stop(b, 0, {});
    ok, lost2, stop := MapZeroPages(m, space, STACK_LO, STACK_HI);
    ghost var c := m.State();
    StackPaid(a, b, c, space, data, ok);
    SpaceDecides(a, c, space, data, ok);
    BalancedTrans(a, b, c, space, lost1, lost2);
    lost := lost1 + lost2;
    assert lost1 == {} ==> lost == lost2;
    if !ok { return None, lost; }
    NoneLost();
    var sp: nat;
    StackIsMapped(b, c, space);
    ok, sp := BuildStack(m, space, argv);
    SpaceStays(a, c, m.State(), space, data);
    BalancedTrans(a, c, m.State(), space, lost, {});
    assert lost + {} == lost;
    if !ok { return None, lost; }
    p := Some(Process(space, 0, entry, sp, USER_HEAP_BASE));
    ImageAbsent(b, space, data, STACK_LO - 1, STACK_LO);
    if Unmapped(b, space, STACK_LO - 1, STACK_LO) { StackInItsPages(b, c, space, sp); }
    ImageComplete(b, c, m.State(), p.value, data, argv);
    return p, lost;
  }

  lemma SpaceDecides(a: Vm, b: Vm, r: nat, data: seq<Byte>, ok: bool)
    requires HeaderOk(data) && WellFormed(data) && SpacePaid(a, b, r, data, ok)
    ensures r in a.spaces && (NoHuge(a, r) ==> (ok <==> Cost(a, r, SpaceTables(data), SpacePages(data)) <= |a.free|))
  {
    hide NoHuge, HeaderOk, WellFormed, SpaceTables, SpacePages, Cost;
    PaidIff(a, b, r, SpaceTables(data), SpacePages(data), ok);
  }

  lemma StackInItsPages(b: Vm, c: Vm, r: nat, sp: nat)
    requires r in b.spaces && r in c.spaces && AllData(c, r) && sp < USER_STACK_TOP
    requires Unmapped(b, r, STACK_LO - 1, STACK_LO) && ShowsZeroes(b, c, r, STACK_LO, STACK_HI)
    requires PathOf(sp) in FlatOf(c, r) && MappedRange(c, r, sp + 256, USER_STACK_TOP)
    ensures STACK_LO * 4096 <= sp
  {
    hide FlatOf, PathOf, Unmapped, ShowsZeroes, AllData;
    forall x: nat | x / 4096 == STACK_LO - 1 ensures PathOf(x) !in FlatOf(c, r) { GuardPage(b, c, r, x); }
    assert PathOf(STACK_LO * 4096 - 1) !in FlatOf(c, r);
  }

  lemma GuardPage(b: Vm, c: Vm, r: nat, x: nat)
    requires r in b.spaces && r in c.spaces && AllData(c, r) && x / 4096 == STACK_LO - 1
    requires Unmapped(b, r, STACK_LO - 1, STACK_LO) && ShowsZeroes(b, c, r, STACK_LO, STACK_HI)
    ensures PathOf(x) !in FlatOf(c, r)
  {
    hide FlatOf, PathOf;
    assert View(c, r, x).None?;
  }

  lemma ImageComplete(b: Vm, c: Vm, d: Vm, p: Process, data: seq<Byte>, argv: seq<seq<Byte>>)
    requires p.space in b.spaces && p.space in c.spaces && p.space in d.spaces && HeaderOk(data) && WellFormed(data)
    requires ShowsImage(b, p.space, data, PhNum(data)) && AllData(c, p.space)
    requires ShowsZeroes(b, c, p.space, STACK_LO, STACK_HI) && SameMaps(c, d)
    requires OnlyAbove(c, d, p.space, p.sp) && ArgvReads(d, p.space, p.sp, Args(argv)) && p.sp == EntrySp(Args(argv))
    requires AllData(d, p.space)
    requires NoSegmentIn(data, STACK_LO - 1, STACK_LO) ==> STACK_LO * 4096 <= p.sp
    requires p.entry == Entry(data) && p.brk == USER_HEAP_BASE
    ensures ProcessImage(d, p, data, argv)
  {
    hide VByte, FlatOf, HeaderOk, WellFormed, NoSegmentIn, ArgvReads, Loaded, Le, EntrySp, AllData;
    var r := p.space;
    forall x | 0 <= x < USER_TOP && !(p.sp <= x < USER_STACK_TOP) ensures View(d, r, x) == View(c, r, x) {
      assert VByte(d, r, x) == VByte(c, r, x);
    }
    HeapAsLoaded(b, c, d, r, data);
  }

  lemma HeapAsLoaded(b: Vm, c: Vm, d: Vm, r: nat, data: seq<Byte>)
    requires r in b.spaces && r in c.spaces && r in d.spaces && HeaderOk(data) && WellFormed(data)
    requires ShowsImage(b, r, data, PhNum(data)) && AllData(c, r) && AllData(d, r)
    requires ShowsZeroes(b, c, r, STACK_LO, STACK_HI) && SameMaps(c, d)
    ensures MappedAsLoaded(d, r, data, HEAP_LO, HEAP_HI)
  {
    hide FlatOf, PathOf, HeaderOk, WellFormed, Loaded, Le;
    forall x | 0 <= x < USER_TOP && HEAP_LO <= x / 4096 < HEAP_HI
      ensures View(d, r, x).Some? <==> Loaded(data, PhNum(data), x).Some?
    {
      assert View(c, r, x) == View(b, r, x);
      assert View(c, r, x).Some? <==> PathOf(x) in FlatOf(c, r);
    }
  }

  // ---- a whole life ------------------------------------------------------------------------------

  lemma TakeRunOk(vm: Vm, k: nat, n: nat)
    requires Ok(vm) && InRange(vm)
    ensures Ok(vm.(free := vm.free - Run(k, n))) && InRange(vm.(free := vm.free - Run(k, n)))
  {
    hide TreeOk, Pages, Run;
  }

  /** A running process: its pages and its kernel stack are its own. */
  ghost predicate Owned(vm: Vm, p: Process) {
    && p.space in vm.spaces && AllData(vm, p.space)
    && 0 < p.kstack && p.kstack + KSTACK_PAGES <= BITMAP_PAGES
    && Run(p.kstack, KSTACK_PAGES) !! vm.free && Run(p.kstack, KSTACK_PAGES) !! vm.half
    && (forall s :: s in vm.spaces ==> Run(p.kstack, KSTACK_PAGES) !! Pages(vm.spaces[s]))
    && USER_HEAP_BASE <= p.brk <= USER_HEAP_BASE + HEAP_LIMIT
  }

  /** The process accounts for every page that is no longer free, except `lost`; nothing else changed. */
  ghost predicate Accounted(a: Vm, b: Vm, p: Process, lost: set<nat>) {
    && p.space !in a.spaces && b.spaces.Keys == a.spaces.Keys + {p.space} && OldSpacesKept(a, b)
    && b.free + Pages(b.spaces[p.space]) + Run(p.kstack, KSTACK_PAGES) + lost == a.free
    && lost !! b.free && lost !! Pages(b.spaces[p.space]) && lost !! Run(p.kstack, KSTACK_PAGES)
  }

  lemma AccountedAtSpawn(a: Vm, c: Vm, p: Process, lost: set<nat>)
    requires Ok(a) && Ok(c) && InRange(a) && Spawning(a, c, p.space, lost) && AllData(c, p.space)
    requires p.brk == USER_HEAP_BASE
    requires p.kstack + KSTACK_PAGES <= BITMAP_PAGES && Run(p.kstack, KSTACK_PAGES) <= c.free
    ensures var d := c.(free := c.free - Run(p.kstack, KSTACK_PAGES)); Owned(d, p) && Accounted(a, d, p, lost)
  {
    hide TreeOk, Pages, Flat, Run, InRange;
    RunNotZero(a, c, p);
    var d := c.(free := c.free - Run(p.kstack, KSTACK_PAGES));
    forall s | s in c.spaces ensures Run(p.kstack, KSTACK_PAGES) !! Pages(c.spaces[s]) {
      PagesNotFree(c, s);
    }
    assert FlatOf(d, p.space) == FlatOf(c, p.space);
    hide AllData;
    assert forall s :: s in c.spaces ==> FlatOf(d, s) == FlatOf(c, s);
  }

  lemma RunNotZero(a: Vm, c: Vm, p: Process)
    requires InRange(a) && c.free <= a.free && Run(p.kstack, KSTACK_PAGES) <= c.free
    ensures 0 < p.kstack
  {
    assert p.kstack in Run(p.kstack, KSTACK_PAGES);
  }

  lemma AccountedStep(a: Vm, b: Vm, c: Vm, p: Process, q: Process, lost: set<nat>, more: set<nat>)
    requires Ok(b) && Ok(c) && Owned(b, p) && Accounted(a, b, p, lost)
    requires Balanced(b, c, p.space, more) && AllData(c, p.space)
    requires q == p.(brk := q.brk) && USER_HEAP_BASE <= q.brk <= USER_HEAP_BASE + HEAP_LIMIT
    ensures Owned(c, q) && Accounted(a, c, q, lost + more)
  {
    hide Ok, Pages, FlatOf, Run, AllData;
    var k := Run(p.kstack, KSTACK_PAGES);
    assert c.free + Pages(c.spaces[p.space]) <= b.free + Pages(b.spaces[p.space]);
    assert k !! Pages(b.spaces[p.space]);
    assert SameData(a, c) by {
      forall f | f in a.mem && a.mem[f].Data? && f !in a.free ensures f in c.mem && c.mem[f] == a.mem[f] {
        assert f in b.mem && b.mem[f] == a.mem[f] && f !in b.free && f !in Pages(b.spaces[p.space]);
      }
    }
    assert OldSpacesKept(a, c);
  }

  // Reading memory does not depend on which pages are free.
  lemma {:induction false} LoadSame(a: Vm, b: Vm, r: nat, x: nat, n: nat)
    requires r in a.spaces && a.mem == b.mem && a.spaces == b.spaces
    ensures LoadLe(a, r, x, n) == LoadLe(b, r, x, n)
    decreases n
  {
    if n > 0 { LoadSame(a, b, r, x + 1, n - 1); }
  }

  lemma {:induction false} CStringSame(a: Vm, b: Vm, r: nat, x: nat)
    requires r in a.spaces && a.mem == b.mem && a.spaces == b.spaces
    ensures CString(a, r, x) == CString(b, r, x)
    decreases USER_TOP - x
  {
    if x < USER_TOP { CStringSame(a, b, r, x + 1); }
  }

  lemma ArgSame(a: Vm, b: Vm, r: nat, sp: nat, argv: seq<seq<Byte>>, i: nat)
    requires r in a.spaces && a.mem == b.mem && a.spaces == b.spaces && i < |argv| && ArgReads(a, r, sp, argv, i)
    ensures ArgReads(b, r, sp, argv, i)
  {
    hide LoadLe, CString, VByte;
    LoadSame(a, b, r, Slot(sp, i + 1), 8);
    CStringSame(a, b, r, LoadLe(a, r, Slot(sp, i + 1), 8));
    ViewSame(a, b, r);
  }

  lemma ArgvSame(a: Vm, b: Vm, r: nat, sp: nat, argv: seq<seq<Byte>>)
    requires r in a.spaces && a.mem == b.mem && a.spaces == b.spaces && ArgvReads(a, r, sp, argv)
    ensures ArgvReads(b, r, sp, argv)
  {
    hide LoadLe, ArgReads;
    LoadSame(a, b, r, Slot(sp, 0), 8);
    LoadSame(a, b, r, Slot(sp, |argv| + 1), 8);
    forall i | 0 <= i < |argv| ensures ArgReads(b, r, sp, argv, i) { ArgSame(a, b, r, sp, argv, i); }
  }

  lemma ViewSame(a: Vm, b: Vm, r: nat)
    requires r in a.spaces && a.mem == b.mem && a.spaces == b.spaces
    ensures forall x :: VByte(a, r, x) == VByte(b, r, x) && View(a, r, x) == View(b, r, x)
  {
  }

  lemma ImageSame(a: Vm, b: Vm, p: Process, q: Process, data: seq<Byte>, argv: seq<seq<Byte>>)
    requires p.space in a.spaces && a.mem == b.mem && a.spaces == b.spaces && HeaderOk(data) && WellFormed(data)
    requires ProcessImage(a, p, data, argv) && q == p.(kstack := q.kstack)
    ensures ProcessImage(b, q, data, argv)
  {
    hide View, Loaded, ArgvReads, HeaderOk, WellFormed, Le;
    ViewSame(a, b, p.space);
    ArgvSame(a, b, p.space, p.sp, Args(argv));
  }

  lemma NoRunAtZero(vm: Vm, n: nat)
    requires InRange(vm) && n > 0
    ensures !IsRun(vm.free, 0, n)
  {
    assert 0 !in vm.free;
  }

  /** Spawns a process. Success: it owns its pages and its kernel stack, memory holds the image and the arguments,
      and no page is lost exactly when no page of the image is shared. Failure: in memory nothing is left of it,
      except for pages lost. */
  method SpawnElf(m: AddressSpaceManager, data: seq<Byte>, argv: seq<seq<Byte>>)
    returns (p: Option<Process>, ghost lost: set<nat>)
    requires m.Valid() && WellFormed(data)
    requires TotalLen(argv) + 0x1000 < USER_STACK_TOP
    modifies m`mem, m`spaces, m.pmm`free, m.pmm`freePages, m.pmm`badFrees, m.pmm.bitmap
    ensures m.Valid() && m.pmm.badFrees == old(m.pmm.badFrees)
    ensures p.None? ==> Undone(old(m.State()), m.State(), lost)
    ensures HeaderOk(data) && NoSharing(data) ==> AtMostOne(lost)
    ensures !HeaderOk(data) ==> p.None? && lost == {}
    ensures p.Some? ==> Owned(m.State(), p.value) && Accounted(old(m.State()), m.State(), p.value, lost)
    ensures p.Some? ==> ProcessImage(m.State(), p.value, data, argv) && (lost == {} <==> NoSharing(data))
    ensures Startable(data, argv) ==>
      (p.Some? <==> HasRun(DropLowest(old(m.pmm.free), 1 + SpaceNeed(data)), KSTACK_PAGES))
  {
    hide Ok, InRange, SharedHalf, Pmm.Allocator.Valid, AllData, FlatOf, PathOf, Balanced, HeaderOk, WellFormed, Created;
    hide Dropped;
    hide Spawning, NoSharing, TotalLen, ProcessImage, Owned, Accounted, Undone, Run, NoHuge, SpaceNeed, Fits;
    hide SpacePaid, SpacePages, SpaceTables, Cost, DropLowest, TableKeys, HasRun, IsRun, IsLowestRun;
    hide AtMostOne;
    ghost var a := m.State();
    NoneLost();
    var space := m.NewSpace();
    if space == 0 {
      if Startable(data, argv) { NoRunLeft(a.free, 1 + SpaceNeed(data), KSTACK_PAGES); }
      UndoneAtOnce(a);
      return None, {};
    }
    ghost var b := m.State();
    CreatedBlank(a, b, space);
    SpawningStart(a, b, space);
    var q;
    q, lost := FillSpace(m, space, data, argv);
    ghost var c := m.State();
    SpawningLoss(a, b, c, space, lost);
    SpaceIsNew(a, c, space, lost);
    if Startable(data, argv) { AfterFilling(a, b, c, space, data, q.Some?); }
    if q.None? {
      m.DestroySpace(space);
      SpawnUndone(a, c, m.State(), space, lost);
      return None, lost;
    }
    NoRunAtZero(c, KSTACK_PAGES);
    var k := m.pmm.AllocPages(KSTACK_PAGES, PAGE_SIZE);
    RunFound(c.free, k, KSTACK_PAGES, m.pmm.free);
    if k == 0 {
      m.DestroySpace(space);
      SpawnUndone(a, c, m.State(), space, lost);
      return None, lost;
    }
    p := Some(q.value.(kstack := k));
    TakeRunOk(c, k, KSTACK_PAGES);
    ImageBrk(c, q.value, data, argv);
    AccountedAtSpawn(a, c, p.value, lost);
    ImageSame(c, m.State(), q.value, p.value, data, argv);
  }

  lemma NoRunLeft(free: set<nat>, n: nat, k: nat)
    requires |free| <= n && k > 0
    ensures !HasRun(DropLowest(free, n), k)
  {
    hide DropLowest, HasRun;
    DropSize(free, n);
    if HasRun(DropLowest(free, n), k) { RunNeedsPages(DropLowest(free, n), k); }
  }

  // What is left when a space was created and filled, or could not be filled.
  lemma AfterFilling(a: Vm, b: Vm, c: Vm, r: nat, data: seq<Byte>, ok: bool)
    requires HeaderOk(data) && WellFormed(data) && r in b.spaces && TableKeys(b.spaces[r]) == {[]} && NoHuge(b, r)
    requires b.free == DropLowest(a.free, 1) && SpacePaid(b, c, r, data, ok)
    ensures ok ==> c.free == DropLowest(a.free, 1 + SpaceNeed(data))
    ensures !ok ==> !HasRun(DropLowest(a.free, 1 + SpaceNeed(data)), KSTACK_PAGES)
  {
    hide DropLowest, HeaderOk, WellFormed, SpaceTables, SpacePages, SpaceNeed, NoHuge, Cost, HasRun, TableKeys;
    EmptySpaceNeed(b, r, data);
    SpaceDecides(b, c, r, data, ok);
    DropTrans(a.free, 1, SpaceNeed(data));
    if !ok { NoRunLeft(b.free, SpaceNeed(data), KSTACK_PAGES); }
  }

  lemma RunFound(free: set<nat>, k: nat, n: nat, after: set<nat>)
    requires (forall s: nat :: !IsRun(free, s, n)) ==> k == 0 && after == free
    requires (exists s: nat :: IsRun(free, s, n)) ==> IsLowestRun(free, k, n) && after == free - Run(k, n)
    requires !IsRun(free, 0, n)
    ensures k != 0 <==> HasRun(free, n)
    ensures k == 0 ==> after == free
    ensures k != 0 ==> Run(k, n) <= free && after == free - Run(k, n) && k + n <= BITMAP_PAGES
  {
  }

  /** A block of free pages long enough for everything is enough. */
  lemma EnoughToSpawn(free: set<nat>, data: seq<Byte>)
    requires HeaderOk(data) && WellFormed(data) && HasRun(free, 1 + SpaceNeed(data) + KSTACK_PAGES)
    ensures HasRun(DropLowest(free, 1 + SpaceNeed(data)), KSTACK_PAGES)
  {
    hide HeaderOk, WellFormed, SpaceNeed, HasRun, DropLowest;
    RunKept(free, 1 + SpaceNeed(data), KSTACK_PAGES);
  }

  lemma ImageBrk(c: Vm, p: Process, data: seq<Byte>, argv: seq<seq<Byte>>)
    requires p.space in c.spaces && HeaderOk(data) && WellFormed(data) && ProcessImage(c, p, data, argv)
    ensures p.brk == USER_HEAP_BASE && MappedAsLoaded(c, p.space, data, PageUp(p.brk), HEAP_HI)
  {
    hide View, Loaded, ArgvReads, HeaderOk, WellFormed, NoSegmentIn;
  }

  lemma UndoneAtOnce(a: Vm)
    ensures Undone(a, a, {})
  {
    hide FlatOf;
  }

  lemma CreatedBlank(a: Vm, b: Vm, r: nat)
    requires Created(a, b, r)
    ensures r in b.spaces && FlatOf(b, r) == map[]
  {
    hide FlatOf, Pages;
  }

  lemma SpaceIsNew(a: Vm, c: Vm, r: nat, lost: set<nat>)
    requires Spawning(a, c, r, lost)
    ensures r !in a.spaces && forall s :: s in a.spaces ==> s in c.spaces
  {
    hide FlatOf, Pages;
  }

  lemma GiveRunOk(vm: Vm, k: nat, n: nat)
    requires Ok(vm) && InRange(vm) && 0 < k && k + n <= BITMAP_PAGES && Run(k, n) !! vm.half
    requires forall s :: s in vm.spaces ==> Run(k, n) !! Pages(vm.spaces[s])
    ensures Ok(vm.(free := vm.free + Run(k, n))) && InRange(vm.(free := vm.free + Run(k, n)))
  {
    hide TreeOk, Pages;
  }

  /** Space `p.space` is gone; its pages and the kernel stack are free; the rest is as before. */
  ghost predicate Reaped(a: Vm, b: Vm, p: Process) {
    && p.space in a.spaces && b.spaces == a.spaces - {p.space} && b.mem == a.mem && b.half == a.half
    && b.free == a.free + Pages(a.spaces[p.space]) + Run(p.kstack, KSTACK_PAGES)
  }

  lemma DroppedKeepsStack(a: Vm, b: Vm, p: Process)
    requires Owned(a, p) && Dropped(a, b, p.space)
    ensures b.free == a.free + Pages(a.spaces[p.space]) && b.spaces == a.spaces - {p.space} && b.mem == a.mem
    ensures b.half == a.half && Run(p.kstack, KSTACK_PAGES) !! b.half
    ensures Run(p.kstack, KSTACK_PAGES) !! b.free && 0 < p.kstack && p.kstack + KSTACK_PAGES <= BITMAP_PAGES
    ensures forall s :: s in b.spaces ==> Run(p.kstack, KSTACK_PAGES) !! Pages(b.spaces[s])
  {
    hide Pages, Run, AllData, FlatOf;
  }

  // Gives a kernel stack back, page by page.
  method FreeStack(m: AddressSpaceManager, k: nat)
    requires m.Valid() && 0 < k && k + KSTACK_PAGES <= BITMAP_PAGES && Run(k, KSTACK_PAGES) !! m.pmm.free
    requires Run(k, KSTACK_PAGES) !! m.half
    requires forall s :: s in m.spaces ==> Run(k, KSTACK_PAGES) !! Pages(m.spaces[s])
    modifies m.pmm`free, m.pmm`freePages, m.pmm`badFrees, m.pmm.bitmap
    ensures m.Valid() && m.pmm.badFrees == old(m.pmm.badFrees)
    ensures m.State() == old(m.State()).(free := old(m.pmm.free) + Run(k, KSTACK_PAGES))
  {
    hide Ok, InRange, SharedHalf, Pmm.Allocator.Valid, Pages, Run;
    ghost var b := m.State();
    GiveRunOk(b, k, KSTACK_PAGES);
    assert Run(k, 0) == {};
    for i := 0 to KSTACK_PAGES
      invariant m.pmm.Valid() && m.pmm.badFrees == old(m.pmm.badFrees)
      invariant m.pmm.free == b.free + Run(k, i)
    {
      assert k + i in Run(k, KSTACK_PAGES);
      assert Run(k, i + 1) == Run(k, i) + {k + i};
      m.FreeFrame(k + i);
    }
    assert m.State() == b.(free := b.free + Run(k, KSTACK_PAGES));
    RangeAboveZero(m.State());
  }

  /** Reaping frees the process's pages and kernel stack, with no bad free. */
  method Reap(m: AddressSpaceManager, p: Process)
    requires m.Valid() && Owned(m.State(), p) && p.space in m.spaces && p.space != m.kernelSpace
    modifies m`spaces, m.pmm`free, m.pmm`freePages, m.pmm`badFrees, m.pmm.bitmap
    ensures m.Valid() && m.pmm.badFrees == old(m.pmm.badFrees)
    ensures Reaped(old(m.State()), m.State(), p)
  {
    hide Ok, InRange, SharedHalf, Pmm.Allocator.Valid, Owned, Dropped, Pages, Run;
    ghost var a := m.State();
    m.DestroySpace(p.space);
    ghost var b := m.State();
    DroppedKeepsStack(a, b, p);
    FreeStack(m, p.kstack);
  }

  lemma RangeAboveZero(vm: Vm)
    requires InRange(vm)
    ensures 0 !in vm.free
  {
  }

  lemma LifeBalanced(a: Vm, b: Vm, c: Vm, p: Process, lost: set<nat>)
    requires Accounted(a, b, p, lost) && Reaped(b, c, p)
    ensures Undone(a, c, lost)
  {
    hide Pages, Run, Flat;
    assert c.spaces.Keys == a.spaces.Keys;
    assert forall s :: s in a.spaces ==> FlatOf(c, s) == FlatOf(b, s);
  }

  predicate AllTrue(s: seq<bool>) { forall i :: 0 <= i < |s| ==> s[i] }

  lemma AllTrueSnoc(s: seq<bool>, b: bool)
    ensures AllTrue(s + [b]) <==> AllTrue(s) && b
    ensures (s + [b])[..|s|] == s
  {
    if AllTrue(s + [b]) {
      assert forall i :: 0 <= i < |s| ==> s[i] == (s + [b])[i];
      assert (s + [b])[|s|] == b;
    }
  }

  // A successful sbrk runs into a segment or not, and leaves the rest of the heap as it was.
  lemma HeapGrows(a: Vm, b: Vm, r: nat, data: seq<Byte>, brk: nat, newb: nat)
    requires r in a.spaces && r in b.spaces && HeaderOk(data) && WellFormed(data)
    requires USER_HEAP_BASE <= brk <= newb <= USER_HEAP_BASE + HEAP_LIMIT
    requires MappedAsLoaded(a, r, data, PageUp(brk), HEAP_HI) && ShowsZeroes(a, b, r, PageUp(brk), PageUp(newb))
    ensures MappedAsLoaded(b, r, data, PageUp(newb), HEAP_HI)
    ensures NoSegmentIn(data, HEAP_LO, PageUp(newb)) <==>
      NoSegmentIn(data, HEAP_LO, PageUp(brk)) && Unmapped(a, r, PageUp(brk), PageUp(newb))
  {
    hide View, Loaded, HeaderOk, WellFormed, Unmapped, Le, PhdrAt, PhOff, Covers;
    SegmentsMapped(a, r, data, PageUp(brk), PageUp(newb));
  }

  lemma HeapIsClear(a: Vm, r: nat, data: seq<Byte>, brk: nat)
    requires r in a.spaces && HeaderOk(data) && WellFormed(data) && USER_HEAP_BASE <= brk
    requires MappedAsLoaded(a, r, data, PageUp(brk), HEAP_HI) && NoSegmentIn(data, HEAP_LO, HEAP_HI)
    ensures HeapClear(a, r, brk)
  {
    hide View, Loaded, HeaderOk, WellFormed, Unmapped, Le, PhdrAt, PhOff, Covers;
    SegmentsMapped(a, r, data, PageUp(brk), HEAP_HI);
  }

  /** Conservation over a whole life: spawn, any sequence of sbrk calls, successful or not, exit and reap. All spaces
      are as before, and every page is back except `lost`. When all calls succeed, nothing is lost if and only if no
      page of the image is shared and none lies below the final break `brk` in the heap. When the image keeps out of
      the heap altogether, one failure at the end costs at most one page. */
  method WholeLife(m: AddressSpaceManager, data: seq<Byte>, argv: seq<seq<Byte>>, incrs: seq<int>)
    returns (started: bool, oks: seq<bool>, brk: nat, ghost lost: set<nat>)
    requires m.Valid() && WellFormed(data)
    requires TotalLen(argv) + 0x1000 < USER_STACK_TOP
    requires forall i :: 0 <= i < |incrs| ==> -0x8000_0000_0000_0000 <= incrs[i] < 0x8000_0000_0000_0000
    modifies m`mem, m`spaces, m.pmm`free, m.pmm`freePages, m.pmm`badFrees, m.pmm.bitmap
    ensures m.Valid() && m.pmm.badFrees == old(m.pmm.badFrees)
    ensures Undone(old(m.State()), m.State(), lost)
    ensures started ==> HeaderOk(data) && |oks| == |incrs|
    ensures started && AllTrue(oks) ==>
      (m.pmm.free == old(m.pmm.free) <==> NoSharing(data) && NoSegmentIn(data, HEAP_LO, PageUp(brk)))
    ensures started && AllTrue(oks) ==> brk == USER_HEAP_BASE + Sum(incrs)
    ensures started && NoSegmentIn(data, HEAP_LO, HEAP_HI) && NoSharing(data) ==>
      (|oks| > 0 && AllTrue(oks[..|oks| - 1]) ==> AtMostOne(lost))
    ensures !started && HeaderOk(data) && NoSharing(data) ==> AtMostOne(lost)
    ensures Startable(data, argv) ==>
      (started <==> HasRun(DropLowest(old(m.pmm.free), 1 + SpaceNeed(data)), KSTACK_PAGES))
  {
    hide Ok, InRange, SharedHalf, Pmm.Allocator.Valid, AllData, FlatOf, Balanced, HeaderOk, WellFormed, ShowsZeroes;
    hide HeapClear, Unmapped, MappedAsLoaded, PageUp;
    hide NoSharing, NoSegmentIn, TotalLen, ProcessImage, Owned, Accounted, Reaped, StoppedAt, AtMostOne, AllTrue, Fits;
    hide NoHuge, SpaceNeed, HasRun, Undone, DropLowest, Need;
    ghost var a := m.State();
    var proc;
    proc, lost := SpawnElf(m, data, argv);
    oks, brk := [], USER_HEAP_BASE;
    if proc.None? { return false, oks, brk, lost; }
    var p := proc.value;
    OwnedFacts(a, m.State(), p, lost);
    ImageBrk(m.State(), p, data, argv);
    NoneLost();
    ghost var clear, alone := NoSegmentIn(data, HEAP_LO, HEAP_HI), NoSharing(data);
    assert AllTrue(oks) by { AllTrueNone(); }
    HeapStart(data);
    assert incrs[..0] == [];
    for i := 0 to |incrs|
      invariant m.Valid() && m.pmm.badFrees == old(m.pmm.badFrees) && |oks| == i
      invariant Owned(m.State(), p) && Accounted(a, m.State(), p, lost)
      invariant AllTrue(oks) ==>
        && p.space in m.spaces && MappedAsLoaded(m.State(), p.space, data, PageUp(p.brk), HEAP_HI)
        && (lost == {} <==> alone && NoSegmentIn(data, HEAP_LO, PageUp(p.brk)))
        && p.brk == USER_HEAP_BASE + Sum(incrs[..i])
      invariant clear ==> NoSegmentIn(data, HEAP_LO, PageUp(p.brk))
      invariant clear && alone && i > 0 && AllTrue(oks[..i - 1]) ==> AtMostOne(lost)
    {
      ghost var b := m.State();
      OwnedFacts(a, b, p, lost);
      var ok, q, ret;
      ghost var more, stop;
      ok, q, ret, more, stop := Sbrk(m, p, incrs[i]);
      AccountedStep(a, b, m.State(), p, q, lost, more);
      AllTrueSnoc(oks, ok);
      SegmentFreeBelow(data, q.brk);
      SumSnoc(incrs, i);
      if AllTrue(oks) {
        if clear { HeapIsClear(b, p.space, data, p.brk); }
        if ok { HeapGrows(b, m.State(), p.space, data, p.brk, q.brk); }
      }
      assert lost == {} ==> lost + more == more;
      p, oks, lost := q, oks + [ok], lost + more;
    }
    ghost var b := m.State();
    OwnedFacts(a, b, p, lost);
    Reap(m, p);
    LifeBalanced(a, b, m.State(), p, lost);
    UndoneFree(a, m.State(), lost);
    assert incrs[..|incrs|] == incrs;
    return true, oks, p.brk, lost;
  }

  function Sum(s: seq<int>): int { if s == [] then 0 else Sum(s[..|s| - 1]) + s[|s| - 1] }

  lemma SumSnoc(s: seq<int>, i: nat)
    requires i < |s|
    ensures Sum(s[..i + 1]) == Sum(s[..i]) + s[i]
  {
    assert s[..i + 1][..i] == s[..i];
  }

  lemma HeapStart(data: seq<Byte>)
    requires HeaderOk(data) && WellFormed(data)
    ensures NoSegmentIn(data, HEAP_LO, PageUp(USER_HEAP_BASE))
  {
    hide HeaderOk, WellFormed, Covers, PhdrAt, PhOff;
  }

  lemma SegmentFreeBelow(data: seq<Byte>, brk: nat)
    requires HeaderOk(data) && WellFormed(data) && brk <= USER_HEAP_BASE + HEAP_LIMIT
    ensures NoSegmentIn(data, HEAP_LO, HEAP_HI) ==> NoSegmentIn(data, HEAP_LO, PageUp(brk))
  {
    hide HeaderOk, WellFormed, Covers, PhdrAt, PhOff;
  }

  lemma AllTrueNone()
    ensures AllTrue([])
  {
  }

  lemma UndoneFree(a: Vm, d: Vm, lost: set<nat>)
    requires Undone(a, d, lost)
    ensures d.free == a.free <==> lost == {}
  {
    hide OldSpacesKept;
  }

  lemma OwnedFacts(a: Vm, b: Vm, p: Process, lost: set<nat>)
    requires Owned(b, p) && Accounted(a, b, p, lost)
    ensures p.space in b.spaces && AllData(b, p.space) && USER_HEAP_BASE <= p.brk <= USER_HEAP_BASE + HEAP_LIMIT
    ensures p.space !in a.spaces
  {
    hide Pages, Run, FlatOf;
  }
}
