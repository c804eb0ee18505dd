/**
 The ELF loader (kernel-rs/src/proc/elf.rs). After a load, every address of the space holds
 what the program headers say: file bytes up to filesz, zeroes up to the end of the last page,
 under the protection of the segment's flags.
 */
module Elf {
  import opened Common
  import opened Pmm
  import opened PageTable
  import opened AddressSpaces
  import opened Budget
  import opened Vmm
  import opened UserMemory
  import opened Proc

  const EHDR_SIZE: nat := 64
  const PHDR_SIZE: nat := 56
  const PT_LOAD: nat := 1

  datatype Phdr = Phdr(ptype: nat, flags: nat, offset: nat, vaddr: nat, filesz: nat, memsz: nat)

  // Little-endian number of `n` bytes at `off`.
  function Le(data: seq<Byte>, off: nat, n: nat): nat
    requires off + n <= |data|
    decreases n
  {
    if n == 0 then 0 else data[off] + 256 * Le(data, off + 1, n - 1)
  }

  predicate HeaderOk(data: seq<Byte>) {
    && |data| >= EHDR_SIZE
    && data[0] == 0x7F && data[1] == 0x45 && data[2] == 0x4C && data[3] == 0x46
    && data[4] == 2 && data[5] == 1
    && Le(data, 16, 2) == 2 && Le(data, 18, 2) == 62
  }

  function Entry(data: seq<Byte>): nat requires HeaderOk(data) { Le(data, 24, 8) }

  function PhNum(data: seq<Byte>): nat requires HeaderOk(data) { Le(data, 56, 2) }

  function Times(i: nat, n: nat): nat { i * n }

  function PhOff(data: seq<Byte>, i: nat): nat requires HeaderOk(data) { Le(data, 32, 8) + Times(i, Le(data, 54, 2)) }

  function PhdrAt(data: seq<Byte>, o: nat): Phdr
    requires o + PHDR_SIZE <= |data|
  {
    Phdr(Le(data, o, 4), Le(data, o + 4, 4), Le(data, o + 8, 8),
         Le(data, o + 16, 8), Le(data, o + 32, 8), Le(data, o + 40, 8))
  }

  // Segments are writable if PF_W is set and executable only if PF_X is set.
  function ElfFlags(pf: nat): Flags {
    Flags((pf / 2) % 2 == 1, true, false, pf % 2 == 0)
  }

  predicate Loadable(ph: Phdr) { ph.ptype == PT_LOAD && ph.memsz != 0 }

  function FirstPage(ph: Phdr): nat { ph.vaddr / 4096 }

  function EndOfPages(ph: Phdr): nat { (ph.vaddr + ph.memsz + 4095) / 4096 }

  predicate Covers(ph: Phdr, x: nat) { Loadable(ph) && FirstPage(ph) <= x / 4096 < EndOfPages(ph) }

  // A segment the loader can be asked to load: inside the file, inside the lower half.
  predicate SegmentOk(data: seq<Byte>, ph: Phdr) {
    Loadable(ph) ==> ph.offset + ph.filesz <= |data| && ph.filesz <= ph.memsz && ph.vaddr + ph.memsz <= USER_TOP
  }

  // The pages a loadable segment needs; a segment of no size needs none.
  function PageCount(ph: Phdr): nat { if EndOfPages(ph) > FirstPage(ph) then EndOfPages(ph) - FirstPage(ph) else 0 }

  // The byte segment `ph` puts at address `x` of its pages.
  function ImageByte(data: seq<Byte>, ph: Phdr, x: nat): Byte
    requires Loadable(ph) && SegmentOk(data, ph)
  {
    if ph.vaddr <= x < ph.vaddr + ph.filesz then data[ph.offset + (x - ph.vaddr)] else 0
  }

  ghost predicate WellFormed(data: seq<Byte>) {
    HeaderOk(data) ==>
      && (forall i :: 0 <= i < PhNum(data) ==> PhOff(data, i) + PHDR_SIZE <= |data|)
      && (forall i :: 0 <= i < PhNum(data) ==> SegmentOk(data, PhdrAt(data, PhOff(data, i))))
  }

  // No page belongs to two of the first `k` segments.
  ghost predicate DisjointUpTo(data: seq<Byte>, k: nat)
    requires HeaderOk(data) && WellFormed(data) && k <= PhNum(data)
  {
    forall i, j, x: nat :: 0 <= i < j < k && Covers(PhdrAt(data, PhOff(data, i)), x) ==>
      !Covers(PhdrAt(data, PhOff(data, j)), x)
  }

  ghost predicate PageDisjointSegments(data: seq<Byte>)
    requires HeaderOk(data) && WellFormed(data)
  {
    DisjointUpTo(data, PhNum(data))
  }

  /** What address `x` holds once the first `k` program headers are loaded. */
  ghost function Loaded(data: seq<Byte>, k: nat, x: nat): Option<(Byte, Flags)>
    requires HeaderOk(data) && WellFormed(data) && k <= PhNum(data)
  {
    if k == 0 then None else
      var ph := PhdrAt(data, PhOff(data, k - 1));
      if Covers(ph, x) then Some((ImageByte(data, ph, x), ElfFlags(ph.flags))) else Loaded(data, k - 1, x)
  }

  /** Every byte of a segment is where the program header puts it, with the segment's protection: file contents
      below filesz, zero from there to memsz. Only a later segment with a part in the same page can change that. */
  lemma {:induction false} SegmentsLoaded(data: seq<Byte>, k: nat, i: nat, x: nat)
    requires HeaderOk(data) && WellFormed(data) && i < k <= PhNum(data)
    requires var ph := PhdrAt(data, PhOff(data, i)); Loadable(ph) && ph.vaddr <= x < ph.vaddr + ph.memsz
    requires forall j :: i < j < k ==> !Covers(PhdrAt(data, PhOff(data, j)), x)
    ensures var ph := PhdrAt(data, PhOff(data, i));
      Loaded(data, k, x) ==
        Some((if x < ph.vaddr + ph.filesz then data[ph.offset + (x - ph.vaddr)] else 0, ElfFlags(ph.flags)))
    decreases k
  {
    hide Le, HeaderOk, PhdrAt, PhOff, ElfFlags;
    assert Covers(PhdrAt(data, PhOff(data, i)), x);
    if i < k - 1 {
      assert !Covers(PhdrAt(data, PhOff(data, k - 1)), x);
      SegmentsLoaded(data, k - 1, i, x);
    }
  }

  // ---- loading ---------------------------------------------------------------------------------

  // Pages lo..hi of the space show segment `ph`, the rest is as in `a`.
  ghost predicate Shows(a: Vm, b: Vm, r: nat, data: seq<Byte>, ph: Phdr, lo: nat, hi: nat)
    requires Loadable(ph) && SegmentOk(data, ph) && r in a.spaces && r in b.spaces
  {
    forall x :: 0 <= x < USER_TOP ==>
      View(b, r, x) == if lo <= x / 4096 < hi then Some((ImageByte(data, ph, x), ElfFlags(ph.flags))) else View(a, r, x)
  }

  lemma WroteView(a: Vm, b: Vm, r: nat, dst: nat, src: seq<Byte>, x: nat)
    requires Wrote(a, b, r, dst, src) && x < USER_TOP && (dst <= x < dst + |src| ==> View(a, r, x).Some?)
    ensures r in b.spaces
    ensures View(b, r, x) ==
      if dst <= x < dst + |src| then Some((src[x - dst], View(a, r, x).value.1)) else View(a, r, x)
  {
    hide FlatOf, Pages;
  }

  lemma TranslationInPage(flat: map<Path, Pte>, va: nat, a: nat)
    requires va % 4096 == 0 && va <= a < va + 4096 && a < USER_TOP && PathOf(va) in flat
    ensures PathOf(a) in flat && Translation(flat, a) == Translation(flat, va) + (a - va)
  {
    hide PathOf;
    PathsArePages(va, a);
  }

  // The part of page `n` that segment `ph` fills from the file, at virtual address lo.
  function OverlapLo(ph: Phdr, n: nat): nat { if n * 4096 > ph.vaddr then n * 4096 else ph.vaddr }

  function OverlapHi(ph: Phdr, n: nat): nat {
    if n * 4096 + 4096 < ph.vaddr + ph.filesz then n * 4096 + 4096 else ph.vaddr + ph.filesz
  }

  lemma ShowsAfterCopy(a: Vm, b0: Vm, b: Vm, r: nat, data: seq<Byte>, ph: Phdr, n: nat)
    requires Loadable(ph) && SegmentOk(data, ph) && r in a.spaces && FirstPage(ph) <= n < EndOfPages(ph)
    requires ZeroPageAdded(a, b0, r, n, ElfFlags(ph.flags)) && OverlapLo(ph, n) < OverlapHi(ph, n)
    requires Wrote(b0, b, r, OverlapLo(ph, n),
      data[ph.offset + (OverlapLo(ph, n) - ph.vaddr)..ph.offset + (OverlapHi(ph, n) - ph.vaddr)])
    ensures r in b.spaces && Shows(a, b, r, data, ph, n, n + 1)
  {
    hide View, Wrote, Balanced, AllData, FlatOf, PathOf, ElfFlags;
    var lo, hi := OverlapLo(ph, n), OverlapHi(ph, n);
    var src := data[ph.offset + (lo - ph.vaddr)..ph.offset + (hi - ph.vaddr)];
    WroteMaps(b0, b, r, lo, src);
    forall x | 0 <= x < USER_TOP
      ensures View(b, r, x) ==
        if n <= x / 4096 < n + 1 then Some((ImageByte(data, ph, x), ElfFlags(ph.flags))) else View(a, r, x)
    {
      assert lo <= x < hi ==> x / 4096 == n;
      WroteView(b0, b, r, lo, src, x);
    }
  }

  lemma ShowsWithoutCopy(a: Vm, b: Vm, r: nat, data: seq<Byte>, ph: Phdr, n: nat)
    requires Loadable(ph) && SegmentOk(data, ph) && r in a.spaces && r in b.spaces
    requires ZeroPageAdded(a, b, r, n, ElfFlags(ph.flags)) && OverlapHi(ph, n) <= OverlapLo(ph, n)
    ensures Shows(a, b, r, data, ph, n, n + 1)
  {
    hide View, Balanced, AllData, FlatOf, PathOf, ElfFlags;
  }

  lemma ShowsMore(a: Vm, b: Vm, c: Vm, r: nat, data: seq<Byte>, ph: Phdr, lo: nat, n: nat)
    requires Loadable(ph) && SegmentOk(data, ph) && r in a.spaces && r in b.spaces && r in c.spaces && lo <= n
    requires Shows(a, b, r, data, ph, lo, n) && Shows(b, c, r, data, ph, n, n + 1)
    ensures Shows(a, c, r, data, ph, lo, n + 1)
  {
    hide View, ImageByte, ElfFlags;
  }

  /** Loads page `n` of a segment: a fresh page with the overlapping file bytes copied in. A page that was mapped
      there before is lost. */
  method LoadPage(m: AddressSpaceManager, space: nat, data: seq<Byte>, ph: Phdr, n: nat)
    returns (ok: bool, ghost lost: set<nat>)
    requires m.Valid() && space in m.spaces && AllData(m.State(), space)
    requires Loadable(ph) && SegmentOk(data, ph) && FirstPage(ph) <= n < EndOfPages(ph)
    modifies m`mem, m`spaces, m.pmm`free, m.pmm`freePages, m.pmm.bitmap
    ensures m.Valid() && space in m.spaces && AllData(m.State(), space)
    ensures Balanced(old(m.State()), m.State(), space, lost) && AtMostOne(lost)
    ensures ok ==> Shows(old(m.State()), m.State(), space, data, ph, n, n + 1)
    ensures ok ==> (lost == {} <==> PathOf(n * 4096) !in old(FlatOf(m.State(), space)))
    ensures !ok ==> PageRefused(old(m.State()), m.State(), space, lost) && (lost == {} <==> old(m.pmm.free) == {})
    ensures Paid(old(m.State()), m.State(), space, TablesOf(n * 4096), 1, ok)
  {
    hide Ok, InRange, SharedHalf, Pmm.Allocator.Valid, AllData, FlatOf, PathOf, Balanced, Wrote, Shows, ElfFlags;
    hide ZeroPageAdded;
    hide Paid, NoHuge, View, AtMostOne, TablesOf;
    ghost var a := m.State();
    var va := n * 4096;
    ok, lost := MapSegmentPage(m, space, va, ElfFlags(ph.flags));
    if !ok { return; }
    ghost var b0 := m.State();
    lost := Released(FlatOf(a, space), PathOf(va));
    AddedFacts(a, b0, space, n, ElfFlags(ph.flags));
    var lo, hi := OverlapLo(ph, n), OverlapHi(ph, n);
    if hi > lo {
      var pa := m.Translate(space, va);
      TranslationInPage(FlatOf(b0, space), va, lo);
      var src := data[ph.offset + (lo - ph.vaddr)..ph.offset + (hi - ph.vaddr)];
      CopyToPage(m, space, lo, pa + (lo - va), src);
      WroteBalanced(b0, m.State(), space, lo, src);
      PaidSame(a, b0, m.State(), space, TablesOf(va), 1);
      BalancedTrans(a, b0, m.State(), space, lost, {});
      assert lost + {} == lost;
      ShowsAfterCopy(a, b0, m.State(), space, data, ph, n);
    } else {
      ShowsWithoutCopy(a, b0, space, data, ph, n);
    }
  }

  lemma AddedFacts(a: Vm, b: Vm, r: nat, n: nat, flags: Flags)
    requires ZeroPageAdded(a, b, r, n, flags)
    ensures var lost := Released(FlatOf(a, r), PathOf(n * 4096));
      && Balanced(a, b, r, lost) && PathOf(n * 4096) in FlatOf(b, r) && AtMostOne(lost)
      && (lost == {} <==> PathOf(n * 4096) !in FlatOf(a, r))
  {
    hide FlatOf, PathOf, Balanced;
  }

  /** Loads all pages of one segment. Success loses no page exactly when none of them was mapped before. */
  method LoadSegment(m: AddressSpaceManager, space: nat, data: seq<Byte>, ph: Phdr)
    returns (ok: bool, ghost lost: set<nat>)
    requires m.Valid() && space in m.spaces && AllData(m.State(), space)
    requires Loadable(ph) && SegmentOk(data, ph)
    modifies m`mem, m`spaces, m.pmm`free, m.pmm`freePages, m.pmm.bitmap
    ensures m.Valid() && space in m.spaces && AllData(m.State(), space)
    ensures Balanced(old(m.State()), m.State(), space, lost)
    ensures ok ==> Shows(old(m.State()), m.State(), space, data, ph, FirstPage(ph), EndOfPages(ph))
    ensures ok ==> (lost == {} <==> Unmapped(old(m.State()), space, FirstPage(ph), EndOfPages(ph)))
    ensures Unmapped(old(m.State()), space, FirstPage(ph), EndOfPages(ph)) ==> AtMostOne(lost)
    ensures Paid(old(m.State()), m.State(), space, TablesFor(FirstPage(ph), EndOfPages(ph)), PageCount(ph), ok)
  {
    hide Ok, InRange, SharedHalf, Pmm.Allocator.Valid, AllData, FlatOf, PathOf, Balanced, Shows, View, PageRefused;
    hide Paid, TablesFor, TablesOf;
    hide Unmapped, AtMostOne;
    ghost var a := m.State();
    BalancedNow(a, space);
    PaidNoPages(a, space, FirstPage(ph));
    ShowsNothing(a, space, data, ph, FirstPage(ph));
    NothingUnmapped(a, space, FirstPage(ph));
    lost := {};
    for n := FirstPage(ph) to EndOfPages(ph)
      invariant m.Valid() && space in m.spaces && AllData(m.State(), space)
      invariant Balanced(a, m.State(), space, lost)
      invariant Shows(a, m.State(), space, data, ph, FirstPage(ph), n)
      invariant Paid(a, m.State(), space, TablesFor(FirstPage(ph), n), n - FirstPage(ph), true)
      invariant lost == {} <==> Unmapped(a, space, FirstPage(ph), n)
    {
      ghost var b, before := m.State(), lost;
      UnmappedMore(a, space, FirstPage(ph), n, EndOfPages(ph));
      PageAsBefore(a, b, space, data, ph, n);
      ghost var more;
      ok, more := LoadPage(m, space, data, ph, n);
      PaidNext(a, b, m.State(), space, FirstPage(ph), n, EndOfPages(ph), ok);
      BalancedTrans(a, b, m.State(), space, before, more);
      lost := before + more;
      assert before == {} ==> lost == more;
      if !ok { return; }
      ShowsMore(a, b, m.State(), space, data, ph, FirstPage(ph), n);
    }
    NoneLost();
    return true, lost;
  }

  lemma NoneLost()
    ensures AtMostOne({})
  {
  }

  lemma NothingUnmapped(a: Vm, r: nat, lo: nat)
    requires r in a.spaces
    ensures Unmapped(a, r, lo, lo)
  {
  }

  lemma UnmappedMore(a: Vm, r: nat, lo: nat, n: nat, hi: nat)
    requires r in a.spaces && lo <= n < hi
    ensures Unmapped(a, r, lo, n + 1) <==> Unmapped(a, r, lo, n) && Unmapped(a, r, n, n + 1)
    ensures Unmapped(a, r, lo, hi) ==> Unmapped(a, r, lo, n + 1)
  {
    hide View;
  }

  lemma ShowsNothing(a: Vm, r: nat, data: seq<Byte>, ph: Phdr, n: nat)
    requires Loadable(ph) && SegmentOk(data, ph) && r in a.spaces
    ensures Shows(a, a, r, data, ph, n, n)
  {
  }

  // Loading the pages before page `n` left page `n` as it was.
  lemma PageAsBefore(a: Vm, b: Vm, r: nat, data: seq<Byte>, ph: Phdr, n: nat)
    requires Loadable(ph) && SegmentOk(data, ph) && r in a.spaces && r in b.spaces && AllData(b, r)
    requires FirstPage(ph) <= n < EndOfPages(ph) && Shows(a, b, r, data, ph, FirstPage(ph), n)
    ensures n * 4096 < USER_TOP && (PathOf(n * 4096) in FlatOf(b, r) <==> !Unmapped(a, r, n, n + 1))
  {
    hide FlatOf, PathOf, ElfFlags, View, AllData;
    PageMapped(b, r, n);
    assert forall x :: 0 <= x < USER_TOP && x / 4096 == n ==> View(b, r, x) == View(a, r, x);
  }

  // The space shows the first `k` program headers and nothing else.
  ghost predicate ShowsImage(vm: Vm, r: nat, data: seq<Byte>, k: nat)
    requires r in vm.spaces && HeaderOk(data) && WellFormed(data) && k <= PhNum(data)
  {
    forall x :: 0 <= x < USER_TOP ==> View(vm, r, x) == Loaded(data, k, x)
  }

  lemma ShowsNextHeader(a: Vm, b: Vm, r: nat, data: seq<Byte>, k: nat)
    requires r in a.spaces && r in b.spaces && HeaderOk(data) && WellFormed(data) && k < PhNum(data)
    requires ShowsImage(a, r, data, k)
    requires var ph := PhdrAt(data, PhOff(data, k));
      if Loadable(ph) then Shows(a, b, r, data, ph, FirstPage(ph), EndOfPages(ph)) else a == b
    ensures ShowsImage(b, r, data, k + 1)
  {
    hide View, Le, HeaderOk, ElfFlags, PhdrAt, PhOff, ImageByte, FirstPage, EndOfPages;
  }

  lemma {:induction false} LoadedByHeader(data: seq<Byte>, k: nat, x: nat)
    requires HeaderOk(data) && WellFormed(data) && k <= PhNum(data)
    ensures Loaded(data, k, x).Some? <==> exists i :: 0 <= i < k && Covers(PhdrAt(data, PhOff(data, i)), x)
  {
    hide Le, HeaderOk, ElfFlags, PhdrAt, PhOff, Covers;
    if k > 0 { LoadedByHeader(data, k - 1, x); }
  }

  // The pages of the next segment are unmapped exactly when no earlier segment has a part in them.
  lemma NextHeaderUncovered(vm: Vm, r: nat, data: seq<Byte>, k: nat)
    requires r in vm.spaces && HeaderOk(data) && WellFormed(data) && k < PhNum(data)
    requires ShowsImage(vm, r, data, k)
    ensures var ph := PhdrAt(data, PhOff(data, k));
      DisjointUpTo(data, k + 1) <==>
        DisjointUpTo(data, k) && (Loadable(ph) ==> Unmapped(vm, r, FirstPage(ph), EndOfPages(ph)))
  {
    hide View, Le, HeaderOk, ElfFlags, PhdrAt, PhOff, FirstPage, EndOfPages, DisjointUpTo;
    var ph := PhdrAt(data, PhOff(data, k));
    DisjointSnoc(data, k);
    if NewSegmentApart(data, k) {
      forall x | 0 <= x < USER_TOP && FirstPage(ph) <= x / 4096 < EndOfPages(ph) && Loadable(ph)
        ensures View(vm, r, x).None?
      {
        assert Covers(ph, x);
        LoadedByHeader(data, k, x);
      }
    } else {
      var i, x: nat :| 0 <= i < k && Covers(PhdrAt(data, PhOff(data, i)), x) && Covers(ph, x);
      HeaderInFile(data, k);
      CoveredBelowTop(data, ph, x);
      LoadedByHeader(data, k, x);
      assert View(vm, r, x).Some?;
    }
  }

  lemma CoveredBelowTop(data: seq<Byte>, ph: Phdr, x: nat)
    requires SegmentOk(data, ph) && Covers(ph, x)
    ensures x < USER_TOP
  {
  }

  ghost predicate NewSegmentApart(data: seq<Byte>, k: nat)
    requires HeaderOk(data) && WellFormed(data) && k < PhNum(data)
  {
    forall i, x: nat :: 0 <= i < k && Covers(PhdrAt(data, PhOff(data, i)), x) ==>
      !Covers(PhdrAt(data, PhOff(data, k)), x)
  }

  lemma DisjointSnoc(data: seq<Byte>, k: nat)
    requires HeaderOk(data) && WellFormed(data) && k < PhNum(data)
    ensures DisjointUpTo(data, k + 1) <==> DisjointUpTo(data, k) && NewSegmentApart(data, k)
  {
    hide Le, HeaderOk, PhdrAt, PhOff, WellFormed, Covers;
  }

  ghost function HeaderPages(data: seq<Byte>, i: nat): nat
    requires HeaderOk(data) && WellFormed(data) && i < PhNum(data)
  {
    HeaderInFile(data, i);
    var ph := PhdrAt(data, PhOff(data, i));
    if Loadable(ph) then PageCount(ph) else 0
  }

  ghost function HeaderTables(data: seq<Byte>, i: nat): set<Path>
    requires HeaderOk(data) && WellFormed(data) && i < PhNum(data)
  {
    HeaderInFile(data, i);
    var ph := PhdrAt(data, PhOff(data, i));
    if Loadable(ph) then TablesFor(FirstPage(ph), EndOfPages(ph)) else {}
  }

  // The pages the first k program headers need, and the tables.
  ghost function ImagePages(data: seq<Byte>, k: nat): nat
    requires HeaderOk(data) && WellFormed(data) && k <= PhNum(data)
  {
    if k == 0 then 0 else ImagePages(data, k - 1) + HeaderPages(data, k - 1)
  }

  ghost function ImageTables(data: seq<Byte>, k: nat): set<Path>
    requires HeaderOk(data) && WellFormed(data) && k <= PhNum(data)
  {
    if k == 0 then {} else ImageTables(data, k - 1) + HeaderTables(data, k - 1)
  }

  // A space has paid for the first k program headers, if `ok`.
  ghost predicate ImagePaid(a: Vm, b: Vm, r: nat, data: seq<Byte>, k: nat, ok: bool)
    requires HeaderOk(data) && WellFormed(data) && k <= PhNum(data)
  {
    Paid(a, b, r, ImageTables(data, k), ImagePages(data, k), ok)
  }

  lemma NoImagePages(a: Vm, r: nat, data: seq<Byte>)
    requires HeaderOk(data) && WellFormed(data) && r in a.spaces
    ensures ImagePaid(a, a, r, data, 0, true)
  {
    hide Paid;
    PaidNow(a, r);
  }

  lemma ImagePaidNext(a: Vm, b: Vm, c: Vm, r: nat, data: seq<Byte>, i: nat, ok: bool)
    requires HeaderOk(data) && WellFormed(data) && i < PhNum(data) && ImagePaid(a, b, r, data, i, true)
    requires Paid(b, c, r, HeaderTables(data, i), HeaderPages(data, i), ok)
    ensures ImagePaid(a, c, r, data, i + 1, ok)
  {
    hide Paid, HeaderOk, WellFormed, HeaderTables, HeaderPages, PhNum;
    PaidThen(a, b, c, r, ImageTables(data, i), ImagePages(data, i), HeaderTables(data, i), HeaderPages(data, i), ok);
  }

  lemma {:induction false} ImageTooBig(a: Vm, b: Vm, r: nat, data: seq<Byte>, i: nat)
    requires HeaderOk(data) && WellFormed(data) && i <= PhNum(data) && ImagePaid(a, b, r, data, i, false)
    ensures ImagePaid(a, b, r, data, PhNum(data), false)
    decreases PhNum(data) - i
  {
    hide Paid, HeaderOk, WellFormed, HeaderTables, HeaderPages, PhNum;
    if i < PhNum(data) {
      PaidMore(a, b, r, ImageTables(data, i), ImagePages(data, i), HeaderTables(data, i), HeaderPages(data, i));
      ImageTooBig(a, b, r, data, i + 1);
    }
  }

  // What loading the image takes: its pages, and one for each table that is missing.
  ghost function ImageNeed(vm: Vm, r: nat, data: seq<Byte>): nat
    requires HeaderOk(data) && WellFormed(data) && r in vm.spaces
  {
    Cost(vm, r, ImageTables(data, PhNum(data)), ImagePages(data, PhNum(data)))
  }

  /** Loads an executable into a fresh space. On success the space shows exactly the image, and no page is lost
      if and only if no page belongs to two segments; the result is the entry point. A failure is reported as 0. */
  method ElfLoad(m: AddressSpaceManager, space: nat, data: seq<Byte>) returns (entry: nat, ghost lost: set<nat>)
    requires m.Valid() && space in m.spaces && FlatOf(m.State(), space) == map[] && WellFormed(data)
    modifies m`mem, m`spaces, m.pmm`free, m.pmm`freePages, m.pmm.bitmap
    ensures m.Valid() && space in m.spaces && AllData(m.State(), space)
    ensures Balanced(old(m.State()), m.State(), space, lost)
    ensures HeaderOk(data) && PageDisjointSegments(data) ==> AtMostOne(lost)
    ensures !HeaderOk(data) ==> entry == 0 && lost == {}
    ensures entry != 0 ==> HeaderOk(data) && entry == Entry(data) && (lost == {} <==> PageDisjointSegments(data))
    ensures entry != 0 ==> ShowsImage(m.State(), space, data, PhNum(data))
    ensures HeaderOk(data) && Entry(data) != 0 ==>
      ImagePaid(old(m.State()), m.State(), space, data, PhNum(data), entry != 0)
    ensures HeaderOk(data) && NoHuge(old(m.State()), space) ==>
      (entry != 0 <==> Entry(data) != 0 && ImageNeed(old(m.State()), space, data) <= |old(m.pmm.free)|)
  {
    hide Ok, InRange, SharedHalf, Pmm.Allocator.Valid, FlatOf, PathOf, Balanced, Shows, Le, DisjointUpTo, ShowsImage;
    hide WellFormed;
    hide Paid, ImagePaid, ImageNeed, NoHuge, ImagePages, ImageTables, TablesFor, PageCount, Unmapped, AtMostOne;
    ghost var a := m.State();
    BalancedNow(a, space);
    NoneLost();
    if !HeaderOk(data) { return 0, {}; }
    BlankShowsNothing(a, space, data);
    NoImagePages(a, space, data);
    hide HeaderOk, AllData;
    lost := {};
    for i := 0 to PhNum(data)
      invariant m.Valid() && space in m.spaces && AllData(m.State(), space)
      invariant Balanced(a, m.State(), space, lost) && ShowsImage(m.State(), space, data, i)
      invariant ImagePaid(a, m.State(), space, data, i, true)
      invariant lost == {} <==> DisjointUpTo(data, i)
    {
      ghost var b, before := m.State(), lost;
      HeaderInFile(data, i);
      NextHeaderUncovered(b, space, data, i);
      DisjointPrefix(data, i + 1);
      var ph := PhdrAt(data, PhOff(data, i));
      if Loadable(ph) {
        var ok: bool;
        ghost var more;
        ok, more := LoadSegment(m, space, data, ph);
        ImagePaidNext(a, b, m.State(), space, data, i, ok);
        BalancedTrans(a, b, m.State(), space, before, more);
        lost := before + more;
        assert before == {} ==> lost == more;
        if !ok {
          ImageTooBig(a, m.State(), space, data, i + 1);
          ImageDecides(a, m.State(), space, data, false);
          return 0, lost;
        }
      } else {
        PaidNow(b, space);
        ImagePaidNext(a, b, b, space, data, i, true);
      }
      ShowsNextHeader(b, m.State(), space, data, i);
    }
    ImageDecides(a, m.State(), space, data, true);
    return Entry(data), lost;
  }

  lemma ImageDecides(a: Vm, b: Vm, r: nat, data: seq<Byte>, ok: bool)
    requires HeaderOk(data) && WellFormed(data) && r in a.spaces && ImagePaid(a, b, r, data, PhNum(data), ok)
    ensures NoHuge(a, r) ==> (ok <==> ImageNeed(a, r, data) <= |a.free|)
  {
    hide Paid, NoHuge, HeaderOk, WellFormed, ImageTables, ImagePages, Cost, PhNum;
    PaidIff(a, b, r, ImageTables(data, PhNum(data)), ImagePages(data, PhNum(data)), ok);
  }

  lemma DisjointPrefix(data: seq<Byte>, k: nat)
    requires HeaderOk(data) && WellFormed(data) && k <= PhNum(data)
    ensures PageDisjointSegments(data) ==> DisjointUpTo(data, k)
  {
    hide Le, HeaderOk, PhdrAt, PhOff, WellFormed, Covers;
  }

  lemma HeaderInFile(data: seq<Byte>, i: nat)
    requires HeaderOk(data) && WellFormed(data) && i < PhNum(data)
    ensures PhOff(data, i) + PHDR_SIZE <= |data| && SegmentOk(data, PhdrAt(data, PhOff(data, i)))
  {
  }

  lemma BlankShowsNothing(a: Vm, r: nat, data: seq<Byte>)
    requires r in a.spaces && FlatOf(a, r) == map[] && HeaderOk(data) && WellFormed(data)
    ensures ShowsImage(a, r, data, 0) && DisjointUpTo(data, 0)
  {
    hide FlatOf, Le, WellFormed, HeaderOk;
  }

  // ---- an image with a shared page ---------------------------------------------------------------

  // Two program headers, each for one byte of memory at address 0.
  const SHARED_IMAGE: seq<Byte> := seq(176, i => SharedByte(i))

  function SharedByte(i: int): Byte {
    if i == 0 then 0x7F else if i == 1 then 0x45 else if i == 2 then 0x4C else if i == 3 then 0x46
    else if i == 4 || i == 16 || i == 56 then 2 else if i == 18 then 62
    else if i == 32 then 64 else if i == 54 then 56
    else if i == 5 || i == 24 || i == 64 || i == 104 || i == 120 || i == 160 then 1 else 0
  }

  lemma {:induction false} LeZero(data: seq<Byte>, off: nat, n: nat)
    requires off + n <= |data| && forall k :: off <= k < off + n ==> data[k] == 0
    ensures Le(data, off, n) == 0
    decreases n
  {
    if n > 0 { LeZero(data, off + 1, n - 1); }
  }

  lemma LeLow(data: seq<Byte>, off: nat, n: nat)
    requires 0 < n && off + n <= |data| && forall k :: off < k < off + n ==> data[k] == 0
    ensures Le(data, off, n) == data[off]
  {
    LeZero(data, off + 1, n - 1);
  }

  lemma SharedHeader(o: nat)
    requires o == 64 || o == 120
    ensures PhdrAt(SHARED_IMAGE, o) == Phdr(1, 0, 0, 0, 0, 1)
  {
    hide Le;
    var d := SHARED_IMAGE;
    LeLow(d, o, 4);
    LeLow(d, o + 4, 4);
    LeLow(d, o + 8, 8);
    LeLow(d, o + 16, 8);
    LeLow(d, o + 32, 8);
    LeLow(d, o + 40, 8);
  }

  /** There are well-formed images whose segments share a page: for them loading loses one. */
  lemma SharedImageExample()
    ensures HeaderOk(SHARED_IMAGE) && WellFormed(SHARED_IMAGE) && !PageDisjointSegments(SHARED_IMAGE)
  {
    hide Le, PhdrAt, SharedByte;
    var d := SHARED_IMAGE;
    SharedFields();
    assert Times(0, 56) == 0 && Times(1, 56) == 56;
    SharedHeader(64);
    SharedHeader(120);
    assert PhOff(d, 0) == 64 && PhOff(d, 1) == 120;
    assert Covers(PhdrAt(d, PhOff(d, 0)), 0) && Covers(PhdrAt(d, PhOff(d, 1)), 0);
  }

  lemma SharedFields()
    ensures var d := SHARED_IMAGE; HeaderOk(d) && PhNum(d) == 2 && Le(d, 32, 8) == 64 && Le(d, 54, 2) == 56
  {
    hide Le;
    var d := SHARED_IMAGE;
    LeLow(d, 16, 2);
    LeLow(d, 18, 2);
    LeLow(d, 32, 8);
    LeLow(d, 54, 2);
    LeLow(d, 56, 2);
  }
}
