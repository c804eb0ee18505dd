/**
 The virtual memory manager (kernel-rs/src/mm/vmm.rs): walking, mapping and unmapping pages,
 creating and destroying address spaces. Memory and the allocator are updated in place; the
 trees of all spaces are ghost state kept in step with the tables.
 */
module Vmm {
  import opened Common
  import opened Pmm
  import opened PageTable
  import opened AddressSpaces
  import opened Budget

  const USER_TOP: nat := 0x8000_0000_0000  // first address above the lower half

  // ---- virtual addresses -------------------------------------------------------------------

  // 1 << (12 + (lvl - 1) * 9)
  function Span(lvl: nat): nat
    requires 1 <= lvl <= 4
  {
    match lvl
    case 1 => 0x1000
    case 2 => 0x20_0000
    case 3 => 0x4000_0000
    case _ => 0x80_0000_0000
  }

  // (va >> (12 + (lvl - 1) * 9)) & 0x1FF
  function Index(va: nat, lvl: nat): (i: nat)
    requires 1 <= lvl <= 4
    ensures i < ENTRIES
  {
    (va / Span(lvl)) % 512
  }

  function PathOf(va: nat): Path {
    [Index(va, 4), Index(va, 3), Index(va, 2), Index(va, 1)]
  }

  function VaOf(v: Path): nat
    requires IsPage(v)
  {
    v[0] * 0x80_0000_0000 + v[1] * 0x4000_0000 + v[2] * 0x20_0000 + v[3] * 0x1000
  }

  // Each level's quotient is the next one divided by 512.
  lemma Quotients(va: nat)
    ensures va / 0x20_0000 == (va / 0x1000) / 512
    ensures va / 0x4000_0000 == (va / 0x20_0000) / 512
    ensures va / 0x80_0000_0000 == (va / 0x4000_0000) / 512
  {
  }

  lemma PathOfPage(va: nat)
    requires va < USER_TOP
    ensures IsPage(PathOf(va)) && VaOf(PathOf(va)) == va / 0x1000 * 0x1000
  {
    Quotients(va);
    var a1, a2, a3, a4 := va / 0x1000, va / 0x20_0000, va / 0x4000_0000, va / 0x80_0000_0000;
    assert a4 < 256;
    assert PathOf(va) == [a4 % 512, a3 % 512, a2 % 512, a1 % 512];
  }

  /** Index paths and page numbers of the lower half correspond one to one. */
  lemma PathsArePages(va: nat, wa: nat)
    requires va < USER_TOP && wa < USER_TOP
    ensures PathOf(va) == PathOf(wa) <==> va / PAGE_SIZE == wa / PAGE_SIZE
  {
    hide Index, VaOf;
    PathOfPage(va);
    PathOfPage(wa);
    if va / PAGE_SIZE == wa / PAGE_SIZE { PathByPage(va); PathByPage(wa); }
  }

  // The path depends on the page number only.
  lemma PathByPage(va: nat)
    ensures PathOf(va) == PathOf(va / 0x1000 * 0x1000)
  {
    var wa := va / 0x1000 * 0x1000;
    assert wa / 0x1000 == va / 0x1000;
    Quotients(va);
    Quotients(wa);
  }

  lemma PageOfPath(v: Path)
    requires IsPage(v)
    ensures VaOf(v) < USER_TOP && PathOf(VaOf(v)) == v
  {
    var va := VaOf(v);
    var a4 := v[0];
    var a3 := a4 * 512 + v[1];
    var a2 := a3 * 512 + v[2];
    var a1 := a2 * 512 + v[3];
    assert va == a1 * 0x1000;
    Quotients(va);
    assert va / 0x1000 == a1 && a1 / 512 == a2 && a2 / 512 == a3 && a3 / 512 == a4;
  }

  // ---- trees, one step at a time ------------------------------------------------------------

  // Following entry `i` of table `p` leads where the tree says.
  lemma Descend(mem: Mem, root: nat, tree: Tree, p: Path, i: nat)
    requires TreeOk(mem, root, tree) && p in tree && |p| < 4 && i < Width(p)
    ensures IsTable(mem, tree[p])
    ensures Links(|p|, mem[tree[p]].e[i]) <==> p + [i] in tree
    ensures p + [i] in tree ==> tree[p + [i]] == mem[tree[p]].e[i].frame
    ensures p == [] && mem[tree[p]].e[i].p ==> !mem[tree[p]].e[i].flags.ps
  {
    assert TableOk(mem, tree, p);
  }

  // A huge page on the way to `v`, which the walk does not enter.
  ghost predicate HugeOnPath(vm: Vm, r: nat, v: Path)
    requires r in vm.spaces && |v| == 4
  {
    exists k :: 1 <= k <= 2 && HugeAt(vm, r, v, k)
  }

  ghost predicate HugeAt(vm: Vm, r: nat, v: Path, k: nat)
    requires r in vm.spaces && |v| == 4 && k < 4
  {
    && v[..k] in vm.spaces[r] && IsTable(vm.mem, vm.spaces[r][v[..k]]) && v[k] < ENTRIES
    && vm.mem[vm.spaces[r][v[..k]]].e[v[k]].p && vm.mem[vm.spaces[r][v[..k]]].e[v[k]].flags.ps
  }

  lemma HugeMeans(vm: Vm, r: nat, v: Path)
    requires r in vm.spaces && |v| == 4 && HugeOnPath(vm, r, v)
    ensures !NoHuge(vm, r)
  {
    var k :| 1 <= k <= 2 && HugeAt(vm, r, v, k);
    assert !NoHugeIn(vm.mem[vm.spaces[r][v[..k]]].e);
  }

  // The tables needed to map `va`.
  ghost function TablesOf(va: nat): set<Path> { Prefixes(PathOf(va), 3) }

  /** Whether `va` can be reached, creating tables: no huge page is in the way, and there is a free page for every
      table that is missing. */
  ghost predicate Affords(vm: Vm, r: nat, va: nat)
    requires r in vm.spaces
  {
    !HugeOnPath(vm, r, PathOf(va)) && Cost(vm, r, TablesOf(va), 0) <= |vm.free|
  }

  // The walk to page `v` has passed level k, and paid for the tables so far.
  ghost predicate OnTheWay(start: Vm, now: Vm, r: nat, v: Path, k: nat) {
    && r in start.spaces && r in now.spaces && |v| == 4 && k <= 3
    && Built(start, now, r, Prefixes(v, k), 0)
    && (NoHuge(start, r) ==> NoHuge(now, r))
    && (HugeOnPath(now, r, v) <==> HugeOnPath(start, r, v))
  }

  lemma WayStart(start: Vm, r: nat, v: Path)
    requires r in start.spaces && |v| == 4
    ensures OnTheWay(start, start, r, v, 0)
  {
    hide NoHuge, HugeOnPath, DropLowest, TableKeys;
    NoTables(start, r, 0);
    DropNone(start.free);
  }

  lemma WayThere(start: Vm, now: Vm, r: nat, v: Path, k: nat)
    requires OnTheWay(start, now, r, v, k) && k < 3 && v[..k + 1] in now.spaces[r]
    ensures OnTheWay(start, now, r, v, k + 1)
  {
    hide NoHuge, HugeOnPath, Built;
    BuiltThere(now, r, v[..k + 1]);
    BuiltTrans(start, now, now, r, Prefixes(v, k), 0, {v[..k + 1]}, 0);
  }

  // Nothing is free and a table is missing: the start could not afford the way.
  lemma WayShort(start: Vm, now: Vm, r: nat, v: Path, k: nat)
    requires OnTheWay(start, now, r, v, k) && k < 3 && v[..k + 1] !in now.spaces[r] && now.free == {}
    ensures |start.free| < Cost(start, r, Prefixes(v, 3), 0)
  {
    hide NoHuge, HugeOnPath, DropLowest, Cost, TableKeys;
    var q := v[..k + 1];
    DropSize(start.free, Cost(start, r, Prefixes(v, k), 0));
    CostSplit(start, now, r, Prefixes(v, k), 0, {q}, 0);
    MissingTable(now, r, q);
    assert Prefixes(v, k + 1) == Prefixes(v, k) + {q};
    PrefixesGrow(v, k + 1);
    CostGrows(start, r, Prefixes(v, k + 1), 0, Prefixes(v, 3), 0);
    assert Prefixes(v, k + 1) + Prefixes(v, 3) == Prefixes(v, 3);
  }

  lemma MissingTable(vm: Vm, r: nat, q: Path)
    requires r in vm.spaces && q !in vm.spaces[r]
    ensures Cost(vm, r, {q}, 0) == 1
  {
    assert {q} - TableKeys(vm.spaces[r]) == {q};
  }

  lemma PrefixesGrow(v: Path, k: nat)
    requires |v| == 4 && k <= 3
    ensures Prefixes(v, k) <= Prefixes(v, 3)
  {
    assert Prefixes(v, 3) == Prefixes(v, 2) + {v[..3]} && Prefixes(v, 2) == Prefixes(v, 1) + {v[..2]};
  }

  lemma WayFails(start: Vm, now: Vm, r: nat, va: nat, k: nat)
    requires OnTheWay(start, now, r, PathOf(va), k) && k < 3 && PathOf(va)[..k + 1] !in now.spaces[r]
    requires now.free == {} || HugeOnPath(now, r, PathOf(va))
    ensures !Affords(start, r, va) && (NoHuge(start, r) ==> NoHuge(now, r))
  {
    hide Built, HugeOnPath, Cost, NoHuge;
    if now.free == {} { WayShort(start, now, r, PathOf(va), k); }
  }

  lemma HugeFound(vm: Vm, r: nat, v: Path, k: nat)
    requires r in vm.spaces && |v| == 4 && 1 <= k <= 2 && v[..k] in vm.spaces[r]
    requires IsTable(vm.mem, vm.spaces[r][v[..k]]) && v[k] < ENTRIES
    requires vm.mem[vm.spaces[r][v[..k]]].e[v[k]].p && vm.mem[vm.spaces[r][v[..k]]].e[v[k]].flags.ps
    ensures HugeOnPath(vm, r, v)
  {
    assert HugeAt(vm, r, v, k);
  }

  lemma HugeBlocks(vm: Vm, r: nat, v: Path)
    requires Ok(vm) && r in vm.spaces && IsPage(v) && HugeOnPath(vm, r, v)
    ensures v[..3] !in vm.spaces[r]
  {
    hide Ok;
    var k :| 1 <= k <= 2 && HugeAt(vm, r, v, k);
    assert v[..k + 1] == v[..k] + [v[k]];
    SpaceDescend(vm, r, v[..k], v[k]);
    SpacePrefixMissing(vm, r, v, k + 1);
  }

  // At the last table there was no huge page in the way.
  lemma WayDone(start: Vm, now: Vm, r: nat, va: nat)
    requires va < USER_TOP && OnTheWay(start, now, r, PathOf(va), 3) && Ok(now) && PathOf(va)[..3] in now.spaces[r]
    ensures Built(start, now, r, TablesOf(va), 0) && Affords(start, r, va) && (NoHuge(start, r) ==> NoHuge(now, r))
  {
    hide NoHuge, DropLowest, TableKeys, Cost, HugeOnPath, Ok;
    PathOfPage(va);
    if HugeOnPath(now, r, PathOf(va)) {
      HugeBlocks(now, r, PathOf(va));
      assert false;
    }
  }

  // The entries every space has in common: the kernel's half of the root table.
  ghost predicate SharesUpperHalf(a: Page, b: Page) {
    && a.Table? && b.Table? && |a.e| == |b.e| == ENTRIES
    && forall i :: USER_ENTRIES <= i < ENTRIES ==> a.e[i] == b.e[i]
  }

  // A zeroed root table with the upper half copied from `src`.
  method RootSharing(src: Page) returns (page: Page)
    requires src.Table? && |src.e| == ENTRIES
    ensures SharesUpperHalf(page, src) && forall i :: 0 <= i < USER_ENTRIES ==> page.e[i] == NO_PTE
  {
    page := ZeroTable();
    for i := USER_ENTRIES to ENTRIES
      invariant page.Table? && |page.e| == ENTRIES
      invariant forall k :: 0 <= k < USER_ENTRIES ==> page.e[k] == NO_PTE
      invariant forall k :: USER_ENTRIES <= k < i ==> page.e[k] == src.e[k]
    {
      page := Table(page.e[i := src.e[i]]);
    }
  }

  // The upper half of a root links only to frames in `half`.
  ghost predicate LinksInto(page: Page, half: set<nat>) {
    page.Table? && |page.e| == ENTRIES &&
      forall i :: USER_ENTRIES <= i < ENTRIES && page.e[i].p ==> page.e[i].frame in half
  }

  // Every space has the kernel's upper half.
  ghost predicate SharedHalf(mem: Mem, spaces: map<nat, Tree>, ks: nat, half: set<nat>) {
    && ks in mem && LinksInto(mem[ks], half)
    && forall r :: r in spaces ==> r in mem && SharesUpperHalf(mem[r], mem[ks])
  }

  lemma SharedKept(a: Vm, b: Vm, ks: nat)
    requires SharedHalf(a.mem, a.spaces, ks, a.half) && ks in b.spaces && b.half == a.half
    requires forall r :: r in b.spaces ==>
      r in a.spaces && r in b.mem && r in a.mem && SharesUpperHalf(b.mem[r], a.mem[r])
    ensures SharedHalf(b.mem, b.spaces, ks, b.half)
  {
    hide SharesUpperHalf, LinksInto;
    LinksSame(a.mem[ks], b.mem[ks], a.half);
    forall r | r in b.spaces ensures SharesUpperHalf(b.mem[r], b.mem[ks]) {
      SharesTrans(b.mem[r], a.mem[r], a.mem[ks], b.mem[ks]);
    }
  }

  lemma LinksSame(k: Page, l: Page, half: set<nat>)
    requires LinksInto(k, half) && SharesUpperHalf(l, k)
    ensures LinksInto(l, half)
  {
  }

  // A new root that shares, and one space less.
  lemma SharedNewRoot(mem: Mem, spaces: map<nat, Tree>, ks: nat, half: set<nat>, np: nat, page: Page)
    requires SharedHalf(mem, spaces, ks, half) && np != ks && ks in spaces && SharesUpperHalf(page, mem[ks])
    ensures SharedHalf(mem[np := page], spaces[np := RootOnly(np)], ks, half)
  {
  }

  lemma SharedDrop(mem: Mem, spaces: map<nat, Tree>, ks: nat, half: set<nat>, r: nat)
    requires SharedHalf(mem, spaces, ks, half)
    ensures SharedHalf(mem, spaces - {r}, ks, half)
  {
  }

  lemma HalfNotFree(vm: Vm)
    requires Ok(vm)
    ensures vm.half !! vm.free
  {
    hide TreeOk;
  }

  lemma KernelLinks(mem: Mem, spaces: map<nat, Tree>, ks: nat, half: set<nat>)
    requires SharedHalf(mem, spaces, ks, half)
    ensures ks in mem && LinksInto(mem[ks], half)
  {
  }

  lemma SharesTrans(b: Page, a: Page, k: Page, l: Page)
    requires SharesUpperHalf(b, a) && SharesUpperHalf(a, k) && SharesUpperHalf(l, k)
    ensures SharesUpperHalf(b, l)
  {
  }

  // A root is no other table.
  lemma RootApart(vm: Vm, r: nat, p: Path, s: nat)
    requires Ok(vm) && r in vm.spaces && p in vm.spaces[r] && s in vm.spaces && vm.spaces[r][p] == s
    ensures r == s && p == []
  {
    hide TableOk, PathOk, Links;
    PagesHas(vm.spaces[r], p);
    PagesHas(vm.spaces[s], []);
    hide Pages;
  }

  lemma SharedAddTable(vm: Vm, ks: nat, r: nat, p: Path, i: nat, np: nat)
    requires Ok(vm) && ks in vm.spaces && SharedHalf(vm.mem, vm.spaces, ks, vm.half)
    requires r in vm.spaces && p in vm.spaces[r]
    requires IsTable(vm.mem, vm.spaces[r][p])
    requires i < Width(p) && np in vm.free
    ensures var b := AddTable(vm, r, p, i, np); SharedHalf(b.mem, b.spaces, ks, b.half)
  {
    hide TreeOk, Pages;
    var b := AddTable(vm, r, p, i, np);
    forall s | s in vm.spaces ensures s in b.mem && SharesUpperHalf(b.mem[s], vm.mem[s]) {
      RootNotFree(vm, s);
      if vm.spaces[r][p] == s { RootApart(vm, r, p, s); }
    }
    SharedKept(vm, b, ks);
  }

  lemma RootNotFree(vm: Vm, r: nat)
    requires Ok(vm) && r in vm.spaces
    ensures r !in vm.free
  {
    RootOwned(vm.mem, r, vm.spaces[r]);
  }

  lemma SharedSetLeaf(vm: Vm, ks: nat, r: nat, v: Path, e: Pte)
    requires Ok(vm) && ks in vm.spaces && SharedHalf(vm.mem, vm.spaces, ks, vm.half) && r in vm.spaces && |v| == 4
    requires Parent(v) in vm.spaces[r]
    requires IsTable(vm.mem, vm.spaces[r][Parent(v)]) && Last(v) < ENTRIES
    ensures var b := SetLeaf(vm, r, v, e); SharedHalf(b.mem, b.spaces, ks, b.half)
  {
    hide TreeOk, Pages;
    var b := SetLeaf(vm, r, v, e);
    forall s | s in vm.spaces ensures s in b.mem && SharesUpperHalf(b.mem[s], vm.mem[s]) {
      if vm.spaces[r][Parent(v)] == s { RootApart(vm, r, Parent(v), s); }
    }
    SharedKept(vm, b, ks);
  }

  lemma SharedData(vm: Vm, ks: nat, f: nat, b: seq<Byte>)
    requires Ok(vm) && ks in vm.spaces && SharedHalf(vm.mem, vm.spaces, ks, vm.half)
    requires f in vm.free || NotTable(vm, f)
    ensures SharedHalf(vm.mem[f := Data(b)], vm.spaces, ks, vm.half)
  {
    hide Pages;
    forall s | s in vm.spaces ensures s != f {
      RootNotFree(vm, s);
      assert [] in vm.spaces[s] && vm.spaces[s][[]] == s;
    }
    hide TreeOk, Ok, NotTable;
    SharedKept(vm, vm.(mem := vm.mem[f := Data(b)]), ks);
  }

  ghost predicate InRange(vm: Vm) {
    && (forall f :: f in vm.free ==> 0 < f < BITMAP_PAGES)
    && (forall r, f :: r in vm.spaces && f in Pages(vm.spaces[r]) ==> 0 < f < BITMAP_PAGES)
  }

  class AddressSpaceManager {
    const pmm: Allocator
    const kernelSpace: nat
    ghost const half: set<nat>          // the frames of the kernel's upper half
    var mem: Mem
    ghost var spaces: map<nat, Tree>

    ghost function State(): Vm
      reads this, pmm`free
    {
      Vm(mem, spaces, pmm.free, half)
    }

    ghost predicate Valid()
      reads this, pmm`free, pmm`freePages, pmm.bitmap
    {
      && pmm.Valid() && 0 !in pmm.free
      && Ok(State()) && InRange(State())
      && kernelSpace in spaces && SharedHalf(mem, spaces, kernelSpace, half)
    }

    /** The kernel's own space: an empty lower half, the boot loader's upper half. */
    constructor (p: Allocator, memory: Mem, boot: Page, ghost upper: set<nat>)
      requires p.Valid() && p.free != {} && 0 !in p.free && LinksInto(boot, upper) && upper !! p.free
      modifies p`free, p`freePages, p.bitmap
      ensures Valid() && pmm == p && half == upper
      ensures spaces == map[kernelSpace := RootOnly(kernelSpace)]
      ensures FlatOf(State(), kernelSpace) == map[] && SharesUpperHalf(mem[kernelSpace], boot)
      ensures p.free == old(p.free) - {kernelSpace} && kernelSpace in old(p.free)
    {
      var nl4 := p.AllocPage();
      var page := RootSharing(boot);
      pmm, kernelSpace, half := p, nl4, upper;
      mem := memory[nl4 := page];
      spaces := map[nl4 := RootOnly(nl4)];
      new;
      assert p.BitmapOk();
      LinksSame(boot, page, upper);
      var empty := Vm(memory, map[], old(p.free), upper);
      NewRootOk(empty, nl4, page);
      assert NewRoot(empty, nl4, page) == State();
    }

    // Fills in the missing table below entry `idx` of table `t`, on the way to page `v`; 0 if no page is free.
    method NewTable(space: nat, t: nat, idx: nat, ghost p: Path, ghost v: Path, ghost start: Vm) returns (np: nat)
      requires Valid() && space in spaces && p in spaces[space] && spaces[space][p] == t && |p| < 3 && idx < Width(p)
      requires IsTable(mem, t) && !mem[t].e[idx].p && p + [idx] !in spaces[space]
      requires IsPage(v) && v[..|p|] == p && v[|p|] == idx
      requires Grown(start, State(), space) && OnTheWay(start, State(), space, v, |p|)
      modifies this`mem, this`spaces, pmm`free, pmm`freePages, pmm.bitmap
      ensures Valid() && space in spaces
      ensures np == 0 ==> State() == old(State()) && pmm.free == {}
      ensures np != 0 ==> p + [idx] in spaces[space] && spaces[space][p + [idx]] == np
      ensures np != 0 ==> Grown(start, State(), space) && OnTheWay(start, State(), space, v, |p| + 1)
    {
      hide Ok, Grown, TreeOk, InRange, SharedHalf, Pmm.Allocator.Valid, OnTheWay;
      ghost var s0 := State();
      np := pmm.AllocPage();
      if np == 0 { return; }
      AddTableStep(start, s0, kernelSpace, space, p, idx, np, v);
      mem := mem[np := ZeroTable()];
      var e := Pte(true, np, TABLE_FLAGS);
      mem := WithEntry(mem, t, idx, e);
      spaces := spaces[space := Relinked(spaces[space], p, idx, e)];
      assert State() == AddTable(s0, space, p, idx, np);
    }

    /** Walks to the last-level table of `va`, filling in missing tables when `create` is set.
        No translation of any space changes; it fails only for want of a page or at a huge page. */
    method Walk(space: nat, va: nat, create: bool) returns (tbl: Option<nat>)
      requires Valid() && space in spaces && va < USER_TOP
      modifies this`mem, this`spaces, pmm`free, pmm`freePages, pmm.bitmap
      ensures Valid() && space in spaces && Grown(old(State()), State(), space)
      ensures !create ==> State() == old(State())
      ensures tbl.Some? <==> PathOf(va)[..3] in spaces[space]
      ensures tbl.Some? ==> spaces[space][PathOf(va)[..3]] == tbl.value
      ensures tbl.None? && create ==> pmm.free == {} || HugeOnPath(State(), space, PathOf(va))
      ensures create ==> (tbl.Some? <==> Affords(old(State()), space, va))
      ensures tbl.Some? ==> Built(old(State()), State(), space, TablesOf(va), 0)
      ensures NoHuge(old(State()), space) ==> NoHuge(State(), space)
    {
      hide Ok, Grown, TreeOk, InRange, SharedHalf, Pmm.Allocator.Valid, OnTheWay, Affords, Built, NoHuge;
      hide HugeOnPath, TablesOf, DropLowest, Prefixes, NoHugeIn;
      ghost var start := State();
      ghost var v := PathOf(va);
      PathOfPage(va);
      GrownRefl(start, space);
      WayStart(start, space, v);
      var t, lvl := space, 4;
      assert v[..0] == [];
      RootInTree(State(), space);
      while lvl > 1
        invariant 1 <= lvl <= 4 && Valid() && space in spaces && Grown(start, State(), space)
        invariant v[..4 - lvl] in spaces[space] && spaces[space][v[..4 - lvl]] == t
        invariant !create ==> State() == start
        invariant OnTheWay(start, State(), space, v, 4 - lvl)
      {
        ghost var p := v[..4 - lvl];
        var idx := Index(va, lvl);
        assert v[..5 - lvl] == p + [idx];
        SpaceDescend(State(), space, p, idx);
        var e := mem[t].e[idx];
        if !e.p {
          if !create {
            SpacePrefixMissing(State(), space, v, 5 - lvl);
            return None;
          }
          var np := NewTable(space, t, idx, p, v, start);
          if np == 0 {
            SpacePrefixMissing(State(), space, v, 5 - lvl);
            WayFails(start, State(), space, va, 4 - lvl);
            return None;
          }
          e := Pte(true, np, TABLE_FLAGS);
        } else if e.flags.ps && lvl > 1 {
          HugeFound(State(), space, v, 4 - lvl);
          SpacePrefixMissing(State(), space, v, 5 - lvl);
          WayFails(start, State(), space, va, 4 - lvl);
          return None;
        } else {
          WayThere(start, State(), space, v, 4 - lvl);
        }
        t := e.frame;
        lvl := lvl - 1;
      }
      WayDone(start, State(), space, va);
      return Some(t);
    }

    /** Maps page `va` to frame `f`: one key of one flat map changes. On failure no translation
        changes at all. A frame that was mapped there before ends up owned by nobody. */
    method Map(space: nat, va: nat, f: nat, flags: Flags) returns (ok: bool)
      requires Valid() && space in spaces && va < USER_TOP
      requires Unowned(State(), f) && 0 < f < BITMAP_PAGES
      modifies this`mem, this`spaces, pmm`free, pmm`freePages, pmm.bitmap
      ensures Valid() && space in spaces
      ensures ok ==> Mapped(old(State()), State(), space, PathOf(va), Pte(true, f, flags))
      ensures !ok ==> Grown(old(State()), State(), space)
      ensures !ok ==> pmm.free == {} || HugeOnPath(State(), space, PathOf(va))
      ensures ok <==> Affords(old(State()), space, va)
      ensures Paid(old(State()), State(), space, TablesOf(va), 0, ok)
    {
      hide Ok, Grown, Mapped, InRange, SharedHalf, Pmm.Allocator.Valid, Unowned, NoHuge, HugeOnPath;
      hide Built, Cost, TablesOf;
      ghost var start, v := State(), PathOf(va);
      PathOfPage(va);
      var pt := Walk(space, va, true);
      ghost var s1 := State();
      if HugeOnPath(start, space, v) { HugeMeans(start, space, v); }
      if HugeOnPath(s1, space, v) { HugeMeans(s1, space, v); }
      if pt.None? { return false; }
      assert Parent(v) == v[..3];
      GrownThenMapped(start, s1, space, v, Pte(true, f, flags));
      MappedInRange(start, SetLeaf(s1, space, v, Pte(true, f, flags)), space, v, Pte(true, f, flags));
      PaidLeaf(s1, space, v, Pte(true, f, flags));
      SharedSetLeaf(s1, kernelSpace, space, v, Pte(true, f, flags));
      PaidThen(start, s1, SetLeaf(s1, space, v, Pte(true, f, flags)), space, TablesOf(va), 0, {}, 0, true);
      assert TablesOf(va) + {} == TablesOf(va);
      mem := WithEntry(mem, pt.value, Index(va, 1), Pte(true, f, flags));
      spaces := SetLeaf(s1, space, v, Pte(true, f, flags)).spaces;
      return true;
    }

    /** Removes one key of one flat map, if it is there. */
    method Unmap(space: nat, va: nat) returns (ok: bool)
      requires Valid() && space in spaces && va < USER_TOP
      modifies this`mem, this`spaces, pmm`free, pmm`freePages, pmm.bitmap
      ensures Valid() && space in spaces && pmm.free == old(pmm.free)
      ensures ok <==> PathOf(va) in old(FlatOf(State(), space))
      ensures OthersKept(old(State()), State(), space)
      ensures FlatOf(State(), space) == old(FlatOf(State(), space)) - {PathOf(va)}
    {
      hide Ok, Grown, OthersKept, InRange, SharedHalf, Pmm.Allocator.Valid, Built, NoHuge, Affords, HugeOnPath;
      ghost var start, v := State(), PathOf(va);
      PathOfPage(va);
      var pt := Walk(space, va, false);
      GrownKeeps(start, State(), space);
      assert Parent(v) == v[..3] && v == v[..3] + [v[3]];
      if pt.None? { UnreachedPage(start, space, v); return false; }
      SpaceDescend(start, space, v[..3], v[3]);
      var e := mem[pt.value].e[Index(va, 1)];
      assert e.p <==> v in FlatOf(start, space);
      if !e.p { return false; }
      SetLeafOk(start, space, v, NO_PTE);
      SharedSetLeaf(start, kernelSpace, space, v, NO_PTE);
      UnmapInRange(start, space, v);
      mem := WithEntry(mem, pt.value, Index(va, 1), NO_PTE);
      spaces := SetLeaf(start, space, v, NO_PTE).spaces;
      return true;
    }

    /** The address `va` translates to, page offset included; 0 when it is not mapped. */
    method Translate(space: nat, va: nat) returns (pa: nat)
      requires Valid() && space in spaces && va < USER_TOP
      modifies this`mem, this`spaces, pmm`free, pmm`freePages, pmm.bitmap
      ensures Valid() && State() == old(State())
      ensures pa == Translation(FlatOf(State(), space), va)
    {
      hide Ok, Grown, InRange, SharedHalf, Pmm.Allocator.Valid;
      ghost var v := PathOf(va);
      PathOfPage(va);
      var pt := Walk(space, va, false);
      assert v == v[..3] + [v[3]];
      if pt.None? { UnreachedPage(State(), space, v); return 0; }
      SpaceDescend(State(), space, v[..3], v[3]);
      assert Parent(v) == v[..3];
      var e := mem[pt.value].e[Index(va, 1)];
      if !e.p { return 0; }
      return e.frame * PAGE_SIZE + va % PAGE_SIZE;
    }

    /** A new space: it maps nothing, shares the kernel's upper half, and costs one page. */
    method NewSpace() returns (space: nat)
      requires Valid()
      modifies this`mem, this`spaces, pmm`free, pmm`freePages, pmm.bitmap
      ensures Valid()
      ensures space == 0 <==> old(pmm.free) == {}
      ensures space == 0 ==> State() == old(State())
      ensures space != 0 ==> Created(old(State()), State(), space)
      ensures space != 0 ==> space in mem && kernelSpace in mem && SharesUpperHalf(mem[space], mem[kernelSpace])
      ensures space != 0 ==> space in spaces && NoHuge(State(), space) && pmm.free == DropLowest(old(pmm.free), 1)
      ensures space != 0 ==> TableKeys(spaces[space]) == {[]}
    {
      hide Ok, InRange, SharedHalf, Pmm.Allocator.Valid, Created, DropLowest;
      ghost var start := State();
      space := pmm.AllocPage();
      if space == 0 { return 0; }
      DropOne(start.free, space);
      assert TableKeys(RootOnly(space)) == {[]};
      SpaceRoot(start, kernelSpace, space);
      var page := RootSharing(mem[kernelSpace]);
      NewRootOk(start, space, page);
      NewRootInRange(start, space, page);
      RootNotFree(start, kernelSpace);
      SharedNewRoot(mem, spaces, kernelSpace, half, space, page);
      mem := mem[space := page];
      spaces := spaces[space := RootOnly(space)];
      assert State() == NewRoot(start, space, page);
    }

    // free_page of a frame that is in use.
    method FreeFrame(f: nat)
      requires pmm.Valid() && f < BITMAP_PAGES && f !in pmm.free
      modifies pmm`free, pmm`freePages, pmm`badFrees, pmm.bitmap
      ensures pmm.Valid() && pmm.free == old(pmm.free) + {f} && pmm.badFrees == old(pmm.badFrees)
    {
      hide Pmm.Allocator.Valid;
      pmm.FreePage(f * PAGE_SIZE);
    }

    // Frees every page strictly below table `path`, as the nested loops of destroy_space do.
    method FreeBelow(space: nat, ghost path: Path, t: nat, depth: nat)
      requires pmm.Valid() && space in spaces && TreeOk(mem, space, spaces[space])
      requires path in spaces[space] && spaces[space][path] == t && |path| == depth < 4
      requires Below(spaces[space], path) !! pmm.free
      requires forall f :: f in Pages(spaces[space]) ==> f < BITMAP_PAGES
      modifies pmm`free, pmm`freePages, pmm`badFrees, pmm.bitmap
      ensures pmm.Valid() && pmm.free == old(pmm.free) + Below(spaces[space], path)
      ensures pmm.badFrees == old(pmm.badFrees)
      decreases 4 - depth
    {
      hide Pmm.Allocator.Valid, TreeOk, Below, BelowUpTo, Pages;
      ghost var tree := spaces[space];
      TableAt(mem, space, tree, path);
      BelowNone(tree, path);
      var n := if depth == 0 then USER_ENTRIES else ENTRIES;
      for i := 0 to n
        invariant pmm.Valid() && pmm.badFrees == old(pmm.badFrees)
        invariant pmm.free == old(pmm.free) + BelowUpTo(tree, path, i)
      {
        var e := mem[t].e[i];
        Descend(mem, space, tree, path, i);
        BelowStep(mem, space, tree, path, i);
        if !e.p || (e.flags.ps && (depth == 1 || depth == 2)) {
          continue;
        }
        PagesHas(tree, path + [i]);
        if depth < 3 {
          FreeBelow(space, path + [i], e.frame, depth + 1);
        } else {
          LeavesHaveNothingBelow(mem, space, tree, path + [i]);
        }
        FreeFrame(e.frame);
      }
      BelowAll(mem, space, tree, path);
    }

    /** Frees every page the space owns, each exactly once and none wrongly, and no other page;
        the tables and translations of all other spaces are untouched. */
    method DestroySpace(space: nat)
      requires Valid() && space in spaces && space != kernelSpace
      modifies this`spaces, pmm`free, pmm`freePages, pmm`badFrees, pmm.bitmap
      ensures Valid() && Dropped(old(State()), State(), space)
      ensures half !! pmm.free && kernelSpace in mem && LinksInto(mem[kernelSpace], half)
      ensures pmm.badFrees == old(pmm.badFrees)
    {
      hide Ok, InRange, SharedHalf, Pmm.Allocator.Valid, TreeOk, Pages, Below, Dropped;
      ghost var start := State();
      SpaceParts(start, space);
      FreeBelow(space, [], space, 0);
      FreeFrame(space);
      SharedDrop(mem, spaces, kernelSpace, half, space);
      KernelLinks(mem, spaces, kernelSpace, half);
      spaces := spaces - {space};
      HalfNotFree(DropSpace(start, space));
      assert State() == DropSpace(start, space);
    }
  }

  function Translation(flat: map<Path, Pte>, va: nat): nat {
    if PathOf(va) in flat then flat[PathOf(va)].frame * PAGE_SIZE + va % PAGE_SIZE else 0
  }

  lemma GrownKeeps(a: Vm, b: Vm, r: nat)
    requires Grown(a, b, r) && a == b
    ensures OthersKept(a, b, r)
  {
  }

  lemma UnreachedPage(vm: Vm, r: nat, v: Path)
    requires Ok(vm) && r in vm.spaces && |v| == 4 && v[..3] !in vm.spaces[r]
    ensures v !in FlatOf(vm, r)
    ensures FlatOf(vm, r) == FlatOf(vm, r) - {v}
  {
    hide TreeOk, LeafAt;
    PrefixMissing(vm.mem, r, vm.spaces[r], v, 3);
  }

  lemma MappedInRange(a: Vm, b: Vm, r: nat, v: Path, e: Pte)
    requires Mapped(a, b, r, v, e) && InRange(a) && 0 < e.frame < BITMAP_PAGES
    ensures InRange(b)
  {
    hide Pages, Released, FlatOf;
  }

  lemma UnmapInRange(vm: Vm, r: nat, v: Path)
    requires Ok(vm) && InRange(vm) && r in vm.spaces && IsPage(v) && Parent(v) in vm.spaces[r]
    ensures IsTable(vm.mem, vm.spaces[r][Parent(v)])
    ensures InRange(SetLeaf(vm, r, v, NO_PTE))
  {
    hide Ok, Pages, LeafFrame;
    SetLeafOk(vm, r, v, NO_PTE);
  }

  // ---- what lies below a table --------------------------------------------------------------

  ghost predicate Under(p: Path, q: Path) { |q| > |p| && q[..|p|] == p }

  ghost function Below(tree: Tree, p: Path): set<nat> {
    set q | q in tree && Under(p, q) :: tree[q]
  }

  // The part of Below reached through the first `i` entries.
  ghost function BelowUpTo(tree: Tree, p: Path, i: nat): set<nat> {
    set q | q in tree && Under(p, q) && q[|p|] < i :: tree[q]
  }

  lemma BelowNone(tree: Tree, p: Path)
    ensures BelowUpTo(tree, p, 0) == {}
  {
  }

  lemma BelowAll(mem: Mem, root: nat, tree: Tree, p: Path)
    requires TreeOk(mem, root, tree) && p in tree && |p| < 4
    ensures BelowUpTo(tree, p, Width(p)) == Below(tree, p)
  {
    forall q | q in tree && Under(p, q) ensures q[|p|] < Width(p) { IndexInWidth(mem, root, tree, p, q); }
  }

  lemma {:induction false} IndexInWidth(mem: Mem, root: nat, tree: Tree, p: Path, q: Path)
    requires TreeOk(mem, root, tree) && q in tree && Under(p, q)
    ensures q[|p|] < Width(p)
    decreases |q|
  {
    assert PathOk(tree, q);
    if |q| > |p| + 1 {
      assert Parent(q)[..|p|] == p;
      IndexInWidth(mem, root, tree, p, Parent(q));
    } else {
      assert Parent(q) == p;
    }
  }

  /** One more entry adds its frame and what lies below it, all of it new. */
  lemma BelowStep(mem: Mem, root: nat, tree: Tree, p: Path, i: nat)
    requires TreeOk(mem, root, tree) && p in tree && |p| < 4 && i < Width(p)
    ensures p + [i] !in tree ==> BelowUpTo(tree, p, i + 1) == BelowUpTo(tree, p, i)
    ensures p + [i] in tree ==>
      && BelowUpTo(tree, p, i + 1) == BelowUpTo(tree, p, i) + Below(tree, p + [i]) + {tree[p + [i]]}
      && tree[p + [i]] !in BelowUpTo(tree, p, i) && tree[p + [i]] !in Below(tree, p + [i])
      && BelowUpTo(tree, p, i) !! Below(tree, p + [i])
    ensures BelowUpTo(tree, p, i + 1) <= Below(tree, p)
  {
    hide TableOk, PathOk;
    var c := p + [i];
    forall q | q in tree && Under(p, q) && q[|p|] == i ensures q == c || Under(c, q) {
      assert q[..|c|] == c;
    }
    forall q | q in tree && Under(c, q) ensures Under(p, q) && q[|p|] == i {
      assert q[..|p|] == c[..|p|] == p && q[|p|] == c[|p|];
    }
    if c !in tree {
      forall q | q in tree ensures !Under(c, q) {
        if Under(c, q) { PrefixMissing(mem, root, tree, q, |c|); assert false; }
      }
    }
  }

  lemma LeavesHaveNothingBelow(mem: Mem, root: nat, tree: Tree, v: Path)
    requires TreeOk(mem, root, tree) && |v| == 4
    ensures Below(tree, v) == {}
  {
    forall q | q in tree ensures |q| <= 4 { assert PathOk(tree, q); }
  }

  lemma RootBelow(mem: Mem, root: nat, tree: Tree)
    requires TreeOk(mem, root, tree)
    ensures Pages(tree) == Below(tree, []) + {root} && root !in Below(tree, [])
  {
    assert forall q :: q in tree && q != [] ==> Under([], q);
    PagesHas(tree, []);
  }

  lemma NewRootInRange(vm: Vm, np: nat, page: Page)
    requires Ok(vm) && InRange(vm) && np in vm.free
    requires page.Table? && |page.e| == ENTRIES && forall i :: 0 <= i < USER_ENTRIES ==> page.e[i] == NO_PTE
    ensures InRange(NewRoot(vm, np, page))
  {
    hide Ok, Pages;
    NewRootOk(vm, np, page);
  }

  lemma SpaceRoot(vm: Vm, r: nat, np: nat)
    requires Ok(vm) && r in vm.spaces && np in vm.free
    ensures IsTable(vm.mem, r) && np != r
  {
    RootOwned(vm.mem, r, vm.spaces[r]);
    TableAt(vm.mem, r, vm.spaces[r], []);
  }

  // What DestroySpace needs to know of the space, and what it leaves.
  lemma SpaceParts(vm: Vm, r: nat)
    requires Ok(vm) && InRange(vm) && r in vm.spaces
    ensures TreeOk(vm.mem, r, vm.spaces[r]) && [] in vm.spaces[r] && vm.spaces[r][[]] == r
    ensures Pages(vm.spaces[r]) == Below(vm.spaces[r], []) + {r} && r !in Below(vm.spaces[r], [])
    ensures Pages(vm.spaces[r]) !! vm.free && forall f :: f in Pages(vm.spaces[r]) ==> f < BITMAP_PAGES
    ensures r < BITMAP_PAGES && 0 !in DropSpace(vm, r).free
    ensures Ok(DropSpace(vm, r)) && Dropped(vm, DropSpace(vm, r), r) && InRange(DropSpace(vm, r))
  {
    RootBelow(vm.mem, r, vm.spaces[r]);
    DropSpaceOk(vm, r);
    hide Ok, TreeOk, Below, Pages;
  }

  lemma RootInTree(vm: Vm, r: nat)
    requires Ok(vm) && r in vm.spaces
    ensures [] in vm.spaces[r] && vm.spaces[r][[]] == r
  {
  }

  lemma SpaceDescend(vm: Vm, r: nat, p: Path, i: nat)
    requires Ok(vm) && r in vm.spaces && p in vm.spaces[r] && |p| < 4 && i < Width(p)
    ensures IsTable(vm.mem, vm.spaces[r][p])
    ensures Links(|p|, vm.mem[vm.spaces[r][p]].e[i]) <==> p + [i] in vm.spaces[r]
    ensures p + [i] in vm.spaces[r] ==> vm.spaces[r][p + [i]] == vm.mem[vm.spaces[r][p]].e[i].frame
    ensures p == [] && vm.mem[vm.spaces[r][p]].e[i].p ==> !vm.mem[vm.spaces[r][p]].e[i].flags.ps
  {
    Descend(vm.mem, r, vm.spaces[r], p, i);
  }

  lemma SpacePrefixMissing(vm: Vm, r: nat, v: Path, k: nat)
    requires Ok(vm) && r in vm.spaces && |v| == 4 && k <= 3 && v[..k] !in vm.spaces[r]
    ensures v[..3] !in vm.spaces[r]
  {
    assert v[..3][..k] == v[..k];
    PrefixMissing(vm.mem, r, vm.spaces[r], v[..3], k);
  }

  lemma AddTableGrows(start: Vm, vm: Vm, r: nat, p: Path, i: nat, np: nat)
    requires Ok(vm) && r in vm.spaces && p in vm.spaces[r] && |p| < 3 && i < Width(p)
    requires np in vm.free && InRange(vm)
    requires IsTable(vm.mem, vm.spaces[r][p]) && !vm.mem[vm.spaces[r][p]].e[i].p
    requires Grown(start, vm, r)
    ensures Ok(AddTable(vm, r, p, i, np)) && InRange(AddTable(vm, r, p, i, np))
    ensures Grown(start, AddTable(vm, r, p, i, np), r)
  {
    hide Ok, Pages;
    AddTableOk(vm, r, p, i, np);
    GrownTrans(start, vm, AddTable(vm, r, p, i, np), r);
  }

  lemma AddTableStep(start: Vm, vm: Vm, ks: nat, r: nat, p: Path, i: nat, np: nat, v: Path)
    requires Ok(vm) && r in vm.spaces && |p| < 3 && p in vm.spaces[r]
    requires np in vm.free && (forall y :: y in vm.free ==> np <= y) && InRange(vm)
    requires IsTable(vm.mem, vm.spaces[r][p]) && i < Width(p) && !vm.mem[vm.spaces[r][p]].e[i].p
    requires p + [i] !in vm.spaces[r] && IsPage(v) && v[..|p|] == p && v[|p|] == i
    requires Grown(start, vm, r) && ks in vm.spaces && SharedHalf(vm.mem, vm.spaces, ks, vm.half)
    requires OnTheWay(start, vm, r, v, |p|)
    ensures var b := AddTable(vm, r, p, i, np);
      && Ok(b) && InRange(b) && Grown(start, b, r) && SharedHalf(b.mem, b.spaces, ks, b.half)
      && OnTheWay(start, b, r, v, |p| + 1)
  {
    hide Ok, InRange, Grown, SharedHalf, AddTable, Built, NoHuge, HugeOnPath;
    AddTableGrows(start, vm, r, p, i, np);
    SharedAddTable(vm, ks, r, p, i, np);
    BuiltTable(vm, r, p, i, np);
    HugeTable(vm, r, p, i, np);
    HugeKept(vm, r, v, |p|, np);
    assert v[..|p| + 1] == p + [i];
    BuiltTrans(start, vm, AddTable(vm, r, p, i, np), r, Prefixes(v, |p|), 0, {p + [i]}, 0);
  }

  // A new table has no huge page, and adding it hides none.
  lemma HugeKept(vm: Vm, r: nat, v: Path, k: nat, np: nat)
    requires Ok(vm) && r in vm.spaces && IsPage(v) && k < 3 && v[..k] in vm.spaces[r] && np in vm.free
    requires IsTable(vm.mem, vm.spaces[r][v[..k]]) && !vm.mem[vm.spaces[r][v[..k]]].e[v[k]].p
    requires v[..k] + [v[k]] !in vm.spaces[r]
    ensures HugeOnPath(AddTable(vm, r, v[..k], v[k], np), r, v) <==> HugeOnPath(vm, r, v)
  {
    hide Ok;
    var b, t := AddTable(vm, r, v[..k], v[k], np), vm.spaces[r];
    assert v[..k + 1] == v[..k] + [v[k]];
    assert b.spaces[r] == t[v[..k + 1] := np];
    forall j | 1 <= j <= 2 && v[..j] in t ensures t[v[..j]] != np { FreeNotInTree(vm, r, v[..j], np); }
    forall j | 1 <= j <= 2 ensures HugeAt(b, r, v, j) <==> HugeAt(vm, r, v, j) {
      if j == k + 1 {
        assert b.spaces[r][v[..j]] == np;
      } else if v[..j] in t {
        assert v[..j] != v[..k + 1];
      }
    }
  }

  lemma FreeNotInTree(vm: Vm, r: nat, p: Path, np: nat)
    requires Ok(vm) && r in vm.spaces && p in vm.spaces[r] && np in vm.free
    ensures vm.spaces[r][p] != np
  {
    hide TreeOk;
    PagesHas(vm.spaces[r], p);
    hide Pages;
  }
}
