/**
 The bytes of a user address space: what the processor reads at a virtual address, and what
 writing physical pages through the direct map does to that view.
 */
module UserMemory {
  import opened Common
  import opened PageTable
  import opened AddressSpaces
  import opened Vmm

  function ByteOf(mem: Mem, f: nat, o: nat): Option<Byte> {
    if f in mem && mem[f].Data? && o < |mem[f].b| then Some(mem[f].b[o]) else None
  }

  /** The byte the processor finds at address `a` of space `r`. */
  ghost function VByte(vm: Vm, r: nat, a: nat): Option<Byte>
    requires r in vm.spaces
  {
    if PathOf(a) in FlatOf(vm, r) then ByteOf(vm.mem, FlatOf(vm, r)[PathOf(a)].frame, a % 4096) else None
  }

  predicate IsDataPage(mem: Mem, f: nat) {
    f in mem && mem[f].Data? && |mem[f].b| == 4096
  }

  // Every mapped page of the space holds bytes.
  ghost predicate AllData(vm: Vm, r: nat)
    requires r in vm.spaces
  {
    forall v :: v in FlatOf(vm, r) ==> IsPage(v) && IsDataPage(vm.mem, FlatOf(vm, r)[v].frame)
  }

  // Data pages in use that space `r` does not own keep their contents.
  ghost predicate OutsideKept(a: Vm, b: Vm, r: nat)
    requires r in a.spaces
  {
    forall f :: f in a.mem && a.mem[f].Data? && f !in a.free && f !in Pages(a.spaces[r]) ==>
      f in b.mem && b.mem[f] == a.mem[f]
  }

  // Nothing changed but, at most, the contents of data pages.
  ghost predicate SameMaps(a: Vm, b: Vm) {
    && b.spaces == a.spaces && b.free == a.free && b.half == a.half
    && forall s :: s in a.spaces ==> FlatOf(b, s) == FlatOf(a, s)
  }

  /** `src` was written at virtual address `dst` of space `r`, and nothing else was. */
  ghost predicate Wrote(a: Vm, b: Vm, r: nat, dst: nat, src: seq<Byte>) {
    && r in a.spaces && SameMaps(a, b) && OutsideKept(a, b, r)
    && (forall x :: 0 <= x < USER_TOP ==>
          VByte(b, r, x) == if dst <= x < dst + |src| then Some(src[x - dst]) else VByte(a, r, x))
    && (forall s, x :: s in a.spaces && s != r ==> VByte(b, s, x) == VByte(a, s, x))
  }

  lemma WroteNothing(a: Vm, r: nat, dst: nat)
    requires r in a.spaces
    ensures Wrote(a, a, r, dst, [])
  {
  }

  lemma WroteTrans(a: Vm, b: Vm, c: Vm, r: nat, dst: nat, s: seq<Byte>, t: seq<Byte>)
    requires Wrote(a, b, r, dst, s) && Wrote(b, c, r, dst + |s|, t)
    ensures Wrote(a, c, r, dst, s + t)
  {
    hide VByte, FlatOf, Pages;
  }

  lemma FlatFrame(vm: Vm, r: nat, v: Path)
    requires Ok(vm) && r in vm.spaces && v in FlatOf(vm, r)
    ensures IsPage(v) && v in vm.spaces[r] && FlatOf(vm, r)[v].frame == vm.spaces[r][v]
  {
    var tree := vm.spaces[r];
    LeafIsPage(vm.mem, r, tree, v);
    LeafFrameIsReleased(vm.mem, r, tree, v);
    hide TreeOk, LeafAt;
  }

  lemma LeafIsPage(mem: Mem, root: nat, tree: Tree, v: Path)
    requires TreeOk(mem, root, tree) && v in tree && |v| == 4
    ensures IsPage(v)
  {
    hide TableOk;
    assert PathOk(tree, v) && PathOk(tree, v[..3]) && PathOk(tree, v[..2]) && PathOk(tree, v[..1]) by {
      assert PathOk(tree, v) && Parent(v) == v[..3];
      assert PathOk(tree, v[..3]) && Parent(v[..3]) == v[..2];
      assert PathOk(tree, v[..2]) && Parent(v[..2]) == v[..1];
    }
  }

  // Distinct pages, of one space or of two, have distinct frames.
  lemma FramesDistinct(vm: Vm, r: nat, v: Path, s: nat, w: Path)
    requires Ok(vm) && r in vm.spaces && s in vm.spaces && v in FlatOf(vm, r) && w in FlatOf(vm, s)
    requires FlatOf(vm, r)[v].frame == FlatOf(vm, s)[w].frame
    ensures r == s && v == w
  {
    FlatFrame(vm, r, v);
    FlatFrame(vm, s, w);
    PagesHas(vm.spaces[r], v);
    PagesHas(vm.spaces[s], w);
    hide TableOk, PathOk, Pages, Flat;
  }

  lemma LeafNotTable(vm: Vm, r: nat, v: Path)
    requires Ok(vm) && r in vm.spaces && v in FlatOf(vm, r)
    ensures NotTable(vm, FlatOf(vm, r)[v].frame)
  {
    FlatFrame(vm, r, v);
    var f := vm.spaces[r][v];
    forall s, p | s in vm.spaces && p in vm.spaces[s] && |p| < 4 ensures vm.spaces[s][p] != f {
      PagesHas(vm.spaces[r], v);
      PagesHas(vm.spaces[s], p);
    }
  }

  // The page contents after `chunk` is copied to offset `o`.
  function Spliced(page: seq<Byte>, o: nat, chunk: seq<Byte>): (r: seq<Byte>)
    requires o + |chunk| <= |page|
    ensures |r| == |page|
    ensures forall k :: 0 <= k < |r| ==> r[k] == if o <= k < o + |chunk| then chunk[k - o] else page[k]
  {
    page[..o] + chunk + page[o + |chunk|..]
  }

  function WithBytes(vm: Vm, f: nat, o: nat, chunk: seq<Byte>): Vm
    requires IsDataPage(vm.mem, f) && o + |chunk| <= 4096
  {
    vm.(mem := vm.mem[f := Data(Spliced(vm.mem[f].b, o, chunk))])
  }

  /** A copy into one mapped page is a virtual write of that page only. */
  lemma PageWrite(vm: Vm, r: nat, dst: nat, chunk: seq<Byte>)
    requires Ok(vm) && r in vm.spaces && dst < USER_TOP && dst % 4096 + |chunk| <= 4096
    requires PathOf(dst) in FlatOf(vm, r) && IsDataPage(vm.mem, FlatOf(vm, r)[PathOf(dst)].frame)
    ensures Ok(WithBytes(vm, FlatOf(vm, r)[PathOf(dst)].frame, dst % 4096, chunk))
    ensures Wrote(vm, WithBytes(vm, FlatOf(vm, r)[PathOf(dst)].frame, dst % 4096, chunk), r, dst, chunk)
  {
    hide Ok, FlatOf, PathOf, NotTable, Pages;
    var v := PathOf(dst);
    var f := FlatOf(vm, r)[v].frame;
    var b := WithBytes(vm, f, dst % 4096, chunk);
    LeafNotTable(vm, r, v);
    FlatFrame(vm, r, v);
    PagesHas(vm.spaces[r], v);
    WriteDataOk(vm, f, Spliced(vm.mem[f].b, dst % 4096, chunk));
    forall x | 0 <= x < USER_TOP
      ensures VByte(b, r, x) == if dst <= x < dst + |chunk| then Some(chunk[x - dst]) else VByte(vm, r, x)
    {
      PathsArePages(dst, x);
      if PathOf(x) in FlatOf(vm, r) && FlatOf(vm, r)[PathOf(x)].frame == f { FramesDistinct(vm, r, v, r, PathOf(x)); }
    }
    forall s, x | s in vm.spaces && s != r ensures VByte(b, s, x) == VByte(vm, s, x) {
      if PathOf(x) in FlatOf(vm, s) && FlatOf(vm, s)[PathOf(x)].frame == f {
        FramesDistinct(vm, r, v, s, PathOf(x));
        assert false;
      }
    }
  }

  // ---- adding pages --------------------------------------------------------------------------

  function ZeroBytes(): (r: seq<Byte>)
    ensures |r| == 4096 && forall k :: 0 <= k < 4096 ==> r[k] == 0
  {
    seq(4096, _ => 0)
  }

  /** What is mapped at address `x`: the byte there and the protection flags of its page. */
  ghost function View(vm: Vm, r: nat, x: nat): Option<(Byte, Flags)>
    requires r in vm.spaces
  {
    match VByte(vm, r, x)
    case None => None
    case Some(b) => Some((b, FlatOf(vm, r)[PathOf(x)].flags))
  }

  // Pages lo..hi are unmapped.
  ghost predicate Unmapped(vm: Vm, r: nat, lo: nat, hi: nat)
    requires r in vm.spaces
  {
    forall x :: 0 <= x < USER_TOP && lo <= x / 4096 < hi ==> View(vm, r, x).None?
  }

  // One page is unmapped or not as a whole.
  lemma PageMapped(vm: Vm, r: nat, n: nat)
    requires r in vm.spaces && AllData(vm, r) && n * 4096 < USER_TOP
    ensures PathOf(n * 4096) in FlatOf(vm, r) <==> !Unmapped(vm, r, n, n + 1)
  {
    hide FlatOf, PathOf;
    var va := n * 4096;
    if PathOf(va) in FlatOf(vm, r) {
      assert va / 4096 == n && View(vm, r, va).Some?;
    } else {
      forall x | 0 <= x < USER_TOP && n <= x / 4096 < n + 1 ensures View(vm, r, x).None? {
        PathsArePages(va, x);
      }
    }
  }

  // Space `r` aside, nothing changed.
  ghost predicate Isolated(a: Vm, b: Vm, r: nat)
    requires r in a.spaces
  {
    && b.spaces.Keys == a.spaces.Keys && b.half == a.half && OutsideKept(a, b, r)
    && forall s :: s in a.spaces && s != r ==> b.spaces[s] == a.spaces[s] && FlatOf(b, s) == FlatOf(a, s)
  }

  /** The books balance: the pages space `r` and the free set hold together are those they held
      before, except `lost`, which nobody owns any more. No other space changed. */
  ghost predicate Balanced(a: Vm, b: Vm, r: nat, lost: set<nat>) {
    && r in a.spaces && r in b.spaces && Isolated(a, b, r) && b.free <= a.free
    && b.free + Pages(b.spaces[r]) + lost == a.free + Pages(a.spaces[r])
    && lost !! b.free && lost !! Pages(b.spaces[r])
  }

  lemma BalancedTrans(a: Vm, b: Vm, c: Vm, r: nat, l1: set<nat>, l2: set<nat>)
    requires Balanced(a, b, r, l1) && Balanced(b, c, r, l2)
    ensures Balanced(a, c, r, l1 + l2)
  {
    hide FlatOf, Pages;
    assert b.free + Pages(b.spaces[r]) <= a.free + Pages(a.spaces[r]);
    assert c.free + Pages(c.spaces[r]) <= b.free + Pages(b.spaces[r]);
  }

  lemma WroteBalanced(a: Vm, b: Vm, r: nat, dst: nat, src: seq<Byte>)
    requires Ok(a) && Wrote(a, b, r, dst, src)
    ensures Balanced(a, b, r, {})
  {
    hide FlatOf, Pages, VByte, Ok;
  }

  // Page `n` of the space now holds zeroes under `flags`; what it held before is lost.
  ghost predicate ZeroPageAdded(a: Vm, b: Vm, r: nat, n: nat, flags: Flags) {
    && r in a.spaces && Balanced(a, b, r, Released(FlatOf(a, r), PathOf(n * 4096)))
    && AllData(b, r)
    && PathOf(n * 4096) in FlatOf(b, r)
    && forall x :: 0 <= x < USER_TOP ==>
         View(b, r, x) == if x / 4096 == n then Some((0, flags)) else View(a, r, x)
  }

  // Taking a frame out of the free set changes no space.
  lemma TakeFrame(a: Vm, mem: Mem, f: nat)
    requires Ok(a) && InRange(a) && f in a.free
    requires forall g :: g in a.mem && g != f ==> g in mem && mem[g] == a.mem[g]
    ensures var a1 := a.(mem := mem, free := a.free - {f});
      Ok(a1) && InRange(a1) && Unowned(a1, f) && SameData(a, a1)
      && forall s :: s in a.spaces ==> FlatOf(a1, s) == FlatOf(a, s)
  {
    hide TreeOk, Pages, Flat;
    forall s | s in a.spaces
      ensures TreeOk(mem, s, a.spaces[s]) && Flat(mem, a.spaces[s]) == Flat(a.mem, a.spaces[s])
    {
      SpaceFrame(a, mem, s, {f});
    }
  }

  // A memory write to a frame that only space `r` can own keeps the other spaces' data.
  lemma ZeroLeaf(b0: Vm, r: nat, v: Path)
    requires Ok(b0) && InRange(b0) && r in b0.spaces && v in FlatOf(b0, r)
    ensures var b := b0.(mem := b0.mem[FlatOf(b0, r)[v].frame := Data(ZeroBytes())]);
      Ok(b) && InRange(b) && forall s :: s in b0.spaces ==> FlatOf(b, s) == FlatOf(b0, s)
  {
    hide Ok, FlatOf, NotTable, Pages;
    LeafNotTable(b0, r, v);
    WriteDataOk(b0, FlatOf(b0, r)[v].frame, ZeroBytes());
  }

  lemma AddedBooks(a: Vm, mem1: Mem, f: nat, b0: Vm, b: Vm, r: nat, v: Path, flags: Flags)
    requires Ok(a) && Ok(b0) && f in a.free && IsPage(v) && r in a.spaces
    requires Mapped(a.(mem := mem1, free := a.free - {f}), b0, r, v, Pte(true, f, flags))
    requires SameData(a, a.(mem := mem1, free := a.free - {f}))
    requires forall s :: s in a.spaces ==> FlatOf(a.(mem := mem1, free := a.free - {f}), s) == FlatOf(a, s)
    requires b == b0.(mem := b0.mem[f := Data(ZeroBytes())])
    requires forall s :: s in b0.spaces ==> FlatOf(b, s) == FlatOf(b0, s)
    ensures Balanced(a, b, r, Released(FlatOf(a, r), v)) && SameData(a, b)
    ensures FlatOf(b, r) == FlatOf(a, r)[v := Pte(true, f, flags)]
  {
    hide FlatOf, Pages, Released, Ok;
    var a1 := a.(mem := mem1, free := a.free - {f});
    ReleasedOwned(a, r, v);
    assert SameData(a, b) by {
      forall g | g in a.mem && a.mem[g].Data? && g !in a.free ensures g in b.mem && b.mem[g] == a.mem[g] {
        assert g in a1.mem && a1.mem[g] == a.mem[g] && g !in a1.free && g != f;
      }
    }
    assert Isolated(a, b, r);
    assert Pages(a.spaces[r]) !! a.free by { PagesNotFree(a, r); }
    assert f !in Pages(a.spaces[r]);
  }

  lemma PagesNotFree(vm: Vm, r: nat)
    requires Ok(vm) && r in vm.spaces
    ensures Pages(vm.spaces[r]) !! vm.free
  {
    hide TreeOk, Pages;
  }

  /** Mapping a frame fresh from the free set, zeroed before or after, adds one zero page. */
  lemma FreshPage(a: Vm, mem1: Mem, f: nat, b0: Vm, r: nat, n: nat, flags: Flags)
    requires Ok(a) && Ok(b0) && InRange(a) && InRange(b0) && f in a.free && n * 4096 < USER_TOP
    requires r in a.spaces && r in b0.spaces && AllData(a, r)
    requires forall g :: g in a.mem && g != f ==> g in mem1 && mem1[g] == a.mem[g]
    requires Mapped(a.(mem := mem1, free := a.free - {f}), b0, r, PathOf(n * 4096), Pte(true, f, flags))
    ensures var b := b0.(mem := b0.mem[f := Data(ZeroBytes())]);
      Ok(b) && InRange(b) && ZeroPageAdded(a, b, r, n, flags)
  {
    hide Ok, InRange, FlatOf, PathOf, Balanced, SameData, OthersKept, Unowned;
    var v := PathOf(n * 4096);
    PathOfPage(n * 4096);
    TakeFrame(a, mem1, f);
    MappedFlat(a.(mem := mem1, free := a.free - {f}), b0, r, v, Pte(true, f, flags));
    ZeroLeaf(b0, r, v);
    var b := b0.(mem := b0.mem[f := Data(ZeroBytes())]);
    AddedBooks(a, mem1, f, b0, b, r, v, flags);
    AddedView(a, b, r, n, f, flags);
  }

  lemma MappedFlat(a: Vm, b: Vm, r: nat, v: Path, e: Pte)
    requires Mapped(a, b, r, v, e)
    ensures r in b.spaces && FlatOf(b, r) == FlatOf(a, r)[v := e]
    ensures v in FlatOf(b, r) && FlatOf(b, r)[v] == e
  {
    hide FlatOf, Pages;
  }

  lemma AddedView(a: Vm, b: Vm, r: nat, n: nat, f: nat, flags: Flags)
    requires Ok(a) && f in a.free && n * 4096 < USER_TOP && r in a.spaces && r in b.spaces && AllData(a, r)
    requires SameData(a, b)
    requires FlatOf(b, r) == FlatOf(a, r)[PathOf(n * 4096) := Pte(true, f, flags)]
    requires f in b.mem && b.mem[f] == Data(ZeroBytes())
    ensures AllData(b, r)
    ensures forall x :: 0 <= x < USER_TOP ==>
      View(b, r, x) == if x / 4096 == n then Some((0, flags)) else View(a, r, x)
  {
    hide FlatOf, PathOf, Ok, Pages, Released;
    var v := PathOf(n * 4096);
    PathOfPage(n * 4096);
    forall w | w in FlatOf(a, r)
      ensures FlatOf(a, r)[w].frame !in a.free && FlatOf(a, r)[w].frame in b.mem
      ensures b.mem[FlatOf(a, r)[w].frame] == a.mem[FlatOf(a, r)[w].frame]
    {
      LeafInUse(a, r, w);
    }
    forall x | 0 <= x < USER_TOP
      ensures View(b, r, x) == if x / 4096 == n then Some((0, flags)) else View(a, r, x)
    {
      PathsArePages(n * 4096, x);
    }
  }

  lemma LeafInUse(vm: Vm, r: nat, w: Path)
    requires Ok(vm) && r in vm.spaces && w in FlatOf(vm, r)
    ensures FlatOf(vm, r)[w].frame !in vm.free
  {
    hide TreeOk, Flat;
    FlatFrame(vm, r, w);
    PagesHas(vm.spaces[r], w);
  }

  lemma LeafNotShared(vm: Vm, r: nat, s: nat, w: Path)
    requires Ok(vm) && r in vm.spaces && s in vm.spaces && r != s && w in FlatOf(vm, s)
    ensures FlatOf(vm, s)[w].frame !in Pages(vm.spaces[r])
  {
    hide TreeOk, Flat;
    FlatFrame(vm, s, w);
    PagesHas(vm.spaces[s], w);
  }

  /** Isolation: whatever happens to space `r`, every byte and flag of another space stays. */
  lemma OthersSeeNothing(a: Vm, b: Vm, r: nat, s: nat)
    requires Ok(a) && r in a.spaces && Isolated(a, b, r) && s in a.spaces && s != r && AllData(a, s)
    ensures AllData(b, s)
    ensures forall x :: 0 <= x < USER_TOP ==> View(b, s, x) == View(a, s, x)
  {
    hide FlatOf, PathOf, Ok, Pages;
    forall w | w in FlatOf(a, s)
      ensures FlatOf(a, s)[w].frame !in a.free && FlatOf(a, s)[w].frame !in Pages(a.spaces[r])
    {
      LeafInUse(a, s, w);
      LeafNotShared(a, r, s, w);
    }
  }
}
