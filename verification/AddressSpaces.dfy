/**
 All address spaces together with the free pages: the invariant `Ok`, and one lemma for each
 way the kernel changes memory. Each lemma says what the change does to every space's flat map
 and to the free set.
 */
module AddressSpaces {
  import opened Common
  import opened PageTable

  // Physical memory, the address spaces, the free pages, and the frames of the kernel's upper half, which all
  // spaces share and none owns.
  datatype Vm = Vm(mem: Mem, spaces: map<nat, Tree>, free: set<nat>, half: set<nat>)

  ghost predicate Unowned(vm: Vm, f: nat) {
    f !in vm.free && f !in vm.half && forall r :: r in vm.spaces ==> f !in Pages(vm.spaces[r])
  }

  /** Every space is well formed, owns no free frame, and shares no frame with another space or the kernel's half,
      none of which is free either. */
  ghost predicate Ok(vm: Vm) {
    Apart(vm) && forall r :: r in vm.spaces ==> TreeOk(vm.mem, r, vm.spaces[r])
  }

  // Free pages, the kernel's half and the spaces are disjoint.
  ghost predicate Apart(vm: Vm) {
    && vm.half !! vm.free
    && (forall r :: r in vm.spaces ==> Pages(vm.spaces[r]) !! vm.free && Pages(vm.spaces[r]) !! vm.half)
    && (forall r, s :: r in vm.spaces && s in vm.spaces && r != s ==> Pages(vm.spaces[r]) !! Pages(vm.spaces[s]))
  }

  // Space `r` took page `np`.
  lemma ApartTake(a: Vm, b: Vm, r: nat, np: nat)
    requires Apart(a) && r in a.spaces && np in a.free && b.half == a.half && b.free == a.free - {np}
    requires b.spaces.Keys == a.spaces.Keys && (forall s :: s in a.spaces && s != r ==> b.spaces[s] == a.spaces[s])
    requires Pages(b.spaces[r]) == Pages(a.spaces[r]) + {np}
    ensures Apart(b)
  {
    hide Pages;
  }

  ghost function FlatOf(vm: Vm, r: nat): map<Path, Pte>
    requires r in vm.spaces
  {
    Flat(vm.mem, vm.spaces[r])
  }

  // Data pages in use keep their contents.
  ghost predicate SameData(a: Vm, b: Vm) {
    forall f :: f in a.mem && a.mem[f].Data? && f !in a.free ==> f in b.mem && b.mem[f] == a.mem[f]
  }

  // Nothing is said to change but space `r`.
  ghost predicate OthersKept(a: Vm, b: Vm, r: nat) {
    && b.spaces.Keys == a.spaces.Keys && b.half == a.half
    && (forall s :: s in a.spaces && s != r ==> b.spaces[s] == a.spaces[s] && FlatOf(b, s) == FlatOf(a, s))
    && SameData(a, b)
  }

  /** The only change is that space `r` took frames from the free set for empty tables:
      every translation is as before. */
  ghost predicate Grown(a: Vm, b: Vm, r: nat) {
    && r in a.spaces && OthersKept(a, b, r)
    && FlatOf(b, r) == FlatOf(a, r)
    && b.free <= a.free
    && Pages(b.spaces[r]) == Pages(a.spaces[r]) + (a.free - b.free)
  }

  lemma GrownRefl(a: Vm, r: nat)
    requires r in a.spaces
    ensures Grown(a, a, r)
  {
    assert a.free - a.free == {};
  }

  lemma GrownTrans(a: Vm, b: Vm, c: Vm, r: nat)
    requires Grown(a, b, r) && Grown(b, c, r)
    ensures Grown(a, c, r)
  {
    hide FlatOf, Pages;
    assert (a.free - b.free) + (b.free - c.free) == a.free - c.free;
  }

  lemma PagesHas(tree: Tree, p: Path)
    requires p in tree
    ensures tree[p] in Pages(tree)
  {
  }

  // ---- changes -------------------------------------------------------------------------

  function AddTable(vm: Vm, r: nat, p: Path, i: nat, np: nat): Vm
    requires r in vm.spaces && p in vm.spaces[r] && IsTable(vm.mem, vm.spaces[r][p]) && i < ENTRIES
  {
    var e := Pte(true, np, TABLE_FLAGS);
    vm.(mem := WithEntry(vm.mem[np := ZeroTable()], vm.spaces[r][p], i, e),
        spaces := vm.spaces[r := Relinked(vm.spaces[r], p, i, e)], free := vm.free - {np})
  }

  // A memory write that spares all tables of all other spaces keeps them.
  lemma SpaceFrame(vm: Vm, mem: Mem, r: nat, changed: set<nat>)
    requires Ok(vm) && r in vm.spaces && Pages(vm.spaces[r]) !! changed
    requires forall f :: f in vm.mem && f !in changed ==> f in mem && mem[f] == vm.mem[f]
    ensures TreeOk(mem, r, vm.spaces[r]) && Flat(mem, vm.spaces[r]) == Flat(vm.mem, vm.spaces[r])
  {
    var tree := vm.spaces[r];
    forall q | q in tree && |q| < 4 ensures tree[q] in mem && tree[q] in vm.mem && mem[tree[q]] == vm.mem[tree[q]] {
      TableAt(vm.mem, r, tree, q);
      PagesHas(tree, q);
    }
    TreeFrame(vm.mem, mem, r, tree);
  }

  lemma PagesAdd(tree: Tree, c: Path, f: nat)
    requires c !in tree
    ensures Pages(tree[c := f]) == Pages(tree) + {f}
  {
    var t := tree[c := f];
    assert t[c] == f;
    forall x | x in Pages(tree) ensures x in Pages(t) {
      var p :| p in tree && tree[p] == x;
      assert t[p] == x;
    }
  }

  lemma AbsentChild(mem: Mem, root: nat, tree: Tree, p: Path, i: nat)
    requires TreeOk(mem, root, tree) && p in tree && |p| < 4 && i < Width(p)
    ensures IsTable(mem, tree[p])
    ensures !Links(|p|, mem[tree[p]].e[i]) ==> p + [i] !in tree && NothingBelow(tree, p + [i])
  {
    assert TableOk(mem, tree, p);
    var c := p + [i];
    if !Links(|p|, mem[tree[p]].e[i]) {
      forall q | q in tree && |q| > |c| ensures q[..|c|] != c {
        if q[..|c|] == c { PrefixMissing(mem, root, tree, q, |c|); assert false; }
      }
    }
  }

  /** Adding an empty table under an absent entry keeps the invariant and every translation. */
  lemma AddTableOk(vm: Vm, r: nat, p: Path, i: nat, np: nat)
    requires Ok(vm) && r in vm.spaces && p in vm.spaces[r] && |p| < 3 && i < Width(p)
    requires np in vm.free
    requires IsTable(vm.mem, vm.spaces[r][p]) && !vm.mem[vm.spaces[r][p]].e[i].p
    ensures Ok(AddTable(vm, r, p, i, np))
    ensures Grown(vm, AddTable(vm, r, p, i, np), r)
  {
    hide TreeOk, Flat, Pages, NothingBelow;
    var tree, e := vm.spaces[r], Pte(true, np, TABLE_FLAGS);
    var vm' := AddTable(vm, r, p, i, np);
    var mem1 := vm.mem[np := ZeroTable()];
    PagesHas(tree, p);
    SpaceFrame(vm, mem1, r, {np});
    AbsentChild(vm.mem, r, tree, p, i);
    assert MayLink(mem1, tree, p, i, e) by {
      forall q | q in tree ensures tree[q] != np { PagesHas(tree, q); }
    }
    EditEntry(mem1, r, tree, p, i, e);
    EditFlat(mem1, r, tree, p, i, e);
    PagesAdd(tree, p + [i], np);
    forall s | s in vm.spaces && s != r
      ensures TreeOk(vm'.mem, s, vm.spaces[s]) && FlatOf(vm', s) == FlatOf(vm, s)
    {
      SpaceFrame(vm, vm'.mem, s, {np, tree[p]});
    }
    ApartTake(vm, vm', r, np);
    hide Apart;
  }

  // Writing the last-level entry of page `v`.
  function SetLeaf(vm: Vm, r: nat, v: Path, e: Pte): Vm
    requires r in vm.spaces && v != [] && Parent(v) in vm.spaces[r]
    requires IsTable(vm.mem, vm.spaces[r][Parent(v)]) && Last(v) < ENTRIES
  {
    vm.(mem := WithEntry(vm.mem, vm.spaces[r][Parent(v)], Last(v), e),
        spaces := vm.spaces[r := Relinked(vm.spaces[r], Parent(v), Last(v), e)])
  }

  // The frame a page entry releases.
  ghost function LeafFrame(tree: Tree, v: Path): set<nat> {
    if v in tree then {tree[v]} else {}
  }

  // Removing one path from an injective tree removes its frame and no other.
  lemma PagesRemove(tree: Tree, c: Path)
    requires forall p, q :: p in tree && q in tree && tree[p] == tree[q] ==> p == q
    ensures Pages(tree - {c}) == Pages(tree) - LeafFrame(tree, c)
  {
    var t := tree - {c};
    forall x | x in Pages(tree) && x !in LeafFrame(tree, c) ensures x in Pages(t) {
      var q :| q in tree && tree[q] == x;
      assert q in t && t[q] == x;
    }
    forall x | x in Pages(t) ensures x in Pages(tree) && x !in LeafFrame(tree, c) {
      var q :| q in t && t[q] == x;
      assert q in tree && tree[q] == x && q != c;
    }
  }

  lemma PagesRelink(mem: Mem, root: nat, tree: Tree, p: Path, i: nat, e: Pte)
    requires TreeOk(mem, root, tree)
    ensures Pages(Relinked(tree, p, i, e)) ==
      Pages(tree) - LeafFrame(tree, p + [i]) + (if Links(|p|, e) then {e.frame} else {})
  {
    hide TableOk, PathOk, Pages, LeafFrame;
    var c := p + [i];
    PagesRemove(tree, c);
    if Links(|p|, e) {
      PagesAdd(tree - {c}, c, e.frame);
      assert (tree - {c})[c := e.frame] == tree[c := e.frame];
    }
  }

  lemma LeafMayLink(mem: Mem, root: nat, tree: Tree, v: Path, e: Pte)
    requires TreeOk(mem, root, tree) && IsPage(v) && Parent(v) in tree
    requires e.p ==> e.frame !in Pages(tree)
    ensures MayLink(mem, tree, Parent(v), Last(v), e)
  {
    Split(v);
    forall q | q in tree ensures |q| <= 4 && tree[q] in Pages(tree) { assert PathOk(tree, q); }
  }

  /** Writing a page entry changes one key of that space's flat map and nothing else; the frame
      it replaces stops being owned by any space. */
  lemma SetLeafOk(vm: Vm, r: nat, v: Path, e: Pte)
    requires Ok(vm) && r in vm.spaces && IsPage(v) && Parent(v) in vm.spaces[r]
    requires e.p ==> Unowned(vm, e.frame)
    ensures IsTable(vm.mem, vm.spaces[r][Parent(v)])
    ensures Ok(SetLeaf(vm, r, v, e)) && OthersKept(vm, SetLeaf(vm, r, v, e), r)
    ensures FlatOf(SetLeaf(vm, r, v, e), r) == if e.p then FlatOf(vm, r)[v := e] else FlatOf(vm, r) - {v}
    ensures Pages(SetLeaf(vm, r, v, e).spaces[r]) ==
      Pages(vm.spaces[r]) - LeafFrame(vm.spaces[r], v) + (if e.p then {e.frame} else {})
  {
    hide TreeOk, Flat, Pages, NothingBelow;
    var tree, p, i := vm.spaces[r], Parent(v), Last(v);
    Split(v);
    TableAt(vm.mem, r, tree, p);
    PagesHas(tree, p);
    LeafMayLink(vm.mem, r, tree, v, e);
    EditEntry(vm.mem, r, tree, p, i, e);
    EditFlat(vm.mem, r, tree, p, i, e);
    PagesRelink(vm.mem, r, tree, p, i, e);
    var vm' := SetLeaf(vm, r, v, e);
    forall s | s in vm.spaces && s != r
      ensures TreeOk(vm'.mem, s, vm.spaces[s]) && FlatOf(vm', s) == FlatOf(vm, s)
    {
      SpaceFrame(vm, vm'.mem, s, {tree[p]});
    }
  }

  function RootOnly(np: nat): Tree { map[[] := np] }

  function NewRoot(vm: Vm, np: nat, page: Page): Vm {
    vm.(mem := vm.mem[np := page], spaces := vm.spaces[np := RootOnly(np)], free := vm.free - {np})
  }

  /** `r` is a new space that maps nothing; it took one page, and everything else is as before. */
  ghost predicate Created(a: Vm, b: Vm, r: nat) {
    && r in a.free && r !in a.spaces
    && b.free == a.free - {r} && b.spaces == a.spaces[r := RootOnly(r)] && b.half == a.half
    && FlatOf(b, r) == map[] && Pages(b.spaces[r]) == {r}
    && SameData(a, b)
    && forall s :: s in a.spaces ==> FlatOf(b, s) == FlatOf(a, s)
  }

  lemma NewRootOk(vm: Vm, np: nat, page: Page)
    requires Ok(vm) && np in vm.free
    requires page.Table? && |page.e| == ENTRIES && forall i :: 0 <= i < USER_ENTRIES ==> page.e[i] == NO_PTE
    ensures Ok(NewRoot(vm, np, page)) && Created(vm, NewRoot(vm, np, page), np)
  {
    hide TreeOk, Flat, Pages, RootOnly;
    var vm' := NewRoot(vm, np, page);
    if np in vm.spaces { RootOwned(vm.mem, np, vm.spaces[np]); assert false; }
    RootTree(vm'.mem, np);
    forall s | s in vm.spaces ensures TreeOk(vm'.mem, s, vm.spaces[s]) && FlatOf(vm', s) == FlatOf(vm, s) {
      SpaceFrame(vm, vm'.mem, s, {np});
    }
  }

  lemma RootOwned(mem: Mem, r: nat, tree: Tree)
    requires TreeOk(mem, r, tree)
    ensures r in Pages(tree)
  {
    PagesHas(tree, []);
  }

  lemma RootTree(mem: Mem, np: nat)
    requires IsTable(mem, np) && forall i :: 0 <= i < USER_ENTRIES ==> mem[np].e[i] == NO_PTE
    ensures TreeOk(mem, np, RootOnly(np)) && Flat(mem, RootOnly(np)) == map[] && Pages(RootOnly(np)) == {np}
  {
    var tree := RootOnly(np);
    assert tree[[]] == np;
    assert TableOk(mem, tree, []);
  }

  ghost function DropSpace(vm: Vm, r: nat): Vm
    requires r in vm.spaces
  {
    vm.(spaces := vm.spaces - {r}, free := vm.free + Pages(vm.spaces[r]))
  }

  /** Space `r` is gone and its pages, no more and no fewer, are free; the rest is as before. */
  ghost predicate Dropped(a: Vm, b: Vm, r: nat) {
    && r in a.spaces && b.spaces == a.spaces - {r}
    && b.free == a.free + Pages(a.spaces[r]) && b.mem == a.mem && b.half == a.half
    && forall s :: s in b.spaces ==> FlatOf(b, s) == FlatOf(a, s)
  }

  lemma DropSpaceOk(vm: Vm, r: nat)
    requires Ok(vm) && r in vm.spaces
    ensures Ok(DropSpace(vm, r)) && Dropped(vm, DropSpace(vm, r), r)
  {
    hide TreeOk, Flat, Pages;
  }

  ghost predicate NotTable(vm: Vm, f: nat) {
    forall r, p :: r in vm.spaces && p in vm.spaces[r] && |p| < 4 ==> vm.spaces[r][p] != f
  }

  /** Writing a page that is no table changes no translation. */
  lemma WriteDataOk(vm: Vm, f: nat, b: seq<Byte>)
    requires Ok(vm) && NotTable(vm, f)
    ensures Ok(vm.(mem := vm.mem[f := Data(b)]))
    ensures forall s :: s in vm.spaces ==> FlatOf(vm.(mem := vm.mem[f := Data(b)]), s) == FlatOf(vm, s)
  {
    var vm' := vm.(mem := vm.mem[f := Data(b)]);
    forall s | s in vm.spaces ensures TreeOk(vm'.mem, s, vm.spaces[s]) && FlatOf(vm', s) == FlatOf(vm, s) {
      var tree := vm.spaces[s];
      forall q | q in tree && |q| < 4 ensures tree[q] in vm.mem && vm'.mem[tree[q]] == vm.mem[tree[q]] {
        TableAt(vm.mem, s, tree, q);
      }
      TreeFrame(vm.mem, vm'.mem, s, tree);
    }
    hide TreeOk, Flat;
  }

  // The frame a flat map gives up when key `v` is overwritten or removed.
  ghost function Released(flat: map<Path, Pte>, v: Path): set<nat> {
    if v in flat then {flat[v].frame} else {}
  }

  lemma LeafFrameIsReleased(mem: Mem, root: nat, tree: Tree, v: Path)
    requires TreeOk(mem, root, tree) && IsPage(v)
    ensures LeafFrame(tree, v) == Released(Flat(mem, tree), v)
  {
    if v in tree {
      Split(v);
      assert PathOk(tree, v) && TableOk(mem, tree, Parent(v));
    }
  }

  /** Space `r` maps `v` to entry `e` and is otherwise as before; the frames it gained are the
      mapped one and those taken from the free set for tables. */
  ghost predicate Mapped(a: Vm, b: Vm, r: nat, v: Path, e: Pte) {
    && r in a.spaces && OthersKept(a, b, r)
    && FlatOf(b, r) == FlatOf(a, r)[v := e]
    && b.free <= a.free
    && Pages(b.spaces[r]) == Pages(a.spaces[r]) - Released(FlatOf(a, r), v) + (a.free - b.free) + {e.frame}
  }

  lemma OthersKeptTrans(a: Vm, b: Vm, c: Vm, r: nat)
    requires OthersKept(a, b, r) && OthersKept(b, c, r) && b.free <= a.free
    ensures OthersKept(a, c, r)
  {
    hide FlatOf;
  }

  lemma GrownUnowned(a: Vm, b: Vm, r: nat, f: nat)
    requires Grown(a, b, r) && Unowned(a, f)
    ensures Unowned(b, f)
  {
    hide FlatOf, Pages;
  }

  lemma GrownThenMapped(a: Vm, b: Vm, r: nat, v: Path, e: Pte)
    requires Ok(a) && Ok(b) && Grown(a, b, r) && IsPage(v) && r in b.spaces && Parent(v) in b.spaces[r]
    requires e.p && Unowned(a, e.frame)
    ensures IsTable(b.mem, b.spaces[r][Parent(v)])
    ensures Ok(SetLeaf(b, r, v, e)) && Mapped(a, SetLeaf(b, r, v, e), r, v, e)
  {
    hide TreeOk, Pages, Flat, LeafFrame, Released, Ok, Unowned, OthersKept;
    GrownUnowned(a, b, r, e.frame);
    SpaceLeafFrame(b, r, v);
    ReleasedOwned(a, r, v);
    SetLeafOk(b, r, v, e);
    OthersKeptTrans(a, b, SetLeaf(b, r, v, e), r);
  }

  lemma SpaceLeafFrame(vm: Vm, r: nat, v: Path)
    requires Ok(vm) && r in vm.spaces && IsPage(v)
    ensures LeafFrame(vm.spaces[r], v) == Released(FlatOf(vm, r), v)
  {
    LeafFrameIsReleased(vm.mem, r, vm.spaces[r], v);
  }

  lemma ReleasedOwned(vm: Vm, r: nat, v: Path)
    requires Ok(vm) && r in vm.spaces && IsPage(v)
    ensures Released(FlatOf(vm, r), v) <= Pages(vm.spaces[r])
    ensures Released(FlatOf(vm, r), v) !! vm.free
  {
    hide TreeOk;
    LeafFrameIsReleased(vm.mem, r, vm.spaces[r], v);
  }
}
