/**
 Four-level page tables as values (kernel-rs/src/mm/vmm.rs). Physical memory maps frame
 numbers to typed pages; a page is read as a table only where it was written as one.

 The lower half of an address space is described by a tree: a map from index paths to frames.
 The empty path is the root table, a path of length 1 to 3 a lower table, a path of length 4
 a mapped page. `TreeOk` ties the tree to the entries in memory, `Ok` says that all address
 spaces together own every frame at most once and own no free frame.
 */
module PageTable {
  import opened Common
  type Path = seq<nat>
  type Tree = map<Path, nat>

  const ENTRIES: nat := 512
  const USER_ENTRIES: nat := 256

  datatype Flags = Flags(rw: bool, us: bool, ps: bool, nx: bool)
  datatype Pte = Pte(p: bool, frame: nat, flags: Flags)
  datatype Page = Table(e: seq<Pte>) | Data(b: seq<Byte>)

  const NO_FLAGS := Flags(false, false, false, false)
  const NO_PTE := Pte(false, 0, NO_FLAGS)
  const TABLE_FLAGS := Flags(true, true, false, false)

  type Mem = map<nat, Page>

  function ZeroTable(): Page { Table(seq(ENTRIES, _ => NO_PTE)) }

  // ---- one address space ----------------------------------------------------------------

  function Width(p: Path): nat { if p == [] then USER_ENTRIES else ENTRIES }

  function Parent(p: Path): Path
    requires p != []
  {
    p[..|p| - 1]
  }

  function Last(p: Path): nat
    requires p != []
  {
    p[|p| - 1]
  }

  // Whether the entry of a table at depth `depth` leads to a frame the space owns. Huge
  // pages (PS set in the second and third table) are neither walked nor freed.
  predicate Links(depth: nat, e: Pte) {
    e.p && !(e.flags.ps && (depth == 1 || depth == 2))
  }

  // The root has no huge pages, and an entry that leads to a table leaves access to the entries below it.
  predicate EntryOk(depth: nat, e: Pte) {
    && (depth == 0 && e.p ==> !e.flags.ps)
    && (depth < 3 && Links(depth, e) ==> e.flags.rw && e.flags.us && !e.flags.nx)
  }

  predicate IsTable(mem: Mem, f: nat) {
    f in mem && mem[f].Table? && |mem[f].e| == ENTRIES
  }

  ghost predicate TableOk(mem: Mem, tree: Tree, p: Path)
    requires p in tree
  {
    && IsTable(mem, tree[p])
    && forall i :: 0 <= i < Width(p) ==>
         var e := mem[tree[p]].e[i];
         && EntryOk(|p|, e)
         && (if Links(|p|, e) then p + [i] in tree && tree[p + [i]] == e.frame else p + [i] !in tree)
  }

  ghost predicate PathOk(tree: Tree, p: Path) {
    |p| <= 4 && (p != [] ==> Parent(p) in tree && Last(p) < Width(Parent(p)))
  }

  ghost predicate TreeOk(mem: Mem, root: nat, tree: Tree) {
    && [] in tree && tree[[]] == root
    && (forall p :: p in tree ==> PathOk(tree, p))
    && (forall p :: p in tree && |p| < 4 ==> TableOk(mem, tree, p))
    && (forall p, q :: p in tree && q in tree && tree[p] == tree[q] ==> p == q)
  }

  ghost function Pages(tree: Tree): set<nat> { set p | p in tree :: tree[p] }

  // The last-level entry for a mapped page.
  function LeafAt(mem: Mem, tree: Tree, v: Path): Pte {
    if v != [] && Parent(v) in tree && IsTable(mem, tree[Parent(v)]) && Last(v) < ENTRIES
    then mem[tree[Parent(v)]].e[Last(v)] else NO_PTE
  }

  /** What the address space means: the finite map from mapped pages to their entries. */
  ghost function Flat(mem: Mem, tree: Tree): map<Path, Pte> {
    map v | v in tree && |v| == 4 :: LeafAt(mem, tree, v)
  }

  predicate IsPage(v: Path) {
    |v| == 4 && v[0] < USER_ENTRIES && v[1] < ENTRIES && v[2] < ENTRIES && v[3] < ENTRIES
  }

  // Access through entry `e` to what a lower entry gives: each level can only take rights away.
  function Through(e: Pte, r: Option<Pte>): Option<Pte> {
    match r
    case None => None
    case Some(l) =>
      var f, g := e.flags, l.flags;
      Some(l.(flags := g.(rw := f.rw && g.rw, us := f.us && g.us, nx := f.nx || g.nx)))
  }

  /** The processor's walk: follows entries in memory from table `f`, knowing nothing of trees, and allows what
      every entry on the way allows. */
  function HardwareWalk(mem: Mem, f: nat, path: Path): Option<Pte>
    decreases |path|
  {
    if path == [] || !IsTable(mem, f) || path[0] >= ENTRIES then None else
      var e := mem[f].e[path[0]];
      if !e.p then None
      else if |path| == 1 then Some(e)
      else if e.flags.ps then None
      else Through(e, HardwareWalk(mem, e.frame, path[1..]))
  }

  lemma Snoc(p: Path, i: nat)
    ensures p + [i] != [] && Parent(p + [i]) == p && Last(p + [i]) == i
  {
    assert (p + [i])[..|p|] == p;
  }

  lemma Split(p: Path)
    requires p != []
    ensures p == Parent(p) + [Last(p)]
  {
  }

  // What one level of the walk finds, and that it takes no rights away.
  lemma WalkLevel(mem: Mem, root: nat, tree: Tree, v: Path, k: nat)
    requires TreeOk(mem, root, tree) && IsPage(v) && k < 4 && v[..k] in tree
    ensures v[..k + 1] == v[..k] + [v[k]] && IsTable(mem, tree[v[..k]])
    ensures var e := mem[tree[v[..k]]].e[v[k]];
      && (v[..k + 1] in tree ==> Links(k, e) && EntryOk(k, e) && tree[v[..k + 1]] == e.frame)
      && (v[..k + 1] !in tree ==> !Links(k, e) && EntryOk(k, e))
  {
    assert TableOk(mem, tree, v[..k]);
    assert v[k] < Width(v[..k]);
  }

  lemma OpenTable(e: Pte, k: nat, r: Option<Pte>)
    requires k < 3 && Links(k, e) && EntryOk(k, e)
    ensures e.p && !e.flags.ps && Through(e, r) == r
  {
  }

  lemma {:induction false} WalkFrom(mem: Mem, root: nat, tree: Tree, v: Path, k: nat)
    requires TreeOk(mem, root, tree) && IsPage(v) && k < 4 && v[..k] in tree
    ensures HardwareWalk(mem, tree[v[..k]], v[k..]) ==
      if v in tree then Some(LeafAt(mem, tree, v)) else None
    decreases 4 - k
  {
    hide TreeOk, IsTable, Links, EntryOk, Through;
    WalkLevel(mem, root, tree, v, k);
    var e, rest := mem[tree[v[..k]]].e[v[k]], v[k..];
    WalkUnfolds(mem, tree[v[..k]], rest);
    if v[..k + 1] in tree {
      if k < 3 {
        assert rest[1..] == v[k + 1..];
        WalkFrom(mem, root, tree, v, k + 1);
        OpenTable(e, k, HardwareWalk(mem, e.frame, rest[1..]));
      } else {
        assert v[..4] == v && Parent(v) == v[..3];
        LastLink(e);
      }
    } else {
      PrefixMissing(mem, root, tree, v, k + 1);
      NoLink(e, k);
    }
  }

  lemma WalkUnfolds(mem: Mem, f: nat, path: Path)
    requires IsTable(mem, f) && path != [] && path[0] < ENTRIES
    ensures var e := mem[f].e[path[0]];
      HardwareWalk(mem, f, path) ==
        if !e.p then None else if |path| == 1 then Some(e) else if e.flags.ps then None
        else Through(e, HardwareWalk(mem, e.frame, path[1..]))
  {
  }

  lemma LastLink(e: Pte)
    requires Links(3, e)
    ensures e.p
  {
  }

  lemma NoLink(e: Pte, k: nat)
    requires k < 4 && !Links(k, e) && EntryOk(k, e)
    ensures !e.p || (k < 3 && e.flags.ps)
  {
  }

  // Trees are closed under prefixes.
  lemma {:induction false} PrefixMissing(mem: Mem, root: nat, tree: Tree, v: Path, k: nat)
    requires TreeOk(mem, root, tree) && k <= |v| && v[..k] !in tree
    ensures v !in tree
    decreases |v|
  {
    if k == |v| {
      assert v[..k] == v;
    } else if v in tree {
      assert PathOk(tree, v);
      assert Parent(v)[..k] == v[..k];
      PrefixMissing(mem, root, tree, Parent(v), k);
      assert false;
    }
  }

  /** The tables refine the flat map: the processor finds exactly what the map holds, with exactly its rights. */
  lemma WalkReadsFlat(mem: Mem, root: nat, tree: Tree, v: Path)
    requires TreeOk(mem, root, tree) && IsPage(v)
    ensures HardwareWalk(mem, root, v) == if v in Flat(mem, tree) then Some(Flat(mem, tree)[v]) else None
  {
    assert v[..0] == [] && v[0..] == v;
    WalkFrom(mem, root, tree, v, 0);
  }

  // ---- editing one entry ------------------------------------------------------------------

  function WithEntry(mem: Mem, f: nat, i: nat, e: Pte): Mem
    requires IsTable(mem, f) && i < ENTRIES
  {
    mem[f := Table(mem[f].e[i := e])]
  }

  function Relinked(tree: Tree, p: Path, i: nat, e: Pte): Tree {
    if Links(|p|, e) then tree[p + [i] := e.frame] else tree - {p + [i]}
  }

  ghost predicate NothingBelow(tree: Tree, c: Path) {
    forall q :: q in tree && |q| > |c| ==> q[..|c|] != c
  }

  // What a new entry `e` at index `i` of table `p` may point to.
  ghost predicate MayLink(mem: Mem, tree: Tree, p: Path, i: nat, e: Pte) {
    && NothingBelow(tree, p + [i])
    && EntryOk(|p|, e)
    && (Links(|p|, e) ==>
          && (forall q :: q in tree && q != p + [i] ==> tree[q] != e.frame)
          && (|p| < 3 ==> e.frame in mem && mem[e.frame] == ZeroTable()))
  }

  // A fresh zero table has no children.
  lemma NewTable(mem: Mem, tree: Tree, c: Path)
    requires c in tree && tree[c] in mem && mem[tree[c]] == ZeroTable() && NothingBelow(tree, c)
    ensures TableOk(mem, tree, c)
  {
    forall j | 0 <= j < Width(c) ensures c + [j] !in tree {
      assert (c + [j])[..|c|] == c;
    }
  }

  // A table other than the edited one keeps its entries, and none of its children is the edited path.
  lemma OtherTable(mem: Mem, tree: Tree, p: Path, i: nat, e: Pte, q: Path)
    requires p in tree && IsTable(mem, tree[p]) && i < ENTRIES
    requires q in tree && q != p + [i] && q != p && tree[q] != tree[p] && TableOk(mem, tree, q)
    ensures TableOk(WithEntry(mem, tree[p], i, e), Relinked(tree, p, i, e), q)
  {
    forall j | 0 <= j < Width(q) ensures q + [j] != p + [i] {
      Snoc(q, j); Snoc(p, i);
    }
  }

  // The edited table itself.
  lemma EditedTable(mem: Mem, tree: Tree, p: Path, i: nat, e: Pte)
    requires p in tree && TableOk(mem, tree, p) && i < Width(p) && EntryOk(|p|, e)
    ensures TableOk(WithEntry(mem, tree[p], i, e), Relinked(tree, p, i, e), p)
  {
    Snoc(p, i);
    forall j | 0 <= j < Width(p) ensures p + [j] == p + [i] <==> j == i {
      Snoc(p, j);
    }
  }

  /** Writing one entry keeps the tree well formed, whatever it links or unlinks. */
  lemma EditEntry(mem: Mem, root: nat, tree: Tree, p: Path, i: nat, e: Pte)
    requires TreeOk(mem, root, tree) && p in tree && |p| < 4 && i < Width(p) && MayLink(mem, tree, p, i, e)
    ensures IsTable(mem, tree[p])
    ensures TreeOk(WithEntry(mem, tree[p], i, e), root, Relinked(tree, p, i, e))
  {
    hide TableOk, PathOk, NothingBelow, IsTable, WithEntry;
    TableAt(mem, root, tree, p);
    var mem', tree', c := WithEntry(mem, tree[p], i, e), Relinked(tree, p, i, e), p + [i];
    assert c != [];
    forall q | q in tree' && |q| < 4 ensures TableOk(mem', tree', q) {
      EditTable(mem, root, tree, p, i, e, q);
    }
    forall q | q in tree' ensures PathOk(tree', q) {
      EditPath(mem, root, tree, p, i, e, q);
    }
  }

  lemma EditTable(mem: Mem, root: nat, tree: Tree, p: Path, i: nat, e: Pte, q: Path)
    requires TreeOk(mem, root, tree) && p in tree && |p| < 4 && i < Width(p) && MayLink(mem, tree, p, i, e)
    requires IsTable(mem, tree[p])
    requires q in Relinked(tree, p, i, e) && |q| < 4
    ensures TableOk(WithEntry(mem, tree[p], i, e), Relinked(tree, p, i, e), q)
  {
    hide TableOk, PathOk;
    var mem', tree', c := WithEntry(mem, tree[p], i, e), Relinked(tree, p, i, e), p + [i];
    if q == c {
      assert NothingBelow(tree', c) by {
        forall x | x in tree' && |x| > |c| ensures x[..|c|] != c { assert x in tree; }
      }
      NewTable(mem', tree', c);
    } else if q == p {
      EditedTable(mem, tree, p, i, e);
    } else {
      OtherTable(mem, tree, p, i, e, q);
    }
  }

  lemma EditPath(mem: Mem, root: nat, tree: Tree, p: Path, i: nat, e: Pte, q: Path)
    requires TreeOk(mem, root, tree) && p in tree && |p| < 4 && i < Width(p) && NothingBelow(tree, p + [i])
    requires q in Relinked(tree, p, i, e)
    ensures PathOk(Relinked(tree, p, i, e), q)
  {
    hide TableOk;
    var c := p + [i];
    Snoc(p, i);
    if q != c {
      assert PathOk(tree, q);
      assert |q| > |c| ==> q[..|c|] != c;
    }
  }

  // Where the entry of a mapped page lies, as against entry `i` of table `p`.
  lemma LeafPlace(mem: Mem, root: nat, tree: Tree, p: Path, i: nat, v: Path)
    requires TreeOk(mem, root, tree) && p in tree && NothingBelow(tree, p + [i])
    requires v in tree && |v| == 4 && v != p + [i]
    ensures Parent(v) in tree && Parent(v) != p + [i]
    ensures if Parent(v) == p then Last(v) != i else tree[Parent(v)] != tree[p]
  {
    hide TableOk;
    assert PathOk(tree, v);
    Split(v);
    assert |p + [i]| == 3 ==> v[..3] != p + [i];
  }

  lemma LeafEdit(mem: Mem, root: nat, tree: Tree, p: Path, i: nat, e: Pte, v: Path)
    requires TreeOk(mem, root, tree) && p in tree && IsTable(mem, tree[p]) && i < ENTRIES
    requires NothingBelow(tree, p + [i])
    requires v in tree && |v| == 4 && v != p + [i]
    ensures v in Relinked(tree, p, i, e)
    ensures LeafAt(WithEntry(mem, tree[p], i, e), Relinked(tree, p, i, e), v) == LeafAt(mem, tree, v)
  {
    hide TreeOk, NothingBelow;
    LeafPlace(mem, root, tree, p, i, v);
  }

  lemma TableAt(mem: Mem, root: nat, tree: Tree, p: Path)
    requires TreeOk(mem, root, tree) && p in tree && |p| < 4
    ensures IsTable(mem, tree[p])
  {
    assert TableOk(mem, tree, p);
  }

  lemma EditedLeaf(mem: Mem, tree: Tree, p: Path, i: nat, e: Pte)
    requires p in tree && IsTable(mem, tree[p]) && i < ENTRIES
    ensures LeafAt(WithEntry(mem, tree[p], i, e), Relinked(tree, p, i, e), p + [i]) == e
  {
    Snoc(p, i);
  }

  /** Editing an entry changes at most one key of the flat map. */
  lemma EditFlat(mem: Mem, root: nat, tree: Tree, p: Path, i: nat, e: Pte)
    requires TreeOk(mem, root, tree) && p in tree && |p| < 4 && i < Width(p) && NothingBelow(tree, p + [i])
    ensures IsTable(mem, tree[p])
    ensures Flat(WithEntry(mem, tree[p], i, e), Relinked(tree, p, i, e)) ==
      if |p| < 3 then Flat(mem, tree)
      else if e.p then Flat(mem, tree)[p + [i] := e] else Flat(mem, tree) - {p + [i]}
  {
    hide NothingBelow, IsTable, LeafAt, TreeOk, WithEntry;
    TableAt(mem, root, tree, p);
    EditedLeaf(mem, tree, p, i, e);
    var mem', tree' := WithEntry(mem, tree[p], i, e), Relinked(tree, p, i, e);
    forall v | v in tree && |v| == 4 && v != p + [i]
      ensures v in tree' && LeafAt(mem', tree', v) == LeafAt(mem, tree, v)
    {
      LeafEdit(mem, root, tree, p, i, e, v);
    }
  }

  /** Memory writes that spare the tables of a space do not change the space. */
  lemma TreeFrame(mem: Mem, mem': Mem, root: nat, tree: Tree)
    requires TreeOk(mem, root, tree)
    requires forall q :: q in tree && |q| < 4 ==> tree[q] in mem' && tree[q] in mem && mem'[tree[q]] == mem[tree[q]]
    ensures TreeOk(mem', root, tree)
    ensures Flat(mem', tree) == Flat(mem, tree)
  {
    forall q | q in tree && |q| < 4 ensures TableOk(mem', tree, q) {
      assert TableOk(mem, tree, q);
    }
    forall v | v in tree && |v| == 4 ensures LeafAt(mem', tree, v) == LeafAt(mem, tree, v) {
      assert PathOk(tree, v);
    }
  }
}
