/**
 What an operation costs. The allocator hands out the lowest free page each time, and a space takes a page for
 every table it does not have yet; so the cost of mapping is known beforehand, and what is left is known exactly.
 */
module Budget {
  import opened Pmm
  import opened PageTable
  import opened AddressSpaces

  // ---- taking pages from the bottom ----------------------------------------------------------------

  lemma {:induction false} HasLeast(s: set<nat>, x: nat)
    requires x in s
    ensures exists m :: m in s && forall y :: y in s ==> m <= y
    decreases x
  {
    if y :| y in s && y < x { HasLeast(s, y); }
  }

  ghost function Least(s: set<nat>): (m: nat)
    requires s != {}
    ensures m in s && forall y :: y in s ==> m <= y
  {
    var x :| x in s;
    HasLeast(s, x);
    var m :| m in s && forall y :: y in s ==> m <= y;
    m
  }

  // What is left of the free pages after n allocations.
  ghost function DropLowest(free: set<nat>, n: nat): (r: set<nat>)
    ensures r <= free
  {
    if n == 0 || free == {} then free else DropLowest(free - {Least(free)}, n - 1)
  }

  lemma {:induction false} DropTrans(free: set<nat>, i: nat, j: nat)
    ensures DropLowest(DropLowest(free, i), j) == DropLowest(free, i + j)
    decreases i
  {
    if i > 0 && free != {} { DropTrans(free - {Least(free)}, i - 1, j); }
  }

  lemma {:induction false} DropSize(free: set<nat>, n: nat)
    ensures |DropLowest(free, n)| == if n <= |free| then |free| - n else 0
    decreases n
  {
    if n > 0 && free != {} { DropSize(free - {Least(free)}, n - 1); }
  }

  lemma DropOne(free: set<nat>, f: nat)
    requires f in free && forall y :: y in free ==> f <= y
    ensures DropLowest(free, 1) == free - {f}
  {
    assert Least(free) == f;
    assert DropLowest(free - {f}, 0) == free - {f};
  }

  ghost predicate HasRun(free: set<nat>, n: nat) { exists s: nat :: Pmm.IsRun(free, s, n) }

  lemma RunNeedsPages(free: set<nat>, n: nat)
    requires HasRun(free, n) && n > 0
    ensures free != {}
  {
    var s: nat :| Pmm.IsRun(free, s, n);
    assert s in free;
  }

  // A block of free pages longer than what is taken still has its upper part.
  lemma {:induction false} RunLeft(free: set<nat>, n: nat, s: nat, k: nat)
    requires Pmm.IsRun(free, s, n + k)
    ensures Pmm.IsRun(DropLowest(free, n), s + n, k)
    decreases n
  {
    if n > 0 {
      assert s in free;
      var m := Least(free);
      assert Pmm.IsRun(free - {m}, s + 1, n - 1 + k);
      RunLeft(free - {m}, n - 1, s + 1, k);
    }
  }

  lemma RunKept(free: set<nat>, n: nat, k: nat)
    requires HasRun(free, n + k)
    ensures HasRun(DropLowest(free, n), k)
  {
    hide DropLowest;
    var s: nat :| Pmm.IsRun(free, s, n + k);
    RunLeft(free, n, s, k);
  }

  // ---- tables --------------------------------------------------------------------------------------

  // The tables of a space, by their paths.
  ghost function TableKeys(tree: Tree): set<Path> { set p | p in tree && |p| < 4 }

  // The tables on the way to page `v`, down to level k.
  ghost function Prefixes(v: Path, k: nat): set<Path>
    requires k <= |v|
  {
    if k == 0 then {} else Prefixes(v, k - 1) + {v[..k]}
  }

  /** The pages it takes to have tables `t` and n more pages: one for every table that is missing. */
  ghost function Cost(vm: Vm, r: nat, t: set<Path>, n: nat): nat
    requires r in vm.spaces
  {
    n + |t - TableKeys(vm.spaces[r])|
  }

  /** Space `r` now has tables `t`, and exactly their cost and n pages were taken from the bottom. */
  ghost predicate Built(a: Vm, b: Vm, r: nat, t: set<Path>, n: nat) {
    && r in a.spaces && r in b.spaces
    && TableKeys(b.spaces[r]) == TableKeys(a.spaces[r]) + t
    && Cost(a, r, t, n) <= |a.free| && b.free == DropLowest(a.free, Cost(a, r, t, n))
  }

  lemma CostSplit(a: Vm, b: Vm, r: nat, s: set<Path>, i: nat, t: set<Path>, j: nat)
    requires r in a.spaces && r in b.spaces && TableKeys(b.spaces[r]) == TableKeys(a.spaces[r]) + s
    ensures Cost(a, r, s + t, i + j) == Cost(a, r, s, i) + Cost(b, r, t, j)
  {
    hide TableKeys;
    var k := TableKeys(a.spaces[r]);
    var x, y := s - k, t - (k + s);
    assert (s + t) - k == x + y && x !! y;
    assert |x + y| == |x| + |y| by { assert x * y == {}; }
  }

  lemma CostGrows(a: Vm, r: nat, s: set<Path>, i: nat, t: set<Path>, j: nat)
    requires r in a.spaces
    ensures Cost(a, r, s, i) <= Cost(a, r, s + t, i + j)
  {
    hide TableKeys;
    var k := TableKeys(a.spaces[r]);
    var x, y := s - k, (t - s) - k;
    assert (s + t) - k == x + y && x * y == {};
    assert |x + y| == |x| + |y|;
  }

  lemma BuiltTrans(a: Vm, b: Vm, c: Vm, r: nat, s: set<Path>, i: nat, t: set<Path>, j: nat)
    requires Built(a, b, r, s, i) && Built(b, c, r, t, j)
    ensures Built(a, c, r, s + t, i + j)
  {
    hide TableKeys, DropLowest, Cost;
    CostSplit(a, b, r, s, i, t, j);
    DropSize(a.free, Cost(a, r, s, i));
    DropTrans(a.free, Cost(a, r, s, i), Cost(b, r, t, j));
  }

  // ---- huge pages ----------------------------------------------------------------------------------

  // No huge page lies in the lower half of the space, so a walk can only fail for want of a page.
  ghost predicate NoHuge(vm: Vm, r: nat)
    requires r in vm.spaces
  {
    forall p :: p in vm.spaces[r] && 1 <= |p| <= 2 && IsTable(vm.mem, vm.spaces[r][p]) ==>
      NoHugeIn(vm.mem[vm.spaces[r][p]].e)
  }

  predicate NoHugeIn(e: seq<Pte>) { forall i :: 0 <= i < |e| && e[i].p ==> !e[i].flags.ps }

  // ---- operations and their price ------------------------------------------------------------------

  /** An operation of cost (t, n): it succeeds with exactly that cost, or, without huge pages, because the cost
      exceeds what is free, and then nothing is free any more. */
  ghost predicate Paid(a: Vm, b: Vm, r: nat, t: set<Path>, n: nat, ok: bool) {
    && r in a.spaces && r in b.spaces
    && (ok ==> Built(a, b, r, t, n))
    && (NoHuge(a, r) ==> NoHuge(b, r))
    && (!ok && NoHuge(a, r) ==> |a.free| < Cost(a, r, t, n) && b.free == {})
  }

  // Success is decided beforehand.
  lemma PaidIff(a: Vm, b: Vm, r: nat, t: set<Path>, n: nat, ok: bool)
    requires Paid(a, b, r, t, n, ok)
    ensures NoHuge(a, r) ==> (ok <==> Cost(a, r, t, n) <= |a.free|)
  {
    hide TableKeys, DropLowest, Cost, NoHuge;
  }

  lemma PaidLeaves(a: Vm, b: Vm, r: nat, t: set<Path>, n: nat, ok: bool)
    requires Paid(a, b, r, t, n, ok)
    ensures NoHuge(a, r) ==> NoHuge(b, r) && (!ok ==> b.free == {})
    ensures ok ==> b.free == DropLowest(a.free, Cost(a, r, t, n))
  {
    hide TableKeys, DropLowest, Cost, NoHuge;
  }

  lemma PaidThen(a: Vm, b: Vm, c: Vm, r: nat, s: set<Path>, i: nat, t: set<Path>, j: nat, ok: bool)
    requires Paid(a, b, r, s, i, true) && Paid(b, c, r, t, j, ok)
    ensures Paid(a, c, r, s + t, i + j, ok)
  {
    hide TableKeys, DropLowest, Cost, NoHuge;
    if ok { BuiltTrans(a, b, c, r, s, i, t, j); }
    CostSplit(a, b, r, s, i, t, j);
    DropSize(a.free, Cost(a, r, s, i));
  }

  // A page first, then tables; and nothing more at the end.
  lemma PaidPage(a: Vm, b: Vm, c: Vm, r: nat, t: set<Path>, ok: bool)
    requires Paid(a, b, r, {}, 1, true) && Paid(b, c, r, t, 0, ok)
    ensures Paid(a, c, r, t, 1, ok)
  {
    hide Paid;
    PaidThen(a, b, c, r, {}, 1, t, 0, ok);
    assert {} + t == t;
  }

  lemma PaidSame(a: Vm, b: Vm, c: Vm, r: nat, t: set<Path>, n: nat)
    requires Paid(a, b, r, t, n, true) && Paid(b, c, r, {}, 0, true)
    ensures Paid(a, c, r, t, n, true)
  {
    hide Paid;
    PaidThen(a, b, c, r, t, n, {}, 0, true);
    assert t + {} == t;
  }

  lemma PaidMore(a: Vm, b: Vm, r: nat, s: set<Path>, i: nat, t: set<Path>, j: nat)
    requires Paid(a, b, r, s, i, false)
    ensures Paid(a, b, r, s + t, i + j, false)
  {
    hide TableKeys, DropLowest, Cost, NoHuge;
    CostGrows(a, r, s, i, t, j);
  }

  lemma PaidNow(a: Vm, r: nat)
    requires r in a.spaces
    ensures Paid(a, a, r, {}, 0, true)
  {
    hide NoHuge;
    NoTables(a, r, 0);
  }

  lemma NoTables(a: Vm, r: nat, n: nat)
    requires r in a.spaces
    ensures Cost(a, r, {}, n) == n
  {
    hide TableKeys;
    var none: set<Path> := {};
    assert none - TableKeys(a.spaces[r]) == none;
  }

  // Nothing but data pages written, nothing taken.
  lemma PaidNothing(a: Vm, b: Vm, r: nat)
    requires r in a.spaces && b.spaces == a.spaces && b.free == a.free
    requires forall f :: IsTable(b.mem, f) ==> IsTable(a.mem, f) && b.mem[f] == a.mem[f]
    ensures Paid(a, b, r, {}, 0, true)
  {
    NoTables(a, r, 0);
  }

  // One page taken, none of it for a table.
  lemma PaidTake(a: Vm, b: Vm, r: nat, f: nat)
    requires r in a.spaces && b.spaces == a.spaces && f in a.free && (forall y :: y in a.free ==> f <= y)
    requires b.free == a.free - {f}
    requires forall g :: IsTable(b.mem, g) ==> IsTable(a.mem, g) && b.mem[g] == a.mem[g]
    ensures Paid(a, b, r, {}, 1, true)
  {
    NoTables(a, r, 1);
    DropOne(a.free, f);
    NotEmpty(a.free, f);
    hide DropLowest, TableKeys;
  }

  lemma NotEmpty(s: set<nat>, f: nat)
    requires f in s
    ensures |s| >= 1
  {
  }

  // No page to take.
  lemma PaidNone(a: Vm, r: nat, t: set<Path>)
    requires r in a.spaces && a.free == {}
    ensures Paid(a, a, r, t, 1, false)
  {
    hide NoHuge, TableKeys;
  }

  // A table that is there costs nothing, a missing one a page.
  lemma BuiltThere(vm: Vm, r: nat, p: Path)
    requires r in vm.spaces && p in vm.spaces[r] && |p| < 4
    ensures Built(vm, vm, r, {p}, 0)
  {
    var k := TableKeys(vm.spaces[r]);
    assert p in k && k + {p} == k && {p} - k == {};
  }

  lemma BuiltTable(vm: Vm, r: nat, p: Path, i: nat, np: nat)
    requires r in vm.spaces && p in vm.spaces[r] && IsTable(vm.mem, vm.spaces[r][p]) && i < ENTRIES
    requires |p| < 3 && p + [i] !in vm.spaces[r] && np in vm.free && (forall y :: y in vm.free ==> np <= y)
    ensures Built(vm, AddTable(vm, r, p, i, np), r, {p + [i]}, 0)
  {
    var tree, q := vm.spaces[r], p + [i];
    var k := TableKeys(tree);
    assert AddTable(vm, r, p, i, np).spaces[r] == tree[q := np];
    assert TableKeys(tree[q := np]) == k + {q};
    assert {q} - k == {q};
    DropOne(vm.free, np);
    NotEmpty(vm.free, np);
  }

  lemma HugeTable(vm: Vm, r: nat, p: Path, i: nat, np: nat)
    requires r in vm.spaces && p in vm.spaces[r] && IsTable(vm.mem, vm.spaces[r][p]) && i < ENTRIES
    ensures NoHuge(vm, r) ==> NoHuge(AddTable(vm, r, p, i, np), r)
  {
  }

  // Writing a page entry costs nothing.
  lemma PaidLeaf(vm: Vm, r: nat, v: Path, e: Pte)
    requires Ok(vm) && r in vm.spaces && |v| == 4 && Parent(v) in vm.spaces[r]
    requires IsTable(vm.mem, vm.spaces[r][Parent(v)]) && Last(v) < ENTRIES
    ensures Paid(vm, SetLeaf(vm, r, v, e), r, {}, 0, true)
  {
    hide TableKeys, NoHuge, Ok, DropLowest;
    LeafKeys(vm, r, v, e);
    LeafHuge(vm, r, v, e);
    NoTables(vm, r, 0);
    DropNone(vm.free);
  }

  lemma DropNone(free: set<nat>)
    ensures DropLowest(free, 0) == free
  {
  }

  lemma LeafKeys(vm: Vm, r: nat, v: Path, e: Pte)
    requires r in vm.spaces && |v| == 4 && Parent(v) in vm.spaces[r]
    requires IsTable(vm.mem, vm.spaces[r][Parent(v)]) && Last(v) < ENTRIES
    ensures TableKeys(SetLeaf(vm, r, v, e).spaces[r]) == TableKeys(vm.spaces[r]) + {}
  {
    Split(v);
  }

  lemma LeafHuge(vm: Vm, r: nat, v: Path, e: Pte)
    requires Ok(vm) && r in vm.spaces && |v| == 4 && Parent(v) in vm.spaces[r]
    requires IsTable(vm.mem, vm.spaces[r][Parent(v)]) && Last(v) < ENTRIES
    ensures NoHuge(vm, r) ==> NoHuge(SetLeaf(vm, r, v, e), r)
  {
    hide Pages, Apart, TableOk, PathOk;
    assert TreeOk(vm.mem, r, vm.spaces[r]);
  }
}
