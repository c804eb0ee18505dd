/**
 The name space of the in-memory file system as a value (kernel-rs/src/fs/tmpfs.rs): a fixed table
 of nodes that point to their parents, path components, and the meaning of a path.
 */
module FileTree {
  import opened Common
  type Name = seq<Byte>

  const TN_MAX: nat := 192
  const VFS_NAME_MAX: nat := 24
  const SLASH: Byte := 47
  const DOT: Name := [46]
  const DOTDOT: Name := [46, 46]

  datatype Kind = Free | File | Dir

  // `name` is the raw 24-byte field; `off` and `size` locate a file's bytes in the pool.
  datatype Node = Node(name: seq<Byte>, kind: Kind, parent: nat, off: nat, size: nat)

  // ---- names -------------------------------------------------------------------------------------

  // The bytes before the first NUL.
  function NameBytes(raw: seq<Byte>): Name {
    if raw == [] || raw[0] == 0 then [] else [raw[0]] + NameBytes(raw[1..])
  }

  function Zeros(n: nat): (z: seq<Byte>)
    ensures |z| == n && forall i :: 0 <= i < n ==> z[i] == 0
  {
    seq(n, _ => 0)
  }

  // A name as the node table stores it: cut at 23 bytes, padded with NULs.
  function Stored(name: Name): (raw: seq<Byte>)
    ensures |raw| == VFS_NAME_MAX
  {
    var n := if |name| < VFS_NAME_MAX - 1 then |name| else VFS_NAME_MAX - 1;
    name[..n] + Zeros(VFS_NAME_MAX - n)
  }

  lemma {:induction false} NameBytesOfPrefix(name: Name, rest: seq<Byte>)
    requires 0 !in name && (rest == [] || rest[0] == 0)
    ensures NameBytes(name + rest) == name
  {
    if name == [] {
      assert name + rest == rest;
    } else {
      assert (name + rest)[1..] == name[1..] + rest;
      NameBytesOfPrefix(name[1..], rest);
    }
  }

  /** Names that fit and hold no NUL survive storage. */
  lemma StoredReads(name: Name)
    requires |name| < VFS_NAME_MAX && 0 !in name
    ensures NameBytes(Stored(name)) == name
  {
    assert name[..|name|] == name;
    NameBytesOfPrefix(name, Zeros(VFS_NAME_MAX - |name|));
  }

  predicate Plain(name: Name) {
    name != [] && |name| < VFS_NAME_MAX && 0 !in name && SLASH !in name && name != DOT && name != DOTDOT
  }

  predicate AllPlain(cs: seq<Name>) { forall i :: 0 <= i < |cs| ==> Plain(cs[i]) }

  // ---- path components -----------------------------------------------------------------------------

  // End of the run of non-slash bytes starting at `p`.
  function EndOf(path: seq<Byte>, p: nat): (e: nat)
    requires p <= |path|
    ensures p <= e <= |path|
    ensures forall k :: p <= k < e ==> path[k] != SLASH
    ensures e < |path| ==> path[e] == SLASH
    decreases |path| - p
  {
    if p < |path| && path[p] != SLASH then EndOf(path, p + 1) else p
  }

  // The components of the path from position `p` on.
  function Components(path: seq<Byte>, p: nat): seq<Name>
    requires p <= |path|
    decreases |path| - p
  {
    if p == |path| then []
    else if path[p] == SLASH then Components(path, p + 1)
    else [path[p..EndOf(path, p)]] + Components(path, EndOf(path, p))
  }

  // ---- the tree --------------------------------------------------------------------------------------

  predicate Shape(nodes: seq<Node>) {
    |nodes| == TN_MAX && forall i :: 0 <= i < TN_MAX ==> nodes[i].parent < TN_MAX && |nodes[i].name| == VFS_NAME_MAX
  }

  predicate Live(nodes: seq<Node>, i: nat) { i < |nodes| && nodes[i].kind != Free }

  predicate IsChild(nodes: seq<Node>, p: nat, name: Name, i: nat) {
    1 <= i < |nodes| && nodes[i].kind != Free && nodes[i].parent == p && NameBytes(nodes[i].name) == name
  }

  // The first node at or after `i` with the given parent and name.
  function ChildFrom(nodes: seq<Node>, p: nat, name: Name, i: nat): (r: Option<nat>)
    requires 1 <= i <= |nodes|
    ensures r.None? <==> forall k :: i <= k < |nodes| ==> !IsChild(nodes, p, name, k)
    ensures r.Some? ==> i <= r.value && IsChild(nodes, p, name, r.value) && forall k :: i <= k < r.value ==>
      !IsChild(nodes, p, name, k)
    decreases |nodes| - i
  {
    if i == |nodes| then None
    else if IsChild(nodes, p, name, i) then Some(i)
    else ChildFrom(nodes, p, name, i + 1)
  }

  function ChildOf(nodes: seq<Node>, p: nat, name: Name): Option<nat>
    requires 1 <= |nodes|
  {
    ChildFrom(nodes, p, name, 1)
  }

  // One component of path resolution.
  function Step(nodes: seq<Node>, cur: nat, comp: Name): Option<nat>
    requires 1 <= |nodes| && cur < |nodes|
  {
    if comp == DOT then Some(cur)
    else if comp == DOTDOT then Some(if cur != 0 then nodes[cur].parent else cur)
    else if |comp| >= VFS_NAME_MAX || nodes[cur].kind != Dir then None
    else ChildOf(nodes, cur, comp)
  }

  lemma StepInTable(nodes: seq<Node>, cur: nat, comp: Name)
    requires Shape(nodes) && cur < TN_MAX
    ensures Step(nodes, cur, comp).Some? ==> Step(nodes, cur, comp).value < TN_MAX
  {
  }

  /** Where a list of components leads from node `cur`. */
  function Follow(nodes: seq<Node>, cur: nat, cs: seq<Name>): (r: Option<nat>)
    requires Shape(nodes) && cur < TN_MAX
    ensures r.Some? ==> r.value < TN_MAX
    decreases |cs|
  {
    if cs == [] then Some(cur) else
      StepInTable(nodes, cur, cs[0]);
      match Step(nodes, cur, cs[0])
      case None => None
      case Some(next) => Follow(nodes, next, cs[1..])
  }

  lemma {:induction false} FollowAppend(nodes: seq<Node>, cur: nat, a: seq<Name>, b: seq<Name>)
    requires Shape(nodes) && cur < TN_MAX
    ensures Follow(nodes, cur, a + b) ==
      match Follow(nodes, cur, a) case None => None case Some(m) => Follow(nodes, m, b)
    decreases |a|
  {
    if a == [] {
      assert a + b == b;
    } else {
      assert (a + b)[0] == a[0] && (a + b)[1..] == a[1..] + b;
      StepInTable(nodes, cur, a[0]);
      var next := Step(nodes, cur, a[0]);
      if next.Some? { FollowAppend(nodes, next.value, a[1..], b); }
    }
  }

  // The n-th ancestor.
  function Ancestor(nodes: seq<Node>, i: nat, n: nat): (a: nat)
    requires Shape(nodes) && i < TN_MAX
    ensures a < TN_MAX
    decreases n
  {
    if n == 0 then i else Ancestor(nodes, nodes[i].parent, n - 1)
  }

  ghost predicate ReachesRoot(nodes: seq<Node>, i: nat)
    requires Shape(nodes) && i < TN_MAX
  {
    exists n: nat :: Ancestor(nodes, i, n) == 0
  }

  // Node `x` lies in the subtree of `i`.
  ghost predicate InSubtree(nodes: seq<Node>, i: nat, x: nat)
    requires Shape(nodes) && x < TN_MAX
  {
    exists n: nat :: Ancestor(nodes, x, n) == i
  }

  ghost predicate NodeOk(nodes: seq<Node>, i: nat)
    requires Shape(nodes) && i < TN_MAX
  {
    nodes[nodes[i].parent].kind == Dir && Plain(NameBytes(nodes[i].name)) && ReachesRoot(nodes, i)
  }

  /** The node table is a tree: the root is a directory, every other live node has a proper name that
      is unique in its parent, which is a live directory, and its chain of parents ends at the root. */
  ghost predicate TreeOk(nodes: seq<Node>) {
    && Shape(nodes) && nodes[0].kind == Dir && nodes[0].parent == 0
    && (forall i :: 1 <= i < TN_MAX && nodes[i].kind != Free ==> NodeOk(nodes, i))
    && (forall i, j ::
          1 <= i < TN_MAX && 1 <= j < TN_MAX && nodes[i].kind != Free && nodes[j].kind != Free && i != j ==>
          nodes[i].parent != nodes[j].parent || NameBytes(nodes[i].name) != NameBytes(nodes[j].name))
  }

  /** The path that leads from the root to node `i`, given that its chain has `n` links. */
  function PathTo(nodes: seq<Node>, i: nat, n: nat): seq<Name>
    requires Shape(nodes) && i < TN_MAX && Ancestor(nodes, i, n) == 0
    decreases n
  {
    if i == 0 then [] else PathTo(nodes, nodes[i].parent, n - 1) + [NameBytes(nodes[i].name)]
  }

  lemma FollowOne(nodes: seq<Node>, cur: nat, comp: Name)
    requires Shape(nodes) && cur < TN_MAX
    ensures Follow(nodes, cur, [comp]) == Step(nodes, cur, comp)
  {
    StepInTable(nodes, cur, comp);
    assert [comp][1..] == [];
  }

  lemma ChildIs(nodes: seq<Node>, p: nat, name: Name, i: nat)
    requires TreeOk(nodes) && IsChild(nodes, p, name, i)
    ensures ChildOf(nodes, p, name) == Some(i)
  {
  }

  /** Round trip: resolving a node's own path yields the node. */
  lemma {:induction false} PathLeadsBack(nodes: seq<Node>, i: nat, n: nat)
    requires TreeOk(nodes) && Live(nodes, i) && Ancestor(nodes, i, n) == 0
    ensures Follow(nodes, 0, PathTo(nodes, i, n)) == Some(i) && AllPlain(PathTo(nodes, i, n))
    decreases n
  {
    if i != 0 {
      assert NodeOk(nodes, i);
      var p, name := nodes[i].parent, NameBytes(nodes[i].name);
      PathLeadsBack(nodes, p, n - 1);
      FollowAppend(nodes, 0, PathTo(nodes, p, n - 1), [name]);
      ChildIs(nodes, p, name, i);
      FollowOne(nodes, p, name);
    }
  }

  // ---- chains of parents -------------------------------------------------------------------------------

  lemma {:induction false} LiveChain(nodes: seq<Node>, i: nat, n: nat)
    requires TreeOk(nodes) && Live(nodes, i)
    ensures Live(nodes, Ancestor(nodes, i, n))
    decreases n
  {
    if n > 0 {
      assert i != 0 ==> NodeOk(nodes, i);
      LiveChain(nodes, nodes[i].parent, n - 1);
    }
  }

  lemma {:induction false} RootStays(nodes: seq<Node>, n: nat)
    requires Shape(nodes) && nodes[0].parent == 0
    ensures Ancestor(nodes, 0, n) == 0
    decreases n
  {
    if n > 0 { RootStays(nodes, n - 1); }
  }

  lemma {:induction false} AncestorAdd(nodes: seq<Node>, i: nat, m: nat, n: nat)
    requires Shape(nodes) && i < TN_MAX
    ensures Ancestor(nodes, Ancestor(nodes, i, m), n) == Ancestor(nodes, i, m + n)
    decreases m
  {
    if m > 0 { AncestorAdd(nodes, nodes[i].parent, m - 1, n); }
  }

  // A chain that avoids the edited node is unchanged.
  lemma {:induction false} ChainKept(nodes: seq<Node>, nodes': seq<Node>, id: nat, i: nat, n: nat)
    requires Shape(nodes) && Shape(nodes') && id < TN_MAX && i < TN_MAX
    requires forall k :: 0 <= k < TN_MAX && k != id ==> nodes'[k].parent == nodes[k].parent
    requires forall k: nat :: k < n ==> Ancestor(nodes, i, k) != id
    ensures Ancestor(nodes', i, n) == Ancestor(nodes, i, n)
    decreases n
  {
    if n > 0 {
      assert Ancestor(nodes, i, 0) != id;
      forall k: nat | k < n - 1 ensures Ancestor(nodes, nodes[i].parent, k) != id {
        assert Ancestor(nodes, i, k + 1) != id;
      }
      ChainKept(nodes, nodes', id, nodes[i].parent, n - 1);
    }
  }

  // A chain leads to the same path whatever bound is used.
  lemma {:induction false} PathBound(nodes: seq<Node>, i: nat, n: nat, m: nat)
    requires Shape(nodes) && i < TN_MAX && Ancestor(nodes, i, n) == 0 && Ancestor(nodes, i, m) == 0
    ensures PathTo(nodes, i, n) == PathTo(nodes, i, m)
    decreases n
  {
    if i != 0 { PathBound(nodes, nodes[i].parent, n - 1, m - 1); }
  }

  /** A path of plain names that resolves is the path of the node it resolves to. */
  lemma {:induction false} PlainPathIsOwn(nodes: seq<Node>, q: seq<Name>)
    requires TreeOk(nodes) && AllPlain(q) && Follow(nodes, 0, q).Some?
    ensures var i := Follow(nodes, 0, q).value;
      Live(nodes, i) && Ancestor(nodes, i, |q|) == 0 && PathTo(nodes, i, |q|) == q
    decreases |q|
  {
    if q != [] {
      var a, c := q[..|q| - 1], q[|q| - 1];
      assert q == a + [c];
      FollowAppend(nodes, 0, a, [c]);
      PlainPathIsOwn(nodes, a);
      var m := Follow(nodes, 0, a).value;
      FollowOne(nodes, m, c);
    }
  }

  // ---- adding a node --------------------------------------------------------------------------------------

  // A chain of live nodes does not pass through a free slot.
  lemma LiveAvoidsFree(nodes: seq<Node>, id: nat, i: nat, n: nat)
    requires TreeOk(nodes) && id < TN_MAX && nodes[id].kind == Free && Live(nodes, i)
    ensures forall k: nat :: k < n ==> Ancestor(nodes, i, k) != id
  {
    forall k: nat | k < n ensures Ancestor(nodes, i, k) != id { LiveChain(nodes, i, k); }
  }

  lemma AddedNodeOk(nodes: seq<Node>, id: nat, v: Node, i: nat)
    requires TreeOk(nodes) && 1 <= id < TN_MAX && nodes[id].kind == Free && Live(nodes, i) && i != 0
    requires v.parent < TN_MAX && |v.name| == VFS_NAME_MAX
    ensures Shape(nodes[id := v]) && NodeOk(nodes[id := v], i)
  {
    var nodes' := nodes[id := v];
    assert NodeOk(nodes, i);
    var n: nat :| Ancestor(nodes, i, n) == 0;
    LiveAvoidsFree(nodes, id, i, n);
    ChainKept(nodes, nodes', id, i, n);
    LiveAvoidsFree(nodes, id, i, 2);
    assert Ancestor(nodes, i, 1) == nodes[i].parent;
  }

  /** Filling a free slot with a plainly named child that is not there yet keeps the tree a tree exactly
      when the parent is a directory; the code does not check that it is. */
  lemma AddKeepsTree(nodes: seq<Node>, id: nat, v: Node)
    requires TreeOk(nodes) && 1 <= id < TN_MAX && nodes[id].kind == Free && v.kind != Free
    requires Live(nodes, v.parent) && |v.name| == VFS_NAME_MAX && Plain(NameBytes(v.name))
    requires forall k :: 0 <= k < TN_MAX ==> !IsChild(nodes, v.parent, NameBytes(v.name), k)
    ensures TreeOk(nodes[id := v]) <==> nodes[v.parent].kind == Dir
  {
    hide NameBytes, Plain;
    var nodes' := nodes[id := v];
    assert nodes'[id] == v;
    if nodes[v.parent].kind == Dir {
      forall i | 1 <= i < TN_MAX && nodes'[i].kind != Free ensures NodeOk(nodes', i) {
        if i == id {
          AddedReaches(nodes, id, v);
        } else {
          AddedNodeOk(nodes, id, v, i);
        }
      }
      hide NodeOk;
      forall k | 1 <= k < TN_MAX && k != id && nodes[k].kind != Free
        ensures nodes[k].parent != v.parent || NameBytes(nodes[k].name) != NameBytes(v.name)
      {
        assert !IsChild(nodes, v.parent, NameBytes(v.name), k);
      }
    } else {
      assert nodes[v.parent] == nodes'[v.parent];
    }
  }

  lemma AddedReaches(nodes: seq<Node>, id: nat, v: Node)
    requires TreeOk(nodes) && 1 <= id < TN_MAX && nodes[id].kind == Free
    requires Live(nodes, v.parent) && |v.name| == VFS_NAME_MAX
    ensures Shape(nodes[id := v]) && ReachesRoot(nodes[id := v], id) && nodes[id := v][v.parent] == nodes[v.parent]
  {
    var nodes', p := nodes[id := v], v.parent;
    assert p != 0 ==> NodeOk(nodes, p);
    assert Ancestor(nodes, 0, 0) == 0;
    var n: nat :| Ancestor(nodes, p, n) == 0;
    LiveAvoidsFree(nodes, id, p, n + 1);
    ChainKept(nodes, nodes', id, p, n);
    assert Ancestor(nodes, p, 0) != id;
    assert Ancestor(nodes', id, n + 1) == 0;
  }

  // ---- removing a file --------------------------------------------------------------------------------------

  lemma {:induction false} SameParentsSameChain(nodes: seq<Node>, nodes': seq<Node>, i: nat, n: nat)
    requires Shape(nodes) && Shape(nodes') && i < TN_MAX
    requires forall k :: 0 <= k < TN_MAX ==> nodes'[k].parent == nodes[k].parent
    ensures Ancestor(nodes', i, n) == Ancestor(nodes, i, n)
    decreases n
  {
    if n > 0 { SameParentsSameChain(nodes, nodes', nodes[i].parent, n - 1); }
  }

  /** Freeing a file's slot keeps the tree a tree. */
  lemma RemoveKeepsTree(nodes: seq<Node>, id: nat)
    requires TreeOk(nodes) && 1 <= id < TN_MAX && nodes[id].kind == File
    ensures TreeOk(nodes[id := nodes[id].(kind := Free)])
  {
    hide NameBytes, Plain;
    var nodes' := nodes[id := nodes[id].(kind := Free)];
    forall i | 1 <= i < TN_MAX && nodes'[i].kind != Free ensures NodeOk(nodes', i) {
      assert NodeOk(nodes, i);
      var n: nat :| Ancestor(nodes, i, n) == 0;
      SameParentsSameChain(nodes, nodes', i, n);
    }
    hide NodeOk;
  }

  // Changing where a file's bytes lie does not touch the tree.
  lemma DataKeepsTree(nodes: seq<Node>, id: nat, off: nat, size: nat)
    requires TreeOk(nodes) && id < TN_MAX
    ensures TreeOk(nodes[id := nodes[id].(off := off, size := size)])
  {
    hide NameBytes, Plain;
    var nodes' := nodes[id := nodes[id].(off := off, size := size)];
    forall i | 1 <= i < TN_MAX && nodes'[i].kind != Free ensures NodeOk(nodes', i) {
      assert NodeOk(nodes, i);
      var n: nat :| Ancestor(nodes, i, n) == 0;
      SameParentsSameChain(nodes, nodes', i, n);
    }
    hide NodeOk;
  }

  // ---- renaming -----------------------------------------------------------------------------------------------

  function Moved(nodes: seq<Node>, id: nat, p: nat, leaf: Name): seq<Node>
    requires id < |nodes|
  {
    nodes[id := nodes[id].(parent := p, name := Stored(leaf))]
  }

  /** What rename is asked to do: `id` is a live node, `leaf` a plain name not yet taken in `p`. */
  ghost predicate MayMove(nodes: seq<Node>, id: nat, p: nat, leaf: Name) {
    && TreeOk(nodes) && Live(nodes, id) && id != 0 && Live(nodes, p) && Plain(leaf)
    && forall k :: 0 <= k < TN_MAX ==> !IsChild(nodes, p, leaf, k)
  }

  lemma MovedShape(nodes: seq<Node>, id: nat, p: nat, leaf: Name)
    requires MayMove(nodes, id, p, leaf)
    ensures Shape(Moved(nodes, id, p, leaf)) && NameBytes(Moved(nodes, id, p, leaf)[id].name) == leaf
  {
    StoredReads(leaf);
    hide NameBytes, Stored, NodeOk;
  }

  // The first time a chain meets `id`, if it does.
  lemma FirstMeet(nodes: seq<Node>, id: nat, x: nat, n: nat) returns (m: nat)
    requires Shape(nodes) && x < TN_MAX && Ancestor(nodes, x, n) == id
    ensures m <= n && Ancestor(nodes, x, m) == id && forall k: nat :: k < m ==> Ancestor(nodes, x, k) != id
  {
    m := 0;
    while Ancestor(nodes, x, m) != id
      invariant m <= n && forall k: nat :: k < m ==> Ancestor(nodes, x, k) != id
      decreases n - m
    {
      m := m + 1;
    }
  }

  // After a move out of the subtree, every chain still ends at the root.
  lemma MovedReaches(nodes: seq<Node>, id: nat, p: nat, leaf: Name, i: nat)
    requires MayMove(nodes, id, p, leaf) && !InSubtree(nodes, id, p) && Live(nodes, i)
    requires Shape(nodes) && Shape(Moved(nodes, id, p, leaf))
    ensures ReachesRoot(Moved(nodes, id, p, leaf), i)
  {
    hide NameBytes, Stored, Plain, TreeOk, IsChild;
    var nodes' := Moved(nodes, id, p, leaf);
    var up := LiveReaches(nodes, p);
    ChainKept(nodes, nodes', id, p, up);
    assert Ancestor(nodes', id, up + 1) == 0;
    var n := LiveReaches(nodes, i);
    if k: nat :| k < n && Ancestor(nodes, i, k) == id {
      var m := FirstMeet(nodes, id, i, k);
      ChainKept(nodes, nodes', id, i, m);
      AncestorAdd(nodes', i, m, up + 1);
      assert Ancestor(nodes', i, m + (up + 1)) == 0;
    } else {
      ChainKept(nodes, nodes', id, i, n);
    }
  }

  lemma LiveReaches(nodes: seq<Node>, i: nat) returns (n: nat)
    requires TreeOk(nodes) && Live(nodes, i)
    ensures Ancestor(nodes, i, n) == 0
  {
    if i == 0 {
      n := 0;
    } else {
      assert NodeOk(nodes, i);
      n :| Ancestor(nodes, i, n) == 0;
    }
  }

  // A move into the own subtree closes a cycle: from `id` the root is never reached.
  lemma {:induction false} CycleMissesRoot(nodes: seq<Node>, id: nat, p: nat, leaf: Name, m: nat, k: nat, n: nat)
    requires MayMove(nodes, id, p, leaf) && Shape(Moved(nodes, id, p, leaf))
    requires Ancestor(nodes, p, m) == id && (forall j: nat :: j < m ==> Ancestor(nodes, p, j) != id) && k <= m
    ensures Ancestor(Moved(nodes, id, p, leaf), Ancestor(nodes, p, k), n) != 0
    decreases n
  {
    hide NameBytes, Stored, Plain, NodeOk;
    var nodes', x := Moved(nodes, id, p, leaf), Ancestor(nodes, p, k);
    if x == 0 {
      AncestorAdd(nodes, p, k, m - k);
      RootStays(nodes, m - k);
      assert false;
    }
    if n > 0 {
      if k == m {
        assert nodes'[x].parent == p == Ancestor(nodes, p, 0);
        CycleMissesRoot(nodes, id, p, leaf, m, 0, n - 1);
      } else {
        AncestorAdd(nodes, p, k, 1);
        assert Ancestor(nodes, x, 1) == nodes[x].parent;
        CycleMissesRoot(nodes, id, p, leaf, m, k + 1, n - 1);
      }
    }
  }

  lemma MoveIntoSubtreeBreaks(nodes: seq<Node>, id: nat, p: nat, leaf: Name)
    requires MayMove(nodes, id, p, leaf) && InSubtree(nodes, id, p) && Shape(Moved(nodes, id, p, leaf))
    ensures !ReachesRoot(Moved(nodes, id, p, leaf), id)
  {
    hide NameBytes, Stored, Plain, NodeOk;
    var n: nat :| Ancestor(nodes, p, n) == id;
    var m := FirstMeet(nodes, id, p, n);
    forall k: nat ensures Ancestor(Moved(nodes, id, p, leaf), id, k) != 0 {
      CycleMissesRoot(nodes, id, p, leaf, m, m, k);
    }
  }

  lemma MovedNodeOk(nodes: seq<Node>, id: nat, p: nat, leaf: Name, i: nat)
    requires MayMove(nodes, id, p, leaf) && !InSubtree(nodes, id, p) && nodes[p].kind == Dir
    requires Shape(Moved(nodes, id, p, leaf)) && Live(nodes, i) && i != 0
    ensures NodeOk(Moved(nodes, id, p, leaf), i)
  {
    MovedReaches(nodes, id, p, leaf, i);
    MovedShape(nodes, id, p, leaf);
    hide NameBytes, Stored, Plain, ReachesRoot, InSubtree;
    assert NodeOk(nodes, i);
  }

  /** Renaming keeps the tree a tree exactly when the target parent is a directory outside the moved
      subtree; the code checks neither. */
  lemma MoveKeepsTree(nodes: seq<Node>, id: nat, p: nat, leaf: Name)
    requires MayMove(nodes, id, p, leaf)
    ensures TreeOk(Moved(nodes, id, p, leaf)) <==> nodes[p].kind == Dir && !InSubtree(nodes, id, p)
  {
    var nodes' := Moved(nodes, id, p, leaf);
    MovedShape(nodes, id, p, leaf);
    hide NameBytes, Stored, Plain, ReachesRoot, InSubtree;
    if nodes[p].kind == Dir && !InSubtree(nodes, id, p) {
      forall i | 1 <= i < TN_MAX && nodes'[i].kind != Free ensures NodeOk(nodes', i) {
        MovedNodeOk(nodes, id, p, leaf, i);
      }
      forall k | 1 <= k < TN_MAX && k != id && nodes[k].kind != Free
        ensures nodes[k].parent != p || NameBytes(nodes[k].name) != leaf
      {
        assert !IsChild(nodes, p, leaf, k);
      }
      hide NodeOk;
    } else if TreeOk(nodes') {
      assert NodeOk(nodes', id);
      if InSubtree(nodes, id, p) { MoveIntoSubtreeBreaks(nodes, id, p, leaf); }
      assert false;
    }
  }

  // ---- what renaming does to paths -------------------------------------------------------------------------------

  // Going down plain names, the start is an ancestor of the end.
  lemma {:induction false} FollowDown(nodes: seq<Node>, x: nat, cs: seq<Name>)
    requires TreeOk(nodes) && Live(nodes, x) && AllPlain(cs) && Follow(nodes, x, cs).Some?
    ensures Live(nodes, Follow(nodes, x, cs).value) && Ancestor(nodes, Follow(nodes, x, cs).value, |cs|) == x
    decreases |cs|
  {
    hide NameBytes, NodeOk, TreeOk;
    TreeShape(nodes);
    if cs != [] {
      assert Plain(cs[0]);
      var y := Step(nodes, x, cs[0]).value;
      FollowDown(nodes, y, cs[1..]);
      var z := Follow(nodes, x, cs).value;
      AncestorAdd(nodes, z, |cs| - 1, 1);
      assert Ancestor(nodes, y, 1) == nodes[y].parent == x;
    }
  }

  lemma TreeShape(nodes: seq<Node>)
    requires TreeOk(nodes)
    ensures Shape(nodes) && Live(nodes, 0)
  {
  }

  // No two children of `x` are called `c`.
  lemma OnlyChild(nodes: seq<Node>, x: nat, c: Name, i: nat)
    requires TreeOk(nodes) && IsChild(nodes, x, c, i)
    ensures forall k :: k != i ==> !IsChild(nodes, x, c, k)
  {
    hide NameBytes, NodeOk;
  }

  lemma MovedIsChild(nodes: seq<Node>, id: nat, p: nat, leaf: Name, x: nat, c: Name, k: nat)
    requires MayMove(nodes, id, p, leaf)
    ensures IsChild(Moved(nodes, id, p, leaf), x, c, k) <==>
      if k == id then x == p && c == leaf else IsChild(nodes, x, c, k)
  {
    MovedShape(nodes, id, p, leaf);
    hide NameBytes, Stored, NodeOk, TreeOk;
  }

  // The only lookups a move changes: the old place is gone, the new place is `id`.
  lemma MovedChild(nodes: seq<Node>, id: nat, p: nat, leaf: Name, x: nat, c: Name)
    requires MayMove(nodes, id, p, leaf) && x < TN_MAX
    ensures |Moved(nodes, id, p, leaf)| == TN_MAX
    ensures ChildOf(Moved(nodes, id, p, leaf), x, c) ==
      if x == p && c == leaf then Some(id)
      else if x == nodes[id].parent && c == NameBytes(nodes[id].name) then None
      else ChildOf(nodes, x, c)
  {
    var nodes' := Moved(nodes, id, p, leaf);
    MovedShape(nodes, id, p, leaf);
    assert IsChild(nodes, x, c, id) <==> x == nodes[id].parent && c == NameBytes(nodes[id].name);
    hide NameBytes, Stored, Plain, NodeOk, TreeOk, IsChild, ChildFrom;
    forall k: nat
      ensures IsChild(nodes', x, c, k) <==> if k == id then x == p && c == leaf else IsChild(nodes, x, c, k)
    {
      MovedIsChild(nodes, id, p, leaf, x, c, k);
    }
    if IsChild(nodes, x, c, id) { OnlyChild(nodes, x, c, id); }
  }

  // Inside the moved subtree, lookups are as before.
  lemma {:induction false} SubtreeFollow(nodes: seq<Node>, id: nat, p: nat, leaf: Name, x: nat, cs: seq<Name>)
    requires MayMove(nodes, id, p, leaf) && !InSubtree(nodes, id, p) && Shape(Moved(nodes, id, p, leaf))
    requires Live(nodes, x) && InSubtree(nodes, id, x) && AllPlain(cs)
    ensures Follow(Moved(nodes, id, p, leaf), x, cs) == Follow(nodes, x, cs)
    decreases |cs|
  {
    hide NameBytes, Stored, NodeOk;
    if cs != [] {
      assert Plain(cs[0]);
      OldParentOutside(nodes, id, x);
      MovedChild(nodes, id, p, leaf, x, cs[0]);
      var y := Step(nodes, x, cs[0]);
      if y.Some? {
        var n: nat :| Ancestor(nodes, x, n) == id;
        assert Ancestor(nodes, y.value, n + 1) == id;
        SubtreeFollow(nodes, id, p, leaf, y.value, cs[1..]);
      }
    }
  }

  // The parent of a node is not below it.
  lemma OldParentOutside(nodes: seq<Node>, id: nat, x: nat)
    requires TreeOk(nodes) && Live(nodes, id) && id != 0 && x < TN_MAX && InSubtree(nodes, id, x)
    ensures x != nodes[id].parent
  {
    hide NameBytes, Plain;
    if x == nodes[id].parent {
      var n: nat :| Ancestor(nodes, x, n) == id;
      var up := LiveReaches(nodes, id);
      LoopForever(nodes, id, n + 1, up);
      assert false;
    }
  }

  lemma {:induction false} LoopForever(nodes: seq<Node>, i: nat, m: nat, n: nat)
    requires Shape(nodes) && nodes[0].parent == 0 && 0 < i < TN_MAX && m > 0 && Ancestor(nodes, i, m) == i
    ensures Ancestor(nodes, i, n) != 0
    decreases n
  {
    if n >= m {
      LoopForever(nodes, i, m, n - m);
      AncestorAdd(nodes, i, m, n - m);
    } else if Ancestor(nodes, i, n) == 0 {
      AncestorAdd(nodes, i, n, m - n);
      RootStays(nodes, m - n);
      assert false;
    }
  }

  // Paths that lie under neither the old nor the new name resolve as before.
  lemma {:induction false} OutsideFollow(nodes: seq<Node>, id: nat, p: nat, leaf: Name, from: seq<Name>,
      into: seq<Name>, q: seq<Name>)
    requires MayMove(nodes, id, p, leaf) && Shape(Moved(nodes, id, p, leaf))
    requires AllPlain(from) && Follow(nodes, 0, from) == Some(nodes[id].parent)
    requires AllPlain(into) && Follow(nodes, 0, into) == Some(p)
    requires AllPlain(q) && !(from + [NameBytes(nodes[id].name)] <= q) && !(into + [leaf] <= q)
    ensures Follow(Moved(nodes, id, p, leaf), 0, q) == Follow(nodes, 0, q)
    decreases |q|
  {
    hide NameBytes, Stored, NodeOk, TreeOk, IsChild, ChildFrom, MayMove;
    MoveShapes(nodes, id, p, leaf);
    var nodes' := Moved(nodes, id, p, leaf);
    if q != [] {
      var a, c := q[..|q| - 1], q[|q| - 1];
      assert q == a + [c] && Plain(c);
      OutsideFollow(nodes, id, p, leaf, from, into, a);
      FollowAppend(nodes, 0, a, [c]);
      FollowAppend(nodes', 0, a, [c]);
      if Follow(nodes, 0, a).Some? {
        var x := Follow(nodes, 0, a).value;
        FollowOne(nodes, x, c);
        FollowOne(nodes', x, c);
        MovedChild(nodes, id, p, leaf, x, c);
        if x == p && c == leaf { SamePath(nodes, a, into); assert false; }
        if x == nodes[id].parent && c == NameBytes(nodes[id].name) { SamePath(nodes, a, from); assert false; }
      }
    }
  }

  // Two plain paths to one node are equal.
  lemma SamePath(nodes: seq<Node>, a: seq<Name>, b: seq<Name>)
    requires TreeOk(nodes) && AllPlain(a) && AllPlain(b) && Follow(nodes, 0, a).Some?
    requires Follow(nodes, 0, a) == Follow(nodes, 0, b)
    ensures a == b
  {
    PlainPathIsOwn(nodes, a);
    PlainPathIsOwn(nodes, b);
    PathBound(nodes, Follow(nodes, 0, a).value, |a|, |b|);
  }

  /** Renaming moves a whole subtree. When the target parent is a directory outside it: a path under the
      new name means what it meant under the old one, paths under the old name are gone, and every other
      plain path means what it meant before. */
  lemma RenameMovesSubtree(nodes: seq<Node>, id: nat, p: nat, leaf: Name, from: seq<Name>, into: seq<Name>,
      q: seq<Name>)
    requires MayMove(nodes, id, p, leaf) && nodes[p].kind == Dir && !InSubtree(nodes, id, p)
    requires AllPlain(from) && Follow(nodes, 0, from) == Some(nodes[id].parent)
    requires AllPlain(into) && Follow(nodes, 0, into) == Some(p) && AllPlain(q)
    ensures Shape(Moved(nodes, id, p, leaf))
    ensures var oldPath, newPath := from + [NameBytes(nodes[id].name)], into + [leaf];
      Follow(Moved(nodes, id, p, leaf), 0, q) ==
        if newPath <= q then Follow(nodes, 0, oldPath + q[|newPath|..])
        else if oldPath <= q then None
        else Follow(nodes, 0, q)
  {
    hide NameBytes, Stored, NodeOk, TreeOk, IsChild, MayMove, Plain;
    MoveShapes(nodes, id, p, leaf);
    var oldPath, newPath := from + [NameBytes(nodes[id].name)], into + [leaf];
    OldPathLeads(nodes, id, from);
    if newPath <= q {
      NewPathLeads(nodes, id, p, leaf, from, into);
      var rest := q[|newPath|..];
      assert q == newPath + rest;
      FollowAppend(Moved(nodes, id, p, leaf), 0, newPath, rest);
      FollowAppend(nodes, 0, oldPath, rest);
      assert Ancestor(nodes, id, 0) == id;
      SubtreeFollow(nodes, id, p, leaf, id, rest);
    } else if oldPath <= q {
      OldPathGone(nodes, id, p, leaf, from, into);
      assert q == oldPath + q[|oldPath|..];
      FollowAppend(Moved(nodes, id, p, leaf), 0, oldPath, q[|oldPath|..]);
    } else {
      OutsideFollow(nodes, id, p, leaf, from, into, q);
    }
  }

  // ---- any path after a move ---------------------------------------------------------------------------------

  // Following the components passes through node `id`.
  predicate Visits(nodes: seq<Node>, cur: nat, cs: seq<Name>, id: nat)
    requires Shape(nodes) && cur < TN_MAX
    decreases |cs|
  {
    cur == id || (cs != [] &&
      (StepInTable(nodes, cur, cs[0]);
       var n := Step(nodes, cur, cs[0]);
       n.Some? && Visits(nodes, n.value, cs[1..], id)))
  }

  // One step from outside the moved subtree: lost if it went to the moved node, otherwise unchanged and still outside.
  lemma MovedStep(nodes: seq<Node>, id: nat, p: nat, leaf: Name, x: nat, c: Name)
    requires MayMove(nodes, id, p, leaf) && Shape(Moved(nodes, id, p, leaf))
    requires Live(nodes, x) && !InSubtree(nodes, id, x) && Step(nodes, x, c).Some?
    ensures var y := Step(nodes, x, c).value;
      && y < TN_MAX && Live(nodes, y)
      && (if y == id then Step(Moved(nodes, id, p, leaf), x, c).None?
          else Step(Moved(nodes, id, p, leaf), x, c) == Some(y) && !InSubtree(nodes, id, y))
  {
    MoveShapes(nodes, id, p, leaf);
    StepInTable(nodes, x, c);
    var y := Step(nodes, x, c).value;
    assert x != id by { assert Ancestor(nodes, x, 0) == x; }
    if x != 0 { assert NodeOk(nodes, x); }
    hide NameBytes, Stored, Plain, TreeOk, NodeOk;
    assert Ancestor(nodes, y, 0) == y;
    if y != x && InSubtree(nodes, id, y) {
      var n: nat :| Ancestor(nodes, y, n) == id;
      if c == DOTDOT { assert Ancestor(nodes, x, n + 1) == id; }
    }
    if c != DOT && c != DOTDOT {
      MovedChild(nodes, id, p, leaf, x, c);
      assert IsChild(nodes, x, c, y);
      if y != id { ChildOutside(nodes, id, x, y); }
      hide MayMove;
    }
  }

  lemma ChildOutside(nodes: seq<Node>, id: nat, x: nat, y: nat)
    requires Shape(nodes) && x < TN_MAX && y < TN_MAX && y != id && nodes[y].parent == x && !InSubtree(nodes, id, x)
    ensures !InSubtree(nodes, id, y)
  {
    forall n: nat ensures Ancestor(nodes, y, n) != id {
      if n > 0 { assert Ancestor(nodes, y, n) == Ancestor(nodes, x, n - 1); }
    }
  }

  /** After a move, a path that resolved is lost if it passed through the moved node and means the same if not. */
  lemma {:induction false} MovedWalk(nodes: seq<Node>, id: nat, p: nat, leaf: Name, cur: nat, cs: seq<Name>)
    requires MayMove(nodes, id, p, leaf) && Shape(Moved(nodes, id, p, leaf))
    requires Live(nodes, cur) && !InSubtree(nodes, id, cur) && Follow(nodes, cur, cs).Some?
    ensures Follow(Moved(nodes, id, p, leaf), cur, cs) ==
      if Visits(nodes, cur, cs, id) then None else Follow(nodes, cur, cs)
    decreases |cs|
  {
    hide MayMove, InSubtree, Step, Moved;
    MoveShapes(nodes, id, p, leaf);
    Outside(nodes, id, cur);
    if cs != [] {
      MovedStep(nodes, id, p, leaf, cur, cs[0]);
      var y := Step(nodes, cur, cs[0]).value;
      if y != id { MovedWalk(nodes, id, p, leaf, y, cs[1..]); }
    }
  }

  lemma Outside(nodes: seq<Node>, id: nat, x: nat)
    requires Shape(nodes) && x < TN_MAX && !InSubtree(nodes, id, x)
    ensures x != id
  {
    assert Ancestor(nodes, x, 0) == x;
  }

  // Plain names only lead down, so they avoid what the end is not below.
  lemma {:induction false} PlainAvoids(nodes: seq<Node>, id: nat, cur: nat, cs: seq<Name>)
    requires TreeOk(nodes) && Live(nodes, cur) && AllPlain(cs) && Follow(nodes, cur, cs).Some?
    requires !InSubtree(nodes, id, Follow(nodes, cur, cs).value)
    ensures !Visits(nodes, cur, cs, id)
    decreases |cs|
  {
    hide TreeOk, Plain;
    TreeShape(nodes);
    FollowDown(nodes, cur, cs);
    if cs != [] {
      FollowDown(nodes, cur, cs[..1]);
      assert cs[..1] == [cs[0]];
      FollowOne(nodes, cur, cs[0]);
      PlainAvoids(nodes, id, Step(nodes, cur, cs[0]).value, cs[1..]);
    }
  }

  lemma OldPathLeads(nodes: seq<Node>, id: nat, from: seq<Name>)
    requires TreeOk(nodes) && Live(nodes, id) && id != 0 && Follow(nodes, 0, from) == Some(nodes[id].parent)
    ensures Follow(nodes, 0, from + [NameBytes(nodes[id].name)]) == Some(id)
  {
    assert NodeOk(nodes, id);
    var c := NameBytes(nodes[id].name);
    hide NameBytes, ReachesRoot, ChildFrom;
    FollowAppend(nodes, 0, from, [c]);
    FollowOne(nodes, nodes[id].parent, c);
    ChildIs(nodes, nodes[id].parent, c, id);
  }

  lemma NewPathLeads(nodes: seq<Node>, id: nat, p: nat, leaf: Name, from: seq<Name>, into: seq<Name>)
    requires MayMove(nodes, id, p, leaf) && nodes[p].kind == Dir && !InSubtree(nodes, id, p)
    requires Shape(Moved(nodes, id, p, leaf))
    requires AllPlain(from) && Follow(nodes, 0, from) == Some(nodes[id].parent)
    requires AllPlain(into) && Follow(nodes, 0, into) == Some(p)
    ensures Follow(Moved(nodes, id, p, leaf), 0, into + [leaf]) == Some(id)
  {
    hide NameBytes, Stored, NodeOk, TreeOk, IsChild, MayMove, Plain, ChildFrom;
    MoveShapes(nodes, id, p, leaf);
    var nodes', oldPath := Moved(nodes, id, p, leaf), from + [NameBytes(nodes[id].name)];
    OldPathLeads(nodes, id, from);
    if oldPath <= into {
      var rest := into[|oldPath|..];
      assert into == oldPath + rest;
      FollowAppend(nodes, 0, oldPath, rest);
      FollowDown(nodes, id, rest);
      assert false;
    }
    OutsideFollow(nodes, id, p, leaf, from, into, into);
    FollowAppend(nodes', 0, into, [leaf]);
    FollowOne(nodes', p, leaf);
    MovedChild(nodes, id, p, leaf, p, leaf);
    LeafIsPlain(leaf);
    assert p != id by { assert Ancestor(nodes, p, 0) == p; }
  }

  lemma OldPathGone(nodes: seq<Node>, id: nat, p: nat, leaf: Name, from: seq<Name>, into: seq<Name>)
    requires MayMove(nodes, id, p, leaf) && nodes[p].kind == Dir && !InSubtree(nodes, id, p)
    requires Shape(Moved(nodes, id, p, leaf))
    requires AllPlain(from) && Follow(nodes, 0, from) == Some(nodes[id].parent)
    requires AllPlain(into) && Follow(nodes, 0, into) == Some(p)
    requires !(into + [leaf] <= from + [NameBytes(nodes[id].name)])
    ensures Follow(Moved(nodes, id, p, leaf), 0, from + [NameBytes(nodes[id].name)]) == None
  {
    hide NameBytes, Stored, NodeOk, TreeOk, IsChild, MayMove, Plain, ChildFrom;
    MoveShapes(nodes, id, p, leaf);
    var nodes', c := Moved(nodes, id, p, leaf), NameBytes(nodes[id].name);
    OutsideFollow(nodes, id, p, leaf, from, into, from);
    FollowAppend(nodes', 0, from, [c]);
    FollowOne(nodes', nodes[id].parent, c);
    LeafIsPlain(c);
    MovedChild(nodes, id, p, leaf, nodes[id].parent, c);
  }

  lemma LeafIsPlain(c: Name)
    requires Plain(c)
    ensures c != DOT && c != DOTDOT && |c| < VFS_NAME_MAX
  {
  }

  // The basic facts about a move.
  lemma MoveShapes(nodes: seq<Node>, id: nat, p: nat, leaf: Name)
    requires MayMove(nodes, id, p, leaf)
    ensures TreeOk(nodes) && Shape(nodes) && Shape(Moved(nodes, id, p, leaf)) && id < TN_MAX && id != 0 && p < TN_MAX
    ensures Live(nodes, id) && Live(nodes, p) && Live(nodes, 0) && Plain(leaf) && Plain(NameBytes(nodes[id].name))
    ensures nodes[id].parent != p || NameBytes(nodes[id].name) != leaf
  {
    MovedShape(nodes, id, p, leaf);
    assert NodeOk(nodes, id) && !IsChild(nodes, p, leaf, id);
    hide NameBytes, Stored, Plain;
  }
}
