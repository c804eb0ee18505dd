/**
 The in-memory file system (kernel-rs/src/fs/tmpfs.rs): the node table and the byte pool, updated in
 place. Path operations are proved against the meaning of paths in FileTree; file storage is proved
 to behave like a map from node to byte string, although writes may move a file in the pool.
 */
module Tmpfs {
  import opened Common
  import opened FileTree
  import opened Paths

  const TN_POOL: nat := 1048576

  // ---- paths ---------------------------------------------------------------------------------------

  function Resolve(nodes: seq<Node>, path: seq<Byte>): Option<nat>
    requires Shape(nodes)
  {
    if path == [] || path[0] != SLASH then None else Follow(nodes, 0, Components(path, 1))
  }

  // Parent directory and last component.
  function ResolveParent(nodes: seq<Node>, path: seq<Byte>): Option<(nat, Name)>
    requires Shape(nodes)
  {
    if path == [] || path[0] != SLASH then None else
      var cs := Components(path, 1);
      if cs == [] then None else
        var leaf := cs[|cs| - 1];
        if |leaf| >= VFS_NAME_MAX || leaf == DOT || leaf == DOTDOT then None else
          match Follow(nodes, 0, cs[..|cs| - 1])
          case None => None
          case Some(p) => Some((p, leaf))
  }

  // Components are non-empty and free of slashes.
  lemma {:induction false} ComponentsClean(path: seq<Byte>, p: nat)
    requires p <= |path|
    ensures forall i :: 0 <= i < |Components(path, p)| ==>
      Components(path, p)[i] != [] && SLASH !in Components(path, p)[i] && (0 !in path ==> 0 !in Components(path, p)[i])
    decreases |path| - p
  {
    if p < |path| {
      if path[p] == SLASH {
        ComponentsClean(path, p + 1);
      } else {
        ComponentsClean(path, EndOf(path, p));
      }
    }
  }

  lemma LeafPlain(nodes: seq<Node>, path: seq<Byte>)
    requires Shape(nodes) && 0 !in path && ResolveParent(nodes, path).Some?
    ensures Plain(ResolveParent(nodes, path).value.1)
  {
    ComponentsClean(path, 1);
  }

  // Following any components from a live node of a tree ends at a live node.
  lemma {:induction false} FollowLive(nodes: seq<Node>, cur: nat, cs: seq<Name>)
    requires TreeOk(nodes) && Live(nodes, cur)
    ensures Follow(nodes, cur, cs).Some? ==> Live(nodes, Follow(nodes, cur, cs).value)
    decreases |cs|
  {
    hide NameBytes, Plain;
    if cs != [] {
      StepInTable(nodes, cur, cs[0]);
      var n := Step(nodes, cur, cs[0]);
      if n.Some? {
        assert cur != 0 ==> NodeOk(nodes, cur);
        FollowLive(nodes, n.value, cs[1..]);
      }
    }
  }

  // ---- the pool ------------------------------------------------------------------------------------

  predicate Disjoint(a: Node, b: Node) {
    a.off + a.size <= b.off || b.off + b.size <= a.off || a.size == 0 || b.size == 0
  }

  /** File extents lie below the allocation mark and do not overlap. */
  ghost predicate PoolOk(nodes: seq<Node>, used: nat) {
    && used <= TN_POOL
    && (forall i :: 0 <= i < |nodes| && nodes[i].kind == File ==> nodes[i].off + nodes[i].size <= used)
    && (forall i, j :: 0 <= i < j < |nodes| && nodes[i].kind == File && nodes[j].kind == File ==>
      Disjoint(nodes[i], nodes[j]))
  }

  predicate IsFile(nodes: seq<Node>, i: int) { 0 < i < |nodes| && nodes[i].kind == File }

  // The bytes of file `i`.
  function Contents(nodes: seq<Node>, pool: seq<Byte>, i: nat): seq<Byte>
    requires i < |nodes| && nodes[i].off + nodes[i].size <= |pool|
  {
    pool[nodes[i].off..nodes[i].off + nodes[i].size]
  }

  // `buf` written over `s` at `off`, extending it if need be.
  function Splice(s: seq<Byte>, off: nat, buf: seq<Byte>): seq<Byte>
    requires off <= |s|
  {
    s[..off] + buf + (if off + |buf| < |s| then s[off + |buf|..] else [])
  }

  class FileSystem {
    const nodes: array<Node>
    const pool: array<Byte>
    var used: nat

    ghost predicate Valid()
      reads this, nodes, pool
    {
      nodes.Length == TN_MAX && pool.Length == TN_POOL && Shape(nodes[..]) && PoolOk(nodes[..], used)
    }

    /** An empty root directory. */
    constructor ()
      ensures Valid() && TreeOk(nodes[..]) && fresh(nodes) && fresh(pool) && used == 0
      ensures forall i :: 1 <= i < TN_MAX ==> nodes[i].kind == Free
    {
      nodes := new Node[TN_MAX](i => Node(Zeros(VFS_NAME_MAX), if i == 0 then Dir else Free, 0, 0, 0));
      pool := new Byte[TN_POOL](_ => 0);
      used := 0;
    }

    // First live node with that parent and name.
    method FindChild(parent: nat, name: Name) returns (r: Option<nat>)
      requires Valid()
      ensures r == ChildOf(nodes[..], parent, name)
    {
      hide PoolOk, NameBytes;
      ghost var t := nodes[..];
      for i := 1 to TN_MAX
        invariant ChildFrom(t, parent, name, 1) == ChildFrom(t, parent, name, i)
      {
        if nodes[i].kind == Free || nodes[i].parent != parent { continue; }
        if NameBytes(nodes[i].name) == name { return Some(i); }
      }
      return None;
    }

    /** Path lookup: the hand-written scan does what following the components does. */
    method Lookup(path: seq<Byte>) returns (r: Option<nat>)
      requires Valid()
      ensures r == Resolve(nodes[..], path)
    {
      hide PoolOk, ChildFrom;
      ghost var t := nodes[..];
      if path == [] || path[0] != SLASH { return None; }
      var cur, p := 0, 1;
      while p < |path|
        invariant 1 <= p <= |path| && 0 <= cur < TN_MAX
        invariant Follow(t, 0, Components(path, 1)) == Follow(t, cur, Components(path, p))
        decreases |path| - p
      {
        p := SkipSlashes(path, p);
        if p >= |path| { break; }
        var e := ScanEnd(path, p);
        var comp := path[p..e];
        assert Components(path, p) == [comp] + Components(path, e);
        FollowFirst(t, cur, comp, Components(path, e));
        StepInTable(t, cur, comp);
        if comp == DOT {
        } else if comp == DOTDOT {
          if cur != 0 { cur := nodes[cur].parent; }
        } else {
          if |comp| >= VFS_NAME_MAX { return None; }
          if nodes[cur].kind != Dir { return None; }
          var c := FindChild(cur, comp);
          if c.None? { return None; }
          cur := c.value;
        }
        p := e;
      }
      return Some(cur);
    }

    /** Like Lookup for all but the last component. The parent is not required to be a directory. */
    method LookupParent(path: seq<Byte>) returns (r: Option<(nat, Name)>)
      requires Valid()
      ensures r == ResolveParent(nodes[..], path)
    {
      hide PoolOk, ChildFrom, Follow, Components;
      ghost var t, done: seq<Name> := nodes[..], [];
      if path == [] || path[0] != SLASH { return None; }
      var cur, p := 0, 1;
      FollowNone(t, 0);
      assert [] + Components(path, 1) == Components(path, 1);
      while true
        invariant 1 <= p <= |path| && 0 <= cur < TN_MAX
        invariant Components(path, 1) == done + Components(path, p) && Follow(t, 0, done) == Some(cur)
        invariant done != [] ==> p < |path| && path[p] != SLASH
        decreases |path| - p
      {
        p := SkipSlashes(path, p);
        if p >= |path| {
          NoComponents(path);
          return None;
        }
        var e := ScanEnd(path, p);
        var comp := path[p..e];
        FirstComponent(path, p);
        var e2 := SkipSlashes(path, e);
        ghost var rest := Components(path, e2);
        assert Components(path, 1) == (done + [comp]) + rest;
        LastSplit(done, comp);
        if e2 >= |path| {
          NoComponents(path);
          assert Components(path, 1) == done + [comp];
          if |comp| >= VFS_NAME_MAX { return None; }
          if comp == DOT || comp == DOTDOT { return None; }
          return Some((cur, comp));
        }
        FirstComponent(path, e2);
        FollowAppend(t, 0, done, [comp]);
        FollowOne(t, cur, comp);
        DeadEnd(t, done + [comp], rest);
        if comp == DOT {
        } else if comp == DOTDOT {
          if cur != 0 { cur := nodes[cur].parent; }
        } else {
          if |comp| >= VFS_NAME_MAX { return None; }
          if nodes[cur].kind != Dir { return None; }
          var c := FindChild(cur, comp);
          if c.None? { return None; }
          StepInTable(t, cur, comp);
          cur := c.value;
        }
        done := done + [comp];
        p := e2;
      }
    }

    // Takes the first free slot for an empty node.
    method AllocNode(parent: nat, name: Name, kind: Kind) returns (r: Option<nat>)
      requires Valid() && parent < TN_MAX && kind != Free
      modifies nodes
      ensures Valid()
      ensures r == FreeSlot(old(nodes[..]), 1)
      ensures r.None? ==> nodes[..] == old(nodes[..])
      ensures r.Some? ==> nodes[..] == old(nodes[..])[r.value := Node(Stored(name), kind, parent, used, 0)]
    {
      hide Stored;
      for i := 1 to TN_MAX
        invariant FreeSlot(nodes[..], 1) == FreeSlot(nodes[..], i)
      {
        if nodes[i].kind != Free { continue; }
        nodes[i] := Node(Stored(name), kind, parent, used, 0);
        assert nodes[..] == old(nodes[..])[i := Node(Stored(name), kind, parent, used, 0)];
        return Some(i);
      }
      return None;
    }

    /** Creates a directory. A tree stays a tree exactly when the parent is a directory, which is not
        checked; then the path leads to the new node, and every path that led somewhere still does. */
    method Mkdir(path: seq<Byte>) returns (ok: bool, ghost id: nat)
      requires Valid()
      modifies nodes
      ensures Valid()
      ensures ok <==> MayAdd(old(nodes[..]), path)
      ensures !ok ==> nodes[..] == old(nodes[..])
      ensures ok ==> Added(old(nodes[..]), nodes[..], path, id, Dir, used, 0)
    {
      hide PoolOk, ChildFrom, Components, Stored;
      id := 0;
      var r := LookupParent(path);
      if r.None? { return false, id; }
      var (parent, leaf) := r.value;
      ParentInTable(nodes[..], path);
      var c := FindChild(parent, leaf);
      if c.Some? { return false, id; }
      var n := AllocNode(parent, leaf, Dir);
      if n.None? { return false, id; }
      id := n.value;
      return true, id;
    }

    /** Removes a file; directories are refused. */
    method Unlink(path: seq<Byte>) returns (ok: bool)
      requires Valid()
      modifies nodes
      ensures Valid()
      ensures ok <==> Resolve(old(nodes[..]), path).Some? && IsFile(old(nodes[..]), Resolve(old(nodes[..]), path).value)
      ensures !ok ==> nodes[..] == old(nodes[..])
      ensures ok ==>
        var id := Resolve(old(nodes[..]), path).value; nodes[..] == old(nodes[..])[id := old(nodes[id]).(kind := Free)]
      ensures TreeOk(old(nodes[..])) ==> TreeOk(nodes[..])
    {
      hide ChildFrom, Components, Follow;
      var r := Lookup(path);
      if r.None? || r.value == 0 || nodes[r.value].kind != File { return false; }
      if TreeOk(nodes[..]) { RemoveKeepsTree(nodes[..], r.value); }
      hide TreeOk;
      nodes[r.value] := nodes[r.value].(kind := Free);
      assert nodes[..] == old(nodes[..])[r.value := old(nodes[r.value]).(kind := Free)];
      return true;
    }

    /** Moves a node to a new parent and name. It stays a tree exactly when the new parent is a directory
        outside the moved subtree; neither is checked. */
    method Rename(oldp: seq<Byte>, newp: seq<Byte>) returns (ok: bool)
      requires Valid()
      modifies nodes
      ensures Valid()
      ensures ok <==> MayRename(old(nodes[..]), oldp, newp)
      ensures !ok ==> nodes[..] == old(nodes[..])
      ensures ok ==> nodes[..] == Moved(old(nodes[..]), Resolve(old(nodes[..]), oldp).value,
        ResolveParent(old(nodes[..]), newp).value.0, ResolveParent(old(nodes[..]), newp).value.1)
    {
      hide ChildFrom, Components, Follow, Stored;
      var r := Lookup(oldp);
      if r.None? || r.value == 0 { return false; }
      var q := LookupParent(newp);
      if q.None? { return false; }
      var (parent, leaf) := q.value;
      ParentInTable(nodes[..], newp);
      var c := FindChild(parent, leaf);
      if c.Some? { return false; }
      var id := r.value;
      nodes[id] := nodes[id].(parent := parent, name := Stored(leaf));
      assert nodes[..] == Moved(old(nodes[..]), id, parent, leaf);
      return true;
    }

    // ---- file contents ---------------------------------------------------------------------------

    method CopyIn(at: nat, data: seq<Byte>)
      requires at + |data| <= pool.Length
      modifies pool
      ensures forall k :: 0 <= k < pool.Length ==>
        pool[k] == if at <= k < at + |data| then data[k - at] else old(pool[k])
    {
      for i := 0 to |data|
        invariant forall k :: 0 <= k < pool.Length ==>
          pool[k] == if at <= k < at + i then data[k - at] else old(pool[k])
      {
        pool[at + i] := data[i];
      }
    }

    /** Reads up to `len` bytes at `off`; None for anything that is not a file. */
    method NodeRead(id: int, off: nat, len: nat) returns (r: Option<seq<Byte>>)
      requires Valid()
      ensures r.Some? <==> IsFile(nodes[..], id)
      ensures r.Some? ==> r.value == Slice(Contents(nodes[..], pool[..], id), off, len)
      ensures r.Some? ==> var bytes := Contents(nodes[..], pool[..], id);
        && |r.value| == (if off >= |bytes| then 0 else if len <= |bytes| - off then len else |bytes| - off)
        && forall k :: 0 <= k < |r.value| ==> r.value[k] == bytes[off + k]
    {
      if id <= 0 || id >= TN_MAX || nodes[id].kind != File { return None; }
      var n := nodes[id];
      if off > n.size { return Some([]); }
      var l := if off + len > n.size then n.size - off else len;
      ghost var ps := pool[..];
      SliceOfSlice(ps, n.off, n.size, off, l);
      return Some(pool[n.off + off..n.off + off + l]);
    }

    // Moves file `id` to the fresh extent [used, used + size), whose first bytes are `data`.
    method Relocate(id: nat, data: seq<Byte>, size: nat)
      requires Valid() && IsFile(nodes[..], id) && |data| <= size && used + size <= TN_POOL
      modifies this`used, nodes, pool
      ensures Valid() && used == old(used) + size
      ensures nodes[..] == old(nodes[..])[id := old(nodes[id]).(off := old(used), size := size)]
      ensures |Contents(nodes[..], pool[..], id)| == size && data <= Contents(nodes[..], pool[..], id)
      ensures OthersKept(old(nodes[..]), old(pool[..]), nodes[..], pool[..], id)
    {
      CopyIn(used, data);
      FreshExtent(nodes[..], used, id, size);
      nodes[id] := nodes[id].(off := used, size := size);
      used := used + size;
      assert nodes[..] == old(nodes[..])[id := old(nodes[id]).(off := old(used), size := size)];
      hide Shape;
      OthersBelow(old(nodes[..]), old(pool[..]), nodes[..], pool[..], old(used), id);
    }

    // Overwrites part of file `id` where it lies.
    method Overwrite(id: nat, off: nat, buf: seq<Byte>)
      requires Valid() && IsFile(nodes[..], id) && off + |buf| <= nodes[id].size
      modifies pool
      ensures Valid() && Contents(nodes[..], pool[..], id) == Splice(Contents(nodes[..], old(pool[..]), id), off, buf)
      ensures OthersKept(nodes[..], old(pool[..]), nodes[..], pool[..], id)
    {
      CopyIn(nodes[id].off + off, buf);
      hide Shape;
      OthersApart(nodes[..], old(pool[..]), pool[..], used, id, off, buf);
    }

    /** Writes `buf` at `off`, moving the file to fresh pool space when it grows. To the reader it is a plain
        splice of that one file; no other file changes. Sparse writes and a full pool are refused. */
    method NodeWrite(id: int, off: nat, buf: seq<Byte>) returns (ok: bool)
      requires Valid()
      modifies this`used, nodes, pool
      ensures Valid()
      ensures ok <==>
        && 0 < id < TN_MAX && old(nodes[..])[id].kind == File && off <= old(nodes[..])[id].size
        && (off + |buf| <= old(nodes[..])[id].size || old(used) + off + |buf| <= TN_POOL)
      ensures !ok ==> nodes[..] == old(nodes[..]) && pool[..] == old(pool[..]) && used == old(used)
      ensures ok ==>
        && IsFile(nodes[..], id)
        && Contents(nodes[..], pool[..], id) == Splice(Contents(old(nodes[..]), old(pool[..]), id), off, buf)
      ensures ok ==> OthersKept(old(nodes[..]), old(pool[..]), nodes[..], pool[..], id)
      ensures ok ==> exists o, z :: nodes[..] == old(nodes[..])[id := old(nodes[..])[id].(off := o, size := z)]
    {
      hide OthersKept;
      if id <= 0 || id >= TN_MAX || nodes[id].kind != File { return false; }
      if off > nodes[id].size { return false; }
      ghost var a, ap := nodes[..], pool[..];
      var n, need := nodes[id], off + |buf|;
      assert a == a[id := n.(off := n.off, size := n.size)];
      ghost var bytes := Contents(a, ap, id);
      if need > n.size {
        if used + need > TN_POOL { return false; }
        Relocate(id, pool[n.off..n.off + n.size], need);
        ghost var b, bp := nodes[..], pool[..];
        GrownSplice(bytes, Contents(b, bp, id), off, buf);
        Overwrite(id, off, buf);
        KeptTwice(a, ap, b, bp, pool[..], id);
      } else {
        Overwrite(id, off, buf);
      }
      return true;
    }

    /** Creates a file, or replaces the contents of an existing one. When the pool is full a new file is
        left behind, empty, although the call fails. */
    method Create(path: seq<Byte>, data: seq<Byte>) returns (r: Option<nat>)
      requires Valid()
      modifies this`used, nodes, pool
      ensures Valid()
      ensures r.Some? ==> IsFile(nodes[..], r.value) && Contents(nodes[..], pool[..], r.value) == data
      ensures r.Some? ==> OthersKept(old(nodes[..]), old(pool[..]), nodes[..], pool[..], r.value)
      ensures r.Some? ==> Created(old(nodes[..]), nodes[..], path, r.value, old(used), |data|)
      ensures r.None? ==> (nodes[..] == old(nodes[..]) <==> !MayAdd(old(nodes[..]), path))
      ensures r.None? && MayAdd(old(nodes[..]), path) ==>
        exists id :: Added(old(nodes[..]), nodes[..], path, id, File, old(used), 0)
      ensures r.Some? <==> MayCreate(old(nodes[..]), path) && old(used) + |data| <= TN_POOL
      ensures used == old(used) + if r.Some? then |data| else 0
      ensures r.None? ==> pool[..] == old(pool[..])
    {
      hide ChildFrom, Components, Stored, Follow;
      ghost var a, ap := nodes[..], pool[..];
      var q := LookupParent(path);
      if q.None? { return None; }
      var (parent, leaf) := q.value;
      ParentInTable(a, path);
      var c := FindChild(parent, leaf);
      var id: nat;
      if c.None? {
        var n := AllocNode(parent, leaf, File);
        if n.None? { return None; }
        id := n.value;
        assert Added(a, nodes[..], path, id, File, used, 0);
      } else {
        id := c.value;
        ChildInTable(a, parent, leaf);
        if nodes[id].kind != File { return None; }
      }
      ghost var b := nodes[..];
      if used + |data| > TN_POOL { return None; }
      NewFileKeeps(a, b, ap, used, id);
      Relocate(id, data, |data|);
      KeptThrough(a, ap, b, nodes[..], pool[..], id);
      return Some(id);
    }
  }

  function Slice(s: seq<Byte>, off: nat, len: nat): seq<Byte> {
    if off > |s| then [] else if off + len > |s| then s[off..] else s[off..off + len]
  }

  /** A write is what a later read sees: the bytes written, and around them the bytes from before. */
  lemma SpliceReads(s: seq<Byte>, off: nat, buf: seq<Byte>)
    requires off <= |s|
    ensures Slice(Splice(s, off, buf), off, |buf|) == buf
    ensures Slice(Splice(s, off, buf), 0, off) == s[..off]
    ensures forall k :: off + |buf| <= k < |s| ==> k < |Splice(s, off, buf)| && Splice(s, off, buf)[k] == s[k]
    ensures |Splice(s, off, buf)| == if off + |buf| > |s| then off + |buf| else |s|
  {
    var t := Splice(s, off, buf);
    assert t[off..off + |buf|] == buf && t[0..off] == s[..off];
  }

  /** The round trip through the pool: reading back a successful write gives the bytes written. */
  method WriteThenRead(fs: FileSystem, id: int, off: nat, buf: seq<Byte>) returns (ok: bool, r: Option<seq<Byte>>)
    requires fs.Valid()
    modifies fs`used, fs.nodes, fs.pool
    ensures fs.Valid() && (ok <==> MayWrite(old(fs.nodes[..]), old(fs.used), id, off, |buf|))
    ensures ok ==> r == Some(buf)
  {
    hide Shape, OthersKept, Splice, Slice;
    ghost var bytes := if IsFile(fs.nodes[..], id) then Contents(fs.nodes[..], fs.pool[..], id) else [];
    ok := fs.NodeWrite(id, off, buf);
    r := fs.NodeRead(id, off, |buf|);
    if ok { SpliceReads(bytes, off, buf); }
  }

  predicate MayWrite(nodes: seq<Node>, used: nat, id: int, off: nat, len: nat) {
    IsFile(nodes, id) && off <= nodes[id].size && (off + len <= nodes[id].size || used + off + len <= TN_POOL)
  }

  ghost predicate OthersKept(a: seq<Node>, ap: seq<Byte>, b: seq<Node>, bp: seq<Byte>, id: int) {
    |a| == |b| && forall k :: 0 <= k < |a| && k != id && IsFile(a, k) ==>
      && IsFile(b, k) && a[k].off + a[k].size <= |ap| && b[k].off + b[k].size <= |bp|
      && Contents(b, bp, k) == Contents(a, ap, k)
  }

  lemma SliceOfSlice(s: seq<Byte>, at: nat, size: nat, off: nat, len: nat)
    requires at + size <= |s| && off + len <= size
    ensures s[at..at + size][off..off + len] == s[at + off..at + off + len]
  {
    var x, y := s[at..at + size][off..off + len], s[at + off..at + off + len];
    assert forall k :: 0 <= k < len ==> x[k] == y[k];
  }

  lemma FreshExtent(a: seq<Node>, used: nat, id: nat, size: nat)
    requires PoolOk(a, used) && id < |a| && used + size <= TN_POOL
    ensures PoolOk(a[id := a[id].(off := used, size := size)], used + size)
  {
  }

  // Files below the old mark keep their bytes when only bytes above it were written.
  lemma OthersBelow(a: seq<Node>, ap: seq<Byte>, b: seq<Node>, bp: seq<Byte>, used: nat, id: nat)
    requires PoolOk(a, used) && |ap| == |bp| == TN_POOL && id < |a| == |b|
    requires forall k :: 0 <= k < |a| && k != id ==> b[k] == a[k]
    requires forall k :: 0 <= k < used ==> bp[k] == ap[k]
    ensures OthersKept(a, ap, b, bp, id)
  {
  }

  lemma OthersApart(a: seq<Node>, ap: seq<Byte>, bp: seq<Byte>, used: nat, id: nat, off: nat, buf: seq<Byte>)
    requires PoolOk(a, used) && |ap| == |bp| == TN_POOL && IsFile(a, id) && off + |buf| <= a[id].size
    requires forall k :: 0 <= k < TN_POOL ==>
      bp[k] == if a[id].off + off <= k < a[id].off + off + |buf| then buf[k - (a[id].off + off)] else ap[k]
    ensures OthersKept(a, ap, a, bp, id)
    ensures Contents(a, bp, id) == Splice(Contents(a, ap, id), off, buf)
  {
    forall k | 0 <= k < |a| && k != id && IsFile(a, k) ensures Contents(a, bp, k) == Contents(a, ap, k) {
      assert Disjoint(a[k], a[id]) by { assert k < id || id < k; }
    }
  }

  lemma GrownSplice(bytes: seq<Byte>, grown: seq<Byte>, off: nat, buf: seq<Byte>)
    requires off <= |bytes| && bytes <= grown && |grown| == off + |buf|
    ensures Splice(grown, off, buf) == Splice(bytes, off, buf) || |bytes| > off + |buf|
  {
    assert grown[..off] == bytes[..off];
  }

  lemma KeptTwice(a: seq<Node>, ap: seq<Byte>, b: seq<Node>, bp: seq<Byte>, cp: seq<Byte>, id: nat)
    requires OthersKept(a, ap, b, bp, id) && OthersKept(b, bp, b, cp, id)
    ensures OthersKept(a, ap, b, cp, id)
  {
  }

  lemma KeptThrough(a: seq<Node>, ap: seq<Byte>, b: seq<Node>, c: seq<Node>, cp: seq<Byte>, id: nat)
    requires OthersKept(a, ap, b, ap, id) && OthersKept(b, ap, c, cp, id)
    ensures OthersKept(a, ap, c, cp, id)
  {
  }

  // Before the data is stored: either the table is unchanged or a free slot became an empty file.
  lemma NewFileKeeps(a: seq<Node>, b: seq<Node>, ap: seq<Byte>, used: nat, id: nat)
    requires PoolOk(a, used) && |ap| == TN_POOL && id < |a| == |b| && forall k :: 0 <= k < |a| && k != id ==>
      b[k] == a[k]
    ensures OthersKept(a, ap, b, ap, id)
  {
  }

  lemma ChildInTable(a: seq<Node>, p: nat, name: Name)
    requires Shape(a)
    ensures ChildOf(a, p, name).Some? ==> 1 <= ChildOf(a, p, name).value < TN_MAX
  {
  }

  ghost predicate MayCreate(nodes: seq<Node>, path: seq<Byte>)
    requires Shape(nodes)
  {
    var r := ResolveParent(nodes, path);
    r.Some? && match ChildOf(nodes, r.value.0, r.value.1)
               case None => FreeSlot(nodes, 1).Some?
               case Some(id) => IsFile(nodes, id)
  }

  // `id` is the file at `path`, new or old, and its bytes are at `off`.
  ghost predicate Created(a: seq<Node>, b: seq<Node>, path: seq<Byte>, id: nat, off: nat, size: nat)
    requires Shape(a)
  {
    var r := ResolveParent(a, path);
    r.Some? && match ChildOf(a, r.value.0, r.value.1)
               case None => Added(a, b, path, id, File, off, size)
               case Some(c) => id == c && id < |a| && b == a[id := a[id].(off := off, size := size)]
  }

  // The parent exists, the name is not taken, and there is a free slot.
  ghost predicate MayAdd(nodes: seq<Node>, path: seq<Byte>)
    requires Shape(nodes)
  {
    var r := ResolveParent(nodes, path);
    r.Some? && ChildOf(nodes, r.value.0, r.value.1).None? && FreeSlot(nodes, 1).Some?
  }

  // The first free slot `id` became a node of that name in that parent.
  ghost predicate Added(a: seq<Node>, b: seq<Node>, path: seq<Byte>, id: nat, kind: Kind, off: nat, size: nat)
    requires Shape(a)
  {
    var r := ResolveParent(a, path);
    && r.Some? && FreeSlot(a, 1) == Some(id) && |a| == |b| && 1 <= id < |a|
    && b == a[id := Node(Stored(r.value.1), kind, r.value.0, off, size)]
  }

  ghost predicate MayRename(nodes: seq<Node>, oldp: seq<Byte>, newp: seq<Byte>)
    requires Shape(nodes)
  {
    var r, q := Resolve(nodes, oldp), ResolveParent(nodes, newp);
    r.Some? && r.value != 0 && q.Some? && ChildOf(nodes, q.value.0, q.value.1).None?
  }

  predicate UsableLeaf(leaf: Name) { |leaf| <= 23 && leaf != [46] && leaf != [46, 46] }

  ghost predicate HasFreeSlot(nodes: seq<Node>) { exists i :: 1 <= i < |nodes| && nodes[i].kind == Free }

  /** When a name can be added, moved to or created, in terms of where paths lead: the directories before the last
      component are there, that component is short enough and not "." or "..", and the path leads nowhere yet. */
  lemma WhenFree(nodes: seq<Node>, path: seq<Byte>, cs: seq<Name>, leaf: Name)
    requires TreeOk(nodes) && path != [] && path[0] == SLASH && Components(path, 1) == cs + [leaf]
    ensures MayAdd(nodes, path) <==>
      Follow(nodes, 0, cs).Some? && UsableLeaf(leaf) && Resolve(nodes, path).None? && HasFreeSlot(nodes)
    ensures forall oldp :: MayRename(nodes, oldp, path) <==>
      && Resolve(nodes, oldp).Some? && Resolve(nodes, oldp) != Some(0)
      && Follow(nodes, 0, cs).Some? && UsableLeaf(leaf) && Resolve(nodes, path).None?
    ensures MayCreate(nodes, path) <==>
      && Follow(nodes, 0, cs).Some? && UsableLeaf(leaf)
      && match Resolve(nodes, path) { case None => HasFreeSlot(nodes) case Some(id) => nodes[id].kind == File }
  {
    hide ChildFrom, Components, TreeOk, Follow, NameBytes;
    TreeShape(nodes);
    assert (cs + [leaf])[..|cs|] == cs;
    FollowAppend(nodes, 0, cs, [leaf]);
    if Follow(nodes, 0, cs).Some? {
      var p := Follow(nodes, 0, cs).value;
      FollowOne(nodes, p, leaf);
      ChildInTable(nodes, p, leaf);
      if nodes[p].kind != Dir { ChildlessFile(nodes, p, leaf); }
    }
  }

  lemma ChildlessFile(nodes: seq<Node>, p: nat, c: Name)
    requires TreeOk(nodes) && p < TN_MAX && nodes[p].kind != Dir
    ensures ChildOf(nodes, p, c).None?
  {
    hide NameBytes, Plain;
    forall k | 1 <= k < |nodes| ensures !IsChild(nodes, p, c, k) {
      assert nodes[k].kind != Free ==> NodeOk(nodes, k);
    }
  }

  /** A path that is not absolute, or has no component, names nothing that could be made. */
  lemma NeverFree(nodes: seq<Node>, path: seq<Byte>)
    requires Shape(nodes) && (path == [] || path[0] != SLASH || Components(path, 1) == [])
    ensures !MayAdd(nodes, path) && !MayCreate(nodes, path) && forall oldp :: !MayRename(nodes, oldp, path)
  {
  }

  lemma ParentInTable(nodes: seq<Node>, path: seq<Byte>)
    requires Shape(nodes)
    ensures ResolveParent(nodes, path).Some? ==> ResolveParent(nodes, path).value.0 < TN_MAX
  {
  }

  // ---- what adding does to paths ------------------------------------------------------------------------

  // A lookup that found something finds the same after a node was added in a free slot.
  lemma {:induction false} AddKeepsLookups(a: seq<Node>, id: nat, v: Node, cur: nat, cs: seq<Name>)
    requires TreeOk(a) && 1 <= id < TN_MAX && a[id].kind == Free && Live(a, cur) && Shape(a[id := v])
    requires forall k :: 0 <= k < TN_MAX ==> !IsChild(a, v.parent, NameBytes(v.name), k)
    ensures Follow(a, cur, cs).Some? ==> Follow(a[id := v], cur, cs) == Follow(a, cur, cs)
    decreases |cs|
  {
    hide NameBytes, Plain, NodeOk;
    if cs != [] && Step(a, cur, cs[0]).Some? {
      var c := cs[0];
      var n := Step(a, cur, c).value;
      FollowOne(a, cur, c);
      FollowLive(a, cur, [c]);
      if c != DOT && c != DOTDOT { ChildKept(a, id, v, cur, c); }
      AddKeepsLookups(a, id, v, n, cs[1..]);
    }
  }

  lemma ChildKept(a: seq<Node>, id: nat, v: Node, cur: nat, c: Name)
    requires Shape(a) && 1 <= id < TN_MAX && a[id].kind == Free && Shape(a[id := v])
    requires forall k :: 0 <= k < TN_MAX ==> !IsChild(a, v.parent, NameBytes(v.name), k)
    requires ChildOf(a, cur, c).Some?
    ensures ChildOf(a[id := v], cur, c) == ChildOf(a, cur, c)
  {
    hide NameBytes;
    var b, r := a[id := v], ChildOf(a, cur, c).value;
    assert forall k :: k != id ==> (IsChild(b, cur, c, k) <==> IsChild(a, cur, c, k));
    assert !IsChild(a, v.parent, NameBytes(v.name), r);
    assert !IsChild(b, cur, c, id);
  }

  // What Added says about the new node.
  lemma AddedNode(a: seq<Node>, b: seq<Node>, path: seq<Byte>, id: nat, kind: Kind, off: nat, size: nat)
    requires TreeOk(a) && 0 !in path && MayAdd(a, path) && kind != Free && Added(a, b, path, id, kind, off, size)
    ensures var (p, leaf) := ResolveParent(a, path).value;
      && b == a[id := b[id]] && b[id].parent == p && NameBytes(b[id].name) == leaf && Plain(leaf)
      && |b[id].name| == VFS_NAME_MAX
      && 1 <= id < TN_MAX && a[id].kind == Free && b[id].kind == kind && Live(a, p) && Live(a, 0) && Shape(b)
      && forall k :: 0 <= k < TN_MAX ==> !IsChild(a, p, leaf, k)
  {
    hide NameBytes, Stored, Plain, ChildFrom, NodeOk;
    var (p, leaf) := ResolveParent(a, path).value;
    LeafPlain(a, path);
    StoredName(leaf);
    var cs := Components(path, 1);
    FollowLive(a, 0, cs[..|cs| - 1]);
    NoSuchChild(a, p, leaf);
  }

  /** After creating `path` in a tree: still a tree iff the parent is a directory, and if so the path leads
      to the new node and every lookup that succeeded still succeeds with the same node. */
  lemma AddedMeans(a: seq<Node>, b: seq<Node>, path: seq<Byte>, id: nat, kind: Kind, off: nat, size: nat)
    requires TreeOk(a) && 0 !in path && MayAdd(a, path) && kind != Free && Added(a, b, path, id, kind, off, size)
    ensures TreeOk(b) <==> a[ResolveParent(a, path).value.0].kind == Dir
    ensures TreeOk(b) ==> Resolve(b, path) == Some(id)
    ensures Shape(b) && forall q :: Resolve(a, q).Some? ==> Resolve(b, q) == Resolve(a, q)
  {
    hide NameBytes, Stored, Plain, ChildFrom, TreeOk, Added, IsChild;
    TreeShape(a);
    AddedNode(a, b, path, id, kind, off, size);
    var (p, leaf) := ResolveParent(a, path).value;
    AddKeepsTree(a, id, b[id]);
    forall q | Resolve(a, q).Some? ensures Resolve(b, q) == Resolve(a, q) {
      AddKeepsLookups(a, id, b[id], 0, Components(q, 1));
    }
    if TreeOk(b) {
      var cs := Components(path, 1);
      AddKeepsLookups(a, id, b[id], 0, cs[..|cs| - 1]);
      assert cs == cs[..|cs| - 1] + [leaf];
      FollowAppend(b, 0, cs[..|cs| - 1], [leaf]);
      FollowOne(b, p, leaf);
      NewChild(b, p, leaf, id);
    }
  }

  lemma NewChild(b: seq<Node>, p: nat, leaf: Name, id: nat)
    requires TreeOk(b) && 1 <= id < TN_MAX && b[id].kind != Free && b[id].parent == p && NameBytes(b[id].name) == leaf
    requires Plain(leaf)
    ensures p < TN_MAX && b[p].kind == Dir && Step(b, p, leaf) == Some(id)
  {
    assert NodeOk(b, id);
    ChildIs(b, p, leaf, id);
  }

  // Lookups do not depend on where file bytes lie.
  lemma {:induction false} DataKeepsLookups(a: seq<Node>, id: nat, off: nat, size: nat, cur: nat, cs: seq<Name>)
    requires Shape(a) && id < TN_MAX && cur < TN_MAX && Shape(a[id := a[id].(off := off, size := size)])
    ensures Follow(a[id := a[id].(off := off, size := size)], cur, cs) == Follow(a, cur, cs)
    decreases |cs|
  {
    hide NameBytes;
    if cs != [] {
      var b, c := a[id := a[id].(off := off, size := size)], cs[0];
      assert forall k :: IsChild(b, cur, c, k) <==> IsChild(a, cur, c, k);
      assert ChildOf(b, cur, c) == ChildOf(a, cur, c);
      StepInTable(a, cur, c);
      if Step(a, cur, c).Some? { DataKeepsLookups(a, id, off, size, Step(a, cur, c).value, cs[1..]); }
    }
  }

  /** After creating or replacing the file at `path` in a tree: still a tree iff the file was there or the
      parent is a directory, and if so the path leads to the file. */
  lemma CreatedMeans(a: seq<Node>, b: seq<Node>, path: seq<Byte>, id: nat, off: nat, size: nat)
    requires TreeOk(a) && 0 !in path && MayCreate(a, path) && Created(a, b, path, id, off, size)
    ensures var (p, leaf) := ResolveParent(a, path).value;
      TreeOk(b) <==> ChildOf(a, p, leaf).Some? || a[p].kind == Dir
    ensures TreeOk(b) ==> Resolve(b, path) == Some(id)
  {
    hide NameBytes, Stored, Plain, ChildFrom;
    var (p, leaf) := ResolveParent(a, path).value;
    if ChildOf(a, p, leaf).None? {
      AddedMeans(a, b, path, id, File, off, size);
    } else {
      ChildInTable(a, p, leaf);
      DataKeepsTree(a, id, off, size);
      var cs := Components(path, 1);
      assert cs == cs[..|cs| - 1] + [leaf];
      FollowAppend(a, 0, cs[..|cs| - 1], [leaf]);
      FollowOne(a, p, leaf);
      ChildParentDir(a, p, leaf);
      LeafPlain(a, path);
      StoredName(leaf);
      DataKeepsLookups(a, id, off, size, 0, cs);
    }
  }

  lemma ChildParentDir(a: seq<Node>, p: nat, leaf: Name)
    requires TreeOk(a) && ChildOf(a, p, leaf).Some?
    ensures p < TN_MAX && a[p].kind == Dir
  {
    hide NameBytes;
    assert NodeOk(a, ChildOf(a, p, leaf).value);
  }

  // ---- runs ----------------------------------------------------------------------------------------------

  datatype Op =
    | Add(path: seq<Byte>, kind: Kind, off: nat, size: nat)
    | SetData(id: nat, off: nat, size: nat)
    | Remove(id: nat)
    | Move(id: nat, p: nat, leaf: Name)

  /** One successful operation within the side conditions the code leaves to its callers: names without
      NUL, parents that are directories, no move into the moved subtree. */
  ghost predicate Does(a: seq<Node>, op: Op, b: seq<Node>)
    requires Shape(a)
  {
    match op
    case Add(path, kind, off, size) =>
      && 0 !in path && MayAdd(a, path) && kind != Free && a[ResolveParent(a, path).value.0].kind == Dir
      && Added(a, b, path, FreeSlot(a, 1).value, kind, off, size)
    case SetData(id, off, size) => id < TN_MAX && b == a[id := a[id].(off := off, size := size)]
    case Remove(id) => IsFile(a, id) && b == a[id := a[id].(kind := Free)]
    case Move(id, p, leaf) =>
      MayMove(a, id, p, leaf) && a[p].kind == Dir && !InSubtree(a, id, p) && b == Moved(a, id, p, leaf)
  }

  ghost predicate IsRun(run: seq<seq<Node>>, ops: seq<Op>) {
    && |run| == |ops| + 1 && (forall i :: 0 <= i < |run| ==> Shape(run[i]))
    && forall i :: 0 <= i < |ops| ==> Does(run[i], ops[i], run[i + 1])
  }

  /** Round trip: looking up the text of a node's own path yields the node. */
  lemma NodePathResolves(nodes: seq<Node>, i: nat, n: nat)
    requires TreeOk(nodes) && Live(nodes, i) && Ancestor(nodes, i, n) == 0
    ensures Resolve(nodes, RootIfEmpty(PathText(PathTo(nodes, i, n)))) == Some(i)
  {
    hide TreeOk, Components, PathText, PathTo;
    TreeShape(nodes);
    PathLeadsBack(nodes, i, n);
    PathTextNames(PathTo(nodes, i, n));
  }

  /** Every state of every such run from a tree is a tree, in which each live node is found by its own path. */
  lemma {:induction false} RunsStayTrees(run: seq<seq<Node>>, ops: seq<Op>, k: nat)
    requires IsRun(run, ops) && k < |run| && TreeOk(run[0])
    ensures TreeOk(run[k])
    ensures forall i: nat, n: nat :: Live(run[k], i) && Ancestor(run[k], i, n) == 0 ==>
      Resolve(run[k], RootIfEmpty(PathText(PathTo(run[k], i, n)))) == Some(i)
    decreases k
  {
    hide Does;
    if k > 0 {
      RunsStayTrees(run, ops, k - 1);
      assert Does(run[k - 1], ops[k - 1], run[k - 1 + 1]);
      OpKeepsTree(run[k - 1], ops[k - 1], run[k]);
    }
    hide TreeOk;
    forall i: nat, n: nat | Live(run[k], i) && Ancestor(run[k], i, n) == 0
      ensures Resolve(run[k], RootIfEmpty(PathText(PathTo(run[k], i, n)))) == Some(i)
    {
      NodePathResolves(run[k], i, n);
    }
  }

  // What each call does is such a step, exactly when it leaves a tree behind.

  lemma MkdirDoes(a: seq<Node>, b: seq<Node>, path: seq<Byte>, id: nat, off: nat)
    requires TreeOk(a) && Shape(a) && 0 !in path && MayAdd(a, path) && Added(a, b, path, id, Dir, off, 0)
    ensures Does(a, Add(path, Dir, off, 0), b) <==> TreeOk(b)
  {
    hide TreeOk, Components, Stored, ChildFrom;
    AddedMeans(a, b, path, id, Dir, off, 0);
  }

  lemma CreateDoes(a: seq<Node>, b: seq<Node>, path: seq<Byte>, id: nat, off: nat, size: nat)
    requires TreeOk(a) && Shape(a) && 0 !in path && MayCreate(a, path) && Created(a, b, path, id, off, size)
    ensures if MayAdd(a, path) then Does(a, Add(path, File, off, size), b) <==> TreeOk(b)
      else Does(a, SetData(id, off, size), b) && TreeOk(b)
  {
    hide TreeOk, Components, Stored, ChildFrom;
    if MayAdd(a, path) {
      AddedMeans(a, b, path, id, File, off, size);
    } else {
      DataKeepsTree(a, id, off, size);
    }
  }

  // A creat that fails for want of room still adds an empty file.
  lemma FailedCreateDoes(a: seq<Node>, b: seq<Node>, path: seq<Byte>, id: nat, off: nat)
    requires TreeOk(a) && Shape(a) && 0 !in path && MayAdd(a, path) && Added(a, b, path, id, File, off, 0)
    ensures Does(a, Add(path, File, off, 0), b) <==> TreeOk(b)
  {
    hide TreeOk, Components, Stored, ChildFrom;
    AddedMeans(a, b, path, id, File, off, 0);
  }

  lemma UnlinkDoes(a: seq<Node>, b: seq<Node>, path: seq<Byte>)
    requires TreeOk(a) && Shape(a) && Resolve(a, path).Some? && IsFile(a, Resolve(a, path).value)
    requires var id := Resolve(a, path).value; b == a[id := a[id].(kind := Free)]
    ensures Does(a, Remove(Resolve(a, path).value), b) && TreeOk(b)
  {
    hide TreeOk, Components, Follow;
    RemoveKeepsTree(a, Resolve(a, path).value);
  }

  lemma RenameDoes(a: seq<Node>, oldp: seq<Byte>, newp: seq<Byte>)
    requires TreeOk(a) && Shape(a) && 0 !in newp && MayRename(a, oldp, newp)
    ensures var id := Resolve(a, oldp).value; var (p, leaf) := ResolveParent(a, newp).value;
      Does(a, Move(id, p, leaf), Moved(a, id, p, leaf)) <==> TreeOk(Moved(a, id, p, leaf))
  {
    hide TreeOk, Components, Follow, MayMove, InSubtree, ChildFrom, Visits;
    RenamedMeans(a, oldp, newp);
  }

  lemma OpKeepsTree(a: seq<Node>, op: Op, b: seq<Node>)
    requires TreeOk(a) && Shape(a) && Does(a, op, b)
    ensures TreeOk(b)
  {
    hide TreeOk, Stored, MayMove, InSubtree, ChildFrom;
    match op
    case Add(path, kind, off, size) => AddedMeans(a, b, path, FreeSlot(a, 1).value, kind, off, size);
    case SetData(id, off, size) => DataKeepsTree(a, id, off, size);
    case Remove(id) => RemoveKeepsTree(a, id);
    case Move(id, p, leaf) => MoveKeepsTree(a, id, p, leaf);
  }

  lemma StoredName(leaf: Name)
    requires Plain(leaf)
    ensures NameBytes(Stored(leaf)) == leaf && |Stored(leaf)| == VFS_NAME_MAX && |leaf| < VFS_NAME_MAX && leaf != DOT
    ensures leaf != DOTDOT
  {
    StoredReads(leaf);
  }

  lemma NoSuchChild(a: seq<Node>, p: nat, leaf: Name)
    requires Shape(a) && ChildOf(a, p, leaf).None?
    ensures forall k :: 0 <= k < TN_MAX ==> !IsChild(a, p, leaf, k)
  {
  }

  /** A rename keeps the tree iff the new parent is a directory outside the moved subtree. Then the new path leads
      to the moved node iff its parent part did not itself pass through that node, as no plain path does. */
  lemma RenamedMeans(a: seq<Node>, oldp: seq<Byte>, newp: seq<Byte>)
    requires TreeOk(a) && 0 !in newp && MayRename(a, oldp, newp)
    ensures var id := Resolve(a, oldp).value; var (p, leaf) := ResolveParent(a, newp).value;
      var cs, b := Components(newp, 1), Moved(a, id, p, leaf);
      && MayMove(a, id, p, leaf)
      && (TreeOk(b) <==> a[p].kind == Dir && !InSubtree(a, id, p))
      && (TreeOk(b) ==> Shape(b) && (Resolve(b, newp) == Some(id) <==> !Visits(a, 0, cs[..|cs| - 1], id)))
      && (TreeOk(b) && AllPlain(cs) ==> !Visits(a, 0, cs[..|cs| - 1], id))
  {
    hide NameBytes, Stored, Plain, ChildFrom, NodeOk, Visits, InSubtree, Components;
    var id := Resolve(a, oldp).value;
    var (p, leaf) := ResolveParent(a, newp).value;
    LeafPlain(a, newp);
    NoSuchChild(a, p, leaf);
    FollowLive(a, 0, Components(oldp, 1));
    var cs := Components(newp, 1);
    FollowLive(a, 0, cs[..|cs| - 1]);
    MoveKeepsTree(a, id, p, leaf);
    if a[p].kind == Dir && !InSubtree(a, id, p) { NewPathMeans(a, id, p, leaf, cs[..|cs| - 1]); }
    assert cs == cs[..|cs| - 1] + [leaf];
  }

  lemma NewPathMeans(a: seq<Node>, id: nat, p: nat, leaf: Name, up: seq<Name>)
    requires MayMove(a, id, p, leaf) && a[p].kind == Dir && !InSubtree(a, id, p) && Shape(a)
    requires Follow(a, 0, up) == Some(p)
    ensures Shape(Moved(a, id, p, leaf))
    ensures Follow(Moved(a, id, p, leaf), 0, up + [leaf]) == Some(id) <==> !Visits(a, 0, up, id)
    ensures AllPlain(up) ==> !Visits(a, 0, up, id)
  {
    hide NameBytes, Stored, Plain, ChildFrom, TreeOk, MayMove, Follow, Visits, IsChild;
    MoveShapes(a, id, p, leaf);
    var b := Moved(a, id, p, leaf);
    assert !InSubtree(a, id, 0) by { RootOutside(a, id); }
    MovedWalk(a, id, p, leaf, 0, up);
    FollowAppend(b, 0, up, [leaf]);
    FollowOne(b, p, leaf);
    MovedChild(a, id, p, leaf, p, leaf);
    LeafIsPlain(leaf);
    Outside(a, id, p);
    if AllPlain(up) { PlainAvoids(a, id, 0, up); }
  }

  lemma RootOutside(a: seq<Node>, id: nat)
    requires TreeOk(a) && id != 0
    ensures !InSubtree(a, id, 0)
  {
    hide NodeOk, NameBytes;
    forall n: nat ensures Ancestor(a, 0, n) != id { RootStays(a, n); }
  }

  // The first free slot at or after `i`.
  function FreeSlot(nodes: seq<Node>, i: nat): (r: Option<nat>)
    requires i <= |nodes|
    ensures r.Some? ==> i <= r.value < |nodes| && nodes[r.value].kind == Free
    ensures r.None? ==> forall k :: i <= k < |nodes| ==> nodes[k].kind != Free
    decreases |nodes| - i
  {
    if i == |nodes| then None else if nodes[i].kind == Free then Some(i) else FreeSlot(nodes, i + 1)
  }

  lemma FollowNone(t: seq<Node>, cur: nat)
    requires Shape(t) && cur < TN_MAX
    ensures Follow(t, cur, []) == Some(cur)
  {
  }

  lemma LastSplit(done: seq<Name>, comp: Name)
    ensures (done + [comp])[..|done|] == done && (done + [comp])[|done|] == comp
  {
  }

  // If a proper prefix of the components leads nowhere, the parent lookup fails.
  lemma DeadEnd(t: seq<Node>, a: seq<Name>, rest: seq<Name>)
    requires Shape(t) && rest != []
    ensures Follow(t, 0, a).None? ==> Follow(t, 0, (a + rest)[..|a + rest| - 1]).None?
  {
    assert (a + rest)[..|a + rest| - 1] == a + rest[..|rest| - 1];
    FollowAppend(t, 0, a, rest[..|rest| - 1]);
  }

  lemma FollowFirst(t: seq<Node>, cur: nat, comp: Name, rest: seq<Name>)
    requires Shape(t) && cur < TN_MAX
    ensures Follow(t, cur, [comp] + rest) ==
      (match Step(t, cur, comp) case None => None case Some(n) => StepInTable(t, cur, comp); Follow(t, n, rest))
  {
    assert ([comp] + rest)[1..] == rest;
  }

  // Skips slashes.
  method SkipSlashes(path: seq<Byte>, from: nat) returns (p: nat)
    requires from <= |path|
    ensures from <= p <= |path| && Components(path, p) == Components(path, from) && (p < |path| ==> path[p] != SLASH)
    ensures from < |path| && path[from] != SLASH ==> p == from
  {
    p := from;
    while p < |path| && path[p] == SLASH
      invariant from <= p <= |path| && Components(path, p) == Components(path, from)
      invariant from < |path| && path[from] != SLASH ==> p == from
    {
      p := p + 1;
    }
  }

  // Finds the end of a component.
  method ScanEnd(path: seq<Byte>, p: nat) returns (e: nat)
    requires p < |path| && path[p] != SLASH
    ensures e == EndOf(path, p) && p < e
  {
    e := p;
    while e < |path| && path[e] != SLASH
      invariant p <= e <= |path| && EndOf(path, e) == EndOf(path, p)
      invariant e == p ==> path[e] != SLASH
    {
      e := e + 1;
    }
  }

  // ---- where the code stops keeping a tree ---------------------------------------------------------------------

  // An empty root, and one node "a" in it.
  ghost function OnlyRoot(): seq<Node> {
    seq(TN_MAX, i => Node(Zeros(VFS_NAME_MAX), if i == 0 then Dir else Free, 0, 0, 0))
  }

  const A: Name := [97]
  const B: Name := [98]

  ghost function WithA(kind: Kind): seq<Node> { OnlyRoot()[1 := Node(Stored(A), kind, 0, 0, 0)] }

  lemma WithATree(kind: Kind)
    requires kind != Free
    ensures var t := WithA(kind);
      && TreeOk(t) && Follow(t, 0, [A]) == Some(1) && t[1].kind == kind && t[1].parent == 0
      && FreeSlot(t, 1) == Some(2) && Live(t, 1)
      && forall k: nat, c: Name :: !IsChild(t, 1, c, k)
  {
    var r := OnlyRoot();
    assert Shape(r) && TreeOk(r);
    assert Plain(A);
    StoredName(A);
    var v := Node(Stored(A), kind, 0, 0, 0);
    hide NameBytes, Stored;
    assert r[1 := v] == WithA(kind);
    AddKeepsTree(r, 1, v);
    var t := WithA(kind);
    ChildIs(t, 0, A, 1);
    FollowOne(t, 0, A);
    assert FreeSlot(t, 2) == Some(2) && FreeSlot(t, 1) == FreeSlot(t, 2);
  }

  // "/a", "/a/b" and "/a/../b".
  lemma ExamplePaths()
    ensures Components([SLASH] + A, 1) == [A] && Components([SLASH] + A + [SLASH] + B, 1) == [A, B]
    ensures Components([SLASH] + A + [SLASH] + DOTDOT + [SLASH] + B, 1) == [A, DOTDOT, B]
  {
    hide Components;
    OneComponent(A);
    OneComponent(B);
    OneComponent(DOTDOT);
    var root: seq<Byte> := [];
    NoComponents(root);
    var a := [SLASH] + A;
    assert a == root + [SLASH] + A;
    ComponentsJoin(root, A, 0);
    ComponentsJoin(a, B, 0);
    ComponentsJoin(a, DOTDOT, 0);
    ComponentsJoin(a + [SLASH] + DOTDOT, B, 0);
    SkipOne(a, 0);
    SkipOne(a + [SLASH] + B, 0);
    SkipOne(a + [SLASH] + DOTDOT + [SLASH] + B, 0);
  }

  // The directory /a with a directory /a/b in it.
  ghost function WithAB(): seq<Node> { WithA(Dir)[2 := Node(Stored(B), Dir, 1, 0, 0)] }

  lemma WithABTree()
    ensures var t := WithAB();
      && TreeOk(t) && Follow(t, 0, [A]) == Some(1) && Follow(t, 0, [A, B]) == Some(2)
      && t[0].kind == Dir && t[1].kind == Dir && t[2].kind == Dir && t[1].parent == 0 && t[2].parent == 1
      && Live(t, 0) && Live(t, 1) && Live(t, 2)
  {
    WithATree(Dir);
    var r, v := WithA(Dir), Node(Stored(B), Dir, 1, 0, 0);
    assert Plain(B);
    StoredName(B);
    OnlyAInRoot();
    assert r[2].kind == Free && r[0].kind == Dir;
    hide NameBytes, Stored, WithA;
    AddKeepsTree(r, 2, v);
    var t := WithAB();
    AddKeepsLookups(r, 2, v, 0, [A]);
    ChildIs(t, 1, B, 2);
    FollowOne(t, 1, B);
    assert [A] + [B] == [A, B];
    FollowAppend(t, 0, [A], [B]);
  }

  /** creat "/a" with more bytes than the pool holds fails, but the empty file /a is there afterwards. */
  method CreateTooBig() returns (r: Option<nat>, found: Option<nat>, size: nat)
    ensures r.None? && found.Some? && size == 0
  {
    var fs := new FileSystem();
    var path := [SLASH] + A;
    ghost var t := fs.nodes[..];
    EmptyTakesA(t);
    r := fs.Create(path, seq(TN_POOL + 1, _ => 0));
    ghost var id :| Added(t, fs.nodes[..], path, id, File, 0, 0);
    AddedMeans(t, fs.nodes[..], path, id, File, 0, 0);
    found := fs.Lookup(path);
    size := fs.nodes[found.value].size;
  }

  lemma EmptyTakesA(t: seq<Node>)
    requires TreeOk(t) && Shape(t) && forall i :: 1 <= i < TN_MAX ==> t[i].kind == Free
    ensures var path := [SLASH] + A;
      0 !in path && MayAdd(t, path) && ResolveParent(t, path).value.0 == 0 && t[0].kind == Dir
  {
    hide Components;
    ExamplePaths();
    assert [A][..0] == [];
    FollowNone(t, 0);
    NoChild(t, 0, A);
  }

  /** mkdir "/a/b" succeeds although /a is a file, and the table is no tree any more. */
  lemma MkdirUnderFile()
    ensures var t, path := WithA(File), [SLASH] + A + [SLASH] + B;
      TreeOk(t) && MayAdd(t, path) && forall b, off: nat :: Added(t, b, path, 2, Dir, off, 0) ==> !TreeOk(b)
  {
    hide TreeOk, NameBytes, Stored, ChildFrom, WithA, Components;
    var t, path := WithA(File), [SLASH] + A + [SLASH] + B;
    WithATree(File);
    TreeShape(t);
    ExamplePaths();
    assert [A, B][..1] == [A];
    NoChild(t, 1, B);
    forall b, off: nat | Added(t, b, path, 2, Dir, off, 0) ensures !TreeOk(b) {
      AddedMeans(t, b, path, 2, Dir, off, 0);
    }
  }

  lemma NoChild(t: seq<Node>, p: nat, c: Name)
    requires Shape(t) && forall k: nat :: !IsChild(t, p, c, k)
    ensures ChildOf(t, p, c).None?
  {
  }

  /** rename "/a" to "/a/b" succeeds, and the table is no tree any more. */
  lemma RenameIntoItself()
    ensures var t, oldp, newp := WithA(Dir), [SLASH] + A, [SLASH] + A + [SLASH] + B;
      TreeOk(t) && MayRename(t, oldp, newp) && !TreeOk(Moved(t, 1, 1, B))
  {
    hide TreeOk, NameBytes, Stored, ChildFrom, WithA, Components;
    var t := WithA(Dir);
    WithATree(Dir);
    TreeShape(t);
    ExamplePaths();
    assert [A, B][..1] == [A];
    NoChild(t, 1, B);
    assert Ancestor(t, 1, 0) == 1;
    RenamedMeans(t, [SLASH] + A, [SLASH] + A + [SLASH] + B);
  }

  /** rename "/a" to "/a/../b" keeps the tree, but the path "/a/../b" leads nowhere afterwards: /a is gone. */
  lemma RenameThroughItself()
    ensures var t, oldp, newp := WithA(Dir), [SLASH] + A, [SLASH] + A + [SLASH] + DOTDOT + [SLASH] + B;
      && TreeOk(t) && MayRename(t, oldp, newp) && Resolve(t, oldp) == Some(1)
      && TreeOk(Moved(t, 1, 0, B)) && Resolve(Moved(t, 1, 0, B), newp) != Some(1)
  {
    hide TreeOk, NameBytes, Stored, ChildFrom, WithA, Components;
    var t, up := WithA(Dir), [A, DOTDOT];
    WithATree(Dir);
    TreeShape(t);
    ExamplePaths();
    assert [A, DOTDOT, B][..2] == up && up == [A] + [DOTDOT];
    FollowAppend(t, 0, [A], [DOTDOT]);
    FollowOne(t, 1, DOTDOT);
    OnlyAInRoot();
    RootOutside(t, 1);
    assert Visits(t, 0, up, 1) by {
      FollowOne(t, 0, A);
      assert Visits(t, 1, up[1..], 1);
    }
    RenamedMeans(t, [SLASH] + A, [SLASH] + A + [SLASH] + DOTDOT + [SLASH] + B);
  }

  lemma OnlyAInRoot()
    ensures var t := WithA(Dir); Shape(t) && ChildOf(t, 0, B).None? && t[0].kind == Dir
  {
    var t := WithA(Dir);
    assert Plain(A);
    StoredName(A);
    hide Stored, NameBytes;
    assert forall k: nat :: !IsChild(t, 0, B, k);
    NoChild(t, 0, B);
  }
}
