/**
 Unpacking the initial ram disk into the file system (initrd.rs): after the loop every file that was
 unpacked can be looked up under its name and holds the bytes of the archive, and a file that was not
 unpacked had a reason.
 */
module Initrd {
  import opened Common
  import opened FileTree
  import opened Tmpfs
  import opened Paths
  import opened Ustar

  const DIR_TYPE: Byte := 53
  const FILE_TYPE: Byte := 48
  const OLD_FILE_TYPE: Byte := 0

  type Names = seq<Name>

  predicate FileEntry(e: Entry) { e.typ == FILE_TYPE || e.typ == OLD_FILE_TYPE }

  // The absolute path of an entry, without a trailing slash.
  function EntryPath(name: seq<Byte>): (r: seq<Byte>)
    ensures r != [] && r[0] == SLASH && (0 !in name ==> 0 !in r)
  {
    var p := [SLASH] + name[..if |name| < 126 then |name| else 126];
    if |p| > 1 && p[|p| - 1] == SLASH then p[..|p| - 1] else p
  }

  function NamesOf(e: Entry): Names { Components(EntryPath(e.name), 1) }

  /** The names of an entry are those of its name field, whether or not it ends in a slash. */
  lemma EntryNames(e: Entry)
    requires |e.name| <= 100
    ensures NamesOf(e) == Components(e.name, 0) == Components([SLASH] + e.name, 1)
  {
    hide Components;
    var name, p := e.name, [SLASH] + e.name;
    assert name[..|name|] == name;
    ComponentsShift([SLASH], name, 0);
    if |p| > 1 && p[|p| - 1] == SLASH {
      var q := p[..|p| - 1];
      assert p == q + [SLASH] + [];
      ComponentsJoin(q, [], 1);
      NoComponents([]);
    }
  }

  // ---- what must hold of the file system ------------------------------------------------------------

  ghost predicate FilesKnown(nodes: seq<Node>, known: set<Names>)
    requires Shape(nodes)
  {
    && (forall cs :: cs in known ==> AllPlain(cs))
    && forall i :: IsFile(nodes, i) ==> exists cs :: cs in known && Follow(nodes, 0, cs) == Some(i)
  }

  // No file can be in the way of these names.
  predicate Clear(known: set<Names>, cs: Names) { AllPlain(cs) && forall k :: k in known ==> !(k < cs) }

  ghost predicate FileIs(nodes: seq<Node>, pool: seq<Byte>, cs: Names, data: seq<Byte>)
    requires Shape(nodes)
  {
    var r := Follow(nodes, 0, cs);
    AllPlain(cs) && r.Some? && IsFile(nodes, r.value) &&
    nodes[r.value].off + nodes[r.value].size <= |pool| && Contents(nodes, pool, r.value) == data
  }

  ghost predicate DirIs(nodes: seq<Node>, cs: Names)
    requires Shape(nodes)
  {
    var r := Follow(nodes, 0, cs);
    r.Some? && r.value < TN_MAX && nodes[r.value].kind == Dir
  }

  ghost predicate Full(nodes: seq<Node>)
    requires Shape(nodes)
  {
    FreeSlot(nodes, 1).None?
  }

  ghost predicate Good(nodes: seq<Node>, pool: seq<Byte>, known: set<Names>, files: map<Names, seq<Byte>>) {
    TreeOk(nodes) && FilesKnown(nodes, known) && forall cs :: cs in files ==> FileIs(nodes, pool, cs, files[cs])
  }

  // What was there stays there, under the same name.
  ghost predicate Later(a: seq<Node>, b: seq<Node>)
    requires Shape(a) && Shape(b)
  {
    && (forall cs :: Follow(a, 0, cs).Some? ==> Follow(b, 0, cs) == Follow(a, 0, cs))
    && (forall i :: 0 <= i < TN_MAX && a[i].kind != Free ==> b[i].kind == a[i].kind)
    && (Full(a) ==> Full(b))
  }

  lemma LaterTrans(a: seq<Node>, b: seq<Node>, c: seq<Node>)
    requires Shape(a) && Shape(b) && Shape(c) && Later(a, b) && Later(b, c)
    ensures Later(a, c)
  {
    hide Follow, Full;
  }

  lemma DirStays(a: seq<Node>, b: seq<Node>, cs: Names)
    requires TreeOk(a) && Shape(b) && Later(a, b) && DirIs(a, cs)
    ensures DirIs(b, cs)
  {
    hide TreeOk, Follow, Full;
    TreeShape(a);
  }

  // ---- one operation --------------------------------------------------------------------------------

  lemma ParentIsDir(a: seq<Node>, known: set<Names>, path: seq<Byte>)
    requires TreeOk(a) && FilesKnown(a, known) && ResolveParent(a, path).Some? && Clear(known, Components(path, 1))
    ensures a[ResolveParent(a, path).value.0].kind == Dir
  {
    hide TreeOk, Components, Follow, Plain;
    TreeShape(a);
    var cs := Components(path, 1);
    var up := cs[..|cs| - 1];
    var p := ResolveParent(a, path).value.0;
    FollowLive(a, 0, up);
    if a[p].kind == File {
      NotRootFile(a, p);
      var k :| k in known && Follow(a, 0, k) == Some(p);
      SamePath(a, k, up);
    }
  }

  lemma NotRootFile(a: seq<Node>, p: nat)
    requires TreeOk(a) && p < |a| && a[p].kind == File
    ensures IsFile(a, p)
  {
  }

  lemma AddLater(a: seq<Node>, b: seq<Node>, path: seq<Byte>, id: nat, kind: Kind, off: nat, size: nat)
    requires TreeOk(a) && 0 !in path && MayAdd(a, path) && kind != Free && Added(a, b, path, id, kind, off, size)
    ensures Shape(b) && Later(a, b) && 1 <= id < TN_MAX && b == a[id := b[id]] && a[id].kind == Free
    ensures b[id].kind == kind
  {
    hide NameBytes, Stored, Plain, ChildFrom, TreeOk, IsChild, Follow, Components;
    TreeShape(a);
    AddedNode(a, b, path, id, kind, off, size);
    forall cs | Follow(a, 0, cs).Some? ensures Follow(b, 0, cs) == Follow(a, 0, cs) {
      AddKeepsLookups(a, id, b[id], 0, cs);
    }
  }

  /** A directory or an empty file under a clear name: the tree stays a tree, the files stay what they were. */
  lemma AddGood(a: seq<Node>, b: seq<Node>, pool: seq<Byte>, path: seq<Byte>, id: nat, kind: Kind, off: nat,
      known: set<Names>, files: map<Names, seq<Byte>>)
    requires Good(a, pool, known, files) && 0 !in path && MayAdd(a, path) && kind != Free
    requires Added(a, b, path, id, kind, off, 0)
    requires Clear(known, Components(path, 1)) && (kind == File ==> Components(path, 1) in known)
    ensures Good(b, pool, known, files) && Later(a, b) && Resolve(b, path) == Some(id) && id < TN_MAX
    ensures b[id].kind == kind
  {
    hide TreeOk, Components, Follow, Plain, MayAdd, Added, Full;
    TreeShape(a);
    HasParent(a, path);
    ParentIsDir(a, known, path);
    AddedMeans(a, b, path, id, kind, off, 0);
    AddLater(a, b, path, id, kind, off, 0);
    forall i | IsFile(b, i) ensures exists cs :: cs in known && Follow(b, 0, cs) == Some(i) {
      if i == id {
        assert Follow(b, 0, Components(path, 1)) == Some(id);
      } else {
        assert IsFile(a, i);
        var cs :| cs in known && Follow(a, 0, cs) == Some(i);
        assert Follow(b, 0, cs) == Some(i);
      }
    }
    forall cs | cs in files ensures FileIs(b, pool, cs, files[cs]) {
      assert FileIs(a, pool, cs, files[cs]);
      assert b[Follow(a, 0, cs).value] == a[Follow(a, 0, cs).value];
    }
  }

  lemma HasParent(a: seq<Node>, path: seq<Byte>)
    requires Shape(a) && (MayAdd(a, path) || MayCreate(a, path))
    ensures ResolveParent(a, path).Some?
  {
    hide Follow, Components;
  }

  // Replacing the bytes of a file that is there.
  lemma DataLater(a: seq<Node>, id: nat, off: nat, size: nat)
    requires TreeOk(a) && id < TN_MAX
    ensures var b := a[id := a[id].(off := off, size := size)];
      TreeOk(b) && Shape(a) && Shape(b) && Later(a, b) && forall cs :: Follow(b, 0, cs) == Follow(a, 0, cs)
  {
    hide TreeOk, Follow;
    TreeShape(a);
    var b := a[id := a[id].(off := off, size := size)];
    DataKeepsTree(a, id, off, size);
    forall cs ensures Follow(b, 0, cs) == Follow(a, 0, cs) { DataKeepsLookups(a, id, off, size, 0, cs); }
    assert forall i :: 0 <= i < TN_MAX ==> b[i].kind == a[i].kind;
  }

  lemma CreateLater(a: seq<Node>, b: seq<Node>, path: seq<Byte>, id: nat, off: nat, size: nat, known: set<Names>)
    requires TreeOk(a) && FilesKnown(a, known) && 0 !in path && MayCreate(a, path) && Created(a, b, path, id, off, size)
    requires Clear(known, Components(path, 1))
    ensures TreeOk(b) && Shape(a) && Shape(b) && Later(a, b) && Resolve(b, path) == Some(id)
    ensures forall i :: IsFile(b, i) && i != id ==> IsFile(a, i) && b[i] == a[i]
    ensures IsFile(b, id) && (IsFile(a, id) ==> Resolve(a, path) == Some(id))
    ensures forall i :: IsFile(a, i) ==> IsFile(b, i)
  {
    hide TreeOk, Components, Follow, Plain, Full, ChildFrom, NameBytes, Stored;
    TreeShape(a);
    HasParent(a, path);
    ParentIsDir(a, known, path);
    CreatedMeans(a, b, path, id, off, size);
    var (p, leaf) := ResolveParent(a, path).value;
    if ChildOf(a, p, leaf).None? {
      AddLater(a, b, path, id, File, off, size);
    } else {
      ChildInTable(a, p, leaf);
      DataLater(a, id, off, size);
    }
    TreeShape(b);
  }

  /** A file created or replaced: it holds the new bytes, every other file what it held. */
  lemma CreateGood(a: seq<Node>, ap: seq<Byte>, b: seq<Node>, bp: seq<Byte>, path: seq<Byte>, id: nat, off: nat,
      data: seq<Byte>,
      known: set<Names>, files: map<Names, seq<Byte>>)
    requires Good(a, ap, known, files) && 0 !in path && MayCreate(a, path) && Created(a, b, path, id, off, |data|)
    requires path != [] && path[0] == SLASH
    requires Clear(known, Components(path, 1)) && Components(path, 1) in known
    requires OthersKept(a, ap, b, bp, id) && IsFile(b, id) && b[id].off + b[id].size <= |bp|
    requires Contents(b, bp, id) == data
    ensures Good(b, bp, known, files[Components(path, 1) := data]) && Later(a, b)
  {
    hide TreeOk, Components, Follow, Plain, MayCreate, Created, Full, Contents;
    CreateLater(a, b, path, id, off, |data|, known);
    var cs0 := Components(path, 1);
    forall i | IsFile(b, i) ensures exists cs :: cs in known && Follow(b, 0, cs) == Some(i) {
      if i == id {
        assert Follow(b, 0, cs0) == Some(id);
      } else {
        var cs :| cs in known && Follow(a, 0, cs) == Some(i);
        assert Follow(b, 0, cs) == Some(i);
      }
    }
    forall cs | cs in files && cs != cs0 ensures FileIs(b, bp, cs, files[cs]) {
      assert FileIs(a, ap, cs, files[cs]);
      if Follow(a, 0, cs) == Some(id) { SamePath(a, cs, cs0); }
    }
  }

  // ---- parents --------------------------------------------------------------------------------------

  // A path of at least two components has a slash before which all but the last component stand.
  lemma {:induction false} Cut(path: seq<Byte>, p: nat) returns (q: nat)
    requires p <= |path| && |Components(path, p)| >= 2
    ensures p <= q < |path| && path[q] == SLASH
    ensures Components(path[..q], p) == Components(path, p)[..|Components(path, p)| - 1]
    decreases |path| - p
  {
    hide Components;
    var cs := Components(path, p);
    NoComponents(path);
    if path[p] == SLASH {
      SkipOne(path, p);
      q := Cut(path, p + 1);
      NonEmpty(path, q, p + 1);
      SkipOne(path[..q], p);
    } else {
      FirstComponent(path, p);
      var e := EndOf(path, p);
      var rest := Components(path, e);
      if |rest| == 1 {
        q := e;
      } else {
        q := Cut(path, e);
        NonEmpty(path, q, e);
      }
      EndInside(path, p, q);
      FirstComponent(path[..q], p);
      assert path[..q][p..e] == path[p..e];
      if |rest| == 1 { NoComponents(path[..q]); }
    }
  }

  lemma NonEmpty(path: seq<Byte>, q: nat, p: nat)
    requires p <= q <= |path| && Components(path[..q], p) != []
    ensures p < q
  {
    NoComponents(path[..q]);
  }

  lemma {:induction false} EndInside(path: seq<Byte>, p: nat, q: nat)
    requires p <= |path| && EndOf(path, p) <= q <= |path|
    ensures EndOf(path[..q], p) == EndOf(path, p)
    decreases |path| - p
  {
    if p < |path| && path[p] != SLASH { EndInside(path, p + 1, q); }
  }

  // What stands before a slash is a prefix of the whole.
  lemma PrefixNames(path: seq<Byte>, q: nat)
    requires 1 <= q < |path| && path[q] == SLASH
    ensures Components(path[..q], 1) <= Components(path, 1)
  {
    hide Components;
    var y := path[q + 1..];
    assert path == path[..q] + [SLASH] + y;
    ComponentsJoin(path[..q], y, 1);
  }

  lemma PrefixClear(known: set<Names>, path: seq<Byte>, q: nat)
    requires 1 <= q < |path| && path[q] == SLASH && Clear(known, Components(path, 1))
    ensures Clear(known, Components(path[..q], 1))
  {
    hide Components, Plain;
    PrefixNames(path, q);
    var a, b := Components(path[..q], 1), Components(path, 1);
    forall k | k in known ensures !(k < a) {
      assert k < a ==> k < b;
    }
  }

  // Every directory named before position n is there, unless the table is full.
  ghost predicate ParentsThere(nodes: seq<Node>, path: seq<Byte>, n: nat)
    requires Shape(nodes) && n <= |path|
  {
    Full(nodes) || forall q :: 1 <= q < n && path[q] == SLASH ==> Resolve(nodes, path[..q]).Some?
  }

  lemma ParentFound(nodes: seq<Node>, path: seq<Byte>)
    requires TreeOk(nodes) && path != [] && path[0] == SLASH && AllPlain(Components(path, 1))
    requires Components(path, 1) != []
    requires ParentsThere(nodes, path, |path|) && !Full(nodes)
    ensures ResolveParent(nodes, path).Some?
  {
    hide TreeOk, Components, Full, Follow;
    TreeShape(nodes);
    var cs := Components(path, 1);
    var leaf := cs[|cs| - 1];
    assert Plain(leaf);
    hide Plain;
    if |cs| == 1 {
      FollowNone(nodes, 0);
      assert cs[..|cs| - 1] == [];
    } else {
      var q := Cut(path, 1);
      NonEmptyFrom(path, q);
      assert Resolve(nodes, path[..q]).Some?;
    }
    LeafIsPlain(leaf);
  }

  lemma NonEmptyFrom(path: seq<Byte>, q: nat)
    requires 1 <= q < |path| && path[0] == SLASH
    ensures path[..q] != [] && path[..q][0] == SLASH
  {
  }

  // A missing directory whose parents are there can be made.
  lemma CanMake(nodes: seq<Node>, path: seq<Byte>)
    requires TreeOk(nodes) && ResolveParent(nodes, path).Some? && Resolve(nodes, path).None? && !Full(nodes)
    ensures MayAdd(nodes, path)
  {
    hide TreeOk, Components, NameBytes;
    TreeShape(nodes);
    var cs := Components(path, 1);
    var (p, leaf) := ResolveParent(nodes, path).value;
    assert cs == cs[..|cs| - 1] + [leaf];
    FollowAppend(nodes, 0, cs[..|cs| - 1], [leaf]);
    FollowOne(nodes, p, leaf);
    if ChildOf(nodes, p, leaf).Some? { ChildParentDir(nodes, p, leaf); }
  }

  // ---- why a file may be missing --------------------------------------------------------------------

  // No slot left, no room in the pool, no name, or a directory of that name.
  ghost predicate NoRoom(nodes: seq<Node>, used: nat, e: Entry)
    requires Shape(nodes)
  {
    Full(nodes) || used + |e.data| > TN_POOL || NamesOf(e) == [] || DirIs(nodes, NamesOf(e))
  }

  lemma NoRoomStays(a: seq<Node>, used: nat, b: seq<Node>, used': nat, e: Entry)
    requires TreeOk(a) && Shape(a) && Shape(b) && Later(a, b) && used <= used' && NoRoom(a, used, e)
    ensures NoRoom(b, used', e)
  {
    hide TreeOk, Follow, Full, NamesOf, DirIs;
    if DirIs(a, NamesOf(e)) { DirStays(a, b, NamesOf(e)); }
  }

  // With its parents there, a file is refused only for want of room or because a directory has its name.
  lemma RefusedForAReason(a: seq<Node>, used: nat, e: Entry)
    requires TreeOk(a) && AllPlain(NamesOf(e)) && ParentsThere(a, EntryPath(e.name), |EntryPath(e.name)|)
    requires !(MayCreate(a, EntryPath(e.name)) && used + |e.data| <= TN_POOL)
    ensures NoRoom(a, used, e)
  {
    hide TreeOk, Components, ChildFrom, Plain, ParentsThere, EntryPath, NameBytes;
    TreeShape(a);
    var path, cs := EntryPath(e.name), NamesOf(e);
    if !Full(a) && cs != [] && used + |e.data| <= TN_POOL {
      ParentFound(a, path);
      var (p, leaf) := ResolveParent(a, path).value;
      ChildParentDir(a, p, leaf);
      assert cs == cs[..|cs| - 1] + [leaf];
      FollowAppend(a, 0, cs[..|cs| - 1], [leaf]);
      FollowOne(a, p, leaf);
      ChildInTable(a, p, leaf);
    }
  }

  // ---- the loop -------------------------------------------------------------------------------------

  // Every directory a file path names is made, if it is missing.
  method MakeParents(fs: FileSystem, path: seq<Byte>, ghost known: set<Names>, ghost files: map<Names, seq<Byte>>)
    requires fs.Valid() && path != [] && path[0] == SLASH
    modifies fs.nodes
    ensures fs.Valid()
    ensures 0 !in path && Clear(known, Components(path, 1)) && Good(old(fs.nodes[..]), fs.pool[..], known, files) ==>
      && Good(fs.nodes[..], fs.pool[..], known, files) && Later(old(fs.nodes[..]), fs.nodes[..])
      && ParentsThere(fs.nodes[..], path, |path|)
  {
    hide Good, Later, Components, Clear, Full, Follow, PoolOk, MayAdd, Added;
    ghost var a := fs.nodes[..];
    ghost var fine := 0 !in path && Clear(known, Components(path, 1)) && Good(a, fs.pool[..], known, files);
    LaterRefl(a);
    for q := 1 to |path|
      invariant fs.Valid()
      invariant fine ==>
        Good(fs.nodes[..], fs.pool[..], known, files) && Later(a, fs.nodes[..]) && ParentsThere(fs.nodes[..], path, q)
    {
      if path[q] == SLASH {
        ghost var b := fs.nodes[..];
        var sub := path[..q];
        var r := fs.Lookup(sub);
        if r.None? || fs.nodes[r.value].kind == Free {
          var ok, id := fs.Mkdir(sub);
          if fine {
            ParentStep(b, fs.nodes[..], fs.pool[..], fs.used, path, q, ok, id, known, files);
            LaterTrans(a, b, fs.nodes[..]);
          }
        }
      }
    }
  }

  lemma LaterRefl(a: seq<Node>)
    requires Shape(a)
    ensures Later(a, a)
  {
    hide Follow, Full;
  }

  lemma ParentStep(b: seq<Node>, c: seq<Node>, pool: seq<Byte>, used: nat, path: seq<Byte>, q: nat, ok: bool, id: nat,
      known: set<Names>, files: map<Names, seq<Byte>>)
    requires 1 <= q < |path| && path[0] == SLASH && path[q] == SLASH && 0 !in path && Clear(known, Components(path, 1))
    requires Good(b, pool, known, files) && ParentsThere(b, path, q) && Shape(c)
    requires Resolve(b, path[..q]).None? || b[Resolve(b, path[..q]).value].kind == Free
    requires ok <==> MayAdd(b, path[..q])
    requires if ok then Added(b, c, path[..q], id, Dir, used, 0) else c == b
    ensures Good(c, pool, known, files) && Later(b, c) && ParentsThere(c, path, q + 1)
  {
    hide TreeOk, Components, Full, Follow, MayAdd, Added, Later, Plain, FilesKnown;
    var sub := path[..q];
    PrefixClear(known, path, q);
    TreeShape(b);
    LaterRefl(b);
    FollowLive(b, 0, Components(sub, 1));
    if ok {
      AddGood(b, c, pool, sub, id, Dir, used, known, files);
      FullLater(b, c);
      ResolvedStay(b, c, path, q);
    } else if !Full(b) {
      if Components(sub, 1) == [] {
        FollowNone(b, 0);
      } else {
        ParentsOfPrefix(b, path, q);
        ParentFound(b, sub);
        CanMake(b, sub);
      }
    }
  }

  lemma FullLater(b: seq<Node>, c: seq<Node>)
    requires Shape(b) && Shape(c) && Later(b, c)
    ensures Full(b) ==> Full(c)
  {
  }

  lemma ResolvedStay(b: seq<Node>, c: seq<Node>, path: seq<Byte>, q: nat)
    requires Shape(b) && Shape(c) && Later(b, c) && q <= |path| && path != [] && path[0] == SLASH
    ensures forall k :: 1 <= k < q && Resolve(b, path[..k]).Some? ==> Resolve(c, path[..k]).Some?
  {
    hide Follow, Full, Components;
    forall k | 1 <= k < q && Resolve(b, path[..k]).Some? ensures Resolve(c, path[..k]).Some? {
      assert Follow(c, 0, Components(path[..k], 1)) == Follow(b, 0, Components(path[..k], 1));
    }
  }

  lemma ParentsOfPrefix(b: seq<Node>, path: seq<Byte>, q: nat)
    requires Shape(b) && q <= |path| && ParentsThere(b, path, q)
    ensures ParentsThere(b, path[..q], q)
  {
    hide Full, Resolve;
    forall k | !Full(b) && 1 <= k < q && path[..q][k] == SLASH ensures Resolve(b, path[..q][..k]).Some? {
      assert path[..q][..k] == path[..k];
    }
  }

  // What one entry does: `made` says whether the kernel counts it.
  ghost predicate Unpacks(a: seq<Node>, au: nat, b: seq<Node>, bp: seq<Byte>, bu: nat, e: Entry, made: bool,
      known: set<Names>, files: map<Names, seq<Byte>>)
    requires Shape(a) && Shape(b)
  {
    && Later(a, b) && au <= bu
    && Good(b, bp, known, if made && FileEntry(e) then files[NamesOf(e) := e.data] else files)
    && (made ==> FileEntry(e) || e.typ == DIR_TYPE)
    && (made && e.typ == DIR_TYPE ==> DirIs(b, NamesOf(e)))
    && (!made && FileEntry(e) ==> NoRoom(b, bu, e))
  }

  predicate EntryFits(known: set<Names>, e: Entry) {
    0 !in e.name && Clear(known, NamesOf(e)) && (FileEntry(e) ==> NamesOf(e) in known)
  }

  method UnpackEntry(fs: FileSystem, e: Entry, ghost known: set<Names>, ghost files: map<Names,
      seq<Byte>>) returns (made: bool)
    requires fs.Valid()
    modifies fs, fs.nodes, fs.pool
    ensures fs.Valid()
    ensures EntryFits(known, e) && Good(old(fs.nodes[..]), old(fs.pool[..]), known, files) ==>
      Unpacks(old(fs.nodes[..]), old(fs.used), fs.nodes[..], fs.pool[..], fs.used, e, made, known, files)
  {
    hide Good, Later, Components, Clear, Full, Follow, PoolOk, MayAdd, Added, Unpacks, EntryFits, EntryPath, Created;
    hide MayCreate, OthersKept, Contents;
    ghost var a, ap, au := fs.nodes[..], fs.pool[..], fs.used;
    ghost var fine := EntryFits(known, e) && Good(a, ap, known, files);
    var path := EntryPath(e.name);
    if e.typ == DIR_TYPE {
      var ok, id := fs.Mkdir(path);
      if fine { DirUnpacked(a, fs.nodes[..], ap, au, e, ok, id, known, files); }
      return ok;
    } else if FileEntry(e) {
      FitsFacts(known, e);
      MakeParents(fs, path, known, files);
      ghost var b := fs.nodes[..];
      var r := fs.Create(path, e.data);
      if r.Some? { FileInPool(fs.nodes[..], fs.used, r.value); }
      if fine { FileUnpacked(a, b, ap, au, fs.nodes[..], fs.pool[..], fs.used, e, r, known, files); }
      return r.Some?;
    } else {
      if fine { SkippedUnpacked(a, ap, au, e, known, files); }
      return false;
    }
  }

  lemma FileInPool(nodes: seq<Node>, used: nat, id: nat)
    requires PoolOk(nodes, used) && IsFile(nodes, id)
    ensures nodes[id].off + nodes[id].size <= TN_POOL
  {
  }

  lemma FitsFacts(known: set<Names>, e: Entry)
    ensures EntryFits(known, e) ==> 0 !in EntryPath(e.name) && Clear(known, Components(EntryPath(e.name), 1))
  {
    hide Clear, Components;
  }

  lemma SkippedUnpacked(a: seq<Node>, ap: seq<Byte>, au: nat, e: Entry, known: set<Names>, files: map<Names, seq<Byte>>)
    requires Good(a, ap, known, files) && !FileEntry(e) && e.typ != DIR_TYPE
    ensures Shape(a) && Unpacks(a, au, a, ap, au, e, false, known, files)
  {
    hide Good, Later, NoRoom, DirIs, NamesOf;
    GoodTree(a, ap, known, files);
    LaterRefl(a);
  }

  lemma GoodTree(a: seq<Node>, ap: seq<Byte>, known: set<Names>, files: map<Names, seq<Byte>>)
    requires Good(a, ap, known, files)
    ensures TreeOk(a) && Shape(a) && FilesKnown(a, known)
  {
    hide TreeOk, FilesKnown;
    TreeShape(a);
  }

  lemma DirUnpacked(a: seq<Node>, b: seq<Node>, ap: seq<Byte>, au: nat, e: Entry, ok: bool, id: nat, known: set<Names>,
      files: map<Names, seq<Byte>>)
    requires Good(a, ap, known, files) && EntryFits(known, e) && e.typ == DIR_TYPE && Shape(a) && Shape(b)
    requires ok <==> MayAdd(a, EntryPath(e.name))
    requires if ok then Added(a, b, EntryPath(e.name), id, Dir, au, 0) else b == a
    ensures Unpacks(a, au, b, ap, au, e, ok, known, files)
  {
    hide Good, Later, Components, Clear, Follow, MayAdd, Added, EntryPath, Full;
    LaterRefl(a);
    if ok {
      AddGood(a, b, ap, EntryPath(e.name), id, Dir, au, known, files);
    }
  }

  lemma FileUnpacked(a: seq<Node>, b: seq<Node>, ap: seq<Byte>, au: nat, c: seq<Node>, cp: seq<Byte>, cu: nat,
      e: Entry, r: Option<nat>,
      known: set<Names>, files: map<Names, seq<Byte>>)
    requires Good(b, ap, known, files) && EntryFits(known, e) && FileEntry(e) && Shape(a) && Shape(b) && Shape(c)
    requires Later(a, b)
    requires ParentsThere(b, EntryPath(e.name), |EntryPath(e.name)|)
    requires r.Some? <==> MayCreate(b, EntryPath(e.name)) && au + |e.data| <= TN_POOL
    requires cu == au + if r.Some? then |e.data| else 0
    requires r.Some? ==>
      IsFile(c, r.value) && c[r.value].off + c[r.value].size <= |cp| && Contents(c, cp, r.value) == e.data
    requires r.Some? ==> OthersKept(b, ap, c, cp, r.value) && Created(b, c, EntryPath(e.name), r.value, au, |e.data|)
    requires r.None? ==> cp == ap
    requires r.None? && c != b ==>
      MayAdd(b, EntryPath(e.name)) && exists id :: Added(b, c, EntryPath(e.name), id, File, au, 0)
    ensures Unpacks(a, au, c, cp, cu, e, r.Some?, known, files)
  {
    hide Good, Later, Components, Clear, Follow, MayAdd, Added, MayCreate, Created, EntryPath, Full, OthersKept;
    hide Contents, NoRoom, ParentsThere;
    var path := EntryPath(e.name);
    GoodTree(b, ap, known, files);
    LaterRefl(b);
    if r.Some? {
      CreateGood(b, ap, c, cp, path, r.value, au, e.data, known, files);
    } else {
      ClearPlain(known, NamesOf(e));
      RefusedForAReason(b, au, e);
      if c != b {
        var id :| Added(b, c, path, id, File, au, 0);
        AddGood(b, c, ap, path, id, File, au, known, files);
      }
      NoRoomStays(b, au, c, cu, e);
    }
    LaterTrans(a, b, c);
  }

  lemma ClearPlain(known: set<Names>, cs: Names)
    requires Clear(known, cs)
    ensures AllPlain(cs)
  {
  }

  // ---- the whole archive ----------------------------------------------------------------------------

  // Plain names, and no file where another entry needs a directory.
  ghost predicate Tidy(es: seq<Entry>) {
    && (forall i :: 0 <= i < |es| ==> 0 !in es[i].name && AllPlain(NamesOf(es[i])))
    && forall i, j :: 0 <= i < |es| && 0 <= j < |es| && FileEntry(es[i]) ==> !(NamesOf(es[i]) < NamesOf(es[j]))
  }

  ghost function FilePaths(es: seq<Entry>): set<Names> {
    set i | 0 <= i < |es| && FileEntry(es[i]) :: NamesOf(es[i])
  }

  lemma TidyFits(es: seq<Entry>, i: nat)
    requires Tidy(es) && i < |es|
    ensures EntryFits(FilePaths(es), es[i])
  {
    hide NamesOf, Plain;
  }

  // What the files must be: the bytes of the last entry of each name that was unpacked.
  ghost function Extracted(es: seq<Entry>, made: seq<bool>): map<Names, seq<Byte>>
    requires |es| == |made|
  {
    if es == [] then map[] else
      var n := |es| - 1;
      var m := Extracted(es[..n], made[..n]);
      if made[n] && FileEntry(es[n]) then m[NamesOf(es[n]) := es[n].data] else m
  }

  function Count(made: seq<bool>): nat {
    if made == [] then 0 else Count(made[..|made| - 1]) + if made[|made| - 1] then 1 else 0
  }

  /** The file system after unpacking entries es, of which those in `made` were counted. */
  ghost predicate Unpacked(nodes: seq<Node>, pool: seq<Byte>, used: nat, es: seq<Entry>, made: seq<bool>,
      known: set<Names>)
    requires Shape(nodes) && |es| == |made|
  {
    && Good(nodes, pool, known, Extracted(es, made))
    && (forall i :: 0 <= i < |es| && made[i] && es[i].typ == DIR_TYPE ==> DirIs(nodes, NamesOf(es[i])))
    && (forall i :: 0 <= i < |es| && !made[i] && FileEntry(es[i]) ==> NoRoom(nodes, used, es[i]))
  }

  lemma {:induction false} ExtractedHas(es: seq<Entry>, made: seq<bool>, i: nat)
    requires |es| == |made| && i < |es| && made[i] && FileEntry(es[i])
    requires forall j :: i < j < |es| && made[j] && FileEntry(es[j]) ==> NamesOf(es[j]) != NamesOf(es[i])
    ensures NamesOf(es[i]) in Extracted(es, made) && Extracted(es, made)[NamesOf(es[i])] == es[i].data
    decreases |es|
  {
    hide NamesOf, FileEntry;
    var n := |es| - 1;
    if i < n { ExtractedHas(es[..n], made[..n], i); }
  }

  /** What a user finds: a regular file of the archive, of type '0' or NUL, is a file under its name with its bytes,
      the last one if there are several of that name; */
  lemma FileRestored(nodes: seq<Node>, pool: seq<Byte>, used: nat, es: seq<Entry>, made: seq<bool>, known: set<Names>,
      i: nat)
    requires Shape(nodes) && |es| == |made| && Unpacked(nodes, pool, used, es, made, known)
    requires i < |es| && (es[i].typ == 48 || es[i].typ == 0) && made[i]
    requires forall j :: 0 <= j < |es| ==> |es[j].name| <= 100
    requires forall j :: i < j < |es| && made[j] && (es[j].typ == 48 || es[j].typ == 0) ==>
      Components(es[j].name, 0) != Components(es[i].name, 0)
    ensures var r := Resolve(nodes, [SLASH] + es[i].name);
      && r.Some? && IsFile(nodes, r.value) && nodes[r.value].off + nodes[r.value].size <= |pool|
      && Contents(nodes, pool, r.value) == es[i].data
  {
    hide NamesOf, Components, Contents, TreeOk;
    EntryNames(es[i]);
    forall j | i < j < |es| && made[j] && FileEntry(es[j]) ensures NamesOf(es[j]) != NamesOf(es[i]) {
      EntryNames(es[j]);
    }
    ExtractedHas(es, made, i);
    assert FileIs(nodes, pool, NamesOf(es[i]), es[i].data);
  }

  /** a directory, of type '5', is a directory under its name; */
  lemma DirRestored(nodes: seq<Node>, pool: seq<Byte>, used: nat, es: seq<Entry>, made: seq<bool>, known: set<Names>,
      i: nat)
    requires Shape(nodes) && |es| == |made| && Unpacked(nodes, pool, used, es, made, known)
    requires i < |es| && es[i].typ == 53 && made[i] && |es[i].name| <= 100
    ensures var r := Resolve(nodes, [SLASH] + es[i].name); r.Some? && r.value < TN_MAX && nodes[r.value].kind == Dir
  {
    hide NamesOf, Components, Good;
    EntryNames(es[i]);
    assert DirIs(nodes, NamesOf(es[i]));
  }

  /** and a regular file that was not counted met a full table or pool, has no name, or is a directory there. */
  lemma NotRestored(nodes: seq<Node>, pool: seq<Byte>, used: nat, es: seq<Entry>, made: seq<bool>, known: set<Names>,
      i: nat)
    requires Shape(nodes) && |es| == |made| && Unpacked(nodes, pool, used, es, made, known)
    requires i < |es| && (es[i].typ == 48 || es[i].typ == 0) && !made[i] && |es[i].name| <= 100
    ensures
      || !HasFreeSlot(nodes) || used + |es[i].data| > TN_POOL || Components(es[i].name, 0) == []
      || (var r := Resolve(nodes, [SLASH] + es[i].name); r.Some? && r.value < TN_MAX && nodes[r.value].kind == Dir)
  {
    hide NamesOf, Components, Good;
    EntryNames(es[i]);
    assert NoRoom(nodes, used, es[i]);
  }

  lemma UnpackedMore(a: seq<Node>, ap: seq<Byte>, au: nat, b: seq<Node>, bp: seq<Byte>, bu: nat, es: seq<Entry>,
      made: seq<bool>,
      e: Entry, ok: bool, known: set<Names>)
    requires Shape(a) && Shape(b) && |es| == |made| && Unpacked(a, ap, au, es, made, known)
    requires Unpacks(a, au, b, bp, bu, e, ok, known, Extracted(es, made))
    ensures Unpacked(b, bp, bu, es + [e], made + [ok], known)
  {
    hide Good, Later, NoRoom, DirIs, NamesOf, FileEntry;
    var es', made', n := es + [e], made + [ok], |es|;
    assert es'[..n] == es && made'[..n] == made;
    GoodTree(a, ap, known, Extracted(es, made));
    forall i | 0 <= i < n && made[i] && es[i].typ == DIR_TYPE ensures DirIs(b, NamesOf(es[i])) {
      DirStays(a, b, NamesOf(es[i]));
    }
    forall i | 0 <= i < n && !made[i] && FileEntry(es[i]) ensures NoRoom(b, bu, es[i]) {
      NoRoomStays(a, au, b, bu, es[i]);
    }
  }

  lemma NothingYet(nodes: seq<Node>, pool: seq<Byte>, used: nat, es: seq<Entry>)
    requires TreeOk(nodes) && Tidy(es) && forall i :: 0 <= i < |nodes| ==> nodes[i].kind != File
    ensures Shape(nodes) && Unpacked(nodes, pool, used, [], [], FilePaths(es))
  {
    hide TreeOk, Follow, NamesOf, Plain;
    TreeShape(nodes);
  }

  /** tar_unpack: every entry of the archive is visited, in order. Into a tree without files, and for an
      archive with plain names and no file in the way of another entry, all that was counted is there. */
  method TarUnpack(fs: FileSystem, base: seq<Byte>) returns (count: nat, ghost es: seq<Entry>, ghost made: seq<bool>)
    requires fs.Valid()
    modifies fs, fs.nodes, fs.pool
    ensures fs.Valid() && es == Scan(base, 0) && |made| == |es| && count == Count(made)
    ensures TreeOk(old(fs.nodes[..])) && (forall i :: 0 <= i < TN_MAX ==> old(fs.nodes[i]).kind != File) && Tidy(es) ==>
      Unpacked(fs.nodes[..], fs.pool[..], fs.used, es, made, FilePaths(es))
  {
    hide TreeOk, Tidy, Unpacked, Unpacks, PoolOk, EntryAt, Advance, EntryFits, Good, Extracted, Scan, Count, FilePaths;
    ghost var all := Scan(base, 0);
    ghost var fine := TreeOk(fs.nodes[..]) && (forall i :: 0 <= i < TN_MAX ==> fs.nodes[i].kind != File) && Tidy(all);
    if fine { NothingYet(fs.nodes[..], fs.pool[..], fs.used, all); }
    es, made, count := [], [], 0;
    CountNone();
    var p := 0;
    while p + BLOCK <= |base| && base[p] != 0
      invariant fs.Valid() && p % BLOCK == 0
      invariant all == es + Scan(base, p) && |made| == |es| && count == Count(made)
      invariant fine ==> Unpacked(fs.nodes[..], fs.pool[..], fs.used, es, made, FilePaths(all))
      decreases |base| - p
    {
      ghost var a, ap, au := fs.nodes[..], fs.pool[..], fs.used;
      var e, next := ReadHeader(base, p);
      ScanStep(base, p, all, es);
      if fine {
        TidyFits(all, |es|);
        UnpackedGood(a, ap, au, es, made, FilePaths(all));
      }
      var ok := UnpackEntry(fs, e, FilePaths(all), Extracted(es, made));
      if fine { UnpackedMore(a, ap, au, fs.nodes[..], fs.pool[..], fs.used, es, made, e, ok, FilePaths(all)); }
      CountMore(made, ok);
      es, made := es + [e], made + [ok];
      if ok { count := count + 1; }
      p := next;
    }
    ScanEnds(base, p);
    assert es + [] == es;
  }

  lemma ScanStep(base: seq<Byte>, p: nat, all: seq<Entry>, es: seq<Entry>)
    requires p + BLOCK <= |base| && base[p] != 0 && all == es + Scan(base, p)
    ensures |es| < |all| && all[|es|] == EntryAt(base, p)
    ensures all == (es + [EntryAt(base, p)]) + Scan(base, p + Advance(base, p))
  {
    hide EntryAt, Advance;
  }

  lemma ScanEnds(base: seq<Byte>, p: nat)
    requires p + BLOCK > |base| || base[p] == 0
    ensures Scan(base, p) == []
  {
  }

  lemma CountNone()
    ensures Count([]) == 0
  {
  }

  lemma CountMore(made: seq<bool>, ok: bool)
    ensures Count(made + [ok]) == Count(made) + if ok then 1 else 0
  {
    assert (made + [ok])[..|made|] == made;
  }

  lemma UnpackedGood(nodes: seq<Node>, pool: seq<Byte>, used: nat, es: seq<Entry>, made: seq<bool>, known: set<Names>)
    requires Shape(nodes) && |es| == |made| && Unpacked(nodes, pool, used, es, made, known)
    ensures Good(nodes, pool, known, Extracted(es, made))
  {
    hide Good, Extracted;
  }
}
