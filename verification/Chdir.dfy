/**
 Working directories (abs_path and sys_chdir in kernel-rs/src/syscall.rs). sys_chdir resolves the path
 and separately rewrites its text; the stored text names the resolved directory exactly when no ".."
 is met while the rewritten text ends in a slash.
 */
module Chdir {
  import opened Common
  import opened FileTree
  import opened Paths
  import opened Tmpfs

  const OUT_LEN: nat := 96
  const PATH_LEN: nat := 256

  // ---- the rewriting, on text ------------------------------------------------------------------------

  // Index where the backwards scan for a slash stops, starting at `n`.
  function ScanBack(text: seq<Byte>, n: nat): (m: nat)
    requires n < |text|
    ensures m <= n && (m == 0 || text[m] == SLASH) && forall k :: m < k <= n ==> text[k] != SLASH
  {
    if n == 0 || text[n] == SLASH then n else ScanBack(text, n - 1)
  }

  // "..": cut back to the last slash, keeping it unless it is the first byte.
  function Pop(text: seq<Byte>): seq<Byte> {
    if text == [] then [] else
      var m := ScanBack(text, |text| - 1);
      if m > 0 then text[..m + 1] else []
  }

  function Rewrite1(text: seq<Byte>, comp: Name): Option<seq<Byte>> {
    if comp == DOT then Some(text)
    else if comp == DOTDOT then Some(Pop(text))
    else if |text| + 1 + |comp| >= OUT_LEN - 1 then None
    else Some(text + [SLASH] + comp)
  }

  function Rewrite(text: seq<Byte>, cs: seq<Name>): Option<seq<Byte>>
    decreases |cs|
  {
    if cs == [] then Some(text) else
      match Rewrite1(text, cs[0])
      case None => None
      case Some(t) => Rewrite(t, cs[1..])
  }

  // Removes the last component from the buffer, as the loop does for "..".
  method PopComponent(out: array<Byte>, n0: nat) returns (n: nat)
    requires out.Length == OUT_LEN && n0 < OUT_LEN - 1
    modifies out
    ensures n < OUT_LEN - 1 && out[..n] == Pop(old(out[..n0]))
  {
    n := n0;
    ghost var text := out[..n0];
    if n > 0 {
      n := n - 1;
      while n > 0 && out[n] != SLASH
        invariant n < |text| && ScanBack(text, |text| - 1) == ScanBack(text, n)
      {
        n := n - 1;
      }
      if n > 0 { n := n + 1; }
    }
    out[n] := 0;
    assert out[..n] == Pop(text);
  }

  // Appends a slash and a component to the buffer, if there is room.
  method PushComponent(out: array<Byte>, n0: nat, comp: Name) returns (ok: bool, n: nat)
    requires out.Length == OUT_LEN && n0 < OUT_LEN - 1
    modifies out
    ensures ok <==> n0 + 1 + |comp| < OUT_LEN - 1
    ensures ok ==> n < OUT_LEN - 1 && out[..n] == old(out[..n0]) + [SLASH] + comp
  {
    ghost var text := out[..n0];
    n := n0;
    out[n] := SLASH;
    n := n + 1;
    if n + |comp| >= OUT_LEN - 1 { return false, n; }
    ghost var pre := out[..n];
    assert pre == text + [SLASH];
    for i := 0 to |comp|
      invariant out[..n + i] == pre + comp[..i]
    {
      out[n + i] := comp[i];
    }
    n := n + |comp|;
    out[n] := 0;
    return true, n;
  }

  /** The loop of sys_chdir, with its 96-byte buffer: all indices are in bounds, and it computes Rewrite of
      the path's components. */
  method Normalize(path: seq<Byte>) returns (r: Option<seq<Byte>>)
    requires path != [] && path[0] == SLASH
    ensures r == match Rewrite([], Components(path, 1)) case None => None case Some(t) => Some(RootIfEmpty(t))
  {
    hide Rewrite1, Components;
    var out := new Byte[OUT_LEN](_ => 0);
    var n, p := 0, 1;
    assert out[..n] == [];
    while p < |path|
      invariant 1 <= p <= |path| && 0 <= n < OUT_LEN - 1
      invariant Rewrite([], Components(path, 1)) == Rewrite(out[..n], Components(path, p))
      decreases |path| - p
    {
      p := SkipSlashes(path, p);
      if p >= |path| { break; }
      var e := ScanEnd(path, p);
      var comp := path[p..e];
      FirstComponent(path, p);
      RewriteFirst(out[..n], comp, Components(path, e));
      RewriteCases(out[..n], comp);
      if comp == DOT {
      } else if comp == DOTDOT {
        n := PopComponent(out, n);
      } else {
        var ok;
        ok, n := PushComponent(out, n, comp);
        if !ok { return None; }
      }
      p := e;
    }
    NoComponents(path);
    if n == 0 {
      out[0] := SLASH;
      return Some([SLASH]);
    }
    return Some(out[..n]);
  }

  lemma RewriteFirst(text: seq<Byte>, comp: Name, rest: seq<Name>)
    ensures Rewrite(text, [comp] + rest) ==
      match Rewrite1(text, comp) case None => None case Some(t) => Rewrite(t, rest)
  {
    assert ([comp] + rest)[1..] == rest;
  }

  lemma RewriteCases(text: seq<Byte>, comp: Name)
    ensures comp == DOT ==> Rewrite1(text, comp) == Some(text)
    ensures comp == DOTDOT ==> Rewrite1(text, comp) == Some(Pop(text))
    ensures comp != DOT && comp != DOTDOT ==>
      Rewrite1(text, comp) == if |text| + 1 + |comp| >= OUT_LEN - 1 then None else Some(text + [SLASH] + comp)
  {
  }

  // ---- what fits ---------------------------------------------------------------------------------------------

  lemma {:induction false} PathTextLength(c: Name, cs: seq<Name>)
    ensures |PathText([c] + cs)| == 1 + |c| + |PathText(cs)|
    decreases |cs|
  {
    var all := [c] + cs;
    if cs == [] {
      assert all == [c] && all[..0] == [];
      assert PathText(all) == PathText([]) + [SLASH] + c;
    } else {
      assert all[..|all| - 1] == [c] + cs[..|cs| - 1];
      PathTextLength(c, cs[..|cs| - 1]);
    }
  }

  lemma {:induction false} ShortFits(text: seq<Byte>, cs: seq<Name>)
    requires |text| + |PathText(cs)| < 95
    ensures Rewrite(text, cs).Some?
    decreases |cs|
  {
    hide PathText;
    if cs != [] {
      PathTextLength(cs[0], cs[1..]);
      assert [cs[0]] + cs[1..] == cs;
      var t := Rewrite1(text, cs[0]).value;
      ShortFits(t, cs[1..]);
    }
  }

  lemma {:induction false} ComponentsShort(path: seq<Byte>, p: nat)
    requires 1 <= p <= |path|
    ensures |PathText(Components(path, p))| <= |path| - p + 1
    ensures p < |path| && path[p] == SLASH ==> |PathText(Components(path, p))| <= |path| - p
    decreases |path| - p
  {
    hide PathText;
    if p == |path| {
      NoText();
    } else if path[p] == SLASH {
      ComponentsShort(path, p + 1);
    } else {
      var e := EndOf(path, p);
      PathTextLength(path[p..e], Components(path, e));
      EndAtSlash(path, p);
      if e == |path| { NoText(); } else { ComponentsShort(path, e); }
    }
  }

  lemma NoText()
    ensures PathText([]) == []
  {
  }

  lemma {:induction false} EndAtSlash(path: seq<Byte>, p: nat)
    requires p <= |path|
    ensures EndOf(path, p) < |path| ==> path[EndOf(path, p)] == SLASH
    decreases |path| - p
  {
    if p < |path| && path[p] != SLASH { EndAtSlash(path, p + 1); }
  }

  /** Every path of at most 94 bytes fits the buffer. */
  lemma ShortPathFits(path: seq<Byte>)
    requires path != [] && |path| < 95
    ensures Rewrite([], Components(path, 1)).Some?
  {
    hide PathText, Components, Rewrite;
    ComponentsShort(path, 1);
    ShortFits([], Components(path, 1));
  }

  /** The text stored for a path without dots is that path, tidied up; it fits exactly if it has at most 94 bytes. */
  lemma {:induction false} PlainStored(text: seq<Byte>, cs: seq<Name>)
    requires AllPlain(cs) && |text| < 95
    ensures Rewrite(text, cs) == if |text + PathText(cs)| < 95 then Some(text + PathText(cs)) else None
    decreases |cs|
  {
    hide PathText;
    if cs == [] {
      NoText();
      assert text + [] == text;
    } else {
      var t := text + [SLASH] + cs[0];
      assert Plain(cs[0]);
      PathTextFront(cs);
      assert text + PathText(cs) == t + PathText(cs[1..]);
      if |t| < 95 { PlainStored(t, cs[1..]); }
    }
  }

  lemma PathTextLast(cs: seq<Name>)
    requires cs != []
    ensures PathText(cs) == PathText(cs[..|cs| - 1]) + [SLASH] + cs[|cs| - 1]
  {
  }

  lemma {:induction false} PathTextFront(cs: seq<Name>)
    requires cs != []
    ensures PathText(cs) == [SLASH] + cs[0] + PathText(cs[1..])
    decreases |cs|
  {
    hide PathText;
    var n, rest := |cs| - 1, cs[1..];
    PathTextLast(cs);
    if n == 0 {
      assert cs[..0] == [] && rest == [];
      NoText();
    } else {
      PathTextFront(cs[..n]);
      PathTextLast(rest);
      assert rest[..n - 1] == cs[..n][1..] && rest[n - 1] == cs[n];
    }
  }

  // ---- the rewriting, on component lists -----------------------------------------------------------------

  // What the text stands for: its components, and whether it ends in a slash.
  datatype Text = Text(names: seq<Name>, slash: bool)

  function Write1(t: Text, comp: Name): Text {
    if comp == DOT then t
    else if comp == DOTDOT then
      if t.slash || t.names == [] then t else Text(t.names[..|t.names| - 1], |t.names| > 1)
    else Text(t.names + [comp], false)
  }

  function Write(t: Text, cs: seq<Name>): Text
    decreases |cs|
  {
    if cs == [] then t else Write(Write1(t, cs[0]), cs[1..])
  }

  // The directory the components really lead to, as a list of names.
  function True1(names: seq<Name>, comp: Name): seq<Name> {
    if comp == DOT then names
    else if comp == DOTDOT then (if names == [] then [] else names[..|names| - 1])
    else names + [comp]
  }

  function TrueNames(names: seq<Name>, cs: seq<Name>): seq<Name>
    decreases |cs|
  {
    if cs == [] then names else TrueNames(True1(names, cs[0]), cs[1..])
  }

  /** Whether some ".." comes when the text ends in a slash: after another ".." (or "." in between) that
      left at least one component. It depends on the components only. */
  predicate Fault(depth: nat, slash: bool, cs: seq<Name>)
    decreases |cs|
  {
    cs != [] &&
      if cs[0] == DOT then Fault(depth, slash, cs[1..])
      else if cs[0] == DOTDOT then
        slash || (if depth == 0 then Fault(0, false, cs[1..]) else Fault(depth - 1, depth > 1, cs[1..]))
      else Fault(depth + 1, false, cs[1..])
  }

  // Without a fault the text follows the directory.
  lemma {:induction false} NoFaultAgrees(t: Text, cs: seq<Name>)
    requires !Fault(|t.names|, t.slash, cs) && (t.slash ==> t.names != [])
    ensures Write(t, cs).names == TrueNames(t.names, cs)
    decreases |cs|
  {
    if cs != [] { NoFaultAgrees(Write1(t, cs[0]), cs[1..]); }
  }

  // Once it has more names than the directory, it keeps more: a fault is never made good.
  lemma {:induction false} StaysAhead(t: Text, names: seq<Name>, cs: seq<Name>)
    requires |t.names| > |names| && (!t.slash ==> names != [])
    ensures |Write(t, cs).names| > |TrueNames(names, cs)|
    decreases |cs|
  {
    if cs != [] { StaysAhead(Write1(t, cs[0]), True1(names, cs[0]), cs[1..]); }
  }

  lemma {:induction false} FaultDiverges(t: Text, cs: seq<Name>)
    requires Fault(|t.names|, t.slash, cs) && (t.slash ==> t.names != [])
    ensures Write(t, cs).names != TrueNames(t.names, cs)
    decreases |cs|
  {
    if cs[0] == DOTDOT && t.slash {
      StaysAhead(Write1(t, cs[0]), True1(t.names, cs[0]), cs[1..]);
    } else {
      FaultDiverges(Write1(t, cs[0]), cs[1..]);
    }
  }

  // ---- text and components ---------------------------------------------------------------------------------

  // The text stands for the list: same components, a slash at the front and only one there.
  ghost predicate Stands(text: seq<Byte>, t: Text) {
    && Components(text, 0) == t.names
    && (text == [] <==> t.names == [])
    && t.slash == (text != [] && text[|text| - 1] == SLASH)
    && (text != [] ==> text[0] == SLASH && |text| >= 2 && text[1] != SLASH)
  }

  lemma PushStands(text: seq<Byte>, t: Text, comp: Name)
    requires Stands(text, t) && Clean(comp)
    ensures Stands(text + [SLASH] + comp, Text(t.names + [comp], false))
  {
    hide Components;
    ComponentsJoin(text, comp, 0);
    OneComponent(comp);
  }

  lemma PopStands(text: seq<Byte>, t: Text)
    requires Stands(text, t)
    ensures Stands(Pop(text), Write1(t, DOTDOT))
  {
    hide Components;
    if text != [] && !t.slash {
      var m := ScanBack(text, |text| - 1);
      var pre, comp := text[..m], text[m + 1..];
      assert text == pre + [SLASH] + comp;
      ComponentsJoin(pre, comp, 0);
      OneComponent(comp);
      if m > 0 {
        ComponentsJoin(pre, [], 0);
        assert pre + [SLASH] + [] == text[..m + 1];
        NoComponents([]);
        SecondByte(pre);
      } else {
        NoComponents([]);
      }
    } else if text != [] {
      assert text[..|text|] == text;
    }
  }

  // A text whose second byte is no slash has a component.
  lemma SecondByte(pre: seq<Byte>)
    requires |pre| >= 2 && pre[0] == SLASH && pre[1] != SLASH
    ensures Components(pre, 0) != []
  {
    assert Components(pre, 0) == Components(pre, 1);
  }

  lemma {:induction false} RewriteStands(text: seq<Byte>, t: Text, cs: seq<Name>)
    requires Stands(text, t) && (forall i :: 0 <= i < |cs| ==> Clean(cs[i])) && Rewrite(text, cs).Some?
    ensures Stands(Rewrite(text, cs).value, Write(t, cs))
    decreases |cs|
  {
    hide Stands;
    if cs != [] {
      var u := Rewrite1(text, cs[0]).value;
      if cs[0] == DOTDOT {
        PopStands(text, t);
      } else if cs[0] != DOT {
        PushStands(text, t, cs[0]);
      }
      RewriteStands(u, Write1(t, cs[0]), cs[1..]);
    }
  }

  // ---- where the path leads --------------------------------------------------------------------------------

  predicate Usable(comp: Name) { comp == DOT || comp == DOTDOT || Plain(comp) }

  // A path that resolves consists of dots and plain names.
  lemma {:induction false} ResolvedUsable(nodes: seq<Node>, cur: nat, cs: seq<Name>)
    requires Shape(nodes) && cur < TN_MAX && Follow(nodes, cur, cs).Some?
    requires forall i :: 0 <= i < |cs| ==> Clean(cs[i]) && 0 !in cs[i]
    ensures forall i :: 0 <= i < |cs| ==> Usable(cs[i])
    decreases |cs|
  {
    if cs != [] {
      StepInTable(nodes, cur, cs[0]);
      ResolvedUsable(nodes, Step(nodes, cur, cs[0]).value, cs[1..]);
      forall i | 0 <= i < |cs| ensures Usable(cs[i]) { if i > 0 { assert cs[i] == cs[1..][i - 1]; } }
    }
  }

  lemma {:induction false} WritePlain(t: Text, cs: seq<Name>)
    requires AllPlain(t.names) && forall i :: 0 <= i < |cs| ==> Usable(cs[i])
    ensures AllPlain(Write(t, cs).names)
    decreases |cs|
  {
    if cs != [] { WritePlain(Write1(t, cs[0]), cs[1..]); }
  }

  // One step of the directory keeps the list a path to the node reached.
  lemma TrueStep(nodes: seq<Node>, names: seq<Name>, cur: nat, comp: Name)
    requires TreeOk(nodes) && AllPlain(names) && Follow(nodes, 0, names) == Some(cur) && Usable(comp)
    requires Step(nodes, cur, comp).Some?
    ensures AllPlain(True1(names, comp)) && Follow(nodes, 0, True1(names, comp)) == Step(nodes, cur, comp)
  {
    hide NodeOk, NameBytes, ChildFrom;
    PlainPathIsOwn(nodes, names);
    if comp == DOTDOT {
      if names != [] {
        var a, c := names[..|names| - 1], names[|names| - 1];
        assert names == a + [c];
        FollowAppend(nodes, 0, a, [c]);
        var m := Follow(nodes, 0, a).value;
        FollowOne(nodes, m, c);
        assert Plain(c);
      }
    } else if comp != DOT {
      FollowAppend(nodes, 0, names, [comp]);
      FollowOne(nodes, cur, comp);
    }
  }

  lemma {:induction false} TrueFollow(nodes: seq<Node>, names: seq<Name>, cur: nat, cs: seq<Name>)
    requires TreeOk(nodes) && AllPlain(names) && Follow(nodes, 0, names) == Some(cur)
    requires Follow(nodes, cur, cs).Some? && forall i :: 0 <= i < |cs| ==> Usable(cs[i])
    ensures AllPlain(TrueNames(names, cs)) && Follow(nodes, 0, TrueNames(names, cs)) == Follow(nodes, cur, cs)
    decreases |cs|
  {
    hide Step, True1, Plain;
    if cs != [] {
      TrueStep(nodes, names, cur, cs[0]);
      StepInTable(nodes, cur, cs[0]);
      TrueFollow(nodes, True1(names, cs[0]), Step(nodes, cur, cs[0]).value, cs[1..]);
    }
  }

  lemma TextResolves(nodes: seq<Node>, text: seq<Byte>, t: Text)
    requires Shape(nodes) && Stands(text, t)
    ensures Resolve(nodes, RootIfEmpty(text)) == Follow(nodes, 0, t.names)
  {
    if text == [] {
      assert Components([SLASH], 1) == [];
    } else {
      assert Components(text, 0) == Components(text, 1);
    }
  }

  /** The stored working directory resolves to the directory that was asked for exactly when no ".." was
      met with the text ending in a slash. */
  lemma StoredCwdMeans(nodes: seq<Node>, path: seq<Byte>)
    requires TreeOk(nodes) && 0 !in path && Resolve(nodes, path).Some?
    requires Rewrite([], Components(path, 1)).Some?
    ensures Resolve(nodes, RootIfEmpty(Rewrite([], Components(path, 1)).value)) == Resolve(nodes, path) <==>
      !Fault(0, false, Components(path, 1))
  {
    hide TreeOk, Components, Plain;
    var cs, empty := Components(path, 1), Text([], false);
    TreeShape(nodes);
    CleanPath(path);
    ResolvedUsable(nodes, 0, cs);
    NoComponents([]);
    RewriteStands([], empty, cs);
    TextResolves(nodes, Rewrite([], cs).value, Write(empty, cs));
    FollowNone(nodes, 0);
    TrueFollow(nodes, [], 0, cs);
    WritePlain(empty, cs);
    if Fault(0, false, cs) {
      FaultDiverges(empty, cs);
      if Follow(nodes, 0, Write(empty, cs).names) == Follow(nodes, 0, TrueNames([], cs)) {
        SamePath(nodes, Write(empty, cs).names, TrueNames([], cs));
        assert false;
      }
    } else {
      NoFaultAgrees(empty, cs);
    }
  }

  lemma CleanPath(path: seq<Byte>)
    requires 0 !in path && path != []
    ensures forall i :: 0 <= i < |Components(path, 1)| ==> Clean(Components(path, 1)[i]) && 0 !in Components(path, 1)[i]
  {
    ComponentsClean(path, 1);
  }

  /** The fault is real: for any two names a and b, "/a/b/../.." means the root, but the stored text is "/a/". */
  lemma FaultExample(a: Name, b: Name)
    requires Plain(a) && Plain(b)
    ensures var cs := [a, b, DOTDOT, DOTDOT];
      Fault(0, false, cs) && TrueNames([], cs) == [] && Rewrite([], cs) == Some([SLASH] + a + [SLASH])
  {
    FaultNames(a, b);
    FaultText(a, b);
  }

  lemma FaultNames(a: Name, b: Name)
    requires Plain(a) && Plain(b)
    ensures Fault(0, false, [a, b, DOTDOT, DOTDOT]) && TrueNames([], [a, b, DOTDOT, DOTDOT]) == []
  {
    var c1, c2, c3 := [DOTDOT], [DOTDOT, DOTDOT], [b, DOTDOT, DOTDOT];
    var cs := [a, b, DOTDOT, DOTDOT];
    assert cs[1..] == c3 && c3[1..] == c2 && c2[1..] == c1 && c1[1..] == [];
    assert Fault(1, true, c1) && Fault(2, false, c2) && Fault(1, false, c3);
    assert [a, b][..1] == [a] && [a][..0] == [] && [] + [a] == [a] && [a] + [b] == [a, b];
    assert TrueNames([a], c1) == TrueNames([], []);
    assert TrueNames([a, b], c2) == [] && TrueNames([a], c3) == [];
  }

  lemma FaultText(a: Name, b: Name)
    requires Plain(a) && Plain(b)
    ensures Rewrite([], [a, b, DOTDOT, DOTDOT]) == Some([SLASH] + a + [SLASH])
  {
    hide Rewrite, Pop;
    var t1, t3 := [SLASH] + a, [SLASH] + a + [SLASH];
    var t2 := t1 + [SLASH] + b;
    PopOf(t1, b);
    PopNothing(t1);
    RewriteFirst(t3, DOTDOT, []);
    RewriteFirst(t2, DOTDOT, [DOTDOT]);
    RewriteFirst(t1, b, [DOTDOT, DOTDOT]);
    RewriteFirst([], a, [b, DOTDOT, DOTDOT]);
    RewriteNone(t3);
    assert [] + [SLASH] + a == t1;
    assert [DOTDOT] + [] == [DOTDOT] && [DOTDOT] + [DOTDOT] == [DOTDOT, DOTDOT];
    assert [b] + [DOTDOT, DOTDOT] == [b, DOTDOT, DOTDOT];
    assert [a] + [b, DOTDOT, DOTDOT] == [a, b, DOTDOT, DOTDOT];
  }

  // "/a/b/../.."
  function UpTwice(): seq<Byte> { [SLASH] + A + [SLASH] + B + [SLASH] + DOTDOT + [SLASH] + DOTDOT }

  /** A tree in which it happens: /a and /a/b are there, the path "/a/b/../.." leads to the root, and the text that
      is stored for it leads to /a. */
  lemma FaultInATree()
    ensures var t, path := WithAB(), UpTwice(); var stored := Rewrite([], Components(path, 1));
      && TreeOk(t) && Follow(t, 0, [A, B]) == Some(2) && t[2].kind == Dir
      && Resolve(t, path) == Some(0) && stored.Some? && Resolve(t, RootIfEmpty(stored.value)) == Some(1)
  {
    hide TreeOk, Components, WithAB, Rewrite, UpTwice;
    var t, cs := WithAB(), [A, B, DOTDOT, DOTDOT];
    WithABTree();
    TreeShape(t);
    assert Plain(A) && Plain(B);
    FaultExample(A, B);
    UpTwiceNames();
    FollowAppend(t, 0, [A, B], [DOTDOT, DOTDOT]);
    assert [A, B] + [DOTDOT, DOTDOT] == cs;
    FollowAppend(t, 2, [DOTDOT], [DOTDOT]);
    assert [DOTDOT] + [DOTDOT] == [DOTDOT, DOTDOT];
    FollowOne(t, 2, DOTDOT);
    FollowOne(t, 1, DOTDOT);
    StoredA();
  }

  lemma UpTwiceNames()
    ensures UpTwice() != [] && UpTwice()[0] == SLASH && Components(UpTwice(), 1) == [A, B, DOTDOT, DOTDOT]
  {
    hide Components;
    ExamplePaths();
    OneComponent(DOTDOT);
    var ab := [SLASH] + A + [SLASH] + B;
    ComponentsJoin(ab, DOTDOT, 1);
    ComponentsJoin(ab + [SLASH] + DOTDOT, DOTDOT, 1);
  }

  lemma StoredA()
    ensures Components([SLASH] + A + [SLASH], 1) == [A]
  {
    hide Components;
    ExamplePaths();
    var a := [SLASH] + A;
    assert a + [SLASH] == a + [SLASH] + [];
    ComponentsJoin(a, [], 1);
    NoComponents([]);
  }

  lemma RewriteNone(text: seq<Byte>)
    ensures Rewrite(text, []) == Some(text)
  {
  }

  lemma PopNothing(text: seq<Byte>)
    requires text != []
    ensures Pop(text + [SLASH]) == text + [SLASH]
  {
    var w := text + [SLASH];
    assert w[..|w|] == w && w[|w| - 1] == SLASH;
  }

  // Removing a component that was just added leaves the slash.
  lemma PopOf(text: seq<Byte>, comp: Name)
    requires text != [] && SLASH !in comp && comp != []
    ensures Pop(text + [SLASH] + comp) == text + [SLASH]
  {
    var w := text + [SLASH] + comp;
    var m := ScanBack(w, |w| - 1);
    assert w[|text|] == SLASH && forall k :: |text| < k < |w| ==> w[k] == comp[k - |text| - 1];
    assert m == |text|;
  }

  // ---- relative paths ------------------------------------------------------------------------------------------

  // abs_path: an absolute argument stands for itself, a relative one is appended to the working directory;
  // what does not fit in 255 bytes is cut off.
  function AbsPath(cwd: seq<Byte>, raw: seq<Byte>): (r: seq<Byte>)
    ensures |r| < PATH_LEN
  {
    if raw != [] && raw[0] == SLASH then
      raw[..if |raw| < PATH_LEN - 1 then |raw| else PATH_LEN - 1]
    else
      var base := cwd[..if |cwd| < PATH_LEN - 1 then |cwd| else PATH_LEN - 1];
      var n := |base|;
      var dir := if n + 1 < PATH_LEN && n > 0 && base[n - 1] != SLASH then base + [SLASH] else base;
      var room := PATH_LEN - |dir| - 1;
      dir + raw[..if room < |raw| then room else |raw|]
  }

  // A trailing slash adds no component.
  lemma TrailingSlash(x: seq<Byte>, y: seq<Byte>, p: nat)
    requires x != [] && x[|x| - 1] == SLASH && p < |x|
    ensures Components(x + y, p) == Components(x, p) + Components(y, 0)
  {
    hide Components;
    var z := x[..|x| - 1];
    assert x == z + [SLASH] + [] && x + y == z + [SLASH] + y;
    ComponentsJoin(z, y, p);
    ComponentsJoin(z, [], p);
    NoComponents([]);
  }

  // The path an argument stands for: itself if it is absolute, else the working directory, a slash, and it.
  function Joined(cwd: seq<Byte>, raw: seq<Byte>): seq<Byte> {
    if raw != [] && raw[0] == SLASH then raw
    else if cwd == [] || cwd[|cwd| - 1] == SLASH then cwd + raw
    else cwd + [SLASH] + raw
  }

  /** abs_path yields the first 255 bytes of that path. */
  lemma AbsPathIs(cwd: seq<Byte>, raw: seq<Byte>)
    ensures var path := Joined(cwd, raw);
      AbsPath(cwd, raw) == path[..if |path| < PATH_LEN then |path| else PATH_LEN - 1]
  {
    var path := Joined(cwd, raw);
    if raw != [] && raw[0] == SLASH {
    } else if |cwd| >= PATH_LEN - 1 {
      assert path[..PATH_LEN - 1] == cwd[..PATH_LEN - 1];
    } else {
      var dir := if cwd == [] || cwd[|cwd| - 1] == SLASH then cwd else cwd + [SLASH];
      assert path == dir + raw && cwd[..|cwd|] == cwd;
      var room := PATH_LEN - |dir| - 1;
      assert AbsPath(cwd, raw) == dir + raw[..if room < |raw| then room else |raw|];
      assert |path| >= PATH_LEN ==> path[..PATH_LEN - 1] == dir + raw[..room];
      assert |path| < PATH_LEN ==> raw[..|raw|] == raw && path[..|path|] == path;
    }
  }

  /** An absolute path means the same whatever the working directory is. */
  lemma AbsolutePathMeans(nodes: seq<Node>, cwd: seq<Byte>, raw: seq<Byte>)
    requires Shape(nodes) && raw != [] && raw[0] == SLASH
    ensures |raw| < PATH_LEN ==> Resolve(nodes, AbsPath(cwd, raw)) == Resolve(nodes, raw)
    ensures |raw| >= PATH_LEN ==> Resolve(nodes, AbsPath(cwd, raw)) == Resolve(nodes, raw[..255])
  {
    AbsPathIs(cwd, raw);
    hide AbsPath;
    assert |raw| < PATH_LEN ==> raw[..|raw|] == raw;
  }

  /** A relative path means: from the working directory, follow the components. */
  lemma RelativePathMeans(nodes: seq<Node>, cwd: seq<Byte>, raw: seq<Byte>)
    requires Shape(nodes) && |Joined(cwd, raw)| < PATH_LEN && (raw == [] || raw[0] != SLASH)
    ensures Resolve(nodes, AbsPath(cwd, raw)) ==
      match Resolve(nodes, cwd) case None => None case Some(dir) => Follow(nodes, dir, Components(raw, 0))
  {
    hide Components, AbsPath;
    AbsPathIs(cwd, raw);
    var path := Joined(cwd, raw);
    assert AbsPath(cwd, raw) == path;
    if cwd != [] && cwd[0] == SLASH {
      if cwd[|cwd| - 1] != SLASH {
        ComponentsJoin(cwd, raw, 1);
      } else if |cwd| == 1 {
        assert cwd == [SLASH];
        ComponentsShift(cwd, raw, 0);
        NoComponents(cwd);
        FollowNone(nodes, 0);
        assert [] + Components(raw, 0) == Components(raw, 0);
      } else {
        TrailingSlash(cwd, raw, 1);
      }
      FollowAppend(nodes, 0, Components(cwd, 1), Components(raw, 0));
    }
  }

  // Where an argument leads: from the root if it is absolute, from the working directory if not.
  ghost function Destination(nodes: seq<Node>, cwd: seq<Byte>, raw: seq<Byte>): Option<nat>
    requires Shape(nodes)
  {
    if raw != [] && raw[0] == SLASH then Resolve(nodes, raw)
    else match Resolve(nodes, cwd) case None => None case Some(dir) => Follow(nodes, dir, Components(raw, 0))
  }

  lemma DestinationIs(nodes: seq<Node>, cwd: seq<Byte>, raw: seq<Byte>)
    requires Shape(nodes) && |Joined(cwd, raw)| < PATH_LEN
    ensures AbsPath(cwd, raw) == Joined(cwd, raw) && Resolve(nodes, AbsPath(cwd, raw)) == Destination(nodes, cwd, raw)
  {
    hide AbsPath, Components, Follow;
    AbsPathIs(cwd, raw);
    if raw != [] && raw[0] == SLASH { AbsolutePathMeans(nodes, cwd, raw); } else { RelativePathMeans(nodes, cwd, raw); }
  }

  /** sys_chdir: it succeeds when the argument leads to a directory and the text fits. The text stored then leads
      to that directory exactly when the path has no fault; otherwise the working directory stays. A path of more
      than 255 bytes stands for its first 255. */
  method SysChdir(fs: FileSystem, cwd: seq<Byte>, raw: seq<Byte>) returns (ok: bool, cwd': seq<Byte>)
    requires fs.Valid()
    ensures var r := Resolve(fs.nodes[..], AbsPath(cwd, raw));
      ok <==> r.Some? && fs.nodes[r.value].kind == Dir && Rewrite([], Components(AbsPath(cwd, raw), 1)).Some?
    ensures !ok ==> cwd' == cwd
    ensures ok ==> cwd' == RootIfEmpty(Rewrite([], Components(AbsPath(cwd, raw), 1)).value)
    ensures ok && TreeOk(fs.nodes[..]) && 0 !in cwd && 0 !in raw ==>
      (Resolve(fs.nodes[..], cwd') == Resolve(fs.nodes[..], AbsPath(cwd, raw)) <==>
        !Fault(0, false, Components(AbsPath(cwd, raw), 1)))
    ensures |Joined(cwd, raw)| < PATH_LEN ==>
      var r := Destination(fs.nodes[..], cwd, raw);
      ok <==> r.Some? && fs.nodes[r.value].kind == Dir && Rewrite([], Components(Joined(cwd, raw), 1)).Some?
    ensures |Joined(cwd, raw)| < 95 ==>
      var r := Destination(fs.nodes[..], cwd, raw); ok <==> r.Some? && fs.nodes[r.value].kind == Dir
    ensures ok && |Joined(cwd, raw)| < PATH_LEN && TreeOk(fs.nodes[..]) && 0 !in cwd && 0 !in raw ==>
      (Resolve(fs.nodes[..], cwd') == Destination(fs.nodes[..], cwd, raw) <==>
        !Fault(0, false, Components(Joined(cwd, raw), 1)))
  {
    hide TreeOk, Rewrite, Components, Follow, PoolOk, Fault, Destination;
    var path := AbsPath(cwd, raw);
    if |Joined(cwd, raw)| < PATH_LEN { DestinationIs(fs.nodes[..], cwd, raw); }
    if path != [] && |path| < 95 { ShortPathFits(path); }
    var id := fs.Lookup(path);
    if id.None? || fs.nodes[id.value].kind != Dir { return false, cwd; }
    var r := Normalize(path);
    if r.None? { return false, cwd; }
    if TreeOk(fs.nodes[..]) && 0 !in cwd && 0 !in raw { StoredCwdMeans(fs.nodes[..], path); }
    return true, r.value;
  }
}
