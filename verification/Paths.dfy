/**
 Path texts and the lists of components they stand for.
 */
module Paths {
  import opened Common
  import opened FileTree

  lemma NoComponents(path: seq<Byte>)
    ensures Components(path, |path|) == []
  {
  }

  lemma FirstComponent(path: seq<Byte>, p: nat)
    requires p < |path| && path[p] != SLASH
    ensures Components(path, p) == [path[p..EndOf(path, p)]] + Components(path, EndOf(path, p))
  {
  }

  lemma {:induction false} EndShift(x: seq<Byte>, y: seq<Byte>, k: nat)
    requires k <= |y|
    ensures EndOf(x + y, |x| + k) == |x| + EndOf(y, k)
    decreases |y| - k
  {
    assert k < |y| ==> (x + y)[|x| + k] == y[k];
    if k < |y| && y[k] != SLASH { EndShift(x, y, k + 1); }
  }

  lemma SkipOne(path: seq<Byte>, p: nat)
    requires p < |path| && path[p] == SLASH
    ensures Components(path, p) == Components(path, p + 1)
  {
  }

  // The components from a position on depend only on the bytes from there on.
  lemma {:induction false} ComponentsShift(x: seq<Byte>, y: seq<Byte>, k: nat)
    requires k <= |y|
    ensures Components(x + y, |x| + k) == Components(y, k)
    decreases |y| - k
  {
    hide Components;
    var w := x + y;
    if k == |y| {
      NoComponents(w);
      NoComponents(y);
    } else {
      assert w[|x| + k] == y[k];
      if y[k] == SLASH {
        SkipOne(w, |x| + k);
        SkipOne(y, k);
        ComponentsShift(x, y, k + 1);
      } else {
        FirstComponent(w, |x| + k);
        FirstComponent(y, k);
        EndShift(x, y, k);
        var e := EndOf(y, k);
        assert w[|x| + k..|x| + e] == y[k..e];
        assert e > k;
        ComponentsShift(x, y, e);
      }
    }
  }

  lemma {:induction false} EndBeforeSlash(x: seq<Byte>, y: seq<Byte>, p: nat)
    requires p <= |x|
    ensures EndOf(x + [SLASH] + y, p) == EndOf(x, p)
    decreases |x| - p
  {
    var w := x + [SLASH] + y;
    if p < |x| {
      assert w[p] == x[p];
      if x[p] != SLASH { EndBeforeSlash(x, y, p + 1); }
    } else {
      assert w[p] == SLASH;
    }
  }

  // A slash separates: the components of both sides, one after the other.
  lemma {:induction false} ComponentsJoin(x: seq<Byte>, y: seq<Byte>, p: nat)
    requires p <= |x|
    ensures Components(x + [SLASH] + y, p) == Components(x, p) + Components(y, 0)
    decreases |x| - p
  {
    hide Components;
    var w := x + [SLASH] + y;
    if p == |x| {
      SkipOne(w, p);
      assert w == (x + [SLASH]) + y && |x + [SLASH]| == p + 1;
      ComponentsShift(x + [SLASH], y, 0);
      NoComponents(x);
    } else {
      assert w[p] == x[p];
      if x[p] == SLASH {
        SkipOne(w, p);
        SkipOne(x, p);
        ComponentsJoin(x, y, p + 1);
      } else {
        FirstComponent(w, p);
        FirstComponent(x, p);
        EndBeforeSlash(x, y, p);
        var e := EndOf(x, p);
        assert w[p..e] == x[p..e] && e > p;
        ComponentsJoin(x, y, e);
      }
    }
  }

  predicate Clean(comp: Name) { comp != [] && SLASH !in comp }

  lemma {:induction false} EndOfClean(comp: Name, k: nat)
    requires SLASH !in comp && k <= |comp|
    ensures EndOf(comp, k) == |comp|
    decreases |comp| - k
  {
    if k < |comp| { EndOfClean(comp, k + 1); }
  }

  lemma OneComponent(comp: Name)
    requires Clean(comp)
    ensures Components(comp, 0) == [comp]
  {
    EndOfClean(comp, 0);
    assert comp[0..|comp|] == comp;
  }

  // ---- the text of a list of names ---------------------------------------------------------------------------

  function RootIfEmpty(text: seq<Byte>): seq<Byte> { if text == [] then [SLASH] else text }

  function PathText(cs: seq<Name>): seq<Byte> {
    if cs == [] then [] else PathText(cs[..|cs| - 1]) + [SLASH] + cs[|cs| - 1]
  }

  lemma {:induction false} TextComponents(cs: seq<Name>)
    requires forall i :: 0 <= i < |cs| ==> Clean(cs[i])
    ensures Components(PathText(cs), 0) == cs && (cs != [] ==> PathText(cs) != [] && PathText(cs)[0] == SLASH)
  {
    hide Components;
    NoComponents([]);
    if cs != [] {
      var init, last := cs[..|cs| - 1], cs[|cs| - 1];
      TextComponents(init);
      ComponentsJoin(PathText(init), last, 0);
      OneComponent(last);
      assert cs == init + [last];
    }
  }

  /** The slash-joined text of plain names has exactly those components. */
  lemma PathTextNames(cs: seq<Name>)
    requires AllPlain(cs)
    ensures var text := RootIfEmpty(PathText(cs)); text != [] && text[0] == SLASH && Components(text, 1) == cs
  {
    hide Components;
    TextComponents(cs);
    var text := RootIfEmpty(PathText(cs));
    if cs == [] { NoComponents(text); } else { SkipOne(text, 0); }
  }
}
