/**
 Dirty-region tracking (kernel-rs/src/gui/dirty.rs): a list of at most 16 rectangles, merged
 whenever two touch. The list is the least cover of the damage: it lies inside every family of
 pairwise non-touching rectangles that covers the damage, and so does not depend on the order in
 which damage was reported.
 */
module Dirty {

  const DIRTY_MAX: nat := 16

  datatype Rect = Rect(x: int, y: int, w: int, h: int)

  predicate NonEmpty(r: Rect) { r.w > 0 && r.h > 0 }

  predicate In(r: Rect, px: int, py: int) {
    r.x <= px < r.x + r.w && r.y <= py < r.y + r.h
  }

  predicate Inside(a: Rect, b: Rect) {
    b.x <= a.x && a.x + a.w <= b.x + b.w && b.y <= a.y && a.y + a.h <= b.y + b.h
  }

  function Min(a: int, b: int): int { if a < b then a else b }
  function Max(a: int, b: int): int { if a > b then a else b }

  function Union(a: Rect, b: Rect): Rect {
    var x0, y0 := Min(a.x, b.x), Min(a.y, b.y);
    Rect(x0, y0, Max(a.x + a.w, b.x + b.w) - x0, Max(a.y + a.h, b.y + b.h) - y0)
  }

  // Intersecting or edge-touching.
  predicate Touching(a: Rect, b: Rect) {
    a.x <= b.x + b.w && b.x <= a.x + a.w && a.y <= b.y + b.h && b.y <= a.y + a.h
  }

  // The part of `r` inside a bw x bh screen; empty when there is none.
  function Clip(r: Rect, bw: int, bh: int): (c: Rect)
    ensures forall px, py :: In(c, px, py) <==> In(r, px, py) && 0 <= px < bw && 0 <= py < bh
    ensures NonEmpty(c) ==> Inside(c, Rect(0, 0, bw, bh)) && Inside(c, r)
  {
    var x, y := Max(r.x, 0), Max(r.y, 0);
    Rect(x, y, Min(r.x + r.w, bw) - x, Min(r.y + r.h, bh) - y)
  }

  /** The union is the smallest rectangle around both. */
  lemma UnionLeast(a: Rect, b: Rect, c: Rect)
    ensures Inside(a, Union(a, b)) && Inside(b, Union(a, b))
    ensures Inside(a, c) && Inside(b, c) <==> Inside(Union(a, b), c)
  {
  }

  // ---- families ---------------------------------------------------------------------------------

  ghost predicate Apart(f: set<Rect>) {
    && (forall a :: a in f ==> NonEmpty(a))
    && (forall a, b :: a in f && b in f && a != b ==> !Touching(a, b))
  }

  ghost predicate PixelCovered(f: set<Rect>, d: Rect) {
    forall px, py :: In(d, px, py) ==> exists a :: a in f && In(a, px, py)
  }

  ghost predicate HasAround(f: set<Rect>, d: Rect) {
    exists a :: a in f && Inside(d, a)
  }

  // The member that holds one pixel of `d` holds its neighbour too, so it holds the whole row.
  lemma {:induction false} RowInOne(f: set<Rect>, d: Rect, a: Rect, px: int, py: int)
    requires Apart(f) && PixelCovered(f, d) && a in f && In(d, d.x, py) && In(a, d.x, py) && d.x <= px < d.x + d.w
    ensures In(a, px, py)
    decreases px - d.x
  {
    if px > d.x {
      RowInOne(f, d, a, px - 1, py);
      assert In(d, px, py);
      var b :| b in f && In(b, px, py);
      assert Touching(a, b);
    }
  }

  lemma {:induction false} ColumnInOne(f: set<Rect>, d: Rect, a: Rect, py: int)
    requires Apart(f) && PixelCovered(f, d) && a in f && NonEmpty(d) && In(a, d.x, d.y) && d.y <= py < d.y + d.h
    ensures In(a, d.x, py)
    decreases py - d.y
  {
    if py > d.y {
      ColumnInOne(f, d, a, py - 1);
      assert In(d, d.x, py);
      var b :| b in f && In(b, d.x, py);
      assert Touching(a, b);
    }
  }

  /** A rectangle covered pixel by pixel by non-touching rectangles lies inside a single one. */
  lemma CoveredByOne(f: set<Rect>, d: Rect)
    requires Apart(f) && PixelCovered(f, d) && NonEmpty(d)
    ensures HasAround(f, d)
  {
    assert In(d, d.x, d.y);
    var a :| a in f && In(a, d.x, d.y);
    ColumnInOne(f, d, a, d.y + d.h - 1);
    RowInOne(f, d, a, d.x + d.w - 1, d.y);
    assert Inside(d, a);
  }

  ghost predicate CoversAll(f: set<Rect>, damage: set<Rect>) {
    forall d :: d in damage ==> PixelCovered(f, d)
  }

  /** Every rectangle of `s` lies inside some member of every non-touching cover of the damage. */
  ghost predicate Tight(s: set<Rect>, damage: set<Rect>) {
    forall f, a :: Apart(f) && CoversAll(f, damage) && a in s ==> HasAround(f, a)
  }

  ghost predicate Cover(s: set<Rect>, damage: set<Rect>) {
    forall d :: d in damage ==> HasAround(s, d)
  }

  ghost predicate LeastCover(s: set<Rect>, damage: set<Rect>) {
    Apart(s) && Cover(s, damage) && Tight(s, damage)
  }

  lemma AroundCoversPixels(s: set<Rect>, d: Rect)
    requires HasAround(s, d)
    ensures PixelCovered(s, d)
  {
    var a :| a in s && Inside(d, a);
    forall px, py | In(d, px, py) ensures exists b :: b in s && In(b, px, py) {
      assert In(a, px, py);
    }
  }

  /** There is only one least cover: whatever the order and repetition of the reports, the final
      set of rectangles is the same. */
  lemma LeastCoverUnique(s: set<Rect>, t: set<Rect>, damage: set<Rect>)
    requires LeastCover(s, damage) && LeastCover(t, damage)
    ensures s == t
  {
    forall d | d in damage ensures PixelCovered(s, d) && PixelCovered(t, d) {
      AroundCoversPixels(s, d);
      AroundCoversPixels(t, d);
    }
    forall a | a in s ensures a in t { SameMember(s, t, damage, a); }
    forall a | a in t ensures a in s { SameMember(t, s, damage, a); }
  }

  lemma SameMember(s: set<Rect>, t: set<Rect>, damage: set<Rect>, a: Rect)
    requires Apart(s) && Apart(t) && Tight(s, damage) && Tight(t, damage)
    requires CoversAll(s, damage) && CoversAll(t, damage) && a in s
    ensures a in t
  {
    assert HasAround(t, a);
    var b :| b in t && Inside(a, b);
    assert HasAround(s, b);
    var c :| c in s && Inside(b, c);
    assert Touching(a, c);
  }

  // ---- one merge -----------------------------------------------------------------------------------

  /** Merging two touching rectangles keeps a tight set tight. */
  lemma MergeTight(s: set<Rect>, damage: set<Rect>, a: Rect, b: Rect)
    requires Tight(s, damage) && a in s && b in s && Touching(a, b) && NonEmpty(a) && NonEmpty(b)
    ensures Tight(s - {a, b} + {Union(a, b)}, damage)
  {
    forall f, c | Apart(f) && CoversAll(f, damage) && c in s - {a, b} + {Union(a, b)} ensures HasAround(f, c) {
      assert HasAround(f, a) && HasAround(f, b);
      if c == Union(a, b) {
        var x :| x in f && Inside(a, x);
        var y :| y in f && Inside(b, y);
        assert Touching(x, y);
        UnionLeast(a, b, x);
        assert Inside(c, x);
      } else {
        assert c in s;
      }
    }
  }

  lemma MergeCover(s: set<Rect>, damage: set<Rect>, a: Rect, b: Rect)
    requires Cover(s, damage)
    ensures Cover(s - {a, b} + {Union(a, b)}, damage)
  {
    var t := s - {a, b} + {Union(a, b)};
    forall d | d in damage ensures HasAround(t, d) {
      var x :| x in s && Inside(d, x);
      UnionLeast(a, b, a);
      if x == a || x == b {
        assert Union(a, b) in t && Inside(d, Union(a, b));
      } else {
        assert x in t;
      }
    }
  }

  lemma AddTight(s: set<Rect>, damage: set<Rect>, r: Rect)
    requires Tight(s, damage) && Cover(s, damage) && NonEmpty(r)
    ensures Tight(s + {r}, damage + {r}) && Cover(s + {r}, damage + {r})
  {
    forall f, c | Apart(f) && CoversAll(f, damage + {r}) && c in s + {r} ensures HasAround(f, c) {
      assert CoversAll(f, damage);
      if c !in s { CoveredByOne(f, r); }
    }
    forall d | d in damage + {r} ensures HasAround(s + {r}, d) {
      if d in damage {
        var x :| x in s && Inside(d, x);
        assert x in s + {r};
      } else {
        assert r in s + {r} && Inside(d, r);
      }
    }
  }

  // ---- the list ------------------------------------------------------------------------------------

  ghost function Elems(s: seq<Rect>): set<Rect> { set a | a in s }

  ghost predicate ApartSeq(s: seq<Rect>) {
    && (forall i :: 0 <= i < |s| ==> NonEmpty(s[i]))
    && (forall i, j :: 0 <= i < j < |s| ==> !Touching(s[i], s[j]) && !Touching(s[j], s[i]))
  }

  ghost predicate InBounds(s: seq<Rect>, screen: Rect) {
    forall i :: 0 <= i < |s| ==> Inside(s[i], screen)
  }

  lemma ApartElems(s: seq<Rect>)
    requires ApartSeq(s)
    ensures Apart(Elems(s))
  {
  }

  // Removing entry `i` by moving the last entry into its place.
  function SwapPop(s: seq<Rect>, i: nat): seq<Rect>
    requires i < |s|
  {
    s[i := s[|s| - 1]][..|s| - 1]
  }

  lemma SwapPopElems(s: seq<Rect>, i: nat, screen: Rect)
    requires i < |s| && ApartSeq(s) && InBounds(s, screen)
    ensures ApartSeq(SwapPop(s, i)) && InBounds(SwapPop(s, i), screen)
    ensures Elems(SwapPop(s, i)) == Elems(s) - {s[i]}
  {
    var t := SwapPop(s, i);
    assert forall k :: 0 <= k < |t| ==> t[k] == s[if k == i then |s| - 1 else k];
    forall a | a in Elems(s) && a != s[i] ensures a in t {
      var k :| 0 <= k < |s| && s[k] == a;
      assert t[if k == |s| - 1 then i else k] == a;
    }
    forall a | a in t ensures a in s && a != s[i] {
      var k :| 0 <= k < |t| && t[k] == a;
      assert Touching(s[i], s[i]);
    }
  }

  // The pending rectangle `cur` swallows entry `i`: cover and tightness survive.
  lemma MergeStep(s: seq<Rect>, damage: set<Rect>, cur: Rect, i: nat, screen: Rect)
    requires i < |s| && ApartSeq(s) && InBounds(s, screen) && NonEmpty(cur) && Inside(cur, screen)
    requires Touching(s[i], cur)
    requires Cover(Elems(s) + {cur}, damage)
    requires forall k :: 0 <= k < i ==> !Touching(s[k], cur)
    ensures NonEmpty(Union(s[i], cur)) && Inside(Union(s[i], cur), screen)
    ensures Cover(Elems(SwapPop(s, i)) + {Union(s[i], cur)}, damage)
    ensures Tight(Elems(s) + {cur}, damage) ==> Tight(Elems(SwapPop(s, i)) + {Union(s[i], cur)}, damage)
  {
    hide Cover, Tight, HasAround;
    var w, u := Elems(s) + {cur}, Union(s[i], cur);
    SwapPopElems(s, i, screen);
    UnionLeast(s[i], cur, screen);
    assert cur in s ==> cur == s[i] by {
      if cur in s {
        var k :| 0 <= k < |s| && s[k] == cur;
        assert Touching(s[k], cur);
      }
    }
    assert w - {s[i], cur} + {u} == Elems(SwapPop(s, i)) + {u};
    MergeCover(w, damage, s[i], cur);
    if Tight(w, damage) { MergeTight(w, damage, s[i], cur); }
  }

  lemma AppendStep(s: seq<Rect>, cur: Rect, screen: Rect)
    requires ApartSeq(s) && InBounds(s, screen) && NonEmpty(cur) && Inside(cur, screen)
    requires forall k :: 0 <= k < |s| ==> !Touching(s[k], cur)
    ensures ApartSeq(s + [cur]) && InBounds(s + [cur], screen) && Elems(s + [cur]) == Elems(s) + {cur}
  {
  }

  // One rectangle around every entry covers what the entries covered.
  lemma CollapseCover(s: seq<Rect>, damage: set<Rect>, cur: Rect, box: Rect)
    requires Cover(Elems(s) + {cur}, damage) && Inside(cur, box) && forall k :: 0 <= k < |s| ==> Inside(s[k], box)
    ensures Cover({box}, damage)
  {
    forall d | d in damage ensures HasAround({box}, d) {
      var a :| a in Elems(s) + {cur} && Inside(d, a);
      assert box in {box} && Inside(d, box);
    }
  }

  class DirtyRegion {
    const r: array<Rect>
    var n: nat
    var bw: int
    var bh: int
    ghost var damage: set<Rect>     // everything reported since the last flush, clipped
    ghost var overflowed: bool      // whether the list was collapsed since then

    ghost function List(): seq<Rect>
      reads this, r
      requires n <= r.Length
    {
      r[..n]
    }

    function Screen(): Rect
      reads this`bw, this`bh
    {
      Rect(0, 0, bw, bh)
    }

    /** At most 16 rectangles, non-empty, on screen, pairwise non-touching; together they cover all
        damage, and unless the list overflowed they are the least cover of it. */
    ghost predicate Valid()
      reads this, r
    {
      && r.Length == DIRTY_MAX && n <= DIRTY_MAX && bw > 0 && bh > 0
      && ApartSeq(List()) && InBounds(List(), Screen())
      && Cover(Elems(List()), damage)
      && (!overflowed ==> LeastCover(Elems(List()), damage))
    }

    constructor (boundsW: int, boundsH: int)
      requires boundsW > 0 && boundsH > 0
      ensures Valid() && List() == [] && damage == {} && !overflowed && bw == boundsW && bh == boundsH && fresh(r)
    {
      r := new Rect[DIRTY_MAX](_ => Rect(0, 0, 0, 0));
      n, bw, bh, damage, overflowed := 0, boundsW, boundsH, {}, false;
      new;
    }

    // The list together with a pending rectangle satisfies what the list alone must satisfy.
    ghost predicate Pending(cur: Rect)
      reads this, r
    {
      && r.Length == DIRTY_MAX && n <= DIRTY_MAX && bw > 0 && bh > 0
      && ApartSeq(List()) && InBounds(List(), Screen()) && NonEmpty(cur) && Inside(cur, Screen())
      && Cover(Elems(List()) + {cur}, damage)
      && (!overflowed ==> Tight(Elems(List()) + {cur}, damage))
    }

    // Unites `rect` with every entry it touches, starting over after each union.
    method Merge(rect: Rect) returns (cur: Rect)
      requires Pending(rect)
      modifies this`n, r
      ensures Pending(cur) && n <= old(n) && forall k :: 0 <= k < n ==> !Touching(r[k], cur)
    {
      hide Tight, Cover, Apart, Touching, Union, Inside, ApartSeq, Elems, InBounds, NonEmpty;
      cur := rect;
      var i := 0;
      while i < n
        invariant i <= n <= old(n) && Pending(cur)
        invariant forall k :: 0 <= k < i ==> !Touching(r[k], cur)
        decreases n, n - i
      {
        if Touching(r[i], cur) {
          ghost var s := List();
          MergeStep(s, damage, cur, i, Screen());
          SwapPopElems(s, i, Screen());
          cur := Union(r[i], cur);
          n := n - 1;
          r[i] := r[n];
          assert List() == SwapPop(s, i);
          i := 0;
        } else {
          i := i + 1;
        }
      }
    }

    // Overflow: one rectangle around all damage.
    method Collapse(rect: Rect)
      requires Pending(rect) && n > 0
      modifies this`n, this`overflowed, r
      ensures Valid() && n == 1 && overflowed
    {
      hide Tight, Cover, Apart, Touching, Union, Inside;
      ghost var s := List();
      var cur := rect;
      UnionSelf(cur);
      for i := 0 to n
        invariant n == old(n) && List() == s && Inside(rect, cur) && NonEmpty(cur) && Inside(cur, Screen())
        invariant forall k :: 0 <= k < i ==> Inside(s[k], cur)
      {
        UnionGrows(r[i], cur, s[..i], rect, Screen());
        assert forall k :: 0 <= k < i ==> s[..i][k] == s[k];
        cur := Union(r[i], cur);
      }
      CollapseCover(s, damage, rect, cur);
      r[0] := cur;
      n, overflowed := 1, true;
      assert List() == [cur] && Elems(List()) == {cur};
    }

    /** Reports damage: clipped to the screen, then merged into the list. */
    method Add(rect: Rect)
      requires Valid()
      modifies this`n, this`damage, this`overflowed, r
      ensures Valid()
      ensures damage == old(damage) + (if NonEmpty(Clip(rect, bw, bh)) then {Clip(rect, bw, bh)} else {})
      ensures overflowed ==> old(overflowed) || n == 1
      ensures !NonEmpty(Clip(rect, bw, bh)) ==> List() == old(List()) && overflowed == old(overflowed)
    {
      var cur := Clip(rect, bw, bh);
      if !(cur.w > 0 && cur.h > 0) { return; }
      hide Clip, Tight, Cover, Apart, Touching, Union, Inside, ApartSeq, Elems, InBounds;
      AddTightOrCover(Elems(List()), damage, cur, overflowed);
      damage := damage + {cur};
      cur := Merge(cur);
      if n < DIRTY_MAX {
        ghost var s := List();
        AppendStep(s, cur, Screen());
        r[n] := cur;
        n := n + 1;
        assert List() == s + [cur];
        ApartElems(List());
      } else {
        Collapse(cur);
      }
    }

    /** Marks the whole screen damaged. */
    method AddAll()
      requires Valid()
      modifies this`n, this`damage, this`overflowed, r
      ensures Valid() && List() == [Screen()] && damage == old(damage) + {Screen()}
    {
      r[0] := Screen();
      n := 1;
      assert r[..n] == [Screen()] && Elems(r[..n]) == {Screen()};
      AllCovered(old(damage), old(Elems(List())), old(List()), Screen());
      damage := damage + {Screen()};
      overflowed := false;
    }

    /** Drains the list: hands out every rectangle and forgets the damage. */
    method Flush() returns (out: seq<Rect>)
      requires Valid()
      modifies this`n, this`damage, this`overflowed
      ensures Valid() && List() == [] && damage == {} && !overflowed
      ensures out == old(List()) && Cover(Elems(out), old(damage)) && ApartSeq(out) && InBounds(out, Screen())
    {
      out := r[..n];
      n, damage, overflowed := 0, {}, false;
      assert Elems(r[..n]) == {};
    }
  }

  lemma AddTightOrCover(s: set<Rect>, damage: set<Rect>, cur: Rect, overflowed: bool)
    requires Cover(s, damage) && NonEmpty(cur) && (!overflowed ==> Tight(s, damage))
    ensures Cover(s + {cur}, damage + {cur})
    ensures !overflowed ==> Tight(s + {cur}, damage + {cur})
  {
    if overflowed {
      forall d | d in damage + {cur} ensures HasAround(s + {cur}, d) {
        if d in damage {
          var x :| x in s && Inside(d, x);
          assert x in s + {cur};
        } else {
          assert cur in s + {cur} && Inside(d, cur);
        }
      }
    } else {
      AddTight(s, damage, cur);
    }
  }

  lemma UnionSelf(a: Rect)
    ensures Inside(a, a)
  {
  }

  lemma UnionGrows(a: Rect, cur: Rect, s: seq<Rect>, first: Rect, screen: Rect)
    requires NonEmpty(a) && NonEmpty(cur) && Inside(cur, screen) && Inside(a, screen) && Inside(first, cur)
    requires forall k :: 0 <= k < |s| ==> Inside(s[k], cur)
    ensures NonEmpty(Union(a, cur)) && Inside(Union(a, cur), screen) && Inside(first, Union(a, cur))
    ensures Inside(a, Union(a, cur))
    ensures forall k :: 0 <= k < |s| ==> Inside(s[k], Union(a, cur))
  {
  }

  lemma AllCovered(damage: set<Rect>, s: set<Rect>, list: seq<Rect>, screen: Rect)
    requires Cover(s, damage) && s == Elems(list) && InBounds(list, screen) && NonEmpty(screen)
    ensures LeastCover({screen}, damage + {screen})
  {
    forall d | d in damage + {screen} ensures HasAround({screen}, d) {
      if d in damage { var a :| a in s && Inside(d, a); }
      assert screen in {screen} && Inside(d, screen);
    }
    forall f, a | Apart(f) && CoversAll(f, damage + {screen}) && a in {screen} ensures HasAround(f, a) {
      CoveredByOne(f, screen);
    }
  }
}
