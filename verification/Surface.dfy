/**
 Pixel surfaces (kernel-rs/src/gui/surface.rs and the clipped blit of gui/wm.rs). A surface is a
 two-dimensional array indexed by row and column; a cached frame is a value.
 */
module Surface {
  import opened Dirty

  type Color = nat

  datatype Picture = Picture(w: nat, h: nat, rows: seq<seq<Color>>) {
    predicate Ok() {
      |rows| == h && forall y :: 0 <= y < h ==> |rows[y]| == w
    }

    function At(x: int, y: int): Color
      requires Ok() && 0 <= x < w && 0 <= y < h
    {
      rows[y][x]
    }
  }

  // clip_to_surface: cuts off what lies left of and above the origin, then right and below.
  function ClipToSurface(r: Rect, w: int, h: int): Rect {
    var r1 := if r.x < 0 then r.(w := r.w + r.x, x := 0) else r;
    var r2 := if r1.y < 0 then r1.(h := r1.h + r1.y, y := 0) else r1;
    var r3 := if r2.x + r2.w > w then r2.(w := w - r2.x) else r2;
    if r3.y + r3.h > h then r3.(h := h - r3.y) else r3
  }

  /** Both ways of clipping keep exactly the pixels on the surface. */
  lemma ClipsAgree(r: Rect, w: nat, h: nat)
    ensures ClipToSurface(r, w, h) == Clip(r, w, h)
  {
  }

  /** Fills the part of `r` that lies on the surface. */
  method FillRect(s: array2<Color>, r: Rect, c: Color)
    modifies s
    ensures forall y, x :: 0 <= y < s.Length0 && 0 <= x < s.Length1 ==>
      s[y, x] == if In(r, x, y) then c else old(s[y, x])
  {
    var q := ClipToSurface(r, s.Length1, s.Length0);
    ClipsAgree(r, s.Length1, s.Length0);
    if !(q.w > 0 && q.h > 0) {
      assert forall x, y :: In(r, x, y) && 0 <= x < s.Length1 && 0 <= y < s.Length0 ==> In(q, x, y);
      return;
    }
    hide Clip, ClipToSurface;
    for y := q.y to q.y + q.h
      invariant forall b, a :: 0 <= b < s.Length0 && 0 <= a < s.Length1 ==>
        s[b, a] == if In(q, a, b) && b < y then c else old(s[b, a])
    {
      for x := q.x to q.x + q.w
        invariant forall b, a :: 0 <= b < s.Length0 && 0 <= a < s.Length1 ==>
          s[b, a] == if In(q, a, b) && (b < y || (b == y && a < x)) then c else old(s[b, a])
      {
        s[y, x] := c;
      }
    }
    assert forall x, y :: 0 <= x < s.Length1 && 0 <= y < s.Length0 ==> (In(q, x, y) <==> In(r, x, y));
  }

  /** Copies a picture to (dx, dy), writing only inside `clip`, which lies on the surface. */
  method BlitClipped(dst: array2<Color>, dx: int, dy: int, src: Picture, clip: Rect)
    requires src.Ok() && Inside(clip, Rect(0, 0, dst.Length1, dst.Length0))
    modifies dst
    ensures forall y, x :: 0 <= y < dst.Length0 && 0 <= x < dst.Length1 ==>
      dst[y, x] ==
        if In(clip, x, y) && In(Rect(dx, dy, src.w, src.h), x, y) then src.At(x - dx, y - dy) else old(dst[y, x])
  {
    var x0, y0 := Max(dx, clip.x), Max(dy, clip.y);
    var x1, y1 := Min(dx + src.w, clip.x + clip.w), Min(dy + src.h, clip.y + clip.h);
    if x1 <= x0 || y1 <= y0 { return; }
    for y := y0 to y1
      invariant forall b, a :: 0 <= b < dst.Length0 && 0 <= a < dst.Length1 ==>
        dst[b, a] == if x0 <= a < x1 && y0 <= b < y then src.At(a - dx, b - dy) else old(dst[b, a])
    {
      for x := x0 to x1
        invariant forall b, a :: 0 <= b < dst.Length0 && 0 <= a < dst.Length1 ==>
          dst[b, a] ==
            if x0 <= a < x1 && (y0 <= b < y || (b == y && a < x)) then src.At(a - dx, b - dy) else old(dst[b, a])
      {
        dst[y, x] := src.At(x - dx, y - dy);
      }
    }
  }

  /** Copies one rectangle of the back buffer to the screen. */
  method CopyRect(dst: array2<Color>, src: array2<Color>, r: Rect)
    requires dst != src && dst.Length0 == src.Length0 && dst.Length1 == src.Length1
    requires NonEmpty(r) && Inside(r, Rect(0, 0, dst.Length1, dst.Length0))
    modifies dst
    ensures forall y, x :: 0 <= y < dst.Length0 && 0 <= x < dst.Length1 ==>
      dst[y, x] == if In(r, x, y) then src[y, x] else old(dst[y, x])
  {
    for y := r.y to r.y + r.h
      invariant forall b, a :: 0 <= b < dst.Length0 && 0 <= a < dst.Length1 ==>
        dst[b, a] == if In(r, a, b) && b < y then src[b, a] else old(dst[b, a])
    {
      for x := r.x to r.x + r.w
        invariant forall b, a :: 0 <= b < dst.Length0 && 0 <= a < dst.Length1 ==>
          dst[b, a] == if In(r, a, b) && (b < y || (b == y && a < x)) then src[b, a] else old(dst[b, a])
      {
        dst[y, x] := src[y, x];
      }
    }
  }
}
