/**
 The window manager and compositor (kernel-rs/src/gui/wm.rs). Windows keep a cached frame; the
 compositor repaints only the damaged rectangles from the caches. The invariant says that every
 pixel that is out of date, and every window whose cache is out of date, is reported damage; from
 it follows that one compositor frame leaves the screen as a full repaint would.
 */
module Compositor {
  import opened Dirty
  import opened Surface

  const GUI_MAX_WINDOWS: nat := 8
  const GUI_TITLE_H: int := 20
  const FRAME_BX: int := 1
  const FRAME_BY: int := 21

  const C_WALLPAPER: Color := 0xFF1A2B4A
  const C_TITLE_ACT: Color := 0xFF3A6EA5
  const C_TITLE_INA: Color := 0xFF555B66
  const C_TITLE_TXT: Color := 0xFFFFFFFF
  const C_BORDER: Color := 0xFF0B0F17
  const C_CLOSE_ACT: Color := 0xFFC0505D
  const C_CLOSE_INA: Color := 0xFF777777
  const C_CURSOR_FG: Color := 0xFFFFFFFF
  const C_CURSOR_BG: Color := 0xFF000000

  // The header line is drawn without clipping inside this band.
  const HDR := Rect(12, 10, 576, 16)

  /** A window. `content` is what its paint hook would draw now; `text` is the title overlay, lit or
      unlit per pixel; `frame` is the cached picture of border, title bar and body. */
  datatype Window = Window(used: bool, x: int, y: int, w: int, h: int, text: map<(int, int), bool>,
                           content: Picture, frame: Picture, focused: bool,
                           contentDirty: bool, chromeDirty: bool, animate: bool)

  function Footprint(w: Window): Rect {
    Rect(w.x - 1, w.y - GUI_TITLE_H - 1, w.w + 2, w.h + GUI_TITLE_H + 2)
  }

  predicate WindowOk(w: Window) {
    w.used ==>
      && w.w > 0 && w.h > 0
      && w.content.Ok() && w.content.w == w.w && w.content.h == w.h
      && w.frame.Ok() && w.frame.w == w.w + 2 && w.frame.h == w.h + GUI_TITLE_H + 2
  }

  function NoWindow(): Window {
    Window(false, 0, 0, 0, 0, map[], Picture(0, 0, []), Picture(0, 0, []), false, false, false, false)
  }

  // Border, title bar, title text, close button, in the order they are drawn.
  function ChromePixel(w: Window, x: int, y: int): Color {
    var bar := if w.focused then C_TITLE_ACT else C_TITLE_INA;
    if In(Rect(FRAME_BX + w.w - 22, FRAME_BX + 4, 12, 12), x, y) then (if w.focused then C_CLOSE_ACT else C_CLOSE_INA)
    else if (x, y) in w.text then (if w.text[(x, y)] then C_TITLE_TXT else bar)
    else if In(Rect(FRAME_BX, FRAME_BX, w.w, GUI_TITLE_H), x, y) then bar
    else C_BORDER
  }

  function FramePixel(w: Window, x: int, y: int): Color
    requires WindowOk(w) && w.used && 0 <= x < w.w + 2 && 0 <= y < w.h + GUI_TITLE_H + 2
  {
    if In(Rect(FRAME_BX, FRAME_BY, w.w, w.h), x, y)
    then w.content.At(x - FRAME_BX, y - FRAME_BY)
    else ChromePixel(w, x, y)
  }

  // The frame a full render would produce.
  function FrameOf(w: Window): (p: Picture)
    requires WindowOk(w) && w.used
    ensures p.Ok() && p.w == w.w + 2 && p.h == w.h + GUI_TITLE_H + 2
    ensures forall x, y :: 0 <= x < p.w && 0 <= y < p.h ==> p.At(x, y) == FramePixel(w, x, y)
  {
    Picture(w.w + 2, w.h + GUI_TITLE_H + 2,
      seq(w.h + GUI_TITLE_H + 2, y requires 0 <= y < w.h + GUI_TITLE_H + 2 =>
        seq(w.w + 2, x requires 0 <= x < w.w + 2 => FramePixel(w, x, y))))
  }

  // frame_render: rebuild the cache and clear the flags.
  function Rendered(w: Window): Window
    requires WindowOk(w) && w.used
  {
    w.(frame := FrameOf(w), contentDirty := false, chromeDirty := false)
  }

  predicate Flagged(w: Window) { w.used && (w.contentDirty || w.chromeDirty) }

  ghost predicate Fresh(w: Window)
    requires WindowOk(w)
  {
    w.used ==> w.frame == FrameOf(w)
  }

  // ---- the picture on the screen --------------------------------------------------------------------

  type Cursor = seq<seq<nat>>   // 18 rows of 12: 0 transparent, 1 foreground, 2 background

  predicate CursorOk(c: Cursor) { |c| == 18 && forall i :: 0 <= i < 18 ==> |c[i]| == 12 }

  // Where the cursor was last drawn; none before the first frame.
  datatype Spot = Spot(x: int, y: int)

  function CursorBox(s: Spot): Rect { Rect(s.x, s.y, 12, 18) }

  function CursorAt(c: Cursor, s: Spot, x: int, y: int): nat
    requires CursorOk(c)
  {
    if s.x >= 0 && In(CursorBox(s), x, y) then c[y - s.y][x - s.x] else 0
  }

  predicate WindowsOk(ws: seq<Window>) {
    |ws| == GUI_MAX_WINDOWS && forall i :: 0 <= i < |ws| ==> WindowOk(ws[i])
  }

  // The topmost cached frame among the first `n` windows, over the wallpaper.
  function WindowsAt(ws: seq<Window>, n: nat, x: int, y: int): Color
    requires WindowsOk(ws) && n <= |ws|
  {
    if n == 0 then C_WALLPAPER
    else if ws[n - 1].used && In(Footprint(ws[n - 1]), x, y) then
      ws[n - 1].frame.At(x - (ws[n - 1].x - FRAME_BX), y - (ws[n - 1].y - GUI_TITLE_H - FRAME_BX))
    else WindowsAt(ws, n - 1, x, y)
  }

  function CursorColor(v: nat): Color { if v == 2 then C_CURSOR_BG else C_CURSOR_FG }

  /** What the screen should show at (x, y), going by the caches: cursor over windows over wallpaper. */
  function Scene(ws: seq<Window>, c: Cursor, s: Spot, x: int, y: int): Color
    requires WindowsOk(ws) && CursorOk(c)
  {
    var v := CursorAt(c, s, x, y);
    if v != 0 then CursorColor(v) else WindowsAt(ws, GUI_MAX_WINDOWS, x, y)
  }

  // Every window drawn afresh.
  function Repainted(ws: seq<Window>): (r: seq<Window>)
    requires WindowsOk(ws)
    ensures WindowsOk(r)
  {
    seq(|ws|, i requires 0 <= i < |ws| => if ws[i].used then ws[i].(frame := FrameOf(ws[i])) else ws[i])
  }

  /** What a full repaint from the windows' contents would show. */
  function FullRepaint(ws: seq<Window>, c: Cursor, s: Spot, x: int, y: int): Color
    requires WindowsOk(ws) && CursorOk(c)
  {
    Scene(Repainted(ws), c, s, x, y)
  }

  lemma FreshIsRepainted(ws: seq<Window>)
    requires WindowsOk(ws) && forall i :: 0 <= i < |ws| ==> Fresh(ws[i])
    ensures Repainted(ws) == ws
  {
    assert forall i :: 0 <= i < |ws| ==> Repainted(ws)[i] == ws[i];
  }

  // ---- what a viewer sees ------------------------------------------------------------------------------

  // A window shows its body, a title bar of 20 rows above it, and a border of one pixel round both.
  predicate Occupies(w: Window, x: int, y: int) { w.x - 1 <= x <= w.x + w.w && w.y - 21 <= y <= w.y + w.h }

  predicate InBody(w: Window, x: int, y: int) { w.x <= x < w.x + w.w && w.y <= y < w.y + w.h }

  predicate InTitle(w: Window, x: int, y: int) { w.x <= x < w.x + w.w && w.y - 20 <= y < w.y }

  // The close button: 12 by 12 pixels, ten from the right end of the title bar.
  predicate InClose(w: Window, x: int, y: int) { w.x + w.w - 22 <= x < w.x + w.w - 10 && w.y - 16 <= y < w.y - 4 }

  // The place of a pixel in the title text.
  function TextSpot(w: Window, x: int, y: int): (int, int) { (x - w.x + 1, y - w.y + 21) }

  /** What window `w` shows at screen pixel (x, y): its content in the body, the right way up; the close button and
      the title over the bar, in the colours of a focused or an unfocused window; border for the rest. */
  ghost predicate Shows(w: Window, x: int, y: int, p: Color)
    requires WindowOk(w) && w.used
  {
    var bar, t := if w.focused then C_TITLE_ACT else C_TITLE_INA, TextSpot(w, x, y);
    && (InBody(w, x, y) ==> p == w.content.At(x - w.x, y - w.y))
    && (InClose(w, x, y) ==> p == if w.focused then C_CLOSE_ACT else C_CLOSE_INA)
    && (!InBody(w, x, y) && !InClose(w, x, y) ==>
          && (t in w.text ==> p == if w.text[t] then C_TITLE_TXT else bar)
          && (t !in w.text && InTitle(w, x, y) ==> p == bar)
          && (t !in w.text && !InTitle(w, x, y) ==> p == C_BORDER))
  }

  // Window `i` is the topmost one at (x, y).
  ghost predicate OnTop(ws: seq<Window>, i: int, x: int, y: int) {
    && 0 <= i < |ws| && ws[i].used && Occupies(ws[i], x, y)
    && forall j :: i < j < |ws| && ws[j].used ==> !Occupies(ws[j], x, y)
  }

  // The cursor covers the pixel.
  predicate UnderCursor(c: Cursor, s: Spot, x: int, y: int)
    requires CursorOk(c)
  {
    s.x >= 0 && s.x <= x < s.x + 12 && s.y <= y < s.y + 18 && c[y - s.y][x - s.x] != 0
  }

  /** Colour `p` is right for pixel (x, y): the cursor if it is there, else the topmost window, else the wallpaper. */
  ghost predicate Depicts(ws: seq<Window>, c: Cursor, s: Spot, x: int, y: int, p: Color)
    requires WindowsOk(ws) && CursorOk(c)
  {
    if UnderCursor(c, s, x, y) then p == if c[y - s.y][x - s.x] == 2 then C_CURSOR_BG else C_CURSOR_FG
    else
      && (forall i :: OnTop(ws, i, x, y) ==> Shows(ws[i], x, y, p))
      && ((forall i :: 0 <= i < |ws| && ws[i].used ==> !Occupies(ws[i], x, y)) ==> p == C_WALLPAPER)
  }

  // A fresh frame shows what the window should show.
  lemma FrameShows(w: Window, x: int, y: int)
    requires WindowOk(w) && w.used && Occupies(w, x, y)
    ensures In(Footprint(w), x, y)
    ensures Shows(w, x, y, FrameOf(w).At(x - (w.x - FRAME_BX), y - (w.y - GUI_TITLE_H - FRAME_BX)))
  {
  }

  lemma {:induction false} TopShows(ws: seq<Window>, n: nat, x: int, y: int, i: nat)
    requires WindowsOk(ws) && i < n <= |ws| && ws[i].used && Occupies(ws[i], x, y)
    requires forall j :: i < j < n && ws[j].used ==> !Occupies(ws[j], x, y)
    ensures In(Footprint(ws[i]), x, y) && WindowsAt(ws, n, x, y) ==
      ws[i].frame.At(x - (ws[i].x - FRAME_BX), y - (ws[i].y - GUI_TITLE_H - FRAME_BX))
    decreases n
  {
    if i < n - 1 { TopShows(ws, n - 1, x, y, i); }
  }

  lemma {:induction false} BareShows(ws: seq<Window>, n: nat, x: int, y: int)
    requires WindowsOk(ws) && n <= |ws| && forall j :: 0 <= j < n && ws[j].used ==> !Occupies(ws[j], x, y)
    ensures WindowsAt(ws, n, x, y) == C_WALLPAPER
  {
    if n > 0 { BareShows(ws, n - 1, x, y); }
  }

  /** A full repaint gives every pixel the right colour. */
  lemma RepaintDepicts(ws: seq<Window>, c: Cursor, s: Spot, x: int, y: int)
    requires WindowsOk(ws) && CursorOk(c)
    ensures Depicts(ws, c, s, x, y, FullRepaint(ws, c, s, x, y))
  {
    hide FrameOf, Shows, WindowsAt, Occupies, WindowOk, Footprint;
    var rs := Repainted(ws);
    SamePlaces(ws, x, y);
    forall i | OnTop(ws, i, x, y) && !UnderCursor(c, s, x, y)
      ensures Shows(ws[i], x, y, FullRepaint(ws, c, s, x, y))
    {
      TopShows(rs, |rs|, x, y, i);
      FrameShows(ws[i], x, y);
    }
    if forall i :: 0 <= i < |ws| && ws[i].used ==> !Occupies(ws[i], x, y) { BareShows(rs, |rs|, x, y); }
  }

  lemma SamePlaces(ws: seq<Window>, x: int, y: int)
    requires WindowsOk(ws)
    ensures |Repainted(ws)| == |ws|
    ensures forall i :: 0 <= i < |ws| ==> var r := Repainted(ws)[i];
      && r.used == ws[i].used && r.x == ws[i].x && r.y == ws[i].y && (Occupies(r, x, y) <==> Occupies(ws[i], x, y))
      && (ws[i].used ==> r.frame == FrameOf(ws[i])) && Footprint(r) == Footprint(ws[i])
  {
    hide FrameOf;
  }

  lemma {:induction false} HasTop(ws: seq<Window>, n: nat, x: int, y: int)
    requires n <= |ws| && exists i :: 0 <= i < n && ws[i].used && Occupies(ws[i], x, y)
    requires forall j :: n <= j < |ws| && ws[j].used ==> !Occupies(ws[j], x, y)
    ensures exists i :: OnTop(ws, i, x, y)
    decreases n
  {
    hide Occupies;
    if ws[n - 1].used && Occupies(ws[n - 1], x, y) {
      assert OnTop(ws, n - 1, x, y);
    } else {
      HasTop(ws, n - 1, x, y);
    }
  }

  /** Only one colour is right. */
  lemma OneColour(ws: seq<Window>, c: Cursor, s: Spot, x: int, y: int, p: Color, q: Color)
    requires WindowsOk(ws) && CursorOk(c) && Depicts(ws, c, s, x, y, p) && Depicts(ws, c, s, x, y, q)
    ensures p == q
  {
    hide Occupies, WindowOk;
    if !UnderCursor(c, s, x, y) && exists i :: 0 <= i < |ws| && ws[i].used && Occupies(ws[i], x, y) {
      HasTop(ws, |ws|, x, y);
    }
  }

  // ---- damage -----------------------------------------------------------------------------------------

  ghost predicate Damaged(d: set<Rect>, x: int, y: int) { exists r :: r in d && In(r, x, y) }

  ghost predicate OnScreen(w: int, h: int, x: int, y: int) { 0 <= x < w && 0 <= y < h }

  // Every pixel of `r` on the screen is reported.
  ghost predicate Reported(d: set<Rect>, r: Rect, w: int, h: int) {
    forall x, y :: OnScreen(w, h, x, y) && In(r, x, y) ==> Damaged(d, x, y)
  }

  // The damage set after reporting `r`.
  function Report(d: set<Rect>, r: Rect, w: int, h: int): set<Rect> {
    d + (if NonEmpty(Clip(r, w, h)) then {Clip(r, w, h)} else {})
  }

  lemma ReportWorks(d: set<Rect>, r: Rect, w: int, h: int)
    ensures Reported(Report(d, r, w, h), r, w, h)
    ensures forall x, y :: Damaged(d, x, y) ==> Damaged(Report(d, r, w, h), x, y)
  {
    var e := Report(d, r, w, h);
    forall x, y | OnScreen(w, h, x, y) && In(r, x, y) ensures Damaged(e, x, y) {
      assert In(Clip(r, w, h), x, y);
      assert Clip(r, w, h) in e;
    }
    forall x, y | Damaged(d, x, y) ensures Damaged(e, x, y) {
      var q :| q in d && In(q, x, y);
      assert q in e;
    }
  }

  lemma ReportKeeps(d: set<Rect>, r: Rect, w: int, h: int, q: Rect)
    requires Reported(d, q, w, h)
    ensures Reported(Report(d, r, w, h), q, w, h)
  {
    ReportWorks(d, r, w, h);
  }

  /** Every window whose cache is out of date is flagged, and every flagged window is damage. */
  ghost predicate CachesTracked(ws: seq<Window>, d: set<Rect>, w: int, h: int)
    requires WindowsOk(ws)
  {
    forall i :: 0 <= i < |ws| ==>
      && (!Fresh(ws[i]) ==> Flagged(ws[i]))
      && (Flagged(ws[i]) ==> Reported(d, Footprint(ws[i]), w, h))
  }

  // Two scenes agree wherever no damage is reported.
  ghost predicate SceneKept(ws: seq<Window>, s: Spot, ws': seq<Window>, s': Spot, c: Cursor, d: set<Rect>, w: int,
      h: int)
    requires WindowsOk(ws) && WindowsOk(ws') && CursorOk(c)
  {
    forall x, y :: OnScreen(w, h, x, y) && !Damaged(d, x, y) ==> Scene(ws', c, s', x, y) == Scene(ws, c, s, x, y)
  }

  // Window `i` is replaced and both footprints, old and new, are damage: elsewhere nothing shows.
  lemma {:induction false} ReplaceAt(ws: seq<Window>, i: nat, v: Window, n: nat, x: int, y: int)
    requires WindowsOk(ws) && i < |ws| && WindowOk(v) && n <= |ws|
    requires (ws[i].used && In(Footprint(ws[i]), x, y)) || (v.used && In(Footprint(v), x, y)) ==>
      ws[i].used == v.used && ws[i].frame == v.frame && Footprint(ws[i]) == Footprint(v)
    ensures WindowsAt(ws[i := v], n, x, y) == WindowsAt(ws, n, x, y)
    decreases n
  {
    if n > 0 { ReplaceAt(ws, i, v, n - 1, x, y); }
  }

  // Replacing window `i` by `v` is safe if `v` looks the same, or if both footprints are reported.
  ghost predicate SafeReplace(u: Window, v: Window, d: set<Rect>, w: int, h: int)
    requires WindowOk(u) && WindowOk(v)
  {
    && (!Fresh(v) ==> Flagged(v))
    && (Flagged(v) ==> Reported(d, Footprint(v), w, h))
    && ((u.used == v.used && u.frame == v.frame && Footprint(u) == Footprint(v))
        || ((u.used ==> Reported(d, Footprint(u), w, h)) && (v.used ==> Reported(d, Footprint(v), w, h))))
  }

  lemma ReplaceKeeps(ws: seq<Window>, i: nat, v: Window, c: Cursor, s: Spot, d: set<Rect>, w: int, h: int)
    requires WindowsOk(ws) && CursorOk(c) && i < |ws| && WindowOk(v)
    requires CachesTracked(ws, d, w, h) && SafeReplace(ws[i], v, d, w, h)
    ensures WindowsOk(ws[i := v]) && CachesTracked(ws[i := v], d, w, h)
    ensures SceneKept(ws, s, ws[i := v], s, c, d, w, h)
  {
    hide Damaged, FrameOf, Footprint, OnScreen, WindowsAt, CursorAt;
    forall x, y | OnScreen(w, h, x, y) && !Damaged(d, x, y)
      ensures Scene(ws[i := v], c, s, x, y) == Scene(ws, c, s, x, y)
    {
      ReplaceAt(ws, i, v, GUI_MAX_WINDOWS, x, y);
    }
  }

  lemma TrackedMore(ws: seq<Window>, d: set<Rect>, r: Rect, w: int, h: int)
    requires WindowsOk(ws) && CachesTracked(ws, d, w, h)
    ensures CachesTracked(ws, Report(d, r, w, h), w, h)
  {
    hide Damaged, FrameOf, Report, Reported;
    forall i | 0 <= i < |ws| && Flagged(ws[i]) ensures Reported(Report(d, r, w, h), Footprint(ws[i]), w, h) {
      ReportKeeps(d, r, w, h, Footprint(ws[i]));
    }
  }

  /** Outside the header band, a pixel of back buffer and screen is either right or reported damage. */
  ghost predicate Synced(bb: array2<Color>, fb: array2<Color>, ws: seq<Window>, c: Cursor, s: Spot, d: set<Rect>)
    reads bb, fb
    requires WindowsOk(ws) && CursorOk(c)
    requires bb.Length0 == fb.Length0 && bb.Length1 == fb.Length1
  {
    forall x, y :: 0 <= x < bb.Length1 && 0 <= y < bb.Length0 && !In(HDR, x, y) && !Damaged(d, x, y) ==>
      bb[y, x] == Scene(ws, c, s, x, y) && fb[y, x] == Scene(ws, c, s, x, y)
  }

  lemma SyncedMore(bb: array2<Color>, fb: array2<Color>, ws: seq<Window>, c: Cursor, s: Spot, d: set<Rect>, r: Rect)
    requires WindowsOk(ws) && CursorOk(c) && bb.Length0 == fb.Length0 && bb.Length1 == fb.Length1
    requires Synced(bb, fb, ws, c, s, d)
    ensures Synced(bb, fb, ws, c, s, Report(d, r, bb.Length1, bb.Length0))
  {
    hide Scene, Damaged, Report;
    ReportWorks(d, r, bb.Length1, bb.Length0);
  }

  lemma SyncedStep(bb: array2<Color>, fb: array2<Color>, ws: seq<Window>, s: Spot, ws': seq<Window>, s': Spot,
      c: Cursor, d: set<Rect>)
    requires WindowsOk(ws) && WindowsOk(ws') && CursorOk(c) && bb.Length0 == fb.Length0 && bb.Length1 == fb.Length1
    requires Synced(bb, fb, ws, c, s, d) && SceneKept(ws, s, ws', s', c, d, bb.Length1, bb.Length0)
    ensures Synced(bb, fb, ws', c, s', d)
  {
    hide Scene, Damaged;
  }

  class WindowManager {
    const cursor: Cursor
    const header: map<(int, int), Color>   // the pixels of the header line
    const bb: array2<Color>                // back buffer
    const fb: array2<Color>                // screen
    const dirty: DirtyRegion
    var wins: seq<Window>
    var focusedIdx: int
    var spot: Spot                         // where the cursor was last drawn
    var prevLeft: bool
    var dragWin: int
    var dragOffX: int
    var dragOffY: int

    ghost predicate Shape()
      reads this, dirty, dirty.r
    {
      && dirty.Valid() && dirty.bw == bb.Length1 && dirty.bh == bb.Length0
      && bb != fb && bb.Length0 == fb.Length0 && bb.Length1 == fb.Length1
      && CursorOk(cursor) && (forall p :: p in header ==> In(HDR, p.0, p.1))
      && WindowsOk(wins)
      && -1 <= focusedIdx < GUI_MAX_WINDOWS && (focusedIdx >= 0 ==> wins[focusedIdx].used)
      && -1 <= dragWin < GUI_MAX_WINDOWS && (dragWin >= 0 ==> wins[dragWin].used)
    }

    ghost predicate Valid()
      reads this, dirty, dirty.r, bb, fb
    {
      && Shape()
      && CachesTracked(wins, dirty.damage, dirty.bw, dirty.bh)
      && Synced(bb, fb, wins, cursor, spot, dirty.damage)
    }

    /** Start-up: no windows, the whole screen reported as damage. */
    constructor (screen: array2<Color>, bitmap: Cursor, line: map<(int, int), Color>)
      requires screen.Length0 > 0 && screen.Length1 > 0 && CursorOk(bitmap)
      requires forall p :: p in line ==> In(HDR, p.0, p.1)
      ensures Valid() && fb == screen && fresh(bb) && fresh(dirty) && fresh(dirty.r)
    {
      cursor, header, fb := bitmap, line, screen;
      bb := new Color[screen.Length0, screen.Length1];
      var d := new DirtyRegion(screen.Length1, screen.Length0);
      dirty := d;
      wins := seq(GUI_MAX_WINDOWS, _ => NoWindow());
      focusedIdx, spot, prevLeft, dragWin, dragOffX, dragOffY := -1, Spot(-1, 0), false, -1, 0, 0;
      new;
      dirty.AddAll();
      assert dirty.Screen() in dirty.damage;
    }

    // DIRTY.add: nothing but the damage changes.
    method Damage(r: Rect)
      requires Valid()
      modifies dirty`n, dirty`damage, dirty`overflowed, dirty.r
      ensures Valid() && dirty.damage == Report(old(dirty.damage), r, dirty.bw, dirty.bh)
    {
      hide Synced, CachesTracked, DirtyRegion.Valid, WindowsOk, Report, Clip;
      ghost var d := dirty.damage;
      TrackedMore(wins, d, r, dirty.bw, dirty.bh);
      SyncedMore(bb, fb, wins, cursor, spot, d, r);
      dirty.Add(r);
      ReportIs(d, r, dirty.bw, dirty.bh);
    }

    // Replaces window `i` once the damage justifies it.
    method Replace(i: nat, v: Window)
      requires Valid() && i < GUI_MAX_WINDOWS && WindowOk(v) && v.used
      requires SafeReplace(wins[i], v, dirty.damage, dirty.bw, dirty.bh)
      modifies this`wins
      ensures Valid() && wins == old(wins)[i := v]
    {
      hide Synced, CachesTracked, DirtyRegion.Valid, SafeReplace, SceneKept;
      ReplaceKeeps(wins, i, v, cursor, spot, dirty.damage, dirty.bw, dirty.bh);
      SyncedStep(bb, fb, wins, spot, wins[i := v], spot, cursor, dirty.damage);
      wins := wins[i := v];
    }

    // ---- windows ---------------------------------------------------------------------------------

    // The window loses focus: its title bar must be redrawn.
    method Unfocus(f: nat)
      requires Valid() && f < GUI_MAX_WINDOWS && wins[f].used
      modifies this`wins, dirty`n, dirty`damage, dirty`overflowed, dirty.r
      ensures Valid() && wins == old(wins)[f := Unfocused(old(wins[f]))]
    {
      hide Synced, CachesTracked, DirtyRegion.Valid, Report, FrameOf;
      ghost var d := dirty.damage;
      Damage(Footprint(wins[f]));
      ReportWorks(d, Footprint(wins[f]), dirty.bw, dirty.bh);
      Replace(f, wins[f].(focused := false, chromeDirty := true));
    }

    // The window gains focus.
    method Focus(i: nat)
      requires Valid() && i < GUI_MAX_WINDOWS && wins[i].used
      modifies this`wins, dirty`n, dirty`damage, dirty`overflowed, dirty.r
      ensures Valid() && wins == old(wins)[i := Focused(old(wins[i]))]
    {
      hide Synced, CachesTracked, DirtyRegion.Valid, Report, FrameOf;
      if !wins[i].focused {
        ghost var d := dirty.damage;
        Damage(Footprint(wins[i]));
        ReportWorks(d, Footprint(wins[i]), dirty.bw, dirty.bh);
        Replace(i, wins[i].(focused := true, chromeDirty := true));
      } else {
        assert wins[i] == Focused(wins[i]);
      }
    }

    /** Opens a window in the lowest free slot, focused and freshly rendered; -1 if there is no slot or
        no memory for its surfaces. */
    method CreateWindow(x: int, y: int, w: int, h: int, text: map<(int, int), bool>, content: Picture, memory: bool)
      returns (id: int)
      requires Valid() && (w > 0 && h > 0 ==> content.Ok() && content.w == w && content.h == h)
      modifies this`wins, this`focusedIdx, dirty`n, dirty`damage, dirty`overflowed, dirty.r
      ensures Valid() && -1 <= id < GUI_MAX_WINDOWS
      ensures id == -1 <==> !(memory && w > 0 && h > 0 && exists i :: 0 <= i < GUI_MAX_WINDOWS && !old(wins)[i].used)
      ensures id == -1 ==> wins == old(wins) && focusedIdx == old(focusedIdx) && dirty.damage == old(dirty.damage)
      ensures id >= 0 ==> !old(wins)[id].used && forall i :: 0 <= i < id ==> old(wins)[i].used
      ensures id >= 0 ==> focusedIdx == id && wins[id].used && wins[id].focused && Fresh(wins[id])
      ensures id >= 0 && old(focusedIdx) >= 0 ==> wins[old(focusedIdx)] == Unfocused(old(wins)[old(focusedIdx)])
      ensures id >= 0 ==> wins[id].text == text && wins[id].animate == old(wins)[id].animate
      ensures id >= 0 ==> wins[id].content == content && Footprint(wins[id]) == Rect(x - 1, y - 21, w + 2, h + 22)
      ensures id >= 0 ==> forall i :: 0 <= i < GUI_MAX_WINDOWS && i != id && i != old(focusedIdx) ==>
        wins[i] == old(wins)[i]
    {
      hide Synced, CachesTracked, DirtyRegion.Valid, Report, FrameOf, FramePixel;
      for i := 0 to GUI_MAX_WINDOWS
        invariant Valid() && wins == old(wins) && focusedIdx == old(focusedIdx) && dirty.damage == old(dirty.damage)
        invariant forall k :: 0 <= k < i ==> wins[k].used
      {
        if wins[i].used { continue; }
        if !(memory && w > 0 && h > 0) { return -1; }
        if focusedIdx >= 0 { Unfocus(focusedIdx); }
        ghost var d := dirty.damage;
        var v := Window(true, x, y, w, h, text, content, BlankFrame(w, h), true, false, false, wins[i].animate);
        RenderedFresh(v);
        v := Rendered(v);
        Damage(Footprint(v));
        ReportWorks(d, Footprint(v), dirty.bw, dirty.bh);
        Replace(i, v);
        focusedIdx := i;
        return i;
      }
      return -1;
    }

    /** The content of a window changed: its cache is invalidated and its footprint damaged. */
    method ContentChanged(id: int, content: Picture)
      requires Valid()
      requires 0 <= id < GUI_MAX_WINDOWS && wins[id].used ==>
        content.Ok() && content.w == wins[id].w && content.h == wins[id].h
      modifies this`wins, dirty`n, dirty`damage, dirty`overflowed, dirty.r
      ensures Valid()
      ensures wins == if 0 <= id < GUI_MAX_WINDOWS && old(wins)[id].used
        then old(wins)[id := old(wins)[id].(content := content, contentDirty := true)] else old(wins)
    {
      hide Synced, CachesTracked, DirtyRegion.Valid, Report, FrameOf;
      if 0 <= id < GUI_MAX_WINDOWS && wins[id].used {
        ghost var d := dirty.damage;
        Damage(Footprint(wins[id]));
        ReportWorks(d, Footprint(wins[id]), dirty.bw, dirty.bh);
        Replace(id, wins[id].(content := content, contentDirty := true));
      }
    }

    // The topmost window under the pointer.
    method HitTest(mx: int, my: int) returns (hit: int)
      requires Shape()
      ensures -1 <= hit < GUI_MAX_WINDOWS
      ensures hit >= 0 ==> wins[hit].used && Hit(wins[hit], mx, my)
      ensures forall i :: hit < i < GUI_MAX_WINDOWS ==> !(wins[i].used && Hit(wins[i], mx, my))
    {
      for i := GUI_MAX_WINDOWS downto 0
        invariant forall k :: i <= k < GUI_MAX_WINDOWS ==> !(wins[k].used && Hit(wins[k], mx, my))
      {
        if wins[i].used && Hit(wins[i], mx, my) { return i; }
      }
      return -1;
    }

    /** A move damages the vacated and the newly covered footprint and touches no cache. */
    method MoveTo(i: nat, x: int, y: int)
      requires Valid() && i < GUI_MAX_WINDOWS && wins[i].used
      modifies this`wins, dirty`n, dirty`damage, dirty`overflowed, dirty.r
      ensures Valid() && wins == old(wins)[i := old(wins[i]).(x := x, y := y)]
    {
      hide Synced, CachesTracked, DirtyRegion.Valid, Report, FrameOf;
      if x != wins[i].x || y != wins[i].y {
        var v := wins[i].(x := x, y := y);
        ghost var d := dirty.damage;
        Damage(Footprint(wins[i]));
        ReportWorks(d, Footprint(wins[i]), dirty.bw, dirty.bh);
        ghost var e := dirty.damage;
        Damage(Footprint(v));
        ReportWorks(e, Footprint(v), dirty.bw, dirty.bh);
        ReportKeeps(e, Footprint(v), dirty.bw, dirty.bh, Footprint(wins[i]));
        MovedSafely(wins, i, v, dirty.damage, dirty.bw, dirty.bh);
        Replace(i, v);
      } else {
        assert wins[i] == wins[i].(x := x, y := y);
      }
    }

    // Left press on window `hit`: it takes the focus, and a press on its title bar starts a drag.
    method Press(hit: nat, mx: int, my: int)
      requires Valid() && hit < GUI_MAX_WINDOWS && wins[hit].used
      modifies this`wins, this`focusedIdx, this`dragWin, this`dragOffX, this`dragOffY
      modifies dirty`n, dirty`damage, dirty`overflowed, dirty.r
      ensures Valid() && focusedIdx == hit && wins == FocusMoved(old(wins), old(focusedIdx), hit)
      ensures if my < old(wins)[hit].y
        then dragWin == hit && dragOffX == mx - old(wins)[hit].x && dragOffY == my - old(wins)[hit].y
        else dragWin == old(dragWin) && dragOffX == old(dragOffX) && dragOffY == old(dragOffY)
    {
      hide Synced, CachesTracked, DirtyRegion.Valid, FrameOf;
      if focusedIdx >= 0 && focusedIdx != hit { Unfocus(focusedIdx); }
      focusedIdx := hit;
      Focus(hit);
      if my < wins[hit].y {
        dragWin, dragOffX, dragOffY := hit, mx - wins[hit].x, my - wins[hit].y;
      }
    }

    ghost function MouseState(): Mouse
      reads this
    {
      Mouse(wins, focusedIdx, prevLeft, dragWin, dragOffX, dragOffY)
    }

    /** One look at the mouse. */
    method UpdateMouse(mx: int, my: int, left: bool)
      requires Valid()
      modifies this`wins, this`focusedIdx, this`prevLeft, this`dragWin, this`dragOffX, this`dragOffY
      modifies dirty`n, dirty`damage, dirty`overflowed, dirty.r
      ensures Valid() && MouseState() == MouseStep(old(MouseState()), mx, my, left, bb.Length1, bb.Length0)
    {
      hide Synced, CachesTracked, DirtyRegion.Valid, FrameOf, WindowOk, Clamp, Hit, FocusMoved;
      var hit := HitTest(mx, my);
      TopIs(wins, mx, my, GUI_MAX_WINDOWS, hit);
      if left && !prevLeft && hit >= 0 { Press(hit, mx, my); }
      if !left { dragWin := -1; }
      if left && dragWin >= 0 {
        var w := wins[dragWin];
        var x := Clamp(mx - dragOffX, -w.w + 40, bb.Length1 - 40);
        var y := Clamp(my - dragOffY, GUI_TITLE_H, bb.Length0 - 20);
        MoveTo(dragWin, x, y);
      }
      prevLeft := left;
    }

    // The cursor moves: its old and new place are damaged.
    method MoveCursor(mx: int, my: int)
      requires Valid() && mx >= 0
      modifies this`spot, dirty`n, dirty`damage, dirty`overflowed, dirty.r
      ensures Valid() && spot == Spot(mx, my)
    {
      if spot == Spot(mx, my) { return; }
      hide Synced, CachesTracked, DirtyRegion.Valid, Report, FrameOf, SceneKept;
      var s := spot;
      if spot.x >= 0 {
        ghost var d := dirty.damage;
        Damage(CursorBox(spot));
        ReportWorks(d, CursorBox(spot), dirty.bw, dirty.bh);
      }
      ghost var d := dirty.damage;
      Damage(Rect(mx, my, 12, 18));
      ReportWorks(d, CursorBox(Spot(mx, my)), dirty.bw, dirty.bh);
      if s.x >= 0 { ReportKeeps(d, CursorBox(Spot(mx, my)), dirty.bw, dirty.bh, CursorBox(s)); }
      CursorMoved(wins, cursor, s, Spot(mx, my), dirty.damage, dirty.bw, dirty.bh);
      SyncedStep(bb, fb, wins, s, wins, Spot(mx, my), cursor, dirty.damage);
      spot := Spot(mx, my);
    }

    /** Refreshes every stale cache; all windows end up fresh. */
    method RenderStale()
      requires Valid()
      modifies this`wins
      ensures Valid() && forall i :: 0 <= i < GUI_MAX_WINDOWS ==> Fresh(wins[i]) && !Flagged(wins[i])
      ensures forall i :: 0 <= i < GUI_MAX_WINDOWS ==> SameScene(old(wins)[i], wins[i])
    {
      hide Synced, DirtyRegion.Valid, FrameOf, Reported, Footprint, SafeReplace, CachesTracked;
      for i := 0 to GUI_MAX_WINDOWS
        invariant Valid()
        invariant forall k :: 0 <= k < i ==> Fresh(wins[k]) && !Flagged(wins[k])
        invariant forall k :: 0 <= k < GUI_MAX_WINDOWS ==> SameScene(old(wins)[k], wins[k])
      {
        TrackedAt(wins, dirty.damage, dirty.bw, dirty.bh, i);
        if wins[i].used && (wins[i].contentDirty || wins[i].chromeDirty) {
          RenderedFresh(wins[i]);
          RenderSafely(wins[i], dirty.damage, dirty.bw, dirty.bh);
          Replace(i, Rendered(wins[i]));
        }
      }
    }

    // Animated windows draw something new every frame.
    method Animate(contents: seq<Picture>)
      requires Valid() && |contents| == GUI_MAX_WINDOWS
      requires forall i :: 0 <= i < GUI_MAX_WINDOWS && wins[i].used ==>
        contents[i].Ok() && contents[i].w == wins[i].w && contents[i].h == wins[i].h
      modifies this`wins, dirty`n, dirty`damage, dirty`overflowed, dirty.r
      ensures Valid()
      ensures forall i :: 0 <= i < GUI_MAX_WINDOWS ==> wins[i] == Animated(old(wins)[i], contents[i])
    {
      hide Synced, CachesTracked, DirtyRegion.Valid, FrameOf;
      for i := 0 to GUI_MAX_WINDOWS
        invariant Valid()
        invariant forall k :: 0 <= k < GUI_MAX_WINDOWS ==>
          wins[k] == if k < i then Animated(old(wins)[k], contents[k]) else old(wins)[k]
      {
        if wins[i].used && wins[i].animate { ContentChanged(i, contents[i]); }
      }
    }

    // ---- painting ---------------------------------------------------------------------------------

    // The header line, drawn without regard to clipping.
    method DrawHeader()
      requires bb != fb && forall p :: p in header ==> In(HDR, p.0, p.1)
      modifies bb
      ensures forall y, x :: 0 <= y < bb.Length0 && 0 <= x < bb.Length1 && !In(HDR, x, y) ==> bb[y, x] == old(bb[y, x])
    {
      for y := 0 to bb.Length0
        invariant forall b, a :: 0 <= b < bb.Length0 && 0 <= a < bb.Length1 && !In(HDR, a, b) ==>
          bb[b, a] == old(bb[b, a])
      {
        for x := 0 to bb.Length1
          invariant forall b, a :: 0 <= b < bb.Length0 && 0 <= a < bb.Length1 && !In(HDR, a, b) ==>
            bb[b, a] == old(bb[b, a])
        {
          if (x, y) in header { bb[y, x] := header[(x, y)]; }
        }
      }
    }

    /** Repaints one damaged rectangle of the back buffer: wallpaper, then windows from the bottom up. */
    method PaintRect(r: Rect)
      requires Shape() && NonEmpty(r) && Inside(r, Rect(0, 0, bb.Length1, bb.Length0))
      modifies bb
      ensures forall y, x :: 0 <= y < bb.Length0 && 0 <= x < bb.Length1 && !In(HDR, x, y) ==>
        bb[y, x] == if In(r, x, y) then WindowsAt(wins, GUI_MAX_WINDOWS, x, y) else old(bb[y, x])
    {
      hide DirtyRegion.Valid, WindowOk;
      FillRect(bb, r, C_WALLPAPER);
      if Intersects(r, HDR) { DrawHeader(); }
      for i := 0 to GUI_MAX_WINDOWS
        invariant forall y, x :: 0 <= y < bb.Length0 && 0 <= x < bb.Length1 && !In(HDR, x, y) ==>
          bb[y, x] == if In(r, x, y) then WindowsAt(wins, i, x, y) else old(bb[y, x])
      {
        var w := wins[i];
        if !w.used || !Intersects(r, Footprint(w)) {
          Apart2(r, Footprint(w));
          continue;
        }
        FrameFits(wins, i);
        BlitClipped(bb, w.x - FRAME_BX, w.y - GUI_TITLE_H - FRAME_BX, w.frame, r);
      }
    }

    // Repaints every damaged rectangle.
    method PaintAll(out: seq<Rect>)
      requires Shape() && ApartSeq(out) && InBounds(out, Rect(0, 0, bb.Length1, bb.Length0))
      modifies bb
      ensures forall y, x :: 0 <= y < bb.Length0 && 0 <= x < bb.Length1 && !In(HDR, x, y) ==>
        bb[y, x] == if AnyHas(out, |out|, x, y) then WindowsAt(wins, GUI_MAX_WINDOWS, x, y) else old(bb[y, x])
    {
      hide DirtyRegion.Valid, WindowOk, WindowsAt, In, ApartSeq, Inside;
      for k := 0 to |out|
        invariant forall y, x :: 0 <= y < bb.Length0 && 0 <= x < bb.Length1 && !In(HDR, x, y) ==>
          bb[y, x] == if AnyHas(out, k, x, y) then WindowsAt(wins, GUI_MAX_WINDOWS, x, y) else old(bb[y, x])
      {
        SeqMember(out, k);
        PaintRect(out[k]);
      }
    }

    /** Draws the cursor where the mouse is, clipped to the screen only. */
    method DrawCursor()
      requires Shape() && spot.x >= 0
      modifies bb
      ensures forall y, x :: 0 <= y < bb.Length0 && 0 <= x < bb.Length1 ==>
        bb[y, x] == var v := CursorAt(cursor, spot, x, y); if v != 0 then CursorColor(v) else old(bb[y, x])
    {
      hide DirtyRegion.Valid, WindowsOk, CursorColor;
      for row := 0 to 18
        invariant forall y, x :: 0 <= y < bb.Length0 && 0 <= x < bb.Length1 ==>
          bb[y, x] == var v := CursorAt(cursor, spot, x, y);
            if v != 0 && y - spot.y < row then CursorColor(v) else old(bb[y, x])
      {
        for col := 0 to 12
          invariant forall y, x :: 0 <= y < bb.Length0 && 0 <= x < bb.Length1 ==>
            bb[y, x] == var v := CursorAt(cursor, spot, x, y);
              if v != 0 && (y - spot.y < row || (y - spot.y == row && x - spot.x < col))
              then CursorColor(v)
              else old(bb[y, x])
        {
          var v := cursor[row][col];
          if v == 0 { continue; }
          var px, py := spot.x + col, spot.y + row;
          if px < 0 || py < 0 || px >= bb.Length1 || py >= bb.Length0 { continue; }
          bb[py, px] := CursorColor(v);
        }
      }
    }

    // Copies the damaged rectangles to the screen.
    method Flip(out: seq<Rect>)
      requires Shape() && ApartSeq(out) && InBounds(out, Rect(0, 0, bb.Length1, bb.Length0))
      modifies fb
      ensures forall y, x :: 0 <= y < bb.Length0 && 0 <= x < bb.Length1 ==>
        fb[y, x] == if AnyHas(out, |out|, x, y) then bb[y, x] else old(fb[y, x])
    {
      hide DirtyRegion.Valid, WindowsOk, In, ApartSeq, Inside;
      for k := 0 to |out|
        invariant forall y, x :: 0 <= y < bb.Length0 && 0 <= x < bb.Length1 ==>
          fb[y, x] == if AnyHas(out, k, x, y) then bb[y, x] else old(fb[y, x])
      {
        SeqMember(out, k);
        CopyRect(fb, bb, out[k]);
      }
    }

    // Steps 2 and 3: repaint the drained rectangles `out`, which cover the damage `d`, and flip them.
    method PaintAndFlip(out: seq<Rect>, ghost d: set<Rect>)
      requires Shape() && spot.x >= 0 && Synced(bb, fb, wins, cursor, spot, d)
      requires Cover(Elems(out), d) && ApartSeq(out) && InBounds(out, Rect(0, 0, bb.Length1, bb.Length0))
      modifies bb, fb
      ensures forall y, x :: 0 <= y < bb.Length0 && 0 <= x < bb.Length1 && !In(HDR, x, y) ==>
        bb[y, x] == Scene(wins, cursor, spot, x, y) && fb[y, x] == Scene(wins, cursor, spot, x, y)
    {
      hide DirtyRegion.Valid, In, Cover, Damaged, ApartSeq, InBounds, AnyHas, CursorAt, WindowsAt, WindowOk;
      DamageIsPainted(out, d);
      if |out| > 0 {
        PaintAll(out);
        DrawCursor();
        Flip(out);
      } else {
        NothingPainted(out);
      }
    }

    /** Steps 1b to 3 of the compositor: refresh caches, drain the damage, repaint, flip. Afterwards every
        pixel outside the header band is what a full repaint would show. */
    method Repaint()
      requires Valid() && spot.x >= 0
      modifies this`wins, dirty`n, dirty`damage, dirty`overflowed, bb, fb
      ensures Valid() && dirty.damage == {}
      ensures forall i :: 0 <= i < GUI_MAX_WINDOWS ==> SameScene(old(wins)[i], wins[i]) && Fresh(wins[i])
      ensures forall y, x :: 0 <= y < bb.Length0 && 0 <= x < bb.Length1 && !In(HDR, x, y) ==>
        fb[y, x] == FullRepaint(wins, cursor, spot, x, y)
      ensures forall y, x :: 0 <= y < bb.Length0 && 0 <= x < bb.Length1 && !In(HDR, x, y) ==>
        Depicts(wins, cursor, spot, x, y, fb[y, x])
    {
      hide DirtyRegion.Valid, CachesTracked, Scene, FrameOf, In, Cover, Damaged, ApartSeq, InBounds, Repainted;
      hide Depicts;
      RenderStale();
      ghost var d := dirty.damage;
      var out := dirty.Flush();
      PaintAndFlip(out, d);
      FreshIsRepainted(wins);
      FreshTracked(wins, dirty.damage, dirty.bw, dirty.bh);
      forall y, x | 0 <= y < bb.Length0 && 0 <= x < bb.Length1 && !In(HDR, x, y)
        ensures Depicts(wins, cursor, spot, x, y, fb[y, x])
      {
        RepaintDepicts(wins, cursor, spot, x, y);
      }
    }

    /** One round of the compositor loop. `contents` is what animated windows draw this time. Incremental
        repainting equals full repainting: outside the header band the screen shows the cursor over the
        topmost window over the wallpaper, all drawn from the windows' current contents. */
    method ComposeFrame(mx: int, my: int, left: bool, contents: seq<Picture>)
      requires Valid() && mx >= 0 && |contents| == GUI_MAX_WINDOWS
      requires forall i :: 0 <= i < GUI_MAX_WINDOWS && wins[i].used ==>
        contents[i].Ok() && contents[i].w == wins[i].w && contents[i].h == wins[i].h
      modifies this`wins, this`focusedIdx, this`prevLeft, this`dragWin, this`dragOffX, this`dragOffY, this`spot
      modifies dirty`n, dirty`damage, dirty`overflowed, dirty.r, bb, fb
      ensures Valid() && dirty.damage == {} && spot == Spot(mx, my)
      ensures var m := MouseStep(old(MouseState()), mx, my, left, bb.Length1, bb.Length0);
        && MouseState() == m.(wins := wins)
        && forall i :: 0 <= i < GUI_MAX_WINDOWS ==>
          SameScene(Animated(m.wins[i], contents[i]), wins[i]) && Fresh(wins[i])
      ensures forall i :: 0 <= i < GUI_MAX_WINDOWS && wins[i].used ==>
        && old(wins)[i].used && wins[i].animate == old(wins)[i].animate
        && wins[i].content == if wins[i].animate then contents[i] else old(wins)[i].content
      ensures forall y, x :: 0 <= y < bb.Length0 && 0 <= x < bb.Length1 && !In(HDR, x, y) ==>
        fb[y, x] == FullRepaint(wins, cursor, Spot(mx, my), x, y)
      ensures forall y, x :: 0 <= y < bb.Length0 && 0 <= x < bb.Length1 && !In(HDR, x, y) ==>
        Depicts(wins, cursor, Spot(mx, my), x, y, fb[y, x])
    {
      hide DirtyRegion.Valid, CachesTracked, Synced, FullRepaint, FrameOf, In, WindowOk, Fresh, MouseStep, SameScene;
      hide Animated, Depicts;
      SizesKept(MouseState(), mx, my, left, bb.Length1, bb.Length0);
      UpdateMouse(mx, my, left);
      MoveCursor(mx, my);
      Animate(contents);
      Repaint();
      forall i | 0 <= i < GUI_MAX_WINDOWS && wins[i].used
        ensures old(wins)[i].used && wins[i].animate == old(wins)[i].animate
        ensures wins[i].content == if wins[i].animate then contents[i] else old(wins)[i].content
      {
        MouseStepMeans(old(MouseState()), mx, my, left, bb.Length1, bb.Length0, i);
        ContentShown(MouseStep(old(MouseState()), mx, my, left, bb.Length1, bb.Length0).wins[i], contents[i], wins[i]);
      }
    }
  }

  lemma DamageIsPainted(out: seq<Rect>, d: set<Rect>)
    requires Cover(Elems(out), d)
    ensures forall x, y :: Damaged(d, x, y) ==> AnyHas(out, |out|, x, y)
  {
    forall x, y | Damaged(d, x, y) ensures AnyHas(out, |out|, x, y) {
      var r :| r in d && In(r, x, y);
      assert HasAround(Elems(out), r);
      var a :| a in Elems(out) && Inside(r, a);
      var i :| 0 <= i < |out| && out[i] == a;
      assert In(out[i], x, y);
    }
  }

  lemma NothingPainted(out: seq<Rect>)
    requires out == []
    ensures forall x, y :: !AnyHas(out, |out|, x, y)
  {
  }

  lemma FreshTracked(ws: seq<Window>, d: set<Rect>, w: int, h: int)
    requires WindowsOk(ws) && forall i :: 0 <= i < |ws| ==> Fresh(ws[i]) && !Flagged(ws[i])
    ensures CachesTracked(ws, d, w, h)
  {
    hide FrameOf;
  }

  // rect_intersects
  predicate Intersects(a: Rect, b: Rect) {
    a.x < b.x + b.w && b.x < a.x + a.w && a.y < b.y + b.h && b.y < a.y + a.h
  }

  lemma Apart2(a: Rect, b: Rect)
    ensures !Intersects(a, b) ==> forall x, y :: In(a, x, y) ==> !In(b, x, y)
  {
  }

  // The cached frame has the size of the footprint.
  lemma FrameFits(ws: seq<Window>, i: nat)
    requires WindowsOk(ws) && i < |ws| && ws[i].used
    ensures ws[i].frame.Ok()
    ensures Rect(ws[i].x - FRAME_BX, ws[i].y - GUI_TITLE_H - FRAME_BX, ws[i].frame.w, ws[i].frame.h) == Footprint(ws[i])
  {
  }

  // One of the first `k` rectangles contains the pixel.
  predicate AnyHas(out: seq<Rect>, k: nat, x: int, y: int)
    requires k <= |out|
  {
    exists i :: 0 <= i < k && In(out[i], x, y)
  }

  lemma SeqMember(out: seq<Rect>, k: nat)
    requires ApartSeq(out) && k < |out|
    ensures NonEmpty(out[k])
    ensures forall x, y :: AnyHas(out, k + 1, x, y) <==> AnyHas(out, k, x, y) || In(out[k], x, y)
  {
  }

  function Clamp(v: int, lo: int, hi: int): int {
    var a := if v < lo then lo else v;
    if a > hi then hi else a
  }

  function Unfocused(w: Window): Window { w.(focused := false, chromeDirty := true) }

  // A window that gains the focus needs a new title bar.
  function Focused(w: Window): Window { w.(focused := true, chromeDirty := w.chromeDirty || !w.focused) }

  function FocusMoved(ws: seq<Window>, from: int, hit: nat): seq<Window>
    requires from < |ws| && hit < |ws|
  {
    var a := if from >= 0 && from != hit then ws[from := Unfocused(ws[from])] else ws;
    a[hit := Focused(a[hit])]
  }

  // The topmost of the first n windows under the pointer, -1 if there is none.
  function TopOf(ws: seq<Window>, mx: int, my: int, n: nat): (h: int)
    requires n <= |ws|
    ensures -1 <= h < n
  {
    if n == 0 then -1 else if ws[n - 1].used && Hit(ws[n - 1], mx, my) then n - 1 else TopOf(ws, mx, my, n - 1)
  }

  // What looking at the mouse changes.
  datatype Mouse = Mouse(wins: seq<Window>, focusedIdx: int, prevLeft: bool, dragWin: int, offX: int, offY: int)

  predicate MouseOk(m: Mouse) { m.focusedIdx < |m.wins| && m.dragWin < |m.wins| }

  function Pressed(m: Mouse, hit: nat, mx: int, my: int): (r: Mouse)
    requires MouseOk(m) && hit < |m.wins|
    ensures MouseOk(r)
  {
    var n := m.(wins := FocusMoved(m.wins, m.focusedIdx, hit), focusedIdx := hit);
    var w := m.wins[hit];
    if my < w.y then n.(dragWin := hit, offX := mx - w.x, offY := my - w.y) else n
  }

  function Dragged(m: Mouse, mx: int, my: int, bw: int, bh: int): Mouse
    requires MouseOk(m)
  {
    if m.dragWin < 0 then m else
      var w := m.wins[m.dragWin];
      var x, y := Clamp(mx - m.offX, -w.w + 40, bw - 40), Clamp(my - m.offY, GUI_TITLE_H, bh - 20);
      m.(wins := m.wins[m.dragWin := w.(x := x, y := y)])
  }

  // A new left press goes to the topmost window under it; while the button is down a drag goes on.
  function MouseStep(m: Mouse, mx: int, my: int, left: bool, bw: int, bh: int): Mouse
    requires MouseOk(m)
  {
    var hit := TopOf(m.wins, mx, my, |m.wins|);
    var n := if left && !m.prevLeft && hit >= 0 then Pressed(m, hit, mx, my) else m;
    (if left then Dragged(n, mx, my, bw, bh) else n.(dragWin := -1)).(prevLeft := left)
  }

  /** A look at the mouse changes no content and moves no window but the one being dragged; without a new
      press no flag changes, so no cache is invalidated; without the button nothing moves at all. */
  lemma MouseStepMeans(m: Mouse, mx: int, my: int, left: bool, bw: int, bh: int, i: nat)
    requires MouseOk(m) && i < |m.wins|
    ensures var n := MouseStep(m, mx, my, left, bw, bh);
      && |n.wins| == |m.wins| && SameBody(m.wins[i], n.wins[i])
      && (i != n.dragWin ==> n.wins[i].x == m.wins[i].x && n.wins[i].y == m.wins[i].y)
      && (!left || m.prevLeft ==> SameFlags(m.wins[i], n.wins[i]) && n.focusedIdx == m.focusedIdx)
      && (!left ==> n.wins == m.wins && n.dragWin == -1) && n.prevLeft == left
  {
    hide Hit, Clamp, TopOf;
  }

  lemma SizesKept(m: Mouse, mx: int, my: int, left: bool, bw: int, bh: int)
    requires MouseOk(m)
    ensures var n := MouseStep(m, mx, my, left, bw, bh);
      |n.wins| == |m.wins| && forall i :: 0 <= i < |m.wins| ==>
        n.wins[i].used == m.wins[i].used && n.wins[i].w == m.wins[i].w && n.wins[i].h == m.wins[i].h
  {
    hide Hit, Clamp, TopOf;
  }

  /** A drag keeps the point that was grabbed under the mouse as long as the screen edges allow it, and otherwise
      brings the window as near as they do: 40 columns stay on the screen, and the title bar does; on a screen
      too small for that the right and lower edges win. */
  lemma DragFollows(m: Mouse, mx: int, my: int, bw: int, bh: int)
    requires MouseOk(m) && m.dragWin >= 0 && m.prevLeft
    ensures var n := MouseStep(m, mx, my, true, bw, bh);
      && n.dragWin == m.dragWin && n.offX == m.offX && n.offY == m.offY && n.focusedIdx == m.focusedIdx && n.prevLeft
      && n.wins == m.wins[m.dragWin := n.wins[m.dragWin]]
    ensures var w, v := m.wins[m.dragWin], MouseStep(m, mx, my, true, bw, bh).wins[m.dragWin];
      && (40 - w.w <= mx - m.offX <= bw - 40 ==> mx - v.x == m.offX)
      && (20 <= my - m.offY <= bh - 20 ==> my - v.y == m.offY)
      && (mx - m.offX < 40 - w.w <= bw - 40 ==> v.x == 40 - w.w) && (bw - 40 < mx - m.offX ==> v.x == bw - 40)
      && (my - m.offY < 20 <= bh - 20 ==> v.y == 20) && (bh - 20 < my - m.offY ==> v.y == bh - 20)
      && v.x <= bw - 40 && v.y <= bh - 20
      && (40 - w.w <= bw - 40 ==> v.x + v.w >= 40) && (40 <= bh ==> v.y >= 20)
  {
  }

  // The pointer is over the title bar or the body of window `i`, and over no window above it.
  ghost predicate PointsAt(ws: seq<Window>, i: int, mx: int, my: int) {
    && 0 <= i < |ws| && ws[i].used && (InTitle(ws[i], mx, my) || InBody(ws[i], mx, my))
    && forall j :: i < j < |ws| && ws[j].used ==> !InTitle(ws[j], mx, my) && !InBody(ws[j], mx, my)
  }

  lemma {:induction false} TopPoints(ws: seq<Window>, i: int, mx: int, my: int, n: nat)
    requires n <= |ws| && forall j :: 0 <= j < |ws| && ws[j].used ==> ws[j].h > 0
    requires -1 <= i < n && (i >= 0 ==> PointsAt(ws, i, mx, my))
    requires forall j :: i < j < n && ws[j].used ==> !InTitle(ws[j], mx, my) && !InBody(ws[j], mx, my)
    ensures TopOf(ws, mx, my, n) == i
    decreases n
  {
    if i < n - 1 && n > 0 { TopPoints(ws, i, mx, my, n - 1); }
  }

  /** A new press on a window gives it the focus and takes it from the window that had it; on the title bar it also
      grabs the window at that point. In the body no drag starts. */
  lemma PressMeans(m: Mouse, mx: int, my: int, bw: int, bh: int, i: nat)
    requires MouseOk(m) && !m.prevLeft && PointsAt(m.wins, i, mx, my)
    requires forall j :: 0 <= j < |m.wins| && m.wins[j].used ==> m.wins[j].h > 0
    ensures var n := MouseStep(m, mx, my, true, bw, bh);
      && n.focusedIdx == i && |n.wins| == |m.wins| && n.wins[i].focused && n.prevLeft
      && (0 <= m.focusedIdx != i ==> !n.wins[m.focusedIdx].focused && n.wins[m.focusedIdx].chromeDirty)
      && (!m.wins[i].focused ==> n.wins[i].chromeDirty)
      && (forall j :: 0 <= j < |m.wins| && j != i && j != m.focusedIdx ==> SameFlags(m.wins[j], n.wins[j]))
      && (InTitle(m.wins[i], mx, my) ==>
            n.dragWin == i && n.offX == mx - m.wins[i].x && n.offY == my - m.wins[i].y)
      && (InBody(m.wins[i], mx, my) ==> n.dragWin == m.dragWin && n.offX == m.offX && n.offY == m.offY)
  {
    hide Clamp, TopOf;
    TopPoints(m.wins, i, mx, my, |m.wins|);
  }

  /** A press on no window changes nothing but a drag already under way. */
  lemma PressOutside(m: Mouse, mx: int, my: int, bw: int, bh: int)
    requires MouseOk(m) && forall j :: 0 <= j < |m.wins| && m.wins[j].used ==> m.wins[j].h > 0
    requires forall j :: 0 <= j < |m.wins| && m.wins[j].used ==>
      !InTitle(m.wins[j], mx, my) && !InBody(m.wins[j], mx, my)
    ensures MouseStep(m, mx, my, true, bw, bh) == Dragged(m, mx, my, bw, bh).(prevLeft := true)
  {
    hide Clamp, TopOf;
    TopPoints(m.wins, -1, mx, my, |m.wins|);
  }

  predicate SameBody(u: Window, v: Window) {
    && u.used == v.used && u.w == v.w && u.h == v.h && u.text == v.text
    && u.content == v.content && u.frame == v.frame && u.animate == v.animate
  }

  predicate SameFlags(u: Window, v: Window) {
    u.focused == v.focused && u.contentDirty == v.contentDirty && u.chromeDirty == v.chromeDirty
  }

  // Everything but the cache and its flags.
  predicate SameScene(u: Window, v: Window) {
    v == u.(frame := v.frame, contentDirty := v.contentDirty, chromeDirty := v.chromeDirty)
  }

  function Animated(w: Window, content: Picture): Window {
    if w.used && w.animate then w.(content := content, contentDirty := true) else w
  }

  lemma ContentShown(u: Window, content: Picture, v: Window)
    requires SameScene(Animated(u, content), v) && v.used
    ensures u.used && v.animate == u.animate && v.content == if v.animate then content else u.content
  {
  }

  lemma TrackedAt(ws: seq<Window>, d: set<Rect>, w: int, h: int, i: nat)
    requires WindowsOk(ws) && CachesTracked(ws, d, w, h) && i < |ws|
    ensures !Fresh(ws[i]) ==> Flagged(ws[i])
    ensures Flagged(ws[i]) ==> Reported(d, Footprint(ws[i]), w, h)
  {
  }

  lemma RenderSafely(u: Window, d: set<Rect>, w: int, h: int)
    requires WindowOk(u) && u.used && Reported(d, Footprint(u), w, h)
    ensures WindowOk(Rendered(u)) && SafeReplace(u, Rendered(u), d, w, h)
  {
    hide Damaged;
    RenderedFresh(u);
  }

  lemma CursorMoved(ws: seq<Window>, c: Cursor, s: Spot, t: Spot, d: set<Rect>, w: int, h: int)
    requires WindowsOk(ws) && CursorOk(c) && (s.x >= 0 ==> Reported(d, CursorBox(s), w, h))
    requires Reported(d, CursorBox(t), w, h)
    ensures SceneKept(ws, s, ws, t, c, d, w, h)
  {
    hide WindowsAt, Damaged;
  }

  lemma MovedSafely(ws: seq<Window>, i: nat, v: Window, d: set<Rect>, w: int, h: int)
    requires WindowsOk(ws) && i < |ws| && ws[i].used && v == ws[i].(x := v.x, y := v.y) && CachesTracked(ws, d, w, h)
    requires Reported(d, Footprint(ws[i]), w, h) && Reported(d, Footprint(v), w, h)
    ensures SafeReplace(ws[i], v, d, w, h)
  {
    hide Damaged, Footprint;
    assert FrameOf(v) == FrameOf(ws[i]) by { SameFrame(ws[i], v); }
  }

  // The frame depends on size, title, focus and content only.
  lemma SameFrame(u: Window, v: Window)
    requires WindowOk(u) && WindowOk(v) && u.used && v.used
    requires u.w == v.w && u.h == v.h && u.text == v.text && u.content == v.content && u.focused == v.focused
    ensures FrameOf(v) == FrameOf(u)
  {
    var p, q := FrameOf(u), FrameOf(v);
    forall y | 0 <= y < p.h ensures p.rows[y] == q.rows[y] {
      forall x | 0 <= x < p.w ensures p.rows[y][x] == q.rows[y][x] {
        assert p.At(x, y) == FramePixel(u, x, y) && q.At(x, y) == FramePixel(v, x, y);
      }
    }
    assert p.rows == q.rows;
  }

  lemma RenderedFresh(u: Window)
    requires WindowOk(u) && u.used
    ensures WindowOk(Rendered(u)) && Fresh(Rendered(u)) && !Flagged(Rendered(u))
    ensures Footprint(Rendered(u)) == Footprint(u)
  {
    SameFrame(u, Rendered(u));
  }

  function BlankFrame(w: nat, h: nat): (p: Picture)
    ensures p.Ok() && p.w == w + 2 && p.h == h + 22
  {
    Picture(w + 2, h + 22, seq(h + 22, _ => seq(w + 2, _ => 0)))
  }

  predicate Hit(w: Window, mx: int, my: int) {
    w.x <= mx < w.x + w.w && w.y - GUI_TITLE_H <= my < w.y + w.h
  }

  lemma {:induction false} TopIs(ws: seq<Window>, mx: int, my: int, n: nat, hit: int)
    requires -1 <= hit < n <= |ws| && (hit >= 0 ==> ws[hit].used && Hit(ws[hit], mx, my))
    requires forall i :: hit < i < n ==> !(ws[i].used && Hit(ws[i], mx, my))
    ensures TopOf(ws, mx, my, n) == hit
  {
    hide Hit;
    if hit < n - 1 && n > 1 { TopIs(ws, mx, my, n - 1, hit); }
  }

  lemma ReportIs(d: set<Rect>, r: Rect, w: int, h: int)
    ensures Report(d, r, w, h) == d + (if NonEmpty(Clip(r, w, h)) then {Clip(r, w, h)} else {})
  {
  }
}
