/**
 The initial user stack (spawn_elf in kernel-rs/src/proc.rs) and what the user-side entry code
 (_start and arg_str in userspace-rs/src/ulib.rs) reads back from it.
 */
module UserStack {
  import opened Common
  import opened Pmm
  import opened PageTable
  import opened AddressSpaces
  import opened Budget
  import opened Vmm
  import opened UserMemory
  import opened Proc

  const USER_STACK_TOP: nat := 0x7000_0000_0000
  const USER_STACK_PAGES: nat := 4
  const ARG_MAX: nat := 16

  // ---- reading, as user code does --------------------------------------------------------------

  ghost predicate BytesAt(vm: Vm, r: nat, a: nat, s: seq<Byte>)
    requires r in vm.spaces
  {
    forall k :: 0 <= k < |s| ==> VByte(vm, r, a + k) == Some(s[k])
  }

  // A little-endian load of `n` bytes.
  ghost function LoadLe(vm: Vm, r: nat, a: nat, n: nat): nat
    requires r in vm.spaces
    decreases n
  {
    if n == 0 then 0 else
      (match VByte(vm, r, a) case Some(b) => b case None => 0) + 256 * LoadLe(vm, r, a + 1, n - 1)
  }

  // The bytes up to the first NUL.
  ghost function CString(vm: Vm, r: nat, a: nat): seq<Byte>
    requires r in vm.spaces
    decreases USER_TOP - a
  {
    if a >= USER_TOP then [] else
      match VByte(vm, r, a)
      case None => []
      case Some(b) => if b == 0 then [] else [b] + CString(vm, r, a + 1)
  }

  lemma {:induction false} LoadReads(vm: Vm, r: nat, a: nat, x: nat, n: nat)
    requires r in vm.spaces && x < Pow256(n) && BytesAt(vm, r, a, LeBytes(x, n))
    ensures LoadLe(vm, r, a, n) == x
    decreases n
  {
    hide VByte;
    if n > 0 {
      var s, t := LeBytes(x, n), LeBytes(x / 256, n - 1);
      assert VByte(vm, r, a + 0) == Some(s[0]);
      assert BytesAt(vm, r, a + 1, t) by {
        forall k | 0 <= k < |t| ensures VByte(vm, r, a + 1 + k) == Some(t[k]) {
          assert VByte(vm, r, a + (k + 1)) == Some(s[k + 1]);
        }
      }
      LoadReads(vm, r, a + 1, x / 256, n - 1);
    }
  }

  lemma {:induction false} CStringReads(vm: Vm, r: nat, a: nat, s: seq<Byte>)
    requires r in vm.spaces && a + |s| < USER_TOP && 0 !in s && BytesAt(vm, r, a, s + [0])
    ensures CString(vm, r, a) == s
    decreases |s|
  {
    hide VByte;
    assert VByte(vm, r, a + 0) == Some((s + [0])[0]);
    if s != [] {
      var t := s[1..];
      assert BytesAt(vm, r, a + 1, t + [0]) by {
        forall k | 0 <= k < |t| + 1 ensures VByte(vm, r, a + 1 + k) == Some((t + [0])[k]) {
          assert VByte(vm, r, a + (k + 1)) == Some((s + [0])[k + 1]);
        }
      }
      CStringReads(vm, r, a + 1, t);
      assert s == [s[0]] + t;
    }
  }

  // Words laid out one after the other.
  function FrameBytes(ws: seq<nat>): (s: seq<Byte>)
    ensures |s| == 8 * |ws|
  {
    if ws == [] then [] else LeBytes(ws[0], 8) + FrameBytes(ws[1..])
  }

  // Address of word `k` of a frame at `a`.
  function Slot(a: nat, k: nat): nat { a + 8 * k }

  lemma {:induction false} FrameReads(vm: Vm, r: nat, a: nat, ws: seq<nat>, k: nat)
    requires r in vm.spaces && BytesAt(vm, r, a, FrameBytes(ws)) && k < |ws| && ws[k] < Pow256(8)
    ensures LoadLe(vm, r, Slot(a, k), 8) == ws[k]
    decreases k
  {
    hide VByte, LeBytes, Pow256, LoadLe;
    var s := FrameBytes(ws);
    if k == 0 {
      var t := LeBytes(ws[0], 8);
      forall j | 0 <= j < 8 ensures VByte(vm, r, a + j) == Some(t[j]) { assert s[j] == t[j]; }
      LoadReads(vm, r, a, ws[0], 8);
    } else {
      var t := FrameBytes(ws[1..]);
      forall j | 0 <= j < |t| ensures VByte(vm, r, a + 8 + j) == Some(t[j]) { assert s[8 + j] == t[j]; }
      FrameReads(vm, r, a + 8, ws[1..], k - 1);
    }
  }

  // ---- the stack -------------------------------------------------------------------------------

  lemma WroteReads(a: Vm, b: Vm, r: nat, dst: nat, src: seq<Byte>)
    requires Wrote(a, b, r, dst, src) && dst + |src| <= USER_TOP
    ensures r in b.spaces && BytesAt(b, r, dst, src)
  {
    hide VByte, Pages, FlatOf;
  }

  // Bytes outside the written range survive.
  lemma WroteSpares(a: Vm, b: Vm, r: nat, dst: nat, src: seq<Byte>, at: nat, s: seq<Byte>)
    requires Wrote(a, b, r, dst, src) && r in b.spaces && BytesAt(a, r, at, s) && at + |s| <= USER_TOP
    requires at + |s| <= dst || dst + |src| <= at
    ensures BytesAt(b, r, at, s)
  {
    hide VByte, Pages, FlatOf;
  }

  const STACK_BYTES: nat := 16384  // four pages

  ghost predicate MappedRange(vm: Vm, r: nat, lo: nat, hi: nat)
    requires r in vm.spaces
  {
    forall x :: lo <= x < hi ==> PathOf(x) in FlatOf(vm, r)
  }

  // The four stack pages are mapped.
  ghost predicate StackMapped(vm: Vm, r: nat)
    requires r in vm.spaces
  {
    MappedRange(vm, r, USER_STACK_TOP - STACK_BYTES, USER_STACK_TOP)
  }

  lemma SameRanges(a: Vm, b: Vm, r: nat)
    requires r in a.spaces && SameMaps(a, b)
    ensures r in b.spaces && FlatOf(b, r) == FlatOf(a, r)
    ensures forall lo: nat, hi: nat :: MappedRange(b, r, lo, hi) <==> MappedRange(a, r, lo, hi)
  {
    hide FlatOf, PathOf;
  }

  // Below `sp` and above the stack, no byte changed.
  ghost predicate OnlyAbove(a: Vm, b: Vm, r: nat, sp: nat)
    requires r in a.spaces && r in b.spaces
  {
    forall x :: 0 <= x < USER_TOP && !(sp <= x < USER_STACK_TOP) ==> VByte(b, r, x) == VByte(a, r, x)
  }

  lemma AboveStep(a: Vm, b: Vm, c: Vm, r: nat, sp: nat, dst: nat, src: seq<Byte>)
    requires r in a.spaces && r in b.spaces && r in c.spaces && dst <= sp && dst + |src| <= USER_STACK_TOP
    requires OnlyAbove(a, b, r, sp) && Wrote(b, c, r, dst, src)
    ensures OnlyAbove(a, c, r, dst)
  {
    hide VByte, FlatOf, Pages;
  }

  function TotalLen(argv: seq<seq<Byte>>): nat {
    if argv == [] then 0 else |argv[0]| + 1 + TotalLen(argv[1..])
  }

  // The strings are on the stack, at or above `sp`, from argument `i` on.
  ghost predicate StringsAt(vm: Vm, r: nat, argv: seq<seq<Byte>>, ptrs: seq<nat>, i: nat, sp: nat)
    requires r in vm.spaces && |ptrs| == |argv|
  {
    forall j :: i <= j < |argv| ==>
      sp <= ptrs[j] && ptrs[j] + |argv[j]| + 1 <= USER_STACK_TOP && BytesAt(vm, r, ptrs[j], argv[j] + [0])
  }

  lemma StringsKept(a: Vm, b: Vm, r: nat, argv: seq<seq<Byte>>, ptrs: seq<nat>, i: nat, sp: nat, dst: nat,
      src: seq<Byte>)
    requires r in a.spaces && r in b.spaces && |ptrs| == |argv| && StringsAt(a, r, argv, ptrs, i, sp)
    requires Wrote(a, b, r, dst, src) && dst + |src| <= sp
    ensures StringsAt(b, r, argv, ptrs, i, sp)
  {
    hide Wrote, BytesAt;
    forall j | i <= j < |argv| ensures BytesAt(b, r, ptrs[j], argv[j] + [0]) {
      WroteSpares(a, b, r, dst, src, ptrs[j], argv[j] + [0]);
    }
  }

  lemma {:induction false} TotalLenSuffix(argv: seq<seq<Byte>>, i: nat)
    requires i < |argv|
    ensures TotalLen(argv[i..]) == |argv[i]| + 1 + TotalLen(argv[i + 1..])
  {
    assert argv[i..][1..] == argv[i + 1..];
  }

  /** Copies the strings, last argument first, downwards from the top of the stack. */
  method PushStrings(m: AddressSpaceManager, space: nat, argv: seq<seq<Byte>>)
    returns (ok: bool, sp: nat, ptrs: seq<nat>)
    requires m.Valid() && space in m.spaces && AllData(m.State(), space)
    requires TotalLen(argv) < USER_STACK_TOP
    modifies m`mem, m`spaces, m.pmm`free, m.pmm`freePages, m.pmm.bitmap
    ensures m.Valid() && space in m.spaces && AllData(m.State(), space)
    ensures SameMaps(old(m.State()), m.State()) && Balanced(old(m.State()), m.State(), space, {})
    ensures ok ==> |ptrs| == |argv| && StringsAt(m.State(), space, argv, ptrs, 0, sp)
    ensures ok ==> sp == USER_STACK_TOP - TotalLen(argv)
    ensures ok ==>
      OnlyAbove(old(m.State()), m.State(), space, sp) && MappedRange(old(m.State()), space, sp, USER_STACK_TOP)
    ensures StackMapped(old(m.State()), space) && TotalLen(argv) <= STACK_BYTES ==> ok
    ensures Paid(old(m.State()), m.State(), space, {}, 0, true)
  {
    hide OnlyAbove, Ok, InRange, SharedHalf, Pmm.Allocator.Valid, AllData, Wrote, SameMaps, Balanced, StringsAt;
    hide BytesAt, PathOf, FlatOf, TotalLen, Paid;
    ghost var a := m.State();
    BalancedNow(a, space);
    PaidNow(a, space);
    sp := USER_STACK_TOP;
    ptrs := seq(|argv|, _ => 0);
    var i := |argv|;
    SameMapsNow(a);
    NoStrings(a, space, argv, ptrs, sp);
    AboveNow(a, space, sp);
    while i > 0
      invariant 0 <= i <= |argv| == |ptrs| && sp == USER_STACK_TOP - TotalLen(argv[i..])
      invariant m.Valid() && space in m.spaces && AllData(m.State(), space)
      invariant SameMaps(a, m.State()) && Balanced(a, m.State(), space, {}) && Paid(a, m.State(), space, {}, 0, true)
      invariant StringsAt(m.State(), space, argv, ptrs, i, sp)
      invariant OnlyAbove(a, m.State(), space, sp) && MappedRange(a, space, sp, USER_STACK_TOP)
    {
      i := i - 1;
      TotalLenSuffix(argv, i);
      TotalLenFits(argv, i);
      var s, top := argv[i], sp;
      sp := sp - (|s| + 1);
      ghost var b := m.State();
      ghost var n1, n2: nat;
      SameRanges(a, b, space);
      ok, n1 := UstackWrite(m, space, sp, s);
      ghost var c := m.State();
      PaidSame(a, b, c, space, {}, 0);
      Kept(a, b, c, space, sp, s[..n1]);
      SameRanges(a, c, space);
      if !ok { return; }
      assert s[..n1] == s;
      ok, n2 := UstackWrite(m, space, sp + |s|, [0]);
      ghost var d := m.State();
      PaidSame(a, c, d, space, {}, 0);
      Kept(a, c, d, space, sp + |s|, [0][..n2]);
      if !ok { return; }
      assert [0][..n2] == [0];
      WroteTrans(b, c, d, space, sp, s, [0]);
      AboveStep(a, b, d, space, top, sp, s + [0]);
      PushedString(b, d, space, argv, ptrs, i, sp, top);
      ptrs := ptrs[i := sp];
    }
    assert argv[0..] == argv;
    ok := true;
  }

  lemma AboveNow(a: Vm, r: nat, sp: nat)
    requires r in a.spaces
    ensures OnlyAbove(a, a, r, sp)
  {
  }

  lemma SameMapsNow(a: Vm)
    ensures SameMaps(a, a)
  {
  }

  lemma NoStrings(a: Vm, r: nat, argv: seq<seq<Byte>>, ptrs: seq<nat>, sp: nat)
    requires r in a.spaces && |ptrs| == |argv| && sp == USER_STACK_TOP
    ensures StringsAt(a, r, argv, ptrs, |argv|, sp) && sp == USER_STACK_TOP - TotalLen(argv[|argv|..])
  {
  }

  lemma {:induction false} TotalLenFits(argv: seq<seq<Byte>>, i: nat)
    requires i <= |argv|
    ensures TotalLen(argv[i..]) <= TotalLen(argv)
  {
    if i == 0 {
      assert argv[0..] == argv;
    } else {
      TotalLenFits(argv, i - 1);
      TotalLenSuffix(argv, i - 1);
    }
  }

  // Writing user memory keeps maps and books.
  lemma Kept(a: Vm, b: Vm, c: Vm, r: nat, dst: nat, src: seq<Byte>)
    requires Ok(b) && SameMaps(a, b) && Balanced(a, b, r, {}) && Wrote(b, c, r, dst, src)
    ensures SameMaps(a, c) && Balanced(a, c, r, {})
  {
    WroteBalanced(b, c, r, dst, src);
    BalancedTwice(a, b, c, r);
    hide Balanced, VByte, FlatOf, Ok, Pages;
  }

  lemma PushedString(b: Vm, d: Vm, r: nat, argv: seq<seq<Byte>>, prev: seq<nat>, i: nat, sp: nat, top: nat)
    requires r in b.spaces && r in d.spaces && i < |argv| == |prev| && top <= USER_STACK_TOP
    requires sp + |argv[i]| + 1 == top
    requires StringsAt(b, r, argv, prev, i + 1, top)
    requires Wrote(b, d, r, sp, argv[i] + [0])
    ensures StringsAt(d, r, argv, prev[i := sp], i, sp)
  {
    hide Wrote, BytesAt;
    var ptrs := prev[i := sp];
    assert StringsAt(b, r, argv, ptrs, i + 1, top);
    StringsKept(b, d, r, argv, ptrs, i + 1, top, sp, argv[i] + [0]);
    WroteReads(b, d, r, sp, argv[i] + [0]);
  }

  // The entry frame: argc, the argument pointers, a null pointer.
  function EntryFrame(ptrs: seq<nat>): seq<nat> { [|ptrs|] + ptrs + [0] }

  // Argument `i` is found through its pointer, above the frame and below the top of the stack.
  ghost predicate ArgReads(vm: Vm, r: nat, sp: nat, argv: seq<seq<Byte>>, i: nat)
    requires r in vm.spaces && i < |argv|
  {
    var p := LoadLe(vm, r, Slot(sp, i + 1), 8);
    && Slot(sp, |argv| + 2) <= p && p + |argv[i]| + 1 <= USER_STACK_TOP
    && BytesAt(vm, r, p, argv[i] + [0])
    && (0 !in argv[i] ==> CString(vm, r, p) == argv[i])
  }

  /** The stack as the process finds it: the user-side reader recovers argc, every argument and the
      terminating null; the frame lies below the strings and rsp is 16-aligned. */
  ghost predicate ArgvReads(vm: Vm, r: nat, sp: nat, argv: seq<seq<Byte>>)
    requires r in vm.spaces
  {
    && sp % 16 == 0 && LoadLe(vm, r, Slot(sp, 0), 8) == |argv| && LoadLe(vm, r, Slot(sp, |argv| + 1), 8) == 0
    && forall i :: 0 <= i < |argv| ==> ArgReads(vm, r, sp, argv, i)
  }

  lemma ReadsBack(a: Vm, b: Vm, r: nat, argv: seq<seq<Byte>>, ptrs: seq<nat>, top: nat, sp: nat)
    requires r in a.spaces && r in b.spaces && |ptrs| == |argv| <= ARG_MAX && top <= USER_STACK_TOP
    requires StringsAt(a, r, argv, ptrs, 0, top) && sp % 16 == 0 && sp + 8 * (|argv| + 2) <= top
    requires Wrote(a, b, r, sp, FrameBytes(EntryFrame(ptrs)))
    ensures ArgvReads(b, r, sp, argv)
  {
    hide Wrote, BytesAt, FrameBytes, LoadLe, CString;
    var ws := EntryFrame(ptrs);
    WroteReads(a, b, r, sp, FrameBytes(ws));
    StringsKept(a, b, r, argv, ptrs, 0, top, sp, FrameBytes(ws));
    assert Pow256(8) > USER_STACK_TOP;
    FrameReads(b, r, sp, ws, 0);
    FrameReads(b, r, sp, ws, |argv| + 1);
    forall i | 0 <= i < |argv| ensures ArgReads(b, r, sp, argv, i) {
      assert ws[i + 1] == ptrs[i];
      FrameReads(b, r, sp, ws, i + 1);
      if 0 !in argv[i] { CStringReads(b, r, ptrs[i], argv[i]); }
    }
  }

  // The arguments that are passed on.
  function Args(argv: seq<seq<Byte>>): (r: seq<seq<Byte>>)
    ensures r <= argv && (|argv| <= 16 ==> r == argv) && (|argv| > 16 ==> |r| == 16)
  {
    if |argv| <= ARG_MAX then argv else argv[..ARG_MAX]
  }

  lemma FrameMapped(vm: Vm, r: nat, sp: nat, n: nat)
    requires r in vm.spaces && StackMapped(vm, r) && USER_STACK_TOP - STACK_BYTES <= sp && sp + n <= USER_STACK_TOP
    ensures forall x :: sp <= x < sp + n ==> PathOf(x) in FlatOf(vm, r)
  {
  }

  // Where the entry frame starts: below the strings, 16-aligned.
  function EntrySp(args: seq<seq<Byte>>): int {
    (USER_STACK_TOP - TotalLen(args)) / 16 * 16 - ((|args| + 2) * 8 + 15) / 16 * 16
  }

  // Strings and entry frame fit the four stack pages.
  predicate Fits(argv: seq<seq<Byte>>) { USER_STACK_TOP - STACK_BYTES <= EntrySp(Args(argv)) }

  /** Builds the initial stack. Arguments beyond the sixteenth are dropped. */
  method BuildStack(m: AddressSpaceManager, space: nat, argv: seq<seq<Byte>>) returns (ok: bool, sp: nat)
    requires m.Valid() && space in m.spaces && AllData(m.State(), space)
    requires TotalLen(argv) + 0x1000 < USER_STACK_TOP
    modifies m`mem, m`spaces, m.pmm`free, m.pmm`freePages, m.pmm.bitmap
    ensures m.Valid() && space in m.spaces && AllData(m.State(), space)
    ensures SameMaps(old(m.State()), m.State()) && Balanced(old(m.State()), m.State(), space, {})
    ensures ok ==> ArgvReads(m.State(), space, sp, Args(argv))
    ensures ok ==> OnlyAbove(old(m.State()), m.State(), space, sp)
    ensures ok ==> sp < USER_STACK_TOP && PathOf(sp) in FlatOf(old(m.State()), space)
    ensures ok ==> MappedRange(old(m.State()), space, sp + 256, USER_STACK_TOP)
    ensures ok ==> sp == EntrySp(Args(argv))
    ensures StackMapped(old(m.State()), space) && Fits(argv) ==> ok
    ensures Paid(old(m.State()), m.State(), space, {}, 0, true)
  {
    hide MappedRange, OnlyAbove, Ok, InRange, SharedHalf, Pmm.Allocator.Valid, AllData, Wrote, SameMaps, Balanced;
    hide StringsAt, ArgvReads, PathOf, FlatOf, TotalLen, FrameBytes, Paid;
    ghost var a := m.State();
    var args := Args(argv);
    TotalLenPrefix(argv, |args|);
    var ptrs;
    ok, sp, ptrs := PushStrings(m, space, args);
    if !ok { return; }
    ghost var b, top := m.State(), sp;
    var block := ((|args| + 2) * 8 + 15) / 16 * 16;
    sp := sp / 16 * 16 - block;
    ghost var n: nat;
    SameRanges(a, b, space);
    if StackMapped(b, space) && USER_STACK_TOP - STACK_BYTES <= sp {
      FrameMapped(b, space, sp, |FrameBytes(EntryFrame(ptrs))|);
    }
    ok, n := UstackWrite(m, space, sp, FrameBytes(EntryFrame(ptrs)));
    PaidSame(a, b, m.State(), space, {}, 0);
    Kept(a, b, m.State(), space, sp, FrameBytes(EntryFrame(ptrs))[..n]);
    if !ok { return; }
    assert FrameBytes(EntryFrame(ptrs))[..n] == FrameBytes(EntryFrame(ptrs));
    ReadsBack(b, m.State(), space, args, ptrs, top, sp);
    AboveStep(a, b, m.State(), space, top, sp, FrameBytes(EntryFrame(ptrs)));
    SubRange(a, space, top, sp + 256, USER_STACK_TOP);
  }

  lemma SubRange(vm: Vm, r: nat, lo: nat, lo': nat, hi: nat)
    requires r in vm.spaces && MappedRange(vm, r, lo, hi) && lo <= lo'
    ensures MappedRange(vm, r, lo', hi)
  {
  }

  lemma {:induction false} TotalLenPrefix(argv: seq<seq<Byte>>, n: nat)
    requires n <= |argv|
    ensures TotalLen(argv[..n]) <= TotalLen(argv) && (n == |argv| ==> argv[..n] == argv)
  {
    if n > 0 {
      assert argv[..n][1..] == argv[1..][..n - 1];
      TotalLenPrefix(argv[1..], n - 1);
    }
  }
}
