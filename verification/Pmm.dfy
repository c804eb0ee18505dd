/**
 The physical page allocator (kernel-rs/src/mm/pmm.rs): a bitmap of 2048 words, one bit
 per 4 KiB page, bit set = page free. `free` is the set of free page numbers the bitmap
 stands for; every operation is specified by what it does to that set.
 */
module Pmm {
  import opened Bits

  const PAGE_SIZE: nat := 4096
  const BITMAP_PAGES: nat := 131072
  const BITMAP_WORDS: nat := 2048
  const WORD_BITS: nat := 64

  // One entry of the boot loader's memory map.
  datatype MemEntry = MemEntry(base: nat, length: nat, usable: bool)

  // First page number at or above `addr`.
  function PageUp(addr: nat): nat { (addr + PAGE_SIZE - 1) / PAGE_SIZE }

  function EndPage(e: MemEntry): (r: nat)
    ensures r <= BITMAP_PAGES
  {
    var end := (e.base + e.length) / PAGE_SIZE;
    if end > BITMAP_PAGES then BITMAP_PAGES else end
  }

  // The pages lying wholly inside a usable entry and below the 512 MiB cap.
  predicate InEntry(e: MemEntry, p: nat) {
    e.usable && e.base <= p * PAGE_SIZE && (p + 1) * PAGE_SIZE <= e.base + e.length && p < BITMAP_PAGES
  }

  // The pages an entry contributes.
  ghost function EntryPages(e: MemEntry): (r: set<nat>)
    ensures forall p: nat :: p in r <==> InEntry(e, p)
  {
    if e.usable && PageUp(e.base) < EndPage(e) then Run(PageUp(e.base), EndPage(e) - PageUp(e.base)) else {}
  }

  ghost function UsablePages(es: seq<MemEntry>): set<nat> {
    if es == [] then {} else UsablePages(es[..|es| - 1]) + EntryPages(es[|es| - 1])
  }

  ghost function EntryCount(e: MemEntry): nat {
    if e.usable && PageUp(e.base) < EndPage(e) then EndPage(e) - PageUp(e.base) else 0
  }

  ghost function TotalCount(es: seq<MemEntry>): nat {
    if es == [] then 0 else TotalCount(es[..|es| - 1]) + EntryCount(es[|es| - 1])
  }

  // No page lies in two usable entries.
  ghost predicate PageDisjoint(es: seq<MemEntry>) {
    forall i, j, p: nat :: 0 <= i < j < |es| && InEntry(es[i], p) ==> !InEntry(es[j], p)
  }

  lemma {:induction false} UsableIff(es: seq<MemEntry>, p: nat)
    ensures p in UsablePages(es) <==> exists i :: 0 <= i < |es| && InEntry(es[i], p)
  {
    if es != [] {
      var init, last := es[..|es| - 1], es[|es| - 1];
      UsableIff(init, p);
      assert p in UsablePages(es) <==> p in UsablePages(init) || InEntry(last, p);
      assert forall i :: 0 <= i < |init| ==> es[i] == init[i];
    }
  }

  lemma DisjointSnoc(es: seq<MemEntry>, e: MemEntry)
    ensures PageDisjoint(es + [e]) <==> PageDisjoint(es) && UsablePages(es) !! EntryPages(e)
  {
    var f := es + [e];
    forall p: nat { UsableIff(es, p); }
    if PageDisjoint(f) {
      forall i, j, p: nat | 0 <= i < j < |es| && InEntry(es[i], p) ensures !InEntry(es[j], p) {
        assert InEntry(f[i], p) && f[j] == es[j];
      }
      forall p | p in UsablePages(es) ensures p !in EntryPages(e) {
        var i :| 0 <= i < |es| && InEntry(es[i], p);
        assert InEntry(f[i], p) && f[|es|] == e;
      }
    }
    if PageDisjoint(es) && UsablePages(es) !! EntryPages(e) {
      forall i, j, p: nat | 0 <= i < j < |f| && InEntry(f[i], p) ensures !InEntry(f[j], p) {
        assert InEntry(es[i], p) && p in UsablePages(es);
      }
    }
  }

  lemma UnionSize(a: set<nat>, b: set<nat>)
    ensures |a + b| <= |a| + |b|
    ensures |a + b| == |a| + |b| <==> a !! b
  {
    assert |a + b| + |a * b| == |a| + |b|;
    assert a !! b ==> a * b == {};
    if a * b == {} { assert forall x :: x in a && x in b ==> x in a * b; }
  }

  // Counting entry by entry counts the pages exactly when the entries share none.
  lemma {:induction false} CountIffDisjoint(es: seq<MemEntry>)
    ensures |UsablePages(es)| <= TotalCount(es)
    ensures |UsablePages(es)| == TotalCount(es) <==> PageDisjoint(es)
  {
    if es != [] {
      var init, last := es[..|es| - 1], es[|es| - 1];
      assert es == init + [last];
      CountIffDisjoint(init);
      DisjointSnoc(init, last);
      UnionSize(UsablePages(init), EntryPages(last));
      if EntryCount(last) > 0 { RunSize(PageUp(last.base), EntryCount(last)); }
    }
  }

  lemma TwoPages(e: MemEntry, p: nat)
    requires e.usable && e.base == p * 4096 && e.length == 8192 && p + 2 <= BITMAP_PAGES
    ensures EntryPages(e) == {p, p + 1} && EntryCount(e) == 2
    ensures InEntry(e, p) && InEntry(e, p + 1)
  {
    hide Run;
    assert forall q: nat :: InEntry(e, q) <==> q == p || q == p + 1;
    assert PageUp(e.base) == p && EndPage(e) == p + 2;
  }

  /** Two entries that share page 2: four pages are counted, three are free. */
  lemma OverlapExample()
    ensures var es := [MemEntry(4096, 8192, true), MemEntry(8192, 8192, true)];
      UsablePages(es) == {1, 2, 3} && TotalCount(es) == 4 && !PageDisjoint(es)
  {
    hide EntryPages, EntryCount, InEntry;
    var a, b := MemEntry(4096, 8192, true), MemEntry(8192, 8192, true);
    var es := [a, b];
    assert es[..1] == [a] && [a][..0] == [];
    TwoPages(a, 1);
    TwoPages(b, 2);
    assert UsablePages([a]) == {1, 2} && TotalCount([a]) == 2;
    assert InEntry(es[0], 2) && InEntry(es[1], 2);
  }

  ghost predicate IsRun(free: set<nat>, start: nat, count: nat) {
    start + count <= BITMAP_PAGES && forall k :: start <= k < start + count ==> k in free
  }

  // The answer of a naive scan: the lowest start of `count` consecutive free pages.
  ghost predicate IsLowestRun(free: set<nat>, start: nat, count: nat) {
    IsRun(free, start, count) && forall s: nat :: s < start ==> !IsRun(free, s, count)
  }

  ghost function Run(start: nat, count: nat): (r: set<nat>)
    ensures forall k: nat :: k in r <==> start <= k < start + count
  {
    if count == 0 then {} else Run(start, count - 1) + {start + count - 1}
  }

  lemma {:induction false} RunSize(start: nat, count: nat)
    ensures |Run(start, count)| == count
  {
    if count > 0 { RunSize(start, count - 1); }
  }

  lemma TakeRun(a: set<nat>, start: nat, count: nat)
    requires Run(start, count) <= a
    ensures |a - Run(start, count)| == |a| - count
  {
    RunSize(start, count);
    assert a == (a - Run(start, count)) + Run(start, count);
  }

  class Allocator {
    const bitmap: array<nat>
    var freePages: nat
    var totalPages: nat
    var badFrees: nat          // rejected calls of FreePage, which the kernel only logs
    ghost var free: set<nat>

    ghost predicate BitmapOk()
      reads this`free, bitmap
    {
      && bitmap.Length == BITMAP_WORDS
      && (forall w :: 0 <= w < BITMAP_WORDS ==> bitmap[w] < Pow2(WORD_BITS))
      && (forall i :: i in free ==> i < BITMAP_PAGES)
      && (forall w: nat, b: nat {:trigger Bit(bitmap[w], b)} :: w < BITMAP_WORDS && b < WORD_BITS ==>
            (w * WORD_BITS + b in free <==> Bit(bitmap[w], b)))
    }

    ghost predicate Valid()
      reads this`free, this`freePages, bitmap
    {
      BitmapOk() && freePages == |free|
    }

    constructor ()
      ensures Valid() && fresh(bitmap) && free == {} && freePages == 0 && badFrees == 0
    {
      bitmap := new nat[BITMAP_WORDS](_ => 0);
      freePages, totalPages, badFrees, free := 0, 0, 0, {};
      new;
      forall i: nat ensures !Bit(0, i) { ZeroReads(i); }
    }

    method BmSet(i: nat)
      requires BitmapOk() && i < BITMAP_PAGES
      modifies this`free, bitmap
      ensures BitmapOk() && free == old(free) + {i}
    {
      hide Bit, Pow2, SetBit;
      var w := i / WORD_BITS;
      SetBitInWord(bitmap[w], i % WORD_BITS, WORD_BITS);
      forall j: nat | j < WORD_BITS
        ensures Bit(SetBit(bitmap[w], i % WORD_BITS), j) <==> i % WORD_BITS == j || Bit(bitmap[w], j)
      {
        SetBitReads(bitmap[w], i % WORD_BITS, j);
      }
      bitmap[w] := SetBit(bitmap[w], i % WORD_BITS);
      free := free + {i};
    }

    method BmClear(i: nat)
      requires BitmapOk() && i < BITMAP_PAGES
      modifies this`free, bitmap
      ensures BitmapOk() && free == old(free) - {i}
    {
      hide Bit, Pow2;
      var w := i / WORD_BITS;
      forall j: nat | j < WORD_BITS
        ensures Bit(ClearBit(bitmap[w], i % WORD_BITS), j) <==> i % WORD_BITS != j && Bit(bitmap[w], j)
      {
        ClearBitReads(bitmap[w], i % WORD_BITS, j);
      }
      bitmap[w] := ClearBit(bitmap[w], i % WORD_BITS);
      free := free - {i};
    }

    predicate BmTest(i: nat)
      reads this`free, bitmap
      requires BitmapOk() && i < BITMAP_PAGES
      ensures BmTest(i) <==> i in free
    {
      Bit(bitmap[i / WORD_BITS], i % WORD_BITS)
    }

    // Frees the pages from..to one by one, counting each.
    method InitRange(from: nat, to: nat)
      requires BitmapOk() && from <= to <= BITMAP_PAGES
      modifies this`free, this`freePages, this`totalPages, bitmap
      ensures BitmapOk() && free == old(free) + Run(from, to - from)
      ensures freePages == old(freePages) + (to - from)
    {
      hide BitmapOk, Run;
      for p := from to to
        invariant BitmapOk() && free == old(free) + Run(from, p - from)
        invariant freePages == old(freePages) + (p - from)
      {
        assert Run(from, p + 1 - from) == Run(from, p - from) + {p};
        BmSet(p);
        freePages := freePages + 1;
        totalPages := totalPages + 1;
      }
    }

    // The loop of Init over the memory map.
    method InitEntries(entries: seq<MemEntry>)
      requires BitmapOk() && free == {} && freePages == 0
      modifies this`free, this`freePages, this`totalPages, bitmap
      ensures BitmapOk() && free == UsablePages(entries) && freePages == TotalCount(entries)
    {
      hide BitmapOk, PageUp, EndPage, InEntry;
      for i := 0 to |entries|
        invariant BitmapOk()
        invariant free == UsablePages(entries[..i]) && freePages == TotalCount(entries[..i])
      {
        var e := entries[i];
        assert entries[..i + 1][..i] == entries[..i];
        if e.usable && PageUp(e.base) < EndPage(e) {
          InitRange(PageUp(e.base), EndPage(e));
        }
      }
      assert entries[..|entries|] == entries;
    }

    /** Start-up: every page wholly inside a usable entry becomes free. The free counter
        counts pages exactly when no page lies in two usable entries. */
    method Init(entries: seq<MemEntry>)
      requires Valid() && free == {}
      modifies this`free, this`freePages, this`totalPages, bitmap
      ensures BitmapOk() && free == UsablePages(entries)
      ensures Valid() <==> PageDisjoint(entries)
    {
      hide BitmapOk, UsablePages, TotalCount, PageDisjoint;
      InitEntries(entries);
      CountIffDisjoint(entries);
    }

    /** The lowest free page, as a page number; 0 when there is none. */
    method AllocPage() returns (f: nat)
      requires Valid()
      modifies this`free, this`freePages, bitmap
      ensures Valid()
      ensures old(free) == {} ==> f == 0 && free == {}
      ensures old(free) != {} ==> f in old(free) && f < BITMAP_PAGES && (forall s :: s in old(free) ==> f <= s)
      ensures old(free) != {} ==> free == old(free) - {f}
    {
      for w := 0 to BITMAP_WORDS
        invariant Valid() && free == old(free)
        invariant forall i :: i in free ==> i >= w * WORD_BITS
      {
        var word := bitmap[w];
        if word == 0 {
          forall i | i in free ensures i >= (w + 1) * WORD_BITS {
            if i < (w + 1) * WORD_BITS {
              assert !Bit(bitmap[w], i - w * WORD_BITS) by { ZeroReads(i - w * WORD_BITS); }
              assert false;
            }
          }
          continue;
        }
        var bit := TrailingZeros(word, WORD_BITS);
        var idx := w * WORD_BITS + bit;
        forall s | s in free ensures idx <= s {
          if s < idx {
            assert s == w * WORD_BITS + (s - w * WORD_BITS);
            assert !Bit(bitmap[w], s - w * WORD_BITS);
            assert false;
          }
        }
        BmClear(idx);
        freePages := freePages - 1;
        return idx;
      }
      assert free == {};
      return 0;
    }

    /** The skip-ahead scan for `count` consecutive free pages, run to its end: it finds what a scan of every
        start would find, and fails only when no run exists. It has an end for alignments below two pages, and
        with page 0 in use exactly for the counts ScanEndsIff names otherwise. */
    method FindRun(count: nat, align: nat) returns (found: bool, i: nat, ghost steps: nat)
      requires Valid() && (align < 2 * PAGE_SIZE || (0 !in free && (count == 0 || count >= BITMAP_PAGES)))
      ensures found ==> IsLowestRun(free, i, count)
      ensures !found ==> forall s: nat :: !IsRun(free, s, count)
      ensures ScanSteps(free, count, AlignPages(align), steps) == if found then Found(i) else Exhausted
    {
      hide BitmapOk, ScanSteps, FreeFrom, AlignPages;
      var alignPages := AlignPages(align);
      i, steps := 0, 0;
      ScanStarts(free, count, alignPages);
      while i + count <= BITMAP_PAGES
        invariant forall s: nat :: s < i ==> !IsRun(free, s, count)
        invariant ScanSteps(free, count, alignPages, steps) == At(i)
        invariant alignPages == 1 || i == 0 || i + count > BITMAP_PAGES
      {
        var j := FreeAhead(i, count);
        ScanTests(free, count, alignPages, steps, i);
        steps := steps + 1;
        if j == count { return true, i, steps; }
        assert i + j !in free;
        i := i + j + 1;
      }
      ScanRunsOut(free, count, alignPages, steps, i);
      return false, i, steps + 1;
    }

    // Counts free pages from `i` on, at most `count`.
    method FreeAhead(i: nat, count: nat) returns (j: nat)
      requires Valid() && i + count <= BITMAP_PAGES
      ensures j == FreeFrom(free, i, count)
    {
      hide FreeFrom;
      j := 0;
      while j < count && BmTest(i + j)
        invariant j <= count
        invariant forall k :: i <= k < i + j ==> k in free
      {
        j := j + 1;
      }
      FreeFromIs(free, i, count, j);
    }

    method ClearRun(start: nat, count: nat)
      requires BitmapOk() && start + count <= BITMAP_PAGES
      modifies this`free, bitmap
      ensures BitmapOk() && free == old(free) - Run(start, count)
    {
      hide BitmapOk, Run;
      for k := 0 to count
        invariant BitmapOk() && free == old(free) - Run(start, k)
      {
        assert Run(start, k + 1) == Run(start, k) + {start + k};
        BmClear(start + k);
      }
    }

    /** `count` consecutive pages, as the number of the first; 0 when no run exists. */
    method AllocPages(count: nat, align: nat) returns (f: nat)
      requires Valid() && (align < 2 * PAGE_SIZE || (0 !in free && (count == 0 || count >= BITMAP_PAGES)))
      modifies this`free, this`freePages, bitmap
      ensures Valid()
      ensures (forall s: nat :: !IsRun(old(free), s, count)) ==> f == 0 && free == old(free)
      ensures (exists s: nat :: IsRun(old(free), s, count)) ==>
        IsLowestRun(old(free), f, count) && free == old(free) - Run(f, count)
    {
      hide BitmapOk, Run;
      var found, i, _ := FindRun(count, align);
      if !found { return 0; }
      TakeRun(free, i, count);
      ClearRun(i, count);
      freePages := freePages - count;
      return i;
    }

    method FreePage(pa: nat)
      requires Valid()
      modifies this`free, this`freePages, this`badFrees, bitmap
      ensures Valid()
      ensures (pa % PAGE_SIZE == 0 && pa / PAGE_SIZE < BITMAP_PAGES && pa / PAGE_SIZE !in old(free))
        ==> free == old(free) + {pa / PAGE_SIZE} && badFrees == old(badFrees)
      ensures !(pa % PAGE_SIZE == 0 && pa / PAGE_SIZE < BITMAP_PAGES && pa / PAGE_SIZE !in old(free))
        ==> free == old(free) && badFrees == old(badFrees) + 1
    {
      var idx := pa / PAGE_SIZE;
      if pa % PAGE_SIZE != 0 || idx >= BITMAP_PAGES || BmTest(idx) {
        badFrees := badFrees + 1;
        return;
      }
      BmSet(idx);
      freePages := freePages + 1;
    }
  }

  // ---- the run scan, one step at a time ------------------------------------------------------

  datatype Scan = At(i: nat) | Found(start: nat) | Exhausted

  // Alignments are rounded up to a page, then counted in pages.
  function AlignPages(align: nat): (r: nat)
    ensures r >= 1 && (r == 1 <==> align < 2 * PAGE_SIZE)
  {
    (if align > PAGE_SIZE then align else PAGE_SIZE) / PAGE_SIZE
  }

  // The number of free pages from `i` on, up to `count`.
  function FreeFrom(free: set<nat>, i: nat, count: nat): (j: nat)
    ensures j <= count && (j < count ==> i + j !in free) && forall k :: i <= k < i + j ==> k in free
    decreases count
  {
    if count == 0 || i !in free then 0 else 1 + FreeFrom(free, i + 1, count - 1)
  }

  lemma {:induction false} FreeFromIs(free: set<nat>, i: nat, count: nat, j: nat)
    requires j <= count && (j < count ==> i + j !in free) && forall k :: i <= k < i + j ==> k in free
    ensures FreeFrom(free, i, count) == j
    decreases count
  {
    if j > 0 { FreeFromIs(free, i + 1, count - 1, j - 1); }
  }

  // One turn of the loop: the range test, the realignment, the test of one start with its skip-ahead.
  function ScanStep(free: set<nat>, count: nat, alignPages: nat, s: Scan): Scan
    requires alignPages > 0
  {
    if !s.At? then s
    else if s.i + count > BITMAP_PAGES then Exhausted
    else if s.i % alignPages != 0 then At(s.i - s.i % alignPages + 1)
    else
      var j := FreeFrom(free, s.i, count);
      if j == count then Found(s.i) else At(s.i + j + 1)
  }

  function ScanSteps(free: set<nat>, count: nat, alignPages: nat, k: nat): Scan
    requires alignPages > 0
  {
    if k == 0 then At(0) else ScanStep(free, count, alignPages, ScanSteps(free, count, alignPages, k - 1))
  }

  lemma ScanStarts(free: set<nat>, count: nat, alignPages: nat)
    requires alignPages > 0
    ensures ScanSteps(free, count, alignPages, 0) == At(0)
  {
  }

  lemma ScanTests(free: set<nat>, count: nat, alignPages: nat, k: nat, i: nat)
    requires alignPages > 0 && (alignPages == 1 || i == 0) && i + count <= BITMAP_PAGES
    requires ScanSteps(free, count, alignPages, k) == At(i)
    ensures var j := FreeFrom(free, i, count);
      ScanSteps(free, count, alignPages, k + 1) == if j == count then Found(i) else At(i + j + 1)
  {
    hide FreeFrom;
    assert i % 1 == 0;
  }

  lemma ScanRunsOut(free: set<nat>, count: nat, alignPages: nat, k: nat, i: nat)
    requires alignPages > 0 && i + count > BITMAP_PAGES && ScanSteps(free, count, alignPages, k) == At(i)
    ensures ScanSteps(free, count, alignPages, k + 1) == Exhausted
  {
  }

  /** With an alignment of two pages or more and page 0 in use, the scan is at page 1 after its first step
      and never leaves it, for every count of pages that the bitmap could hold beside page 0. */
  lemma {:induction false} MisalignedScanIsStuck(free: set<nat>, count: nat, alignPages: nat, k: nat)
    requires alignPages > 1 && 0 !in free && 0 < count < BITMAP_PAGES && k >= 1
    ensures ScanSteps(free, count, alignPages, k) == At(1)
  {
    if k == 1 {
      assert ScanSteps(free, count, alignPages, 0) == At(0) && FreeFrom(free, 0, count) == 0;
    } else {
      MisalignedScanIsStuck(free, count, alignPages, k - 1);
    }
  }

  /** And it ends for all other counts, so this is the exact condition. */
  lemma ScanEndsIff(free: set<nat>, count: nat, alignPages: nat)
    requires alignPages > 1 && 0 !in free
    ensures (exists k :: !ScanSteps(free, count, alignPages, k).At?) <==> count == 0 || count >= BITMAP_PAGES
  {
    if count == 0 || count >= BITMAP_PAGES {
      assert ScanSteps(free, count, alignPages, 0) == At(0) && FreeFrom(free, 0, count) == 0;
      var one := ScanSteps(free, count, alignPages, 1);
      assert one == if count == 0 then Found(0) else if count > BITMAP_PAGES then Exhausted else At(1);
      assert !ScanSteps(free, count, alignPages, 2).At?;
    } else {
      forall k ensures ScanSteps(free, count, alignPages, k).At? {
        if k >= 1 { MisalignedScanIsStuck(free, count, alignPages, k); }
      }
    }
  }

  lemma MulAtLeast(k: int, m: int)
    requires k >= 1 && m >= 0
    ensures k * m >= m
  {
  }

  lemma DivModUnique(x: int, q: int, m: int, r: int)
    requires 0 <= r < m && x == q * m + r
    ensures x / m == q && x % m == r
  {
    var d, s := x / m, x % m;
    assert x == d * m + s;
    assert (q - d) * m == s - r;
    if q > d { MulAtLeast(q - d, m); assert false; }
    if q < d { MulAtLeast(d - q, m); assert false; }
  }
}
