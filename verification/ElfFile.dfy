/**
 Executables as a linker writes them: the ELF-64 header and program headers laid out field by field, as
 the System V ABI orders them (elf_defs.rs). Reading a file the loader finds what was written, and a
 loaded process sees its segments where the file says, with the permissions the file says.
 */
module ElfFile {
  import opened Common
  import Pmm
  import opened PageTable
  import opened AddressSpaces
  import opened Vmm
  import opened UserMemory
  import opened Elf

  // ---- numbers in a row ----------------------------------------------------------------------------

  datatype Field = Field(value: nat, width: nat)

  function Lay(fs: seq<Field>): seq<Byte> {
    if fs == [] then [] else LeBytes(fs[0].value, fs[0].width) + Lay(fs[1..])
  }

  predicate Holds(fs: seq<Field>) { forall i :: 0 <= i < |fs| ==> fs[i].value < Pow256(fs[i].width) }

  // Where field k starts.
  function Offset(fs: seq<Field>, k: nat): nat
    requires k <= |fs|
  {
    if k == 0 then 0 else Offset(fs, k - 1) + fs[k - 1].width
  }

  lemma {:induction false} OffsetTail(fs: seq<Field>, k: nat)
    requires 0 < k <= |fs|
    ensures Offset(fs, k) == fs[0].width + Offset(fs[1..], k - 1)
  {
    if k > 1 { OffsetTail(fs, k - 1); }
  }

  lemma {:induction false} LayLength(fs: seq<Field>)
    ensures |Lay(fs)| == Offset(fs, |fs|)
  {
    if fs != [] {
      LayLength(fs[1..]);
      OffsetTail(fs, |fs|);
    }
  }

  // The bytes at `o` are those of the number.
  lemma {:induction false} NumberReads(data: seq<Byte>, o: nat, x: nat, n: nat)
    requires o + n <= |data| && data[o..o + n] == LeBytes(x, n) && x < Pow256(n)
    ensures Le(data, o, n) == x
    decreases n
  {
    if n > 0 {
      var s, t := LeBytes(x, n), LeBytes(x / 256, n - 1);
      assert data[o] == data[o..o + n][0] == s[0];
      assert data[o + 1..o + n] == data[o..o + n][1..] == t;
      NumberReads(data, o + 1, x / 256, n - 1);
    }
  }

  /** A field that was laid out is read back. */
  lemma {:induction false} FieldReads(data: seq<Byte>, o: nat, fs: seq<Field>, k: nat)
    requires Holds(fs) && k < |fs| && o + |Lay(fs)| <= |data| && data[o..o + |Lay(fs)|] == Lay(fs)
    ensures o + Offset(fs, k) + fs[k].width <= |data| && Le(data, o + Offset(fs, k), fs[k].width) == fs[k].value
    decreases k
  {
    hide Le, LeBytes;
    var w, rest, all := fs[0].width, Lay(fs[1..]), Lay(fs);
    if k == 0 {
      assert data[o..o + w] == data[o..o + |all|][..w] == LeBytes(fs[0].value, w);
      NumberReads(data, o, fs[0].value, w);
    } else {
      assert data[o + w..o + w + |rest|] == data[o..o + |all|][w..] == rest;
      FieldReads(data, o + w, fs[1..], k - 1);
      OffsetTail(fs, k);
      assert fs[1..][k - 1] == fs[k];
    }
  }

  // ---- the headers ---------------------------------------------------------------------------------

  datatype Ehdr = Ehdr(ident: seq<Byte>, kind: nat, machine: nat, version: nat, entry: nat, phoff: nat, shoff: nat,
    flags: nat, ehsize: nat, phentsize: nat, phnum: nat, shentsize: nat, shnum: nat, shstrndx: nat)

  function EhdrFields(h: Ehdr): seq<Field> {
    [Field(h.kind, 2), Field(h.machine, 2), Field(h.version, 4), Field(h.entry, 8), Field(h.phoff, 8),
     Field(h.shoff, 8), Field(h.flags, 4), Field(h.ehsize, 2), Field(h.phentsize, 2), Field(h.phnum, 2),
     Field(h.shentsize, 2), Field(h.shnum, 2), Field(h.shstrndx, 2)]
  }

  // A segment with the fields the loader does not look at.
  datatype Segment = Segment(ph: Phdr, paddr: nat, align: nat)

  function PhdrFields(s: Segment): seq<Field> {
    [Field(s.ph.ptype, 4), Field(s.ph.flags, 4), Field(s.ph.offset, 8), Field(s.ph.vaddr, 8), Field(s.paddr, 8),
     Field(s.ph.filesz, 8), Field(s.ph.memsz, 8), Field(s.align, 8)]
  }

  lemma EhdrOffsets(h: Ehdr)
    ensures var fs := EhdrFields(h);
      && Offset(fs, 0) == 0 && Offset(fs, 1) == 2 && Offset(fs, 3) == 8 && Offset(fs, 4) == 16 && Offset(fs, 8) == 38
      && Offset(fs, 9) == 40 && Offset(fs, 13) == 48
  {
    var fs := EhdrFields(h);
    assert Offset(fs, 2) == 4 && Offset(fs, 4) == 16;
    assert Offset(fs, 6) == 32 && Offset(fs, 8) == 38;
    assert Offset(fs, 10) == 42 && Offset(fs, 12) == 46;
  }

  lemma PhdrOffsets(s: Segment)
    ensures var fs := PhdrFields(s);
      && Offset(fs, 0) == 0 && Offset(fs, 1) == 4 && Offset(fs, 2) == 8 && Offset(fs, 3) == 16 && Offset(fs, 5) == 32
      && Offset(fs, 6) == 40 && Offset(fs, 8) == 56
  {
    var fs := PhdrFields(s);
    assert Offset(fs, 2) == 8 && Offset(fs, 4) == 24 && Offset(fs, 6) == 40;
  }

  // Header `h` starts the file.
  ghost predicate StartsWith(data: seq<Byte>, h: Ehdr) {
    && |data| >= 64 && |h.ident| == 16 && Holds(EhdrFields(h))
    && data[..16] == h.ident && data[16..64] == Lay(EhdrFields(h))
  }

  // "\x7FELF", 64 bit, little-endian; an executable for x86-64.
  predicate Proper(h: Ehdr) {
    |h.ident| == 16 && h.ident[..6] == [0x7F, 0x45, 0x4C, 0x46, 2, 1] && h.kind == 2 && h.machine == 62
  }

  /** The loader accepts exactly the proper headers, and finds in them what was written. */
  lemma HeaderReads(data: seq<Byte>, h: Ehdr, i: nat)
    requires StartsWith(data, h)
    ensures HeaderOk(data) <==> Proper(h)
    ensures HeaderOk(data) ==>
      Entry(data) == h.entry && PhNum(data) == h.phnum && PhOff(data, i) == h.phoff + i * h.phentsize
  {
    hide Le, Lay, Offset, Pow256;
    var fs := EhdrFields(h);
    EhdrOffsets(h);
    LayLength(fs);
    FieldReads(data, 16, fs, 0);
    FieldReads(data, 16, fs, 1);
    FieldReads(data, 16, fs, 3);
    FieldReads(data, 16, fs, 4);
    FieldReads(data, 16, fs, 8);
    FieldReads(data, 16, fs, 9);
    forall k | 0 <= k < 6 ensures data[k] == h.ident[k] { assert data[k] == data[..16][k]; }
    assert forall k :: 0 <= k < 6 ==> h.ident[k] == h.ident[..6][k];
  }

  /** Program headers are read back as they were written. */
  lemma SegmentReads(data: seq<Byte>, o: nat, s: Segment)
    requires Holds(PhdrFields(s)) && o + 56 <= |data| && data[o..o + 56] == Lay(PhdrFields(s))
    ensures PhdrAt(data, o) == s.ph
  {
    hide Le, Lay, Offset, Pow256;
    var fs := PhdrFields(s);
    PhdrOffsets(s);
    LayLength(fs);
    FieldReads(data, o, fs, 0);
    FieldReads(data, o, fs, 1);
    FieldReads(data, o, fs, 2);
    FieldReads(data, o, fs, 3);
    FieldReads(data, o, fs, 5);
    FieldReads(data, o, fs, 6);
  }

  // ---- every file has a header to read -------------------------------------------------------------

  lemma FirstByte(b: Byte, x: nat, n: nat)
    requires n > 0 && x < Pow256(n - 1)
    ensures b + 256 * x < Pow256(n) && LeBytes(b + 256 * x, n) == [b] + LeBytes(x, n - 1)
  {
    Pmm.DivModUnique(b + 256 * x, x, 256, b);
  }

  lemma {:induction false} BytesOfNumber(data: seq<Byte>, o: nat, n: nat)
    requires o + n <= |data|
    ensures Le(data, o, n) < Pow256(n) && LeBytes(Le(data, o, n), n) == data[o..o + n]
    decreases n
  {
    if n > 0 {
      hide LeBytes, Pow256;
      BytesOfNumber(data, o + 1, n - 1);
      FirstByte(data[o], Le(data, o + 1, n - 1), n);
      assert data[o..o + n] == [data[o]] + data[o + 1..o + n];
    }
  }

  // The numbers of the given widths in these bytes.
  function Found(data: seq<Byte>, o: nat, ws: seq<nat>): (fs: seq<Field>)
    requires o + Sum(ws) <= |data|
    ensures |fs| == |ws| && forall k :: 0 <= k < |ws| ==> fs[k].width == ws[k]
    decreases |ws|
  {
    if ws == [] then [] else [Field(Le(data, o, ws[0]), ws[0])] + Found(data, o + ws[0], ws[1..])
  }

  function Sum(ws: seq<nat>): nat { if ws == [] then 0 else ws[0] + Sum(ws[1..]) }

  lemma LayFirst(f: Field, fs: seq<Field>)
    ensures Lay([f] + fs) == LeBytes(f.value, f.width) + Lay(fs)
    ensures Holds([f] + fs) <==> f.value < Pow256(f.width) && Holds(fs)
  {
    hide LeBytes, Pow256;
    var all := [f] + fs;
    assert all[1..] == fs;
    assert forall i :: 0 <= i < |fs| ==> all[i + 1] == fs[i];
  }

  lemma {:induction false} FoundLays(data: seq<Byte>, o: nat, ws: seq<nat>)
    requires o + Sum(ws) <= |data|
    ensures Holds(Found(data, o, ws)) && Lay(Found(data, o, ws)) == data[o..o + Sum(ws)]
    decreases |ws|
  {
    hide Le, LeBytes, Lay, Holds, Pow256;
    if ws == [] {
      LayNone();
    } else {
      var w := ws[0];
      var mid := o + w;
      BytesOfNumber(data, o, w);
      FoundLays(data, mid, ws[1..]);
      LayFirst(Field(Le(data, o, w), w), Found(data, mid, ws[1..]));
      assert data[o..o + Sum(ws)] == data[o..mid] + data[mid..o + Sum(ws)];
    }
  }

  lemma LayNone()
    ensures Lay([]) == [] && Holds([])
  {
  }

  const EHDR_WIDTHS: seq<nat> := [2, 2, 4, 8, 8, 8, 4, 2, 2, 2, 2, 2, 2]

  /** Files of at least 64 bytes start with some header, so `HeaderReads` covers them all. */
  lemma EveryFileStarts(data: seq<Byte>)
    ensures |data| >= 64 <==> exists h :: StartsWith(data, h)
    ensures |data| < 64 ==> !HeaderOk(data)
  {
    if |data| >= 64 {
      hide Le, LeBytes, Lay, Found, Holds, Sum;
      WidthsAddUp();
      FoundLays(data, 16, EHDR_WIDTHS);
      FieldsMakeHeader(data, Found(data, 16, EHDR_WIDTHS));
    }
  }

  lemma FieldsMakeHeader(data: seq<Byte>, fs: seq<Field>)
    requires |data| >= 64 && |fs| == 13 && Holds(fs) && Lay(fs) == data[16..64]
    requires forall k :: 0 <= k < 13 ==> fs[k].width == EHDR_WIDTHS[k]
    ensures exists h :: StartsWith(data, h)
  {
    hide Lay, Holds;
    var h := Ehdr(data[..16], fs[0].value, fs[1].value, fs[2].value, fs[3].value, fs[4].value, fs[5].value,
      fs[6].value, fs[7].value, fs[8].value, fs[9].value, fs[10].value, fs[11].value, fs[12].value);
    var gs := EhdrFields(h);
    forall k | 0 <= k < 13 ensures gs[k] == fs[k] { assert gs[k].width == EHDR_WIDTHS[k]; }
    assert gs == fs;
    assert StartsWith(data, h);
  }

  lemma SumStep(ws: seq<nat>, k: nat)
    requires k < |ws|
    ensures Sum(ws[k..]) == ws[k] + Sum(ws[k + 1..])
  {
    assert ws[k..][1..] == ws[k + 1..];
  }

  lemma WidthsAddUp()
    ensures Sum(EHDR_WIDTHS) == 48
  {
    hide Sum;
    var w := EHDR_WIDTHS;
    SumNone(w[13..]);
    SumStep(w, 12);
    SumStep(w, 11);
    SumStep(w, 10);
    SumStep(w, 9);
    SumStep(w, 8);
    SumStep(w, 7);
    SumStep(w, 6);
    SumStep(w, 5);
    SumStep(w, 4);
    SumStep(w, 3);
    SumStep(w, 2);
    SumStep(w, 1);
    SumStep(w, 0);
    assert w[0..] == w;
  }

  lemma SumNone(ws: seq<nat>)
    requires ws == []
    ensures Sum(ws) == 0
  {
  }

  // ---- what the process sees -----------------------------------------------------------------------

  /** An executable: a proper header and its table of program headers, wherever in the file it is. */
  ghost predicate IsExecutable(data: seq<Byte>, h: Ehdr, segs: seq<Segment>) {
    && StartsWith(data, h) && Proper(h) && h.phnum == |segs|
    && forall i :: 0 <= i < |segs| ==> TableEntry(data, h, segs[i], i)
  }

  ghost predicate TableEntry(data: seq<Byte>, h: Ehdr, s: Segment, i: nat) {
    var o := h.phoff + i * h.phentsize;
    Holds(PhdrFields(s)) && o + 56 <= |data| && data[o..o + 56] == Lay(PhdrFields(s))
  }

  lemma TableReads(data: seq<Byte>, h: Ehdr, segs: seq<Segment>, i: nat)
    requires IsExecutable(data, h, segs) && i < |segs|
    ensures HeaderOk(data) && PhNum(data) == |segs| && PhOff(data, i) + PHDR_SIZE <= |data|
    ensures PhdrAt(data, PhOff(data, i)) == segs[i].ph
  {
    hide HeaderOk, Lay, Holds, StartsWith, PhdrAt;
    HeaderReads(data, h, i);
    assert TableEntry(data, h, segs[i], i);
    SegmentReads(data, h.phoff + i * h.phentsize, segs[i]);
  }

  // Segment `ph` has a byte in the page of `x`.
  ghost predicate InPageOf(ph: Phdr, x: nat) {
    ph.ptype == 1 && exists y: nat :: ph.vaddr <= y < ph.vaddr + ph.memsz && y / 4096 == x / 4096
  }

  /** A segment gets exactly the pages that some byte of it lies in. */
  lemma CoversIff(ph: Phdr, x: nat)
    ensures Covers(ph, x) <==> InPageOf(ph, x)
  {
    if Covers(ph, x) {
      var y := if x / 4096 == ph.vaddr / 4096 then ph.vaddr else x / 4096 * 4096;
      assert ph.vaddr <= y < ph.vaddr + ph.memsz && y / 4096 == x / 4096;
    }
  }

  // p_flags: PF_R is 4, PF_W is 2, PF_X is 1; higher bits are left to the system.
  datatype Permission = Permission(high: nat, r: bool, w: bool, x: bool)

  function PFlags(p: Permission): nat {
    8 * p.high + (if p.r then 4 else 0) + (if p.w then 2 else 0) + (if p.x then 1 else 0)
  }

  /** The protection of a page: user access, writable if W is set, executable if X is set. */
  lemma FlagsMean(p: Permission)
    ensures ElfFlags(PFlags(p)) == Flags(p.w, true, false, !p.x)
  {
    var r, w, x := if p.r then 1 else 0, if p.w then 1 else 0, if p.x then 1 else 0;
    var half := 4 * p.high + 2 * r + w;
    Pmm.DivModUnique(PFlags(p), half, 2, x);
    Pmm.DivModUnique(half, 2 * p.high + r, 2, w);
  }

  /** A loaded process sees every byte of every segment where the file puts it: file contents up to filesz, zeroes
      up to memsz, writable and executable as the file says. A later segment in the same page wins. */
  lemma SegmentSeen(vm: Vm, r: nat, data: seq<Byte>, h: Ehdr, segs: seq<Segment>, i: nat, x: nat, p: Permission)
    requires r in vm.spaces && IsExecutable(data, h, segs) && i < |segs| && HeaderOk(data) && WellFormed(data)
    requires ShowsImage(vm, r, data, PhNum(data))
    requires var ph := segs[i].ph; ph.ptype == 1 && ph.vaddr <= x < ph.vaddr + ph.memsz && ph.flags == PFlags(p)
    requires forall j :: i < j < |segs| ==> !InPageOf(segs[j].ph, x)
    ensures var ph := segs[i].ph;
      && (x < ph.vaddr + ph.filesz ==> ph.offset + (x - ph.vaddr) < |data|)
      && View(vm, r, x) ==
        Some((if x < ph.vaddr + ph.filesz then data[ph.offset + (x - ph.vaddr)] else 0, Flags(p.w, true, false, !p.x)))
  {
    hide HeaderOk, PhdrAt, PhOff, IsExecutable, View, Loaded, InPageOf, ElfFlags, PFlags;
    TableReads(data, h, segs, i);
    forall j | i < j < |segs| ensures !Covers(PhdrAt(data, PhOff(data, j)), x) {
      TableReads(data, h, segs, j);
      CoversIff(segs[j].ph, x);
    }
    HeaderInFile(data, i);
    SegmentsLoaded(data, |segs|, i, x);
    FlagsMean(p);
  }

  /** And nothing else: a page in which no segment has a byte is not mapped. */
  lemma NothingElseSeen(vm: Vm, r: nat, data: seq<Byte>, h: Ehdr, segs: seq<Segment>, x: nat)
    requires r in vm.spaces && IsExecutable(data, h, segs) && HeaderOk(data) && WellFormed(data) && x < USER_TOP
    requires ShowsImage(vm, r, data, PhNum(data))
    ensures View(vm, r, x).None? <==> forall j :: 0 <= j < |segs| ==> !InPageOf(segs[j].ph, x)
  {
    hide HeaderOk, PhdrAt, PhOff, View, Loaded, Covers, InPageOf, ElfFlags, StartsWith, TableEntry;
    HeaderReads(data, h, 0);
    LoadedByHeader(data, |segs|, x);
    forall j | 0 <= j < |segs| ensures Covers(PhdrAt(data, PhOff(data, j)), x) <==> InPageOf(segs[j].ph, x) {
      TableReads(data, h, segs, j);
      CoversIff(segs[j].ph, x);
    }
  }
}
