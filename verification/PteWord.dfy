/**
 Page table entries as 64-bit words (the PTE_ constants of vmm.rs): the entry record of the page table
 model and the word in memory determine each other.
 */
module PteWord {
  import Pmm
  import opened PageTable

  // Bits: 0 present, 1 writable, 2 user, 7 large page, 12 to 51 frame number, 63 no-execute.
  function Weight(b: bool, w: nat): nat { if b then w else 0 }

  function Encode(e: Pte): nat {
    Weight(e.p, 1) + Weight(e.flags.rw, 2) + Weight(e.flags.us, 4) + Weight(e.flags.ps, 0x80) + e.frame * 0x1000
      + Weight(e.flags.nx, 0x8000_0000_0000_0000)
  }

  // The fields from the lowest bit up; `gap` are the bits between them.
  datatype Fields = Fields(p: nat, rw: nat, us: nat, gap3: nat, ps: nat, gap8: nat, frame: nat, gap52: nat, nx: nat)

  function Low(w: nat, b: nat): nat
    requires b > 0
  {
    w % b
  }

  function High(w: nat, b: nat): nat
    requires b > 0
  {
    w / b
  }

  // Shifting the word right, field by field.
  function Shift(w: nat): Fields {
    var w1 := High(w, 2);
    var w2 := High(w1, 2);
    var w3 := High(w2, 2);
    var w7 := High(w3, 16);
    var w8 := High(w7, 2);
    var w12 := High(w8, 16);
    var w52 := High(w12, 0x100_0000_0000);
    Fields(Low(w, 2), Low(w1, 2), Low(w2, 2), Low(w3, 16), Low(w7, 2), Low(w8, 16), Low(w12, 0x100_0000_0000),
      Low(w52, 0x800), High(w52, 0x800))
  }

  function Decode(w: nat): Pte {
    var f := Shift(w);
    Pte(f.p == 1, f.frame, Flags(f.rw == 1, f.us == 1, f.ps == 1, f.nx == 1))
  }

  // A 64-bit word in which no other bits are set.
  predicate OnlyKnownBits(w: nat) {
    var f := Shift(w);
    f.gap3 == 0 && f.gap8 == 0 && f.gap52 == 0 && f.nx < 2
  }

  lemma Parts(w: nat, d: nat, q: nat, b: nat)
    requires d < b && w == d + b * q
    ensures Low(w, b) == d && High(w, b) == q
  {
    Pmm.DivModUnique(w, q, b, d);
  }

  /** Every entry survives being stored in a word. */
  lemma DecodeInvertsEncode(e: Pte)
    requires e.frame < 0x100_0000_0000
    ensures Decode(Encode(e)) == e && OnlyKnownBits(Encode(e))
  {
    hide Low, High;
    var nx, ps := Weight(e.flags.nx, 1), Weight(e.flags.ps, 1);
    var us, rw, p := Weight(e.flags.us, 1), Weight(e.flags.rw, 1), Weight(e.p, 1);
    var w52: nat := 0x800 * nx;
    var w12: nat := e.frame + 0x100_0000_0000 * w52;
    var w8: nat := 16 * w12;
    var w7: nat := ps + 2 * w8;
    var w3: nat := 16 * w7;
    var w2: nat := us + 2 * w3;
    var w1: nat := rw + 2 * w2;
    Parts(Encode(e), p, w1, 2);
    Parts(w1, rw, w2, 2);
    Parts(w2, us, w3, 2);
    Parts(w3, 0, w7, 16);
    Parts(w7, ps, w8, 2);
    Parts(w8, 0, w12, 16);
    Parts(w12, e.frame, w52, 0x100_0000_0000);
    Parts(w52, 0, nx, 0x800);
  }

  // The number in the bits of `w` from the one worth `unit` on, counting up to n.
  function BitsAt(w: nat, unit: nat, n: nat): nat
    requires unit > 0 && n > 0
  {
    w / unit % n
  }

  lemma BitsRead(w: nat, low: nat, unit: nat, f: nat, n: nat, high: nat)
    requires low < unit && f < n && w == low + unit * (f + n * high)
    ensures BitsAt(w, unit, n) == f
  {
    Pmm.DivModUnique(w, f + n * high, unit, low);
    Pmm.DivModUnique(f + n * high, high, n, f);
  }

  /** Each field is in the bits of the word that the processor reads it from: bit 0 present, bit 1 writable, bit 2
      user, bit 7 large page, bits 12 to 51 the frame, bit 63 no-execute. */
  lemma FieldsInPlace(e: Pte)
    requires e.frame < 0x100_0000_0000
    ensures var w := Encode(e);
      && w < 0x1_0000_0000_0000_0000 && BitsAt(w, 1, 2) == Weight(e.p, 1) && BitsAt(w, 2, 2) == Weight(e.flags.rw, 1)
      && BitsAt(w, 4, 2) == Weight(e.flags.us, 1) && BitsAt(w, 0x80, 2) == Weight(e.flags.ps, 1)
      && BitsAt(w, 0x1000, 0x100_0000_0000) == e.frame
      && BitsAt(w, 0x8000_0000_0000_0000, 2) == Weight(e.flags.nx, 1)
  {
    hide BitsAt;
    var nx, ps := Weight(e.flags.nx, 1), Weight(e.flags.ps, 1);
    var us, rw, p := Weight(e.flags.us, 1), Weight(e.flags.rw, 1), Weight(e.p, 1);
    var w := Encode(e);
    var w12: nat := e.frame + 0x8_0000_0000_0000 * nx;
    BitsRead(w, 0, 1, p, 2, rw + 2 * us + 0x40 * ps + 0x800 * w12);
    BitsRead(w, p, 2, rw, 2, us + 0x20 * ps + 0x400 * w12);
    BitsRead(w, p + 2 * rw, 4, us, 2, 0x10 * ps + 0x200 * w12);
    BitsRead(w, p + 2 * rw + 4 * us, 0x80, ps, 2, 0x10 * w12);
    BitsRead(w, p + 2 * rw + 4 * us + 0x80 * ps, 0x1000, e.frame, 0x100_0000_0000, 0x800 * nx);
    BitsRead(w, w - 0x8000_0000_0000_0000 * nx, 0x8000_0000_0000_0000, nx, 2, 0);
  }

  /** And every word with no other bits set comes from the entry it decodes to. */
  lemma EncodeInvertsDecode(w: nat)
    requires OnlyKnownBits(w)
    ensures Encode(Decode(w)) == w && Decode(w).frame < 0x100_0000_0000
  {
  }
}
