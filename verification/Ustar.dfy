/**
 The ustar archive format as the initial ram disk uses it (initrd.rs): what an encoder writes, what
 the unpacking loop reads, and that the one undoes the other.
 */
module Ustar {
  import opened Common
  import opened FileTree

  const BLOCK: nat := 512
  const NAME_FIELD: nat := 100
  const SIZE_DIGITS: nat := 11
  const ZERO_DIGIT: Byte := 48
  const SPACE: Byte := 32

  // ---- octal numbers ------------------------------------------------------------------------------

  function Pow8(w: nat): (r: nat)
    ensures r > 0
  {
    if w == 0 then 1 else 8 * Pow8(w - 1)
  }

  // The w lowest octal digits of n, highest first.
  function Digits(n: nat, w: nat): (s: seq<Byte>)
    ensures |s| == w
  {
    if w == 0 then [] else Digits(n / 8, w - 1) + [ZERO_DIGIT + n % 8]
  }

  predicate IsDigit(b: Byte) { ZERO_DIGIT <= b < ZERO_DIGIT + 8 }

  // The number that the leading octal digits of s extend v to.
  function Octal(s: seq<Byte>, v: nat): nat {
    if s == [] || !IsDigit(s[0]) then v else Octal(s[1..], v * 8 + s[0] - ZERO_DIGIT)
  }

  lemma {:induction false} OctalDigits(n: nat, w: nat, rest: seq<Byte>, v: nat)
    requires n < Pow8(w)
    ensures Octal(Digits(n, w) + rest, v) == Octal(rest, v * Pow8(w) + n)
  {
    if w == 0 {
      assert Digits(n, w) + rest == rest;
    } else {
      var d: Byte := ZERO_DIGIT + n % 8;
      assert Digits(n, w) + rest == Digits(n / 8, w - 1) + ([d] + rest);
      OctalDigits(n / 8, w - 1, [d] + rest, v);
      assert ([d] + rest)[1..] == rest;
      var high := v * Pow8(w - 1);
      assert (high + n / 8) * 8 + n % 8 == high * 8 + n;
      assert high * 8 == v * Pow8(w);
    }
  }

  method ReadOctal(s: seq<Byte>) returns (v: nat)
    ensures v == Octal(s, 0)
  {
    v := 0;
    var i := 0;
    while i < |s| && s[i] != 0 && IsDigit(s[i])
      invariant i <= |s| && Octal(s, 0) == Octal(s[i..], v)
    {
      v := v * 8 + s[i] - ZERO_DIGIT;
      i := i + 1;
    }
  }

  // ---- names --------------------------------------------------------------------------------------

  function TrimNuls(s: seq<Byte>): seq<Byte> {
    if s != [] && s[|s| - 1] == 0 then TrimNuls(s[..|s| - 1]) else s
  }

  lemma {:induction false} TrimPadded(name: seq<Byte>, k: nat)
    requires 0 !in name
    ensures TrimNuls(name + Zeros(k)) == name
  {
    if k == 0 {
      assert name + Zeros(0) == name;
    } else {
      var s := name + Zeros(k);
      assert s[..|s| - 1] == name + Zeros(k - 1);
      TrimPadded(name, k - 1);
    }
  }

  method ReadName(field: seq<Byte>) returns (name: seq<Byte>)
    ensures name == TrimNuls(field)
  {
    var n := |field|;
    assert field[..n] == field;
    while n > 0 && field[n - 1] == 0
      invariant 0 <= n <= |field| && TrimNuls(field) == TrimNuls(field[..n])
    {
      assert field[..n][..n - 1] == field[..n - 1];
      n := n - 1;
    }
    return field[..n];
  }

  // ---- archives -----------------------------------------------------------------------------------

  datatype Entry = Entry(name: seq<Byte>, typ: Byte, data: seq<Byte>)

  // The header fields the kernel does not look at: mode and owner, time and checksum, and all after the type.
  datatype Meta = Meta(owner: seq<Byte>, time: seq<Byte>, tail: seq<Byte>, end: Byte)

  predicate EntryOk(e: Entry) {
    1 <= |e.name| <= NAME_FIELD && 0 !in e.name && |e.data| < Pow8(SIZE_DIGITS)
  }

  predicate MetaOk(m: Meta) {
    |m.owner| == 24 && |m.time| == 20 && |m.tail| == 355 && (m.end == 0 || m.end == SPACE)
  }

  function Padded(n: nat): nat { (n + 511) / 512 * 512 }

  function Header(e: Entry, m: Meta): (h: seq<Byte>)
    requires EntryOk(e) && MetaOk(m)
    ensures |h| == BLOCK
  {
    e.name + Zeros(NAME_FIELD - |e.name|) + m.owner
      + Digits(|e.data|, SIZE_DIGITS) + [m.end] + m.time + [e.typ] + m.tail
  }

  lemma PaddedBounds(n: nat)
    ensures n <= Padded(n) < n + 512 && Padded(n) % 512 == 0
  {
  }

  function Member(e: Entry, m: Meta): (r: seq<Byte>)
    requires EntryOk(e) && MetaOk(m)
  {
    PaddedBounds(|e.data|);
    Header(e, m) + e.data + Zeros(Padded(|e.data|) - |e.data|)
  }

  // What an archiver writes: the members one after the other, then two blocks of zeroes.
  function Encode(es: seq<Entry>, ms: seq<Meta>): seq<Byte>
    requires |es| == |ms|
    requires forall i :: 0 <= i < |es| ==> EntryOk(es[i]) && MetaOk(ms[i])
  {
    if es == [] then Zeros(2 * BLOCK) else Member(es[0], ms[0]) + Encode(es[1..], ms[1..])
  }

  // What the loop sees: the entry whose header starts at p, and where the next one would be.
  function EntryAt(base: seq<Byte>, p: nat): Entry
    requires p + BLOCK <= |base|
  {
    var size := Octal(base[p + 124..p + 136], 0);
    var end := if p + BLOCK + size < |base| then p + BLOCK + size else |base|;
    Entry(TrimNuls(base[p..p + NAME_FIELD]), base[p + 156], base[p + BLOCK..end])
  }

  function Advance(base: seq<Byte>, p: nat): (n: nat)
    requires p + BLOCK <= |base|
    ensures n >= BLOCK && n % BLOCK == 0
  {
    (BLOCK + Octal(base[p + 124..p + 136], 0) + 511) / 512 * 512
  }

  // All entries the loop visits, on any bytes whatever.
  function Scan(base: seq<Byte>, p: nat): seq<Entry>
    decreases |base| - p
  {
    if p + BLOCK > |base| || base[p] == 0 then []
    else [EntryAt(base, p)] + Scan(base, p + Advance(base, p))
  }

  // ---- reading what was written -------------------------------------------------------------------

  lemma HeaderFields(e: Entry, m: Meta)
    requires EntryOk(e) && MetaOk(m)
    ensures var h := Header(e, m);
      && h[0] != 0 && h[..NAME_FIELD] == e.name + Zeros(NAME_FIELD - |e.name|)
      && h[124..136] == Digits(|e.data|, SIZE_DIGITS) + [m.end] && h[156] == e.typ
  {
  }

  lemma SizeReads(e: Entry, m: Meta)
    requires EntryOk(e) && MetaOk(m)
    ensures Octal(Header(e, m)[124..136], 0) == |e.data|
  {
    hide Header, Digits;
    HeaderFields(e, m);
    OctalDigits(|e.data|, SIZE_DIGITS, [m.end], 0);
  }

  // A member in the middle of other bytes is read as the entry it was made from.
  lemma MemberReads(x: seq<Byte>, e: Entry, m: Meta, rest: seq<Byte>)
    requires EntryOk(e) && MetaOk(m)
    ensures var base, p := x + Member(e, m) + rest, |x|;
      && p + BLOCK <= |base| && base[p] != 0 && EntryAt(base, p) == e && Advance(base, p) == |Member(e, m)|
  {
    hide Header, Digits, Octal, TrimNuls, Zeros;
    var base, p, h := x + Member(e, m) + rest, |x|, Header(e, m);
    PaddedBounds(|e.data|);
    assert base[p..p + BLOCK] == h;
    HeaderFields(e, m);
    SizeReads(e, m);
    assert base[p..p + NAME_FIELD] == h[..NAME_FIELD];
    assert base[p + 124..p + 136] == h[124..136];
    assert base[p + 156] == h[156] && base[p] == h[0];
    TrimPadded(e.name, NAME_FIELD - |e.name|);
    assert base[p + BLOCK..p + BLOCK + |e.data|] == e.data;
  }

  /** Of an archive that is cut off inside a member, what is there of its data is read. */
  lemma CutMemberReads(x: seq<Byte>, e: Entry, m: Meta, k: nat)
    requires EntryOk(e) && MetaOk(m) && k <= |e.data|
    ensures var base := x + Header(e, m) + e.data[..k]; EntryAt(base, |x|) == e.(data := e.data[..k])
  {
    hide Header, Digits, Octal, TrimNuls, Zeros;
    var base, p, h := x + Header(e, m) + e.data[..k], |x|, Header(e, m);
    assert base[p..p + BLOCK] == h;
    HeaderFields(e, m);
    SizeReads(e, m);
    assert base[p..p + NAME_FIELD] == h[..NAME_FIELD];
    assert base[p + 124..p + 136] == h[124..136];
    assert base[p + 156] == h[156];
    TrimPadded(e.name, NAME_FIELD - |e.name|);
    assert base[p + BLOCK..] == e.data[..k];
  }

  lemma {:induction false} ScanFrom(x: seq<Byte>, es: seq<Entry>, ms: seq<Meta>)
    requires |es| == |ms|
    requires forall i :: 0 <= i < |es| ==> EntryOk(es[i]) && MetaOk(ms[i])
    ensures Scan(x + Encode(es, ms), |x|) == es
    decreases |es|
  {
    hide Member, EntryAt, Advance, EntryOk, MetaOk;
    var base := x + Encode(es, ms);
    if es == [] {
      assert base[|x|] == 0;
    } else {
      var b, rest := Member(es[0], ms[0]), Encode(es[1..], ms[1..]);
      assert base == x + b + rest;
      MemberReads(x, es[0], ms[0], rest);
      ScanFrom(x + b, es[1..], ms[1..]);
      assert es == [es[0]] + es[1..];
    }
  }

  /** Unpacking inverts archiving: the loop visits exactly the entries that were written, in order. */
  lemma ScanInvertsEncode(es: seq<Entry>, ms: seq<Meta>)
    requires |es| == |ms|
    requires forall i :: 0 <= i < |es| ==> EntryOk(es[i]) && MetaOk(ms[i])
    ensures Scan(Encode(es, ms), 0) == es
  {
    ScanFrom([], es, ms);
    assert [] + Encode(es, ms) == Encode(es, ms);
  }

  method ReadHeader(base: seq<Byte>, p: nat) returns (e: Entry, next: nat)
    requires p + BLOCK <= |base|
    ensures e == EntryAt(base, p) && next == p + Advance(base, p)
  {
    var name := ReadName(base[p..p + NAME_FIELD]);
    var size := ReadOctal(base[p + 124..p + 136]);
    var end := if p + BLOCK + size < |base| then p + BLOCK + size else |base|;
    e := Entry(name, base[p + 156], base[p + BLOCK..end]);
    next := p + (BLOCK + (size + 511)) / 512 * 512;
  }
}
