/** CRC-32C (Appendix B of RFC 4960) as crypto/crc.c computes it: byte by byte, and by slicing
    four or eight bytes at a time. */
module Crc {
  import opened Basics

  const POLY: bv32 := 0x82F6_3B78   // the reflected polynomial

  /** Addition of polynomials. */
  function Add(a: bv32, b: bv32): (r: bv32) {
    a ^ b
  }

  function Mask(c: bv32): (r: bv32) {
    if c & 1 == 1 then POLY else 0
  }

  /** Division by the polynomial, one bit. */
  function Bit(c: bv32): (r: bv32) {
    (c >> 1) ^ Mask(c)
  }

  function Bits(n: nat, c: bv32): (r: bv32) {
    if n == 0 then c else Bits(n - 1, Bit(c))
  }

  lemma ShiftXor(a: bv32, b: bv32)
    ensures (a ^ b) >> 1 == (a >> 1) ^ (b >> 1)
  {
  }

  lemma LowXor(a: bv32, b: bv32)
    ensures (a ^ b) & 1 == (a & 1) ^ (b & 1)
  {
  }

  lemma LowBit(a: bv32)
    ensures a & 1 == 0 || a & 1 == 1
  {
  }

  lemma XorSelf(a: bv32)
    ensures a ^ a == 0 && a ^ 0 == a && 0 ^ a == a
  {
  }

  lemma XorMid(a: bv32, b: bv32, c: bv32, d: bv32)
    ensures (a ^ b) ^ (c ^ d) == (a ^ c) ^ (b ^ d)
  {
  }

  lemma MaskLinear(a: bv32, b: bv32)
    ensures Mask(a ^ b) == Mask(a) ^ Mask(b)
  {
    LowXor(a, b);
    LowBit(a);
    LowBit(b);
    XorSelf(POLY);
    XorSelf(0);
    XorSelf(1);
  }

  lemma BitLinear(a: bv32, b: bv32)
    ensures Bit(Add(a, b)) == Add(Bit(a), Bit(b))
  {
    hide Mask;
    ShiftXor(a, b);
    MaskLinear(a, b);
    XorMid(a >> 1, b >> 1, Mask(a), Mask(b));
  }

  lemma {:induction false} BitsLinear(n: nat, a: bv32, b: bv32)
    ensures Bits(n, Add(a, b)) == Add(Bits(n, a), Bits(n, b))
  {
    hide Bit, Add;
    if n > 0 {
      BitLinear(a, b);
      BitsLinear(n - 1, Bit(a), Bit(b));
    }
  }

  lemma {:induction false} BitsAdd(m: nat, n: nat, c: bv32)
    ensures Bits(m + n, c) == Bits(n, Bits(m, c))
  {
    hide Bit;
    if m > 0 {
      BitsAdd(m - 1, n, Bit(c));
    }
  }

  function Half(c: bv32): (r: bv32) {
    c >> 1
  }

  lemma BitZero(c: bv32)
    requires c & 1 == 0
    ensures Bit(c) == Half(c)
  {
    XorSelf(c >> 1);
  }

  /** A zero bit is shifted out unchanged. */
  lemma BitsZero(n: nat, c: bv32)
    requires c & 1 == 0
    ensures Bits(n + 1, c) == Bits(n, Half(c))
  {
    hide Bit, Half;
    BitZero(c);
  }

  lemma NoBits(c: bv32)
    ensures Bits(0, c) == c
  {
  }

  function Low8(c: bv32): (r: bv32) {
    c & 0xFF
  }

  function High24(c: bv32): (r: bv32) {
    c >> 8
  }

  function Up(c: bv32): (r: bv32) {
    c << 8
  }

  /** Fits in three bytes. */
  predicate ThreeBytes(c: bv32) {
    c & 0xFF00_0000 == 0
  }

  lemma HalvesAre(c: bv32)
    ensures Half(Half(Half(Half(Half(Half(Half(Half(c)))))))) == High24(c)
  {
  }

  lemma ZeroBits(c: bv32)
    ensures Up(c) & 1 == 0 && Half(Up(c)) & 1 == 0 && Half(Half(Up(c))) & 1 == 0 && Half(Half(Half(Up(c)))) & 1 == 0
  {
  }

  lemma ZeroBitsOn(c: bv32)
    ensures var d := Half(Half(Half(Half(Up(c)))));
      d & 1 == 0 && Half(d) & 1 == 0 && Half(Half(d)) & 1 == 0 && Half(Half(Half(d))) & 1 == 0
  {
  }

  lemma UpDown(c: bv32)
    requires ThreeBytes(c)
    ensures High24(Up(c)) == c
  {
  }

  /** A byte's worth of division brings an upper part down. */
  lemma BringDown(c: bv32)
    requires ThreeBytes(c)
    ensures Bits(8, Up(c)) == c
  {
    hide Bits, Bit, Half, Up, High24, ThreeBytes;
    var c0 := Up(c);
    var c1 := Half(c0);
    var c2 := Half(c1);
    var c3 := Half(c2);
    var c4 := Half(c3);
    var c5 := Half(c4);
    var c6 := Half(c5);
    var c7 := Half(c6);
    ZeroBits(c);
    ZeroBitsOn(c);
    BitsZero(7, c0);
    BitsZero(6, c1);
    BitsZero(5, c2);
    BitsZero(4, c3);
    BitsZero(3, c4);
    BitsZero(2, c5);
    BitsZero(1, c6);
    BitsZero(0, c7);
    NoBits(Half(c7));
    HalvesAre(c0);
    UpDown(c);
  }

  function Byte(b: bv8): (r: bv32) {
    b as bv32
  }

  /** The reference: each byte is added to the low end and divided out bit by bit. */
  function Reference(c: bv32, buf: seq<bv8>): (r: bv32) {
    if buf == [] then c
    else Bits(8, Add(Reference(c, buf[..|buf| - 1]), Byte(buf[|buf| - 1])))
  }

  /** Entry `i` of the table that carries a byte past `k` further bytes: table_il8_o32 is
      `k == 0`, table_il8_o40 is `k == 1`, and so on to table_il8_o88 with `k == 7`. */
  function Table(k: nat, i: bv32): (r: bv32) {
    Bits(8 * k + 8, i)
  }

  lemma BitOne()
    ensures Bit(1) == POLY
  {
    XorSelf(POLY);
  }

  lemma HalvingOnes()
    ensures Half(0x80) == 0x40 && Half(0x40) == 0x20 && Half(0x20) == 0x10 && Half(0x10) == 8
    ensures Half(8) == 4 && Half(4) == 2 && Half(2) == 1
  {
  }

  /** The entry of table_il8_o32 that spells out the polynomial. */
  lemma PolynomialEntry()
    ensures Table(0, 0x80) == 0x82F6_3B78
  {
    hide Bits, Bit, Half;
    HalvingOnes();
    BitsZero(7, 0x80);
    BitsZero(6, 0x40);
    BitsZero(5, 0x20);
    BitsZero(4, 0x10);
    BitsZero(3, 8);
    BitsZero(2, 4);
    BitsZero(1, 2);
    OneBit(1);
    BitOne();
  }

  lemma OneBit(c: bv32)
    ensures Bits(1, c) == Bit(c)
  {
  }

  lemma SplitLow(c: bv32)
    ensures c == Add(Low8(c), Up(High24(c))) && ThreeBytes(High24(c))
  {
  }

  lemma AddMid(a: bv32, b: bv32, c: bv32)
    ensures Add(Add(a, b), c) == Add(a, Add(b, c))
  {
  }

  lemma AddZero(a: bv32)
    ensures Add(a, 0) == a && Add(0, a) == a
  {
  }

  /** The one-byte step: a table entry for the low byte, and the rest moved down. */
  lemma TableStep(c: bv32)
    ensures Bits(8, c) == Add(Table(0, Low8(c)), High24(c))
  {
    hide Add, Bits, Low8, High24, Up, ThreeBytes;
    SplitLow(c);
    BitsLinear(8, Low8(c), Up(High24(c)));
    BringDown(High24(c));
  }

  /** One more byte of division than `8 * k` bits, seen from the low byte. */
  lemma TablePeel(k: nat, c: bv32)
    ensures Bits(8 * k + 8, c) == Add(Table(k, Low8(c)), Bits(8 * k, High24(c)))
  {
    hide Add, Bits, Low8, High24;
    TableStep(c);
    BitsAdd(8, 8 * k, c);
    BitsLinear(8 * k, Table(0, Low8(c)), High24(c));
    BitsAdd(8, 8 * k, Low8(c));
  }

  lemma TopByte(c: bv32)
    ensures Low8(High24(High24(High24(c)))) == High24(High24(High24(c)))
    ensures High24(High24(High24(High24(c)))) == 0
  {
  }

  lemma BitsOfZero(n: nat)
    ensures Bits(n, 0) == 0
  {
    if n > 0 {
      BitZero(0);
      BitsOfZero(n - 1);
    }
  }

  /** Slicing: the bytes of a word divide out independently, each through its own table. */
  lemma Slices(k: nat, c: bv32)
    ensures Bits(8 * k + 32, c) ==
      Add(Add(Table(k + 3, Low8(c)), Table(k + 2, Low8(High24(c)))),
          Add(Table(k + 1, Low8(High24(High24(c)))), Table(k, Low8(High24(High24(High24(c)))))))
  {
    hide Add, Bits, Low8, High24, Table;
    var c1 := High24(c);
    var c2 := High24(c1);
    var c3 := High24(c2);
    TablePeel(k + 3, c);
    TablePeel(k + 2, c1);
    TablePeel(k + 1, c2);
    TablePeel(k, c3);
    TopByte(c);
    BitsOfZero(8 * k);
    AddZero(Table(k, Low8(c3)));
    AddMid(Table(k + 3, Low8(c)), Table(k + 2, Low8(c1)), Add(Table(k + 1, Low8(c2)), Table(k, Low8(c3))));
  }

  /** The upper bytes of a word, as the sliced loops take them. */
  function Byte1(c: bv32): (r: bv32) {
    (c >> 8) & 0xFF
  }

  function Byte2(c: bv32): (r: bv32) {
    (c >> 16) & 0xFF
  }

  function Byte3(c: bv32): (r: bv32) {
    ((c >> 16) >> 8) & 0xFF
  }

  function Xor4(a: bv32, b: bv32, c: bv32, d: bv32): (r: bv32) {
    Add(Add(Add(a, b), c), d)
  }

  /** What the sliced loops do with a word: four tables, the first one `k + 3`. */
  function Sliced(k: nat, c: bv32): (r: bv32) {
    Xor4(Table(k + 3, Low8(c)), Table(k + 2, Byte1(c)), Table(k + 1, Byte2(c)), Table(k, Byte3(c)))
  }

  lemma Digits(c: bv32)
    ensures Byte1(c) == Low8(High24(c)) && Byte2(c) == Low8(High24(High24(c)))
    ensures Byte3(c) == Low8(High24(High24(High24(c))))
  {
  }

  lemma Xor4Is(a: bv32, b: bv32, c: bv32, d: bv32)
    ensures Xor4(a, b, c, d) == Add(Add(a, b), Add(c, d))
  {
    hide Add;
    AddMid(Add(a, b), c, d);
  }

  lemma SlicedIs(k: nat, c: bv32)
    ensures Sliced(k, c) == Bits(8 * k + 32, c)
  {
    hide Bits, Table, Low8, High24, Byte1, Byte2, Byte3, Add, Xor4;
    Digits(c);
    Slices(k, c);
    Xor4Is(Table(k + 3, Low8(c)), Table(k + 2, Byte1(c)), Table(k + 1, Byte2(c)), Table(k, Byte3(c)));
  }

  /** A little-endian load of four bytes. */
  function Load(buf: seq<bv8>, i: nat): (r: bv32)
    requires i + 4 <= |buf|
  {
    Byte(buf[i]) | (Byte(buf[i + 1]) << 8) | (Byte(buf[i + 2]) << 16) | (Byte(buf[i + 3]) << 24)
  }

  lemma LoadIs(b0: bv8, b1: bv8, b2: bv8, b3: bv8)
    ensures Byte(b0) | (Byte(b1) << 8) | (Byte(b2) << 16) | (Byte(b3) << 24)
      == Add(Byte(b0), Up(Add(Byte(b1), Up(Add(Byte(b2), Up(Byte(b3)))))))
    ensures ThreeBytes(Byte(b3)) && ThreeBytes(Add(Byte(b2), Up(Byte(b3))))
    ensures ThreeBytes(Add(Byte(b1), Up(Add(Byte(b2), Up(Byte(b3))))))
  {
  }

  /** What is added after a byte of division might as well be added, moved up, before it. */
  lemma AddBefore(c: bv32, v: bv32)
    requires ThreeBytes(v)
    ensures Add(Bits(8, c), v) == Bits(8, Add(c, Up(v)))
  {
    hide Add, Bits, Up, ThreeBytes;
    BringDown(v);
    BitsLinear(8, c, Up(v));
  }

  lemma ByteThen(c: bv32, b: bv32, v: bv32)
    requires ThreeBytes(v)
    ensures Add(Bits(8, Add(c, b)), v) == Bits(8, Add(c, Add(b, Up(v))))
  {
    hide Add, Bits, Up, ThreeBytes;
    AddBefore(Add(c, b), v);
    AddMid(c, b, Up(v));
  }

  lemma FourBytes(c: bv32, b0: bv32, b1: bv32, b2: bv32, b3: bv32)
    requires ThreeBytes(b3) && ThreeBytes(Add(b2, Up(b3))) && ThreeBytes(Add(b1, Up(Add(b2, Up(b3)))))
    ensures Bits(8, Add(Bits(8, Add(Bits(8, Add(Bits(8, Add(c, b0)), b1)), b2)), b3))
      == Bits(32, Add(c, Add(b0, Up(Add(b1, Up(Add(b2, Up(b3))))))))
  {
    hide Add, Bits, Up, ThreeBytes;
    var w2 := Add(b2, Up(b3));
    var w1 := Add(b1, Up(w2));
    var w0 := Add(b0, Up(w1));
    var c1 := Bits(8, Add(c, b0));
    var c2 := Bits(8, Add(c1, b1));
    ByteThen(c2, b2, b3);
    ByteThen(c1, b1, w2);
    ByteThen(c, b0, w1);
    BitsAdd(8, 24, Add(c, w0));
    BitsAdd(8, 16, Bits(8, Add(c, w0)));
    BitsAdd(8, 8, Bits(8, Bits(8, Add(c, w0))));
  }

  lemma ReferenceNext(c: bv32, buf: seq<bv8>, i: nat)
    requires i < |buf|
    ensures Reference(c, buf[..i + 1]) == Bits(8, Add(Reference(c, buf[..i]), Byte(buf[i])))
  {
    hide Add, Bits, Byte;
    assert buf[..i + 1][..i] == buf[..i];
  }

  /** Four bytes of the reference are one word of division. */
  lemma ReferenceWord(c: bv32, buf: seq<bv8>, i: nat)
    requires i + 4 <= |buf|
    ensures Reference(c, buf[..i + 4]) == Bits(32, Add(Reference(c, buf[..i]), Load(buf, i)))
  {
    hide Add, Bits, Byte, Reference, Up, ThreeBytes;
    ReferenceNext(c, buf, i);
    ReferenceNext(c, buf, i + 1);
    ReferenceNext(c, buf, i + 2);
    ReferenceNext(c, buf, i + 3);
    LoadIs(buf[i], buf[i + 1], buf[i + 2], buf[i + 3]);
    FourBytes(Reference(c, buf[..i]), Byte(buf[i]), Byte(buf[i + 1]), Byte(buf[i + 2]), Byte(buf[i + 3]));
  }

  /** The body of every byte loop. */
  function OneByte(c: bv32, b: bv8): (r: bv32) {
    Table(0, Low8(Add(c, Byte(b)))) ^ (c >> 8)
  }

  lemma HighAdd(c: bv32, b: bv8)
    ensures High24(Add(c, Byte(b))) == c >> 8
  {
  }

  lemma OneByteIs(c: bv32, buf: seq<bv8>, i: nat)
    requires i < |buf|
    ensures OneByte(Reference(c, buf[..i]), buf[i]) == Reference(c, buf[..i + 1])
  {
    hide Bits, Table, Low8, High24, Byte, Reference;
    ReferenceNext(c, buf, i);
    var r := Reference(c, buf[..i]);
    HighAdd(r, buf[i]);
    TableStep(Add(r, Byte(buf[i])));
  }

  /** Bytes one by one, from `i` up to `end`. */
  method ByBytes(ghost start: bv32, c: bv32, buf: seq<bv8>, i: nat, end: nat) returns (r: bv32)
    requires i <= end <= |buf| && c == Reference(start, buf[..i])
    ensures r == Reference(start, buf[..end])
  {
    hide OneByte, Reference;
    r := c;
    for k := i to end
      invariant r == Reference(start, buf[..k])
    {
      OneByteIs(start, buf, k);
      r := OneByte(r, buf[k]);
    }
  }

  /** crc32_update_by1. */
  method UpdateBy1(c: bv32, buf: seq<bv8>) returns (r: bv32)
    ensures r == Reference(c, buf)
  {
    assert buf[..0] == [] && buf[..|buf|] == buf;
    r := ByBytes(c, c, buf, 0, |buf|);
  }

  /** How many bytes there are up to the next multiple of `n`. */
  function Prefix(address: nat, n: nat): (r: nat)
    requires n > 0
    ensures r < n && (address % n + r == n || address % n == r == 0)
  {
    var m := address % n;
    if m == 0 then 0 else n - m
  }

  /** crc32_update_by4 on a buffer at `address`; None when it reads behind a buffer that ends
      before its first aligned word. */
  method UpdateBy4(c: bv32, buf: seq<bv8>, address: nat) returns (r: Option<bv32>)
    ensures r.None? <==> |buf| < Prefix(address, 4)
    ensures r.Some? ==> r.value == Reference(c, buf)
  {
    hide Reference, Sliced, Bits, Load, Add;
    var init := Prefix(address, 4);
    if |buf| < init {
      return None;
    }
    assert buf[..0] == [] && buf[..|buf|] == buf;
    ReferenceEmpty(c);
    var crc := ByBytes(c, c, buf, 0, init);
    var i, words := init, (|buf| - init) / 4;
    for w := 0 to words
      invariant i == init + 4 * w && crc == Reference(c, buf[..i])
    {
      ReferenceWord(c, buf, i);
      SlicedIs(0, Add(crc, Load(buf, i)));
      crc := Sliced(0, Add(crc, Load(buf, i)));
      i := i + 4;
    }
    crc := ByBytes(c, crc, buf, i, |buf|);
    r := Some(crc);
  }

  lemma ReferenceEmpty(c: bv32)
    ensures Reference(c, []) == c
  {
  }

  lemma ReferenceTwoWords(c: bv32, buf: seq<bv8>, i: nat)
    requires i + 8 <= |buf|
    ensures Reference(c, buf[..i + 8]) ==
      Add(Sliced(4, Add(Reference(c, buf[..i]), Load(buf, i))), Sliced(0, Load(buf, i + 4)))
  {
    hide Reference, Sliced, Bits, Load, Add;
    var x, y := Add(Reference(c, buf[..i]), Load(buf, i)), Load(buf, i + 4);
    ReferenceWord(c, buf, i);
    ReferenceWord(c, buf, i + 4);
    BitsLinear(32, Bits(32, x), y);
    BitsAdd(32, 32, x);
    SlicedIs(4, x);
    SlicedIs(0, y);
  }

  /** crc32_update_by8, likewise. */
  method UpdateBy8(c: bv32, buf: seq<bv8>, address: nat) returns (r: Option<bv32>)
    ensures r.None? <==> |buf| < Prefix(address, 8)
    ensures r.Some? ==> r.value == Reference(c, buf)
  {
    hide Reference, Sliced, Bits, Load, Add;
    var init := Prefix(address, 8);
    if |buf| < init {
      return None;
    }
    assert buf[..0] == [] && buf[..|buf|] == buf;
    ReferenceEmpty(c);
    var crc := ByBytes(c, c, buf, 0, init);
    var i, quads := init, (|buf| - init) / 8;
    for q := 0 to quads
      invariant i == init + 8 * q && crc == Reference(c, buf[..i])
    {
      ReferenceTwoWords(c, buf, i);
      crc := Add(Sliced(4, Add(crc, Load(buf, i))), Sliced(0, Load(buf, i + 4)));
      i := i + 8;
    }
    crc := ByBytes(c, crc, buf, i, |buf|);
    r := Some(crc);
  }

  lemma {:induction false} ReferenceConcat(c: bv32, a: seq<bv8>, b: seq<bv8>)
    ensures Reference(c, a + b) == Reference(Reference(c, a), b)
    decreases |b|
  {
    hide Bits, Add, Byte;
    if b == [] {
      assert a + b == a;
    } else {
      var n := |b| - 1;
      assert (a + b)[..|a + b| - 1] == a + b[..n];
      ReferenceConcat(c, a, b[..n]);
    }
  }

  datatype Mode = Default | Small | Big

  /** struct crc32. */
  class Crc32 {
    var state: bv32
    const mode: Mode

    /** crc32_init. */
    constructor (mode: Mode)
      ensures state == 0xFFFF_FFFF && this.mode == mode
    {
      state := 0xFFFF_FFFF;
      this.mode := mode;
    }

    /** crc32_update. */
    method Update(buf: seq<bv8>, address: nat) returns (ok: bool)
      modifies this
      ensures ok <==> mode == Small || |buf| >= Prefix(address, if mode == Default then 4 else 8)
      ensures ok ==> state == Reference(old(state), buf)
    {
      hide Reference;
      var r;
      match mode {
        case Default => r := UpdateBy4(state, buf, address);
        case Small =>
          var c := UpdateBy1(state, buf);
          r := Some(c);
        case Big => r := UpdateBy8(state, buf, address);
      }
      ok := r.Some?;
      if ok {
        state := r.value;
      }
    }
  }

  datatype Piece = Piece(buf: seq<bv8>, address: nat)

  function Joined(pieces: seq<Piece>): (r: seq<bv8>) {
    if pieces == [] then [] else Joined(pieces[..|pieces| - 1]) + pieces[|pieces| - 1].buf
  }

  /** However a message is cut and wherever its pieces lie, every mode computes its CRC. */
  method UpdateAll(crc: Crc32, pieces: seq<Piece>) returns (ok: bool)
    modifies crc
    ensures ok <==> crc.mode == Small || forall k :: 0 <= k < |pieces| ==>
      |pieces[k].buf| >= Prefix(pieces[k].address, if crc.mode == Default then 4 else 8)
    ensures ok ==> crc.state == Reference(old(crc.state), Joined(pieces))
  {
    hide Reference;
    ok := true;
    ReferenceEmpty(crc.state);
    for k := 0 to |pieces|
      invariant ok && crc.state == Reference(old(crc.state), Joined(pieces[..k]))
      invariant crc.mode == Small || forall j :: 0 <= j < k ==>
        |pieces[j].buf| >= Prefix(pieces[j].address, if crc.mode == Default then 4 else 8)
    {
      assert pieces[..k + 1][..k] == pieces[..k];
      ReferenceConcat(old(crc.state), Joined(pieces[..k]), pieces[k].buf);
      ok := crc.Update(pieces[k].buf, pieces[k].address);
      if !ok {
        return;
      }
    }
    assert pieces[..|pieces|] == pieces;
  }

  /** The shortest failing call: one byte at an odd address. */
  method ShortBuffer(b: bv8) returns (r: Option<bv32>)
    ensures r == None
  {
    r := UpdateBy4(0, [b], 1);
  }

  /** crc32_hash. */
  method Hash(buf: seq<bv8>, address: nat) returns (r: Option<bv32>)
    ensures r.Some? <==> |buf| >= Prefix(address, 4)
    ensures r.Some? ==> r.value == Reference(0xFFFF_FFFF, buf) ^ 0xFFFF_FFFF
  {
    hide Reference;
    var crc := new Crc32(Default);
    var ok := crc.Update(buf, address);
    if !ok {
      return None;
    }
    r := Some(crc.state ^ 0xFFFF_FFFF);
  }

  /** The bytes of a word, last first. */
  function Turned(c: bv32): (r: bv32) {
    ((c & 0xFF) << 24) | (((c >> 8) & 0xFF) << 16) | (((c >> 16) & 0xFF) << 8) | ((c >> 24) & 0xFF)
  }

  lemma TurnedBytes(c: bv32)
    ensures Low8(Turned(c)) == Byte3(c) && Byte1(Turned(c)) == Byte2(c)
    ensures Byte2(Turned(c)) == Byte1(c) && Byte3(Turned(c)) == Low8(c)
  {
  }

  lemma TurnedTwice(c: bv32)
    ensures Turned(Turned(c)) == c
  {
  }

  lemma NotIsXor(c: bv32)
    ensures !c == c ^ 0xFFFF_FFFF
  {
  }

  /** crc32_generate: the bytes of crc32_hash in reverse order. */
  method Generate(buf: seq<bv8>) returns (r: bv32)
    ensures r == Turned(Reference(0xFFFF_FFFF, buf) ^ 0xFFFF_FFFF)
  {
    hide Reference, Turned, Bits;
    var c32 := UpdateBy1(0xFFFF_FFFF, buf);
    NotIsXor(c32);
    r := Turned(!c32);
  }

  /** The two entry points agree up to the order of the bytes. */
  method HashBothWays(buf: seq<bv8>, address: nat) returns (g: bv32, h: Option<bv32>)
    ensures h.Some? <==> |buf| >= Prefix(address, 4)
    ensures h.Some? ==> g == Turned(h.value) && h.value == Turned(g)
  {
    hide Reference, Turned;
    g := Generate(buf);
    h := Hash(buf, address);
    if h.Some? {
      TurnedTwice(h.value);
    }
  }
}
