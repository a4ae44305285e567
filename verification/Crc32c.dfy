/** CRC-32C: the strided computation against the byte-at-a-time one (util/crc32c.cc, util/crc32c.h). */
module Crc32c {

  type Byte = bv8

  /** The CRC-32C polynomial of section 12.1 of RFC 3720, bit-reversed. */
  const POLYNOMIAL: bv32 := 0x82f63b78

  const XOR_OUT: bv32 := 0xffffffff

  function Xor(a: bv32, b: bv32): bv32 {
    a ^ b
  }

  function ShiftBit(l: bv32): bv32 {
    if l & 1 == 1 then Xor(Shr1(l), POLYNOMIAL) else Shr1(l)
  }

  function Shr1(l: bv32): bv32 {
    l >> 1
  }

  /** The register after one more zero byte. */
  function Advance1(l: bv32): bv32 {
    ShiftBit(ShiftBit(ShiftBit(ShiftBit(ShiftBit(ShiftBit(ShiftBit(ShiftBit(l))))))))
  }

  /** The register after n more zero bytes. */
  function Advance(n: nat, l: bv32): bv32 {
    if n == 0 then l else Advance1(Advance(n - 1, l))
  }

  /** kByteExtensionTable. */
  function ByteTable(c: bv32): bv32 {
    Advance1(c)
  }

  // kStrideExtensionTable0 to 3: sixteen zero bytes after the byte at each place of a word.
  function StrideTable0(c: bv32): bv32 { Advance(16, c << 24) }
  function StrideTable1(c: bv32): bv32 { Advance(16, c << 16) }
  function StrideTable2(c: bv32): bv32 { Advance(16, c << 8) }
  function StrideTable3(c: bv32): bv32 { Advance(16, c) }

  function Shr8(l: bv32): bv32 {
    l >> 8
  }

  /** The table index: the low byte of the register against the data byte. */
  function Index(l: bv32, b: Byte): bv32 {
    (l & 0xff) ^ (b as bv32)
  }

  /** One byte, through the table. */
  function Step1(l: bv32, b: Byte): bv32 {
    Xor(ByteTable(Index(l, b)), Shr8(l))
  }

  function Fold(l: bv32, data: seq<Byte>): bv32 {
    if data == [] then l else Step1(Fold(l, data[..|data| - 1]), data[|data| - 1])
  }

  /** The CRC of a string extended by `data`, one byte at a time. */
  function Extended(crc: bv32, data: seq<Byte>): bv32 {
    Xor(Fold(Xor(crc, XOR_OUT), data), XOR_OUT)
  }

  function Value(data: seq<Byte>): bv32 {
    Extended(0, data)
  }

  function Mask(crc: bv32): bv32 {
    ((crc >> 15) | (crc << 17)) + 0xa282ead8
  }

  function Unmask(masked: bv32): bv32 {
    var rot := masked - 0xa282ead8;
    (rot >> 17) | (rot << 15)
  }

  lemma UnmaskMask(crc: bv32)
    ensures Unmask(Mask(crc)) == crc
  {
  }

  lemma {:induction false} FoldConcat(l: bv32, a: seq<Byte>, b: seq<Byte>)
    ensures Fold(l, a + b) == Fold(Fold(l, a), b)
  {
    hide Step1;
    if b == [] {
      assert a + b == a;
    } else {
      var n := |b| - 1;
      FoldConcat(l, a, b[..n]);
      assert (a + b)[..|a + b| - 1] == a + b[..n];
    }
  }

  lemma XorTwice(a: bv32)
    ensures Xor(Xor(a, XOR_OUT), XOR_OUT) == a
  {
  }

  /** Extending by a and then by b is extending by their concatenation. */
  lemma ExtendConcat(crc: bv32, a: seq<Byte>, b: seq<Byte>)
    ensures Extended(Extended(crc, a), b) == Extended(crc, a + b)
  {
    hide Fold, Xor;
    XorTwice(Fold(Xor(crc, XOR_OUT), a));
    FoldConcat(Xor(crc, XOR_OUT), a, b);
  }

  // ---------------------------------------------------------------------------------------------------------
  // Linearity
  // ---------------------------------------------------------------------------------------------------------

  lemma XorComm(a: bv32, b: bv32)
    ensures Xor(a, b) == Xor(b, a)
  {
  }

  lemma XorAssoc(a: bv32, b: bv32, c: bv32)
    ensures Xor(Xor(a, b), c) == Xor(a, Xor(b, c))
  {
  }

  lemma XorSelf(a: bv32)
    ensures Xor(a, a) == 0 && Xor(a, 0) == a && Xor(0, a) == a
  {
  }

  lemma Interchange(a: bv32, b: bv32, c: bv32, d: bv32)
    ensures Xor(Xor(a, b), Xor(c, d)) == Xor(Xor(a, c), Xor(b, d))
  {
    hide Xor;
    XorAssoc(a, b, Xor(c, d));
    XorAssoc(b, c, d);
    XorComm(b, c);
    XorAssoc(c, b, d);
    XorAssoc(a, c, Xor(b, d));
  }

  lemma ShiftXor(a: bv32, b: bv32)
    ensures Shr1(Xor(a, b)) == Xor(Shr1(a), Shr1(b))
  {
  }

  lemma LowBitXor(a: bv32, b: bv32)
    ensures Xor(a, b) & 1 == (a & 1) ^ (b & 1)
  {
  }

  lemma LowBit(a: bv32)
    ensures a & 1 == 0 || a & 1 == 1
  {
  }

  lemma ShiftBitLinear(a: bv32, b: bv32)
    ensures ShiftBit(Xor(a, b)) == Xor(ShiftBit(a), ShiftBit(b))
  {
    hide Xor, Shr1;
    var x, y, p := Shr1(a), Shr1(b), POLYNOMIAL;
    ShiftXor(a, b);
    LowBitXor(a, b);
    LowBit(a);
    LowBit(b);
    Interchange(x, p, y, p);
    Interchange(x, p, y, 0);
    Interchange(x, 0, y, p);
    XorSelf(x);
    XorSelf(y);
    XorSelf(p);
    XorSelf(Xor(x, y));
  }

  lemma Advance1Linear(a: bv32, b: bv32)
    ensures Advance1(Xor(a, b)) == Xor(Advance1(a), Advance1(b))
  {
    hide ShiftBit, Xor;
    var a1, b1 := ShiftBit(a), ShiftBit(b);
    ShiftBitLinear(a, b);
    var a2, b2 := ShiftBit(a1), ShiftBit(b1);
    ShiftBitLinear(a1, b1);
    var a3, b3 := ShiftBit(a2), ShiftBit(b2);
    ShiftBitLinear(a2, b2);
    var a4, b4 := ShiftBit(a3), ShiftBit(b3);
    ShiftBitLinear(a3, b3);
    var a5, b5 := ShiftBit(a4), ShiftBit(b4);
    ShiftBitLinear(a4, b4);
    var a6, b6 := ShiftBit(a5), ShiftBit(b5);
    ShiftBitLinear(a5, b5);
    var a7, b7 := ShiftBit(a6), ShiftBit(b6);
    ShiftBitLinear(a6, b6);
    ShiftBitLinear(a7, b7);
  }

  lemma {:induction false} AdvanceLinear(n: nat, a: bv32, b: bv32)
    ensures Advance(n, Xor(a, b)) == Xor(Advance(n, a), Advance(n, b))
  {
    hide Advance1, Xor;
    if n > 0 {
      AdvanceLinear(n - 1, a, b);
      Advance1Linear(Advance(n - 1, a), Advance(n - 1, b));
    }
  }

  lemma {:induction false} AdvanceAdd(m: nat, n: nat, a: bv32)
    ensures Advance(m + n, a) == Advance(m, Advance(n, a))
  {
    hide Advance1;
    if m > 0 {
      AdvanceAdd(m - 1, n, a);
    }
  }

  /** The entries of kByteExtensionTable at the powers of two, which by linearity give all the others. */
  lemma TableBasis()
    ensures ByteTable(0x01) == 0xf26b8303 && ByteTable(0x02) == 0xe13b70f7 && ByteTable(0x04) == 0xc79a971f
      && ByteTable(0x08) == 0x8ad958cf
    ensures ByteTable(0x10) == 0x105ec76f && ByteTable(0x20) == 0x20bd8ede && ByteTable(0x40) == 0x417b1dbc
      && ByteTable(0x80) == 0x82f63b78
    ensures ByteTable(0) == 0 && forall a, b :: ByteTable(Xor(a, b)) == Xor(ByteTable(a), ByteTable(b))
  {
    TableEntries();
    hide Advance1, Xor;
    forall a, b
      ensures ByteTable(Xor(a, b)) == Xor(ByteTable(a), ByteTable(b))
    {
      Advance1Linear(a, b);
    }
  }

  lemma TableEntries()
    ensures ByteTable(0x01) == 0xf26b8303 && ByteTable(0x02) == 0xe13b70f7 && ByteTable(0x04) == 0xc79a971f
      && ByteTable(0x08) == 0x8ad958cf
    ensures ByteTable(0x10) == 0x105ec76f && ByteTable(0x20) == 0x20bd8ede && ByteTable(0x40) == 0x417b1dbc
      && ByteTable(0x80) == 0x82f63b78
    ensures ByteTable(0) == 0
  {
  }

  /** With a zero low byte, a zero byte shifts the register. */
  lemma HighBytes(x: bv32)
    requires x & 0xff == 0
    ensures Advance1(x) == Shr8(x)
  {
  }

  lemma SplitByte(l: bv32, b: Byte)
    ensures Xor(l, b as bv32) == Xor(Index(l, b), l & 0xffffff00)
    ensures (l & 0xffffff00) & 0xff == 0 && Shr8(l & 0xffffff00) == Shr8(l)
  {
  }

  /** The table step is the bit-by-bit step. */
  lemma Step1IsAdvance(l: bv32, b: Byte)
    ensures Step1(l, b) == Advance1(Xor(l, b as bv32))
  {
    hide Advance1, Xor, Index, Shr8;
    SplitByte(l, b);
    HighBytes(l & 0xffffff00);
    Advance1Linear(Index(l, b), l & 0xffffff00);
  }

  // ---------------------------------------------------------------------------------------------------------
  // Words
  // ---------------------------------------------------------------------------------------------------------

  /** Four bytes, least significant first. */
  function Word(data: seq<Byte>, p: nat): bv32
    requires p + 4 <= |data|
  {
    Join(data[p], data[p + 1], data[p + 2], data[p + 3])
  }

  function Join(a: Byte, b: Byte, c: Byte, d: Byte): bv32 {
    (a as bv32) | ((b as bv32) << 8) | ((c as bv32) << 16) | ((d as bv32) << 24)
  }

  function Up8(l: bv32): bv32 { l << 8 }
  function Up16(l: bv32): bv32 { l << 16 }
  function Up24(l: bv32): bv32 { l << 24 }

  lemma JoinIsXor(a: Byte, b: Byte, c: Byte, d: Byte)
    ensures Join(a, b, c, d) == Xor(a as bv32, Xor(Up8(b as bv32), Xor(Up16(c as bv32), Up24(d as bv32))))
  {
  }

  lemma UpByte(b: Byte)
    ensures Advance(1, Up8(b as bv32)) == b as bv32
    ensures Advance(2, Up16(b as bv32)) == b as bv32
    ensures Advance(3, Up24(b as bv32)) == b as bv32
  {
    hide Advance1;
    var x := b as bv32;
    UpFacts(x, b);
    HighBytes(Up8(x));
    HighBytes(Up16(x));
    HighBytes(Up24(x));
    AdvanceAdd(1, 1, Up16(x));
    AdvanceAdd(2, 1, Up24(x));
  }

  lemma AdvanceOne(x: bv32)
    ensures Advance(1, x) == Advance1(x)
  {
    hide Advance1;
    assert Advance(0, x) == x;
  }

  /** One more byte on top of a register advanced n times. */
  lemma AdvanceStep(n: nat, l: bv32, b: bv32)
    ensures Advance(n, Advance1(Xor(l, b))) == Xor(Advance(n + 1, l), Advance(n + 1, b))
  {
    hide Advance1, Xor, Advance;
    AdvanceOne(Xor(l, b));
    AdvanceAdd(n, 1, Xor(l, b));
    AdvanceLinear(n + 1, l, b);
  }

  lemma UpFacts(x: bv32, b: Byte)
    requires x == b as bv32
    ensures Up8(x) & 0xff == 0 && Shr8(Up8(x)) == x
    ensures Up16(x) & 0xff == 0 && Shr8(Up16(x)) == Up8(x)
    ensures Up24(x) & 0xff == 0 && Shr8(Up24(x)) == Up16(x)
  {
  }

  /** Four bytes at once. */
  lemma FoldWord(l: bv32, a: Byte, b: Byte, c: Byte, d: Byte)
    ensures Step1(Step1(Step1(Step1(l, a), b), c), d) == Advance(4, Xor(l, Join(a, b, c, d)))
  {
    hide Advance1, Advance, Xor, Step1, Join, Up8, Up16, Up24;
    var A, B, C, D := a as bv32, b as bv32, c as bv32, d as bv32;
    Step1IsAdvance(l, a);
    var l1 := Step1(l, a);
    Step1IsAdvance(l1, b);
    var l2 := Step1(l1, b);
    Step1IsAdvance(l2, c);
    var l3 := Step1(l2, c);
    Step1IsAdvance(l3, d);
    AdvanceZero(Advance1(Xor(l3, D)));
    AdvanceStep(0, l3, D);
    AdvanceStep(1, l2, C);
    AdvanceStep(2, l1, B);
    AdvanceStep(3, l, A);
    JoinIsXor(a, b, c, d);
    UpByte(b);
    UpByte(c);
    UpByte(d);
    AdvanceAdd(3, 1, Up8(B));
    AdvanceAdd(2, 2, Up16(C));
    AdvanceAdd(1, 3, Up24(D));
    var low := Xor(Up16(C), Up24(D));
    var mid := Xor(Up8(B), low);
    AdvanceLinear(4, l, Xor(A, mid));
    AdvanceLinear(4, A, mid);
    AdvanceLinear(4, Up8(B), low);
    AdvanceLinear(4, Up16(C), Up24(D));
    XorAssoc(Xor(Xor(Advance(4, l), Advance(4, A)), Advance(3, B)), Advance(2, C), Advance(1, D));
    XorAssoc(Xor(Advance(4, l), Advance(4, A)), Advance(3, B), Xor(Advance(2, C), Advance(1, D)));
    XorAssoc(Advance(4, l), Advance(4, A), Xor(Advance(3, B), Xor(Advance(2, C), Advance(1, D))));
  }

  lemma AdvanceZero(x: bv32)
    ensures Advance(0, x) == x
  {
  }

  // ---------------------------------------------------------------------------------------------------------
  // Strides
  // ---------------------------------------------------------------------------------------------------------

  function Byte0(x: bv32): bv32 { x & 0xff }
  function Byte1(x: bv32): bv32 { (x >> 8) & 0xff }
  function Byte2(x: bv32): bv32 { (x >> 16) & 0xff }
  function Byte3(x: bv32): bv32 { x >> 24 }

  /** STEP4: one word of a stride, through the four stride tables. */
  function Step4(crc: bv32, w: bv32): bv32 {
    Xor(Xor(Xor(Xor(w, StrideTable3(Byte0(crc))), StrideTable2(Byte1(crc))), StrideTable1(Byte2(crc))),
        StrideTable0(Byte3(crc)))
  }

  lemma SplitWord(x: bv32)
    ensures Xor(Xor(Xor(Byte0(x), Byte1(x) << 8), Byte2(x) << 16), Byte3(x) << 24) == x
  {
  }

  lemma Step4IsAdvance(crc: bv32, w: bv32)
    ensures Step4(crc, w) == Xor(w, Advance(16, crc))
  {
    hide Xor, Advance, Byte0, Byte1, Byte2, Byte3;
    var a, b, c, d := Byte0(crc), Byte1(crc) << 8, Byte2(crc) << 16, Byte3(crc) << 24;
    SplitWord(crc);
    AdvanceLinear(16, Xor(Xor(a, b), c), d);
    AdvanceLinear(16, Xor(a, b), c);
    AdvanceLinear(16, a, b);
    var A, B, C, D := Advance(16, a), Advance(16, b), Advance(16, c), Advance(16, d);
    XorAssoc(w, A, B);
    XorAssoc(w, Xor(A, B), C);
    XorAssoc(w, Xor(Xor(A, B), C), D);
  }

  /** One word, from a register. */
  function WordStep(l: bv32, w: bv32): bv32 {
    Advance(4, Xor(l, w))
  }

  /** The register that four partial stride results stand for. */
  function Chain(c0: bv32, c1: bv32, c2: bv32, c3: bv32): bv32 {
    WordStep(WordStep(WordStep(Advance(4, c0), c1), c2), c3)
  }

  lemma WordStepLinear(l: bv32, m: bv32, w: bv32)
    ensures WordStep(Xor(l, m), w) == Xor(Advance(4, l), WordStep(m, w))
  {
    hide Xor, Advance;
    XorAssoc(l, m, w);
    AdvanceLinear(4, l, Xor(m, w));
  }

  /** Feeding a word to the oldest stride and rotating the strides feeds the word to the register. */
  lemma ChainStep(c0: bv32, c1: bv32, c2: bv32, c3: bv32, w: bv32)
    ensures Chain(c1, c2, c3, Xor(w, Advance(16, c0))) == WordStep(Chain(c0, c1, c2, c3), w)
  {
    hide Xor, Advance;
    var g1 := Advance(4, c1);
    var g2 := WordStep(g1, c2);
    var g3 := WordStep(g2, c3);
    AdvanceLinear(4, Advance(4, c0), c1);
    AdvanceAdd(4, 4, c0);
    assert WordStep(Advance(4, c0), c1) == Xor(Advance(8, c0), g1);
    WordStepLinear(Advance(8, c0), g1, c2);
    AdvanceAdd(4, 8, c0);
    WordStepLinear(Advance(12, c0), g2, c3);
    AdvanceAdd(4, 12, c0);
    assert Chain(c0, c1, c2, c3) == Xor(Advance(16, c0), g3);
    XorComm(Advance(16, c0), g3);
    XorAssoc(g3, Advance(16, c0), w);
    XorComm(Advance(16, c0), w);
  }

  lemma FoldOne(l: bv32, data: seq<Byte>, p: nat)
    requires p < |data|
    ensures Fold(l, data[..p + 1]) == Step1(Fold(l, data[..p]), data[p])
  {
    hide Step1;
    assert data[..p + 1][..p] == data[..p];
  }

  lemma FoldFour(l: bv32, data: seq<Byte>, p: nat)
    requires p + 4 <= |data|
    ensures Fold(l, data[..p + 4]) == WordStep(Fold(l, data[..p]), Word(data, p))
  {
    hide Step1, Fold, Advance, Xor, Join;
    FoldOne(l, data, p);
    FoldOne(l, data, p + 1);
    FoldOne(l, data, p + 2);
    FoldOne(l, data, p + 3);
    FoldWord(Fold(l, data[..p]), data[p], data[p + 1], data[p + 2], data[p + 3]);
  }

  /** STEP4W: four table steps without data. */
  method Step4W(w: bv32, l: bv32) returns (r: bv32)
    ensures r == WordStep(w, l)
  {
    hide Xor, Advance, Advance1, ByteTable, Step1, Index, Shr8;
    r := Xor(w, l);
    AdvanceZero(r);
    ghost var start := r;
    var i := 0;
    while i < 4
      invariant 0 <= i <= 4 && r == Advance(i, start)
    {
      ZeroByte(r);
      AdvanceOne(r);
      AdvanceAdd(1, i, start);
      r := Xor(Shr8(r), ByteTable(Byte0(r)));
      i := i + 1;
    }
  }

  lemma ZeroByte(w: bv32)
    ensures Xor(Shr8(w), ByteTable(Byte0(w))) == Advance1(w)
  {
    hide Xor, Advance1, Shr8, Index;
    Step1IsAdvance(w, 0);
    XorSelf(w);
    assert Index(w, 0) == Byte0(w) by { IndexZero(w); }
    XorComm(ByteTable(Byte0(w)), Shr8(w));
  }

  lemma IndexZero(w: bv32)
    ensures Index(w, 0) == Byte0(w)
  {
  }

  lemma FirstSwath(l: bv32, w0: bv32, w1: bv32, w2: bv32, w3: bv32)
    ensures Chain(Xor(w0, l), w1, w2, w3) == WordStep(WordStep(WordStep(WordStep(l, w0), w1), w2), w3)
  {
    hide Xor, Advance;
    XorComm(w0, l);
  }

  /** The loops over words, for a buffer of at least sixteen bytes from p on. */
  method ExtendWords(l: bv32, data: seq<Byte>, from: nat, ghost l0: bv32) returns (r: bv32, p: nat)
    requires from + 16 <= |data| && l == Fold(l0, data[..from])
    ensures from <= p <= |data| && r == Fold(l0, data[..p])
  {
    hide Xor, Advance, Step1, Fold, Join, WordStep, Chain, Step4;
    p := from;
    FoldFour(l0, data, p);
    FoldFour(l0, data, p + 4);
    FoldFour(l0, data, p + 8);
    FoldFour(l0, data, p + 12);
    FirstSwath(l, Word(data, p), Word(data, p + 4), Word(data, p + 8), Word(data, p + 12));
    var crc0 := Xor(Word(data, p), l);
    var crc1, crc2, crc3 := Word(data, p + 4), Word(data, p + 8), Word(data, p + 12);
    p := p + 16;
    while |data| - p >= 16
      invariant from <= p <= |data|
      invariant Fold(l0, data[..p]) == Chain(crc0, crc1, crc2, crc3)
    {
      StrideWord(l0, data, p, crc0, crc1, crc2, crc3);
      crc0 := Step4(crc0, Word(data, p));
      StrideWord(l0, data, p + 4, crc1, crc2, crc3, crc0);
      crc1 := Step4(crc1, Word(data, p + 4));
      StrideWord(l0, data, p + 8, crc2, crc3, crc0, crc1);
      crc2 := Step4(crc2, Word(data, p + 8));
      StrideWord(l0, data, p + 12, crc3, crc0, crc1, crc2);
      crc3 := Step4(crc3, Word(data, p + 12));
      p := p + 16;
    }
    while |data| - p >= 4
      invariant from <= p <= |data|
      invariant Fold(l0, data[..p]) == Chain(crc0, crc1, crc2, crc3)
    {
      StrideWord(l0, data, p, crc0, crc1, crc2, crc3);
      crc0 := Step4(crc0, Word(data, p));
      crc0, crc1, crc2, crc3 := crc1, crc2, crc3, crc0;
      p := p + 4;
    }
    r := Step4W(crc0, 0);
    r := Step4W(crc1, r);
    r := Step4W(crc2, r);
    r := Step4W(crc3, r);
    ChainByWords(crc0, crc1, crc2, crc3);
  }

  lemma ChainByWords(c0: bv32, c1: bv32, c2: bv32, c3: bv32)
    ensures Chain(c0, c1, c2, c3) == WordStep(c3, WordStep(c2, WordStep(c1, WordStep(c0, 0))))
  {
    hide Xor, Advance;
    XorSelf(c0);
    var l0 := Advance(4, c0);
    XorComm(l0, c1);
    var l1 := WordStep(l0, c1);
    XorComm(l1, c2);
    var l2 := WordStep(l1, c2);
    XorComm(l2, c3);
  }

  lemma StrideWord(l0: bv32, data: seq<Byte>, p: nat, c0: bv32, c1: bv32, c2: bv32, c3: bv32)
    requires p + 4 <= |data| && Fold(l0, data[..p]) == Chain(c0, c1, c2, c3)
    ensures Fold(l0, data[..p + 4]) == Chain(c1, c2, c3, Step4(c0, Word(data, p)))
  {
    hide Xor, Advance, Step1, Fold, Join, WordStep, Chain, Step4;
    FoldFour(l0, data, p);
    Step4IsAdvance(c0, Word(data, p));
    ChainStep(c0, c1, c2, c3, Word(data, p));
  }

  /** The strided computation gives the byte-at-a-time CRC for every buffer, whatever its length and address. */
  method Extend(crc: bv32, data: seq<Byte>, address: nat) returns (r: bv32)
    ensures r == Extended(crc, data)
    ensures r == FeedBits(crc ^ 0xffff_ffff, AllBits(data)) ^ 0xffff_ffff
  {
    ExtendedIsComplement(crc, data);
    hide Xor, Step1, Fold, FeedBits, AllBits;
    var p, l := 0, Xor(crc, XOR_OUT);
    ghost var l0 := l;
    assert Fold(l0, data[..0]) == l0 by { FoldNothing(l0); }
    var x := (4 - address % 4) % 4;
    if x <= |data| {
      while p != x
        invariant 0 <= p <= x && l == Fold(l0, data[..p])
        decreases x - p
      {
        FoldOne(l0, data, p);
        l := Step1(l, data[p]);
        p := p + 1;
      }
    }
    if |data| - p >= 16 {
      l, p := ExtendWords(l, data, p, l0);
    }
    while p != |data|
      invariant 0 <= p <= |data| && l == Fold(l0, data[..p])
      decreases |data| - p
    {
      FoldOne(l0, data, p);
      l := Step1(l, data[p]);
      p := p + 1;
    }
    assert data[..p] == data;
    r := Xor(l, XOR_OUT);
  }

  lemma FoldNothing(l: bv32)
    ensures forall data: seq<Byte> :: data == [] ==> Fold(l, data) == l
  {
  }

  // ---------------------------------------------------------------------------------------------------------
  // What the checksum is
  // ---------------------------------------------------------------------------------------------------------

  predicate Odd(l: bv32) {
    l & 1 == 1
  }

  /** One bit of the message against the lowest bit of the register, which is divided by the polynomial if they differ.
      */
  function BitStep(l: bv32, bit: bool): bv32 {
    if Odd(l) != bit then Xor(Shr1(l), 0x82f63b78) else Shr1(l)
  }

  function FeedBits(l: bv32, bits: seq<bool>): bv32 {
    if bits == [] then l else BitStep(FeedBits(l, bits[..|bits| - 1]), bits[|bits| - 1])
  }

  /** The byte, moved down by `k` bits. */
  function Down(b: Byte, k: nat): bv32 {
    if k == 0 then b as bv32 else Shr1(Down(b, k - 1))
  }

  /** The bits of a byte, the lowest first. */
  function BitsOf(b: Byte): (r: seq<bool>)
    ensures |r| == 8
  {
    seq(8, k requires 0 <= k < 8 => Odd(Down(b, k)))
  }

  function AllBits(data: seq<Byte>): seq<bool> {
    if data == [] then [] else AllBits(data[..|data| - 1]) + BitsOf(data[|data| - 1])
  }

  lemma OddXor(a: bv32, b: bv32)
    ensures Odd(Xor(a, b)) == (Odd(a) != Odd(b))
  {
  }

  /** Data that is in the register already acts like data that is fed bit by bit. */
  lemma ShiftFeeds(l: bv32, c: bv32)
    ensures ShiftBit(Xor(l, c)) == Xor(BitStep(l, Odd(c)), Shr1(c))
  {
    var x, y, z := Shr1(l), Shr1(c), Xor(l, c);
    assert ShiftBit(z) == if Odd(z) then Xor(Shr1(z), 0x82f63b78) else Shr1(z);
    hide Xor, Shr1, Odd, ShiftBit;
    ShiftXor(l, c);
    OddXor(l, c);
    XorAssoc(x, y, 0x82f63b78);
    XorComm(y, 0x82f63b78);
    XorAssoc(x, 0x82f63b78, y);
  }

  lemma NothingAbove(b: Byte)
    ensures Down(b, 8) == 0
  {
    var c := b as bv32;
    assert Down(b, 1) == Shr1(c);
    assert Down(b, 2) == Shr1(Shr1(c));
    assert Down(b, 3) == Shr1(Shr1(Shr1(c)));
    assert Down(b, 4) == Shr1(Shr1(Shr1(Shr1(c))));
    assert Down(b, 5) == Shr1(Shr1(Shr1(Shr1(Shr1(c)))));
    assert Down(b, 6) == Shr1(Shr1(Shr1(Shr1(Shr1(Shr1(c))))));
    assert Down(b, 7) == Shr1(Shr1(Shr1(Shr1(Shr1(Shr1(Shr1(c)))))));
    assert Down(b, 8) == Shr1(Shr1(Shr1(Shr1(Shr1(Shr1(Shr1(Shr1(c))))))));
    hide Down;
    EightDown(c);
  }

  lemma EightDown(c: bv32)
    requires c <= 0xff
    ensures Shr1(Shr1(Shr1(Shr1(Shr1(Shr1(Shr1(Shr1(c)))))))) == 0
  {
  }

  /** `k` shifts of the register with the byte in it. */
  function Shifted(l: bv32, k: nat): bv32 {
    if k == 0 then l else ShiftBit(Shifted(l, k - 1))
  }

  lemma {:induction false} ShiftsFeed(l: bv32, b: Byte, k: nat)
    requires k <= 8
    ensures Shifted(Xor(l, b as bv32), k) == Xor(FeedBits(l, BitsOf(b)[..k]), Down(b, k))
  {
    hide Xor, Shr1, Odd, ShiftBit, BitStep;
    if k > 0 {
      ShiftsFeed(l, b, k - 1);
      ShiftFeeds(FeedBits(l, BitsOf(b)[..k - 1]), Down(b, k - 1));
      assert BitsOf(b)[..k][..k - 1] == BitsOf(b)[..k - 1];
    }
  }

  lemma ShiftedEight(l: bv32)
    ensures Shifted(l, 8) == Advance1(l)
  {
    hide ShiftBit;
    assert Shifted(l, 1) == ShiftBit(l);
    assert Shifted(l, 2) == ShiftBit(Shifted(l, 1));
    assert Shifted(l, 3) == ShiftBit(Shifted(l, 2));
    assert Shifted(l, 4) == ShiftBit(Shifted(l, 3));
    assert Shifted(l, 5) == ShiftBit(Shifted(l, 4));
    assert Shifted(l, 6) == ShiftBit(Shifted(l, 5));
    assert Shifted(l, 7) == ShiftBit(Shifted(l, 6));
  }

  lemma ByteIsBits(l: bv32, b: Byte)
    ensures Step1(l, b) == FeedBits(l, BitsOf(b))
  {
    hide Xor, Shr1, Odd, ShiftBit, BitStep, Step1, Advance1, Down, Shifted, FeedBits, BitsOf;
    NothingAbove(b);
    ShiftsFeed(l, b, 8);
    assert BitsOf(b)[..8] == BitsOf(b);
    ShiftedEight(Xor(l, b as bv32));
    Step1IsAdvance(l, b);
    XorSelf(FeedBits(l, BitsOf(b)));
  }

  lemma {:induction false} FeedConcat(l: bv32, a: seq<bool>, b: seq<bool>)
    ensures FeedBits(l, a + b) == FeedBits(FeedBits(l, a), b)
  {
    hide BitStep;
    if b == [] {
      assert a + b == a;
    } else {
      FeedConcat(l, a, b[..|b| - 1]);
      assert (a + b)[..|a + b| - 1] == a + b[..|b| - 1];
    }
  }

  lemma {:induction false} FoldIsBits(l: bv32, data: seq<Byte>)
    ensures Fold(l, data) == FeedBits(l, AllBits(data))
  {
    hide Step1, BitsOf, BitStep;
    if data != [] {
      var n := |data| - 1;
      FoldIsBits(l, data[..n]);
      ByteIsBits(Fold(l, data[..n]), data[n]);
      FeedConcat(l, AllBits(data[..n]), BitsOf(data[n]));
    }
  }

  /** The checksum is the complement of the register that starts with all ones and takes the bits of the data, the
      lowest of each byte first. */
  lemma ValueIsComplement(data: seq<Byte>)
    ensures Value(data) == FeedBits(0xffff_ffff, AllBits(data)) ^ 0xffff_ffff
  {
    hide Fold, FeedBits, AllBits;
    assert Xor(0, 0xffff_ffff) == 0xffff_ffff;
    FoldIsBits(0xffff_ffff, data);
  }

  /** The same of a checksum that is extended. */
  lemma ExtendedIsComplement(crc: bv32, data: seq<Byte>)
    ensures Extended(crc, data) == FeedBits(crc ^ 0xffff_ffff, AllBits(data)) ^ 0xffff_ffff
  {
    hide Fold, FeedBits, AllBits;
    FoldIsBits(crc ^ 0xffff_ffff, data);
  }

  // ---------------------------------------------------------------------------------------------------------
  // What the checksum detects
  // ---------------------------------------------------------------------------------------------------------

  lemma ShiftInjective(a: bv32, b: bv32)
    requires ShiftBit(a) == ShiftBit(b)
    ensures a == b
  {
  }

  lemma {:induction false} ShiftedInjective(a: bv32, b: bv32, k: nat)
    requires Shifted(a, k) == Shifted(b, k)
    ensures a == b
  {
    hide ShiftBit;
    if k > 0 {
      ShiftInjective(Shifted(a, k - 1), Shifted(b, k - 1));
      ShiftedInjective(a, b, k - 1);
    }
  }

  /** Registers or bytes that differ leave registers that differ. */
  lemma StepInjective(l: bv32, b: Byte, m: bv32, c: Byte)
    requires Step1(l, b) == Step1(m, c)
    ensures Xor(l, b as bv32) == Xor(m, c as bv32)
  {
    hide Step1, Advance1, Xor, Shifted;
    Step1IsAdvance(l, b);
    Step1IsAdvance(m, c);
    ShiftedEight(Xor(l, b as bv32));
    ShiftedEight(Xor(m, c as bv32));
    ShiftedInjective(Xor(l, b as bv32), Xor(m, c as bv32), 8);
  }

  lemma XorCancels(l: bv32, m: bv32, b: Byte, c: Byte)
    ensures Xor(l, b as bv32) == Xor(m, b as bv32) ==> l == m
    ensures Xor(l, b as bv32) == Xor(l, c as bv32) ==> b == c
  {
  }

  lemma {:induction false} FoldInjective(l: bv32, m: bv32, data: seq<Byte>)
    requires Fold(l, data) == Fold(m, data)
    ensures l == m
  {
    hide Step1, Xor;
    if data != [] {
      var n := |data| - 1;
      var x, y := Fold(l, data[..n]), Fold(m, data[..n]);
      StepInjective(x, data[n], y, data[n]);
      XorCancels(x, y, data[n], data[n]);
      FoldInjective(l, m, data[..n]);
    }
  }

  /** Two strings that differ in one byte have different checksums. */
  lemma OneByteDetected(before: seq<Byte>, b: Byte, c: Byte, after: seq<Byte>)
    requires b != c
    ensures Value(before + [b] + after) != Value(before + [c] + after)
  {
    hide Step1, Xor, Fold;
    var l0: bv32 := Xor(0, XOR_OUT);
    var l := Fold(l0, before);
    FoldConcat(l0, before + [b], after);
    FoldConcat(l0, before + [c], after);
    FoldSnoc(l0, before, b);
    FoldSnoc(l0, before, c);
    var x, y := Fold(l0, before + [b] + after), Fold(l0, before + [c] + after);
    if Xor(x, XOR_OUT) == Xor(y, XOR_OUT) {
      XorTwice(x);
      XorTwice(y);
      FoldInjective(Step1(l, b), Step1(l, c), after);
      StepInjective(l, b, l, c);
      XorCancels(l, l, b, c);
    }
  }

  lemma FoldSnoc(l: bv32, data: seq<Byte>, b: Byte)
    ensures Fold(l, data + [b]) == Step1(Fold(l, data), b)
  {
    hide Step1;
    assert (data + [b])[..|data|] == data;
  }

  // ---------------------------------------------------------------------------------------------------------
  // Check values
  // ---------------------------------------------------------------------------------------------------------

  function ZeroBytes(n: nat): seq<Byte> {
    seq(n, _ => 0)
  }

  lemma OneZero(l: bv32, n: nat)
    ensures Fold(l, ZeroBytes(n + 1)) == Step1(Fold(l, ZeroBytes(n)), 0)
  {
    hide Step1;
    assert ZeroBytes(n + 1)[..n] == ZeroBytes(n);
  }

  lemma ZerosFrom0To4()
    requires Fold(0xffff_ffff, ZeroBytes(0)) == 0xffffffff
    ensures Fold(0xffff_ffff, ZeroBytes(4)) == 0xb798b438
  {
    assert Step1(0xffffffff, 0) == 0xad82acae;
    assert Step1(0xad82acae, 0) == 0x0e9e882d;
    assert Step1(0x0e9e882d, 0) == 0x9f9b5c85;
    assert Step1(0x9f9b5c85, 0) == 0xb798b438;
    hide Step1, Fold, ZeroBytes;
    OneZero(0xffff_ffff, 0);
    OneZero(0xffff_ffff, 1);
    OneZero(0xffff_ffff, 2);
    OneZero(0xffff_ffff, 3);
  }

  lemma ZerosFrom4To8()
    requires Fold(0xffff_ffff, ZeroBytes(4)) == 0xb798b438
    ensures Fold(0xffff_ffff, ZeroBytes(8)) == 0x73d74d75
  {
    assert Step1(0xb798b438, 0) == 0xba8d89ca;
    assert Step1(0xba8d89ca, 0) == 0xa8d58375;
    assert Step1(0xa8d58375, 0) == 0x44c19592;
    assert Step1(0x44c19592, 0) == 0x73d74d75;
    hide Step1, Fold, ZeroBytes;
    OneZero(0xffff_ffff, 4);
    OneZero(0xffff_ffff, 5);
    OneZero(0xffff_ffff, 6);
    OneZero(0xffff_ffff, 7);
  }

  lemma ZerosFrom8To12()
    requires Fold(0xffff_ffff, ZeroBytes(8)) == 0x73d74d75
    ensures Fold(0xffff_ffff, ZeroBytes(12)) == 0xd49f4aa2
  {
    assert Step1(0x73d74d75, 0) == 0x441a975c;
    assert Step1(0x441a975c, 0) == 0x1c220f94;
    assert Step1(0x1c220f94, 0) == 0x552e4907;
    assert Step1(0x552e4907, 0) == 0xd49f4aa2;
    hide Step1, Fold, ZeroBytes;
    OneZero(0xffff_ffff, 8);
    OneZero(0xffff_ffff, 9);
    OneZero(0xffff_ffff, 10);
    OneZero(0xffff_ffff, 11);
  }

  lemma ZerosFrom12To16()
    requires Fold(0xffff_ffff, ZeroBytes(12)) == 0xd49f4aa2
    ensures Fold(0xffff_ffff, ZeroBytes(16)) == 0xbd8f6515
  {
    assert Step1(0xd49f4aa2, 0) == 0x43a45a1b;
    assert Step1(0x43a45a1b, 0) == 0x8994c80e;
    assert Step1(0x8994c80e, 0) == 0xacf12bef;
    assert Step1(0xacf12bef, 0) == 0xbd8f6515;
    hide Step1, Fold, ZeroBytes;
    OneZero(0xffff_ffff, 12);
    OneZero(0xffff_ffff, 13);
    OneZero(0xffff_ffff, 14);
    OneZero(0xffff_ffff, 15);
  }

  lemma ZerosFrom16To20()
    requires Fold(0xffff_ffff, ZeroBytes(16)) == 0xbd8f6515
    ensures Fold(0xffff_ffff, ZeroBytes(20)) == 0x433aa9c1
  {
    assert Step1(0xbd8f6515, 0) == 0x25125c16;
    assert Step1(0x25125c16, 0) == 0x36da32db;
    assert Step1(0x36da32db, 0) == 0x4a6c90a2;
    assert Step1(0x4a6c90a2, 0) == 0x433aa9c1;
    hide Step1, Fold, ZeroBytes;
    OneZero(0xffff_ffff, 16);
    OneZero(0xffff_ffff, 17);
    OneZero(0xffff_ffff, 18);
    OneZero(0xffff_ffff, 19);
  }

  lemma ZerosFrom20To24()
    requires Fold(0xffff_ffff, ZeroBytes(20)) == 0x433aa9c1
    ensures Fold(0xffff_ffff, ZeroBytes(24)) == 0x7b041311
  {
    assert Step1(0x433aa9c1, 0) == 0x31a59f6e;
    assert Step1(0x31a59f6e, 0) == 0xcd8f89da;
    assert Step1(0xcd8f89da, 0) == 0xb8fc461a;
    assert Step1(0xb8fc461a, 0) == 0x7b041311;
    hide Step1, Fold, ZeroBytes;
    OneZero(0xffff_ffff, 20);
    OneZero(0xffff_ffff, 21);
    OneZero(0xffff_ffff, 22);
    OneZero(0xffff_ffff, 23);
  }

  lemma ZerosFrom24To28()
    requires Fold(0xffff_ffff, ZeroBytes(24)) == 0x7b041311
    ensures Fold(0xffff_ffff, ZeroBytes(28)) == 0x08363896
  {
    assert Step1(0x7b041311, 0) == 0xe24e407f;
    assert Step1(0xe24e407f, 0) == 0x2f692669;
    assert Step1(0x2f692669, 0) == 0x195b2188;
    assert Step1(0x195b2188, 0) == 0x08363896;
    hide Step1, Fold, ZeroBytes;
    OneZero(0xffff_ffff, 24);
    OneZero(0xffff_ffff, 25);
    OneZero(0xffff_ffff, 26);
    OneZero(0xffff_ffff, 27);
  }

  lemma ZerosFrom28To32()
    requires Fold(0xffff_ffff, ZeroBytes(28)) == 0x08363896
    ensures Fold(0xffff_ffff, ZeroBytes(32)) == 0x756ec955
  {
    assert Step1(0x08363896, 0) == 0xb4012dc7;
    assert Step1(0xb4012dc7, 0) == 0x17f34302;
    assert Step1(0x17f34302, 0) == 0xe12c83b4;
    assert Step1(0xe12c83b4, 0) == 0x756ec955;
    hide Step1, Fold, ZeroBytes;
    OneZero(0xffff_ffff, 28);
    OneZero(0xffff_ffff, 29);
    OneZero(0xffff_ffff, 30);
    OneZero(0xffff_ffff, 31);
  }

  /** Check values: nothing, one zero byte, and the thirty-two zero bytes of appendix B.4 of RFC 3720. */
  lemma CheckValues()
    ensures Value([]) == 0 && Value(ZeroBytes(1)) == 0x527d5351 && Value(ZeroBytes(32)) == 0x8a9136aa
  {
    assert Xor(0, 0xffff_ffff) == 0xffff_ffff && Xor(0xffff_ffff, 0xffff_ffff) == 0;
    assert Xor(0xad82acae, 0xffff_ffff) == 0x527d5351 && Xor(0x756ec955, 0xffff_ffff) == 0x8a9136aa;
    assert ZeroBytes(0) == [] && Fold(0xffff_ffff, []) == 0xffff_ffff;
    assert Step1(0xffffffff, 0) == 0xad82acae;
    OneZero(0xffff_ffff, 0);
    hide Step1, Fold, ZeroBytes, Xor;
    ZerosFrom0To4();
    ZerosFrom4To8();
    ZerosFrom8To12();
    ZerosFrom12To16();
    ZerosFrom16To20();
    ZerosFrom20To24();
    ZerosFrom24To28();
    ZerosFrom28To32();
  }

  /** Masking is a rotation by fifteen bits to the right and an addition: its values at single bits. */
  lemma MaskValues()
    ensures Mask(0) == 0xa282ead8 && Mask(1) == 0xa284ead8 && Mask(0x8000) == 0xa282ead9 && Mask(0x4000) == 0x2282ead8
  {
  }
}
