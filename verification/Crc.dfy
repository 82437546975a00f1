/** CRC-16/MODBUS: the table-driven loop, the bit-serial division it stands for, and what it detects. */
module Crc {
  // ---- The two tables, sixteen entries a row ----

  function SelectFour(i: bv8, a: bv8, b: bv8, c: bv8, d: bv8): bv8 {
    if i & 2 == 0 then (if i & 1 == 0 then a else b) else (if i & 1 == 0 then c else d)
  }

  /** The entry numbered by the last four bits of `i`. */
  function Select(i: bv8,
                  v0: bv8, v1: bv8, v2: bv8, v3: bv8, v4: bv8, v5: bv8, v6: bv8, v7: bv8,
                  v8: bv8, v9: bv8, v10: bv8, v11: bv8, v12: bv8, v13: bv8, v14: bv8, v15: bv8): bv8
  {
    if i & 8 == 0
    then (if i & 4 == 0 then SelectFour(i, v0, v1, v2, v3) else SelectFour(i, v4, v5, v6, v7))
    else (if i & 4 == 0 then SelectFour(i, v8, v9, v10, v11) else SelectFour(i, v12, v13, v14, v15))
  }

  function TableCrcHi(i: bv8): bv8 {
    Select(i >> 4,
      Select(i, 0x00, 0xC1, 0x81, 0x40, 0x01, 0xC0, 0x80, 0x41, 0x01, 0xC0, 0x80, 0x41, 0x00, 0xC1, 0x81, 0x40),
      Select(i, 0x01, 0xC0, 0x80, 0x41, 0x00, 0xC1, 0x81, 0x40, 0x00, 0xC1, 0x81, 0x40, 0x01, 0xC0, 0x80, 0x41),
      Select(i, 0x01, 0xC0, 0x80, 0x41, 0x00, 0xC1, 0x81, 0x40, 0x00, 0xC1, 0x81, 0x40, 0x01, 0xC0, 0x80, 0x41),
      Select(i, 0x00, 0xC1, 0x81, 0x40, 0x01, 0xC0, 0x80, 0x41, 0x01, 0xC0, 0x80, 0x41, 0x00, 0xC1, 0x81, 0x40),
      Select(i, 0x01, 0xC0, 0x80, 0x41, 0x00, 0xC1, 0x81, 0x40, 0x00, 0xC1, 0x81, 0x40, 0x01, 0xC0, 0x80, 0x41),
      Select(i, 0x00, 0xC1, 0x81, 0x40, 0x01, 0xC0, 0x80, 0x41, 0x01, 0xC0, 0x80, 0x41, 0x00, 0xC1, 0x81, 0x40),
      Select(i, 0x00, 0xC1, 0x81, 0x40, 0x01, 0xC0, 0x80, 0x41, 0x01, 0xC0, 0x80, 0x41, 0x00, 0xC1, 0x81, 0x40),
      Select(i, 0x01, 0xC0, 0x80, 0x41, 0x00, 0xC1, 0x81, 0x40, 0x00, 0xC1, 0x81, 0x40, 0x01, 0xC0, 0x80, 0x41),
      Select(i, 0x01, 0xC0, 0x80, 0x41, 0x00, 0xC1, 0x81, 0x40, 0x00, 0xC1, 0x81, 0x40, 0x01, 0xC0, 0x80, 0x41),
      Select(i, 0x00, 0xC1, 0x81, 0x40, 0x01, 0xC0, 0x80, 0x41, 0x01, 0xC0, 0x80, 0x41, 0x00, 0xC1, 0x81, 0x40),
      Select(i, 0x00, 0xC1, 0x81, 0x40, 0x01, 0xC0, 0x80, 0x41, 0x01, 0xC0, 0x80, 0x41, 0x00, 0xC1, 0x81, 0x40),
      Select(i, 0x01, 0xC0, 0x80, 0x41, 0x00, 0xC1, 0x81, 0x40, 0x00, 0xC1, 0x81, 0x40, 0x01, 0xC0, 0x80, 0x41),
      Select(i, 0x00, 0xC1, 0x81, 0x40, 0x01, 0xC0, 0x80, 0x41, 0x01, 0xC0, 0x80, 0x41, 0x00, 0xC1, 0x81, 0x40),
      Select(i, 0x01, 0xC0, 0x80, 0x41, 0x00, 0xC1, 0x81, 0x40, 0x00, 0xC1, 0x81, 0x40, 0x01, 0xC0, 0x80, 0x41),
      Select(i, 0x01, 0xC0, 0x80, 0x41, 0x00, 0xC1, 0x81, 0x40, 0x00, 0xC1, 0x81, 0x40, 0x01, 0xC0, 0x80, 0x41),
      Select(i, 0x00, 0xC1, 0x81, 0x40, 0x01, 0xC0, 0x80, 0x41, 0x01, 0xC0, 0x80, 0x41, 0x00, 0xC1, 0x81, 0x40))
  }

  function TableCrcLo(i: bv8): bv8 {
    Select(i >> 4,
      Select(i, 0x00, 0xC0, 0xC1, 0x01, 0xC3, 0x03, 0x02, 0xC2, 0xC6, 0x06, 0x07, 0xC7, 0x05, 0xC5, 0xC4, 0x04),
      Select(i, 0xCC, 0x0C, 0x0D, 0xCD, 0x0F, 0xCF, 0xCE, 0x0E, 0x0A, 0xCA, 0xCB, 0x0B, 0xC9, 0x09, 0x08, 0xC8),
      Select(i, 0xD8, 0x18, 0x19, 0xD9, 0x1B, 0xDB, 0xDA, 0x1A, 0x1E, 0xDE, 0xDF, 0x1F, 0xDD, 0x1D, 0x1C, 0xDC),
      Select(i, 0x14, 0xD4, 0xD5, 0x15, 0xD7, 0x17, 0x16, 0xD6, 0xD2, 0x12, 0x13, 0xD3, 0x11, 0xD1, 0xD0, 0x10),
      Select(i, 0xF0, 0x30, 0x31, 0xF1, 0x33, 0xF3, 0xF2, 0x32, 0x36, 0xF6, 0xF7, 0x37, 0xF5, 0x35, 0x34, 0xF4),
      Select(i, 0x3C, 0xFC, 0xFD, 0x3D, 0xFF, 0x3F, 0x3E, 0xFE, 0xFA, 0x3A, 0x3B, 0xFB, 0x39, 0xF9, 0xF8, 0x38),
      Select(i, 0x28, 0xE8, 0xE9, 0x29, 0xEB, 0x2B, 0x2A, 0xEA, 0xEE, 0x2E, 0x2F, 0xEF, 0x2D, 0xED, 0xEC, 0x2C),
      Select(i, 0xE4, 0x24, 0x25, 0xE5, 0x27, 0xE7, 0xE6, 0x26, 0x22, 0xE2, 0xE3, 0x23, 0xE1, 0x21, 0x20, 0xE0),
      Select(i, 0xA0, 0x60, 0x61, 0xA1, 0x63, 0xA3, 0xA2, 0x62, 0x66, 0xA6, 0xA7, 0x67, 0xA5, 0x65, 0x64, 0xA4),
      Select(i, 0x6C, 0xAC, 0xAD, 0x6D, 0xAF, 0x6F, 0x6E, 0xAE, 0xAA, 0x6A, 0x6B, 0xAB, 0x69, 0xA9, 0xA8, 0x68),
      Select(i, 0x78, 0xB8, 0xB9, 0x79, 0xBB, 0x7B, 0x7A, 0xBA, 0xBE, 0x7E, 0x7F, 0xBF, 0x7D, 0xBD, 0xBC, 0x7C),
      Select(i, 0xB4, 0x74, 0x75, 0xB5, 0x77, 0xB7, 0xB6, 0x76, 0x72, 0xB2, 0xB3, 0x73, 0xB1, 0x71, 0x70, 0xB0),
      Select(i, 0x50, 0x90, 0x91, 0x51, 0x93, 0x53, 0x52, 0x92, 0x96, 0x56, 0x57, 0x97, 0x55, 0x95, 0x94, 0x54),
      Select(i, 0x9C, 0x5C, 0x5D, 0x9D, 0x5F, 0x9F, 0x9E, 0x5E, 0x5A, 0x9A, 0x9B, 0x5B, 0x99, 0x59, 0x58, 0x98),
      Select(i, 0x88, 0x48, 0x49, 0x89, 0x4B, 0x8B, 0x8A, 0x4A, 0x4E, 0x8E, 0x8F, 0x4F, 0x8D, 0x4D, 0x4C, 0x8C),
      Select(i, 0x44, 0x84, 0x85, 0x45, 0x87, 0x47, 0x46, 0x86, 0x82, 0x42, 0x43, 0x83, 0x41, 0x81, 0x80, 0x40))
  }

  function Word(hi: bv8, lo: bv8): bv16 {
    ((hi as bv16) << 8) | (lo as bv16)
  }

  // ---- Bit-serial division ----

  /** Addition of polynomials over the two-element field. */
  function Plus(a: bv16, b: bv16): bv16 {
    a ^ b
  }

  function Shifted(a: bv16): bv16 {
    a >> 1
  }

  function Plus8(a: bv8, b: bv8): bv8 {
    a ^ b
  }

  function Extend(b: bv8): bv16 {
    b as bv16
  }

  /** One step of dividing by the reflected polynomial. */
  function BitStep(s: bv16): bv16 {
    if s & 1 == 1 then Plus(Shifted(s), 0xA001) else Shifted(s)
  }

  function Lsb(b: bool): bv16 {
    if b then 1 else 0
  }

  /** The register after the bits of a message, each joining at the low end. */
  function Feed(s: bv16, bits: seq<bool>): bv16
    decreases |bits|
  {
    if bits == [] then s else Feed(BitStep(Plus(s, Lsb(bits[0]))), bits[1..])
  }

  /** The last `k` bits of `w`, least significant first. */
  function WordBits(w: bv16, k: nat): (s: seq<bool>)
    ensures |s| == k
    decreases k
  {
    if k == 0 then [] else [w & 1 == 1] + WordBits(Shifted(w), k - 1)
  }

  function ByteBits(b: bv8): (s: seq<bool>)
    ensures |s| == 8
  {
    WordBits(Extend(b), 8)
  }

  function MessageBits(message: seq<bv8>): (s: seq<bool>)
    ensures |s| == 8 * |message|
  {
    if message == [] then [] else ByteBits(message[0]) + MessageBits(message[1..])
  }

  function SerialCrc(message: seq<bv8>): bv16 {
    Feed(0xFFFF, MessageBits(message))
  }

  function EightSteps(s: bv16): bv16 {
    BitStep(BitStep(BitStep(BitStep(BitStep(BitStep(BitStep(BitStep(s))))))))
  }

  /** The register after one more byte. */
  function Fed(s: bv16, b: bv8): bv16 {
    EightSteps(Plus(s, Extend(b)))
  }

  // ---- Linearity ----

  lemma PlusParts(a: bv16, b: bv16)
    ensures Shifted(Plus(a, b)) == Plus(Shifted(a), Shifted(b))
    ensures Plus(a, b) & 1 == Plus(a & 1, b & 1)
  {
    assert (a ^ b) >> 1 == (a >> 1) ^ (b >> 1);
    assert (a ^ b) & 1 == (a & 1) ^ (b & 1);
  }

  lemma LastBit(a: bv16)
    ensures a & 1 == 0 || a & 1 == 1
  {
  }

  lemma PlusAssociates(a: bv16, b: bv16, c: bv16)
    ensures Plus(Plus(a, b), c) == Plus(a, Plus(b, c))
  {
  }

  lemma PlusCommutes(a: bv16, b: bv16)
    ensures Plus(a, b) == Plus(b, a)
  {
  }

  lemma PlusZero(a: bv16)
    ensures Plus(a, 0) == a == Plus(0, a)
  {
  }

  lemma PlusEqual(a: bv16, b: bv16)
    ensures Plus(a, b) == 0 <==> a == b
  {
    if Plus(a, b) == 0 {
      assert b == a ^ (a ^ b);
    }
  }

  lemma PlusCancels(a: bv16, b: bv16)
    ensures Plus(a, 0) == a == Plus(0, a)
    ensures Plus(a, b) == 0 <==> a == b
  {
    PlusZero(a);
    PlusEqual(a, b);
    hide Plus;
  }

  lemma PlusPairs(a: bv16, b: bv16, c: bv16, d: bv16)
    ensures Plus(Plus(a, b), Plus(c, d)) == Plus(Plus(a, c), Plus(b, d))
  {
    hide Plus;
    PlusAssociates(a, b, Plus(c, d));
    PlusAssociates(b, c, d);
    PlusAssociates(c, b, d);
    PlusAssociates(a, c, Plus(b, d));
    PlusCommutes(b, c);
  }

  /** A division step is linear. */
  lemma BitStepPlus(a: bv16, b: bv16)
    ensures BitStep(Plus(a, b)) == Plus(BitStep(a), BitStep(b))
  {
    hide Plus;
    hide Shifted;
    var x, y, m := Shifted(a), Shifted(b), 0xA001;
    PlusParts(a, b);
    LastBit(a);
    LastBit(b);
    PlusOfBits();
    PlusPairs(x, m, y, m);
    PlusPairs(x, m, y, 0);
    PlusPairs(x, 0, y, m);
    PlusCancels(m, m);
    PlusCancels(x, x);
    PlusCancels(y, y);
    PlusCancels(Plus(x, y), 0);
  }

  lemma PlusOfBits()
    ensures Plus(0, 0) == 0 && Plus(1, 1) == 0 && Plus(0, 1) == 1 && Plus(1, 0) == 1
  {
  }

  lemma EightStepsPlus(a: bv16, b: bv16)
    ensures EightSteps(Plus(a, b)) == Plus(EightSteps(a), EightSteps(b))
  {
    hide BitStep;
    hide Plus;
    var a1, b1 := BitStep(a), BitStep(b);
    var a2, b2 := BitStep(a1), BitStep(b1);
    var a3, b3 := BitStep(a2), BitStep(b2);
    var a4, b4 := BitStep(a3), BitStep(b3);
    var a5, b5 := BitStep(a4), BitStep(b4);
    var a6, b6 := BitStep(a5), BitStep(b5);
    BitStepPlus(a, b);
    BitStepPlus(a1, b1);
    BitStepPlus(a2, b2);
    BitStepPlus(a3, b3);
    BitStepPlus(a4, b4);
    BitStepPlus(a5, b5);
    BitStepPlus(a6, b6);
    BitStepPlus(BitStep(a6), BitStep(b6));
  }

  // ---- The tables are eight steps of their index ----

  lemma Entries0(i: bv8)
    requires i & 15 == 0
    ensures Word(TableCrcLo(i), TableCrcHi(i)) == EightSteps(Extend(i))
  {
    assert i == (i & 0xF0) | 0;
  }

  lemma Entries1(i: bv8)
    requires i & 15 == 1
    ensures Word(TableCrcLo(i), TableCrcHi(i)) == EightSteps(Extend(i))
  {
    assert i == (i & 0xF0) | 1;
  }

  lemma Entries2(i: bv8)
    requires i & 15 == 2
    ensures Word(TableCrcLo(i), TableCrcHi(i)) == EightSteps(Extend(i))
  {
    assert i == (i & 0xF0) | 2;
  }

  lemma Entries3(i: bv8)
    requires i & 15 == 3
    ensures Word(TableCrcLo(i), TableCrcHi(i)) == EightSteps(Extend(i))
  {
    assert i == (i & 0xF0) | 3;
  }

  lemma Entries4(i: bv8)
    requires i & 15 == 4
    ensures Word(TableCrcLo(i), TableCrcHi(i)) == EightSteps(Extend(i))
  {
    assert i == (i & 0xF0) | 4;
  }

  lemma Entries5(i: bv8)
    requires i & 15 == 5
    ensures Word(TableCrcLo(i), TableCrcHi(i)) == EightSteps(Extend(i))
  {
    assert i == (i & 0xF0) | 5;
  }

  lemma Entries6(i: bv8)
    requires i & 15 == 6
    ensures Word(TableCrcLo(i), TableCrcHi(i)) == EightSteps(Extend(i))
  {
    assert i == (i & 0xF0) | 6;
  }

  lemma Entries7(i: bv8)
    requires i & 15 == 7
    ensures Word(TableCrcLo(i), TableCrcHi(i)) == EightSteps(Extend(i))
  {
    assert i == (i & 0xF0) | 7;
  }

  lemma Entries8(i: bv8)
    requires i & 15 == 8
    ensures Word(TableCrcLo(i), TableCrcHi(i)) == EightSteps(Extend(i))
  {
    assert i == (i & 0xF0) | 8;
  }

  lemma Entries9(i: bv8)
    requires i & 15 == 9
    ensures Word(TableCrcLo(i), TableCrcHi(i)) == EightSteps(Extend(i))
  {
    assert i == (i & 0xF0) | 9;
  }

  lemma Entries10(i: bv8)
    requires i & 15 == 10
    ensures Word(TableCrcLo(i), TableCrcHi(i)) == EightSteps(Extend(i))
  {
    assert i == (i & 0xF0) | 10;
  }

  lemma Entries11(i: bv8)
    requires i & 15 == 11
    ensures Word(TableCrcLo(i), TableCrcHi(i)) == EightSteps(Extend(i))
  {
    assert i == (i & 0xF0) | 11;
  }

  lemma Entries12(i: bv8)
    requires i & 15 == 12
    ensures Word(TableCrcLo(i), TableCrcHi(i)) == EightSteps(Extend(i))
  {
    assert i == (i & 0xF0) | 12;
  }

  lemma Entries13(i: bv8)
    requires i & 15 == 13
    ensures Word(TableCrcLo(i), TableCrcHi(i)) == EightSteps(Extend(i))
  {
    assert i == (i & 0xF0) | 13;
  }

  lemma Entries14(i: bv8)
    requires i & 15 == 14
    ensures Word(TableCrcLo(i), TableCrcHi(i)) == EightSteps(Extend(i))
  {
    assert i == (i & 0xF0) | 14;
  }

  lemma Entries15(i: bv8)
    requires i & 15 == 15
    ensures Word(TableCrcLo(i), TableCrcHi(i)) == EightSteps(Extend(i))
  {
    assert i == (i & 0xF0) | 15;
  }

  /** Every pair of entries is eight division steps of its index. */
  lemma TablesAreEightSteps(i: bv8)
    ensures Word(TableCrcLo(i), TableCrcHi(i)) == EightSteps(Extend(i))
  {
    hide EightSteps;
    hide TableCrcHi;
    hide TableCrcLo;
    hide Word;
    var k := i & 15;
    if k == 0 { Entries0(i); }
    else if k == 1 { Entries1(i); }
    else if k == 2 { Entries2(i); }
    else if k == 3 { Entries3(i); }
    else if k == 4 { Entries4(i); }
    else if k == 5 { Entries5(i); }
    else if k == 6 { Entries6(i); }
    else if k == 7 { Entries7(i); }
    else if k == 8 { Entries8(i); }
    else if k == 9 { Entries9(i); }
    else if k == 10 { Entries10(i); }
    else if k == 11 { Entries11(i); }
    else if k == 12 { Entries12(i); }
    else if k == 13 { Entries13(i); }
    else if k == 14 { Entries14(i); }
    else { Entries15(i); }
  }

  lemma EightStepsOfUpper(hi: bv8)
    ensures EightSteps(Word(hi, 0)) == Extend(hi)
  {
    NoFeedback(Word(hi, 0));
    assert Word(hi, 0) & 0xFF == 0 && Word(hi, 0) >> 8 == Extend(hi);
  }

  lemma NoFeedback(a: bv16)
    requires a & 0xFF == 0
    ensures EightSteps(a) == a >> 8
  {
  }

  // ---- The table-driven loop ----

  /** One turn of the loop is the division of one byte. */
  lemma TableStep(hi: bv8, lo: bv8, b: bv8)
    ensures var i := Plus8(lo, b);
            Word(TableCrcLo(i), Plus8(hi, TableCrcHi(i))) == EightSteps(Plus(Word(hi, lo), Extend(b)))
  {
    hide *;
    var i := Plus8(lo, b);
    SplitWord(hi, lo, b);
    JoinWord(TableCrcLo(i), TableCrcHi(i), hi);
    TablesAreEightSteps(i);
    EightStepsOfUpper(hi);
    EightStepsPlus(Word(hi, 0), Extend(i));
  }

  lemma SplitWord(hi: bv8, lo: bv8, b: bv8)
    ensures Plus(Word(hi, lo), Extend(b)) == Plus(Word(hi, 0), Extend(Plus8(lo, b)))
  {
  }

  lemma JoinWord(upper: bv8, lower: bv8, hi: bv8)
    ensures Word(upper, Plus8(hi, lower)) == Plus(Extend(hi), Word(upper, lower))
  {
  }

  function Steps(s: bv16, k: nat): bv16
    decreases k
  {
    if k == 0 then s else Steps(BitStep(s), k - 1)
  }

  function Rest(w: bv16, k: nat): bv16
    decreases k
  {
    if k == 0 then w else Rest(Shifted(w), k - 1)
  }

  lemma BitStepJoins(s: bv16, w: bv16)
    ensures Plus(BitStep(Plus(s, Lsb(w & 1 == 1))), Shifted(w)) == BitStep(Plus(s, w))
  {
    BitStepLow(w);
    var low, rest := Lsb(w & 1 == 1), Shifted(w);
    hide *;
    BitStepPlus(s, low);
    BitStepPlus(s, w);
    PlusAssociates(BitStep(s), BitStep(low), rest);
  }

  lemma BitStepLow(w: bv16)
    ensures Plus(BitStep(Lsb(w & 1 == 1)), Shifted(w)) == BitStep(w)
  {
    BitStepOfBits();
    PlusCancels(Shifted(w), 0);
    PlusCommutes(0xA001, Shifted(w));
    hide Plus;
    hide Shifted;
    if w & 1 == 1 {
      assert BitStep(w) == Plus(Shifted(w), 0xA001);
    } else {
      assert BitStep(w) == Shifted(w);
    }
    hide BitStep;
  }

  lemma BitStepOfBits()
    ensures BitStep(1) == 0xA001 && BitStep(0) == 0
  {
  }

  /** Feeding the bits of a word one at a time is adding the word and stepping. */
  lemma {:induction false} FeedWord(s: bv16, w: bv16, k: nat)
    ensures Plus(Feed(s, WordBits(w, k)), Rest(w, k)) == Steps(Plus(s, w), k)
    decreases k
  {
    hide BitStep;
    hide Plus;
    if k != 0 {
      FeedWord(BitStep(Plus(s, Lsb(w & 1 == 1))), Shifted(w), k - 1);
      BitStepJoins(s, w);
      assert WordBits(w, k)[1..] == WordBits(Shifted(w), k - 1);
    }
  }

  lemma FeedByte(s: bv16, b: bv8)
    ensures Feed(s, ByteBits(b)) == EightSteps(Plus(s, Extend(b)))
  {
    assert ByteBits(b) == WordBits(Extend(b), 8);
    hide *;
    FeedWord(s, Extend(b), 8);
    EightIsEight(Plus(s, Extend(b)));
    NothingLeft(b);
    PlusCancels(Feed(s, ByteBits(b)), 0);
  }

  lemma EightIsEight(s: bv16)
    ensures Steps(s, 8) == EightSteps(s)
  {
    hide BitStep;
  }

  lemma NothingLeft(b: bv8)
    ensures Rest(Extend(b), 8) == 0
  {
  }

  lemma {:induction false} FeedConcat(s: bv16, a: seq<bool>, b: seq<bool>)
    ensures Feed(s, a + b) == Feed(Feed(s, a), b)
    decreases |a|
  {
    hide BitStep;
    if a == [] {
      assert a + b == b;
    } else {
      FeedConcat(BitStep(Plus(s, Lsb(a[0]))), a[1..], b);
      assert (a + b)[1..] == a[1..] + b;
    }
  }

  lemma {:induction false} MessageBitsSnoc(message: seq<bv8>, b: bv8)
    ensures MessageBits(message + [b]) == MessageBits(message) + ByteBits(b)
  {
    hide WordBits;
    if message == [] {
      assert message + [b] == [b];
      assert [b][1..] == [];
    } else {
      MessageBitsSnoc(message[1..], b);
      assert (message + [b])[1..] == message[1..] + [b];
    }
  }

  lemma SerialCrcSnoc(message: seq<bv8>, b: bv8)
    ensures SerialCrc(message + [b]) == EightSteps(Plus(SerialCrc(message), Extend(b)))
  {
    hide EightSteps;
    hide Plus;
    hide Feed;
    hide MessageBits;
    hide ByteBits;
    MessageBitsSnoc(message, b);
    FeedConcat(0xFFFF, MessageBits(message), ByteBits(b));
    FeedByte(SerialCrc(message), b);
  }

  method Crc16(buffer: array<bv8>, bufferLength: nat) returns (crc: bv16)
    requires bufferLength <= buffer.Length
    ensures crc == SerialCrc(buffer[..bufferLength])
  {
    var crcHi: bv8, crcLo: bv8 := 0xFF, 0xFF;
    assert Word(0xFF, 0xFF) == SerialCrc([]) && buffer[..0] == [];
    hide *;
    var position := 0;
    while position < bufferLength
      invariant position <= bufferLength
      invariant Word(crcHi, crcLo) == SerialCrc(buffer[..position])
    {
      var i := Plus8(crcLo, buffer[position]);
      TableStep(crcHi, crcLo, buffer[position]);
      SerialCrcSnoc(buffer[..position], buffer[position]);
      assert buffer[..position + 1] == buffer[..position] + [buffer[position]];
      crcLo := Plus8(crcHi, TableCrcHi(i));
      crcHi := TableCrcLo(i);
      position := position + 1;
    }
    crc := Word(crcHi, crcLo);
  }
}
