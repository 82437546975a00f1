/** How many wrong bits CRC-16/MODBUS is certain to notice: three, in up to 32767 bits, and no more. */
module CrcDistance {
  import opened Bits
  import opened Crc
  import opened CrcDetection

  // ---- Many steps ----

  lemma {:induction false} StepsAdd(s: bv16, j: nat, k: nat)
    ensures Steps(s, j + k) == Steps(Steps(s, j), k)
    decreases j
  {
    hide BitStep;
    if j != 0 {
      StepsAdd(BitStep(s), j - 1, k);
    }
  }

  lemma {:induction false} StepsPlus(a: bv16, b: bv16, k: nat)
    ensures Steps(Plus(a, b), k) == Plus(Steps(a, k), Steps(b, k))
    decreases k
  {
    hide BitStep;
    hide Plus;
    if k != 0 {
      BitStepPlus(a, b);
      StepsPlus(BitStep(a), BitStep(b), k - 1);
    }
  }

  lemma OneStep(s: bv16, k: nat)
    ensures Steps(s, 0) == s && Steps(s, 1) == BitStep(s)
    ensures BitStep(Steps(s, k)) == Steps(BitStep(s), k) == Steps(s, k + 1)
  {
    StepsAdd(s, k, 1);
    hide BitStep;
  }

  lemma PlusSame(a: bv16, b: bv16, c: bv16)
    ensures Plus(Plus(a, b), Plus(b, c)) == Plus(a, c)
  {
  }

  // ---- The order of a step ----

  /** A step and no step, added: a multiple of the factor that makes the parity check. */
  function Diff(v: bv16): bv16 {
    Plus(BitStep(v), v)
  }

  lemma StepsDiff(v: bv16, k: nat)
    ensures Steps(Diff(v), k) == Diff(Steps(v, k))
  {
    OneStep(v, k);
    StepsPlus(BitStep(v), v, k);
    hide Steps;
    hide Plus;
    hide BitStep;
  }

  // ---- The polynomial, applied to the step, vanishes ----

  function Residue(v: bv16): bv16 {
    Plus(Plus(Steps(v, 16), Steps(v, 15)), Plus(Steps(v, 2), v))
  }

  lemma ResiduePlus(a: bv16, b: bv16)
    ensures Residue(Plus(a, b)) == Plus(Residue(a), Residue(b))
  {
    StepsPlus(a, b, 16);
    StepsPlus(a, b, 15);
    StepsPlus(a, b, 2);
    hide Plus;
    hide Steps;
    PlusPairs(Steps(a, 16), Steps(b, 16), Steps(a, 15), Steps(b, 15));
    PlusPairs(Steps(a, 2), Steps(b, 2), a, b);
    PlusPairs(Plus(Steps(a, 16), Steps(a, 15)), Plus(Steps(b, 16), Steps(b, 15)),
              Plus(Steps(a, 2), a), Plus(Steps(b, 2), b));
  }

  lemma ResidueStep(v: bv16)
    ensures Residue(BitStep(v)) == BitStep(Residue(v))
  {
    OneStep(v, 16);
    OneStep(v, 15);
    OneStep(v, 2);
    BitStepPlus(Plus(Steps(v, 16), Steps(v, 15)), Plus(Steps(v, 2), v));
    BitStepPlus(Steps(v, 16), Steps(v, 15));
    BitStepPlus(Steps(v, 2), v);
    hide Plus;
    hide Steps;
    hide BitStep;
  }

  function Twice(v: bv16): bv16 {
    v << 1
  }

  lemma SplitLastBit(v: bv16)
    ensures v == Plus(Twice(Shifted(v)), Lsb(v & 1 == 1)) && BitStep(Twice(Shifted(v))) == Shifted(v)
  {
  }

  lemma ResidueOfBit(b: bool)
    ensures Residue(Lsb(b)) == 0
  {
    SmallSteps(Lsb(b));
    OneStep(Lsb(b), 15);
    assert b ==> Fifteen(1) == 0x6001;
    assert !b ==> Fifteen(0) == 0;
    hide Steps;
    hide Fifteen;
  }

  lemma {:induction false} ResidueIsNothing(v: bv16, k: nat)
    requires Rest(v, k) == 0
    ensures Residue(v) == 0
    decreases k
  {
    if k == 0 {
      ResidueOfBit(false);
    } else {
      ResidueIsNothing(Shifted(v), k - 1);
      SplitLastBit(v);
      hide *;
      var w, b := Twice(Shifted(v)), Lsb(v & 1 == 1);
      ResidueStep(w);
      BitStepOfZero(Residue(w));
      ResidueOfBit(v & 1 == 1);
      ResiduePlus(w, b);
      PlusCancels(0, 0);
    }
  }

  lemma ShiftedIsClear(v: bv16)
    ensures TopClear(Shifted(v))
  {
  }

  lemma PolynomialVanishes(v: bv16)
    ensures Residue(v) == 0
  {
    ShiftedIsClear(v);
    hide *;
    RestStep(v, 16);
    FifteenShifts(Shifted(v));
    ResidueIsNothing(v, 16);
  }

  function Two(s: bv16): bv16 {
    BitStep(BitStep(s))
  }

  function Four(s: bv16): bv16 {
    Two(Two(s))
  }

  function Fifteen(s: bv16): bv16 {
    BitStep(Two(Four(EightSteps(s))))
  }

  lemma SmallSteps(s: bv16)
    ensures Steps(s, 1) == BitStep(s) && Steps(s, 2) == Two(s) && Steps(s, 4) == Four(s)
    ensures Steps(s, 8) == EightSteps(s) && Steps(s, 15) == Fifteen(s)
  {
    OneStep(s, 0);
    OneStep(s, 1);
    StepsAdd(s, 2, 2);
    StepsAdd(Two(s), 1, 1);
    OneStep(Two(s), 0);
    OneStep(Two(s), 1);
    EightIsEight(s);
    StepsAdd(s, 8, 7);
    SevenSteps(EightSteps(s));
    hide Steps;
    hide BitStep;
    hide EightSteps;
  }

  lemma SevenSteps(s: bv16)
    ensures Steps(s, 7) == BitStep(Two(Four(s)))
  {
    hide BitStep;
  }

  // ---- The order of the step ----

  /** On differences, fifteen steps are one step and no step, added. */
  lemma FifteenSteps(v: bv16)
    ensures Steps(Diff(v), 15) == Plus(Steps(Diff(v), 1), Diff(v))
  {
    hide *;
    PolynomialVanishes(v);
    ResidueIs(v);
    PlusCancels(Plus(Steps(v, 16), Steps(v, 15)), Plus(Steps(v, 2), v));
    StepsDiff(v, 15);
    DiffIs(Steps(v, 15));
    OneStep(v, 15);
    DiffIs(v);
    OneStep(Diff(v), 0);
    BitStepPlus(BitStep(v), v);
    SmallSteps(v);
    TwoIs(v);
    PlusSame(Two(v), BitStep(v), v);
  }

  lemma DiffIs(v: bv16)
    ensures Diff(v) == Plus(BitStep(v), v)
  {
  }

  lemma ResidueIs(v: bv16)
    ensures Residue(v) == Plus(Plus(Steps(v, 16), Steps(v, 15)), Plus(Steps(v, 2), v))
  {
  }

  lemma TwoIs(v: bv16)
    ensures Two(v) == BitStep(BitStep(v))
  {
  }

  lemma DiffPlus(a: bv16, b: bv16)
    ensures Diff(Plus(a, b)) == Plus(Diff(a), Diff(b))
  {
    BitStepPlus(a, b);
    hide BitStep;
    hide Plus;
    PlusPairs(BitStep(a), BitStep(b), a, b);
  }

  /** Squaring: what holds of a step holds of two, of four, of eight steps and so on. */
  lemma {:induction false} Frobenius(v: bv16, k: nat)
    ensures Steps(Diff(v), 15 * Pow2(k)) == Plus(Steps(Diff(v), Pow2(k)), Diff(v))
    decreases k
  {
    if k == 0 {
      FifteenSteps(v);
    } else {
      var m, d := Pow2(k - 1), Diff(v);
      assert Pow2(k) == 2 * m;
      hide *;
      var w := Plus(Steps(v, m), v);
      DiffPlus(Steps(v, m), v);
      StepsDiff(v, m);
      assert Diff(w) == Plus(Steps(d, m), d);
      Frobenius(v, k - 1);
      Frobenius(w, k - 1);
      StepsAdd(d, 15 * m, 15 * m);
      StepsAdd(d, m, m);
      StepsPlus(Steps(d, m), d, m);
      PlusSame(Steps(d, 2 * m), Steps(d, m), d);
    }
  }

  /** A power of two of steps, on differences. */
  function Jump(v: bv16, k: nat): bv16 {
    Steps(Diff(v), Pow2(k))
  }

  lemma JumpFour(v: bv16, k: nat)
    ensures Jump(v, k + 4) == Plus(Jump(v, k + 1), Jump(v, k))
  {
    var m, d := Pow2(k), Diff(v);
    assert Pow2(k + 1) == 2 * m && Pow2(k + 4) == 16 * m by {
      Pow2Doubles(k + 1);
      Pow2Doubles(k + 2);
      Pow2Doubles(k + 3);
    }
    Frobenius(v, k);
    StepsAdd(d, 15 * m, m);
    StepsAdd(d, m, m);
    StepsPlus(Steps(d, m), d, m);
    hide *;
    JumpIs(v, k);
    JumpIs(v, k + 1);
    JumpIs(v, k + 4);
  }

  lemma JumpIs(v: bv16, k: nat)
    ensures Jump(v, k) == Steps(Diff(v), Pow2(k))
  {
  }

  lemma PlusTwice(a: bv16, b: bv16)
    ensures Plus(a, Plus(b, a)) == b
  {
  }

  /** Longer jumps from the four shortest. */
  lemma Jumps(v: bv16)
    ensures var j0, j1, j2, j3 := Jump(v, 0), Jump(v, 1), Jump(v, 2), Jump(v, 3);
            && Jump(v, 4) == Plus(j1, j0) && Jump(v, 5) == Plus(j2, j1) && Jump(v, 6) == Plus(j3, j2)
            && Jump(v, 7) == Plus(Plus(j1, j0), j3) && Jump(v, 9) == Plus(j3, j1)
            && Jump(v, 10) == Plus(Plus(j1, j0), j2) && Jump(v, 12) == Plus(Plus(j3, j1), Plus(j2, j0))
            && Jump(v, 15) == j0
  {
    hide *;
    var j0, j1, j2, j3 := Jump(v, 0), Jump(v, 1), Jump(v, 2), Jump(v, 3);
    JumpFour(v, 0);
    JumpFour(v, 1);
    JumpFour(v, 2);
    JumpFour(v, 3);
    JumpFour(v, 4);
    PlusSame(j2, j1, j0);
    JumpFour(v, 5);
    PlusSame(j3, j2, j1);
    JumpFour(v, 6);
    PlusSame(Plus(j1, j0), j3, j2);
    JumpFour(v, 7);
    JumpFour(v, 8);
    JumpFour(v, 11);
    PlusSame(Jump(v, 9), Jump(v, 8), Jump(v, 7));
    PlusAssociates(j1, j0, j3);
    PlusSame(j3, j1, Plus(j0, j3));
    PlusTwice(j3, j0);
  }

  /** The difference that two wrong bits next to each other make. */
  const ORIGIN: bv16 := 0xA000

  function At(d: nat): bv16 {
    Steps(ORIGIN, d)
  }

  lemma OriginIsDiff(d: nat)
    ensures At(d) == Diff(Steps(1, d))
  {
    assert Diff(1) == ORIGIN;
    StepsDiff(1, d);
    hide Diff;
    hide Steps;
  }

  lemma ShortJumps(v: bv16)
    ensures var s := Diff(v);
            && Jump(v, 0) == BitStep(s) && Jump(v, 1) == Two(s) && Jump(v, 2) == Four(s) && Jump(v, 3) == EightSteps(s)
  {
    SmallSteps(Diff(v));
    Pow2Doubles(0);
    Pow2Doubles(1);
    Pow2Doubles(2);
    hide Pow2;
    hide Steps;
    hide Diff;
    hide Two;
    hide Four;
    hide EightSteps;
  }

  lemma AtJump(m: nat, k: nat)
    ensures At(m + Pow2(k)) == Jump(Steps(1, m), k)
  {
    OriginIsDiff(m);
    StepsAdd(ORIGIN, m, Pow2(k));
    hide Diff;
    hide Steps;
    hide Pow2;
  }

  lemma Powers()
    ensures Pow2(0) == 1 && Pow2(3) == 8 && Pow2(4) == 16 && Pow2(5) == 32 && Pow2(6) == 64 && Pow2(7) == 128
    ensures Pow2(9) == 512 && Pow2(10) == 1024 && Pow2(12) == 4096 && Pow2(15) == 32768
  {
  }

  /** From anywhere on the way, the long jumps in terms of short ones. */
  lemma Landings(m: nat)
    ensures var s := At(m);
            var j0, j1, j2, j3 := BitStep(s), Two(s), Four(s), EightSteps(s);
            && At(m + 1) == j0 && At(m + 8) == j3 && At(m + 16) == Plus(j1, j0) && At(m + 32) == Plus(j2, j1)
            && At(m + 64) == Plus(j3, j2) && At(m + 128) == Plus(Plus(j1, j0), j3) && At(m + 512) == Plus(j3, j1)
            && At(m + 1024) == Plus(Plus(j1, j0), j2) && At(m + 4096) == Plus(Plus(j3, j1), Plus(j2, j0))
            && At(m + 32768) == j0
  {
    hide *;
    var v := Steps(1, m);
    OriginIsDiff(m);
    ShortJumps(v);
    Jumps(v);
    Powers();
    AtJump(m, 0);
    AtJump(m, 3);
    AtJump(m, 4);
    AtJump(m, 5);
    AtJump(m, 6);
    AtJump(m, 7);
    AtJump(m, 9);
    AtJump(m, 10);
    AtJump(m, 12);
    AtJump(m, 15);
  }

  lemma Values217()
    ensures Plus(Plus(Two(0xA000), BitStep(0xA000)), EightSteps(0xA000)) == 0x78A0
    ensures Plus(EightSteps(0x78A0), Four(0x78A0)) == 0x7FF2
    ensures Plus(Two(0x7FF2), BitStep(0x7FF2)) == 0x8004
    ensures EightSteps(0x8004) == 0xC381
    ensures BitStep(0xC381) == 0xC1C1
  {
  }

  lemma NotAt217()
    ensures At(217) != ORIGIN
  {
    Values217();
    assert At(0) == 0xA000;
    hide *;
    Landings(0);
    assert At(128) == 0x78A0;
    Landings(128);
    assert At(192) == 0x7FF2;
    Landings(192);
    assert At(208) == 0x8004;
    Landings(208);
    assert At(216) == 0xC381;
    Landings(216);
    assert At(217) == 0xC1C1;
  }

  lemma Values1057()
    ensures Plus(Plus(Two(0xA000), BitStep(0xA000)), Four(0xA000)) == 0x7200
    ensures Plus(Four(0x7200), Two(0x7200)) == 0x1BA0
    ensures BitStep(0x1BA0) == 0x0DD0
  {
  }

  lemma NotAt1057()
    ensures At(1057) != ORIGIN
  {
    Values1057();
    assert At(0) == 0xA000;
    hide *;
    Landings(0);
    assert At(1024) == 0x7200;
    Landings(1024);
    assert At(1056) == 0x1BA0;
    Landings(1056);
    assert At(1057) == 0x0DD0;
  }

  lemma Values4681()
    ensures Plus(Plus(EightSteps(0xA000), Two(0xA000)), Plus(Four(0xA000), BitStep(0xA000))) == 0x72A0
    ensures Plus(EightSteps(0x72A0), Two(0x72A0)) == 0x64DA
    ensures Plus(EightSteps(0x64DA), Four(0x64DA)) == 0xE5A8
    ensures EightSteps(0xE5A8) == 0xBEE4
    ensures BitStep(0xBEE4) == 0x5F72
  {
  }

  lemma NotAt4681()
    ensures At(4681) != ORIGIN
  {
    Values4681();
    assert At(0) == 0xA000;
    hide *;
    Landings(0);
    assert At(4096) == 0x72A0;
    Landings(4096);
    assert At(4608) == 0x64DA;
    Landings(4608);
    assert At(4672) == 0xE5A8;
    Landings(4672);
    assert At(4680) == 0xBEE4;
    Landings(4680);
    assert At(4681) == 0x5F72;
  }

  lemma BackAtLast()
    ensures At(32767) == ORIGIN
  {
    Landings(0);
    OneStep(ORIGIN, 32767);
    assert At(0) == ORIGIN;
    BitStepPlus(At(32767), ORIGIN);
    PlusCancels(BitStep(At(32767)), BitStep(ORIGIN));
    BitStepOfZero(Plus(At(32767), ORIGIN));
    PlusCancels(At(32767), ORIGIN);
    hide *;
  }

  // ---- No earlier return ----

  lemma {:induction false} RemainderReturns(d: nat, n: nat)
    requires 0 < d && At(d) == ORIGIN && At(n) == ORIGIN
    ensures At(n % d) == ORIGIN
  {
    if d <= n {
      StepsAdd(ORIGIN, d, n - d);
      hide Steps;
      RemainderReturns(d, n - d);
      DivisionIs(n, d, (n - d) / d + 1, (n - d) % d);
    }
  }

  lemma {:induction false} MultipleReturns(d: nat, m: nat)
    requires At(d) == ORIGIN
    ensures At(m * d) == ORIGIN
  {
    if m != 0 {
      MultipleReturns(d, m - 1);
      StepsAdd(ORIGIN, d, (m - 1) * d);
      assert d + (m - 1) * d == m * d;
    }
    hide Steps;
  }

  /** 32767 is 7 * 31 * 151. */
  lemma FactorIs(x: nat, y: nat)
    requires x * y == 32767 && 2 <= x <= 181
    ensures x == 7 || x == 31 || x == 151
  {
  }

  /** A proper divisor of 32767 divides one of its three largest ones. */
  lemma ProperDivisor(d: nat)
    requires 0 < d < 32767 && 32767 % d == 0
    ensures exists m: nat :: m * d == 217 || m * d == 1057 || m * d == 4681
  {
    var q := 32767 / d;
    assert q * d == 32767;
    if d == 1 {
      assert 217 * d == 217;
    } else if d <= 181 {
      FactorIs(d, q);
      assert 31 * 7 == 217 && 7 * 31 == 217 && 7 * 151 == 1057;
    } else {
      SmallCofactor(d, q);
      FactorIs(q, d);
      assert 1 * d == d;
    }
  }

  lemma SmallCofactor(d: nat, q: nat)
    requires q * d == 32767 && 182 <= d < 32767
    ensures 2 <= q <= 181
  {
    MultipleIsFar(q - 181, d);
    assert q * d == (q - 181) * d + 181 * d;
  }

  lemma {:induction false} NoEarlierReturn(d: nat)
    requires 0 < d < 32767
    ensures At(d) != ORIGIN
  {
    if At(d) == ORIGIN {
      var r := 32767 % d;
      BackAtLast();
      RemainderReturns(d, 32767);
      if r != 0 {
        NoEarlierReturn(r);
      } else {
        ProperDivisor(d);
        var m: nat :| m * d == 217 || m * d == 1057 || m * d == 4681;
        MultipleReturns(d, m);
        NotAt217();
        NotAt1057();
        NotAt4681();
      }
    }
  }

  // ---- Two, and three, wrong bits ----

  /** How many bits are set. */
  function Weight(bits: seq<bool>): nat
    decreases |bits|
  {
    if bits == [] then 0 else (if bits[0] then 1 else 0) + Weight(bits[1..])
  }

  lemma {:induction false} WeightIsParity(bits: seq<bool>)
    ensures OddBits(bits) <==> Weight(bits) % 2 == 1
    decreases |bits|
  {
    if bits != [] {
      WeightIsParity(bits[1..]);
    }
  }

  lemma {:induction false} FeedZerosIsSteps(s: bv16, zeros: seq<bool>)
    requires forall i | 0 <= i < |zeros| :: !zeros[i]
    ensures Feed(s, zeros) == Steps(s, |zeros|)
    decreases |zeros|
  {
    hide BitStep;
    hide Plus;
    if zeros != [] {
      PlusCancels(s, 0);
      FeedZerosIsSteps(BitStep(s), zeros[1..]);
    }
  }

  lemma {:induction false} NoWeight(bits: seq<bool>)
    requires Weight(bits) == 0
    ensures forall i | 0 <= i < |bits| :: !bits[i]
    decreases |bits|
  {
    if bits != [] {
      NoWeight(bits[1..]);
      assert forall i | 0 < i < |bits| :: bits[i] == bits[1..][i - 1];
    }
  }

  /** From the register that the first wrong bit leaves, only the polynomial's full period could make the second
      cancel it. */
  lemma {:induction false} OneMoreBit(s: bv16, d: nat, bits: seq<bool>)
    requires s == Steps(1, d) && 0 < d && d + |bits| <= 32767 && Weight(bits) == 1
    ensures Feed(s, bits) != 0
    decreases |bits|
  {
    OneStep(1, d);
    NotOne(d);
    PlusCancels(s, 0);
    PlusCancels(s, 1);
    BitStepOfZero(Plus(s, 1));
    hide Plus;
    hide BitStep;
    hide Steps;
    if bits[0] {
      NoWeight(bits[1..]);
      FeedZeros(BitStep(Plus(s, 1)), bits[1..]);
    } else {
      OneMoreBit(BitStep(s), d + 1, bits[1..]);
    }
  }

  lemma NotOne(d: nat)
    requires 0 < d < 32767
    ensures Steps(1, d) != 1
  {
    NoEarlierReturn(d);
    OriginIsDiff(d);
    assert Diff(1) == ORIGIN;
    hide Steps;
    hide Diff;
  }

  lemma {:induction false} TwoBitsLeaveTrace(bits: seq<bool>)
    requires Weight(bits) == 2 && |bits| <= 32767
    ensures Feed(0, bits) != 0
    decreases |bits|
  {
    PlusCancels(0, 0);
    PlusCancels(0, 1);
    OneStep(1, 0);
    BitStepOfZero(0);
    hide Plus;
    hide BitStep;
    hide Steps;
    if bits[0] {
      OneMoreBit(BitStep(1), 1, bits[1..]);
    } else {
      TwoBitsLeaveTrace(bits[1..]);
    }
  }

  /** Where two messages of one length differ, bit by bit. */
  function Errors(a: seq<bv8>, b: seq<bv8>): (bits: seq<bool>)
    requires |a| == |b|
    ensures |bits| == 8 * |a|
  {
    PlusBits(MessageBits(a), MessageBits(b))
  }

  /** Two messages of up to 4095 bytes that differ in one, two or three bits, wherever those are, have different
      checksums. */
  lemma ThreeErrorsDetected(a: seq<bv8>, b: seq<bv8>)
    requires |a| == |b| <= 4095 && 1 <= Weight(Errors(a, b)) <= 3
    ensures SerialCrc(a) != SerialCrc(b)
  {
    var x, y := MessageBits(a), MessageBits(b);
    if Weight(Errors(a, b)) == 2 {
      TwoBitsLeaveTrace(Errors(a, b));
      FeedPlus(0xFFFF, 0xFFFF, x, y);
      PlusCancels(0xFFFF, 0xFFFF);
      PlusCancels(Feed(0xFFFF, x), Feed(0xFFFF, y));
    } else {
      WeightIsParity(Errors(a, b));
      OddPlusBits(x, y);
      CrcParity(a);
      CrcParity(b);
    }
    hide Weight;
    hide Feed;
    hide Plus;
    hide Odd;
    hide OddBits;
    hide MessageBits;
  }

  /** Neither bound can be raised: these two messages differ in four bits, within seventeen in a row. */
  lemma FourErrorsMissed()
    ensures SerialCrc([0, 0, 0]) == SerialCrc([0x03, 0x40, 0x01])
    ensures Weight(Errors([0, 0, 0], [0x03, 0x40, 0x01])) == 4
    ensures forall i | 17 <= i < 24 :: !Errors([0, 0, 0], [0x03, 0x40, 0x01])[i]
  {
    hide *;
    FedValues();
    CrcOfThree(0, 0, 0);
    CrcOfThree(0x03, 0x40, 0x01);
    FourBits([0, 0, 0], [0x03, 0x40, 0x01]);
  }

  lemma CrcOfThree(x: bv8, y: bv8, z: bv8)
    ensures SerialCrc([x, y, z]) == Fed(Fed(Fed(0xFFFF, x), y), z)
  {
    assert SerialCrc([]) == 0xFFFF;
    SerialCrcSnoc([], x);
    SerialCrcSnoc([x], y);
    SerialCrcSnoc([x, y], z);
    FedIs(0xFFFF, x);
    FedIs(Fed(0xFFFF, x), y);
    FedIs(Fed(Fed(0xFFFF, x), y), z);
    hide *;
    assert [] + [x] == [x] && [x] + [y] == [x, y] && [x, y] + [z] == [x, y, z];
  }

  lemma FedIs(s: bv16, b: bv8)
    ensures Fed(s, b) == EightSteps(Plus(s, Extend(b)))
  {
  }

  lemma FedValues()
    ensures Fed(Fed(Fed(0xFFFF, 0), 0), 0) == 0xC071
    ensures Fed(Fed(Fed(0xFFFF, 0x03), 0x40), 0x01) == 0xC071
  {
  }

  lemma {:induction false} WeightConcat(a: seq<bool>, b: seq<bool>)
    ensures Weight(a + b) == Weight(a) + Weight(b)
    decreases |a|
  {
    if a == [] {
      assert a + b == b;
    } else {
      WeightConcat(a[1..], b);
      assert (a + b)[1..] == a[1..] + b;
    }
  }

  lemma WeightOne(b: bool)
    ensures Weight([b]) == if b then 1 else 0
  {
    assert [b][1..] == [];
  }

  function Clear(k: nat): (s: seq<bool>)
    ensures |s| == k
  {
    seq(k, i => false)
  }

  /** Eight bits, of which at most two are set. */
  lemma WeightOfByte(i: nat, j: nat)
    requires i <= j < 8
    ensures var bits := seq(8, k => k == i || k == j); Weight(bits) == if i == j then 1 else 2
  {
    var bits := seq(8, k => k == i || k == j);
    var before, between, after := Clear(i), Clear(j - i - (if i == j then 0 else 1)), Clear(7 - j);
    NoneSet(before);
    NoneSet(between);
    NoneSet(after);
    WeightOne(true);
    if i == j {
      assert bits == before + ([true] + after);
      WeightConcat([true], after);
      WeightConcat(before, [true] + after);
    } else {
      assert bits == before + ([true] + (between + ([true] + after)));
      WeightConcat([true], after);
      WeightConcat(between, [true] + after);
      WeightConcat([true], between + ([true] + after));
      WeightConcat(before, [true] + (between + ([true] + after)));
    }
  }

  lemma {:induction false} NoneSet(bits: seq<bool>)
    requires forall i | 0 <= i < |bits| :: !bits[i]
    ensures Weight(bits) == 0
    decreases |bits|
  {
    if bits != [] {
      NoneSet(bits[1..]);
    }
  }

  lemma BitsOfBytes()
    ensures ByteBits(0) == seq(8, i => false)
    ensures ByteBits(0x03) == seq(8, k => k == 0 || k == 1)
  {
  }

  lemma MoreBitsOfBytes()
    ensures ByteBits(0x40) == seq(8, k => k == 6 || k == 6)
    ensures ByteBits(0x01) == seq(8, k => k == 0 || k == 0)
  {
  }

  lemma BitsOfThree(x: bv8, y: bv8, z: bv8)
    ensures MessageBits([x, y, z]) == ByteBits(x) + ByteBits(y) + ByteBits(z)
  {
    hide ByteBits;
    assert MessageBits([]) == [];
    MessageBitsSnoc([], x);
    MessageBitsSnoc([x], y);
    MessageBitsSnoc([x, y], z);
    hide MessageBits;
    assert [] + [x] == [x] && [x] + [y] == [x, y] && [x, y] + [z] == [x, y, z];
  }

  lemma FourBits(a: seq<bv8>, b: seq<bv8>)
    requires a == [0, 0, 0] && b == [0x03, 0x40, 0x01]
    ensures Weight(Errors(a, b)) == 4
    ensures forall i | 17 <= i < 24 :: !Errors(a, b)[i]
  {
    BitsOfThree(0, 0, 0);
    BitsOfThree(0x03, 0x40, 0x01);
    BitsOfBytes();
    MoreBitsOfBytes();
    var x, y, z := ByteBits(0x03), ByteBits(0x40), ByteBits(0x01);
    hide ByteBits;
    hide MessageBits;
    assert Errors(a, b) == x + y + z;
    WeightOfByte(0, 1);
    WeightOfByte(6, 6);
    WeightOfByte(0, 0);
    WeightConcat(x, y);
    WeightConcat(x + y, z);
    hide Weight;
  }

  // ---- The length of 4095 bytes cannot be raised either ----

  lemma FixedPoints(y: bv16)
    requires BitStep(y) == y
    ensures y == 0 || y == 0xC001
  {
  }

  lemma FixedPointIsOdd()
    ensures Odd(0xC001, 16)
  {
    assert Odd(0xC001, 16) == !Odd(0x6000, 15);
    assert !Odd(3, 2) && Odd(0x0C, 4) == Odd(3, 2);
    assert Odd(0x6000, 15) == Odd(0x3000, 14) == Odd(0x0C00, 12) == Odd(0x0300, 10) == Odd(0xC0, 8)
        == Odd(0x30, 6) == Odd(0x0C, 4);
  }

  lemma {:induction false} StepsKeepParity(s: bv16, k: nat)
    ensures Odd(Steps(s, k), 16) == Odd(s, 16)
    decreases k
  {
    hide BitStep;
    hide Odd;
    if k != 0 {
      BitStepKeepsParity(s);
      StepsKeepParity(BitStep(s), k - 1);
    }
  }

  /** After 32767 steps a single wrong bit looks as it did at first. */
  lemma OneReturns()
    ensures Steps(1, 32767) == 1
  {
    BackAtLast();
    OriginIsDiff(32767);
    assert Diff(1) == ORIGIN;
    FixedPointIsOdd();
    StepsKeepParity(1, 32767);
    hide *;
    var x := Steps(1, 32767);
    var y := Plus(x, 1);
    OddPlus(x, 1, 16);
    DiffPlus(x, 1);
    PlusCancels(Diff(x), Diff(1));
    DiffIs(y);
    PlusCancels(BitStep(y), y);
    FixedPoints(y);
    PlusCancels(x, 1);
  }

  /** Two wrong bits, and 32766 right ones between them. */
  function FarApart(): (bits: seq<bool>)
    ensures |bits| == 32768
  {
    [true] + Clear(32766) + [true]
  }

  lemma FarApartLeavesNoTrace()
    ensures Feed(0, FarApart()) == 0 && Weight(FarApart()) == 2
  {
    var zeros := Clear(32766);
    assert FarApart() == [true] + zeros + [true];
    FeedOne(0);
    FeedOne(1);
    OneReturns();
    FeedZerosIsSteps(BitStep(1), zeros);
    OneStep(1, 32766);
    NoneSet(zeros);
    WeightOne(true);
    hide *;
    FeedConcat(0, [true] + zeros, [true]);
    FeedConcat(0, [true], zeros);
    WeightConcat([true] + zeros, [true]);
    WeightConcat([true], zeros);
  }

  lemma FeedOne(s: bv16)
    ensures Feed(s, [true]) == BitStep(Plus(s, 1))
    ensures Plus(0, 1) == 1 && BitStep(Plus(1, 1)) == 0
  {
    assert [true][1..] == [];
    hide BitStep;
    assert BitStep(0) == 0 by {
      BitStepOfZero(0);
    }
  }

  function ZeroBytes(n: nat): (s: seq<bv8>)
    ensures |s| == n
  {
    seq(n, i => 0)
  }

  lemma {:induction false} BitsOfZeros(n: nat)
    ensures MessageBits(ZeroBytes(n)) == Clear(8 * n)
  {
    if n != 0 {
      BitsOfZeros(n - 1);
      assert ZeroBytes(n) == [0] + ZeroBytes(n - 1);
      BitsOfBytes();
      MessageBitsHead(0, ZeroBytes(n - 1));
      hide MessageBits;
      hide ByteBits;
    }
  }

  lemma MessageBitsHead(b: bv8, rest: seq<bv8>)
    ensures MessageBits([b] + rest) == ByteBits(b) + MessageBits(rest)
  {
    assert ([b] + rest)[1..] == rest;
    hide ByteBits;
  }

  lemma EndBits()
    ensures ByteBits(0x01) == [true] + Clear(7) && ByteBits(0x80) == Clear(7) + [true]
  {
    assert ByteBits(0x80) == seq(8, k => k == 7);
    MoreBitsOfBytes();
    hide ByteBits;
  }

  function EndsSet(): (s: seq<bv8>)
    ensures |s| == 4096
  {
    [0x01] + ZeroBytes(4094) + [0x80]
  }

  lemma JoinClear(i: nat, j: nat, k: nat)
    ensures Clear(i) + Clear(j) + Clear(k) == Clear(i + j + k)
  {
  }

  lemma BitsOfEndsSet()
    ensures MessageBits(EndsSet()) == FarApart()
  {
    EndsAre();
    hide *;
    EndBits();
    MessageBitsHead(0x01, ZeroBytes(4094));
    BitsOfZeros(4094);
    MessageBitsSnoc([0x01] + ZeroBytes(4094), 0x80);
    JoinClear(7, 8 * 4094, 7);
    JoinEnds(Clear(7), Clear(8 * 4094), Clear(7));
  }

  lemma EndsAre()
    ensures EndsSet() == [0x01] + ZeroBytes(4094) + [0x80] && FarApart() == [true] + Clear(32766) + [true]
  {
  }

  lemma JoinEnds(a: seq<bool>, b: seq<bool>, c: seq<bool>)
    ensures [true] + a + b + (c + [true]) == [true] + (a + b + c) + [true]
  {
  }

  lemma SameCrc(a: seq<bv8>, b: seq<bv8>)
    requires |a| == |b|
    ensures SerialCrc(a) == SerialCrc(b) <==> Feed(0, Errors(a, b)) == 0
  {
    FeedPlus(0xFFFF, 0xFFFF, MessageBits(a), MessageBits(b));
    PlusCancels(0xFFFF, 0xFFFF);
    PlusCancels(SerialCrc(a), SerialCrc(b));
    hide Feed;
    hide Plus;
    hide MessageBits;
  }

  lemma {:induction false} MessageBitsConcat(a: seq<bv8>, b: seq<bv8>)
    ensures MessageBits(a + b) == MessageBits(a) + MessageBits(b)
    decreases |a|
  {
    hide ByteBits;
    if a == [] {
      assert a + b == b;
    } else {
      MessageBitsConcat(a[1..], b);
      assert (a + b)[1..] == a[1..] + b;
    }
  }

  lemma PlusBitsConcat(a: seq<bool>, b: seq<bool>, c: seq<bool>)
    requires |b| == |c|
    ensures PlusBits(a + b, a + c) == Clear(|a|) + PlusBits(b, c)
  {
  }

  /** A start that two messages of one length have in common does not matter to whether their checksums agree. */
  lemma CommonStart(start: seq<bv8>, a: seq<bv8>, b: seq<bv8>)
    requires |a| == |b|
    ensures SerialCrc(start + a) == SerialCrc(start + b) <==> SerialCrc(a) == SerialCrc(b)
  {
    var clear := Clear(|MessageBits(start)|);
    FeedZeros(0, clear);
    hide *;
    SameCrc(a, b);
    SameCrc(start + a, start + b);
    ErrorsAre(a, b);
    ErrorsAre(start + a, start + b);
    MessageBitsConcat(start, a);
    MessageBitsConcat(start, b);
    PlusBitsConcat(MessageBits(start), MessageBits(a), MessageBits(b));
    FeedConcat(0, clear, Errors(a, b));
  }

  /** In 4096 bytes two wrong bits can go unnoticed: the first and the last. */
  lemma TwoErrorsMissed()
    ensures Weight(Errors(ZeroBytes(4096), EndsSet())) == 2
    ensures SerialCrc(ZeroBytes(4096)) == SerialCrc(EndsSet())
  {
    hide *;
    BitsOfZeros(4096);
    BitsOfEndsSet();
    PlusClear(FarApart());
    ErrorsAre(ZeroBytes(4096), EndsSet());
    FarApartLeavesNoTrace();
    SameCrc(ZeroBytes(4096), EndsSet());
  }

  lemma PlusClear(bits: seq<bool>)
    ensures PlusBits(Clear(|bits|), bits) == bits
  {
  }

  lemma ErrorsAre(a: seq<bv8>, b: seq<bv8>)
    requires |a| == |b|
    ensures Errors(a, b) == PlusBits(MessageBits(a), MessageBits(b))
  {
  }

  // ---- Every length ----

  /** No two messages of `n` bytes that differ in at least one and at most `w` bits share their checksum. */
  ghost predicate Detects(n: nat, w: nat) {
    forall a: seq<bv8>, b: seq<bv8> | |a| == |b| == n && 1 <= Weight(Errors(a, b)) <= w :: SerialCrc(a) != SerialCrc(b)
  }

  /** A pair of messages that goes unnoticed does so at the end of any longer ones. */
  lemma MissedInLonger(a: seq<bv8>, b: seq<bv8>, n: nat, w: nat)
    requires |a| == |b| <= n && 1 <= Weight(Errors(a, b)) <= w && SerialCrc(a) == SerialCrc(b)
    ensures !Detects(n, w)
  {
    var start := ZeroBytes(n - |a|);
    var clear := Clear(|MessageBits(start)|);
    NoneSet(clear);
    WeightConcat(clear, Errors(a, b));
    hide Weight;
    hide SerialCrc;
    hide MessageBits;
    hide PlusBits;
    MessageBitsConcat(start, a);
    MessageBitsConcat(start, b);
    PlusBitsConcat(MessageBits(start), MessageBits(a), MessageBits(b));
    CommonStart(start, a, b);
    var x, y := start + a, start + b;
    assert |x| == |y| == n && 1 <= Weight(Errors(x, y)) <= w && SerialCrc(x) == SerialCrc(y);
  }

  /** Up to three wrong bits are certain to be noticed in messages of up to 4095 bytes, and in no longer ones. */
  lemma ThreeBitLength(n: nat)
    ensures Detects(n, 3) <==> n <= 4095
  {
    hide *;
    if n <= 4095 {
      DetectsThree(n);
    } else {
      TwoErrorsMissed();
      MissedInLonger(ZeroBytes(4096), EndsSet(), n, 3);
    }
  }

  lemma DetectsThree(n: nat)
    requires n <= 4095
    ensures Detects(n, 3)
  {
    forall a: seq<bv8>, b: seq<bv8> | |a| == |b| == n && 1 <= Weight(Errors(a, b)) <= 3
      ensures SerialCrc(a) != SerialCrc(b)
    {
      ThreeErrorsDetected(a, b);
    }
  }

  /** Four wrong bits are certain to be noticed in messages of no more than two bytes, where everything is. */
  lemma FourBitLength(n: nat)
    ensures Detects(n, 4) <==> n <= 2
  {
    hide *;
    if n <= 2 {
      DetectsFour(n);
    } else {
      FourErrorsMissed();
      MissedInLonger([0, 0, 0], [0x03, 0x40, 0x01], n, 4);
    }
  }

  lemma DetectsFour(n: nat)
    requires n <= 2
    ensures Detects(n, 4)
  {
    forall a: seq<bv8>, b: seq<bv8> | |a| == |b| == n && 1 <= Weight(Errors(a, b)) <= 4
      ensures SerialCrc(a) != SerialCrc(b)
    {
      if SerialCrc(a) == SerialCrc(b) {
        BurstDetected(a, b, 0);
        NothingWrong(a);
      }
    }
  }

  lemma NothingWrong(a: seq<bv8>)
    ensures Weight(Errors(a, a)) == 0
  {
    NoneSet(Errors(a, a));
  }

  /** After how many steps a single wrong bit looks as it did at first. */
  lemma {:induction false} ReturnsAt(d: nat)
    ensures Steps(1, d) == 1 <==> d % 32767 == 0
  {
    if 32767 <= d {
      ReturnsAt(d - 32767);
      StepsAdd(1, 32767, d - 32767);
      OneReturns();
    } else if 0 < d {
      NotOne(d);
    } else {
      OneStep(1, 0);
    }
    hide Steps;
  }

  /** Exactly the bits `i` and `j` of the message are wrong. */
  predicate TwoWrong(a: seq<bv8>, b: seq<bv8>, i: nat, j: nat)
    requires |a| == |b| && i < j < 8 * |a|
  {
    forall k | 0 <= k < 8 * |a| :: Errors(a, b)[k] <==> k == i || k == j
  }

  /** Two wrong bits go unnoticed exactly when their distance is a multiple of 32767. */
  lemma TwoBitDistance(a: seq<bv8>, b: seq<bv8>, i: nat, j: nat)
    requires |a| == |b| && i < j < 8 * |a| && TwoWrong(a, b, i, j)
    ensures SerialCrc(a) == SerialCrc(b) <==> (j - i) % 32767 == 0
  {
    SameCrc(a, b);
    var bits := Errors(a, b);
    assert bits == Clear(i) + ([true] + (Clear(j - i - 1) + ([true] + Clear(|bits| - j - 1))));
    hide *;
    TwoBitsFed(i, j - i - 1, |bits| - j - 1);
    ReturnsAt(j - i);
  }

  lemma TwoBitsFed(before: nat, between: nat, after: nat)
    ensures var bits := Clear(before) + ([true] + (Clear(between) + ([true] + Clear(after))));
            Feed(0, bits) == 0 <==> Steps(1, between + 1) == 1
  {
    var rest := [true] + Clear(after);
    var s := Steps(1, between + 1);
    FeedZeros(0, Clear(before));
    FeedOne(0);
    FeedOne(s);
    FeedZerosIsSteps(BitStep(1), Clear(between));
    OneStep(1, between);
    StepsAdd(1, 1, between);
    FeedZeros(BitStep(Plus(s, 1)), Clear(after));
    BitStepOfZero(Plus(s, 1));
    PlusCancels(s, 1);
    hide *;
    FeedConcat(0, Clear(before), [true] + (Clear(between) + rest));
    FeedConcat(0, [true], Clear(between) + rest);
    FeedConcat(BitStep(1), Clear(between), rest);
    FeedConcat(s, [true], Clear(after));
  }
}
