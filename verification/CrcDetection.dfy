/** What errors CRC-16/MODBUS is certain to detect. */
module CrcDetection {
  import opened Crc

  // ---- Division of bit strings is linear and reversible ----

  function PlusBits(a: seq<bool>, b: seq<bool>): (c: seq<bool>)
    requires |a| == |b|
    ensures |c| == |a|
  {
    seq(|a|, i requires 0 <= i < |a| => a[i] != b[i])
  }

  lemma {:induction false} FeedPlus(s: bv16, t: bv16, a: seq<bool>, b: seq<bool>)
    requires |a| == |b|
    ensures Plus(Feed(s, a), Feed(t, b)) == Feed(Plus(s, t), PlusBits(a, b))
    decreases |a|
  {
    hide Plus;
    hide BitStep;
    if a != [] {
      var x, y, c := Lsb(a[0]), Lsb(b[0]), PlusBits(a, b);
      FeedPlus(BitStep(Plus(s, x)), BitStep(Plus(t, y)), a[1..], b[1..]);
      BitStepPlus(Plus(s, x), Plus(t, y));
      PlusPairs(s, x, t, y);
      PlusOfBits();
      assert PlusBits(a[1..], b[1..]) == c[1..];
    }
  }

  lemma BitStepOfZero(a: bv16)
    ensures BitStep(a) == 0 <==> a == 0
  {
  }

  /** From a zero register, zero bits change nothing; from any other, they never lead to zero. */
  lemma {:induction false} FeedZeros(s: bv16, zeros: seq<bool>)
    requires forall i | 0 <= i < |zeros| :: !zeros[i]
    ensures Feed(s, zeros) == 0 <==> s == 0
    decreases |zeros|
  {
    hide Plus;
    hide BitStep;
    if zeros != [] {
      PlusCancels(s, 0);
      BitStepOfZero(s);
      FeedZeros(BitStep(s), zeros[1..]);
    }
  }

  // ---- A window of at most sixteen bits ----

  function Raised(n: bv16, b: bool): bv16 {
    Plus(n << 1, Lsb(b))
  }

  predicate TopClear(n: bv16) {
    n & 0x8000 == 0
  }

  /** Bits as a number, least significant first. */
  function Number(bits: seq<bool>): bv16
    decreases |bits|
  {
    if bits == [] then 0 else Raised(Number(bits[1..]), bits[0])
  }

  lemma {:induction false} RestOfZero(k: nat)
    ensures Rest(0, k) == 0
  {
    if k != 0 {
      assert Shifted(0) == 0;
      RestOfZero(k - 1);
    }
  }

  lemma {:induction false} RestTwice(w: bv16, j: nat, k: nat)
    ensures Rest(w, j + k) == Rest(Rest(w, j), k)
    decreases j
  {
    if j != 0 {
      RestTwice(Shifted(w), j - 1, k);
    }
  }

  lemma TopBitClear(w: bv16, k: nat)
    requires Rest(w, k) == 0 && k <= 15
    ensures TopClear(w)
  {
    RestTwice(w, k, 15 - k);
    RestOfZero(15 - k);
    FifteenShifts(w);
  }

  lemma FifteenShifts(w: bv16)
    ensures Rest(w, 15) == 0 <==> TopClear(w)
  {
    assert Rest(w, 15) == w >> 15;
  }

  lemma RestStep(w: bv16, k: nat)
    requires 0 < k
    ensures Rest(w, k) == Rest(Shifted(w), k - 1)
    ensures Rest(0, 0) == 0
  {
  }

  lemma NumberStep(bits: seq<bool>)
    ensures bits == [] ==> Number(bits) == 0
    ensures bits != [] ==> Number(bits) == Raised(Number(bits[1..]), bits[0])
  {
  }

  lemma {:induction false} NumberFits(bits: seq<bool>)
    requires |bits| <= 16
    ensures Rest(Number(bits), |bits|) == 0
    ensures |bits| <= 15 ==> TopClear(Number(bits))
    decreases |bits|
  {
    hide *;
    NumberStep(bits);
    if bits == [] {
      RestStep(0, 1);
    } else {
      NumberFits(bits[1..]);
      Append(Number(bits[1..]), bits[0]);
      RestStep(Number(bits), |bits|);
    }
    if |bits| <= 15 {
      TopBitClear(Number(bits), |bits|);
    }
  }

  lemma Append(n: bv16, b: bool)
    requires TopClear(n)
    ensures Shifted(Raised(n, b)) == n
    ensures Raised(n, b) == 0 <==> n == 0 && !b
  {
  }

  lemma {:induction false} NumberOfZeros(bits: seq<bool>)
    requires |bits| <= 16 && Number(bits) == 0
    ensures forall i | 0 <= i < |bits| :: !bits[i]
    decreases |bits|
  {
    hide Plus;
    if bits != [] {
      NumberFits(bits[1..]);
      Append(Number(bits[1..]), bits[0]);
      NumberOfZeros(bits[1..]);
      assert forall i | 1 <= i < |bits| :: bits[i] == bits[1..][i - 1];
    }
  }

  lemma BackStep(s: bv16, n: bv16, b: bool)
    requires TopClear(n) && BitStep(Plus(s, Lsb(b))) == n
    ensures s == Raised(n, b)
  {
  }

  /** Sixteen bits or fewer lead to zero only from the register that spells them. */
  lemma {:induction false} WindowToZero(s: bv16, bits: seq<bool>)
    requires |bits| <= 16 && Feed(s, bits) == 0
    ensures s == Number(bits)
    decreases |bits|
  {
    hide Plus;
    hide BitStep;
    if bits != [] {
      WindowToZero(BitStep(Plus(s, Lsb(bits[0]))), bits[1..]);
      NumberFits(bits[1..]);
      BackStep(s, Number(bits[1..]), bits[0]);
    }
  }

  /** A non-zero difference confined to sixteen consecutive bits leaves a non-zero register. */
  lemma BurstLeavesTrace(bits: seq<bool>, at: nat)
    requires at <= |bits|
    requires forall i | 0 <= i < |bits| && !(at <= i < at + 16) :: !bits[i]
    ensures Feed(0, bits) == 0 <==> forall i | 0 <= i < |bits| :: !bits[i]
  {
    var end := if at + 16 <= |bits| then at + 16 else |bits|;
    var before, window, after := bits[..at], bits[at..end], bits[end..];
    assert bits == before + (window + after);
    hide Feed;
    FeedConcat(0, before, window + after);
    FeedConcat(Feed(0, before), window, after);
    assert forall i | 0 <= i < |after| :: after[i] == bits[end + i];
    FeedZeros(0, before);
    FeedZeros(Feed(0, window), after);
    if Feed(0, bits) == 0 {
      WindowToZero(0, window);
      NumberOfZeros(window);
      assert forall i | at <= i < end :: bits[i] == window[i - at];
    } else if forall i | 0 <= i < |bits| :: !bits[i] {
      FeedZeros(0, bits);
    }
  }

  // ---- Messages ----

  lemma ByteBitsInjective(a: bv8, b: bv8)
    requires ByteBits(a) == ByteBits(b)
    ensures a == b
  {
    FeedByte(0, a);
    FeedByte(0, b);
    hide EightSteps;
    EightStepsInjective(a, b);
  }

  lemma EightStepsInjective(a: bv8, b: bv8)
    requires EightSteps(Plus(0, Extend(a))) == EightSteps(Plus(0, Extend(b)))
    ensures a == b
  {
    PlusCancels(Extend(a), 0);
    PlusCancels(Extend(b), 0);
    EightStepsPlus(Extend(a), Extend(b));
    PlusCancels(EightSteps(Extend(a)), EightSteps(Extend(b)));
    EightStepsOfZero(Plus(Extend(a), Extend(b)));
    PlusCancels(Extend(a), Extend(b));
    hide Plus;
    hide EightSteps;
  }

  lemma EightStepsOfZero(a: bv16)
    requires EightSteps(a) == 0
    ensures a == 0
  {
    hide BitStep;
    var a1 := BitStep(a);
    var a2 := BitStep(a1);
    var a3 := BitStep(a2);
    var a4 := BitStep(a3);
    var a5 := BitStep(a4);
    var a6 := BitStep(a5);
    BitStepOfZero(BitStep(a6));
    BitStepOfZero(a6);
    BitStepOfZero(a5);
    BitStepOfZero(a4);
    BitStepOfZero(a3);
    BitStepOfZero(a2);
    BitStepOfZero(a1);
    BitStepOfZero(a);
  }

  lemma {:induction false} MessageBitsInjective(a: seq<bv8>, b: seq<bv8>)
    requires MessageBits(a) == MessageBits(b)
    ensures a == b
  {
    hide ByteBits;
    assert |a| == |b|;
    if a != [] {
      assert MessageBits(a)[..8] == ByteBits(a[0]) && MessageBits(b)[..8] == ByteBits(b[0]);
      assert MessageBits(a)[8..] == MessageBits(a[1..]) && MessageBits(b)[8..] == MessageBits(b[1..]);
      ByteBitsInjective(a[0], b[0]);
      MessageBitsInjective(a[1..], b[1..]);
    }
  }

  /** The two messages agree outside sixteen consecutive bits, in the order in which they are sent. */
  ghost predicate DifferInBurst(a: seq<bv8>, b: seq<bv8>, at: nat) {
    && |a| == |b|
    && at <= 8 * |a|
    && forall i | 0 <= i < 8 * |a| && !(at <= i < at + 16) :: MessageBits(a)[i] == MessageBits(b)[i]
  }

  /** Bursts of up to sixteen bits never go unnoticed, at whatever place in messages of whatever length. */
  lemma BurstDetected(a: seq<bv8>, b: seq<bv8>, at: nat)
    requires DifferInBurst(a, b, at)
    ensures SerialCrc(a) == SerialCrc(b) <==> a == b
  {
    if SerialCrc(a) == SerialCrc(b) {
      var x, y := MessageBits(a), MessageBits(b);
      FeedPlus(0xFFFF, 0xFFFF, x, y);
      PlusCancels(0xFFFF, 0xFFFF);
      PlusCancels(Feed(0xFFFF, x), Feed(0xFFFF, y));
      hide Plus;
      hide Feed;
      hide MessageBits;
      BurstLeavesTrace(PlusBits(x, y), at);
      forall i | 0 <= i < |x|
        ensures x[i] == y[i]
      {
        assert !PlusBits(x, y)[i];
      }
      MessageBitsInjective(a, b);
    }
  }

  // ---- The checksum sent after the message ----

  function Low(w: bv16): bv8 {
    (w & 0xFF) as bv8
  }

  function High(w: bv16): bv8 {
    (w >> 8) as bv8
  }

  lemma WordParts(w: bv16, lo: bv8, hi: bv8)
    ensures Word(High(w), Low(w)) == w
    ensures Low(Word(hi, lo)) == lo && High(Word(hi, lo)) == hi
  {
  }

  /** Dividing a message together with the two bytes that follow it, low byte first, leaves nothing
      exactly when those two bytes are the checksum of the message. */
  lemma ResidueIsZero(message: seq<bv8>, lo: bv8, hi: bv8)
    ensures SerialCrc(message + [lo] + [hi]) == 0 <==> Word(hi, lo) == SerialCrc(message)
  {
    var s := SerialCrc(message);
    SerialCrcSnoc(message, lo);
    SerialCrcSnoc(message + [lo], hi);
    ZeroAfterTwoBytes(s, lo, hi);
    hide *;
  }

  lemma ZeroAfterTwoBytes(s: bv16, lo: bv8, hi: bv8)
    ensures EightSteps(Plus(EightSteps(Plus(s, Extend(lo))), Extend(hi))) == 0 <==> Word(hi, lo) == s
  {
    var w := Plus(s, Word(hi, lo));
    SplitTwoBytes(s, lo, hi);
    EightStepsPlus(Plus(s, Extend(lo)), Word(hi, 0));
    EightStepsOfUpper(hi);
    PlusCancels(s, Word(hi, lo));
    PlusCancels(0, 0);
    if EightSteps(EightSteps(w)) == 0 {
      EightStepsOfZero(EightSteps(w));
      EightStepsOfZero(w);
    }
    assert EightSteps(0) == 0;
    hide Plus;
    hide EightSteps;
  }

  lemma SplitTwoBytes(s: bv16, lo: bv8, hi: bv8)
    ensures Plus(s, Word(hi, lo)) == Plus(Plus(s, Extend(lo)), Word(hi, 0))
  {
  }

  // ---- Parity ----

  /** Whether an odd number of bits is set. */
  function Odd(w: bv16, k: nat): bool
    decreases k
  {
    if k == 0 then false else (w & 1 == 1) != Odd(Shifted(w), k - 1)
  }

  function OddBits(bits: seq<bool>): bool
    decreases |bits|
  {
    if bits == [] then false else bits[0] != OddBits(bits[1..])
  }

  lemma {:induction false} OddPlus(a: bv16, b: bv16, k: nat)
    ensures Odd(Plus(a, b), k) == (Odd(a, k) != Odd(b, k))
    decreases k
  {
    hide Plus;
    if k != 0 {
      PlusParts(a, b);
      LastBit(a);
      LastBit(b);
      PlusOfBits();
      OddPlus(Shifted(a), Shifted(b), k - 1);
    }
  }

  lemma {:induction false} OddTail(w: bv16, k: nat)
    requires Rest(w, k) == 0
    ensures Odd(w, k + 1) == Odd(w, k)
    decreases k
  {
    if k != 0 {
      OddTail(Shifted(w), k - 1);
    }
  }

  lemma PolynomialIsOdd()
    ensures Odd(0xA001, 16)
  {
    assert !Odd(0x0A, 4) by {
      assert Odd(2, 2) && Odd(5, 3) == !Odd(2, 2);
    }
    assert Odd(0x2800, 14) == Odd(0x0A00, 12) == Odd(0x0280, 10) == Odd(0xA0, 8) == Odd(0x28, 6) == Odd(0x0A, 4);
    assert Odd(0x5000, 15) == Odd(0x2800, 14);
  }

  lemma InitialIsEven()
    ensures !Odd(0xFFFF, 16)
  {
    assert Odd(0xFFFF, 16) == Odd(0x3FFF, 14) == Odd(0x0FFF, 12) == Odd(0x03FF, 10) == Odd(0xFF, 8);
    assert Odd(0xFF, 8) == Odd(0x3F, 6) == Odd(0x0F, 4) == Odd(0x03, 2) == Odd(0, 0);
  }

  lemma OddOfBit(b: bool)
    ensures Odd(Lsb(b), 16) == b
  {
    OddOfZero(16);
    OddOfZero(15);
    assert Shifted(1) == 0;
  }

  lemma {:induction false} OddOfZero(k: nat)
    ensures !Odd(0, k)
  {
    if k != 0 {
      assert Shifted(0) == 0;
      OddOfZero(k - 1);
    }
  }

  /** The polynomial has an even number of terms, so a step neither makes nor loses an odd bit. */
  lemma BitStepKeepsParity(s: bv16)
    ensures Odd(BitStep(s), 16) == Odd(s, 16)
  {
    OddPlus(Shifted(s), 0xA001, 16);
    PolynomialIsOdd();
    FifteenShifts(Shifted(s));
    assert TopClear(Shifted(s));
    OddTail(Shifted(s), 15);
    assert Odd(s, 16) == ((s & 1 == 1) != Odd(Shifted(s), 15));
    hide Plus;
    hide Odd;
  }

  lemma {:induction false} FeedKeepsParity(s: bv16, bits: seq<bool>)
    ensures Odd(Feed(s, bits), 16) == (Odd(s, 16) != OddBits(bits))
    decreases |bits|
  {
    hide Plus;
    hide BitStep;
    hide Odd;
    if bits != [] {
      var t := Plus(s, Lsb(bits[0]));
      OddPlus(s, Lsb(bits[0]), 16);
      OddOfBit(bits[0]);
      BitStepKeepsParity(t);
      FeedKeepsParity(BitStep(t), bits[1..]);
    }
  }

  /** The checksum has the parity of the message. */
  lemma CrcParity(message: seq<bv8>)
    ensures Odd(SerialCrc(message), 16) == OddBits(MessageBits(message))
  {
    FeedKeepsParity(0xFFFF, MessageBits(message));
    InitialIsEven();
  }

  /** Any odd number of flipped bits, in message and checksum together, is noticed. */
  lemma OddErrorDetected(sent: seq<bv8>, received: seq<bv8>)
    requires |sent| == |received|
    requires SerialCrc(sent) == 0
    requires OddBits(PlusBits(MessageBits(sent), MessageBits(received)))
    ensures SerialCrc(received) != 0
  {
    CrcParity(sent);
    CrcParity(received);
    OddPlusBits(MessageBits(sent), MessageBits(received));
    OddOfZero(16);
  }

  lemma {:induction false} OddPlusBits(a: seq<bool>, b: seq<bool>)
    requires |a| == |b|
    ensures OddBits(PlusBits(a, b)) == (OddBits(a) != OddBits(b))
    decreases |a|
  {
    if a != [] {
      OddPlusBits(a[1..], b[1..]);
      assert PlusBits(a, b)[1..] == PlusBits(a[1..], b[1..]);
    }
  }
}
