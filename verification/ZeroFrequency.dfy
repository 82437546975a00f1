/** What becomes of the registers when a symbol of frequency zero is coded, which nothing prevents. */
module ZeroFrequency {
  import opened Bits
  import opened Tables
  import opened Intervals

  /** The lower end is one above the upper one, which may be -1, and the lower one then may be 2^stateSize. */
  predicate Crossed(p: Params, iv: Interval) {
    iv.low == iv.high + 1 && 0 <= iv.low <= Full(p)
  }

  /** Crossed where no doubling is called for any more: in the middle, or at either end. */
  predicate Dead(p: Params, iv: Interval) {
    Crossed(p, iv) && (iv.low == 0 || iv.low == Half(p) || iv.low == Full(p))
  }

  /** What the registers may hold in the middle of `update`, and between two calls of it. */
  predicate InRegisters(p: Params, iv: Interval) {
    Proper(p, iv) || Crossed(p, iv)
  }

  lemma LowIsNat(p: Params, iv: Interval)
    requires InRegisters(p, iv)
    ensures 0 <= iv.low
  {
  }

  predicate Resting(p: Params, iv: Interval) {
    Straddling(p, iv) || Dead(p, iv)
  }

  // ---- Narrowing ----

  /** The registers cross: the lower end is one above the upper one. */
  lemma EmptyShare(p: Params, iv: Interval, t: Table, symbol: nat)
    requires Straddling(p, iv) && 0 < t.Total() <= MaxTotal(p)
    requires symbol < t.Limit() && t.Low(symbol) == t.High(symbol)
    ensures var share := Narrow(p, iv, t, symbol);
            share.low == share.high + 1 && iv.low <= share.low <= iv.high + 1
  {
    NarrowInside(p, iv, t, symbol);
    NarrowIs(p, iv.low, iv.high, t, symbol);
    hide Scaled;
    hide Straddling;
    hide TableData.Valid;
    hide MaxTotal;
  }

  /** Between crossed ends the range is zero: no symbol of any table moves them again. */
  lemma CrossedForEver(p: Params, x: int, t: Table, symbol: nat)
    requires p.slack == 1 && 0 < t.Total() && symbol < t.Limit()
    ensures Narrow(p, Interval(x, x - 1), t, symbol) == Interval(x, x - 1)
  {
    NarrowIs(p, x, x - 1, t, symbol);
    DivisionIs(0, t.Total(), 0, 0);
    hide Narrow;
  }

  /** So the registers of the reference coder are ends of an interval, or crossed, whatever is coded. */
  lemma NarrowRegisters(p: Params, iv: Interval, t: Table, symbol: nat)
    requires p.slack == 1 && Resting(p, iv) && symbol < t.Limit() && 0 < t.Total() <= MaxTotal(p)
    ensures InRegisters(p, Narrow(p, iv, t, symbol))
    ensures Proper(p, Narrow(p, iv, t, symbol)) <==> Straddling(p, iv) && t.Low(symbol) < t.High(symbol)
    ensures Dead(p, iv) ==> Narrow(p, iv, t, symbol) == iv
  {
    BoundsInTotal(t, symbol);
    hide Narrow;
    hide MaxTotal;
    hide TableData.Valid;
    hide Pow2;
    Halves(p);
    if Dead(p, iv) {
      CrossedForEver(p, iv.low, t, symbol);
    } else {
      NarrowInside(p, iv, t, symbol);
      if t.Low(symbol) == t.High(symbol) {
        EmptyShare(p, iv, t, symbol);
      }
    }
  }

  // ---- Renormalisation ----

  /** How often a number can be halved. */
  function Twos(x: nat): nat
    requires 0 < x
  {
    if x % 2 == 1 then 0 else 1 + Twos(x / 2)
  }

  lemma {:induction false} TwosBound(x: nat, k: nat)
    requires 0 < x < Pow2(k + 1)
    ensures Twos(x) <= k
    ensures Twos(x) == k <==> x == Pow2(k)
  {
    if k != 0 {
      assert Pow2(k) == 2 * Pow2(k - 1) && Pow2(k + 1) == 2 * Pow2(k);
      if x % 2 == 0 {
        TwosBound(x / 2, k - 1);
      }
    }
  }

  lemma {:induction false} TwosBelow(x: nat, k: nat)
    requires Pow2(k) < x < Pow2(k + 1)
    ensures Twos(x - Pow2(k)) == Twos(x)
  {
    if k != 0 {
      assert Pow2(k) == 2 * Pow2(k - 1) && Pow2(k + 1) == 2 * Pow2(k);
      if x % 2 == 0 {
        TwosBelow(x / 2, k - 1);
        assert (x - Pow2(k)) / 2 == x / 2 - Pow2(k - 1);
      }
    }
  }

  /** Every round brings the lower register nearer to a power of two. */
  lemma RoundHalves(p: Params, x: nat)
    requires 0 < x < Full(p) && x != Half(p)
    ensures 0 < Rest(p, x) && Twos(2 * Rest(p, x)) == Twos(x) + 1 < p.stateSize
  {
    var k := p.stateSize - 1;
    assert Full(p) == Pow2(k + 1) && Half(p) == Pow2(k);
    TwosBound(x, k);
    if Half(p) < x {
      TwosBelow(x, k);
    }
    hide Pow2;
    hide Full;
    hide Half;
    assert Twos(2 * Rest(p, x)) == 1 + Twos(Rest(p, x));
  }

  /** The shifts called for by crossed ends. */
  function CrossedSteps(p: Params, x: nat): seq<Step>
    requires x <= Full(p)
    decreases Left(p, x)
  {
    if x == 0 || x == Half(p) || x == Full(p) then [] else
      RoundHalves(p, x);
      RestFits(p, x);
      [Shift(TopBit(p, x))] + CrossedSteps(p, 2 * Rest(p, x))
  }

  /** How many shifts there can be at most. */
  function Left(p: Params, x: nat): nat {
    if x == 0 || p.stateSize < Twos(x) then 0 else p.stateSize - Twos(x)
  }

  lemma RestFits(p: Params, x: nat)
    requires x < Full(p)
    ensures 2 * Rest(p, x) < Full(p)
  {
    Halves(p);
  }

  function CrossedEnd(p: Params, iv: Interval): Interval {
    if Dead(p, iv) then iv else Interval(Half(p), Half(p) - 1)
  }

  // ---- The tests and the first loop body, on crossed registers ----

  lemma AtZero(p: Params)
    ensures AndInt(XorInt(0, -1), Half(p)) == Half(p) != 0
    ensures And(AndNotInt(0, -1), Quarter(p)) == 0
  {
    AndNotNothing(Half(p));
    hide AndNot;
  }

  lemma {:induction false} AndNotNothing(x: nat)
    ensures AndNot(x, 0) == x
  {
    if x != 0 {
      AndNotNothing(x / 2);
    }
  }

  lemma AtFull(p: Params)
    ensures AndInt(XorInt(Full(p), Full(p) - 1), Half(p)) != 0
    ensures And(AndNotInt(Full(p), Full(p) - 1), Quarter(p)) == 0
  {
    hide *;
    PowersIn(p);
    var n := p.stateSize;
    var x, y := Pow2(n), Pow2(n) - 1;
    NoSign(x, y);
    NoSign(Xor(x, y), y);
    DigitOfPower(n, n - 1);
    DigitOfPower(n, n - 2);
    XorDigit(x, y, n - 1);
    AndDigit(Xor(x, y), n - 1);
    AndNotDigit(x, y, n - 2);
    AndDigit(AndNot(x, y), n - 2);
  }

  lemma PowersIn(p: Params)
    ensures Full(p) == Pow2(p.stateSize) && Half(p) == Pow2(p.stateSize - 1) && Quarter(p) == Pow2(p.stateSize - 2)
  {
  }

  lemma NoSign(x: nat, y: nat)
    ensures XorInt(x, y) == Xor(x, y) && AndNotInt(x, y) == AndNot(x, y)
    ensures forall mask: nat :: AndInt(x, mask) == And(x, mask)
  {
    hide And;
    hide AndNot;
    hide Xor;
  }

  lemma InTheMiddle(p: Params)
    ensures And(AndNotInt(Half(p), Half(p) - 1), Quarter(p)) == 0
  {
    Halves(p);
    SecondDigitClear(p.stateSize - 2);
    hide And;
    hide AndNot;
  }

  lemma SecondDigitClear(k: nat)
    ensures And(AndNot(2 * Pow2(k), 2 * Pow2(k) - 1), Pow2(k)) == 0
  {
    hide *;
    var h := 2 * Pow2(k);
    SecondBitOfUpperHalf(h, k);
    AndNotDigit(h, h - 1, k);
    AndDigit(AndNot(h, h - 1), k);
  }

  /** The first loop goes on exactly while the registers are not dead. */
  lemma CrossedTest(p: Params, iv: Interval)
    requires Crossed(p, iv)
    ensures AndInt(XorInt(iv.low, iv.high), Half(p)) == 0 <==> !Dead(p, iv)
  {
    AtZero(p);
    AtFull(p);
    if 0 < iv.low < Full(p) {
      TopBitsEqual(p, iv.low, iv.high);
    }
    hide And;
    hide AndNot;
    hide Xor;
    hide Pow2;
  }

  /** The second one is never entered from there. */
  lemma DeadTest(p: Params, iv: Interval)
    requires Dead(p, iv)
    ensures And(AndNotInt(iv.low, iv.high), Quarter(p)) == 0
  {
    AtZero(p);
    AtFull(p);
    InTheMiddle(p);
    hide And;
    hide AndNot;
    hide Pow2;
  }

  /** One round of the first loop keeps the registers crossed and brings them nearer to the middle. */
  lemma CrossedRound(p: Params, iv: Interval)
    requires Crossed(p, iv) && !Dead(p, iv)
    ensures 0 < iv.low < Full(p) && 0 <= iv.high
    ensures var x := ShiftedLow(p, iv.low);
            && Interval(x, ShiftedHigh(p, iv.high)) == Interval(2 * Rest(p, iv.low), 2 * Rest(p, iv.low) - 1)
            && 0 < x < Full(p) && Left(p, x) < Left(p, iv.low)
            && CrossedSteps(p, iv.low) == [Shift(TopBit(p, iv.low))] + CrossedSteps(p, x)
  {
    var x := iv.low;
    Halves(p);
    ShiftRegister(p, x);
    ShiftRegister(p, x - 1);
    RestBelow(p, x);
    OrDoubled(Rest(p, x - 1), 1);
    RoundHalves(p, x);
    hide And;
    hide Or;
    hide Pow2;
    hide Twos;
  }

  lemma RestBelow(p: Params, x: nat)
    requires 0 < x < Full(p) && x != Half(p)
    ensures 0 < Rest(p, x) && Rest(p, x - 1) == Rest(p, x) - 1 && 2 * Rest(p, x) < Full(p)
  {
    Halves(p);
  }
}
