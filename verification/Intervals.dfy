/** The coding interval shared by encoder and decoder: narrowing, and renormalisation by doubling. */
module Intervals {
  import opened Bits
  import opened Tables

  /** `slack` is what is added to `high - low` to obtain the range:
      1 in the reference coder, 0 in the coder on the board. */
  datatype Setting = Setting(stateSize: nat, slack: nat)

  type Params = p: Setting | 2 <= p.stateSize && p.slack <= 1 witness Setting(32, 1)

  function Full(p: Params): nat {
    Pow2(p.stateSize)
  }

  function Half(p: Params): nat {
    Pow2(p.stateSize - 1)
  }

  function Quarter(p: Params): nat {
    Pow2(p.stateSize - 2)
  }

  /** The largest total for which every symbol is certain to keep a non-empty interval. */
  function MaxTotal(p: Params): nat {
    Quarter(p) + 1 + p.slack
  }

  lemma Halves(p: Params)
    ensures Full(p) == 2 * Half(p) && Half(p) == 2 * Quarter(p)
  {
  }

  /** The reference coder's bound on totals is exactly that. */
  lemma MinRange(p: Params)
    requires p.slack == 1
    ensures Full(p) / 4 + 2 == MaxTotal(p)
  {
    Halves(p);
  }

  datatype Interval = Interval(low: int, high: int)

  /** Both ends are registers and the interval holds at least one number. */
  predicate Proper(p: Params, iv: Interval) {
    0 <= iv.low <= iv.high < Full(p)
  }

  lemma ProperIs(p: Params, iv: Interval)
    ensures Proper(p, iv) <==> 0 <= iv.low <= iv.high < Full(p)
  {
  }

  /** The ends lie in different halves, and not both in the middle two quarters. */
  predicate Straddling(p: Params, iv: Interval) {
    && 0 <= iv.low < Half(p) <= iv.high < Full(p)
    && (iv.low < Quarter(p) || 3 * Quarter(p) <= iv.high)
  }

  function Initial(p: Params): Interval {
    Interval(0, Full(p) - 1)
  }

  function Range(p: Params, iv: Interval): int {
    iv.high - iv.low + p.slack
  }

  lemma RangeBounds(p: Params, iv: Interval)
    requires Straddling(p, iv)
    ensures MaxTotal(p) <= Range(p, iv) <= Full(p) - 1 + p.slack
  {
    Halves(p);
  }

  // ---- Narrowing to one symbol ----

  predicate Fits(p: Params, t: Table, symbol: nat) {
    symbol < t.Limit() && t.Low(symbol) < t.High(symbol) && t.Total() <= MaxTotal(p)
  }

  /** The end of the share of a range that belongs to cumulative frequency `c`. */
  function Scaled(c: nat, range: int, total: nat): int
    requires 0 < total
  {
    c * range / total
  }

  function Narrow(p: Params, iv: Interval, t: Table, symbol: nat): Interval
    requires symbol < t.Limit() && 0 < t.Total()
  {
    var range := Range(p, iv);
    Interval(iv.low + Scaled(t.Low(symbol), range, t.Total()),
             iv.low + Scaled(t.High(symbol), range, t.Total()) - 1)
  }

  lemma NarrowIs(p: Params, low: int, high: int, t: Table, symbol: nat)
    requires symbol < t.Limit() && 0 < t.Total()
    ensures var range := high - low + p.slack;
            Narrow(p, Interval(low, high), t, symbol)
            == Interval(low + Scaled(t.Low(symbol), range, t.Total()),
                        low + Scaled(t.High(symbol), range, t.Total()) - 1)
  {
  }

  lemma DivideMonotone(x: int, y: int, m: int)
    requires x <= y && 0 < m
    ensures x / m <= y / m
  {
    var d := x / m - y / m;
    assert d * m < m by {
      assert x == (x / m) * m + x % m && y == (y / m) * m + y % m;
      assert d * m == (x / m) * m - (y / m) * m;
    }
    MultipleIsFar(d, m);
  }

  lemma DividePlusDivisor(x: int, m: int)
    requires 0 < m
    ensures (x + m) / m == x / m + 1
  {
    assert x == (x / m) * m + x % m;
    assert (x / m + 1) * m == (x / m) * m + m;
    DivisionIs(x + m, m, x / m + 1, x % m);
  }

  lemma ScaledMonotone(c: nat, d: nat, range: nat, total: nat)
    requires 0 < total && c <= d
    ensures Scaled(c, range, total) <= Scaled(d, range, total)
  {
    ProductIsNat(d - c, range);
    assert d * range == c * range + (d - c) * range;
    DivideMonotone(c * range, d * range, total);
  }

  lemma ScaledEnds(range: nat, total: nat)
    requires 0 < total
    ensures Scaled(0, range, total) == 0 && Scaled(total, range, total) == range
  {
    DivisionIs(0, total, 0, 0);
    assert total * range == range * total;
    DivisionIs(total * range, total, range, 0);
  }

  /** A range of at least `total` numbers has room for every positive frequency. */
  lemma ScaledGap(c: nat, d: nat, range: nat, total: nat)
    requires 0 < total <= range && c < d
    ensures Scaled(c, range, total) < Scaled(d, range, total)
  {
    ScaledMonotone(c + 1, d, range, total);
    assert (c + 1) * range == c * range + range;
    DividePlusDivisor(c * range, total);
    DivideMonotone(c * range + total, (c + 1) * range, total);
  }

  /** A symbol narrows the interval to a part of it, which is empty exactly when its frequency is zero. */
  lemma NarrowInside(p: Params, iv: Interval, t: Table, symbol: nat)
    requires Straddling(p, iv)
    requires symbol < t.Limit() && 0 < t.Total() <= MaxTotal(p)
    ensures iv.low <= Narrow(p, iv, t, symbol).low
    ensures Narrow(p, iv, t, symbol).high <= iv.high
    ensures Narrow(p, iv, t, symbol).low <= Narrow(p, iv, t, symbol).high <==> t.Low(symbol) < t.High(symbol)
  {
    var range, total := Range(p, iv), t.Total();
    RangeBounds(p, iv);
    ScaledEnds(range, total);
    ScaledMonotone(0, t.Low(symbol), range, total);
    ScaledMonotone(t.High(symbol), total, range, total);
    if t.Low(symbol) < t.High(symbol) {
      ScaledGap(t.Low(symbol), t.High(symbol), range, total);
    }
  }

  /** The bound on totals is exact: beyond it there is an interval, legal between symbols, that leaves a symbol
      of positive frequency with nothing. */
  lemma TotalBound(p: Params, total: nat)
    requires 0 < total
    ensures total <= MaxTotal(p) <==>
            forall iv, t: Table, s: nat |
              Straddling(p, iv) && t.Total() == total && s < t.Limit() && t.Low(s) < t.High(s) ::
              Proper(p, Narrow(p, iv, t, s))
  {
    if total <= MaxTotal(p) {
      forall iv, t: Table, s: nat |
        Straddling(p, iv) && t.Total() == total && s < t.Limit() && t.Low(s) < t.High(s)
        ensures Proper(p, Narrow(p, iv, t, s))
      {
        NarrowInside(p, iv, t, s);
      }
    } else {
      Halves(p);
      var iv, t := Interval(Quarter(p) - 1, Half(p)), Table([0, 1, total]);
      assert Straddling(p, iv) && Range(p, iv) == MaxTotal(p);
      DivisionIs(0, total, 0, 0);
      DivisionIs(MaxTotal(p), total, 0, MaxTotal(p));
      assert t.Low(0) == 0 && t.High(0) == 1;
      assert !Proper(p, Narrow(p, iv, t, 0));
    }
  }

  /** Different symbols narrow the interval to disjoint parts. */
  lemma NarrowDisjoint(p: Params, iv: Interval, t: Table, r: nat, s: nat)
    requires Straddling(p, iv)
    requires r < s < t.Limit() && 0 < t.Total()
    ensures Narrow(p, iv, t, r).high < Narrow(p, iv, t, s).low
  {
    ScaledMonotone(t.High(r), t.Low(s), Range(p, iv), t.Total());
  }

  // ---- Renormalisation ----

  /** One doubling: a settled top bit leaves, or the second bit is taken out. */
  datatype Step = Shift(b: bit) | Underflow

  datatype Settled = Settled(iv: Interval, steps: seq<Step>)

  function Apply(p: Params, iv: Interval, step: Step): Interval {
    var base := match step case Shift(b) => b * Half(p) case Underflow => Quarter(p);
    Interval(2 * (iv.low - base), 2 * (iv.high - base) + 1)
  }

  /** The next doubling that the ends call for. */
  function NextStep(p: Params, iv: Interval): (steps: seq<Step>)
    ensures |steps| <= 1
  {
    if iv.high < Half(p) then [Shift(0)]
    else if Half(p) <= iv.low then [Shift(1)]
    else if Quarter(p) <= iv.low && iv.high < 3 * Quarter(p) then [Underflow]
    else []
  }

  /** Doubles until the ends straddle the middle properly. Each doubling makes the interval
      exactly twice as wide, so there is an end to it. */
  function Settle(p: Params, iv: Interval): (r: Settled)
    requires Proper(p, iv)
    ensures Straddling(p, r.iv)
    decreases Full(p) - (iv.high - iv.low)
  {
    Halves(p);
    var next := NextStep(p, iv);
    if next == [] then Settled(iv, []) else
      var rest := Settle(p, Apply(p, iv, next[0]));
      Settled(rest.iv, next + rest.steps)
  }

  /** Once the ends are in different halves they stay there, so no shift follows an underflow. */
  lemma {:induction false} UnderflowsLast(p: Params, iv: Interval)
    requires Proper(p, iv) && iv.low < Half(p) <= iv.high
    ensures forall i | 0 <= i < |Settle(p, iv).steps| :: Settle(p, iv).steps[i] == Underflow
    decreases Full(p) - (iv.high - iv.low)
  {
    Halves(p);
    var next := NextStep(p, iv);
    if next != [] {
      UnderflowsLast(p, Apply(p, iv, Underflow));
    }
  }

  /** What has to be added to a register to obtain its position on the number line doubled so far. */
  function StepOffset(p: Params, offset: int, step: Step): int {
    match step
    case Shift(b) => 2 * (offset + b * Half(p))
    case Underflow => 2 * (offset + Quarter(p))
  }

  function Offsets(p: Params, offset: int, steps: seq<Step>): int
    decreases |steps|
  {
    if steps == [] then offset else Offsets(p, StepOffset(p, offset, steps[0]), steps[1..])
  }

  lemma StepMagnifies(p: Params, iv: Interval, offset: int, step: Step)
    ensures var iv' := Apply(p, iv, step);
            && StepOffset(p, offset, step) + iv'.low == 2 * (offset + iv.low)
            && StepOffset(p, offset, step) + iv'.high + 1 == 2 * (offset + iv.high + 1)
  {
  }

  /** Renormalisation loses nothing: the interval is only magnified. */
  lemma {:induction false} SettleMagnifies(p: Params, iv: Interval, offset: int)
    requires Proper(p, iv)
    ensures var r := Settle(p, iv);
            && Offsets(p, offset, r.steps) + r.iv.low == Doubled(offset + iv.low, |r.steps|)
            && Offsets(p, offset, r.steps) + r.iv.high + 1 == Doubled(offset + iv.high + 1, |r.steps|)
    decreases Full(p) - (iv.high - iv.low)
  {
    Halves(p);
    var next := NextStep(p, iv);
    if next != [] {
      var after, offset' := Apply(p, iv, next[0]), StepOffset(p, offset, next[0]);
      var rest, steps := Settle(p, after), Settle(p, iv).steps;
      assert steps[0] == next[0] && steps[1..] == rest.steps;
      StepMagnifies(p, iv, offset, next[0]);
      SettleMagnifies(p, after, offset');
    }
  }

  // ---- The register operations behind the doublings ----

  /** Comparing the top bits of two registers. */
  lemma TopBitsEqual(p: Params, x: nat, y: nat)
    requires x < Full(p) && y < Full(p)
    ensures And(Xor(x, y), Half(p)) == 0 <==> (x < Half(p) <==> y < Half(p))
  {
    hide And;
    hide AndNot;
    hide Or;
    hide Xor;
    hide Digit;
    var k := p.stateSize - 1;
    AndDigit(Xor(x, y), k);
    XorDigit(x, y, k);
    TopDigit(x, k);
    TopDigit(y, k);
  }

  /** Finding `low = 01...` below `high = 10...`. */
  lemma SecondBitsCross(p: Params, iv: Interval)
    requires 0 <= iv.low < Half(p) <= iv.high < Full(p)
    ensures And(AndNot(iv.low, iv.high), Quarter(p)) != 0
       <==> Quarter(p) <= iv.low && iv.high < 3 * Quarter(p)
  {
    hide And;
    hide AndNot;
    hide Or;
    hide Xor;
    hide Digit;
    var k := p.stateSize - 2;
    Halves(p);
    AndDigit(AndNot(iv.low, iv.high), k);
    AndNotDigit(iv.low, iv.high, k);
    TopDigit(iv.low, k);
    SecondBitOfUpperHalf(iv.high, k);
  }

  lemma {:induction false} SecondBitOfUpperHalf(x: nat, k: nat)
    requires 2 * Pow2(k) <= x < 4 * Pow2(k)
    ensures Digit(x, k) == 1 <==> 3 * Pow2(k) <= x
  {
    if k != 0 {
      SecondBitOfUpperHalf(x / 2, k - 1);
    }
  }

  function TopBit(p: Params, x: nat): (b: bit)
    requires x < Full(p)
    ensures b == if x < Half(p) then 0 else 1
  {
    Halves(p);
    HalfQuotient(x, Half(p));
    x / Half(p)
  }

  /** The part of a register below its top bit. */
  function Rest(p: Params, x: nat): nat {
    if x < Half(p) then x else x - Half(p)
  }

  /** Shifting left within the mask drops the top bit. */
  lemma ShiftRegister(p: Params, x: nat)
    requires x < Full(p)
    ensures And(2 * x, Full(p) - 1) == 2 * Rest(p, x)
  {
    hide And;
    hide AndNot;
    hide Or;
    hide Xor;
    hide Digit;
    Halves(p);
    AndOnes(2 * x, p.stateSize);
    ModDouble(2 * x, Half(p));
    ModHalf(x, Half(p));
  }

  /** The part of a register in the middle two quarters below its top two bits. */
  function RestOfHalf(p: Params, x: nat): nat
    requires Quarter(p) <= x
  {
    if x < Half(p) then x - Quarter(p) else x - Half(p)
  }

  /** Shifting left within half the mask drops the top two bits. */
  lemma UnderflowRegister(p: Params, x: nat)
    requires Quarter(p) <= x < 3 * Quarter(p)
    ensures And(2 * x, (Full(p) - 1) / 2) == 2 * RestOfHalf(p, x)
  {
    hide And;
    hide AndNot;
    hide Or;
    hide Xor;
    hide Digit;
    Halves(p);
    var q := Quarter(p);
    assert Pow2(p.stateSize - 1) == 2 * q && (Full(p) - 1) / 2 == 2 * q - 1;
    hide *;
    AndOnes(2 * x, p.stateSize - 1);
    DoubleModThird(x, q);
    RestOfHalfIs(p, x);
  }

  lemma DoubleModThird(x: nat, q: nat)
    requires 0 < q <= x < 3 * q
    ensures (2 * x) % (2 * q) == 2 * (if x < 2 * q then x - q else x - 2 * q)
  {
    ModDouble(2 * x, q);
    ModThird(x, q);
  }

  lemma RestOfHalfIs(p: Params, x: nat)
    requires Quarter(p) <= x
    ensures RestOfHalf(p, x) == if x < 2 * Quarter(p) then x - Quarter(p) else x - 2 * Quarter(p)
  {
    Halves(p);
  }

  lemma AndTop(p: Params, x: nat)
    requires x < Full(p)
    ensures And(x, Half(p)) == if x < Half(p) then 0 else Half(p)
  {
    AndDigit(x, p.stateSize - 1);
    TopDigit(x, p.stateSize - 1);
  }

  /** Putting the top bit and a new last bit back. */
  lemma OrTopAndBit(p: Params, x: nat, b: bit)
    requires 2 * x < Half(p)
    ensures Or(Or(2 * x, Half(p)), b) == 2 * x + Half(p) + b
    ensures Or(Or(Half(p), 2 * x), b) == 2 * x + Half(p) + b
    ensures Or(Or(0, 2 * x), b) == 2 * x + b
  {
    Halves(p);
    assert Half(p) == Pow2(p.stateSize - 1);
    hide Pow2;
    OrTop(2 * x, p.stateSize - 1);
    OrDoubled(x + Quarter(p), b);
    OrDoubled(x, b);
    assert Or(0, 2 * x) == 2 * x;
    hide Or;
  }

  // ---- The two loop bodies ----

  function ShiftedLow(p: Params, low: nat): nat {
    And(2 * low, Full(p) - 1)
  }

  function ShiftedHigh(p: Params, high: nat): nat {
    Or(And(2 * high, Full(p) - 1), 1)
  }

  function UnderflownLow(p: Params, low: nat): nat {
    And(2 * low, (Full(p) - 1) / 2)
  }

  function UnderflownHigh(p: Params, high: nat): nat {
    Or(Or(And(2 * high, (Full(p) - 1) / 2), Half(p)), 1)
  }

  /** While the top bits agree, the next doubling is a shift, and the masks perform it. */
  lemma ShiftRound(p: Params, low: nat, high: nat)
    requires Proper(p, Interval(low, high)) && And(Xor(low, high), Half(p)) == 0
    ensures NextStep(p, Interval(low, high)) == [Shift(TopBit(p, low))]
    ensures Interval(ShiftedLow(p, low), ShiftedHigh(p, high)) == Apply(p, Interval(low, high), Shift(TopBit(p, low)))
  {
    hide And;
    hide AndNot;
    hide Or;
    hide Xor;
    hide Digit;
    TopBitsEqual(p, low, high);
    ShiftRegister(p, low);
    ShiftRegister(p, high);
    OrDoubled(Rest(p, high), 1);
  }

  /** While the second bits cross, the next doubling is an underflow, and the masks perform it. */
  lemma UnderflowRound(p: Params, low: nat, high: nat)
    requires low < Half(p) <= high < Full(p) && And(AndNot(low, high), Quarter(p)) != 0
    ensures NextStep(p, Interval(low, high)) == [Underflow]
    ensures Interval(UnderflownLow(p, low), UnderflownHigh(p, high)) == Apply(p, Interval(low, high), Underflow)
    ensures UnderflownLow(p, low) < Half(p) <= UnderflownHigh(p, high)
  {
    hide And;
    hide AndNot;
    hide Or;
    hide Xor;
    hide Digit;
    Halves(p);
    SecondBitsCross(p, Interval(low, high));
    UnderflowRegister(p, low);
    UnderflowRegister(p, high);
    OrTopAndBit(p, RestOfHalf(p, high), 1);
  }

  /** When neither loop goes on, renormalisation is complete. */
  lemma NoRound(p: Params, low: nat, high: nat)
    requires Proper(p, Interval(low, high)) && And(Xor(low, high), Half(p)) != 0
    ensures low < Half(p) <= high
    ensures And(AndNot(low, high), Quarter(p)) == 0 ==> NextStep(p, Interval(low, high)) == []
  {
    hide And;
    hide AndNot;
    hide Or;
    hide Xor;
    hide Digit;
    TopBitsEqual(p, low, high);
    SecondBitsCross(p, Interval(low, high));
  }
}
