/** The arithmetic decoder: what it computes, and the class that computes it bit by bit. */
module Decoder {
  import opened Bits
  import opened BitStreams
  import opened Tables
  import opened Intervals

  /** The interval, the code window, and how many bits of the stream have been asked for. */
  datatype Dec = Dec(iv: Interval, code: int, position: nat)

  predicate InWindow(d: Dec) {
    d.iv.low <= d.code <= d.iv.high
  }

  function Begin(p: Params, s: seq<bit>): Dec {
    Dec(Initial(p), Peek(s, p.stateSize), p.stateSize)
  }

  function Absorb(p: Params, code: int, step: Step, b: bit): int {
    match step
    case Shift(top) => 2 * (code - top * Half(p)) + b
    case Underflow => 2 * (code - Quarter(p)) + b
  }

  function Follow(p: Params, s: seq<bit>, d: Dec, step: Step): Dec {
    Dec(Apply(p, d.iv, step), Absorb(p, d.code, step, BitAt(s, d.position)), d.position + 1)
  }

  function Resettle(p: Params, s: seq<bit>, d: Dec): (r: Dec)
    requires Proper(p, d.iv)
    ensures Straddling(p, r.iv)
    ensures InWindow(d) ==> InWindow(r)
    decreases Full(p) - (d.iv.high - d.iv.low)
  {
    Halves(p);
    var next := NextStep(p, d.iv);
    if next == [] then d else Resettle(p, s, Follow(p, s, d, next[0]))
  }

  lemma ResettleStep(p: Params, s: seq<bit>, d: Dec)
    requires Proper(p, d.iv) && NextStep(p, d.iv) != []
    ensures var d' := Follow(p, s, d, NextStep(p, d.iv)[0]);
            && Proper(p, d'.iv)
            && d'.iv.high - d'.iv.low == 2 * (d.iv.high - d.iv.low) + 1
            && (InWindow(d) ==> InWindow(d'))
            && Resettle(p, s, d') == Resettle(p, s, d)
  {
    Halves(p);
  }

  lemma ResettleDone(p: Params, s: seq<bit>, d: Dec)
    requires Proper(p, d.iv) && NextStep(p, d.iv) == []
    ensures Resettle(p, s, d) == d
  {
  }

  /** The masks that feed the next bit into the code window. */
  lemma ShiftCode(p: Params, code: nat, b: bit)
    requires code < Full(p)
    ensures Or(And(2 * code, Full(p) - 1), b) == Absorb(p, code, Shift(TopBit(p, code)), b)
  {
    hide And;
    hide Or;
    ShiftRegister(p, code);
    OrDoubled(Rest(p, code), b);
  }

  lemma UnderflowCode(p: Params, code: nat, b: bit)
    requires Quarter(p) <= code < 3 * Quarter(p)
    ensures Or(Or(And(code, Half(p)), And(2 * code, (Full(p) - 1) / 2)), b) == Absorb(p, code, Underflow, b)
  {
    hide And;
    Halves(p);
    AndTop(p, code);
    UnderflowRegister(p, code);
    hide Or;
    OrTopAndBit(p, RestOfHalf(p, code), b);
  }

  /** One round of the first loop, and of the second. */
  lemma ShiftFollows(p: Params, s: seq<bit>, low: nat, high: nat, code: nat, position: nat)
    requires Proper(p, Interval(low, high)) && low <= code <= high && And(Xor(low, high), Half(p)) == 0
    ensures var d := Dec(Interval(low, high), code, position);
            var d' := Dec(Interval(ShiftedLow(p, low), ShiftedHigh(p, high)),
                          Absorb(p, code, Shift(TopBit(p, code)), BitAt(s, position)), position + 1);
            && Proper(p, d'.iv) && InWindow(d') && d'.iv.high - d'.iv.low == 2 * (high - low) + 1 <= 2 * Full(p) - 1
            && Resettle(p, s, d') == Resettle(p, s, d)
  {
    hide And;
    TopBitsEqual(p, low, high);
    ShiftRound(p, low, high);
    ResettleStep(p, s, Dec(Interval(low, high), code, position));
  }

  lemma UnderflowFollows(p: Params, s: seq<bit>, low: nat, high: nat, code: nat, position: nat)
    requires low < Half(p) <= high < Full(p) && low <= code <= high
    requires And(AndNot(low, high), Quarter(p)) != 0
    ensures Quarter(p) <= code < 3 * Quarter(p)
    ensures var d := Dec(Interval(low, high), code, position);
            var d' := Dec(Interval(UnderflownLow(p, low), UnderflownHigh(p, high)),
                          Absorb(p, code, Underflow, BitAt(s, position)), position + 1);
            && Proper(p, d'.iv) && InWindow(d') && d'.iv.high - d'.iv.low == 2 * (high - low) + 1 <= 2 * Full(p) - 1
            && d'.iv.low < Half(p) <= d'.iv.high
            && Resettle(p, s, d') == Resettle(p, s, d)
  {
    hide And;
    SecondBitsCross(p, Interval(low, high));
    UnderflowRound(p, low, high);
    ResettleStep(p, s, Dec(Interval(low, high), code, position));
  }

  // ---- Choosing the symbol ----

  /** The highest symbol that starts at or below `value`, or else 0. */
  function Locate(t: Table, value: int, end: nat): (symbol: nat)
    requires 0 < end <= t.Limit()
    ensures symbol < end
    ensures t.Low(symbol) <= value || symbol == 0
    ensures forall k | symbol < k < end :: value < t.Low(k)
  {
    if end == 1 || t.Low(end - 1) <= value then end - 1 else Locate(t, value, end - 1)
  }

  lemma LocateUnique(t: Table, value: int, symbol: nat)
    requires symbol < t.Limit()
    requires t.Low(symbol) <= value || symbol == 0
    requires symbol + 1 < t.Limit() ==> value < t.Low(symbol + 1)
    ensures symbol == Locate(t, value, t.Limit())
  {
    assert forall k | symbol < k < t.Limit() :: t.Low(symbol + 1) <= t.Low(k);
  }

  /** The code window translated from the scale of the range to the scale of the table. */
  function TableValue(p: Params, d: Dec, total: nat): int
    requires Range(p, d.iv) != 0
  {
    ((d.code - d.iv.low + 1) * total - 1) / Range(p, d.iv)
  }

  function Choose(p: Params, d: Dec, t: Table): (symbol: nat)
    requires Straddling(p, d.iv)
    ensures symbol < t.Limit()
  {
    RangeBounds(p, d.iv);
    Locate(t, TableValue(p, d, t.Total()), t.Limit())
  }

  /** The translation is exact: no rounding can move a cumulative frequency across the code window. */
  lemma ScaledAtMost(c: nat, offset: nat, range: nat, total: nat)
    requires 0 < total && 0 < range
    ensures Scaled(c, range, total) <= offset <==> c <= ((offset + 1) * total - 1) / range
  {
    QuotientAtMost(c * range, total, offset);
    QuotientAtLeast((offset + 1) * total - 1, range, c);
    assert (offset + 1) * total == offset * total + total;
    ProductIsNat(offset, total);
  }

  lemma QuotientAtLeast(x: nat, m: nat, k: nat)
    requires 0 < m
    ensures k <= x / m <==> k * m <= x
  {
    if 0 < k {
      QuotientAtMost(x, m, k - 1);
      assert k * m == (k - 1) * m + m;
    }
  }

  lemma QuotientAtMost(x: nat, m: nat, k: nat)
    requires 0 < m
    ensures x / m <= k <==> x < k * m + m
  {
    assert x == (x / m) * m + x % m;
    MultipleIsFar(x / m - k, m);
    assert (x / m - k) * m == (x / m) * m - k * m;
  }

  /** The same for a decoder in its window. */
  lemma ValueReaches(p: Params, d: Dec, t: Table, c: nat)
    requires p.slack == 1 && Straddling(p, d.iv) && InWindow(d) && 0 < t.Total()
    ensures 0 < Range(p, d.iv)
    ensures Scaled(c, Range(p, d.iv), t.Total()) <= d.code - d.iv.low <==> c <= TableValue(p, d, t.Total())
  {
    var range, total := Range(p, d.iv), t.Total();
    RangeBounds(p, d.iv);
    assert TableValue(p, d, total) == ((d.code - d.iv.low + 1) * total - 1) / range;
    hide Scaled;
    hide Pow2;
    hide TableData.Valid;
    hide Straddling;
    hide TableValue;
    ScaledAtMost(c, d.code - d.iv.low, range, total);
  }

  lemma ChosenIs(p: Params, d: Dec, t: Table)
    requires Straddling(p, d.iv)
    ensures Range(p, d.iv) != 0
    ensures Choose(p, d, t) == Locate(t, TableValue(p, d, t.Total()), t.Limit())
  {
    RangeBounds(p, d.iv);
    hide Locate;
  }

  lemma ChosenHolds(p: Params, d: Dec, t: Table)
    requires p.slack == 1 && Straddling(p, d.iv) && InWindow(d) && 0 < t.Total() <= MaxTotal(p)
    ensures t.Low(Choose(p, d, t)) <= TableValue(p, d, t.Total()) < t.High(Choose(p, d, t))
  {
    var total, value, chosen := t.Total(), TableValue(p, d, t.Total()), Choose(p, d, t);
    assert t.Low(0) == 0 && t.High(t.Limit() - 1) == total && 0 <= d.code - d.iv.low < Range(p, d.iv);
    ChosenIs(p, d, t);
    ValueReaches(p, d, t, 0);
    ValueReaches(p, d, t, total);
    ScaledEnds(Range(p, d.iv), total);
    hide Scaled;
    hide TableValue;
    hide Choose;
    hide Pow2;
    hide Straddling;
    if chosen + 1 < t.Limit() {
      assert t.High(chosen) == t.Low(chosen + 1);
    }
  }

  /** The symbol chosen is the one whose share of the interval holds the code window, whatever symbols
      of frequency zero surround it, and there is no other. */
  lemma ChooseExact(p: Params, d: Dec, t: Table, symbol: nat)
    requires p.slack == 1 && Straddling(p, d.iv) && InWindow(d)
    requires symbol < t.Limit() && 0 < t.Total() <= MaxTotal(p)
    ensures Choose(p, d, t) == symbol <==>
            Narrow(p, d.iv, t, symbol).low <= d.code <= Narrow(p, d.iv, t, symbol).high
    ensures Choose(p, d, t) == symbol ==> Fits(p, t, symbol)
  {
    ChosenHolds(p, d, t);
    ValueReaches(p, d, t, t.Low(symbol));
    ValueReaches(p, d, t, t.High(symbol));
    NarrowIs(p, d.iv.low, d.iv.high, t, symbol);
    hide Narrow;
    hide Scaled;
    hide Choose;
    hide TableValue;
    hide Pow2;
    hide Straddling;
    var chosen := Choose(p, d, t);
    if chosen < symbol {
      assert t.High(chosen) <= t.Low(symbol);
    } else if symbol < chosen {
      assert t.High(symbol) <= t.Low(chosen);
    }
  }

  lemma NarrowChosen(p: Params, d: Dec, t: Table)
    requires p.slack == 1 && Straddling(p, d.iv) && InWindow(d) && 0 < t.Total() <= MaxTotal(p)
    ensures var narrowed := d.(iv := Narrow(p, d.iv, t, Choose(p, d, t)));
            Proper(p, narrowed.iv) && InWindow(narrowed)
  {
    ChooseExact(p, d, t, Choose(p, d, t));
    NarrowInside(p, d.iv, t, Choose(p, d, t));
  }

  /** What one `read` does once the total has been accepted. */
  function Take(p: Params, s: seq<bit>, d: Dec, t: Table): (r: Dec)
    requires p.slack == 1 && Straddling(p, d.iv) && InWindow(d) && 0 < t.Total() <= MaxTotal(p)
    ensures Straddling(p, r.iv) && InWindow(r)
  {
    NarrowChosen(p, d, t);
    Resettle(p, s, d.(iv := Narrow(p, d.iv, t, Choose(p, d, t))))
  }

  lemma TakeIs(p: Params, s: seq<bit>, d: Dec, t: Table)
    requires p.slack == 1 && Straddling(p, d.iv) && InWindow(d) && 0 < t.Total() <= MaxTotal(p)
    ensures var narrowed := d.(iv := Narrow(p, d.iv, t, Choose(p, d, t)));
            Proper(p, narrowed.iv) && Take(p, s, d, t) == Resettle(p, s, narrowed)
  {
    NarrowChosen(p, d, t);
  }

  // ---- Whole streams ----

  datatype Decoding = Decoded(symbols: seq<nat>, dec: Dec) | Refused

  /** Decoding `n` symbols of any stream. The only thing that can go wrong is a table whose total is
      zero or too large; the code window never leaves the interval. */
  ghost function Decode(p: Params, sched: Schedule, s: seq<bit>, n: nat): (r: Decoding)
    requires p.slack == 1
    ensures r.Decoded? ==> |r.symbols| == n && Straddling(p, r.dec.iv) && InWindow(r.dec)
  {
    if n == 0 then
      Halves(p);
      PeekBound(s, p.stateSize);
      Decoded([], Begin(p, s))
    else
      match Decode(p, sched, s, n - 1)
      case Refused => Refused
      case Decoded(symbols, d) =>
        var t := sched(symbols);
        if 0 < t.Total() <= MaxTotal(p)
        then Decoded(symbols + [Choose(p, d, t)], Take(p, s, d, t))
        else Refused
  }

  // ---- The class ----

  lemma FillCode(s: seq<bit>, i: nat, b: bit)
    requires b == BitAt(s, i)
    ensures Or(2 * Peek(s, i), b) == Peek(s, i + 1)
  {
    OrDoubled(Peek(s, i), b);
  }

  datatype ReadResult = Symbol(symbol: nat) | TotalTooLarge | DivisionByZero

  class ArithmeticDecoder {
    const p: Params
    const input: BitInputStream
    var low: nat
    var high: nat
    var code: nat
    ghost var stream: seq<bit>   // every bit of the input
    ghost var position: nat      // how many of them have been asked for

    ghost predicate Valid()
      reads this, input
    {
      && input.Valid() && input.Remaining() == After(stream, position)
      && Proper(p, Interval(low, high)) && low <= code <= high
    }

    ghost function State(): Dec
      reads this
    {
      Dec(Interval(low, high), code, position)
    }

    constructor (p: Params, input: BitInputStream)
      requires input.Valid()
      modifies input
      ensures Valid() && this.p == p && this.input == input
      ensures stream == old(input.Remaining()) && State() == Begin(p, stream)
    {
      hide Digits;
      hide Unpack;
      hide Or;
      hide Pow2;
      this.p, this.input := p, input;
      low, high, code := 0, Full(p) - 1, 0;
      stream, position := input.Remaining(), 0;
      new;
      assert After(stream, 0) == stream && Peek(stream, 0) == 0;
      hide After;
      hide Peek;
      for i := 0 to p.stateSize
        invariant input.Valid() && input.Remaining() == After(stream, i)
        invariant position == i && code == Peek(stream, i)
        invariant this.p == p && this.input == input && low == 0 && high == Full(p) - 1
        invariant stream == old(input.Remaining())
      {
        var b := ReadCodeBit();
        FillCode(stream, i, b);
        code := Or(2 * code, b);
      }
      PeekBound(stream, p.stateSize);
    }

    /** The end of the stream is treated as zeros for ever. */
    method ReadCodeBit() returns (b: bit)
      requires input.Valid() && input.Remaining() == After(stream, position)
      modifies `position, input
      ensures input.Valid() && input.Remaining() == After(stream, position)
      ensures b == BitAt(stream, old(position)) && position == old(position) + 1
    {
      hide Digits;
      hide Unpack;
      AfterNext(stream, position);
      var temp := input.Read();
      position := position + 1;
      b := if temp == -1 then 0 else temp;
    }

    method Shift()
      requires Valid()
      modifies `code, `position, input
      ensures input.Valid() && input.Remaining() == After(stream, position) && position == old(position) + 1
      ensures code == Absorb(p, old(code), Step.Shift(TopBit(p, old(code))), BitAt(stream, old(position)))
    {
      assert input.Valid() && input.Remaining() == After(stream, position) && code < Full(p);
      hide *;
      var b := ReadCodeBit();
      ShiftCode(p, code, b);
      code := Or(And(2 * code, Full(p) - 1), b);
    }

    method Underflow()
      requires Valid() && Quarter(p) <= code < 3 * Quarter(p)
      modifies `code, `position, input
      ensures input.Valid() && input.Remaining() == After(stream, position) && position == old(position) + 1
      ensures code == Absorb(p, old(code), Step.Underflow, BitAt(stream, old(position)))
    {
      assert input.Valid() && input.Remaining() == After(stream, position);
      hide *;
      var b := ReadCodeBit();
      UnderflowCode(p, code, b);
      code := Or(Or(And(code, Half(p)), And(2 * code, (Full(p) - 1) / 2)), b);
    }

    /** The two loops at the end of `update`. */
    method SettleRegisters()
      requires Valid()
      modifies this, input
      ensures Valid() && stream == old(stream) && State() == Resettle(p, stream, old(State()))
    {
      hide Proper;
      hide Full;
      hide Half;
      hide Quarter;
      hide Xor;
      hide AndNot;
      hide TopBit;
      hide Pow2;
      hide And;
      hide Or;
      hide Digits;
      hide Unpack;
      hide Resettle;
      hide Straddling;
      hide ShiftedLow;
      hide ShiftedHigh;
      hide UnderflownLow;
      hide UnderflownHigh;
      hide Absorb;
      hide After;
      ghost var goal := Resettle(p, stream, State());
      while And(Xor(low, high), Half(p)) == 0
        invariant Valid() && stream == old(stream) && Resettle(p, stream, State()) == goal
        decreases Full(p) - (high - low)
      {
        ShiftFollows(p, stream, low, high, code, position);
        Shift();
        low, high := ShiftedLow(p, low), ShiftedHigh(p, high);
      }
      NoRound(p, low, high);
      while And(AndNot(low, high), Quarter(p)) != 0
        invariant Valid() && stream == old(stream) && low < Half(p) <= high && Resettle(p, stream, State()) == goal
        decreases Full(p) - (high - low)
      {
        ProperIs(p, Interval(low, high));
        UnderflowFollows(p, stream, low, high, code, position);
        Underflow();
        low, high := UnderflownLow(p, low), UnderflownHigh(p, high);
      }
      ProperIs(p, Interval(low, high));
      SecondBitsCross(p, Interval(low, high));
      ResettleDone(p, stream, State());
    }

    /** The middle part of `update`, for the symbol that holds the code window. */
    method NarrowRegisters(freqs: Table, symbol: nat)
      requires Valid() && Straddling(p, Interval(low, high)) && p.slack == 1
      requires 0 < freqs.Total() <= MaxTotal(p) && symbol == Choose(p, State(), freqs)
      modifies `low, `high
      ensures Valid()
      ensures State() == old(State()).(iv := Narrow(p, old(State()).iv, freqs, symbol))
    {
      NarrowChosen(p, State(), freqs);
      hide TableData.Valid;
      hide Straddling;
      hide Scaled;
      hide Pow2;
      hide Choose;
      hide Digits;
      hide Unpack;
      var range := high - low + 1;
      var total, symlow, symhigh := freqs.Total(), freqs.Low(symbol), freqs.High(symbol);
      var newlow := low + Scaled(symlow, range, total);
      var newhigh := low + Scaled(symhigh, range, total) - 1;
      low, high := newlow, newhigh;
    }

    /** Binary search for the highest symbol that starts at or below `value`. */
    static method Search(freqs: Table, value: int) returns (symbol: nat)
      ensures symbol == Locate(freqs, value, freqs.Limit())
    {
      var start, end := 0, freqs.Limit();
      while end - start > 1
        invariant 0 <= start < end <= freqs.Limit()
        invariant start == 0 || freqs.Low(start) <= value
        invariant end == freqs.Limit() || value < freqs.Low(end)
      {
        var middle := (start + end) / 2;
        if freqs.Low(middle) > value {
          end := middle;
        } else {
          start := middle;
        }
      }
      symbol := start;
      LocateUnique(freqs, value, symbol);
    }

    method Read(freqs: Table) returns (r: ReadResult)
      requires Valid() && Straddling(p, Interval(low, high)) && p.slack == 1
      modifies this, input
      ensures Valid() && stream == old(stream)
      ensures r == if freqs.Total() > Full(p) / 4 + 2 then TotalTooLarge
                   else if freqs.Total() == 0 then DivisionByZero
                   else Symbol(Choose(p, old(State()), freqs))
      ensures r.Symbol? ==> freqs.Total() <= MaxTotal(p) && State() == Take(p, stream, old(State()), freqs)
      ensures !r.Symbol? ==> State() == old(State())
    {
      MinRange(p);
      RangeBounds(p, Interval(low, high));
      var total := freqs.Total();
      if total > Full(p) / 4 + 2 {
        return TotalTooLarge;
      }
      var range, offset := high - low + 1, code - low;
      var value := ((offset + 1) * total - 1) / range;
      var symbol := Search(freqs, value);
      if total == 0 {
        return DivisionByZero;
      }
      assert symbol == Choose(p, State(), freqs);
      TakeIs(p, stream, State(), freqs);
      hide *;
      NarrowRegisters(freqs, symbol);
      SettleRegisters();
      return Symbol(symbol);
    }
  }
}
