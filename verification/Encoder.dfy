/** The arithmetic encoder: what it computes, and the class that computes it bit by bit. */
module Encoder {
  import opened Bits
  import opened BitStreams
  import opened Tables
  import opened Intervals
  import opened ZeroFrequency

  /** What has been written, and how many underflow bits are still held back. */
  datatype Output = Output(bits: seq<bit>, pending: nat)

  datatype Enc = Enc(iv: Interval, out: Output)

  function Emit(o: Output, step: Step): Output {
    match step
    case Shift(b) => Output(o.bits + [b] + Copies(1 - b, o.pending), 0)
    case Underflow => Output(o.bits, o.pending + 1)
  }

  function EmitAll(o: Output, steps: seq<Step>): Output
    decreases |steps|
  {
    if steps == [] then o else EmitAll(Emit(o, steps[0]), steps[1..])
  }

  function Start(p: Params): Enc {
    Enc(Initial(p), Output([], 0))
  }

  function Renormalise(p: Params, e: Enc): Enc
    requires Proper(p, e.iv)
  {
    var r := Settle(p, e.iv);
    Enc(r.iv, EmitAll(e.out, r.steps))
  }

  function Code(p: Params, e: Enc, t: Table, symbol: nat): (r: Enc)
    requires Straddling(p, e.iv) && Fits(p, t, symbol)
    ensures Straddling(p, r.iv)
  {
    NarrowInside(p, e.iv, t, symbol);
    Renormalise(p, Enc(Narrow(p, e.iv, t, symbol), e.out))
  }

  lemma CodeIs(p: Params, e: Enc, t: Table, symbol: nat)
    requires Straddling(p, e.iv) && Fits(p, t, symbol)
    ensures Proper(p, Narrow(p, e.iv, t, symbol))
    ensures Code(p, e, t, symbol) == Renormalise(p, Enc(Narrow(p, e.iv, t, symbol), e.out))
  {
    NarrowInside(p, e.iv, t, symbol);
  }

  lemma RenormaliseStep(p: Params, e: Enc)
    requires Proper(p, e.iv) && NextStep(p, e.iv) != []
    ensures var step := NextStep(p, e.iv)[0];
            var e' := Enc(Apply(p, e.iv, step), Emit(e.out, step));
            && Proper(p, e'.iv)
            && e'.iv.high - e'.iv.low == 2 * (e.iv.high - e.iv.low) + 1
            && Renormalise(p, e') == Renormalise(p, e)
  {
    Halves(p);
    var step := NextStep(p, e.iv)[0];
    var steps := Settle(p, e.iv).steps;
    assert steps[0] == step && steps[1..] == Settle(p, Apply(p, e.iv, step)).steps;
  }

  lemma RenormaliseDone(p: Params, e: Enc)
    requires Proper(p, e.iv) && NextStep(p, e.iv) == []
    ensures Renormalise(p, e) == e
  {
  }

  // ---- Whatever is coded ----

  /** The end of `update`, for ends that may have crossed. */
  function Renormalised(p: Params, e: Enc): (r: Enc)
    requires InRegisters(p, e.iv)
    ensures Resting(p, r.iv)
  {
    if Proper(p, e.iv) then Renormalise(p, e)
    else Enc(CrossedEnd(p, e.iv), EmitAll(e.out, CrossedSteps(p, e.iv.low)))
  }

  /** `update` on any symbol of any table with an acceptable total, between any two calls. */
  function CodeAny(p: Params, e: Enc, t: Table, symbol: nat): (r: Enc)
    requires p.slack == 1 && Resting(p, e.iv) && symbol < t.Limit() && 0 < t.Total() <= MaxTotal(p)
    ensures Resting(p, r.iv)
  {
    NarrowRegisters(p, e.iv, t, symbol);
    Renormalised(p, Enc(Narrow(p, e.iv, t, symbol), e.out))
  }

  lemma CodeAnyIs(p: Params, e: Enc, t: Table, symbol: nat)
    requires p.slack == 1 && Resting(p, e.iv) && symbol < t.Limit() && 0 < t.Total() <= MaxTotal(p)
    ensures InRegisters(p, Narrow(p, e.iv, t, symbol))
    ensures CodeAny(p, e, t, symbol) == Renormalised(p, Enc(Narrow(p, e.iv, t, symbol), e.out))
  {
    NarrowRegisters(p, e.iv, t, symbol);
    hide InRegisters;
    hide Resting;
    hide Renormalised;
    hide Narrow;
  }

  /** It is `Code` for a symbol of positive frequency, as long as there has been no other; a symbol of frequency zero
      leaves crossed ends, which nothing moves and from which nothing is written. */
  lemma CodeAnyCases(p: Params, e: Enc, t: Table, symbol: nat)
    requires p.slack == 1 && Resting(p, e.iv) && symbol < t.Limit() && 0 < t.Total() <= MaxTotal(p)
    ensures Straddling(p, e.iv) && Fits(p, t, symbol) ==> CodeAny(p, e, t, symbol) == Code(p, e, t, symbol)
    ensures t.Low(symbol) == t.High(symbol) ==> Dead(p, CodeAny(p, e, t, symbol).iv)
    ensures Dead(p, e.iv) ==> CodeAny(p, e, t, symbol) == e
  {
    BoundsInTotal(t, symbol);
    NarrowRegisters(p, e.iv, t, symbol);
    CodeAnyIs(p, e, t, symbol);
    var iv := Narrow(p, e.iv, t, symbol);
    if !Proper(p, iv) {
      RenormalisedCrossed(p, Enc(iv, e.out));
    } else if Fits(p, t, symbol) {
      CodeIs(p, e, t, symbol);
      RenormalisedProper(p, Enc(iv, e.out));
    }
    NeverBoth(p, e.iv);
    hide *;
  }

  lemma NeverBoth(p: Params, iv: Interval)
    ensures Dead(p, iv) ==> !Straddling(p, iv)
  {
  }

  lemma RenormalisedProper(p: Params, e: Enc)
    requires Proper(p, e.iv)
    ensures Renormalised(p, e) == Renormalise(p, e)
  {
    hide Renormalise;
  }

  lemma RenormalisedCrossed(p: Params, e: Enc)
    requires InRegisters(p, e.iv) && !Proper(p, e.iv)
    ensures Dead(p, Renormalised(p, e).iv)
    ensures Dead(p, e.iv) ==> Renormalised(p, e) == e
  {
    Halves(p);
    hide Pow2;
  }

  /** How many more rounds there can be. */
  function Rounds(p: Params, iv: Interval): nat
    requires InRegisters(p, iv)
  {
    if iv.low <= iv.high then Full(p) - (iv.high - iv.low) else Left(p, iv.low)
  }

  /** A round of the first loop. */
  lemma ShiftNext(p: Params, e: Enc)
    requires InRegisters(p, e.iv) && AndInt(XorInt(e.iv.low, e.iv.high), Half(p)) == 0
    ensures 0 <= e.iv.low < Full(p) && 0 <= e.iv.high
    ensures var iv := Interval(ShiftedLow(p, e.iv.low), ShiftedHigh(p, e.iv.high));
            var e' := Enc(iv, Emit(e.out, Shift(TopBit(p, e.iv.low))));
            && InRegisters(p, iv) && Rounds(p, iv) < Rounds(p, e.iv)
            && Renormalised(p, e') == Renormalised(p, e)
  {
    hide And;
    hide Xor;
    hide Or;
    hide Pow2;
    hide Settle;
    if Proper(p, e.iv) {
      ShiftRound(p, e.iv.low, e.iv.high);
      RenormaliseStep(p, e);
      hide Renormalise;
    } else {
      hide Emit;
      hide Renormalise;
      CrossedTest(p, e.iv);
      CrossedRound(p, e.iv);
    }
  }

  /** A round of the second loop. */
  lemma UnderflowNext(p: Params, e: Enc)
    requires Proper(p, e.iv) && e.iv.low < Half(p) <= e.iv.high
    requires And(AndNotInt(e.iv.low, e.iv.high), Quarter(p)) != 0
    ensures var iv := Interval(UnderflownLow(p, e.iv.low), UnderflownHigh(p, e.iv.high));
            var e' := Enc(iv, Emit(e.out, Underflow));
            && InRegisters(p, iv) && Proper(p, iv) && iv.low < Half(p) <= iv.high && Rounds(p, iv) < Rounds(p, e.iv)
            && Renormalised(p, e') == Renormalised(p, e)
  {
    hide And;
    hide AndNot;
    hide Or;
    hide Pow2;
    hide Settle;
    hide Renormalise;
    UnderflowRound(p, e.iv.low, e.iv.high);
    RenormaliseStep(p, e);
  }

  /** Between the loops, the ends are in different halves or dead. */
  lemma ShiftsDone(p: Params, iv: Interval)
    requires InRegisters(p, iv) && AndInt(XorInt(iv.low, iv.high), Half(p)) != 0
    ensures Dead(p, iv) || (Proper(p, iv) && iv.low < Half(p) <= iv.high)
  {
    hide And;
    hide Xor;
    hide Pow2;
    if Proper(p, iv) {
      TopBitsEqual(p, iv.low, iv.high);
    } else {
      CrossedTest(p, iv);
    }
  }

  lemma RoundsDone(p: Params, e: Enc)
    requires Dead(p, e.iv) || (Proper(p, e.iv) && e.iv.low < Half(p) <= e.iv.high)
    requires And(AndNotInt(e.iv.low, e.iv.high), Quarter(p)) == 0
    ensures Renormalised(p, e) == e
  {
    hide And;
    hide AndNot;
    hide Pow2;
    if Proper(p, e.iv) {
      SecondBitsCross(p, e.iv);
      RenormaliseDone(p, e);
    } else {
      RenormalisedCrossed(p, e);
    }
  }

  // ---- The big-integer view ----

  /** How often the number line has been doubled. */
  function Depth(o: Output): nat {
    |o.bits| + o.pending
  }

  /** The position of register value 0 on the doubled number line. */
  function Offset(p: Params, o: Output): int {
    Value(o.bits) * Pow2(p.stateSize + o.pending) + Half(p) * (Pow2(o.pending) - 1)
  }

  /** Emitting a bit together with the bits held back moves the offset exactly as the doubling demands. */
  lemma EmitOffset(p: Params, o: Output, step: Step)
    ensures Offset(p, Emit(o, step)) == StepOffset(p, Offset(p, o), step)
    ensures Depth(Emit(o, step)) == Depth(o) + 1
  {
    Halves(p);
    Pow2Add(p.stateSize, o.pending);
    match step {
      case Shift(b) =>
        ValueSnoc(o.bits, b);
        ValueCopies(o.bits + [b], 1 - b, o.pending);
        ShiftAlgebra(Value(o.bits), Half(p), Pow2(o.pending), b);
      case Underflow =>
        Pow2Add(p.stateSize, o.pending + 1);
        UnderflowAlgebra(Value(o.bits), Half(p), Quarter(p), Pow2(o.pending));
    }
  }

  lemma ShiftAlgebra(v: int, h: int, u: int, b: bit)
    ensures ((2 * v + b) * u + (1 - b) * (u - 1)) * (2 * h) == 2 * (v * ((2 * h) * u) + h * (u - 1) + b * h)
  {
    var x, y := v * u * h, h * u;
    assert v * ((2 * h) * u) == 2 * x;
    if b == 0 {
      assert (2 * v * u + (u - 1)) * (2 * h) == 4 * x + 2 * y - 2 * h;
    } else {
      assert ((2 * v + 1) * u) * (2 * h) == 4 * x + 2 * y;
    }
  }

  lemma UnderflowAlgebra(v: int, h: int, q: int, u: int)
    requires h == 2 * q
    ensures v * ((2 * h) * (2 * u)) + h * (2 * u - 1) == 2 * (v * ((2 * h) * u) + h * (u - 1) + q)
  {
    assert (2 * h) * (2 * u) == 2 * ((2 * h) * u);
    DoubleProduct((2 * h) * u, v);
    assert h * (2 * u - 1) == 2 * (h * u) - h && h * (u - 1) == h * u - h;
  }

  lemma {:induction false} EmitAllOffset(p: Params, o: Output, steps: seq<Step>)
    ensures Offset(p, EmitAll(o, steps)) == Offsets(p, Offset(p, o), steps)
    ensures Depth(EmitAll(o, steps)) == Depth(o) + |steps|
    decreases |steps|
  {
    if steps != [] {
      EmitOffset(p, o, steps[0]);
      EmitAllOffset(p, Emit(o, steps[0]), steps[1..]);
    }
  }

  /** Where the interval lies on the doubled number line; `BigEnd` is the first number beyond it. */
  function BigLow(p: Params, e: Enc): int {
    Offset(p, e.out) + e.iv.low
  }

  function BigEnd(p: Params, e: Enc): int {
    Offset(p, e.out) + e.iv.high + 1
  }

  /** Coding a symbol is exact narrowing: the new interval is the symbol's share of the old one,
      magnified by as many doublings as bits have been written or held back. */
  lemma CodeRefines(p: Params, e: Enc, t: Table, symbol: nat)
    requires Straddling(p, e.iv) && Fits(p, t, symbol)
    ensures var e', iv := Code(p, e, t, symbol), Narrow(p, e.iv, t, symbol);
            && Depth(e.out) <= Depth(e'.out)
            && BigLow(p, e') == Doubled(Offset(p, e.out) + iv.low, Depth(e'.out) - Depth(e.out))
            && BigEnd(p, e') == Doubled(Offset(p, e.out) + iv.high + 1, Depth(e'.out) - Depth(e.out))
  {
    NarrowInside(p, e.iv, t, symbol);
    var iv := Narrow(p, e.iv, t, symbol);
    EmitAllOffset(p, e.out, Settle(p, iv).steps);
    SettleMagnifies(p, iv, Offset(p, e.out));
  }

  // ---- Whole messages ----

  ghost predicate Codable(p: Params, sched: Schedule, msg: seq<nat>) {
    forall i: nat | i < |msg| :: Fits(p, sched(msg[..i]), msg[i])
  }

  lemma CodablePrefix(p: Params, sched: Schedule, msg: seq<nat>, k: nat)
    requires Codable(p, sched, msg) && k <= |msg|
    ensures Codable(p, sched, msg[..k])
  {
    forall i: nat | i < k
      ensures Fits(p, sched(msg[..k][..i]), msg[..k][i])
    {
      assert msg[..k][..i] == msg[..i];
    }
  }

  ghost function Encode(p: Params, sched: Schedule, msg: seq<nat>): (e: Enc)
    requires Codable(p, sched, msg)
    ensures Straddling(p, e.iv)
    decreases |msg|
  {
    Halves(p);
    if msg == [] then Start(p) else
      var k := |msg| - 1;
      CodablePrefix(p, sched, msg, k);
      Code(p, Encode(p, sched, msg[..k]), sched(msg[..k]), msg[k])
  }

  /** Everything written once `finish` has flushed the encoder. */
  ghost function Finished(p: Params, sched: Schedule, msg: seq<nat>): seq<bit>
    requires Codable(p, sched, msg)
  {
    Encode(p, sched, msg).out.bits + [1]
  }

  // ---- The class ----

  /** What a call returns, or raises. */
  datatype Outcome = Written | TooLarge | DivisionByZero

  class ArithmeticEncoder {
    const p: Params
    const output: CountingBitOutputStream
    var low: nat
    var high: int
    var numUnderflow: nat

    ghost predicate Valid()
      reads this, output, output.bitOut
    {
      output.Valid() && InRegisters(p, Interval(low, high))
    }

    ghost function State(): Enc
      reads this, output.bitOut
    {
      Enc(Interval(low, high), Output(output.bitOut.Written(), numUnderflow))
    }

    constructor (p: Params, output: CountingBitOutputStream)
      requires output.Valid()
      ensures Valid() && this.p == p && this.output == output
      ensures State() == Enc(Initial(p), Output(output.bitOut.Written(), 0))
    {
      this.p, this.output := p, output;
      low, high, numUnderflow := 0, Full(p) - 1, 0;
    }

    method Shift()
      requires Valid() && low < Full(p)
      modifies this, output, output.bitOut
      ensures Valid() && low == old(low) && high == old(high)
      ensures State().out == Emit(old(State().out), Step.Shift(TopBit(p, low)))
    {
      hide Pow2;
      hide Unpack;
      hide Digits;
      hide BytesToBits;
      var b := TopBit(p, low);
      output.Write(b);
      ghost var before := output.bitOut.Written();
      for i := 0 to numUnderflow
        invariant output.Valid() && low == old(low) && high == old(high) && numUnderflow == old(numUnderflow)
        invariant output.bitOut.Written() == before + Copies(1 - b, i)
      {
        assert before + Copies(1 - b, i) + [1 - b] == before + Copies(1 - b, i + 1);
        output.Write(1 - b);
      }
      numUnderflow := 0;
    }

    method Underflow()
      requires Valid()
      modifies this
      ensures Valid() && low == old(low) && high == old(high)
      ensures State().out == Emit(old(State().out), Step.Underflow)
    {
      numUnderflow := numUnderflow + 1;
    }

    /** The two loops at the end of `update`. */
    method SettleRegisters()
      requires Valid()
      modifies this, output, output.bitOut
      ensures Valid() && State() == Renormalised(p, old(State()))
    {
      hide InRegisters;
      hide Renormalised;
      hide Rounds;
      hide Proper;
      hide Dead;
      hide Half;
      hide Quarter;
      hide And;
      hide AndInt;
      hide AndNotInt;
      hide XorInt;
      hide ShiftedLow;
      hide ShiftedHigh;
      hide UnderflownLow;
      hide UnderflownHigh;
      hide Emit;
      hide BytesToBits;
      ghost var goal := Renormalised(p, State());
      while AndInt(XorInt(low, high), Half(p)) == 0
        invariant Valid() && Renormalised(p, State()) == goal
        decreases Rounds(p, Interval(low, high))
      {
        ShiftNext(p, State());
        Shift();
        low, high := ShiftedLow(p, low), ShiftedHigh(p, high);
      }
      ShiftsDone(p, Interval(low, high));
      while And(AndNotInt(low, high), Quarter(p)) != 0
        invariant Valid() && Renormalised(p, State()) == goal
        invariant Dead(p, Interval(low, high)) || (Proper(p, Interval(low, high)) && low < Half(p) <= high)
        decreases Rounds(p, Interval(low, high))
      {
        if Dead(p, Interval(low, high)) {
          DeadTest(p, Interval(low, high));
        }
        UnderflowNext(p, State());
        Underflow();
        low, high := UnderflownLow(p, low), UnderflownHigh(p, high);
      }
      RoundsDone(p, State());
    }

    /** The middle part of `update`. */
    method NarrowRegisters(freqs: Table, symbol: nat)
      requires Valid() && Resting(p, Interval(low, high)) && p.slack == 1
      requires symbol < freqs.Limit() && 0 < freqs.Total() <= MaxTotal(p)
      modifies `low, `high
      ensures Valid()
      ensures State() == Enc(Narrow(p, old(State()).iv, freqs, symbol), old(State()).out)
    {
      hide Narrow;
      hide InRegisters;
      hide Resting;
      hide MaxTotal;
      hide Renormalised;
      hide TableData.Valid;
      hide Scaled;
      hide BytesToBits;
      CodeAnyIs(p, State(), freqs, symbol);
      NarrowIs(p, low, high, freqs, symbol);
      LowIsNat(p, Narrow(p, State().iv, freqs, symbol));
      var range := high - low + 1;
      var total, symlow, symhigh := freqs.Total(), freqs.Low(symbol), freqs.High(symbol);
      var newlow := low + Scaled(symlow, range, total);
      var newhigh := low + Scaled(symhigh, range, total) - 1;
      low, high := newlow, newhigh;
    }

    /** A total of zero divides by zero; the check for a frequency of zero is commented out. */
    method Update(freqs: Table, symbol: nat) returns (r: Outcome)
      requires Valid() && Resting(p, Interval(low, high)) && p.slack == 1
      requires symbol < freqs.Limit()
      modifies this, output, output.bitOut
      ensures Valid() && Resting(p, Interval(low, high))
      ensures r == if freqs.Total() > Full(p) / 4 + 2 then TooLarge
                   else if freqs.Total() == 0 then DivisionByZero
                   else Written
      ensures r.Written? ==> freqs.Total() <= MaxTotal(p) && State() == CodeAny(p, old(State()), freqs, symbol)
      ensures !r.Written? ==> State() == old(State())
    {
      MinRange(p);
      if freqs.Total() > Full(p) / 4 + 2 {
        return TooLarge;
      }
      if freqs.Total() == 0 {
        return DivisionByZero;
      }
      CodeAnyIs(p, State(), freqs, symbol);
      hide *;
      NarrowRegisters(freqs, symbol);
      SettleRegisters();
      return Written;
    }

    method Write(freqs: Table, symbol: nat) returns (r: Outcome)
      requires Valid() && Resting(p, Interval(low, high)) && p.slack == 1
      requires symbol < freqs.Limit()
      modifies this, output, output.bitOut
      ensures Valid() && Resting(p, Interval(low, high))
      ensures r == if freqs.Total() > Full(p) / 4 + 2 then TooLarge
                   else if freqs.Total() == 0 then DivisionByZero
                   else Written
      ensures r.Written? ==> freqs.Total() <= MaxTotal(p) && State() == CodeAny(p, old(State()), freqs, symbol)
      ensures !r.Written? ==> State() == old(State())
    {
      r := Update(freqs, symbol);
    }

    method Finish()
      requires Valid()
      modifies output, output.bitOut
      ensures Valid() && State() == old(State()).(out := Output(old(State()).out.bits + [1], numUnderflow))
    {
      output.Write(1);
    }
  }
}
