/** The encoder on the board: 32-bit registers in 64-bit variables, and a range without the final `+ 1`. */
module BoardEncoder {
  import opened Bits
  import opened BitStreams
  import opened Tables
  import opened Intervals
  import opened Encoder
  import opened RoundTrip
  import opened ZeroFrequency

  newtype int64 = x: int | -0x8000_0000_0000_0000 <= x < 0x8000_0000_0000_0000

  const BOARD: Params := Setting(32, 0)

  const TOTAL_LIMIT: int64 := 0x4000_0002

  lemma BoardConstants()
    ensures Full(BOARD) == 0x1_0000_0000 && Half(BOARD) == 0x8000_0000 && Quarter(BOARD) == 0x4000_0000
    ensures MaxTotal(BOARD) == TOTAL_LIMIT as int - 1
  {
    Halves(BOARD);
    assert Pow2(10) == 1024;
    Pow2Add(10, 10);
    Pow2Add(20, 10);
  }

  lemma NarrowTo(iv: Interval, t: Table, symbol: nat, narrowed: Interval)
    requires symbol < t.Limit() && 0 < t.Total()
    requires var x, y := t.Low(symbol) * (iv.high - iv.low), t.High(symbol) * (iv.high - iv.low);
             && narrowed.low == iv.low + x / t.Total()
             && narrowed.high == iv.low + y / t.Total() - 1
    ensures Narrow(BOARD, iv, t, symbol) == narrowed
  {
  }

  /** A symbol whose share needs no doubling. */
  lemma StillAfter(e: Enc, t: Table, symbol: nat, narrowed: Interval)
    requires Straddling(BOARD, e.iv) && Fits(BOARD, t, symbol)
    requires var x, y := t.Low(symbol) * (e.iv.high - e.iv.low), t.High(symbol) * (e.iv.high - e.iv.low);
             && narrowed.low == e.iv.low + x / t.Total()
             && narrowed.high == e.iv.low + y / t.Total() - 1
    requires NextStep(BOARD, narrowed) == []
    ensures Code(BOARD, e, t, symbol) == Enc(narrowed, e.out)
  {
    NarrowTo(e.iv, t, symbol, narrowed);
    CodeIs(BOARD, e, t, symbol);
  }

  const QUARTERS: Table := Table([0, 1, 4])
  const THIRDS: Table := Table([0, 357913942, 1073741823])
  const EXTREME: Table := Table([0, 1, 1073741826])

  function Witness(): Schedule {
    m => if |m| == 0 then QUARTERS else if |m| == 1 then THIRDS else EXTREME
  }

  function Registers(low: int, high: int): Enc {
    Enc(Interval(low, high), Output([], 0))
  }

  lemma WitnessSteps()
    ensures Start(BOARD) == Registers(0, 0xFFFF_FFFF)
    ensures Straddling(BOARD, Registers(0, 0xFFFF_FFFF).iv) && Fits(BOARD, QUARTERS, 1)
    ensures Code(BOARD, Registers(0, 0xFFFF_FFFF), QUARTERS, 1) == Registers(0x3FFF_FFFF, 0xFFFF_FFFE)
    ensures Straddling(BOARD, Registers(0x3FFF_FFFF, 0xFFFF_FFFE).iv) && Fits(BOARD, THIRDS, 0)
    ensures Code(BOARD, Registers(0x3FFF_FFFF, 0xFFFF_FFFE), THIRDS, 0) == Registers(0x3FFF_FFFF, 0x8000_0000)
    ensures Narrow(BOARD, Interval(0x3FFF_FFFF, 0x8000_0000), EXTREME, 0) == Interval(0x3FFF_FFFF, 0x3FFF_FFFE)
  {
    BoardConstants();
    hide Pow2;
    hide Code;
    StillAfter(Registers(0, 0xFFFF_FFFF), QUARTERS, 1, Interval(0x3FFF_FFFF, 0xFFFF_FFFE));
    StillAfter(Registers(0x3FFF_FFFF, 0xFFFF_FFFE), THIRDS, 0, Interval(0x3FFF_FFFF, 0x8000_0000));
    NarrowTo(Interval(0x3FFF_FFFF, 0x8000_0000), EXTREME, 0, Interval(0x3FFF_FFFF, 0x3FFF_FFFE));
  }

  lemma WitnessCodable(msg: seq<nat>)
    requires msg == [1, 0]
    ensures Codable(BOARD, Witness(), msg)
    ensures Witness()([]) == QUARTERS && Witness()([1]) == THIRDS && Witness()(msg) == EXTREME
  {
    WitnessSteps();
    hide Fits;
    hide Code;
    hide Narrow;
    hide TableData.Valid;
    assert msg[..0] == [] && msg[..1] == [1];
  }

  /** The limit in the code is one more than the exact bound, and that matters: after two symbols the code
      accepts a table and a symbol of positive frequency whose share of the interval is empty. */
  lemma LimitTooWeak(msg: seq<nat>)
    requires msg == [1, 0]
    ensures Codable(BOARD, Witness(), msg)
    ensures var t, iv := Witness()(msg), Encode(BOARD, Witness(), msg).iv;
            && t.Total() == TOTAL_LIMIT as int && t.Low(0) < t.High(0)
            && Narrow(BOARD, iv, t, 0).high < Narrow(BOARD, iv, t, 0).low
  {
    WitnessCodable(msg);
    assert Encode(BOARD, Witness(), []) == Start(BOARD);
    assert msg[..0] == [] && msg[..1] == [1] && msg[..2] == msg;
    assert EXTREME.Total() == 1073741826 && EXTREME.Low(0) == 0 && EXTREME.High(0) == 1;
    assert Registers(0x3FFF_FFFF, 0x8000_0000).iv == Interval(0x3FFF_FFFF, 0x8000_0000);
    WitnessSteps();
    hide *;
    LastSymbol(BOARD, Witness(), msg, 0);
    LastSymbol(BOARD, Witness(), msg, 1);
  }

  // ---- The class ----

  /** The products formed while narrowing stay far below the 64-bit limit. */
  lemma ProductsFit(c: nat, range: nat)
    requires c <= TOTAL_LIMIT as int && range < 0x1_0000_0000
    ensures 0 <= c * range < 0x8000_0000_0000_0000
  {
    ProductIsNat(c, range);
    ProductIsNat(TOTAL_LIMIT as int - c, range);
    assert TOTAL_LIMIT as int * range == c * range + (TOTAL_LIMIT as int - c) * range;
  }

  /** Below the limit every symbol of positive frequency has a share. */
  lemma ShareIsProper(iv: Interval, t: Table, s: nat)
    requires Straddling(BOARD, iv) && s < t.Limit() && 0 < t.Total() < TOTAL_LIMIT as int
    ensures Proper(BOARD, Narrow(BOARD, iv, t, s)) <==> t.Low(s) < t.High(s)
  {
    BoardConstants();
    NarrowInside(BOARD, iv, t, s);
  }

  lemma WideEnough(iv: Interval, t: Table, s: nat)
    requires Straddling(BOARD, iv) && s < t.Limit() && t.Low(s) < t.High(s) && t.Total() <= iv.high - iv.low
    ensures Proper(BOARD, Narrow(BOARD, iv, t, s))
  {
    BoundsInTotal(t, s);
    var range, total := iv.high - iv.low, t.Total();
    ScaledEnds(range, total);
    ScaledMonotone(0, t.Low(s), range, total);
    ScaledMonotone(t.High(s), total, range, total);
    ScaledGap(t.Low(s), t.High(s), range, total);
    hide Scaled;
    hide TableData.Valid;
  }

  /** In a range one less than the total, every positive cumulative frequency moves down by one. */
  lemma ScaledShort(c: nat, total: nat)
    requires 0 < total && c <= total
    ensures Scaled(c, total - 1, total) == if c == 0 then 0 else c - 1
  {
    if c == 0 {
      DivisionIs(0, total, 0, 0);
    } else {
      assert c * (total - 1) == (c - 1) * total + (total - c);
      DivisionIs(c * (total - 1), total, c - 1, total - c);
    }
  }

  /** What a caller can see of the share of a symbol: it is empty for a frequency of zero and, at the limit, for the
      first symbol of frequency one in the narrowest interval possible between symbols. */
  predicate HasShare(total: int, range: int, symlow: int, symhigh: int) {
    && symlow < symhigh
    && !(total == TOTAL_LIMIT as int && range == TOTAL_LIMIT as int - 1 && symlow == 0 && symhigh == 1)
  }

  /** Of all calls that the code accepts, exactly these leave a usable interval. */
  lemma ShareExact(iv: Interval, t: Table, s: nat)
    requires Straddling(BOARD, iv) && s < t.Limit() && 0 < t.Total() <= TOTAL_LIMIT as int
    ensures Proper(BOARD, Narrow(BOARD, iv, t, s))
       <==> HasShare(t.Total(), iv.high - iv.low, t.Low(s), t.High(s))
  {
    BoardConstants();
    BoundsInTotal(t, s);
    RangeBounds(BOARD, iv);
    var range, total := iv.high - iv.low, t.Total();
    NarrowIs(BOARD, iv.low, iv.high, t, s);
    hide Pow2;
    hide Scaled;
    hide Narrow;
    hide TableData.Valid;
    if t.Low(s) == t.High(s) {
    } else if total <= range {
      WideEnough(iv, t, s);
    } else {
      assert total == TOTAL_LIMIT as int && range == total - 1;
      ScaledShort(t.Low(s), total);
      ScaledShort(t.High(s), total);
    }
  }

  /** At the limit every symbol of positive frequency has a share exactly unless the interval is as narrow as it can
      ever be between symbols. */
  lemma ShareAtTheLimit(iv: Interval)
    requires Straddling(BOARD, iv)
    ensures (forall t: Table, s: nat | t.Total() == TOTAL_LIMIT as int && s < t.Limit() && t.Low(s) < t.High(s) ::
               Proper(BOARD, Narrow(BOARD, iv, t, s)))
       <==> iv.high - iv.low != TOTAL_LIMIT as int - 1
  {
    forall t: Table, s: nat | t.Total() == TOTAL_LIMIT as int && s < t.Limit() && t.Low(s) < t.High(s)
      ensures Proper(BOARD, Narrow(BOARD, iv, t, s))
         <==> HasShare(t.Total(), iv.high - iv.low, t.Low(s), t.High(s))
    {
      ShareExact(iv, t, s);
    }
    assert EXTREME.Total() == TOTAL_LIMIT as int && EXTREME.Low(0) == 0 && EXTREME.High(0) == 1;
    hide Narrow;
    hide Proper;
    hide Straddling;
    hide TableData.Valid;
  }

  predicate AreBounds(total: int64, symlow: int64, symhigh: int64, t: Table, s: nat)
    requires s < t.Limit()
  {
    total as int == t.Total() && symlow as int == t.Low(s) && symhigh as int == t.High(s)
  }

  /** A symbol without a share leaves crossed ends, so the registers stay within 32 bits, or -1. */
  lemma ShareOrCrossed(iv: Interval, t: Table, s: nat)
    requires Straddling(BOARD, iv) && s < t.Limit() && 0 < t.Total()
    ensures InRegisters(BOARD, Narrow(BOARD, iv, t, s))
  {
    BoundsInTotal(t, s);
    var range, total := iv.high - iv.low, t.Total();
    NarrowIs(BOARD, iv.low, iv.high, t, s);
    ScaledEnds(range, total);
    ScaledMonotone(0, t.Low(s), range, total);
    ScaledMonotone(t.Low(s), t.High(s), range, total);
    ScaledMonotone(t.High(s), total, range, total);
    hide Scaled;
    hide Narrow;
    hide Pow2;
    hide TableData.Valid;
  }

  lemma AreInRange(iv: Interval)
    requires InRegisters(BOARD, iv)
    ensures 0 <= iv.low <= 0x1_0000_0000 && -1 <= iv.high < 0x1_0000_0000
  {
    BoardConstants();
    hide Pow2;
  }

  lemma LiveOrDead(e: Enc)
    requires InRegisters(BOARD, e.iv)
    ensures Straddling(BOARD, Renormalised(BOARD, e).iv) <==> Proper(BOARD, e.iv)
    ensures Straddling(BOARD, Renormalised(BOARD, e).iv) || Dead(BOARD, Renormalised(BOARD, e).iv)
  {
    if Proper(BOARD, e.iv) {
      RenormalisedProper(BOARD, e);
    } else {
      RenormalisedCrossed(BOARD, e);
    }
    NeverBoth(BOARD, Renormalised(BOARD, e).iv);
    hide Straddling;
    hide Dead;
    hide Proper;
    hide Renormalised;
  }

  class BoardEncoder {
    const output: CountingBitOutputStream
    var low: int64
    var high: int64
    var numUnderflow: nat

    ghost predicate Valid()
      reads this, output, output.bitOut
    {
      output.Valid() && InRegisters(BOARD, Interval(low as int, high as int))
    }

    ghost function State(): Enc
      reads this, output.bitOut
    {
      Enc(Interval(low as int, high as int), Encoder.Output(output.bitOut.Written(), numUnderflow))
    }

    constructor (output: CountingBitOutputStream)
      requires output.Valid()
      ensures Valid() && this.output == output
      ensures State() == Enc(Initial(BOARD), Encoder.Output(output.bitOut.Written(), 0))
    {
      BoardConstants();
      hide Pow2;
      this.output := output;
      low, high, numUnderflow := 0, 0xFFFF_FFFF, 0;
    }

    method Shift()
      requires Valid() && 0 <= low as int < Full(BOARD)
      modifies this, output, output.bitOut
      ensures Valid() && low == old(low) && high == old(high)
      ensures State().out == Emit(old(State().out), Step.Shift(TopBit(BOARD, low as int)))
    {
      hide Pow2;
      hide Digits;
      hide BytesToBits;
      var b := TopBit(BOARD, low as int);
      output.Write(b);
      ghost var before := output.bitOut.Written();
      for i := 0 to numUnderflow
        invariant output.Valid() && low == old(low) && high == old(high) && numUnderflow == old(numUnderflow)
        invariant output.bitOut.Written() == before + Copies(1 - b, i)
      {
        assert before + Copies(1 - b, i) + [1 - b] == before + Copies(1 - b, i + 1);
        output.Write(1 - b);
      }
      numUnderflow := 0;
    }

    method Underflow()
      requires Valid()
      modifies this
      ensures Valid() && low == old(low) && high == old(high)
      ensures State().out == Emit(old(State().out), Step.Underflow)
    {
      numUnderflow := numUnderflow + 1;
    }

    /** The two loops at the end of `update`. */
    method SettleRegisters()
      requires Valid()
      modifies this, output, output.bitOut
      ensures Valid() && State() == Renormalised(BOARD, old(State()))
    {
      BoardConstants();
      hide InRegisters;
      hide Renormalised;
      hide Rounds;
      hide Proper;
      hide Dead;
      hide Pow2;
      hide And;
      hide AndInt;
      hide AndNotInt;
      hide XorInt;
      hide ShiftedLow;
      hide ShiftedHigh;
      hide UnderflownLow;
      hide UnderflownHigh;
      hide Emit;
      hide BytesToBits;
      ghost var goal := Renormalised(BOARD, State());
      AreInRange(State().iv);
      while AndInt(XorInt(low as int, high as int), Half(BOARD)) == 0
        invariant Valid() && Renormalised(BOARD, State()) == goal && 0 <= low
        decreases Rounds(BOARD, Interval(low as int, high as int))
      {
        ShiftNext(BOARD, State());
        AreInRange(Interval(ShiftedLow(BOARD, low as int), ShiftedHigh(BOARD, high as int)));
        Shift();
        low, high := ShiftedLow(BOARD, low as int) as int64, ShiftedHigh(BOARD, high as int) as int64;
      }
      ShiftsDone(BOARD, Interval(low as int, high as int));
      while And(AndNotInt(low as int, high as int), Quarter(BOARD)) != 0
        invariant Valid() && Renormalised(BOARD, State()) == goal && 0 <= low
        invariant Dead(BOARD, State().iv) || (Proper(BOARD, State().iv) && low as int < Half(BOARD) <= high as int)
        decreases Rounds(BOARD, Interval(low as int, high as int))
      {
        if Dead(BOARD, State().iv) {
          DeadTest(BOARD, State().iv);
        }
        UnderflowNext(BOARD, State());
        AreInRange(Interval(UnderflownLow(BOARD, low as int), UnderflownHigh(BOARD, high as int)));
        Underflow();
        low, high := UnderflownLow(BOARD, low as int) as int64, UnderflownHigh(BOARD, high as int) as int64;
      }
      RoundsDone(BOARD, State());
    }

    /** The middle part of `update`, given the bounds of symbol `s` in table `t`. */
    method NarrowRegisters(total: int64, symlow: int64, symhigh: int64, ghost t: Table, ghost s: nat)
      requires Valid() && Straddling(BOARD, Interval(low as int, high as int))
      requires s < t.Limit() && AreBounds(total, symlow, symhigh, t, s) && 0 < total <= TOTAL_LIMIT
      modifies `low, `high
      ensures Valid()
      ensures State() == Enc(Narrow(BOARD, old(State()).iv, t, s), old(State()).out)
    {
      BoardConstants();
      BoundsInTotal(t, s);
      ShareOrCrossed(State().iv, t, s);
      hide Pow2;
      hide InRegisters;
      hide BytesToBits;
      hide TableData.Valid;
      var range := high - low;
      ProductsFit(symlow as int, range as int);
      ProductsFit(symhigh as int, range as int);
      var newlow := low + symlow * range / total;
      var newhigh := low + symhigh * range / total - 1;
      low, high := newlow, newhigh;
    }

    /** Coding a symbol given by its bounds. Beyond the limit the call is refused. Up to it, a symbol that has no share
        of the interval leaves the ends crossed. */
    method Write(total: int64, symlow: int64, symhigh: int64, ghost t: Table, ghost s: nat) returns (ok: bool)
      requires Valid() && Straddling(BOARD, Interval(low as int, high as int))
      requires s < t.Limit() && 0 < total && AreBounds(total, symlow, symhigh, t, s)
      modifies this, output, output.bitOut
      ensures Valid() && ok == (total <= TOTAL_LIMIT)
      ensures ok ==> InRegisters(BOARD, Narrow(BOARD, old(State()).iv, t, s))
      ensures ok ==> State() == Renormalised(BOARD, Enc(Narrow(BOARD, old(State()).iv, t, s), old(State()).out))
      ensures ok ==> (Straddling(BOARD, State().iv) <==>
                        HasShare(total as int, old(high as int - low as int), symlow as int, symhigh as int))
      ensures ok ==> Straddling(BOARD, State().iv) || Dead(BOARD, State().iv)
      ensures !ok ==> State() == old(State())
    {
      if total > TOTAL_LIMIT {
        return false;
      }
      ShareExact(State().iv, t, s);
      ShareOrCrossed(State().iv, t, s);
      LiveOrDead(Enc(Narrow(BOARD, State().iv, t, s), State().out));
      hide *;
      NarrowRegisters(total, symlow, symhigh, t, s);
      SettleRegisters();
      return true;
    }

    method Finish()
      requires Valid()
      modifies output, output.bitOut
      ensures Valid() && State() == old(State()).(out := Encoder.Output(old(State()).out.bits + [1], numUnderflow))
    {
      output.Write(1);
    }
  }

  /** Codes a message, flushes, and closes the file. */
  method EncodeMessage(sched: Schedule, msg: seq<nat>) returns (file: seq<byte>)
    requires Codable(BOARD, sched, msg)
    ensures IsFileOf(BOARD, sched, msg, file)
  {
    hide Pow2;
    hide Digits;
    hide BytesToBits;
    hide Code;
    hide Fits;
    hide TableData.Valid;
    var bitOut := new BitOutputStream();
    var counting := new CountingBitOutputStream(bitOut);
    var enc := new BoardEncoder(counting);
    assert msg[..0] == [];
    for i := 0 to |msg|
      invariant Codable(BOARD, sched, msg[..i])
      invariant enc.output == counting && counting.bitOut == bitOut
      invariant enc.Valid() && enc.State() == Encode(BOARD, sched, msg[..i])
    {
      LastSymbol(BOARD, sched, msg, i);
      var t := sched(msg[..i]);
      FitsBelowLimit(t, msg[i]);
      CodeIs(BOARD, enc.State(), t, msg[i]);
      RenormalisedProper(BOARD, Enc(Narrow(BOARD, enc.State().iv, t, msg[i]), enc.State().out));
      var ok := enc.Write(t.Total() as int64, t.Low(msg[i]) as int64, t.High(msg[i]) as int64, t, msg[i]);
    }
    assert msg[..|msg|] == msg;
    enc.Finish();
    counting.Close();
    file := bitOut.output;
  }

  lemma FitsBelowLimit(t: Table, s: nat)
    requires Fits(BOARD, t, s)
    ensures s < t.Limit() && t.Low(s) < t.High(s) <= t.Total() < TOTAL_LIMIT as int
  {
    BoardConstants();
  }
}
