/** Files written by the board, read with the reference decoder. */
module BoardReference {
  import opened Bits
  import opened BitStreams
  import opened Tables
  import opened Intervals
  import opened Encoder
  import opened Decoder
  import opened RoundTrip
  import opened BoardEncoder

  const REFERENCE: Params := Setting(32, 1)

  // ---- Exactly which files the reference decoder reads ----

  /** A number of `from` bits read to `to` bits: followed by zeros, or cut off. */
  function Rescaled(v: nat, from: nat, to: nat): int {
    if from <= to then v * Pow2(to - from) else v / Pow2(from - to)
  }

  lemma {:induction false} PeekBeyond(s: seq<bit>, d: nat)
    ensures Peek(s, |s| + d) == Value(s) * Pow2(d)
  {
    if d != 0 {
      PeekBeyond(s, d - 1);
      assert Peek(s, |s| + d) == 2 * Peek(s, |s| + (d - 1)) + BitAt(s, |s| + (d - 1));
      DoubleProduct(Pow2(d - 1), Value(s));
    }
  }

  lemma PeekRescaled(s: seq<bit>, k: nat)
    ensures Peek(s, k) == Rescaled(Value(s), |s|, k)
  {
    if |s| <= k {
      PeekBeyond(s, k - |s|);
    } else {
      var m := Pow2(|s| - k);
      PeekRefines(s, k, |s| - k);
      hide Peek;
      hide Pow2;
      assert m * (Peek(s, k) + 1) == Peek(s, k) * m + m;
      DivisionIs(Value(s), m, Peek(s, k), Value(s) - Peek(s, k) * m);
    }
  }

  lemma ReferenceCodes(sched: Schedule, msg: seq<nat>)
    requires Codable(BOARD, sched, msg)
    ensures Codable(REFERENCE, sched, msg)
  {
    assert MaxTotal(BOARD) <= MaxTotal(REFERENCE);
    forall i: nat | i < |msg| ensures Fits(REFERENCE, sched(msg[..i]), msg[i]) {
      assert Fits(BOARD, sched(msg[..i]), msg[i]);
    }
  }

  /** What the board writes before padding, as a number: the bits of the code and the 1 that flushes it. */
  ghost function Flushed(e: Enc): nat {
    2 * Value(e.out.bits) + 1
  }

  /** Both coders, run on the message, tell whether the reference decoder will read the board's file: the board's
      number has to fall into the reference coder's interval, once read to the same depth. */
  ghost predicate Readable(board: Enc, reference: Enc) {
    BigLow(REFERENCE, reference)
    <= Rescaled(Flushed(board), |board.out.bits| + 1, 32 + Depth(reference.out))
    < BigEnd(REFERENCE, reference)
  }

  lemma HoldsIsReadable(s: seq<bit>, board: Enc, reference: Enc)
    requires s == board.out.bits + [1]
    ensures Holds(REFERENCE, s, reference) <==> Readable(board, reference)
  {
    ValueSnoc(board.out.bits, 1);
    PeekRescaled(s, 32 + Depth(reference.out));
    hide Peek;
    hide Offset;
    hide Rescaled;
    hide Value;
  }

  /** For every message and schedule that the board can code: the reference decoder, with the same tables, reads the
      board's file as that message if and only if it is readable in this sense. */
  lemma ReferenceReadsBoard(sched: Schedule, msg: seq<nat>, file: seq<byte>)
    requires Codable(BOARD, sched, msg) && IsFileOf(BOARD, sched, msg, file)
    ensures Codable(REFERENCE, sched, msg)
    ensures var r := Decode(REFERENCE, sched, BytesToBits(file), |msg|);
            (r.Decoded? && r.symbols == msg)
            <==> Readable(Encode(BOARD, sched, msg), Encode(REFERENCE, sched, msg))
  {
    assert REFERENCE.slack == 1;
    FinishedIs(sched, msg);
    hide *;
    ReferenceCodes(sched, msg);
    var s, bits, e := BytesToBits(file), Finished(BOARD, sched, msg), Encode(REFERENCE, sched, msg);
    FileHolds(BOARD, sched, msg, file);
    DecodesExactly(REFERENCE, sched, msg, s);
    SameHolds(s, bits, e);
    HoldsIsReadable(bits, Encode(BOARD, sched, msg), e);
  }

  lemma FinishedIs(sched: Schedule, msg: seq<nat>)
    requires Codable(BOARD, sched, msg)
    ensures Finished(BOARD, sched, msg) == Encode(BOARD, sched, msg).out.bits + [1]
  {
    hide Encode;
  }

  lemma SameHolds(s: seq<bit>, t: seq<bit>, e: Enc)
    requires forall i: nat :: BitAt(s, i) == BitAt(t, i)
    ensures Holds(REFERENCE, s, e) <==> Holds(REFERENCE, t, e)
  {
    PeekAgrees(s, t, REFERENCE.stateSize + Depth(e.out));
    hide Peek;
    hide Offset;
  }

  // ---- A file that it does not read ----

  const HALVES: Table := Table([0, 1, 2])
  const RARE: Table := Table([0, 1, 0x4000_0000])

  function Mismatch(): Schedule {
    m => if |m| == 0 then HALVES else RARE
  }

  lemma MismatchSteps()
    ensures Start(BOARD) == Registers(0, 0xFFFF_FFFF)
    ensures Straddling(BOARD, Registers(0, 0xFFFF_FFFF).iv) && Fits(BOARD, HALVES, 1)
    ensures Code(BOARD, Registers(0, 0xFFFF_FFFF), HALVES, 1) == Registers(0x7FFF_FFFF, 0xFFFF_FFFE)
    ensures Straddling(BOARD, Registers(0x7FFF_FFFF, 0xFFFF_FFFE).iv) && Fits(BOARD, RARE, 0)
    ensures Narrow(BOARD, Interval(0x7FFF_FFFF, 0xFFFF_FFFE), RARE, 0) == Interval(0x7FFF_FFFF, 0x7FFF_FFFF)
  {
    BoardConstants();
    hide Pow2;
    hide Code;
    StillAfter(Registers(0, 0xFFFF_FFFF), HALVES, 1, Interval(0x7FFF_FFFF, 0xFFFF_FFFE));
    NarrowTo(Interval(0x7FFF_FFFF, 0xFFFF_FFFE), RARE, 0, Interval(0x7FFF_FFFF, 0x7FFF_FFFF));
  }

  lemma MismatchCodable(msg: seq<nat>)
    requires msg == [1, 0]
    ensures Codable(BOARD, Mismatch(), msg)
    ensures Mismatch()([]) == HALVES && Mismatch()([1]) == RARE
  {
    MismatchSteps();
    hide Fits;
    hide Code;
    hide Narrow;
    hide TableData.Valid;
    assert msg[..0] == [] && msg[..1] == [1];
  }

  lemma NothingWritten()
    ensures Offset(BOARD, Output([], 0)) == 0 && Depth(Output([], 0)) == 0
  {
    assert Pow2(0) == 1;
  }

  lemma BoardCodes(msg: seq<nat>)
    requires msg == [1, 0] && Codable(BOARD, Mismatch(), msg)
    ensures var e := Registers(0x7FFF_FFFF, 0xFFFF_FFFE);
            && Straddling(BOARD, e.iv) && Fits(BOARD, RARE, 0)
            && Encode(BOARD, Mismatch(), msg) == Code(BOARD, e, RARE, 0)
  {
    MismatchCodable(msg);
    assert Encode(BOARD, Mismatch(), []) == Start(BOARD);
    hide *;
    assert msg[..0] == [] && msg[..1] == [1] && msg[..2] == msg;
    MismatchSteps();
    LastSymbol(BOARD, Mismatch(), msg, 0);
    LastSymbol(BOARD, Mismatch(), msg, 1);
  }

  /** Every stream that the board's last interval holds starts just below the middle. */
  lemma StartsBelowMiddle(msg: seq<nat>, s: seq<bit>)
    requires msg == [1, 0] && Codable(BOARD, Mismatch(), msg) && Holds(BOARD, s, Encode(BOARD, Mismatch(), msg))
    ensures Peek(s, 32) == 0x7FFF_FFFF
  {
    hide *;
    var e := Registers(0x7FFF_FFFF, 0xFFFF_FFFE);
    BoardCodes(msg);
    MismatchSteps();
    NothingWritten();
    RegistersAre(0x7FFF_FFFF, 0xFFFF_FFFE);
    Nested(BOARD, s, e, RARE, 0);
    assert Peek(s, 32 + Depth(e.out)) == 0x7FFF_FFFF;
  }

  lemma RegistersAre(low: int, high: int)
    ensures Registers(low, high) == Enc(Interval(low, high), Output([], 0)) && BOARD.stateSize == 32
  {
  }

  lemma ReferenceConstants()
    ensures Full(REFERENCE) == 0x1_0000_0000 && Half(REFERENCE) == 0x8000_0000 && Quarter(REFERENCE) == 0x4000_0000
    ensures MaxTotal(REFERENCE) == 0x4000_0002 && REFERENCE.stateSize == 32 && REFERENCE.slack == 1
  {
    BoardConstants();
    assert Full(REFERENCE) == Full(BOARD) && Half(REFERENCE) == Half(BOARD) && Quarter(REFERENCE) == Quarter(BOARD);
    hide Pow2;
  }

  lemma LowerShare(s: seq<bit>)
    requires Peek(s, 32) == 0x7FFF_FFFF
    ensures var d := Begin(REFERENCE, s);
            && Straddling(REFERENCE, d.iv) && InWindow(d) && d.code == 0x7FFF_FFFF
            && 0 < HALVES.Limit() && HALVES.Total() == 2 <= MaxTotal(REFERENCE) && REFERENCE.slack == 1
            && Narrow(REFERENCE, d.iv, HALVES, 0) == Interval(0, 0x7FFF_FFFF)
  {
    ReferenceConstants();
    hide Pow2;
    hide Peek;
    hide Full;
    hide Half;
    hide Quarter;
    hide MaxTotal;
    assert Begin(REFERENCE, s) == Dec(Interval(0, 0xFFFF_FFFF), 0x7FFF_FFFF, 32);
  }

  lemma LowerIsChosen(p: Params, d: Dec, t: Table)
    requires p.slack == 1 && Straddling(p, d.iv) && InWindow(d) && d.code == 0x7FFF_FFFF
    requires 0 < t.Limit() && t.Total() == 2 <= MaxTotal(p)
    requires Narrow(p, d.iv, t, 0) == Interval(0, 0x7FFF_FFFF)
    ensures Choose(p, d, t) == 0
  {
    hide *;
    ChooseExact(p, d, t, 0);
  }

  /** The reference decoder takes such a stream for the lower of two equal halves. */
  lemma ReferenceTakesLower(s: seq<bit>)
    requires Peek(s, 32) == 0x7FFF_FFFF
    ensures var d := Begin(REFERENCE, s);
            Straddling(REFERENCE, d.iv) && Choose(REFERENCE, d, HALVES) == 0
  {
    LowerShare(s);
    hide *;
    var d := Begin(REFERENCE, s);
    LowerIsChosen(REFERENCE, d, HALVES);
  }

  /** In the reference coder the upper of two equal halves starts at the middle. */
  lemma UpperHalf(s: seq<bit>, e: Enc)
    requires Straddling(REFERENCE, Start(REFERENCE).iv) && Fits(REFERENCE, HALVES, 1)
    requires e == Code(REFERENCE, Start(REFERENCE), HALVES, 1) && Holds(REFERENCE, s, e)
    ensures 0x8000_0000 <= Peek(s, 32)
  {
    UpperShare();
    hide *;
    Nested(REFERENCE, s, Start(REFERENCE), HALVES, 1);
  }

  lemma UpperShare()
    ensures var e := Start(REFERENCE);
            && Straddling(REFERENCE, e.iv) && Fits(REFERENCE, HALVES, 1) && REFERENCE.stateSize == 32
            && Narrow(REFERENCE, e.iv, HALVES, 1).low == 0x8000_0000
            && Depth(e.out) == 0 && Offset(REFERENCE, e.out) == 0
  {
    ReferenceConstants();
    assert Pow2(0) == 1;
    hide Pow2;
    hide Full;
    hide Half;
    hide Quarter;
    hide MaxTotal;
    assert Start(REFERENCE) == Enc(Interval(0, 0xFFFF_FFFF), Output([], 0));
  }

  /** Two symbols are enough for the condition to fail. */
  lemma Unreadable(msg: seq<nat>)
    requires msg == [1, 0]
    ensures Codable(BOARD, Mismatch(), msg) && Codable(REFERENCE, Mismatch(), msg)
    ensures !Readable(Encode(BOARD, Mismatch(), msg), Encode(REFERENCE, Mismatch(), msg))
  {
    MismatchCodable(msg);
    ReferenceCodes(Mismatch(), msg);
    assert Encode(REFERENCE, Mismatch(), []) == Start(REFERENCE);
    hide *;
    var s, e := Finished(BOARD, Mismatch(), msg), Encode(REFERENCE, Mismatch(), msg);
    FinishedIs(Mismatch(), msg);
    FlushSuffices(BOARD, Encode(BOARD, Mismatch(), msg), s);
    StartsBelowMiddle(msg, s);
    HoldsIsReadable(s, Encode(BOARD, Mismatch(), msg), e);
    if Holds(REFERENCE, s, e) {
      NestedMessage(REFERENCE, Mismatch(), msg, s, 1);
      assert msg[..0] == [] && msg[..1] == [1];
      LastSymbol(REFERENCE, Mismatch(), msg, 0);
      UpperShare();
      UpperHalf(s, Encode(REFERENCE, Mismatch(), [1]));
      assert false;
    }
  }

  /** Dropping the `+ 1` is a change of format: there are tables and a message whose file, written by the board,
      the reference decoder with the same tables reads as a different message. */
  lemma ReferenceMisreadsBoard(msg: seq<nat>, file: seq<byte>)
    requires msg == [1, 0]
    ensures Codable(BOARD, Mismatch(), msg)
    ensures IsFileOf(BOARD, Mismatch(), msg, file) ==>
              var s := BytesToBits(file);
              && (var r := Decode(REFERENCE, Mismatch(), s, 2); !(r.Decoded? && r.symbols == msg))
              && (var r := Decode(REFERENCE, Mismatch(), s, 1); r.Decoded? && r.symbols == [0])
  {
    MismatchCodable(msg);
    if IsFileOf(BOARD, Mismatch(), msg, file) {
      hide *;
      var s := BytesToBits(file);
      Unreadable(msg);
      ReferenceReadsBoard(Mismatch(), msg, file);
      FileHolds(BOARD, Mismatch(), msg, file);
      StartsBelowMiddle(msg, s);
      ReferenceTakesLower(s);
      BeginDecoding(s);
    }
  }

  lemma BeginDecoding(s: seq<bit>)
    ensures var d := Begin(REFERENCE, s); Straddling(REFERENCE, d.iv) && InWindow(d)
    ensures var r := Decode(REFERENCE, Mismatch(), s, 1);
            r.Decoded? && r.symbols == [Choose(REFERENCE, Begin(REFERENCE, s), HALVES)]
  {
    assert Decode(REFERENCE, Mismatch(), s, 0) == Decoded([], Begin(REFERENCE, s));
    assert 0 < HALVES.Total() <= MaxTotal(REFERENCE);
    DecodeStep(REFERENCE, Mismatch(), s, 0);
    hide Choose;
    hide Take;
    hide Begin;
    hide Pow2;
  }
}
