/** The transmitter: one start bit, eight data bits and one stop bit of `c` clock cycles each. */
module UartTx {
  import opened Serial

  datatype State = Idle | Start | SendByte | Stop

  datatype Input = Input(data: Byte, valid: bool)

  datatype Regs = Regs(state: State, cycleCnt: Count16, bitCnt: Count3, latch: Byte, ready: bool, pin: bool)

  const RESET := Regs(Idle, 0, 0, ZERO, false, true)

  // ---- One clock edge ----

  function NextState(c: nat, r: Regs, input: Input): State {
    match r.state
    case Idle => if input.valid then Start else Idle
    case Start => if r.cycleCnt == c - 1 then SendByte else Start
    case SendByte => if r.cycleCnt == c - 1 && r.bitCnt == 7 then Stop else SendByte
    case Stop => if r.cycleCnt == c - 1 then Idle else Stop
  }

  predicate Accepts(r: Regs, input: Input) {
    r.state == Idle && input.valid
  }

  /** All registers after an edge, from all registers before it. */
  function Next(c: nat, r: Regs, input: Input): Regs {
    var next := NextState(c, r, input);
    var last := r.cycleCnt == c - 1;
    Regs(next,
         if next != r.state || (r.state == SendByte && last) then 0 else Inc16(r.cycleCnt),
         if r.state != SendByte then 0 else if last then Inc3(r.bitCnt) else r.bitCnt,
         if Accepts(r, input) then input.data else r.latch,
         if Accepts(r, input) then false
         else if (r.state == Stop && last) || (r.state == Idle && !input.valid) then true
         else r.ready,
         match r.state case Start => false case SendByte => r.latch[r.bitCnt] case _ => true)
  }

  class UartTx {
    const cycles: nat
    var state: State
    var cycleCnt: Count16
    var bitCnt: Count3
    var txDataLatch: Byte
    var txDataReady: bool
    var txReg: bool

    function Now(): Regs
      reads this
    {
      Regs(state, cycleCnt, bitCnt, txDataLatch, txDataReady, txReg)
    }

    constructor (cycles: nat)
      ensures this.cycles == cycles && Now() == RESET
    {
      this.cycles := cycles;
      state, cycleCnt, bitCnt := Idle, 0, 0;
      txDataLatch, txDataReady, txReg := ZERO, false, true;
    }

    method Clock(txData: Byte, txDataValid: bool)
      modifies this
      ensures Now() == Next(cycles, old(Now()), Input(txData, txDataValid))
    {
      hide Inc16;
      hide Inc3;
      hide NextState;
      var last := cycleCnt == cycles - 1;
      var nextState := NextState(cycles, Now(), Input(txData, txDataValid));
      var nextCycle, nextBit, nextReady, nextLatch := Inc16(cycleCnt), bitCnt, txDataReady, txDataLatch;
      if nextState != state || (state == SendByte && last) {
        nextCycle := 0;
      }
      if state != SendByte {
        nextBit := 0;
      } else if last {
        nextBit := Inc3(bitCnt);
      }
      if state == Idle && txDataValid {
        nextReady := false;
        nextLatch := txData;
      } else if (state == Stop && last) || (state == Idle && !txDataValid) {
        nextReady := true;
      }
      var nextReg := true;
      match state {
        case Start => nextReg := false;
        case SendByte => nextReg := txDataLatch[bitCnt];
        case _ =>
      }
      state, cycleCnt, bitCnt := nextState, nextCycle, nextBit;
      txDataLatch, txDataReady, txReg := nextLatch, nextReady, nextReg;
    }
  }

  // ---- Whole runs ----

  /** The registers after the edges with these inputs, starting from reset. */
  function After(c: nat, inputs: seq<Input>): Regs {
    if inputs == [] then RESET else
      var n := |inputs| - 1;
      Next(c, After(c, inputs[..n]), inputs[n])
  }

  /** The level of the line just before each edge. */
  function Line(c: nat, inputs: seq<Input>): (pins: seq<bool>)
    ensures |pins| == |inputs|
  {
    if inputs == [] then [] else
      var n := |inputs| - 1;
      Line(c, inputs[..n]) + [After(c, inputs[..n]).pin]
  }

  /** The bytes that the state machine latches, and when. */
  function Latched(c: nat, inputs: seq<Input>): seq<Event> {
    if inputs == [] then [] else
      var n := |inputs| - 1;
      var before := Latched(c, inputs[..n]);
      if Accepts(After(c, inputs[..n]), inputs[n]) then before + [Event(n, inputs[n].data)] else before
  }

  lemma RunNext(c: nat, inputs: seq<Input>, n: nat)
    requires |inputs| == n + 1
    ensures var r := After(c, inputs[..n]);
            && After(c, inputs) == Next(c, r, inputs[n])
            && Line(c, inputs)[..n] == Line(c, inputs[..n]) && Line(c, inputs)[n] == r.pin
            && Latched(c, inputs) == (var before := Latched(c, inputs[..n]);
                                      if Accepts(r, inputs[n]) then before + [Event(n, inputs[n].data)] else before)
  {
    hide Next;
    hide Accepts;
  }

  /** The transmitter, clocked. */
  method Drive(c: nat, inputs: seq<Input>) returns (pins: seq<bool>)
    ensures pins == Line(c, inputs)
  {
    var tx := new UartTx(c);
    pins := [];
    for n := 0 to |inputs|
      invariant tx.Now() == After(c, inputs[..n]) && pins == Line(c, inputs[..n])
    {
      assert inputs[..n + 1][..n] == inputs[..n];
      RunNext(c, inputs[..n + 1], n);
      hide Next;
      pins := pins + [tx.txReg];
      tx.Clock(inputs[n].data, inputs[n].valid);
    }
    assert inputs[..|inputs|] == inputs;
  }

  /** A byte is taken whenever one is offered, except for ten bits after the last one that was. */
  predicate Takes(c: nat, taken: seq<Event>, n: nat, input: Input) {
    input.valid && (taken == [] || taken[|taken| - 1].clock + 10 * c < n)
  }

  /** The bytes taken by that rule alone, without a state machine. */
  function Offered(c: nat, inputs: seq<Input>): (taken: seq<Event>)
    ensures forall i | 0 <= i < |taken| :: taken[i].clock < |inputs|
    ensures forall i, j | 0 <= i < j < |taken| :: taken[i].clock + 10 * c < taken[j].clock
  {
    if inputs == [] then [] else
      var n := |inputs| - 1;
      var before := Offered(c, inputs[..n]);
      if Takes(c, before, n, inputs[n]) then before + [Event(n, inputs[n].data)] else before
  }

  /** The registers `age` clocks after the state that follows the taking of a byte. */
  predicate InFrame(c: Cycles, r: Regs, age: nat, byte: Byte) {
    && r.latch == byte
    && (r.ready <==> r.state == Idle)
    && match r.state
       case Start =>
         r.cycleCnt < c && age == r.cycleCnt && (r.pin <==> age == 0)
       case SendByte =>
         && r.cycleCnt < c && age == c + Slot(c, r.bitCnt) + r.cycleCnt
         && r.pin == if r.cycleCnt > 0 then byte[r.bitCnt] else r.bitCnt > 0 && byte[r.bitCnt - 1]
       case Stop =>
         r.cycleCnt < c && age == 9 * c + r.cycleCnt && r.pin == (r.cycleCnt > 0 || byte[7])
       case Idle =>
         10 * c <= age && r.pin
  }

  lemma FrameStarts(c: Cycles, r: Regs, input: Input)
    requires Accepts(r, input)
    ensures InFrame(c, Next(c, r, input), 0, input.data)
  {
  }

  lemma FrameAdvances(c: Cycles, r: Regs, age: nat, byte: Byte, input: Input)
    requires InFrame(c, r, age, byte) && !Accepts(r, input)
    ensures InFrame(c, Next(c, r, input), age + 1, byte)
  {
    SlotFacts(c, r.bitCnt);
    hide Slot;
  }

  lemma IdleIsOld(c: Cycles, r: Regs, age: nat, byte: Byte)
    requires InFrame(c, r, age, byte)
    ensures r.state == Idle <==> 10 * c <= age
  {
    SlotFacts(c, r.bitCnt);
    hide Slot;
  }

  /** What the history of a run says about the registers. */
  predicate Follows(c: Cycles, r: Regs, n: nat, taken: seq<Event>) {
    if taken == [] then r.state == Idle && r.pin && (n == 0 || r.ready)
    else
      var e := taken[|taken| - 1];
      e.clock < n && InFrame(c, r, n - 1 - e.clock, e.byte)
  }

  lemma FollowsNext(c: Cycles, r: Regs, n: nat, taken: seq<Event>, input: Input)
    requires Follows(c, r, n, taken)
    ensures Accepts(r, input) <==> Takes(c, taken, n, input)
    ensures Follows(c, Next(c, r, input), n + 1,
                    if Accepts(r, input) then taken + [Event(n, input.data)] else taken)
  {
    if Accepts(r, input) {
      FrameStarts(c, r, input);
    }
    if taken == [] {
    } else {
      hide InFrame;
      hide Next;
      var e := taken[|taken| - 1];
      IdleIsOld(c, r, n - 1 - e.clock, e.byte);
      if !Accepts(r, input) {
        FrameAdvances(c, r, n - 1 - e.clock, e.byte, input);
      }
    }
  }

  /** Whatever the inputs, the state machine takes exactly the bytes it is offered when not deaf. */
  lemma {:induction false} LatchedIsOffered(c: Cycles, inputs: seq<Input>)
    ensures Latched(c, inputs) == Offered(c, inputs)
    ensures Follows(c, After(c, inputs), |inputs|, Offered(c, inputs))
  {
    if inputs != [] {
      var n := |inputs| - 1;
      LatchedIsOffered(c, inputs[..n]);
      FollowsNext(c, After(c, inputs[..n]), n, Offered(c, inputs[..n]), inputs[n]);
      hide Follows;
      hide Takes;
      hide Accepts;
      hide Next;
    }
  }

  /** The line during a frame: high when the byte is taken, then start bit, data bits, stop bit and rest. */
  predicate Level(c: Cycles, age: nat, byte: Byte) {
    if age == 0 then true
    else if age <= c then false
    else if age <= 9 * c then LevelOfBit(c, age, byte)
    else true
  }

  predicate LevelOfBit(c: Cycles, age: nat, byte: Byte)
    requires c < age <= 9 * c
  {
    DataBitInRange(c, age);
    byte[(age - 1 - c) / c]
  }

  lemma DataBitInRange(c: Cycles, age: nat)
    requires c < age <= 9 * c
    ensures 0 <= (age - 1 - c) / c < 8
  {
    Multiples(c, 8, (age - 1 - c) / c);
  }

  /** What is on the line, for whoever knows only which byte was taken when. */
  lemma Waveform(c: Cycles, r: Regs, age: nat, byte: Byte)
    requires InFrame(c, r, age, byte)
    ensures r.pin == Level(c, age, byte)
  {
    SlotFacts(c, r.bitCnt);
    if r.state == SendByte && r.cycleCnt > 0 {
      WithinSlot(c, r.bitCnt, r.cycleCnt - 1);
    } else if r.state == SendByte && r.bitCnt > 0 {
      SlotFacts(c, r.bitCnt - 1);
      WithinSlot(c, r.bitCnt - 1, c - 1);
    } else if r.state == Stop && r.cycleCnt == 0 {
      WithinSlot(c, 7, c - 1);
    }
    hide Slot;
  }

  /** The level before edge `n`, for a given history. */
  predicate LevelAfter(c: Cycles, taken: seq<Event>, n: nat)
    requires taken != [] ==> taken[|taken| - 1].clock < n
  {
    taken != [] ==> Level(c, n - 1 - taken[|taken| - 1].clock, taken[|taken| - 1].byte)
  }

  lemma FollowsLevel(c: Cycles, r: Regs, n: nat, taken: seq<Event>)
    requires Follows(c, r, n, taken)
    ensures r.pin == LevelAfter(c, taken, n)
  {
    if taken != [] {
      Waveform(c, r, n - 1 - taken[|taken| - 1].clock, taken[|taken| - 1].byte);
    }
    hide Level;
    hide InFrame;
  }

  /** The level of the line at every edge of a run follows from what was offered, by the frame format alone. */
  lemma {:induction false} LineIsWaveform(c: Cycles, inputs: seq<Input>, k: nat)
    requires k < |inputs|
    ensures Line(c, inputs)[k] == LevelAfter(c, Offered(c, inputs[..k]), k)
  {
    var n := |inputs| - 1;
    if k < n {
      LineIsWaveform(c, inputs[..n], k);
      assert inputs[..n][..k] == inputs[..k];
      RunNext(c, inputs, n);
    } else {
      RunNext(c, inputs, k);
      LatchedIsOffered(c, inputs[..k]);
      FollowsLevel(c, After(c, inputs[..k]), k, Offered(c, inputs[..k]));
    }
    hide *;
  }

  /** Bytes taken one period apart, the next one not yet due before edge `n`. */
  predicate Regular(c: Cycles, taken: seq<Event>, n: nat) {
    && (forall i | 0 <= i < |taken| :: taken[i].clock == Period(c, i))
    && (if taken == [] then n == 0 else Period(c, |taken| - 1) < n <= Period(c, |taken|))
  }

  lemma RegularNext(c: Cycles, taken: seq<Event>, n: nat, input: Input)
    requires Regular(c, taken, n) && input.valid
    ensures Regular(c, if Takes(c, taken, n, input) then taken + [Event(n, input.data)] else taken, n + 1)
  {
    PeriodNext(c, |taken|);
    if taken != [] {
      PeriodNext(c, |taken| - 1);
    }
    hide Period;
  }

  /** A source that always has a byte to offer sends one every ten bits and a clock. */
  lemma {:induction false} FullRate(c: Cycles, inputs: seq<Input>)
    requires forall k | 0 <= k < |inputs| :: inputs[k].valid
    ensures Regular(c, Offered(c, inputs), |inputs|)
  {
    if inputs != [] {
      var n := |inputs| - 1;
      FullRate(c, inputs[..n]);
      RegularNext(c, Offered(c, inputs[..n]), n, inputs[n]);
      hide Takes;
      hide Regular;
    }
  }

  function Period(c: Cycles, i: nat): nat {
    i * (10 * c + 1)
  }

  lemma PeriodNext(c: Cycles, i: nat)
    ensures Period(c, 0) == 0 && Period(c, i + 1) == Period(c, i) + 10 * c + 1
  {
    assert (i + 1) * (10 * c + 1) == i * (10 * c + 1) + (10 * c + 1);
  }

  // ---- The ready flag ----

  /** The flag tells the truth at every edge but the first, where a byte is taken although it is low. */
  lemma ReadyMeansAccepts(c: Cycles, inputs: seq<Input>, input: Input)
    ensures Accepts(After(c, inputs), input) <==> input.valid && (inputs == [] || After(c, inputs).ready)
    ensures !After(c, []).ready
  {
    LatchedIsOffered(c, inputs);
    hide Latched;
    hide Offered;
    hide Next;
  }

  /** The bytes that the two sides of the handshake agree on: offered while the flag is up. */
  function Handed(c: nat, inputs: seq<Input>): seq<Event> {
    if inputs == [] then [] else
      var n := |inputs| - 1;
      var before := Handed(c, inputs[..n]);
      if inputs[n].valid && After(c, inputs[..n]).ready then before + [Event(n, inputs[n].data)] else before
  }

  /** The byte offered at the first edge after reset, if there is one. */
  function Unannounced(inputs: seq<Input>): seq<Event> {
    if inputs != [] && inputs[0].valid then [Event(0, inputs[0].data)] else []
  }

  /** What is sent is what was handed over, after the one byte that was taken without the flag. */
  lemma {:induction false} LatchedIsHanded(c: Cycles, inputs: seq<Input>)
    ensures Latched(c, inputs) == Unannounced(inputs) + Handed(c, inputs)
  {
    if inputs != [] {
      var n := |inputs| - 1;
      LatchedIsHanded(c, inputs[..n]);
      ReadyMeansAccepts(c, inputs[..n], inputs[n]);
      RunNext(c, inputs, n);
      if n == 0 {
        assert inputs[..0] == [];
      }
      hide Accepts;
      hide After;
      hide Latched;
      hide Line;
      hide Next;
    }
  }

  function Bytes(events: seq<Event>): (s: seq<Byte>)
    ensures |s| == |events|
  {
    seq(|events|, i requires 0 <= i < |events| => events[i].byte)
  }

  /** Whenever the source offers a byte, it is the first one of its queue not yet handed over. */
  predicate OffersInOrder(c: nat, inputs: seq<Input>, queue: seq<Byte>) {
    forall k | 0 <= k < |inputs| && inputs[k].valid ::
      var done := |Handed(c, inputs[..k])|;
      done < |queue| && inputs[k].data == queue[done]
  }

  lemma {:induction false} HandedInOrder(c: Cycles, inputs: seq<Input>, queue: seq<Byte>)
    requires OffersInOrder(c, inputs, queue)
    ensures Bytes(Handed(c, inputs)) <= queue
  {
    if inputs != [] {
      var n := |inputs| - 1;
      hide After;
      forall k | 0 <= k < n ensures inputs[..n][..k] == inputs[..k] {
      }
      HandedInOrder(c, inputs[..n], queue);
      var before := Handed(c, inputs[..n]);
      assert inputs[n].valid ==> |before| < |queue| && inputs[n].data == queue[|before|];
      HandedNext(c, inputs);
      hide *;
      if Handed(c, inputs) != before {
        OneMoreByte(before, Event(n, inputs[n].data), queue);
      }
    }
  }

  lemma HandedNext(c: nat, inputs: seq<Input>)
    requires inputs != []
    ensures var n := |inputs| - 1;
            var before := Handed(c, inputs[..n]);
            Handed(c, inputs) != before ==>
              inputs[n].valid && Handed(c, inputs) == before + [Event(n, inputs[n].data)]
  {
    hide After;
  }

  lemma OneMoreByte(before: seq<Event>, e: Event, queue: seq<Byte>)
    requires Bytes(before) <= queue && |before| < |queue| && e.byte == queue[|before|]
    ensures Bytes(before + [e]) <= queue
  {
    BytesConcat(before, [e]);
    assert Bytes([e]) == [e.byte];
    hide Bytes;
    assert queue[..|before| + 1] == queue[..|before|] + [queue[|before|]];
  }

  /** A source that keeps to the handshake sends its queue in order, each byte once: unless it offers one at the first
      edge after reset, in which case it sends that one twice. */
  lemma FirstByteTwice(c: Cycles, inputs: seq<Input>, queue: seq<Byte>)
    requires OffersInOrder(c, inputs, queue)
    ensures var done := |Handed(c, inputs)|;
            && done <= |queue|
            && (inputs != [] && inputs[0].valid ==>
                  queue != [] && Bytes(Latched(c, inputs)) == [queue[0]] + queue[..done])
            && (inputs == [] || !inputs[0].valid ==> Bytes(Latched(c, inputs)) == queue[..done])
  {
    if inputs != [] && inputs[0].valid {
      FirstOffer(c, inputs, queue);
    }
    hide *;
    LatchedIsHanded(c, inputs);
    HandedInOrder(c, inputs, queue);
    UnannouncedBytes(inputs);
    BytesConcat(Unannounced(inputs), Handed(c, inputs));
    assert Bytes(Handed(c, inputs)) == queue[..|Handed(c, inputs)|];
  }

  lemma FirstOffer(c: Cycles, inputs: seq<Input>, queue: seq<Byte>)
    requires OffersInOrder(c, inputs, queue) && inputs != [] && inputs[0].valid
    ensures queue != [] && inputs[0].data == queue[0]
  {
    assert inputs[..0] == [] && Handed(c, []) == [];
    assert |Handed(c, inputs[..0])| == 0;
    hide Handed;
  }

  lemma UnannouncedBytes(inputs: seq<Input>)
    ensures Bytes(Unannounced(inputs)) == if inputs != [] && inputs[0].valid then [inputs[0].data] else []
  {
  }

  lemma BytesConcat(a: seq<Event>, b: seq<Event>)
    ensures Bytes(a + b) == Bytes(a) + Bytes(b)
  {
  }

  /** A source that holds one byte up until it is told that the byte was taken: it is taken at once, and again ten bits
      and a clock later, when the flag is up for the first time. */
  lemma SentTwice(c: Cycles, byte: Byte)
    ensures var inputs := seq(10 * c + 2, i => Input(byte, true));
            && Handed(c, inputs) == [Event(10 * c + 1, byte)]
            && Latched(c, inputs) == [Event(0, byte), Event(10 * c + 1, byte)]
  {
    var inputs := seq(10 * c + 2, i => Input(byte, true));
    assert inputs[0] == Input(byte, true);
    hide *;
    FullRate(c, inputs);
    LatchedIsOffered(c, inputs);
    LatchedIsHanded(c, inputs);
    UnannouncedIs(inputs, byte);
    HandedBytes(c, inputs, byte);
    TwoPeriods(c, Latched(c, inputs));
    assert Handed(c, inputs)[0] == Latched(c, inputs)[1];
    assert Handed(c, inputs)[0] == Event(10 * c + 1, byte);
  }

  lemma UnannouncedIs(inputs: seq<Input>, byte: Byte)
    requires inputs != [] && inputs[0] == Input(byte, true)
    ensures Unannounced(inputs) == [Event(0, byte)]
  {
  }

  lemma {:induction false} HandedBytes(c: nat, inputs: seq<Input>, byte: Byte)
    requires forall k | 0 <= k < |inputs| :: inputs[k] == Input(byte, true)
    ensures forall i | 0 <= i < |Handed(c, inputs)| :: Handed(c, inputs)[i].byte == byte
  {
    hide After;
    if inputs != [] {
      HandedBytes(c, inputs[..|inputs| - 1], byte);
    }
  }

  lemma TwoPeriods(c: Cycles, taken: seq<Event>)
    requires Regular(c, taken, 10 * c + 2)
    ensures |taken| == 2 && taken[0].clock == 0 && taken[1].clock == 10 * c + 1
  {
    PeriodNext(c, 0);
    PeriodNext(c, 1);
    if 2 < |taken| {
      MorePeriods(c, 2, |taken| - 1);
    }
    hide Period;
  }

  lemma MorePeriods(c: Cycles, i: nat, j: nat)
    requires i <= j
    ensures Period(c, i) <= Period(c, j)
  {
    Multiples(10 * c + 1, i, j);
  }
}
