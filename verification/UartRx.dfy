/** The receiver: waits for a falling edge, samples each bit half way, and reports in the stop bit. */
module UartRx {
  import opened Serial

  datatype State = Idle | Start | RecByte | Stop | Data

  datatype Regs = Regs(state: State, cycleCnt: Count16, bitCnt: Count3, d0: bool, d1: bool, data: Byte, valid: bool)

  const RESET := Regs(Idle, 0, 0, false, false, ZERO, false)

  // ---- One clock edge ----

  /** The count at which a bit is sampled, and the stop bit is given up. */
  function Middle(c: nat): int {
    c / 2 - 1
  }

  function Put(data: Byte, i: Count3, bit: bool): Byte {
    data[i := bit]
  }

  predicate FallingEdge(r: Regs) {
    r.d1 && !r.d0
  }

  function NextState(c: nat, r: Regs, ready: bool): State {
    match r.state
    case Idle => if FallingEdge(r) then Start else Idle
    case Start => if r.cycleCnt == c - 1 then RecByte else Start
    case RecByte => if r.cycleCnt == c - 1 && r.bitCnt == 7 then Stop else RecByte
    case Stop => if r.cycleCnt == Middle(c) then Data else Stop
    case Data => if ready then Idle else Data
  }

  predicate Samples(c: nat, r: Regs) {
    r.state == RecByte && r.cycleCnt == Middle(c)
  }

  /** All registers after an edge, from all registers before it. */
  function Next(c: nat, r: Regs, pin: bool, ready: bool): Regs {
    var next := NextState(c, r, ready);
    var last := r.cycleCnt == c - 1;
    Regs(next,
         if next != r.state || (r.state == RecByte && last) then 0 else Inc16(r.cycleCnt),
         if r.state != RecByte then 0 else if last then Inc3(r.bitCnt) else r.bitCnt,
         pin,
         r.d0,
         if Samples(c, r) then Put(r.data, r.bitCnt, pin) else r.data,
         if r.state == Data && ready then false else if r.state == Stop && next != Stop then true else r.valid)
  }

  class UartRx {
    const cycles: nat
    var state: State
    var cycleCnt: Count16
    var bitCnt: Count3
    var rxD0: bool
    var rxD1: bool
    var rxData: Byte
    var rxDataValid: bool

    function Now(): Regs
      reads this
    {
      Regs(state, cycleCnt, bitCnt, rxD0, rxD1, rxData, rxDataValid)
    }

    constructor (cycles: nat)
      ensures this.cycles == cycles && Now() == RESET
    {
      this.cycles := cycles;
      state, cycleCnt, bitCnt := Idle, 0, 0;
      rxD0, rxD1, rxData, rxDataValid := false, false, ZERO, false;
    }

    method Clock(rxPin: bool, rxDataReady: bool)
      modifies this
      ensures Now() == Next(cycles, old(Now()), rxPin, rxDataReady)
    {
      hide Inc16;
      hide Inc3;
      hide Middle;
      hide Put;
      hide NextState;
      var last := cycleCnt == cycles - 1;
      var nextState := NextState(cycles, Now(), rxDataReady);
      var nextCycle, nextBit, nextData, nextValid := Inc16(cycleCnt), bitCnt, rxData, rxDataValid;
      if nextState != state || (state == RecByte && last) {
        nextCycle := 0;
      }
      if state != RecByte {
        nextBit := 0;
      } else if last {
        nextBit := Inc3(bitCnt);
      }
      if state == Data && rxDataReady {
        nextValid := false;
      } else if state == Stop && nextState != state {
        nextValid := true;
      }
      if state == RecByte && cycleCnt == Middle(cycles) {
        nextData := Put(rxData, bitCnt, rxPin);
      }
      ghost var after := Regs(nextState, nextCycle, nextBit, rxPin, rxD0, nextData, nextValid);
      assert after == Next(cycles, Now(), rxPin, rxDataReady);
      hide Next;
      state, cycleCnt, bitCnt := nextState, nextCycle, nextBit;
      rxD0, rxD1 := rxPin, rxD0;
      rxData, rxDataValid := nextData, nextValid;
    }
  }

  /** The flag is up exactly while a byte waits; the byte waits, unchanged, until the consumer is ready, and is
      handed over once. */
  lemma Handshake(c: nat, r: Regs, pin: bool, ready: bool)
    requires r.valid <==> r.state == Data
    ensures var after := Next(c, r, pin, ready);
            && (after.valid <==> after.state == Data)
            && (r.valid ==> after.valid == !ready && after.data == r.data)
            && (!r.valid && after.valid ==> after.data == r.data && r.state == Stop)
  {
    hide Put;
  }

  // ---- Whole runs, with a consumer that is always ready ----

  function After(c: nat, pins: seq<bool>): Regs {
    if pins == [] then RESET else
      var n := |pins| - 1;
      Next(c, After(c, pins[..n]), pins[n], true)
  }

  /** What a consumer that looks at the valid flag at every edge is given. */
  function Reports(c: nat, pins: seq<bool>): (reports: seq<Event>)
    ensures forall i | 0 <= i < |reports| :: reports[i].clock < |pins|
  {
    if pins == [] then [] else
      var n := |pins| - 1;
      var r, before := After(c, pins[..n]), Reports(c, pins[..n]);
      if r.valid then before + [Event(n, r.data)] else before
  }

  lemma RunNext(c: nat, pins: seq<bool>, n: nat)
    requires |pins| == n + 1
    ensures var r := After(c, pins[..n]);
            && After(c, pins) == Next(c, r, pins[n], true)
            && Reports(c, pins) == (var before := Reports(c, pins[..n]);
                                    if r.valid then before + [Event(n, r.data)] else before)
  {
    hide Next;
  }

  /** The receiver, clocked by a given line, with its reports collected. */
  method Listen(c: nat, pins: seq<bool>) returns (reports: seq<Event>)
    ensures reports == Reports(c, pins)
  {
    var rx := new UartRx(c);
    reports := [];
    for n := 0 to |pins|
      invariant rx.Now() == After(c, pins[..n]) && reports == Reports(c, pins[..n])
    {
      assert pins[..n + 1][..n] == pins[..n];
      RunNext(c, pins[..n + 1], n);
      hide Next;
      if rx.rxDataValid {
        reports := reports + [Event(n, rx.rxData)];
      }
      rx.Clock(pins[n], true);
    }
    assert pins[..|pins|] == pins;
  }

  // ---- Whole runs, with any consumer ----

  /** The registers after the edges with these levels of the line and of the consumer's ready flag. */
  function AfterWith(c: nat, pins: seq<bool>, ready: seq<bool>): Regs
    requires |pins| == |ready|
  {
    if pins == [] then RESET else
      var n := |pins| - 1;
      Next(c, AfterWith(c, pins[..n], ready[..n]), pins[n], ready[n])
  }

  /** The bytes handed over: flagged while the consumer is ready. */
  function Handed(c: nat, pins: seq<bool>, ready: seq<bool>): seq<Event>
    requires |pins| == |ready|
  {
    if pins == [] then [] else
      var n := |pins| - 1;
      var r, before := AfterWith(c, pins[..n], ready[..n]), Handed(c, pins[..n], ready[..n]);
      if r.valid && ready[n] then before + [Event(n, r.data)] else before
  }

  lemma RunWithNext(c: nat, pins: seq<bool>, ready: seq<bool>, n: nat)
    requires |pins| == |ready| == n + 1
    ensures var r, before := AfterWith(c, pins[..n], ready[..n]), Handed(c, pins[..n], ready[..n]);
            && AfterWith(c, pins, ready) == Next(c, r, pins[n], ready[n])
            && Handed(c, pins, ready) == if r.valid && ready[n] then before + [Event(n, r.data)] else before
  {
    hide Next;
  }

  lemma {:induction false} AlwaysReady(c: nat, pins: seq<bool>, ready: seq<bool>)
    requires |pins| == |ready| && forall k | 0 <= k < |ready| :: ready[k]
    ensures AfterWith(c, pins, ready) == After(c, pins) && Handed(c, pins, ready) == Reports(c, pins)
  {
    if pins != [] {
      var n := |pins| - 1;
      AlwaysReady(c, pins[..n], ready[..n]);
      hide Next;
    }
  }

  /** The receiver, clocked by a given line and a given consumer, with what is handed over collected. */
  method Serve(c: nat, pins: seq<bool>, ready: seq<bool>) returns (handed: seq<Event>)
    requires |pins| == |ready|
    ensures handed == Handed(c, pins, ready)
  {
    var rx := new UartRx(c);
    handed := [];
    for n := 0 to |pins|
      invariant rx.Now() == AfterWith(c, pins[..n], ready[..n]) && handed == Handed(c, pins[..n], ready[..n])
    {
      assert pins[..n + 1][..n] == pins[..n] && ready[..n + 1][..n] == ready[..n];
      RunWithNext(c, pins[..n + 1], ready[..n + 1], n);
      hide Next;
      hide AfterWith;
      hide Handed;
      if rx.rxDataValid && ready[n] {
        handed := handed + [Event(n, rx.rxData)];
      }
      rx.Clock(pins[n], ready[n]);
    }
    assert pins[..|pins|] == pins && ready[..|ready|] == ready;
  }

  // ---- Receiving one frame ----

  /** The age at which a received frame is reported. */
  function ReportAge(c: Cycles): nat {
    9 * c + c / 2 + 3
  }

  /** Waiting for a frame. */
  predicate Waiting(r: Regs) {
    r.state == Idle && !r.valid
  }

  /** The registers while a frame of this age arrives: the transmitter's clock, three clocks late. */
  predicate Receiving(c: Cycles, r: Regs, age: nat, byte: Byte) {
    && (r.valid <==> r.state == Data)
    && match r.state
       case Idle => false
       case Start => r.cycleCnt < c && age == 3 + r.cycleCnt
       case RecByte =>
         && r.cycleCnt < c && age == 3 + c + Slot(c, r.bitCnt) + r.cycleCnt
         && (forall i | 0 <= i < r.bitCnt :: r.data[i] == byte[i])
         && (c / 2 <= r.cycleCnt ==> r.data[r.bitCnt] == byte[r.bitCnt])
       case Stop => r.cycleCnt < c / 2 && age == 3 + 9 * c + r.cycleCnt && r.data == byte
       case Data => age == ReportAge(c) && r.data == byte
  }

  lemma FrameSeen(c: Cycles, r: Regs, byte: Byte, pin: bool)
    requires Waiting(r) && FallingEdge(r)
    ensures Receiving(c, Next(c, r, pin, true), 3, byte)
  {
  }

  lemma FrameAdvances(c: Cycles, r: Regs, age: nat, byte: Byte, pin: bool)
    requires Receiving(c, r, age, byte) && r.state != Data
    requires Samples(c, r) ==> pin == byte[r.bitCnt]
    ensures Receiving(c, Next(c, r, pin, true), age + 1, byte)
  {
    SlotFacts(c, r.bitCnt);
    hide Slot;
  }

  lemma ReportIsLast(c: Cycles, r: Regs, age: nat, byte: Byte)
    requires Receiving(c, r, age, byte)
    ensures 3 <= age <= ReportAge(c) && (r.valid <==> age == ReportAge(c)) && (r.valid <==> r.state == Data)
    ensures r.valid ==> r.data == byte
  {
    SlotFacts(c, r.bitCnt);
    hide Slot;
  }
}
