/** The echo: a receiver, a holding register for one byte, and a transmitter on the same clock. */
module UartEcho {
  import opened Serial
  import opened UartLink
  import Tx = UartTx
  import Rx = UartRx

  /** `held` is what the transmitter is offered: a byte, and whether it is still to be taken. */
  datatype Regs = Regs(rx: Rx.Regs, held: Tx.Input, tx: Tx.Regs)

  const RESET := Regs(Rx.RESET, Tx.Input(ZERO, false), Tx.RESET)

  // ---- One clock edge ----

  function NextHeld(r: Regs): Tx.Input {
    if r.rx.valid then Tx.Input(r.rx.data, true)
    else if r.held.valid && r.tx.ready then Tx.Input(r.held.data, false)
    else r.held
  }

  function Next(c: nat, r: Regs, pin: bool): Regs {
    Regs(Rx.Next(c, r.rx, pin, true), NextHeld(r), Tx.Next(c, r.tx, r.held))
  }

  /** A byte arrives while the holding register is still occupied. */
  predicate Overwrites(r: Regs) {
    r.rx.valid && r.held.valid
  }

  class Uart {
    const rx: Rx.UartRx
    const tx: Tx.UartTx
    var txData: Byte
    var txDataValid: bool

    predicate Valid()
      reads this, rx, tx
    {
      rx.cycles == tx.cycles
    }

    function Now(): Regs
      reads this, rx, tx
    {
      Regs(rx.Now(), Tx.Input(txData, txDataValid), tx.Now())
    }

    constructor (cycles: nat)
      ensures Valid() && fresh(rx) && fresh(tx) && rx.cycles == cycles && Now() == RESET
    {
      rx := new Rx.UartRx(cycles);
      tx := new Tx.UartTx(cycles);
      txData, txDataValid := ZERO, false;
    }

    method Clock(uartRx: bool)
      requires Valid()
      modifies this, rx, tx
      ensures Now() == Next(rx.cycles, old(Now()), uartRx)
    {
      hide Rx.Next;
      hide Tx.Next;
      var data, valid, ready := txData, txDataValid, tx.txDataReady;
      if rx.rxDataValid {
        txData, txDataValid := rx.rxData, true;
      } else if valid && ready {
        txDataValid := false;
      }
      rx.Clock(uartRx, true);
      tx.Clock(data, valid);
    }
  }

  // ---- Whole runs ----

  function After(c: nat, pins: seq<bool>): Regs {
    if pins == [] then RESET else
      var n := |pins| - 1;
      Next(c, After(c, pins[..n]), pins[n])
  }

  /** What the transmitter is offered at each edge. */
  function Held(c: nat, pins: seq<bool>): (inputs: seq<Tx.Input>)
    ensures |inputs| == |pins|
  {
    if pins == [] then [] else
      var n := |pins| - 1;
      Held(c, pins[..n]) + [After(c, pins[..n]).held]
  }

  /** The outgoing line just before each edge. */
  function Line(c: nat, pins: seq<bool>): (out: seq<bool>)
    ensures |out| == |pins|
  {
    if pins == [] then [] else
      var n := |pins| - 1;
      Line(c, pins[..n]) + [After(c, pins[..n]).tx.pin]
  }

  /** The bytes the echo takes for sending, and when. */
  function Taken(c: nat, pins: seq<bool>): seq<Event> {
    Tx.Latched(c, Held(c, pins))
  }

  lemma HeldNext(c: nat, pins: seq<bool>, n: nat)
    requires |pins| == n + 1
    ensures Held(c, pins)[..n] == Held(c, pins[..n]) && Held(c, pins)[n] == After(c, pins[..n]).held
    ensures Line(c, pins) == Line(c, pins[..n]) + [After(c, pins[..n]).tx.pin]
    ensures After(c, pins) == Next(c, After(c, pins[..n]), pins[n])
  {
    hide Next;
  }

  /** The parts run as they would on their own. */
  lemma {:induction false} Parts(c: nat, pins: seq<bool>)
    ensures After(c, pins).rx == Rx.After(c, pins)
    ensures After(c, pins).tx == Tx.After(c, Held(c, pins))
    ensures Line(c, pins) == Tx.Line(c, Held(c, pins))
  {
    if pins != [] {
      var n := |pins| - 1;
      Parts(c, pins[..n]);
      HeldNext(c, pins, n);
      Rx.RunNext(c, pins, n);
      Tx.RunNext(c, Held(c, pins), n);
      var line, inner := Line(c, pins), Tx.Line(c, Held(c, pins));
      assert line[..n] == inner[..n] && line[n] == inner[n];
      hide *;
    }
  }

  // ---- Keeping up with a transmitter of the same speed ----

  /** Events at the distance a transmitter keeps between the bytes it takes. */
  predicate Spaced(c: nat, events: seq<Event>) {
    forall i | 0 < i < |events| :: events[i - 1].clock + 10 * c < events[i].clock
  }

  /** The state after `n` edges: the holding register is occupied for the one clock that follows a report. */
  predicate KeepsUp(c: Cycles, n: nat, r: Regs, reports: seq<Event>, taken: seq<Event>) {
    && Tx.Follows(c, r.tx, n, taken)
    && Prefix(reports, taken, 1)
    && |reports| == |taken| + (if r.held.valid then 1 else 0)
    && (r.held.valid ==> 1 <= n && Event(n - 1, r.held.data) == reports[|reports| - 1])
  }

  /** If a byte is held, the transmitter takes it at this very edge. */
  lemma HeldIsTaken(c: Cycles, n: nat, r: Regs, reports: seq<Event>, taken: seq<Event>)
    requires KeepsUp(c, n, r, reports, taken) && Spaced(c, reports)
    ensures Tx.Accepts(r.tx, r.held) <==> r.held.valid
    ensures r.held.valid ==> r.tx.ready
  {
    Tx.FollowsNext(c, r.tx, n, taken, r.held);
    if r.held.valid && taken != [] {
      var k := |taken| - 1;
      assert taken[k] == Delayed(reports[k], 1);
      assert reports[k].clock + 10 * c < reports[k + 1].clock;
    }
  }

  lemma SpacedLast(c: Cycles, events: seq<Event>, e: Event)
    requires Spaced(c, events + [e]) && events != []
    ensures events[|events| - 1].clock + 10 * c < e.clock
  {
    var all := events + [e];
    assert all[|events| - 1].clock + 10 * c < all[|events|].clock;
  }

  lemma KeepsUpNext(c: Cycles, n: nat, r: Regs, pin: bool, reports: seq<Event>, taken: seq<Event>)
    requires KeepsUp(c, n, r, reports, taken)
    requires var told := if r.rx.valid then reports + [Event(n, r.rx.data)] else reports; Spaced(c, told)
    ensures !Overwrites(r)
    ensures KeepsUp(c, n + 1, Next(c, r, pin),
                    if r.rx.valid then reports + [Event(n, r.rx.data)] else reports,
                    if Tx.Accepts(r.tx, r.held) then taken + [Event(n, r.held.data)] else taken)
  {
    var told := if r.rx.valid then reports + [Event(n, r.rx.data)] else reports;
    assert forall i | 0 <= i < |reports| :: told[i] == reports[i];
    HeldIsTaken(c, n, r, reports, taken);
    Tx.FollowsNext(c, r.tx, n, taken, r.held);
    if r.rx.valid && reports != [] {
      SpacedLast(c, reports, Event(n, r.rx.data));
    }
    hide Tx.Follows;
    hide Tx.Next;
    hide Rx.Next;
    hide Tx.Accepts;
  }

  lemma {:induction false} RunKeepsUp(c: Cycles, pins: seq<bool>)
    requires Spaced(c, Rx.Reports(c, pins))
    ensures KeepsUp(c, |pins|, After(c, pins), Rx.Reports(c, pins), Taken(c, pins))
    ensures pins != [] ==> !Overwrites(After(c, pins[..|pins| - 1]))
  {
    if pins != [] {
      var n := |pins| - 1;
      var before := pins[..n];
      Rx.RunNext(c, pins, n);
      Tx.RunNext(c, Held(c, pins), n);
      HeldNext(c, pins, n);
      Parts(c, before);
      assert Taken(c, before) == Tx.Latched(c, Held(c, before)) && Taken(c, pins) == Tx.Latched(c, Held(c, pins));
      ShorterIsSpaced(c, pins, n);
      hide *;
      RunKeepsUp(c, before);
      KeepsUpNext(c, n, After(c, before), pins[n], Rx.Reports(c, before), Taken(c, before));
    }
  }

  lemma {:induction false} NeverOverwrites(c: Cycles, pins: seq<bool>, k: nat)
    requires Spaced(c, Rx.Reports(c, pins)) && k < |pins|
    ensures !Overwrites(After(c, pins[..k]))
  {
    hide *;
    if k < |pins| - 1 {
      ShorterIsSpaced(c, pins, |pins| - 1);
      NeverOverwrites(c, pins[..|pins| - 1], k);
      assert pins[..|pins| - 1][..k] == pins[..k];
    } else {
      RunKeepsUp(c, pins);
    }
  }

  lemma ShorterIsSpaced(c: Cycles, pins: seq<bool>, n: nat)
    requires |pins| == n + 1 && Spaced(c, Rx.Reports(c, pins))
    ensures Spaced(c, Rx.Reports(c, pins[..n]))
  {
    Rx.RunNext(c, pins, n);
    var reports, before := Rx.Reports(c, pins), Rx.Reports(c, pins[..n]);
    assert forall i | 0 <= i < |before| :: reports[i] == before[i];
  }

  /** Fed by anything whose reports are spaced like a transmitter's, the echo never overwrites the byte it holds,
      and takes each reported byte exactly once, in order, one clock after its report. */
  lemma EchoKeepsUp(c: Cycles, pins: seq<bool>)
    requires Spaced(c, Rx.Reports(c, pins))
    ensures forall k | 0 <= k < |pins| :: !Overwrites(After(c, pins[..k]))
    ensures Delivers(Rx.Reports(c, pins), Taken(c, pins), 1, |pins|)
  {
    RunKeepsUp(c, pins);
    forall k | 0 <= k < |pins| ensures !Overwrites(After(c, pins[..k])) {
      NeverOverwrites(c, pins, k);
    }
    hide Taken;
    hide Tx.Follows;
    hide Rx.Reports;
    hide Overwrites;
  }

  lemma ReportsAreSpaced(c: Cycles, inputs: seq<Tx.Input>)
    ensures Spaced(c, Rx.Reports(c, Tx.Line(c, inputs)))
  {
    LinkDelivers(c, inputs);
    var taken, reports := Tx.Offered(c, inputs), Rx.Reports(c, Tx.Line(c, inputs));
    forall i | 0 < i < |reports| ensures reports[i - 1].clock + 10 * c < reports[i].clock {
      assert taken[i - 1].clock + 10 * c < taken[i].clock;
      assert reports[i - 1] == Delayed(taken[i - 1], Latency(c)) && reports[i] == Delayed(taken[i], Latency(c));
    }
  }

  /** The whole loop: a transmitter, the echo and a receiver on one clock, for every schedule of offered bytes.
      There is no slack: the echo is ready again exactly when the next byte can arrive. */
  lemma LoopDelivers(c: Cycles, inputs: seq<Tx.Input>)
    ensures var pins := Tx.Line(c, inputs);
            && (forall k | 0 <= k < |pins| :: !Overwrites(After(c, pins[..k])))
            && Delivers(Tx.Offered(c, inputs), Rx.Reports(c, Line(c, pins)), 2 * Latency(c) + 1, |inputs|)
  {
    hide *;
    var pins := Tx.Line(c, inputs);
    var reports, taken, echoed := Rx.Reports(c, pins), Taken(c, pins), Rx.Reports(c, Line(c, pins));
    ReportsAreSpaced(c, inputs);
    EchoKeepsUp(c, pins);
    LinkDelivers(c, inputs);
    EchoDelivers(c, pins);
    DeliversOnwards(reports, taken, echoed, 1, Latency(c), |inputs|);
    DeliversOnwards(Tx.Offered(c, inputs), reports, echoed, Latency(c), 1 + Latency(c), |inputs|);
  }

  /** What the echo takes reaches a receiver on its line. */
  lemma EchoDelivers(c: Cycles, pins: seq<bool>)
    ensures Delivers(Taken(c, pins), Rx.Reports(c, Line(c, pins)), Latency(c), |pins|)
  {
    hide *;
    Parts(c, pins);
    LinkDelivers(c, Held(c, pins));
    Tx.LatchedIsOffered(c, Held(c, pins));
    TakenIs(c, pins);
  }

  lemma TakenIs(c: Cycles, pins: seq<bool>)
    ensures Taken(c, pins) == Tx.Latched(c, Held(c, pins))
  {
  }

  /** The board, clocked by a given line. */
  method Echo(c: nat, pins: seq<bool>) returns (out: seq<bool>)
    ensures out == Line(c, pins)
  {
    var board := new Uart(c);
    out := [];
    for n := 0 to |pins|
      invariant board.Valid() && board.rx.cycles == c && fresh(board.rx) && fresh(board.tx)
      invariant board.Now() == After(c, pins[..n]) && out == Line(c, pins[..n])
    {
      assert pins[..n + 1][..n] == pins[..n];
      HeldNext(c, pins[..n + 1], n);
      hide After;
      hide Line;
      hide Next;
      out := out + [board.tx.txReg];
      board.Clock(pins[n]);
    }
    assert pins[..|pins|] == pins;
  }

  /** The loop, clocked. */
  method Simulate(c: Cycles, inputs: seq<Tx.Input>) returns (reports: seq<Event>)
    ensures Delivers(Tx.Offered(c, inputs), reports, 2 * Latency(c) + 1, |inputs|)
  {
    var pins := Tx.Drive(c, inputs);
    var out := Echo(c, pins);
    reports := Rx.Listen(c, out);
    LoopDelivers(c, inputs);
  }
}
