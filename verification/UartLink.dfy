/** A transmitter wired to a receiver on the same clock. */
module UartLink {
  import opened Serial
  import Tx = UartTx
  import Rx = UartRx

  /** Clocks from the edge that takes a byte to the edge that is given it. */
  function Latency(c: nat): nat {
    9 * c + c / 2 + 4
  }

  // ---- One clock edge of both ----

  /** The synchroniser holds the line one and two clocks ago; only what decides about falling edges matters. */
  predicate Synchronised(c: Cycles, age: nat, d0: bool, d1: bool) {
    && (age == 0 ==> d0)
    && (age == 1 ==> d0 && d1)
    && (age == 2 ==> !d0 && d1)
    && (9 * c + 2 <= age ==> d0)
    && (9 * c + 3 <= age ==> d1)
  }

  /** Transmitter and receiver when the latest byte was taken `age` clocks ago and `pending` bytes are not yet
      reported. With three or four cycles a bit, a byte can be taken while the one before is being reported. */
  predicate InStep(c: Cycles, t: Tx.Regs, r: Rx.Regs, age: nat, byte: Byte, pending: nat, previous: Byte) {
    && Tx.InFrame(c, t, age, byte)
    && Synchronised(c, age, r.d0, r.d1)
    && match pending
       case 0 => Rx.Waiting(r) && Rx.ReportAge(c) < age
       case 1 => if age < 3 then Rx.Waiting(r) else Rx.Receiving(c, r, age, byte)
       case 2 => age == 0 && 10 * c < Rx.ReportAge(c) && Rx.Receiving(c, r, Rx.ReportAge(c), previous)
       case _ => false
  }

  lemma LineAdvances(c: Cycles, t: Tx.Regs, age: nat, byte: Byte, d0: bool, d1: bool)
    requires Tx.InFrame(c, t, age, byte) && Synchronised(c, age, d0, d1)
    ensures Synchronised(c, age + 1, t.pin, d0)
    ensures 10 * c <= age ==> Synchronised(c, 0, t.pin, d0)
  {
    SlotFacts(c, t.bitCnt);
    hide Slot;
  }

  /** Half way through a bit, three clocks late, is still the same bit. */
  lemma SampleIsRight(c: Cycles, t: Tx.Regs, r: Rx.Regs, age: nat, byte: Byte)
    requires Tx.InFrame(c, t, age, byte) && Rx.Receiving(c, r, age, byte) && Rx.Samples(c, r)
    ensures t.pin == byte[r.bitCnt]
  {
    var b, offset := r.bitCnt, c / 2 + 2;
    SlotFacts(c, b);
    SlotFacts(c, t.bitCnt);
    assert age == c + Slot(c, b) + offset && offset <= c;
    if t.state == Tx.SendByte {
      if offset < c {
        SlotUnique(c, t.bitCnt, b, t.cycleCnt, offset);
      } else if b < 7 {
        SlotUnique(c, t.bitCnt, b + 1, t.cycleCnt, 0);
      }
    }
    hide Slot;
  }

  lemma ReportIsDue(c: Cycles, t: Tx.Regs, r: Rx.Regs, age: nat, byte: Byte, pending: nat, previous: Byte)
    requires InStep(c, t, r, age, byte, pending, previous)
    ensures pending <= 2
    ensures r.valid <==> pending == 2 || (pending == 1 && age == Rx.ReportAge(c))
    ensures r.valid ==> r.data == if pending == 2 then previous else byte
    ensures pending == 1 ==> age <= Rx.ReportAge(c)
    ensures pending == 2 ==> age == 0
  {
    if pending == 1 && 3 <= age {
      Rx.ReportIsLast(c, r, age, byte);
    } else if pending == 2 {
      Rx.ReportIsLast(c, r, Rx.ReportAge(c), previous);
    }
    hide Rx.Receiving;
    hide Tx.InFrame;
  }

  /** The receiver's half of a clock edge. */
  lemma ReceiverAdvances(c: Cycles, t: Tx.Regs, r: Rx.Regs, age: nat, byte: Byte)
    requires Tx.InFrame(c, t, age, byte) && Rx.Receiving(c, r, age, byte)
    ensures var after := Rx.Next(c, r, t.pin, true);
            if r.valid then Rx.Waiting(after) else Rx.Receiving(c, after, age + 1, byte)
  {
    Rx.ReportIsLast(c, r, age, byte);
    if r.state != Rx.Data {
      if Rx.Samples(c, r) {
        SampleIsRight(c, t, r, age, byte);
      }
      Rx.FrameAdvances(c, r, age, byte, t.pin);
    }
    hide Rx.Receiving;
  }

  lemma ReceiverWaits(c: Cycles, r: Rx.Regs, byte: Byte, pin: bool)
    requires Rx.Waiting(r)
    ensures var after := Rx.Next(c, r, pin, true);
            if Rx.FallingEdge(r) then Rx.Receiving(c, after, 3, byte) else Rx.Waiting(after)
  {
    if Rx.FallingEdge(r) {
      Rx.FrameSeen(c, r, byte, pin);
    }
  }

  lemma ReceiverReports(c: Cycles, r: Rx.Regs, age: nat, byte: Byte, pin: bool)
    requires Rx.Receiving(c, r, age, byte) && r.valid
    ensures Rx.Waiting(Rx.Next(c, r, pin, true))
  {
  }

  lemma SynchroniserShifts(c: Cycles, r: Rx.Regs, pin: bool)
    ensures var after := Rx.Next(c, r, pin, true); after.d0 == pin && after.d1 == r.d0
  {
  }

  /** An edge at which no byte is taken. */
  lemma StepPasses(c: Cycles, t: Tx.Regs, r: Rx.Regs, age: nat, byte: Byte, pending: nat, previous: Byte,
                   input: Tx.Input)
    requires InStep(c, t, r, age, byte, pending, previous) && !Tx.Accepts(t, input)
    requires r.valid ==> 1 <= pending
    ensures InStep(c, Tx.Next(c, t, input), Rx.Next(c, r, t.pin, true), age + 1, byte,
                   if r.valid then pending - 1 else pending, previous)
  {
    ReportIsDue(c, t, r, age, byte, pending, previous);
    Tx.FrameAdvances(c, t, age, byte, input);
    LineAdvances(c, t, age, byte, r.d0, r.d1);
    SynchroniserShifts(c, r, t.pin);
    if pending == 2 {
      ReceiverReports(c, r, Rx.ReportAge(c), previous, t.pin);
    } else if pending == 1 && 3 <= age {
      ReceiverAdvances(c, t, r, age, byte);
    } else {
      ReceiverWaits(c, r, byte, t.pin);
    }
    hide Rx.Receiving;
    hide Tx.InFrame;
    hide Tx.Next;
    hide Rx.Next;
    hide Rx.Waiting;
  }

  /** An edge at which a byte is taken. */
  lemma StepTakes(c: Cycles, t: Tx.Regs, r: Rx.Regs, age: nat, byte: Byte, pending: nat, previous: Byte,
                  input: Tx.Input)
    requires InStep(c, t, r, age, byte, pending, previous) && Tx.Accepts(t, input)
    requires r.valid ==> 1 <= pending
    ensures InStep(c, Tx.Next(c, t, input), Rx.Next(c, r, t.pin, true), 0, input.data,
                   if r.valid then pending else pending + 1, byte)
    ensures pending == 1 && !r.valid ==> age + 1 == Rx.ReportAge(c)
  {
    ReportIsDue(c, t, r, age, byte, pending, previous);
    Tx.IdleIsOld(c, t, age, byte);
    Tx.FrameStarts(c, t, input);
    LineAdvances(c, t, age, byte, r.d0, r.d1);
    SynchroniserShifts(c, r, t.pin);
    if pending == 1 && 3 <= age {
      ReceiverAdvances(c, t, r, age, byte);
    } else {
      ReceiverWaits(c, r, byte, t.pin);
    }
    hide Rx.Receiving;
    hide Tx.InFrame;
    hide Tx.Next;
    hide Rx.Next;
    hide Rx.Waiting;
  }

  // ---- Whole runs ----

  predicate Prefix(taken: seq<Event>, reports: seq<Event>, latency: nat) {
    |reports| <= |taken| && forall i | 0 <= i < |reports| :: reports[i] == Delayed(taken[i], latency)
  }

  /** Reports are the bytes taken, in order, each after exactly the latency; what is missing is not yet due. */
  predicate Delivers(taken: seq<Event>, reports: seq<Event>, latency: nat, n: nat) {
    && Prefix(taken, reports, latency)
    && (forall i | |reports| <= i < |taken| :: n <= taken[i].clock + latency)
  }

  /** The registers after `n` edges, when these bytes have been taken and `pending` of them are not yet reported. */
  predicate Present(c: Cycles, n: nat, t: Tx.Regs, r: Rx.Regs, taken: seq<Event>, pending: nat) {
    if taken == [] then
      t.state == Tx.Idle && t.pin && Rx.Waiting(r) && (r.d1 ==> r.d0)
    else
      var k := |taken| - 1;
      && taken[k].clock < n
      && InStep(c, t, r, n - 1 - taken[k].clock, taken[k].byte, pending, if k == 0 then ZERO else taken[k - 1].byte)
      && pending <= |taken|
      && (pending == 2 ==> taken[k - 1].clock + Latency(c) == n)
  }

  predicate Tracks(c: Cycles, n: nat, t: Tx.Regs, r: Rx.Regs, taken: seq<Event>, reports: seq<Event>) {
    Prefix(taken, reports, Latency(c)) && Present(c, n, t, r, taken, |taken| - |reports|)
  }

  /** What is reported now is the first byte that is still pending. */
  lemma PresentReport(c: Cycles, n: nat, t: Tx.Regs, r: Rx.Regs, taken: seq<Event>, pending: nat)
    requires Present(c, n, t, r, taken, pending) && pending <= |taken|
    ensures r.valid ==> 1 <= pending && Event(n, r.data) == Delayed(taken[|taken| - pending], Latency(c))
    ensures forall i | |taken| - pending <= i < |taken| :: n <= taken[i].clock + Latency(c)
  {
    if taken != [] {
      var k := |taken| - 1;
      ReportIsDue(c, t, r, n - 1 - taken[k].clock, taken[k].byte, pending, if k == 0 then ZERO else taken[k - 1].byte);
      hide InStep;
    }
  }

  lemma TracksDelivers(c: Cycles, n: nat, t: Tx.Regs, r: Rx.Regs, taken: seq<Event>, reports: seq<Event>)
    requires Tracks(c, n, t, r, taken, reports)
    ensures Delivers(taken, reports, Latency(c), n)
  {
    PresentReport(c, n, t, r, taken, |taken| - |reports|);
    hide Present;
  }

  lemma FirstFrame(c: Cycles, n: nat, t: Tx.Regs, r: Rx.Regs, input: Tx.Input)
    requires Present(c, n, t, r, [], 0)
    ensures var taken := if Tx.Accepts(t, input) then [Event(n, input.data)] else [];
            Present(c, n + 1, Tx.Next(c, t, input), Rx.Next(c, r, t.pin, true), taken, |taken|)
    ensures !r.valid
  {
    SynchroniserShifts(c, r, t.pin);
    ReceiverWaits(c, r, ZERO, t.pin);
    if Tx.Accepts(t, input) {
      Tx.FrameStarts(c, t, input);
      hide Tx.InFrame;
      hide Tx.Next;
    }
    hide Rx.Next;
    hide Rx.Receiving;
  }

  lemma PresentNext(c: Cycles, n: nat, t: Tx.Regs, r: Rx.Regs, taken: seq<Event>, pending: nat, input: Tx.Input)
    requires Present(c, n, t, r, taken, pending) && taken != []
    requires r.valid ==> 1 <= pending
    ensures var left := if r.valid then pending - 1 else pending;
            if Tx.Accepts(t, input)
            then Present(c, n + 1, Tx.Next(c, t, input), Rx.Next(c, r, t.pin, true),
                         taken + [Event(n, input.data)], left + 1)
            else Present(c, n + 1, Tx.Next(c, t, input), Rx.Next(c, r, t.pin, true), taken, left)
  {
    var k := |taken| - 1;
    var age, byte, previous := n - 1 - taken[k].clock, taken[k].byte, if k == 0 then ZERO else taken[k - 1].byte;
    ReportIsDue(c, t, r, age, byte, pending, previous);
    hide InStep;
    hide Tx.Next;
    hide Rx.Next;
    hide Tx.Accepts;
    if Tx.Accepts(t, input) {
      StepTakes(c, t, r, age, byte, pending, previous, input);
    } else {
      StepPasses(c, t, r, age, byte, pending, previous, input);
    }
  }

  lemma TracksNext(c: Cycles, n: nat, t: Tx.Regs, r: Rx.Regs, taken: seq<Event>, reports: seq<Event>,
                   input: Tx.Input)
    requires Tracks(c, n, t, r, taken, reports)
    ensures Tracks(c, n + 1, Tx.Next(c, t, input), Rx.Next(c, r, t.pin, true),
                   if Tx.Accepts(t, input) then taken + [Event(n, input.data)] else taken,
                   if r.valid then reports + [Event(n, r.data)] else reports)
  {
    hide *;
    TracksIs(c, n, t, r, taken, reports);
    var pending := |taken| - |reports|;
    PresentReport(c, n, t, r, taken, pending);
    var more := if Tx.Accepts(t, input) then taken + [Event(n, input.data)] else taken;
    var told := if r.valid then reports + [Event(n, r.data)] else reports;
    var left := if r.valid then pending - 1 else pending;
    if r.valid {
      PrefixReport(taken, reports, Event(n, r.data), Latency(c));
    }
    PrefixTake(taken, told, Event(n, input.data), Latency(c));
    if taken == [] {
      FirstFrame(c, n, t, r, input);
      assert taken + [Event(n, input.data)] == [Event(n, input.data)];
    } else {
      PresentNext(c, n, t, r, taken, pending, input);
    }
    assert |more| - |told| == if Tx.Accepts(t, input) then left + 1 else left;
    TracksIs(c, n + 1, Tx.Next(c, t, input), Rx.Next(c, r, t.pin, true), more, told);
  }

  lemma TracksIs(c: Cycles, n: nat, t: Tx.Regs, r: Rx.Regs, taken: seq<Event>, reports: seq<Event>)
    ensures Prefix(taken, reports, Latency(c)) ==> |reports| <= |taken|
    ensures Tracks(c, n, t, r, taken, reports)
       <==> Prefix(taken, reports, Latency(c)) && Present(c, n, t, r, taken, |taken| - |reports|)
  {
    hide Present;
  }

  lemma PrefixTake(taken: seq<Event>, reports: seq<Event>, e: Event, latency: nat)
    requires Prefix(taken, reports, latency)
    ensures Prefix(taken + [e], reports, latency)
  {
  }

  lemma PrefixReport(taken: seq<Event>, reports: seq<Event>, e: Event, latency: nat)
    requires Prefix(taken, reports, latency) && |reports| < |taken| && e == Delayed(taken[|reports|], latency)
    ensures Prefix(taken, reports + [e], latency)
  {
    hide Delayed;
  }

  lemma TracksStart(c: Cycles)
    ensures Tracks(c, 0, Tx.After(c, []), Rx.After(c, Tx.Line(c, [])), Tx.Latched(c, []), Rx.Reports(c, Tx.Line(c, [])))
  {
  }

  lemma {:induction false} RunTracks(c: Cycles, inputs: seq<Tx.Input>)
    ensures Tracks(c, |inputs|, Tx.After(c, inputs), Rx.After(c, Tx.Line(c, inputs)),
                   Tx.Latched(c, inputs), Rx.Reports(c, Tx.Line(c, inputs)))
  {
    hide *;
    if inputs == [] {
      TracksStart(c);
    } else {
      var n := |inputs| - 1;
      var before, pins := inputs[..n], Tx.Line(c, inputs);
      Tx.RunNext(c, inputs, n);
      Rx.RunNext(c, pins, n);
      RunTracks(c, before);
      TracksNext(c, n, Tx.After(c, before), Rx.After(c, Tx.Line(c, before)),
                 Tx.Latched(c, before), Rx.Reports(c, Tx.Line(c, before)), inputs[n]);
    }
  }

  /** For every schedule of offered bytes: the receiver hands over exactly the bytes taken, none lost, repeated,
      altered, reordered or invented, each exactly one latency after it was taken. */
  lemma LinkDelivers(c: Cycles, inputs: seq<Tx.Input>)
    ensures Delivers(Tx.Offered(c, inputs), Rx.Reports(c, Tx.Line(c, inputs)), Latency(c), |inputs|)
  {
    RunTracks(c, inputs);
    TracksDelivers(c, |inputs|, Tx.After(c, inputs), Rx.After(c, Tx.Line(c, inputs)),
                   Tx.Latched(c, inputs), Rx.Reports(c, Tx.Line(c, inputs)));
    Tx.LatchedIsOffered(c, inputs);
  }

  /** Reports that are delivered onwards are delivered after the sum of the latencies. */
  lemma DeliversOnwards(a: seq<Event>, b: seq<Event>, d: seq<Event>, first: nat, second: nat, n: nat)
    requires Delivers(a, b, first, n) && Delivers(b, d, second, n)
    ensures Delivers(a, d, first + second, n)
  {
    forall i | 0 <= i < |d| ensures d[i] == Delayed(a[i], first + second) {
      assert b[i] == Delayed(a[i], first);
    }
    forall i | |d| <= i < |a| ensures n <= a[i].clock + (first + second) {
      if i < |b| {
        assert b[i] == Delayed(a[i], first);
      }
    }
  }

  /** The wiring, clocked. */
  method Simulate(c: Cycles, inputs: seq<Tx.Input>) returns (reports: seq<Event>)
    ensures Delivers(Tx.Offered(c, inputs), reports, Latency(c), |inputs|)
  {
    var pins := Tx.Drive(c, inputs);
    reports := Rx.Listen(c, pins);
    LinkDelivers(c, inputs);
  }
}
