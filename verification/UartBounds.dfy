/** For how many clock cycles a bit the link works: from 3 to 65536, and for no other number. */
module UartBounds {
  import opened Serial
  import opened UartLink
  import Tx = UartTx
  import Rx = UartRx

  /** One byte of zeros, offered at the first clock. */
  function OneByte(n: nat): (inputs: seq<Tx.Input>)
    ensures |inputs| == n
  {
    seq(n, i => Tx.Input(ZERO, i == 0))
  }

  lemma OneByteShorter(n: nat)
    ensures OneByte(n + 1)[..n] == OneByte(n) && OneByte(n + 1)[n] == Tx.Input(ZERO, n == 0)
  {
  }

  lemma {:induction false} OneByteTaken(c: nat, n: nat)
    ensures Tx.Offered(c, OneByte(n)) == if n == 0 then [] else [Event(0, ZERO)]
  {
    if n != 0 {
      OneByteTaken(c, n - 1);
      OneByteShorter(n - 1);
    }
  }

  /** The registers on both sides before edge `n`. */
  predicate Reaches(c: nat, n: nat, t: Tx.Regs, r: Rx.Regs) {
    Tx.After(c, OneByte(n)) == t && Rx.After(c, Tx.Line(c, OneByte(n))) == r
  }

  lemma Clocked(c: nat, n: nat, t: Tx.Regs, r: Rx.Regs)
    requires Reaches(c, n, t, r)
    ensures Reaches(c, n + 1, Tx.Next(c, t, Tx.Input(ZERO, n == 0)), Rx.Next(c, r, t.pin, true))
  {
    OneByteShorter(n);
    Tx.RunNext(c, OneByte(n + 1), n);
    Rx.RunNext(c, Tx.Line(c, OneByte(n + 1)), n);
    hide Tx.Next;
    hide Rx.Next;
    hide Tx.After;
    hide Rx.After;
    hide Tx.Line;
    hide OneByte;
  }

  // ---- Two cycles a bit ----

  function Sender(state: Tx.State, cycle: Count16, bit: Count3, pin: bool): Tx.Regs {
    Tx.Regs(state, cycle, bit, ZERO, false, pin)
  }

  function Receiver(state: Rx.State, cycle: Count16, bit: Count3, d0: bool, d1: bool): Rx.Regs {
    Rx.Regs(state, cycle, bit, d0, d1, ZERO, false)
  }

  lemma StartSeen()
    ensures Reaches(2, 3, Sender(Tx.SendByte, 0, 0, false), Receiver(Rx.Idle, 3, 0, false, true))
  {
    assert Reaches(2, 0, Tx.RESET, Rx.RESET);
    hide Reaches;
    Clocked(2, 0, Tx.RESET, Rx.RESET);
    Clocked(2, 1, Sender(Tx.Start, 0, 0, true), Receiver(Rx.Idle, 1, 0, true, false));
    Clocked(2, 2, Sender(Tx.Start, 1, 0, false), Receiver(Rx.Idle, 2, 0, true, true));
  }

  lemma FirstSample()
    ensures Reaches(2, 6, Sender(Tx.SendByte, 1, 1, false), Receiver(Rx.RecByte, 0, 0, false, false))
  {
    StartSeen();
    hide Reaches;
    Clocked(2, 3, Sender(Tx.SendByte, 0, 0, false), Receiver(Rx.Idle, 3, 0, false, true));
    Clocked(2, 4, Sender(Tx.SendByte, 1, 0, false), Receiver(Rx.Start, 0, 0, false, false));
    Clocked(2, 5, Sender(Tx.SendByte, 0, 1, false), Receiver(Rx.Start, 1, 0, false, false));
  }

  lemma SenderInByte(b: Count3, input: Tx.Input)
    requires 1 <= b <= 6
    ensures Tx.Next(2, Sender(Tx.SendByte, 1, b, false), input) == Sender(Tx.SendByte, 0, b + 1, false)
    ensures Tx.Next(2, Sender(Tx.SendByte, 0, b + 1, false), input) == Sender(Tx.SendByte, 1, b + 1, false)
  {
  }

  lemma ReceiverInByte(b: Count3)
    requires b <= 5
    ensures Rx.Next(2, Receiver(Rx.RecByte, 0, b, false, false), false, true)
         == Receiver(Rx.RecByte, 1, b, false, false)
    ensures Rx.Next(2, Receiver(Rx.RecByte, 1, b, false, false), false, true)
         == Receiver(Rx.RecByte, 0, b + 1, false, false)
  {
    assert ZERO[b := false] == ZERO;
  }

  lemma OneBit(n: nat, b: Count3)
    requires 0 < n && 1 <= b <= 6
    requires Reaches(2, n, Sender(Tx.SendByte, 1, b, false), Receiver(Rx.RecByte, 0, b - 1, false, false))
    ensures Reaches(2, n + 2, Sender(Tx.SendByte, 1, b + 1, false), Receiver(Rx.RecByte, 0, b, false, false))
  {
    var s, t, r := Sender(Tx.SendByte, 1, b, false), Sender(Tx.SendByte, 0, b + 1, false), b - 1;
    assert !s.pin && !t.pin;
    hide *;
    SenderInByte(b, Tx.Input(ZERO, false));
    ReceiverInByte(r);
    Clocked(2, n, s, Receiver(Rx.RecByte, 0, r, false, false));
    Clocked(2, n + 1, t, Receiver(Rx.RecByte, 1, r, false, false));
  }

  /** Every sample falls into the bit after the one it is taken for. */
  lemma {:induction false} SampleOfBit(b: nat)
    requires b <= 6
    ensures Reaches(2, 6 + 2 * b, Sender(Tx.SendByte, 1, b + 1, false), Receiver(Rx.RecByte, 0, b, false, false))
  {
    hide *;
    if b == 0 {
      FirstSample();
    } else {
      SampleOfBit(b - 1);
      OneBit(4 + 2 * b, b);
    }
  }

  /** One more clock, given what it does to either side. */
  lemma Turn(n: nat, t: Tx.Regs, r: Rx.Regs, t': Tx.Regs, r': Rx.Regs)
    requires 0 < n && Reaches(2, n, t, r)
    requires Tx.Next(2, t, Tx.Input(ZERO, false)) == t' && Rx.Next(2, r, t.pin, true) == r'
    ensures Reaches(2, n + 1, t', r')
  {
    hide *;
    Clocked(2, n, t, r);
  }

  /** The receiver with the byte that it is going to report. */
  function Misled(state: Rx.State, cycle: Count16, bit: Count3, d0: bool, d1: bool, valid: bool): Rx.Regs {
    Rx.Regs(state, cycle, bit, d0, d1, ZERO[7 := true], valid)
  }

  function Rests(cycle: Count16): Tx.Regs {
    Tx.Regs(Tx.Idle, cycle, 0, ZERO, true, true)
  }

  lemma ReceiverAtEnd()
    ensures Rx.Next(2, Receiver(Rx.RecByte, 0, 6, false, false), false, true)
         == Receiver(Rx.RecByte, 1, 6, false, false)
    ensures Rx.Next(2, Receiver(Rx.RecByte, 1, 6, false, false), false, true)
         == Receiver(Rx.RecByte, 0, 7, false, false)
    ensures Rx.Next(2, Receiver(Rx.RecByte, 0, 7, false, false), true, true)
         == Misled(Rx.RecByte, 1, 7, true, false, false)
    ensures Rx.Next(2, Misled(Rx.RecByte, 1, 7, true, false, false), true, true)
         == Misled(Rx.Stop, 0, 0, true, true, false)
    ensures Rx.Next(2, Misled(Rx.Stop, 0, 0, true, true, false), true, true) == Misled(Rx.Data, 0, 0, true, true, true)
  {
    assert ZERO[6 := false] == ZERO;
  }

  lemma SenderAtEnd(input: Tx.Input)
    requires !input.valid
    ensures Tx.Next(2, Sender(Tx.SendByte, 1, 7, false), input) == Sender(Tx.Stop, 0, 0, false)
    ensures Tx.Next(2, Sender(Tx.Stop, 0, 0, false), input) == Sender(Tx.Stop, 1, 0, true)
    ensures Tx.Next(2, Sender(Tx.Stop, 1, 0, true), input) == Rests(0)
    ensures Tx.Next(2, Rests(0), input) == Rests(1) && Tx.Next(2, Rests(1), input) == Rests(2)
    ensures !Sender(Tx.SendByte, 1, 7, false).pin && !Sender(Tx.Stop, 0, 0, false).pin
    ensures Sender(Tx.Stop, 1, 0, true).pin && Rests(0).pin && Rests(1).pin
  {
  }

  /** The last one falls into the stop bit. */
  lemma StopBitSampled()
    ensures Rx.After(2, Tx.Line(2, OneByte(23))) == Misled(Rx.Data, 0, 0, true, true, true)
  {
    ReceiverAtEnd();
    SenderAtEnd(Tx.Input(ZERO, false));
    hide *;
    SampleOfBit(6);
    Turn(18, Sender(Tx.SendByte, 1, 7, false), Receiver(Rx.RecByte, 0, 6, false, false),
         Sender(Tx.Stop, 0, 0, false), Receiver(Rx.RecByte, 1, 6, false, false));
    Turn(19, Sender(Tx.Stop, 0, 0, false), Receiver(Rx.RecByte, 1, 6, false, false),
         Sender(Tx.Stop, 1, 0, true), Receiver(Rx.RecByte, 0, 7, false, false));
    Turn(20, Sender(Tx.Stop, 1, 0, true), Receiver(Rx.RecByte, 0, 7, false, false),
         Rests(0), Misled(Rx.RecByte, 1, 7, true, false, false));
    Turn(21, Rests(0), Misled(Rx.RecByte, 1, 7, true, false, false),
         Rests(1), Misled(Rx.Stop, 0, 0, true, true, false));
    Turn(22, Rests(1), Misled(Rx.Stop, 0, 0, true, true, false), Rests(2), Misled(Rx.Data, 0, 0, true, true, true));
    ReachesIs(23, Rests(2), Misled(Rx.Data, 0, 0, true, true, true));
  }

  lemma ReachesIs(n: nat, t: Tx.Regs, r: Rx.Regs)
    ensures Reaches(2, n, t, r) <==> Tx.After(2, OneByte(n)) == t && Rx.After(2, Tx.Line(2, OneByte(n))) == r
  {
  }

  lemma TwoIsTooFew()
    ensures !Delivers(Tx.Offered(2, OneByte(24)), Rx.Reports(2, Tx.Line(2, OneByte(24))), Latency(2), 24)
  {
    StopBitSampled();
    MisledIs();
    assert Latency(2) == 23;
    hide *;
    OneByteTaken(2, 24);
    OneByteShorter(23);
    Tx.RunNext(2, OneByte(24), 23);
    Rx.RunNext(2, Tx.Line(2, OneByte(24)), 23);
    WrongReport(Rx.Reports(2, Tx.Line(2, OneByte(23))), Event(23, ZERO[7 := true]));
  }

  lemma MisledIs()
    ensures var r := Misled(Rx.Data, 0, 0, true, true, true); r.valid && r.data == ZERO[7 := true]
  {
  }

  lemma WrongReport(reports: seq<Event>, last: Event)
    requires last.byte[7]
    ensures !Delivers([Event(0, ZERO)], reports + [last], 23, 24)
  {
    var taken, all := [Event(0, ZERO)], reports + [last];
    assert taken[0] == Event(0, ZERO) && !ZERO[7];
    assert reports == [] ==> all[0] == last;
  }

  // ---- Fewer than two, and more than the counter can count ----

  /** With fewer than two cycles the half-way mark lies before the first cycle; with more than 65536, a bit ends
      at a count that a sixteen-bit counter never shows. Then nothing is ever received. */
  lemma {:induction false} NothingReceived(c: nat, pins: seq<bool>)
    requires c < 2 || 0x1_0000 < c
    ensures Rx.Reports(c, pins) == []
    ensures var r := Rx.After(c, pins);
            !r.valid && r.state != Rx.Data && (0x1_0000 < c ==> r.state == Rx.Idle || r.state == Rx.Start)
  {
    if pins != [] {
      var n := |pins| - 1;
      NothingReceived(c, pins[..n]);
      Rx.RunNext(c, pins, n);
    }
  }

  /** The link keeps its promise for every schedule of offered bytes exactly for 3 to 65536 cycles a bit. */
  lemma CyclesExact(c: nat)
    ensures (forall inputs: seq<Tx.Input> ::
               Delivers(Tx.Offered(c, inputs), Rx.Reports(c, Tx.Line(c, inputs)), Latency(c), |inputs|))
       <==> 3 <= c <= 0x1_0000
  {
    if 3 <= c <= 0x1_0000 {
      forall inputs: seq<Tx.Input>
        ensures Delivers(Tx.Offered(c, inputs), Rx.Reports(c, Tx.Line(c, inputs)), Latency(c), |inputs|)
      {
        LinkDelivers(c, inputs);
      }
    } else if c == 2 {
      TwoIsTooFew();
    } else {
      var inputs := OneByte(Latency(c) + 1);
      OneByteTaken(c, |inputs|);
      NothingReceived(c, Tx.Line(c, inputs));
      hide *;
      NotDelivered(Tx.Offered(c, inputs), Latency(c));
    }
  }

  lemma NotDelivered(taken: seq<Event>, latency: nat)
    requires taken == [Event(0, ZERO)]
    ensures !Delivers(taken, [], latency, latency + 1)
  {
    assert taken[0].clock + latency == latency;
  }
}
