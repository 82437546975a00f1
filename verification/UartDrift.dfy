/** How far the pace of a sender may be off: bits that last `d` of the receiver's clocks instead of `c`. */
module UartDrift {
  import opened Serial
  import opened UartScan
  import Rx = UartRx

  predicate HoldsFor(pins: seq<bool>, low: nat, high: nat, level: bool)
    requires high <= |pins|
  {
    forall k | low <= k < high :: pins[k] == level
  }

  predicate CarriesBit(pins: seq<bool>, f: nat, d: nat, b: nat, level: bool) {
    && f + BitStart(d, b + 2) <= |pins|
    && HoldsFor(pins, f + BitStart(d, b + 1), f + BitStart(d, b + 2), level)
  }

  /** From a falling edge at `f` on, the line carries a byte: start bit, eight bits from the least significant, stop
      bit, of `d` clocks each. */
  predicate Carries(pins: seq<bool>, f: nat, d: nat, byte: Byte) {
    && 0 < f && 0 < d && f + 10 * d <= |pins| && pins[f - 1]
    && HoldsFor(pins, f, f + d, false)
    && (forall b | 0 <= b < 8 :: CarriesBit(pins, f, d, b, byte[b]))
    && HoldsFor(pins, f + 9 * d, f + 10 * d, true)
  }

  /** The sample of the last bit, eight and a half bits and a clock after the falling edge, falls into that bit. */
  predicate Tolerates(c: nat, d: nat) {
    8 * d <= 8 * c + c / 2 + 1 < 9 * d
  }

  lemma BitStartsAre(c: nat, b: nat)
    requires b <= 9
    ensures BitStart(c, b) == if b == 0 then 0 else if b == 1 then c else if b == 2 then 2 * c else if b == 3 then 3 * c
                          else if b == 4 then 4 * c else if b == 5 then 5 * c else if b == 6 then 6 * c
                          else if b == 7 then 7 * c else if b == 8 then 8 * c else 9 * c
  {
  }

  /** Then so do the samples of all bits before it. */
  lemma SampleInBit(c: nat, d: nat, f: nat, b: nat)
    requires 2 <= c && Tolerates(c, d) && b < 8
    ensures f + BitStart(d, b + 1) <= SampleEdge(c, f, b) < f + BitStart(d, b + 2)
  {
    BitStartsAre(c, b);
    BitStartsAre(d, b + 1);
    BitStartsAre(d, b + 2);
    hide BitStart;
  }

  lemma ReadsTolerated(c: nat, d: nat, pins: seq<bool>, f: nat, byte: Byte)
    requires 2 <= c && Tolerates(c, d) && Carries(pins, f, d, byte)
    ensures ByteAt(c, pins, f) == byte
  {
    forall b | 0 <= b < 8 ensures Level(c, pins, f, b) == byte[b] {
      SampleInBit(c, d, f, b);
      assert CarriesBit(pins, f, d, b, byte[b]);
    }
    hide Level;
    hide BitStart;
  }

  // ---- A line that is misread otherwise ----

  /** High, then low for so many clocks, then high. */
  function Pulse(low: nat, n: nat): (pins: seq<bool>)
    ensures |pins| == n
  {
    seq(n, k => k == 0 || low < k)
  }

  const LAST_BIT: Byte := [false, false, false, false, false, false, false, true]

  /** A pulse that is low up to a bit, the last one or the stop bit, carries a byte. */
  lemma PulseCarries(d: nat, n: nat, last: bool)
    requires 0 < d && 10 * d < n
    ensures Carries(Pulse(if last then 8 * d else 9 * d, n), 1, d, if last then LAST_BIT else ZERO)
  {
    var pins, byte := Pulse(if last then 8 * d else 9 * d, n), if last then LAST_BIT else ZERO;
    forall b | 0 <= b < 8 ensures CarriesBit(pins, 1, d, b, byte[b]) {
      BitStartsAre(d, b + 1);
      BitStartsAre(d, b + 2);
      hide BitStart;
    }
    assert HoldsFor(pins, 1, 1 + d, false) && HoldsFor(pins, 1 + 9 * d, 1 + 10 * d, true);
    hide CarriesBit;
  }

  lemma {:induction false} FirstStart(c: nat, pins: seq<bool>)
    requires 2 <= |pins| && pins[0] && !pins[1]
    ensures 1 in Starts(c, pins)
  {
    var n := |pins| - 1;
    StartsNext(c, pins, n);
    if n == 1 {
      StartsNext(c, pins[..1], 0);
      assert pins[..1][..0] == [];
    } else {
      FirstStart(c, pins[..n]);
      hide Starts;
    }
  }

  lemma Misread(c: nat, d: nat, low: nat, n: nat, byte: Byte)
    requires 2 <= c && ReportDelay(c) + 1 < n && 1 < n
    requires byte[7] != (low < SampleEdge(c, 1, 7))
    ensures Event(1 + ReportDelay(c), byte) !in Scan(c, Pulse(low, n))
  {
    var pins := Pulse(low, n);
    BitStartsAre(c, 7);
    assert Level(c, pins, 1, 7) != byte[7];
    forall i | 0 <= i < |Scan(c, pins)| ensures Scan(c, pins)[i] != Event(1 + ReportDelay(c), byte) {
      ReportIs(c, pins, i);
      hide Starts;
    }
    hide Scan;
  }

  lemma ReportedIfStarted(c: nat, pins: seq<bool>, f: nat)
    requires f in Starts(c, pins) && f + ReportDelay(c) < |pins|
    ensures Event(f + ReportDelay(c), ByteAt(c, pins, f)) in Scan(c, pins)
  {
    hide *;
    var i: nat :| i < |Starts(c, pins)| && Starts(c, pins)[i] == f;
    CompleteIf(c, pins, i);
    ReportIs(c, pins, i);
    assert Scan(c, pins)[i] in Scan(c, pins);
  }

  lemma CompleteIf(c: nat, pins: seq<bool>, i: nat)
    requires i < |Starts(c, pins)| && Starts(c, pins)[i] + ReportDelay(c) < |pins|
    ensures i < Complete(c, pins)
  {
    hide Starts;
    hide ReportDelay;
  }

  /** The bytes of a sender with this pace. */
  ghost predicate AllRead(c: nat, d: nat) {
    forall pins, f: nat, byte | Carries(pins, f, d, byte) && f in Starts(c, pins) && f + ReportDelay(c) < |pins| ::
      Event(f + ReportDelay(c), byte) in Scan(c, pins)
  }

  lemma AllTolerated(c: nat, d: nat)
    requires 2 <= c && Tolerates(c, d)
    ensures AllRead(c, d)
  {
    forall pins, f: nat, byte | Carries(pins, f, d, byte) && f in Starts(c, pins) && f + ReportDelay(c) < |pins|
      ensures Event(f + ReportDelay(c), byte) in Scan(c, pins)
    {
      ReadsTolerated(c, d, pins, f, byte);
      ReportedIfStarted(c, pins, f);
    }
  }

  lemma NotAllRead(c: nat, d: nat, pins: seq<bool>, byte: Byte)
    requires Carries(pins, 1, d, byte) && 1 in Starts(c, pins) && 1 + ReportDelay(c) < |pins|
    requires Event(1 + ReportDelay(c), byte) !in Scan(c, pins)
    ensures !AllRead(c, d)
  {
    hide Carries;
    hide Starts;
    hide Scan;
  }

  /** Whatever else is on the line, every frame of such a sender at which the receiver starts is read correctly if and
      only if the pace is within these bounds: for 434 clocks a bit, from 411 to 461. */
  lemma DriftExact(c: nat, d: nat)
    requires 2 <= c && 0 < d
    ensures AllRead(c, d) <==> 8 * d <= 8 * c + c / 2 + 1 < 9 * d
    ensures Tolerates(434, d) <==> 411 <= d <= 461
  {
    if Tolerates(c, d) {
      AllTolerated(c, d);
    } else {
      var n := 10 * d + ReportDelay(c) + 2;
      var late := 9 * d <= 8 * c + c / 2 + 1;
      var low, byte := if late then 9 * d else 8 * d, if late then ZERO else LAST_BIT;
      BitStartsAre(c, 7);
      PulseCarries(d, n, !late);
      FirstStart(c, Pulse(low, n));
      Misread(c, d, low, n, byte);
      NotAllRead(c, d, Pulse(low, n), byte);
    }
    hide AllRead;
    hide Carries;
    hide Starts;
    hide Scan;
  }
}
