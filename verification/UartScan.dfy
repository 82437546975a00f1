/** What the receiver makes of any line: a scan of the levels themselves, without a state machine. */
module UartScan {
  import opened Serial
  import Rx = UartRx

  /** The line is high at one edge and low at the next, which is `f`. */
  predicate Falls(pins: seq<bool>, f: nat) {
    0 < f < |pins| && pins[f - 1] && !pins[f]
  }

  /** Clocks from the falling edge that starts a frame to its report: nine and a half bits, and two for the delay. */
  function ReportDelay(c: nat): nat {
    9 * c + c / 2 + 2
  }

  /** Where frames start: at every falling edge, except before the frame that started last has been reported. */
  function Starts(c: nat, pins: seq<bool>): (s: seq<nat>)
    ensures forall i | 0 <= i < |s| :: Falls(pins, s[i])
    ensures forall i | 0 < i < |s| :: s[i - 1] + ReportDelay(c) <= s[i]
  {
    if pins == [] then [] else
      var n := |pins| - 1;
      var before := Starts(c, pins[..n]);
      assert forall f | Falls(pins[..n], f) :: Falls(pins, f);
      if Falls(pins, n) && (before == [] || before[|before| - 1] + ReportDelay(c) <= n) then before + [n] else before
  }

  /** How far bit `b` is from bit 0. */
  function BitStart(c: nat, b: nat): nat {
    c * b
  }

  /** Half way through bit `b` of the frame that started at `f`, at the pace of the receiver. */
  function SampleEdge(c: nat, f: nat, b: nat): nat {
    f + c + BitStart(c, b) + c / 2 + 1
  }

  predicate Level(c: nat, pins: seq<bool>, f: nat, b: nat) {
    SampleEdge(c, f, b) < |pins| && pins[SampleEdge(c, f, b)]
  }

  function ByteAt(c: nat, pins: seq<bool>, f: nat): (byte: Byte)
    ensures forall b | 0 <= b < 8 :: byte[b] == Level(c, pins, f, b)
  {
    seq(8, b requires 0 <= b < 8 => Level(c, pins, f, b))
  }

  /** Of all frames only the last one can be still on its way. */
  function Complete(c: nat, pins: seq<bool>): (k: nat)
    ensures k <= |Starts(c, pins)|
  {
    var s := Starts(c, pins);
    if s != [] && |pins| <= s[|s| - 1] + ReportDelay(c) then |s| - 1 else |s|
  }

  function Scan(c: nat, pins: seq<bool>): (reports: seq<Event>)
    ensures |reports| == Complete(c, pins)
  {
    seq(Complete(c, pins), i requires 0 <= i < Complete(c, pins) =>
      Event(Starts(c, pins)[i] + ReportDelay(c), ByteAt(c, pins, Starts(c, pins)[i])))
  }

  // ---- With a consumer that is not always ready ----

  /** The first edge from `low` on at which the consumer is ready. */
  function FirstReady(ready: seq<bool>, low: nat): (h: nat)
    ensures low <= h
    ensures h < |ready| ==> ready[h]
    decreases |ready| - low
  {
    if low < |ready| && !ready[low] then FirstReady(ready, low + 1) else low
  }

  /** The edge at which the byte of the frame that started at `f` is handed over. */
  function Handover(c: nat, ready: seq<bool>, f: nat): nat {
    FirstReady(ready, f + ReportDelay(c))
  }

  lemma {:induction false} FirstReadyNext(ready: seq<bool>, n: nat, low: nat)
    requires |ready| == n + 1
    ensures var h := FirstReady(ready[..n], low);
            FirstReady(ready, low) == if h == n && !ready[n] then n + 1 else h
    decreases n + 1 - low
  {
    if low < n {
      assert ready[..n][low] == ready[low];
      if !ready[low] {
        FirstReadyNext(ready, n, low + 1);
      }
    }
  }

  lemma HandoverStays(c: nat, ready: seq<bool>, n: nat)
    requires |ready| == n + 1
    ensures forall f: nat | Handover(c, ready[..n], f) < n :: Handover(c, ready, f) == Handover(c, ready[..n], f)
  {
    forall f: nat | Handover(c, ready[..n], f) < n
      ensures Handover(c, ready, f) == Handover(c, ready[..n], f)
    {
      FirstReadyNext(ready, n, f + ReportDelay(c));
    }
    hide FirstReady;
  }

  /** Where frames start: at every falling edge, except before the byte of the frame that started last has been handed
      over. */
  function StartsWith(c: nat, pins: seq<bool>, ready: seq<bool>): (s: seq<nat>)
    requires |pins| == |ready|
    ensures forall i | 0 <= i < |s| :: s[i] < |pins|
    ensures forall i | 0 < i < |s| :: Handover(c, ready, s[i - 1]) <= s[i]
  {
    if pins == [] then [] else
      var n := |pins| - 1;
      var before := StartsWith(c, pins[..n], ready[..n]);
      HandoverStays(c, ready, n);
      if Falls(pins, n) && (before == [] || Handover(c, ready, before[|before| - 1]) <= n) then before + [n] else before
  }

  function CompleteWith(c: nat, pins: seq<bool>, ready: seq<bool>): (k: nat)
    requires |pins| == |ready|
    ensures k <= |StartsWith(c, pins, ready)|
  {
    var s := StartsWith(c, pins, ready);
    if s != [] && |pins| <= Handover(c, ready, s[|s| - 1]) then |s| - 1 else |s|
  }

  function ScanWith(c: nat, pins: seq<bool>, ready: seq<bool>): (handed: seq<Event>)
    requires |pins| == |ready|
    ensures |handed| == CompleteWith(c, pins, ready)
  {
    seq(CompleteWith(c, pins, ready), i requires 0 <= i < CompleteWith(c, pins, ready) =>
      var f := StartsWith(c, pins, ready)[i]; Event(Handover(c, ready, f), ByteAt(c, pins, f)))
  }

  // ---- One clock edge ----

  lemma BitStartFacts(c: nat, b: nat)
    ensures BitStart(c, 0) == 0 && BitStart(c, 7) == 7 * c && BitStart(c, 8) == 8 * c
    ensures BitStart(c, b + 1) == BitStart(c, b) + c
    ensures b <= 7 ==> BitStart(c, b) <= 7 * c
  {
  }

  lemma BitStartOrder(c: nat, i: nat, b: nat)
    requires i < b
    ensures BitStart(c, i) + c <= BitStart(c, b)
  {
    Multiples(c, i + 1, b);
  }

  lemma DelayIs(c: nat)
    ensures ReportDelay(c) == 9 * c + c / 2 + 2
  {
  }

  /** The registers while the frame that started at `f` is received, and after it. */
  predicate InFrame(c: nat, pins: seq<bool>, ready: seq<bool>, r: Rx.Regs, f: nat) {
    var age := |pins| - f;
    match r.state
    case Idle => if Rx.FallingEdge(r) then age == 1 else Handover(c, ready, f) < |pins|
    case Data =>
      ReportDelay(c) <= age && |pins| <= Handover(c, ready, f) && r.data == ByteAt(c, pins, f)
    case _ => OnItsWay(c, pins, r, f)
  }

  predicate OnItsWay(c: nat, pins: seq<bool>, r: Rx.Regs, f: nat) {
    var age := |pins| - f;
    match r.state
    case Start => r.cycleCnt < c && age == 2 + r.cycleCnt
    case RecByte =>
      && r.cycleCnt < c && age == 2 + c + BitStart(c, r.bitCnt) + r.cycleCnt
      && (forall b | 0 <= b < r.bitCnt :: r.data[b] == Level(c, pins, f, b))
      && (c / 2 <= r.cycleCnt ==> r.data[r.bitCnt] == Level(c, pins, f, r.bitCnt))
    case Stop => r.cycleCnt < c / 2 && age == 2 + 9 * c + r.cycleCnt && r.data == ByteAt(c, pins, f)
    case _ => false
  }

  /** The synchroniser holds the last two levels. */
  predicate Synchronised(pins: seq<bool>, r: Rx.Regs) {
    var n := |pins|;
    r.d0 == (1 <= n && pins[n - 1]) && r.d1 == (2 <= n && pins[n - 2])
  }

  predicate Hears(c: nat, pins: seq<bool>, ready: seq<bool>, r: Rx.Regs)
    requires |pins| == |ready|
  {
    var s := StartsWith(c, pins, ready);
    && Synchronised(pins, r)
    && (r.valid <==> r.state == Rx.Data)
    && (s == [] ==> r.state == Rx.Idle && !Rx.FallingEdge(r))
    && (s != [] ==> InFrame(c, pins, ready, r, s[|s| - 1]))
  }

  lemma LevelStays(c: nat, pins: seq<bool>, n: nat, f: nat, b: nat)
    requires n <= |pins| && SampleEdge(c, f, b) < n
    ensures Level(c, pins[..n], f, b) == Level(c, pins, f, b)
  {
    hide SampleEdge;
  }

  lemma ByteStays(c: nat, pins: seq<bool>, n: nat, f: nat)
    requires n <= |pins| && f + 2 + 9 * c <= n
    ensures ByteAt(c, pins[..n], f) == ByteAt(c, pins, f)
  {
    forall b | 0 <= b < 8 ensures Level(c, pins[..n], f, b) == Level(c, pins, f, b) {
      BitStartFacts(c, b);
      LevelStays(c, pins, n, f, b);
    }
    hide Level;
  }

  lemma StartsWithNext(c: nat, pins: seq<bool>, ready: seq<bool>, n: nat)
    requires |pins| == |ready| == n + 1
    ensures var before := StartsWith(c, pins[..n], ready[..n]);
            StartsWith(c, pins, ready)
            == if Falls(pins, n) && (before == [] || Handover(c, ready, before[|before| - 1]) <= n)
               then before + [n] else before
  {
    hide Falls;
    hide Handover;
  }

  lemma SynchronisedNext(c: nat, pins: seq<bool>, n: nat, r: Rx.Regs, ready: bool)
    requires |pins| == n + 1 && Synchronised(pins[..n], r)
    ensures var after := Rx.Next(c, r, pins[n], ready);
            Synchronised(pins, after) && (Rx.FallingEdge(after) <==> Falls(pins, n))
  {
  }

  /** A bit is sampled once, half way. */
  lemma ByteAdvances(c: nat, pins: seq<bool>, n: nat, r: Rx.Regs, ready: bool, f: nat)
    requires 2 <= c <= 0x1_0000 && |pins| == n + 1 && OnItsWay(c, pins[..n], r, f) && r.state == Rx.RecByte
    ensures OnItsWay(c, pins, Rx.Next(c, r, pins[n], ready), f)
  {
    hide BitStart;
    hide Level;
    var b := r.bitCnt;
    BitStartFacts(c, b);
    forall i | 0 <= i < b ensures r.data[i] == Level(c, pins, f, i) {
      BitStartOrder(c, i, b);
      LevelStays(c, pins, n, f, i);
    }
    if c / 2 <= r.cycleCnt {
      LevelStays(c, pins, n, f, b);
    }
    if r.cycleCnt == c / 2 - 1 {
      SampledNow(c, pins, n, f, b);
    }
  }

  lemma SampledNow(c: nat, pins: seq<bool>, n: nat, f: nat, b: nat)
    requires 2 <= c && |pins| == n + 1 && n == f + 2 + c + BitStart(c, b) + c / 2 - 1
    ensures Level(c, pins, f, b) == pins[n]
  {
    hide BitStart;
  }

  /** A frame that has begun goes on, up to its report. */
  lemma FrameAdvances(c: nat, pins: seq<bool>, n: nat, r: Rx.Regs, ready: bool, f: nat)
    requires 2 <= c <= 0x1_0000 && |pins| == n + 1
    requires OnItsWay(c, pins[..n], r, f) || (r.state == Rx.Idle && Rx.FallingEdge(r) && n - f == 1)
    ensures var after := Rx.Next(c, r, pins[n], ready);
            if after.state == Rx.Data then n + 1 - f == ReportDelay(c) && after.data == ByteAt(c, pins, f)
            else OnItsWay(c, pins, after, f)
  {
    hide BitStart;
    hide ByteAt;
    if r.state == Rx.RecByte {
      ByteAdvances(c, pins, n, r, ready, f);
      hide Rx.Next;
      hide OnItsWay;
      RecByteGoesOn(c, r, pins[n], ready);
    } else {
      BitStartFacts(c, 0);
      if r.state == Rx.Stop {
        ByteStays(c, pins, n, f);
      }
    }
  }

  lemma RecByteGoesOn(c: nat, r: Rx.Regs, pin: bool, ready: bool)
    requires r.state == Rx.RecByte
    ensures Rx.Next(c, r, pin, ready).state != Rx.Data
  {
  }

  /** All of that happens before the report is due. */
  lemma NotYetDue(c: nat, pins: seq<bool>, r: Rx.Regs, f: nat)
    requires 2 <= c && OnItsWay(c, pins, r, f)
    ensures |pins| - f < ReportDelay(c) && r.state != Rx.Idle && r.state != Rx.Data
  {
    if r.state == Rx.RecByte {
      BitStartFacts(c, r.bitCnt);
    }
    hide BitStart;
  }

  /** A byte waits until the consumer is ready, and while nothing is received nothing changes but the synchroniser. */
  lemma WaitingNext(c: nat, r: Rx.Regs, pin: bool, ready: bool)
    requires r.state == Rx.Data || (r.state == Rx.Idle && !Rx.FallingEdge(r))
    ensures var after := Rx.Next(c, r, pin, ready);
            && after.state == (if r.state == Rx.Data && !ready then Rx.Data else Rx.Idle)
            && after.data == r.data
  {
  }

  lemma HandoverNext(c: nat, ready: seq<bool>, n: nat, f: nat)
    requires |ready| == n + 1
    ensures var h := Handover(c, ready[..n], f);
            Handover(c, ready, f) == if h == n && !ready[n] then n + 1 else h
    ensures f + ReportDelay(c) <= Handover(c, ready, f)
    ensures f + ReportDelay(c) <= n <= Handover(c, ready[..n], f) ==> Handover(c, ready[..n], f) == n
  {
    FirstReadyNext(ready, n, f + ReportDelay(c));
    AtMostEnd(ready[..n], f + ReportDelay(c));
    hide FirstReady;
    hide ReportDelay;
  }

  lemma {:induction false} AtMostEnd(ready: seq<bool>, low: nat)
    ensures low <= |ready| ==> FirstReady(ready, low) <= |ready|
    decreases |ready| - low
  {
    if low < |ready| && !ready[low] {
      AtMostEnd(ready, low + 1);
    }
  }

  /** The frame that started last, one edge later. */
  lemma InFrameNext(c: nat, pins: seq<bool>, ready: seq<bool>, n: nat, r: Rx.Regs, f: nat)
    requires 2 <= c <= 0x1_0000 && |pins| == |ready| == n + 1
    requires Synchronised(pins[..n], r) && InFrame(c, pins[..n], ready[..n], r, f)
    ensures var after := Rx.Next(c, r, pins[n], ready[n]);
            if Handover(c, ready, f) <= n then after.state == Rx.Idle
            else InFrame(c, pins, ready, after, f) && !(after.state == Rx.Idle && Rx.FallingEdge(after))
  {
    hide *;
    InFrameIs(c, pins[..n], ready[..n], r, f);
    var after := Rx.Next(c, r, pins[n], ready[n]);
    InFrameIs(c, pins, ready, after, f);
    HandoverNext(c, ready, n, f);
    DelayIs(c);
    if r.state == Rx.Data || (r.state == Rx.Idle && !Rx.FallingEdge(r)) {
      WaitingNext(c, r, pins[n], ready[n]);
      if r.state == Rx.Data {
        ByteStays(c, pins, n, f);
      }
    } else {
      FrameAdvances(c, pins, n, r, ready[n], f);
      if after.state != Rx.Data {
        NotYetDue(c, pins, after, f);
      }
    }
  }

  lemma InFrameIs(c: nat, pins: seq<bool>, ready: seq<bool>, r: Rx.Regs, f: nat)
    ensures InFrame(c, pins, ready, r, f) <==>
            if r.state == Rx.Idle then
              if Rx.FallingEdge(r) then |pins| - f == 1 else Handover(c, ready, f) < |pins|
            else if r.state == Rx.Data then
              ReportDelay(c) <= |pins| - f && |pins| <= Handover(c, ready, f) && r.data == ByteAt(c, pins, f)
            else OnItsWay(c, pins, r, f)
  {
    hide OnItsWay;
    hide ByteAt;
    hide Handover;
  }

  lemma HearsIs(c: nat, pins: seq<bool>, ready: seq<bool>, r: Rx.Regs)
    requires |pins| == |ready|
    ensures var s := StartsWith(c, pins, ready);
            Hears(c, pins, ready, r) <==>
            && Synchronised(pins, r)
            && (r.valid <==> r.state == Rx.Data)
            && (s == [] ==> r.state == Rx.Idle && !Rx.FallingEdge(r))
            && (s != [] ==> InFrame(c, pins, ready, r, s[|s| - 1]))
  {
    hide Synchronised;
    hide StartsWith;
    hide InFrame;
  }

  /** The next registers, for the frame that is the last to have started after this edge. */
  lemma HearsNext(c: nat, pins: seq<bool>, ready: seq<bool>, n: nat, r: Rx.Regs)
    requires 2 <= c <= 0x1_0000 && |pins| == |ready| == n + 1 && Hears(c, pins[..n], ready[..n], r)
    ensures Hears(c, pins, ready, Rx.Next(c, r, pins[n], ready[n]))
  {
    hide *;
    HearsIs(c, pins[..n], ready[..n], r);
    var s, s' := StartsWith(c, pins[..n], ready[..n]), StartsWith(c, pins, ready);
    var after := Rx.Next(c, r, pins[n], ready[n]);
    StartsWithNext(c, pins, ready, n);
    SynchronisedNext(c, pins, n, r, ready[n]);
    Rx.Handshake(c, r, pins[n], ready[n]);
    if s == [] {
      WaitingNext(c, r, pins[n], ready[n]);
    } else {
      InFrameNext(c, pins, ready, n, r, s[|s| - 1]);
    }
    if s' != [] {
      InFrameIs(c, pins, ready, after, s'[|s'| - 1]);
    }
    HearsIs(c, pins, ready, after);
  }

  // ---- Whole runs ----

  /** Frames do not overlap, so only the last can be still on its way. */
  lemma CompleteWithMeans(c: nat, pins: seq<bool>, ready: seq<bool>, i: nat)
    requires |pins| == |ready| && i < CompleteWith(c, pins, ready)
    ensures Handover(c, ready, StartsWith(c, pins, ready)[i]) < |pins|
  {
    var s := StartsWith(c, pins, ready);
    if i < |s| - 1 {
      assert Handover(c, ready, s[i]) <= s[i + 1] < |pins|;
    }
    hide StartsWith;
    hide Handover;
  }

  lemma HandedIs(c: nat, pins: seq<bool>, ready: seq<bool>, i: nat)
    requires |pins| == |ready| && i < |ScanWith(c, pins, ready)|
    ensures i < CompleteWith(c, pins, ready) <= |StartsWith(c, pins, ready)|
    ensures var f := StartsWith(c, pins, ready)[i];
            ScanWith(c, pins, ready)[i] == Event(Handover(c, ready, f), ByteAt(c, pins, f))
  {
    hide StartsWith;
    hide ByteAt;
    hide Handover;
  }

  lemma CompleteWithNext(c: nat, pins: seq<bool>, ready: seq<bool>, n: nat)
    requires |pins| == |ready| == n + 1
    ensures var s, before := StartsWith(c, pins[..n], ready[..n]), CompleteWith(c, pins[..n], ready[..n]);
            && (s != [] && Handover(c, ready, s[|s| - 1]) == n ==> before == |s| - 1)
            && CompleteWith(c, pins, ready)
               == if s != [] && Handover(c, ready, s[|s| - 1]) == n then before + 1 else before
  {
    hide *;
    CompleteWithIs(c, pins, ready);
    CompleteWithIs(c, pins[..n], ready[..n]);
    StartsWithNext(c, pins, ready, n);
    var s := StartsWith(c, pins[..n], ready[..n]);
    HandoverNext(c, ready, n, n);
    DelayIs(c);
    if s != [] {
      HandoverNext(c, ready, n, s[|s| - 1]);
    }
  }

  lemma CompleteWithIs(c: nat, pins: seq<bool>, ready: seq<bool>)
    requires |pins| == |ready|
    ensures var s := StartsWith(c, pins, ready);
            CompleteWith(c, pins, ready)
            == if s != [] && |pins| <= Handover(c, ready, s[|s| - 1]) then |s| - 1 else |s|
  {
    hide StartsWith;
    hide Handover;
  }

  lemma ScanWithNext(c: nat, pins: seq<bool>, ready: seq<bool>, n: nat)
    requires |pins| == |ready| == n + 1
    ensures var s, before := StartsWith(c, pins[..n], ready[..n]), ScanWith(c, pins[..n], ready[..n]);
            ScanWith(c, pins, ready)
            == if s != [] && Handover(c, ready, s[|s| - 1]) == n
               then before + [Event(n, ByteAt(c, pins, s[|s| - 1]))] else before
  {
    hide *;
    StartsWithNext(c, pins, ready, n);
    CompleteWithNext(c, pins, ready, n);
    var s, s' := StartsWith(c, pins[..n], ready[..n]), StartsWith(c, pins, ready);
    var all, before := ScanWith(c, pins, ready), ScanWith(c, pins[..n], ready[..n]);
    forall i | 0 <= i < |before| ensures all[i] == before[i] {
      HandedIs(c, pins, ready, i);
      HandedIs(c, pins[..n], ready[..n], i);
      CompleteWithMeans(c, pins[..n], ready[..n], i);
      HandoverNext(c, ready, n, s[i]);
      DelayIs(c);
      ByteStays(c, pins, n, s[i]);
      assert s'[i] == s[i];
    }
    if |before| < |all| {
      HandedIs(c, pins, ready, |before|);
    }
  }

  lemma HandedNow(c: nat, pins: seq<bool>, ready: seq<bool>, n: nat, r: Rx.Regs)
    requires 2 <= c && |pins| == |ready| == n + 1 && Hears(c, pins[..n], ready[..n], r)
    ensures var s := StartsWith(c, pins[..n], ready[..n]);
            && (r.valid && ready[n] <==> s != [] && Handover(c, ready, s[|s| - 1]) == n)
            && (r.valid ==> s != [] && r.data == ByteAt(c, pins, s[|s| - 1]))
  {
    hide *;
    var s := StartsWith(c, pins[..n], ready[..n]);
    HearsIs(c, pins[..n], ready[..n], r);
    if s != [] {
      var f := s[|s| - 1];
      InFrameIs(c, pins[..n], ready[..n], r, f);
      HandoverNext(c, ready, n, f);
      DelayIs(c);
      if r.state == Rx.Data {
        ByteStays(c, pins, n, f);
      } else if r.state != Rx.Idle {
        NotYetDue(c, pins[..n], r, f);
      }
    }
  }

  lemma NothingHeard(c: nat)
    ensures Hears(c, [], [], Rx.AfterWith(c, [], []))
    ensures Rx.Handed(c, [], []) == ScanWith(c, [], [])
  {
  }

  lemma {:induction false} RunHears(c: nat, pins: seq<bool>, ready: seq<bool>)
    requires 2 <= c <= 0x1_0000 && |pins| == |ready|
    ensures Hears(c, pins, ready, Rx.AfterWith(c, pins, ready))
    ensures Rx.Handed(c, pins, ready) == ScanWith(c, pins, ready)
  {
    hide *;
    if pins == [] {
      assert ready == [];
      NothingHeard(c);
    } else {
      var n := |pins| - 1;
      RunHears(c, pins[..n], ready[..n]);
      var r := Rx.AfterWith(c, pins[..n], ready[..n]);
      Rx.RunWithNext(c, pins, ready, n);
      HearsNext(c, pins, ready, n, r);
      ScanWithNext(c, pins, ready, n);
      HandedNow(c, pins, ready, n, r);
    }
  }

  lemma {:induction false} NothingHanded(c: nat, pins: seq<bool>, ready: seq<bool>)
    requires |pins| == |ready| && (c < 2 || 0x1_0000 < c)
    ensures Rx.Handed(c, pins, ready) == []
    ensures var r := Rx.AfterWith(c, pins, ready);
            !r.valid && r.state != Rx.Data && (0x1_0000 < c ==> r.state == Rx.Idle || r.state == Rx.Start)
  {
    if pins != [] {
      var n := |pins| - 1;
      NothingHanded(c, pins[..n], ready[..n]);
      Rx.RunWithNext(c, pins, ready, n);
    }
  }

  /** For every line, every consumer and every number of cycles a bit: what the receiver hands over, and when, follows
      from the levels and from when the consumer is ready. */
  lemma HandedIsScanned(c: nat, pins: seq<bool>, ready: seq<bool>)
    requires |pins| == |ready|
    ensures Rx.Handed(c, pins, ready) == if 2 <= c <= 0x1_0000 then ScanWith(c, pins, ready) else []
  {
    hide *;
    if 2 <= c <= 0x1_0000 {
      RunHears(c, pins, ready);
    } else {
      NothingHanded(c, pins, ready);
    }
  }

  // ---- With a consumer that is always ready ----

  function AllReady(n: nat): (ready: seq<bool>)
    ensures |ready| == n && forall k | 0 <= k < n :: ready[k]
  {
    seq(n, k => true)
  }

  lemma AllReadyPrefix(n: nat)
    ensures AllReady(n + 1)[..n] == AllReady(n)
  {
  }

  lemma {:induction false} SameStarts(c: nat, pins: seq<bool>)
    ensures StartsWith(c, pins, AllReady(|pins|)) == Starts(c, pins)
  {
    if pins != [] {
      var n := |pins| - 1;
      SameStarts(c, pins[..n]);
      AllReadyPrefix(n);
      StartsWithNext(c, pins, AllReady(n + 1), n);
      StartsNext(c, pins, n);
      hide StartsWith;
      hide Starts;
      hide Falls;
    }
  }

  lemma StartsNext(c: nat, pins: seq<bool>, n: nat)
    requires |pins| == n + 1
    ensures var before := Starts(c, pins[..n]);
            Starts(c, pins) == if Falls(pins, n) && (before == [] || before[|before| - 1] + ReportDelay(c) <= n)
                               then before + [n] else before
  {
    hide Falls;
  }

  lemma SameScan(c: nat, pins: seq<bool>)
    ensures ScanWith(c, pins, AllReady(|pins|)) == Scan(c, pins)
  {
    SameStarts(c, pins);
    hide StartsWith;
    hide Starts;
    hide ByteAt;
  }

  lemma ReportIs(c: nat, pins: seq<bool>, i: nat)
    requires i < |Scan(c, pins)|
    ensures i < Complete(c, pins) <= |Starts(c, pins)|
    ensures Scan(c, pins)[i] == Event(Starts(c, pins)[i] + ReportDelay(c), ByteAt(c, pins, Starts(c, pins)[i]))
  {
    hide Starts;
    hide ByteAt;
  }

  /** For every line: the receiver reports what the scan finds, at those clocks, and nothing else. */
  lemma ReportsAreScanned(c: nat, pins: seq<bool>)
    ensures Rx.Reports(c, pins) == if 2 <= c <= 0x1_0000 then Scan(c, pins) else []
  {
    hide *;
    HandedIsScanned(c, pins, AllReady(|pins|));
    Rx.AlwaysReady(c, pins, AllReady(|pins|));
    SameScan(c, pins);
  }
}
