/** When the echo keeps up with whatever reaches it, and when it loses bytes. */
module UartBacklog {
  import opened Serial
  import opened UartEcho
  import Tx = UartTx
  import Rx = UartRx

  /** A byte arrives while the one before is still waiting and is not being taken. */
  predicate Loses(r: Regs) {
    r.rx.valid && r.held.valid && !Tx.Accepts(r.tx, r.held)
  }

  /** When report `i` is taken for sending if none is lost: one clock after it came, or as soon as the
      transmitter is free again. */
  function TakenAt(c: nat, reports: seq<Event>, i: nat): nat
    requires i < |reports|
  {
    if i == 0 then reports[0].clock + 1 else
      var free, there := TakenAt(c, reports, i - 1) + 10 * c + 1, reports[i].clock + 1;
      if there < free then free else there
  }

  /** Every report comes no sooner than the one before it is taken. */
  predicate InTime(c: nat, reports: seq<Event>) {
    forall i | 0 < i < |reports| :: TakenAt(c, reports, i - 1) <= reports[i].clock
  }

  lemma {:induction false} TakenAtPrefix(c: nat, reports: seq<Event>, e: Event, i: nat)
    requires i < |reports|
    ensures TakenAt(c, reports + [e], i) == TakenAt(c, reports, i)
  {
    if i != 0 {
      TakenAtPrefix(c, reports, e, i - 1);
    }
  }

  lemma InTimePrefix(c: nat, reports: seq<Event>, e: Event)
    ensures InTime(c, reports + [e]) <==>
            InTime(c, reports) && (reports != [] ==> TakenAt(c, reports, |reports| - 1) <= e.clock)
  {
    var all := reports + [e];
    forall i | 0 <= i < |reports| ensures TakenAt(c, all, i) == TakenAt(c, reports, i) && all[i] == reports[i] {
      TakenAtPrefix(c, reports, e, i);
    }
    if InTime(c, all) {
      forall i | 0 < i < |reports| ensures TakenAt(c, reports, i - 1) <= reports[i].clock {
        assert TakenAt(c, all, i - 1) <= all[i].clock;
      }
      if reports != [] {
        assert TakenAt(c, all, |reports| - 1) <= all[|reports|].clock;
      }
    } else {
      var i :| 0 < i < |all| && all[i].clock < TakenAt(c, all, i - 1);
      if i < |reports| {
        assert reports[i].clock < TakenAt(c, reports, i - 1);
      }
    }
  }

  /** The bytes taken are the first reports, each at its time. */
  predicate OnTime(c: nat, reports: seq<Event>, taken: seq<Event>) {
    && |taken| <= |reports|
    && forall i | 0 <= i < |taken| :: taken[i] == Event(TakenAt(c, reports, i), reports[i].byte)
  }

  lemma OnTimeReport(c: nat, reports: seq<Event>, taken: seq<Event>, e: Event)
    requires OnTime(c, reports, taken)
    ensures OnTime(c, reports + [e], taken)
  {
    forall i | 0 <= i < |taken| ensures taken[i] == Event(TakenAt(c, reports + [e], i), (reports + [e])[i].byte) {
      TakenAtPrefix(c, reports, e, i);
    }
  }

  lemma OnTimeTake(c: nat, reports: seq<Event>, taken: seq<Event>, n: nat, byte: Byte)
    requires OnTime(c, reports, taken) && |taken| < |reports|
    requires TakenAt(c, reports, |taken|) == n && reports[|taken|].byte == byte
    ensures OnTime(c, reports, taken + [Event(n, byte)])
  {
    hide TakenAt;
  }

  /** Before edge `n`, when nothing has been lost: all reports have been taken on schedule, except for one
      that is held and not yet due. */
  predicate OnSchedule(c: Cycles, n: nat, r: Regs, reports: seq<Event>, taken: seq<Event>) {
    && Tx.Follows(c, r.tx, n, taken)
    && |reports| == |taken| + (if r.held.valid then 1 else 0)
    && OnTime(c, reports, taken)
    && (r.held.valid ==>
          var e := reports[|reports| - 1];
          e.byte == r.held.data && e.clock < n <= TakenAt(c, reports, |reports| - 1))
  }

  /** A held byte is taken at the edge that the schedule says. */
  lemma TakenOnTime(c: Cycles, n: nat, r: Regs, reports: seq<Event>, taken: seq<Event>)
    requires OnSchedule(c, n, r, reports, taken)
    ensures Tx.Accepts(r.tx, r.held) <==> r.held.valid && TakenAt(c, reports, |reports| - 1) == n
    ensures r.held.valid ==> (r.tx.ready <==> Tx.Accepts(r.tx, r.held))
  {
    Tx.FollowsNext(c, r.tx, n, taken, r.held);
    if r.held.valid && taken != [] {
      var k := |taken| - 1;
      assert taken[k].clock == TakenAt(c, reports, k);
    }
  }

  /** Nothing is lost at this edge exactly if what arrives, arrives in time; and then all stays on schedule. */
  lemma LosesWhenLate(c: Cycles, n: nat, r: Regs, reports: seq<Event>, taken: seq<Event>)
    requires OnSchedule(c, n, r, reports, taken)
    ensures Loses(r) <==> r.rx.valid && reports != [] && n < TakenAt(c, reports, |reports| - 1)
  {
    TakenOnTime(c, n, r, reports, taken);
    if reports != [] && !r.held.valid {
      assert taken[|taken| - 1].clock == TakenAt(c, reports, |taken| - 1);
    }
    hide Tx.InFrame;
    hide Tx.Accepts;
    hide TakenAt;
  }

  lemma ScheduleNext(c: Cycles, n: nat, r: Regs, pin: bool, reports: seq<Event>, taken: seq<Event>)
    requires OnSchedule(c, n, r, reports, taken) && !Loses(r)
    ensures OnSchedule(c, n + 1, Next(c, r, pin),
                       if r.rx.valid then reports + [Event(n, r.rx.data)] else reports,
                       if Tx.Accepts(r.tx, r.held) then taken + [Event(n, r.held.data)] else taken)
  {
    TakenOnTime(c, n, r, reports, taken);
    Tx.FollowsNext(c, r.tx, n, taken, r.held);
    AcceptsOnlyHeld(r);
    var took := if Tx.Accepts(r.tx, r.held) then taken + [Event(n, r.held.data)] else taken;
    if Tx.Accepts(r.tx, r.held) {
      OnTimeTake(c, reports, taken, n, r.held.data);
    }
    if r.rx.valid {
      OnTimeReport(c, reports, took, Event(n, r.rx.data));
      TakenLater(c, reports, Event(n, r.rx.data));
    }
    hide Tx.Follows;
    hide Tx.Next;
    hide Rx.Next;
    hide Tx.Accepts;
    hide TakenAt;
    hide OnTime;
  }

  lemma TakenLater(c: nat, reports: seq<Event>, e: Event)
    ensures e.clock < TakenAt(c, reports + [e], |reports|)
  {
  }

  lemma AcceptsOnlyHeld(r: Regs)
    ensures Tx.Accepts(r.tx, r.held) ==> r.held.valid
  {
  }

  lemma OneEdge(c: Cycles, pins: seq<bool>, n: nat)
    requires |pins| == n + 1
    ensures var r, reports, taken := After(c, pins[..n]), Rx.Reports(c, pins[..n]), Taken(c, pins[..n]);
            && After(c, pins) == Next(c, r, pins[n])
            && Rx.Reports(c, pins) == (if r.rx.valid then reports + [Event(n, r.rx.data)] else reports)
            && Taken(c, pins) == (if Tx.Accepts(r.tx, r.held) then taken + [Event(n, r.held.data)] else taken)
  {
    Rx.RunNext(c, pins, n);
    HeldNext(c, pins, n);
    Parts(c, pins[..n]);
    TakenIs(c, pins[..n]);
    TakenIs(c, pins);
    Tx.RunNext(c, Held(c, pins), n);
    hide *;
  }

  /** No edge of the run loses a byte. */
  predicate Lossless(c: nat, pins: seq<bool>) {
    forall k | 0 <= k < |pins| :: !Loses(After(c, pins[..k]))
  }

  lemma LosslessNext(c: nat, pins: seq<bool>, n: nat)
    requires |pins| == n + 1
    ensures Lossless(c, pins) <==> Lossless(c, pins[..n]) && !Loses(After(c, pins[..n]))
  {
    assert forall k | 0 <= k < n :: pins[..n][..k] == pins[..k];
    hide Loses;
    hide After;
  }

  lemma {:induction false} RunOnSchedule(c: Cycles, pins: seq<bool>)
    ensures Lossless(c, pins) <==> InTime(c, Rx.Reports(c, pins))
    ensures Lossless(c, pins) ==> OnSchedule(c, |pins|, After(c, pins), Rx.Reports(c, pins), Taken(c, pins))
  {
    if pins != [] {
      var n := |pins| - 1;
      hide *;
      RunOnSchedule(c, pins[..n]);
      var r, reports, taken := After(c, pins[..n]), Rx.Reports(c, pins[..n]), Taken(c, pins[..n]);
      OneEdge(c, pins, n);
      LosslessNext(c, pins, n);
      InTimePrefix(c, reports, Event(n, r.rx.data));
      if Lossless(c, pins[..n]) {
        LosesWhenLate(c, n, r, reports, taken);
        if !Loses(r) {
          ScheduleNext(c, n, r, pins[n], reports, taken);
        }
      }
    }
  }

  lemma ScheduleMeans(c: Cycles, n: nat, r: Regs, reports: seq<Event>, taken: seq<Event>)
    requires OnSchedule(c, n, r, reports, taken)
    ensures OnTime(c, reports, taken)
    ensures forall i | |taken| <= i < |reports| :: n <= TakenAt(c, reports, i)
  {
    hide TakenAt;
    hide Tx.Follows;
    hide OnTime;
  }

  /** Whatever arrives on the line: no byte is ever lost exactly if every report comes no sooner than the one
      before it is due to be taken, which only the times of the reports decide. Then every byte that is due has
      been taken, in order, at its time. */
  lemma LosslessExactly(c: Cycles, pins: seq<bool>)
    ensures Lossless(c, pins) <==> InTime(c, Rx.Reports(c, pins))
    ensures Lossless(c, pins) ==>
              && OnTime(c, Rx.Reports(c, pins), Taken(c, pins))
              && forall i | |Taken(c, pins)| <= i < |Rx.Reports(c, pins)| ::
                   |pins| <= TakenAt(c, Rx.Reports(c, pins), i)
  {
    hide *;
    RunOnSchedule(c, pins);
    if Lossless(c, pins) {
      ScheduleMeans(c, |pins|, After(c, pins), Rx.Reports(c, pins), Taken(c, pins));
    }
  }

  // ---- A steady sender ----

  /** Reports `d` clocks apart. */
  predicate Steady(reports: seq<Event>, first: nat, d: nat) {
    forall i | 0 <= i < |reports| :: reports[i].clock == first + i * d
  }

  lemma ProductNext(i: nat, d: int)
    ensures (i + 1) * d == i * d + d
  {
  }

  lemma ProductOrder(i: int, j: int, d: int)
    requires 0 <= i <= j
    ensures 0 <= d ==> i * d <= j * d
    ensures d <= 0 ==> i * d <= 0
  {
  }

  lemma {:induction false} TakenAtSlow(c: nat, reports: seq<Event>, first: nat, d: nat, i: nat)
    requires Steady(reports, first, d) && i < |reports| && 10 * c < d
    ensures TakenAt(c, reports, i) == reports[i].clock + 1
  {
    if i != 0 {
      TakenAtSlow(c, reports, first, d, i - 1);
      ProductNext(i - 1, d);
    }
  }

  lemma {:induction false} TakenAtFast(c: nat, reports: seq<Event>, first: nat, d: nat, i: nat)
    requires Steady(reports, first, d) && i < |reports| && d <= 10 * c
    ensures TakenAt(c, reports, i) == first + 1 + i * (10 * c + 1)
  {
    if i != 0 {
      TakenAtFast(c, reports, first, d, i - 1);
      ProductNext(i - 1, 10 * c + 1);
      ProductNext(i - 1, d);
      ProductOrder(i - 1, i - 1, 10 * c + 1 - d);
      assert (i - 1) * (10 * c + 1 - d) == (i - 1) * (10 * c + 1) - (i - 1) * d;
    }
  }

  lemma FastInTimeAt(c: nat, reports: seq<Event>, first: nat, d: nat, i: nat)
    requires Steady(reports, first, d) && 0 < i < |reports| && d <= 10 * c
    ensures TakenAt(c, reports, i - 1) <= reports[i].clock <==> Debt(i, 10 * c + 1 - d) <= 10 * c
  {
    TakenAtFast(c, reports, first, d, i - 1);
    ProductNext(i - 1, 10 * c + 1);
    assert i * (10 * c + 1 - d) == i * (10 * c + 1) - i * d;
  }

  /** How far the echo is behind after `i` reports, each `e` clocks too early. */
  function Debt(i: int, e: int): int {
    i * e
  }

  lemma SlowInTime(c: nat, reports: seq<Event>, first: nat, d: nat)
    requires Steady(reports, first, d) && 10 * c < d
    ensures InTime(c, reports)
  {
    forall i | 0 < i < |reports| ensures TakenAt(c, reports, i - 1) <= reports[i].clock {
      TakenAtSlow(c, reports, first, d, i - 1);
      ProductNext(i - 1, d);
    }
  }

  lemma FastInTime(c: nat, reports: seq<Event>, first: nat, d: nat)
    requires Steady(reports, first, d) && d <= 10 * c && 1 < |reports|
    ensures InTime(c, reports) <==> Debt(|reports| - 1, 10 * c + 1 - d) <= 10 * c
  {
    var m, e := |reports| - 1, 10 * c + 1 - d;
    FastInTimeAt(c, reports, first, d, m);
    if Debt(m, e) <= 10 * c {
      forall i | 0 < i < |reports| ensures TakenAt(c, reports, i - 1) <= reports[i].clock {
        FastInTimeAt(c, reports, first, d, i);
        DebtGrows(i, m, e);
        hide *;
      }
    } else {
      assert reports[m].clock < TakenAt(c, reports, m - 1);
    }
    hide TakenAt;
    hide Debt;
    hide Steady;
  }

  lemma DebtGrows(i: nat, j: nat, e: nat)
    requires i <= j
    ensures Debt(i, e) <= Debt(j, e)
  {
    ProductOrder(i, j, e);
  }

  /** How long a burst from a sender with the period `d` can be: there is no slack at all at `10 * c + 1`, and each
      clock less is paid for with every report, out of a credit of ten bits. */
  lemma BurstLength(c: nat, reports: seq<Event>, first: nat, d: nat)
    requires Steady(reports, first, d) && reports != []
    ensures InTime(c, reports) <==> (|reports| - 1) * (10 * c + 1 - d) <= 10 * c
  {
    var m, e := |reports| - 1, 10 * c + 1 - d;
    assert Debt(m, e) == m * e;
    hide TakenAt;
    hide Steady;
    if 10 * c < d {
      ProductOrder(m, m, e);
      SlowInTime(c, reports, first, d);
    } else if m == 0 {
      assert InTime(c, reports);
    } else {
      FastInTime(c, reports, first, d);
    }
  }
}
