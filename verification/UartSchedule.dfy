/** What the echo sends, from what arrives on its line alone, whether bytes are lost or not. */
module UartSchedule {
  import opened Serial
  import opened UartEcho
  import opened UartBacklog
  import opened UartLink
  import opened UartScan
  import Tx = UartTx
  import Rx = UartRx

  /** How many of the reports came before edge `t`. */
  function Before(reports: seq<Event>, t: nat): (k: nat)
    ensures k <= |reports|
  {
    if reports == [] then 0 else
      var m := |reports| - 1;
      Before(reports[..m], t) + (if reports[m].clock < t then 1 else 0)
  }

  /** The edge of the last taking; 0, where nothing can have come yet, if there was none. */
  function LastTaking(taken: seq<Event>): nat {
    if taken == [] then 0 else taken[|taken| - 1].clock
  }

  /** A byte is taken at edge `t` if ten bits have passed since the last one was, and a report has come since. */
  predicate Due(c: nat, reports: seq<Event>, taken: seq<Event>, t: nat) {
    && (taken != [] ==> LastTaking(taken) + 10 * c < t)
    && Before(reports, LastTaking(taken)) < Before(reports, t)
  }

  /** The bytes taken before edge `n`: each time the one that was reported last. */
  function Echoed(c: nat, reports: seq<Event>, n: nat): (taken: seq<Event>)
    ensures forall i | 0 <= i < |taken| :: taken[i].clock < n
  {
    if n == 0 then [] else
      var t := n - 1;
      var taken := Echoed(c, reports, t);
      if Due(c, reports, taken, t) then taken + [Event(t, reports[Before(reports, t) - 1].byte)] else taken
  }

  // ---- Reports that come later ----

  lemma BeforeSnoc(reports: seq<Event>, e: Event, t: nat)
    ensures Before(reports + [e], t) == Before(reports, t) + (if e.clock < t then 1 else 0)
  {
    assert (reports + [e])[..|reports|] == reports;
  }

  lemma {:induction false} AllBefore(reports: seq<Event>, t: nat)
    requires forall i | 0 <= i < |reports| :: reports[i].clock < t
    ensures Before(reports, t) == |reports|
  {
    if reports != [] {
      AllBefore(reports[..|reports| - 1], t);
    }
  }

  /** What comes at edge `n - 1` or later has no part in what is taken before edge `n`. */
  lemma {:induction false} LaterReport(c: nat, reports: seq<Event>, e: Event, n: nat)
    requires n <= e.clock + 1
    ensures Echoed(c, reports + [e], n) == Echoed(c, reports, n)
  {
    if n != 0 {
      var t, all := n - 1, reports + [e];
      LaterReport(c, reports, e, t);
      var taken := Echoed(c, reports, t);
      BeforeSnoc(reports, e, t);
      BeforeSnoc(reports, e, LastTaking(taken));
      hide Before;
    }
  }

  // ---- One clock edge ----

  /** Before edge `n`: a byte is held exactly if one has been reported since the last taking, and it is the last. */
  predicate Holds(c: Cycles, n: nat, r: Regs, reports: seq<Event>, taken: seq<Event>) {
    && Tx.Follows(c, r.tx, n, taken)
    && (forall i | 0 <= i < |reports| :: reports[i].clock < n)
    && (r.held.valid <==> Before(reports, LastTaking(taken)) < |reports|)
    && (r.held.valid ==> r.held.data == reports[|reports| - 1].byte)
  }

  lemma AcceptsWhenDue(c: Cycles, n: nat, r: Regs, reports: seq<Event>, taken: seq<Event>)
    requires Holds(c, n, r, reports, taken)
    ensures Tx.Accepts(r.tx, r.held) <==> Due(c, reports, taken, n)
    ensures r.held.valid ==> (r.tx.ready <==> Tx.Accepts(r.tx, r.held))
    ensures Tx.Accepts(r.tx, r.held) ==>
              Before(reports, n) == |reports| && 0 < |reports| && r.held.data == reports[|reports| - 1].byte
  {
    Tx.FollowsNext(c, r.tx, n, taken, r.held);
    AllBefore(reports, n);
    hide Before;
  }

  lemma HoldsNext(c: Cycles, n: nat, r: Regs, pin: bool, reports: seq<Event>, taken: seq<Event>)
    requires Holds(c, n, r, reports, taken)
    ensures Holds(c, n + 1, Next(c, r, pin),
                  if r.rx.valid then reports + [Event(n, r.rx.data)] else reports,
                  if Tx.Accepts(r.tx, r.held) then taken + [Event(n, r.held.data)] else taken)
  {
    AcceptsWhenDue(c, n, r, reports, taken);
    Tx.FollowsNext(c, r.tx, n, taken, r.held);
    AllBefore(reports, n);
    var more := if Tx.Accepts(r.tx, r.held) then taken + [Event(n, r.held.data)] else taken;
    LastIsBefore(c, r.tx, n, taken);
    BeforeSnoc(reports, Event(n, r.rx.data), LastTaking(more));
    hide Before;
    hide Tx.Follows;
    hide Tx.Next;
    hide Rx.Next;
    hide Tx.Accepts;
  }

  lemma LastIsBefore(c: Cycles, t: Tx.Regs, n: nat, taken: seq<Event>)
    requires Tx.Follows(c, t, n, taken)
    ensures LastTaking(taken) <= n
  {
    hide Tx.InFrame;
  }

  // ---- Whole runs ----

  lemma NothingHeld(c: Cycles, pins: seq<bool>)
    requires pins == []
    ensures Holds(c, |pins|, After(c, pins), Rx.Reports(c, pins), Taken(c, pins))
    ensures Taken(c, pins) == Echoed(c, Rx.Reports(c, pins), |pins|)
  {
    assert Held(c, pins) == [] && Before([], 0) == 0;
  }

  lemma {:induction false} RunHolds(c: Cycles, pins: seq<bool>)
    ensures Holds(c, |pins|, After(c, pins), Rx.Reports(c, pins), Taken(c, pins))
    ensures Taken(c, pins) == Echoed(c, Rx.Reports(c, pins), |pins|)
  {
    hide *;
    if pins == [] {
      NothingHeld(c, pins);
    } else {
      var n := |pins| - 1;
      RunHolds(c, pins[..n]);
      var r, reports, taken := After(c, pins[..n]), Rx.Reports(c, pins[..n]), Taken(c, pins[..n]);
      OneEdge(c, pins, n);
      HoldsNext(c, n, r, pins[n], reports, taken);
      AcceptsWhenDue(c, n, r, reports, taken);
      EchoedNext(c, reports, n);
      LaterReport(c, reports, Event(n, r.rx.data), n + 1);
    }
  }

  lemma EchoedNext(c: nat, reports: seq<Event>, n: nat)
    ensures var taken := Echoed(c, reports, n);
            && (Due(c, reports, taken, n) ==> 0 < Before(reports, n))
            && Echoed(c, reports, n + 1) == if Due(c, reports, taken, n)
                                            then taken + [Event(n, reports[Before(reports, n) - 1].byte)] else taken
  {
    hide Before;
  }

  /** For every line: what the echo takes for sending, and when, follows from the reports. */
  lemma TakenIsEchoed(c: Cycles, pins: seq<bool>)
    ensures Taken(c, pins) == Echoed(c, Rx.Reports(c, pins), |pins|)
  {
    RunHolds(c, pins);
  }

  // ---- The same, from one taking to the next ----

  predicate Ascending(reports: seq<Event>) {
    forall i, j | 0 <= i < j < |reports| :: reports[i].clock < reports[j].clock
  }

  lemma {:induction false} ReportsAscend(c: nat, pins: seq<bool>)
    ensures Ascending(Rx.Reports(c, pins))
  {
    if pins != [] {
      var n := |pins| - 1;
      ReportsAscend(c, pins[..n]);
      Rx.RunNext(c, pins, n);
      hide Rx.Next;
      hide Rx.After;
    }
  }

  /** The reports before `t` are the first so many. */
  lemma {:induction false} BeforeSplits(reports: seq<Event>, t: nat)
    requires Ascending(reports)
    ensures forall i | 0 <= i < |reports| :: i < Before(reports, t) <==> reports[i].clock < t
  {
    if reports != [] {
      var m := |reports| - 1;
      BeforeSplits(reports[..m], t);
      if reports[m].clock < t {
        AllBefore(reports[..m], t);
      }
    }
  }

  function Later(a: nat, b: nat): nat {
    if a < b then b else a
  }

  /** The edge of the next taking: when the transmitter is free again, or one clock after the first report that has
      come since the last taking. */
  function NextTaking(c: nat, reports: seq<Event>, taken: seq<Event>): nat
    requires Before(reports, LastTaking(taken)) < |reports|
  {
    Later(if taken == [] then 0 else LastTaking(taken) + 10 * c + 1,
          reports[Before(reports, LastTaking(taken))].clock + 1)
  }

  /** Taking number `k` is at its edge, and takes the last byte that was reported before that edge; of the bytes
      reported since the taking before, all others are lost. */
  predicate KeepsSchedule(c: nat, reports: seq<Event>, taken: seq<Event>, k: nat)
    requires k < |taken|
  {
    && Before(reports, LastTaking(taken[..k])) < |reports|
    && taken[k].clock == NextTaking(c, reports, taken[..k])
    && 0 < Before(reports, taken[k].clock)
    && taken[k].byte == reports[Before(reports, taken[k].clock) - 1].byte
  }

  lemma KeepsScheduleOnwards(c: nat, reports: seq<Event>, taken: seq<Event>, e: Event, k: nat)
    requires k < |taken|
    ensures KeepsSchedule(c, reports, taken + [e], k) <==> KeepsSchedule(c, reports, taken, k)
  {
    assert (taken + [e])[..k] == taken[..k];
    hide Before;
  }

  /** An edge at which a taking is due is the edge of the next taking, and no edge is passed over. */
  lemma DueIsNext(c: nat, reports: seq<Event>, taken: seq<Event>, t: nat)
    requires Ascending(reports) && LastTaking(taken) <= t
    requires Before(reports, LastTaking(taken)) < |reports| ==> t <= NextTaking(c, reports, taken)
    ensures Due(c, reports, taken, t)
       <==> Before(reports, LastTaking(taken)) < |reports| && t == NextTaking(c, reports, taken)
  {
    BeforeSplits(reports, t);
    hide Before;
  }

  /** Each next byte is taken at the later of ten bits and a clock after the last taking and a clock after the first
      report since then, and is the one reported last; if a report is left over, its time has not come. */
  lemma {:induction false} EchoedOnSchedule(c: nat, reports: seq<Event>, n: nat)
    requires Ascending(reports)
    ensures var taken := Echoed(c, reports, n);
            && (forall k | 0 <= k < |taken| :: KeepsSchedule(c, reports, taken, k))
            && (Before(reports, LastTaking(taken)) < |reports| ==> n <= NextTaking(c, reports, taken))
  {
    hide *;
    if n == 0 {
      NothingEchoed(c, reports);
    } else {
      var t := n - 1;
      var taken := Echoed(c, reports, t);
      EchoedOnSchedule(c, reports, t);
      LastTakingIs(taken);
      DueIsNext(c, reports, taken, t);
      EchoedNext(c, reports, t);
      if Due(c, reports, taken, t) {
        OneMoreTaking(c, reports, taken, Event(t, reports[Before(reports, t) - 1].byte));
      }
    }
  }

  lemma NothingEchoed(c: nat, reports: seq<Event>)
    ensures Echoed(c, reports, 0) == []
  {
  }

  lemma OneMoreTaking(c: nat, reports: seq<Event>, taken: seq<Event>, e: Event)
    requires forall k | 0 <= k < |taken| :: KeepsSchedule(c, reports, taken, k)
    requires Before(reports, LastTaking(taken)) < |reports| && e.clock == NextTaking(c, reports, taken)
    requires 0 < Before(reports, e.clock) && e.byte == reports[Before(reports, e.clock) - 1].byte
    ensures forall k | 0 <= k < |taken + [e]| :: KeepsSchedule(c, reports, taken + [e], k)
    ensures LastTaking(taken + [e]) == e.clock
    ensures Before(reports, e.clock) < |reports| ==> e.clock + 1 <= NextTaking(c, reports, taken + [e])
  {
    hide *;
    forall k | 0 <= k < |taken| ensures KeepsSchedule(c, reports, taken + [e], k) {
      KeepsScheduleOnwards(c, reports, taken, e, k);
    }
    KeepsScheduleNow(c, reports, taken, e);
  }

  lemma LastTakingIs(taken: seq<Event>)
    ensures LastTaking(taken) == if taken == [] then 0 else taken[|taken| - 1].clock
  {
  }

  lemma KeepsScheduleNow(c: nat, reports: seq<Event>, taken: seq<Event>, e: Event)
    requires Before(reports, LastTaking(taken)) < |reports| && e.clock == NextTaking(c, reports, taken)
    requires 0 < Before(reports, e.clock) && e.byte == reports[Before(reports, e.clock) - 1].byte
    ensures KeepsSchedule(c, reports, taken + [e], |taken|)
    ensures LastTaking(taken + [e]) == e.clock
    ensures Before(reports, e.clock) < |reports| ==> e.clock + 1 <= NextTaking(c, reports, taken + [e])
  {
    hide *;
    var all := taken + [e];
    assert all[..|taken|] == taken && all[|taken|] == e;
    KeepsScheduleIs(c, reports, all, |taken|);
    LastTakingIs(all);
    if Before(reports, e.clock) < |reports| {
      NextTakingIsLater(c, reports, all);
    }
  }

  lemma KeepsScheduleIs(c: nat, reports: seq<Event>, taken: seq<Event>, k: nat)
    requires k < |taken|
    ensures KeepsSchedule(c, reports, taken, k) <==>
            && Before(reports, LastTaking(taken[..k])) < |reports|
            && taken[k].clock == NextTaking(c, reports, taken[..k])
            && 0 < Before(reports, taken[k].clock)
            && taken[k].byte == reports[Before(reports, taken[k].clock) - 1].byte
  {
    hide Before;
    hide NextTaking;
    hide LastTaking;
  }

  lemma NextTakingIsLater(c: nat, reports: seq<Event>, taken: seq<Event>)
    requires taken != [] && Before(reports, LastTaking(taken)) < |reports|
    ensures LastTaking(taken) + 10 * c + 1 <= NextTaking(c, reports, taken)
  {
    hide Before;
    hide LastTaking;
  }

  // ---- The board as a whole ----

  lemma {:induction false} HeldPrefix(c: nat, pins: seq<bool>, k: nat)
    requires k <= |pins|
    ensures Held(c, pins)[..k] == Held(c, pins[..k])
  {
    hide *;
    if k == |pins| {
      assert pins[..k] == pins && Held(c, pins)[..k] == Held(c, pins);
    } else {
      var n := |pins| - 1;
      HeldPrefix(c, pins[..n], k);
      HeldNext(c, pins, n);
      assert pins[..n][..k] == pins[..k] && Held(c, pins)[..n][..k] == Held(c, pins)[..k];
    }
  }

  /** For every line: from its levels alone, which bytes are taken when, the level of the outgoing line at every edge,
      and what a receiver on that line is given. */
  lemma EchoOfAnyLine(c: Cycles, pins: seq<bool>)
    ensures Taken(c, pins) == Echoed(c, Scan(c, pins), |pins|)
    ensures forall k | 0 <= k < |pins| ::
              Line(c, pins)[k] == Tx.LevelAfter(c, Echoed(c, Scan(c, pins[..k]), k), k)
    ensures Delivers(Echoed(c, Scan(c, pins), |pins|), Rx.Reports(c, Line(c, pins)), Latency(c), |pins|)
  {
    hide *;
    ReportsAreScanned(c, pins);
    TakenIsEchoed(c, pins);
    EchoDelivers(c, pins);
    Parts(c, pins);
    forall k | 0 <= k < |pins|
      ensures Line(c, pins)[k] == Tx.LevelAfter(c, Echoed(c, Scan(c, pins[..k]), k), k)
    {
      Tx.LineIsWaveform(c, Held(c, pins), k);
      HeldPrefix(c, pins, k);
      ReportsAreScanned(c, pins[..k]);
      TakenIsEchoed(c, pins[..k]);
      TakenIs(c, pins[..k]);
      Tx.LatchedIsOffered(c, Held(c, pins[..k]));
    }
  }
}
