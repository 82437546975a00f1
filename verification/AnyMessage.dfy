/** Messages as the reference encoder takes them: the totals are checked, the frequencies are not. */
module AnyMessage {
  import opened Bits
  import opened BitStreams
  import opened Tables
  import opened Intervals
  import opened ZeroFrequency
  import opened Encoder
  import opened Decoder
  import opened RoundTrip

  /** A symbol of the table, and a total that `update` neither refuses nor divides by in vain. */
  predicate Takes(p: Params, t: Table, symbol: nat) {
    symbol < t.Limit() && 0 < t.Total() <= MaxTotal(p)
  }

  ghost predicate Accepted(p: Params, sched: Schedule, msg: seq<nat>) {
    forall i: nat | i < |msg| :: Takes(p, sched(msg[..i]), msg[i])
  }

  lemma AcceptedPrefix(p: Params, sched: Schedule, msg: seq<nat>, k: nat)
    requires Accepted(p, sched, msg) && k <= |msg|
    ensures Accepted(p, sched, msg[..k])
  {
    forall i: nat | i < k
      ensures Takes(p, sched(msg[..k][..i]), msg[..k][i])
    {
      assert msg[..k][..i] == msg[..i];
    }
  }

  /** The encoder after the symbols of a message. */
  ghost function Run(p: Params, sched: Schedule, msg: seq<nat>): (e: Enc)
    requires p.slack == 1 && Accepted(p, sched, msg)
    ensures Resting(p, e.iv)
    decreases |msg|
  {
    Halves(p);
    if msg == [] then Start(p) else
      var k := |msg| - 1;
      AcceptedPrefix(p, sched, msg, k);
      CodeAny(p, Run(p, sched, msg[..k]), sched(msg[..k]), msg[k])
  }

  lemma NothingRun(p: Params, sched: Schedule)
    requires p.slack == 1
    ensures Accepted(p, sched, []) && Run(p, sched, []) == Start(p) && Resting(p, Start(p).iv)
    ensures Codable(p, sched, []) && Encode(p, sched, []) == Start(p)
  {
    Halves(p);
    hide Pow2;
  }

  lemma RunNext(p: Params, sched: Schedule, msg: seq<nat>, k: nat)
    requires p.slack == 1 && Accepted(p, sched, msg) && k < |msg|
    ensures Accepted(p, sched, msg[..k]) && Accepted(p, sched, msg[..k + 1])
    ensures Takes(p, sched(msg[..k]), msg[k])
    ensures Run(p, sched, msg[..k + 1]) == CodeAny(p, Run(p, sched, msg[..k]), sched(msg[..k]), msg[k])
  {
    AcceptedPrefix(p, sched, msg, k);
    AcceptedPrefix(p, sched, msg, k + 1);
    assert msg[..k + 1][..k] == msg[..k];
    hide Takes;
    hide CodeAny;
  }

  /** Whether symbol `k` of the message has a frequency at all. */
  predicate Occurs(sched: Schedule, msg: seq<nat>, k: nat)
    requires k < |msg| && msg[k] < sched(msg[..k]).Limit()
  {
    sched(msg[..k]).Low(msg[k]) < sched(msg[..k]).High(msg[k])
  }

  lemma FitsIfOccurs(p: Params, sched: Schedule, msg: seq<nat>, k: nat)
    requires k < |msg| && Takes(p, sched(msg[..k]), msg[k])
    ensures Fits(p, sched(msg[..k]), msg[k]) <==> Occurs(sched, msg, k)
  {
    hide TableData.Valid;
    hide MaxTotal;
  }

  /** Of the accepted messages, the codable ones are those without a symbol of frequency zero. */
  lemma CodableIfAllOccur(p: Params, sched: Schedule, msg: seq<nat>)
    requires Accepted(p, sched, msg)
    ensures Codable(p, sched, msg)
       <==> forall k: nat | k < |msg| :: Takes(p, sched(msg[..k]), msg[k]) && Occurs(sched, msg, k)
  {
    forall k: nat | k < |msg|
      ensures Takes(p, sched(msg[..k]), msg[k])
      ensures Fits(p, sched(msg[..k]), msg[k]) <==> Occurs(sched, msg, k)
    {
      FitsIfOccurs(p, sched, msg, k);
    }
    hide Takes;
    hide Fits;
    hide Occurs;
  }

  /** On codable messages this is the coder of the other modules. */
  lemma {:induction false} RunIsEncode(p: Params, sched: Schedule, msg: seq<nat>, n: nat)
    requires p.slack == 1 && Accepted(p, sched, msg) && Codable(p, sched, msg) && n <= |msg|
    ensures Accepted(p, sched, msg[..n]) && Codable(p, sched, msg[..n])
    ensures Run(p, sched, msg[..n]) == Encode(p, sched, msg[..n])
  {
    hide *;
    AcceptedPrefix(p, sched, msg, n);
    CodablePrefix(p, sched, msg, n);
    if n == 0 {
      assert msg[..0] == [];
      NothingRun(p, sched);
    } else {
      RunIsEncode(p, sched, msg, n - 1);
      RunNext(p, sched, msg, n - 1);
      LastSymbol(p, sched, msg, n - 1);
      TakesMeans(p, sched(msg[..n - 1]), msg[n - 1]);
      CodeAnyCases(p, Run(p, sched, msg[..n - 1]), sched(msg[..n - 1]), msg[n - 1]);
    }
  }

  lemma TakesMeans(p: Params, t: Table, symbol: nat)
    requires Takes(p, t, symbol)
    ensures symbol < t.Limit() && 0 < t.Total() <= MaxTotal(p)
  {
  }

  /** After a symbol of frequency zero nothing is written and nothing is held back any more, whatever follows. */
  lemma {:induction false} Frozen(p: Params, sched: Schedule, msg: seq<nat>, k: nat, n: nat)
    requires p.slack == 1 && Accepted(p, sched, msg) && k < n <= |msg|
    requires Takes(p, sched(msg[..k]), msg[k]) && !Occurs(sched, msg, k)
    ensures Accepted(p, sched, msg[..k + 1]) && Accepted(p, sched, msg[..n])
    ensures Dead(p, Run(p, sched, msg[..k + 1]).iv)
    ensures Run(p, sched, msg[..n]) == Run(p, sched, msg[..k + 1])
    decreases n
  {
    NoFrequency(sched, msg, k);
    hide *;
    TakesMeans(p, sched(msg[..k]), msg[k]);
    if n == k + 1 {
      RunNext(p, sched, msg, k);
      CodeAnyCases(p, Run(p, sched, msg[..k]), sched(msg[..k]), msg[k]);
    } else {
      Frozen(p, sched, msg, k, n - 1);
      RunNext(p, sched, msg, n - 1);
      TakesMeans(p, sched(msg[..n - 1]), msg[n - 1]);
      CodeAnyCases(p, Run(p, sched, msg[..n - 1]), sched(msg[..n - 1]), msg[n - 1]);
    }
  }

  lemma NoFrequency(sched: Schedule, msg: seq<nat>, k: nat)
    requires k < |msg| && msg[k] < sched(msg[..k]).Limit() && !Occurs(sched, msg, k)
    ensures sched(msg[..k]).Low(msg[k]) == sched(msg[..k]).High(msg[k])
  {
    BoundsInTotal(sched(msg[..k]), msg[k]);
    hide TableData.Valid;
  }

  /** So two messages that agree up to such a symbol have one code. */
  lemma RestIsLost(p: Params, sched: Schedule, a: seq<nat>, b: seq<nat>, k: nat)
    requires p.slack == 1 && Accepted(p, sched, a) && Accepted(p, sched, b)
    requires k < |a| && k < |b| && a[..k + 1] == b[..k + 1]
    requires Takes(p, sched(a[..k]), a[k]) && !Occurs(sched, a, k)
    ensures Run(p, sched, a) == Run(p, sched, b)
  {
    assert a[..k] == a[..k + 1][..k] && b[..k] == b[..k + 1][..k];
    assert a[k] == a[..k + 1][k] && b[k] == b[..k + 1][k];
    SameOccurs(sched, a, b, k);
    hide *;
    Frozen(p, sched, a, k, |a|);
    Frozen(p, sched, b, k, |b|);
    assert a[..|a|] == a && b[..|b|] == b;
  }

  lemma SameOccurs(sched: Schedule, a: seq<nat>, b: seq<nat>, k: nat)
    requires k < |a| && k < |b| && a[..k] == b[..k] && a[k] == b[k] && a[k] < sched(a[..k]).Limit()
    ensures Occurs(sched, a, k) <==> Occurs(sched, b, k)
  {
  }

  /** The round trip of every message the encoder accepts: it is decoded from its finished code, continued by zeros,
      if and only if all its symbols have positive frequencies. */
  lemma DecodedIfCodable(p: Params, sched: Schedule, msg: seq<nat>, s: seq<bit>)
    requires p.slack == 1 && Accepted(p, sched, msg)
    requires forall i: nat :: BitAt(s, i) == BitAt(Run(p, sched, msg).out.bits + [1], i)
    ensures var r := Decode(p, sched, s, |msg|);
            (r.Decoded? && r.symbols == msg) <==> Codable(p, sched, msg)
  {
    var r := Decode(p, sched, s, |msg|);
    assert msg[..|msg|] == msg;
    if Codable(p, sched, msg) {
      RunIsEncode(p, sched, msg, |msg|);
      assert Finished(p, sched, msg) == Run(p, sched, msg).out.bits + [1];
      hide *;
      DecodeInvertsEncode(p, sched, msg, s);
    } else {
      hide *;
      if r.Decoded? && r.symbols == msg {
        DecodedInStep(p, sched, s, |msg|);
        assert false;
      }
    }
  }

  /** The file left behind by coding, flushing and closing. */
  ghost predicate IsFileOfRun(p: Params, sched: Schedule, msg: seq<nat>, file: seq<byte>)
    requires p.slack == 1 && Accepted(p, sched, msg)
  {
    var bits := Run(p, sched, msg).out.bits + [1];
    BytesToBits(file) == bits + Copies(0, Padding(|bits|))
  }

  lemma FileBits(p: Params, sched: Schedule, msg: seq<nat>, file: seq<byte>)
    requires p.slack == 1 && Accepted(p, sched, msg) && IsFileOfRun(p, sched, msg, file)
    ensures forall i: nat :: BitAt(BytesToBits(file), i) == BitAt(Run(p, sched, msg).out.bits + [1], i)
    ensures Codable(p, sched, msg) ==> IsFileOf(p, sched, msg, file)
  {
    assert msg[..|msg|] == msg;
    if Codable(p, sched, msg) {
      RunIsEncode(p, sched, msg, |msg|);
    }
    hide Run;
    hide Encode;
    hide BytesToBits;
    hide Copies;
    hide Codable;
    hide Accepted;
  }
}
