/** What encoder and decoder promise each other. */
module RoundTrip {
  import opened Bits
  import opened BitStreams
  import opened Tables
  import opened Intervals
  import opened Encoder
  import opened Decoder

  // ---- Encoder and decoder in step ----

  /** The decoder's window is the stream read so far, seen from the encoder's offset. */
  ghost predicate InStep(p: Params, s: seq<bit>, e: Enc, d: Dec) {
    && d.iv == e.iv
    && d.position == p.stateSize + Depth(e.out)
    && Peek(s, d.position) == Offset(p, e.out) + d.code
  }

  lemma StartInStep(p: Params, s: seq<bit>)
    ensures InStep(p, s, Start(p), Begin(p, s))
  {
    assert Offset(p, Output([], 0)) == 0;
  }

  lemma {:induction false} ResettleInStep(p: Params, s: seq<bit>, d: Dec, offset: int)
    requires Proper(p, d.iv) && Peek(s, d.position) == offset + d.code
    ensures var r, settled := Resettle(p, s, d), Settle(p, d.iv);
            && r.iv == settled.iv
            && r.position == d.position + |settled.steps|
            && Peek(s, r.position) == Offsets(p, offset, settled.steps) + r.code
    decreases Full(p) - (d.iv.high - d.iv.low)
  {
    Halves(p);
    var next := NextStep(p, d.iv);
    if next != [] {
      var d' := Follow(p, s, d, next[0]);
      ResettleInStep(p, s, d', StepOffset(p, offset, next[0]));
      var steps := Settle(p, d.iv).steps;
      assert steps[0] == next[0] && steps[1..] == Settle(p, d'.iv).steps;
    }
  }

  /** Decoding a symbol and coding that symbol keep the two in step. */
  lemma TakeInStep(p: Params, s: seq<bit>, e: Enc, d: Dec, t: Table)
    requires p.slack == 1 && Straddling(p, d.iv) && InWindow(d) && 0 < t.Total() <= MaxTotal(p)
    requires InStep(p, s, e, d)
    ensures Fits(p, t, Choose(p, d, t))
    ensures InStep(p, s, Code(p, e, t, Choose(p, d, t)), Take(p, s, d, t))
  {
    var symbol := Choose(p, d, t);
    ChooseExact(p, d, t, symbol);
    NarrowChosen(p, d, t);
    var narrowed := d.(iv := Narrow(p, d.iv, t, symbol));
    ResettleInStep(p, s, narrowed, Offset(p, e.out));
    EmitAllOffset(p, e.out, Settle(p, narrowed.iv).steps);
  }

  // ---- Streams inside an interval ----

  /** The stream, as a number, lies in the encoder's interval on the doubled number line. */
  ghost predicate Holds(p: Params, s: seq<bit>, e: Enc) {
    BigLow(p, e) <= Peek(s, p.stateSize + Depth(e.out)) < BigEnd(p, e)
  }

  lemma {:induction false} DoubledOrder(x: int, y: int, k: nat)
    requires Doubled(x, k) < Doubled(y, k)
    ensures x < y
    decreases k
  {
    if k != 0 {
      DoubledOrder(2 * x, 2 * y, k - 1);
    }
  }

  /** The intervals are nested: a stream inside the interval after a symbol lies, read to the shorter
      length, inside that symbol's share of the interval before. */
  lemma Nested(p: Params, s: seq<bit>, e: Enc, t: Table, symbol: nat)
    requires Straddling(p, e.iv) && Fits(p, t, symbol)
    requires Holds(p, s, Code(p, e, t, symbol))
    ensures var v := Peek(s, p.stateSize + Depth(e.out)) - Offset(p, e.out);
            Narrow(p, e.iv, t, symbol).low <= v <= Narrow(p, e.iv, t, symbol).high
    ensures Holds(p, s, e)
  {
    CodeRefines(p, e, t, symbol);
    NarrowInside(p, e.iv, t, symbol);
    var e', iv, k := Code(p, e, t, symbol), Narrow(p, e.iv, t, symbol), p.stateSize + Depth(e.out);
    var d := Depth(e'.out) - Depth(e.out);
    PeekRefines(s, k, d);
    DoubledIs(Peek(s, k), d);
    DoubledIs(Peek(s, k) + 1, d);
    assert k + d == p.stateSize + Depth(e'.out);
    DoubledOrder(Offset(p, e.out) + iv.low, Peek(s, k) + 1, d);
    DoubledOrder(Peek(s, k), Offset(p, e.out) + iv.high + 1, d);
  }

  lemma {:induction false} NestedMessage(p: Params, sched: Schedule, msg: seq<nat>, s: seq<bit>, k: nat)
    requires Codable(p, sched, msg) && k <= |msg| && Holds(p, s, Encode(p, sched, msg))
    ensures Codable(p, sched, msg[..k]) && Holds(p, s, Encode(p, sched, msg[..k]))
    decreases |msg| - k
  {
    if k == |msg| {
      assert msg[..k] == msg;
    } else {
      NestedMessage(p, sched, msg, s, k + 1);
      LastSymbol(p, sched, msg, k);
      Nested(p, s, Encode(p, sched, msg[..k]), sched(msg[..k]), msg[k]);
    }
  }

  lemma LastSymbol(p: Params, sched: Schedule, msg: seq<nat>, k: nat)
    requires Codable(p, sched, msg) && k < |msg|
    ensures Codable(p, sched, msg[..k]) && Codable(p, sched, msg[..k + 1])
    ensures Fits(p, sched(msg[..k]), msg[k])
    ensures Encode(p, sched, msg[..k + 1]) == Code(p, Encode(p, sched, msg[..k]), sched(msg[..k]), msg[k])
  {
    CodablePrefix(p, sched, msg, k);
    CodablePrefix(p, sched, msg, k + 1);
    assert msg[..k + 1][..k] == msg[..k];
    assert Fits(p, sched(msg[..k]), msg[k]);
    hide Fits;
  }

  /** The single bit written by `finish`, followed by zeros, puts the stream inside the last interval,
      whatever has been held back. */
  lemma FlushSuffices(p: Params, e: Enc, s: seq<bit>)
    requires Straddling(p, e.iv)
    requires forall i: nat :: BitAt(s, i) == BitAt(e.out.bits + [1], i)
    ensures Holds(p, s, e)
  {
    OffsetIs(p, e.out);
    FlushedValue(e.out.bits, p.stateSize + e.out.pending);
    hide Pow2;
    hide Offset;
    var padded := e.out.bits + [1] + Copies(0, p.stateSize + e.out.pending - 1);
    PeekAgrees(s, padded, p.stateSize + Depth(e.out));
  }

  lemma OffsetIs(p: Params, o: Output)
    ensures Offset(p, o)
         == Value(o.bits) * Pow2(p.stateSize + o.pending) + Pow2(p.stateSize + o.pending - 1) - Half(p)
  {
    Pow2Add(p.stateSize - 1, o.pending);
    LessOne(Half(p), Pow2(o.pending));
    hide Pow2;
    hide Value;
  }

  lemma LessOne(x: int, y: int)
    ensures x * (y - 1) == x * y - x
  {
  }

  lemma FlushedValue(bits: seq<bit>, k: nat)
    requires 0 < k
    ensures Value(bits + [1] + Copies(0, k - 1)) == Value(bits) * Pow2(k) + Pow2(k - 1)
  {
    ValueSnoc(bits, 1);
    ValueCopies(bits + [1], 0, k - 1);
    Pow2Doubles(k - 1);
    hide *;
    OddTimes(Value(bits), Pow2(k - 1));
  }

  lemma OddTimes(v: int, m: int)
    ensures (2 * v + 1) * m + 0 * (m - 1) == v * (2 * m) + m
  {
  }

  // ---- Round trip ----

  lemma DecodeStep(p: Params, sched: Schedule, s: seq<bit>, n: nat)
    requires p.slack == 1 && Decode(p, sched, s, n).Decoded?
    ensures var r := Decode(p, sched, s, n);
            var t := sched(r.symbols);
            if 0 < t.Total() <= MaxTotal(p)
            then Decode(p, sched, s, n + 1) == Decoded(r.symbols + [Choose(p, r.dec, t)], Take(p, s, r.dec, t))
            else Decode(p, sched, s, n + 1) == Refused
  {
  }

  /** After `k` symbols the decoder has the message's first `k` symbols and is in step with the encoder. */
  ghost predicate Follows(p: Params, sched: Schedule, msg: seq<nat>, s: seq<bit>, k: nat)
    requires p.slack == 1 && Codable(p, sched, msg) && k <= |msg|
  {
    CodablePrefix(p, sched, msg, k);
    var r := Decode(p, sched, s, k);
    r.Decoded? && r.symbols == msg[..k] && InStep(p, s, Encode(p, sched, msg[..k]), r.dec)
  }

  /** If the stream ends up inside a symbol's share, the decoder takes that symbol. */
  lemma TakeFollows(p: Params, s: seq<bit>, e: Enc, d: Dec, t: Table, symbol: nat)
    requires p.slack == 1 && Straddling(p, e.iv) && Fits(p, t, symbol)
    requires InStep(p, s, e, d) && Holds(p, s, Code(p, e, t, symbol))
    ensures InWindow(d) && 0 < t.Total() <= MaxTotal(p) && Choose(p, d, t) == symbol
    ensures InStep(p, s, Code(p, e, t, symbol), Take(p, s, d, t))
  {
    Nested(p, s, e, t, symbol);
    NarrowInside(p, e.iv, t, symbol);
    ChooseExact(p, d, t, symbol);
    TakeInStep(p, s, e, d, t);
  }

  lemma FollowsNext(p: Params, sched: Schedule, msg: seq<nat>, s: seq<bit>, k: nat)
    requires p.slack == 1 && Codable(p, sched, msg) && k < |msg|
    requires Follows(p, sched, msg, s, k)
    requires Codable(p, sched, msg[..k + 1]) && Holds(p, s, Encode(p, sched, msg[..k + 1]))
    ensures Follows(p, sched, msg, s, k + 1)
  {
    hide *;
    LastSymbol(p, sched, msg, k);
    FollowsMeans(p, sched, msg, s, k);
    var e, d, t := Encode(p, sched, msg[..k]), Decode(p, sched, s, k).dec, sched(msg[..k]);
    TakeFollows(p, s, e, d, t, msg[k]);
    DecodeStep(p, sched, s, k);
    assert Decode(p, sched, s, k + 1) == Decoded(msg[..k] + [msg[k]], Take(p, s, d, t));
    assert msg[..k] + [msg[k]] == msg[..k + 1];
    FollowsMeans(p, sched, msg, s, k + 1);
  }

  lemma FollowsMeans(p: Params, sched: Schedule, msg: seq<nat>, s: seq<bit>, k: nat)
    requires p.slack == 1 && Codable(p, sched, msg) && k <= |msg|
    ensures Codable(p, sched, msg[..k])
    ensures var r := Decode(p, sched, s, k);
            Follows(p, sched, msg, s, k) <==>
            r.Decoded? && r.symbols == msg[..k] && InStep(p, s, Encode(p, sched, msg[..k]), r.dec)
  {
    CodablePrefix(p, sched, msg, k);
    hide Decode;
    hide Encode;
    hide InStep;
  }

  lemma {:induction false} DecodeFollows(p: Params, sched: Schedule, msg: seq<nat>, s: seq<bit>, k: nat)
    requires p.slack == 1 && Codable(p, sched, msg) && k <= |msg| && Holds(p, s, Encode(p, sched, msg))
    ensures Follows(p, sched, msg, s, k)
  {
    if k == 0 {
      StartInStep(p, s);
    } else {
      DecodeFollows(p, sched, msg, s, k - 1);
      NestedMessage(p, sched, msg, s, k);
      FollowsNext(p, sched, msg, s, k - 1);
    }
  }

  /** Decoding inverts encoding: for every message, every schedule of tables and every state size. */
  lemma DecodeInvertsEncode(p: Params, sched: Schedule, msg: seq<nat>, s: seq<bit>)
    requires p.slack == 1 && Codable(p, sched, msg)
    requires forall i: nat :: BitAt(s, i) == BitAt(Finished(p, sched, msg), i)
    ensures var r := Decode(p, sched, s, |msg|); r.Decoded? && r.symbols == msg
  {
    FlushSuffices(p, Encode(p, sched, msg), s);
    DecodeFollows(p, sched, msg, s, |msg|);
    assert msg[..|msg|] == msg;
  }

  // ---- Re-encoding ----

  lemma {:induction false} DecodedInStep(p: Params, sched: Schedule, s: seq<bit>, n: nat)
    requires p.slack == 1 && Decode(p, sched, s, n).Decoded?
    ensures var r := Decode(p, sched, s, n);
            Codable(p, sched, r.symbols) && InStep(p, s, Encode(p, sched, r.symbols), r.dec)
  {
    if n == 0 {
      StartInStep(p, s);
    } else {
      DecodedInStep(p, sched, s, n - 1);
      var before, after := Decode(p, sched, s, n - 1), Decode(p, sched, s, n);
      var msg, k := after.symbols, n - 1;
      assert msg[..k] == before.symbols;
      TakeInStep(p, s, Encode(p, sched, before.symbols), before.dec, sched(before.symbols));
      forall i: nat | i < n
        ensures Fits(p, sched(msg[..i]), msg[i])
      {
        assert msg[..i] == before.symbols[..i];
      }
    }
  }

  /** For every stream whatsoever: what was decoded from it can be encoded, and encoding it writes,
      before the flush, the beginning of that same stream. */
  lemma ReencodeGivesPrefix(p: Params, sched: Schedule, s: seq<bit>, n: nat)
    requires p.slack == 1 && Decode(p, sched, s, n).Decoded?
    ensures var msg := Decode(p, sched, s, n).symbols;
            && Codable(p, sched, msg)
            && var bits := Encode(p, sched, msg).out.bits;
               forall i: nat | i < |bits| :: bits[i] == BitAt(s, i)
  {
    DecodedInStep(p, sched, s, n);
    var r := Decode(p, sched, s, n);
    WrittenIsRead(p, s, Encode(p, sched, r.symbols), r.dec);
  }

  /** In step, what has been written is what has been read. */
  lemma WrittenIsRead(p: Params, s: seq<bit>, e: Enc, d: Dec)
    requires InStep(p, s, e, d) && Proper(p, d.iv) && InWindow(d)
    ensures forall i: nat | i < |e.out.bits| :: e.out.bits[i] == BitAt(s, i)
  {
    var bits, k := e.out.bits, p.stateSize + e.out.pending;
    OffsetIs(p, e.out);
    PeekRefines(s, |bits|, k);
    HalfAtMost(p, k);
    assert Value(bits) == Peek(bits, |bits|) && |bits| + k == d.position && 0 <= d.code < Full(p);
    hide *;
    SameQuotient(Pow2(k), Value(bits), Peek(s, |bits|), Pow2(k - 1) - Half(p) + d.code);
    PeekInjective(s, bits, |bits|);
  }

  lemma HalfAtMost(p: Params, k: nat)
    requires p.stateSize <= k
    ensures Half(p) <= Pow2(k - 1) && Pow2(k) == 2 * Pow2(k - 1) && Full(p) == 2 * Half(p)
  {
    Pow2Add(p.stateSize - 1, k - p.stateSize);
    var rest := Pow2(k - p.stateSize);
    ProductIsNat(rest - 1, Half(p));
    LessOne(Half(p), rest);
    Halves(p);
    Pow2Doubles(k - 1);
    hide Pow2;
  }

  lemma SameQuotient(m: nat, v: nat, w: nat, r: nat)
    requires 0 < m && r < m && m * w <= v * m + r < m * (w + 1)
    ensures v == w
  {
    MultipleIsFar(v - w, m);
    assert (v - w) * m == v * m - m * w;
    assert m * (w + 1) == m * w + m;
  }

  lemma InStepHolds(p: Params, s: seq<bit>, e: Enc, d: Dec)
    requires InStep(p, s, e, d) && InWindow(d)
    ensures Holds(p, s, e)
  {
    hide Offset;
    hide Peek;
    hide Depth;
  }

  /** What the decoder makes of any stream: it reads the message if and only if the stream, as a number, lies in
      the interval to which the encoder narrows for that message. */
  lemma DecodesExactly(p: Params, sched: Schedule, msg: seq<nat>, s: seq<bit>)
    requires p.slack == 1 && Codable(p, sched, msg)
    ensures var r := Decode(p, sched, s, |msg|);
            (r.Decoded? && r.symbols == msg) <==> Holds(p, s, Encode(p, sched, msg))
  {
    hide *;
    var r := Decode(p, sched, s, |msg|);
    assert msg[..|msg|] == msg;
    if r.Decoded? && r.symbols == msg {
      DecodedInStep(p, sched, s, |msg|);
      InStepHolds(p, s, Encode(p, sched, msg), r.dec);
    }
    if Holds(p, s, Encode(p, sched, msg)) {
      DecodeFollows(p, sched, msg, s, |msg|);
      FollowsMeans(p, sched, msg, s, |msg|);
    }
  }

  // ---- Distinct messages ----

  lemma SharesApart(p: Params, s: seq<bit>, e: Enc, t: Table, a: nat, b: nat)
    requires Straddling(p, e.iv) && Fits(p, t, a) && Fits(p, t, b)
    requires Holds(p, s, Code(p, e, t, a)) && Holds(p, s, Code(p, e, t, b))
    ensures a == b
  {
    Nested(p, s, e, t, a);
    Nested(p, s, e, t, b);
    if a < b {
      NarrowDisjoint(p, e.iv, t, a, b);
    } else if b < a {
      NarrowDisjoint(p, e.iv, t, b, a);
    }
  }

  lemma {:induction false} OneMessagePerStream(p: Params, sched: Schedule, a: seq<nat>, b: seq<nat>,
                                               s: seq<bit>, k: nat)
    requires Codable(p, sched, a) && Codable(p, sched, b) && k <= |a| == |b|
    requires Holds(p, s, Encode(p, sched, a)) && Holds(p, s, Encode(p, sched, b))
    ensures a[..k] == b[..k]
  {
    hide *;
    if k != 0 {
      var j := k - 1;
      OneMessagePerStream(p, sched, a, b, s, j);
      NestedMessage(p, sched, a, s, k);
      NestedMessage(p, sched, b, s, k);
      LastSymbol(p, sched, a, j);
      LastSymbol(p, sched, b, j);
      SharesApart(p, s, Encode(p, sched, a[..j]), sched(a[..j]), a[j], b[j]);
      assert a[..k] == a[..j] + [a[j]];
      assert b[..k] == b[..j] + [b[j]];
    }
  }

  /** Messages of one length under one schedule never give the same file, with either range. */
  lemma FilesDiffer(p: Params, sched: Schedule, a: seq<nat>, b: seq<nat>, file: seq<byte>)
    requires Codable(p, sched, a) && Codable(p, sched, b) && |a| == |b|
    requires IsFileOf(p, sched, a, file) && IsFileOf(p, sched, b, file)
    ensures a == b
  {
    var s := BytesToBits(file);
    FileHolds(p, sched, a, file);
    FileHolds(p, sched, b, file);
    OneMessagePerStream(p, sched, a, b, s, |a|);
    assert a[..|a|] == a && b[..|b|] == b;
  }

  /** The file left behind by coding, flushing and closing. */
  ghost predicate IsFileOf(p: Params, sched: Schedule, msg: seq<nat>, file: seq<byte>)
    requires Codable(p, sched, msg)
  {
    var bits := Finished(p, sched, msg);
    BytesToBits(file) == bits + Copies(0, Padding(|bits|))
  }

  lemma FileHolds(p: Params, sched: Schedule, msg: seq<nat>, file: seq<byte>)
    requires Codable(p, sched, msg) && IsFileOf(p, sched, msg, file)
    ensures forall i: nat :: BitAt(BytesToBits(file), i) == BitAt(Finished(p, sched, msg), i)
    ensures Holds(p, BytesToBits(file), Encode(p, sched, msg))
  {
    hide Encode;
    hide BytesToBits;
    hide Copies;
    var bits, s := Finished(p, sched, msg), BytesToBits(file);
    forall i: nat
      ensures BitAt(s, i) == BitAt(bits, i)
    {
    }
    FlushSuffices(p, Encode(p, sched, msg), s);
  }

  // ---- Length of the code ----

  /** A symbol of frequency `f` in a total of `t`, coded at range `r`, costs `d` bits with
      `2^d * (r * f - t + 1) <= 2^stateSize * t`, counting the bits held back. */
  lemma CodeLength(p: Params, e: Enc, t: Table, symbol: nat)
    requires Straddling(p, e.iv) && Fits(p, t, symbol)
    ensures var e', total, f := Code(p, e, t, symbol), t.Total(), t.High(symbol) - t.Low(symbol);
            && Depth(e.out) <= Depth(e'.out)
            && Pow2(Depth(e'.out) - Depth(e.out)) * (Range(p, e.iv) * f - total + 1) <= Full(p) * total
  {
    hide *;
    FitsMeans(p, t, symbol);
    MagnifiedWidth(p, e, t, symbol);
    ShareBound(p, e.iv, t, symbol);
    var e', iv := Code(p, e, t, symbol), Narrow(p, e.iv, t, symbol);
    ScaleBoth(Pow2(Depth(e'.out) - Depth(e.out)),
              Range(p, e.iv) * (t.High(symbol) - t.Low(symbol)) - t.Total() + 1,
              iv.high - iv.low + 1, t.Total(), Full(p));
  }

  lemma ShareBound(p: Params, iv: Interval, t: Table, symbol: nat)
    requires Straddling(p, iv) && Fits(p, t, symbol)
    ensures var share := Narrow(p, iv, t, symbol);
            Range(p, iv) * (t.High(symbol) - t.Low(symbol)) - t.Total() + 1
            <= (share.high - share.low + 1) * t.Total()
            <= Range(p, iv) * (t.High(symbol) - t.Low(symbol)) + t.Total() - 1
  {
    hide *;
    FitsMeans(p, t, symbol);
    RangeBounds(p, iv);
    NarrowedWidth(p, iv, t, symbol);
    ShareWidth(t.Low(symbol), t.High(symbol), Range(p, iv), t.Total());
  }

  lemma FitsMeans(p: Params, t: Table, symbol: nat)
    requires Fits(p, t, symbol)
    ensures symbol < t.Limit() && t.Low(symbol) < t.High(symbol) <= t.Total() <= MaxTotal(p)
  {
    BoundsInTotal(t, symbol);
    hide TableData.Valid;
    hide MaxTotal;
  }

  lemma NarrowedWidth(p: Params, iv: Interval, t: Table, symbol: nat)
    requires symbol < t.Limit() && 0 < t.Total()
    ensures var share := Narrow(p, iv, t, symbol);
            share.high - share.low + 1
            == Scaled(t.High(symbol), Range(p, iv), t.Total()) - Scaled(t.Low(symbol), Range(p, iv), t.Total())
  {
    hide Scaled;
  }

  /** The new interval is the share of the symbol, magnified; it still fits the registers. */
  lemma MagnifiedWidth(p: Params, e: Enc, t: Table, symbol: nat)
    requires Straddling(p, e.iv) && Fits(p, t, symbol)
    ensures var e', iv := Code(p, e, t, symbol), Narrow(p, e.iv, t, symbol);
            && Depth(e.out) <= Depth(e'.out)
            && Pow2(Depth(e'.out) - Depth(e.out)) * (iv.high - iv.low + 1) == e'.iv.high - e'.iv.low + 1 <= Full(p)
  {
    CodeRefines(p, e, t, symbol);
    var e', iv := Code(p, e, t, symbol), Narrow(p, e.iv, t, symbol);
    var d, w, x := Depth(e'.out) - Depth(e.out), iv.high - iv.low + 1, Offset(p, e.out) + iv.low;
    assert BigEnd(p, e') - BigLow(p, e') == e'.iv.high - e'.iv.low + 1 <= Full(p);
    assert BigLow(p, e') == Doubled(x, d) && BigEnd(p, e') == Doubled(x + w, d);
    hide *;
    DoubledIs(x + w, d);
    DoubledIs(x, d);
    DoubledWidth(Pow2(d), x, w);
  }

  lemma DoubledWidth(m: int, x: int, w: int)
    ensures m * (x + w) - m * x == m * w
  {
  }

  lemma ShareWidth(c: nat, d: nat, range: nat, total: nat)
    requires 0 < total && c <= d
    ensures range * (d - c) - total + 1
            <= (Scaled(d, range, total) - Scaled(c, range, total)) * total
            <= range * (d - c) + total - 1
  {
    var x, y := c * range, d * range;
    assert x == (x / total) * total + x % total && y == (y / total) * total + y % total;
    assert range * (d - c) == y - x;
    assert (y / total - x / total) * total == (y / total) * total - (x / total) * total;
  }

  lemma ScaleBoth(m: nat, x: int, w: int, total: nat, full: int)
    requires x <= w * total && m * w <= full
    ensures m * x <= full * total
  {
    ProductIsNat(m, w * total - x);
    ProductIsNat(full - m * w, total);
    assert m * (w * total - x) == m * (w * total) - m * x;
    assert (full - m * w) * total == full * total - m * w * total;
    assert m * (w * total) == m * w * total;
  }
}
