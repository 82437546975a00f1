/** Whole messages through the classes: files written by the encoder, files read by the decoder. */
module Messages {
  import opened Bits
  import opened BitStreams
  import opened Tables
  import opened Intervals
  import opened ZeroFrequency
  import opened Encoder
  import opened Decoder
  import opened RoundTrip
  import opened AnyMessage
  import opened Wrappers

  /** Codes a message, flushes, and closes the file. */
  method EncodeMessage(p: Params, sched: Schedule, msg: seq<nat>) returns (file: seq<byte>, numBits: nat)
    requires p.slack == 1 && Accepted(p, sched, msg)
    ensures IsFileOfRun(p, sched, msg, file) && numBits == 8 * |file|
  {
    hide Pow2;
    hide Digits;
    hide BytesToBits;
    hide CodeAny;
    hide Takes;
    hide Accepted;
    hide InRegisters;
    hide Resting;
    hide TableData.Valid;
    NothingRun(p, sched);
    var bitOut := new BitOutputStream();
    var counting := new CountingBitOutputStream(bitOut);
    var enc := new ArithmeticEncoder(p, counting);
    assert msg[..0] == [];
    for i := 0 to |msg|
      invariant Accepted(p, sched, msg[..i])
      invariant enc.p == p && enc.output == counting && counting.bitOut == bitOut
      invariant enc.Valid() && enc.State() == Run(p, sched, msg[..i])
    {
      AnyMessage.RunNext(p, sched, msg, i);
      WillWrite(p, sched(msg[..i]), msg[i]);
      var r := enc.Write(sched(msg[..i]), msg[i]);
    }
    assert msg[..|msg|] == msg;
    enc.Finish();
    counting.Close();
    file, numBits := bitOut.output, counting.numBits;
  }

  lemma WillWrite(p: Params, t: Table, symbol: nat)
    requires p.slack == 1 && Takes(p, t, symbol)
    ensures symbol < t.Limit() && 0 < t.Total() <= MaxTotal(p) == Full(p) / 4 + 2
  {
    MinRange(p);
  }

  lemma {:induction false} DecodeStuck(p: Params, sched: Schedule, s: seq<bit>, k: nat, n: nat)
    requires p.slack == 1 && Decode(p, sched, s, k) == Refused && k <= n
    ensures Decode(p, sched, s, n) == Refused
  {
    if k < n {
      DecodeStuck(p, sched, s, k, n - 1);
    }
  }

  /** Opens a file and reads `n` symbols, or stops at the first table that cannot be used. */
  method DecodeMessage(p: Params, sched: Schedule, file: seq<byte>, n: nat) returns (ok: bool, symbols: seq<nat>)
    requires p.slack == 1
    ensures ok == Decode(p, sched, BytesToBits(file), n).Decoded?
    ensures ok ==> symbols == Decode(p, sched, BytesToBits(file), n).symbols
  {
    MinRange(p);
    DecodeNone(p, sched, BytesToBits(file));
    hide Pow2;
    hide Digits;
    hide Unpack;
    hide BytesToBits;
    hide Choose;
    hide Take;
    hide Begin;
    hide Decode;
    hide Straddling;
    hide TableData.Valid;
    var input := new BitInputStream(file);
    var dec := new ArithmeticDecoder(p, input);
    ghost var s := BytesToBits(file);
    symbols := [];
    for i := 0 to n
      invariant dec.p == p && dec.input == input
      invariant dec.Valid() && dec.stream == s
      invariant Decode(p, sched, s, i) == Decoded(symbols, dec.State())
    {
      DecodeStep(p, sched, s, i);
      var r := dec.Read(sched(symbols));
      if !r.Symbol? {
        DecodeStuck(p, sched, s, i + 1, n);
        return false, symbols;
      }
      symbols := symbols + [r.symbol];
    }
    return true, symbols;
  }

  lemma DecodeNone(p: Params, sched: Schedule, s: seq<bit>)
    requires p.slack == 1
    ensures Decode(p, sched, s, 0) == Decoded([], Begin(p, s))
  {
  }

  /** The round trip of an accepted message through the two classes and a file. It comes back if and only if every
      symbol has a positive frequency. */
  method Transcode(p: Params, sched: Schedule, msg: seq<nat>) returns (file: seq<byte>, ok: bool, back: seq<nat>)
    requires p.slack == 1 && Accepted(p, sched, msg)
    ensures IsFileOfRun(p, sched, msg, file)
    ensures ok && back == msg <==> Codable(p, sched, msg)
  {
    var numBits;
    file, numBits := EncodeMessage(p, sched, msg);
    FileBits(p, sched, msg, file);
    DecodedIfCodable(p, sched, msg, BytesToBits(file));
    ok, back := DecodeMessage(p, sched, file, |msg|);
  }

  // ---- Coding from a table object ----

  /** What a call of a coder returns, or raises. */
  datatype CallResult = Written | Symbol(symbol: nat) | TooLarge | TypeError | DivisionByZero

  /** Coding with a `SimpleFrequencyTable`. The encoder gets usable bounds exactly when the table's cache was
      valid before the call: the first write after any change to the table fails on the missing bound,
      fills the cache, and leaves the encoder as it was. */
  method WriteFrom(enc: ArithmeticEncoder, freqs: SimpleFrequencyTable, symbol: nat) returns (r: CallResult)
    requires enc.Valid() && Resting(enc.p, Interval(enc.low, enc.high)) && enc.p.slack == 1
    requires freqs.Valid() && symbol < |freqs.frequencies|
    modifies enc, enc.output, enc.output.bitOut, freqs`cumulative
    ensures enc.Valid() && Resting(enc.p, Interval(enc.low, enc.high))
    ensures freqs.Valid() && freqs.cumulative.Some?
    ensures r == if freqs.total > Full(enc.p) / 4 + 2 then CallResult.TooLarge
                 else if old(freqs.cumulative).None? then TypeError
                 else if freqs.total == 0 then CallResult.DivisionByZero
                 else CallResult.Written
    ensures r.Written? ==>
              Takes(enc.p, freqs.AsTable(), symbol)
              && enc.State() == CodeAny(enc.p, old(enc.State()), freqs.AsTable(), symbol)
    ensures !r.Written? ==> enc.State() == old(enc.State())
  {
    hide Pow2;
    hide BytesToBits;
    hide Digits;
    hide CodeAny;
    hide InRegisters;
    hide Resting;
    var total := freqs.GetTotal();
    var symlow := freqs.GetLow(symbol);
    var symhigh := freqs.GetHigh(symbol);
    if total > Full(enc.p) / 4 + 2 {
      return CallResult.TooLarge;
    }
    if symlow.None? || symhigh.None? {
      return TypeError;
    }
    var outcome := enc.Write(Table(freqs.cumulative.value), symbol);
    return if outcome.Written? then CallResult.Written else CallResult.DivisionByZero;
  }

  /** The binary search of `read`, asking a table object. If the cache is invalid the first comparison fails; only a
      table of one symbol needs none. */
  method SearchFrom(freqs: SimpleFrequencyTable, value: int) returns (r: Option<nat>)
    requires freqs.Valid()
    modifies freqs`cumulative
    ensures freqs.Valid()
    ensures r == if old(freqs.cumulative).None? && 1 < |freqs.frequencies| then None
                 else Some(Locate(freqs.AsTable(), value, freqs.AsTable().Limit()))
    ensures freqs.cumulative.Some? || |freqs.frequencies| == 1
    ensures |freqs.frequencies| == 1 ==> freqs.cumulative == old(freqs.cumulative)
  {
    hide Locate;
    var start, end := 0, |freqs.frequencies|;
    ghost var table := freqs.AsTable();
    while end - start > 1
      invariant 0 <= start < end <= table.Limit()
      invariant freqs.Valid() && freqs.cumulative == old(freqs.cumulative)
      invariant end < table.Limit() || 0 < start ==> freqs.cumulative.Some?
      invariant start == 0 || table.Low(start) <= value
      invariant end == table.Limit() || value < table.Low(end)
    {
      var middle := (start + end) / 2;
      var low := freqs.GetLow(middle);
      if low.None? {
        return None;
      }
      if low.value > value {
        end := middle;
      } else {
        start := middle;
      }
    }
    LocateUnique(table, value, start);
    return Some(start);
  }

  /** All that `read` asks of a table object: the search, and then the bounds of the symbol found. It is answered
      exactly if the cache was valid before. */
  method AskTable(freqs: SimpleFrequencyTable, value: int) returns (r: Option<nat>)
    requires freqs.Valid()
    modifies freqs`cumulative
    ensures freqs.Valid() && freqs.cumulative == Some(freqs.AsTable().cumulative)
    ensures r == if old(freqs.cumulative).None? then None
                 else Some(Locate(freqs.AsTable(), value, freqs.AsTable().Limit()))
  {
    hide Locate;
    var found := SearchFrom(freqs, value);
    if found.None? {
      return None;
    }
    var symlow := freqs.GetLow(found.value);
    var symhigh := freqs.GetHigh(found.value);
    return if symlow.None? || symhigh.None? then None else found;
  }

  /** Decoding with a `SimpleFrequencyTable`. A total beyond the limit is noticed before the table is asked for
      anything else. Otherwise the first query of an invalid cache, in the search or, for a table of one symbol, in
      the update, has no answer: the read fails, the cache is filled, and the decoder is as it was. */
  method ReadFrom(dec: ArithmeticDecoder, freqs: SimpleFrequencyTable) returns (r: CallResult)
    requires dec.Valid() && Straddling(dec.p, Interval(dec.low, dec.high)) && dec.p.slack == 1
    requires freqs.Valid()
    modifies dec, dec.input, freqs`cumulative
    ensures dec.Valid() && freqs.Valid() && dec.stream == old(dec.stream)
    ensures r == if freqs.total > Full(dec.p) / 4 + 2 then CallResult.TooLarge
                 else if old(freqs.cumulative).None? then TypeError
                 else if freqs.total == 0 then CallResult.DivisionByZero
                 else CallResult.Symbol(Choose(dec.p, old(dec.State()), freqs.AsTable()))
    ensures r.Symbol? ==>
              freqs.total <= MaxTotal(dec.p)
              && dec.State() == Take(dec.p, dec.stream, old(dec.State()), freqs.AsTable())
    ensures !r.Symbol? ==> dec.State() == old(dec.State())
    ensures if r.TooLarge? then freqs.cumulative == old(freqs.cumulative) else freqs.cumulative.Some?
  {
    MinRange(dec.p);
    ghost var table := freqs.AsTable();
    ChosenIs(dec.p, dec.State(), table);
    assert freqs.total == table.Total();
    hide Pow2;
    hide Choose;
    hide Locate;
    hide BytesToBits;
    hide Digits;
    hide After;
    hide Straddling;
    var total := freqs.GetTotal();
    if total > Full(dec.p) / 4 + 2 {
      return CallResult.TooLarge;
    }
    var range, offset := dec.high - dec.low + 1, dec.code - dec.low;
    var value := ((offset + 1) * total - 1) / range;
    assert value == TableValue(dec.p, dec.State(), total);
    hide TableValue;
    var found := AskTable(freqs, value);
    if found.None? {
      return TypeError;
    }
    if total == 0 {
      return CallResult.DivisionByZero;
    }
    TakeIs(dec.p, dec.stream, dec.State(), table);
    hide *;
    dec.NarrowRegisters(Table(freqs.cumulative.value), found.value);
    dec.SettleRegisters();
    return CallResult.Symbol(found.value);
  }
}
