/** How long the code of a whole message can get. */
module MessageLength {
  import opened Bits
  import opened BitStreams
  import opened Tables
  import opened Intervals
  import opened Encoder
  import opened RoundTrip

  /** What a symbol's frequency is worth at the narrowest range: about its share of the table, on the scale of
      the registers. */
  function Gain(p: Params, t: Table, symbol: nat): int
    requires symbol < t.Limit()
  {
    Excess(MaxTotal(p), t.High(symbol) - t.Low(symbol), t.Total())
  }

  function Excess(range: int, f: int, total: int): int {
    range * f - total + 1
  }

  /** What a symbol's frequency can be worth at most, on the same scale. */
  function Worth(p: Params, t: Table, symbol: nat): int
    requires symbol < t.Limit()
  {
    Rounded(Narrowest(p), t.High(symbol) - t.Low(symbol), t.Total())
  }

  function Rounded(range: int, f: int, total: int): int {
    range * f + total - 1
  }

  /** How many numbers an interval that straddles the middle holds at least. */
  function Narrowest(p: Params): nat {
    Quarter(p) + 2
  }

  function Width(iv: Interval): int {
    iv.high - iv.low + 1
  }

  function Budget(p: Params, t: Table): nat {
    Narrowest(p) * t.Total()
  }

  ghost function Gains(p: Params, sched: Schedule, msg: seq<nat>): int
    requires Codable(p, sched, msg)
  {
    if msg == [] then 1 else
      var k := |msg| - 1;
      CodablePrefix(p, sched, msg, k);
      Times(Gains(p, sched, msg[..k]), Gain(p, sched(msg[..k]), msg[k]))
  }

  ghost function Worths(p: Params, sched: Schedule, msg: seq<nat>): int
    requires Codable(p, sched, msg)
  {
    if msg == [] then 1 else
      var k := |msg| - 1;
      CodablePrefix(p, sched, msg, k);
      Times(Worths(p, sched, msg[..k]), Worth(p, sched(msg[..k]), msg[k]))
  }

  ghost function Budgets(p: Params, sched: Schedule, msg: seq<nat>): int {
    if msg == [] then 1 else
      var k := |msg| - 1;
      Times(Budgets(p, sched, msg[..k]), Budget(p, sched(msg[..k])))
  }

  // ---- Products ----

  function Times(a: int, b: int): int {
    a * b
  }

  lemma TimesOrder(a: nat, x: int, y: int)
    requires x <= y
    ensures Times(a, x) <= Times(a, y)
  {
    ProductIsNat(a, y - x);
    assert a * (y - x) == a * y - a * x;
  }

  lemma TimesSwap(a: int, b: int)
    ensures Times(a, b) == Times(b, a)
  {
  }

  lemma TimesRegroup(a: int, b: int, g: int, h: int)
    ensures Times(Times(a, b), Times(g, h)) == Times(Times(a, g), Times(b, h))
  {
    assert b * (g * h) == g * (b * h);
    assert (a * b) * (g * h) == a * (b * (g * h));
    assert (a * g) * (b * h) == a * (g * (b * h));
  }

  lemma TimesPositive(a: int, b: int)
    requires 1 <= a && 1 <= b
    ensures a <= Times(a, b) && 1 <= Times(a, b)
  {
    MultipleIsFar(b, a);
    assert b * a == a * b;
  }

  lemma TimesNat(a: nat, b: nat)
    ensures 0 <= Times(a, b)
  {
  }

  /** What a symbol adds to both sides of an inequality that already holds. */
  lemma Amortised(power: nat, gains: nat, full: nat, width: nat, budgets: nat,
                  m: nat, gain: nat, narrowest: nat, x: int, share: nat, total: nat)
    requires Times(Times(power, gains), full) <= Times(width, budgets)
    requires Times(width, gain) <= Times(narrowest, x) && x <= Times(share, total)
    ensures Times(Times(Times(power, m), Times(gains, gain)), full)
            <= Times(Times(m, share), Times(budgets, Times(narrowest, total)))
  {
    var both, rest := Times(m, gain), Times(m, budgets);
    TimesOrder(both, Times(Times(power, gains), full), Times(width, budgets));
    assert Times(both, Times(Times(power, gains), full))
        == Times(Times(Times(power, m), Times(gains, gain)), full) by {
      TimesSort(m, gain, power, gains, full);
    }
    assert Times(both, Times(width, budgets)) == Times(rest, Times(width, gain)) by {
      TimesCross(m, gain, width, budgets);
    }
    hide Times;
    TimesNat(m, gain);
    TimesNat(m, budgets);
    TimesOrder(narrowest, x, Times(share, total));
    TimesOrder(rest, Times(width, gain), Times(narrowest, Times(share, total)));
    TimesMix(m, budgets, narrowest, share, total);
  }

  /** And in the other direction. */
  lemma AmortisedAtLeast(power: nat, worths: nat, full: nat, width: nat, budgets: nat,
                         m: nat, worth: nat, narrowest: nat, y: int, share: nat, total: nat)
    requires Times(width, budgets) <= Times(Times(power, worths), full)
    requires Times(narrowest, y) <= Times(width, worth) && Times(share, total) <= y
    ensures Times(Times(m, share), Times(budgets, Times(narrowest, total)))
            <= Times(Times(Times(power, m), Times(worths, worth)), full)
  {
    var both, rest := Times(m, worth), Times(m, budgets);
    TimesOrder(both, Times(width, budgets), Times(Times(power, worths), full));
    assert Times(both, Times(Times(power, worths), full))
        == Times(Times(Times(power, m), Times(worths, worth)), full) by {
      TimesSort(m, worth, power, worths, full);
    }
    assert Times(both, Times(width, budgets)) == Times(rest, Times(width, worth)) by {
      TimesCross(m, worth, width, budgets);
    }
    hide Times;
    TimesNat(m, worth);
    TimesNat(m, budgets);
    TimesOrder(narrowest, Times(share, total), y);
    TimesOrder(rest, Times(narrowest, Times(share, total)), Times(width, worth));
    TimesMix(m, budgets, narrowest, share, total);
  }

  lemma TimesSort(m: int, gain: int, power: int, gains: int, full: int)
    ensures (m * gain) * ((power * gains) * full) == ((power * m) * (gains * gain)) * full
  {
    var a, b := power * gains, m * gain;
    assert (power * m) * (gains * gain) == a * b by {
      TimesRegroup(power, m, gains, gain);
    }
    assert b * (a * full) == (a * b) * full;
  }

  lemma TimesCross(m: int, gain: int, width: int, budgets: int)
    ensures (m * gain) * (width * budgets) == (m * budgets) * (width * gain)
  {
    TimesRegroup(m, gain, budgets, width);
    assert width * budgets == budgets * width && gain * width == width * gain;
  }

  lemma TimesMix(m: int, budgets: int, narrowest: int, share: int, total: int)
    ensures Times(Times(m, budgets), Times(narrowest, Times(share, total)))
         == Times(Times(m, share), Times(budgets, Times(narrowest, total)))
  {
    assert narrowest * (share * total) == share * (narrowest * total);
    TimesRegroup(m, budgets, share, narrowest * total);
  }

  lemma PowersTimes(j: nat, k: nat)
    ensures Pow2(j + k) == Times(Pow2(j), Pow2(k))
  {
    Pow2Add(j, k);
    hide Pow2;
  }

  // ---- One symbol ----

  lemma GainIsPositive(p: Params, t: Table, symbol: nat)
    requires Fits(p, t, symbol)
    ensures 1 <= Gain(p, t, symbol)
  {
    var f := t.High(symbol) - t.Low(symbol);
    hide MaxTotal;
    hide TableData.Valid;
    MultipleIsFar(f, MaxTotal(p));
    assert MaxTotal(p) * f == f * MaxTotal(p);
  }

  /** A wider interval is worth at least as much to a symbol, for its width, as the narrowest one. */
  lemma WorthOfWidth(least: nat, range: int, slack: nat, f: nat, total: nat)
    requires least <= range && slack <= 1 && 0 < total
    ensures Times(range + 1 - slack, Excess(least, f, total))
            <= Times(least + 1 - slack, Excess(range, f, total))
  {
    var d, more := range - least, 1 - slack;
    ProductIsNat(d, total - 1);
    ProductIsNat(d, f);
    assert (least + d) * (least * f - total + 1) + d * (total - 1) == least * ((least + d) * f - total + 1) by {
      assert least * ((least + d) * f) == (least + d) * (least * f);
      assert least * ((least + d) * f - total + 1) == least * ((least + d) * f) - least * (total - 1);
      assert (least + d) * (least * f - total + 1) == (least + d) * (least * f) - (least + d) * (total - 1);
      assert (least + d) * (total - 1) == least * (total - 1) + d * (total - 1);
    }
    assert (least + d) * f == least * f + d * f;
    if more == 1 {
      assert (range + 1) * Excess(least, f, total) == range * Excess(least, f, total) + Excess(least, f, total);
      assert (least + 1) * Excess(range, f, total) == least * Excess(range, f, total) + Excess(range, f, total);
    }
  }

  /** For its width, the narrowest interval is worth most to a symbol when the rounding is in its favour. */
  lemma WorthAtMost(narrowest: nat, width: int, range: int, f: nat, total: nat)
    requires narrowest <= width && range <= width && 0 < total
    ensures Times(narrowest, Rounded(range, f, total)) <= Times(width, Rounded(narrowest, f, total))
  {
    var d := width - narrowest;
    ProductIsNat(d, total - 1);
    ProductIsNat(width - range, f);
    ProductIsNat(narrowest, (width - range) * f);
    assert (width - range) * f == width * f - range * f;
    assert narrowest * ((width - range) * f) == narrowest * (width * f) - narrowest * (range * f);
    assert width * (narrowest * f) == narrowest * (width * f);
    assert narrowest * (range * f + total - 1) == narrowest * (range * f) + narrowest * (total - 1);
    assert width * (narrowest * f + total - 1) == width * (narrowest * f) + width * (total - 1);
    assert d * (total - 1) == width * (total - 1) - narrowest * (total - 1);
  }

  lemma Widths(p: Params, iv: Interval)
    requires Straddling(p, iv)
    ensures MaxTotal(p) <= Range(p, iv)
    ensures Width(iv) == Range(p, iv) + 1 - p.slack && Narrowest(p) == MaxTotal(p) + 1 - p.slack
    ensures Range(p, iv) <= Width(iv) && Narrowest(p) <= Width(iv) && 0 < Width(iv) <= Full(p)
  {
    RangeBounds(p, iv);
    hide Pow2;
  }

  lemma ShareExcess(p: Params, iv: Interval, t: Table, symbol: nat)
    requires Straddling(p, iv) && Fits(p, t, symbol)
    ensures var share := Narrow(p, iv, t, symbol);
            Excess(Range(p, iv), t.High(symbol) - t.Low(symbol), t.Total()) <= Times(Width(share), t.Total())
            <= Rounded(Range(p, iv), t.High(symbol) - t.Low(symbol), t.Total())
  {
    hide *;
    FitsMeans(p, t, symbol);
    ShareBound(p, iv, t, symbol);
    var share := Narrow(p, iv, t, symbol);
    InFunctions(Range(p, iv), t.High(symbol) - t.Low(symbol), t.Total(), share);
  }

  lemma InFunctions(range: int, f: int, total: int, share: Interval)
    requires range * f - total + 1 <= (share.high - share.low + 1) * total <= range * f + total - 1
    ensures Excess(range, f, total) <= Times(Width(share), total) <= Rounded(range, f, total)
  {
  }

  lemma WorthOfInterval(p: Params, iv: Interval, f: nat, total: nat)
    requires Straddling(p, iv) && 0 < total
    ensures Times(Width(iv), Excess(MaxTotal(p), f, total)) <= Times(Narrowest(p), Excess(Range(p, iv), f, total))
    ensures Times(Narrowest(p), Rounded(Range(p, iv), f, total)) <= Times(Width(iv), Rounded(Narrowest(p), f, total))
  {
    hide *;
    Widths(p, iv);
    WorthOfWidth(MaxTotal(p), Range(p, iv), p.slack, f, total);
    WorthAtMost(Narrowest(p), Width(iv), Range(p, iv), f, total);
  }

  lemma WidthTimes(p: Params, e: Enc, t: Table, symbol: nat)
    requires Straddling(p, e.iv) && Fits(p, t, symbol)
    ensures var e', iv := Code(p, e, t, symbol), Narrow(p, e.iv, t, symbol);
            && Depth(e.out) <= Depth(e'.out)
            && Times(Pow2(Depth(e'.out) - Depth(e.out)), Width(iv)) == Width(e'.iv)
            && 0 < Width(iv)
  {
    hide *;
    FitsMeans(p, t, symbol);
    var e', iv := Code(p, e, t, symbol), Narrow(p, e.iv, t, symbol);
    MagnifiedWidth(p, e, t, symbol);
    NarrowInside(p, e.iv, t, symbol);
    ProperIs(p, iv);
    WidthProduct(Pow2(Depth(e'.out) - Depth(e.out)), iv, e'.iv);
  }

  lemma WidthProduct(m: int, share: Interval, doubled: Interval)
    requires m * (share.high - share.low + 1) == doubled.high - doubled.low + 1
    ensures Times(m, Width(share)) == Width(doubled)
    ensures share.low <= share.high ==> 0 < Width(share)
  {
  }

  lemma GainIs(p: Params, t: Table, symbol: nat)
    requires Fits(p, t, symbol)
    ensures 0 < t.High(symbol) - t.Low(symbol) && 0 < t.Total()
    ensures Gain(p, t, symbol) == Excess(MaxTotal(p), t.High(symbol) - t.Low(symbol), t.Total())
    ensures Worth(p, t, symbol) == Rounded(Narrowest(p), t.High(symbol) - t.Low(symbol), t.Total())
    ensures 1 <= Worth(p, t, symbol)
    ensures Budget(p, t) == Times(Narrowest(p), t.Total())
  {
    hide *;
    FitsMeans(p, t, symbol);
    GainDefinition(p, t, symbol);
    NarrowestIsPositive(p);
    RoundedIsPositive(Narrowest(p), t.High(symbol) - t.Low(symbol), t.Total());
  }

  lemma GainDefinition(p: Params, t: Table, symbol: nat)
    requires symbol < t.Limit()
    ensures Gain(p, t, symbol) == Excess(MaxTotal(p), t.High(symbol) - t.Low(symbol), t.Total())
    ensures Worth(p, t, symbol) == Rounded(Narrowest(p), t.High(symbol) - t.Low(symbol), t.Total())
    ensures Budget(p, t) == Times(Narrowest(p), t.Total())
  {
    hide MaxTotal;
    hide Narrowest;
    hide Rounded;
    hide Excess;
    hide TableData.Valid;
  }

  lemma NarrowestIsPositive(p: Params)
    ensures 0 < Narrowest(p)
  {
    hide Quarter;
  }

  lemma RoundedIsPositive(range: nat, f: nat, total: nat)
    requires 0 < range && 0 < f && 0 < total
    ensures 1 <= Rounded(range, f, total)
  {
    MultipleIsFar(range, f);
  }

  /** What coding a symbol does to the interval, in the terms of the account. */
  lemma SymbolTerms(p: Params, e: Enc, t: Table, symbol: nat)
      returns (e': Enc, gain: nat, worth: nat, budget: nat, m: nat, share: nat, total: nat, x: int, y: int)
    requires Straddling(p, e.iv) && Fits(p, t, symbol)
    ensures e' == Code(p, e, t, symbol) && 0 < Width(e.iv)
    ensures 1 <= gain == Gain(p, t, symbol) && 1 <= worth == Worth(p, t, symbol) && budget == Budget(p, t)
    ensures Pow2(Depth(e'.out)) == Times(Pow2(Depth(e.out)), m)
    ensures Width(e'.iv) == Times(m, share)
    ensures budget == Times(Narrowest(p), total)
    ensures x <= Times(share, total) <= y
    ensures Times(Width(e.iv), gain) <= Times(Narrowest(p), x)
    ensures Times(Narrowest(p), y) <= Times(Width(e.iv), worth)
  {
    hide *;
    FitsMeans(p, t, symbol);
    var f, iv := t.High(symbol) - t.Low(symbol), Narrow(p, e.iv, t, symbol);
    e', total := Code(p, e, t, symbol), t.Total();
    GainIs(p, t, symbol);
    GainIsPositive(p, t, symbol);
    gain, worth, budget := Gain(p, t, symbol), Worth(p, t, symbol), Budget(p, t);
    x, y := Excess(Range(p, e.iv), f, total), Rounded(Range(p, e.iv), f, total);
    Widths(p, e.iv);
    WidthTimes(p, e, t, symbol);
    m, share := Pow2(Depth(e'.out) - Depth(e.out)), Width(iv);
    ShareExcess(p, e.iv, t, symbol);
    WorthOfInterval(p, e.iv, f, total);
    PowersTimes(Depth(e.out), Depth(e'.out) - Depth(e.out));
  }

  // ---- A message ----

  lemma LastFactor(p: Params, sched: Schedule, msg: seq<nat>, k: nat)
    requires Codable(p, sched, msg) && |msg| == k + 1
    ensures Codable(p, sched, msg[..k]) && Fits(p, sched(msg[..k]), msg[k]) && msg[k] < sched(msg[..k]).Limit()
    ensures Gains(p, sched, msg) == Times(Gains(p, sched, msg[..k]), Gain(p, sched(msg[..k]), msg[k]))
    ensures Worths(p, sched, msg) == Times(Worths(p, sched, msg[..k]), Worth(p, sched(msg[..k]), msg[k]))
    ensures Budgets(p, sched, msg) == Times(Budgets(p, sched, msg[..k]), Budget(p, sched(msg[..k])))
    ensures Encode(p, sched, msg) == Code(p, Encode(p, sched, msg[..k]), sched(msg[..k]), msg[k])
  {
    assert msg[..k + 1] == msg;
    LastSymbol(p, sched, msg, k);
    assert Fits(p, sched(msg[..k]), msg[k]) ==> msg[k] < sched(msg[..k]).Limit();
    hide Code;
    hide Fits;
    hide Gain;
    hide Worth;
    hide Budget;
    hide Times;
  }

  lemma EmptyMessage(p: Params, sched: Schedule, msg: seq<nat>)
    requires Codable(p, sched, msg) && msg == []
    ensures Gains(p, sched, msg) == 1 == Worths(p, sched, msg)
    ensures Budgets(p, sched, msg) == 1 == Pow2(Depth(Encode(p, sched, msg).out))
    ensures Width(Encode(p, sched, msg).iv) == Full(p)
    ensures Times(Times(1, 1), Full(p)) == Times(Full(p), 1)
  {
    hide Full;
  }

  lemma {:induction false} Account(p: Params, sched: Schedule, msg: seq<nat>)
      returns (e: Enc, gains: nat, worths: nat, budgets: nat)
    requires Codable(p, sched, msg)
    ensures e == Encode(p, sched, msg) && budgets == Budgets(p, sched, msg)
    ensures 1 <= gains == Gains(p, sched, msg) && 1 <= worths == Worths(p, sched, msg)
    ensures Straddling(p, e.iv)
    ensures Times(Times(Pow2(Depth(e.out)), gains), Full(p)) <= Times(Width(e.iv), budgets)
    ensures Times(Width(e.iv), budgets) <= Times(Times(Pow2(Depth(e.out)), worths), Full(p))
  {
    hide *;
    e := Encode(p, sched, msg);
    if msg == [] {
      EmptyMessage(p, sched, msg);
      gains, worths, budgets := 1, 1, 1;
    } else {
      var k := |msg| - 1;
      LastFactor(p, sched, msg, k);
      var e0, g, w, b := Account(p, sched, msg[..k]);
      var e', gain, worth, budget, m, share, total, x, y := SymbolTerms(p, e0, sched(msg[..k]), msg[k]);
      TimesPositive(g, gain);
      TimesPositive(w, worth);
      TimesNat(b, budget);
      gains, worths, budgets := Times(g, gain), Times(w, worth), Times(b, budget);
      Amortised(Pow2(Depth(e0.out)), g, Full(p), Width(e0.iv), b, m, gain, Narrowest(p), x, share, total);
      AmortisedAtLeast(Pow2(Depth(e0.out)), w, Full(p), Width(e0.iv), b, m, worth, Narrowest(p), y, share, total);
    }
  }

  lemma DepthTimesGains(p: Params, sched: Schedule, msg: seq<nat>)
    requires Codable(p, sched, msg)
    ensures 1 <= Gains(p, sched, msg) && 0 <= Budgets(p, sched, msg)
    ensures Times(Pow2(Depth(Encode(p, sched, msg).out)), Gains(p, sched, msg)) <= Budgets(p, sched, msg)
  {
    hide *;
    var e, gains, _, budgets := Account(p, sched, msg);
    Widths(p, e.iv);
    AtMost(Times(Pow2(Depth(e.out)), gains), Full(p), Width(e.iv), budgets);
  }

  lemma AtMost(written: int, full: nat, width: nat, budgets: nat)
    requires Times(written, full) <= Times(width, budgets) && width <= full && 0 < full
    ensures written <= budgets
  {
    hide *;
    TimesOrder(budgets, width, full);
    TimesSwap(budgets, width);
    TimesSwap(budgets, full);
    TimesSwap(written, full);
    TimesCancel(full, written, budgets);
  }

  lemma TimesCancel(a: nat, x: int, y: int)
    requires 0 < a && Times(a, x) <= Times(a, y)
    ensures x <= y
  {
    assert (x - y) * a == a * x - a * y;
    if y < x {
      MultipleIsFar(x - y, a);
    }
  }

  /** Over a whole message, 2^(bits written and held back) times the product of the gains is at most the product of
      the budgets. Both depend on the tables alone; their quotient is, symbol by symbol, close to total / frequency. */
  lemma DepthOfMessage(p: Params, sched: Schedule, msg: seq<nat>)
    requires Codable(p, sched, msg)
    ensures 1 <= Gains(p, sched, msg)
    ensures Pow2(Depth(Encode(p, sched, msg).out)) * Gains(p, sched, msg) <= Budgets(p, sched, msg)
  {
    DepthTimesGains(p, sched, msg);
    hide Pow2;
    hide Encode;
    hide Gains;
    hide Budgets;
  }

  lemma QuarterOfFull(p: Params)
    ensures Full(p) <= 4 * Narrowest(p) && 0 < Narrowest(p)
  {
    Halves(p);
    hide Pow2;
  }

  /** And the bound cannot be improved by much: two bits, and the rounding of each symbol. */
  lemma DepthAtLeast(p: Params, sched: Schedule, msg: seq<nat>)
    requires Codable(p, sched, msg)
    ensures 1 <= Worths(p, sched, msg)
    ensures Budgets(p, sched, msg) <= 4 * Times(Pow2(Depth(Encode(p, sched, msg).out)), Worths(p, sched, msg))
  {
    hide *;
    var e, _, worths, budgets := Account(p, sched, msg);
    Widths(p, e.iv);
    QuarterOfFull(p);
    TimesNat(Pow2(Depth(e.out)), worths);
    AtLeast(Times(Pow2(Depth(e.out)), worths), Full(p), Width(e.iv), budgets, Narrowest(p));
  }

  lemma AtLeast(written: nat, full: nat, width: nat, budgets: nat, narrowest: nat)
    requires Times(width, budgets) <= Times(written, full) && 0 < narrowest <= width && full <= 4 * narrowest
    ensures budgets <= 4 * written
  {
    hide *;
    TimesOrder(budgets, narrowest, width);
    TimesSwap(budgets, narrowest);
    TimesSwap(budgets, width);
    TimesOrder(written, full, 4 * narrowest);
    FourTimes(narrowest, written);
    TimesCancel(narrowest, budgets, 4 * written);
  }

  lemma FourTimes(a: int, b: int)
    ensures Times(b, 4 * a) == Times(a, 4 * b)
  {
    assert b * (4 * a) == 4 * (b * a) && a * (4 * b) == 4 * (a * b);
  }

  /** The file is the code, the bit that flushes it, and less than a byte of padding. */
  lemma BitsOfFile(p: Params, sched: Schedule, msg: seq<nat>, file: seq<byte>)
    requires Codable(p, sched, msg) && IsFileOf(p, sched, msg, file)
    ensures 8 * |file| == |Encode(p, sched, msg).out.bits| + 1 + Padding(|Encode(p, sched, msg).out.bits| + 1)
    ensures 8 * |file| <= Depth(Encode(p, sched, msg).out) + 8
  {
    hide *;
    DepthIs(Encode(p, sched, msg).out);
    FileIs(p, sched, msg, file);
  }

  lemma FileIs(p: Params, sched: Schedule, msg: seq<nat>, file: seq<byte>)
    requires Codable(p, sched, msg) && IsFileOf(p, sched, msg, file)
    ensures var bits := Encode(p, sched, msg).out.bits;
            BytesToBits(file) == bits + [1] + Copies(0, Padding(|bits| + 1))
  {
    hide Encode;
    hide BytesToBits;
    hide Copies;
    hide Padding;
  }

  lemma DepthIs(o: Output)
    ensures Depth(o) == |o.bits| + o.pending
  {
  }

  /** So the tables alone bound the length of the file. */
  lemma LengthOfFile(p: Params, sched: Schedule, msg: seq<nat>, file: seq<byte>)
    requires Codable(p, sched, msg) && IsFileOf(p, sched, msg, file)
    ensures Times(Pow2(8 * |file|), Gains(p, sched, msg)) <= 256 * Budgets(p, sched, msg)
  {
    hide *;
    var depth, rest := Depth(Encode(p, sched, msg).out), Depth(Encode(p, sched, msg).out) + 8 - 8 * |file|;
    BitsOfFile(p, sched, msg, file);
    DepthTimesGains(p, sched, msg);
    PowersTimes(8 * |file|, rest);
    PowersTimes(depth, 8);
    ByteSize();
    FileBound(Pow2(8 * |file|), Pow2(rest), Pow2(depth), Gains(p, sched, msg), Budgets(p, sched, msg));
  }

  lemma FileBound(file: nat, rest: nat, depth: nat, g: nat, b: int)
    requires Times(file, rest) == Times(depth, 256) && 1 <= rest && Times(depth, g) <= b
    ensures Times(file, g) <= 256 * b
  {
    TimesOrder(file, 1, rest);
    TimesOrder(g, file, Times(depth, 256));
    assert g * (depth * 256) == 256 * (depth * g);
  }
}
