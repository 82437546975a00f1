/** Frequency tables: the contract the coders rely on, and the two implementations. */
module Tables {
  import opened Wrappers

  /** What a coder sees of a frequency table: `cumulative[s]` is the sum of the frequencies below symbol `s`. */
  datatype TableData = Table(cumulative: seq<nat>) {
    predicate Valid() {
      && 2 <= |cumulative|
      && cumulative[0] == 0
      && forall i, j | 0 <= i <= j < |cumulative| :: cumulative[i] <= cumulative[j]
    }

    function Limit(): nat
      requires Valid()
    {
      |cumulative| - 1
    }

    function Total(): nat
      requires Valid()
    {
      cumulative[Limit()]
    }

    function Low(symbol: nat): nat
      requires Valid() && symbol < Limit()
    {
      cumulative[symbol]
    }

    function High(symbol: nat): nat
      requires Valid() && symbol < Limit()
    {
      cumulative[symbol + 1]
    }
  }

  type Table = t: TableData | t.Valid() witness Table([0, 1])

  /** The table for a symbol may depend on all the symbols before it. */
  type Schedule = seq<nat> -> Table

  lemma BoundsInTotal(t: Table, s: nat)
    requires s < t.Limit()
    ensures t.Low(s) <= t.High(s) <= t.Total()
  {
  }

  /** Whether a table meets the contract for these frequencies. */
  ghost predicate Represents(t: Table, frequencies: seq<nat>) {
    && t.Limit() == |frequencies|
    && t.Total() == Sum(frequencies)
    && forall s: nat | s < |frequencies| :: t.Low(s) == Sum(frequencies[..s]) && t.High(s) == Sum(frequencies[..s + 1])
  }

  function Sum(f: seq<nat>): nat {
    if f == [] then 0 else Sum(f[..|f| - 1]) + f[|f| - 1]
  }

  // ---- Every symbol equally frequent ----

  /** Symbols out of range are refused with an exception, here None. */
  datatype FlatFrequencyTable = FlatFrequencyTable(numSymbols: nat) {
    function GetSymbolLimit(): nat {
      numSymbols
    }

    predicate InRange(symbol: int) {
      0 <= symbol < numSymbols
    }

    function Get(symbol: int): Option<nat> {
      if InRange(symbol) then Some(1) else None
    }

    function GetTotal(): nat {
      numSymbols
    }

    function GetLow(symbol: int): Option<nat> {
      if InRange(symbol) then Some(symbol) else None
    }

    function GetHigh(symbol: int): Option<nat> {
      if InRange(symbol) then Some(symbol + 1) else None
    }
  }

  lemma {:induction false} SumOfOnes(n: nat)
    ensures Sum(seq(n, i => 1)) == n
  {
    if n != 0 {
      assert seq(n, i => 1)[..n - 1] == seq(n - 1, i => 1);
      SumOfOnes(n - 1);
    }
  }

  /** The flat table answers every query as the contract demands of a table of ones. */
  lemma FlatMeetsContract(flat: FlatFrequencyTable)
    requires 1 <= flat.numSymbols
    ensures var n := flat.numSymbols;
            var t := Table(seq(n + 1, i => i));
            && t.Valid() && Represents(t, seq(n, i => 1))
            && flat.GetSymbolLimit() == t.Limit() && flat.GetTotal() == t.Total()
            && forall s: int :: if 0 <= s < t.Limit()
                 then flat.GetLow(s) == Some(t.Low(s)) && flat.GetHigh(s) == Some(t.High(s))
                      && flat.Get(s) == Some(t.High(s) - t.Low(s))
                 else flat.GetLow(s) == flat.GetHigh(s) == flat.Get(s) == None
  {
    var n := flat.numSymbols;
    var t, ones := Table(seq(n + 1, i => i)), seq(n, i => 1);
    SumOfOnes(n);
    forall s: nat | s < n
      ensures t.Low(s) == Sum(ones[..s]) && t.High(s) == Sum(ones[..s + 1])
    {
      SumOfOnes(s);
      SumOfOnes(s + 1);
      assert ones[..s] == seq(s, i => 1) && ones[..s + 1] == seq(s + 1, i => 1);
    }
  }

  // ---- Arbitrary frequencies, with a cache of prefix sums ----

  function PrefixSums(f: seq<nat>): (c: seq<nat>)
    ensures |c| == |f| + 1 && c[0] == 0 && c[|f|] == Sum(f)
    ensures forall i, j | 0 <= i <= j < |c| :: c[i] <= c[j]
  {
    if f == [] then [0] else
      var k := |f| - 1;
      PrefixSums(f[..k]) + [Sum(f)]
  }

  lemma {:induction false} PrefixSumsAt(f: seq<nat>, i: nat)
    requires i <= |f|
    ensures PrefixSums(f)[i] == Sum(f[..i])
  {
    if i == |f| {
      assert f[..i] == f;
    } else {
      var k := |f| - 1;
      PrefixSumsAt(f[..k], i);
      assert f[..k][..i] == f[..i];
    }
  }

  lemma PrefixSumsStep(f: seq<nat>, i: nat)
    requires i < |f|
    ensures PrefixSums(f)[i + 1] == PrefixSums(f)[i] + f[i]
  {
    PrefixSumsAt(f, i);
    PrefixSumsAt(f, i + 1);
    assert f[..i + 1][..i] == f[..i];
  }

  /** The cache is exactly what the contract asks for. */
  lemma PrefixSumsMeetContract(f: seq<nat>)
    requires f != []
    ensures Table(PrefixSums(f)).Valid() && Represents(Table(PrefixSums(f)), f)
  {
    forall s: nat | s <= |f|
      ensures PrefixSums(f)[s] == Sum(f[..s])
    {
      PrefixSumsAt(f, s);
    }
  }

  /** Changing one frequency moves the sums beyond it and no others. */
  lemma {:induction false} SumAfterSet(f: seq<nat>, symbol: nat, freq: nat)
    requires symbol < |f|
    ensures Sum(f[symbol := freq]) == Sum(f) - f[symbol] + freq
    ensures f[symbol] <= Sum(f)
  {
    var g, k := f[symbol := freq], |f| - 1;
    if symbol == k {
      assert g[..k] == f[..k];
    } else {
      assert g[..k] == f[..k][symbol := freq];
      SumAfterSet(f[..k], symbol, freq);
    }
  }

  class SimpleFrequencyTable {
    var frequencies: seq<nat>
    var total: nat
    var cumulative: Option<seq<nat>>

    ghost predicate Valid()
      reads this
    {
      && frequencies != []
      && total == Sum(frequencies)
      && (cumulative.Some? ==> cumulative.value == PrefixSums(frequencies))
    }

    /** The table this object stands for. */
    ghost function AsTable(): Table
      requires Valid()
      reads this
    {
      Table(PrefixSums(frequencies))
    }

    constructor (freqs: seq<nat>)
      requires freqs != []
      ensures Valid() && frequencies == freqs && cumulative.None?
    {
      frequencies, cumulative := freqs, None;
      new;
      total := 0;
      for i := 0 to |freqs|
        invariant frequencies == freqs && cumulative.None?
        invariant total == Sum(freqs[..i])
      {
        assert freqs[..i + 1][..i] == freqs[..i];
        total := total + freqs[i];
      }
      assert freqs[..|freqs|] == freqs;
    }

    /** An empty list or a negative frequency raises an exception, here null. */
    static method FromList(freqs: seq<int>) returns (t: SimpleFrequencyTable?)
      ensures t == null <==> freqs == [] || exists i | 0 <= i < |freqs| :: freqs[i] < 0
      ensures t != null ==> fresh(t) && t.Valid() && t.cumulative.None? && |t.frequencies| == |freqs|
      ensures t != null ==> forall i | 0 <= i < |freqs| :: t.frequencies[i] == freqs[i]
    {
      if freqs == [] {
        return null;
      }
      var copy: seq<nat> := [];
      for i := 0 to |freqs|
        invariant |copy| == i && forall j | 0 <= j < i :: copy[j] == freqs[j]
      {
        if freqs[i] < 0 {
          return null;
        }
        copy := copy + [freqs[i]];
      }
      t := new SimpleFrequencyTable(copy);
    }

    method GetSymbolLimit() returns (n: nat)
      requires Valid()
      ensures n == AsTable().Limit()
    {
      n := |frequencies|;
    }

    method Get(symbol: nat) returns (freq: nat)
      requires Valid() && symbol < |frequencies|
      ensures freq == frequencies[symbol] == AsTable().High(symbol) - AsTable().Low(symbol)
    {
      PrefixSumsStep(frequencies, symbol);
      freq := frequencies[symbol];
    }

    /** A negative frequency is refused, and then nothing has changed. */
    method Set(symbol: nat, freq: int) returns (ok: bool)
      requires Valid() && symbol < |frequencies|
      modifies this
      ensures Valid() && ok == (0 <= freq)
      ensures ok ==> frequencies == old(frequencies)[symbol := freq] && cumulative.None?
      ensures !ok ==> frequencies == old(frequencies) && total == old(total) && cumulative == old(cumulative)
    {
      if freq < 0 {
        return false;
      }
      SumAfterSet(frequencies, symbol, freq);
      var temp := total - frequencies[symbol];
      total := temp + freq;
      frequencies := frequencies[symbol := freq];
      cumulative := None;
      return true;
    }

    method Increment(symbol: nat)
      requires Valid() && symbol < |frequencies|
      modifies this
      ensures Valid() && cumulative.None?
      ensures frequencies == old(frequencies)[symbol := old(frequencies)[symbol] + 1]
    {
      SumAfterSet(frequencies, symbol, frequencies[symbol] + 1);
      total := total + 1;
      frequencies := frequencies[symbol := frequencies[symbol] + 1];
      cumulative := None;
    }

    method GetTotal() returns (t: nat)
      requires Valid()
      ensures t == AsTable().Total()
    {
      t := total;
    }

    /** Right when the cache is valid beforehand, and only then: the first query after a change
        fills the cache and returns nothing. */
    method GetLow(symbol: nat) returns (r: Option<nat>)
      requires Valid() && symbol < |frequencies|
      modifies `cumulative
      ensures Valid() && cumulative.Some?
      ensures r == if old(cumulative).Some? then Some(AsTable().Low(symbol)) else None
    {
      if cumulative.None? {
        InitCumulative();
        return None;
      }
      return Some(cumulative.value[symbol]);
    }

    method GetHigh(symbol: nat) returns (r: Option<nat>)
      requires Valid() && symbol < |frequencies|
      modifies `cumulative
      ensures Valid() && cumulative.Some?
      ensures r == if old(cumulative).Some? then Some(AsTable().High(symbol)) else None
    {
      if cumulative.None? {
        InitCumulative();
        return None;
      }
      return Some(cumulative.value[symbol + 1]);
    }

    method InitCumulative()
      requires Valid()
      modifies `cumulative
      ensures Valid() && cumulative.Some?
    {
      var cumul, sum := [0], 0;
      for i := 0 to |frequencies|
        invariant Valid()
        invariant sum == Sum(frequencies[..i]) && cumul == PrefixSums(frequencies[..i])
      {
        assert frequencies[..i + 1][..i] == frequencies[..i];
        sum := sum + frequencies[i];
        cumul := cumul + [sum];
      }
      assert frequencies[..|frequencies|] == frequencies;
      assert sum == total;
      cumulative := Some(cumul);
    }
  }
}
