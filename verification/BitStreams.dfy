/** Bit-oriented streams over byte files, big-endian within each byte. */
module BitStreams {
  import opened Bits

  /** The last `k` binary digits of `v`, most significant first. */
  function Digits(v: nat, k: nat): (s: seq<bit>)
    ensures |s| == k
    decreases k
  {
    if k == 0 then [] else Digits(v / 2, k - 1) + [v % 2]
  }

  function Unpack(bytes: seq<byte>, size: nat): seq<bit> {
    if bytes == [] then [] else
      var k := |bytes| - 1;
      Unpack(bytes[..k], size) + Digits(bytes[k], size)
  }

  lemma {:induction false} UnpackLength(bytes: seq<byte>, size: nat)
    ensures |Unpack(bytes, size)| == size * |bytes|
  {
    if bytes != [] {
      var k := |bytes| - 1;
      UnpackLength(bytes[..k], size);
      assert size * |bytes| == size * k + size;
    }
  }

  function BytesToBits(bytes: seq<byte>): (s: seq<bit>)
    ensures |s| == 8 * |bytes|
  {
    UnpackLength(bytes, 8);
    Unpack(bytes, 8)
  }

  /** How many zeros complete `n` bits to whole bytes. */
  function Padding(n: nat): (k: nat)
    ensures k < 8 && n + k == 8 * ((n + 7) / 8)
  {
    (8 - n % 8) % 8
  }

  lemma PaddingShift(a: nat, n: nat)
    ensures Padding(a + n) == Padding(n) <==> a % 8 == 0
    ensures Padding(n) == (8 - n % 8) % 8
  {
  }

  lemma {:induction false} DigitsHead(v: nat, k: nat)
    requires 0 < k
    ensures Digits(v, k) == [v / Pow2(k - 1) % 2] + Digits(v, k - 1)
    decreases k
  {
    if k == 1 {
      DivisionIs(v, 1, v, 0);
    } else {
      DigitsHead(v / 2, k - 1);
      DivideTwice(v, Pow2(k - 2));
      assert Digits(v, k) == [v / 2 / Pow2(k - 2) % 2] + Digits(v / 2, k - 2) + [v % 2];
    }
  }

  lemma TakeDigit(v: nat, k: nat, tail: seq<bit>)
    requires 0 < k
    ensures (Digits(v, k) + tail)[0] == v / Pow2(k - 1) % 2
    ensures (Digits(v, k) + tail)[1..] == Digits(v, k - 1) + tail
  {
    DigitsHead(v, k);
  }

  lemma DivideTwice(v: nat, m: nat)
    requires 0 < m
    ensures v / (2 * m) == v / 2 / m
  {
    var h := v / 2;
    var q, r := h / m, h % m;
    assert h == q * m + r;
    DoubleProduct(m, q);
    DivisionIs(v, 2 * m, q, 2 * r + v % 2);
  }

  lemma DigitsSnoc(v: nat, k: nat, b: bit)
    ensures Digits(2 * v + b, k + 1) == Digits(v, k) + [b]
  {
  }

  lemma ByteSize()
    ensures Pow2(8) == 256
  {
  }

  lemma {:induction false} DigitsInjective(v: nat, w: nat, k: nat)
    requires Digits(v, k) == Digits(w, k) && v < Pow2(k) && w < Pow2(k)
    ensures v == w
    decreases k
  {
    if k != 0 {
      assert Digits(v, k)[..k - 1] == Digits(v / 2, k - 1) && Digits(w, k)[..k - 1] == Digits(w / 2, k - 1);
      assert Digits(v, k)[k - 1] == v % 2 && Digits(w, k)[k - 1] == w % 2;
      DigitsInjective(v / 2, w / 2, k - 1);
    }
  }

  lemma {:induction false} UnpackConcat(a: seq<byte>, b: seq<byte>, size: nat)
    ensures Unpack(a + b, size) == Unpack(a, size) + Unpack(b, size)
  {
    hide Digits;
    if b == [] {
      assert a + b == a;
    } else {
      var k := |b| - 1;
      UnpackConcat(a, b[..k], size);
      assert (a + b)[..|a + b| - 1] == a + b[..k];
      assert (a + b)[|a + b| - 1] == b[k];
    }
  }

  lemma UnpackOne(b: byte, size: nat)
    ensures Unpack([b], size) == Digits(b, size)
  {
    assert [b][..0] == [];
    assert Unpack([], size) == [];
  }

  lemma {:induction false} UnpackInjective(a: seq<byte>, b: seq<byte>, size: nat)
    requires |a| == |b| && Unpack(a, size) == Unpack(b, size) && 256 <= Pow2(size)
    ensures a == b
  {
    if a != [] {
      var k := |a| - 1;
      var x, y := Unpack(a[..k], size), Unpack(b[..k], size);
      UnpackLength(a[..k], size);
      UnpackLength(b[..k], size);
      assert Unpack(a, size) == x + Digits(a[k], size) && Unpack(b, size) == y + Digits(b[k], size);
      assert Unpack(a, size)[..|x|] == x && Unpack(b, size)[..|x|] == y;
      assert Unpack(a, size)[|x|..] == Digits(a[k], size) && Unpack(b, size)[|x|..] == Digits(b[k], size);
      DigitsInjective(a[k], b[k], size);
      UnpackInjective(a[..k], b[..k], size);
      assert a == a[..k] + [a[k]] && b == b[..k] + [b[k]];
    }
  }

  lemma BytesToBitsHead(bytes: seq<byte>)
    requires bytes != []
    ensures BytesToBits(bytes) == Digits(bytes[0], 8) + BytesToBits(bytes[1..])
  {
    assert bytes == [bytes[0]] + bytes[1..];
    UnpackConcat([bytes[0]], bytes[1..], 8);
    UnpackOne(bytes[0], 8);
  }

  lemma BytesToBitsSnoc(bytes: seq<byte>, b: byte)
    ensures BytesToBits(bytes + [b]) == BytesToBits(bytes) + Digits(b, 8)
  {
    UnpackConcat(bytes, [b], 8);
    UnpackOne(b, 8);
  }

  /** A byte file is determined by its bits. */
  lemma BytesToBitsInjective(a: seq<byte>, b: seq<byte>)
    requires BytesToBits(a) == BytesToBits(b)
    ensures a == b
  {
    ByteSize();
    UnpackInjective(a, b, 8);
  }

  lemma {:induction false} DigitAt(v: nat, k: nat, j: nat)
    requires j < k
    ensures Digits(v, k)[j] == v / Pow2(k - 1 - j) % 2
    decreases k
  {
    hide Digits;
    DigitsHead(v, k);
    if j != 0 {
      DigitAt(v, k - 1, j - 1);
    }
  }

  /** The order of the bits in a file: byte by byte, and in each byte from the most significant one. */
  lemma {:induction false} FileBit(bytes: seq<byte>, i: nat, j: nat)
    requires i < |bytes| && j < 8
    ensures BytesToBits(bytes)[8 * i + j] == bytes[i] / Pow2(7 - j) % 2
  {
    var k := |bytes| - 1;
    assert bytes == bytes[..k] + [bytes[k]];
    BytesToBitsSnoc(bytes[..k], bytes[k]);
    hide BytesToBits;
    if i < k {
      FileBit(bytes[..k], i, j);
    } else {
      DigitAt(bytes[k], 8, j);
    }
  }

  /** A bit joins the byte being filled, which leaves for the file when it is full. */
  lemma AppendBit(bytes: seq<byte>, current: nat, filled: nat, b: bit, next: nat)
    requires filled < 8 && current < Pow2(filled) && next == 2 * current + b
    ensures filled < 7 ==>
              && next < Pow2(filled + 1)
              && BytesToBits(bytes) + Digits(next, filled + 1) == BytesToBits(bytes) + Digits(current, filled) + [b]
    ensures filled == 7 ==>
              && next < 256
              && BytesToBits(bytes + [next]) + Digits(0, 0) == BytesToBits(bytes) + Digits(current, filled) + [b]
    ensures 0 < Pow2(0)
  {
    DigitsSnoc(current, filled, b);
    Pow2Doubles(filled);
    assert Digits(0, 0) == [];
    hide Digits;
    hide Pow2;
    if filled == 7 {
      ByteSize();
      BytesToBitsSnoc(bytes, next);
      assert BytesToBits(bytes + [next]) == BytesToBits(bytes) + (Digits(current, filled) + [b]);
    }
  }

  class BitOutputStream {
    var output: seq<byte>  // what the file has received
    var currentByte: nat
    var numBitsFilled: nat

    ghost predicate Valid()
      reads this
    {
      numBitsFilled < 8 && currentByte < Pow2(numBitsFilled)
    }

    /** Every bit written so far. */
    ghost function Written(): seq<bit>
      reads this
    {
      BytesToBits(output) + Digits(currentByte, numBitsFilled)
    }

    constructor ()
      ensures Valid() && output == [] && Written() == []
    {
      output, currentByte, numBitsFilled := [], 0, 0;
    }

    method Write(b: bit)
      requires Valid()
      modifies this
      ensures Valid() && Written() == old(Written()) + [b]
      ensures numBitsFilled == if old(numBitsFilled) == 7 then 0 else old(numBitsFilled) + 1
    {
      OrDoubled(currentByte, b);
      AppendBit(output, currentByte, numBitsFilled, b, Or(2 * currentByte, b));
      hide *;
      StateIs();
      currentByte := Or(2 * currentByte, b);
      numBitsFilled := numBitsFilled + 1;
      if numBitsFilled == 8 {
        output := output + [currentByte];
        currentByte, numBitsFilled := 0, 0;
      }
      StateIs();
    }

    lemma StateIs()
      ensures Valid() <==> numBitsFilled < 8 && currentByte < Pow2(numBitsFilled)
      ensures Written() == BytesToBits(output) + Digits(currentByte, numBitsFilled)
    {
    }

    method Close()
      requires Valid()
      modifies this
      ensures Valid() && numBitsFilled == 0
      ensures BytesToBits(output) == old(Written()) + Copies(0, Padding(|old(Written())|))
    {
      hide Unpack;
      hide Pow2;
      ghost var before, k := Written(), 0;
      ghost var gap := if numBitsFilled == 0 then 0 else 8 - numBitsFilled;
      assert gap == Padding(|before|) by {
        assert |before| == 8 * |output| + numBitsFilled;
      }
      assert before + Copies(0, 0) == before;
      while numBitsFilled != 0
        invariant Valid() && k <= gap < 8
        invariant numBitsFilled == if k == gap then 0 else 8 - (gap - k)
        invariant Written() == before + Copies(0, k)
        decreases gap - k
      {
        assert before + Copies(0, k) + [0] == before + Copies(0, k + 1);
        Write(0);
        k := k + 1;
      }
      assert Written() == BytesToBits(output);
    }
  }

  class CountingBitOutputStream {
    const bitOut: BitOutputStream
    var numBits: nat
    ghost const before: nat  // how many bits had been written when counting began

    ghost predicate Valid()
      reads this, bitOut
    {
      bitOut.Valid() && before + numBits == |bitOut.Written()|
    }

    constructor (bitOut: BitOutputStream)
      requires bitOut.Valid()
      ensures Valid() && this.bitOut == bitOut && numBits == 0 && before == |bitOut.Written()|
    {
      this.bitOut := bitOut;
      numBits, before := 0, |bitOut.Written()|;
    }

    method Write(b: bit)
      requires Valid()
      modifies this, bitOut
      ensures Valid() && bitOut.Written() == old(bitOut.Written()) + [b]
    {
      numBits := numBits + 1;
      bitOut.Write(b);
    }

    /** The count is rounded up to whole bytes, and so is the file; the two agree if counting began at
        the boundary of a byte. */
    method Close()
      requires Valid()
      modifies this, bitOut
      ensures bitOut.Valid() && numBits == old(numBits) + Padding(old(numBits))
      ensures before % 8 == 0 <==> before + numBits == 8 * |bitOut.output|
      ensures BytesToBits(bitOut.output)
           == old(bitOut.Written()) + Copies(0, Padding(|old(bitOut.Written())|))
    {
      hide Unpack;
      hide Digits;
      hide Pow2;
      PaddingShift(before, numBits);
      numBits := numBits + (8 - numBits % 8) % 8;
      hide Padding;
      hide BytesToBits;
      bitOut.Close();
    }
  }

  /** What the `i`-th read of a stream holding `s` returns. */
  function ReadAt(s: seq<bit>, i: nat): int {
    if i < |s| then s[i] else -1
  }

  /** What is left of a stream holding `s` after `i` reads. */
  function After(s: seq<bit>, i: nat): seq<bit> {
    if i <= |s| then s[i..] else []
  }

  lemma AfterNext(s: seq<bit>, i: nat)
    ensures ReadAt(After(s, i), 0) == ReadAt(s, i)
    ensures After(After(s, i), 1) == After(s, i + 1)
  {
  }

  class BitInputStream {
    const input: seq<byte>
    var position: nat       // how many bytes have been taken from the file
    var currentByte: int
    var numBitsRemaining: nat

    ghost predicate Valid()
      reads this
    {
      && position <= |input|
      && -1 <= currentByte < 256
      && numBitsRemaining < 8
      && (currentByte == -1 ==> position == |input| && numBitsRemaining == 0)
    }

    /** Every bit still to be read. */
    ghost function Remaining(): seq<bit>
      requires Valid()
      reads this
    {
      (if currentByte == -1 then [] else Digits(currentByte, numBitsRemaining)) + BytesToBits(input[position..])
    }

    constructor (input: seq<byte>)
      ensures Valid() && Remaining() == BytesToBits(input)
    {
      this.input := input;
      position, currentByte, numBitsRemaining := 0, 0, 0;
      new;
      assert input[0..] == input;
    }

    /** The next bit, or -1 from the end of the file on. */
    method Read() returns (b: int)
      requires Valid()
      modifies this
      ensures Valid()
      ensures b == ReadAt(old(Remaining()), 0) && Remaining() == After(old(Remaining()), 1)
    {
      if currentByte == -1 {
        return -1;
      }
      assert Digits(currentByte, 0) == [];
      hide Digits;
      hide Pow2;
      hide Unpack;
      if numBitsRemaining == 0 {
        if position == |input| {
          currentByte := -1;
          return -1;
        }
        BytesToBitsHead(input[position..]);
        assert input[position..][1..] == input[position + 1..];
        currentByte, position := input[position], position + 1;
        numBitsRemaining := 8;
      }
      TakeDigit(currentByte, numBitsRemaining, BytesToBits(input[position..]));
      numBitsRemaining := numBitsRemaining - 1;
      b := currentByte / Pow2(numBitsRemaining) % 2;
    }
  }

  method Store(bits: seq<bit>) returns (bytes: seq<byte>)
    ensures BytesToBits(bytes) == bits + Copies(0, Padding(|bits|))
  {
    hide Unpack;
    hide Digits;
    hide Pow2;
    var out := new BitOutputStream();
    for i := 0 to |bits|
      invariant out.Valid() && out.Written() == bits[..i]
    {
      out.Write(bits[i]);
    }
    assert bits[..|bits|] == bits;
    out.Close();
    bytes := out.output;
  }

  method Fetch(bytes: seq<byte>, times: nat) returns (back: seq<int>)
    ensures |back| == times
    ensures forall i: nat | i < times :: back[i] == ReadAt(BytesToBits(bytes), i)
  {
    hide Unpack;
    hide Digits;
    hide Pow2;
    var inp := new BitInputStream(bytes);
    ghost var all := BytesToBits(bytes);
    assert After(all, 0) == all;
    hide After;
    hide ReadAt;
    hide BytesToBits;
    back := [];
    for i := 0 to times
      invariant inp.Valid() && |back| == i
      invariant inp.Remaining() == After(all, i)
      invariant forall j: nat | j < i :: back[j] == ReadAt(all, j)
    {
      AfterNext(all, i);
      var b := inp.Read();
      back := back + [b];
    }
  }

  /** Storing any bits and then reading any number of times: the bits come back, followed by
      fewer than eight zeros up to the byte boundary, followed by -1 for ever. */
  method Replay(bits: seq<bit>, times: nat) returns (bytes: seq<byte>, back: seq<int>)
    ensures |bytes| == (|bits| + 7) / 8
    ensures |back| == times
    ensures forall i: nat | i < times ::
              back[i] == if i < |bits| then bits[i] else if i < 8 * |bytes| then 0 else -1
  {
    hide Unpack;
    hide Digits;
    hide Pow2;
    bytes := Store(bits);
    back := Fetch(bytes, times);
  }
}
