/** Powers of two, Python's bitwise operators on natural numbers, and bit strings read as numbers. */
module Bits {

  type bit = b: nat | b < 2

  type byte = b: nat | b < 256

  function Pow2(k: nat): (r: nat)
    ensures 1 <= r
  {
    if k == 0 then 1 else 2 * Pow2(k - 1)
  }

  lemma Pow2Doubles(k: nat)
    ensures Pow2(k + 1) == 2 * Pow2(k)
    ensures Pow2(0) == 1
  {
  }

  lemma {:induction false} Pow2Add(j: nat, k: nat)
    ensures Pow2(j + k) == Pow2(j) * Pow2(k)
  {
    if k == 0 {
    } else {
      Pow2Add(j, k - 1);
      assert Pow2(j + k) == 2 * Pow2(j + (k - 1));
      assert 2 * (Pow2(j) * Pow2(k - 1)) == Pow2(j) * (2 * Pow2(k - 1));
    }
  }

  /** `x` doubled `k` times. */
  function Doubled(x: int, k: nat): int
    decreases k
  {
    if k == 0 then x else Doubled(2 * x, k - 1)
  }

  lemma {:induction false} DoubledIs(x: int, k: nat)
    ensures Doubled(x, k) == Pow2(k) * x
    decreases k
  {
    if k == 0 {
    } else {
      DoubledIs(2 * x, k - 1);
      DoubleProduct(Pow2(k - 1), x);
      DoubleProduct(x, Pow2(k - 1));
    }
  }

  // ---- Bitwise operators, defined digit by digit ----

  function And(x: nat, y: nat): nat {
    if x == 0 || y == 0 then 0 else 2 * And(x / 2, y / 2) + (if x % 2 == 1 && y % 2 == 1 then 1 else 0)
  }

  /** `x & ~y`, where `~y` has infinitely many leading ones. */
  function AndNot(x: nat, y: nat): nat {
    if x == 0 then 0 else 2 * AndNot(x / 2, y / 2) + (if x % 2 == 1 && y % 2 == 0 then 1 else 0)
  }

  function Or(x: nat, y: nat): nat
    decreases x + y
  {
    if x == 0 then y else if y == 0 then x else
      2 * Or(x / 2, y / 2) + (if x % 2 == 1 || y % 2 == 1 then 1 else 0)
  }

  function Xor(x: nat, y: nat): nat
    decreases x + y
  {
    if x == 0 then y else if y == 0 then x else
      2 * Xor(x / 2, y / 2) + (if x % 2 != y % 2 then 1 else 0)
  }

  /** `x ^ y` where `y` may have infinitely many leading ones, as -1 has: `~y` is `-1 - y`. */
  function XorInt(x: nat, y: int): int {
    if 0 <= y then Xor(x, y) else -1 - Xor(x, -1 - y)
  }

  /** `x & mask`, for such an `x`. */
  function AndInt(x: int, mask: nat): nat {
    if 0 <= x then And(x, mask) else AndNot(mask, -1 - x)
  }

  /** `x & ~y`, for such a `y`. */
  function AndNotInt(x: nat, y: int): nat {
    if 0 <= y then AndNot(x, y) else And(x, -1 - y)
  }

  /** Digit `k` of `x`, counted from the least significant one. */
  function Digit(x: nat, k: nat): bit {
    if k == 0 then x % 2 else Digit(x / 2, k - 1)
  }

  lemma {:induction false} DigitOfZero(k: nat)
    ensures Digit(0, k) == 0
  {
    if k != 0 {
      DigitOfZero(k - 1);
    }
  }

  lemma {:induction false} DigitOfPower(j: nat, k: nat)
    requires k < j
    ensures Digit(Pow2(j), k) == 0 && Digit(Pow2(j) - 1, k) == 1
  {
    assert Pow2(j) == 2 * Pow2(j - 1);
    if k != 0 {
      assert (Pow2(j) - 1) / 2 == Pow2(j - 1) - 1;
      DigitOfPower(j - 1, k - 1);
    }
  }

  /** The top digit of a `k + 1` digit number tells which half it lies in. */
  lemma {:induction false} TopDigit(x: nat, k: nat)
    requires x < Pow2(k + 1)
    ensures Digit(x, k) == 1 <==> Pow2(k) <= x
    ensures x / Pow2(k) == Digit(x, k)
  {
    assert Pow2(k + 1) == 2 * Pow2(k);
    if k == 0 {
    } else {
      TopDigit(x / 2, k - 1);
      assert Pow2(k) == 2 * Pow2(k - 1);
    }
    HalfQuotient(x, Pow2(k));
  }

  lemma HalfQuotient(x: nat, m: nat)
    requires 0 < m && x < 2 * m
    ensures x / m == if x < m then 0 else 1
  {
    if m <= x {
      assert x == 1 * m + (x - m);
      DivisionIs(x, m, 1, x - m);
    } else {
      DivisionIs(x, m, 0, x);
    }
  }

  lemma ModHalf(x: nat, m: nat)
    requires 0 < m && x < 2 * m
    ensures x % m == if x < m then x else x - m
  {
    if x < m {
      DivisionIs(x, m, 0, x);
    } else {
      DivisionIs(x, m, 1, x - m);
    }
  }

  lemma ModThird(x: nat, m: nat)
    requires 0 < m <= x < 3 * m
    ensures x % m == if x < 2 * m then x - m else x - 2 * m
  {
    if x < 2 * m {
      DivisionIs(x, m, 1, x - m);
    } else {
      DivisionIs(x, m, 2, x - 2 * m);
    }
  }

  /** Quotient and remainder are unique. */
  lemma DivisionIs(x: int, m: int, q: int, r: int)
    requires 0 <= r < m
    requires x == q * m + r
    ensures x / m == q && x % m == r
  {
    var d := x / m - q;
    assert d * m == r - x % m by {
      assert x == (x / m) * m + x % m;
      assert d * m == (x / m) * m - q * m;
    }
    if d != 0 {
      MultipleIsFar(d, m);
      assert false;
    }
  }

  lemma MultipleIsFar(d: int, m: int)
    requires 0 < m
    ensures 0 < d ==> m <= d * m
    ensures d < 0 ==> d * m <= -m
  {
    if 0 < d {
      ProductIsNat(d - 1, m);
      assert d * m == (d - 1) * m + m;
    } else if d < 0 {
      ProductIsNat(-d - 1, m);
      assert d * m == -((-d - 1) * m) - m;
    }
  }

  lemma ProductIsNat(a: nat, m: nat)
    ensures 0 <= a * m
  {
  }

  lemma ModDouble(x: nat, m: nat)
    requires 0 < m
    ensures x % (2 * m) == 2 * ((x / 2) % m) + x % 2
  {
    var h := x / 2;
    var q, r := h / m, h % m;
    assert h == q * m + r;
    assert q * (2 * m) == 2 * (q * m);
    DivisionIs(x, 2 * m, q, 2 * r + x % 2);
  }

  lemma {:induction false} AndDigit(x: nat, k: nat)
    ensures And(x, Pow2(k)) == Digit(x, k) * Pow2(k)
  {
    if x == 0 {
      DigitOfZero(k);
    } else if k == 0 {
      assert And(x / 2, 0) == 0;
    } else {
      AndDigit(x / 2, k - 1);
      assert Pow2(k) == 2 * Pow2(k - 1);
    }
  }

  lemma {:induction false} XorDigit(x: nat, y: nat, k: nat)
    ensures Digit(Xor(x, y), k) == 1 <==> Digit(x, k) != Digit(y, k)
    decreases k
  {
    if x == 0 || y == 0 {
      DigitOfZero(k);
    } else if k != 0 {
      assert Xor(x, y) / 2 == Xor(x / 2, y / 2);
      XorDigit(x / 2, y / 2, k - 1);
    }
  }

  lemma {:induction false} AndNotDigit(x: nat, y: nat, k: nat)
    ensures Digit(AndNot(x, y), k) == 1 <==> Digit(x, k) == 1 && Digit(y, k) == 0
    decreases k
  {
    if x == 0 {
      DigitOfZero(k);
    } else if k != 0 {
      assert AndNot(x, y) / 2 == AndNot(x / 2, y / 2);
      AndNotDigit(x / 2, y / 2, k - 1);
    }
  }

  /** Masking with `k` ones keeps the remainder modulo `2^k`. */
  lemma {:induction false} AndOnes(x: nat, k: nat)
    ensures And(x, Pow2(k) - 1) == x % Pow2(k)
  {
    hide And;
    hide Pow2;
    if k == 0 {
      Pow2Doubles(0);
      AndNothing(x);
    } else {
      Pow2Doubles(k - 1);
      AndOnes(x / 2, k - 1);
      AndOneMore(x, Pow2(k - 1));
    }
  }

  lemma AndNothing(x: nat)
    ensures And(x, 0) == 0 == And(0, x)
  {
  }

  lemma AndOneMore(x: nat, m: nat)
    requires 0 < m && And(x / 2, m - 1) == (x / 2) % m
    ensures And(x, 2 * (m - 1) + 1) == x % (2 * m)
  {
    hide *;
    ModDouble(x, m);
    AndLastDigit(x, m - 1);
  }

  lemma AndLastDigit(x: nat, y: nat)
    ensures And(x, 2 * y + 1) == 2 * And(x / 2, y) + x % 2
  {
    var z := 2 * y + 1;
    AndUnfolds(x, z);
    assert z / 2 == y && z % 2 == 1;
    hide And;
  }

  lemma AndUnfolds(x: nat, z: nat)
    requires 0 < z
    ensures And(x, z) == 2 * And(x / 2, z / 2) + (if x % 2 == 1 && z % 2 == 1 then 1 else 0)
  {
    AndNothing(z / 2);
  }

  /** Shifting left and putting a bit in. */
  lemma OrDoubled(x: nat, b: bit)
    ensures Or(2 * x, b) == 2 * x + b
  {
    if x != 0 && b != 0 {
      assert Or(x, 0) == x;
    }
  }

  lemma {:induction false} OrTop(x: nat, k: nat)
    requires x < Pow2(k)
    ensures Or(x, Pow2(k)) == x + Pow2(k)
    ensures Or(Pow2(k), x) == x + Pow2(k)
  {
    if x != 0 {
      OrTop(x / 2, k - 1);
    }
  }

  // ---- Bit strings as big-endian numbers, continued by zeros for ever ----

  function BitAt(s: seq<bit>, i: nat): bit {
    if i < |s| then s[i] else 0
  }

  /** The number spelled by the first `k` bits of `s` followed by zeros. */
  function Peek(s: seq<bit>, k: nat): nat {
    if k == 0 then 0 else 2 * Peek(s, k - 1) + BitAt(s, k - 1)
  }

  function Value(s: seq<bit>): nat {
    Peek(s, |s|)
  }

  function Copies(b: bit, k: nat): (s: seq<bit>)
    ensures |s| == k && forall i | 0 <= i < k :: s[i] == b
  {
    seq(k, i => b)
  }

  lemma {:induction false} PeekAgrees(s: seq<bit>, t: seq<bit>, k: nat)
    requires forall i: nat | i < k :: BitAt(s, i) == BitAt(t, i)
    ensures Peek(s, k) == Peek(t, k)
  {
    if k != 0 {
      PeekAgrees(s, t, k - 1);
    }
  }

  /** Reading more bits only refines what has been read. */
  lemma {:induction false} PeekRefines(s: seq<bit>, k: nat, d: nat)
    ensures Pow2(d) * Peek(s, k) <= Peek(s, k + d) < Pow2(d) * (Peek(s, k) + 1)
  {
    if d == 0 {
    } else {
      PeekRefines(s, k, d - 1);
      assert Peek(s, k + d) == 2 * Peek(s, k + (d - 1)) + BitAt(s, k + (d - 1));
      DoubleProduct(Pow2(d - 1), Peek(s, k));
      DoubleProduct(Pow2(d - 1), Peek(s, k) + 1);
    }
  }

  lemma DoubleProduct(a: int, v: int)
    ensures (2 * a) * v == 2 * (a * v)
    ensures v * (2 * a) == 2 * (a * v)
  {
  }

  lemma PeekBound(s: seq<bit>, k: nat)
    ensures Peek(s, k) < Pow2(k)
  {
    PeekRefines(s, 0, k);
  }

  /** Bit strings spelling the same number to the same length agree bit by bit. */
  lemma {:induction false} PeekInjective(s: seq<bit>, t: seq<bit>, k: nat)
    requires Peek(s, k) == Peek(t, k)
    ensures forall i: nat | i < k :: BitAt(s, i) == BitAt(t, i)
  {
    if k != 0 {
      PeekInjective(s, t, k - 1);
    }
  }

  lemma ValueSnoc(s: seq<bit>, b: bit)
    ensures Value(s + [b]) == 2 * Value(s) + b
  {
    PeekAgrees(s + [b], s, |s|);
  }

  /** A run of equal bits appended to a bit string. */
  lemma {:induction false} ValueCopies(s: seq<bit>, b: bit, k: nat)
    ensures Value(s + Copies(b, k)) == Value(s) * Pow2(k) + b * (Pow2(k) - 1)
  {
    if k == 0 {
      assert s + Copies(b, 0) == s;
    } else {
      ValueCopies(s, b, k - 1);
      assert s + Copies(b, k) == (s + Copies(b, k - 1)) + [b];
      ValueSnoc(s + Copies(b, k - 1), b);
      assert Value(s) * Pow2(k) == 2 * (Value(s) * Pow2(k - 1));
      assert b * (Pow2(k) - 1) == 2 * (b * (Pow2(k - 1) - 1)) + b;
    }
  }
}
