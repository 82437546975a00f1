/** What the transmitter and the receiver of the serial line share. */
module Serial {
  import opened Bits

  /** Eight bits, least significant first. */
  type Byte = b: seq<bool> | |b| == 8 witness [false, false, false, false, false, false, false, false]

  /** Clock cycles a bit: CYCLES - 1 has to fit the cycle counter, and the middle of a received bit, seen with
      the delay of the synchroniser, has to fall inside the transmitted one. */
  type Cycles = c: nat | 3 <= c <= 0x1_0000 witness 3

  type Count16 = n: nat | n < 0x1_0000 witness 0
  type Count3 = n: nat | n < 8 witness 0

  const ZERO: Byte := [false, false, false, false, false, false, false, false]

  /** A byte taken or handed over at a clock edge. */
  datatype Event = Event(clock: nat, byte: Byte)

  function Inc16(n: Count16): Count16 {
    if n == 0xFFFF then 0 else n + 1
  }

  function Inc3(n: Count3): Count3 {
    if n == 7 then 0 else n + 1
  }

  /** Where bit `b` starts, counted from bit 0. */
  function Slot(c: Cycles, b: Count3): nat {
    c * b
  }

  lemma SlotFacts(c: Cycles, b: Count3)
    ensures Slot(c, 0) == 0 && Slot(c, 7) == 7 * c && Slot(c, b) <= 7 * c
    ensures b < 7 ==> Slot(c, b + 1) == Slot(c, b) + c
  {
  }

  lemma SlotUnique(c: Cycles, a: Count3, b: Count3, x: nat, y: nat)
    requires x < c && y < c && Slot(c, a) + x == Slot(c, b) + y
    ensures a == b && x == y
  {
    Multiples(c, a + 1, b);
    Multiples(c, b + 1, a);
  }

  lemma Multiples(c: nat, a: int, b: int)
    ensures a <= b ==> c * a <= c * b
  {
  }

  /** A position in the bits belongs to one bit only. */
  lemma WithinSlot(c: Cycles, b: Count3, offset: nat)
    requires offset < c
    ensures (Slot(c, b) + offset) / c == b
  {
    assert Slot(c, b) == b * c;
    DivisionIs(Slot(c, b) + offset, c, b, offset);
  }

  function Delayed(e: Event, clocks: nat): Event {
    Event(e.clock + clocks, e.byte)
  }
}
