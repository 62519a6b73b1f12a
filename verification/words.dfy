/** Machine words of the TX-2 as plain integers with explicit widths.

    An address is an 18-bit value whose top bit (bit 2.9 in TX-2
    numbering) is the "mark" bit and whose low 17 bits are the physical
    address.  Index registers hold 18-bit patterns that are read as
    one's-complement signed numbers.  A full word has 36 bits and splits
    into a left and a right 18-bit half. */
module Words {

  const HalfModulus: int := 0x4_0000          // 2^18
  const PhysicalModulus: int := 0x2_0000      // 2^17
  const WordModulus: int := 0x10_0000_0000    // 2^36

  type Half = h: int | 0 <= h < HalfModulus
  /** An address is an 18-bit value like any other half word. */
  type Addr = Half
  type Word36 = w: int | 0 <= w < WordModulus

  /** The physical part of an address (its low 17 bits). */
  function Physical(a: Addr): (r: int)
    ensures 0 <= r < PhysicalModulus
  {
    a % PhysicalModulus
  }

  /** The mark bit of an address (bit 2.9). */
  predicate Mark(a: Addr) {
    a >= PhysicalModulus
  }

  /** `Address::join`: put a physical address and a mark bit together. */
  function Join(physical: int, mark: bool): (r: Addr)
    requires 0 <= physical < PhysicalModulus
    ensures Physical(r) == physical && Mark(r) == mark
  {
    if mark then physical + PhysicalModulus else physical
  }

  lemma SplitJoin(a: Addr)
    ensures Join(Physical(a), Mark(a)) == a
  {
  }

  /** `Address::successor`: the next physical address, wrapping from the
      highest physical address to 0, with the mark bit kept. */
  function Successor(a: Addr): (r: Addr)
    ensures Mark(r) == Mark(a)
    ensures Physical(a) + 1 < PhysicalModulus ==> Physical(r) == Physical(a) + 1
    ensures Physical(a) + 1 == PhysicalModulus ==> Physical(r) == 0
  {
    Join((Physical(a) + 1) % PhysicalModulus, Mark(a))
  }

  /** The one's-complement value of an 18-bit pattern: patterns with the
      sign bit set stand for `pattern - (2^18 - 1)`, so the all-ones
      pattern is negative zero. */
  function SignedValue(h: Half): (r: int)
    ensures -(PhysicalModulus - 1) <= r <= PhysicalModulus - 1
    ensures h < PhysicalModulus ==> r == h
  {
    if h < PhysicalModulus then h else h - (HalfModulus - 1)
  }

  /** `Signed18Bit < 0`: strictly negative, so negative zero is not. As
      a bit pattern: the sign bit is set and not every bit is. */
  predicate IsNegative(h: Half): (negative: bool)
    ensures negative <==> PhysicalModulus <= h < HalfModulus - 1
  {
    SignedValue(h) < 0
  }

  /** `Address::index_by`: offset an address by a signed index value in the
      18-bit ring (wraps, never saturates). */
  function IndexBy(a: Addr, delta: Half): (r: Addr)
    ensures (r - a - SignedValue(delta)) % HalfModulus == 0
  {
    (a + SignedValue(delta)) % HalfModulus
  }

  function LeftHalf(w: Word36): Half {
    w / HalfModulus
  }

  function RightHalf(w: Word36): Half {
    w % HalfModulus
  }

  function JoinHalves(left: Half, right: Half): (w: Word36)
    ensures LeftHalf(w) == left && RightHalf(w) == right
  {
    left * HalfModulus + right
  }

  lemma HalvesRoundTrip(w: Word36)
    ensures JoinHalves(LeftHalf(w), RightHalf(w)) == w
  {
  }
}
