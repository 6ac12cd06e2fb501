/** Unsigned 64-bit addresses, as used by the breakpad symbol tables. */
module Addresses {

  const LIMIT: nat := 0x1_0000_0000_0000_0000

  type Address = x: nat | x < LIMIT

  /** Unsigned subtraction and addition as the C++ code performs them. */
  function Wrap(x: int): (r: Address)
    ensures 0 <= x < LIMIT ==> r == x
    ensures (r - x) % LIMIT == 0
  {
    x % LIMIT
  }

  /** The width of `MemAddr`: the last address before it wraps around. */
  lemma WrapsAfter()
    ensures Wrap(0xFFFF_FFFF_FFFF_FFFF) == 0xFFFF_FFFF_FFFF_FFFF && Wrap(0xFFFF_FFFF_FFFF_FFFF + 1) == 0
  {
  }

  /** A stored range: both ends are included. */
  datatype Range<+E> = Range(base: Address, high: Address, entry: E)
  {
    predicate Contains(address: Address) {
      base <= address <= high
    }

    predicate Disjoint(b: Address, h: Address) {
      h < base || high < b
    }

    /** This range lies inside [b, h] and is not equal to it. */
    predicate ProperlyInside(b: Address, h: Address) {
      b <= base && high <= h && (base, high) != (b, h)
    }

    /** [b, h] lies inside this range and is not equal to it. */
    predicate ProperlyAround(b: Address, h: Address) {
      base <= b && h <= high && (base, high) != (b, h)
    }

    /** What the containment rules allow between a stored range and a new one. */
    predicate Compatible(b: Address, h: Address) {
      Disjoint(b, h) || ProperlyInside(b, h) || ProperlyAround(b, h)
    }
  }

  /** The geometry of a store request is usable: positive size, last byte addressable. */
  predicate Fits(base: Address, size: Address) {
    0 < size && base + size <= LIMIT
  }

  /** The source computes `high` with wrap-around and then tests it; this is what the test decides. */
  lemma OverflowTest(base: Address, size: Address)
    ensures (size <= 0 || Wrap(base + size - 1) < base) <==> !Fits(base, size)
    ensures Fits(base, size) ==> Wrap(base + size - 1) == base + size - 1
  {
    if size > 0 && base + size > LIMIT {
      assert Wrap(base + size - 1) == base + size - 1 - LIMIT;
    }
  }
}
