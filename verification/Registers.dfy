/** 32-bit registers: addition and rotation, and what they do to the number a register holds. */
module Registers {

  type Byte = b: nat | b < 256

  const WORD: nat := 0x1_0000_0000

  datatype Word = Word(bits: bv32)

  function Number(w: Word): (n: nat)
    ensures n < WORD
  {
    w.bits as nat
  }

  /** Four bytes, the low-order byte first. */
  function Joined(a: Byte, b: Byte, c: Byte, d: Byte): Word {
    Word(a as bv8 as bv32 | (b as bv8 as bv32 << 8) | (c as bv8 as bv32 << 16) | (d as bv8 as bv32 << 24))
  }

  lemma JoinedIs(a: Byte, b: Byte, c: Byte, d: Byte)
    ensures Number(Joined(a, b, c, d)) == a as nat + 0x100 * b as nat + 0x1_0000 * c as nat + 0x100_0000 * d as nat
  {
    ByteBack(a);
    ByteBack(b);
    ByteBack(c);
    ByteBack(d);
    BitsAre(a as bv8, b as bv8, c as bv8, d as bv8);
  }

  lemma ByteBack(n: nat)
    requires n < 0x100
    ensures (n as bv8) as nat == n
  {
    var b := SomeBits(n);
    BitsBack(b);
  }

  /** Counting up: every number below 256 is that of some bits. */
  lemma {:induction false} SomeBits(n: nat) returns (b: bv8)
    requires n < 0x100
    ensures b as nat == n
  {
    if n == 0 {
      b := 0;
    } else {
      b := SomeBits(n - 1);
      NextBits(b);
      b := b + 1;
    }
  }

  lemma NextBits(b: bv8)
    requires b as nat < 0xFF
    ensures (b + 1) as nat == b as nat + 1
  {
  }

  lemma BitsBack(b: bv8)
    ensures (b as nat) as bv8 == b
  {
  }

  lemma BitsAre(a: bv8, b: bv8, c: bv8, d: bv8)
    ensures (a as bv32 | (b as bv32 << 8) | (c as bv32 << 16) | (d as bv32 << 24)) as nat
         == a as nat + 0x100 * b as nat + 0x1_0000 * c as nat + 0x100_0000 * d as nat
  {
  }

  /** The register that holds a number. */
  function Register(n: nat): (w: Word)
    requires n < WORD
    ensures Number(w) == n
  {
    var a, b, c, d := n % 0x100, n / 0x100 % 0x100, n / 0x1_0000 % 0x100, n / 0x100_0000;
    FourDigits(n);
    JoinedIs(a, b, c, d);
    Joined(a, b, c, d)
  }

  lemma FourDigits(n: nat)
    requires n < WORD
    ensures n == n % 0x100 + 0x100 * (n / 0x100 % 0x100) + 0x1_0000 * (n / 0x1_0000 % 0x100)
      + 0x100_0000 * (n / 0x100_0000)
    ensures n / 0x100_0000 < 0x100
  {
  }

  /** Addition modulo 2^32. */
  function Plus(x: Word, y: Word): Word {
    Register((Number(x) + Number(y)) % WORD)
  }

  /** The sum, or what is left of it when it overflows. */
  lemma PlusIs(x: Word, y: Word)
    ensures var n := Number(Plus(x, y)); n == Number(x) + Number(y) || n + WORD == Number(x) + Number(y)
  {
    hide Number, Register;
  }

  lemma PlusSwap(x: Word, y: Word)
    ensures Plus(x, y) == Plus(y, x)
  {
    hide Number, Register;
  }

  function RotateLeft(w: Word, s: bv6): Word
    requires 0 < s < 32
  {
    Word((w.bits << s) | (w.bits >> (32 - s)))
  }

  function Power2(n: nat): (p: nat)
    ensures p > 0
  {
    if n == 0 then 1 else 2 * Power2(n - 1)
  }

  /** A number shifted, with what overflows added at the low end. */
  function Around(p: nat): nat {
    p % WORD + p / WORD
  }

  lemma RotateOnce(w: Word, s: bv6)
    requires s as nat == 1
    ensures Number(RotateLeft(w, s)) == Around(2 * Number(w))
  {
    assert s == 1;
    BitsOnce(w.bits);
  }

  lemma BitsOnce(x: bv32)
    ensures ((x << 1) | (x >> 31)) as nat == 2 * x as nat % WORD + 2 * x as nat / WORD
  {
  }

  lemma RotateMore(w: Word, s: bv6, before: bv6)
    requires 0 < before < s < 32 && before == s - 1
    ensures RotateLeft(w, s) == RotateLeft(RotateLeft(w, before), 1)
  {
  }

  /** Rotating by `s` multiplies by 2^s and adds what overflows. */
  lemma {:induction false} RotateLeftIs(w: Word, s: bv6, k: nat)
    requires 0 < s < 32 && s as nat == k
    ensures Number(RotateLeft(w, s)) == Around(Number(w) * Power2(k))
    decreases k
  {
    hide RotateLeft, Around, Power2, Number;
    PowerEnds();
    if k == 1 {
      RotateOnce(w, s);
    } else {
      var before := Before(s);
      RotateLeftIs(w, before, k - 1);
      RotateMore(w, s, before);
      RotateOnce(RotateLeft(w, before), 1);
      AroundMore(Number(w), k);
    }
  }

  lemma AroundMore(n: nat, k: nat)
    requires n < WORD && 1 < k < 32
    ensures Around(2 * Around(n * Power2(k - 1))) == Around(n * Power2(k))
  {
    hide Around, Power2;
    PowersMeet(k - 1);
    AroundTwice(n, Power2(k - 1), Power2(32 - k));
    TwicePower(n, k);
  }

  lemma Before(s: bv6) returns (before: bv6)
    requires s as nat > 1
    ensures before == s - 1 && before as nat == s as nat - 1 && 0 < before < s
  {
    before := s - 1;
  }

  lemma PowerEnds()
    ensures Power2(0) == 1 && Power2(1) == 2 && Power2(31) == 0x8000_0000
  {
    assert Power2(8) == 0x100;
    assert Power2(16) == 0x1_0000;
    assert Power2(24) == 0x100_0000;
  }

  lemma TwicePower(n: nat, s: nat)
    requires s > 0
    ensures n * Power2(s) == 2 * (n * Power2(s - 1))
  {
  }

  lemma {:induction false} PowersMeet(s: nat)
    requires s < 32
    ensures 2 * (Power2(s) * Power2(31 - s)) == WORD
  {
    hide Power2;
    PowerEnds();
    if s > 0 {
      PowersMeet(s - 1);
      TwicePower(Power2(31 - s), s);
      TwicePower(Power2(s - 1), 32 - s);
    }
  }

  /** Shifting once more what has been shifted around by `p`. */
  lemma AroundTwice(n: nat, p: nat, b: nat)
    requires n < WORD == 2 * (p * b) && b > 0
    ensures Around(2 * Around(n * p)) == Around(2 * (n * p))
  {
    hide Around;
    var q, c, rest := CutTwice(n, p, b);
    var low := c * (p * b) + rest * p;
    AroundIs(n * p, q, low);
    AroundIs(2 * (low + q), c, 2 * (rest * p) + 2 * q);
    AroundIs(2 * (n * p), 2 * q + c, 2 * (rest * p));
  }

  /** The bits of `n` that overflow when it is shifted, the one that overflows next, and the rest. */
  lemma CutTwice(n: nat, p: nat, b: nat) returns (q: nat, c: nat, rest: nat)
    requires n < WORD == 2 * (p * b) && b > 0
    ensures c < 2 && q < p && rest * p + p <= p * b
    ensures n * p == q * WORD + c * (p * b) + rest * p
  {
    var a := n % (2 * b);
    q := n / (2 * b);
    c := if a < b then 0 else 1;
    rest := a - c * b;
    assert p * (2 * b) == 2 * (p * b);
    QuotientBelow(n, p, 2 * b);
    Spread(n, q, a, p, 2 * b);
    Spread(a, c, rest, p, b);
    SmallProduct(rest, p, b);
  }

  lemma AroundIs(v: nat, q: nat, r: nat)
    requires v == q * WORD + r && r < WORD
    ensures Around(v) == q + r
  {
  }

  lemma QuotientBelow(n: nat, p: nat, d: nat)
    requires d > 0 && n < p * d
    ensures n / d < p
  {
    if p <= n / d {
      Times(p, n / d, d);
    }
  }

  lemma Times(a: nat, b: nat, d: nat)
    requires a <= b
    ensures a * d <= b * d
  {
  }

  lemma Spread(v: nat, q: nat, r: nat, p: nat, d: nat)
    requires v == q * d + r
    ensures v * p == q * (p * d) + r * p
  {
  }

  lemma SmallProduct(a: nat, p: nat, b: nat)
    requires a < b
    ensures a * p + p <= p * b
  {
    Times(a + 1, b, p);
  }
}
