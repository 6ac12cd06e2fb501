/**
  Streaming MD5. The reference is the one-shot definition of sections 3.1 to 3.5 of RFC 1321; the
  context object with its partial block and two-word bit counter is proved against it.
 */
module Md5 {
  import opened Registers

  type Chaining = (Word, Word, Word, Word)

  const DOUBLE: nat := 0x1_0000_0000_0000_0000

  // ----- The reference: RFC 1321 -----

  /** Section 3.4, the four auxiliary functions. */
  function F(x: Word, y: Word, z: Word): Word {
    Word(Select(x.bits, y.bits, z.bits))
  }

  /** The bits of `y` where `x` is set, those of `z` elsewhere. */
  function Select(x: bv32, y: bv32, z: bv32): bv32 {
    (x & y) | (!x & z)
  }

  function G(x: Word, y: Word, z: Word): Word {
    Word(SelectLast(x.bits, y.bits, z.bits))
  }

  /** The bits of `x` where `z` is set, those of `y` elsewhere. */
  function SelectLast(x: bv32, y: bv32, z: bv32): bv32 {
    (x & z) | (y & !z)
  }

  function H(x: Word, y: Word, z: Word): Word {
    Word(x.bits ^ y.bits ^ z.bits)
  }

  function I(x: Word, y: Word, z: Word): Word {
    Word(y.bits ^ (x.bits | !z.bits))
  }

  function Auxiliary(i: nat, x: Word, y: Word, z: Word): Word
    requires i < 64
  {
    if i < 16 then F(x, y, z) else if i < 32 then G(x, y, z) else if i < 48 then H(x, y, z) else I(x, y, z)
  }

  /** Which word of the block operation `i` uses. */
  function Index(i: nat): (k: nat)
    requires i < 64
    ensures k < 16
  {
    if i < 16 then i else if i < 32 then (5 * i + 1) % 16 else if i < 48 then (3 * i + 5) % 16 else (7 * i) % 16
  }

  function Shift(i: nat): (s: bv6)
    requires i < 64
    ensures 0 < s < 32
  {
    var column := i % 4;
    if i < 16 then (if column == 0 then 7 else if column == 1 then 12 else if column == 2 then 17 else 22)
    else if i < 32 then (if column == 0 then 5 else if column == 1 then 9 else if column == 2 then 14 else 20)
    else if i < 48 then (if column == 0 then 4 else if column == 1 then 11 else if column == 2 then 16 else 23)
    else (if column == 0 then 6 else if column == 1 then 10 else if column == 2 then 15 else 21)
  }

  /** The table T of section 3.4, counted from zero, sixteen entries a round. */
  function Sine(i: nat): Word
    requires i < 64
  {
    if i < 16 then SineOne(i) else if i < 32 then SineTwo(i - 16) else if i < 48 then SineThree(i - 32)
      else SineFour(i - 48)
  }

  function SineOne(i: nat): Word
    requires i < 16
  {
    match i
    case 0 => Word(0xd76aa478) case 1 => Word(0xe8c7b756) case 2 => Word(0x242070db) case 3 => Word(0xc1bdceee)
    case 4 => Word(0xf57c0faf) case 5 => Word(0x4787c62a) case 6 => Word(0xa8304613) case 7 => Word(0xfd469501)
    case 8 => Word(0x698098d8) case 9 => Word(0x8b44f7af) case 10 => Word(0xffff5bb1) case 11 => Word(0x895cd7be)
    case 12 => Word(0x6b901122) case 13 => Word(0xfd987193) case 14 => Word(0xa679438e) case _ => Word(0x49b40821)
  }

  function SineTwo(i: nat): Word
    requires i < 16
  {
    match i
    case 0 => Word(0xf61e2562) case 1 => Word(0xc040b340) case 2 => Word(0x265e5a51) case 3 => Word(0xe9b6c7aa)
    case 4 => Word(0xd62f105d) case 5 => Word(0x02441453) case 6 => Word(0xd8a1e681) case 7 => Word(0xe7d3fbc8)
    case 8 => Word(0x21e1cde6) case 9 => Word(0xc33707d6) case 10 => Word(0xf4d50d87) case 11 => Word(0x455a14ed)
    case 12 => Word(0xa9e3e905) case 13 => Word(0xfcefa3f8) case 14 => Word(0x676f02d9) case _ => Word(0x8d2a4c8a)
  }

  function SineThree(i: nat): Word
    requires i < 16
  {
    match i
    case 0 => Word(0xfffa3942) case 1 => Word(0x8771f681) case 2 => Word(0x6d9d6122) case 3 => Word(0xfde5380c)
    case 4 => Word(0xa4beea44) case 5 => Word(0x4bdecfa9) case 6 => Word(0xf6bb4b60) case 7 => Word(0xbebfbc70)
    case 8 => Word(0x289b7ec6) case 9 => Word(0xeaa127fa) case 10 => Word(0xd4ef3085) case 11 => Word(0x04881d05)
    case 12 => Word(0xd9d4d039) case 13 => Word(0xe6db99e5) case 14 => Word(0x1fa27cf8) case _ => Word(0xc4ac5665)
  }

  function SineFour(i: nat): Word
    requires i < 16
  {
    match i
    case 0 => Word(0xf4292244) case 1 => Word(0x432aff97) case 2 => Word(0xab9423a7) case 3 => Word(0xfc93a039)
    case 4 => Word(0x655b59c3) case 5 => Word(0x8f0ccc92) case 6 => Word(0xffeff47d) case 7 => Word(0x85845dd1)
    case 8 => Word(0x6fa87e4f) case 9 => Word(0xfe2ce6e0) case 10 => Word(0xa3014314) case 11 => Word(0x4e0811a1)
    case 12 => Word(0xf7537e82) case 13 => Word(0xbd3af235) case 14 => Word(0x2ad7d2bb) case _ => Word(0xeb86d391)
  }

  /**
    One operation, a = b + ((a + f(b, c, d) + X[k] + T[i]) <<< s) in the notation of the RFC, with the
    registers rotated for the next one. The RFC leaves the grouping of the sum open.
   */
  function Operation(q: Chaining, x: seq<Word>, i: nat): Chaining
    requires |x| == 16 && i < 64
  {
    var (a, b, c, d) := q;
    var sum := Plus(a, Plus(Auxiliary(i, b, c, d), Plus(x[Index(i)], Sine(i))));
    (d, Plus(b, RotateLeft(sum, Shift(i))), b, c)
  }

  /** The first `n` operations on a block. */
  function Rounds(q: Chaining, x: seq<Word>, n: nat): Chaining
    requires |x| == 16 && n <= 64
  {
    if n == 0 then q else Operation(Rounds(q, x, n - 1), x, n - 1)
  }

  /** Section 3.4 for one block. */
  function Compress(q: Chaining, x: seq<Word>): Chaining
    requires |x| == 16
  {
    var r := Rounds(q, x, 64);
    (Plus(q.0, r.0), Plus(q.1, r.1), Plus(q.2, r.2), Plus(q.3, r.3))
  }

  function WordAt(block: seq<Byte>, i: nat): Word
    requires 4 * i + 4 <= |block|
  {
    Joined(block[4 * i], block[4 * i + 1], block[4 * i + 2], block[4 * i + 3])
  }

  /** The bytes of the block at word `i` are the bytes of that word, as in the output. */
  lemma WordAtReads(block: seq<Byte>, i: nat)
    requires 4 * i + 4 <= |block|
    ensures Bytes(WordAt(block, i)) == block[4 * i..4 * i + 4]
  {
    hide Joined, Bytes;
    JoinedBytes(block[4 * i], block[4 * i + 1], block[4 * i + 2], block[4 * i + 3]);
  }

  lemma JoinedBytes(a: Byte, b: Byte, c: Byte, d: Byte)
    ensures Bytes(Joined(a, b, c, d)) == [a, b, c, d]
  {
    hide Joined, Number, LittleEndian;
    JoinedIs(a, b, c, d);
    var c', d': nat := c, d;
    OneByte(a, b as nat + 0x100 * (c' + 0x100 * d'), 3);
    OneByte(b, c' + 0x100 * d', 2);
    OneByte(c, d', 1);
    OneByte(d, 0, 0);
    assert LittleEndian(0, 0) == [] by { NoBytes(0); }
  }

  lemma NoBytes(v: nat)
    ensures LittleEndian(v, 0) == []
  {
  }

  lemma OneByte(b: Byte, v: nat, n: nat)
    ensures LittleEndian(b + 0x100 * v, n + 1) == [b] + LittleEndian(v, n)
  {
  }

  function Words(block: seq<Byte>): (x: seq<Word>)
    requires |block| == 64
    ensures |x| == 16
  {
    seq(16, i requires 0 <= i < 16 => WordAt(block, i))
  }

  /** Section 3.3. */
  const INITIAL: Chaining := (Word(0x67452301), Word(0xefcdab89), Word(0x98badcfe), Word(0x10325476))

  /** The initial value as the RFC writes it: the bytes 01 23 45 67 89 ab cd ef fe dc ba 98 76 54 32 10. */
  lemma InitialCounts()
    ensures forall i | 0 <= i < 8 :: Output(INITIAL)[i] == 0x22 * i + 1 && Output(INITIAL)[15 - i] == 0x22 * i + 0x10
  {
    var q := INITIAL;
    assert q.0 == Joined(0x01, 0x23, 0x45, 0x67) && q.1 == Joined(0x89, 0xab, 0xcd, 0xef);
    assert q.2 == Joined(0xfe, 0xdc, 0xba, 0x98) && q.3 == Joined(0x76, 0x54, 0x32, 0x10);
    hide Joined, Bytes;
    JoinedBytes(0x01, 0x23, 0x45, 0x67);
    JoinedBytes(0x89, 0xab, 0xcd, 0xef);
    JoinedBytes(0xfe, 0xdc, 0xba, 0x98);
    JoinedBytes(0x76, 0x54, 0x32, 0x10);
  }

  /** The chaining value after all the blocks of `data`. */
  function Absorb(data: seq<Byte>): Chaining
    requires |data| % 64 == 0
  {
    if data == [] then INITIAL
    else
      var n := |data| - 64;
      Compress(Absorb(data[..n]), Words(data[n..]))
  }

  function LittleEndian(v: nat, n: nat): (s: seq<Byte>)
    ensures |s| == n
  {
    if n == 0 then [] else [v % 0x100] + LittleEndian(v / 0x100, n - 1)
  }

  function Zeros(n: nat): (s: seq<Byte>)
    ensures |s| == n
  {
    seq(n, _ => 0)
  }

  /** Zero bytes needed to reach 56 modulo 64 after the byte 0x80. */
  function ZerosNeeded(n: nat): (z: nat)
    ensures (n + 1 + z + 8) % 64 == 0
  {
    var z := (55 - n) % 64;
    var k := (55 - n) / 64;
    assert n + 1 + z + 8 == 64 * (1 - k);
    z
  }

  /** The length in bits modulo 2^64, low-order byte first. */
  function LengthBytes(n: nat): (s: seq<Byte>)
    ensures |s| == 8
  {
    LittleEndian(8 * n % DOUBLE, 8)
  }

  /** Sections 3.1 and 3.2: a 1 bit, 0 bits up to 448 modulo 512, then the length. */
  function Pad(message: seq<Byte>): (p: seq<Byte>)
    ensures |p| % 64 == 0 && message <= p
  {
    message + [0x80] + Zeros(ZerosNeeded(|message|)) + LengthBytes(|message|)
  }

  function Bytes(w: Word): (s: seq<Byte>)
    ensures |s| == 4
  {
    LittleEndian(Number(w), 4)
  }

  /** Section 3.5. */
  function Output(q: Chaining): (digest: seq<Byte>)
    ensures |digest| == 16
  {
    Bytes(q.0) + Bytes(q.1) + Bytes(q.2) + Bytes(q.3)
  }

  /** The digest of a message in one piece. */
  function Digest(message: seq<Byte>): (digest: seq<Byte>)
    ensures |digest| == 16
  {
    Output(Absorb(Pad(message)))
  }

  // ----- The code's transform -----

  function F1(x: Word, y: Word, z: Word): Word {
    Word(XorSelect(x.bits, y.bits, z.bits))
  }

  function XorSelect(x: bv32, y: bv32, z: bv32): bv32 {
    z ^ (x & (y ^ z))
  }

  function F2(x: Word, y: Word, z: Word): Word {
    F1(z, x, y)
  }

  function F3(x: Word, y: Word, z: Word): Word {
    Word(x.bits ^ y.bits ^ z.bits)
  }

  function F4(x: Word, y: Word, z: Word): Word {
    Word(y.bits ^ (x.bits | !z.bits))
  }

  /** The optimised functions are the ones of the RFC. */
  lemma OptimisedFunctions(x: Word, y: Word, z: Word)
    ensures F1(x, y, z) == F(x, y, z)
    ensures F2(x, y, z) == G(x, y, z)
    ensures F3(x, y, z) == H(x, y, z)
    ensures F4(x, y, z) == I(x, y, z)
  {
    OptimisedF(x, y, z);
    OptimisedF(z, x, y);
    SwappedF(x, y, z);
    hide F1, F, G;
  }

  lemma OptimisedF(x: Word, y: Word, z: Word)
    ensures F1(x, y, z) == F(x, y, z)
  {
    hide XorSelect, Select;
    SelectByXor(x.bits, y.bits, z.bits);
  }

  lemma SwappedF(x: Word, y: Word, z: Word)
    ensures F(z, x, y) == G(x, y, z)
  {
    hide Select, SelectLast;
    SelectOrder(x.bits, y.bits, z.bits);
  }

  lemma SelectByXor(x: bv32, y: bv32, z: bv32)
    ensures XorSelect(x, y, z) == Select(x, y, z)
  {
    XorIdentity(x, y, z);
  }

  lemma XorIdentity(x: bv32, y: bv32, z: bv32)
    ensures z ^ (x & (y ^ z)) == (x & y) | (!x & z)
  {
  }

  lemma SelectOrder(x: bv32, y: bv32, z: bv32)
    ensures Select(z, x, y) == SelectLast(x, y, z)
  {
  }

  /** `MD5STEP`: the new value of `w`. */
  function Md5Step(f: Word, w: Word, x: Word, data: Word, s: bv6): Word
    requires 0 < s < 32
  {
    Plus(RotateLeft(Plus(w, Plus(f, data)), s), x)
  }

  function CodeFunction(i: nat, x: Word, y: Word, z: Word): Word
    requires i < 64
  {
    if i < 16 then F1(x, y, z) else if i < 32 then F2(x, y, z) else if i < 48 then F3(x, y, z) else F4(x, y, z)
  }

  lemma CodeFunctionIsAuxiliary(i: nat, x: Word, y: Word, z: Word)
    requires i < 64
    ensures CodeFunction(i, x, y, z) == Auxiliary(i, x, y, z)
  {
    OptimisedFunctions(x, y, z);
    hide F1, F2, F, G;
  }

  /** A code step computes the register the RFC's operation changes. */
  lemma StepAt(start: Chaining, x: seq<Word>, i: nat, q: Chaining)
    requires |x| == 16 && i < 64 && q == Rounds(start, x, i)
    ensures Rounds(start, x, i + 1) ==
            (q.3, Md5Step(CodeFunction(i, q.1, q.2, q.3), q.0, q.1, Plus(x[Index(i)], Sine(i)), Shift(i)), q.1, q.2)
  {
    hide Index, Sine, Shift, Auxiliary, CodeFunction, RotateLeft, Plus;
    CodeFunctionIsAuxiliary(i, q.1, q.2, q.3);
    var f := Auxiliary(i, q.1, q.2, q.3);
    var sum := Plus(q.0, Plus(f, Plus(x[Index(i)], Sine(i))));
    PlusSwap(q.1, RotateLeft(sum, Shift(i)));
  }

  method RoundOne(start: Chaining, x: seq<Word>, q: Chaining) returns (r: Chaining)
    requires |x| == 16 && q == Rounds(start, x, 0)
    ensures r == Rounds(start, x, 16)
  {
    hide Md5Step, Plus, F1, F2, F3, F4, Rounds, RotateLeft, Register, Number, Joined, Auxiliary, Operation;
    var (a, b, c, d) := q;
    StepAt(start, x, 0, (a, b, c, d));
    a := Md5Step(F1(b, c, d), a, b, Plus(x[0], Word(0xd76aa478)), 7);
    StepAt(start, x, 1, (d, a, b, c));
    d := Md5Step(F1(a, b, c), d, a, Plus(x[1], Word(0xe8c7b756)), 12);
    StepAt(start, x, 2, (c, d, a, b));
    c := Md5Step(F1(d, a, b), c, d, Plus(x[2], Word(0x242070db)), 17);
    StepAt(start, x, 3, (b, c, d, a));
    b := Md5Step(F1(c, d, a), b, c, Plus(x[3], Word(0xc1bdceee)), 22);
    StepAt(start, x, 4, (a, b, c, d));
    a := Md5Step(F1(b, c, d), a, b, Plus(x[4], Word(0xf57c0faf)), 7);
    StepAt(start, x, 5, (d, a, b, c));
    d := Md5Step(F1(a, b, c), d, a, Plus(x[5], Word(0x4787c62a)), 12);
    StepAt(start, x, 6, (c, d, a, b));
    c := Md5Step(F1(d, a, b), c, d, Plus(x[6], Word(0xa8304613)), 17);
    StepAt(start, x, 7, (b, c, d, a));
    b := Md5Step(F1(c, d, a), b, c, Plus(x[7], Word(0xfd469501)), 22);
    StepAt(start, x, 8, (a, b, c, d));
    a := Md5Step(F1(b, c, d), a, b, Plus(x[8], Word(0x698098d8)), 7);
    StepAt(start, x, 9, (d, a, b, c));
    d := Md5Step(F1(a, b, c), d, a, Plus(x[9], Word(0x8b44f7af)), 12);
    StepAt(start, x, 10, (c, d, a, b));
    c := Md5Step(F1(d, a, b), c, d, Plus(x[10], Word(0xffff5bb1)), 17);
    StepAt(start, x, 11, (b, c, d, a));
    b := Md5Step(F1(c, d, a), b, c, Plus(x[11], Word(0x895cd7be)), 22);
    StepAt(start, x, 12, (a, b, c, d));
    a := Md5Step(F1(b, c, d), a, b, Plus(x[12], Word(0x6b901122)), 7);
    StepAt(start, x, 13, (d, a, b, c));
    d := Md5Step(F1(a, b, c), d, a, Plus(x[13], Word(0xfd987193)), 12);
    StepAt(start, x, 14, (c, d, a, b));
    c := Md5Step(F1(d, a, b), c, d, Plus(x[14], Word(0xa679438e)), 17);
    StepAt(start, x, 15, (b, c, d, a));
    b := Md5Step(F1(c, d, a), b, c, Plus(x[15], Word(0x49b40821)), 22);
    r := (a, b, c, d);
  }

  method RoundTwo(start: Chaining, x: seq<Word>, q: Chaining) returns (r: Chaining)
    requires |x| == 16 && q == Rounds(start, x, 16)
    ensures r == Rounds(start, x, 32)
  {
    hide Md5Step, Plus, F1, F2, F3, F4, Rounds, RotateLeft, Register, Number, Joined, Auxiliary, Operation;
    var (a, b, c, d) := q;
    StepAt(start, x, 16, (a, b, c, d));
    a := Md5Step(F2(b, c, d), a, b, Plus(x[1], Word(0xf61e2562)), 5);
    StepAt(start, x, 17, (d, a, b, c));
    d := Md5Step(F2(a, b, c), d, a, Plus(x[6], Word(0xc040b340)), 9);
    StepAt(start, x, 18, (c, d, a, b));
    c := Md5Step(F2(d, a, b), c, d, Plus(x[11], Word(0x265e5a51)), 14);
    StepAt(start, x, 19, (b, c, d, a));
    b := Md5Step(F2(c, d, a), b, c, Plus(x[0], Word(0xe9b6c7aa)), 20);
    StepAt(start, x, 20, (a, b, c, d));
    a := Md5Step(F2(b, c, d), a, b, Plus(x[5], Word(0xd62f105d)), 5);
    StepAt(start, x, 21, (d, a, b, c));
    d := Md5Step(F2(a, b, c), d, a, Plus(x[10], Word(0x02441453)), 9);
    StepAt(start, x, 22, (c, d, a, b));
    c := Md5Step(F2(d, a, b), c, d, Plus(x[15], Word(0xd8a1e681)), 14);
    StepAt(start, x, 23, (b, c, d, a));
    b := Md5Step(F2(c, d, a), b, c, Plus(x[4], Word(0xe7d3fbc8)), 20);
    StepAt(start, x, 24, (a, b, c, d));
    a := Md5Step(F2(b, c, d), a, b, Plus(x[9], Word(0x21e1cde6)), 5);
    StepAt(start, x, 25, (d, a, b, c));
    d := Md5Step(F2(a, b, c), d, a, Plus(x[14], Word(0xc33707d6)), 9);
    StepAt(start, x, 26, (c, d, a, b));
    c := Md5Step(F2(d, a, b), c, d, Plus(x[3], Word(0xf4d50d87)), 14);
    StepAt(start, x, 27, (b, c, d, a));
    b := Md5Step(F2(c, d, a), b, c, Plus(x[8], Word(0x455a14ed)), 20);
    StepAt(start, x, 28, (a, b, c, d));
    a := Md5Step(F2(b, c, d), a, b, Plus(x[13], Word(0xa9e3e905)), 5);
    StepAt(start, x, 29, (d, a, b, c));
    d := Md5Step(F2(a, b, c), d, a, Plus(x[2], Word(0xfcefa3f8)), 9);
    StepAt(start, x, 30, (c, d, a, b));
    c := Md5Step(F2(d, a, b), c, d, Plus(x[7], Word(0x676f02d9)), 14);
    StepAt(start, x, 31, (b, c, d, a));
    b := Md5Step(F2(c, d, a), b, c, Plus(x[12], Word(0x8d2a4c8a)), 20);
    r := (a, b, c, d);
  }

  method RoundThree(start: Chaining, x: seq<Word>, q: Chaining) returns (r: Chaining)
    requires |x| == 16 && q == Rounds(start, x, 32)
    ensures r == Rounds(start, x, 48)
  {
    hide Md5Step, Plus, F1, F2, F3, F4, Rounds, RotateLeft, Register, Number, Joined, Auxiliary, Operation;
    var (a, b, c, d) := q;
    StepAt(start, x, 32, (a, b, c, d));
    a := Md5Step(F3(b, c, d), a, b, Plus(x[5], Word(0xfffa3942)), 4);
    StepAt(start, x, 33, (d, a, b, c));
    d := Md5Step(F3(a, b, c), d, a, Plus(x[8], Word(0x8771f681)), 11);
    StepAt(start, x, 34, (c, d, a, b));
    c := Md5Step(F3(d, a, b), c, d, Plus(x[11], Word(0x6d9d6122)), 16);
    StepAt(start, x, 35, (b, c, d, a));
    b := Md5Step(F3(c, d, a), b, c, Plus(x[14], Word(0xfde5380c)), 23);
    StepAt(start, x, 36, (a, b, c, d));
    a := Md5Step(F3(b, c, d), a, b, Plus(x[1], Word(0xa4beea44)), 4);
    StepAt(start, x, 37, (d, a, b, c));
    d := Md5Step(F3(a, b, c), d, a, Plus(x[4], Word(0x4bdecfa9)), 11);
    StepAt(start, x, 38, (c, d, a, b));
    c := Md5Step(F3(d, a, b), c, d, Plus(x[7], Word(0xf6bb4b60)), 16);
    StepAt(start, x, 39, (b, c, d, a));
    b := Md5Step(F3(c, d, a), b, c, Plus(x[10], Word(0xbebfbc70)), 23);
    StepAt(start, x, 40, (a, b, c, d));
    a := Md5Step(F3(b, c, d), a, b, Plus(x[13], Word(0x289b7ec6)), 4);
    StepAt(start, x, 41, (d, a, b, c));
    d := Md5Step(F3(a, b, c), d, a, Plus(x[0], Word(0xeaa127fa)), 11);
    StepAt(start, x, 42, (c, d, a, b));
    c := Md5Step(F3(d, a, b), c, d, Plus(x[3], Word(0xd4ef3085)), 16);
    StepAt(start, x, 43, (b, c, d, a));
    b := Md5Step(F3(c, d, a), b, c, Plus(x[6], Word(0x04881d05)), 23);
    StepAt(start, x, 44, (a, b, c, d));
    a := Md5Step(F3(b, c, d), a, b, Plus(x[9], Word(0xd9d4d039)), 4);
    StepAt(start, x, 45, (d, a, b, c));
    d := Md5Step(F3(a, b, c), d, a, Plus(x[12], Word(0xe6db99e5)), 11);
    StepAt(start, x, 46, (c, d, a, b));
    c := Md5Step(F3(d, a, b), c, d, Plus(x[15], Word(0x1fa27cf8)), 16);
    StepAt(start, x, 47, (b, c, d, a));
    b := Md5Step(F3(c, d, a), b, c, Plus(x[2], Word(0xc4ac5665)), 23);
    r := (a, b, c, d);
  }

  method RoundFour(start: Chaining, x: seq<Word>, q: Chaining) returns (r: Chaining)
    requires |x| == 16 && q == Rounds(start, x, 48)
    ensures r == Rounds(start, x, 64)
  {
    hide Md5Step, Plus, F1, F2, F3, F4, Rounds, RotateLeft, Register, Number, Joined, Auxiliary, Operation;
    var (a, b, c, d) := q;
    StepAt(start, x, 48, (a, b, c, d));
    a := Md5Step(F4(b, c, d), a, b, Plus(x[0], Word(0xf4292244)), 6);
    StepAt(start, x, 49, (d, a, b, c));
    d := Md5Step(F4(a, b, c), d, a, Plus(x[7], Word(0x432aff97)), 10);
    StepAt(start, x, 50, (c, d, a, b));
    c := Md5Step(F4(d, a, b), c, d, Plus(x[14], Word(0xab9423a7)), 15);
    StepAt(start, x, 51, (b, c, d, a));
    b := Md5Step(F4(c, d, a), b, c, Plus(x[5], Word(0xfc93a039)), 21);
    StepAt(start, x, 52, (a, b, c, d));
    a := Md5Step(F4(b, c, d), a, b, Plus(x[12], Word(0x655b59c3)), 6);
    StepAt(start, x, 53, (d, a, b, c));
    d := Md5Step(F4(a, b, c), d, a, Plus(x[3], Word(0x8f0ccc92)), 10);
    StepAt(start, x, 54, (c, d, a, b));
    c := Md5Step(F4(d, a, b), c, d, Plus(x[10], Word(0xffeff47d)), 15);
    StepAt(start, x, 55, (b, c, d, a));
    b := Md5Step(F4(c, d, a), b, c, Plus(x[1], Word(0x85845dd1)), 21);
    StepAt(start, x, 56, (a, b, c, d));
    a := Md5Step(F4(b, c, d), a, b, Plus(x[8], Word(0x6fa87e4f)), 6);
    StepAt(start, x, 57, (d, a, b, c));
    d := Md5Step(F4(a, b, c), d, a, Plus(x[15], Word(0xfe2ce6e0)), 10);
    StepAt(start, x, 58, (c, d, a, b));
    c := Md5Step(F4(d, a, b), c, d, Plus(x[6], Word(0xa3014314)), 15);
    StepAt(start, x, 59, (b, c, d, a));
    b := Md5Step(F4(c, d, a), b, c, Plus(x[13], Word(0x4e0811a1)), 21);
    StepAt(start, x, 60, (a, b, c, d));
    a := Md5Step(F4(b, c, d), a, b, Plus(x[4], Word(0xf7537e82)), 6);
    StepAt(start, x, 61, (d, a, b, c));
    d := Md5Step(F4(a, b, c), d, a, Plus(x[11], Word(0xbd3af235)), 10);
    StepAt(start, x, 62, (c, d, a, b));
    c := Md5Step(F4(d, a, b), c, d, Plus(x[2], Word(0x2ad7d2bb)), 15);
    StepAt(start, x, 63, (b, c, d, a));
    b := Md5Step(F4(c, d, a), b, c, Plus(x[9], Word(0xeb86d391)), 21);
    r := (a, b, c, d);
  }

  // ----- The context -----

  /** How many bytes of `fed` do not fill a block yet. */
  function Odd(fed: seq<Byte>): (n: nat)
    ensures n < 64 && n <= |fed|
  {
    |fed| % 64
  }

  /** The part of `fed` that fills blocks. */
  function Full(fed: seq<Byte>): (f: seq<Byte>)
    ensures |f| % 64 == 0
  {
    fed[..|fed| - Odd(fed)]
  }

  /** The two-word bit counter after one more call: add with carry, both words modulo 2^32. */
  function Counted(bits: (nat, nat), len: nat): (nat, nat)
    requires len < WORD
  {
    var low := (bits.0 + 8 * len % WORD) % WORD;
    var high := if low < bits.0 then (bits.1 + 1) % WORD else bits.1;
    (low, (high + len / 0x2000_0000) % WORD)
  }

  predicate Counts(bits: (nat, nat), n: nat) {
    bits.0 < WORD && bits.1 < WORD && bits.0 + WORD * bits.1 == 8 * n % DOUBLE
  }

  /** The carry test makes the two words a 64-bit counter of bits. */
  lemma CounterIsExact(bits: (nat, nat), n: nat, len: nat)
    requires Counts(bits, n) && len < WORD
    ensures Counts(Counted(bits, len), n + len)
  {
    var r := Counted(bits, len);
    var high := CarryIsExact(bits, len);
    var q := 8 * n / DOUBLE;
    var wraps := high / WORD;
    assert r.0 + WORD * r.1 == bits.0 + WORD * bits.1 + 8 * len - DOUBLE * wraps;
    assert 8 * (n + len) == DOUBLE * (q + wraps) + (r.0 + WORD * r.1);
    Remainder(8 * (n + len), q + wraps, r.0 + WORD * r.1);
  }

  /** Before the high word wraps around, the sum is exact. */
  lemma CarryIsExact(bits: (nat, nat), len: nat) returns (high: nat)
    requires bits.0 < WORD && bits.1 < WORD && len < WORD
    ensures var r := Counted(bits, len);
            r.0 < WORD && r.1 == high % WORD && r.0 + WORD * high == bits.0 + WORD * bits.1 + 8 * len
  {
    var lift := len / 0x2000_0000;
    assert 8 * len % WORD == 8 * len - WORD * lift;
    var carry := if bits.0 + 8 * len % WORD >= WORD then 1 else 0;
    high := bits.1 + carry + lift;
  }

  lemma Remainder(v: nat, q: int, r: nat)
    requires v == DOUBLE * q + r && r < DOUBLE
    ensures v % DOUBLE == r
  {
  }

  /** The counter gives the number of bytes waiting in the partial block. */
  lemma CounterGivesOdd(bits: (nat, nat), n: nat)
    requires Counts(bits, n)
    ensures bits.0 / 8 % 64 == n % 64
  {
    var q := 8 * n / DOUBLE;
    var m := n - 0x2000_0000 * bits.1 - 0x2000_0000_0000_0000 * q;
    assert bits.0 == 8 * m;
    SameOdd(n, m, 0x80_0000 * bits.1 + 0x80_0000_0000_0000 * q);
  }

  lemma SameOdd(n: nat, m: nat, k: int)
    requires n == m + 64 * k
    ensures 8 * m / 8 == m && m % 64 == n % 64
  {
  }

  lemma AbsorbBlock(f: seq<Byte>, block: seq<Byte>)
    requires |f| % 64 == 0 && |block| == 64
    ensures Absorb(f + block) == Compress(Absorb(f), Words(block))
  {
    var d := f + block;
    assert d[..|d| - 64] == f && d[|d| - 64..] == block;
  }

  function Power256(n: nat): (p: nat)
    ensures p > 0
  {
    if n == 0 then 1 else 0x100 * Power256(n - 1)
  }

  /** Bytes of a number put together from a low part of `n` bytes and a high part. */
  lemma {:induction false} LittleEndianSplit(low: nat, high: nat, n: nat, m: nat)
    requires low < Power256(n)
    ensures LittleEndian(low + Power256(n) * high, n + m) == LittleEndian(low, n) + LittleEndian(high, m)
  {
    if n > 0 {
      var k := Power256(n - 1) * high;
      PowerTimes(n, high);
      LowByte(low, k);
      LittleEndianSplit(low / 0x100, high, n - 1, m);
    }
  }

  lemma PowerTimes(n: nat, high: nat)
    requires n > 0
    ensures Power256(n) * high == 0x100 * (Power256(n - 1) * high)
  {
  }

  lemma LowByte(low: nat, k: nat)
    ensures (low + 0x100 * k) % 0x100 == low % 0x100
    ensures (low + 0x100 * k) / 0x100 == low / 0x100 + k
  {
  }

  /** Eight bytes of the counter are the four of the low word and the four of the high word. */
  lemma CounterBytes(low: nat, high: nat)
    requires low < WORD
    ensures LittleEndian(low + WORD * high, 8) == LittleEndian(low, 4) + LittleEndian(high, 4)
  {
    assert Power256(4) == WORD;
    LittleEndianSplit(low, high, 4, 4);
  }

  class Context {
    var buf: Chaining
    var bits: (nat, nat)
    const block: array<Byte>
    // everything fed so far
    ghost var fed: seq<Byte>

    ghost predicate Valid()
      reads this, block
    {
      block.Length == 64 && Counts(bits, |fed|) && Holds(fed)
    }

    /** The chaining value covers the full blocks of `f`, and the partial block holds the rest. */
    ghost predicate Holds(f: seq<Byte>)
      requires block.Length == 64
      reads this`buf, block
    {
      buf == Absorb(Full(f)) && block[..Odd(f)] == f[|f| - Odd(f)..]
    }

    /** `MD5Init`. */
    constructor ()
      ensures Valid() && fresh(block) && fed == []
    {
      buf, bits, fed := INITIAL, (0, 0), [];
      block := new Byte[64](_ => 0);
    }

    /** `MD5Transform` on the context's own block, all sixty-four steps. */
    method Transform()
      requires block.Length == 64
      modifies this`buf
      ensures buf == Compress(old(buf), Words(block[..]))
    {
      hide Rounds, Words;
      var x := Words(block[..]);
      assert Rounds(buf, x, 0) == buf by {
        RoundsZero(buf, x);
      }
      var q := RoundOne(buf, x, buf);
      q := RoundTwo(buf, x, q);
      q := RoundThree(buf, x, q);
      q := RoundFour(buf, x, q);
      buf := (Plus(buf.0, q.0), Plus(buf.1, q.1), Plus(buf.2, q.2), Plus(buf.3, q.3));
    }

    /** `memcpy` of `n` bytes of the input into the block. */
    method CopyIn(at: nat, data: seq<Byte>, from: nat, n: nat)
      requires block.Length == 64 && at + n <= 64 && from + n <= |data|
      modifies block
      ensures block[..] == old(block[..])[..at] + data[from..from + n] + old(block[..])[at + n..]
    {
      for i := 0 to n
        invariant forall k | 0 <= k < 64 :: block[k] == if at <= k < at + i then data[from + k - at] else old(block[k])
      {
        block[at + i] := data[from + i];
      }
    }

    method MD5Update(data: seq<Byte>)
      requires Valid() && |data| < WORD
      modifies this, block
      ensures Valid() && fed == old(fed) + data
    {
      hide Absorb, Counts;
      var t := bits.0;
      CounterGivesOdd(bits, |fed|);
      Count(|data|);
      t := t / 8 % 64;
      if t != 0 && |data| < 64 - t {
        KeepAll(data, t);
      } else {
        var pos := 0;
        assert fed + data[..0] == fed;
        if t != 0 {
          TopUp(data, t);
          pos := 64 - t;
        }
        pos := FullBlocks(data, pos);
        KeepRest(data, pos);
      }
      fed := fed + data;
    }

    /** The input does not fill the partial block. */
    method KeepAll(data: seq<Byte>, t: nat)
      requires block.Length == 64 && Holds(fed) && t == Odd(fed) && |data| < 64 - t
      modifies block
      ensures Holds(fed + data)
    {
      hide Absorb;
      CopyIn(t, data, 0, |data|);
      Lingers(fed, data, block[..]);
    }

    /** What is left of the input starts a new partial block. */
    method KeepRest(data: seq<Byte>, pos: nat)
      requires block.Length == 64 && pos <= |data| < pos + 64 && |fed + data[..pos]| % 64 == 0
      requires buf == Absorb(fed + data[..pos])
      modifies block
      ensures Holds(fed + data)
    {
      hide Absorb;
      CopyIn(0, data, pos, |data| - pos);
      CutAt(fed, data, pos);
    }

    /** Fill the partial block from the input and transform it. */
    method TopUp(data: seq<Byte>, t: nat)
      requires block.Length == 64 && Holds(fed) && t == Odd(fed) && 0 < t && 64 - t <= |data|
      modifies this`buf, block
      ensures |fed + data[..64 - t]| % 64 == 0 && buf == Absorb(fed + data[..64 - t])
    {
      hide Absorb, Compress, Words;
      CopyIn(t, data, 0, 64 - t);
      assert block[..] == fed[|fed| - t..] + data[..64 - t];
      ghost var f := Full(fed);
      assert fed + data[..64 - t] == f + block[..];
      AbsorbCurrent(f);
    }

    /** Transform the block, known to follow `f`. */
    method AbsorbCurrent(ghost f: seq<Byte>)
      requires block.Length == 64 && |f| % 64 == 0 && |f + block[..]| % 64 == 0 && buf == Absorb(f)
      modifies this`buf
      ensures buf == Absorb(f + block[..])
    {
      hide Absorb, Compress, Words;
      AbsorbBlock(f, block[..]);
      Transform();
    }

    /** Transform the input block by block as long as a whole block is left. */
    method FullBlocks(data: seq<Byte>, from: nat) returns (pos: nat)
      requires block.Length == 64 && from <= |data| && |fed + data[..from]| % 64 == 0
      requires buf == Absorb(fed + data[..from])
      modifies this`buf, block
      ensures from <= pos <= |data| < pos + 64 && |fed + data[..pos]| % 64 == 0
      ensures buf == Absorb(fed + data[..pos])
    {
      hide Absorb;
      pos := from;
      while |data| - pos >= 64
        invariant from <= pos <= |data| && |fed + data[..pos]| % 64 == 0
        invariant buf == Absorb(fed + data[..pos])
      {
        CopyIn(0, data, pos, 64);
        ghost var f := fed + data[..pos];
        assert fed + data[..pos + 64] == f + block[..] by {
          assert block[..] == data[pos..pos + 64];
        }
        AbsorbCurrent(f);
        pos := pos + 64;
      }
    }

    /** Update the bit counter; the length in bits spills over into the high word. */
    method Count(len: nat)
      requires len < WORD && Counts(bits, |fed|)
      modifies this`bits
      ensures Counts(bits, |fed| + len)
    {
      var t := bits.0;
      var low := (t + 8 * len % WORD) % WORD;
      var high := bits.1;
      if low < t {
        high := (high + 1) % WORD;
      }
      high := (high + len / 0x2000_0000) % WORD;
      CounterIsExact(bits, |fed|, len);
      bits := (low, high);
    }

    /** `memset` of `n` bytes of the block to zero. */
    method Clear(at: nat, n: nat)
      requires block.Length == 64 && at + n <= 64
      modifies block
      ensures block[..] == old(block[..])[..at] + Zeros(n) + old(block[..])[at + n..]
    {
      for i := 0 to n
        invariant forall k | 0 <= k < 64 :: block[k] == if at <= k < at + i then 0 else old(block[k])
      {
        block[at + i] := 0;
      }
    }

    /**
      `pointer` is the size of a pointer in bytes. The wipe at the end clears that much of the context and no more: the
      rest of the digest, the counter and the last block of the padded message stay.
     */
    method MD5Final(pointer: nat) returns (digest: seq<Byte>)
      requires Valid() && pointer in {4, 8}
      modifies this`buf, block
      ensures digest == Digest(old(fed))
      ensures var q := Absorb(Pad(old(fed)));
        buf == (Word(0), if pointer == 8 then Word(0) else q.1, q.2, q.3)
      ensures Bytes(buf.2) + Bytes(buf.3) == digest[8..]
      ensures |Pad(old(fed))| >= 64 && block[..] == Pad(old(fed))[|Pad(old(fed))| - 64..]
    {
      hide Absorb, Compress, Words, Output, Counts, LittleEndian;
      CounterGivesOdd(bits, |fed|);
      var count := bits.0 / 8 % 64;
      ghost var blocks, last := PadOut(count);
      var counter := LittleEndian(bits.0, 4) + LittleEndian(bits.1, 4);
      CopyIn(56, counter, 0, 8);
      assert block[..] == last + counter;
      AbsorbCurrent(blocks);
      PadIs(fed, bits, blocks, last);
      digest := Output(buf);
      LastHalf(buf);
      buf := (Word(0), if pointer == 8 then Word(0) else buf.1, buf.2, buf.3);
    }

    /** The 1 bit and the 0 bits, up to 56 bytes of the last block, transforming a full one on the way. */
    method PadOut(count: nat) returns (ghost blocks: seq<Byte>, ghost last: seq<Byte>)
      requires block.Length == 64 && Holds(fed) && count == Odd(fed)
      modifies this`buf, block
      ensures (blocks, last) == Padding(fed)
      ensures buf == Absorb(blocks) && block[..56] == last
    {
      hide Absorb, Compress, Words;
      block[count] := 0x80;
      ghost var tail := fed[|fed| - count..] + [0x80];
      assert block[..count + 1] == tail;
      var room := 63 - count;
      if room < 8 {
        Clear(count + 1, room);
        assert block[..] == tail + Zeros(room);
        AbsorbCurrent(Full(fed));
        Clear(0, 56);
      } else {
        Clear(count + 1, room - 8);
      }
      blocks, last := Padding(fed).0, Padding(fed).1;
    }
  }

  lemma LastHalf(q: Chaining)
    ensures Output(q)[8..] == Bytes(q.2) + Bytes(q.3)
  {
    hide Bytes;
    assert Output(q) == (Bytes(q.0) + Bytes(q.1)) + (Bytes(q.2) + Bytes(q.3));
  }

  /** Whole blocks of the padded message, and the first 56 bytes of its last block. */
  function Padding(message: seq<Byte>): (r: (seq<Byte>, seq<Byte>))
    ensures |r.0| % 64 == 0 && |r.1| == 56
  {
    var count := Odd(message);
    var tail := message[|message| - count..] + [0x80];
    if 63 - count < 8 then (Full(message) + (tail + Zeros(63 - count)), Zeros(56))
    else (Full(message), tail + Zeros(55 - count))
  }

  /** The blocks the final call transforms are those of the padded message. */
  lemma PadIs(message: seq<Byte>, bits: (nat, nat), blocks: seq<Byte>, last: seq<Byte>)
    requires Counts(bits, |message|) && (blocks, last) == Padding(message)
    ensures Pad(message) == blocks + (last + (LittleEndian(bits.0, 4) + LittleEndian(bits.1, 4)))
  {
    hide LittleEndian, LengthBytes, Padding, Zeros, Counts, ZerosNeeded;
    var counter := LittleEndian(bits.0, 4) + LittleEndian(bits.1, 4);
    CounterTail(bits, |message|);
    PadJoins(message);
    assert (blocks + last) + counter == blocks + (last + counter);
  }

  lemma CounterTail(bits: (nat, nat), n: nat)
    requires Counts(bits, n)
    ensures LengthBytes(n) == LittleEndian(bits.0, 4) + LittleEndian(bits.1, 4)
  {
    CounterBytes(bits.0, bits.1);
  }

  lemma ZerosNeededIs(n: nat)
    ensures ZerosNeeded(n) == if n % 64 <= 55 then 55 - n % 64 else 119 - n % 64
  {
    var q := n / 64;
    assert 55 - n == (55 - n % 64) - 64 * q;
  }

  lemma PadJoins(message: seq<Byte>)
    ensures message + [0x80] + Zeros(ZerosNeeded(|message|)) == Padding(message).0 + Padding(message).1
  {
    ZerosNeededIs(|message|);
    hide ZerosNeeded;
    var count := Odd(message);
    assert message == Full(message) + message[|message| - count..];
    if count > 55 {
      assert Zeros(ZerosNeeded(|message|)) == Zeros(63 - count) + Zeros(56);
    }
  }

  function Flatten(chunks: seq<seq<Byte>>): seq<Byte> {
    if chunks == [] then [] else Flatten(chunks[..|chunks| - 1]) + chunks[|chunks| - 1]
  }

  /** However a message is cut into calls, the digest is that of the whole. */
  method HashChunks(chunks: seq<seq<Byte>>) returns (digest: seq<Byte>)
    requires forall c | c in chunks :: |c| < WORD
    ensures digest == Digest(Flatten(chunks))
  {
    var context := new Context();
    for i := 0 to |chunks|
      invariant context.Valid() && fresh(context) && fresh(context.block)
      invariant context.fed == Flatten(chunks[..i])
    {
      assert chunks[..i + 1][..i] == chunks[..i];
      context.MD5Update(chunks[i]);
    }
    assert chunks[..|chunks|] == chunks;
    digest := context.MD5Final(8);
  }

  /** Input too short to fill the partial block only lengthens it. */
  lemma Lingers(fed: seq<Byte>, data: seq<Byte>, b: seq<Byte>)
    requires |b| == 64 && Odd(fed) + |data| < 64
    requires b[..Odd(fed)] == fed[|fed| - Odd(fed)..] && b[Odd(fed)..Odd(fed) + |data|] == data
    ensures Odd(fed + data) == Odd(fed) + |data| && Full(fed + data) == Full(fed)
    ensures b[..Odd(fed + data)] == (fed + data)[|fed| - Odd(fed)..]
  {
    assert b[..Odd(fed) + |data|] == b[..Odd(fed)] + b[Odd(fed)..Odd(fed) + |data|];
  }

  /** After the last whole block, what is left of the input is the partial block. */
  lemma CutAt(fed: seq<Byte>, data: seq<Byte>, pos: nat)
    requires pos <= |data| < pos + 64 && |fed + data[..pos]| % 64 == 0
    ensures Odd(fed + data) == |data| - pos && Full(fed + data) == fed + data[..pos]
    ensures (fed + data)[|fed| + pos..] == data[pos..]
  {
  }

  lemma RoundsZero(q: Chaining, x: seq<Word>)
    requires |x| == 16
    ensures Rounds(q, x, 0) == q
  {
  }
}
