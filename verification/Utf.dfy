/** Conversion of a stream of code units into a bounded buffer, one character at a time. */
module Conversion {

  datatype Result = ConversionOk | SourceExhausted | TargetExhausted | SourceIllegal

  /** What the next character of a source yields: a reason to stop, or units read and units to write. */
  datatype Next<+T> = Stop(reason: Result) | Emit(used: nat, out: seq<T>)

  datatype Outcome<+T> = Outcome(result: Result, used: nat, out: seq<T>)

  /** An outcome that comes after `used` units read and `out` written. */
  function After<T>(used: nat, out: seq<T>, o: Outcome<T>): Outcome<T> {
    Outcome(o.result, used + o.used, out + o.out)
  }

  lemma AfterAfter<T>(u: nat, a: seq<T>, v: nat, b: seq<T>, o: Outcome<T>)
    ensures After(u, a, After(v, b, o)) == After(u + v, a + b, o)
    ensures After(0, [], o) == o
  {
    assert a + (b + o.out) == (a + b) + o.out;
    assert [] + o.out == o.out;
  }

  /** Reading makes progress and stays inside the source; running out of target is not the reader's business. */
  ghost predicate Proper<S(!new), T>(next: seq<S> -> Next<T>) {
    forall s | s != [] ::
      match next(s)
      case Stop(r) => r == SourceExhausted || r == SourceIllegal
      case Emit(used, _) => 0 < used <= |s|
  }

  lemma ProperAt<S(!new), T>(next: seq<S> -> Next<T>, s: seq<S>)
    requires Proper(next) && s != []
    ensures next(s).Emit? ==> 0 < next(s).used <= |s|
    ensures next(s).Stop? ==> next(s).reason == SourceExhausted || next(s).reason == SourceIllegal
  {
  }

  /** The loop of a converter, with room for `cap` units in the target. */
  ghost function Convert<S(!new), T>(next: seq<S> -> Next<T>, src: seq<S>, cap: nat): (o: Outcome<T>)
    requires Proper(next)
    ensures o.used <= |src| && |o.out| <= cap
    decreases |src|
  {
    if src == [] then Outcome(ConversionOk, 0, [])
    else
      match next(src)
      case Stop(r) => Outcome(r, 0, [])
      case Emit(used, out) =>
        if |out| > cap then Outcome(TargetExhausted, 0, [])
        else
          After(used, out, Convert(next, src[used..], cap - |out|))
  }

  /** The same with unlimited room. */
  ghost function ConvertAll<S(!new), T>(next: seq<S> -> Next<T>, src: seq<S>): (o: Outcome<T>)
    requires Proper(next)
    ensures o.used <= |src| && o.result != TargetExhausted
    decreases |src|
  {
    if src == [] then Outcome(ConversionOk, 0, [])
    else
      match next(src)
      case Stop(r) => Outcome(r, 0, [])
      case Emit(used, out) =>
        After(used, out, ConvertAll(next, src[used..]))
  }

  lemma ConvertAllEmits<S(!new), T>(next: seq<S> -> Next<T>, src: seq<S>, n: nat, out: seq<T>)
    requires Proper(next) && src != [] && next(src) == Emit(n, out)
    ensures 0 < n <= |src| && ConvertAll(next, src) == After(n, out, ConvertAll(next, src[n..]))
  {
    ProperAt(next, src);
  }

  /** What is left to do after `o` joins up with what was done. */
  ghost predicate Resumes<S(!new), T>(next: seq<S> -> Next<T>, src: seq<S>, o: Outcome<T>)
    requires Proper(next) && o.used <= |src|
  {
    ConvertAll(next, src) == After(o.used, o.out, ConvertAll(next, src[o.used..]))
  }

  /**
    With any room, a converter stops on a character boundary having written exactly what it consumed:
    converting the rest afterwards gives the whole. It reports a full target, or the final result.
   */
  lemma {:induction false} StopsOnBoundary<S(!new), T>(next: seq<S> -> Next<T>, src: seq<S>, cap: nat)
    requires Proper(next)
    ensures Resumes(next, src, Convert(next, src, cap))
    ensures Convert(next, src, cap).result != TargetExhausted ==> Convert(next, src, cap) == ConvertAll(next, src)
    decreases |src|
  {
    hide Proper, Convert, ConvertAll;
    AfterAfter(0, [], 0, [], ConvertAll(next, src));
    assert src[0..] == src;
    OneTurn(next, src, cap);
    if src != [] && next(src).Emit? && |next(src).out| <= cap {
      var Emit(used, out) := next(src);
      var s' := src[used..];
      StopsOnBoundary(next, s', cap - |out|);
      var rest := Convert(next, s', cap - |out|);
      assert s'[rest.used..] == src[used + rest.used..];
      AfterAfter(used, out, rest.used, rest.out, ConvertAll(next, s'[rest.used..]));
    }
  }

  /** One turn of the loop, bounded and unbounded. */
  lemma OneTurn<S(!new), T>(next: seq<S> -> Next<T>, src: seq<S>, cap: nat)
    requires Proper(next)
    ensures src == [] ==> Convert(next, src, cap) == ConvertAll(next, src) == Outcome(ConversionOk, 0, [])
    ensures src != [] && next(src).Stop? ==>
              next(src).reason != TargetExhausted
              && Convert(next, src, cap) == ConvertAll(next, src) == Outcome(next(src).reason, 0, [])
    ensures src != [] && next(src).Emit? ==>
              && 0 < next(src).used <= |src|
              && ConvertAll(next, src) == After(next(src).used, next(src).out, ConvertAll(next, src[next(src).used..]))
              && Convert(next, src, cap) ==
                 if |next(src).out| > cap then Outcome(TargetExhausted, 0, [])
                 else After(next(src).used, next(src).out, Convert(next, src[next(src).used..], cap - |next(src).out|))
  {
    if src != [] {
      ProperAt(next, src);
    }
  }

  /** The target runs out exactly when the whole output does not fit. */
  lemma {:induction false} ExhaustedExactly<S(!new), T>(next: seq<S> -> Next<T>, src: seq<S>, cap: nat)
    requires Proper(next)
    ensures Convert(next, src, cap).result == TargetExhausted <==> cap < |ConvertAll(next, src).out|
    decreases |src|
  {
    hide Proper;
    if src != [] {
      ProperAt(next, src);
      if next(src).Emit? && |next(src).out| <= cap {
        ExhaustedExactly(next, src[next(src).used..], cap - |next(src).out|);
      }
    }
  }

  /** A buffer that holds any one character lets a converter make progress. */
  ghost predicate Holds<S(!new), T>(next: seq<S> -> Next<T>, cap: nat) {
    forall s | s != [] && next(s).Emit? :: |next(s).out| <= cap
  }

  /** Repeated calls, each with a fresh buffer, until one does not run out of room or the buffers do. */
  ghost function Pieces<S(!new), T>(next: seq<S> -> Next<T>, src: seq<S>, caps: seq<nat>): (o: Outcome<T>)
    requires Proper(next)
    ensures o.used <= |src|
    decreases |caps|
  {
    if caps == [] then Outcome(TargetExhausted, 0, [])
    else
      var o := Convert(next, src, caps[0]);
      if o.result != TargetExhausted then o
      else
        After(o.used, o.out, Pieces(next, src[o.used..], caps[1..]))
  }

  /**
    Stopping on a full target and resuming with fresh buffers that each hold a character gives the
    output and the final result of one call with enough room; one buffer a unit is always enough.
   */
  lemma {:induction false} PiecesEqualWhole<S(!new), T>(next: seq<S> -> Next<T>, src: seq<S>, caps: seq<nat>)
    requires Proper(next) && forall c | c in caps :: Holds(next, c)
    ensures Resumes(next, src, Pieces(next, src, caps))
    ensures Pieces(next, src, caps).result != TargetExhausted ==> Pieces(next, src, caps) == ConvertAll(next, src)
    ensures |src| < |caps| ==> Pieces(next, src, caps).result != TargetExhausted
    decreases |caps|
  {
    hide Proper, Convert, ConvertAll, Holds;
    if caps == [] {
      assert src[0..] == src;
      AfterAfter(0, [], 0, [], ConvertAll(next, src));
    } else {
      StopsOnBoundary(next, src, caps[0]);
      var o := Convert(next, src, caps[0]);
      if o.result == TargetExhausted {
        RoomMeansProgress(next, src, caps[0]);
        var s' := src[o.used..];
        PiecesEqualWhole(next, s', caps[1..]);
        var rest := Pieces(next, s', caps[1..]);
        assert s'[rest.used..] == src[o.used + rest.used..];
        AfterAfter(o.used, o.out, rest.used, rest.out, ConvertAll(next, s'[rest.used..]));
      }
    }
  }

  lemma RoomMeansProgress<S(!new), T>(next: seq<S> -> Next<T>, src: seq<S>, cap: nat)
    requires Proper(next) && Holds(next, cap) && Convert(next, src, cap).result == TargetExhausted
    ensures Convert(next, src, cap).used > 0
  {
    ProperAt(next, src);
  }

  /** Each character writes at most `factor` units for each unit it reads. */
  ghost predicate Grows<S(!new), T>(next: seq<S> -> Next<T>, factor: nat) {
    forall s | s != [] && next(s).Emit? :: |next(s).out| <= factor * next(s).used
  }

  /** Output grows at most in proportion to the source. */
  lemma {:induction false} OutputBound<S(!new), T>(next: seq<S> -> Next<T>, src: seq<S>, factor: nat)
    requires Proper(next) && Grows(next, factor)
    ensures |ConvertAll(next, src).out| <= factor * |src|
    decreases |src|
  {
    hide Proper;
    if src != [] && next(src).Emit? {
      ProperAt(next, src);
      var Emit(used, out) := next(src);
      assert |out| <= factor * used;
      hide Grows;
      OutputBound(next, src[used..], factor);
      Distribute(factor, used, |src| - used);
    }
  }

  lemma Distribute(f: nat, a: nat, b: nat)
    ensures f * (a + b) == f * a + f * b
  {
  }
}

/** UTF-8 and UTF-16, as in RFC 3629 and RFC 2781, and the converters between them. */
module Utf {
  import opened Conversion

  type Byte = b: nat | b < 0x100
  type Unit = u: nat | u < 0x1_0000

  predicate High(u: nat) {
    0xD800 <= u <= 0xDBFF
  }

  predicate Low(u: nat) {
    0xDC00 <= u <= 0xDFFF
  }

  predicate Surrogate(u: nat) {
    High(u) || Low(u)
  }

  /** A Unicode scalar value. */
  predicate Scalar(ch: nat) {
    ch <= 0x10FFFF && !Surrogate(ch)
  }

  // ----- The standards -----

  /** Section 2.1 of RFC 2781. */
  function Units(ch: nat): (us: seq<Unit>)
    requires ch <= 0x10FFFF
  {
    if ch <= 0xFFFF then [ch]
    else
      var v := ch - 0x1_0000;
      [0xD800 + v / 0x400, 0xDC00 + v % 0x400]
  }

  /** Section 3 of RFC 3629: the bits of the character number distributed over the bytes. */
  function Bytes(ch: nat): (bs: seq<Byte>)
    requires ch <= 0x10FFFF
    ensures 1 <= |bs| <= 4 && (ch < 0x1_0000 ==> |bs| <= 3)
  {
    if ch < 0x80 then [ch]
    else if ch < 0x800 then [0xC0 + ch / 0x40, 0x80 + ch % 0x40]
    else if ch < 0x1_0000 then [0xE0 + ch / 0x1000, 0x80 + ch / 0x40 % 0x40, 0x80 + ch % 0x40]
    else [0xF0 + ch / 0x4_0000, 0x80 + ch / 0x1000 % 0x40, 0x80 + ch / 0x40 % 0x40, 0x80 + ch % 0x40]
  }

  /** Every high surrogate is followed by a low one, and no low one stands alone. */
  ghost predicate WellFormed16(s: seq<Unit>) {
    s == []
    || (!Surrogate(s[0]) && WellFormed16(s[1..]))
    || (|s| >= 2 && High(s[0]) && Low(s[1]) && WellFormed16(s[2..]))
  }

  predicate Tail(b: Byte) {
    0x80 <= b <= 0xBF
  }

  /** Section 4 of RFC 3629: one character, by the production for its length. */
  predicate Utf8Char(s: seq<Byte>) {
    match |s|
    case 1 => s[0] <= 0x7F
    case 2 => 0xC2 <= s[0] <= 0xDF && Tail(s[1])
    case 3 =>
      && Tail(s[2])
      && ((s[0] == 0xE0 && 0xA0 <= s[1] <= 0xBF)
          || (0xE1 <= s[0] <= 0xEC && Tail(s[1]))
          || (s[0] == 0xED && 0x80 <= s[1] <= 0x9F)
          || (0xEE <= s[0] <= 0xEF && Tail(s[1])))
    case 4 =>
      && Tail(s[2]) && Tail(s[3])
      && ((s[0] == 0xF0 && 0x90 <= s[1] <= 0xBF)
          || (0xF1 <= s[0] <= 0xF3 && Tail(s[1]))
          || (s[0] == 0xF4 && 0x80 <= s[1] <= 0x8F))
    case _ => false
  }

  /** A concatenation of such characters. */
  ghost predicate WellFormed8(s: seq<Byte>)
    decreases |s|
  {
    s == [] || exists n | 1 <= n <= 4 && n <= |s| :: Utf8Char(s[..n]) && WellFormed8(s[n..])
  }

  // ----- What the code does with one character -----

  /** `trailingBytesForUTF8`. */
  function TrailingBytes(b: Byte): (n: nat)
    ensures n <= 5
  {
    if b < 0xC0 then 0 else if b < 0xE0 then 1 else if b < 0xF0 then 2
    else if b < 0xF8 then 3 else if b < 0xFC then 4 else 5
  }

  /** A lead byte starts with as many 1 bits as its character has bytes, counted up to six. */
  lemma LeadBits(b: Byte)
    ensures TrailingBytes(b) == 0 <==> b < 0xC0
    ensures TrailingBytes(b) >= 2 <==> b / 0x20 == 0x7
    ensures TrailingBytes(b) >= 3 <==> b / 0x10 == 0xF
    ensures TrailingBytes(b) >= 4 <==> b / 0x8 == 0x1F
    ensures TrailingBytes(b) >= 5 <==> b / 0x4 == 0x3F
  {
  }

  /** `isLegalUTF8`, case by case. */
  predicate IsLegal(s: seq<Byte>): (legal: bool)
    requires s != []
    ensures legal ==> |s| <= 4
  {
    && |s| <= 4
    && (|s| >= 4 ==> 0x80 <= s[3] <= 0xBF)
    && (|s| >= 3 ==> 0x80 <= s[2] <= 0xBF)
    && (|s| >= 2 ==>
          && s[1] <= 0xBF
          && (match s[0]
              case 0xE0 => s[1] >= 0xA0
              case 0xED => s[1] <= 0x9F
              case 0xF0 => s[1] >= 0x90
              case 0xF4 => s[1] <= 0x8F
              case _ => s[1] >= 0x80))
    && !(0x80 <= s[0] < 0xC2)
    && s[0] <= 0xF4
  }

  /**
    What `isLegalUTF8` accepts, for the length its lead byte asks for: the well-formed characters and,
    after the lead bytes 0xED and 0xF4 only, second bytes below 0x80.
   */
  lemma LegalExactly(s: seq<Byte>)
    requires s != [] && |s| == TrailingBytes(s[0]) + 1
    ensures IsLegal(s) <==> Utf8Char(s) || LooseSecond(s)
    ensures !(Utf8Char(s) && LooseSecond(s))
    ensures s[0] !in {0xED, 0xF4} ==> (IsLegal(s) <==> Utf8Char(s))
  {
  }

  predicate LooseSecond(s: seq<Byte>) {
    || (|s| == 3 && s[0] == 0xED && s[1] < 0x80 && Tail(s[2]))
    || (|s| == 4 && s[0] == 0xF4 && s[1] < 0x80 && Tail(s[2]) && Tail(s[3]))
  }

  /** `offsetsFromUTF8`, for the lengths that can be legal. */
  function Offset(extra: nat): nat
    requires extra <= 3
  {
    match extra case 0 => 0 case 1 => 0x3080 case 2 => 0xE2080 case _ => 0x3C82080
  }

  /** Sum the bytes six bits apart, then take the offset away, modulo 2^32. */
  function Decode(s: seq<Byte>): nat
    requires 1 <= |s| <= 4
  {
    (Shifted(s) - Offset(|s| - 1)) % 0x1_0000_0000
  }

  function Shifted(s: seq<Byte>): nat
    requires 1 <= |s| <= 4
  {
    match |s|
    case 1 => s[0]
    case 2 => Six(s[0], s[1])
    case 3 => Six(Six(s[0], s[1]), s[2])
    case _ => Six(Six(Six(s[0], s[1]), s[2]), s[3])
  }

  function Six(v: nat, b: nat): nat {
    v * 0x40 + b
  }

  /** The character of a surrogate pair. */
  function Paired(high: nat, low: nat): (ch: nat)
    requires High(high) && Low(low)
    ensures 0x1_0000 <= ch <= 0x10FFFF
  {
    (high - 0xD800) * 0x400 + (low - 0xDC00) + 0x1_0000
  }

  /** A legal sequence decodes to a scalar value, so the later checks on the value never fire. */
  lemma LegalDecodesToScalar(s: seq<Byte>)
    requires 1 <= |s| <= 4 && |s| == TrailingBytes(s[0]) + 1 && IsLegal(s)
    ensures Scalar(Decode(s))
  {
    match |s|
    case 3 => LegalThree(s);
    case 4 => LegalFour(s);
    case _ =>
  }

  lemma LegalThree(s: seq<Byte>)
    requires |s| == 3 && TrailingBytes(s[0]) == 2 && IsLegal(s)
    ensures Scalar(Decode(s))
  {
    var a: int, b: int, c: int := s[0], s[1], s[2];
    assert Shifted(s) - 0xE2080 == 0x1000 * (a - 0xE0) + 0x40 * (b - 0x80) + c - 0x80;
  }

  lemma LegalFour(s: seq<Byte>)
    requires |s| == 4 && TrailingBytes(s[0]) == 3 && IsLegal(s)
    ensures Scalar(Decode(s))
  {
    var a: int, b: int, c: int, d: int := s[0], s[1], s[2], s[3];
    assert Shifted(s) - 0x3C82080 == 0x4_0000 * (a - 0xF0) + 0x1000 * (b - 0x80) + 0x40 * (c - 0x80) + d - 0x80;
  }

  /** The value of a legal sequence. */
  function Value(s: seq<Byte>): (ch: nat)
    requires s != [] && |s| == TrailingBytes(s[0]) + 1 && IsLegal(s)
    ensures Scalar(ch)
  {
    LegalDecodesToScalar(s);
    Decode(s)
  }

  /** One character of UTF-16 source: a pair, a single unit, or a reason to stop. */
  function Next16(strict: bool): seq<Unit> -> Next<Byte> {
    (s: seq<Unit>) =>
      if s == [] then Stop(SourceExhausted)
      else if High(s[0]) then
        if |s| == 1 then Stop(SourceExhausted)
        else if Low(s[1]) then Emit(2, Bytes(Paired(s[0], s[1])))
        else if strict then Stop(SourceIllegal)
        else Emit(1, Bytes(s[0]))
      else if strict && Low(s[0]) then Stop(SourceIllegal)
      else Emit(1, Bytes(s[0]))
  }

  /** One character of UTF-8 source, with the checks the code makes on the decoded value. */
  function Next8(strict: bool): seq<Byte> -> Next<Unit> {
    (s: seq<Byte>) =>
      if s == [] then Stop(SourceExhausted)
      else
        var n := TrailingBytes(s[0]) + 1;
        if n > |s| then Stop(SourceExhausted)
        else if !IsLegal(s[..n]) then Stop(SourceIllegal)
        else
          var ch := Decode(s[..n]);
          if ch <= 0xFFFF then
            if Surrogate(ch) then (if strict then Stop(SourceIllegal) else Emit(n, [0xFFFD]))
            else Emit(n, [ch])
          else if ch > 0x10FFFF then (if strict then Stop(SourceIllegal) else Emit(n, [0xFFFD]))
          else Emit(n, Units(ch))
  }

  /** The same without those checks. */
  function Plain8(s: seq<Byte>): (r: Next<Unit>)
    requires s != []
  {
    var n := TrailingBytes(s[0]) + 1;
    if n > |s| then Stop(SourceExhausted)
    else if !IsLegal(s[..n]) then Stop(SourceIllegal)
    else Emit(n, Units(Value(s[..n])))
  }

  /** The checks on the decoded value never fire, so the strictness flag makes no difference. */
  lemma FlagMakesNoDifference(strict: bool, s: seq<Byte>)
    requires s != []
    ensures Next8(strict)(s) == Plain8(s)
  {
    hide IsLegal, Decode;
    var n := TrailingBytes(s[0]) + 1;
    if n <= |s| && IsLegal(s[..n]) {
      LegalDecodesToScalar(s[..n]);
    }
  }

  lemma Next16Proper(strict: bool)
    ensures Proper(Next16(strict)) && Grows(Next16(strict), 3) && Holds(Next16(strict), 4)
  {
    hide Bytes;
    forall s: seq<Unit> | s != [] && Next16(strict)(s).Emit?
      ensures |Next16(strict)(s).out| <= 3 * Next16(strict)(s).used && |Next16(strict)(s).out| <= 4
      ensures 0 < Next16(strict)(s).used <= |s|
    {
    }
  }

  lemma Next8Proper(strict: bool)
    ensures Proper(Next8(strict)) && Grows(Next8(strict), 1) && Holds(Next8(strict), 2)
  {
    hide Next8, IsLegal, Decode;
    var next := Next8(strict);
    forall s: seq<Byte> | s != []
      ensures next(s).Emit? ==> |next(s).out| <= 1 * next(s).used && |next(s).out| <= 2 && 0 < next(s).used <= |s|
      ensures next(s).Stop? ==> next(s).reason == SourceExhausted || next(s).reason == SourceIllegal
    {
      FlagMakesNoDifference(strict, s);
      if next(s).Emit? {
        ShortIsSmall(s[..TrailingBytes(s[0]) + 1]);
      }
    }
  }

  /** A character outside the basic plane takes four bytes, so decoding never lengthens the text. */
  lemma ShortIsSmall(s: seq<Byte>)
    requires 1 <= |s| <= 4 && |s| == TrailingBytes(s[0]) + 1 && IsLegal(s)
    ensures |s| < 4 ==> Decode(s) <= 0xFFFF
  {
  }

  // ----- One character there and back -----

  /** Encoding a scalar value gives a character of the standard, which decodes to the value again. */
  lemma BytesRoundTrip(ch: nat)
    requires Scalar(ch)
    ensures var bs := Bytes(ch);
            Utf8Char(bs) && |bs| == TrailingBytes(bs[0]) + 1 && IsLegal(bs) && Decode(bs) == ch
  {
    var bs := Bytes(ch);
    if ch >= 0x1_0000 {
      FourBytes(ch);
    } else if ch >= 0x800 {
      ThreeBytes(ch);
    }
    LegalExactly(bs);
  }

  lemma ThreeBytes(ch: nat)
    requires Scalar(ch) && 0x800 <= ch < 0x1_0000
    ensures Utf8Char(Bytes(ch)) && |Bytes(ch)| == TrailingBytes(Bytes(ch)[0]) + 1 && Decode(Bytes(ch)) == ch
  {
    var a := ch / 0x40;
    assert a / 0x40 == ch / 0x1000;
    assert ch == 0x40 * a + ch % 0x40 && a == 0x40 * (a / 0x40) + a % 0x40;
  }

  lemma FourBytes(ch: nat)
    requires Scalar(ch) && 0x1_0000 <= ch
    ensures Utf8Char(Bytes(ch)) && |Bytes(ch)| == TrailingBytes(Bytes(ch)[0]) + 1 && Decode(Bytes(ch)) == ch
  {
    var a, b := ch / 0x40, ch / 0x1000;
    assert a / 0x40 == b && b / 0x40 == ch / 0x4_0000;
    assert ch == 0x40 * a + ch % 0x40 && a == 0x40 * b + a % 0x40 && b == 0x40 * (b / 0x40) + b % 0x40;
  }

  lemma UnitsRoundTrip(ch: nat)
    requires Scalar(ch)
    ensures var us := Units(ch);
            if ch <= 0xFFFF then us == [ch] && !Surrogate(us[0])
            else |us| == 2 && High(us[0]) && Low(us[1]) && Paired(us[0], us[1]) == ch
  {
  }

  /** A pair of surrogates is what its character is written as. */
  lemma PairedUnits(high: Unit, low: Unit)
    requires High(high) && Low(low)
    ensures Units(Paired(high, low)) == [high, low]
  {
  }

  // ----- Whole texts -----

  /**
    Strict conversion of well-formed UTF-16 to UTF-8 consumes everything, produces well-formed UTF-8 of
    at most three bytes a unit, and converting back gives the text again.
   */
  lemma {:induction false} RoundTrip(src: seq<Unit>)
    requires WellFormed16(src) && Proper(Next16(true)) && Proper(Next8(true))
    ensures var to := ConvertAll(Next16(true), src);
            && to.result == ConversionOk && to.used == |src|
            && WellFormed8(to.out)
            && ConvertAll(Next8(true), to.out) == Outcome(ConversionOk, |to.out|, src)
    decreases |src|
  {
    hide Proper, Bytes, WellFormed8, Next16, Next8, Units;
    if src == [] {
      EmptyIsWellFormed();
    } else {
      var ch, n := FirstCharacter(src);
      RoundTrip(src[n..]);
      var rest := ConvertAll(Next16(true), src[n..]);
      Prefixed(ch, rest.out);
      assert src == src[..n] + src[n..];
    }
  }

  lemma EmptyIsWellFormed()
    ensures WellFormed8([])
  {
  }

  /** Well-formed UTF-16 starts with the units of a scalar value, and strict reading finds it. */
  lemma {:induction false} FirstCharacter(src: seq<Unit>) returns (ch: nat, n: nat)
    requires WellFormed16(src) && src != []
    ensures Scalar(ch) && 0 < n <= |src| && Units(ch) == src[..n] && WellFormed16(src[n..])
    ensures Next16(true)(src) == Emit(n, Bytes(ch))
  {
    hide Bytes;
    if High(src[0]) {
      ch, n := Paired(src[0], src[1]), 2;
      PairedUnits(src[0], src[1]);
    } else {
      ch, n := src[0], 1;
    }
  }

  /** An encoded character in front of UTF-8 text is read off first. */
  lemma {:induction false} Prefixed(ch: nat, rest: seq<Byte>)
    requires Scalar(ch) && Proper(Next8(true))
    ensures WellFormed8(rest) ==> WellFormed8(Bytes(ch) + rest)
    ensures ConvertAll(Next8(true), Bytes(ch) + rest) == After(|Bytes(ch)|, Units(ch), ConvertAll(Next8(true), rest))
  {
    BytesRoundTrip(ch);
    hide Proper, Bytes, Next8, Units, IsLegal, Decode;
    var bs := Bytes(ch);
    var s := bs + rest;
    assert s[..|bs|] == bs && s[|bs|..] == rest;
    FlagMakesNoDifference(true, s);
    assert Next8(true)(s) == Emit(|bs|, Units(ch));
  }

  /** Strict conversion accepts exactly the well-formed UTF-16 texts. */
  lemma {:induction false} StrictAcceptsExactly(src: seq<Unit>)
    requires Proper(Next16(true))
    ensures ConvertAll(Next16(true), src).result == ConversionOk <==> WellFormed16(src)
    decreases |src|
  {
    hide Proper, Bytes;
    if src != [] && Next16(true)(src).Emit? {
      StrictAcceptsExactly(src[Next16(true)(src).used..]);
    }
  }

  /** What a legal UTF-8 text converts to is well-formed UTF-16. */
  lemma {:induction false} DecodedIsWellFormed(src: seq<Byte>)
    requires Proper(Next8(true)) && ConvertAll(Next8(true), src).result == ConversionOk
    ensures WellFormed16(ConvertAll(Next8(true), src).out)
    decreases |src|
  {
    hide Proper, Next8, Units;
    if src != [] {
      ProperAt(Next8(true), src);
      var n, ch := HeadOf(src);
      DecodedIsWellFormed(src[n..]);
      UnitsInFront(ch, ConvertAll(Next8(true), src[n..]).out);
    }
  }

  /** A character read from UTF-8 is a scalar value. */
  lemma HeadOf(src: seq<Byte>) returns (n: nat, ch: nat)
    requires src != [] && Next8(true)(src).Emit?
    ensures 0 < n <= |src| && Scalar(ch) && Next8(true)(src) == Emit(n, Units(ch))
  {
    FlagMakesNoDifference(true, src);
    hide Next8, Decode, Units, IsLegal;
    n := TrailingBytes(src[0]) + 1;
    ch := Value(src[..n]);
  }

  lemma {:induction false} UnitsInFront(ch: nat, rest: seq<Unit>)
    requires Scalar(ch) && WellFormed16(rest)
    ensures WellFormed16(Units(ch) + rest)
  {
    UnitsRoundTrip(ch);
    var s := Units(ch) + rest;
    assert s[|Units(ch)|..] == rest;
  }

  /** A character of the standard is what its value is encoded as. */
  lemma CharRoundTrip(s: seq<Byte>)
    requires Utf8Char(s)
    ensures |s| == TrailingBytes(s[0]) + 1 && IsLegal(s) && Scalar(Decode(s)) && Bytes(Decode(s)) == s
  {
    LegalExactly(s);
    LegalDecodesToScalar(s);
    match |s|
    case 3 => ThreeAgain(s);
    case 4 => FourAgain(s);
    case _ =>
  }

  lemma ThreeAgain(s: seq<Byte>)
    requires |s| == 3 && Utf8Char(s)
    ensures 0x800 <= Decode(s) < 0x1_0000 && Bytes(Decode(s)) == s
  {
    var ch := Decode(s);
    var a: int, b: int, c: int := s[0] - 0xE0, s[1] - 0x80, s[2] - 0x80;
    assert ch == 0x1000 * a + 0x40 * b + c;
    assert ch / 0x1000 == a && ch / 0x40 == 0x40 * a + b && ch / 0x40 % 0x40 == b && ch % 0x40 == c;
  }

  lemma FourAgain(s: seq<Byte>)
    requires |s| == 4 && Utf8Char(s)
    ensures 0x1_0000 <= Decode(s) <= 0x10FFFF && Bytes(Decode(s)) == s
  {
    var ch := Decode(s);
    var a: int, b: int, c: int, d: int := s[0] - 0xF0, s[1] - 0x80, s[2] - 0x80, s[3] - 0x80;
    var ab := 0x40 * a + b;
    var abc := 0x40 * ab + c;
    assert ch == 0x40 * abc + d;
    LastSix(abc, d);
    LastSix(ab, c);
    LastSix(a, b);
    Scales(ch);
  }

  lemma LastSix(q: int, r: int)
    requires 0 <= r < 0x40
    ensures (0x40 * q + r) / 0x40 == q && (0x40 * q + r) % 0x40 == r
  {
  }

  lemma Scales(ch: nat)
    ensures ch / 0x1000 == ch / 0x40 / 0x40 && ch / 0x4_0000 == ch / 0x40 / 0x40 / 0x40
  {
  }

  lemma HeadIs(src: seq<Byte>, n: nat) returns (ch: nat)
    requires 1 <= n <= |src| && Utf8Char(src[..n])
    ensures Scalar(ch) && Next8(true)(src) == Emit(n, Units(ch)) && Bytes(ch) == src[..n]
  {
    FlagMakesNoDifference(true, src);
    hide Next8, Utf8Char, Decode, Units, Bytes, IsLegal;
    CharRoundTrip(src[..n]);
    ch := Decode(src[..n]);
  }

  /** Every well-formed UTF-8 text is accepted, and converting back gives it again. */
  lemma {:induction false} WellFormedAccepted(src: seq<Byte>)
    requires WellFormed8(src) && Proper(Next8(true)) && Proper(Next16(true))
    ensures var to := ConvertAll(Next8(true), src);
            && to.result == ConversionOk && to.used == |src|
            && ConvertAll(Next16(true), to.out) == Outcome(ConversionOk, |to.out|, src)
    decreases |src|
  {
    hide Proper, Bytes, Utf8Char, Units, Next8, Next16;
    if src != [] {
      var n :| 1 <= n <= 4 && n <= |src| && Utf8Char(src[..n]) && WellFormed8(src[n..]);
      hide WellFormed8, ConvertAll;
      var ch := HeadIs(src, n);
      ConvertAllEmits(Next8(true), src, n, Units(ch));
      WellFormedAccepted(src[n..]);
      Prefixed16(ch, ConvertAll(Next8(true), src[n..]).out);
      assert src == src[..n] + src[n..];
    }
  }

  lemma {:induction false} Prefixed16(ch: nat, rest: seq<Unit>)
    requires Scalar(ch) && Proper(Next16(true))
    ensures ConvertAll(Next16(true), Units(ch) + rest) == After(|Units(ch)|, Bytes(ch), ConvertAll(Next16(true), rest))
  {
    hide Proper, Bytes;
    UnitsRoundTrip(ch);
    var us := Units(ch);
    var s := us + rest;
    assert s[|us|..] == rest && s[..|us|] == us;
    assert Next16(true)(s) == Emit(|us|, Bytes(ch));
  }

  /**
    Converting accepted UTF-8 to UTF-16 and back gives the same bytes exactly when they were
    well-formed; the texts where it does not are those with a loose second byte.
   */
  lemma BackAndForthExactly(src: seq<Byte>)
    requires Proper(Next8(true)) && Proper(Next16(true)) && ConvertAll(Next8(true), src).result == ConversionOk
    ensures var there := ConvertAll(Next8(true), src).out;
            ConvertAll(Next16(true), there).out == src <==> WellFormed8(src)
  {
    var there := ConvertAll(Next8(true), src).out;
    DecodedIsWellFormed(src);
    RoundTrip(there);
    if WellFormed8(src) {
      WellFormedAccepted(src);
    }
  }

  /** The promise that only well-formed UTF-8 is accepted fails: a loose second byte is accepted. */
  lemma LooseIsAccepted(s: seq<Byte>)
    requires LooseSecond(s) && Proper(Next8(true))
    ensures ConvertAll(Next8(true), s).result == ConversionOk && !WellFormed8(s)
  {
    LooseHead(s);
    NotAChar(s);
    hide Proper, Next8, LooseSecond, Utf8Char;
    assert s[|s|..] == [];
    assert ConvertAll(Next8(true), []).result == ConversionOk;
  }

  lemma LooseHead(s: seq<Byte>)
    requires LooseSecond(s)
    ensures Next8(true)(s).Emit? && Next8(true)(s).used == |s|
  {
    FlagMakesNoDifference(true, s);
    hide Next8, Decode, Units;
    assert s[..|s|] == s;
  }

  lemma NotAChar(s: seq<Byte>)
    requires LooseSecond(s)
    ensures forall n | 1 <= n <= |s| :: !Utf8Char(s[..n])
  {
    assert s[..|s|] == s;
  }

  // ----- The two directions as wholes -----

  /** Strict conversion of a whole text. */
  ghost function ToUtf8(src: seq<Unit>): (o: Outcome<Byte>)
    ensures o.used <= |src|
  {
    Next16Proper(true);
    ConvertAll(Next16(true), src)
  }

  ghost function ToUtf16(src: seq<Byte>): (o: Outcome<Unit>)
    ensures o.used <= |src|
  {
    Next8Proper(true);
    ConvertAll(Next8(true), src)
  }

  /**
    Strict conversion accepts exactly the well-formed UTF-16 texts; it makes them well-formed UTF-8, and converting
    back gives the text again.
   */
  lemma Utf16RoundTrips(src: seq<Unit>)
    ensures ToUtf8(src).result == ConversionOk <==> WellFormed16(src)
    ensures WellFormed16(src) ==> ToUtf8(src).used == |src| && WellFormed8(ToUtf8(src).out)
    ensures WellFormed16(src) ==> ToUtf16(ToUtf8(src).out) == Outcome(ConversionOk, |ToUtf8(src).out|, src)
    ensures |ToUtf8(src).out| <= 3 * |src|
  {
    Next16Proper(true);
    Next8Proper(true);
    hide Proper, Next16, Next8, ConvertAll, WellFormed16, WellFormed8;
    StrictAcceptsExactly(src);
    OutputBound(Next16(true), src, 3);
    if WellFormed16(src) {
      RoundTrip(src);
    }
  }

  /**
    Every well-formed UTF-8 text is accepted and comes back the same from UTF-16; an accepted text comes back the same
    only if it was well-formed.
   */
  lemma Utf8RoundTripsExactly(src: seq<Byte>)
    ensures WellFormed8(src) ==> ToUtf16(src).result == ConversionOk && ToUtf16(src).used == |src|
    ensures ToUtf16(src).result == ConversionOk ==>
      (ToUtf8(ToUtf16(src).out).out == src <==> WellFormed8(src))
  {
    Next16Proper(true);
    Next8Proper(true);
    hide Proper, Next16, Next8, ConvertAll, WellFormed8;
    if WellFormed8(src) {
      WellFormedAccepted(src);
    }
    if ToUtf16(src).result == ConversionOk {
      BackAndForthExactly(src);
    }
  }

  /** The promise that only well-formed UTF-8 is accepted fails for every loose second byte. */
  lemma LooseUtf8Accepted(s: seq<Byte>)
    requires LooseSecond(s)
    ensures ToUtf16(s).result == ConversionOk && !WellFormed8(s)
  {
    Next8Proper(true);
    LooseIsAccepted(s);
  }

  /** What a text is made of that the code accepts: characters, well-formed or with a loose second byte. */
  ghost predicate Loose8(s: seq<Byte>)
    decreases |s|
  {
    s == [] || exists n | 1 <= n <= 4 && n <= |s| :: (Utf8Char(s[..n]) || LooseSecond(s[..n])) && Loose8(s[n..])
  }

  /** The code reads such a character, and nothing else. */
  lemma LooseHeadExactly(src: seq<Byte>, n: nat)
    requires 1 <= n <= |src| && n <= 4
    ensures Utf8Char(src[..n]) || LooseSecond(src[..n]) <==> Next8(true)(src).Emit? && Next8(true)(src).used == n
  {
    FlagMakesNoDifference(true, src);
    hide Next8, Decode, Units;
    var c := src[..n];
    if n == TrailingBytes(src[0]) + 1 {
      LegalExactly(c);
    }
  }

  lemma {:induction false} LooseExactly(src: seq<Byte>)
    requires Proper(Next8(true))
    ensures ConvertAll(Next8(true), src).result == ConversionOk <==> Loose8(src)
    decreases |src|
  {
    hide Proper, Next8, Utf8Char, LooseSecond;
    if src != [] {
      var next := Next8(true)(src);
      ProperAt(Next8(true), src);
      if next.Emit? {
        LooseExactly(src[next.used..]);
        if next.used <= 4 {
          LooseHeadExactly(src, next.used);
        } else {
          ShortUsed(src);
        }
      }
      forall n | 1 <= n <= 4 && n <= |src| && (Utf8Char(src[..n]) || LooseSecond(src[..n]))
        ensures next.Emit? && next.used == n
      {
        LooseHeadExactly(src, n);
      }
    }
  }

  lemma ShortUsed(src: seq<Byte>)
    requires src != [] && Next8(true)(src).Emit?
    ensures Next8(true)(src).used <= 4
  {
    FlagMakesNoDifference(true, src);
    hide Next8, Decode, Units;
  }

  /** A whole text is accepted exactly when it is a concatenation of such characters. */
  lemma Utf8AcceptedExactly(src: seq<Byte>)
    ensures ToUtf16(src).result == ConversionOk <==> Loose8(src)
  {
    Next8Proper(true);
    hide Proper, Next8, ConvertAll, Loose8;
    LooseExactly(src);
  }

  // ----- Where and why a conversion stops -----

  lemma {:induction false} WellFormed16More(src: seq<Unit>, n: nat, k: nat)
    requires 0 < n <= k <= |src| && WellFormed16(src[n..k])
    requires (n == 1 && !Surrogate(src[0])) || (n == 2 && High(src[0]) && Low(src[1]))
    ensures WellFormed16(src[..k])
  {
    assert src[..k][n..] == src[n..k];
  }

  /** What strict reading does with the first units. */
  lemma Head16(src: seq<Unit>)
    requires src != []
    ensures var next := Next16(true)(src);
      && (next.Emit? ==>
            || (next.used == 1 && !Surrogate(src[0]))
            || (next.used == 2 <= |src| && High(src[0]) && Low(src[1])))
      && (next == Stop(SourceExhausted) <==> |src| == 1 && High(src[0]))
      && (next == Stop(SourceIllegal) <==> Low(src[0]) || (High(src[0]) && |src| > 1 && !Low(src[1])))
      && (next.Stop? ==> next.reason in {SourceExhausted, SourceIllegal})
  {
    hide Bytes;
  }

  lemma {:induction false} Stops16(src: seq<Unit>)
    requires Proper(Next16(true))
    ensures var o := ConvertAll(Next16(true), src); var rest := src[o.used..];
      && WellFormed16(src[..o.used])
      && (o.result == SourceExhausted <==> |rest| == 1 && High(rest[0]))
      && (o.result == SourceIllegal <==> rest != [] && (Low(rest[0]) || (High(rest[0]) && |rest| > 1 && !Low(rest[1]))))
    decreases |src|
  {
    hide Proper, Next16, WellFormed16, High, Low, Surrogate, ConvertAll;
    if src != [] {
      Head16(src);
    }
    if src != [] && Next16(true)(src).Emit? {
      var n := Next16(true)(src).used;
      ConvertAllEmits(Next16(true), src, n, Next16(true)(src).out);
      Stops16(src[n..]);
      var k := n + ConvertAll(Next16(true), src[n..]).used;
      assert src[n..][k - n..] == src[k..] && src[n..][..k - n] == src[n..k];
      WellFormed16More(src, n, k);
    } else {
      ConvertAllStops(Next16(true), src);
      EmptyIsWellFormed16();
      assert src[0..] == src;
    }
  }

  lemma ConvertAllStops<S(!new), T>(next: seq<S> -> Next<T>, src: seq<S>)
    requires Proper(next) && (src == [] || next(src).Stop?)
    ensures ConvertAll(next, src) == Outcome(if src == [] then ConversionOk else next(src).reason, 0, [])
  {
  }

  lemma EmptyIsWellFormed16()
    ensures WellFormed16([])
  {
  }

  /**
    Strict conversion of UTF-16 takes the longest well-formed text from the start. What is left is called exhausted
    exactly when it is a single high surrogate, and illegal exactly when it starts with a low one or with a high one
    that another unit follows.
   */
  lemma Utf16StopsExactly(src: seq<Unit>)
    ensures var o := ToUtf8(src); var rest := src[o.used..];
      && WellFormed16(src[..o.used])
      && (o.result == SourceExhausted <==> |rest| == 1 && High(rest[0]))
      && (o.result == SourceIllegal <==> rest != [] && (Low(rest[0]) || (High(rest[0]) && |rest| > 1 && !Low(rest[1]))))
  {
    Next16Proper(true);
    hide Proper, Next16, ConvertAll, WellFormed16;
    Stops16(src);
  }

  /** A character the code accepts is at the start of the text. */
  ghost predicate Starts8(src: seq<Byte>) {
    exists n | 1 <= n <= 4 && n <= |src| :: Utf8Char(src[..n]) || LooseSecond(src[..n])
  }

  lemma Starts8Exactly(src: seq<Byte>)
    requires src != []
    ensures Starts8(src) <==> Next8(true)(src).Emit?
    ensures Next8(true)(src) == Stop(SourceExhausted) <==> |src| <= TrailingBytes(src[0])
  {
    FlagMakesNoDifference(true, src);
    hide Next8, Utf8Char, LooseSecond, IsLegal, Decode, Units;
    if Next8(true)(src).Emit? {
      ShortUsed(src);
      LooseHeadExactly(src, Next8(true)(src).used);
    }
    forall n | 1 <= n <= 4 && n <= |src| && (Utf8Char(src[..n]) || LooseSecond(src[..n]))
      ensures Next8(true)(src).Emit?
    {
      LooseHeadExactly(src, n);
    }
  }

  lemma {:induction false} Loose8More(src: seq<Byte>, n: nat, k: nat)
    requires 1 <= n <= 4 && n <= k <= |src| && Loose8(src[n..k])
    requires Utf8Char(src[..n]) || LooseSecond(src[..n])
    ensures Loose8(src[..k])
  {
    hide Utf8Char, LooseSecond;
    assert src[..k][n..] == src[n..k] && src[..k][..n] == src[..n];
  }

  lemma {:induction false} Stops8(src: seq<Byte>)
    requires Proper(Next8(true))
    ensures var o := ConvertAll(Next8(true), src); var rest := src[o.used..];
      && Loose8(src[..o.used])
      && (o.result == SourceExhausted <==> rest != [] && |rest| <= TrailingBytes(rest[0]))
      && (o.result == SourceIllegal <==> rest != [] && |rest| > TrailingBytes(rest[0]) && !Starts8(rest))
    decreases |src|
  {
    hide Proper, Next8, Loose8, Starts8, Utf8Char, LooseSecond, TrailingBytes;
    if src != [] {
      ProperAt(Next8(true), src);
      Starts8Exactly(src);
    }
    if src != [] && Next8(true)(src).Emit? {
      var n := Next8(true)(src).used;
      Stops8(src[n..]);
      ShortUsed(src);
      LooseHeadExactly(src, n);
      var k := n + ConvertAll(Next8(true), src[n..]).used;
      assert src[n..][k - n..] == src[k..] && src[n..][..k - n] == src[n..k];
      Loose8More(src, n, k);
    } else {
      EmptyIsLoose();
      assert src[0..] == src;
    }
  }

  lemma EmptyIsLoose()
    ensures Loose8([])
  {
  }

  /**
    Conversion of UTF-8 takes accepted characters from the start as long as there are any. What is left is called
    exhausted exactly when it is shorter than its first byte asks for, and illegal exactly when it is not and no
    accepted character starts it.
   */
  lemma Utf8StopsExactly(src: seq<Byte>)
    ensures var o := ToUtf16(src); var rest := src[o.used..];
      && Loose8(src[..o.used])
      && (o.result == SourceExhausted <==> rest != [] && |rest| <= TrailingBytes(rest[0]))
      && (o.result == SourceIllegal <==> rest != [] && |rest| > TrailingBytes(rest[0]) && !Starts8(rest))
  {
    Next8Proper(true);
    hide Proper, Next8, ConvertAll, Loose8, Starts8;
    Stops8(src);
  }
}
