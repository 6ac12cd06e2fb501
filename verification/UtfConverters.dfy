/** The conversion loops, writing into a caller's buffer, and their callers. */
module UtfConverters {
  import opened Conversion
  import opened Utf
  import opened Wrappers

  /** `bytesToWrite`. */
  function BytesToWrite(ch: nat): nat {
    if ch < 0x80 then 1 else if ch < 0x800 then 2 else if ch < 0x1_0000 then 3 else 4
  }

  function UnitsToWrite(ch: nat): nat {
    if ch <= 0xFFFF then 1 else 2
  }

  /** `firstByteMark`. */
  function FirstByteMark(n: nat): nat
    requires 1 <= n <= 4
  {
    match n case 1 => 0 case 2 => 0xC0 case 3 => 0xE0 case _ => 0xF0
  }

  /** Write one character backwards, six bits at a time. */
  method WriteCharacter(target: array<Byte>, at: nat, ch: nat)
    requires ch <= 0x10FFFF && at + BytesToWrite(ch) <= target.Length
    modifies target
    ensures |Bytes(ch)| == BytesToWrite(ch)
    ensures target[..] == old(target[..])[..at] + Bytes(ch) + old(target[..])[at + BytesToWrite(ch)..]
  {
    var n := BytesToWrite(ch);
    var c := ch;
    if n >= 4 {
      target[at + n - 1] := 0x80 + c % 0x40;
      c := c / 0x40;
    }
    if n >= 3 {
      target[at + 2] := 0x80 + c % 0x40;
      c := c / 0x40;
    }
    if n >= 2 {
      target[at + 1] := 0x80 + c % 0x40;
      c := c / 0x40;
    }
    Scales(ch);
    target[at] := FirstByteMark(n) + c;
  }

  /** A character read from the source, or why there is none. */
  datatype Read = Character(ch: nat, units: nat) | Refused(reason: Result)

  method ReadUtf16(src: seq<Unit>, at: nat, strict: bool) returns (r: Read)
    requires at < |src|
    ensures match Next16(strict)(src[at..])
            case Stop(reason) => r == Refused(reason)
            case Emit(used, out) => r.Character? && r.units == used && r.ch <= 0x10FFFF && out == Bytes(r.ch)
  {
    hide Bytes;
    var ch: nat := src[at];
    if High(ch) {
      // if the unit following the high surrogate is in the source buffer
      if at + 1 < |src| {
        var ch2 := src[at + 1];
        if Low(ch2) {
          return Character(Paired(ch, ch2), 2);
        } else if strict {
          return Refused(SourceIllegal);
        }
      } else {
        return Refused(SourceExhausted);
      }
    } else if strict {
      if Low(ch) {
        return Refused(SourceIllegal);
      }
    }
    return Character(ch, 1);
  }

  /** A loop that stops here with `room` left stops with this outcome. */
  lemma Halts<S(!new), T>(next: seq<S> -> Next<T>, src: seq<S>, used: nat, out: seq<T>, room: nat)
    requires Proper(next) && used <= |src|
    ensures var o := After(used, out, Convert(next, src[used..], room));
            if used == |src| then o == Outcome(ConversionOk, used, out)
            else
              match next(src[used..])
              case Stop(r) => o == Outcome(r, used, out)
              case Emit(_, more) => |more| > room ==> o == Outcome(TargetExhausted, used, out)
  {
    hide Proper;
    assert out + [] == out;
  }

  /** Writing behind what has been written. */
  lemma Spliced<T>(was: seq<T>, from: nat, out: seq<T>, more: seq<T>)
    requires from + |out| + |more| <= |was|
    ensures var t := was[..from] + out + was[from + |out|..];
            t[..from + |out|] + more + t[from + |out| + |more|..] ==
            was[..from] + (out + more) + was[from + |out + more|..]
  {
  }

  lemma UnitCount(ch: nat)
    requires ch <= 0x10FFFF
    ensures |Units(ch)| == UnitsToWrite(ch)
  {
  }

  lemma LengthIs(ch: nat)
    requires ch <= 0x10FFFF
    ensures |Bytes(ch)| == BytesToWrite(ch)
  {
  }

  /** One turn of a loop that has `room` left. */
  lemma Advance<S(!new), T>(next: seq<S> -> Next<T>, src: seq<S>, used: nat, n: nat, more: seq<T>, out: seq<T>,
      room: nat)
    requires Proper(next) && used < |src| && next(src[used..]) == Emit(n, more) && |more| <= room
    ensures 0 < n && used + n <= |src|
    ensures After(used, out, Convert(next, src[used..], room)) ==
            After(used + n, out + more, Convert(next, src[used + n..], room - |more|))
  {
    ProperAt(next, src[used..]);
    hide Proper;
    assert src[used..][n..] == src[used + n..];
    AfterAfter(used, out, n, more, Convert(next, src[used + n..], room - |more|));
  }

  method ReadUtf8(src: seq<Byte>, at: nat, ghost strict: bool) returns (r: Read)
    requires at < |src|
    ensures match Next8(strict)(src[at..])
            case Stop(reason) => r == Refused(reason)
            case Emit(used, out) => r.Character? && r.units == used && r.ch <= 0x10FFFF && out == Units(r.ch)
  {
    hide Next8, Plain8;
    FlagMakesNoDifference(strict, src[at..]);
    r := FirstCharacterOf(src[at..]);
  }

  method FirstCharacterOf(s: seq<Byte>) returns (r: Read)
    requires s != []
    ensures match Plain8(s)
            case Stop(reason) => r == Refused(reason)
            case Emit(used, out) => r.Character? && r.units == used && r.ch <= 0x10FFFF && out == Units(r.ch)
  {
    hide Units, Shifted, Offset, IsLegal;
    var extra := TrailingBytes(s[0]);
    if extra >= |s| {
      return Refused(SourceExhausted);
    }
    if !IsLegal(s[..extra + 1]) {
      return Refused(SourceIllegal);
    }
    var ch := AddUp(s[..extra + 1]);
    ch := (ch - Offset(extra)) % 0x1_0000_0000;
    assert ch == Value(s[..extra + 1]);
    return Character(ch, extra + 1);
  }

  /** The fall-through switch: add a byte, shift by six, until the last byte is added. */
  method AddUp(s: seq<Byte>) returns (ch: nat)
    requires 1 <= |s| <= 4
    ensures ch == Shifted(s)
  {
    ch := 0;
    var i := 0;
    while i < |s|
      invariant i <= |s|
      invariant ch == if i == 0 then 0 else if i < |s| then 0x40 * Shifted(s[..i]) else Shifted(s)
    {
      assert i == 0 || s[..i + 1][..i] == s[..i];
      ch := ch + s[i];
      assert s[..i + 1] == s || i + 1 < |s|;
      i := i + 1;
      if i < |s| {
        ch := ch * 0x40;
      }
    }
  }

  method WriteUnits(target: array<Unit>, at: nat, ch: nat)
    requires ch <= 0x10FFFF && at + UnitsToWrite(ch) <= target.Length
    modifies target
    ensures target[..] == old(target[..])[..at] + Units(ch) + old(target[..])[at + UnitsToWrite(ch)..]
  {
    if ch <= 0xFFFF {
      target[at] := ch;
    } else {
      var v := ch - 0x1_0000;
      target[at] := v / 0x400 + 0xD800;
      target[at + 1] := v % 0x400 + 0xDC00;
    }
  }

  /** One turn of a conversion loop: so much read and written, or the reason to stop. */
  datatype Put = Wrote(read: nat, written: nat) | Halt(reason: Result)

  /** What a turn does with the next character, given the room between `at` and `to`. */
  ghost predicate Turned<T>(n: Next<T>, p: Put, was: seq<T>, now: seq<T>, at: nat, to: nat)
    requires at <= to <= |was|
  {
    match n
    case Stop(reason) => p == Halt(reason) && now == was
    case Emit(read, out) =>
      if |out| > to - at then p == Halt(TargetExhausted) && now == was
      else p == Wrote(read, |out|) && now == was[..at] + out + was[at + |out|..]
  }

  method PutAsUtf8(src: seq<Unit>, used: nat, target: array<Byte>, at: nat, to: nat, strict: bool) returns (p: Put)
    requires used < |src| && at <= to <= target.Length
    modifies target
    ensures Turned(Next16(strict)(src[used..]), p, old(target[..]), target[..], at, to)
  {
    hide Next16, Bytes;
    var r := ReadUtf16(src, used, strict);
    if r.Refused? {
      return Halt(r.reason);
    }
    LengthIs(r.ch);
    if at + BytesToWrite(r.ch) > to {
      return Halt(TargetExhausted);
    }
    WriteCharacter(target, at, r.ch);
    return Wrote(r.units, BytesToWrite(r.ch));
  }

  method PutAsUtf16(src: seq<Byte>, used: nat, target: array<Unit>, at: nat, to: nat, ghost strict: bool)
    returns (p: Put)
    requires used < |src| && at <= to <= target.Length
    modifies target
    ensures Turned(Next8(strict)(src[used..]), p, old(target[..]), target[..], at, to)
  {
    hide Next8, Units;
    var r := ReadUtf8(src, used, strict);
    if r.Refused? {
      return Halt(r.reason);
    }
    UnitCount(r.ch);
    // no room for one unit, or none for the second of a pair
    if at + UnitsToWrite(r.ch) > to {
      return Halt(TargetExhausted);
    }
    WriteUnits(target, at, r.ch);
    return Wrote(r.units, UnitsToWrite(r.ch));
  }

  /** Converts into target[from..to]; nothing outside what it reports written is changed. */
  method ConvertUTF16toUTF8(src: seq<Unit>, target: array<Byte>, from: nat, to: nat, strict: bool)
    returns (result: Result, used: nat, at: nat)
    requires from <= to <= target.Length
    modifies target
    ensures Proper(Next16(strict))
    ensures var o := Convert(Next16(strict), src, to - from);
            && result == o.result && used == o.used && at == from + |o.out|
            && target[..] == old(target[..])[..from] + o.out + old(target[..])[at..]
  {
    Next16Proper(strict);
    hide Proper, Next16, Holds, Grows, Convert, After;
    ghost var next, out: seq<Byte> := Next16(strict), [];
    ghost var goal := Convert(next, src, to - from);
    used, at := 0, from;
    assert src[0..] == src;
    AfterAfter(0, [], 0, [], goal);
    while used < |src|
      invariant used <= |src| && at == from + |out| && at <= to
      invariant target[..] == old(target[..])[..from] + out + old(target[..])[at..]
      invariant goal == After(used, out, Convert(next, src[used..], to - at))
    {
      Halts(next, src, used, out, to - at);
      ghost var more := if next(src[used..]).Emit? then next(src[used..]).out else [];
      var p := PutAsUtf8(src, used, target, at, to, strict);
      if p.Halt? {
        return p.reason, used, at;
      }
      Advance(next, src, used, p.read, more, out, to - at);
      Spliced(old(target[..]), from, out, more);
      out := out + more;
      used, at := used + p.read, at + p.written;
    }
    Halts(next, src, used, out, to - at);
    result := ConversionOk;
  }

  /** Every decoded value is a scalar value, so the checks on the value are not needed and not modelled. */
  method ConvertUTF8toUTF16(src: seq<Byte>, target: array<Unit>, from: nat, to: nat, ghost strict: bool)
    returns (result: Result, used: nat, at: nat)
    requires from <= to <= target.Length
    modifies target
    ensures Proper(Next8(strict))
    ensures var o := Convert(Next8(strict), src, to - from);
            && result == o.result && used == o.used && at == from + |o.out|
            && target[..] == old(target[..])[..from] + o.out + old(target[..])[at..]
  {
    Next8Proper(strict);
    hide Proper, Next8, Holds, Grows, Convert, After;
    ghost var next, out: seq<Unit> := Next8(strict), [];
    ghost var goal := Convert(next, src, to - from);
    used, at := 0, from;
    assert src[0..] == src;
    AfterAfter(0, [], 0, [], goal);
    while used < |src|
      invariant used <= |src| && at == from + |out| && at <= to
      invariant target[..] == old(target[..])[..from] + out + old(target[..])[at..]
      invariant goal == After(used, out, Convert(next, src[used..], to - at))
    {
      Halts(next, src, used, out, to - at);
      ghost var more := if next(src[used..]).Emit? then next(src[used..]).out else [];
      var p := PutAsUtf16(src, used, target, at, to, strict);
      if p.Halt? {
        return p.reason, used, at;
      }
      Advance(next, src, used, p.read, more, out, to - at);
      Spliced(old(target[..]), from, out, more);
      out := out + more;
      used, at := used + p.read, at + p.written;
    }
    Halts(next, src, used, out, to - at);
    result := ConversionOk;
  }

  // ----- Callers -----

  /** The conversion in `UTF16ToUTF8`: a target of four bytes a unit is never exhausted. */
  method ConvertWhole(src: seq<Unit>, buffer: seq<Byte>) returns (result: Result, target: array<Byte>)
    requires |buffer| == 4 * |src|
    ensures fresh(target) && target.Length == |buffer|
    ensures result != TargetExhausted && (result == ConversionOk <==> WellFormed16(src))
    ensures result == ConversionOk ==> |ToUtf8(src).out| <= 3 * |src| && target[..] == Filled(ToUtf8(src).out, buffer)
  {
    hide Proper, Next16, Next8, Convert, ConvertAll, Grows, Holds, WellFormed16, WellFormed8;
    target := new Byte[4 * |src|](i requires 0 <= i < 4 * |src| => buffer[i]);
    assert target[..] == buffer;
    var used, at;
    result, used, at := ConvertUTF16toUTF8(src, target, 0, target.Length, true);
    Next16Proper(true);
    ghost var next := Next16(true);
    OutputBound(next, src, 3);
    ExhaustedExactly(next, src, 4 * |src|);
    StopsOnBoundary(next, src, 4 * |src|);
    StrictAcceptsExactly(src);
  }

  /** The buffer once `out` has been written to its front. */
  function Filled(out: seq<Byte>, buffer: seq<Byte>): seq<Byte>
    requires |out| <= |buffer|
  {
    out + buffer[|out|..]
  }

  /** A C string: the bytes up to the first NUL, if there is one. */
  function UpToNul(bytes: seq<Byte>): (r: Option<seq<Byte>>)
    ensures r.Some? ==> |r.value| < |bytes| && bytes[..|r.value|] == r.value && bytes[|r.value|] == 0 && 0 !in r.value
    ensures r.None? <==> 0 !in bytes
  {
    if bytes == [] then None
    else if bytes[0] == 0 then Some([])
    else
      var rest := UpToNul(bytes[1..]);
      if rest.None? then None else Some([bytes[0]] + rest.value)
  }

  function Swap(u: Unit): (r: Unit)
    ensures r / 0x100 == u % 0x100 && r % 0x100 == u / 0x100
  {
    u % 0x100 * 0x100 + u / 0x100
  }

  function Swapped(units: seq<Unit>): (r: seq<Unit>)
    ensures |r| == |units|
  {
    seq(|units|, i requires 0 <= i < |units| => Swap(units[i]))
  }

  lemma SwappedTwice(units: seq<Unit>)
    ensures Swapped(Swapped(units)) == units
  {
    forall i | 0 <= i < |units| ensures Swap(Swap(units[i])) == units[i] {
      var u := units[i];
      assert u == u / 0x100 * 0x100 + u % 0x100;
    }
  }

  /** What `UTF16ToUTF8` makes of the units; `buffer` is what the new, uninitialised target holds. */
  function Utf8Text(buffer: seq<Byte>, out: seq<Byte>, ok: bool): (r: Option<seq<Byte>>)
    requires ok ==> |out| <= |buffer|
  {
    if ok then UpToNul(Filled(out, buffer)) else Some([])
  }

  /**
    `UTF16ToUTF8`: the target is read as a C string although nothing ends it, so the result depends on what the target
    held before; without any NUL in it, reading goes on past its end, which is `None` here.
   */
  method UTF16ToUTF8(units: seq<Unit>, swap: bool, buffer: seq<Byte>) returns (text: Option<seq<Byte>>)
    requires |buffer| == 4 * |units|
    ensures var src := if swap then Swapped(units) else units;
      && (WellFormed16(src) ==> |ToUtf8(src).out| <= |buffer|)
      && text == Utf8Text(buffer, ToUtf8(src).out, WellFormed16(src))
  {
    hide WellFormed16, ToUtf8;
    var src := units;
    if swap {
      src := SwapAll(units);
    }
    var result, target := ConvertWhole(src, buffer);
    if result == ConversionOk {
      text := ReadString(target);
    } else {
      text := Some([]);
    }
  }

  method SwapAll(units: seq<Unit>) returns (r: seq<Unit>)
    ensures r == Swapped(units)
  {
    r := [];
    for i := 0 to |units|
      invariant r == Swapped(units)[..i]
    {
      r := r + [Swap(units[i])];
    }
  }

  method ReadString(bytes: array<Byte>) returns (text: Option<seq<Byte>>)
    ensures text == UpToNul(bytes[..])
  {
    ghost var s := bytes[..];
    for i := 0 to bytes.Length
      invariant 0 !in s[..i]
    {
      if bytes[i] == 0 {
        NulAt(s, i);
        return Some(bytes[..i]);
      }
    }
    assert s[..bytes.Length] == s;
    return None;
  }

  lemma {:induction false} NulAt(s: seq<Byte>, i: nat)
    requires i < |s| && s[i] == 0 && 0 !in s[..i]
    ensures UpToNul(s) == Some(s[..i])
  {
    if i > 0 {
      assert s[0] == s[..i][0] && s[..i] == [s[0]] + s[1..][..i - 1];
      NulAt(s[1..], i - 1);
    }
  }

  /** A NUL byte comes from a NUL unit and from nothing else. */
  lemma {:induction false} NulFromNul(src: seq<Unit>)
    requires WellFormed16(src)
    ensures 0 in ToUtf8(src).out <==> 0 in src
    decreases |src|
  {
    hide Next16, Proper, WellFormed16, ConvertAll, Bytes, Units, ToUtf8;
    if src == [] {
      NothingConverted();
    } else {
      var ch, n := FirstCharacter(src);
      NulFromNul(src[n..]);
      ConvertedFirst(src, n, Bytes(ch));
      NulCharacter(ch);
      assert src == src[..n] + src[n..];
    }
  }

  lemma NothingConverted()
    ensures ToUtf8([]).out == []
  {
    Next16Proper(true);
  }

  lemma ConvertedFirst(src: seq<Unit>, n: nat, bytes: seq<Byte>)
    requires src != [] && Next16(true)(src) == Emit(n, bytes)
    ensures 0 < n <= |src| && ToUtf8(src).out == bytes + ToUtf8(src[n..]).out
  {
    hide Next16, Proper, ConvertAll;
    Next16Proper(true);
    ConvertAllEmits(Next16(true), src, n, bytes);
  }

  lemma NulCharacter(ch: nat)
    requires Scalar(ch)
    ensures 0 in Bytes(ch) <==> 0 in Units(ch)
  {
    assert ch == 0 ==> Bytes(ch) == [0] && Units(ch) == [0];
    if ch != 0 {
      assert 0 !in Units(ch);
    }
  }

  /**
    The text comes back whole exactly when it holds no NUL and the byte of the target after it happened to be NUL; the
    empty text, for which the target has no room at all, never does.
   */
  lemma WholeTextExactly(src: seq<Unit>, buffer: seq<Byte>)
    requires WellFormed16(src) && |buffer| == 4 * |src|
    ensures var out := ToUtf8(src).out;
      && |out| <= 3 * |src|
      && (Utf8Text(buffer, out, true) == Some(out) <==> src != [] && 0 !in src && buffer[|out|] == 0)
  {
    Utf16RoundTrips(src);
    NulFromNul(src);
    hide WellFormed16, WellFormed8, ToUtf8, ToUtf16;
    var out := ToUtf8(src).out;
    var whole := Filled(out, buffer);
    if src != [] {
      assert whole[|out|] == buffer[|out|] && whole[..|out|] == out;
      if 0 !in out && buffer[|out|] == 0 {
        NulAt(whole, |out|);
      }
    }
  }

  /** A one-letter text in a target that held no NUL: the string runs past the end of the target. */
  lemma UnendedText()
    ensures WellFormed16([0x41]) && Utf8Text([1, 1, 1, 1], ToUtf8([0x41]).out, true) == None
  {
    var src := [0x41];
    assert src[1..] == [];
    assert WellFormed16(src[1..]);
    var ch, n := FirstCharacter(src);
    ConvertedFirst(src, 1, [0x41]);
    NothingConverted();
  }

  /**
    `UTF8ToUTF16Char`: widen the window byte by byte until a conversion succeeds. Gives the length of the
    first character when it is legal and within the input (one byte is looked at in any case), else 0.
   */
  method UTF8ToUTF16Char(input: seq<Byte>, length: nat) returns (n: nat, out: seq<Unit>)
    requires input != [] && length <= |input|
    ensures var first := TrailingBytes(input[0]) + 1;
            if (first == 1 || first <= length) && first <= |input| && IsLegal(input[..first])
            then n == first && out == Units(Value(input[..first]))
            else n == 0
  {
    hide IsLegal, Units, Value, Convert, Proper, Next8;
    var target := new Unit[4](_ => 0);
    var at := 0;
    var end := 1;
    ghost var first := TrailingBytes(input[0]) + 1;
    while true
      invariant 1 <= end <= |input| && at == 0 && (end == 1 || end <= length)
      invariant end <= first || !IsLegal(input[..first])
      invariant end > first ==> first <= |input|
      decreases |input| - end
    {
      var result, used;
      result, used, at := ConvertUTF8toUTF16(input[..end], target, at, 4, true);
      Window(input, end);
      if result == ConversionOk {
        return used, target[..at];
      }
      end := end + 1;
      if end > length {
        break;
      }
    }
    return 0, [];
  }

  /** A window up to the first character's length converts exactly when it is that character. */
  lemma Window(input: seq<Byte>, end: nat)
    requires 1 <= end <= |input| && Proper(Next8(true))
    requires var first := TrailingBytes(input[0]) + 1;
             end <= first || (first <= |input| && !IsLegal(input[..first]))
    ensures var first := TrailingBytes(input[0]) + 1;
            var o := Convert(Next8(true), input[..end], 4);
            if end == first && IsLegal(input[..first])
            then o == Outcome(ConversionOk, first, Units(Value(input[..first])))
            else o.result != ConversionOk && o.out == []
  {
    var first := TrailingBytes(input[0]) + 1;
    var s := input[..end];
    WindowHead(input, end);
    assert s[0..] == s;
    Halts(Next8(true), s, 0, [], 4);
    if end == first && IsLegal(input[..first]) {
      var us := Units(Value(input[..first]));
      UnitCount(Value(input[..first]));
      Advance(Next8(true), s, 0, first, us, [], 4);
      Halts(Next8(true), s, first, us, 4 - |us|);
    }
    hide *;
    AfterAfter(0, [], 0, [], Convert(Next8(true), s, 4));
  }

  lemma WindowHead(input: seq<Byte>, end: nat)
    requires 1 <= end <= |input|
    ensures var first := TrailingBytes(input[0]) + 1;
            Next8(true)(input[..end]) ==
            if first > end then Stop(SourceExhausted)
            else if IsLegal(input[..first]) then Emit(first, Units(Value(input[..first])))
            else Stop(SourceIllegal)
  {
    FlagMakesNoDifference(true, input[..end]);
    hide Next8, Units, Value, IsLegal;
    var first := TrailingBytes(input[0]) + 1;
    if first <= end {
      assert input[..end][..first] == input[..first];
    }
  }
}
