/**
  `Module::LookupAddress`: a frame is named from the FUNC ranges, the PUBLIC symbols, the line
  table of the function found and the two tables of stack information.
 */
module SymbolLookup {
  import opened Addresses
  import opened Wrappers
  import opened RangeMaps
  import C = ContainedRanges
  import H = ContainedRangeMaps

  datatype Line = Line(sourceFileId: int, line: int)
  datatype Function = Function(name: string, parameterSize: int, lines: seq<Range<Line>>)
  datatype PublicSymbol = PublicSymbol(name: string, parameterSize: int)
  datatype WindowsFrameInfo = WindowsFrameInfo(validParameterSize: bool, parameterSize: int, program: string)

  /** What names an address, with the base address reported for it. */
  datatype Naming =
    | ByFunction(func: Function, base: Address)
    | ByPublic(symbol: PublicSymbol, base: Address)
    | Unnamed

  /** The decision as the code takes it, sums wrapping around. */
  function NameFor(fs: seq<Range<Function>>, ps: seq<Symbol<PublicSymbol>>, address: Address): (n: Naming) {
    var near := RetrieveNearest(fs, address);
    if near.Some? && address >= near.value.base && address < Wrap(near.value.base + near.value.size) then
      ByFunction(near.value.entry, near.value.base)
    else
      var p := Predecessor(ps, address);
      if p.Some? && (near.None? || p.value.address > Wrap(near.value.base + near.value.size)) then
        ByPublic(p.value.entry, p.value.address)
      else
        Unnamed
  }

  lemma WrapBack(instruction: Address, base: Address)
    ensures Wrap(base + Wrap(instruction - base)) == instruction
  {
    assert Wrap(instruction - base) == if base <= instruction then instruction - base else instruction - base + LIMIT;
  }

  class StackFrame {
    const instruction: Address
    const moduleBase: Address
    var functionName: string
    var functionBase: Address
    var sourceFileName: string
    var sourceLine: int
    var sourceLineBase: Address

    constructor (instruction: Address, moduleBase: Address) {
      this.instruction, this.moduleBase := instruction, moduleBase;
      functionName, functionBase := "", 0;
      sourceFileName, sourceLine, sourceLineBase := "", 0, 0;
    }

    /** The instruction counted from the start of its module. */
    function Relative(): (a: Address)
      ensures Wrap(moduleBase + a) == instruction
      ensures moduleBase <= instruction ==> moduleBase + a == instruction
    {
      WrapBack(instruction, moduleBase);
      Wrap(instruction - moduleBase)
    }
  }

  class Module {
    const files: map<int, string>
    const functions: RangeMap<Function>
    const publicSymbols: AddressMap<PublicSymbol>
    const frameData: H.ContainedRangeMap<WindowsFrameInfo>
    const fpo: H.ContainedRangeMap<WindowsFrameInfo>

    constructor (files: map<int, string>, functions: RangeMap<Function>, publicSymbols: AddressMap<PublicSymbol>,
                 frameData: H.ContainedRangeMap<WindowsFrameInfo>, fpo: H.ContainedRangeMap<WindowsFrameInfo>)
      ensures this.files == files && this.functions == functions && this.publicSymbols == publicSymbols
      ensures this.frameData == frameData && this.fpo == fpo
    {
      this.files, this.functions, this.publicSymbols := files, functions, publicSymbols;
      this.frameData, this.fpo := frameData, fpo;
    }

    ghost predicate Valid()
      reads functions, publicSymbols, frameData, frameData.Repr, fpo, fpo.Repr
    {
      functions.Valid() && publicSymbols.Valid() && frameData.Valid() && fpo.Valid()
    }

    ghost function Named(address: Address): Naming
      reads functions, publicSymbols
    {
      NameFor(functions.map_, publicSymbols.map_, address)
    }

    /** The stack information found: frame data first, frame pointer omission data otherwise. */
    ghost function StackInfo(address: Address): Option<WindowsFrameInfo>
      reads frameData, fpo
    {
      var d := C.Retrieve(frameData.Shape(), address);
      if d.Some? then d else C.Retrieve(fpo.Shape(), address)
    }

    method LookupAddress(frame: StackFrame) returns (info: Option<WindowsFrameInfo>)
      requires Valid()
      modifies frame
      ensures info == var s := StackInfo(frame.Relative());
                      if s.Some? then s else
                        match Named(frame.Relative())
                        case ByFunction(f, _) => Some(WindowsFrameInfo(true, f.parameterSize, ""))
                        case ByPublic(p, _) => Some(WindowsFrameInfo(true, p.parameterSize, ""))
                        case Unnamed => None
      ensures Filled(frame, Named(frame.Relative()), old(frame.functionName), old(frame.functionBase),
                     old(frame.sourceFileName), old(frame.sourceLine), old(frame.sourceLineBase))
      // in the addresses of the process: where no sum wraps around, a stored function names the instructions inside it
      ensures forall r | r in functions.map_ && Loaded(frame, r) && r.high < LIMIT - 1 ::
                frame.functionName == r.entry.name && frame.functionBase == frame.moduleBase + r.base
      ensures forall r, l | r in functions.map_ && Loaded(frame, r) && r.high < LIMIT - 1
                && Ordered(r.entry.lines) && l in r.entry.lines && Loaded(frame, l) ::
                frame.sourceLine == l.entry.line && frame.sourceLineBase == frame.moduleBase + l.base
    {
      forall r | r in functions.map_ && Loaded(frame, r) && r.high < LIMIT - 1
        ensures Named(frame.Relative()) == ByFunction(r.entry, r.base)
      {
        LoadedNaming(frame, r);
      }
      forall r, l | r in functions.map_ && Ordered(r.entry.lines) && l in r.entry.lines && Loaded(frame, l)
        ensures Retrieve(r.entry.lines, frame.Relative()) == Some(Found(l.entry, l.base, l.high - l.base + 1))
      {
        RetrieveCorrect(r.entry.lines, frame.Relative());
      }
      info := FindStackInfo(frame.Relative());
      var parameterSize := FillFrame(frame);
      if parameterSize.None? {
        return;
      }
      if info.None? {
        info := Some(WindowsFrameInfo(true, parameterSize.value, ""));
      }
    }

    method FindStackInfo(address: Address) returns (info: Option<WindowsFrameInfo>)
      requires Valid()
      ensures info == StackInfo(address)
    {
      info := frameData.RetrieveRange(address);
      if info.None? {
        info := fpo.RetrieveRange(address);
      }
    }

    /** Names the frame; returns the parameter size of what named it, nothing when nothing did. */
    method FillFrame(frame: StackFrame) returns (parameterSize: Option<int>)
      requires functions.Valid() && publicSymbols.Valid()
      modifies frame
      ensures Filled(frame, Named(frame.Relative()), old(frame.functionName), old(frame.functionBase),
                     old(frame.sourceFileName), old(frame.sourceLine), old(frame.sourceLineBase))
      ensures parameterSize == match Named(frame.Relative())
                               case ByFunction(f, _) => Some(f.parameterSize)
                               case ByPublic(p, _) => Some(p.parameterSize)
                               case Unnamed => None
    {
      var n := NameAddress(frame.Relative());
      match n
      case ByFunction(func, base) =>
        parameterSize := Some(func.parameterSize);
        frame.functionName := func.name;
        frame.functionBase := Wrap(frame.moduleBase + base);
        FillLine(frame, func);
      case ByPublic(symbol, base) =>
        parameterSize := Some(symbol.parameterSize);
        frame.functionName := symbol.name;
        frame.functionBase := Wrap(frame.moduleBase + base);
      case Unnamed =>
        parameterSize := None;
    }

    /** First a matching FUNC range, then the nearest PUBLIC symbol. */
    method NameAddress(address: Address) returns (n: Naming)
      requires functions.Valid() && publicSymbols.Valid()
      ensures n == Named(address)
    {
      var near := functions.RetrieveNearestRange(address);
      if near.Some? && address >= near.value.base && address < Wrap(near.value.base + near.value.size) {
        return ByFunction(near.value.entry, near.value.base);
      }
      var p := publicSymbols.Retrieve(address);
      if p.Some? && (near.None? || p.value.address > Wrap(near.value.base + near.value.size)) {
        return ByPublic(p.value.entry, p.value.address);
      }
      return Unnamed;
    }

    method FillLine(frame: StackFrame, func: Function)
      modifies frame`sourceFileName, frame`sourceLine, frame`sourceLineBase
      ensures LineFilled(frame, func, old(frame.sourceFileName), old(frame.sourceLine), old(frame.sourceLineBase))
    {
      var line := Retrieve(func.lines, frame.Relative());
      if line.Some? {
        if line.value.entry.sourceFileId in files {
          frame.sourceFileName := files[line.value.entry.sourceFileId];
        }
        frame.sourceLine := line.value.entry.line;
        frame.sourceLineBase := Wrap(frame.moduleBase + line.value.base);
      }
    }

    /** The range, in the module as it is loaded, lies below the last address and contains the instruction. */
    ghost predicate Loaded<E>(frame: StackFrame, r: Range<E>) {
      && frame.moduleBase + r.high < LIMIT
      && frame.moduleBase + r.base <= frame.instruction <= frame.moduleBase + r.high
    }

    lemma LoadedNaming(frame: StackFrame, r: Range<Function>)
      requires functions.Valid() && r in functions.map_ && Loaded(frame, r) && r.high < LIMIT - 1
      ensures Named(frame.Relative()) == ByFunction(r.entry, r.base)
    {
      hide NameFor;
      assert r in Elements(functions.map_);
      CoveredNaming(functions.map_, publicSymbols.map_, frame.Relative(), r);
    }

    /** Every field of the frame after a lookup, from the naming and the values it had before. */
    ghost predicate Filled(frame: StackFrame, n: Naming,
                           name: string, base: Address, file: string, line: int, lineBase: Address)
      reads frame
    {
      match n
      case ByFunction(f, b) =>
        && frame.functionName == f.name && frame.functionBase == Wrap(frame.moduleBase + b)
        && LineFilled(frame, f, file, line, lineBase)
      case ByPublic(p, b) =>
        && frame.functionName == p.name && frame.functionBase == Wrap(frame.moduleBase + b)
        && frame.sourceFileName == file && frame.sourceLine == line && frame.sourceLineBase == lineBase
      case Unnamed =>
        && frame.functionName == name && frame.functionBase == base
        && frame.sourceFileName == file && frame.sourceLine == line && frame.sourceLineBase == lineBase
    }

    /** Line fields come from the line range that contains the address, and stay as they were without one. */
    ghost predicate LineFilled(frame: StackFrame, f: Function, file: string, line: int, base: Address)
      reads frame
    {
      match Retrieve(f.lines, frame.Relative())
      case None => frame.sourceFileName == file && frame.sourceLine == line && frame.sourceLineBase == base
      case Some(l) =>
        && frame.sourceLine == l.entry.line && frame.sourceLineBase == Wrap(frame.moduleBase + l.base)
        && frame.sourceFileName == if l.entry.sourceFileId in files then files[l.entry.sourceFileId] else file
    }
  }

  // ----- What the decision amounts to -----

  /** `r.high + size` does not wrap, the sum the code forms for an address above `r`. */
  predicate NoWrap<E>(r: Range<E>) {
    r.high + (r.high - r.base + 1) < LIMIT
  }

  /**
    The address lies above function `r`, the nearest below, but within one function size of its
    high address. The reported base of the nearest function is its high address, so the code takes
    such an address to be inside `r`.
   */
  predicate Shadowed<E>(r: Range<E>, address: Address) {
    NoWrap(r) && address < r.high + (r.high - r.base + 1)
  }

  /** The sum the code compares with, wrapped around if need be. */
  function Bound<E>(r: Range<E>): (a: Address)
    requires r.base <= r.high
    ensures NoWrap(r) <==> r.high < a
  {
    Wrap(r.high + (r.high - r.base + 1))
  }

  /** A covered address: the containing function names it unless that function ends at the last address. */
  lemma CoveredNaming(fs: seq<Range<Function>>, ps: seq<Symbol<PublicSymbol>>, address: Address, r: Range<Function>)
    requires Ordered(fs) && Holds(Elements(fs), address, r)
    ensures r.high < LIMIT - 1 ==> NameFor(fs, ps, address) == ByFunction(r.entry, r.base)
    ensures r.high == LIMIT - 1 ==> !NameFor(fs, ps, address).ByFunction?
    ensures r.high == LIMIT - 1 && Ascending(ps) ==>
              forall p | HighestAtOrBelow(ps, address, p) ::
                NameFor(fs, ps, address) == if p.address > 0 then ByPublic(p.entry, p.address) else Unnamed
  {
    hide Retrieve, Predecessor;
    RetrieveCorrect(fs, address);
    assert RetrieveNearest(fs, address) == Some(Found(r.entry, r.base, r.high - r.base + 1));
    assert Wrap(r.high + 1) == if r.high == LIMIT - 1 then 0 else r.high + 1;
    if Ascending(ps) {
      PredecessorCorrect(ps, address);
    }
  }

  /** An uncovered address with no function below it: the highest PUBLIC symbol, if any, names it. */
  lemma NothingBelowNaming(fs: seq<Range<Function>>, ps: seq<Symbol<PublicSymbol>>, address: Address)
    requires Ordered(fs) && Ascending(ps) && forall s | s in fs :: address < s.base
    ensures var n := NameFor(fs, ps, address);
            && !n.ByFunction?
            && (n.Unnamed? <==> forall p | p in ps :: address < p.address)
            && forall p | HighestAtOrBelow(ps, address, p) :: n == ByPublic(p.entry, p.address)
  {
    var r := NearestBelow(fs, address);
    PredecessorCorrect(ps, address);
  }

  /** An uncovered address with `r` the nearest function below it. */
  lemma BelowNaming(fs: seq<Range<Function>>, ps: seq<Symbol<PublicSymbol>>, address: Address, r: Range<Function>)
    requires Ordered(fs) && Ascending(ps) && Uncovered(Elements(fs), address) && HighestBelow(Elements(fs), address, r)
    ensures Shadowed(r, address) ==> NameFor(fs, ps, address) == ByFunction(r.entry, r.high)
    ensures !Shadowed(r, address) ==> !NameFor(fs, ps, address).ByFunction?
    ensures !Shadowed(r, address) ==>
              forall p | HighestAtOrBelow(ps, address, p) ::
                NameFor(fs, ps, address) == if Bound(r) < p.address then ByPublic(p.entry, p.address) else Unnamed
  {
    hide RetrieveNearest, Predecessor;
    var q := NearestBelow(fs, address);
    OneHigh(fs, r, q.value);
    PredecessorCorrect(ps, address);
    if !NoWrap(r) {
      assert Wrap(r.high + (r.high - r.base + 1)) == r.high + (r.high - r.base + 1) - LIMIT;
    }
  }

  /**
    The documented promise, "a FUNC is named exactly when some stored function contains the
    address", holds at an address if and only if the address is neither inside a function that ends
    at the last address nor shadowed by the nearest function below it.
   */
  lemma FunctionPromiseExactly(fs: seq<Range<Function>>, ps: seq<Symbol<PublicSymbol>>, address: Address)
    requires Ordered(fs) && Ascending(ps)
    ensures (NameFor(fs, ps, address).ByFunction? <==> !Uncovered(Elements(fs), address)) <==>
            && (forall r | Holds(Elements(fs), address, r) :: r.high < LIMIT - 1)
            && (Uncovered(Elements(fs), address) ==>
                  forall r | HighestBelow(Elements(fs), address, r) :: !Shadowed(r, address))
  {
    if Uncovered(Elements(fs), address) {
      var q := NearestBelow(fs, address);
      if q.None? {
        NothingBelowNaming(fs, ps, address);
      } else {
        BelowNaming(fs, ps, address, q.value);
        forall r | HighestBelow(Elements(fs), address, r) ensures r == q.value {
          OneHigh(fs, r, q.value);
        }
      }
    } else {
      var r :| r in Elements(fs) && r.Contains(address);
      CoveredNaming(fs, ps, address, r);
      forall s | Holds(Elements(fs), address, s) ensures s == r {
        RetrieveCorrect(fs, address);
        assert s.high == r.high;
        OneHigh(fs, s, r);
      }
    }
  }

  /** No stored function meets the interval from `p` to the address. */
  ghost predicate Clear(fs: seq<Range<Function>>, p: Symbol<PublicSymbol>, address: Address) {
    forall r | r in fs :: r.Disjoint(p.address, address)
  }

  /** The PUBLIC symbol `p` is not used although no function comes between it and the address. */
  ghost predicate Missed(fs: seq<Range<Function>>, p: Symbol<PublicSymbol>, address: Address) {
    Uncovered(Elements(fs), address) &&
    exists r | HighestBelow(Elements(fs), address, r) :: r.base <= r.high && r.high < p.address <= Bound(r)
  }

  /** It is used although a function comes between: the code's sum for that function has wrapped around. */
  ghost predicate Misused(fs: seq<Range<Function>>, p: Symbol<PublicSymbol>, address: Address) {
    || (p.address > 0 && exists r | Holds(Elements(fs), address, r) :: r.high == LIMIT - 1)
    || (Uncovered(Elements(fs), address) &&
        exists r | HighestBelow(Elements(fs), address, r) :: r.base <= r.high && Bound(r) < p.address <= r.high)
  }

  lemma CoveredPublic(fs: seq<Range<Function>>, ps: seq<Symbol<PublicSymbol>>, address: Address,
      p: Symbol<PublicSymbol>)
    requires Ordered(fs) && Ascending(ps) && HighestAtOrBelow(ps, address, p) && !Uncovered(Elements(fs), address)
    ensures !Clear(fs, p, address) && !Missed(fs, p, address)
    ensures NameFor(fs, ps, address) == ByPublic(p.entry, p.address) <==> Misused(fs, p, address)
  {
    var r :| r in Elements(fs) && r.Contains(address);
    CoveredNaming(fs, ps, address, r);
    assert !r.Disjoint(p.address, address);
    forall s | Holds(Elements(fs), address, s) ensures s == r {
      RetrieveCorrect(fs, address);
      OneHigh(fs, s, r);
    }
  }

  lemma BelowPublic(fs: seq<Range<Function>>, ps: seq<Symbol<PublicSymbol>>, address: Address,
      p: Symbol<PublicSymbol>, r: Range<Function>)
    requires Ordered(fs) && Ascending(ps) && HighestAtOrBelow(ps, address, p)
    requires Uncovered(Elements(fs), address) && HighestBelow(Elements(fs), address, r)
    ensures Clear(fs, p, address) <==> r.high < p.address
    ensures NameFor(fs, ps, address) == ByPublic(p.entry, p.address) <==> Bound(r) < p.address
    ensures Missed(fs, p, address) <==> r.high < p.address <= Bound(r)
    ensures Misused(fs, p, address) <==> Bound(r) < p.address <= r.high
  {
    hide NameFor;
    BelowNaming(fs, ps, address, r);
    forall q | HighestBelow(Elements(fs), address, q) ensures q == r {
      OneHigh(fs, q, r);
    }
    if r.high < p.address {
      forall q | q in fs ensures q.Disjoint(p.address, address) {
        assert q in Elements(fs) && !q.Contains(address);
      }
    }
  }

  /**
    "A PUBLIC is used exactly when no stored function meets the interval from it to the address": for the highest
    symbol at or below the address this holds if and only if the symbol is neither missed nor misused.
   */
  lemma PublicPromiseExactly(fs: seq<Range<Function>>, ps: seq<Symbol<PublicSymbol>>, address: Address,
      p: Symbol<PublicSymbol>)
    requires Ordered(fs) && Ascending(ps) && HighestAtOrBelow(ps, address, p)
    ensures (NameFor(fs, ps, address) == ByPublic(p.entry, p.address) <==> Clear(fs, p, address)) <==>
            !Missed(fs, p, address) && !Misused(fs, p, address)
    ensures NameFor(fs, ps, address) == ByPublic(p.entry, p.address) && !Clear(fs, p, address) <==>
            Misused(fs, p, address)
  {
    hide NameFor, Clear, Missed, Misused, Uncovered;
    if !Uncovered(Elements(fs), address) {
      CoveredPublic(fs, ps, address, p);
    } else {
      var q := NearestBelow(fs, address);
      if q.Some? {
        BelowPublic(fs, ps, address, p, q.value);
      } else {
        AbovePublic(fs, ps, address, p);
      }
    }
  }

  lemma AbovePublic(fs: seq<Range<Function>>, ps: seq<Symbol<PublicSymbol>>, address: Address, p: Symbol<PublicSymbol>)
    requires Ordered(fs) && Ascending(ps) && HighestAtOrBelow(ps, address, p) && forall s | s in fs :: address < s.base
    ensures NameFor(fs, ps, address) == ByPublic(p.entry, p.address)
    ensures Clear(fs, p, address) && !Missed(fs, p, address) && !Misused(fs, p, address)
  {
    hide NameFor;
    NothingBelowNaming(fs, ps, address);
  }

  /** A PUBLIC that is named is the highest at or below, and no function comes between unless a sum wrapped around. */
  lemma PublicIsSound(fs: seq<Range<Function>>, ps: seq<Symbol<PublicSymbol>>, address: Address)
    requires Ordered(fs) && Ascending(ps) && NameFor(fs, ps, address).ByPublic?
    ensures var n := NameFor(fs, ps, address); var p := Symbol(n.base, n.symbol);
            HighestAtOrBelow(ps, address, p) && (Clear(fs, p, address) <==> !Misused(fs, p, address))
  {
    PredecessorCorrect(ps, address);
    var n := NameFor(fs, ps, address);
    PublicPromiseExactly(fs, ps, address, Symbol(n.base, n.symbol));
  }

  /** The converse fails: no function meets [symbol, address], yet the PUBLIC symbol is not used. */
  lemma PublicCanBeMissed() returns (fs: seq<Range<Function>>, ps: seq<Symbol<PublicSymbol>>, address: Address)
    ensures Ordered(fs) && Ascending(ps) && |ps| == 1 && ps[0].address <= address
    ensures forall r | r in fs :: NoWrap(r) && r.Disjoint(ps[0].address, address)
    ensures NameFor(fs, ps, address) == Unnamed
  {
    fs := [Range(0x1000, 0x100f, Function("f", 0, []))];
    ps := [Symbol(0x1015, PublicSymbol("p", 0))];
    address := 0x1030;
    var r := fs[0];
    assert r in Elements(fs);
    assert HighestBelow(Elements(fs), address, r);
    assert HighestAtOrBelow(ps, address, ps[0]);
    BelowNaming(fs, ps, address, r);
  }

  /** The function-containment promise fails one byte past the end of a function. */
  lemma FunctionPastItsEnd() returns (fs: seq<Range<Function>>, address: Address)
    ensures Ordered(fs) && Uncovered(Elements(fs), address)
    ensures forall ps | Ascending(ps) :: NameFor(fs, ps, address).ByFunction?
  {
    fs := [Range(0x1000, 0x100f, Function("f", 0, []))];
    address := 0x1010;
    assert fs[0] in Elements(fs);
    assert HighestBelow(Elements(fs), address, fs[0]);
    forall ps | Ascending(ps) ensures NameFor(fs, ps, address).ByFunction? {
      BelowNaming(fs, ps, address, fs[0]);
    }
  }
}
