/** `itemString`: the loop over the passes that are switched on. */
module ItemStrings {
  import opened Items
  import opened Passes

  datatype PostProcessor =
    | InternalsPass(internals: FilterQtInternalsPostProcessor)
    | NoMovesPass(noMoves: StripMouseMovementsPostProcessor)
    | MovesPass(moves: SimplifyMouseMovementsPostProcessor)
    | KeysPass(keys: SimplifyStringsPostProcessor)
    | ObjectsPass(objects: ObjectVariablesPostProcessor)
    | StringsPass(strings: StringVariablesPostProcessor)
  {
    function Footprint(): set<object> {
      match this
      case ObjectsPass(p) => {p}
      case StringsPass(p) => {p}
      case _ => {}
    }

    ghost predicate Serves(inserter: Inserter, letterOrNumber: char -> bool) {
      match this
      case InternalsPass(p) => p.internalClasses == {"QShapedPixmapWidget"}
      case NoMovesPass(p) => true
      case MovesPass(p) => p.inserter == inserter
      case KeysPass(p) => p.inserter == inserter
      case ObjectsPass(p) => p.inserter == inserter && p.letterOrNumber == letterOrNumber
      case StringsPass(p) => p.inserter == inserter
    }

    ghost function Now(): Processor
      reads Footprint()
    {
      match this
      case InternalsPass(_) => Internals
      case NoMovesPass(_) => NoMoves
      case MovesPass(_) => Moves
      case KeysPass(_) => Keys
      case ObjectsPass(p) => Objects(p.variables)
      case StringsPass(p) => Strings(p.variables)
    }

    method Process(item: Item, rest: ItemList, inserter: Inserter, letterOrNumber: char -> bool) returns (r: Item)
      requires Serves(inserter, letterOrNumber) && rest != inserter.rootList
      modifies Footprint(), rest, inserter, inserter.rootList
      ensures Stepped(Now(), r, rest.items, inserter.Now())
           == old(Step(letterOrNumber, Now(), item, rest.items, inserter.Now()))
    {
      match this
      case InternalsPass(p) => r := p.Process(item, rest, inserter);
      case NoMovesPass(p) => r := p.Process(item, rest, inserter);
      case MovesPass(p) => r := p.Process(item, rest);
      case KeysPass(p) => r := p.Process(item, rest);
      case ObjectsPass(p) => r := p.Process(item, rest);
      case StringsPass(p) => r := p.Process(item, rest);
    }
  }

  /** The body of the loop over the passes. */
  method RunPass(p: PostProcessor, input: ItemList, inserter: Inserter, letterOrNumber: char -> bool)
    requires p.Serves(inserter, letterOrNumber) && input != inserter.rootList
    modifies p.Footprint(), input, inserter, inserter.rootList
    ensures inserter.Now() == old(Pass(letterOrNumber, p.Now(), input.items, inserter.Now().Clear()).Reset())
    ensures input.items == inserter.rootList.items
  {
    var out := inserter.rootList;
    ghost var whole := Pass(letterOrNumber, p.Now(), input.items, inserter.Now().Clear());
    out.items := [];
    while input.items != []
      invariant Pass(letterOrNumber, p.Now(), input.items, inserter.Now()) == whole
      decreases |input.items|
    {
      var item := input.items[0];
      input.items := input.items[1..];
      item := p.Process(item, input, inserter, letterOrNumber);
      if IsValid(item) {
        out.items := out.items + [item];
      }
      inserter.Next();
    }
    input.items := out.items;
    inserter.Reset();
  }

  /** The flags of `XmlToQtScript::Option`. */
  datatype Options = Options(
    filterQtInternals: bool, skipMouseMovements: bool, simplifyMouseMovements: bool,
    simplifyStrings: bool, objectVariables: bool, stringVariables: bool)

  /** The passes before those that introduce variables, in the order they run. */
  function Earlier(options: Options): seq<Processor> {
    (if options.filterQtInternals then [Internals] else [])
    + (if options.skipMouseMovements then [NoMoves] else [])
    + (if options.simplifyMouseMovements then [Moves] else [])
    + (if options.simplifyStrings then [Keys] else [])
  }

  function Chosen(options: Options): seq<Processor> {
    Earlier(options)
    + (if options.objectVariables then [Objects(map[])] else [])
    + (if options.stringVariables then [Strings([])] else [])
  }

  const START := Output([], 0, -1, 0)

  /** The processors are those of the passes, new and ready. */
  ghost predicate Prepared(ps: seq<PostProcessor>, chosen: seq<Processor>, inserter: Inserter,
      letterOrNumber: char -> bool)
    reads Footprints(ps)
  {
    && |ps| == |chosen|
    && (forall k | 0 <= k < |ps| :: ps[k].Serves(inserter, letterOrNumber))
    && (forall k | 0 <= k < |ps| :: ps[k].Now() == chosen[k])
  }

  method EarlierPostProcessors(options: Options, inserter: Inserter, letterOrNumber: char -> bool)
    returns (ps: seq<PostProcessor>)
    ensures Prepared(ps, Earlier(options), inserter, letterOrNumber)
    ensures forall k | 0 <= k < |ps| :: ps[k].Footprint() == {}
  {
    ps := [];
    if options.filterQtInternals {
      var p := new FilterQtInternalsPostProcessor();
      ps := ps + [InternalsPass(p)];
    }
    if options.skipMouseMovements {
      var p := new StripMouseMovementsPostProcessor();
      ps := ps + [NoMovesPass(p)];
    }
    if options.simplifyMouseMovements {
      var p := new SimplifyMouseMovementsPostProcessor(inserter);
      ps := ps + [MovesPass(p)];
    }
    if options.simplifyStrings {
      var p := new SimplifyStringsPostProcessor(inserter);
      ps := ps + [KeysPass(p)];
    }
  }

  /** The list of passes that are switched on. */
  method PostProcessors(options: Options, inserter: Inserter, letterOrNumber: char -> bool)
    returns (ps: seq<PostProcessor>)
    ensures Prepared(ps, Chosen(options), inserter, letterOrNumber)
    ensures forall k | 0 <= k < |ps| :: fresh(ps[k].Footprint())
    ensures forall k, l | 0 <= k < l < |ps| :: ps[k].Footprint() !! ps[l].Footprint()
  {
    hide Earlier;
    ps := EarlierPostProcessors(options, inserter, letterOrNumber);
    if options.objectVariables {
      var p := new ObjectVariablesPostProcessor(inserter, letterOrNumber);
      ps := ps + [ObjectsPass(p)];
    }
    if options.stringVariables {
      var p := new StringVariablesPostProcessor(inserter);
      ps := ps + [StringsPass(p)];
    }
  }

  ghost function Footprints(ps: seq<PostProcessor>): set<object> {
    set k, x | 0 <= k < |ps| && x in ps[k].Footprint() :: x
  }

  /** The loop over the passes. */
  method RunPasses(ps: seq<PostProcessor>, input: ItemList, inserter: Inserter, letterOrNumber: char -> bool,
      ghost chosen: seq<Processor>)
    requires input != inserter.rootList && Prepared(ps, chosen, inserter, letterOrNumber)
    requires forall k, l | 0 <= k < l < |ps| :: ps[k].Footprint() !! ps[l].Footprint()
    modifies Footprints(ps), input, inserter, inserter.rootList
    ensures input.items == old(PassAll(letterOrNumber, chosen, input.items, inserter.Now()))
  {
    hide Pass, PassAll;
    assert chosen[0..] == chosen;
    for i := 0 to |ps|
      invariant forall k | i <= k < |ps| :: ps[k].Now() == chosen[k]
      invariant PassAll(letterOrNumber, chosen[i..], input.items, inserter.Now())
             == old(PassAll(letterOrNumber, chosen, input.items, inserter.Now()))
    {
      PassOne(letterOrNumber, chosen, i, input.items, inserter.Now());
      assert forall x | x in ps[i].Footprint() :: x in Footprints(ps);
      RunPass(ps[i], input, inserter, letterOrNumber);
    }
    PassNone(letterOrNumber, chosen[|chosen|..], input.items, inserter.Now());
  }

  lemma PassOne(letterOrNumber: char -> bool, ps: seq<Processor>, i: nat, input: seq<Item>, o: Output)
    requires i < |ps|
    ensures var r := Pass(letterOrNumber, ps[i], input, o.Clear());
      PassAll(letterOrNumber, ps[i..], input, o) == PassAll(letterOrNumber, ps[i + 1..], r.items, r.Reset())
  {
    hide Pass;
    assert ps[i..][0] == ps[i] && ps[i..][1..] == ps[i + 1..];
  }

  lemma PassNone(letterOrNumber: char -> bool, ps: seq<Processor>, input: seq<Item>, o: Output)
    requires ps == []
    ensures PassAll(letterOrNumber, ps, input, o) == input
  {
  }

  method ItemString(items: seq<Item>, options: Options, letterOrNumber: char -> bool) returns (r: seq<Item>)
    ensures r == PassAll(letterOrNumber, Chosen(options), items, START)
  {
    hide PassAll, Chosen;
    var input := new ItemList(items);
    var out := new ItemList([]);
    var inserter := new Inserter(out);
    var ps := PostProcessors(options, inserter, letterOrNumber);
    RunPasses(ps, input, inserter, letterOrNumber, Chosen(options));
    return input.items;
  }
}
