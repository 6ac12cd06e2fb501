/** Assignments of expressions, their postfix form, and the machine that evaluates it. */
module PostfixPrograms {
  import opened Wrappers
  import opened Decimals
  import opened PostfixMachine

  datatype Expression =
    | Operand(token: string)
    | Binary(operator: string, left: Expression, right: Expression)
    | Dereference(address: Expression)

  /** `name` gets the value of `expression`. */
  datatype Assignment = Assignment(name: string, expression: Expression)

  predicate IsToken(token: string) {
    token != [] && forall c | c in token :: !IsSpace(c)
  }

  predicate WellFormed(e: Expression) {
    match e
    case Operand(token) => IsToken(token) && !IsOperator(token)
    case Binary(operator, left, right) => IsBinary(operator) && WellFormed(left) && WellFormed(right)
    case Dereference(address) => WellFormed(address)
  }

  predicate WellFormedProgram(program: seq<Assignment>) {
    forall a | a in program :: IsToken(a.name) && !IsOperator(a.name) && WellFormed(a.expression)
  }

  function Postfix(e: Expression): (r: seq<string>)
  {
    match e
    case Operand(token) => [token]
    case Binary(operator, left, right) => Postfix(left) + Postfix(right) + [operator]
    case Dereference(address) => Postfix(address) + ["^"]
  }

  function PostfixProgram(program: seq<Assignment>): (r: seq<string>)
  {
    if program == [] then []
    else [program[0].name] + Postfix(program[0].expression) + ["="] + PostfixProgram(program[1..])
  }

  /** The value of an expression. An operand is looked up where it is used, after the operands to its right. */
  function Value(memory: Option<Memory>, dictionary: Dictionary, e: Expression): (r: Computed)
    requires WellFormed(e)
  {
    match e
    case Operand(token) => Meaning(token, dictionary)
    case Binary(operator, left, right) =>
      var x, y := Value(memory, dictionary, left), Value(memory, dictionary, right);
      if !left.Operand? && !x.Value? then x
      else if !y.Value? then y
      else if !x.Value? then x
      else Apply(operator, x.value, y.value)
    case Dereference(address) =>
      var a := Value(memory, dictionary, address);
      if a.Value? then Load(memory, a.value) else a
  }

  /** What a program leaves: the dictionary, the names marked, and how it ended. */
  datatype Result = Result(dictionary: Dictionary, marked: map<string, bool>, status: Status)

  /** One assignment after the other, with arithmetic modulo 2^32, until one cannot be carried out. */
  function Carried(memory: Option<Memory>, dictionary: Dictionary, marked: map<string, bool>,
      program: seq<Assignment>): (r: Result)
    requires WellFormedProgram(program)
    decreases |program|
  {
    if program == [] then Result(dictionary, marked, Fine)
    else
      var a := program[0];
      var v := Value(memory, dictionary, a.expression);
      if v.Trap? then Result(dictionary, marked, Trapped)
      else if v.Missing? || !Assignable(a.name) then Result(dictionary, marked, Failed)
      else Carried(memory, dictionary[a.name := v.value], marked[a.name := true], program[1..])
  }

  lemma {:induction false} RunConcat(memory: Option<Memory>, m: Machine, a: seq<string>, b: seq<string>)
    ensures var s := Run(memory, m, a);
      Run(memory, m, a + b) == if s.status.Fine? then Run(memory, s.machine, b) else s
    decreases |a|
  {
    hide Step;
    if a == [] {
      assert a + b == b;
    } else {
      assert (a + b)[1..] == a[1..] + b;
      var s := Step(memory, m, a[0]);
      if s.status.Fine? {
        RunConcat(memory, s.machine, a[1..], b);
      }
    }
  }

  lemma RunOne(memory: Option<Memory>, m: Machine, token: string)
    ensures Run(memory, m, [token]) == Step(memory, m, token)
  {
    assert [token][1..] == [];
  }

  /** The token an expression leaves on the stack: itself if it is an operand, else its value as text. */
  function Left(e: Expression, r: Computed): string
  {
    if e.Operand? then e.token else if r.Value? then Print(r.value) else ""
  }

  /** The machine has pushed one token that stands for the value of the expression, or has stopped where it cannot. */
  ghost predicate Pushes(memory: Option<Memory>, m: Machine, e: Expression)
    requires WellFormed(e)
  {
    var r := Value(memory, m.dictionary, e);
    var s := Run(memory, m, Postfix(e));
    if e.Operand? || r.Value? then
      s == State(m.(stack := m.stack + [Left(e, r)]), Fine) && Meaning(Left(e, r), m.dictionary) == r
    else s == Stopped(m, if r.Trap? then Trapped else Failed)
  }

  lemma OperandPushes(memory: Option<Memory>, m: Machine, e: Expression)
    requires WellFormed(e) && e.Operand?
    ensures Pushes(memory, m, e)
  {
    RunOne(memory, m, e.token);
  }

  lemma DereferencePushes(memory: Option<Memory>, m: Machine, e: Expression)
    requires WellFormed(e) && e.Dereference? && Pushes(memory, m, e.address)
    ensures Pushes(memory, m, e)
  {
    hide Run, Meaning, ReadLiteral, Print;
    RunConcat(memory, m, Postfix(e.address), ["^"]);
    var a := Value(memory, m.dictionary, e.address);
    if e.address.Operand? || a.Value? {
      var m1 := m.(stack := m.stack + [Left(e.address, a)]);
      RunOne(memory, m1, "^");
      assert m1.stack[..|m.stack|] == m.stack;
      var r := Value(memory, m.dictionary, e);
      if r.Value? {
        PrintedMeans(r.value, m.dictionary);
      }
    }
  }

  lemma PrintedMeans(v: Word, dictionary: Dictionary)
    ensures Meaning(Print(v), dictionary) == PostfixMachine.Value(v)
  {
    ReadLiteralSigned(v);
  }

  lemma BinaryPushes(memory: Option<Memory>, m: Machine, e: Expression)
    requires WellFormed(e) && e.Binary? && Pushes(memory, m, e.left)
    requires Pushes(memory, m.(stack := m.stack + [Left(e.left, Value(memory, m.dictionary, e.left))]), e.right)
    ensures Pushes(memory, m, e)
  {
    hide Run, Step, Meaning, ReadLiteral, Print, Apply;
    var x, y := Value(memory, m.dictionary, e.left), Value(memory, m.dictionary, e.right);
    RunConcat(memory, m, Postfix(e.left) + Postfix(e.right), [e.operator]);
    RunConcat(memory, m, Postfix(e.left), Postfix(e.right));
    if e.left.Operand? || x.Value? {
      var m1 := m.(stack := m.stack + [Left(e.left, x)]);
      if e.right.Operand? || y.Value? {
        RunOne(memory, m1.(stack := m1.stack + [Left(e.right, y)]), e.operator);
        BinaryStep(memory, m, e, x, y);
      }
    }
  }

  lemma BinaryStep(memory: Option<Memory>, m: Machine, e: Expression, x: Computed, y: Computed)
    requires WellFormed(e) && e.Binary?
    requires x == Value(memory, m.dictionary, e.left) && y == Value(memory, m.dictionary, e.right)
    requires Meaning(Left(e.left, x), m.dictionary) == x && Meaning(Left(e.right, y), m.dictionary) == y
    ensures var s := Step(memory, m.(stack := m.stack + [Left(e.left, x)] + [Left(e.right, y)]), e.operator);
      var r := Value(memory, m.dictionary, e);
      if r.Value? then
        s == State(m.(stack := m.stack + [Print(r.value)]), Fine) && Meaning(Print(r.value), m.dictionary) == r
      else s == Stopped(m, if r.Trap? then Trapped else Failed)
  {
    hide Meaning, ReadLiteral, Print, Apply, Left;
    var stack := m.stack + [Left(e.left, x)] + [Left(e.right, y)];
    assert stack[..|stack| - 2] == m.stack;
    var r := Value(memory, m.dictionary, e);
    if r.Value? {
      PrintedMeans(r.value, m.dictionary);
    }
  }

  lemma {:induction false} ExpressionPushes(memory: Option<Memory>, m: Machine, e: Expression)
    requires WellFormed(e)
    ensures Pushes(memory, m, e)
    decreases e
  {
    hide Pushes, Left, Value;
    match e
    case Operand(_) => OperandPushes(memory, m, e);
    case Dereference(address) =>
      ExpressionPushes(memory, m, address);
      DereferencePushes(memory, m, e);
    case Binary(_, left, right) =>
      ExpressionPushes(memory, m, left);
      ExpressionPushes(memory, m.(stack := m.stack + [Left(left, Value(memory, m.dictionary, left))]), right);
      BinaryPushes(memory, m, e);
  }

  /** What one assignment does to the machine. */
  lemma AssignmentRuns(memory: Option<Memory>, m: Machine, a: Assignment)
    requires WellFormed(a.expression) && !IsOperator(a.name)
    ensures var s := Run(memory, m, [a.name] + Postfix(a.expression) + ["="]);
      var v := Value(memory, m.dictionary, a.expression);
      if v.Value? && Assignable(a.name)
      then s == State(Machine(m.stack, m.dictionary[a.name := v.value], m.marked[a.name := true]), Fine)
      else s == Stopped(m, if v.Trap? then Trapped else Failed)
  {
    hide Run, Meaning, ReadLiteral, Print, Assignable, Value, Postfix;
    var v := Value(memory, m.dictionary, a.expression);
    RunConcat(memory, m, [a.name] + Postfix(a.expression), ["="]);
    RunConcat(memory, m, [a.name], Postfix(a.expression));
    RunOne(memory, m, a.name);
    var m1 := m.(stack := m.stack + [a.name]);
    ExpressionPushes(memory, m1, a.expression);
    if a.expression.Operand? || v.Value? {
      var m2 := m1.(stack := m1.stack + [Left(a.expression, v)]);
      RunOne(memory, m2, "=");
      assert m2.stack[..|m.stack|] == m.stack;
    }
  }

  /** The postfix form of a program, token by token. */
  lemma {:induction false} ProgramRuns(memory: Option<Memory>, m: Machine, program: seq<Assignment>)
    requires WellFormedProgram(program) && m.stack == []
    ensures var r := Carried(memory, m.dictionary, m.marked, program);
      Run(memory, m, PostfixProgram(program)) == State(Machine([], r.dictionary, r.marked), r.status)
    decreases |program|
  {
    hide Value, WellFormed, Assignable, IsOperator, IsToken;
    if program != [] {
      var a := program[0];
      var head := [a.name] + Postfix(a.expression) + ["="];
      hide Postfix;
      assert a in program;
      RunConcat(memory, m, head, PostfixProgram(program[1..]));
      AssignmentRuns(memory, m, a);
      var s := Run(memory, m, head);
      if s.status.Fine? {
        ProgramRuns(memory, s.machine, program[1..]);
      }
    }
  }

  /** Tokens with a space between them. */
  function Spaced(tokens: seq<string>): (r: string)
  {
    if tokens == [] then [] else tokens[0] + " " + Spaced(tokens[1..])
  }

  lemma {:induction false} SpacedTokens(tokens: seq<string>)
    requires forall t | t in tokens :: IsToken(t)
    ensures Tokens(Spaced(tokens)) == tokens
  {
    if tokens != [] {
      var t, rest := tokens[0], Spaced(tokens[1..]);
      assert IsToken(t);
      SpacedTokens(tokens[1..]);
      FirstToken(t, rest);
    }
  }

  lemma {:induction false} WordIs(t: string, rest: string)
    requires (forall c | c in t :: !IsSpace(c)) && rest != [] && IsSpace(rest[0])
    ensures WordLength(t + rest) == |t|
  {
    if t != [] {
      assert (t + rest)[0] == t[0] && t[0] in t && (t + rest)[1..] == t[1..] + rest;
      WordIs(t[1..], rest);
    }
  }

  lemma FirstToken(t: string, rest: string)
    requires IsToken(t)
    ensures Tokens(t + " " + rest) == [t] + Tokens(rest)
  {
    var s := t + " " + rest;
    assert s[0] == t[0] && t[0] in t;
    WordIs(t, " " + rest);
    assert s == t + (" " + rest);
    assert s[..|t|] == t && s[|t|..] == " " + rest;
    assert (" " + rest)[1..] == rest;
    assert Tokens(" " + rest) == Tokens(rest);
  }

  /**
    Evaluating a text whose words are the postfix form of a program leaves exactly what carrying out the assignments
    leaves, and succeeds, fails or divides by zero exactly when that does. The stack is empty afterwards.
   */
  lemma EvaluateIsExact(memory: Option<Memory>, dictionary: Dictionary, marked: map<string, bool>,
      program: seq<Assignment>, text: string)
    requires WellFormedProgram(program) && Tokens(text) == PostfixProgram(program)
    ensures var r := Carried(memory, dictionary, marked, program);
      Evaluated(memory, Machine([], dictionary, marked), Tokens(text))
        == State(Machine([], r.dictionary, r.marked), r.status)
  {
    hide Run, Carried, PostfixProgram, WellFormedProgram, Tokens;
    ProgramRuns(memory, Machine([], dictionary, marked), program);
  }

  /** Such a text exists for every program. */
  lemma {:induction false} PostfixTokens(e: Expression)
    requires WellFormed(e)
    ensures forall t | t in Postfix(e) :: IsToken(t)
  {
    match e
    case Operand(_) =>
    case Dereference(address) => PostfixTokens(address);
    case Binary(_, left, right) =>
      PostfixTokens(left);
      PostfixTokens(right);
  }

  lemma {:induction false} ProgramText(program: seq<Assignment>)
    requires WellFormedProgram(program)
    ensures Tokens(Spaced(PostfixProgram(program))) == PostfixProgram(program)
    ensures forall t | t in PostfixProgram(program) :: IsToken(t)
    decreases |program|
  {
    hide Tokens, IsToken;
    ProgramTokens(program);
    SpacedTokens(PostfixProgram(program));
  }

  lemma {:induction false} ProgramTokens(program: seq<Assignment>)
    requires WellFormedProgram(program)
    ensures forall t | t in PostfixProgram(program) :: IsToken(t)
    decreases |program|
  {
    hide WellFormed, Postfix, IsOperator;
    if program != [] {
      assert program[0] in program;
      PostfixTokens(program[0].expression);
      ProgramTokens(program[1..]);
    }
  }

  // Any text at all.

  /** The name that `=` assigns. */
  function AssignedBy(m: Machine, token: string): set<string> {
    if token == "=" && |m.stack| >= 2 then {m.stack[|m.stack| - 2]} else {}
  }

  /** The names a run assigns. */
  function Stored(memory: Option<Memory>, m: Machine, tokens: seq<string>): (names: set<string>)
    decreases |tokens|
  {
    if tokens == [] then {}
    else
      var s := Step(memory, m, tokens[0]);
      if !s.status.Fine? then {}
      else AssignedBy(m, tokens[0]) + Stored(memory, s.machine, tokens[1..])
  }

  /** From one machine to the other, only these names were assigned and marked, and all are variables. */
  ghost predicate Changed(m: Machine, s: Machine, names: set<string>) {
    && (forall n | n in names :: n != [] && n[0] == '$')
    && s.dictionary.Keys == m.dictionary.Keys + names
    && (forall n | n in m.dictionary && n !in names :: s.dictionary[n] == m.dictionary[n])
    && s.marked.Keys == m.marked.Keys + names && (forall n | n in names :: s.marked[n])
    && (forall n | n in m.marked && n !in names :: s.marked[n] == m.marked[n])
  }

  lemma StepChanges(memory: Option<Memory>, m: Machine, token: string)
    ensures var s := Step(memory, m, token);
      Changed(m, s.machine, if s.status.Fine? then AssignedBy(m, token) else {})
  {
    hide Meaning, Apply, Print, ReadLiteral;
  }

  lemma ChangedAgain(m: Machine, s: Machine, t: Machine, a: set<string>, b: set<string>)
    requires Changed(m, s, a) && Changed(s, t, b)
    ensures Changed(m, t, a + b)
  {
  }

  /** Whatever the text: only names that start with a dollar sign change, and exactly those assigned are marked. */
  lemma {:induction false} OnlyVariablesChange(memory: Option<Memory>, m: Machine, tokens: seq<string>)
    ensures Changed(m, Run(memory, m, tokens).machine, Stored(memory, m, tokens))
    decreases |tokens|
  {
    hide Changed, Step;
    if tokens == [] {
      NothingChanges(m);
    } else {
      StepChanges(memory, m, tokens[0]);
      var s := Step(memory, m, tokens[0]);
      if s.status.Fine? {
        OnlyVariablesChange(memory, s.machine, tokens[1..]);
        ChangedAgain(m, s.machine, Run(memory, m, tokens).machine,
                     AssignedBy(m, tokens[0]), Stored(memory, s.machine, tokens[1..]));
      }
    }
  }

  lemma NothingChanges(m: Machine)
    ensures Changed(m, m, {})
  {
  }
}
