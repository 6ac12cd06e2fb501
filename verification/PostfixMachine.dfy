/** `PostfixEvaluator<u_int32_t>`: a stack machine whose stack holds text. */
module PostfixMachine {
  import opened Wrappers
  import opened Decimals

  const MODULUS: nat := 0x1_0000_0000

  type Word = x: nat | x < MODULUS

  predicate IsSpace(c: char) {
    c == ' ' || '\t' <= c <= '\r'
  }

  /** The length of the first word of `s`. */
  function WordLength(s: string): (n: nat)
    ensures n <= |s|
    ensures forall i | 0 <= i < n :: !IsSpace(s[i])
    ensures n < |s| ==> IsSpace(s[n])
  {
    if s == [] || IsSpace(s[0]) then 0 else 1 + WordLength(s[1..])
  }

  /** What reading word after word from a stream yields. */
  function Tokens(s: string): (r: seq<string>)
    decreases |s|
  {
    if s == [] then []
    else if IsSpace(s[0]) then Tokens(s[1..])
    else
      var n := WordLength(s);
      [s[..n]] + Tokens(s[n..])
  }

  /**
    An input stream reading an unsigned 32-bit number from all of `s`: an optional sign, then decimal digits of a
    number in range; a minus sign negates modulo 2^32.
   */
  function ReadLiteral(s: string): (r: Option<Word>)
  {
    var signed := s != [] && (s[0] == '+' || s[0] == '-');
    var digits := if signed then s[1..] else s;
    if digits == [] || !AllDigits(digits) || Parse(digits) >= MODULUS then None
    else if signed && s[0] == '-' then Some((MODULUS - Parse(digits)) % MODULUS)
    else Some(Parse(digits))
  }

  /** Signs before a number as it is printed: none or a plus gives the number, a minus what adds up to 0 with it. */
  lemma ReadLiteralSigned(v: Word)
    ensures ReadLiteral(Print(v)) == Some(v) && ReadLiteral("+" + Print(v)) == Some(v)
    ensures var r := ReadLiteral("-" + Print(v)); r.Some? && r.value + v in {0, MODULUS}
  {
    ParsePrint(v);
    hide Print, Parse;
    SignedDigits(Print(v));
  }

  lemma SignedDigits(digits: string)
    requires digits != [] && AllDigits(digits) && Parse(digits) < MODULUS
    ensures ReadLiteral(digits) == Some(Parse(digits)) && ReadLiteral("+" + digits) == Some(Parse(digits))
    ensures var r := ReadLiteral("-" + digits); r.Some? && r.value + Parse(digits) in {0, MODULUS}
  {
    hide Parse;
    assert digits[0] in digits;
    assert ("+" + digits)[1..] == digits && ("-" + digits)[1..] == digits;
  }

  const SPACES := {' ', '\t', '\n', '\U{000b}', '\U{000c}', '\r'}

  /** Any of the six spaces ends a word. */
  lemma {:induction false} TokensSplit(a: string, c: char, b: string)
    requires c in SPACES
    ensures Tokens(a + [c] + b) == Tokens(a) + Tokens(b)
    decreases |a|
  {
    var s := a + [c] + b;
    SpacesAre(c);
    if a == [] {
      assert s[1..] == b;
    } else {
      var n := if IsSpace(a[0]) then 1 else WordLength(a);
      WordLengthOf(a, c, b);
      hide WordLength, IsSpace;
      assert s[..n] == a[..n] && s[n..] == a[n..] + [c] + b;
      TokensSplit(a[n..], c, b);
      assert [a[..n]] + Tokens(a[n..]) + Tokens(b) == [a[..n]] + (Tokens(a[n..]) + Tokens(b));
    }
  }

  lemma SpacesAre(c: char)
    ensures IsSpace(c) <==> c in SPACES
  {
  }

  lemma {:induction false} WordLengthOf(a: string, c: char, b: string)
    requires IsSpace(c)
    ensures WordLength(a + [c] + b) == WordLength(a)
  {
    if a != [] {
      assert (a + [c] + b)[1..] == a[1..] + [c] + b;
      WordLengthOf(a[1..], c, b);
    }
  }

  /** A text without any of them is one word, or none. */
  lemma OneToken(a: string)
    requires forall c | c in a :: c !in SPACES
    ensures Tokens(a) == if a == [] then [] else [a]
  {
    if a != [] {
      forall c | c in a ensures !IsSpace(c) {
        SpacesAre(c);
      }
      WholeWord(a);
      hide IsSpace, WordLength;
      assert a[0] in a && a[..|a|] == a;
      assert Tokens(a[|a|..]) == [];
    }
  }

  lemma {:induction false} WholeWord(a: string)
    requires forall c | c in a :: !IsSpace(c)
    ensures WordLength(a) == |a|
  {
    if a != [] {
      WholeWord(a[1..]);
    }
  }

  type Dictionary = map<string, Word>
  type Memory = map<Word, Word>

  /** What an operation yields: a value, nothing, or a division by zero that the code does not guard against. */
  datatype Computed = Value(value: Word) | Missing | Trap

  /** A literal, or else a name of the dictionary. */
  function Meaning(token: string, dictionary: Dictionary): (r: Computed)
    ensures !r.Trap?
  {
    var literal := ReadLiteral(token);
    if literal.Some? then Value(literal.value)
    else if token in dictionary then Value(dictionary[token])
    else Missing
  }

  predicate IsBinary(token: string) {
    token in {"+", "-", "*", "/", "%"}
  }

  predicate IsOperator(token: string) {
    IsBinary(token) || token == "^" || token == "="
  }

  function Apply(operator: string, x: Word, y: Word): (r: Computed)
    requires IsBinary(operator)
    ensures !r.Missing?
  {
    if operator == "+" then Value((x + y) % MODULUS)
    else if operator == "-" then Value((x - y) % MODULUS)
    else if operator == "*" then Value((x * y) % MODULUS)
    else if y == 0 then Trap
    else if operator == "/" then Value(x / y)
    else Value(x % y)
  }

  /** "+" and "-" overflow at most once and undo each other. */
  lemma SumIs(x: Word, y: Word)
    ensures Apply("+", x, y).Value? && Apply("+", x, y).value in {x + y, x + y - MODULUS}
    ensures Apply("-", x, y).Value? && Apply("+", Apply("-", x, y).value, y) == Value(x)
  {
    assert (x - y) % MODULUS == if x >= y then x - y else x - y + MODULUS;
  }

  /** The width of `u_int32_t`: the last number before it overflows. */
  lemma OverflowsAfter()
    ensures Apply("+", 0xFFFF_FFFE, 1) == Value(0xFFFF_FFFF) && Apply("+", 0xFFFF_FFFF, 1) == Value(0)
  {
  }

  /** "*" gives the product less a multiple of 2^32. */
  lemma ProductIs(x: Word, y: Word)
    ensures Apply("*", x, y).Value?
    ensures exists k :: x * y == Apply("*", x, y).value + MODULUS * k
  {
    var v := x * y;
    assert v == v % MODULUS + MODULUS * (v / MODULUS);
  }

  /** "/" and "%" trap exactly for 0 and belong together otherwise. */
  lemma QuotientIs(x: Word, y: Word)
    ensures Apply("/", x, y).Trap? <==> y == 0
    ensures Apply("%", x, y).Trap? <==> y == 0
    ensures y > 0 ==> var r := Apply("%", x, y).value; r < y && x == Apply("/", x, y).value * y + r
  {
  }

  function Load(memory: Option<Memory>, address: Word): (r: Computed)
  {
    if memory.Some? && address in memory.value then Value(memory.value[address]) else Missing
  }

  /** The stack, the dictionary, and the names marked as assigned. */
  datatype Machine = Machine(stack: seq<string>, dictionary: Dictionary, marked: map<string, bool>)

  datatype Status = Fine | Failed | Trapped

  datatype State = State(machine: Machine, status: Status)

  predicate Assignable(token: string) {
    ReadLiteral(token).None? && token != [] && token[0] == '$'
  }

  function Push(m: Machine, c: Computed): (s: State)
  {
    match c
    case Value(v) => State(m.(stack := m.stack + [Print(v)]), Fine)
    case Missing => State(m, Failed)
    case Trap => State(m, Trapped)
  }

  /** One token. The stack of a machine that has stopped is not kept. */
  function Step(memory: Option<Memory>, m: Machine, token: string): (s: State)
  {
    var n := |m.stack|;
    if IsBinary(token) then
      if n == 0 || Meaning(m.stack[n - 1], m.dictionary).Missing? then Stopped(m, Failed)
      else if n == 1 || Meaning(m.stack[n - 2], m.dictionary).Missing? then Stopped(m, Failed)
      else
        var r := Apply(token, Meaning(m.stack[n - 2], m.dictionary).value, Meaning(m.stack[n - 1], m.dictionary).value);
        if r.Trap? then Stopped(m, Trapped) else Push(m.(stack := m.stack[..n - 2]), r)
    else if token == "^" then
      if memory.None? || n == 0 || Meaning(m.stack[n - 1], m.dictionary).Missing? then Stopped(m, Failed)
      else
        var r := Load(memory, Meaning(m.stack[n - 1], m.dictionary).value);
        if r.Missing? then Stopped(m, Failed) else Push(m.(stack := m.stack[..n - 1]), r)
    else if token == "=" then
      if n == 0 || Meaning(m.stack[n - 1], m.dictionary).Missing? then Stopped(m, Failed)
      else if n == 1 || !Assignable(m.stack[n - 2]) then Stopped(m, Failed)
      else
        var name, value := m.stack[n - 2], Meaning(m.stack[n - 1], m.dictionary).value;
        State(Machine(m.stack[..n - 2], m.dictionary[name := value], m.marked[name := true]), Fine)
    else State(m.(stack := m.stack + [token]), Fine)
  }

  function Stopped(m: Machine, status: Status): State {
    State(m.(stack := []), status)
  }

  /** All tokens, until one stops the machine. */
  function Run(memory: Option<Memory>, m: Machine, tokens: seq<string>): (s: State)
    decreases |tokens|
  {
    if tokens == [] then State(m, Fine)
    else
      var s := Step(memory, m, tokens[0]);
      if s.status.Fine? then Run(memory, s.machine, tokens[1..]) else s
  }

  /** A run to the end: values left on the stack are a failure too, and the stack is cleared. */
  function Evaluated(memory: Option<Memory>, m: Machine, tokens: seq<string>): (s: State)
  {
    var s := Run(memory, m, tokens);
    Stopped(s.machine, if s.status.Fine? && s.machine.stack != [] then Failed else s.status)
  }

  class PostfixEvaluator {
    const memory: Option<Memory>
    var dictionary: Dictionary
    // what the `assigned` argument of Evaluate points to
    var marked: map<string, bool>
    var stack: seq<string>

    constructor (dictionary: Dictionary, memory: Option<Memory>)
      ensures this.memory == memory && Now() == Machine([], dictionary, map[])
    {
      this.dictionary, this.memory, marked, stack := dictionary, memory, map[], [];
    }

    function Now(): Machine
      reads this
    {
      Machine(stack, dictionary, marked)
    }

    /** The top of the stack, as a literal if all of it reads as one. */
    method PopValueOrIdentifier() returns (found: bool, value: Option<Word>, identifier: string)
      modifies this`stack
      ensures found == (old(stack) != [])
      ensures found ==> stack == old(stack)[..|old(stack)| - 1]
      ensures found ==> identifier == old(stack)[|old(stack)| - 1] && value == ReadLiteral(identifier)
      ensures !found ==> stack == old(stack)
    {
      if stack == [] {
        return false, None, "";
      }
      identifier := stack[|stack| - 1];
      stack := stack[..|stack| - 1];
      return true, ReadLiteral(identifier), identifier;
    }

    method PopValue() returns (value: Option<Word>)
      modifies this`stack
      ensures stack == if old(stack) == [] then [] else old(stack)[..|old(stack)| - 1]
      ensures value.Some? == (old(stack) != [] && !Meaning(old(stack)[|old(stack)| - 1], dictionary).Missing?)
      ensures value.Some? ==> Meaning(old(stack)[|old(stack)| - 1], dictionary) == Value(value.value)
    {
      var found, literal, token := PopValueOrIdentifier();
      if !found {
        return None;
      } else if literal.Some? {
        return literal;
      } else if token !in dictionary {
        return None;
      }
      return Some(dictionary[token]);
    }

    method PushValue(value: Word)
      modifies this`stack
      ensures stack == old(stack) + [Print(value)]
    {
      stack := stack + [Print(value)];
    }

    method Evaluate(expression: string) returns (status: Status)
      requires stack == []
      modifies this
      ensures State(Now(), status) == Evaluated(memory, old(Now()), Tokens(expression))
    {
      var tokens := Tokens(expression);
      ghost var whole := Run(memory, Now(), tokens);
      while tokens != []
        invariant Run(memory, Now(), tokens) == whole
        decreases |tokens|
      {
        var token := tokens[0];
        tokens := tokens[1..];
        status := Execute(token);
        if !status.Fine? {
          return;
        }
      }
      status := if stack == [] then Fine else Failed;
      stack := [];
    }

    /** The body of the loop; the stack is cleared where the code returns. */
    method Execute(token: string) returns (status: Status)
      modifies this
      ensures State(Now(), status) == Step(memory, old(Now()), token)
    {
      status := Fine;
      if IsBinary(token) {
        status := ExecuteBinary(token);
      } else if token == "^" {
        status := ExecuteLoad();
      } else if token == "=" {
        status := ExecuteAssign();
      } else {
        stack := stack + [token];
      }
      if !status.Fine? {
        stack := [];
      }
    }

    method ExecuteBinary(token: string) returns (status: Status)
      requires IsBinary(token)
      modifies this`stack
      ensures status == Step(memory, old(Now()), token).status
      ensures status.Fine? ==> Now() == Step(memory, old(Now()), token).machine
    {
      hide Apply, Meaning, ReadLiteral;
      var operand2 := PopValue();
      if operand2.None? {
        return Failed;
      }
      var operand1 := PopValue();
      if operand1.None? {
        return Failed;
      }
      var result := Compute(token, operand1.value, operand2.value);
      if result.Trap? {
        return Trapped;
      }
      PushValue(result.value);
      return Fine;
    }

    /** The arithmetic of `ValueType`; nothing guards the divisor. */
    method Compute(token: string, operand1: Word, operand2: Word) returns (result: Computed)
      requires IsBinary(token)
      ensures result == Apply(token, operand1, operand2)
    {
      if token == "+" {
        return Value((operand1 + operand2) % MODULUS);
      } else if token == "-" {
        return Value((operand1 - operand2) % MODULUS);
      } else if token == "*" {
        return Value((operand1 * operand2) % MODULUS);
      } else if operand2 == 0 {
        return Trap;
      } else if token == "/" {
        return Value(operand1 / operand2);
      }
      return Value(operand1 % operand2);
    }

    method ExecuteLoad() returns (status: Status)
      modifies this`stack
      ensures status == Step(memory, old(Now()), "^").status
      ensures status.Fine? ==> Now() == Step(memory, old(Now()), "^").machine
    {
      if memory.None? {
        return Failed;
      }
      var address := PopValue();
      if address.None? {
        return Failed;
      }
      if address.value !in memory.value {
        return Failed;
      }
      PushValue(memory.value[address.value]);
      return Fine;
    }

    method ExecuteAssign() returns (status: Status)
      modifies this
      ensures status == Step(memory, old(Now()), "=").status
      ensures status.Fine? ==> Now() == Step(memory, old(Now()), "=").machine
      ensures !status.Fine? ==> dictionary == old(dictionary) && marked == old(marked)
    {
      var value := PopValue();
      if value.None? {
        return Failed;
      }
      var found, literal, identifier := PopValueOrIdentifier();
      if !found || literal.Some? {
        return Failed;
      }
      if identifier == [] || identifier[0] != '$' {
        return Failed;
      }
      dictionary := dictionary[identifier := value.value];
      marked := marked[identifier := true];
      return Fine;
    }
  }
}
