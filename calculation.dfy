/** The direct evaluator of pkg/calculation: one left-to-right pass over the
    tokens with a stack of numbers and a stack of pending operators, the
    classic two-stack evaluation of infix arithmetic. */
module Calculation {
  import opened Wrappers
  import opened Errors
  import opened Numbers
  import opened Tokenizer

  /** The four operators of the evaluator's switch. */
  predicate IsArithmetic(op: string) {
    op == "+" || op == "-" || op == "*" || op == "/"
  }

  /** precedence: how tightly a stacked operator binds; parentheses and
      anything unknown bind least of all. */
  function Precedence(op: string): (p: nat)
    ensures p <= 2
    ensures p > 0 <==> IsArithmetic(op)
    ensures p == 2 <==> op == "*" || op == "/"
  {
    if op == "+" || op == "-" then 1
    else if op == "*" || op == "/" then 2
    else 0
  }

  /** The two stacks of evaluate, tops last. */
  datatype Stacks = Stacks(numbers: seq<real>, operators: seq<string>)

  /** The switch of applyOperator: a op b, or why there is none. */
  function Arith(op: string, a: real, b: real): (r: Result<real, Error>)
    ensures r.Failure? <==> !IsArithmetic(op) || (op == "/" && b == 0.0)
    ensures r.Failure? ==> r.error == if IsArithmetic(op) then DivisionByZero else UnknownOperator
    ensures r.Success? && op == "/" ==> r.value * b == a
  {
    if op == "+" then Success(a + b)
    else if op == "-" then Success(a - b)
    else if op == "*" then Success(a * b)
    else if op == "/" then (if b == 0.0 then Failure(DivisionByZero) else Success(a / b))
    else Failure(UnknownOperator)
  }

  /** applyOperator: pops the top two numbers b (top) and a and the top
      operator, and pushes a op b. The two slices the Go code updates through
      pointers are returned as the new stacks. */
  function ApplyOperator(s: Stacks): (r: Result<Stacks, Error>)
    requires |s.operators| > 0
    ensures r.Failure? <==>
      |s.numbers| < 2 || !IsArithmetic(s.operators[|s.operators| - 1])
      || (s.operators[|s.operators| - 1] == "/" && s.numbers[|s.numbers| - 1] == 0.0)
    ensures r.Failure? ==>
      r.error == (if |s.numbers| < 2 then NotEnoughOperands
                  else if IsArithmetic(s.operators[|s.operators| - 1]) then DivisionByZero
                  else UnknownOperator)
    ensures r.Success? ==>
      r.value.operators == s.operators[..|s.operators| - 1]
      && |r.value.numbers| == |s.numbers| - 1
      && r.value.numbers[..|s.numbers| - 2] == s.numbers[..|s.numbers| - 2]
  {
    if |s.numbers| < 2 then Failure(NotEnoughOperands)
    else
      var n := |s.numbers|;
      var b := s.numbers[n - 1];
      var a := s.numbers[n - 2];
      match Arith(s.operators[|s.operators| - 1], a, b)
      case Failure(e) => Failure(e)
      case Success(v) => Success(Stacks(s.numbers[..n - 2] + [v], s.operators[..|s.operators| - 1]))
  }

  /** The number applyOperator pushes is the top operator applied to the two
      numbers it popped, the lower one on the left. */
  lemma ApplyValue(s: Stacks)
    requires |s.operators| > 0 && |s.numbers| >= 2
    ensures var n := |s.numbers|;
      match Arith(s.operators[|s.operators| - 1], s.numbers[n - 2], s.numbers[n - 1])
      case Failure(e) => ApplyOperator(s) == Failure(e)
      case Success(v) => ApplyOperator(s).Success? && ApplyOperator(s).value.numbers[n - 2] == v
  {
  }

  /** The loop of the ")" case: apply operators until a "(" is on top, then
      drop the "("; running out of operators first is a mismatch. */
  function CloseGroup(s: Stacks): Result<Stacks, Error>
    decreases |s.operators|
  {
    if |s.operators| > 0 && s.operators[|s.operators| - 1] != "(" then
      match ApplyOperator(s)
      case Failure(e) => Failure(e)
      case Success(next) => CloseGroup(next)
    else if |s.operators| == 0 then Failure(MismatchedParentheses)
    else Success(Stacks(s.numbers, s.operators[..|s.operators| - 1]))
  }

  /** The loop of the operator case: apply stacked operators while they bind
      at least as tightly as the incoming one. */
  function Reduce(s: Stacks, p: nat): Result<Stacks, Error>
    decreases |s.operators|
  {
    if |s.operators| > 0 && Precedence(s.operators[|s.operators| - 1]) >= p then
      match ApplyOperator(s)
      case Failure(e) => Failure(e)
      case Success(next) => Reduce(next, p)
    else Success(s)
  }

  /** The operator loop in general: it applies stacked operators from the
      top, each one binding at least as tightly as p (so never a "("), one
      number fewer each time, and leaves the numbers below the combined
      ones alone; it stops at the bottom of the stack or at an entry that
      binds less tightly than p, a "(" included. */
  lemma {:induction false} ReduceStops(s: Stacks, p: nat)
    requires p > 0
    ensures Reduce(s, p).Success? ==> Stopped(s, Reduce(s, p).value, p)
    ensures Reduce(s, p).Failure? ==> Reduce(s, p).error in {NotEnoughOperands, DivisionByZero}
    decreases |s.operators|
  {
    var ops := s.operators;
    if |ops| > 0 && Precedence(ops[|ops| - 1]) >= p && ApplyOperator(s).Success? {
      var next := ApplyOperator(s).value;
      ReduceStops(next, p);
      if Reduce(s, p).Success? {
        StoppedStep(s, Reduce(next, p).value, p);
      }
    }
  }

  /** r is what the operator loop leaves of s: a prefix of s's operators
      whose top binds less tightly than p, every operator removed binding
      at least as tightly as p, one number fewer per removed operator, and
      the numbers below the combined ones unchanged. */
  predicate Stopped(s: Stacks, r: Stacks, p: nat) {
    && r.operators <= s.operators
    && (r.operators == [] || Precedence(r.operators[|r.operators| - 1]) < p)
    && (forall j :: |r.operators| <= j < |s.operators| ==> IsArithmetic(s.operators[j]) && Precedence(s.operators[j]) >= p)
    && |r.numbers| + |s.operators| == |s.numbers| + |r.operators|
    && (|r.numbers| > 0 ==> r.numbers[..|r.numbers| - 1] == s.numbers[..|r.numbers| - 1])
  }

  lemma StoppedStep(s: Stacks, r: Stacks, p: nat)
    requires p > 0 && |s.operators| > 0 && Precedence(s.operators[|s.operators| - 1]) >= p
    requires ApplyOperator(s).Success? && Stopped(ApplyOperator(s).value, r, p)
    ensures Stopped(s, r, p)
  {
    var ops := s.operators;
    var next := ApplyOperator(s).value;
    assert next.operators == ops[..|ops| - 1];
    forall j | |r.operators| <= j < |ops| ensures IsArithmetic(ops[j]) && Precedence(ops[j]) >= p {
      if j < |ops| - 1 {
        assert ops[j] == next.operators[j];
      }
    }
    if |r.numbers| > 0 {
      var m := |r.numbers| - 1;
      assert r.numbers[..m] == next.numbers[..m];
      assert next.numbers[..|s.numbers| - 2][..m] == s.numbers[..|s.numbers| - 2][..m];
    }
  }

  /** The final loop: apply every operator left on the stack. */
  function Drain(s: Stacks): Result<Stacks, Error>
    decreases |s.operators|
  {
    if |s.operators| > 0 then
      match ApplyOperator(s)
      case Failure(e) => Failure(e)
      case Success(next) => Drain(next)
    else Success(s)
  }

  /** One token of the switch in evaluate. */
  function Step(token: string, s: Stacks): Result<Stacks, Error> {
    if token == "(" then Success(Stacks(s.numbers, s.operators + [token]))
    else if token == ")" then CloseGroup(s)
    else if IsArithmetic(token) then
      match Reduce(s, Precedence(token))
      case Failure(e) => Failure(e)
      case Success(r) => Success(Stacks(r.numbers, r.operators + [token]))
    else
      match ParseNum(token)
      case None => Failure(InvalidNumber)
      case Some(v) => Success(Stacks(s.numbers + [v], s.operators))
  }

  /** After the tokens: drain the operators and demand exactly one number. */
  function Finish(s: Stacks): Result<real, Error> {
    match Drain(s)
    case Failure(e) => Failure(e)
    case Success(d) => if |d.numbers| != 1 then Failure(InvalidExpression) else Success(d.numbers[0])
  }

  /** The rest of the pass, from the stacks s on. */
  function Run(tokens: seq<string>, s: Stacks): Result<real, Error>
    decreases |tokens|
  {
    if tokens == [] then Finish(s)
    else
      match Step(tokens[0], s)
      case Failure(e) => Failure(e)
      case Success(next) => Run(tokens[1..], next)
  }

  /** What evaluate returns for a token list. */
  function Eval(tokens: seq<string>): Result<real, Error> {
    Run(tokens, Stacks([], []))
  }

  /** What Calc returns for an expression. */
  function Calculate(expression: string): Result<real, Error> {
    Eval(Tokens(expression))
  }

  lemma RunStep(tokens: seq<string>, i: nat, s: Stacks)
    requires i < |tokens|
    ensures Run(tokens[i..], s) ==
      if Step(tokens[i], s).Failure? then Failure(Step(tokens[i], s).error)
      else Run(tokens[i + 1..], Step(tokens[i], s).value)
  {
    assert tokens[i..][0] == tokens[i];
    assert tokens[i..][1..] == tokens[i + 1..];
  }

  /** evaluate: the loop over the tokens with the two stacks. */
  method Evaluate(tokens: seq<string>) returns (r: Result<real, Error>)
    ensures r == Eval(tokens)
  {
    var numbers: seq<real> := [];
    var operators: seq<string> := [];
    for i := 0 to |tokens|
      invariant Run(tokens[i..], Stacks(numbers, operators)) == Eval(tokens)
    {
      var token := tokens[i];
      RunStep(tokens, i, Stacks(numbers, operators));
      ghost var start := Stacks(numbers, operators);
      if token == "(" {
        operators := operators + [token];
      } else if token == ")" {
        while |operators| > 0 && operators[|operators| - 1] != "("
          invariant CloseGroup(Stacks(numbers, operators)) == CloseGroup(start)
          decreases |operators|
        {
          var applied := ApplyOperator(Stacks(numbers, operators));
          if applied.Failure? {
            return Failure(applied.error);
          }
          numbers, operators := applied.value.numbers, applied.value.operators;
        }
        if |operators| == 0 {
          return Failure(MismatchedParentheses);
        }
        operators := operators[..|operators| - 1];
      } else if IsArithmetic(token) {
        while |operators| > 0 && Precedence(operators[|operators| - 1]) >= Precedence(token)
          invariant Reduce(Stacks(numbers, operators), Precedence(token)) == Reduce(start, Precedence(token))
          decreases |operators|
        {
          var applied := ApplyOperator(Stacks(numbers, operators));
          if applied.Failure? {
            return Failure(applied.error);
          }
          numbers, operators := applied.value.numbers, applied.value.operators;
        }
        operators := operators + [token];
      } else {
        var num := ParseNum(token);
        if num.None? {
          return Failure(InvalidNumber);
        }
        numbers := numbers + [num.value];
      }
    }
    assert tokens[|tokens|..] == [];
    ghost var rest := Stacks(numbers, operators);
    while |operators| > 0
      invariant Drain(Stacks(numbers, operators)) == Drain(rest)
      decreases |operators|
    {
      var applied := ApplyOperator(Stacks(numbers, operators));
      if applied.Failure? {
        return Failure(applied.error);
      }
      numbers, operators := applied.value.numbers, applied.value.operators;
    }
    if |numbers| != 1 {
      return Failure(InvalidExpression);
    }
    return Success(numbers[0]);
  }

  /** Calc: tokenize, then evaluate. */
  method Calc(expression: string) returns (r: Result<real, Error>)
    ensures r == Calculate(expression)
  {
    var tokens := Tokenize(expression);
    r := Evaluate(tokens);
  }

  /** A token that ParseNum reads is neither a parenthesis nor an operator,
      so the switch sends it to the default case. */
  lemma NumeralToken(x: string)
    requires ParseNum(x).Some?
    ensures x != "(" && x != ")" && !IsArithmetic(x)
  {
    if x == "(" {
      assert false;
    } else if x == ")" {
      assert false;
    } else if x == "+" {
      assert false;
    } else if x == "-" {
      assert false;
    } else if x == "*" {
      assert false;
    } else if x == "/" {
      assert false;
    }
  }

  /** A numeral token is pushed onto the number stack. */
  lemma StepNumber(x: string, s: Stacks, v: real)
    requires ParseNum(x) == Some(v)
    ensures Step(x, s) == Success(Stacks(s.numbers + [v], s.operators))
  {
    NumeralToken(x);
  }

  /** An operator token meeting no operator, or one that binds less tightly,
      is pushed. */
  lemma StepPush(op: string, s: Stacks)
    requires IsArithmetic(op)
    requires s.operators == [] || Precedence(s.operators[|s.operators| - 1]) < Precedence(op)
    ensures Step(op, s) == Success(Stacks(s.numbers, s.operators + [op]))
  {
    assert Reduce(s, Precedence(op)) == Success(s);
  }

  /** Run on a token list given as its head and the rest. */
  lemma RunHead(token: string, rest: seq<string>, s: Stacks)
    ensures Run([token] + rest, s) ==
      if Step(token, s).Failure? then Failure(Step(token, s).error) else Run(rest, Step(token, s).value)
  {
    assert ([token] + rest)[0] == token;
    assert ([token] + rest)[1..] == rest;
  }

  /** applyOperator on stacks with a, b and op on top. */
  lemma ApplyTop(rest: seq<real>, a: real, b: real, ops: seq<string>, op: string)
    ensures ApplyOperator(Stacks(rest + [a, b], ops + [op])) ==
      match Arith(op, a, b)
      case Failure(e) => Failure(e)
      case Success(v) => Success(Stacks(rest + [v], ops))
  {
    var s := Stacks(rest + [a, b], ops + [op]);
    var n := |s.numbers|;
    assert s.numbers[n - 1] == b && s.numbers[n - 2] == a;
    assert s.numbers[..n - 2] == rest;
    assert s.operators[|s.operators| - 1] == op;
    assert s.operators[..|s.operators| - 1] == ops;
  }

  /** Two numbers and one operator left at the end: their value is the result. */
  lemma FinishBinary(a: real, b: real, op: string)
    ensures Finish(Stacks([a, b], [op])) == Arith(op, a, b)
  {
    ApplyTop([], a, b, [], op);
    assert [] + [a, b] == [a, b];
    assert [] + [op] == [op];
    match Arith(op, a, b)
    case Failure(e) =>
    case Success(v) =>
      assert [] + [v] == [v];
      assert Drain(Stacks([v], [])) == Success(Stacks([v], []));
  }

  /** A last numeral token, followed by the end of the pass. */
  lemma RunLast(z: string, s: Stacks, c: real)
    requires ParseNum(z) == Some(c)
    ensures Run([z], s) == Finish(Stacks(s.numbers + [c], s.operators))
  {
    StepNumber(z, s, c);
    RunHead(z, [], s);
    assert [z] + [] == [z];
  }

  /** The first three tokens a op b of an expression, pushed onto empty stacks. */
  lemma RunBinary(t: seq<string>, x: string, op: string, y: string, a: real, b: real)
    requires |t| >= 3 && t[0] == x && t[1] == op && t[2] == y
    requires ParseNum(x) == Some(a) && ParseNum(y) == Some(b) && IsArithmetic(op)
    ensures Eval(t) == Run(t[3..], Stacks([a, b], [op]))
  {
    var s0 := Stacks([], []);
    var s1 := Stacks([a], []);
    var s2 := Stacks([a], [op]);
    StepNumber(x, s0, a);
    assert [] + [a] == [a];
    StepPush(op, s1);
    assert [] + [op] == [op];
    StepNumber(y, s2, b);
    assert [a] + [b] == [a, b];
    RunStep(t, 0, s0);
    RunStep(t, 1, s1);
    RunStep(t, 2, s2);
    assert t[0..] == t;
  }

  /** a op b alone evaluates to a op b, or to the error the operator raises. */
  lemma EvalBinary(t: seq<string>, x: string, op: string, y: string, a: real, b: real)
    requires t == [x, op, y]
    requires ParseNum(x) == Some(a) && ParseNum(y) == Some(b) && IsArithmetic(op)
    ensures Eval(t) == Arith(op, a, b)
  {
    RunBinary(t, x, op, y, a, b);
    assert t[3..] == [];
    FinishBinary(a, b, op);
  }

  /** An operator meeting a stacked one that binds at least as tightly:
      the stacked one is applied first. */
  lemma StepReduces(op1: string, op2: string, a: real, b: real)
    requires IsArithmetic(op1) && IsArithmetic(op2) && Precedence(op1) >= Precedence(op2)
    ensures var u := Arith(op1, a, b);
      Step(op2, Stacks([a, b], [op1])) == if u.Failure? then Failure(u.error) else Success(Stacks([u.value], [op2]))
  {
    var s3 := Stacks([a, b], [op1]);
    ApplyTop([], a, b, [], op1);
    assert [] + [a, b] == [a, b] && [] + [op1] == [op1];
    var u := Arith(op1, a, b);
    if u.Success? {
      assert [] + [u.value] == [u.value];
      assert Reduce(s3, Precedence(op2)) == Reduce(Stacks([u.value], []), Precedence(op2));
      StepPush(op2, Stacks([u.value], []));
      assert [] + [op2] == [op2];
    }
  }

  /** The last two tokens op2 c after a op1 b, when op1 binds at least as
      tightly. */
  lemma RunLeftTail(op1: string, op2: string, z: string, a: real, b: real, c: real)
    requires ParseNum(z) == Some(c)
    requires IsArithmetic(op1) && IsArithmetic(op2) && Precedence(op1) >= Precedence(op2)
    ensures var u := Arith(op1, a, b);
      Run([op2, z], Stacks([a, b], [op1])) == if u.Failure? then Failure(u.error) else Arith(op2, u.value, c)
  {
    assert [op2, z] == [op2] + [z];
    RunHead(op2, [z], Stacks([a, b], [op1]));
    StepReduces(op1, op2, a, b);
    var u := Arith(op1, a, b);
    if u.Success? {
      RunLast(z, Stacks([u.value], [op2]), c);
      assert [u.value] + [c] == [u.value, c];
      FinishBinary(u.value, c, op2);
    }
  }

  /** a op1 b op2 c where op1 binds at least as tightly as op2: the left pair
      is done first, so equal precedence associates to the left. */
  lemma EvalLeft(t: seq<string>, x: string, op1: string, y: string, op2: string, z: string, a: real, b: real, c: real)
    requires |t| == 5 && t[0] == x && t[1] == op1 && t[2] == y && t[3] == op2 && t[4] == z
    requires ParseNum(x) == Some(a) && ParseNum(y) == Some(b) && ParseNum(z) == Some(c)
    requires IsArithmetic(op1) && IsArithmetic(op2) && Precedence(op1) >= Precedence(op2)
    ensures var u := Arith(op1, a, b);
      Eval(t) == if u.Failure? then Failure(u.error) else Arith(op2, u.value, c)
  {
    RunBinary(t, x, op1, y, a, b);
    assert t[3..] == [op2, z];
    RunLeftTail(op1, op2, z, a, b, c);
  }

  /** The last two tokens op2 c after a op1 b, when op2 binds more tightly. */
  lemma RunRightTail(op1: string, op2: string, z: string, a: real, b: real, c: real)
    requires ParseNum(z) == Some(c)
    requires IsArithmetic(op1) && IsArithmetic(op2) && Precedence(op1) < Precedence(op2)
    ensures var w := Arith(op2, b, c);
      Run([op2, z], Stacks([a, b], [op1])) == if w.Failure? then Failure(w.error) else Arith(op1, a, w.value)
  {
    RunRightPush(op1, op2, z, a, b, c);
    FinishRight(op1, op2, a, b, c);
  }

  /** The tightly binding operator is pushed and the last number read. */
  lemma RunRightPush(op1: string, op2: string, z: string, a: real, b: real, c: real)
    requires ParseNum(z) == Some(c)
    requires IsArithmetic(op2) && Precedence(op1) < Precedence(op2)
    ensures Run([op2, z], Stacks([a, b], [op1])) == Finish(Stacks([a, b, c], [op1, op2]))
  {
    var s3 := Stacks([a, b], [op1]);
    assert [op2, z] == [op2] + [z];
    RunHead(op2, [z], s3);
    StepPush(op2, s3);
    assert [op1] + [op2] == [op1, op2];
    RunLast(z, Stacks([a, b], [op1, op2]), c);
    assert [a, b] + [c] == [a, b, c];
  }

  /** Draining two operators applies the top one first. */
  lemma FinishRight(op1: string, op2: string, a: real, b: real, c: real)
    ensures var w := Arith(op2, b, c);
      Finish(Stacks([a, b, c], [op1, op2])) == if w.Failure? then Failure(w.error) else Arith(op1, a, w.value)
  {
    ApplyTop([a], b, c, [op1], op2);
    assert [a] + [b, c] == [a, b, c] && [op1] + [op2] == [op1, op2];
    var w := Arith(op2, b, c);
    if w.Success? {
      assert [a] + [w.value] == [a, w.value];
      assert Drain(Stacks([a, b, c], [op1, op2])) == Drain(Stacks([a, w.value], [op1]));
      FinishBinary(a, w.value, op1);
    }
  }

  /** a op1 b op2 c where op2 binds more tightly: the right pair is done
      first. */
  lemma EvalRight(t: seq<string>, x: string, op1: string, y: string, op2: string, z: string, a: real, b: real, c: real)
    requires |t| == 5 && t[0] == x && t[1] == op1 && t[2] == y && t[3] == op2 && t[4] == z
    requires ParseNum(x) == Some(a) && ParseNum(y) == Some(b) && ParseNum(z) == Some(c)
    requires IsArithmetic(op1) && IsArithmetic(op2) && Precedence(op1) < Precedence(op2)
    ensures var w := Arith(op2, b, c);
      Eval(t) == if w.Failure? then Failure(w.error) else Arith(op1, a, w.value)
  {
    RunBinary(t, x, op1, y, a, b);
    assert t[3..] == [op2, z];
    RunRightTail(op1, op2, z, a, b, c);
  }

  /** A first token that is neither a parenthesis, an operator nor a number
      stops the pass with InvalidNumber. */
  lemma EvalUnreadable(t: seq<string>)
    requires |t| > 0 && t[0] != "(" && t[0] != ")" && !IsArithmetic(t[0]) && ParseNum(t[0]).None?
    ensures Eval(t) == Failure(InvalidNumber)
  {
    RunStep(t, 0, Stacks([], []));
    assert t[0..] == t;
  }

  /** The expressions of the repository's calculation tests. */
  lemma CalcExampleAddition(e: string)
    requires e == "2 + 2"
    ensures Calculate(e) == Success(4.0)
  {
    TokensSimple('2', '+', '2');
    ParseDigits("2");
    EvalBinary(Tokens(e), "2", "+", "2", 2.0, 2.0);
  }

  lemma CalcExampleSubtraction(e: string)
    requires e == "10 - 5"
    ensures Calculate(e) == Success(5.0)
  {
    TokensWide('1', '0', '-', '5');
    assert "10"[..1] == "1";
    ParseDigits("10");
    ParseDigits("5");
    EvalBinary(Tokens(e), "10", "-", "5", 10.0, 5.0);
  }

  lemma CalcExampleMultiplication(e: string)
    requires e == "3 * 4"
    ensures Calculate(e) == Success(12.0)
  {
    TokensSimple('3', '*', '4');
    ParseDigits("3");
    ParseDigits("4");
    EvalBinary(Tokens(e), "3", "*", "4", 3.0, 4.0);
  }

  lemma CalcExampleDivision(e: string)
    requires e == "15 / 3"
    ensures Calculate(e) == Success(5.0)
  {
    TokensWide('1', '5', '/', '3');
    assert "15"[..1] == "1";
    ParseDigits("15");
    ParseDigits("3");
    EvalBinary(Tokens(e), "15", "/", "3", 15.0, 3.0);
  }

  lemma CalcExampleInvalid(e: string)
    requires e == "invalid"
    ensures Calculate(e) == Failure(InvalidNumber)
  {
    assert e == ['i'] + "nvalid";
    TokensLead('i', "nvalid");
    ParseLetter('i');
    EvalUnreadable(Tokens(e));
  }

  lemma CalcExampleDivisionByZero(e: string)
    requires e == "10 / 0"
    ensures Calculate(e) == Failure(DivisionByZero)
  {
    TokensWide('1', '0', '/', '0');
    assert "10"[..1] == "1";
    ParseDigits("10");
    ParseDigits("0");
    EvalBinary(Tokens(e), "10", "/", "0", 10.0, 0.0);
  }

  /** The number of "(" waiting on an operator stack. */
  function Opens(operators: seq<string>): nat {
    multiset(operators)["("]
  }

  /** The final loop succeeds only when no "(" is left: applyOperator does not
      know the operator "(". */
  lemma {:induction false} DrainNoOpen(s: Stacks)
    ensures Drain(s).Success? ==> "(" !in s.operators
    decreases |s.operators|
  {
    if |s.operators| > 0 && Drain(s).Success? {
      var top := s.operators[|s.operators| - 1];
      var next := ApplyOperator(s).value;
      DrainNoOpen(next);
      assert s.operators == next.operators + [top];
    }
  }

  /** The ")" loop removes exactly one "(". */
  lemma {:induction false} CloseGroupOpens(s: Stacks)
    ensures CloseGroup(s).Success? ==> Opens(CloseGroup(s).value.operators) + 1 == Opens(s.operators)
    decreases |s.operators|
  {
    if CloseGroup(s).Success? {
      var ops := s.operators;
      var top := ops[|ops| - 1];
      assert ops == ops[..|ops| - 1] + [top];
      if top != "(" {
        var next := ApplyOperator(s).value;
        CloseGroupOpens(next);
      }
    }
  }

  /** The operator loop applies only operators, never a "(". */
  lemma {:induction false} ReduceOpens(s: Stacks, p: nat)
    requires p > 0
    ensures Reduce(s, p).Success? ==> Opens(Reduce(s, p).value.operators) == Opens(s.operators)
    decreases |s.operators|
  {
    if |s.operators| > 0 && Precedence(s.operators[|s.operators| - 1]) >= p && Reduce(s, p).Success? {
      var ops := s.operators;
      var top := ops[|ops| - 1];
      assert ops == ops[..|ops| - 1] + [top];
      var next := ApplyOperator(s).value;
      ReduceOpens(next, p);
    }
  }

  /** One token changes the number of waiting "(" by its own count of "("
      less its count of ")". */
  lemma StepOpens(token: string, s: Stacks)
    ensures Step(token, s).Success? ==>
      Opens(Step(token, s).value.operators) + multiset([token])[")"] == Opens(s.operators) + multiset([token])["("]
  {
    if token == ")" {
      CloseGroupOpens(s);
    } else if IsArithmetic(token) {
      ReduceOpens(s, Precedence(token));
    }
  }

  lemma {:induction false} RunBalanced(t: seq<string>, s: Stacks)
    ensures Run(t, s).Success? ==> Opens(s.operators) + multiset(t)["("] == multiset(t)[")"]
    decreases |t|
  {
    if Run(t, s).Success? {
      if t == [] {
        DrainNoOpen(s);
      } else {
        var next := Step(t[0], s).value;
        RunBalanced(t[1..], next);
        StepOpens(t[0], s);
        assert t == [t[0]] + t[1..];
        assert multiset(t) == multiset([t[0]]) + multiset(t[1..]);
      }
    }
  }

  /** An unmatched "(" or ")" never yields a value. */
  lemma Balanced(tokens: seq<string>)
    ensures multiset(tokens)["("] != multiset(tokens)[")"] ==> Eval(tokens).Failure?
  {
    RunBalanced(tokens, Stacks([], []));
  }

  /** A token the default case rejects. */
  predicate Unreadable(x: string) {
    x != "(" && x != ")" && !IsArithmetic(x) && ParseNum(x).None?
  }

  /** Only "(" and the four operators are ever pushed onto the operator stack. */
  predicate Stackable(operators: seq<string>) {
    forall k :: 0 <= k < |operators| ==> operators[k] == "(" || IsArithmetic(operators[k])
  }

  /** Every member of a is a member of b. */
  predicate Within(a: seq<string>, b: seq<string>) {
    forall x :: x in a ==> x in b
  }

  /** What must be among the tokens t still to read, or on the operator
      stack ops, for the pass to end with error e. */
  predicate Blamed(e: Error, t: seq<string>, ops: seq<string>) {
    match e
    case MismatchedParentheses => ")" in t
    case InvalidNumber => exists x :: x in t && Unreadable(x)
    case DivisionByZero => "/" in t || "/" in ops
    case UnknownOperator => "(" in t || "(" in ops
    case _ => true
  }

  lemma BlameWiden(e: Error, t: seq<string>, ops: seq<string>, t2: seq<string>, ops2: seq<string>)
    requires Within(t, t2) && Within(ops, ops2 + t2)
    requires Blamed(e, t, ops)
    ensures Blamed(e, t2, ops2)
  {
    if e == InvalidNumber {
      var x :| x in t && Unreadable(x);
      assert x in t2;
    } else if e == DivisionByZero && "/" in ops {
      assert "/" in ops2 + t2;
    } else if e == UnknownOperator && "(" in ops {
      assert "(" in ops2 + t2;
    }
  }

  /** applyOperator fails on a stack of operators only with a reason. */
  lemma ApplyBlame(s: Stacks)
    requires |s.operators| > 0 && Stackable(s.operators)
    ensures ApplyOperator(s).Failure? ==> Blamed(ApplyOperator(s).error, [], s.operators)
    ensures ApplyOperator(s).Failure? ==> ApplyOperator(s).error !in {MismatchedParentheses, InvalidNumber}
    ensures ApplyOperator(s).Success? ==> ApplyOperator(s).value.operators <= s.operators
  {
    var ops := s.operators;
    assert ops[|ops| - 1] in ops;
  }

  /** The three inner loops: a failure has a reason on the stack, a success
      leaves a prefix of the stack with at most one more operator gone. */
  lemma {:induction false} DrainBlame(s: Stacks)
    requires Stackable(s.operators)
    ensures Drain(s).Failure? ==> Blamed(Drain(s).error, [], s.operators)
    ensures Drain(s).Failure? ==> Drain(s).error !in {MismatchedParentheses, InvalidNumber}
    decreases |s.operators|
  {
    if |s.operators| > 0 {
      ApplyBlame(s);
      if ApplyOperator(s).Success? {
        var next := ApplyOperator(s).value;
        DrainBlame(next);
        if Drain(s).Failure? {
          BlameWiden(Drain(s).error, [], next.operators, [], s.operators);
        }
      }
    }
  }

  lemma {:induction false} ReduceBlame(s: Stacks, p: nat)
    requires Stackable(s.operators)
    ensures Reduce(s, p).Failure? ==> Blamed(Reduce(s, p).error, [], s.operators)
    ensures Reduce(s, p).Failure? ==> Reduce(s, p).error !in {MismatchedParentheses, InvalidNumber}
    ensures Reduce(s, p).Success? ==> Reduce(s, p).value.operators <= s.operators
    decreases |s.operators|
  {
    if |s.operators| > 0 && Precedence(s.operators[|s.operators| - 1]) >= p {
      ApplyBlame(s);
      if ApplyOperator(s).Success? {
        var next := ApplyOperator(s).value;
        ReduceBlame(next, p);
        if Reduce(s, p).Failure? {
          BlameWiden(Reduce(s, p).error, [], next.operators, [], s.operators);
        }
      }
    }
  }

  lemma {:induction false} CloseGroupBlame(s: Stacks)
    requires Stackable(s.operators)
    ensures CloseGroup(s).Failure? ==> Blamed(CloseGroup(s).error, [")"], s.operators)
    ensures CloseGroup(s).Failure? ==> CloseGroup(s).error != InvalidNumber
    ensures CloseGroup(s).Success? ==> CloseGroup(s).value.operators <= s.operators
    decreases |s.operators|
  {
    if |s.operators| > 0 && s.operators[|s.operators| - 1] != "(" {
      ApplyBlame(s);
      if ApplyOperator(s).Success? {
        var next := ApplyOperator(s).value;
        CloseGroupBlame(next);
        if CloseGroup(s).Failure? {
          BlameWiden(CloseGroup(s).error, [")"], next.operators, [")"], s.operators);
        }
      }
    }
  }

  /** One token: a failure is blamed on the token or the stack, a success
      keeps the stack made of "(" and operators taken from the stack or the
      token. */
  lemma StepBlame(token: string, s: Stacks)
    requires Stackable(s.operators)
    ensures Step(token, s).Failure? ==> Blamed(Step(token, s).error, [token], s.operators)
    ensures Step(token, s).Success? ==>
      Stackable(Step(token, s).value.operators) && Within(Step(token, s).value.operators, s.operators + [token])
  {
    if token == "(" {
    } else if token == ")" {
      CloseGroupBlame(s);
    } else if IsArithmetic(token) {
      ReduceBlame(s, Precedence(token));
      if Reduce(s, Precedence(token)).Failure? {
        BlameWiden(Reduce(s, Precedence(token)).error, [], s.operators, [token], s.operators);
      }
    } else if ParseNum(token).None? {
      assert token in [token];
    }
  }

  lemma {:induction false} RunBlame(t: seq<string>, s: Stacks)
    requires Stackable(s.operators)
    ensures Run(t, s).Failure? ==> Blamed(Run(t, s).error, t, s.operators)
    decreases |t|
  {
    if t == [] {
      DrainBlame(s);
    } else {
      StepBlame(t[0], s);
      assert Within([t[0]], t);
      if Step(t[0], s).Failure? {
        BlameWiden(Step(t[0], s).error, [t[0]], s.operators, t, s.operators);
      } else {
        var next := Step(t[0], s).value;
        RunBlame(t[1..], next);
        if Run(t, s).Failure? {
          assert Within(t[1..], t);
          BlameWiden(Run(t, s).error, t[1..], next.operators, t, s.operators);
        }
      }
    }
  }

  // Counting operands and operators

  /** How many entries of a list are one of the four operators. */
  function OperatorCount(ts: seq<string>): nat {
    if ts == [] then 0 else OperatorCount(ts[..|ts| - 1]) + (if IsArithmetic(ts[|ts| - 1]) then 1 else 0)
  }

  /** A token the switch sends to its default case, to be read as a number. */
  predicate IsOperand(x: string) {
    x != "(" && x != ")" && !IsArithmetic(x)
  }

  /** How many entries of a list are operands. */
  function OperandCount(ts: seq<string>): nat {
    if ts == [] then 0 else OperandCount(ts[..|ts| - 1]) + (if IsOperand(ts[|ts| - 1]) then 1 else 0)
  }

  /** The pass after the tokens read: every number read is on the number
      stack unless an operator consumed it, every operator read is either
      still stacked or applied, and every "(" read is stacked unless a ")"
      closed it. */
  predicate Counted(read: seq<string>, s: Stacks) {
    && Stackable(s.operators)
    && |s.numbers| + OperatorCount(read) == OperandCount(read) + OperatorCount(s.operators)
    && OperatorCount(s.operators) <= OperatorCount(read)
    && Opens(s.operators) + multiset(read)[")"] == multiset(read)["("]
  }

  /** The counts of a list with one more entry. */
  lemma CountsAppend(ts: seq<string>, x: string)
    ensures OperatorCount(ts + [x]) == OperatorCount(ts) + (if IsArithmetic(x) then 1 else 0)
    ensures OperandCount(ts + [x]) == OperandCount(ts) + (if IsOperand(x) then 1 else 0)
    ensures multiset(ts + [x]) == multiset(ts) + multiset{x}
  {
    assert (ts + [x])[..|ts|] == ts;
  }

  /** applyOperator on an operator: one number and one operator fewer, or
      too few numbers while an operator is stacked, or a division by zero. */
  lemma ApplyCount(s: Stacks)
    requires |s.operators| > 0 && Stackable(s.operators) && s.operators[|s.operators| - 1] != "("
    ensures ApplyOperator(s).Success? ==>
      var r := ApplyOperator(s).value;
      && |r.numbers| + 1 == |s.numbers| && OperatorCount(r.operators) + 1 == OperatorCount(s.operators)
      && Opens(r.operators) == Opens(s.operators) && Stackable(r.operators)
    ensures ApplyOperator(s).Failure? ==>
      ApplyOperator(s).error == DivisionByZero
      || (ApplyOperator(s).error == NotEnoughOperands && |s.numbers| < 2 && 0 < OperatorCount(s.operators))
  {
    var ops := s.operators;
    var top := ops[|ops| - 1];
    assert top == ops[|ops| - 1] && IsArithmetic(top);
    assert ops == ops[..|ops| - 1] + [top];
    assert multiset(ops) == multiset(ops[..|ops| - 1]) + multiset{top};
  }

  /** The ")" loop keeps the balance of numbers and stacked operators and
      removes one "("; a shortage of numbers happens only with an operator
      stacked. */
  lemma {:induction false} CloseGroupCount(s: Stacks)
    requires Stackable(s.operators)
    ensures CloseGroup(s).Success? ==>
      var r := CloseGroup(s).value;
      && |r.numbers| + OperatorCount(s.operators) == |s.numbers| + OperatorCount(r.operators)
      && OperatorCount(r.operators) <= OperatorCount(s.operators)
      && Opens(r.operators) + 1 == Opens(s.operators) && Stackable(r.operators)
    ensures CloseGroup(s) == Failure(NotEnoughOperands) ==>
      0 < OperatorCount(s.operators) && |s.numbers| <= OperatorCount(s.operators)
    ensures CloseGroup(s).Failure? ==> CloseGroup(s).error in {NotEnoughOperands, DivisionByZero, MismatchedParentheses}
    decreases |s.operators|
  {
    var ops := s.operators;
    if |ops| > 0 && ops[|ops| - 1] != "(" {
      ApplyCount(s);
      if ApplyOperator(s).Success? {
        CloseGroupCount(ApplyOperator(s).value);
      }
    } else if |ops| > 0 {
      var top := ops[|ops| - 1];
      assert ops == ops[..|ops| - 1] + [top];
      CountsAppend(ops[..|ops| - 1], top);
    }
  }

  /** The operator loop keeps the same balance and every "(". */
  lemma {:induction false} ReduceCount(s: Stacks, p: nat)
    requires Stackable(s.operators) && p > 0
    ensures Reduce(s, p).Success? ==>
      var r := Reduce(s, p).value;
      && |r.numbers| + OperatorCount(s.operators) == |s.numbers| + OperatorCount(r.operators)
      && OperatorCount(r.operators) <= OperatorCount(s.operators)
      && Opens(r.operators) == Opens(s.operators) && Stackable(r.operators)
    ensures Reduce(s, p) == Failure(NotEnoughOperands) ==>
      0 < OperatorCount(s.operators) && |s.numbers| <= OperatorCount(s.operators)
    ensures Reduce(s, p).Failure? ==> Reduce(s, p).error in {NotEnoughOperands, DivisionByZero}
    decreases |s.operators|
  {
    var ops := s.operators;
    if |ops| > 0 && Precedence(ops[|ops| - 1]) >= p {
      ApplyCount(s);
      if ApplyOperator(s).Success? {
        ReduceCount(ApplyOperator(s).value, p);
      }
    }
  }

  /** The final loop applies every stacked operator; it fails on a "(" left
      over, or for want of numbers, or on a division by zero. */
  lemma {:induction false} DrainCount(s: Stacks)
    requires Stackable(s.operators)
    ensures Drain(s).Success? ==> |Drain(s).value.numbers| + OperatorCount(s.operators) == |s.numbers|
    ensures Drain(s) == Failure(UnknownOperator) ==> "(" in s.operators
    ensures Drain(s).Failure? ==> Drain(s).error in {NotEnoughOperands, DivisionByZero, UnknownOperator}
    ensures Drain(s) == Failure(NotEnoughOperands) ==>
      "(" in s.operators || (0 < OperatorCount(s.operators) && |s.numbers| <= OperatorCount(s.operators))
    decreases |s.operators|
  {
    var ops := s.operators;
    if |ops| > 0 {
      var top := ops[|ops| - 1];
      assert top in ops;
      if top != "(" {
        ApplyCount(s);
        if ApplyOperator(s).Success? {
          var next := ApplyOperator(s).value;
          DrainCount(next);
          assert Within(next.operators, ops) by {
            ApplyBlame(s);
          }
        }
      }
    }
  }

  /** One token keeps the counts in step; a shortage of numbers shows in the
      tokens read, the current one included. */
  lemma StepCount(read: seq<string>, token: string, s: Stacks)
    requires Counted(read, s)
    ensures Step(token, s).Success? ==> Counted(read + [token], Step(token, s).value)
    ensures Step(token, s) == Failure(NotEnoughOperands) ==>
      0 < OperatorCount(read + [token]) && OperandCount(read + [token]) <= OperatorCount(read + [token])
    ensures Step(token, s).Failure? ==> Step(token, s).error !in {UnknownOperator, InvalidExpression}
  {
    CountsAppend(read, token);
    if token == "(" {
      OpenCount(read, s);
    } else if token == ")" {
      CloseCount(read, s);
    } else if IsArithmetic(token) {
      OperatorStepCount(read, token, s);
      ReduceCount(s, Precedence(token));
    } else if ParseNum(token).Some? {
      assert Step(token, s) == Success(Stacks(s.numbers + [ParseNum(token).value], s.operators));
    }
  }

  lemma OpenCount(read: seq<string>, s: Stacks)
    requires Counted(read, s)
    ensures Counted(read + ["("], Stacks(s.numbers, s.operators + ["("]))
  {
    CountsAppend(read, "(");
    CountsAppend(s.operators, "(");
    StackablePush(s.operators, "(");
  }

  lemma StackablePush(ops: seq<string>, x: string)
    requires Stackable(ops) && (x == "(" || IsArithmetic(x))
    ensures Stackable(ops + [x])
  {
    forall k | 0 <= k < |ops| + 1 ensures (ops + [x])[k] == "(" || IsArithmetic((ops + [x])[k]) {
      if k < |ops| {
        assert (ops + [x])[k] == ops[k];
      }
    }
  }

  lemma CloseCount(read: seq<string>, s: Stacks)
    requires Counted(read, s)
    ensures CloseGroup(s).Success? ==> Counted(read + [")"], CloseGroup(s).value)
    ensures CloseGroup(s) == Failure(NotEnoughOperands) ==>
      0 < OperatorCount(read + [")"]) && OperandCount(read + [")"]) <= OperatorCount(read + [")"])
    ensures CloseGroup(s).Failure? ==> CloseGroup(s).error !in {UnknownOperator, InvalidExpression}
  {
    CountsAppend(read, ")");
    CloseGroupCount(s);
  }

  lemma OperatorStepCount(read: seq<string>, op: string, s: Stacks)
    requires Counted(read, s) && IsArithmetic(op)
    ensures Reduce(s, Precedence(op)).Success? ==>
      var r := Reduce(s, Precedence(op)).value;
      Counted(read + [op], Stacks(r.numbers, r.operators + [op]))
    ensures Reduce(s, Precedence(op)) == Failure(NotEnoughOperands) ==>
      0 < OperatorCount(read + [op]) && OperandCount(read + [op]) <= OperatorCount(read + [op])
  {
    CountsAppend(read, op);
    ReduceCount(s, Precedence(op));
    if Reduce(s, Precedence(op)).Success? {
      var r := Reduce(s, Precedence(op)).value;
      CountsAppend(r.operators, op);
    }
  }

  /** More "(" than ")" among the tokens. */
  predicate Unclosed(tokens: seq<string>) {
    multiset(tokens)["("] > multiset(tokens)[")"]
  }

  /** Some prefix of the tokens holds an operator but no more operands than
      operators. */
  predicate Short(tokens: seq<string>) {
    exists k :: 0 < k <= |tokens| && 0 < OperatorCount(tokens[..k]) && OperandCount(tokens[..k]) <= OperatorCount(tokens[..k])
  }

  /** What an outcome of the pass over the tokens says about them: an
      unknown operator means a "(" never closed, a shortage of numbers means
      a "(" never closed or a prefix with no more operands than operators,
      and a wrong count of numbers at the end means the tokens do not hold
      one operand more than operators. */
  predicate Explained(tokens: seq<string>, r: Result<real, Error>) {
    && (r == Failure(UnknownOperator) ==> Unclosed(tokens))
    && (r == Failure(NotEnoughOperands) ==> Unclosed(tokens) || Short(tokens))
    && (r == Failure(InvalidExpression) ==> OperandCount(tokens) != OperatorCount(tokens) + 1)
  }

  /** The end of the pass, once every token is read. */
  lemma FinishCount(tokens: seq<string>, s: Stacks)
    requires Counted(tokens, s)
    ensures Explained(tokens, Finish(s))
  {
    DrainCount(s);
    if Drain(s).Success? {
      var d := Drain(s).value;
      assert Finish(s) == if |d.numbers| != 1 then Failure(InvalidExpression) else Success(d.numbers[0]);
      assert |d.numbers| + OperatorCount(tokens) == OperandCount(tokens);
    } else {
      assert Finish(s) == Failure(Drain(s).error);
      if "(" in s.operators {
        assert Opens(s.operators) > 0;
      } else if Drain(s).error == NotEnoughOperands {
        assert tokens[..|tokens|] == tokens;
        assert 0 < OperatorCount(tokens[..|tokens|]) && OperandCount(tokens[..|tokens|]) <= OperatorCount(tokens[..|tokens|]);
      }
    }
  }

  /** A token that stops the pass. */
  lemma StepFailCount(tokens: seq<string>, i: nat, s: Stacks)
    requires i < |tokens| && Counted(tokens[..i], s) && Step(tokens[i], s).Failure?
    ensures Explained(tokens, Run(tokens[i..], s))
  {
    RunStep(tokens, i, s);
    assert tokens[..i + 1] == tokens[..i] + [tokens[i]];
    StepCount(tokens[..i], tokens[i], s);
    if Step(tokens[i], s).error == NotEnoughOperands {
      assert 0 < OperatorCount(tokens[..i + 1]) && OperandCount(tokens[..i + 1]) <= OperatorCount(tokens[..i + 1]);
    }
  }

  /** A token the pass gets past keeps the counts in step. */
  lemma StepNextCount(tokens: seq<string>, i: nat, s: Stacks)
    requires i < |tokens| && Counted(tokens[..i], s) && Step(tokens[i], s).Success?
    ensures Counted(tokens[..i + 1], Step(tokens[i], s).value)
    ensures Run(tokens[i..], s) == Run(tokens[i + 1..], Step(tokens[i], s).value)
  {
    RunStep(tokens, i, s);
    assert tokens[..i + 1] == tokens[..i] + [tokens[i]];
    StepCount(tokens[..i], tokens[i], s);
  }

  /** The end of the token list. */
  lemma EndCount(tokens: seq<string>, i: nat, s: Stacks)
    requires i == |tokens| && Counted(tokens[..i], s)
    ensures Explained(tokens, Run(tokens[i..], s))
  {
    assert tokens[i..] == [] && tokens[..i] == tokens;
    FinishCount(tokens, s);
  }

  /** The rest of the pass from the stacks after tokens[..i]. */
  lemma {:induction false} RunCount(tokens: seq<string>, i: nat, s: Stacks)
    requires i <= |tokens| && Counted(tokens[..i], s)
    ensures Explained(tokens, Run(tokens[i..], s))
    decreases |tokens| - i
  {
    if i == |tokens| {
      EndCount(tokens, i, s);
    } else if Step(tokens[i], s).Failure? {
      StepFailCount(tokens, i, s);
    } else {
      StepNextCount(tokens, i, s);
      RunCount(tokens, i + 1, Step(tokens[i], s).value);
    }
  }

  /** Where each error of evaluate comes from: a ")" for a mismatch, an
      unreadable token for an invalid number, a "/" for a division by zero,
      a "(" never closed for an unknown operator (the only non-operator ever
      stacked, met by the final loop), a "(" never closed or a prefix with
      no more operands than operators for a shortage of numbers, and an
      operand count other than one more than the operator count for an
      invalid expression. */
  lemma EvalErrors(tokens: seq<string>)
    ensures Eval(tokens) == Failure(MismatchedParentheses) ==> ")" in tokens
    ensures Eval(tokens) == Failure(InvalidNumber) ==> exists x :: x in tokens && Unreadable(x)
    ensures Eval(tokens) == Failure(DivisionByZero) ==> "/" in tokens
    ensures Eval(tokens) == Failure(UnknownOperator) ==> "(" in tokens
    ensures Eval(tokens) == Failure(UnknownOperator) ==> Unclosed(tokens)
    ensures Eval(tokens) == Failure(NotEnoughOperands) ==> Unclosed(tokens) || Short(tokens)
    ensures Eval(tokens) == Failure(InvalidExpression) ==> OperandCount(tokens) != OperatorCount(tokens) + 1
  {
    RunBlame(tokens, Stacks([], []));
    assert tokens[0..] == tokens && tokens[..0] == [];
    RunCount(tokens, 0, Stacks([], []));
  }
}
