/** What the converter's postfix output means: a postfix list is evaluated
    with one stack of numbers, and for every token list without a unary
    minus the value of the converted list is exactly what the direct
    evaluator computes from the infix tokens, error included. The
    converter's state is shown to mirror the evaluator's two stacks token
    by token: the converter's operator stack is the evaluator's, and its
    output evaluates to the evaluator's number stack. */
module Postfix {
  import opened Wrappers
  import opened Errors
  import opened Numbers
  import Rpn
  import Calculation

  /** One entry of a postfix list applied to a stack of numbers: an operator
      combines the two top numbers as applyOperator does; any other entry
      is read as a number. */
  function Apply(numbers: seq<real>, t: string): Result<seq<real>, Error> {
    if Calculation.IsArithmetic(t) then
      if |numbers| < 2 then Failure(NotEnoughOperands)
      else
        var n := |numbers|;
        match Calculation.Arith(t, numbers[n - 2], numbers[n - 1])
        case Failure(e) => Failure(e)
        case Success(v) => Success(numbers[..n - 2] + [v])
    else
      match ParseNum(t)
      case None => Failure(InvalidNumber)
      case Some(v) => Success(numbers + [v])
  }

  /** The stack of numbers left by a postfix list, or its first error. */
  function Stack(ts: seq<string>): Result<seq<real>, Error>
    decreases |ts|
  {
    if ts == [] then Success([])
    else
      match Stack(ts[..|ts| - 1])
      case Failure(e) => Failure(e)
      case Success(numbers) => Apply(numbers, ts[|ts| - 1])
  }

  /** The value of a postfix list: its stack must hold exactly one number. */
  function Value(ts: seq<string>): Result<real, Error> {
    match Stack(ts)
    case Failure(e) => Failure(e)
    case Success(numbers) => if |numbers| != 1 then Failure(InvalidExpression) else Success(numbers[0])
  }

  /** No "-" of the list is in a sign position, where the converter writes
      "0 x -" and the direct evaluator has no counterpart. */
  predicate Unsigned(tokens: seq<string>) {
    forall j :: 0 <= j < |tokens| ==> !Rpn.Unary(tokens, j)
  }

  /** The converter's state st stands for the evaluator's stacks s: the same
      operator stack, the parenthesis counter equal to the number of "("
      on it, and an output that evaluates to s's numbers. */
  predicate Mirrors(st: Rpn.State, s: Calculation.Stacks) {
    && st.stack == s.operators
    && Calculation.Stackable(s.operators)
    && st.count == Calculation.Opens(s.operators)
    && Stack(st.output) == Success(s.numbers)
  }

  lemma StackAppend(ts: seq<string>, t: string)
    ensures Stack(ts + [t]) == if Stack(ts).Failure? then Failure(Stack(ts).error) else Apply(Stack(ts).value, t)
  {
    assert (ts + [t])[..|ts|] == ts;
  }

  /** Once a postfix list fails, every list it begins fails the same way. */
  lemma {:induction false} StackFailed(a: seq<string>, c: seq<string>)
    requires a <= c && Stack(a).Failure?
    ensures Stack(c) == Stack(a)
    decreases |c|
  {
    if |c| > |a| {
      var init := c[..|c| - 1];
      assert a <= init;
      StackFailed(a, init);
      assert c == init + [c[|c| - 1]];
      StackAppend(init, c[|c| - 1]);
    } else {
      assert a == c;
    }
  }

  /** Applying the top operator of the evaluator's stacks is the postfix
      step for that operator on its numbers. */
  lemma ApplyAgrees(s: Calculation.Stacks)
    requires |s.operators| > 0 && Calculation.IsArithmetic(s.operators[|s.operators| - 1])
    ensures var apply := Apply(s.numbers, s.operators[|s.operators| - 1]);
      Calculation.ApplyOperator(s) ==
        if apply.Failure? then Failure(apply.error)
        else Success(Calculation.Stacks(apply.value, s.operators[..|s.operators| - 1]))
  {
  }

  lemma PrecedenceAgrees(t: string)
    requires t == "(" || Calculation.IsArithmetic(t)
    ensures Rpn.PrecedenceOf(t) == Calculation.Precedence(t)
  {
  }

  lemma StackableTop(ops: seq<string>)
    requires ops != [] && Calculation.Stackable(ops)
    ensures Calculation.Stackable(ops[..|ops| - 1])
    ensures ops[|ops| - 1] == "(" || Calculation.IsArithmetic(ops[|ops| - 1])
  {
  }

  /** Unstacking only ever adds to the output. */
  lemma {:induction false} UnstackGrows(stack: seq<string>, output: seq<string>, bound: nat)
    ensures output <= Rpn.Unstack(stack, output, bound).1
    decreases |stack|
  {
    if stack != [] {
      var top := stack[|stack| - 1];
      if top != "(" && Rpn.PrecedenceOf(top) >= bound {
        UnstackGrows(stack[..|stack| - 1], output + [top], bound);
      }
    }
  }

  lemma {:induction false} DrainGrows(stack: seq<string>, output: seq<string>)
    ensures output <= Rpn.Drain(stack, output)
    decreases |stack|
  {
    if stack != [] {
      DrainGrows(stack[..|stack| - 1], output + [stack[|stack| - 1]]);
    }
  }

  /** After a failed postfix prefix the converted list fails the same way. */
  lemma Abandoned(first: seq<string>, output: seq<string>, e: Error)
    requires first <= output && Stack(first) == Failure(e)
    ensures Value(output) == Failure(e)
  {
    StackFailed(first, output);
  }

  /** The operator case: unstacking what binds at least as tightly as p is
      the evaluator's operator loop on the same stack. */
  lemma {:induction false} UnstackReduce(stack: seq<string>, output: seq<string>, numbers: seq<real>, p: nat)
    requires p > 0 && Calculation.Stackable(stack) && Stack(output) == Success(numbers)
    ensures var u := Rpn.Unstack(stack, output, p);
      var r := Calculation.Reduce(Calculation.Stacks(numbers, stack), p);
      if r.Failure? then Stack(u.1) == Failure(r.error)
      else r.value.operators == u.0 && Stack(u.1) == Success(r.value.numbers)
    decreases |stack|
  {
    if stack != [] {
      var top := stack[|stack| - 1];
      var init := stack[..|stack| - 1];
      StackableTop(stack);
      PrecedenceAgrees(top);
      if top != "(" && Rpn.PrecedenceOf(top) >= p {
        ApplyAgrees(Calculation.Stacks(numbers, stack));
        StackAppend(output, top);
        var apply := Apply(numbers, top);
        if apply.Failure? {
          UnstackGrows(init, output + [top], p);
          StackFailed(output + [top], Rpn.Unstack(init, output + [top], p).1);
        } else {
          UnstackReduce(init, output + [top], apply.value, p);
        }
      }
    }
  }

  /** What the ")" case of the converter leaves, against the evaluator's
      ")" loop. */
  predicate Closed(u: (seq<string>, seq<string>), r: Result<Calculation.Stacks, Error>) {
    if r.Failure? then Stack(u.1) == Failure(r.error)
    else u.0 != [] && r.value.operators == u.0[..|u.0| - 1] && Stack(u.1) == Success(r.value.numbers)
  }

  /** One entry above the "(": both sides apply it. */
  lemma CloseUnfold(stack: seq<string>, output: seq<string>, numbers: seq<real>)
    requires stack != [] && Calculation.IsArithmetic(stack[|stack| - 1]) && Stack(output) == Success(numbers)
    ensures var top := stack[|stack| - 1];
      var apply := Apply(numbers, top);
      && Rpn.Unstack(stack, output, 0) == Rpn.Unstack(stack[..|stack| - 1], output + [top], 0)
      && Stack(output + [top]) == apply
      && Calculation.CloseGroup(Calculation.Stacks(numbers, stack)) ==
        if apply.Failure? then Failure(apply.error)
        else Calculation.CloseGroup(Calculation.Stacks(apply.value, stack[..|stack| - 1]))
  {
    ApplyAgrees(Calculation.Stacks(numbers, stack));
    StackAppend(output, stack[|stack| - 1]);
  }

  /** The ")" case: unstacking down to the nearest "(" is the evaluator's
      ")" loop, and the "(" it stops at is the one the loop drops. */
  lemma {:induction false} UnstackClose(stack: seq<string>, output: seq<string>, numbers: seq<real>)
    requires "(" in stack && Calculation.Stackable(stack) && Stack(output) == Success(numbers)
    ensures Closed(Rpn.Unstack(stack, output, 0), Calculation.CloseGroup(Calculation.Stacks(numbers, stack)))
    decreases |stack|
  {
    var top := stack[|stack| - 1];
    var init := stack[..|stack| - 1];
    StackableTop(stack);
    if top != "(" {
      assert "(" in init by {
        assert stack == init + [top];
      }
      CloseUnfold(stack, output, numbers);
      var apply := Apply(numbers, top);
      if apply.Failure? {
        UnstackGrows(init, output + [top], 0);
        StackFailed(output + [top], Rpn.Unstack(init, output + [top], 0).1);
      } else {
        UnstackClose(init, output + [top], apply.value);
      }
    }
  }

  /** The end: popping the stack onto the output is the evaluator's final
      loop when no "(" is left. */
  lemma {:induction false} DrainAgrees(stack: seq<string>, output: seq<string>, numbers: seq<real>)
    requires "(" !in stack && Calculation.Stackable(stack) && Stack(output) == Success(numbers)
    ensures var d := Calculation.Drain(Calculation.Stacks(numbers, stack));
      Stack(Rpn.Drain(stack, output)) == if d.Failure? then Failure(d.error) else Success(d.value.numbers)
    decreases |stack|
  {
    if stack != [] {
      var top := stack[|stack| - 1];
      var init := stack[..|stack| - 1];
      StackableTop(stack);
      assert top in stack;
      assert "(" !in init by {
        assert stack == init + [top];
      }
      ApplyAgrees(Calculation.Stacks(numbers, stack));
      StackAppend(output, top);
      var apply := Apply(numbers, top);
      if apply.Failure? {
        DrainGrows(init, output + [top]);
        StackFailed(output + [top], Rpn.Drain(init, output + [top]));
      } else {
        DrainAgrees(init, output + [top], apply.value);
      }
    }
  }

  /** After the last token the converted list has the evaluator's value. */
  lemma FinishAgrees(st: Rpn.State, s: Calculation.Stacks)
    requires Mirrors(st, s)
    ensures Rpn.Finish(st).Success? ==> Value(Rpn.Finish(st).value) == Calculation.Finish(s)
  {
    if st.count == 0 {
      DrainAgrees(st.stack, st.output, s.numbers);
    }
  }

  /** A step of the converter that succeeds either mirrors the evaluator's
      step or has already made the postfix list fail as the evaluator does. */
  predicate StepMirrors(next: Rpn.State, c: Result<Calculation.Stacks, Error>) {
    if c.Failure? then Stack(next.output) == Failure(c.error) else Mirrors(next, c.value)
  }

  lemma OpenAgrees(st: Rpn.State, s: Calculation.Stacks)
    requires Mirrors(st, s)
    ensures Mirrors(Rpn.State(st.stack + ["("], st.output, st.count + 1), Calculation.Step("(", s).value)
  {
    Calculation.StackablePush(s.operators, "(");
    Calculation.CountsAppend(s.operators, "(");
  }

  lemma CloseAgrees(st: Rpn.State, s: Calculation.Stacks)
    requires Mirrors(st, s) && st.count >= 1
    ensures StepMirrors(Rpn.Close(st), Calculation.Step(")", s))
  {
    assert "(" in s.operators;
    UnstackClose(st.stack, st.output, s.numbers);
    Calculation.CloseGroupCount(s);
  }

  lemma OperatorAgrees(tokens: seq<string>, i: nat, st: Rpn.State, s: Calculation.Stacks)
    requires i < |tokens| && !Rpn.Unary(tokens, i) && Calculation.IsArithmetic(tokens[i]) && Mirrors(st, s)
    ensures StepMirrors(Rpn.PushOperator(tokens, i, st), Calculation.Step(tokens[i], s))
  {
    var op := tokens[i];
    PrecedenceAgrees(op);
    UnstackReduce(st.stack, st.output, s.numbers, Calculation.Precedence(op));
    Calculation.ReduceCount(s, Calculation.Precedence(op));
    var r := Calculation.Reduce(s, Calculation.Precedence(op));
    if r.Success? {
      Calculation.StackablePush(r.value.operators, op);
      Calculation.CountsAppend(r.value.operators, op);
    }
  }

  lemma OperandAgrees(token: string, st: Rpn.State, s: Calculation.Stacks)
    requires token != "(" && token != ")" && !Calculation.IsArithmetic(token) && Mirrors(st, s)
    ensures StepMirrors(Rpn.State(st.stack, st.output + [token], st.count), Calculation.Step(token, s))
  {
    StackAppend(st.output, token);
  }

  /** One token: the converter's step, when it succeeds, mirrors the
      evaluator's. */
  lemma StepAgrees(tokens: seq<string>, i: nat, st: Rpn.State, s: Calculation.Stacks)
    requires i < |tokens| && Unsigned(tokens) && Mirrors(st, s)
    ensures Rpn.Step(tokens, i, st).Success? ==> StepMirrors(Rpn.Step(tokens, i, st).value, Calculation.Step(tokens[i], s))
  {
    var token := tokens[i];
    if token == "(" {
      OpenAgrees(st, s);
    } else if token == ")" {
      if st.count >= 1 {
        CloseAgrees(st, s);
      }
    } else if Rpn.IsOperator(token) {
      OperatorAgrees(tokens, i, st, s);
    } else {
      OperandAgrees(token, st, s);
    }
  }

  /** A converter step only ever adds to the output. */
  lemma StepGrows(tokens: seq<string>, i: nat, st: Rpn.State)
    requires i < |tokens|
    ensures Rpn.Step(tokens, i, st).Success? ==> st.output <= Rpn.Step(tokens, i, st).value.output
  {
    var token := tokens[i];
    if token == ")" {
      UnstackGrows(st.stack, st.output, 0);
    } else if Rpn.IsOperator(token) {
      var pending := if Rpn.Unary(tokens, i) then st.output + ["0"] else st.output;
      UnstackGrows(st.stack, pending, Rpn.PrecedenceOf(token));
    }
  }

  /** The rest of a conversion only ever adds to the output. */
  lemma {:induction false} RunGrows(tokens: seq<string>, i: nat, st: Rpn.State)
    requires i <= |tokens|
    ensures Rpn.Run(tokens, i, st).Success? ==> st.output <= Rpn.Run(tokens, i, st).value
    decreases |tokens| - i
  {
    if i == |tokens| {
      DrainGrows(st.stack, st.output);
    } else {
      StepGrows(tokens, i, st);
      if Rpn.Step(tokens, i, st).Success? {
        RunGrows(tokens, i + 1, Rpn.Step(tokens, i, st).value);
      }
    }
  }

  lemma EndAgrees(tokens: seq<string>, st: Rpn.State, s: Calculation.Stacks)
    requires Mirrors(st, s)
    ensures Rpn.Run(tokens, |tokens|, st).Success? ==>
      Value(Rpn.Run(tokens, |tokens|, st).value) == Calculation.Run(tokens[|tokens|..], s)
  {
    assert tokens[|tokens|..] == [];
    FinishAgrees(st, s);
  }

  lemma FailAgrees(tokens: seq<string>, i: nat, next: Rpn.State, s: Calculation.Stacks)
    requires i < |tokens| && Calculation.Step(tokens[i], s).Failure?
    requires Stack(next.output) == Failure(Calculation.Step(tokens[i], s).error)
    ensures Rpn.Run(tokens, i + 1, next).Success? ==>
      Value(Rpn.Run(tokens, i + 1, next).value) == Calculation.Run(tokens[i..], s)
  {
    Calculation.RunStep(tokens, i, s);
    RunGrows(tokens, i + 1, next);
    if Rpn.Run(tokens, i + 1, next).Success? {
      Abandoned(next.output, Rpn.Run(tokens, i + 1, next).value, Calculation.Step(tokens[i], s).error);
    }
  }

  /** The rest of the conversion, from mirroring states, yields a postfix
      list whose value is what the evaluator computes from the same rest. */
  lemma {:induction false} RunAgrees(tokens: seq<string>, i: nat, st: Rpn.State, s: Calculation.Stacks)
    requires i <= |tokens| && Unsigned(tokens) && Mirrors(st, s)
    ensures Rpn.Run(tokens, i, st).Success? ==> Value(Rpn.Run(tokens, i, st).value) == Calculation.Run(tokens[i..], s)
    decreases |tokens| - i
  {
    if i == |tokens| {
      EndAgrees(tokens, st, s);
    } else if Rpn.Step(tokens, i, st).Success? {
      var next := Rpn.Step(tokens, i, st).value;
      StepAgrees(tokens, i, st, s);
      var c := Calculation.Step(tokens[i], s);
      if c.Failure? {
        FailAgrees(tokens, i, next, s);
      } else {
        Calculation.RunStep(tokens, i, s);
        RunAgrees(tokens, i + 1, next, c.value);
      }
    }
  }

  /** convertToRPN and evaluate agree: whenever a token list without a
      unary minus converts, its postfix form has the direct evaluator's
      value, or fails with the evaluator's error. */
  lemma ConvertedValue(tokens: seq<string>)
    requires Unsigned(tokens)
    ensures Rpn.Rpn(tokens).Success? ==> Value(Rpn.Rpn(tokens).value) == Calculation.Eval(tokens)
  {
    assert tokens[0..] == tokens;
    RunAgrees(tokens, 0, Rpn.State([], [], 0), Calculation.Stacks([], []));
  }

  /** A sign is where the two programs part: the evaluator fails on "- 3",
      while the converter's "0 3 -" is worth -3. */
  lemma SignDiffers()
    ensures Rpn.Rpn(["-", "3"]) == Success(["0", "3", "-"])
    ensures Value(["0", "3", "-"]) == Success(-3.0)
    ensures Calculation.Eval(["-", "3"]) == Failure(NotEnoughOperands)
  {
    SignConverts();
    SignValue();
    SignFails();
  }

  lemma SignConverts()
    ensures Rpn.Rpn(["-", "3"]) == Success(["0", "3", "-"])
  {
    var t := ["-", "3"];
    var s1 := Rpn.State(["-"], ["0"], 0);
    assert Rpn.Run(t, 0, Rpn.State([], [], 0)) == Rpn.Run(t, 1, s1) by {
      assert Rpn.Unary(t, 0);
      assert [] + ["0"] == ["0"];
      assert [] + ["-"] == ["-"];
    }
    var s2 := Rpn.State(["-"], ["0", "3"], 0);
    assert Rpn.Run(t, 1, s1) == Rpn.Run(t, 2, s2) by {
      assert Rpn.NumericChar("3"[0]);
      assert t[1] != "(" && t[1] != ")" && !Rpn.IsOperator(t[1]) && Rpn.Numeric(t[1]);
      assert ["0"] + ["3"] == ["0", "3"];
    }
    assert Rpn.Run(t, 2, s2) == Success(["0", "3", "-"]) by {
      assert ["-"][..0] == [];
      assert ["0", "3"] + ["-"] == ["0", "3", "-"];
    }
  }

  lemma SignValue()
    ensures Value(["0", "3", "-"]) == Success(-3.0)
  {
    ParseDigits("0");
    assert "0"[..0] == [];
    ParseDigits("3");
    assert "3"[..0] == [];
    ValueBinary("0", "3", "-", 0.0, 3.0);
  }

  /** The postfix list x y op is worth x op y. */
  lemma ValueBinary(x: string, y: string, op: string, a: real, b: real)
    requires ParseNum(x) == Some(a) && ParseNum(y) == Some(b) && Calculation.IsArithmetic(op)
    requires !Calculation.IsArithmetic(x) && !Calculation.IsArithmetic(y)
    ensures Value([x, y, op]) == Calculation.Arith(op, a, b)
  {
    StackAppend([], x);
    assert [] + [x] == [x] && [] + [a] == [a];
    StackAppend([x], y);
    assert [x] + [y] == [x, y] && [a] + [b] == [a, b];
    StackAppend([x, y], op);
    assert [x, y] + [op] == [x, y, op];
    match Calculation.Arith(op, a, b)
    case Failure(e) =>
    case Success(v) =>
      assert [a, b][..0] + [v] == [v];
  }

  lemma SignFails()
    ensures Calculation.Eval(["-", "3"]) == Failure(NotEnoughOperands)
  {
    var s0 := Calculation.Stacks([], []);
    var s1 := Calculation.Stacks([], ["-"]);
    Calculation.StepPush("-", s0);
    assert [] + ["-"] == ["-"];
    Calculation.RunHead("-", ["3"], s0);
    assert ["-"] + ["3"] == ["-", "3"];
    ParseDigits("3");
    assert "3"[..0] == [];
    Calculation.RunLast("3", s1, 3.0);
    assert [] + [3.0] == [3.0];
  }
}
