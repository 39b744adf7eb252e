/** The infix-to-postfix conversion of the orchestrator (a shunting-yard pass
    with a parenthesis counter, a check for a literal division by "0" and
    unary minus written as "0 x -"), together with the small token
    predicates next to it. */
module Rpn {
  import opened Wrappers
  import opened Errors
  import opened Numbers
  import opened Shared

  /** Binding strength of an operator character; a character outside the
      table reads as 0, as a missing key of a Go map does. */
  function Precedence(c: char): nat {
    if c == '+' || c == '-' then 1
    else if c == '*' || c == '/' then 2
    else 0
  }

  /** The precedence looked up on the first character of a stack entry. */
  function PrecedenceOf(t: string): nat {
    if t == [] then 0 else Precedence(t[0])
  }

  /** isOperator: the four operator tokens are exactly the one-character
      tokens that have an entry in the precedence table. */
  function IsOperator(t: string): (r: bool)
    ensures r <==> |t| == 1 && Precedence(t[0]) > 0
  {
    t == "+" || t == "-" || t == "*" || t == "/"
  }

  /** A token that is neither a parenthesis nor an operator. */
  predicate IsOperand(t: string) {
    t != "(" && t != ")" && !IsOperator(t)
  }

  predicate NumericChar(c: char) {
    IsDigit(c) || c == '.' || c == ',' || c == '-'
  }

  /** What IsNumeric accepts: text made only of digits, '.', ',' and '-'
      (the empty text included). */
  predicate Numeric(s: string) {
    forall i :: 0 <= i < |s| ==> NumericChar(s[i])
  }

  /** IsNumeric: the loop over the characters that stops at the first one
      outside the numeric set. */
  method IsNumeric(s: string) returns (b: bool)
    ensures b == Numeric(s)
  {
    for i := 0 to |s|
      invariant forall j :: 0 <= j < i ==> NumericChar(s[j])
    {
      if !NumericChar(s[i]) {
        return false;
      }
    }
    return true;
  }

  /** Complete: a task can be handed out once both operands are numerals. */
  predicate Complete(task: Task) {
    Numeric(task.arg1) && Numeric(task.arg2)
  }

  /** A "-" at the start, after "(" or after another operator is a sign. */
  predicate Unary(tokens: seq<string>, i: int)
    requires 0 <= i < |tokens|
  {
    tokens[i] == "-" && (i == 0 || tokens[i - 1] == "(" || IsOperator(tokens[i - 1]))
  }

  /** The converter's state: operator stack, output queue and the number of
      parentheses open. */
  datatype State = State(stack: seq<string>, output: seq<string>, count: int)

  /** Moves entries from the top of the stack to the output while the top is
      not "(" and binds at least as tightly as bound. The ")" case uses bound
      0, which every entry meets, so it stops only at "(" or at the bottom. */
  function Unstack(stack: seq<string>, output: seq<string>, bound: nat): (seq<string>, seq<string>)
    decreases |stack|
  {
    if stack == [] then (stack, output)
    else
      var top := stack[|stack| - 1];
      if top != "(" && PrecedenceOf(top) >= bound then
        Unstack(stack[..|stack| - 1], output + [top], bound)
      else (stack, output)
  }

  /** ")": unstack down to the nearest "(" and drop it. */
  function Close(st: State): State {
    var (stack, output) := Unstack(st.stack, st.output, 0);
    State(if stack != [] then stack[..|stack| - 1] else stack, output, st.count - 1)
  }

  /** An operator: "0" first when it is a unary minus, then unstack what binds
      at least as tightly, then push the operator. */
  function PushOperator(tokens: seq<string>, i: int, st: State): State
    requires 0 <= i < |tokens|
  {
    var pending := if Unary(tokens, i) then st.output + ["0"] else st.output;
    var (stack, output) := Unstack(st.stack, pending, PrecedenceOf(tokens[i]));
    State(stack + [tokens[i]], output, st.count)
  }

  /** The effect of the token at index i. */
  function Step(tokens: seq<string>, i: int, st: State): Result<State, Error>
    requires 0 <= i < |tokens|
  {
    var token := tokens[i];
    if token == "(" then
      Success(State(st.stack + [token], st.output, st.count + 1))
    else if token == ")" then
      if st.count - 1 < 0 then Failure(MismatchedParentheses) else Success(Close(st))
    else if IsOperator(token) then
      if token == "/" && i < |tokens| - 1 && tokens[i + 1] == "0" then Failure(DivisionByZero)
      else Success(PushOperator(tokens, i, st))
    else if !Numeric(token) && !HasPrefix(token, "id") then Failure(InvalidNumber)
    else Success(State(st.stack, st.output + [token], st.count))
  }

  /** Pops every entry of the stack onto the output. */
  function Drain(stack: seq<string>, output: seq<string>): seq<string>
    decreases |stack|
  {
    if stack == [] then output else Drain(stack[..|stack| - 1], output + [stack[|stack| - 1]])
  }

  /** After the last token: unclosed parentheses are an error, otherwise the
      stack is emptied onto the output. */
  function Finish(st: State): Result<seq<string>, Error> {
    if st.count != 0 then Failure(MismatchedParentheses)
    else Success(Drain(st.stack, st.output))
  }

  /** The conversion of tokens[i..] from state st. */
  function Run(tokens: seq<string>, i: int, st: State): Result<seq<string>, Error>
    requires 0 <= i <= |tokens|
    decreases |tokens| - i
  {
    if i == |tokens| then Finish(st)
    else
      match Step(tokens, i, st)
      case Failure(e) => Failure(e)
      case Success(next) => Run(tokens, i + 1, next)
  }

  /** convertToRPN as a function of the token list. */
  function Rpn(tokens: seq<string>): Result<seq<string>, Error> {
    Run(tokens, 0, State([], [], 0))
  }

  /** convertToRPN: the loop over the tokens with the stack, the output and
      the parenthesis counter. */
  method ConvertToRpn(tokens: seq<string>) returns (r: Result<seq<string>, Error>)
    ensures r == Rpn(tokens)
  {
    var stack: seq<string> := [];
    var output: seq<string> := [];
    var count := 0;
    for i := 0 to |tokens|
      invariant Run(tokens, i, State(stack, output, count)) == Rpn(tokens)
    {
      var token := tokens[i];
      ghost var before := State(stack, output, count);
      if token == "(" {
        count := count + 1;
        stack := stack + [token];
      } else if token == ")" {
        count := count - 1;
        if count < 0 {
          return Failure(MismatchedParentheses);
        }
        while |stack| > 0 && stack[|stack| - 1] != "("
          invariant Unstack(stack, output, 0) == Unstack(before.stack, before.output, 0)
        {
          output := output + [stack[|stack| - 1]];
          stack := stack[..|stack| - 1];
        }
        if |stack| > 0 {
          stack := stack[..|stack| - 1];
        }
      } else if IsOperator(token) {
        if token == "/" && i < |tokens| - 1 && tokens[i + 1] == "0" {
          return Failure(DivisionByZero);
        }
        if token == "-" && (i == 0 || tokens[i - 1] == "(" || IsOperator(tokens[i - 1])) {
          output := output + ["0"];
        }
        ghost var pending := output;
        while |stack| > 0
          invariant Unstack(stack, output, PrecedenceOf(token)) == Unstack(before.stack, pending, PrecedenceOf(token))
        {
          var top := stack[|stack| - 1];
          if top != "(" && PrecedenceOf(top) >= PrecedenceOf(token) {
            output := output + [stack[|stack| - 1]];
            stack := stack[..|stack| - 1];
          } else {
            break;
          }
        }
        stack := stack + [token];
      } else {
        var numeric := IsNumeric(token);
        if !numeric && !HasPrefix(token, "id") {
          return Failure(InvalidNumber);
        }
        output := output + [token];
      }
    }
    if count != 0 {
      return Failure(MismatchedParentheses);
    }
    ghost var rest := Drain(stack, output);
    while |stack| > 0
      invariant Drain(stack, output) == rest
    {
      output := output + [stack[|stack| - 1]];
      stack := stack[..|stack| - 1];
    }
    return Success(output);
  }

  /** A formatted number is numeric, so a task whose operands have both been
      filled in with results is Complete; a placeholder "id<n>" is not
      numeric, so a task that still waits for another is not. */
  lemma CompleteResolved(task: Task, x: real, y: real, n: int)
    ensures Complete(task.(arg1 := FormatNum(x), arg2 := FormatNum(y)))
    ensures !Complete(task.(arg1 := Placeholder(n))) && !Complete(task.(arg2 := Placeholder(n)))
  {
    assert Placeholder(n)[0] == 'i';
  }

  // Well-formed token lists

  function Delta(t: string): int {
    if t == "(" then 1 else if t == ")" then -1 else 0
  }

  /** Number of "(" minus number of ")". */
  function Depth(tokens: seq<string>): int {
    if tokens == [] then 0 else Depth(tokens[..|tokens| - 1]) + Delta(tokens[|tokens| - 1])
  }

  /** No prefix closes more parentheses than it opens, and all are closed. */
  predicate Balanced(tokens: seq<string>) {
    (forall k :: 0 <= k <= |tokens| ==> Depth(tokens[..k]) >= 0) && Depth(tokens) == 0
  }

  predicate DividesByZeroAt(tokens: seq<string>, k: int)
    requires 0 <= k < |tokens|
  {
    tokens[k] == "/" && k < |tokens| - 1 && tokens[k + 1] == "0"
  }

  /** No "/" is directly followed by the token "0". */
  predicate NoZeroDivisor(tokens: seq<string>) {
    forall k :: 0 <= k < |tokens| ==> !DividesByZeroAt(tokens, k)
  }

  predicate OperandOk(t: string) {
    IsOperand(t) ==> Numeric(t) || HasPrefix(t, "id")
  }

  /** Every operand is numeric text or a task placeholder. */
  predicate ValidOperands(tokens: seq<string>) {
    forall k :: 0 <= k < |tokens| ==> OperandOk(tokens[k])
  }

  predicate WellFormed(tokens: seq<string>) {
    Balanced(tokens) && NoZeroDivisor(tokens) && ValidOperands(tokens)
  }

  lemma DepthStep(tokens: seq<string>, i: int)
    requires 0 <= i < |tokens|
    ensures Depth(tokens[..i + 1]) == Depth(tokens[..i]) + Delta(tokens[i])
  {
    assert tokens[..i + 1][..i] == tokens[..i];
  }

  /** What one step of the conversion decides, in terms of the token alone. */
  lemma StepOutcome(tokens: seq<string>, i: int, st: State)
    requires 0 <= i < |tokens| && st.count >= 0
    ensures Step(tokens, i, st).Success?
        <==> st.count + Delta(tokens[i]) >= 0 && !DividesByZeroAt(tokens, i) && OperandOk(tokens[i])
    ensures Step(tokens, i, st).Success? ==> Step(tokens, i, st).value.count == st.count + Delta(tokens[i])
    ensures Step(tokens, i, st).Failure? ==>
      match Step(tokens, i, st).error
      case MismatchedParentheses => st.count + Delta(tokens[i]) < 0
      case DivisionByZero => DividesByZeroAt(tokens, i)
      case InvalidNumber => !OperandOk(tokens[i])
      case _ => false
  {
  }

  /** The outcome of the remaining conversion from a state whose counter
      equals the depth of the tokens read so far. */
  lemma {:induction false} RunOutcome(tokens: seq<string>, i: int, st: State)
    requires 0 <= i <= |tokens|
    requires st.count == Depth(tokens[..i]) && st.count >= 0
    ensures Run(tokens, i, st).Success? <==>
      (forall k :: i < k <= |tokens| ==> Depth(tokens[..k]) >= 0) && Depth(tokens) == 0
      && (forall k :: i <= k < |tokens| ==> !DividesByZeroAt(tokens, k) && OperandOk(tokens[k]))
    ensures Run(tokens, i, st).Failure? ==>
      match Run(tokens, i, st).error
      case MismatchedParentheses => Depth(tokens) != 0 || exists k :: i < k <= |tokens| && Depth(tokens[..k]) < 0
      case DivisionByZero => exists k :: i <= k < |tokens| && DividesByZeroAt(tokens, k)
      case InvalidNumber => exists k :: i <= k < |tokens| && !OperandOk(tokens[k])
      case _ => false
    decreases |tokens| - i
  {
    if i == |tokens| {
      assert tokens[..i] == tokens;
      assert Run(tokens, i, st) == Finish(st);
    } else {
      StepOutcome(tokens, i, st);
      DepthStep(tokens, i);
      if Step(tokens, i, st).Success? {
        var next := Step(tokens, i, st).value;
        assert Run(tokens, i, st) == Run(tokens, i + 1, next);
        RunOutcome(tokens, i + 1, next);
      } else {
        assert Run(tokens, i, st) == Failure(Step(tokens, i, st).error);
      }
    }
  }

  /** convertToRPN succeeds exactly on well-formed token lists. */
  lemma ConvertSucceeds(tokens: seq<string>)
    ensures Rpn(tokens).Success? <==> WellFormed(tokens)
  {
    assert tokens[..0] == [];
    RunOutcome(tokens, 0, State([], [], 0));
  }

  /** Each error names a condition the tokens break: unbalanced parentheses,
      a literal division by "0", or an operand that is neither numeric nor a
      placeholder. */
  lemma ConvertErrors(tokens: seq<string>)
    ensures Rpn(tokens) == Failure(MismatchedParentheses) ==> !Balanced(tokens)
    ensures Rpn(tokens) == Failure(DivisionByZero) ==> !NoZeroDivisor(tokens)
    ensures Rpn(tokens) == Failure(InvalidNumber) ==> !ValidOperands(tokens)
    ensures Rpn(tokens).Failure? ==> Rpn(tokens).error in {MismatchedParentheses, DivisionByZero, InvalidNumber}
  {
    assert tokens[..0] == [];
    RunOutcome(tokens, 0, State([], [], 0));
  }

  // The shape of the output

  /** The operand tokens of a list, in order. */
  function Values(ts: seq<string>): seq<string> {
    if ts == [] then []
    else Values(ts[..|ts| - 1]) + (if IsOperand(ts[|ts| - 1]) then [ts[|ts| - 1]] else [])
  }

  /** The operands of tokens[..i] with "0" in front of every unary minus:
      the operand sequence the output must carry. */
  function OperandsUpTo(tokens: seq<string>, i: int): seq<string>
    requires 0 <= i <= |tokens|
  {
    if i == 0 then []
    else
      OperandsUpTo(tokens, i - 1)
      + (if IsOperand(tokens[i - 1]) then [tokens[i - 1]] else if Unary(tokens, i - 1) then ["0"] else [])
  }

  function Last(ts: seq<string>): string
    requires ts != []
  {
    ts[|ts| - 1]
  }

  lemma Push(ts: seq<string>, t: string)
    ensures Values(ts + [t]) == Values(ts) + (if IsOperand(t) then [t] else [])
    ensures multiset(ts + [t]) == multiset(ts) + multiset{t}
  {
    assert (ts + [t])[..|ts|] == ts;
  }

  lemma Pop(ts: seq<string>)
    requires ts != []
    ensures ts == ts[..|ts| - 1] + [Last(ts)]
    ensures Values(ts) == Values(ts[..|ts| - 1]) + (if IsOperand(Last(ts)) then [Last(ts)] else [])
    ensures multiset(ts) == multiset(ts[..|ts| - 1]) + multiset{Last(ts)}
  {
    var init, both := ts[..|ts| - 1], ts[..|ts| - 1] + [Last(ts)];
    forall i | 0 <= i < |ts| ensures both[i] == ts[i] {
      if i < |init| {
        assert both[i] == init[i];
      }
    }
    assert ts == both;
  }

  /** Only "(" and operators are ever pushed: the stack holds no operand and
      no ")". */
  predicate StackOk(stack: seq<string>) {
    Values(stack) == [] && multiset(stack)[")"] == 0
  }

  predicate NoParens(ts: seq<string>) {
    multiset(ts)["("] == 0 && multiset(ts)[")"] == 0
  }

  /** Unstacking moves operators, and only operators, from the stack to the
      output. */
  lemma {:induction false} UnstackFacts(stack: seq<string>, output: seq<string>, bound: nat, op: string)
    requires StackOk(stack)
    ensures StackOk(Unstack(stack, output, bound).0)
    ensures Values(Unstack(stack, output, bound).1) == Values(output)
    ensures multiset(Unstack(stack, output, bound).0)["("] == multiset(stack)["("]
    ensures multiset(Unstack(stack, output, bound).1)["("] == multiset(output)["("]
    ensures multiset(Unstack(stack, output, bound).1)[")"] == multiset(output)[")"]
    ensures multiset(Unstack(stack, output, bound).1)[op] + multiset(Unstack(stack, output, bound).0)[op]
         == multiset(output)[op] + multiset(stack)[op]
    ensures bound == 0 ==> Unstack(stack, output, bound).0 == [] || Last(Unstack(stack, output, bound).0) == "("
    decreases |stack|
  {
    if stack != [] {
      var top, rest := Last(stack), stack[..|stack| - 1];
      if top != "(" && PrecedenceOf(top) >= bound {
        Pop(stack);
        Push(output, top);
        UnstackFacts(rest, output + [top], bound, op);
      }
    }
  }

  /** Draining a stack of operators adds them, and nothing else, to the output. */
  lemma {:induction false} DrainFacts(stack: seq<string>, output: seq<string>, op: string)
    requires StackOk(stack) && multiset(stack)["("] == 0
    ensures NoParens(Drain(stack, output)) <==> NoParens(output)
    ensures Values(Drain(stack, output)) == Values(output)
    ensures multiset(Drain(stack, output))[op] == multiset(output)[op] + multiset(stack)[op]
    decreases |stack|
  {
    if stack != [] {
      var top, rest := Last(stack), stack[..|stack| - 1];
      Pop(stack);
      Push(output, top);
      DrainFacts(rest, output + [top], op);
    }
  }

  /** The invariant of the conversion after tokens[..i], with the occurrences
      of one operator op counted. */
  predicate Shaped(tokens: seq<string>, i: int, st: State, op: string)
    requires 0 <= i <= |tokens|
  {
    StackOk(st.stack) && st.count == multiset(st.stack)["("] && NoParens(st.output)
    && Values(st.output) == OperandsUpTo(tokens, i)
    && multiset(st.output)[op] + multiset(st.stack)[op] == multiset(tokens[..i])[op]
  }

  lemma OpenShaped(tokens: seq<string>, i: int, st: State, op: string)
    requires 0 <= i < |tokens| && IsOperator(op) && Shaped(tokens, i, st, op) && tokens[i] == "("
    ensures Shaped(tokens, i + 1, State(st.stack + ["("], st.output, st.count + 1), op)
  {
    assert tokens[..i + 1] == tokens[..i] + ["("];
    Push(tokens[..i], "(");
    Push(st.stack, "(");
    assert OperandsUpTo(tokens, i + 1) == OperandsUpTo(tokens, i);
  }

  lemma CloseStack(st: State, op: string)
    requires StackOk(st.stack) && st.count == multiset(st.stack)["("] && st.count >= 1
    ensures StackOk(Close(st).stack) && Close(st).count == multiset(Close(st).stack)["("]
    ensures multiset(Close(st).output)[op] + multiset(Close(st).stack)[op] == multiset(st.output)[op] + multiset(st.stack)[op] - (if op == "(" then 1 else 0)
  {
    UnstackFacts(st.stack, st.output, 0, op);
    var (stack, output) := Unstack(st.stack, st.output, 0);
    assert stack != [];
    Pop(stack);
  }

  lemma CloseOutput(st: State)
    requires StackOk(st.stack) && NoParens(st.output)
    ensures NoParens(Close(st).output) && Values(Close(st).output) == Values(st.output)
  {
    UnstackFacts(st.stack, st.output, 0, "+");
  }

  lemma CloseShaped(tokens: seq<string>, i: int, st: State, op: string)
    requires 0 <= i < |tokens| && IsOperator(op) && Shaped(tokens, i, st, op) && tokens[i] == ")"
    requires st.count >= 1
    ensures Shaped(tokens, i + 1, Close(st), op)
  {
    assert tokens[..i + 1] == tokens[..i] + [")"];
    Push(tokens[..i], ")");
    assert OperandsUpTo(tokens, i + 1) == OperandsUpTo(tokens, i);
    CloseStack(st, op);
    CloseOutput(st);
  }

  /** The output after the "0" of a unary minus has been added. */
  lemma PendingShaped(tokens: seq<string>, i: int, st: State, op: string, pending: seq<string>)
    requires 0 <= i < |tokens| && IsOperator(op) && Shaped(tokens, i, st, op) && IsOperator(tokens[i])
    requires pending == if Unary(tokens, i) then st.output + ["0"] else st.output
    ensures NoParens(pending) && multiset(pending)[op] == multiset(st.output)[op]
    ensures Values(pending) == OperandsUpTo(tokens, i + 1)
  {
    Push(st.output, "0");
  }

  lemma OperatorStack(st: State, pending: seq<string>, token: string, op: string)
    requires StackOk(st.stack) && st.count == multiset(st.stack)["("] && IsOperator(token)
    ensures var (stack, output) := Unstack(st.stack, pending, PrecedenceOf(token));
      StackOk(stack + [token]) && st.count == multiset(stack + [token])["("]
      && multiset(output)[op] + multiset(stack + [token])[op]
         == multiset(pending)[op] + multiset(st.stack)[op] + (if token == op then 1 else 0)
  {
    UnstackFacts(st.stack, pending, PrecedenceOf(token), op);
    StackPush(Unstack(st.stack, pending, PrecedenceOf(token)).0, token, op);
  }

  /** Pushing an operator keeps the stack free of operands and ")". */
  lemma StackPush(stack: seq<string>, token: string, op: string)
    requires StackOk(stack) && IsOperator(token)
    ensures StackOk(stack + [token])
    ensures multiset(stack + [token])["("] == multiset(stack)["("]
    ensures multiset(stack + [token])[op] == multiset(stack)[op] + (if token == op then 1 else 0)
  {
    Push(stack, token);
  }

  lemma OperatorOutput(st: State, pending: seq<string>, token: string)
    requires StackOk(st.stack) && NoParens(pending)
    ensures var (stack, output) := Unstack(st.stack, pending, PrecedenceOf(token));
      NoParens(output) && Values(output) == Values(pending)
  {
    UnstackFacts(st.stack, pending, PrecedenceOf(token), "+");
  }

  lemma OperatorShaped(tokens: seq<string>, i: int, st: State, op: string)
    requires 0 <= i < |tokens| && IsOperator(op) && Shaped(tokens, i, st, op) && IsOperator(tokens[i])
    ensures Shaped(tokens, i + 1, PushOperator(tokens, i, st), op)
  {
    var token := tokens[i];
    var pending := if Unary(tokens, i) then st.output + ["0"] else st.output;
    PendingShaped(tokens, i, st, op, pending);
    assert tokens[..i + 1] == tokens[..i] + [token];
    Push(tokens[..i], token);
    OperatorStack(st, pending, token, op);
    OperatorOutput(st, pending, token);
  }

  lemma OperandShaped(tokens: seq<string>, i: int, st: State, op: string)
    requires 0 <= i < |tokens| && IsOperator(op) && Shaped(tokens, i, st, op) && IsOperand(tokens[i])
    ensures Shaped(tokens, i + 1, State(st.stack, st.output + [tokens[i]], st.count), op)
  {
    var token := tokens[i];
    assert tokens[..i + 1] == tokens[..i] + [token];
    Push(tokens[..i], token);
    Push(st.output, token);
  }

  lemma StepShaped(tokens: seq<string>, i: int, st: State, op: string)
    requires 0 <= i < |tokens| && IsOperator(op) && Shaped(tokens, i, st, op)
    requires Step(tokens, i, st).Success?
    ensures Shaped(tokens, i + 1, Step(tokens, i, st).value, op)
  {
    var token := tokens[i];
    if token == "(" {
      OpenShaped(tokens, i, st, op);
    } else if token == ")" {
      CloseShaped(tokens, i, st, op);
    } else if IsOperator(token) {
      OperatorShaped(tokens, i, st, op);
    } else {
      OperandShaped(tokens, i, st, op);
    }
  }

  lemma FinishShaped(tokens: seq<string>, st: State, op: string)
    requires IsOperator(op) && Shaped(tokens, |tokens|, st, op)
    ensures Finish(st).Success? ==>
      NoParens(Finish(st).value) && Values(Finish(st).value) == OperandsUpTo(tokens, |tokens|)
      && multiset(Finish(st).value)[op] == multiset(tokens)[op]
  {
    assert tokens[..|tokens|] == tokens;
    if st.count == 0 {
      DrainFacts(st.stack, st.output, op);
    }
  }

  lemma {:induction false} RunShaped(tokens: seq<string>, i: int, st: State, op: string)
    requires 0 <= i <= |tokens| && IsOperator(op) && Shaped(tokens, i, st, op)
    ensures Run(tokens, i, st).Success? ==>
      NoParens(Run(tokens, i, st).value) && Values(Run(tokens, i, st).value) == OperandsUpTo(tokens, |tokens|)
      && multiset(Run(tokens, i, st).value)[op] == multiset(tokens)[op]
    decreases |tokens| - i
  {
    if i == |tokens| {
      assert Run(tokens, i, st) == Finish(st);
      FinishShaped(tokens, st, op);
    } else if Step(tokens, i, st).Success? {
      var next := Step(tokens, i, st).value;
      assert Run(tokens, i, st) == Run(tokens, i + 1, next);
      StepShaped(tokens, i, st, op);
      RunShaped(tokens, i + 1, next, op);
    }
  }

  /** On success the output holds no parenthesis and carries the operands of
      the input in their order, with a "0" in front of every unary minus. */
  lemma ConvertShape(tokens: seq<string>)
    requires Rpn(tokens).Success?
    ensures "(" !in Rpn(tokens).value && ")" !in Rpn(tokens).value
    ensures Values(Rpn(tokens).value) == OperandsUpTo(tokens, |tokens|)
  {
    assert tokens[..0] == [];
    RunShaped(tokens, 0, State([], [], 0), "+");
  }

  /** On success every operator occurs in the output as often as in the input. */
  lemma ConvertKeepsOperators(tokens: seq<string>, op: string)
    requires Rpn(tokens).Success? && IsOperator(op)
    ensures multiset(Rpn(tokens).value)[op] == multiset(tokens)[op]
  {
    assert tokens[..0] == [];
    RunShaped(tokens, 0, State([], [], 0), op);
  }

  // The conversions of the repository's test cases

  lemma ConvertExampleSum(t: seq<string>)
    requires t == ["2", "+", "3"]
    ensures Rpn(t) == Success(["2", "3", "+"])
  {
    var s1 := State([], ["2"], 0);
    assert Run(t, 0, State([], [], 0)) == Run(t, 1, s1) by {
      assert NumericChar("2"[0]);
      assert t[0] != "(" && t[0] != ")" && !IsOperator(t[0]) && Numeric(t[0]);
      assert [] + ["2"] == ["2"];
    }
    var s2 := State(["+"], ["2"], 0);
    assert Run(t, 1, s1) == Run(t, 2, s2) by {
      assert t[1] != "(" && t[1] != ")" && !Unary(t, 1);
      assert [] + ["+"] == ["+"];
    }
    var s3 := State(["+"], ["2", "3"], 0);
    assert Run(t, 2, s2) == Run(t, 3, s3) by {
      assert NumericChar("3"[0]);
      assert t[2] != "(" && t[2] != ")" && !IsOperator(t[2]) && Numeric(t[2]);
      assert ["2"] + ["3"] == ["2", "3"];
    }
    assert Run(t, 3, s3) == Success(["2", "3", "+"]) by {
      assert ["+"][..0] == [];
      assert ["2", "3"] + ["+"] == ["2", "3", "+"];
    }
  }

  lemma ConvertExampleGroup(t: seq<string>)
    requires t == ["(", "2", "+", "3", ")", "*", "4"]
    ensures Rpn(t) == Success(["2", "3", "+", "4", "*"])
  {
    GroupOpened(t);
    GroupClosed(t);
  }

  lemma GroupOpened(t: seq<string>)
    requires t == ["(", "2", "+", "3", ")", "*", "4"]
    ensures Rpn(t) == Run(t, 4, State(["(", "+"], ["2", "3"], 1))
  {
    var s1 := State(["("], [], 1);
    assert Run(t, 0, State([], [], 0)) == Run(t, 1, s1) by {
      assert [] + ["("] == ["("];
    }
    var s2 := State(["("], ["2"], 1);
    assert Run(t, 1, s1) == Run(t, 2, s2) by {
      assert NumericChar("2"[0]);
      assert t[1] != "(" && t[1] != ")" && !IsOperator(t[1]) && Numeric(t[1]);
      assert [] + ["2"] == ["2"];
    }
    var s3 := State(["(", "+"], ["2"], 1);
    assert Run(t, 2, s2) == Run(t, 3, s3) by {
      assert t[2] != "(" && t[2] != ")" && !Unary(t, 2);
      assert Unstack(["("], ["2"], 1) == (["("], ["2"]);
      assert ["("] + ["+"] == ["(", "+"];
    }
    var s4 := State(["(", "+"], ["2", "3"], 1);
    assert Run(t, 3, s3) == Run(t, 4, s4) by {
      assert NumericChar("3"[0]);
      assert t[3] != "(" && t[3] != ")" && !IsOperator(t[3]) && Numeric(t[3]);
      assert ["2"] + ["3"] == ["2", "3"];
    }
  }

  lemma GroupClosed(t: seq<string>)
    requires t == ["(", "2", "+", "3", ")", "*", "4"]
    ensures Run(t, 4, State(["(", "+"], ["2", "3"], 1)) == Success(["2", "3", "+", "4", "*"])
  {
    var s4 := State(["(", "+"], ["2", "3"], 1);
    var s5 := State([], ["2", "3", "+"], 0);
    assert Run(t, 4, s4) == Run(t, 5, s5) by {
      assert t[4] != "(";
      assert ["(", "+"][..1] == ["("];
      assert ["2", "3"] + ["+"] == ["2", "3", "+"];
      assert Unstack(["("], ["2", "3", "+"], 0) == (["("], ["2", "3", "+"]);
      assert Unstack(["(", "+"], ["2", "3"], 0) == (["("], ["2", "3", "+"]);
      assert ["("][..0] == [];
    }
    var s6 := State(["*"], ["2", "3", "+"], 0);
    assert Run(t, 5, s5) == Run(t, 6, s6) by {
      assert t[5] != "(" && t[5] != ")" && !Unary(t, 5);
      assert [] + ["*"] == ["*"];
    }
    var s7 := State(["*"], ["2", "3", "+", "4"], 0);
    assert Run(t, 6, s6) == Run(t, 7, s7) by {
      assert NumericChar("4"[0]);
      assert t[6] != "(" && t[6] != ")" && !IsOperator(t[6]) && Numeric(t[6]);
      assert ["2", "3", "+"] + ["4"] == ["2", "3", "+", "4"];
    }
    assert Run(t, 7, s7) == Success(["2", "3", "+", "4", "*"]) by {
      assert ["*"][..0] == [];
      assert ["2", "3", "+", "4"] + ["*"] == ["2", "3", "+", "4", "*"];
    }
  }

  lemma ConvertExampleUnclosed()
    ensures Rpn(["(", "2", "+", "3"]) == Failure(MismatchedParentheses)
  {
  }

  lemma ConvertExampleDivision()
    ensures Rpn(["5", "/", "0"]) == Failure(DivisionByZero)
  {
  }

  /** The postfix lists behind two of the expression tests. */
  lemma ConvertExampleProduct(t: seq<string>)
    requires t == ["2", "+", "3", "*", "4"]
    ensures Rpn(t) == Success(["2", "3", "4", "*", "+"])
  {
    var s1 := State([], ["2"], 0);
    assert Run(t, 0, State([], [], 0)) == Run(t, 1, s1) by {
      assert NumericChar("2"[0]);
      assert t[0] != "(" && t[0] != ")" && !IsOperator(t[0]) && Numeric(t[0]);
      assert [] + ["2"] == ["2"];
    }
    var s2 := State(["+"], ["2"], 0);
    assert Run(t, 1, s1) == Run(t, 2, s2) by {
      assert t[1] != "(" && t[1] != ")" && !Unary(t, 1);
      assert [] + ["+"] == ["+"];
    }
    var s3 := State(["+"], ["2", "3"], 0);
    assert Run(t, 2, s2) == Run(t, 3, s3) by {
      assert NumericChar("3"[0]);
      assert t[2] != "(" && t[2] != ")" && !IsOperator(t[2]) && Numeric(t[2]);
      assert ["2"] + ["3"] == ["2", "3"];
    }
    ProductTail(t);
  }

  lemma ProductTail(t: seq<string>)
    requires t == ["2", "+", "3", "*", "4"]
    ensures Run(t, 3, State(["+"], ["2", "3"], 0)) == Success(["2", "3", "4", "*", "+"])
  {
    var s3 := State(["+"], ["2", "3"], 0);
    var s4 := State(["+", "*"], ["2", "3"], 0);
    assert Run(t, 3, s3) == Run(t, 4, s4) by {
      assert t[3] != "(" && t[3] != ")" && !Unary(t, 3);
      assert Unstack(["+"], ["2", "3"], 2) == (["+"], ["2", "3"]);
      assert ["+"] + ["*"] == ["+", "*"];
    }
    var s5 := State(["+", "*"], ["2", "3", "4"], 0);
    assert Run(t, 4, s4) == Run(t, 5, s5) by {
      assert NumericChar("4"[0]);
      assert t[4] != "(" && t[4] != ")" && !IsOperator(t[4]) && Numeric(t[4]);
      assert ["2", "3"] + ["4"] == ["2", "3", "4"];
    }
    assert Run(t, 5, s5) == Success(["2", "3", "4", "*", "+"]) by {
      assert ["+", "*"][..1] == ["+"];
      assert ["+"][..0] == [];
      assert ["2", "3", "4"] + ["*"] == ["2", "3", "4", "*"];
      assert ["2", "3", "4", "*"] + ["+"] == ["2", "3", "4", "*", "+"];
    }
  }

  /** An operand token is appended to the output. */
  lemma RunOperand(t: seq<string>, i: int, st: State)
    requires 0 <= i < |t| && t[i] != "(" && t[i] != ")" && !IsOperator(t[i]) && Numeric(t[i])
    ensures Run(t, i, st) == Run(t, i + 1, State(st.stack, st.output + [t[i]], st.count))
  {
  }

  /** An operator token not followed by a literal "0" divisor is pushed. */
  lemma RunOperator(t: seq<string>, i: int, st: State)
    requires 0 <= i < |t| && IsOperator(t[i]) && !(t[i] == "/" && i < |t| - 1 && t[i + 1] == "0")
    ensures Run(t, i, st) == Run(t, i + 1, PushOperator(t, i, st))
  {
  }

  /** With no parenthesis open, the end of the input drains the stack. */
  lemma RunDrained(t: seq<string>, st: State)
    requires st.count == 0
    ensures Run(t, |t|, st) == Success(Drain(st.stack, st.output))
  {
  }

  /** A doubled "+" is not rejected here: the first one is unstacked by the
      second, and the error is left to the task synthesis. */
  lemma ConvertExampleRepeated(t: seq<string>)
    requires t == ["2", "+", "+", "3"]
    ensures Rpn(t) == Success(["2", "+", "3", "+"])
  {
    RepeatedHead(t);
    RepeatedTail(t);
  }

  lemma RepeatedHead(t: seq<string>)
    requires |t| == 4 && t[0] == "2" && t[1] == "+"
    ensures Rpn(t) == Run(t, 2, State(["+"], ["2"], 0))
  {
    var s0, s1 := State([], [], 0), State([], ["2"], 0);
    assert NumericChar("2"[0]);
    RunOperand(t, 0, s0);
    assert State(s0.stack, s0.output + [t[0]], 0) == s1 by {
      assert [] + ["2"] == ["2"];
    }
    RunOperator(t, 1, s1);
    assert PushOperator(t, 1, s1) == State(["+"], ["2"], 0) by {
      assert !Unary(t, 1);
      assert [] + ["+"] == ["+"];
    }
  }

  lemma RepeatedTail(t: seq<string>)
    requires |t| == 4 && t[1] == "+" && t[2] == "+" && t[3] == "3"
    ensures Run(t, 2, State(["+"], ["2"], 0)) == Success(["2", "+", "3", "+"])
  {
    var s2, s3 := State(["+"], ["2"], 0), State(["+"], ["2", "+"], 0);
    RunOperator(t, 2, s2);
    assert PushOperator(t, 2, s2) == s3 by {
      assert !Unary(t, 2);
      assert ["+"][..0] == [];
      assert ["2"] + ["+"] == ["2", "+"];
      assert PrecedenceOf("+") == 1;
      assert Unstack([], ["2", "+"], 1) == ([], ["2", "+"]);
      assert Unstack(["+"], ["2"], 1) == ([], ["2", "+"]);
      assert [] + ["+"] == ["+"];
    }
    var s4 := State(["+"], ["2", "+", "3"], 0);
    assert NumericChar("3"[0]);
    RunOperand(t, 3, s3);
    assert State(s3.stack, s3.output + [t[3]], 0) == s4 by {
      assert ["2", "+"] + ["3"] == ["2", "+", "3"];
    }
    RunDrained(t, s4);
    assert Drain(s4.stack, s4.output) == ["2", "+", "3", "+"] by {
      assert ["+"][..0] == [];
      assert ["2", "+", "3"] + ["+"] == ["2", "+", "3", "+"];
    }
  }


}
