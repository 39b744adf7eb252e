/** What a synthesised batch of tasks computes. Each task combines its two
    operands with its operator, as applyOperator does. An operand "id<N>"
    stands for the value of task N of the same batch; any other operand is
    read as a number. The value of the batch is the value of its last task,
    the one whose result the orchestrator stores as the expression's
    result. For every postfix list that leaves exactly one number and holds
    an operator, the synthesis succeeds and its batch has that number as
    its value; so an expression's batch resolves to what the direct
    evaluator computes. */
module Batch {
  import opened Wrappers
  import opened Errors
  import opened Numbers
  import opened Shared
  import opened Rpn
  import opened Tokenizer
  import opened Synthesis
  import Postfix
  import Calculation

  /** An operand's value: the recorded value of the task it names, or the
      number it spells. */
  function OperandValue(a: string, known: map<string, real>): Result<real, Error> {
    if a in known then Success(known[a])
    else
      match ParseNum(a)
      case None => Failure(InvalidNumber)
      case Some(v) => Success(v)
  }

  /** A task's result once its operands are known. */
  function TaskValue(t: Task, known: map<string, real>): Result<real, Error> {
    match OperandValue(t.arg1, known)
    case Failure(e) => Failure(e)
    case Success(a) =>
      match OperandValue(t.arg2, known)
      case Failure(e) => Failure(e)
      case Success(b) => Calculation.Arith([t.operator], a, b)
  }

  /** The placeholders of the batch's tasks, each mapped to its task's
      result, completing the tasks in order; or the first error. */
  function Known(tasks: seq<Task>): Result<map<string, real>, Error>
    decreases |tasks|
  {
    if tasks == [] then Success(map[])
    else
      match Known(tasks[..|tasks| - 1])
      case Failure(e) => Failure(e)
      case Success(known) =>
        var t := tasks[|tasks| - 1];
        match TaskValue(t, known)
        case Failure(e) => Failure(e)
        case Success(v) => Success(known[Placeholder(t.id) := v])
  }

  /** The value of a batch: the result of its last task. */
  function BatchResult(tasks: seq<Task>): Result<real, Error> {
    if tasks == [] then Failure(InvalidExpression)
    else
      match Known(tasks[..|tasks| - 1])
      case Failure(e) => Failure(e)
      case Success(known) => TaskValue(tasks[|tasks| - 1], known)
  }

  // The synthesis walk against the postfix number stack

  /** No recorded key spells a number, and no id from next on is recorded. */
  ghost predicate Fresh(known: map<string, real>, next: int) {
    && (forall key :: key in known ==> ParseNum(key).None?)
    && (forall m :: m >= next ==> Placeholder(m) !in known)
  }

  /** The walk's tasks complete without error, and its operand stack holds,
      entry by entry, the numbers of the postfix stack. */
  ghost predicate Stands(w: Walk, numbers: seq<real>) {
    && Known(w.plan.tasks).Success?
    && Fresh(Known(w.plan.tasks).value, w.next)
    && |w.stack| == |numbers|
    && forall j :: 0 <= j < |w.stack| ==> OperandValue(w.stack[j], Known(w.plan.tasks).value) == Success(numbers[j])
  }

  /** The top of the operand stack is the last task's placeholder. */
  predicate LastOnTop(w: Walk) {
    w.plan.tasks != [] && w.stack != [] &&
    w.stack[|w.stack| - 1] == Placeholder(w.plan.tasks[|w.plan.tasks| - 1].id)
  }

  lemma KnownAppend(tasks: seq<Task>, t: Task)
    ensures Known(tasks + [t]) ==
      if Known(tasks).Failure? then Failure(Known(tasks).error)
      else if TaskValue(t, Known(tasks).value).Failure? then Failure(TaskValue(t, Known(tasks).value).error)
      else Success(Known(tasks).value[Placeholder(t.id) := TaskValue(t, Known(tasks).value).value])
  {
    assert (tasks + [t])[..|tasks|] == tasks;
  }

  /** Recording a fresh placeholder leaves the value of every operand that
      already had one unchanged. */
  lemma OperandKept(a: string, known: map<string, real>, next: int, v: real)
    requires Fresh(known, next) && OperandValue(a, known).Success?
    ensures OperandValue(a, known[Placeholder(next) := v]) == OperandValue(a, known)
  {
    PlaceholderNotNumber(next);
  }

  lemma FreshRecord(known: map<string, real>, next: int, v: real)
    requires Fresh(known, next)
    ensures Fresh(known[Placeholder(next) := v], next + 1)
  {
    PlaceholderNotNumber(next);
    forall m | m >= next + 1
      ensures Placeholder(m) != Placeholder(next)
    {
      if Placeholder(m) == Placeholder(next) {
        PlaceholderInjective(m, next);
      }
    }
  }

  /** An operand token pushes its number on both stacks. */
  lemma OperandStands(token: string, w: Walk, numbers: seq<real>)
    requires !IsOperator(token) && Stands(w, numbers) && Postfix.Apply(numbers, token).Success?
    ensures Emit(token, w).Success? && Stands(Emit(token, w).value, Postfix.Apply(numbers, token).value)
  {
    var known := Known(w.plan.tasks).value;
    var w' := Emit(token, w).value;
    assert w'.stack == w.stack + [token] && w'.plan == w.plan;
    assert OperandValue(token, known) == Success(Postfix.Apply(numbers, token).value[|numbers|]);
  }

  /** "0" reads as zero. */
  lemma ZeroValue(known: map<string, real>, next: int)
    requires Fresh(known, next)
    ensures OperandValue("0", known) == Success(0.0)
  {
    ParseDigits("0");
  }

  /** An operator emits a task whose value is the postfix step's result, and
      its placeholder becomes the top entry. */
  lemma OperatorStands(token: string, w: Walk, numbers: seq<real>)
    requires IsOperator(token) && Stands(w, numbers) && Postfix.Apply(numbers, token).Success?
    ensures Emit(token, w).Success?
    ensures Stands(Emit(token, w).value, Postfix.Apply(numbers, token).value)
    ensures LastOnTop(Emit(token, w).value)
  {
    var known := Known(w.plan.tasks).value;
    var n := |numbers|;
    var arg2 := w.stack[n - 1];
    var arg1 := w.stack[n - 2];
    assert OperandValue(arg1, known) == Success(numbers[n - 2]);
    assert OperandValue(arg2, known) == Success(numbers[n - 1]);
    if token == "/" && arg2 == "0" {
      ZeroValue(known, w.next);
    }
    var task := Task(w.next, arg1, arg2, token[0], false, 0.0);
    assert [task.operator] == token;
    var v := Calculation.Arith(token, numbers[n - 2], numbers[n - 1]).value;
    assert TaskValue(task, known) == Success(v);
    KnownAppend(w.plan.tasks, task);
    var known' := known[Placeholder(w.next) := v];
    FreshRecord(known, w.next, v);
    var w' := Emit(token, w).value;
    var after := Postfix.Apply(numbers, token).value;
    assert after == numbers[..n - 2] + [v];
    assert w'.stack == w.stack[..n - 2] + [Placeholder(w.next)];
    forall j | 0 <= j < n - 1
      ensures OperandValue(w'.stack[j], known') == Success(after[j])
    {
      if j < n - 2 {
        assert OperandValue(w.stack[j], known) == Success(numbers[j]);
        OperandKept(w.stack[j], known, w.next, v);
      }
    }
  }

  /** An operator takes one number off the stack, an operand adds one. */
  lemma ApplyLength(numbers: seq<real>, t: string)
    requires Postfix.Apply(numbers, t).Success?
    ensures |Postfix.Apply(numbers, t).value| == if IsOperator(t) then |numbers| - 1 else |numbers| + 1
  {
  }

  /** Every prefix of a list that evaluates evaluates too. */
  lemma PrefixSucceeds(ts: seq<string>, k: nat)
    requires k <= |ts| && Postfix.Stack(ts).Success?
    ensures Postfix.Stack(ts[..k]).Success?
  {
    if Postfix.Stack(ts[..k]).Failure? {
      Postfix.StackFailed(ts[..k], ts);
    }
  }

  /** Every non-empty postfix list that evaluates leaves at least one number. */
  lemma {:induction false} StackNonEmpty(ts: seq<string>)
    requires ts != [] && Postfix.Stack(ts).Success?
    ensures |Postfix.Stack(ts).value| >= 1
    decreases |ts|
  {
    var init := ts[..|ts| - 1];
    PrefixSucceeds(ts, |ts| - 1);
    ApplyLength(Postfix.Stack(init).value, ts[|ts| - 1]);
    if init != [] {
      StackNonEmpty(init);
    }
  }

  /** A list that leaves exactly one number and ends with an operand is
      that operand alone. */
  lemma EndsWithOperand(output: seq<string>, v: real)
    requires Postfix.Stack(output) == Success([v])
    requires |output| > 0 && !IsOperator(output[|output| - 1])
    ensures output == [output[|output| - 1]]
  {
    var n := |output|;
    var init := output[..n - 1];
    PrefixSucceeds(output, n - 1);
    var numbers := Postfix.Stack(init).value;
    assert Postfix.Stack(output) == Postfix.Apply(numbers, output[n - 1]);
    ApplyLength(numbers, output[n - 1]);
    if init != [] {
      StackNonEmpty(init);
    }
    assert output == init + [output[n - 1]];
  }

  /** A list that holds an operator and leaves exactly one number ends with
      an operator. */
  lemma EndsWithOperator(output: seq<string>, v: real)
    requires Postfix.Stack(output) == Success([v])
    requires exists k :: 0 <= k < |output| && IsOperator(output[k])
    ensures |output| > 0 && IsOperator(output[|output| - 1])
  {
    if !IsOperator(output[|output| - 1]) {
      EndsWithOperand(output, v);
    }
  }

  /** The value of a batch whose tasks complete is what its last
      placeholder records. */
  lemma KnownLast(tasks: seq<Task>)
    requires tasks != [] && Known(tasks).Success?
    ensures Placeholder(tasks[|tasks| - 1].id) in Known(tasks).value
    ensures BatchResult(tasks) == Success(Known(tasks).value[Placeholder(tasks[|tasks| - 1].id)])
  {
  }

  /** A walk that ends with one entry, the last task's placeholder, has the
      batch value that entry stands for. */
  lemma LastValue(w: Walk, v: real)
    requires Stands(w, [v]) && LastOnTop(w)
    ensures BatchResult(w.plan.tasks) == Success(v)
  {
    KnownLast(w.plan.tasks);
    assert OperandValue(w.stack[0], Known(w.plan.tasks).value) == Success(v);
  }

  lemma StackNext(ts: seq<string>, i: nat)
    requires i < |ts| && Postfix.Stack(ts[..i]).Success?
    ensures Postfix.Stack(ts[..i + 1]) == Postfix.Apply(Postfix.Stack(ts[..i]).value, ts[i])
  {
    assert ts[..i + 1] == ts[..i] + [ts[i]];
    Postfix.StackAppend(ts[..i], ts[i]);
  }

  /** One token moves the walk along with the postfix stack. */
  lemma StepStands(output: seq<string>, i: nat, w: Walk)
    requires i < |output| && Postfix.Stack(output[..i + 1]).Success?
    requires Postfix.Stack(output[..i]).Success? && Stands(w, Postfix.Stack(output[..i]).value)
    ensures Emit(output[i], w).Success?
    ensures Stands(Emit(output[i], w).value, Postfix.Stack(output[..i + 1]).value)
    ensures IsOperator(output[i]) ==> LastOnTop(Emit(output[i], w).value)
  {
    var numbers := Postfix.Stack(output[..i]).value;
    StackNext(output, i);
    if IsOperator(output[i]) {
      OperatorStands(output[i], w, numbers);
    } else {
      OperandStands(output[i], w, numbers);
    }
  }

  /** The synthesis from position i on succeeds, and its batch has the
      list's value. */
  lemma {:induction false} WalkValue(output: seq<string>, i: nat, w: Walk, v: real)
    requires i <= |output| && Postfix.Stack(output) == Success([v])
    requires |output| > 0 && IsOperator(output[|output| - 1])
    requires Postfix.Stack(output[..i]).Success? && Stands(w, Postfix.Stack(output[..i]).value)
    requires 0 < i && IsOperator(output[i - 1]) ==> LastOnTop(w)
    ensures GenerateFrom(output, i, w).Success?
    ensures BatchResult(GenerateFrom(output, i, w).value.tasks) == Success(v)
    decreases |output| - i
  {
    if i == |output| {
      assert output[..i] == output;
      LastValue(w, v);
    } else {
      PrefixSucceeds(output, i + 1);
      StepStands(output, i, w);
      WalkValue(output, i + 1, Emit(output[i], w).value, v);
    }
  }

  /** A postfix list that leaves exactly one number and holds an operator
      synthesises into a batch whose value is that number. */
  lemma BatchValue(output: seq<string>, first: int, v: real)
    requires Postfix.Value(output) == Success(v)
    requires exists k :: 0 <= k < |output| && IsOperator(output[k])
    ensures Generate(output, first).Success?
    ensures BatchResult(Generate(output, first).value.tasks) == Success(v)
  {
    var numbers := Postfix.Stack(output).value;
    assert numbers == [numbers[0]];
    EndsWithOperator(output, v);
    assert output[..0] == [];
    WalkValue(output, 0, Walk([], Plan([], map[]), first), v);
  }

  lemma {:induction false} OperatorWitness(ts: seq<string>)
    requires |OperatorChars(ts)| > 0
    ensures exists k :: 0 <= k < |ts| && IsOperator(ts[k])
    decreases |ts|
  {
    var init := ts[..|ts| - 1];
    if IsOperator(ts[|ts| - 1]) {
      assert IsOperator(ts[|ts| - 1]);
    } else {
      OperatorWitness(init);
      var k :| 0 <= k < |init| && IsOperator(init[k]);
      assert ts[k] == init[k];
    }
  }

  /** An expression without a sign that compiles, and that the direct
      evaluator computes, yields a batch whose value is the evaluator's. */
  lemma CompiledValue(expression: string, first: int, v: real)
    requires Postfix.Unsigned(Tokens(expression))
    requires Calculation.Calculate(expression) == Success(v)
    requires Compile(expression, first).Success?
    ensures BatchResult(Compile(expression, first).value) == Success(v)
  {
    var output := Rpn.Rpn(Tokens(expression)).value;
    Postfix.ConvertedValue(Tokens(expression));
    GenerateShape(output, first);
    OperatorWitness(output);
    BatchValue(output, first, v);
  }

  /** "2 + 3 * 4": the task 3 * 4 records 12 under "id1". */
  lemma ExampleProductFirst()
    ensures Known([Task(1, "3", "4", '*', false, 0.0)]) == Success(map["id1" := 12.0])
  {
    ParseDigits("3");
    ParseDigits("4");
    PlaceholderOne();
    assert [Task(1, "3", "4", '*', false, 0.0)][..0] == [];
  }

  /** "2 + 3 * 4": the last task 2 + id1 then gives 14. */
  lemma ExampleProductLast()
    ensures TaskValue(Task(2, "2", "id1", '+', false, 0.0), map["id1" := 12.0]) == Success(14.0)
  {
    ParseDigits("2");
  }

  /** "2 + 3 * 4" resolves to 14. */
  lemma BatchExampleProduct(expression: string)
    requires expression == "2 + 3 * 4"
    ensures Compile(expression, 1).Success?
    ensures BatchResult(Compile(expression, 1).value) == Success(14.0)
  {
    CompileExampleProduct(expression);
    var t1 := Task(1, "3", "4", '*', false, 0.0);
    var t2 := Task(2, "2", "id1", '+', false, 0.0);
    ExampleProductFirst();
    ExampleProductLast();
    assert [t1, t2][..1] == [t1];
  }
}
