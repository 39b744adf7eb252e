/** The task synthesis of the orchestrator: a postfix token list becomes a
    batch of binary tasks. Operands are pushed on a stack; each operator pops
    the two top entries, emits a task over them and pushes the placeholder
    "id<N>" that stands for that task's future result. */
module Synthesis {
  import opened Wrappers
  import opened Errors
  import opened Numbers
  import opened Shared
  import opened Rpn
  import opened Tokenizer

  /** The tasks of a batch, and the placeholder recorded for each new id. */
  datatype Plan = Plan(tasks: seq<Task>, ids: map<int, string>)

  /** The loop state: operand stack, what has been emitted, the next id. */
  datatype Walk = Walk(stack: seq<string>, plan: Plan, next: int)

  /** The effect of one postfix token. */
  function Emit(token: string, w: Walk): Result<Walk, Error> {
    if IsOperator(token) then
      if |w.stack| < 2 then Failure(NotEnoughOperands)
      else
        var arg2 := w.stack[|w.stack| - 1];
        var arg1 := w.stack[|w.stack| - 2];
        if token == "/" && arg2 == "0" then Failure(DivisionByZero)
        else
          var task := Task(w.next, arg1, arg2, token[0], false, 0.0);
          Success(Walk(w.stack[..|w.stack| - 2] + [Placeholder(w.next)],
                       Plan(w.plan.tasks + [task], w.plan.ids[w.next := Placeholder(w.next)]),
                       w.next + 1))
    else Success(Walk(w.stack + [token], w.plan, w.next))
  }

  /** The synthesis of output[i..] from w; operands left on the stack at the
      end are dropped. */
  function GenerateFrom(output: seq<string>, i: int, w: Walk): Result<Plan, Error>
    requires 0 <= i <= |output|
    decreases |output| - i
  {
    if i == |output| then Success(w.plan)
    else
      match Emit(output[i], w)
      case Failure(e) => Failure(e)
      case Success(w') => GenerateFrom(output, i + 1, w')
  }

  /** generateTasksFromRPN, with first = the largest stored task id + 1. */
  function Generate(output: seq<string>, first: int): Result<Plan, Error> {
    GenerateFrom(output, 0, Walk([], Plan([], map[]), first))
  }

  /** generateTasksFromRPN: the loop with the operand stack and the
      incrementing id. The caller supplies the first id, which the source
      reads from the task table. */
  method GenerateTasks(output: seq<string>, first: int) returns (r: Result<Plan, Error>)
    ensures r == Generate(output, first)
  {
    var tasks: seq<Task> := [];
    var stack: seq<string> := [];
    var ids: map<int, string> := map[];
    var next := first;
    for i := 0 to |output|
      invariant GenerateFrom(output, i, Walk(stack, Plan(tasks, ids), next)) == Generate(output, first)
    {
      var token := output[i];
      if IsOperator(token) {
        if |stack| < 2 {
          return Failure(NotEnoughOperands);
        }
        var arg2 := stack[|stack| - 1];
        var arg1 := stack[|stack| - 2];
        stack := stack[..|stack| - 2];
        if token == "/" && arg2 == "0" {
          return Failure(DivisionByZero);
        }
        var task := Task(next, arg1, arg2, token[0], false, 0.0);
        tasks := tasks + [task];
        ids := ids[next := Placeholder(next)];
        stack := stack + [Placeholder(next)];
        next := next + 1;
      } else {
        stack := stack + [token];
      }
    }
    return Success(Plan(tasks, ids));
  }

  // When the synthesis fails

  /** The operand stack height after ts: +1 per operand, -1 per operator. */
  function Height(ts: seq<string>): int {
    if ts == [] then 0
    else Height(ts[..|ts| - 1]) + (if IsOperator(ts[|ts| - 1]) then -1 else 1)
  }

  /** The operator at k finds fewer than two stacked operands. */
  predicate Starved(output: seq<string>, k: int)
    requires 0 <= k < |output|
  {
    IsOperator(output[k]) && Height(output[..k]) < 2
  }

  /** The operator at k is "/" and its right operand is the literal "0". */
  predicate ZeroDivisor(output: seq<string>, k: int)
    requires 0 <= k < |output|
  {
    output[k] == "/" && 0 < k && output[k - 1] == "0"
  }

  predicate Sound(output: seq<string>, k: int)
    requires 0 <= k < |output|
  {
    !Starved(output, k) && !ZeroDivisor(output, k)
  }

  /** The stack a walk over output[..i] has built: its height, and whether
      the literal "0" is on top (only a "0" operand just pushed puts it there). */
  predicate Tracks(output: seq<string>, i: int, w: Walk)
    requires 0 <= i <= |output|
  {
    && |w.stack| == Height(output[..i])
    && ((|w.stack| > 0 && w.stack[|w.stack| - 1] == "0") <==> (0 < i && output[i - 1] == "0"))
  }

  lemma PlaceholderNotZero(n: int)
    ensures Placeholder(n) != "0"
  {
    assert Placeholder(n)[0] == 'i';
  }

  lemma EmitTracks(output: seq<string>, i: int, w: Walk)
    requires 0 <= i < |output| && Tracks(output, i, w)
    ensures Emit(output[i], w).Success? <==> Sound(output, i)
    ensures Emit(output[i], w).Failure? ==>
      if Starved(output, i) then Emit(output[i], w).error == NotEnoughOperands
      else Emit(output[i], w).error == DivisionByZero
    ensures Emit(output[i], w).Success? ==> Tracks(output, i + 1, Emit(output[i], w).value)
  {
    var token := output[i];
    assert output[..i + 1][..i] == output[..i];
    assert Height(output[..i + 1]) == |w.stack| + (if IsOperator(token) then -1 else 1);
    if IsOperator(token) && |w.stack| >= 2 {
      var arg2 := w.stack[|w.stack| - 1];
      assert arg2 == "0" <==> output[i - 1] == "0";
      if !(token == "/" && arg2 == "0") {
        PlaceholderNotZero(w.next);
      }
    }
  }

  lemma {:induction false} GenerateOutcome(output: seq<string>, i: int, w: Walk)
    requires 0 <= i <= |output| && Tracks(output, i, w)
    ensures GenerateFrom(output, i, w).Success? <==> forall k :: i <= k < |output| ==> Sound(output, k)
    ensures GenerateFrom(output, i, w) == Failure(NotEnoughOperands) ==>
      exists k :: i <= k < |output| && Starved(output, k)
    ensures GenerateFrom(output, i, w) == Failure(DivisionByZero) ==>
      exists k :: i <= k < |output| && ZeroDivisor(output, k) && !Starved(output, k)
    ensures GenerateFrom(output, i, w).Failure? ==>
      GenerateFrom(output, i, w).error in {NotEnoughOperands, DivisionByZero}
    decreases |output| - i
  {
    if i < |output| {
      EmitTracks(output, i, w);
      match Emit(output[i], w)
      case Failure(e) =>
        assert GenerateFrom(output, i, w) == Failure(e);
      case Success(w') =>
        assert GenerateFrom(output, i, w) == GenerateFrom(output, i + 1, w');
        GenerateOutcome(output, i + 1, w');
    }
  }

  /** The synthesis succeeds exactly when every operator finds two operands
      and no "/" has the literal "0" as its right operand; it fails only with
      NotEnoughOperands or DivisionByZero, each for its own reason. */
  lemma GenerateSucceeds(output: seq<string>, first: int)
    ensures Generate(output, first).Success? <==> forall k :: 0 <= k < |output| ==> Sound(output, k)
    ensures Generate(output, first) == Failure(NotEnoughOperands) ==>
      exists k :: 0 <= k < |output| && Starved(output, k)
    ensures Generate(output, first) == Failure(DivisionByZero) ==>
      exists k :: 0 <= k < |output| && ZeroDivisor(output, k) && !Starved(output, k)
    ensures Generate(output, first).Failure? ==>
      Generate(output, first).error in {NotEnoughOperands, DivisionByZero}
  {
    assert output[..0] == [];
    GenerateOutcome(output, 0, Walk([], Plan([], map[]), first));
  }

  // What a successful synthesis emits

  /** The operator characters of ts, in order. */
  function OperatorChars(ts: seq<string>): seq<char> {
    if ts == [] then []
    else OperatorChars(ts[..|ts| - 1]) + (if IsOperator(ts[|ts| - 1]) then [ts[|ts| - 1][0]] else [])
  }

  /** The operators of a task list, in order. */
  function Operators(tasks: seq<Task>): seq<char> {
    if tasks == [] then [] else Operators(tasks[..|tasks| - 1]) + [tasks[|tasks| - 1].operator]
  }

  /** The placeholder map for the ids first .. next - 1. */
  function IdMap(first: int, next: int): map<int, string> {
    map m | first <= m < next :: Placeholder(m)
  }

  /** Tasks numbered first, first + 1, ..., all pending with result 0, and
      the id map naming each of them. */
  predicate Numbered(plan: Plan, first: int, next: int) {
    && next == first + |plan.tasks|
    && (forall j :: 0 <= j < |plan.tasks| ==>
          plan.tasks[j].id == first + j && !plan.tasks[j].status && plan.tasks[j].result == 0.0)
    && plan.ids == IdMap(first, next)
  }

  lemma EmitNumbered(token: string, w: Walk, first: int)
    requires Numbered(w.plan, first, w.next)
    ensures Emit(token, w).Success? ==> Numbered(Emit(token, w).value.plan, first, Emit(token, w).value.next)
  {
    if IsOperator(token) && Emit(token, w).Success? {
      var n := w.next;
      var task := Task(n, w.stack[|w.stack| - 2], w.stack[|w.stack| - 1], token[0], false, 0.0);
      var tasks := w.plan.tasks + [task];
      assert Emit(token, w).value.plan == Plan(tasks, w.plan.ids[n := Placeholder(n)]);
      forall j | 0 <= j < |tasks|
        ensures tasks[j].id == first + j && !tasks[j].status && tasks[j].result == 0.0
      {
        if j < |w.plan.tasks| {
          assert tasks[j] == w.plan.tasks[j];
        }
      }
      IdMapGrow(first, n);
    }
  }

  lemma IdMapGrow(first: int, next: int)
    requires first <= next
    ensures IdMap(first, next)[next := Placeholder(next)] == IdMap(first, next + 1)
  {
    var grown := IdMap(first, next)[next := Placeholder(next)];
    assert grown.Keys == IdMap(first, next + 1).Keys;
    forall m | m in grown ensures grown[m] == IdMap(first, next + 1)[m] {
    }
  }

  lemma EmitOperators(output: seq<string>, i: int, w: Walk)
    requires 0 <= i < |output| && Operators(w.plan.tasks) == OperatorChars(output[..i])
    ensures Emit(output[i], w).Success? ==>
      Operators(Emit(output[i], w).value.plan.tasks) == OperatorChars(output[..i + 1])
  {
    assert output[..i + 1][..i] == output[..i];
    if Emit(output[i], w).Success? && IsOperator(output[i]) {
      var tasks := Emit(output[i], w).value.plan.tasks;
      assert tasks[..|tasks| - 1] == w.plan.tasks;
    }
  }

  lemma {:induction false} GenerateNumbered(output: seq<string>, i: int, w: Walk, first: int)
    requires 0 <= i <= |output| && Numbered(w.plan, first, w.next)
    requires Operators(w.plan.tasks) == OperatorChars(output[..i])
    ensures GenerateFrom(output, i, w).Success? ==>
      var plan := GenerateFrom(output, i, w).value;
      Numbered(plan, first, first + |plan.tasks|) && Operators(plan.tasks) == OperatorChars(output)
    decreases |output| - i
  {
    if i == |output| {
      assert output[..i] == output;
    } else {
      EmitNumbered(output[i], w, first);
      EmitOperators(output, i, w);
      match Emit(output[i], w)
      case Failure(e) =>
      case Success(w') =>
        assert GenerateFrom(output, i, w) == GenerateFrom(output, i + 1, w');
        GenerateNumbered(output, i + 1, w', first);
    }
  }

  /** One task per operator, in the operators' order, with consecutive ids
      from first, all pending, and the id map holding "id<N>" for exactly
      those ids. */
  lemma GenerateShape(output: seq<string>, first: int)
    requires Generate(output, first).Success?
    ensures var plan := Generate(output, first).value;
      && Operators(plan.tasks) == OperatorChars(output)
      && |plan.tasks| == |OperatorChars(output)|
      && (forall j :: 0 <= j < |plan.tasks| ==>
            plan.tasks[j].id == first + j && !plan.tasks[j].status && plan.tasks[j].result == 0.0)
      && plan.ids == IdMap(first, first + |plan.tasks|)
  {
    assert output[..0] == [];
    GenerateNumbered(output, 0, Walk([], Plan([], map[]), first), first);
    OperatorsLength(Generate(output, first).value.tasks);
  }

  lemma {:induction false} OperatorsLength(tasks: seq<Task>)
    ensures |Operators(tasks)| == |tasks|
  {
    if tasks != [] {
      OperatorsLength(tasks[..|tasks| - 1]);
    }
  }

  /** Where an operand of the batch can come from: an operand token of the
      postfix list, or the placeholder of a task of this batch numbered
      below bound. */
  predicate Sourced(a: string, output: seq<string>, first: int, bound: int) {
    (a in output && !IsOperator(a)) || exists m :: first <= m < bound && a == Placeholder(m)
  }

  /** Every stack entry is sourced below the next id, and every task's
      operands are sourced below its own id. */
  predicate Grounded(w: Walk, output: seq<string>, first: int) {
    && first <= w.next
    && (forall a :: a in w.stack ==> Sourced(a, output, first, w.next))
    && (forall j :: 0 <= j < |w.plan.tasks| ==>
          && Sourced(w.plan.tasks[j].arg1, output, first, w.plan.tasks[j].id)
          && Sourced(w.plan.tasks[j].arg2, output, first, w.plan.tasks[j].id))
  }

  lemma EmitGrounded(output: seq<string>, i: int, w: Walk, first: int)
    requires 0 <= i < |output| && Grounded(w, output, first)
    ensures Emit(output[i], w).Success? ==> Grounded(Emit(output[i], w).value, output, first)
  {
    if Emit(output[i], w).Success? {
      if IsOperator(output[i]) {
        OperatorGrounded(output[i], w, output, first);
      } else {
        OperandGrounded(output, i, w, first);
      }
    }
  }

  lemma OperatorGrounded(token: string, w: Walk, output: seq<string>, first: int)
    requires IsOperator(token) && Emit(token, w).Success? && Grounded(w, output, first)
    ensures Grounded(Emit(token, w).value, output, first)
  {
    var n := |w.stack|;
    var w' := Emit(token, w).value;
    assert w'.stack == w.stack[..n - 2] + [Placeholder(w.next)];
    assert w.stack[n - 1] in w.stack && w.stack[n - 2] in w.stack;
    forall a | a in w'.stack ensures Sourced(a, output, first, w'.next) {
      if a in w.stack[..n - 2] {
        assert a in w.stack;
      } else {
        assert a == Placeholder(w.next);
      }
    }
  }

  lemma OperandGrounded(output: seq<string>, i: int, w: Walk, first: int)
    requires 0 <= i < |output| && !IsOperator(output[i]) && Grounded(w, output, first)
    ensures Grounded(Emit(output[i], w).value, output, first)
  {
    var w' := Emit(output[i], w).value;
    assert w'.stack == w.stack + [output[i]];
    assert output[i] in output;
  }

  lemma {:induction false} GenerateGrounded(output: seq<string>, i: int, w: Walk, first: int)
    requires 0 <= i <= |output| && Grounded(w, output, first)
    ensures GenerateFrom(output, i, w).Success? ==>
      Grounded(Walk([], GenerateFrom(output, i, w).value, first), output, first)
    decreases |output| - i
  {
    if i < |output| {
      EmitGrounded(output, i, w, first);
      match Emit(output[i], w)
      case Failure(e) =>
      case Success(w') =>
        assert GenerateFrom(output, i, w) == GenerateFrom(output, i + 1, w');
        GenerateGrounded(output, i + 1, w', first);
    }
  }

  /** Every operand of every task is an operand token of the postfix list
      or the placeholder of a task of the same batch with a smaller id, so
      the tasks can always be completed in id order. */
  lemma GenerateReferences(output: seq<string>, first: int)
    requires Generate(output, first).Success?
    ensures var tasks := Generate(output, first).value.tasks;
      forall j :: 0 <= j < |tasks| ==>
        && Sourced(tasks[j].arg1, output, first, tasks[j].id)
        && Sourced(tasks[j].arg2, output, first, tasks[j].id)
  {
    GenerateGrounded(output, 0, Walk([], Plan([], map[]), first), first);
  }

  // The whole path from expression text to a batch of tasks

  /** ParseExpression up to the store: tokenize, convert, synthesise, and
      reject a batch without tasks. */
  function Compile(expression: string, first: int): Result<seq<Task>, Error> {
    match Rpn.Rpn(Tokens(expression))
    case Failure(e) => Failure(e)
    case Success(output) =>
      match Generate(output, first)
      case Failure(e) => Failure(e)
      case Success(plan) =>
        if |plan.tasks| == 0 then Failure(InvalidExpression) else Success(plan.tasks)
  }

  /** An expression compiles exactly when it converts, every operator of
      its postfix form finds two operands and no "/" divides by a literal
      "0", and it holds at least one operator. */
  lemma CompileSucceeds(expression: string, first: int)
    ensures Compile(expression, first).Success? <==>
      && Rpn.Rpn(Tokens(expression)).Success?
      && var output := Rpn.Rpn(Tokens(expression)).value;
         (forall k :: 0 <= k < |output| ==> Sound(output, k)) && |OperatorChars(output)| > 0
  {
    var r := Rpn.Rpn(Tokens(expression));
    if r.Success? {
      GenerateSucceeds(r.value, first);
      if Generate(r.value, first).Success? {
        GenerateShape(r.value, first);
      }
    }
  }

  /** A compiled batch is numbered from first and ends with the task whose
      result is the value of the whole expression. */
  lemma CompileShape(expression: string, first: int)
    requires Compile(expression, first).Success?
    ensures var tasks := Compile(expression, first).value;
      && |tasks| > 0
      && (forall j :: 0 <= j < |tasks| ==> tasks[j].id == first + j && !tasks[j].status)
      && tasks[|tasks| - 1].id == first + |tasks| - 1
  {
    GenerateShape(Rpn.Rpn(Tokens(expression)).value, first);
  }

  // The repository's test expressions, on an empty store (first id 1)

  lemma PlaceholderOne()
    ensures Placeholder(1) == "id1"
  {
    assert NatToString(1) == "1";
  }

  lemma GenerateExampleSum(output: seq<string>)
    requires output == ["2", "3", "+"]
    ensures Generate(output, 1) == Success(Plan([Task(1, "2", "3", '+', false, 0.0)], map[1 := "id1"]))
  {
    PlaceholderOne();
    var w0 := Walk([], Plan([], map[]), 1);
    var w1 := Walk(["2"], Plan([], map[]), 1);
    assert GenerateFrom(output, 0, w0) == GenerateFrom(output, 1, w1) by {
      assert [] + ["2"] == ["2"];
    }
    var w2 := Walk(["2", "3"], Plan([], map[]), 1);
    assert GenerateFrom(output, 1, w1) == GenerateFrom(output, 2, w2) by {
      assert ["2"] + ["3"] == ["2", "3"];
    }
    var w3 := Walk(["id1"], Plan([Task(1, "2", "3", '+', false, 0.0)], map[1 := "id1"]), 2);
    assert GenerateFrom(output, 2, w2) == GenerateFrom(output, 3, w3) by {
      assert ["2", "3"][..0] == [];
      assert [] + ["id1"] == ["id1"];
      assert [] + [Task(1, "2", "3", '+', false, 0.0)] == [Task(1, "2", "3", '+', false, 0.0)];
    }
  }

  lemma GenerateExampleProduct(output: seq<string>)
    requires output == ["2", "3", "4", "*", "+"]
    ensures Generate(output, 1) == Success(Plan(
      [Task(1, "3", "4", '*', false, 0.0), Task(2, "2", "id1", '+', false, 0.0)],
      map[1 := "id1", 2 := "id2"]))
  {
    var w3 := Walk(["2", "3", "4"], Plan([], map[]), 1);
    assert Generate(output, 1) == GenerateFrom(output, 3, w3) by {
      var w0 := Walk([], Plan([], map[]), 1);
      var w1 := Walk(["2"], Plan([], map[]), 1);
      var w2 := Walk(["2", "3"], Plan([], map[]), 1);
      assert [] + ["2"] == ["2"];
      assert ["2"] + ["3"] == ["2", "3"];
      assert ["2", "3"] + ["4"] == ["2", "3", "4"];
      assert GenerateFrom(output, 0, w0) == GenerateFrom(output, 1, w1);
      assert GenerateFrom(output, 1, w1) == GenerateFrom(output, 2, w2);
      assert GenerateFrom(output, 2, w2) == GenerateFrom(output, 3, w3);
    }
    ProductTasks(output);
  }

  lemma ProductTasks(output: seq<string>)
    requires output == ["2", "3", "4", "*", "+"]
    ensures GenerateFrom(output, 3, Walk(["2", "3", "4"], Plan([], map[]), 1)) == Success(Plan(
      [Task(1, "3", "4", '*', false, 0.0), Task(2, "2", "id1", '+', false, 0.0)],
      map[1 := "id1", 2 := "id2"]))
  {
    PlaceholderOne();
    assert Placeholder(2) == "id2" by {
      assert NatToString(2) == "2";
    }
    var t1 := Task(1, "3", "4", '*', false, 0.0);
    var t2 := Task(2, "2", "id1", '+', false, 0.0);
    var w3 := Walk(["2", "3", "4"], Plan([], map[]), 1);
    var w4 := Walk(["2", "id1"], Plan([t1], map[1 := "id1"]), 2);
    assert GenerateFrom(output, 3, w3) == GenerateFrom(output, 4, w4) by {
      assert ["2", "3", "4"][..1] == ["2"];
      assert ["2"] + ["id1"] == ["2", "id1"];
      assert [] + [t1] == [t1];
    }
    var w5 := Walk(["id2"], Plan([t1, t2], map[1 := "id1", 2 := "id2"]), 3);
    assert GenerateFrom(output, 4, w4) == GenerateFrom(output, 5, w5) by {
      assert ["2", "id1"][..0] == [];
      assert [] + ["id2"] == ["id2"];
      assert [t1] + [t2] == [t1, t2];
    }
  }

  lemma GenerateExampleRepeated(output: seq<string>)
    requires output == ["2", "+", "3", "+"]
    ensures Generate(output, 1) == Failure(NotEnoughOperands)
  {
    var w0 := Walk([], Plan([], map[]), 1);
    var w1 := Walk(["2"], Plan([], map[]), 1);
    assert GenerateFrom(output, 0, w0) == GenerateFrom(output, 1, w1) by {
      assert [] + ["2"] == ["2"];
    }
  }

  /** "2 + 3": one task, numbered 1. */
  lemma CompileExampleSum(expression: string)
    requires expression == "2 + 3"
    ensures Compile(expression, 1) == Success([Task(1, "2", "3", '+', false, 0.0)])
  {
    TokensExampleSum();
    ConvertExampleSum(Tokens(expression));
    GenerateExampleSum(Rpn.Rpn(Tokens(expression)).value);
  }

  /** "2 + 3 * 4": the product first, then the sum over its placeholder;
      the last task is number 2. */
  lemma CompileExampleProduct(expression: string)
    requires expression == "2 + 3 * 4"
    ensures Compile(expression, 1) == Success(
      [Task(1, "3", "4", '*', false, 0.0), Task(2, "2", "id1", '+', false, 0.0)])
  {
    TokensExampleProduct();
    ConvertExampleProduct(Tokens(expression));
    GenerateExampleProduct(Rpn.Rpn(Tokens(expression)).value);
  }

  /** "2 + + 3" is rejected by the synthesis. */
  lemma CompileExampleRepeated(expression: string)
    requires expression == "2 + + 3"
    ensures Compile(expression, 1) == Failure(NotEnoughOperands)
  {
    TokensExampleRepeated();
    ConvertExampleRepeated(Tokens(expression));
    GenerateExampleRepeated(Rpn.Rpn(Tokens(expression)).value);
  }

  /** "5 / 0" is rejected by the conversion. */
  lemma CompileExampleDivision(expression: string)
    requires expression == "5 / 0"
    ensures Compile(expression, 1) == Failure(DivisionByZero)
  {
    TokensSimple('5', '/', '0');
    ConvertExampleDivision();
  }
}
