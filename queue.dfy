/** The orchestrator's task store. The source keeps two SQLite tables keyed
    by id; here they are two maps from id to row. Done marks a task finished
    and then sweeps both tables, replacing every "id<N>" reference to a
    finished task by that task's result written as a decimal numeral. */
module TaskQueue {
  import opened Wrappers
  import opened Errors
  import opened Numbers
  import opened Shared
  import opened Rpn
  import opened Tokenizer
  import opened Synthesis

  // Ids

  lemma NonEmpty(s: set<int>)
    requires s != {}
    ensures exists x :: x in s
  {
    if forall y :: y !in s {
      assert false;
    }
  }

  lemma {:induction false} MaxExists(ids: set<int>)
    requires ids != {}
    ensures exists m :: m in ids && forall k :: k in ids ==> k <= m
    decreases |ids|
  {
    NonEmpty(ids);
    var x :| x in ids;
    if ids != {x} {
      MaxExists(ids - {x});
      var m :| m in ids - {x} && forall k :: k in ids - {x} ==> k <= m;
      var top := if x <= m then m else x;
      forall k | k in ids ensures k <= top {
        if k != x {
          assert k in ids - {x};
        }
      }
      assert top in ids;
    }
  }

  /** COALESCE(MAX(id), 0): the largest id of a table, 0 for an empty one. */
  function MaxId(ids: set<int>): (m: int)
    ensures ids == {} ==> m == 0
    ensures ids != {} ==> m in ids
    ensures forall k :: k in ids ==> k <= m
  {
    if ids == {} then 0
    else
      MaxExists(ids);
      var m :| m in ids && forall k :: k in ids ==> k <= m;
      m
  }

  // The sweeps, as functions of the tables

  /** The numeral that replaces the reference a: a must read as "id<N>" (or
      any text whose remainder after an optional "id" is an integer), and
      task N must exist and be done. */
  function ResolveArg(a: string, tasks: map<int, Task>): Option<string> {
    match ParseId(a)
    case None => None
    case Some(n) =>
      if n in tasks && tasks[n].status then Some(FormatNum(tasks[n].result)) else None
  }

  /** One row of UpdateTasks. A numeric operand is kept. A non-numeric one
      must resolve, or the loop moves on to the next row without writing:
      a failure on the second operand also drops the rewrite of the first,
      because the row is written only at the end. */
  function ResolveTask(t: Task, tasks: map<int, Task>): Task {
    var first := Operand(t.arg1, tasks);
    var second := Operand(t.arg2, tasks);
    if first.Some? && second.Some? then t.(arg1 := first.value, arg2 := second.value) else t
  }

  /** The value an operand takes in a row rewrite: itself when numeric,
      else its resolution. */
  function Operand(a: string, tasks: map<int, Task>): Option<string> {
    if Numeric(a) then Some(a) else ResolveArg(a, tasks)
  }

  /** UpdateTasks over the whole table. No row's outcome depends on another
      row's operands, so the order of the rows does not matter. */
  function SweepTasks(tasks: map<int, Task>): map<int, Task> {
    map k | k in tasks :: ResolveTask(tasks[k], tasks)
  }

  /** One row of UpdateExpressions. */
  function ResolveExpression(e: Expression, tasks: map<int, Task>): Expression {
    if Numeric(e.result) then e
    else
      match ParseId(e.result)
      case None => e
      case Some(n) =>
        if n in tasks && tasks[n].status then e.(result := FormatNum(tasks[n].result), status := true) else e
  }

  function SweepExpressions(expressions: map<int, Expression>, tasks: map<int, Task>): map<int, Expression> {
    map k | k in expressions :: ResolveExpression(expressions[k], tasks)
  }

  /** Both tables at once. */
  datatype Store = Store(tasks: map<int, Task>, expressions: map<int, Expression>)

  /** Done(id, r): an unknown id changes nothing; otherwise the task is
      marked done with result r, then the tasks and the expressions are swept. */
  function AfterDone(s: Store, id: int, r: real): Store {
    if id !in s.tasks then s
    else
      var swept := SweepTasks(s.tasks[id := s.tasks[id].(status := true, result := r)]);
      Store(swept, SweepExpressions(s.expressions, swept))
  }

  /** ParseExpression on the tables: the result and the new tables. On
      any error nothing is stored. */
  function AfterParse(s: Store, expression: string): (Result<int, Error>, Store) {
    match Compile(expression, MaxId(s.tasks.Keys) + 1)
    case Failure(e) => (Failure(e), s)
    case Success(batch) => Added(s, batch)
  }

  /** A compiled batch stored, with one pending expression under the next
      free id that refers to the batch's last task. */
  function Added(s: Store, batch: seq<Task>): (Result<int, Error>, Store)
    requires batch != []
  {
    var id := MaxId(s.expressions.Keys) + 1;
    (Success(id), Store(Insert(s.tasks, batch),
                        s.expressions[id := Expression(id, false, Placeholder(batch[|batch| - 1].id))]))
  }

  /** The rows of a batch added to the table, each under its own id. */
  function Insert(tasks: map<int, Task>, batch: seq<Task>): map<int, Task> {
    if batch == [] then tasks
    else Insert(tasks, batch[..|batch| - 1])[batch[|batch| - 1].id := batch[|batch| - 1]]
  }

  /** Every row is stored under its own id, as the id primary key ensures. */
  predicate Keyed(s: Store) {
    && (forall k :: k in s.tasks ==> s.tasks[k].id == k)
    && (forall k :: k in s.expressions ==> s.expressions[k].id == k)
  }

  class Queue {
    var tasks: map<int, Task>
    var expressions: map<int, Expression>

    predicate Valid()
      reads this
    {
      Keyed(Store(tasks, expressions))
    }

    /** An empty store, as a freshly created database holds. */
    constructor ()
      ensures tasks == map[] && expressions == map[] && Valid()
    {
      tasks := map[];
      expressions := map[];
    }

    /** AddTask: the task is stored under the largest id plus one, which is 1
        in an empty table, and that id is returned. */
    method AddTask(task: Task) returns (id: int)
      requires Valid()
      modifies this
      ensures Valid()
      ensures id == MaxId(old(tasks).Keys) + 1 && id !in old(tasks)
      ensures tasks == old(tasks)[id := task.(id := id)]
      ensures expressions == old(expressions)
    {
      id := MaxId(tasks.Keys) + 1;
      tasks := tasks[id := task.(id := id)];
    }

    /** AddExpression: the same numbering for the expressions table. */
    method AddExpression(expression: Expression) returns (id: int)
      requires Valid()
      modifies this
      ensures Valid()
      ensures id == MaxId(old(expressions).Keys) + 1 && id !in old(expressions)
      ensures expressions == old(expressions)[id := expression.(id := id)]
      ensures tasks == old(tasks)
    {
      id := MaxId(expressions.Keys) + 1;
      expressions := expressions[id := expression.(id := id)];
    }

    /** FindTask: the row with that id, or nothing for an unknown id. */
    function FindTask(id: int): (r: Option<Task>)
      reads this
      ensures r.Some? <==> id in tasks
      ensures r.Some? ==> r.value == tasks[id]
      ensures Valid() && r.Some? ==> r.value.id == id
    {
      if id in tasks then Some(tasks[id]) else None
    }

    /** FindExpression: the row with that id, or nothing for an unknown id. */
    function FindExpression(id: int): (r: Option<Expression>)
      reads this
      ensures r.Some? <==> id in expressions
      ensures r.Some? ==> r.value == expressions[id]
      ensures Valid() && r.Some? ==> r.value.id == id
    {
      if id in expressions then Some(expressions[id]) else None
    }

    /** GetTasks: the scan of every row into a map keyed by the row's id
        column, in whatever order the rows come. */
    method GetTasks() returns (r: map<int, Task>)
      requires Valid()
      ensures r == tasks
      ensures forall k :: k in r ==> r[k].id == k
    {
      r := map[];
      var rows := tasks.Keys;
      while rows != {}
        invariant rows <= tasks.Keys
        invariant r == map k | k in tasks.Keys - rows :: tasks[k]
        decreases rows
      {
        NonEmpty(rows);
        var k :| k in rows;
        var task := tasks[k];
        r := r[task.id := task];
        rows := rows - {k};
      }
    }

    /** GetExpressions: sweeps the expressions first, then scans every row
        into a map keyed by the row's id column. */
    method GetExpressions() returns (r: map<int, Expression>)
      requires Valid()
      modifies this
      ensures Valid()
      ensures tasks == old(tasks)
      ensures expressions == SweepExpressions(old(expressions), tasks)
      ensures r == expressions
    {
      UpdateExpressions();
      r := map[];
      var rows := expressions.Keys;
      while rows != {}
        invariant rows <= expressions.Keys
        invariant r == map k | k in expressions.Keys - rows :: expressions[k]
        invariant tasks == old(tasks) && expressions == SweepExpressions(old(expressions), tasks)
        decreases rows
      {
        NonEmpty(rows);
        var k :| k in rows;
        var expression := expressions[k];
        r := r[expression.id := expression];
        rows := rows - {k};
      }
    }

    /** The lookup both operand blocks of UpdateTasks perform: parse the
        id, find the task, require it to be done, format its result. */
    method ResolveReference(a: string) returns (r: Option<string>)
      ensures r == ResolveArg(a, tasks)
    {
      var id := ParseId(a);
      if id.None? {
        return None;
      }
      var related := FindTask(id.value);
      if related.None? || !related.value.status {
        return None;
      }
      return Some(FormatNum(related.value.result));
    }

    /** One row of UpdateTasks; a return is the source's continue. */
    method UpdateTaskRow(k: int)
      requires k in tasks
      modifies this
      ensures tasks == old(tasks)[k := ResolveTask(old(tasks)[k], old(tasks))]
      ensures expressions == old(expressions)
    {
      var task := tasks[k];
      assert tasks == tasks[k := task];
      var first := task.arg1;
      var second := task.arg2;
      var updated := false;
      var numeric := IsNumeric(task.arg1);
      if !numeric {
        var value := ResolveReference(task.arg1);
        if value.None? {
          assert ResolveTask(task, tasks) == task;
          return;
        }
        first := value.value;
        updated := true;
      }
      assert Operand(task.arg1, tasks) == Some(first);
      numeric := IsNumeric(task.arg2);
      if !numeric {
        var value := ResolveReference(task.arg2);
        if value.None? {
          assert ResolveTask(task, tasks) == task;
          return;
        }
        second := value.value;
        updated := true;
      }
      assert Operand(task.arg2, tasks) == Some(second);
      assert ResolveTask(task, tasks) == task.(arg1 := first, arg2 := second);
      if updated {
        tasks := tasks[k := task.(arg1 := first, arg2 := second)];
      } else {
        assert task.(arg1 := first, arg2 := second) == task;
      }
    }

    /** UpdateTasks: every row in turn, in whatever order the table yields them. */
    method UpdateTasks()
      requires Valid()
      modifies this
      ensures Valid()
      ensures tasks == SweepTasks(old(tasks))
      ensures expressions == old(expressions)
    {
      ghost var before := tasks;
      var rows := tasks.Keys;
      while rows != {}
        invariant rows <= before.Keys && tasks.Keys == before.Keys
        invariant forall k :: k in tasks ==> tasks[k] == if k in rows then before[k] else ResolveTask(before[k], before)
        invariant Agree(before, tasks)
        invariant expressions == old(expressions)
        decreases rows
      {
        NonEmpty(rows);
        var k :| k in rows;
        ResolveAgree(before[k], before, tasks);
        UpdateTaskRow(k);
        ResolveKeepsOutcome(before[k], before);
        rows := rows - {k};
      }
      assert tasks == SweepTasks(before) by {
        forall k | k in tasks ensures tasks[k] == SweepTasks(before)[k] {
          assert k !in rows;
        }
      }
      SweepTasksAgree(before);
    }

    /** One row of UpdateExpressions; a return is the source's continue. */
    method UpdateExpressionRow(k: int)
      requires k in expressions
      modifies this
      ensures expressions == old(expressions)[k := ResolveExpression(old(expressions)[k], tasks)]
      ensures tasks == old(tasks)
    {
      var expression := expressions[k];
      assert expressions == expressions[k := expression];
      var numeric := IsNumeric(expression.result);
      if !numeric {
        var value := ResolveReference(expression.result);
        if value.None? {
          return;
        }
        expressions := expressions[k := expression.(result := value.value, status := true)];
      }
    }

    /** UpdateExpressions: every row in turn. */
    method UpdateExpressions()
      requires Valid()
      modifies this
      ensures Valid()
      ensures expressions == SweepExpressions(old(expressions), tasks)
      ensures tasks == old(tasks)
    {
      ghost var before := expressions;
      var rows := expressions.Keys;
      while rows != {}
        invariant rows <= before.Keys && expressions.Keys == before.Keys
        invariant forall k :: k in expressions ==>
          expressions[k] == if k in rows then before[k] else ResolveExpression(before[k], tasks)
        invariant tasks == old(tasks)
        decreases rows
      {
        NonEmpty(rows);
        var k :| k in rows;
        UpdateExpressionRow(k);
        rows := rows - {k};
      }
      assert expressions == SweepExpressions(before, tasks) by {
        forall k | k in expressions ensures expressions[k] == SweepExpressions(before, tasks)[k] {
          assert k !in rows;
        }
      }
      SweepExpressionsKeyed(before, tasks);
    }

    /** Done: marks the task, then sweeps the tasks and the expressions. */
    method Done(id: int, result: real)
      requires Valid()
      modifies this
      ensures Valid()
      ensures Store(tasks, expressions) == AfterDone(old(Store(tasks, expressions)), id, result)
    {
      DoneMarks(Store(tasks, expressions), id, result);
      var task := FindTask(id);
      if task.None? {
        return;
      }
      tasks := tasks[id := task.value.(status := true, result := result)];
      UpdateTasks();
      UpdateExpressions();
    }

    /** ParseExpression: compiles the text into a batch numbered after the
        stored tasks, stores the batch and one pending expression that
        refers to the batch's last task, and returns the expression's id. */
    method ParseExpression(expression: string) returns (r: Result<int, Error>)
      requires Valid()
      modifies this
      ensures Valid()
      ensures (r, Store(tasks, expressions)) == AfterParse(old(Store(tasks, expressions)), expression)
    {
      ghost var before := Store(tasks, expressions);
      var first := MaxId(tasks.Keys) + 1;
      var tokens := Tokenize(expression);
      var output := ConvertToRpn(tokens);
      if output.Failure? {
        return Failure(output.error);
      }
      var plan := GenerateTasks(output.value, first);
      if plan.Failure? {
        return Failure(plan.error);
      }
      var batch := plan.value.tasks;
      if |batch| == 0 {
        return Failure(InvalidExpression);
      }
      assert Compile(expression, first) == Success(batch);
      StoreBatch(batch);
      var id := MaxId(expressions.Keys) + 1;
      expressions := expressions[id := Expression(id, false, Placeholder(batch[|batch| - 1].id))];
      assert Valid() by {
        assert AfterParse(before, expression) == Added(before, batch);
        ParseOutcome(before, expression);
      }
      return Success(id);
    }

    /** The insertion loop of ParseExpression. */
    method StoreBatch(batch: seq<Task>)
      modifies this
      ensures tasks == Insert(old(tasks), batch)
      ensures expressions == old(expressions)
    {
      for j := 0 to |batch|
        invariant tasks == Insert(old(tasks), batch[..j])
        invariant expressions == old(expressions)
      {
        assert batch[..j + 1][..j] == batch[..j];
        tasks := tasks[batch[j].id := batch[j]];
      }
      assert batch[..|batch|] == batch;
    }
  }

  // What the sweeps keep

  /** Two task tables with the same ids, statuses and results: references
      resolve the same way in both. */
  predicate Agree(a: map<int, Task>, b: map<int, Task>) {
    && a.Keys == b.Keys
    && forall k :: k in a ==> a[k].status == b[k].status && a[k].result == b[k].result
  }

  lemma ResolveArgAgree(x: string, a: map<int, Task>, b: map<int, Task>)
    requires Agree(a, b)
    ensures ResolveArg(x, a) == ResolveArg(x, b)
  {
  }

  lemma ResolveAgree(t: Task, a: map<int, Task>, b: map<int, Task>)
    requires Agree(a, b)
    ensures ResolveTask(t, a) == ResolveTask(t, b)
  {
    ResolveArgAgree(t.arg1, a, b);
    ResolveArgAgree(t.arg2, a, b);
    assert Operand(t.arg1, a) == Operand(t.arg1, b);
    assert Operand(t.arg2, a) == Operand(t.arg2, b);
  }

  /** A row resolution changes at most the two operands. */
  lemma ResolveKeepsOutcome(t: Task, tasks: map<int, Task>)
    ensures ResolveTask(t, tasks).(arg1 := t.arg1, arg2 := t.arg2) == t
  {
  }

  lemma FormatNumeric(x: real)
    ensures Numeric(FormatNum(x))
  {
  }

  lemma PlaceholderNotNumeric(n: int)
    ensures !Numeric(Placeholder(n))
  {
    assert Placeholder(n)[0] == 'i';
  }

  /** "id<N>" resolves exactly when task N exists and is done, and then to
      N's result as a numeral. */
  lemma ResolvePlaceholder(n: int, tasks: map<int, Task>)
    requires Int64Min <= n <= Int64Max
    ensures !Numeric(Placeholder(n))
    ensures Operand(Placeholder(n), tasks) ==
      if n in tasks && tasks[n].status then Some(FormatNum(tasks[n].result)) else None
  {
    PlaceholderNotNumeric(n);
    PlaceholderRoundTrip(n);
  }

  /** A row rewrite touches only the operands, happens only when both
      operands have a value, and leaves a row that can be handed out. */
  lemma ResolveTaskCases(t: Task, tasks: map<int, Task>)
    ensures ResolveTask(t, tasks).(arg1 := t.arg1, arg2 := t.arg2) == t
    ensures Operand(t.arg1, tasks).None? || Operand(t.arg2, tasks).None? ==> ResolveTask(t, tasks) == t
    ensures Operand(t.arg1, tasks).Some? && Operand(t.arg2, tasks).Some? ==> Complete(ResolveTask(t, tasks))
    ensures Complete(t) ==> ResolveTask(t, tasks) == t
  {
    OperandNumeric(t.arg1, tasks);
    OperandNumeric(t.arg2, tasks);
  }

  /** An operand, once it has a value, is a numeral. */
  lemma OperandNumeric(a: string, tasks: map<int, Task>)
    ensures Operand(a, tasks).Some? ==> Numeric(Operand(a, tasks).value)
    ensures Numeric(a) ==> Operand(a, tasks) == Some(a)
  {
    if !Numeric(a) && ParseId(a).Some? && ParseId(a).value in tasks {
      FormatNumeric(tasks[ParseId(a).value].result);
    }
  }

  /** Resolving a row twice against the same table is resolving it once. */
  lemma ResolveTaskIdempotent(t: Task, tasks: map<int, Task>)
    ensures ResolveTask(ResolveTask(t, tasks), tasks) == ResolveTask(t, tasks)
  {
    ResolveTaskCases(t, tasks);
    var u := ResolveTask(t, tasks);
    if u != t {
      ResolveTaskCases(u, tasks);
    }
  }

  /** UpdateTasks keeps every id, status and result, so a second sweep
      sees the same finished tasks as the first. */
  lemma SweepTasksAgree(tasks: map<int, Task>)
    ensures Agree(tasks, SweepTasks(tasks))
    ensures forall k :: k in tasks ==> SweepTasks(tasks)[k].id == tasks[k].id
  {
    forall k | k in tasks
      ensures SweepTasks(tasks)[k].(arg1 := tasks[k].arg1, arg2 := tasks[k].arg2) == tasks[k]
    {
      ResolveTaskCases(tasks[k], tasks);
    }
  }

  /** Sweeping the task table twice is sweeping it once. */
  lemma SweepTasksIdempotent(tasks: map<int, Task>)
    ensures SweepTasks(SweepTasks(tasks)) == SweepTasks(tasks)
  {
    var swept := SweepTasks(tasks);
    SweepTasksAgree(tasks);
    forall k | k in swept ensures ResolveTask(swept[k], swept) == swept[k] {
      ResolveAgree(swept[k], tasks, swept);
      ResolveTaskIdempotent(tasks[k], tasks);
    }
  }

  /** An expression that refers to "id<N>" takes N's result as a numeral
      and is marked done exactly when task N exists and is done; any other
      expression with a numeric result is left alone. */
  lemma ResolveExpressionCases(e: Expression, tasks: map<int, Task>, n: int)
    requires Int64Min <= n <= Int64Max
    ensures e.result == Placeholder(n) ==>
      ResolveExpression(e, tasks) ==
        if n in tasks && tasks[n].status then Expression(e.id, true, FormatNum(tasks[n].result)) else e
    ensures Numeric(e.result) ==> ResolveExpression(e, tasks) == e
  {
    PlaceholderNotNumeric(n);
    PlaceholderRoundTrip(n);
  }

  /** The numeral an expression receives reads back as the task's result
      whenever that result has at most 17 digits after the point. */
  lemma ExpressionValue(e: Expression, tasks: map<int, Task>, n: int)
    requires Int64Min <= n <= Int64Max && e.result == Placeholder(n)
    requires n in tasks && tasks[n].status && HasDigitsWithin(tasks[n].result, FractionDigits)
    ensures ResolveExpression(e, tasks).status
    ensures ParseNum(ResolveExpression(e, tasks).result) == Some(tasks[n].result)
  {
    ResolveExpressionCases(e, tasks, n);
    FormatRoundTrip(tasks[n].result);
  }

  /** The expression sweep keeps every row under its own id. */
  lemma SweepExpressionsKeyed(expressions: map<int, Expression>, tasks: map<int, Task>)
    requires forall k :: k in expressions ==> expressions[k].id == k
    ensures forall k :: k in SweepExpressions(expressions, tasks) ==> SweepExpressions(expressions, tasks)[k].id == k
  {
  }

  /** Sweeping the expressions twice against one task table is sweeping
      them once: a resolved expression holds a numeral. */
  lemma SweepExpressionsIdempotent(expressions: map<int, Expression>, tasks: map<int, Task>)
    ensures SweepExpressions(SweepExpressions(expressions, tasks), tasks) == SweepExpressions(expressions, tasks)
  {
    var swept := SweepExpressions(expressions, tasks);
    forall k | k in swept ensures ResolveExpression(swept[k], tasks) == swept[k] {
      match ParseId(expressions[k].result)
      case None =>
      case Some(n) =>
        if n in tasks {
          FormatNumeric(tasks[n].result);
        }
    }
  }

  // Done

  /** Done on an unknown id changes nothing. Otherwise the task is done with
      result r, no row appears or disappears, and every row stays under its
      own id. */
  lemma DoneMarks(s: Store, id: int, r: real)
    ensures id !in s.tasks ==> AfterDone(s, id, r) == s
    ensures id in s.tasks ==>
      id in AfterDone(s, id, r).tasks && AfterDone(s, id, r).tasks[id].status && AfterDone(s, id, r).tasks[id].result == r
    ensures AfterDone(s, id, r).tasks.Keys == s.tasks.Keys
    ensures AfterDone(s, id, r).expressions.Keys == s.expressions.Keys
    ensures Keyed(s) ==> Keyed(AfterDone(s, id, r))
  {
    if id in s.tasks {
      var marked := s.tasks[id := s.tasks[id].(status := true, result := r)];
      SweepTasksAgree(marked);
      var after := AfterDone(s, id, r);
      if Keyed(s) {
        forall k | k in after.expressions ensures after.expressions[k].id == k {
          assert after.expressions[k].id == s.expressions[k].id;
        }
      }
    }
  }

  /** Reporting the same result twice is reporting it once. */
  lemma DoneIdempotent(s: Store, id: int, r: real)
    ensures AfterDone(AfterDone(s, id, r), id, r) == AfterDone(s, id, r)
  {
    if id in s.tasks {
      var marked := s.tasks[id := s.tasks[id].(status := true, result := r)];
      var swept := SweepTasks(marked);
      DoneMarks(s, id, r);
      SweepTasksAgree(marked);
      assert swept[id := swept[id].(status := true, result := r)] == swept;
      SweepTasksIdempotent(marked);
      SweepExpressionsIdempotent(s.expressions, swept);
    }
  }

  /** The report of task id releases a task waiting on "id<id>" alone: its
      operand becomes the numeral of r and it can be handed out. */
  lemma DoneReleases(s: Store, id: int, r: real, k: int)
    requires Int64Min <= id <= Int64Max && id in s.tasks && k in s.tasks && k != id
    requires s.tasks[k].arg1 == Placeholder(id) && Numeric(s.tasks[k].arg2)
    ensures AfterDone(s, id, r).tasks[k] == s.tasks[k].(arg1 := FormatNum(r))
    ensures Complete(AfterDone(s, id, r).tasks[k])
  {
    var marked := s.tasks[id := s.tasks[id].(status := true, result := r)];
    ResolvePlaceholder(id, marked);
    FormatNumeric(r);
  }

  /** The report of the task an expression waits on finishes the expression. */
  lemma DoneFinishes(s: Store, id: int, r: real, k: int)
    requires Int64Min <= id <= Int64Max && id in s.tasks && k in s.expressions
    requires s.expressions[k].result == Placeholder(id)
    ensures AfterDone(s, id, r).expressions[k] == Expression(s.expressions[k].id, true, FormatNum(r))
  {
    var marked := s.tasks[id := s.tasks[id].(status := true, result := r)];
    SweepTasksAgree(marked);
    ResolveExpressionCases(s.expressions[k], SweepTasks(marked), id);
  }

  // ParseExpression

  /** A batch numbered from first, added to a table whose ids are all
      below first, keeps every old row and adds exactly the batch's rows. */
  lemma {:induction false} InsertFresh(tasks: map<int, Task>, batch: seq<Task>, first: int)
    requires forall k :: k in tasks ==> k < first
    requires forall j :: 0 <= j < |batch| ==> batch[j].id == first + j
    ensures forall k :: k in Insert(tasks, batch) <==> k in tasks || first <= k < first + |batch|
    ensures forall k :: k in tasks ==> Insert(tasks, batch)[k] == tasks[k]
    ensures forall j :: 0 <= j < |batch| ==> Insert(tasks, batch)[first + j] == batch[j]
    decreases |batch|
  {
    if batch != [] {
      var n := |batch| - 1;
      var prefix := batch[..n];
      forall j | 0 <= j < n ensures prefix[j].id == first + j {
        assert prefix[j] == batch[j];
      }
      InsertFresh(tasks, prefix, first);
      var inner := Insert(tasks, prefix);
      assert Insert(tasks, batch) == inner[first + n := batch[n]];
      forall j | 0 <= j < n ensures Insert(tasks, batch)[first + j] == batch[j] {
        assert first + j in inner;
        assert prefix[j] == batch[j];
      }
    }
  }

  /** The task table after a batch of count tasks numbered from first is
      added: every old row kept, exactly the batch's ids added, all of them
      pending, and every row under its own id. */
  ghost predicate TasksExtended(tasks: map<int, Task>, after: map<int, Task>, first: int, count: nat) {
    && (forall k :: k in after ==> after[k].id == k)
    && (forall k :: k in after <==> k in tasks || first <= k < first + count)
    && (forall k :: k in tasks ==> after[k] == tasks[k])
    && (forall k :: first <= k < first + count ==> !after[k].status)
  }

  /** The expression table after one row is added under a fresh id. */
  predicate ExpressionAppended(expressions: map<int, Expression>, after: map<int, Expression>, id: int) {
    && (forall k :: k in after ==> after[k].id == k)
    && id !in expressions && after.Keys == expressions.Keys + {id}
    && (forall k :: k in expressions ==> after[k] == expressions[k])
  }

  /** ParseExpression on a store keyed by id: on success the new tasks take
      the ids right after the largest stored one, the old rows are kept,
      every row stays under its own id, and the new pending expression,
      under an id not used before, refers to the batch's last task. */
  lemma ParseOutcome(s: Store, expression: string)
    requires Keyed(s)
    ensures AfterParse(s, expression).0.Failure? ==> AfterParse(s, expression).1 == s
    ensures AfterParse(s, expression).0.Success? ==>
      var id := AfterParse(s, expression).0.value;
      var after := AfterParse(s, expression).1;
      var first := MaxId(s.tasks.Keys) + 1;
      var count := |Compile(expression, first).value|;
      && Keyed(after)
      && TasksExtended(s.tasks, after.tasks, first, count)
      && ExpressionAppended(s.expressions, after.expressions, id)
      && after.expressions[id] == Expression(id, false, Placeholder(first + count - 1))
  {
    var first := MaxId(s.tasks.Keys) + 1;
    var compiled := Compile(expression, first);
    if compiled.Success? {
      CompileShape(expression, first);
      var batch := compiled.value;
      assert AfterParse(s, expression) == Added(s, batch);
      StoreExtended(s, batch, first);
    }
  }

  /** The store after a batch and its expression row are added. */
  lemma StoreExtended(s: Store, batch: seq<Task>, first: int)
    requires Keyed(s) && first == MaxId(s.tasks.Keys) + 1 && batch != []
    requires forall j :: 0 <= j < |batch| ==> batch[j].id == first + j && !batch[j].status
    ensures var id, after := Added(s, batch).0.value, Added(s, batch).1;
      && Keyed(after)
      && TasksExtended(s.tasks, after.tasks, first, |batch|)
      && ExpressionAppended(s.expressions, after.expressions, id)
      && after.expressions[id] == Expression(id, false, Placeholder(first + |batch| - 1))
  {
    var id := MaxId(s.expressions.Keys) + 1;
    InsertKeyed(s.tasks, batch, first);
    AppendExpression(s.expressions, id, Placeholder(batch[|batch| - 1].id));
  }

  /** A pending expression added under the next free id. */
  lemma AppendExpression(expressions: map<int, Expression>, id: int, result: string)
    requires forall k :: k in expressions ==> expressions[k].id == k
    requires id == MaxId(expressions.Keys) + 1
    ensures ExpressionAppended(expressions, expressions[id := Expression(id, false, result)], id)
  {
  }

  lemma InsertKeyed(tasks: map<int, Task>, batch: seq<Task>, first: int)
    requires forall k :: k in tasks ==> k < first && tasks[k].id == k
    requires forall j :: 0 <= j < |batch| ==> batch[j].id == first + j && !batch[j].status
    ensures TasksExtended(tasks, Insert(tasks, batch), first, |batch|)
  {
    InsertFresh(tasks, batch, first);
    var after := Insert(tasks, batch);
    forall k | first <= k < first + |batch|
      ensures after[k] == batch[k - first]
    {
      assert after[first + (k - first)] == batch[k - first];
    }
  }

  // The repository's store tests, each on a fresh store

  /** The first task added to an empty store gets id 1. */
  method AddTaskExample() returns (id: int, stored: Task)
    ensures id == 1 && stored == Task(1, "5", "3", '+', false, 0.0)
  {
    var q := new Queue();
    id := q.AddTask(Task(0, "5", "3", '+', false, 0.0));
    stored := q.tasks[id];
  }

  /** Reporting 8 for task 1 marks it done with result 8. */
  method DoneExample() returns (status: bool, result: real)
    ensures status && result == 8.0
  {
    var q := new Queue();
    q.tasks := map[1 := Task(1, "5", "3", '+', false, 0.0)];
    DoneMarks(Store(q.tasks, q.expressions), 1, 8.0);
    q.Done(1, 8.0);
    status := q.tasks[1].status;
    result := q.tasks[1].result;
  }

  /** Once task 1 is done with 8, the operand "id1" of task 2 becomes "8". */
  method UpdateTasksExample() returns (argument: string)
    ensures argument == "8"
  {
    var q := new Queue();
    var tasks := map[1 := Task(1, "5", "3", '+', true, 8.0), 2 := Task(2, "id1", "2", '*', false, 0.0)];
    ExampleSwept(tasks);
    q.tasks := tasks;
    assert q.Valid();
    q.UpdateTasks();
    argument := q.tasks[2].arg1;
  }

  lemma ExampleSwept(tasks: map<int, Task>)
    requires tasks == map[1 := Task(1, "5", "3", '+', true, 8.0), 2 := Task(2, "id1", "2", '*', false, 0.0)]
    ensures Keyed(Store(tasks, map[]))
    ensures 2 in SweepTasks(tasks) && SweepTasks(tasks)[2].arg1 == "8"
  {
    ExampleOperands(tasks);
    assert SweepTasks(tasks)[2] == ResolveTask(tasks[2], tasks);
  }

  lemma ExampleOperands(tasks: map<int, Task>)
    requires tasks == map[1 := Task(1, "5", "3", '+', true, 8.0), 2 := Task(2, "id1", "2", '*', false, 0.0)]
    ensures Operand(tasks[2].arg1, tasks) == Some("8") && Operand(tasks[2].arg2, tasks) == Some("2")
  {
    PlaceholderOne();
    ResolvePlaceholder(1, tasks);
    FormatEight();
    assert NumericChar("2"[0]);
  }

  lemma FormatEight()
    ensures FormatNum(8.0) == "8"
  {
    FormatWhole(8);
    assert NatToString(8) == "8";
  }

  /** "2 + 3" stores one task and an expression waiting on "id1". */
  method ParseExpressionExampleSum(text: string) returns (count: int, result: string)
    requires text == "2 + 3"
    ensures count == 1 && result == "id1"
  {
    var q := new Queue();
    CompileExampleSum(text);
    PlaceholderOne();
    var r := q.ParseExpression(text);
    assert Insert(map[], [Task(1, "2", "3", '+', false, 0.0)]) == map[1 := Task(1, "2", "3", '+', false, 0.0)];
    count := |q.tasks|;
    result := q.expressions[r.value].result;
  }

  /** "2 + 3 * 4" stores two tasks and an expression waiting on "id2". */
  method ParseExpressionExampleProduct(text: string) returns (count: int, result: string)
    requires text == "2 + 3 * 4"
    ensures count == 2 && result == "id2"
  {
    var q := new Queue();
    CompileExampleProduct(text);
    assert Placeholder(2) == "id2" by {
      assert NatToString(2) == "2";
    }
    var r := q.ParseExpression(text);
    var t1 := Task(1, "3", "4", '*', false, 0.0);
    var t2 := Task(2, "2", "id1", '+', false, 0.0);
    assert [t1, t2][..1] == [t1];
    assert Insert(map[], [t1, t2]) == map[1 := t1, 2 := t2];
    count := |q.tasks|;
    result := q.expressions[r.value].result;
  }

  /** "2 + + 3" and "5 / 0" are rejected and store nothing. */
  method ParseExpressionExampleErrors(repeated: string, division: string) returns (first: Result<int, Error>, second: Result<int, Error>, count: int)
    requires repeated == "2 + + 3" && division == "5 / 0"
    ensures first == Failure(NotEnoughOperands) && second == Failure(DivisionByZero) && count == 0
  {
    var q := new Queue();
    CompileExampleRepeated(repeated);
    CompileExampleDivision(division);
    first := q.ParseExpression(repeated);
    second := q.ParseExpression(division);
    count := |q.tasks|;
  }
}
