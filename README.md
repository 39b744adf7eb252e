# web-calculation: a verified model of the expression pipeline

web-calculation is a distributed arithmetic calculator written in Go. An
orchestrator takes an arithmetic expression such as `2 + 3 * 4` and
compiles it in three steps:

1. `tokenize` splits the text into numerals and one-character symbols.
2. `convertToRPN` rewrites the tokens in postfix order (shunting-yard).
3. `generateTasksFromRPN` turns the postfix list into a batch of binary
   tasks.

Each task's operands are either numerals or a placeholder `id<N>` that
stands for the future result of task N. The tasks and one expression row
per request are kept in two SQLite tables (`tasks`, `expressions`).
Computing agents use two gRPC calls:

- `GetAvailableTask` claims a task whose operands are both numerals.
- `CompleteTask` reports a result.

Reporting a result (`Done`) marks the task finished. It then sweeps both
tables and replaces every `id<N>` that refers to a finished task by that
task's result, written as a decimal numeral. A separate package,
`pkg/calculation`, evaluates an expression directly with the classic
two-stack algorithm.

The model has one Dafny module per source component:

| module | file | models |
|---|---|---|
| `Wrappers`, `Errors`, `Shared` | `wrappers.dfy`, `errors.dfy`, `shared.dfy` | `Option`/`Result`, the error values of `shared/errors`, and the `Task` and `Expression` records |
| `Numbers` | `numbers.dfy` | The library routines the core calls: character classes, `strconv.ParseInt`/`ParseFloat`/`FormatFloat`, `fmt`'s `%d`, `strings.TrimPrefix` |
| `Tokenizer` | `tokenizer.dfy` | `tokenize` |
| `Rpn` | `rpn.dfy` | `convertToRPN`, `isOperator`, `IsNumeric`, `Complete` |
| `Synthesis` | `synthesis.dfy` | `generateTasksFromRPN` and the compile path of `ParseExpression` |
| `TaskQueue` | `queue.dfy` | The `Queue` store as a class with two map fields; every method is proved against a function of the old tables |
| `Proto` | `proto.dfy` | The two gRPC handlers |
| `Calculation` | `calculation.dfy` | The direct evaluator |
| `Postfix` | `postfix.dfy` | What the postfix output means: its evaluation with one number stack, and its agreement with the direct evaluator |
| `Batch` | `batch.dfy` | What a task batch computes: each task applied to its operands' values, `id<N>` standing for task N's result, and the batch's value that of its last task; its agreement with the postfix value |

The repository holds three copies of `tokenize`: `orchestrator/pkg/task/utils.go`,
`orchestrator/pkg/task/tokenize.go` and `pkg/calculation/calculation.go`.
They have the same text, so one model serves all three.

Each loop of the source is a `method` with a `while` or `for` loop. This
includes the row scans of `GetTasks`, `GetExpressions` and
`GetAvailableTask`. Its `ensures` equates the result, or the new state of
the store, with a function of the inputs. The lemmas then state what the source promises
about those functions:

- round trips;
- success exactly when the input is well formed, with each error traced
  to its cause;
- the shape of the postfix output and of the task batch;
- the meaning of the postfix output: evaluated as postfix, it gives what the direct evaluator gives;
- the value of a task batch: completing its tasks in order gives the value of the postfix list, so "2 + 3 * 4" resolves to 14;
- idempotence of the sweeps and of `Done`;
- the repository's own test cases.

## Model

| member | source | states |
|---|---|---|
| Numbers.NatToString | orchestrator/pkg/task/task.go:463-464 | The decimal text of a natural number is non-empty, holds only digits, and reads back as the number. |
| Numbers.TrimPrefix | orchestrator/pkg/task/task.go:252 | The prefix is removed exactly when the text starts with it; otherwise the text is unchanged. |
| Numbers.ParseInt | orchestrator/pkg/task/task.go:252 | Text of an optional '+' or '-' followed by decimal digits parses to its signed value when that lies in the 64-bit signed range, and fails out of range. Any other text fails. |
| Numbers.PlaceholderRoundTrip | orchestrator/pkg/task/task.go:463-464 | For every 64-bit id n, reading `id<n>` back as the code does (trim "id", ParseInt) gives exactly n. |
| Numbers.PlaceholderInjective | orchestrator/pkg/task/task.go:463-464 | Two ids with the same placeholder `id<n>` are equal. |
| Numbers.PlaceholderNotNumber | orchestrator/pkg/task/task.go:463-464 | No placeholder `id<n>` reads as a number. |
| Numbers.ParseLetter | pkg/calculation/calculation.go:77-84 | A one-character token that is not a digit, a point or a sign is not a number. |
| Numbers.FormatNum | orchestrator/pkg/task/task.go:280-282 | The text a result is written as is non-empty and holds only digits, '.' and '-'. |
| Numbers.FormatRoundTrip | orchestrator/pkg/task/task.go:280-282 | Parsing the written form of x gives back x, for every x with at most 17 digits after the point. |
| Numbers.FormatIntegerRoundTrip | orchestrator/pkg/task/task.go:380 | Every integer result is written as text that parses back to it. |
| Numbers.FormatWhole | orchestrator/pkg/task/task.go:405 | A whole non-negative result is written as its digits alone, with no point (8.0 becomes "8"). |
| Tokenizer.Tokenize | orchestrator/pkg/task/utils.go:100-125 | The character loop with its numeral buffer yields exactly the token list `Tokens(expression)`. |
| Tokenizer.TokensConcat | orchestrator/pkg/task/tokenize.go:5-30 | The tokens, concatenated, are the input with the whitespace removed and each ',' written as '.': nothing else is lost, added or reordered. |
| Tokenizer.TokensAreTokens | pkg/calculation/calculation.go:19-44 | Every token is non-empty and is either a numeral of digits and '.', or one character that is neither whitespace nor part of a numeral; no token holds whitespace or ','. |
| Tokenizer.MaximalRun | orchestrator/pkg/task/utils.go:105-118 | A maximal run of digits, '.' and ',' becomes exactly one token (',' written '.'), and the text on its two sides is tokenized independently. |
| Tokenizer.TokensSimple | orchestrator/pkg/task/utils.go:100-125 | A digit, an operator character and a digit, separated by single spaces, give exactly three one-character tokens in that order (the shape of "2 + 3" and "5 / 0"). |
| Tokenizer.TokensExampleSum | orchestrator/pkg/task/task_test.go:36-42 | "2 + 3" gives the tokens "2", "+", "3". |
| Tokenizer.TokensExampleProduct | orchestrator/pkg/task/task_test.go:43-49 | "2 + 3 * 4" gives "2", "+", "3", "*", "4". |
| Tokenizer.TokensExampleRepeated | orchestrator/pkg/task/task_test.go:50-56 | "2 + + 3" gives "2", "+", "+", "3". |
| Rpn.IsOperator | orchestrator/pkg/task/utils.go:80-87 | True exactly for the one-character tokens "+", "-", "*" and "/". |
| Rpn.IsNumeric | orchestrator/pkg/task/utils.go:90-97 | The loop answers true exactly when every character is a digit, '.', ',' or '-'; the empty text is numeric. |
| Rpn.ConvertToRpn | orchestrator/pkg/task/utils.go:11-77 | The loop over the tokens, with the operator stack, output queue and parenthesis counter, yields exactly `Rpn(tokens)`. |
| Rpn.ConvertSucceeds | orchestrator/pkg/task/utils.go:11-77 | The conversion succeeds if and only if three things hold: no prefix has more ")" than "(" and the totals are equal; no "/" is directly followed by the token "0"; every token other than a parenthesis or an operator is numeric text or starts with "id". |
| Rpn.ConvertErrors | orchestrator/pkg/task/utils.go:23-69 | A mismatch error means the parentheses are unbalanced. DivisionByZero means some "/" is followed by "0". InvalidNumber means some operand is neither numeric nor a placeholder. No other error occurs. |
| Rpn.ConvertShape | orchestrator/pkg/task/utils.go:11-77 | A successful output holds no parenthesis, and its operands are exactly the input's operands in input order, with a "0" in front of each unary minus. |
| Rpn.ConvertKeepsOperators | orchestrator/pkg/task/utils.go:40-74 | Each operator occurs in a successful output exactly as often as in the input. |
| Rpn.CompleteResolved | orchestrator/pkg/task/utils.go:128-130 | A task whose operands are written results is complete; a task with a placeholder operand is not. |
| Rpn.ConvertExampleSum | orchestrator/pkg/task/task_test.go:147-152 | "2", "+", "3" converts to "2", "3", "+". |
| Rpn.ConvertExampleGroup | orchestrator/pkg/task/task_test.go:153-158 | "(", "2", "+", "3", ")", "*", "4" converts to "2", "3", "+", "4", "*". |
| Rpn.ConvertExampleUnclosed | orchestrator/pkg/task/task_test.go:159-164 | "(", "2", "+", "3" fails with MismatchedParentheses. |
| Rpn.ConvertExampleDivision | orchestrator/pkg/task/task_test.go:165-170 | "5", "/", "0" fails with DivisionByZero. |
| Rpn.ConvertExampleProduct | orchestrator/pkg/task/utils.go:49-58 | "2 + 3 * 4" converts to "2", "3", "4", "*", "+": the tighter operator is emitted first. |
| Rpn.ConvertExampleRepeated | orchestrator/pkg/task/utils.go:40-58 | "2", "+", "+", "3" converts to "2", "+", "3", "+": a repeated "+" is not rejected. Only a minus is treated as unary. |
| Synthesis.GenerateTasks | orchestrator/pkg/task/task.go:429-472 | The loop with the operand stack and the incrementing id yields exactly `Generate(output, first)`. |
| Synthesis.GenerateSucceeds | orchestrator/pkg/task/task.go:442-469 | Synthesis succeeds if and only if every operator finds two stacked operands and no "/" has the literal "0" as its right operand. NotEnoughOperands means some operator is starved. DivisionByZero means some "/" has two operands, the right one "0". No other error occurs. |
| Synthesis.GenerateShape | orchestrator/pkg/task/task.go:455-465 | A successful batch has one task per operator of the postfix list, with the operators in order. The ids run consecutively from first. Every task is pending with result 0. The id map names `id<N>` for exactly the new ids. |
| Synthesis.GenerateReferences | orchestrator/pkg/task/task.go:447-467 | Every operand of a task is an operand token of the postfix list, or the placeholder of a task of the same batch with a smaller id. |
| Synthesis.CompileSucceeds | orchestrator/pkg/task/task.go:474-488 | An expression compiles if and only if it converts, and its postfix form passes synthesis and holds at least one operator. |
| Synthesis.CompileShape | orchestrator/pkg/task/task.go:474-488 | A compiled batch is non-empty, numbered consecutively from first, all pending, and its last task has the highest id. |
| Synthesis.GenerateExampleSum | orchestrator/pkg/task/task.go:455-464 | On an empty table, "2", "3", "+" yields the single task 1 = 2 + 3 and the id map {1: "id1"}. |
| Synthesis.GenerateExampleProduct | orchestrator/pkg/task/task.go:455-467 | "2", "3", "4", "*", "+" yields task 1 = 3 * 4 and task 2 = 2 + "id1". |
| Synthesis.GenerateExampleRepeated | orchestrator/pkg/task/task.go:444-446 | "2", "+", "3", "+" fails with NotEnoughOperands. |
| Synthesis.CompileExampleSum | orchestrator/pkg/task/task_test.go:36-42 | "2 + 3" compiles to the one task 1 = 2 + 3. |
| Synthesis.CompileExampleProduct | orchestrator/pkg/task/task_test.go:43-49 | "2 + 3 * 4" compiles to two tasks, the second waiting on "id1". |
| Synthesis.CompileExampleRepeated | orchestrator/pkg/task/task_test.go:50-56 | "2 + + 3" is rejected with NotEnoughOperands. |
| Synthesis.CompileExampleDivision | orchestrator/pkg/task/task_test.go:57-63 | "5 / 0" is rejected with DivisionByZero. |
| TaskQueue.MaxId | orchestrator/pkg/task/task.go:436 | `COALESCE(MAX(id), 0)` is 0 for an empty table, and otherwise a stored id at least as large as every stored id. |
| TaskQueue.Queue.constructor | orchestrator/pkg/task/task.go:30-48 | A new store has two empty tables. |
| TaskQueue.Queue.AddTask | orchestrator/pkg/task/task.go:84-108 | The task is stored under the largest id plus 1, which is unused, and that id is returned; nothing else changes. |
| TaskQueue.Queue.AddExpression | orchestrator/pkg/task/task.go:110-134 | The same numbering, for the expressions table. |
| TaskQueue.Queue.FindTask | orchestrator/pkg/task/task.go:316-336 | A row is found exactly when its id is stored, and it is the stored row with that id. |
| TaskQueue.Queue.FindExpression | orchestrator/pkg/task/task.go:299-314 | A row is found exactly when its id is stored, and it is the stored row with that id. |
| TaskQueue.Queue.GetTasks | orchestrator/pkg/task/task.go:178-205 | The scan over the rows returns exactly the stored task table, each task under its own id, in whatever order the rows come. |
| TaskQueue.Queue.GetExpressions | orchestrator/pkg/task/task.go:207-234 | The expressions are swept first, then the scan returns exactly the swept table. The task table is unchanged and the store stays well formed. |
| TaskQueue.Queue.ResolveReference | orchestrator/pkg/task/task.go:362-380 | The lookup of an operand gives a numeral only when the text reads as an id of a stored, finished task. |
| TaskQueue.Queue.UpdateTaskRow | orchestrator/pkg/task/task.go:358-419 | One row is replaced by its resolution against the old table; no other row changes. |
| TaskQueue.Queue.UpdateTasks | orchestrator/pkg/task/task.go:338-427 | Whatever order the rows come in, the task table ends as the sweep of the old table, and the expressions are untouched. A well-formed store stays well formed. |
| TaskQueue.Queue.UpdateExpressionRow | orchestrator/pkg/task/task.go:251-292 | One expression row is replaced by its resolution; no other row changes. |
| TaskQueue.Queue.UpdateExpressions | orchestrator/pkg/task/task.go:236-297 | Whatever order the rows come in, the expressions table ends as the sweep of the old one, and the tasks are untouched. A well-formed store stays well formed. |
| TaskQueue.Queue.Done | orchestrator/pkg/task/task.go:137-175 | The store ends as `AfterDone` of the old store: unchanged for an unknown id; otherwise the task is marked, then both tables are swept. A well-formed store stays well formed. |
| TaskQueue.Queue.ParseExpression | orchestrator/pkg/task/task.go:474-527 | The result and the new store are those of `AfterParse`, and a well-formed store stays well formed. |
| TaskQueue.Queue.StoreBatch | orchestrator/pkg/task/task.go:491-500 | Every task of the batch is inserted under its own id; the expressions are untouched. |
| TaskQueue.ResolvePlaceholder | orchestrator/pkg/task/task.go:360-383 | The operand `id<N>` gets a value exactly when task N exists and is done, and that value is N's result written as a numeral. |
| TaskQueue.ResolveTaskCases | orchestrator/pkg/task/task.go:358-419 | Resolving a row changes only its operands. It changes them only when both operands have a value, and then leaves a complete row. A complete row is left alone. |
| TaskQueue.ResolveTaskIdempotent | orchestrator/pkg/task/task.go:358-419 | Resolving a row twice against one table is the same as resolving it once. |
| TaskQueue.SweepExpressionsKeyed | orchestrator/pkg/task/task.go:236-297 | A sweep of the expressions keeps every row under its own id. |
| TaskQueue.SweepTasksAgree | orchestrator/pkg/task/task.go:338-427 | A sweep keeps every row's id, status and result. |
| TaskQueue.SweepTasksIdempotent | orchestrator/pkg/task/task.go:338-427 | Sweeping the task table twice is the same as sweeping it once. |
| TaskQueue.ResolveExpressionCases | orchestrator/pkg/task/task.go:251-292 | An expression waiting on `id<N>` becomes done with N's result exactly when task N exists and is done. An expression with a numeric result is left alone. |
| TaskQueue.ExpressionValue | orchestrator/pkg/task/task.go:280-282 | The numeral a finished expression receives reads back as the task's result, whenever that result has at most 17 digits after the point. |
| TaskQueue.SweepExpressionsIdempotent | orchestrator/pkg/task/task.go:236-297 | Sweeping the expressions twice against one task table is the same as sweeping them once. |
| TaskQueue.DoneMarks | orchestrator/pkg/task/task.go:137-175 | Done on an unknown id changes nothing. On a known id, the task becomes done with the reported result, no row appears or disappears, and every row stays under its own id. |
| TaskQueue.DoneIdempotent | orchestrator/pkg/task/task.go:137-175 | Reporting the same result twice is the same as reporting it once. |
| TaskQueue.DoneReleases | orchestrator/pkg/task/task.go:167-174 | Take a task whose first operand is `id<id>` and whose second operand is numeric. Reporting task id gives that first operand the reported result, and the task can then be handed out. |
| TaskQueue.DoneFinishes | orchestrator/pkg/task/task.go:167-174 | Reporting the task an expression waits on finishes the expression with that result. |
| TaskQueue.InsertFresh | orchestrator/pkg/task/task.go:491-500 | Insert a batch numbered from first into a table whose ids are all below first. Every old row is kept, and exactly the batch's rows are added. |
| TaskQueue.ParseOutcome | orchestrator/pkg/task/task.go:474-527 | A failure leaves both tables unchanged. A success does four things: it numbers the new pending tasks right after the largest stored id; it keeps every old row; it keeps every row under its own id; and it adds one pending expression, under a fresh id, that waits on the batch's last task. |
| TaskQueue.AddTaskExample | orchestrator/pkg/task/task_test.go:11-26 | The first task added to an empty store gets id 1 and is stored as given, under that id. |
| TaskQueue.DoneExample | orchestrator/pkg/task/task_test.go:86-106 | Reporting 8 for task 1 leaves it done with result 8. |
| TaskQueue.UpdateTasksExample | orchestrator/pkg/task/task_test.go:108-138 | Once task 1 is done with 8, the operand "id1" of task 2 is rewritten to "8". |
| TaskQueue.ParseExpressionExampleSum | orchestrator/pkg/task/task_test.go:36-42 | "2 + 3" on an empty store stores one task and an expression whose result is "id1". |
| TaskQueue.ParseExpressionExampleProduct | orchestrator/pkg/task/task_test.go:43-49 | "2 + 3 * 4" stores two tasks and an expression whose result is "id2". |
| TaskQueue.ParseExpressionExampleErrors | orchestrator/pkg/task/task_test.go:50-63 | "2 + + 3" and "5 / 0" are rejected with their errors, and nothing is stored. |
| Proto.GetAvailableTask | proto/proto.go:17-49 | There is no message exactly when the task table is empty. A message with status true carries a stored task that is pending and complete. Otherwise the message is the all-zero one, and no stored task is available. |
| Proto.CompleteTask | proto/proto.go:51-56 | The store ends exactly as `Done` leaves it, and stays well formed. |
| Calculation.Precedence | pkg/calculation/calculation.go:102-111 | "*" and "/" bind at level 2, "+" and "-" at level 1, and anything else at level 0. |
| Calculation.Arith | pkg/calculation/calculation.go:126-142 | The operator fails exactly when it is unknown or is "/" by 0. For an unknown operator the error is UnknownOperator, otherwise DivisionByZero. A quotient times the divisor gives the dividend. |
| Calculation.ApplyOperator | pkg/calculation/calculation.go:114-147 | It fails with NotEnoughOperands when fewer than two numbers are stacked, otherwise exactly as the operator does. On success it pops the top operator and replaces the top two numbers by one, leaving the rest of the stack alone. |
| Calculation.ApplyValue | pkg/calculation/calculation.go:119-145 | The number pushed is the popped operator applied to the lower popped number on the left and the top one on the right. |
| Calculation.Evaluate | pkg/calculation/calculation.go:47-99 | The pass over the tokens with the two stacks yields exactly `Eval(tokens)`. |
| Calculation.Calc | pkg/calculation/calculation.go:11-16 | Tokenize, then evaluate: exactly `Calculate(expression)`. |
| Calculation.EvalBinary | pkg/calculation/calculation.go:47-99 | For a number, an operator and a number, evaluation gives the operator applied to the two numbers. |
| Calculation.EvalLeft | pkg/calculation/calculation.go:69-76 | `a op1 b op2 c` with op1 binding at least as tightly as op2 evaluates as `(a op1 b) op2 c`. |
| Calculation.EvalRight | pkg/calculation/calculation.go:69-76 | `a op1 b op2 c` with op2 binding more tightly evaluates as `a op1 (b op2 c)`. |
| Calculation.EvalUnreadable | pkg/calculation/calculation.go:77-84 | A leading token that is not a parenthesis, an operator or a number gives InvalidNumber. |
| Calculation.ReduceStops | pkg/calculation/calculation.go:71-75 | The operator loop applies stacked operators from the top only while each binds at least as tightly as the incoming one, so never a "(". It stops at the bottom, at a "(" or at a looser operator. It consumes one number per operator and leaves the numbers below alone. It fails only for want of numbers or on a division by zero. |
| Calculation.Balanced | pkg/calculation/calculation.go:54-68 | When the counts of "(" and ")" differ, evaluation fails. |
| Calculation.EvalErrors | pkg/calculation/calculation.go:47-147 | Each error points to a cause among the tokens. A mismatch needs a ")". InvalidNumber needs an unreadable token. DivisionByZero needs a "/". UnknownOperator means more "(" than ")" among the tokens: a "(" is left for the final loop. NotEnoughOperands means that, or a prefix of the tokens with at least one operator and no more operands than operators. InvalidExpression means the operands are not exactly one more than the operators. |
| Calculation.CalcExampleAddition | test/calculation_test.go:21-27 | "2 + 2" evaluates to 4. |
| Calculation.CalcExampleSubtraction | test/calculation_test.go:28-34 | "10 - 5" evaluates to 5. |
| Calculation.CalcExampleMultiplication | test/calculation_test.go:35-41 | "3 * 4" evaluates to 12. |
| Calculation.CalcExampleDivision | test/calculation_test.go:42-48 | "15 / 3" evaluates to 5. |
| Calculation.CalcExampleInvalid | test/calculation_test.go:49-54 | "invalid" fails with InvalidNumber. |
| Calculation.CalcExampleDivisionByZero | test/calculation_test.go:55-60 | "10 / 0" fails with DivisionByZero. |
| Postfix.UnstackReduce | orchestrator/pkg/task/utils.go:49-57 | The converter's operator loop pops exactly what the evaluator's operator loop applies, and its output evaluates to the evaluator's numbers or fails with its error. |
| Postfix.UnstackClose | orchestrator/pkg/task/utils.go:33-39 | The converter's ")" loop pops down to the "(" that the evaluator's ")" loop drops, with the same numbers or the same error. |
| Postfix.DrainAgrees | orchestrator/pkg/task/utils.go:71-74 | Popping the rest of the stack onto the output is the evaluator's final loop. |
| Postfix.StepAgrees | orchestrator/pkg/task/utils.go:23-64 | Each token the converter accepts keeps its state in step with the evaluator's stacks, or has already made the output fail as the evaluator fails. |
| Postfix.ConvertedValue | orchestrator/pkg/task/utils.go:11-77 | Whenever a token list without a unary minus converts, the postfix list evaluates to exactly what `evaluate` returns for the infix tokens, the error included. Precedence and left associativity of the output follow from `EvalLeft` and `EvalRight`. |
| Batch.OperandStands | orchestrator/pkg/task/task.go:466-468 | An operand token is pushed on the operand stack; if it reads as a number, the stack keeps standing, entry by entry, for the postfix number stack with that number pushed. |
| Batch.OperatorStands | orchestrator/pkg/task/task.go:443-465 | When the postfix step of an operator succeeds, the synthesis step succeeds too: two operands are stacked and a "/" never has "0" on the right. The emitted task's value is the postfix step's result, recorded under its new placeholder, which is the new top entry. The entries below keep their values. |
| Batch.StepStands | orchestrator/pkg/task/task.go:442-469 | One token moves the synthesis walk along with the postfix stack, and after an operator the last task's placeholder is on top. |
| Batch.WalkValue | orchestrator/pkg/task/task.go:442-471 | From any position where the walk stands for the postfix stack, the rest of the synthesis succeeds and its batch has the list's value. |
| Batch.EndsWithOperator | orchestrator/pkg/task/task.go:442-469 | A postfix list that leaves exactly one number and holds an operator ends with an operator, so its last task produces the final value. |
| Batch.KnownLast | orchestrator/pkg/task/task.go:512-516 | The value of a batch whose tasks complete is what is recorded under the last task's placeholder, the one the expression row waits on. |
| Batch.LastValue | orchestrator/pkg/task/task.go:464-471 | A walk that ends with one entry, the last task's placeholder, has the value of that entry as its batch value. |
| Batch.BatchValue | orchestrator/pkg/task/task.go:429-472 | If a postfix list evaluates to exactly one number v and holds an operator, synthesis succeeds and completing its tasks in order gives v as the last task's value. |
| Batch.CompiledValue | orchestrator/pkg/task/task.go:474-516 | For an expression without a unary minus that compiles and that the direct evaluator computes as v, the compiled batch resolves to v. |
| Batch.BatchExampleProduct | orchestrator/pkg/task/task_test.go:43-49 | "2 + 3 * 4" compiles on an empty table, and its batch resolves to 14: task 1 = 3 * 4 gives 12, task 2 = 2 + id1 gives 14. |

## Left out

- SQLite: the tables are two maps from id to row. The model leaves out the SQL text, connection handling, `NewQueue`/`initTables`/`Close`, and every database error path, such as a failed insert or a failed scan that logs and continues.
- Dropping the database error paths also drops the fallback `nextID = 1` when the MAX query fails.
- Logging is not modelled.
- Row order: the order in which SQLite yields rows is unspecified, so the sweeps and the scans of `GetTasks` and `GetExpressions` pick the next row with `:|`. `GetAvailableTask` ranges over a Go map (proto/proto.go:28), whose iteration order Go randomises; it does the same. Their contracts hold for every order.
- Numbers are exact reals, not IEEE-754 doubles. Results are not rounded.
- `ParseFloat` is modelled on plain decimal literals (sign, digits, one optional point). Exponents, hexadecimal forms, "inf"/"nan" and range errors are not modelled. A numeral too large for a double parses in the model.
- Numbers.FormatRoundTrip: proved only for values with at most 17 digits after the point. `FormatNum` stops after 17 digits, which stands in for `FormatFloat`'s shortest round-tripping form of a double.
- TaskQueue.ExpressionValue: has the same 17-digit condition.
- `unicode.IsDigit` is restricted to ASCII digits, and `unicode.IsSpace` to its Latin-1 members.
- Task ids are unbounded integers: the 64-bit wrap-around of `nextID++` is not modelled. `PlaceholderRoundTrip` and `ResolvePlaceholder` assume ids within the int64 range.
- `OperationTime` is not modelled. The tasks table has no column for it, so the message always carries 0.
- The calculation package returns errors from an external module, github.com/veliashev/rpn/pkg/errors, which is not part of this model. The values of `shared/errors` stand in for them one for one.
- `applyOperator` updates its slices through pointers. The model returns the new stacks instead.
- Operands left on the stack after synthesis (for example in "2 3 + 4") are ignored, as the source ignores them. The model keeps this quirk and does not report it as an error.
- The task id map that `generateTasksFromRPN` returns is modelled (`Plan.ids`), but `ParseExpression` discards it.
- The computing agent, authentication, the HTTP and gRPC servers, configuration, `service.GetQueue` and its `sync.Once` are outside the modelled core. The one exception is `Batch.TaskValue`, which combines a task's two operand values as the agent's `calculateExpression` does (agent/internal/controller/application.go:122-177).
- In the repository's tests, `Queue` is built with `Tasks`/`Expressions` map fields, which the SQLite-backed `Queue` does not have. The AddTask test also compares a task with ID 0 against the stored one, which has ID 1. The examples state what the modelled store does: the stored task carries id 1.
- The HTTP test cases in test/calculation_test.go go through `CalculationHandler` of internal/application/application.go:46, which calls `calculation.Calc`. The examples apply the same expressions to `Calc` directly; the HTTP layer is not modelled.
- Postfix.ConvertedValue: stated only for token lists without a unary minus. The converter writes a sign as `0 x -`, but the direct evaluator has no unary minus. On `- 3` the evaluator fails with NotEnoughOperands, while the postfix list `0 3 -` evaluates to -3 (`Postfix.SignDiffers`). So the restriction cannot be dropped.
- The orchestrator never evaluates a postfix list itself; it turns it into tasks. `Batch.BatchValue` ties the batch's value to `Postfix.Value` only when the list leaves exactly one number. A list with operands left over gets no such guarantee. For example, the accepted input "2 + 3 4" converts to `2 3 4 +`, whose single task 3 + 4 has value 7, while `Postfix.Value` fails with InvalidExpression.
- Batch.BatchResult: the value of a batch is defined on the batch itself, completing its tasks in order. The model does not prove that the queue's `Done` calls, which substitute results one task at a time, end with the same value in the expression row.
- Batch.TaskValue: an operator other than the four gives UnknownOperator, where the agent's `calculateExpression` returns 0 without an error. Synthesis only emits the four operators, so no batch task meets this case. The agent's configured delays are not modelled.
