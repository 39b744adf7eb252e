/** The records of shared/types.go that the task queue stores. */
module Shared {

  /** shared.Task. Operands are strings: a numeral, or a placeholder "id<N>"
      naming the task whose result they wait for. OperationTime is left out:
      the queue never stores it. */
  datatype Task = Task(
    id: int,
    arg1: string,
    arg2: string,
    operator: char,
    status: bool,
    result: real)

  /** shared.Expression. `result` holds "id<N>" until task N is done, then
      the formatted number. */
  datatype Expression = Expression(id: int, status: bool, result: string)
}
