/** The error values of shared/errors/errors.go. Each Go variable becomes one
    constructor; the Russian message texts are not modelled. */
module Errors {

  datatype Error =
    | MismatchedParentheses
    | InvalidNumber
    | InvalidExpression
    | NotEnoughOperands
    | DivisionByZero
    | UnknownOperator
}
