/** Failure kinds and result types that stand for the exceptions the calculator throws. */
module Outcome {

  /** One constructor per distinct exception message of the calculator. */
  datatype Error =
    | InvalidCharacter          // a character outside digits, '.', operators and parentheses
    | MismatchedParentheses     // a ')' without its '(' or a '(' never closed
    | InvalidToken              // a postfix token that is neither a number nor an operator
    | InvalidPostfixExpression  // too few operands for an operator, or not one value at the end
    | DivisionByZero            // a '/' whose right operand is zero
    | InvalidOperator           // the defensive default of the operator switch

  /** A value, or the error that aborted the computation. */
  datatype Result<+T> = Ok(value: T) | Err(error: Error)

  datatype Option<+T> = None | Some(value: T)
}
