/** Calculator.evaluateExpression: the two stages run one after the other. */
module Calculator {
  import opened Outcome
  import opened Conversion
  import opened ConversionProofs
  import opened Evaluation

  /** Convert the infix expression to postfix text and evaluate that text. A conversion
      error is returned as it is; otherwise the result is the evaluator's. */
  function EvaluateExpression(expression: string): (r: Result<real>)
    ensures r.Ok? ==> AllValid(expression) && Balanced(expression)
    ensures r == Err(InvalidCharacter) <==>
      exists i :: 0 <= i < |expression| && Sound(expression[..i]) && !IsValidChar(expression[i])
    ensures AllValid(expression) && !Balanced(expression) ==> r == Err(MismatchedParentheses)
    ensures AllValid(expression) && Balanced(expression) ==>
      PostfixOf(expression).Ok? && r == ValueOf(PostfixOf(expression).value)
  {
    PostfixSucceedsIff(expression);
    InvalidCharacterIff(expression);
    match PostfixOf(expression)
    case Err(e) => Err(e)
    case Ok(postfix) => ValueOf(postfix)
  }
}
