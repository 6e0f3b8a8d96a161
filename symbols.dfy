/** Character classes and the operator precedence table shared by both stages. */
module Symbols {

  /** ASCII decimal digit (the model of Character.isDigit). */
  predicate IsDigit(c: char) {
    '0' <= c <= '9'
  }

  /** A character the converter copies straight into the postfix text. */
  predicate IsNumberChar(c: char) {
    IsDigit(c) || c == '.'
  }

  /** The four binary operators the calculator knows. */
  predicate IsOperator(c: char) {
    c == '+' || c == '-' || c == '*' || c == '/'
  }

  /** Binding strength: additive operators below multiplicative ones, -1 for anything else. */
  function Precedence(c: char): (r: int)
    ensures (c == '+' || c == '-') ==> r == 1
    ensures (c == '*' || c == '/') ==> r == 2
    ensures IsOperator(c) <==> r > 0
    ensures !IsOperator(c) ==> r == -1
    ensures r <= 2
  {
    if c == '+' || c == '-' then 1
    else if c == '*' || c == '/' then 2
    else -1
  }

  /** Multiplicative operators bind strictly tighter than additive ones, and operators of
      the same group have the same precedence. */
  lemma PrecedenceOrder(add: char, mul: char, c: char)
    requires add == '+' || add == '-'
    requires mul == '*' || mul == '/'
    ensures Precedence(add) == 1 && Precedence(mul) == 2
    ensures Precedence(add) < Precedence(mul)
    ensures IsOperator(c) ==> Precedence(c) == Precedence(add) || Precedence(c) == Precedence(mul)
  {
  }
}
