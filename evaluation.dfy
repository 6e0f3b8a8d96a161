/** The postfix evaluator of Calculator.evaluatePostfix.
    The Scanner that splits the postfix text is modelled by Tokens (maximal runs of
    non-space characters) and ParseNumber (what hasNextDouble/nextDouble accept and
    return); the value stack is a sequence of reals whose last element is the top.
    The method EvaluatePostfix runs the loop of the source and is proved equal to ValueOf. */
module Evaluation {
  import opened Outcome
  import opened Symbols

  // ---------------------------------------------------------------- the tokenizer

  /** The white space that separates tokens (the ASCII part of Java's white-space class). */
  predicate IsSpace(c: char) {
    c == ' ' || '\t' <= c <= '\r' || '\U{001C}' <= c <= '\U{001F}'
  }

  /** A token: a non-empty run of non-space characters. */
  predicate IsToken(t: string) {
    |t| > 0 && forall i :: 0 <= i < |t| ==> !IsSpace(t[i])
  }

  /** The length of the run of non-space characters that s starts with. */
  function TokenEnd(s: string): (n: nat)
    ensures n <= |s|
    ensures forall i :: 0 <= i < n ==> !IsSpace(s[i])
    ensures n < |s| ==> IsSpace(s[n])
    decreases |s|
  {
    if s == [] || IsSpace(s[0]) then 0 else 1 + TokenEnd(s[1..])
  }

  /** The tokens the Scanner yields for s, in order. */
  function Tokens(s: string): (ts: seq<string>)
    ensures forall i :: 0 <= i < |ts| ==> IsToken(ts[i])
    decreases |s|
  {
    if s == [] then []
    else if IsSpace(s[0]) then Tokens(s[1..])
    else
      var n := TokenEnd(s);
      [s[..n]] + Tokens(s[n..])
  }

  // ---------------------------------------------------------------- numbers

  predicate AllDigits(d: string) {
    forall i :: 0 <= i < |d| ==> IsDigit(d[i])
  }

  function DigitValue(c: char): nat
    requires IsDigit(c)
  {
    c as int - '0' as int
  }

  /** The natural number a string of decimal digits denotes. */
  function DigitsValue(d: string): nat
    requires AllDigits(d)
    decreases |d|
  {
    if d == [] then 0 else 10 * DigitsValue(d[..|d| - 1]) + DigitValue(d[|d| - 1])
  }

  function Pow10(k: nat): (r: nat)
    ensures r >= 1
  {
    if k == 0 then 1 else 10 * Pow10(k - 1)
  }

  /** The position of the first '.' in t, or |t| when there is none. */
  function DotIndex(t: string): (k: nat)
    ensures k <= |t|
    ensures forall i :: 0 <= i < k ==> t[i] != '.'
    ensures k < |t| ==> t[k] == '.'
    decreases |t|
  {
    if t == [] || t[0] == '.' then 0 else 1 + DotIndex(t[1..])
  }

  /** An unsigned decimal numeral: digits with at most one '.', and at least one digit. */
  function ParseUnsigned(t: string): Option<real> {
    var k := DotIndex(t);
    var whole := t[..k];
    if k == |t| then
      if |whole| > 0 && AllDigits(whole) then Some(DigitsValue(whole) as real) else None
    else
      var frac := t[k + 1..];
      if AllDigits(whole) && AllDigits(frac) && |whole| + |frac| > 0 then
        Some(DigitsValue(whole) as real + DigitsValue(frac) as real / Pow10(|frac|) as real)
      else
        None
  }

  /** The number a token denotes when the Scanner reads it as a double: an optional sign
      followed by an unsigned decimal numeral. */
  function ParseNumber(t: string): Option<real> {
    if |t| > 0 && (t[0] == '+' || t[0] == '-') then
      match ParseUnsigned(t[1..])
      case None => None
      case Some(v) => Some(if t[0] == '-' then -v else v)
    else
      ParseUnsigned(t)
  }

  // ---------------------------------------------------------------- evaluation

  /** How the loop reads one token: as a number first, then as a one-character operator. */
  datatype Item = Number(value: real) | Operator(op: char) | Junk

  function Classify(t: string): Item {
    match ParseNumber(t)
    case Some(v) => Number(v)
    case None => if |t| == 1 && IsOperator(t[0]) then Operator(t[0]) else Junk
  }

  /** The operator switch: a op b, failing on a zero divisor and on an unknown operator. */
  function Apply(op: char, a: real, b: real): (r: Result<real>)
    ensures r == Err(InvalidOperator) <==> !IsOperator(op)
    ensures r == Err(DivisionByZero) <==> op == '/' && b == 0.0
    ensures r.Ok? <==> IsOperator(op) && !(op == '/' && b == 0.0)
  {
    if op == '+' then Ok(a + b)
    else if op == '-' then Ok(a - b)
    else if op == '*' then Ok(a * b)
    else if op == '/' then (if b == 0.0 then Err(DivisionByZero) else Ok(a / b))
    else Err(InvalidOperator)
  }

  /** One iteration of the loop: the value stack after the token t. */
  function Push(stack: seq<real>, t: string): (r: Result<seq<real>>)
    ensures r.Err? ==> r.error in {InvalidToken, InvalidPostfixExpression, DivisionByZero}
  {
    match Classify(t)
    case Number(v) => Ok(stack + [v])
    case Operator(op) =>
      if |stack| < 2 then Err(InvalidPostfixExpression)
      else
        (match Apply(op, stack[|stack| - 2], stack[|stack| - 1])
         case Err(e) => Err(e)
         case Ok(v) => Ok(stack[..|stack| - 2] + [v]))
    case Junk => Err(InvalidToken)
  }

  /** The value stack after the tokens ts, starting from stack, or the error that
      stopped the loop. Only a stray token, a missing operand and a zero divisor stop it:
      the operator switch never meets a character it does not know. */
  function Run(stack: seq<real>, ts: seq<string>): (r: Result<seq<real>>)
    ensures r.Err? ==> r.error in {InvalidToken, InvalidPostfixExpression, DivisionByZero}
    decreases |ts|
  {
    if ts == [] then Ok(stack)
    else
      match Run(stack, ts[..|ts| - 1])
      case Err(e) => Err(e)
      case Ok(s) => Push(s, ts[|ts| - 1])
  }

  /** What evaluatePostfix returns for the postfix text. */
  function ValueOf(postfix: string): (r: Result<real>)
    ensures r.Err? ==> r.error in {InvalidToken, InvalidPostfixExpression, DivisionByZero}
  {
    match Run([], Tokens(postfix))
    case Err(e) => Err(e)
    case Ok(stack) => if |stack| != 1 then Err(InvalidPostfixExpression) else Ok(stack[0])
  }

  /** Once a prefix of the tokens fails, the whole loop fails with the same error. */
  lemma {:induction false} RunErrorPersists(ts: seq<string>, k: nat)
    requires k <= |ts|
    requires Run([], ts[..k]).Err?
    ensures Run([], ts) == Run([], ts[..k])
    decreases |ts|
  {
    if k < |ts| {
      var q := ts[..|ts| - 1];
      assert q[..k] == ts[..k];
      RunErrorPersists(q, k);
    } else {
      assert ts[..k] == ts;
    }
  }

  /** The loop after i + 1 tokens is the loop after i tokens followed by one step. */
  lemma RunPrefix(ts: seq<string>, i: nat)
    requires i < |ts|
    ensures Run([], ts[..i + 1]) ==
      match Run([], ts[..i]) case Err(e) => Err(e) case Ok(s) => Push(s, ts[i])
  {
    assert ts[..i + 1][..i] == ts[..i];
  }

  /** Popping b and then a leaves the stack below the two top values. */
  lemma PopTwice(before: seq<real>, rest: seq<real>, a: real, b: real)
    requires |before| >= 2
    requires rest == before[..|before| - 1][..|before| - 2]
    requires b == before[|before| - 1] && a == before[..|before| - 1][|before| - 2]
    ensures rest == before[..|before| - 2] && a == before[|before| - 2]
  {
  }

  /** The step of the loop on an operator token with two values available. */
  lemma OperatorPush(stack: seq<real>, t: string)
    requires ParseNumber(t).None? && |t| == 1 && IsOperator(t[0]) && |stack| >= 2
    ensures var result := Apply(t[0], stack[|stack| - 2], stack[|stack| - 1]);
      Push(stack, t) == if result.Err? then Err(result.error) else Ok(stack[..|stack| - 2] + [result.value])
  {
  }

  /** Calculator.evaluatePostfix, with the value stack as a local sequence. */
  method EvaluatePostfix(postfix: string) returns (r: Result<real>)
    ensures r == ValueOf(postfix)
  {
    var tokens := Tokens(postfix);
    var stack: seq<real> := [];
    for i := 0 to |tokens|
      invariant Run([], tokens[..i]) == Ok(stack)
    {
      var token := tokens[i];
      RunPrefix(tokens, i);
      var number := ParseNumber(token);
      if number.Some? {
        stack := stack + [number.value];
      } else if |token| == 1 && IsOperator(token[0]) {
        if |stack| < 2 {
          r := Err(InvalidPostfixExpression);
          RunErrorPersists(tokens, i + 1);
          return;
        }
        ghost var before := stack;
        var b := stack[|stack| - 1];
        stack := stack[..|stack| - 1];
        var a := stack[|stack| - 1];
        stack := stack[..|stack| - 1];
        PopTwice(before, stack, a, b);
        var result := Apply(token[0], a, b);
        OperatorPush(before, token);
        if result.Err? {
          r := Err(result.error);
          RunErrorPersists(tokens, i + 1);
          return;
        }
        stack := stack + [result.value];
      } else {
        r := Err(InvalidToken);
        RunErrorPersists(tokens, i + 1);
        return;
      }
    }
    assert tokens[..|tokens|] == tokens;
    if |stack| != 1 {
      r := Err(InvalidPostfixExpression);
      return;
    }
    r := Ok(stack[0]);
  }
}
