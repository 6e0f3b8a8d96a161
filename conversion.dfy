/** The shunting-yard conversion of Calculator.infixToPostfix.
    The operator stack and the output buffer are sequences of characters; the top of the
    stack is the last element. The functions below define the scan one step at a time;
    the method InfixToPostfix runs the loops of the source and is proved equal to
    PostfixOf. */
module Conversion {
  import opened Outcome
  import opened Symbols

  /** Characters the converter accepts. */
  predicate IsValidChar(c: char) {
    IsNumberChar(c) || c == '(' || c == ')' || IsOperator(c)
  }

  /** Converter state: the operator stack and the postfix text written so far. */
  datatype Shunt = Shunt(ops: seq<char>, out: string)

  function Top(s: seq<char>): char
    requires |s| > 0
  {
    s[|s| - 1]
  }

  /** The pop loop run before an operator of precedence p is pushed: every stacked entry
      of precedence at least p goes to the output, each followed by a space. */
  function PopAtLeast(ops: seq<char>, out: string, p: int): (r: Shunt)
    ensures r.ops <= ops
    ensures r.ops == [] || Precedence(Top(r.ops)) < p
    ensures forall i :: |r.ops| <= i < |ops| ==> Precedence(ops[i]) >= p
    ensures out <= r.out
    decreases |ops|
  {
    if |ops| > 0 && Precedence(Top(ops)) >= p then
      PopAtLeast(ops[..|ops| - 1], out + [Top(ops), ' '], p)
    else
      Shunt(ops, out)
  }

  /** The pop loop run on ')': every entry above the nearest '(' goes to the output,
      each preceded by a space; the '(' itself stays on the stack. */
  function PopToParen(ops: seq<char>, out: string): (r: Shunt)
    ensures r.ops <= ops
    ensures r.ops == [] || Top(r.ops) == '('
    ensures forall i :: |r.ops| <= i < |ops| ==> ops[i] != '('
    ensures out <= r.out
    decreases |ops|
  {
    if |ops| > 0 && Top(ops) != '(' then
      PopToParen(ops[..|ops| - 1], out + [' ', Top(ops)])
    else
      Shunt(ops, out)
  }

  /** One iteration of the scan over the input characters. */
  function Step(sh: Shunt, c: char): Result<Shunt> {
    if IsDigit(c) || c == '.' then
      Ok(Shunt(sh.ops, sh.out + [c]))
    else if c == '(' then
      Ok(Shunt(sh.ops + ['('], sh.out))
    else if c == ')' then
      var r := PopToParen(sh.ops, sh.out);
      if r.ops == [] || Top(r.ops) != '(' then Err(MismatchedParentheses)
      else Ok(Shunt(r.ops[..|r.ops| - 1], r.out))
    else if IsOperator(c) then
      var r := PopAtLeast(sh.ops, sh.out + [' '], Precedence(c));
      Ok(Shunt(r.ops + [c], r.out))
    else
      Err(InvalidCharacter)
  }

  /** The state after scanning s from the state sh, or the error that stopped the scan. */
  function ScanFrom(sh: Shunt, s: string): Result<Shunt>
    decreases |s|
  {
    if s == [] then Ok(sh)
    else
      match ScanFrom(sh, s[..|s| - 1])
      case Err(e) => Err(e)
      case Ok(t) => Step(t, s[|s| - 1])
  }

  /** The state after scanning the whole of s from an empty stack and an empty buffer. */
  function Scan(s: string): Result<Shunt> {
    ScanFrom(Shunt([], []), s)
  }

  /** The final loop: pop what is left, failing on a parenthesis. */
  function Drain(ops: seq<char>, out: string): Result<string>
    decreases |ops|
  {
    if ops == [] then Ok(out)
    else if Top(ops) == '(' || Top(ops) == ')' then Err(MismatchedParentheses)
    else Drain(ops[..|ops| - 1], out + [' ', Top(ops)])
  }

  /** What infixToPostfix returns for the expression s. */
  function PostfixOf(s: string): Result<string> {
    match Scan(s)
    case Err(e) => Err(e)
    case Ok(sh) => Drain(sh.ops, sh.out)
  }

  /** Once a prefix of s fails, the whole scan fails with the same error. */
  lemma {:induction false} ScanErrorPersists(s: string, k: nat)
    requires k <= |s|
    requires Scan(s[..k]).Err?
    ensures Scan(s) == Scan(s[..k])
    decreases |s|
  {
    if k < |s| {
      var q := s[..|s| - 1];
      assert q[..k] == s[..k];
      ScanErrorPersists(q, k);
    } else {
      assert s[..k] == s;
    }
  }

  /** Calculator.infixToPostfix, with the operator stack and the output buffer as local
      sequences. */
  method InfixToPostfix(expression: string) returns (r: Result<string>)
    ensures r == PostfixOf(expression)
  {
    var ops: seq<char> := [];
    var out: string := [];
    for i := 0 to |expression|
      invariant Scan(expression[..i]) == Ok(Shunt(ops, out))
    {
      var c := expression[i];
      assert expression[..i + 1][..i] == expression[..i];
      if IsDigit(c) || c == '.' {
        out := out + [c];
      } else if c == '(' {
        ops := ops + ['('];
      } else if c == ')' {
        ghost var goal := PopToParen(ops, out);
        while |ops| > 0 && Top(ops) != '('
          invariant PopToParen(ops, out) == goal
          decreases |ops|
        {
          out := out + [' ', Top(ops)];
          ops := ops[..|ops| - 1];
        }
        if |ops| == 0 || Top(ops) != '(' {
          r := Err(MismatchedParentheses);
          ScanErrorPersists(expression, i + 1);
          return;
        }
        ops := ops[..|ops| - 1];
      } else if IsOperator(c) {
        out := out + [' '];
        ghost var goal := PopAtLeast(ops, out, Precedence(c));
        while |ops| > 0 && Precedence(Top(ops)) >= Precedence(c)
          invariant PopAtLeast(ops, out, Precedence(c)) == goal
          decreases |ops|
        {
          out := out + [Top(ops), ' '];
          ops := ops[..|ops| - 1];
        }
        ops := ops + [c];
      } else {
        r := Err(InvalidCharacter);
        ScanErrorPersists(expression, i + 1);
        return;
      }
    }
    assert expression[..|expression|] == expression;
    ghost var goal := Drain(ops, out);
    while |ops| > 0
      invariant Drain(ops, out) == goal
      decreases |ops|
    {
      var top := Top(ops);
      ops := ops[..|ops| - 1];
      if top == '(' || top == ')' {
        r := Err(MismatchedParentheses);
        return;
      }
      out := out + [' ', top];
    }
    r := Ok(out);
  }
}
