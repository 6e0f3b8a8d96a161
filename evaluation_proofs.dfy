/** What evaluatePostfix guarantees: how the tokenizer splits the text, which tokens are
    numbers, how one operator changes the value stack, and when the loop fails. */
module EvaluationProofs {
  import opened Outcome
  import opened Symbols
  import opened Evaluation

  // ---------------------------------------------------------------- the tokenizer

  /** Tokens written out with one space between neighbours. */
  function Join(ts: seq<string>): string
    decreases |ts|
  {
    if ts == [] then []
    else if |ts| == 1 then ts[0]
    else ts[0] + [' '] + Join(ts[1..])
  }

  /** The non-space characters of s, in order. */
  function Squeeze(s: string): string
    decreases |s|
  {
    if s == [] then [] else (if IsSpace(s[0]) then [] else [s[0]]) + Squeeze(s[1..])
  }

  function Flatten(ts: seq<string>): string
    decreases |ts|
  {
    if ts == [] then [] else ts[0] + Flatten(ts[1..])
  }

  lemma {:induction false} TokenEndOfToken(t: string, rest: string)
    requires IsToken(t)
    requires rest == [] || IsSpace(rest[0])
    ensures TokenEnd(t + rest) == |t|
    decreases |t|
  {
    if |t| > 1 {
      assert (t + rest)[1..] == t[1..] + rest;
      TokenEndOfToken(t[1..], rest);
    } else {
      assert (t + rest)[1..] == rest;
    }
  }

  /** Splitting tokens joined by spaces gives the tokens back. */
  lemma {:induction false} TokensOfJoin(ts: seq<string>)
    requires forall i :: 0 <= i < |ts| ==> IsToken(ts[i])
    ensures Tokens(Join(ts)) == ts
    decreases |ts|
  {
    if ts != [] {
      var t := ts[0];
      var rest: string := if |ts| == 1 then [] else [' '] + Join(ts[1..]);
      var s := t + rest;
      assert Join(ts) == s;
      TokenEndOfToken(t, rest);
      assert s[..|t|] == t;
      assert s[|t|..] == rest;
      if |ts| > 1 {
        assert rest[1..] == Join(ts[1..]);
        TokensOfJoin(ts[1..]);
        assert [t] + ts[1..] == ts;
      }
    }
  }

  lemma {:induction false} SqueezeAppend(a: string, b: string)
    ensures Squeeze(a + b) == Squeeze(a) + Squeeze(b)
    decreases |a|
  {
    if a != [] {
      assert (a + b)[1..] == a[1..] + b;
      SqueezeAppend(a[1..], b);
    } else {
      assert a + b == b;
    }
  }

  lemma {:induction false} SqueezeNoSpace(t: string)
    requires forall i :: 0 <= i < |t| ==> !IsSpace(t[i])
    ensures Squeeze(t) == t
    decreases |t|
  {
    if t != [] {
      SqueezeNoSpace(t[1..]);
      assert [t[0]] + t[1..] == t;
    }
  }

  /** The tokenizer drops the white space and nothing else. */
  lemma {:induction false} TokensCoverText(s: string)
    ensures Flatten(Tokens(s)) == Squeeze(s)
    decreases |s|
  {
    if s != [] {
      if IsSpace(s[0]) {
        TokensCoverText(s[1..]);
      } else {
        var n := TokenEnd(s);
        TokensCoverText(s[n..]);
        assert s == s[..n] + s[n..];
        SqueezeAppend(s[..n], s[n..]);
        SqueezeNoSpace(s[..n]);
        assert ([s[..n]] + Tokens(s[n..]))[1..] == Tokens(s[n..]);
      }
    }
  }

  /** Text made only of white space has no tokens. */
  lemma {:induction false} BlankHasNoTokens(s: string)
    requires forall i :: 0 <= i < |s| ==> IsSpace(s[i])
    ensures Tokens(s) == []
    decreases |s|
  {
    if s != [] {
      BlankHasNoTokens(s[1..]);
    }
  }

  // ---------------------------------------------------------------- numbers

  /** Digits with at most one '.', at least one of them a digit. */
  predicate IsUnsignedNumeral(u: string) {
    (forall i :: 0 <= i < |u| ==> IsNumberChar(u[i])) &&
    (exists i :: 0 <= i < |u| && IsDigit(u[i])) &&
    (forall i, j :: 0 <= i < j < |u| && u[i] == '.' ==> u[j] != '.')
  }

  /** An optional sign followed by an unsigned numeral. */
  predicate IsNumeral(t: string) {
    |t| > 0 &&
    if t[0] == '+' || t[0] == '-' then IsUnsignedNumeral(t[1..]) else IsUnsignedNumeral(t)
  }

  lemma ParseUnsignedIff(u: string)
    ensures ParseUnsigned(u).Some? <==> IsUnsignedNumeral(u)
  {
    var k := DotIndex(u);
    var whole := u[..k];
    if k == |u| {
      assert whole == u;
      if IsUnsignedNumeral(u) {
        assert AllDigits(u);
      }
    } else {
      var frac := u[k + 1..];
      assert forall i :: 0 <= i < |whole| ==> whole[i] == u[i];
      assert forall i :: 0 <= i < |frac| ==> frac[i] == u[k + 1 + i];
      if ParseUnsigned(u).Some? {
        assert forall i :: 0 <= i < |u| && i != k ==> IsDigit(u[i]) by {
          forall i | 0 <= i < |u| && i != k ensures IsDigit(u[i]) {
            if i < k { assert u[i] == whole[i]; } else { assert u[i] == frac[i - k - 1]; }
          }
        }
        if |whole| > 0 { assert IsDigit(u[0]); } else { assert IsDigit(u[k + 1]); }
      }
      if IsUnsignedNumeral(u) {
        var d :| 0 <= d < |u| && IsDigit(u[d]);
        assert d != k;
      }
    }
  }

  /** ParseNumber accepts exactly the numerals. */
  lemma ParseNumberIff(t: string)
    ensures ParseNumber(t).Some? <==> IsNumeral(t)
  {
    if |t| > 0 && (t[0] == '+' || t[0] == '-') {
      ParseUnsignedIff(t[1..]);
    } else {
      ParseUnsignedIff(t);
      if |t| == 0 {
        assert !IsUnsignedNumeral(t);
      }
    }
  }

  /** A run of digits reads as the natural number it spells. */
  lemma ParseDigits(d: string)
    requires |d| > 0 && AllDigits(d)
    ensures ParseNumber(d) == Some(DigitsValue(d) as real)
  {
    var k := DotIndex(d);
    assert k == |d|;
    assert d[..k] == d;
  }

  /** A single operator character is not a number, so the loop treats it as an operator. */
  lemma OperatorToken(c: char)
    requires IsOperator(c)
    ensures Classify([c]) == Operator(c)
  {
    ParseNumberIff([c]);
    if c == '+' || c == '-' {
      assert [c][1..] == [];
    }
  }

  // ---------------------------------------------------------------- the loop

  /** An operator needs two values; it pops b (the top) and then a, and pushes a op b, so
      the stack shrinks by one and what lies below is unchanged; '/' fails on b == 0. */
  lemma OperatorStep(stack: seq<real>, c: char)
    requires IsOperator(c)
    ensures |stack| < 2 ==> Push(stack, [c]) == Err(InvalidPostfixExpression)
    ensures |stack| >= 2 ==>
      (Push(stack, [c]) == Err(DivisionByZero) <==> c == '/' && stack[|stack| - 1] == 0.0)
    ensures |stack| >= 2 && !(c == '/' && stack[|stack| - 1] == 0.0) ==> Push(stack, [c]).Ok?
    ensures Push(stack, [c]).Ok? ==>
      var r := Push(stack, [c]).value;
      var a, b := stack[|stack| - 2], stack[|stack| - 1];
      |r| == |stack| - 1 && r[..|r| - 1] == stack[..|stack| - 2] &&
      Apply(c, a, b) == Ok(r[|r| - 1]) &&
      (c == '-' ==> r[|r| - 1] == a - b) &&
      (c == '/' ==> r[|r| - 1] == a / b)
  {
    OperatorToken(c);
  }

  /** A number token is pushed on top of the stack. */
  lemma NumberStep(stack: seq<real>, t: string)
    requires ParseNumber(t).Some?
    ensures Push(stack, t) == Ok(stack + [ParseNumber(t).value])
  {
  }

  function CountNumbers(ts: seq<string>): nat
    decreases |ts|
  {
    if ts == [] then 0
    else CountNumbers(ts[..|ts| - 1]) + (if Classify(ts[|ts| - 1]).Number? then 1 else 0)
  }

  function CountOperators(ts: seq<string>): nat
    decreases |ts|
  {
    if ts == [] then 0
    else CountOperators(ts[..|ts| - 1]) + (if Classify(ts[|ts| - 1]).Operator? then 1 else 0)
  }

  /** After a successful run every token was a number or an operator, and the stack holds
      one value per number minus one per operator. */
  lemma {:induction false} RunHeight(ts: seq<string>)
    requires Run([], ts).Ok?
    ensures |Run([], ts).value| == CountNumbers(ts) - CountOperators(ts)
    ensures forall i :: 0 <= i < |ts| ==> !Classify(ts[i]).Junk?
    decreases |ts|
  {
    if ts != [] {
      var q := ts[..|ts| - 1];
      RunHeight(q);
      assert forall i :: 0 <= i < |q| ==> ts[i] == q[i];
    }
  }

  /** A token that is neither a number nor a one-character operator makes the loop fail. */
  lemma JunkFails(ts: seq<string>, i: int)
    requires 0 <= i < |ts| && Classify(ts[i]).Junk?
    ensures Run([], ts).Err?
  {
    if Run([], ts).Ok? {
      RunHeight(ts);
    }
  }

  /** Evaluation succeeds only with exactly one more number than operators and no stray
      token, and its result is the single value left on the stack. */
  lemma ValueOfShape(postfix: string)
    requires ValueOf(postfix).Ok?
    ensures var ts := Tokens(postfix);
      Run([], ts).Ok? && Run([], ts).value == [ValueOf(postfix).value] &&
      CountNumbers(ts) == CountOperators(ts) + 1 &&
      forall i :: 0 <= i < |ts| ==> !Classify(ts[i]).Junk?
  {
    RunHeight(Tokens(postfix));
  }

  /** Text with no token (the empty text included) fails: no value is left at the end. */
  lemma BlankFails(postfix: string)
    requires forall i :: 0 <= i < |postfix| ==> IsSpace(postfix[i])
    ensures ValueOf(postfix) == Err(InvalidPostfixExpression)
  {
    BlankHasNoTokens(postfix);
  }
}
