/** What infixToPostfix guarantees: which inputs it rejects and why, the shape of its
    operator stack, and what its output is made of. */
module ConversionProofs {
  import opened Outcome
  import opened Symbols
  import opened Conversion

  function Delta(c: char): int {
    if c == '(' then 1 else if c == ')' then -1 else 0
  }

  /** The number of '(' minus the number of ')' in s. */
  function Depth(s: seq<char>): int
    decreases |s|
  {
    if s == [] then 0 else Depth(s[..|s| - 1]) + Delta(s[|s| - 1])
  }

  predicate AllValid(s: string) {
    forall i :: 0 <= i < |s| ==> IsValidChar(s[i])
  }

  /** No prefix of s closes more parentheses than it opens. */
  predicate NeverDips(s: string) {
    forall k :: 0 <= k <= |s| ==> Depth(s[..k]) >= 0
  }

  predicate Balanced(s: string) {
    NeverDips(s) && Depth(s) == 0
  }

  /** A prefix the scan gets through: valid characters, no unmatched ')'. */
  predicate Sound(s: string) {
    AllValid(s) && NeverDips(s)
  }

  /** The digits and '.' characters of s, in order. */
  function NumChars(s: string): string
    decreases |s|
  {
    if s == [] then []
    else NumChars(s[..|s| - 1]) + (if IsNumberChar(s[|s| - 1]) then [s[|s| - 1]] else [])
  }

  /** The operator characters of s, with multiplicity. */
  function OpsOf(s: seq<char>): multiset<char>
    decreases |s|
  {
    if s == [] then multiset{}
    else OpsOf(s[..|s| - 1]) + (if IsOperator(s[|s| - 1]) then multiset{s[|s| - 1]} else multiset{})
  }

  /** Postfix text: number characters, operators and spaces; no parentheses. */
  predicate PostfixAlphabet(s: string) {
    forall i :: 0 <= i < |s| ==> IsNumberChar(s[i]) || IsOperator(s[i]) || s[i] == ' '
  }

  /** The operator stack holds only '(' and operators, and between two '(' marks the
      precedences strictly increase toward the top. */
  predicate WellStacked(ops: seq<char>) {
    (forall i :: 0 <= i < |ops| ==> ops[i] == '(' || IsOperator(ops[i])) &&
    (forall i :: 0 <= i < |ops| - 1 && ops[i] != '(' && ops[i + 1] != '(' ==>
       Precedence(ops[i]) < Precedence(ops[i + 1]))
  }

  /** The converter state after scanning p accounts for every character of p. */
  predicate Tracks(sh: Shunt, p: string) {
    WellStacked(sh.ops) && Depth(sh.ops) == Depth(p) &&
    NumChars(sh.out) == NumChars(p) &&
    OpsOf(sh.out) + OpsOf(sh.ops) == OpsOf(p) &&
    PostfixAlphabet(sh.out)
  }

  // ---------------------------------------------------------------- sequence helpers

  lemma {:induction false} DepthAppend(s: seq<char>, t: seq<char>)
    ensures Depth(s + t) == Depth(s) + Depth(t)
    decreases |t|
  {
    if t == [] {
      assert s + t == s;
    } else {
      var t' := t[..|t| - 1];
      assert (s + t)[..|s + t| - 1] == s + t';
      DepthAppend(s, t');
    }
  }

  lemma {:induction false} NumCharsAppend(s: string, t: string)
    ensures NumChars(s + t) == NumChars(s) + NumChars(t)
    decreases |t|
  {
    if t == [] {
      assert s + t == s;
    } else {
      var t' := t[..|t| - 1];
      assert (s + t)[..|s + t| - 1] == s + t';
      NumCharsAppend(s, t');
    }
  }

  lemma {:induction false} OpsOfAppend(s: seq<char>, t: seq<char>)
    ensures OpsOf(s + t) == OpsOf(s) + OpsOf(t)
    decreases |t|
  {
    if t == [] {
      assert s + t == s;
    } else {
      var t' := t[..|t| - 1];
      assert (s + t)[..|s + t| - 1] == s + t';
      OpsOfAppend(s, t');
    }
  }

  /** Emitting an operator and then a space adds that operator and no number character. */
  lemma EmitOperatorSpace(out: string, x: char)
    requires IsOperator(x)
    ensures NumChars(out + [x, ' ']) == NumChars(out)
    ensures OpsOf(out + [x, ' ']) == OpsOf(out) + multiset{x}
  {
    NumCharsSnoc(out, x);
    OpsSnoc(out, x);
    NumCharsSnoc(out + [x], ' ');
    OpsSnoc(out + [x], ' ');
    assert out + [x] + [' '] == out + [x, ' '];
  }

  /** Emitting a space and then an operator adds that operator and no number character. */
  lemma EmitSpaceOperator(out: string, x: char)
    requires IsOperator(x)
    ensures NumChars(out + [' ', x]) == NumChars(out)
    ensures OpsOf(out + [' ', x]) == OpsOf(out) + multiset{x}
  {
    NumCharsSnoc(out, ' ');
    OpsSnoc(out, ' ');
    NumCharsSnoc(out + [' '], x);
    OpsSnoc(out + [' '], x);
    assert out + [' '] + [x] == out + [' ', x];
  }

  lemma DepthSnoc(p: seq<char>, c: char)
    ensures Depth(p + [c]) == Depth(p) + Delta(c)
  {
    assert (p + [c])[..|p|] == p;
  }

  lemma NumCharsSnoc(p: string, c: char)
    ensures NumChars(p + [c]) == if IsNumberChar(c) then NumChars(p) + [c] else NumChars(p)
  {
    assert (p + [c])[..|p|] == p;
  }

  lemma OpsSnoc(p: seq<char>, c: char)
    ensures OpsOf(p + [c]) == if IsOperator(c) then OpsOf(p) + multiset{c} else OpsOf(p)
  {
    assert (p + [c])[..|p|] == p;
  }

  lemma {:induction false} NeverDipsSnoc(p: string, c: char)
    ensures NeverDips(p + [c]) <==> NeverDips(p) && Depth(p) + Delta(c) >= 0
  {
    var q := p + [c];
    DepthSnoc(p, c);
    assert forall k :: 0 <= k <= |p| ==> q[..k] == p[..k];
    assert q[..|q|] == q;
  }

  /** On a stack without ')', the depth counts the open parentheses. */
  lemma {:induction false} StackDepth(ops: seq<char>)
    requires forall i :: 0 <= i < |ops| ==> ops[i] != ')'
    ensures Depth(ops) >= 0
    ensures Depth(ops) > 0 <==> '(' in ops
    decreases |ops|
  {
    if ops != [] {
      var q := ops[..|ops| - 1];
      StackDepth(q);
      assert ops == q + [ops[|ops| - 1]];
      assert '(' in ops <==> '(' in q || ops[|ops| - 1] == '(';
    }
  }

  // ---------------------------------------------------------------- the pop loops

  /** The precedence pop loop moves operators from the stack to the output and nothing else. */
  lemma PopAtLeastMoves(ops: seq<char>, out: string, p: int)
    requires p > 0
    ensures var r := PopAtLeast(ops, out, p);
      Depth(r.ops) == Depth(ops) &&
      NumChars(r.out) == NumChars(out) &&
      OpsOf(r.out) + OpsOf(r.ops) == OpsOf(out) + OpsOf(ops) &&
      (PostfixAlphabet(out) ==> PostfixAlphabet(r.out))
  {
    PopAtLeastDepth(ops, out, p);
    PopAtLeastNumChars(ops, out, p);
    PopAtLeastOps(ops, out, p);
    if PostfixAlphabet(out) {
      PopAtLeastAlphabet(ops, out, p);
    }
  }

  lemma {:induction false} PopAtLeastDepth(ops: seq<char>, out: string, p: int)
    requires p > 0
    ensures Depth(PopAtLeast(ops, out, p).ops) == Depth(ops)
    decreases |ops|
  {
    if |ops| > 0 && Precedence(Top(ops)) >= p {
      var q := ops[..|ops| - 1];
      DepthSnoc(q, Top(ops));
      assert ops == q + [Top(ops)];
      PopAtLeastDepth(q, out + [Top(ops), ' '], p);
    }
  }

  lemma {:induction false} PopAtLeastNumChars(ops: seq<char>, out: string, p: int)
    requires p > 0
    ensures NumChars(PopAtLeast(ops, out, p).out) == NumChars(out)
    decreases |ops|
  {
    if |ops| > 0 && Precedence(Top(ops)) >= p {
      EmitOperatorSpace(out, Top(ops));
      PopAtLeastNumChars(ops[..|ops| - 1], out + [Top(ops), ' '], p);
    }
  }

  lemma {:induction false} PopAtLeastOps(ops: seq<char>, out: string, p: int)
    requires p > 0
    ensures var r := PopAtLeast(ops, out, p); OpsOf(r.out) + OpsOf(r.ops) == OpsOf(out) + OpsOf(ops)
    decreases |ops|
  {
    if |ops| > 0 && Precedence(Top(ops)) >= p {
      var q := ops[..|ops| - 1];
      OpsSnoc(q, Top(ops));
      assert ops == q + [Top(ops)];
      EmitOperatorSpace(out, Top(ops));
      PopAtLeastOps(q, out + [Top(ops), ' '], p);
    }
  }

  lemma {:induction false} PopAtLeastAlphabet(ops: seq<char>, out: string, p: int)
    requires p > 0
    requires PostfixAlphabet(out)
    ensures PostfixAlphabet(PopAtLeast(ops, out, p).out)
    decreases |ops|
  {
    if |ops| > 0 && Precedence(Top(ops)) >= p {
      PopAtLeastAlphabet(ops[..|ops| - 1], out + [Top(ops), ' '], p);
    }
  }

  /** The ')' pop loop moves operators from the stack to the output and nothing else. */
  lemma PopToParenMoves(ops: seq<char>, out: string)
    requires forall i :: 0 <= i < |ops| ==> ops[i] == '(' || IsOperator(ops[i])
    ensures var r := PopToParen(ops, out);
      Depth(r.ops) == Depth(ops) &&
      NumChars(r.out) == NumChars(out) &&
      OpsOf(r.out) + OpsOf(r.ops) == OpsOf(out) + OpsOf(ops) &&
      (PostfixAlphabet(out) ==> PostfixAlphabet(r.out))
  {
    PopToParenDepth(ops, out);
    PopToParenNumChars(ops, out);
    PopToParenOps(ops, out);
    if PostfixAlphabet(out) {
      PopToParenAlphabet(ops, out);
    }
  }

  lemma {:induction false} PopToParenDepth(ops: seq<char>, out: string)
    requires forall i :: 0 <= i < |ops| ==> ops[i] == '(' || IsOperator(ops[i])
    ensures Depth(PopToParen(ops, out).ops) == Depth(ops)
    decreases |ops|
  {
    if |ops| > 0 && Top(ops) != '(' {
      var q := ops[..|ops| - 1];
      DepthSnoc(q, Top(ops));
      assert ops == q + [Top(ops)];
      PopToParenDepth(q, out + [' ', Top(ops)]);
    }
  }

  lemma {:induction false} PopToParenNumChars(ops: seq<char>, out: string)
    requires forall i :: 0 <= i < |ops| ==> ops[i] == '(' || IsOperator(ops[i])
    ensures NumChars(PopToParen(ops, out).out) == NumChars(out)
    decreases |ops|
  {
    if |ops| > 0 && Top(ops) != '(' {
      EmitSpaceOperator(out, Top(ops));
      PopToParenNumChars(ops[..|ops| - 1], out + [' ', Top(ops)]);
    }
  }

  lemma {:induction false} PopToParenOps(ops: seq<char>, out: string)
    requires forall i :: 0 <= i < |ops| ==> ops[i] == '(' || IsOperator(ops[i])
    ensures var r := PopToParen(ops, out); OpsOf(r.out) + OpsOf(r.ops) == OpsOf(out) + OpsOf(ops)
    decreases |ops|
  {
    if |ops| > 0 && Top(ops) != '(' {
      var q := ops[..|ops| - 1];
      OpsSnoc(q, Top(ops));
      assert ops == q + [Top(ops)];
      EmitSpaceOperator(out, Top(ops));
      PopToParenOps(q, out + [' ', Top(ops)]);
    }
  }

  lemma {:induction false} PopToParenAlphabet(ops: seq<char>, out: string)
    requires forall i :: 0 <= i < |ops| ==> ops[i] == '(' || IsOperator(ops[i])
    requires PostfixAlphabet(out)
    ensures PostfixAlphabet(PopToParen(ops, out).out)
    decreases |ops|
  {
    if |ops| > 0 && Top(ops) != '(' {
      PopToParenAlphabet(ops[..|ops| - 1], out + [' ', Top(ops)]);
    }
  }

  lemma WellStackedPrefix(ops: seq<char>, k: nat)
    requires WellStacked(ops) && k <= |ops|
    ensures WellStacked(ops[..k])
  {
    var q := ops[..k];
    assert forall i :: 0 <= i < |q| ==> q[i] == ops[i];
  }

  // ---------------------------------------------------------------- one scan step

  /** One scan step keeps the converter state in step with the input read so far, and
      fails exactly on a character outside the alphabet or on a ')' with no open '('. */
  lemma StepTracks(sh: Shunt, p: string, c: char)
    requires Tracks(sh, p)
    ensures Step(sh, c).Ok? <==> IsValidChar(c) && (c == ')' ==> Depth(p) > 0)
    ensures Step(sh, c) == Err(InvalidCharacter) <==> !IsValidChar(c)
    ensures Step(sh, c) == Err(MismatchedParentheses) <==> c == ')' && Depth(p) == 0
    ensures Step(sh, c).Ok? ==> Tracks(Step(sh, c).value, p + [c])
  {
    if IsDigit(c) || c == '.' {
      StepNumberChar(sh, p, c);
    } else if c == '(' {
      StepOpen(sh, p);
    } else if c == ')' {
      StepClose(sh, p);
    } else if IsOperator(c) {
      StepOperator(sh, p, c);
    }
  }

  lemma StepNumberChar(sh: Shunt, p: string, c: char)
    requires Tracks(sh, p) && IsNumberChar(c)
    ensures Step(sh, c).Ok? && Tracks(Step(sh, c).value, p + [c])
  {
    StepOnNumberChar(sh, c);
    NumberTracks(sh.ops, sh.out, p, c);
  }

  lemma StepOnNumberChar(sh: Shunt, c: char)
    requires IsNumberChar(c)
    ensures Step(sh, c) == Ok(Shunt(sh.ops, sh.out + [c]))
  {
  }

  lemma NumberTracks(ops: seq<char>, out: string, p: string, c: char)
    requires Tracks(Shunt(ops, out), p) && IsNumberChar(c)
    ensures Tracks(Shunt(ops, out + [c]), p + [c])
  {
    var next := Shunt(ops, out + [c]);
    assert Depth(next.ops) == Depth(p + [c]) by { PlainDepth(ops, p, c); }
    assert NumChars(next.out) == NumChars(p + [c]) by { NumberNumChars(out, p, c); }
    assert OpsOf(next.out) + OpsOf(next.ops) == OpsOf(p + [c]) by {
      OpsSnoc(out, c);
      PlainOps(ops, out, next.ops, next.out, p, c);
    }
    assert PostfixAlphabet(next.out) by { NumberAlphabet(out, c); }
  }

  lemma NumberAlphabet(out: string, c: char)
    requires PostfixAlphabet(out) && IsNumberChar(c)
    ensures PostfixAlphabet(out + [c])
  {
    var n := out + [c];
    assert forall i :: 0 <= i < |out| ==> n[i] == out[i];
  }

  /** A character other than a parenthesis leaves the depth alone. */
  lemma PlainDepth(ops: seq<char>, p: string, c: char)
    requires Depth(ops) == Depth(p) && c != '(' && c != ')'
    ensures Depth(ops) == Depth(p + [c])
  {
    DepthSnoc(p, c);
  }

  lemma NumberNumChars(out: string, p: string, c: char)
    requires NumChars(out) == NumChars(p) && IsNumberChar(c)
    ensures NumChars(out + [c]) == NumChars(p + [c])
  {
    NumCharsSnoc(p, c);
    NumCharsSnoc(out, c);
  }

  /** A character that is not an operator leaves the operator count alone when the state
      it produces holds the same operators. */
  lemma PlainOps(ops: seq<char>, out: string, ops': seq<char>, out': string, p: string, c: char)
    requires OpsOf(out) + OpsOf(ops) == OpsOf(p) && !IsOperator(c)
    requires OpsOf(out') + OpsOf(ops') == OpsOf(out) + OpsOf(ops)
    ensures OpsOf(out') + OpsOf(ops') == OpsOf(p + [c])
  {
    OpsSnoc(p, c);
  }

  lemma StepOpen(sh: Shunt, p: string)
    requires Tracks(sh, p)
    ensures Step(sh, '(').Ok? && Tracks(Step(sh, '(').value, p + ['('])
  {
    var next := Shunt(sh.ops + ['('], sh.out);
    assert Step(sh, '(') == Ok(next);
    assert WellStacked(next.ops) by { OpenWellStacked(sh.ops); }
    assert Depth(next.ops) == Depth(p + ['(']) by { OpenDepth(sh.ops, p); }
    assert NumChars(next.out) == NumChars(p + ['(']) by { OpenNumChars(sh.out, p); }
    assert OpsOf(next.out) + OpsOf(next.ops) == OpsOf(p + ['(']) by {
      OpsSnoc(sh.ops, '(');
      PlainOps(sh.ops, sh.out, next.ops, next.out, p, '(');
    }
  }

  lemma OpenWellStacked(ops: seq<char>)
    requires WellStacked(ops)
    ensures WellStacked(ops + ['('])
  {
    var n := ops + ['('];
    assert forall i :: 0 <= i < |ops| ==> n[i] == ops[i];
  }

  lemma OpenDepth(ops: seq<char>, p: string)
    requires Depth(ops) == Depth(p)
    ensures Depth(ops + ['(']) == Depth(p + ['('])
  {
    DepthSnoc(p, '(');
    DepthSnoc(ops, '(');
  }

  lemma OpenNumChars(out: string, p: string)
    requires NumChars(out) == NumChars(p)
    ensures NumChars(out) == NumChars(p + ['('])
  {
    NumCharsSnoc(p, '(');
  }

  lemma StepClose(sh: Shunt, p: string)
    requires Tracks(sh, p)
    ensures Step(sh, ')').Ok? <==> Depth(p) > 0
    ensures Step(sh, ')').Err? ==> Step(sh, ')').error == MismatchedParentheses
    ensures Depth(p) >= 0
    ensures Step(sh, ')').Ok? ==> Tracks(Step(sh, ')').value, p + [')'])
  {
    var r := PopToParen(sh.ops, sh.out);
    StepOnClose(sh);
    assert Depth(p) >= 0 && (r.ops != [] <==> Depth(p) > 0) by {
      StackDepth(sh.ops);
      CloseFindsParen(sh.ops, sh.out);
    }
    if r.ops != [] {
      CloseTracks(sh, p);
    }
  }

  lemma StepOnClose(sh: Shunt)
    ensures var r := PopToParen(sh.ops, sh.out);
      Step(sh, ')') ==
        if r.ops == [] then Err(MismatchedParentheses) else Ok(Shunt(r.ops[..|r.ops| - 1], r.out))
  {
  }

  /** The ')' pop loop stops on a '(' exactly when the stack holds one. */
  lemma CloseFindsParen(ops: seq<char>, out: string)
    requires WellStacked(ops)
    ensures PopToParen(ops, out).ops != [] <==> Depth(ops) > 0
  {
    StackDepth(ops);
    var r := PopToParen(ops, out);
    if r.ops != [] {
      assert ops[|r.ops| - 1] == '(';
    } else {
      assert '(' !in ops by {
        forall i | 0 <= i < |ops| ensures ops[i] != '(' { }
      }
    }
  }

  lemma CloseTracks(sh: Shunt, p: string)
    requires Tracks(sh, p)
    requires PopToParen(sh.ops, sh.out).ops != []
    ensures var r := PopToParen(sh.ops, sh.out);
      Tracks(Shunt(r.ops[..|r.ops| - 1], r.out), p + [')'])
  {
    var r := PopToParen(sh.ops, sh.out);
    WellStackedPrefix(sh.ops, |r.ops| - 1);
    assert r.ops[..|r.ops| - 1] == sh.ops[..|r.ops| - 1];
    CloseDepth(sh.ops, sh.out, p);
    CloseNumChars(sh.ops, sh.out, p);
    CloseOps(sh.ops, sh.out, p);
    PopToParenAlphabet(sh.ops, sh.out);
  }

  lemma CloseDepth(ops: seq<char>, out: string, p: string)
    requires WellStacked(ops) && Depth(ops) == Depth(p)
    requires PopToParen(ops, out).ops != []
    ensures var r := PopToParen(ops, out); Depth(r.ops[..|r.ops| - 1]) == Depth(p + [')'])
  {
    var r := PopToParen(ops, out);
    var q := r.ops[..|r.ops| - 1];
    assert r.ops == q + ['('];
    PopToParenDepth(ops, out);
    DepthSnoc(q, '(');
    DepthSnoc(p, ')');
  }

  lemma CloseNumChars(ops: seq<char>, out: string, p: string)
    requires WellStacked(ops) && NumChars(out) == NumChars(p)
    ensures NumChars(PopToParen(ops, out).out) == NumChars(p + [')'])
  {
    PopToParenNumChars(ops, out);
    NumCharsSnoc(p, ')');
  }

  lemma CloseOps(ops: seq<char>, out: string, p: string)
    requires WellStacked(ops) && OpsOf(out) + OpsOf(ops) == OpsOf(p)
    requires PopToParen(ops, out).ops != []
    ensures var r := PopToParen(ops, out); OpsOf(r.out) + OpsOf(r.ops[..|r.ops| - 1]) == OpsOf(p + [')'])
  {
    var r := PopToParen(ops, out);
    ParenTopOps(r.ops);
    PopToParenOps(ops, out);
    OpsSnoc(p, ')');
  }

  /** A '(' on top of the stack holds no operator. */
  lemma ParenTopOps(ops: seq<char>)
    requires ops != [] && Top(ops) == '('
    ensures OpsOf(ops[..|ops| - 1]) == OpsOf(ops)
  {
    var q := ops[..|ops| - 1];
    assert ops == q + ['('];
    OpsSnoc(q, '(');
  }

  lemma StepOperator(sh: Shunt, p: string, c: char)
    requires Tracks(sh, p) && IsOperator(c)
    ensures Step(sh, c).Ok? && Tracks(Step(sh, c).value, p + [c])
  {
    var r := PopAtLeast(sh.ops, sh.out + [' '], Precedence(c));
    assert Step(sh, c) == Ok(Shunt(r.ops + [c], r.out));
    PushKeepsWellStacked(sh.ops, sh.out + [' '], c);
    OperatorCounts(sh, p, c);
  }

  /** Pushing an operator after the precedence pop loop keeps the stack well shaped. */
  lemma PushKeepsWellStacked(ops: seq<char>, out: string, c: char)
    requires WellStacked(ops) && IsOperator(c)
    ensures WellStacked(PopAtLeast(ops, out, Precedence(c)).ops + [c])
  {
    var r := PopAtLeast(ops, out, Precedence(c));
    WellStackedPrefix(ops, |r.ops|);
    assert r.ops == ops[..|r.ops|];
    SnocWellStacked(r.ops, c);
  }

  /** An operator may go on top of an entry that binds less tightly. */
  lemma SnocWellStacked(ops: seq<char>, c: char)
    requires WellStacked(ops) && IsOperator(c)
    requires ops == [] || Precedence(Top(ops)) < Precedence(c)
    ensures WellStacked(ops + [c])
  {
    var n := ops + [c];
    forall i | 0 <= i < |n| ensures n[i] == '(' || IsOperator(n[i]) {
      if i < |ops| { assert n[i] == ops[i]; }
    }
    forall i | 0 <= i < |n| - 1 && n[i] != '(' && n[i + 1] != '('
      ensures Precedence(n[i]) < Precedence(n[i + 1])
    {
      if i + 1 < |ops| {
        assert n[i] == ops[i] && n[i + 1] == ops[i + 1];
      } else {
        assert n[i] == Top(ops) && n[i + 1] == c;
      }
    }
  }

  lemma OperatorCounts(sh: Shunt, p: string, c: char)
    requires Tracks(sh, p) && IsOperator(c)
    ensures var r := PopAtLeast(sh.ops, sh.out + [' '], Precedence(c));
      Depth(r.ops + [c]) == Depth(p + [c]) &&
      NumChars(r.out) == NumChars(p + [c]) &&
      OpsOf(r.out) + OpsOf(r.ops + [c]) == OpsOf(p + [c]) &&
      PostfixAlphabet(r.out)
  {
    OperatorDepth(sh.ops, sh.out + [' '], p, c);
    OperatorNumChars(sh.ops, sh.out, p, c);
    OperatorOps(sh.ops, sh.out, p, c);
    PopAtLeastAlphabet(sh.ops, sh.out + [' '], Precedence(c));
  }

  lemma OperatorDepth(ops: seq<char>, out: string, p: string, c: char)
    requires Depth(ops) == Depth(p) && IsOperator(c)
    ensures Depth(PopAtLeast(ops, out, Precedence(c)).ops + [c]) == Depth(p + [c])
  {
    var r := PopAtLeast(ops, out, Precedence(c));
    PopAtLeastDepth(ops, out, Precedence(c));
    DepthSnoc(r.ops, c);
    DepthSnoc(p, c);
  }

  lemma OperatorNumChars(ops: seq<char>, out: string, p: string, c: char)
    requires NumChars(out) == NumChars(p) && IsOperator(c)
    ensures NumChars(PopAtLeast(ops, out + [' '], Precedence(c)).out) == NumChars(p + [c])
  {
    NumCharsSnoc(out, ' ');
    PopAtLeastNumChars(ops, out + [' '], Precedence(c));
    NumCharsSnoc(p, c);
  }

  lemma OperatorOps(ops: seq<char>, out: string, p: string, c: char)
    requires OpsOf(out) + OpsOf(ops) == OpsOf(p) && IsOperator(c)
    ensures var r := PopAtLeast(ops, out + [' '], Precedence(c));
      OpsOf(r.out) + OpsOf(r.ops + [c]) == OpsOf(p + [c])
  {
    var r := PopAtLeast(ops, out + [' '], Precedence(c));
    OpsSnoc(out, ' ');
    PopAtLeastOps(ops, out + [' '], Precedence(c));
    OpsSnoc(r.ops, c);
    OpsSnoc(p, c);
  }

  // ---------------------------------------------------------------- the whole scan

  /** The scan gets through p exactly when p is sound, and its state then accounts for
      every character of p. */
  lemma {:induction false} ScanTracks(p: string)
    ensures Scan(p).Ok? <==> Sound(p)
    ensures Scan(p).Ok? ==> Tracks(Scan(p).value, p)
    ensures Scan(p).Err? ==> Scan(p).error in {InvalidCharacter, MismatchedParentheses}
    decreases |p|
  {
    if p == [] {
      assert p[..0] == p;
    } else {
      var q := p[..|p| - 1];
      var c := p[|p| - 1];
      assert p == q + [c];
      ScanTracks(q);
      NeverDipsSnoc(q, c);
      DepthSnoc(q, c);
      assert AllValid(p) <==> AllValid(q) && IsValidChar(c);
      assert NeverDips(q) ==> Depth(q) >= 0 by { assert q[..|q|] == q; }
      if Scan(q).Ok? {
        StepTracks(Scan(q).value, q, c);
      }
    }
  }

  /** Inside a sound prefix there is nothing the scan would stop at. */
  lemma NoFaultInside(q: string, i: int)
    requires Sound(q) && 0 <= i < |q|
    ensures IsValidChar(q[i])
    ensures q[i] == ')' ==> Depth(q[..i]) > 0
  {
    assert q[..i + 1][..i] == q[..i];
    DepthSnoc(q[..i], q[i]);
    assert q[..i] + [q[i]] == q[..i + 1];
  }

  /** Which error stops the scan: the first character that is outside the alphabet, or is
      a ')' with no open '(' before it, decides. */
  lemma ScanErrors(p: string)
    ensures Scan(p) == Err(InvalidCharacter) <==>
      exists i :: 0 <= i < |p| && Sound(p[..i]) && !IsValidChar(p[i])
    ensures Scan(p) == Err(MismatchedParentheses) <==>
      exists i :: 0 <= i < |p| && Sound(p[..i]) && p[i] == ')' && Depth(p[..i]) == 0
  {
    ScanInvalid(p);
    ScanMismatched(p);
  }

  lemma {:induction false} ScanInvalid(p: string)
    ensures Scan(p) == Err(InvalidCharacter) <==>
      exists i :: 0 <= i < |p| && Sound(p[..i]) && !IsValidChar(p[i])
    decreases |p|
  {
    if p != [] {
      var q := p[..|p| - 1];
      var c := p[|p| - 1];
      assert p == q + [c];
      assert p[..|q|] == q;
      assert forall i :: 0 <= i < |q| ==> p[..i] == q[..i] && p[i] == q[i];
      ScanInvalid(q);
      ScanTracks(q);
      if Scan(q).Ok? {
        StepTracks(Scan(q).value, q, c);
        forall i | 0 <= i < |q| ensures IsValidChar(p[i]) {
          NoFaultInside(q, i);
        }
      }
    }
  }

  lemma {:induction false} ScanMismatched(p: string)
    ensures Scan(p) == Err(MismatchedParentheses) <==>
      exists i :: 0 <= i < |p| && Sound(p[..i]) && p[i] == ')' && Depth(p[..i]) == 0
    decreases |p|
  {
    if p != [] {
      var q := p[..|p| - 1];
      var c := p[|p| - 1];
      assert p == q + [c];
      assert p[..|q|] == q;
      assert forall i :: 0 <= i < |q| ==> p[..i] == q[..i] && p[i] == q[i];
      ScanMismatched(q);
      ScanTracks(q);
      if Scan(q).Ok? {
        StepTracks(Scan(q).value, q, c);
        forall i | 0 <= i < |q| ensures p[i] == ')' ==> Depth(p[..i]) > 0 {
          NoFaultInside(q, i);
        }
      }
    }
  }

  // ---------------------------------------------------------------- the final loop

  /** The final loop fails, always with a parenthesis error, exactly when a '(' is left. */
  lemma {:induction false} DrainSucceedsIff(ops: seq<char>, out: string)
    requires WellStacked(ops)
    ensures Drain(ops, out).Ok? <==> Depth(ops) == 0
    ensures Drain(ops, out).Err? ==> Drain(ops, out).error == MismatchedParentheses
    decreases |ops|
  {
    StackDepth(ops);
    if ops != [] && Top(ops) != '(' {
      var q := ops[..|ops| - 1];
      assert ops == q + [Top(ops)];
      DepthSnoc(q, Top(ops));
      WellStackedPrefix(ops, |q|);
      DrainSucceedsIff(q, out + [' ', Top(ops)]);
    }
  }

  /** A successful final loop appends exactly the stacked operators. */
  lemma DrainMoves(ops: seq<char>, out: string)
    requires WellStacked(ops) && Drain(ops, out).Ok?
    ensures NumChars(Drain(ops, out).value) == NumChars(out)
    ensures OpsOf(Drain(ops, out).value) == OpsOf(out) + OpsOf(ops)
    ensures PostfixAlphabet(out) ==> PostfixAlphabet(Drain(ops, out).value)
  {
    DrainNumChars(ops, out);
    DrainOps(ops, out);
    if PostfixAlphabet(out) {
      DrainAlphabet(ops, out);
    }
  }

  lemma {:induction false} DrainNumChars(ops: seq<char>, out: string)
    requires WellStacked(ops) && Drain(ops, out).Ok?
    ensures NumChars(Drain(ops, out).value) == NumChars(out)
    decreases |ops|
  {
    if ops != [] {
      EmitSpaceOperator(out, Top(ops));
      WellStackedPrefix(ops, |ops| - 1);
      DrainNumChars(ops[..|ops| - 1], out + [' ', Top(ops)]);
    }
  }

  lemma {:induction false} DrainOps(ops: seq<char>, out: string)
    requires WellStacked(ops) && Drain(ops, out).Ok?
    ensures OpsOf(Drain(ops, out).value) == OpsOf(out) + OpsOf(ops)
    decreases |ops|
  {
    if ops != [] {
      var x := Top(ops);
      var q := ops[..|ops| - 1];
      assert ops == q + [x];
      OpsSnoc(q, x);
      EmitSpaceOperator(out, x);
      WellStackedPrefix(ops, |q|);
      DrainOps(q, out + [' ', x]);
    }
  }

  lemma {:induction false} DrainAlphabet(ops: seq<char>, out: string)
    requires WellStacked(ops) && Drain(ops, out).Ok? && PostfixAlphabet(out)
    ensures PostfixAlphabet(Drain(ops, out).value)
    decreases |ops|
  {
    if ops != [] {
      WellStackedPrefix(ops, |ops| - 1);
      DrainAlphabet(ops[..|ops| - 1], out + [' ', Top(ops)]);
    }
  }

  // ---------------------------------------------------------------- infixToPostfix

  /** Conversion succeeds exactly on inputs made of valid characters whose parentheses
      balance. */
  lemma PostfixSucceedsIff(s: string)
    ensures PostfixOf(s).Ok? <==> AllValid(s) && Balanced(s)
    ensures PostfixOf(s).Err? ==> PostfixOf(s).error in {InvalidCharacter, MismatchedParentheses}
  {
    ScanTracks(s);
    if Scan(s).Ok? {
      DrainSucceedsIff(Scan(s).value.ops, Scan(s).value.out);
    }
  }

  /** A character outside digits, '.', the operators and the parentheses (a space
      included) makes conversion fail. */
  lemma RejectsForeignCharacter(s: string, i: int)
    requires 0 <= i < |s| && !IsValidChar(s[i])
    ensures PostfixOf(s).Err?
  {
    PostfixSucceedsIff(s);
  }

  /** Conversion reports an invalid character exactly when one occurs before any
      unmatched ')'. */
  lemma InvalidCharacterIff(s: string)
    ensures PostfixOf(s) == Err(InvalidCharacter) <==>
      exists i :: 0 <= i < |s| && Sound(s[..i]) && !IsValidChar(s[i])
  {
    ScanErrors(s);
    ScanTracks(s);
    if Scan(s).Ok? {
      DrainSucceedsIff(Scan(s).value.ops, Scan(s).value.out);
    }
  }

  /** On input of valid characters the only failure is a parenthesis error, and it
      happens exactly when the parentheses do not balance. */
  lemma MismatchedIffUnbalanced(s: string)
    requires AllValid(s)
    ensures PostfixOf(s).Err? ==> PostfixOf(s).error == MismatchedParentheses
    ensures PostfixOf(s) == Err(MismatchedParentheses) <==> !Balanced(s)
  {
    PostfixSucceedsIff(s);
    InvalidCharacterIff(s);
    ScanErrors(s);
    ScanTracks(s);
    if Scan(s).Ok? {
      DrainSucceedsIff(Scan(s).value.ops, Scan(s).value.out);
    }
  }

  /** After any successful scan the operator stack is well shaped: no ')' is ever stacked
      (so the ')' test of the final loop never fires) and the operators between two '('
      marks rise strictly in precedence. */
  lemma ScanKeepsStackShape(s: string)
    requires Scan(s).Ok?
    ensures WellStacked(Scan(s).value.ops)
    ensures ')' !in Scan(s).value.ops
    ensures Depth(Scan(s).value.ops) == Depth(s)
  {
    ScanTracks(s);
    var ops := Scan(s).value.ops;
    assert forall i :: 0 <= i < |ops| ==> ops[i] != ')';
  }

  /** A successful conversion writes no parenthesis, keeps the digits and '.' of the input
      in their order, and writes each operator of the input exactly once. */
  lemma PostfixOutput(s: string)
    requires PostfixOf(s).Ok?
    ensures PostfixAlphabet(PostfixOf(s).value)
    ensures '(' !in PostfixOf(s).value && ')' !in PostfixOf(s).value
    ensures NumChars(PostfixOf(s).value) == NumChars(s)
    ensures OpsOf(PostfixOf(s).value) == OpsOf(s)
  {
    ScanTracks(s);
    var sh := Scan(s).value;
    var post := PostfixOf(s).value;
    assert Drain(sh.ops, sh.out) == Ok(post);
    assert Tracks(sh, s);
    DrainMoves(sh.ops, sh.out);
    AlphabetHasNoParens(post);
  }

  lemma AlphabetHasNoParens(t: string)
    requires PostfixAlphabet(t)
    ensures '(' !in t && ')' !in t
  {
    forall i | 0 <= i < |t| ensures t[i] != '(' && t[i] != ')' {
      assert IsNumberChar(t[i]) || IsOperator(t[i]) || t[i] == ' ';
    }
  }
}
