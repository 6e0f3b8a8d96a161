/** The expressions the calculator is built for, as trees, and the proof that the two
    stages compute their value: for every well-formed tree, evaluateExpression applied
    to the tree's text gives the tree's value. Multiplication and division bind tighter
    than addition and subtraction, operators of equal precedence group to the left, and
    any subexpression may carry parentheses of its own. */
module Grammar {
  import opened Outcome
  import opened Symbols
  import opened Conversion
  import opened Evaluation
  import opened EvaluationProofs
  import opened Calculator

  datatype Expr = Num(text: string) | Group(inner: Expr) | Bin(op: char, left: Expr, right: Expr)

  /** The precedence of the operator at the root of e that no parenthesis shields; a
      number or a parenthesized group binds tighter than any operator. */
  function Bind(e: Expr): int {
    match e
    case Bin(o, _, _) => Precedence(o)
    case _ => 3
  }

  /** Numbers are unsigned numerals, and a tree needs no parentheses beyond its Group
      nodes: a left operand binds at least as tightly as its operator, a right operand
      strictly more tightly. */
  predicate WellFormed(e: Expr) {
    match e
    case Num(t) => IsUnsignedNumeral(t)
    case Group(x) => WellFormed(x)
    case Bin(o, l, r) =>
      IsOperator(o) && WellFormed(l) && WellFormed(r) &&
      Bind(l) >= Precedence(o) && Bind(r) > Precedence(o)
  }

  /** The infix text of e. */
  function Render(e: Expr): string {
    match e
    case Num(t) => t
    case Group(x) => "(" + Render(x) + ")"
    case Bin(o, l, r) => Render(l) + [o] + Render(r)
  }

  /** The value of e in exact arithmetic, evaluating the left operand first; division by
      zero is the only way a well-formed tree fails. */
  function Value(e: Expr): Result<real> {
    match e
    case Num(t) =>
      (match ParseUnsigned(t)
       case Some(v) => Ok(v)
       case None => Err(InvalidToken))
    case Group(x) => Value(x)
    case Bin(o, l, r) =>
      match Value(l)
      case Err(x) => Err(x)
      case Ok(a) =>
        match Value(r)
        case Err(x) => Err(x)
        case Ok(b) => Combine(o, a, b)
  }

  /** The arithmetic of the four operators, with division by zero as an error. */
  function Combine(o: char, a: real, b: real): Result<real> {
    if o == '+' then Ok(a + b)
    else if o == '-' then Ok(a - b)
    else if o == '*' then Ok(a * b)
    else if b == 0.0 then Err(DivisionByZero)
    else Ok(a / b)
  }

  /** The tokens of e in postfix order: both operands, then the operator. */
  function PostfixTokens(e: Expr): (ts: seq<string>)
    ensures |ts| > 0
  {
    match e
    case Num(t) => [t]
    case Group(x) => PostfixTokens(x)
    case Bin(o, l, r) => PostfixTokens(l) + PostfixTokens(r) + [[o]]
  }

  // ---------------------------------------------------------------- the converter on a tree

  /** What the pop loop before an operator writes for the entries ps, top first. */
  function SpillOp(ps: seq<char>): string
    decreases |ps|
  {
    if ps == [] then [] else [Top(ps), ' '] + SpillOp(ps[..|ps| - 1])
  }

  /** What the pop loop on ')' and the final loop write for the entries ps, top first. */
  function SpillClose(ps: seq<char>): string
    decreases |ps|
  {
    if ps == [] then [] else [' ', Top(ps)] + SpillClose(ps[..|ps| - 1])
  }

  /** The operators of e that are still stacked once the scan has passed e. */
  function Pending(e: Expr): seq<char> {
    match e
    case Bin(o, _, r) => [o] + Pending(r)
    case _ => []
  }

  /** What the scan writes while it passes e. */
  function Emitted(e: Expr): string {
    match e
    case Num(t) => t
    case Group(x) => Emitted(x) + SpillClose(Pending(x))
    case Bin(_, l, r) => Emitted(l) + [' '] + SpillOp(Pending(l)) + Emitted(r)
  }

  /** The postfix text infixToPostfix writes for e. */
  function Text(e: Expr): string {
    Emitted(e) + SpillClose(Pending(e))
  }

  /** The operators left pending by e bind at least as tightly as e itself. */
  lemma {:induction false} PendingShape(e: Expr)
    requires WellFormed(e)
    ensures forall i :: 0 <= i < |Pending(e)| ==>
      IsOperator(Pending(e)[i]) && Precedence(Pending(e)[i]) >= Bind(e)
  {
    match e
    case Num(_) =>
    case Group(_) =>
    case Bin(o, l, r) =>
      PendingShape(r);
      assert forall i :: 1 <= i < |Pending(e)| ==> Pending(e)[i] == Pending(r)[i - 1];
  }

  lemma ScanOne(sh: Shunt, c: char)
    ensures ScanFrom(sh, [c]) == Step(sh, c)
  {
    assert [c][..0] == [];
  }

  /** Scanning a + b is scanning a, then b from where a left off. */
  lemma {:induction false} ScanFromAppend(sh: Shunt, a: string, b: string)
    ensures ScanFrom(sh, a + b) ==
      match ScanFrom(sh, a)
      case Err(x) => Err(x)
      case Ok(t) => ScanFrom(t, b)
    decreases |b|
  {
    if b == [] {
      assert a + b == a;
    } else {
      var b' := b[..|b| - 1];
      assert (a + b)[..|a + b| - 1] == a + b';
      ScanFromAppend(sh, a, b');
    }
  }

  /** Digits and '.' are copied to the output one by one. */
  lemma {:induction false} ScanNumeral(sh: Shunt, t: string)
    requires forall i :: 0 <= i < |t| ==> IsNumberChar(t[i])
    ensures ScanFrom(sh, t) == Ok(Shunt(sh.ops, sh.out + t))
    decreases |t|
  {
    if t == [] {
      assert sh.out + t == sh.out;
    } else {
      var t' := t[..|t| - 1];
      ScanNumeral(sh, t');
      assert sh.out + t' + [t[|t| - 1]] == sh.out + t;
    }
  }

  /** The pop loop before an operator of precedence p writes the entries ps that bind at
      least as tightly and stops at the entry below them. */
  lemma {:induction false} PopPending(ops: seq<char>, ps: seq<char>, out: string, p: int)
    requires forall i :: 0 <= i < |ps| ==> Precedence(ps[i]) >= p
    requires ops == [] || Precedence(Top(ops)) < p
    ensures PopAtLeast(ops + ps, out, p) == Shunt(ops, out + SpillOp(ps))
    decreases |ps|
  {
    if ps == [] {
      assert ops + ps == ops && out + SpillOp(ps) == out;
    } else {
      var ps' := ps[..|ps| - 1];
      PopPendingStep(ops, ps, out, p);
      assert forall i :: 0 <= i < |ps'| ==> ps'[i] == ps[i];
      PopPending(ops, ps', out + [Top(ps), ' '], p);
    }
  }

  /** One round of the pop loop before an operator, over the pending entries ps. */
  lemma PopPendingStep(ops: seq<char>, ps: seq<char>, out: string, p: int)
    requires |ps| > 0 && Precedence(Top(ps)) >= p
    ensures PopAtLeast(ops + ps, out, p) ==
      PopAtLeast(ops + ps[..|ps| - 1], out + [Top(ps), ' '], p)
    ensures out + [Top(ps), ' '] + SpillOp(ps[..|ps| - 1]) == out + SpillOp(ps)
  {
    var q := ops + ps;
    assert q[..|q| - 1] == ops + ps[..|ps| - 1] && Top(q) == Top(ps);
    PopOne(q, out, p);
    SpillOpStep(ps, out);
  }

  lemma PopOne(q: seq<char>, out: string, p: int)
    requires |q| > 0 && Precedence(Top(q)) >= p
    ensures PopAtLeast(q, out, p) == PopAtLeast(q[..|q| - 1], out + [Top(q), ' '], p)
  {
  }

  lemma SpillOpStep(ps: seq<char>, out: string)
    requires |ps| > 0
    ensures out + [Top(ps), ' '] + SpillOp(ps[..|ps| - 1]) == out + SpillOp(ps)
  {
    Associative(out, [Top(ps), ' '], SpillOp(ps[..|ps| - 1]));
  }

  lemma Associative<T>(a: seq<T>, b: seq<T>, c: seq<T>)
    ensures a + b + c == a + (b + c)
  {
  }

  /** The pop loop on ')' writes the operators above the '(' and stops on it. */
  lemma {:induction false} CloseOnPending(ops: seq<char>, ps: seq<char>, out: string)
    requires forall i :: 0 <= i < |ps| ==> IsOperator(ps[i])
    ensures PopToParen(ops + ['('] + ps, out) == Shunt(ops + ['('], out + SpillClose(ps))
    decreases |ps|
  {
    if ps == [] {
      assert ops + ['('] + ps == ops + ['('] && out + SpillClose(ps) == out;
    } else {
      var ps' := ps[..|ps| - 1];
      assert (ops + ['('] + ps)[..|ops + ['('] + ps| - 1] == ops + ['('] + ps';
      assert Top(ops + ['('] + ps) == Top(ps);
      CloseOnPending(ops, ps', out + [' ', Top(ps)]);
      assert out + [' ', Top(ps)] + SpillClose(ps') == out + SpillClose(ps);
    }
  }

  /** The final loop writes the pending operators, top first. */
  lemma {:induction false} DrainPending(ps: seq<char>, out: string)
    requires forall i :: 0 <= i < |ps| ==> IsOperator(ps[i])
    ensures Drain(ps, out) == Ok(out + SpillClose(ps))
    decreases |ps|
  {
    if ps == [] {
      assert out + SpillClose(ps) == out;
    } else {
      var ps' := ps[..|ps| - 1];
      DrainPending(ps', out + [' ', Top(ps)]);
      assert out + [' ', Top(ps)] + SpillClose(ps') == out + SpillClose(ps);
    }
  }

  /** Scanning the text of e on top of a stack whose top binds less tightly than e leaves
      that stack in place, pushes the pending operators of e and writes what e emits. */
  lemma {:induction false} ScanRender(e: Expr, ops: seq<char>, out: string)
    requires WellFormed(e)
    requires ops == [] || Precedence(Top(ops)) < Bind(e)
    ensures ScanFrom(Shunt(ops, out), Render(e)) == Ok(Shunt(ops + Pending(e), out + Emitted(e)))
    decreases e
  {
    match e
    case Num(t) =>
      ScanNumeral(Shunt(ops, out), t);
      assert ops + Pending(e) == ops;
    case Group(x) =>
      ScanRender(x, ops + ['('], out);
      PendingShape(x);
      ScanGroup(x, ops, out);
    case Bin(o, l, r) =>
      ScanRender(l, ops, out);
      PendingShape(l);
      PopPending(ops, Pending(l), out + Emitted(l) + [' '], Precedence(o));
      var written := out + Emitted(l) + [' '] + SpillOp(Pending(l));
      ScanRender(r, ops + [o], written);
      ScanBin(o, l, r, ops, out);
  }

  /** A parenthesized group: '(' is pushed, the inner expression scanned above it, and
      ')' writes what the inner expression left pending and pops the '('. */
  lemma ScanGroup(x: Expr, ops: seq<char>, out: string)
    requires forall i :: 0 <= i < |Pending(x)| ==> IsOperator(Pending(x)[i])
    requires ScanFrom(Shunt(ops + ['('], out), Render(x)) ==
      Ok(Shunt(ops + ['('] + Pending(x), out + Emitted(x)))
    ensures ScanFrom(Shunt(ops, out), Render(Group(x))) ==
      Ok(Shunt(ops + Pending(Group(x)), out + Emitted(Group(x))))
  {
    var sh := Shunt(ops, out);
    var mid := Shunt(ops + ['('] + Pending(x), out + Emitted(x));
    assert Render(Group(x)) == ['('] + Render(x) + [')'];
    GroupOpen(x, ops, out);
    ScanFromAppend(sh, ['('] + Render(x), [')']);
    ScanOne(mid, ')');
    GroupClose(x, ops, out);
  }

  lemma GroupOpen(x: Expr, ops: seq<char>, out: string)
    requires ScanFrom(Shunt(ops + ['('], out), Render(x)) ==
      Ok(Shunt(ops + ['('] + Pending(x), out + Emitted(x)))
    ensures ScanFrom(Shunt(ops, out), ['('] + Render(x)) ==
      Ok(Shunt(ops + ['('] + Pending(x), out + Emitted(x)))
  {
    var sh := Shunt(ops, out);
    ScanOne(sh, '(');
    assert ScanFrom(sh, ['(']) == Ok(Shunt(ops + ['('], out));
    ScanFromAppend(sh, ['('], Render(x));
  }

  lemma GroupClose(x: Expr, ops: seq<char>, out: string)
    requires forall i :: 0 <= i < |Pending(x)| ==> IsOperator(Pending(x)[i])
    ensures Step(Shunt(ops + ['('] + Pending(x), out + Emitted(x)), ')') ==
      Ok(Shunt(ops + Pending(Group(x)), out + Emitted(Group(x))))
  {
    var open := ops + ['('];
    CloseOnPending(ops, Pending(x), out + Emitted(x));
    assert open[..|open| - 1] == ops;
    Associative(out, Emitted(x), SpillClose(Pending(x)));
    assert ops + Pending(Group(x)) == ops;
  }

  /** An operator node: the left operand is scanned, the operator pops what the left
      operand left pending and is pushed, and the right operand is scanned above it. */
  lemma ScanBin(o: char, l: Expr, r: Expr, ops: seq<char>, out: string)
    requires IsOperator(o)
    requires ScanFrom(Shunt(ops, out), Render(l)) == Ok(Shunt(ops + Pending(l), out + Emitted(l)))
    requires PopAtLeast(ops + Pending(l), out + Emitted(l) + [' '], Precedence(o)) ==
      Shunt(ops, out + Emitted(l) + [' '] + SpillOp(Pending(l)))
    requires ScanFrom(Shunt(ops + [o], out + Emitted(l) + [' '] + SpillOp(Pending(l))), Render(r)) ==
      Ok(Shunt(ops + [o] + Pending(r), out + Emitted(l) + [' '] + SpillOp(Pending(l)) + Emitted(r)))
    ensures ScanFrom(Shunt(ops, out), Render(Bin(o, l, r))) ==
      Ok(Shunt(ops + Pending(Bin(o, l, r)), out + Emitted(Bin(o, l, r))))
  {
    var left := Shunt(ops + Pending(l), out + Emitted(l));
    var written := out + Emitted(l) + [' '] + SpillOp(Pending(l));
    assert Step(left, o) == Ok(Shunt(ops + [o], written));
    ScanThrough(Shunt(ops, out), Render(l), o, Render(r), left, Shunt(ops + [o], written),
      Shunt(ops + [o] + Pending(r), written + Emitted(r)));
    BinParts(o, l, r, ops, out);
  }

  /** Scanning a, then c, then b, one stage after the other. */
  lemma ScanThrough(sh: Shunt, a: string, c: char, b: string, mid: Shunt, next: Shunt, last: Shunt)
    requires ScanFrom(sh, a) == Ok(mid)
    requires Step(mid, c) == Ok(next)
    requires ScanFrom(next, b) == Ok(last)
    ensures ScanFrom(sh, a + [c] + b) == Ok(last)
  {
    ScanOne(mid, c);
    ScanFromAppend(sh, a, [c]);
    ScanFromAppend(sh, a + [c], b);
  }

  lemma BinParts(o: char, l: Expr, r: Expr, ops: seq<char>, out: string)
    ensures Render(Bin(o, l, r)) == Render(l) + [o] + Render(r)
    ensures ops + [o] + Pending(r) == ops + Pending(Bin(o, l, r))
    ensures out + Emitted(l) + [' '] + SpillOp(Pending(l)) + Emitted(r) == out + Emitted(Bin(o, l, r))
  {
    var el, sp, er := Emitted(l), SpillOp(Pending(l)), Emitted(r);
    assert Emitted(Bin(o, l, r)) == el + [' '] + sp + er;
    Associative(out, el, [' ']);
    Associative(out, el + [' '], sp);
    Associative(out, el + [' '] + sp, er);
  }

  /** infixToPostfix turns the text of a well-formed tree into Text(e). */
  lemma PostfixOfRender(e: Expr)
    requires WellFormed(e)
    ensures PostfixOf(Render(e)) == Ok(Text(e))
  {
    ScanRender(e, [], []);
    assert [] + Pending(e) == Pending(e) && [] + Emitted(e) == Emitted(e);
    PendingShape(e);
    DrainPending(Pending(e), Emitted(e));
  }

  // ---------------------------------------------------------------- the postfix text

  lemma {:induction false} JoinAppend(a: seq<string>, b: seq<string>)
    requires a != [] && b != []
    ensures Join(a + b) == Join(a) + [' '] + Join(b)
    decreases |a|
  {
    if |a| == 1 {
      assert (a + b)[1..] == b;
    } else {
      assert (a + b)[1..] == a[1..] + b;
      JoinAppend(a[1..], b);
    }
  }

  lemma {:induction false} SpillOpThenSpace(ps: seq<char>)
    ensures [' '] + SpillOp(ps) == SpillClose(ps) + [' ']
    decreases |ps|
  {
    if ps != [] {
      var ps' := ps[..|ps| - 1];
      SpillOpThenSpace(ps');
      calc {
        [' '] + SpillOp(ps);
        [' '] + ([Top(ps), ' '] + SpillOp(ps'));
        [' ', Top(ps)] + ([' '] + SpillOp(ps'));
        [' ', Top(ps)] + (SpillClose(ps') + [' ']);
        SpillClose(ps) + [' '];
      }
    }
  }

  lemma {:induction false} SpillCloseUnder(o: char, ps: seq<char>)
    ensures SpillClose([o] + ps) == SpillClose(ps) + [' ', o]
    decreases |ps|
  {
    if ps == [] {
      assert [o] + ps == [o];
      assert [o][..0] == [];
    } else {
      var ps' := ps[..|ps| - 1];
      assert ([o] + ps)[..|ps|] == [o] + ps';
      SpillCloseUnder(o, ps');
    }
  }

  /** The postfix text of a well-formed tree is its postfix tokens, one space apart. */
  lemma {:induction false} TextIsJoin(e: Expr)
    requires WellFormed(e)
    ensures Text(e) == Join(PostfixTokens(e))
    decreases e
  {
    match e
    case Num(t) =>
    case Group(x) =>
      TextIsJoin(x);
    case Bin(o, l, r) =>
      TextIsJoin(l);
      TextIsJoin(r);
      TextOfBin(o, l, r);
      JoinAppend(PostfixTokens(l), PostfixTokens(r));
      JoinAppend(PostfixTokens(l) + PostfixTokens(r), [[o]]);
  }

  /** The text of o's node: the left operand's text, the right one's, then o. */
  lemma TextOfBin(o: char, l: Expr, r: Expr)
    ensures Text(Bin(o, l, r)) == Text(l) + [' '] + Text(r) + [' '] + [o]
  {
    var el, er, pl, pr := Emitted(l), Emitted(r), Pending(l), Pending(r);
    SpillOpThenSpace(pl);
    SpillCloseUnder(o, pr);
    calc {
      Text(Bin(o, l, r));
      el + [' '] + SpillOp(pl) + er + SpillClose([o] + pr);
      el + ([' '] + SpillOp(pl)) + er + SpillClose([o] + pr);
      el + (SpillClose(pl) + [' ']) + er + (SpillClose(pr) + [' ', o]);
      (el + SpillClose(pl)) + [' '] + (er + SpillClose(pr)) + [' '] + [o];
    }
  }

  /** Every postfix token of a well-formed tree is a numeral or a single operator. */
  lemma {:induction false} PostfixTokensShape(e: Expr)
    requires WellFormed(e)
    ensures forall i :: 0 <= i < |PostfixTokens(e)| ==> IsToken(PostfixTokens(e)[i])
    decreases e
  {
    match e
    case Num(t) =>
      assert forall i :: 0 <= i < |t| ==> IsNumberChar(t[i]);
    case Group(x) =>
      PostfixTokensShape(x);
    case Bin(o, l, r) =>
      PostfixTokensShape(l);
      PostfixTokensShape(r);
      var tl, tr := PostfixTokens(l), PostfixTokens(r);
      assert forall i :: 0 <= i < |tl| ==> (tl + tr + [[o]])[i] == tl[i];
      assert forall i :: |tl| <= i < |tl| + |tr| ==> (tl + tr + [[o]])[i] == tr[i - |tl|];
  }

  // ---------------------------------------------------------------- the evaluator on a tree

  /** Running a + b is running a, then b on the stack a left. */
  lemma {:induction false} RunAppend(stack: seq<real>, a: seq<string>, b: seq<string>)
    ensures Run(stack, a + b) ==
      match Run(stack, a)
      case Err(x) => Err(x)
      case Ok(s) => Run(s, b)
    decreases |b|
  {
    if b == [] {
      assert a + b == a;
    } else {
      var b' := b[..|b| - 1];
      assert (a + b)[..|a + b| - 1] == a + b';
      RunAppend(stack, a, b');
      assert (a + b)[|a + b| - 1] == b[|b| - 1];
    }
  }

  lemma RunOne(stack: seq<real>, t: string)
    ensures Run(stack, [t]) == Push(stack, t)
  {
    assert [t][..0] == [];
  }

  /** Running the postfix tokens of a well-formed tree pushes its value, or fails as
      its value does. */
  lemma {:induction false} RunPostfix(e: Expr, stack: seq<real>)
    requires WellFormed(e)
    ensures Run(stack, PostfixTokens(e)) == Pushed(stack, Value(e))
    decreases e
  {
    match e
    case Num(t) =>
      RunOne(stack, t);
      ParseUnsignedIff(t);
      assert IsNumberChar(t[0]);
    case Group(x) =>
      RunPostfix(x, stack);
    case Bin(o, l, r) =>
      var tl, tr := PostfixTokens(l), PostfixTokens(r);
      RunAppend(stack, tl + tr, [[o]]);
      RunAppend(stack, tl, tr);
      RunPostfix(l, stack);
      if Value(l).Ok? {
        RunPostfix(r, stack + [Value(l).value]);
        if Value(r).Ok? {
          RunOperator(stack, o, Value(l).value, Value(r).value);
        }
      }
  }

  /** The stack after a subexpression: its value on top, or its error. */
  function Pushed(stack: seq<real>, v: Result<real>): Result<seq<real>> {
    match v
    case Err(x) => Err(x)
    case Ok(x) => Ok(stack + [x])
  }

  /** An operator token applied to its two operands on top of the stack. */
  lemma RunOperator(stack: seq<real>, o: char, a: real, b: real)
    requires IsOperator(o)
    ensures Run(stack + [a] + [b], [[o]]) == Pushed(stack, Combine(o, a, b))
  {
    var s := stack + [a] + [b];
    RunOne(s, [o]);
    OperatorToken(o);
    assert s[..|s| - 2] == stack && s[|s| - 2] == a && s[|s| - 1] == b;
  }

  // ---------------------------------------------------------------- the theorems

  /** The calculator computes the value of every well-formed expression: the
      precedence of '*' and '/' over '+' and '-', grouping to the left and parentheses
      are all honoured. */
  lemma EvaluatesWellFormed(e: Expr)
    requires WellFormed(e)
    ensures EvaluateExpression(Render(e)) == Value(e)
  {
    PostfixOfRender(e);
    TextIsJoin(e);
    PostfixTokensShape(e);
    TokensOfJoin(PostfixTokens(e));
    RunPostfix(e, []);
  }

  /** A well-formed expression is converted to its postfix tokens, one space apart. */
  lemma PostfixOfWellFormed(e: Expr)
    requires WellFormed(e)
    ensures PostfixOf(Render(e)) == Ok(Join(PostfixTokens(e)))
  {
    PostfixOfRender(e);
    TextIsJoin(e);
  }

  /** A well-formed expression fails only by dividing by zero. */
  lemma {:induction false} OnlyDivisionFails(e: Expr)
    requires WellFormed(e)
    ensures Value(e).Ok? || Value(e) == Err(DivisionByZero)
    decreases e
  {
    match e
    case Num(t) =>
      ParseUnsignedIff(t);
    case Group(x) =>
      OnlyDivisionFails(x);
    case Bin(_, l, r) =>
      OnlyDivisionFails(l);
      OnlyDivisionFails(r);
  }
}
