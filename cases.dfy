/** The worked examples and the quirks of the source, proved as general lemmas over
    numerals and operators and then instantiated. */
module Cases {
  import opened Outcome
  import opened Symbols
  import opened Conversion
  import opened ConversionProofs
  import opened Evaluation
  import opened EvaluationProofs
  import opened Calculator
  import opened Grammar

  lemma Numeral(t: string)
    requires |t| > 0 && AllDigits(t)
    ensures WellFormed(Num(t))
    ensures Value(Num(t)) == Ok(DigitsValue(t) as real)
  {
    assert IsDigit(t[0]);
    ParseDigits(t);
  }

  lemma JoinOf(ts: seq<string>)
    requires |ts| == 5
    ensures Join(ts) == ts[0] + " " + ts[1] + " " + ts[2] + " " + ts[3] + " " + ts[4]
  {
    assert ts[..1] == [ts[0]];
    JoinSnoc(ts, 1);
    JoinSnoc(ts, 2);
    JoinSnoc(ts, 3);
    JoinSnoc(ts, 4);
    assert ts[..5] == ts;
  }

  lemma JoinSnoc(ts: seq<string>, k: nat)
    requires 1 <= k < |ts|
    ensures Join(ts[..k + 1]) == Join(ts[..k]) + " " + ts[k]
  {
    assert ts[..k + 1] == ts[..k] + [ts[k]];
    JoinAppend(ts[..k], [ts[k]]);
  }

  /** A well-formed tree that renders as s evaluates, through the whole calculator, to its value. */
  lemma Evaluates(e: Expr, s: string, v: Result<real>)
    requires WellFormed(e) && Render(e) == s && Value(e) == v
    ensures EvaluateExpression(s) == v
  {
    EvaluatesWellFormed(e);
  }

  /** A well-formed tree that renders as s converts to its postfix tokens. */
  lemma Converts(e: Expr, s: string, postfix: string)
    requires WellFormed(e) && Render(e) == s && Join(PostfixTokens(e)) == postfix
    ensures PostfixOf(s) == Ok(postfix)
  {
    PostfixOfWellFormed(e);
  }

  function TwoPlusThreeTimesFourTree(): Expr {
    Bin('+', Num("2"), Bin('*', Num("3"), Num("4")))
  }

  lemma TwoPlusThreeTimesFourShape()
    ensures WellFormed(TwoPlusThreeTimesFourTree())
    ensures Render(TwoPlusThreeTimesFourTree()) == "2+3*4"
  {
    Numeral("2"); Numeral("3"); Numeral("4");
  }

  lemma TwoPlusThreeTimesFourValue()
    ensures Value(TwoPlusThreeTimesFourTree()) == Ok(14.0)
  {
    Numeral("2"); Numeral("3"); Numeral("4");
  }

  lemma TwoPlusThreeTimesFour()
    ensures EvaluateExpression("2+3*4") == Ok(14.0)
  {
    TwoPlusThreeTimesFourShape();
    TwoPlusThreeTimesFourValue();
    Evaluates(TwoPlusThreeTimesFourTree(), "2+3*4", Ok(14.0));
  }

  lemma TwoPlusThreeTimesFourTokens()
    ensures Join(PostfixTokens(TwoPlusThreeTimesFourTree())) == "2 3 4 * +"
  {
    assert PostfixTokens(TwoPlusThreeTimesFourTree()) == ["2", "3", "4", "*", "+"];
    JoinOf(["2", "3", "4", "*", "+"]);
  }

  lemma TwoPlusThreeTimesFourPostfix()
    ensures PostfixOf("2+3*4") == Ok("2 3 4 * +")
  {
    TwoPlusThreeTimesFourShape();
    TwoPlusThreeTimesFourTokens();
    Converts(TwoPlusThreeTimesFourTree(), "2+3*4", "2 3 4 * +");
  }

  // ---------------------------------------------------------------- tokens by hand

  lemma TokensLead(t: string, rest: string)
    requires IsToken(t)
    requires rest == [] || IsSpace(rest[0])
    ensures Tokens(t + rest) == [t] + Tokens(rest)
  {
    TokenEndOfToken(t, rest);
    assert (t + rest)[..|t|] == t;
    assert (t + rest)[|t|..] == rest;
  }

  lemma TokensSkip(rest: string)
    ensures Tokens(" " + rest) == Tokens(rest)
  {
    assert (" " + rest)[1..] == rest;
  }

  // ---------------------------------------------------------------- scanning in pieces

  /** Scanning s and then t from where s left off. */
  lemma ScanThen(s: string, sh: Shunt, t: string, next: Shunt)
    requires Scan(s) == Ok(sh)
    requires ScanFrom(sh, t) == Ok(next)
    ensures Scan(s + t) == Ok(next)
  {
    ScanFromAppend(Shunt([], []), s, t);
  }

  /** A run of digits is an unsigned numeral. */
  lemma DigitsNumeral(a: string)
    requires |a| > 0 && AllDigits(a)
    ensures IsUnsignedNumeral(a)
  {
    assert IsDigit(a[0]);
  }

  /** A number and then an operator: the number is written out, the operator is stacked
      and a space is written. */
  lemma NumberThenOperator(a: string, o: char)
    requires |a| > 0 && AllDigits(a) && IsOperator(o)
    ensures Scan(a + [o]) == Ok(Shunt([o], a + [' ']))
  {
    ScanNumeral(Shunt([], []), a);
    assert [] + a == a;
    ScanOne(Shunt([], a), o);
    FirstOperator(a, o);
    ScanThen(a, Shunt([], a), [o], Shunt([o], a + [' ']));
  }

  /** An operator meets an empty stack: nothing is popped and it is pushed. */
  lemma FirstOperator(a: string, o: char)
    requires IsOperator(o)
    ensures Step(Shunt([], a), o) == Ok(Shunt([o], a + [' ']))
  {
    assert PopAtLeast([], a + [' '], Precedence(o)) == Shunt([], a + [' ']);
    assert [] + [o] == [o];
  }

  // ---------------------------------------------------------------- the quirks of the source

  /** Two groups side by side are glued into one number: "(a)(b)" becomes the single
      token a + b. */
  lemma AdjacentGroupsGlue(a: string, b: string)
    requires IsUnsignedNumeral(a) && IsUnsignedNumeral(b)
    ensures PostfixOf("(" + a + ")" + "(" + b + ")") == Ok(a + b)
  {
    var x, y := Group(Num(a)), Group(Num(b));
    GroupOfNumeral(a);
    GroupOfNumeral(b);
    assert Scan(Render(x)) == Ok(Shunt([], a)) by {
      ScanRender(x, [], []);
      assert [] + Pending(x) == [] && [] + Emitted(x) == a;
    }
    assert ScanFrom(Shunt([], a), Render(y)) == Ok(Shunt([], a + b)) by {
      ScanRender(y, [], a);
      assert [] + Pending(y) == [];
    }
    ScanThen(Render(x), Shunt([], a), Render(y), Shunt([], a + b));
    assert Render(x) + Render(y) == "(" + a + ")" + "(" + b + ")";
  }

  /** A numeral in parentheses: nothing is left stacked and only the numeral is written. */
  lemma GroupOfNumeral(a: string)
    requires IsUnsignedNumeral(a)
    ensures WellFormed(Group(Num(a)))
    ensures Render(Group(Num(a))) == "(" + a + ")"
    ensures Pending(Group(Num(a))) == [] && Emitted(Group(Num(a))) == a
  {
    assert SpillClose([]) == [];
    assert a + [] == a;
  }

  lemma AdjacentGroups()
    ensures PostfixOf("(1)(2)") == Ok("12")
    ensures EvaluateExpression("(1)(2)") == Ok(12.0)
  {
    DigitsNumeral("1");
    DigitsNumeral("2");
    AdjacentGroupsGlue("1", "2");
    assert "(" + "1" + ")" + "(" + "2" + ")" == "(1)(2)";
    assert "1" + "2" == "12";
    TwelveValue();
  }

  lemma TwelveValue()
    ensures ValueOf("12") == Ok(12.0)
  {
    var twelve := "12";
    forall i | 0 <= i < |twelve| ensures !IsSpace(twelve[i]) {
      assert i == 0 || i == 1;
    }
    TokensLead("12", []);
    assert "12" + [] == "12";
    Grammar.RunOne([], "12");
    ParseDigits("12");
    assert "12"[..1] == "1";
  }

  /** A sign right after an operator of at least its precedence is taken as a second
      operator: a + [o] + [p] + b becomes a, o, b, p with two spaces after a, and the
      evaluator meets o with a single value on its stack. */
  lemma SignAfterOperatorShape(a: string, o: char, p: char, b: string)
    requires |a| > 0 && AllDigits(a) && |b| > 0 && AllDigits(b)
    requires IsOperator(o) && IsOperator(p) && Precedence(o) >= Precedence(p)
    ensures PostfixOf(a + [o] + [p] + b) == Ok(a + [' ', ' ', o, ' '] + b + [' ', p])
  {
    NumberThenOperator(a, o);
    var mid := a + [' ', ' ', o, ' '];
    SignPopsOperator(a, o, p);
    ScanOne(Shunt([o], a + [' ']), p);
    ScanThen(a + [o], Shunt([o], a + [' ']), [p], Shunt([p], mid));
    ScanNumeral(Shunt([p], mid), b);
    ScanThen(a + [o] + [p], Shunt([p], mid), b, Shunt([p], mid + b));
    assert Drain([p], mid + b) == Ok(mid + b + [' ', p]) by {
      assert [p][..0] == [] && Top([p]) == p;
    }
    assert mid + b + [' ', p] == a + [' ', ' ', o, ' '] + b + [' ', p];
  }

  /** The sign pops the operator below it, which is written after a second space. */
  lemma SignPopsOperator(a: string, o: char, p: char)
    requires IsOperator(o) && IsOperator(p) && Precedence(o) >= Precedence(p)
    ensures Step(Shunt([o], a + [' ']), p) == Ok(Shunt([p], a + [' ', ' ', o, ' ']))
  {
    var mid := a + [' ', ' ', o, ' '];
    assert [o][..0] == [] && Top([o]) == o;
    Associative(a, [' '], [' ']);
    Associative(a, [' '] + [' '], [o, ' ']);
    assert [' '] + [' '] + [o, ' '] == [' ', ' ', o, ' '];
    assert PopAtLeast([], mid, Precedence(p)) == Shunt([], mid);
    assert PopAtLeast([o], a + [' '] + [' '], Precedence(p)) == Shunt([], mid);
    assert [] + [p] == [p];
  }

  /** The text a, two spaces, an operator and then more tokens fails on that operator. */
  lemma LonelyOperator(a: string, o: char, rest: string)
    requires |a| > 0 && AllDigits(a) && IsOperator(o)
    requires rest == [] || IsSpace(rest[0])
    ensures ValueOf(a + [' ', ' ', o] + rest) == Err(InvalidPostfixExpression)
  {
    var ts := Tokens(a + [' ', ' ', o] + rest);
    LonelyTokens(a, o, rest);
    assert ts[..2] == [a, [o]];
    Grammar.RunAppend([], [a], [[o]]);
    Grammar.RunOne([], a);
    ParseDigits(a);
    Grammar.RunOne([DigitsValue(a) as real], [o]);
    OperatorStep([DigitsValue(a) as real], o);
    assert [a] + [[o]] == [a, [o]];
    RunErrorPersists(ts, 2);
  }

  lemma LonelyTokens(a: string, o: char, rest: string)
    requires |a| > 0 && AllDigits(a) && IsOperator(o)
    requires rest == [] || IsSpace(rest[0])
    ensures Tokens(a + [' ', ' ', o] + rest) == [a, [o]] + Tokens(rest)
  {
    Associative(a, [' ', ' ', o], rest);
    assert [' ', ' ', o] + rest == [' '] + ([' '] + ([o] + rest));
    TokensLead(a, [' '] + ([' '] + ([o] + rest)));
    TokensSkip([' '] + ([o] + rest));
    TokensSkip([o] + rest);
    TokensLead([o], rest);
    Associative([a], [[o]], Tokens(rest));
    assert [a] + [[o]] == [a, [o]];
  }

  lemma SignAfterOperator()
    ensures PostfixOf("1+-2") == Ok("1  + 2 -")
    ensures EvaluateExpression("1+-2") == Err(InvalidPostfixExpression)
  {
    SignAfterOperatorShape("1", '+', '-', "2");
    assert "1" + ['+'] + ['-'] + "2" == "1+-2";
    assert "1" + [' ', ' ', '+', ' '] + "2" + [' ', '-'] == "1  + 2 -";
    LonelyOperator("1", '+', " 2 -");
    assert "1" + [' ', ' ', '+'] + " 2 -" == "1  + 2 -";
  }

  /** ')' writes the operators it pops with no space after them, so a number right after
      a group is glued to the group's last operator. */
  lemma GroupThenNumber(a: string, o: char, b: string, c: string)
    requires IsUnsignedNumeral(a) && IsUnsignedNumeral(b) && IsOperator(o)
    requires forall i :: 0 <= i < |c| ==> IsNumberChar(c[i])
    ensures PostfixOf("(" + a + [o] + b + ")" + c) == Ok(a + [' '] + b + [' ', o] + c)
  {
    var x := Bin(o, Num(a), Num(b));
    var g := Group(x);
    assert WellFormed(g) by {
      assert Bind(Num(a)) == 3 && Bind(Num(b)) == 3 && Precedence(o) <= 2;
    }
    assert Render(g) == "(" + a + [o] + b + ")" by {
      assert Render(x) == a + [o] + b;
    }
    var e := a + [' '] + b + [' ', o];
    assert Pending(x) == [o] by { assert [o] + [] == [o]; }
    assert Emitted(g) == e by {
      assert [o][..0] == [] && Top([o]) == o;
      assert SpillClose([o]) == [' ', o] + [];
      assert SpillOp([]) == [];
      assert Emitted(x) == a + [' '] + b;
    }
    assert Scan(Render(g)) == Ok(Shunt([], e)) by {
      ScanRender(g, [], []);
      assert [] + Pending(g) == [] && [] + Emitted(g) == e;
    }
    ScanNumeral(Shunt([], e), c);
    ScanThen(Render(g), Shunt([], e), c, Shunt([], e + c));
  }

  /** "(1+2)3" becomes "1 2 +3", and "+3" is read as the number 3: three values are left. */
  lemma SignedToken()
    ensures PostfixOf("(1+2)3") == Ok("1 2 +3")
    ensures ParseNumber("+3") == Some(3.0)
    ensures EvaluateExpression("(1+2)3") == Err(InvalidPostfixExpression)
  {
    DigitsNumeral("1");
    DigitsNumeral("2");
    GroupThenNumber("1", '+', "2", "3");
    assert "(" + "1" + ['+'] + "2" + ")" + "3" == "(1+2)3";
    assert "1" + [' '] + "2" + [' ', '+'] + "3" == "1 2 +3";
    assert ParseNumber("+3") == Some(3.0) by {
      ParseDigits("3");
      assert "+3"[1..] == "3";
    }
    SignedTokenValue();
  }

  lemma SignedTokenValue()
    ensures ValueOf("1 2 +3") == Err(InvalidPostfixExpression)
  {
    var ts := ["1", "2", "+3"];
    assert Join(ts) == "1 2 +3" by {
      assert ts[1..] == ["2", "+3"] && ts[1..][1..] == ["+3"];
    }
    assert IsToken("+3") by {
      var t := "+3";
      assert t[0] == '+' && t[1] == '3';
    }
    TokensOfJoin(ts);
    SignedTokenOperands();
  }

  /** Push a token onto a run that has already succeeded. */
  lemma RunStep(ts: seq<string>, t: string, stack: seq<real>, next: seq<real>)
    requires Run([], ts) == Ok(stack)
    requires Push(stack, t) == Ok(next)
    ensures Run([], ts + [t]) == Ok(next)
  {
    assert (ts + [t])[..|ts|] == ts;
  }

  lemma SignedTokenOperands()
    ensures Run([], ["1", "2", "+3"]) == Ok([1.0, 2.0, 3.0])
  {
    assert Run([], ["1", "2"]) == Ok([1.0, 2.0]) by { OneTwo(); }
    assert ParseNumber("+3") == Some(3.0) by {
      ParseDigits("3");
      assert "+3"[1..] == "3";
    }
    assert [1.0, 2.0] + [3.0] == [1.0, 2.0, 3.0];
    RunStep(["1", "2"], "+3", [1.0, 2.0], [1.0, 2.0, 3.0]);
    assert ["1", "2"] + ["+3"] == ["1", "2", "+3"];
  }

  lemma One()
    ensures Run([], ["1"]) == Ok([1.0])
  {
    ParseDigits("1");
    assert DigitsValue("1") == 1;
    assert [] + [1.0] == [1.0];
    RunStep([], "1", [], [1.0]);
    assert [] + ["1"] == ["1"];
  }

  lemma OneTwo()
    ensures Run([], ["1", "2"]) == Ok([1.0, 2.0])
  {
    One();
    ParseDigits("2");
    assert DigitsValue("2") == 2;
    assert [1.0] + [2.0] == [1.0, 2.0];
    RunStep(["1"], "2", [1.0], [1.0, 2.0]);
    assert ["1"] + ["2"] == ["1", "2"];
  }

  /** A second '.' passes conversion untouched and is refused by the evaluator. */
  lemma DoubleDot()
    ensures PostfixOf("1..2") == Ok("1..2")
    ensures EvaluateExpression("1..2") == Err(InvalidToken)
  {
    DoubleDotPostfix("1..2");
    DoubleDotValue("1..2");
  }

  lemma DoubleDotPostfix(t: string)
    requires t == "1..2"
    ensures PostfixOf(t) == Ok(t)
  {
    forall i | 0 <= i < |t| ensures IsNumberChar(t[i]) {
      assert i == 0 || i == 1 || i == 2 || i == 3;
    }
    ScanNumeral(Shunt([], []), t);
    assert [] + t == t;
  }

  lemma DoubleDotValue(t: string)
    requires t == "1..2"
    ensures ValueOf(t) == Err(InvalidToken)
  {
    forall i | 0 <= i < |t| ensures !IsSpace(t[i]) {
      assert i == 0 || i == 1 || i == 2 || i == 3;
    }
    TokensLead(t, []);
    assert t + [] == t;
    Grammar.RunOne([], t);
    assert ParseNumber(t) == None by {
      ParseNumberIff(t);
      assert t[1] == '.' && t[2] == '.';
    }
  }

  // ---------------------------------------------------------------- well-formed expressions

  /** A one-digit numeral, a '.', and one more digit. */
  lemma Decimal(t: string)
    requires |t| == 3 && IsDigit(t[0]) && t[1] == '.' && IsDigit(t[2])
    ensures WellFormed(Num(t))
    ensures Value(Num(t)) == Ok(DigitValue(t[0]) as real + DigitValue(t[2]) as real / 10.0)
  {
    DecimalNumeral(t);
    DecimalValue(t);
  }

  lemma DecimalNumeral(t: string)
    requires |t| == 3 && IsDigit(t[0]) && t[1] == '.' && IsDigit(t[2])
    ensures IsUnsignedNumeral(t)
  {
    forall i | 0 <= i < 3 ensures IsNumberChar(t[i]) {
      assert i == 0 || i == 1 || i == 2;
    }
    forall i, j | 0 <= i < j < 3 && t[i] == '.' ensures t[j] != '.' {
      assert i == 1 && j == 2;
    }
  }

  lemma DecimalValue(t: string)
    requires |t| == 3 && IsDigit(t[0]) && t[1] == '.' && IsDigit(t[2])
    ensures ParseUnsigned(t) == Some(DigitValue(t[0]) as real + DigitValue(t[2]) as real / 10.0)
  {
    assert DotIndex(t) == 1 by { assert DotIndex(t[1..]) == 0; }
    var whole, frac := t[..1], t[2..];
    assert whole == [t[0]] && frac == [t[2]];
    assert DigitsValue(whole) == DigitValue(t[0]) by { assert whole[..0] == []; }
    assert DigitsValue(frac) == DigitValue(t[2]) by { assert frac[..0] == []; }
    assert AllDigits(whole) && AllDigits(frac) && |whole| + |frac| > 0;
    assert Pow10(|frac|) == 10 by { assert |frac| == 1 && Pow10(0) == 1; }
    var w, f := DigitValue(t[0]) as real, DigitValue(t[2]) as real;
    assert ParseUnsigned(t) == Some(w + f / Pow10(|frac|) as real);
  }

  function TenMinusTwoMinusThreeTree(): Expr {
    Bin('-', Bin('-', Num("10"), Num("2")), Num("3"))
  }

  lemma TenMinusTwoMinusThreeShape()
    ensures WellFormed(TenMinusTwoMinusThreeTree())
    ensures Render(TenMinusTwoMinusThreeTree()) == "10-2-3"
  {
    Numeral("10"); Numeral("2"); Numeral("3");
  }

  lemma TenMinusTwoMinusThreeValue()
    ensures Value(TenMinusTwoMinusThreeTree()) == Ok(5.0)
  {
    Numeral("10"); Numeral("2"); Numeral("3");
    assert DigitsValue("10") == 10 by { assert "10"[..1] == "1"; }
  }

  lemma TenMinusTwoMinusThree()
    ensures EvaluateExpression("10-2-3") == Ok(5.0)
  {
    TenMinusTwoMinusThreeShape();
    TenMinusTwoMinusThreeValue();
    Evaluates(TenMinusTwoMinusThreeTree(), "10-2-3", Ok(5.0));
  }

  lemma TenMinusTwoMinusThreeTokens()
    ensures Join(PostfixTokens(TenMinusTwoMinusThreeTree())) == "10 2 - 3 -"
  {
    assert PostfixTokens(TenMinusTwoMinusThreeTree()) == ["10", "2", "-", "3", "-"];
    JoinOf(["10", "2", "-", "3", "-"]);
  }

  lemma TenMinusTwoMinusThreePostfix()
    ensures PostfixOf("10-2-3") == Ok("10 2 - 3 -")
  {
    TenMinusTwoMinusThreeShape();
    TenMinusTwoMinusThreeTokens();
    Converts(TenMinusTwoMinusThreeTree(), "10-2-3", "10 2 - 3 -");
  }

  function EightOverTwoOverTwoTree(): Expr {
    Bin('/', Bin('/', Num("8"), Num("2")), Num("2"))
  }

  lemma EightOverTwoOverTwoShape()
    ensures WellFormed(EightOverTwoOverTwoTree())
    ensures Render(EightOverTwoOverTwoTree()) == "8/2/2"
  {
    Numeral("8"); Numeral("2");
  }

  lemma EightOverTwoOverTwoValue()
    ensures Value(EightOverTwoOverTwoTree()) == Ok(2.0)
  {
    Numeral("8"); Numeral("2");
  }

  lemma EightOverTwoOverTwo()
    ensures EvaluateExpression("8/2/2") == Ok(2.0)
  {
    EightOverTwoOverTwoShape();
    EightOverTwoOverTwoValue();
    Evaluates(EightOverTwoOverTwoTree(), "8/2/2", Ok(2.0));
  }

  function GroupedSumTimesThreeTree(): Expr {
    Bin('*', Group(Bin('+', Num("1"), Num("2"))), Num("3"))
  }

  lemma GroupedSumTimesThreeShape()
    ensures WellFormed(GroupedSumTimesThreeTree())
    ensures Render(GroupedSumTimesThreeTree()) == "(1+2)*3"
  {
    Numeral("1"); Numeral("2"); Numeral("3");
  }

  lemma GroupedSumTimesThreeValue()
    ensures Value(GroupedSumTimesThreeTree()) == Ok(9.0)
  {
    Numeral("1"); Numeral("2"); Numeral("3");
  }

  lemma GroupedSumTimesThree()
    ensures EvaluateExpression("(1+2)*3") == Ok(9.0)
  {
    GroupedSumTimesThreeShape();
    GroupedSumTimesThreeValue();
    Evaluates(GroupedSumTimesThreeTree(), "(1+2)*3", Ok(9.0));
  }

  function DecimalSumTree(): Expr {
    Bin('+', Num("1.5"), Num("2.5"))
  }

  lemma DecimalSumShape()
    ensures WellFormed(DecimalSumTree())
    ensures Render(DecimalSumTree()) == "1.5+2.5"
  {
    Decimal("1.5"); Decimal("2.5");
  }

  lemma DecimalSumValue()
    ensures Value(DecimalSumTree()) == Ok(4.0)
  {
    Decimal("1.5"); Decimal("2.5");
  }

  lemma DecimalSum()
    ensures EvaluateExpression("1.5+2.5") == Ok(4.0)
  {
    DecimalSumShape();
    DecimalSumValue();
    Evaluates(DecimalSumTree(), "1.5+2.5", Ok(4.0));
  }

  function FiveOverZeroTree(): Expr {
    Bin('/', Num("5"), Num("0"))
  }

  lemma FiveOverZeroShape()
    ensures WellFormed(FiveOverZeroTree())
    ensures Render(FiveOverZeroTree()) == "5/0"
    ensures Value(FiveOverZeroTree()) == Err(DivisionByZero)
  {
    Numeral("5"); Numeral("0");
  }

  lemma FiveOverZero()
    ensures EvaluateExpression("5/0") == Err(DivisionByZero)
  {
    FiveOverZeroShape();
    Evaluates(FiveOverZeroTree(), "5/0", Err(DivisionByZero));
  }

  // ---------------------------------------------------------------- rejected input

  /** A character outside the alphabet after a number and an operator stops the scan. */
  lemma ForeignAfterOperator(a: string, o: char, x: char)
    requires |a| > 0 && AllDigits(a) && IsOperator(o) && !IsValidChar(x)
    ensures EvaluateExpression(a + [o] + [x]) == Err(InvalidCharacter)
  {
    NumberThenOperator(a, o);
    ScanOne(Shunt([o], a + [' ']), x);
    ScanFromAppend(Shunt([], []), a + [o], [x]);
  }

  lemma ForeignLetter()
    ensures EvaluateExpression("1+a") == Err(InvalidCharacter)
  {
    ForeignAfterOperator("1", '+', 'a');
    assert "1" + ['+'] + ['a'] == "1+a";
  }

  lemma UnclosedParenthesis()
    ensures EvaluateExpression("(1+2") == Err(MismatchedParentheses)
  {
    var s := "(1+2";
    forall i | 0 <= i < |s| ensures IsValidChar(s[i]) {
      assert i == 0 || i == 1 || i == 2 || i == 3;
    }
    assert s[..3] == "(1+" && "(1+"[..2] == "(1" && "(1"[..1] == "(" && "("[..0] == [];
    assert Depth(s) == 1;
  }

  lemma UnopenedParenthesis()
    ensures EvaluateExpression("1+2)") == Err(MismatchedParentheses)
  {
    var s := "1+2)";
    forall i | 0 <= i < |s| ensures IsValidChar(s[i]) {
      assert i == 0 || i == 1 || i == 2 || i == 3;
    }
    assert s[..3] == "1+2" && "1+2"[..2] == "1+" && "1+"[..1] == "1" && "1"[..0] == [];
    assert Depth(s) == -1;
  }

  lemma EmptyExpression()
    ensures EvaluateExpression("") == Err(InvalidPostfixExpression)
  {
    assert Balanced("") by { assert ""[..0] == ""; }
    BlankFails("");
  }
}
