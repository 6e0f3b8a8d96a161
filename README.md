# Calculator-Application in Dafny

This project models the expression evaluator of `Calculator.java`. The evaluator reads an
infix arithmetic expression over decimal numbers, the four operators `+ - * /` and
parentheses, and works in two stages:

- `infixToPostfix` converts the expression to postfix text with the shunting-yard
  algorithm. It uses an operator stack and a string buffer.
- `evaluatePostfix` splits that text into white-space separated tokens with a `Scanner`
  and evaluates it on a stack of values.

`evaluateExpression` runs one stage after the other. Every failure aborts the evaluation
with an error. The error is modelled as a constructor of `Outcome.Error`:

- `InvalidCharacter`
- `MismatchedParentheses`
- `InvalidToken`
- `InvalidPostfixExpression`
- `DivisionByZero`
- `InvalidOperator`

The project has these modules:

- `Outcome`: the error kinds and the `Result`/`Option` wrappers.
- `Symbols`: `isOperator`, `precedence` and the character classes.
- `Conversion`: the converter. Each scan step is a function, and the scan is a left fold
  `ScanFrom` over the input characters. The final loop is `Drain`, and the whole
  conversion is `PostfixOf`. The imperative method `InfixToPostfix` keeps the loops of the
  source, with the operator stack and the buffer as local sequences (top = last element).
  It is proved equal to `PostfixOf`.
- `ConversionProofs`: what the conversion guarantees.
  - When it succeeds and when it fails, and with which error.
  - The shape of the operator stack.
  - The output keeps the digits in order and each operator once, and has no parentheses.
- `Evaluation`: the evaluator.
  - `Tokens` models the Scanner's tokenizer and `ParseNumber` its reading of a double.
  - `Push` is one loop iteration, and `Run` is the left fold over the tokens.
  - `ValueOf` is the value `evaluatePostfix` returns.
  - The method `EvaluatePostfix` keeps the source's loop, with the value stack as a local
    sequence, and is proved equal to `ValueOf`.
- `EvaluationProofs`: the tokenizer round trip, which tokens are numbers, the operator
  step and the failure cases.
- `Calculator`: `evaluateExpression`.
- `Grammar`: expression trees (numerals, groups and binary operators, with no more
  parentheses than a group supplies).
  - The main theorem: for every well-formed tree, converting and evaluating its text gives
    the tree's value in exact arithmetic, evaluated left to right with the usual
    precedence.
  - The postfix text is the tree's postfix tokens, separated by single spaces.
- `Cases`: the worked examples and the quirks of the source.
  - The quirks are first proved as general lemmas over arbitrary numerals and operators,
    then instantiated.

## Model

| member | source | states |
|---|---|---|
| Symbols.Precedence | Calculator.java:135-146 | `+` and `-` have precedence 1, `*` and `/` have 2, and anything else has -1. The result is positive exactly for the four operators. |
| Symbols.PrecedenceOrder | Calculator.java:135-146 | Multiplicative operators bind strictly tighter than additive ones. Every operator is in one of the two groups. |
| Conversion.PopAtLeast | Calculator.java:52-54 | The pop loop before an operator keeps a prefix of the stack whose top binds less tightly than p. Every removed entry binds at least as tightly as p. The output only grows. |
| Conversion.PopToParen | Calculator.java:42-44 | The pop loop on `)` keeps a prefix of the stack that is empty or has `(` on top. No removed entry is a `(`. The output only grows. |
| Conversion.ScanErrorPersists | Calculator.java:33-60 | Once a prefix of the input throws, the whole scan throws the same error, because the exception aborts the loop. |
| Conversion.InfixToPostfix | Calculator.java:28-72 | The imperative converter, with its three loops, returns exactly `PostfixOf(expression)`: the postfix text or the error. |
| ConversionProofs.StepTracks | Calculator.java:33-60 | One scan step succeeds iff the character is valid and, for `)`, a `(` is open. It fails with InvalidCharacter iff the character is invalid, and with MismatchedParentheses iff it is a `)` with no open `(`. Otherwise it keeps the invariant that ties the state to the scanned prefix (`Tracks`). |
| ConversionProofs.ScanTracks | Calculator.java:33-60 | The scan succeeds iff every character is valid and no `)` closes more than was opened. Its only errors are InvalidCharacter and MismatchedParentheses. On success the stack is well shaped and its `(` count equals the input's open depth. The output then holds the input's digits and `.` in order, and every operator of the input is either written or still stacked. |
| ConversionProofs.ScanErrors | Calculator.java:45-47 | The scan throws InvalidCharacter iff some invalid character follows a sound prefix. It throws MismatchedParentheses iff some `)` follows a sound prefix with no open `(`. |
| ConversionProofs.ScanInvalid | Calculator.java:57-59 | The InvalidCharacter half of `ScanErrors`. |
| ConversionProofs.ScanMismatched | Calculator.java:45-47 | The MismatchedParentheses half of `ScanErrors`. |
| ConversionProofs.DrainSucceedsIff | Calculator.java:63-69 | On a well-shaped stack the final loop succeeds iff no `(` is left. It can only fail with MismatchedParentheses. |
| ConversionProofs.DrainMoves | Calculator.java:63-69 | A successful final loop adds no number character and appends exactly the stacked operators. It keeps the postfix alphabet. |
| ConversionProofs.PostfixSucceedsIff | Calculator.java:28-72 | Conversion succeeds iff every character is valid and the parentheses balance. Its only errors are InvalidCharacter and MismatchedParentheses. |
| ConversionProofs.RejectsForeignCharacter | Calculator.java:57-59 | Any character outside digits, `.`, operators and parentheses makes conversion fail. A space is such a character. |
| ConversionProofs.InvalidCharacterIff | Calculator.java:57-59 | Conversion fails with InvalidCharacter iff an invalid character occurs before any unmatched `)`. |
| ConversionProofs.MismatchedIffUnbalanced | Calculator.java:40-47 | On valid characters the only failure is MismatchedParentheses, and it happens iff the parentheses do not balance. |
| ConversionProofs.ScanKeepsStackShape | Calculator.java:62-69 | After a scan, no `)` is ever on the stack, so the `)` test of the final loop is dead. Between two `(` marks the operators rise strictly in precedence. The number of stacked `(` is the input's open depth. |
| ConversionProofs.PostfixOutput | Calculator.java:28-72 | Successful output holds only digits, `.`, operators and spaces, so it has no parenthesis. Its digits and `.` are those of the input, in order. Its operators are those of the input, each exactly once (as multisets). |
| ConversionProofs.PushKeepsWellStacked | Calculator.java:52-56 | Popping by precedence and then pushing the operator keeps the stack well shaped. |
| Evaluation.TokenEnd | Calculator.java:79-85 | The Scanner's token is the longest run of non-space characters. |
| Evaluation.Tokens | Calculator.java:77-85 | Every token the Scanner yields is non-empty and holds no white space. |
| Evaluation.Apply | Calculator.java:95-113 | The switch fails with InvalidOperator iff the character is not an operator. It fails with DivisionByZero iff it is `/` with b == 0. Otherwise it succeeds. |
| Evaluation.Push | Calculator.java:80-116 | One iteration fails only with InvalidToken, InvalidPostfixExpression or DivisionByZero. |
| Evaluation.Run | Calculator.java:79-118 | The loop fails only with InvalidToken, InvalidPostfixExpression or DivisionByZero. InvalidOperator never escapes it. |
| Evaluation.ValueOf | Calculator.java:75-127 | Evaluation fails only with InvalidToken, InvalidPostfixExpression or DivisionByZero. |
| Evaluation.RunErrorPersists | Calculator.java:79-118 | Once a prefix of the tokens throws, the whole loop throws the same error. |
| Evaluation.EvaluatePostfix | Calculator.java:75-127 | The imperative evaluator, popping b then a, returns exactly `ValueOf(postfix)`. |
| EvaluationProofs.TokensOfJoin | Calculator.java:77-85 | Tokens written one space apart are split back into the same tokens. |
| EvaluationProofs.TokensCoverText | Calculator.java:77-85 | The tokenizer drops the white space and nothing else. |
| EvaluationProofs.BlankHasNoTokens | Calculator.java:79 | Text made only of white space yields no token. |
| EvaluationProofs.ParseUnsignedIff | Calculator.java:80-82 | An unsigned token reads as a number iff it is digits with at most one `.` and at least one digit. |
| EvaluationProofs.ParseNumberIff | Calculator.java:80-82 | A token reads as a number iff it is an optional sign followed by such a numeral. |
| EvaluationProofs.ParseDigits | Calculator.java:80-82 | A run of digits reads as the natural number it spells. |
| EvaluationProofs.OperatorToken | Calculator.java:80-87 | A one-character operator token is not read as a number, so the loop treats it as an operator. |
| EvaluationProofs.OperatorStep | Calculator.java:86-113 | An operator needs two values and fails otherwise. It fails with DivisionByZero iff it is `/` and the top value is 0. On success the stack shrinks by one, the values below the two operands are unchanged, and the new top is a op b (b is the old top). |
| EvaluationProofs.NumberStep | Calculator.java:80-82 | A number token is pushed on top of the stack. |
| EvaluationProofs.RunHeight | Calculator.java:79-118 | After a successful loop no token was junk, and the stack holds one value per number minus one per operator. |
| EvaluationProofs.JunkFails | Calculator.java:114-116 | A token that is neither a number nor a one-character operator makes the loop fail. |
| EvaluationProofs.ValueOfShape | Calculator.java:120-126 | Evaluation succeeds only when exactly one value is left, which is the result. The text then has exactly one more number than operators and no stray token. |
| EvaluationProofs.BlankFails | Calculator.java:120-124 | Blank text, the empty text included, fails with InvalidPostfixExpression. |
| Calculator.EvaluateExpression | Calculator.java:23-25 | A result needs valid characters and balanced parentheses. InvalidCharacter is returned iff an invalid character comes before any unmatched `)`. Valid but unbalanced input gives MismatchedParentheses. Valid balanced input gives the evaluator's verdict on the postfix text. |
| Grammar.PendingShape | Calculator.java:52-56 | The operators a well-formed subexpression leaves stacked bind at least as tightly as its root. |
| Grammar.PopPending | Calculator.java:52-54 | The pop loop before an operator writes exactly the entries that bind at least as tightly, top first, and stops at the first that binds less tightly. |
| Grammar.CloseOnPending | Calculator.java:42-47 | The pop loop on `)` writes the operators above the matching `(` and removes the `(`. |
| Grammar.DrainPending | Calculator.java:63-69 | The final loop writes the stacked operators top first. |
| Grammar.ScanRender | Calculator.java:33-60 | Scanning a well-formed subexpression above a stack whose top binds less tightly leaves the stack plus its pending operators. It writes what the subexpression emits. |
| Grammar.PostfixOfRender | Calculator.java:28-72 | The conversion of a well-formed tree's text is the tree's postfix text. |
| Grammar.TextIsJoin | Calculator.java:43-68 | That postfix text is the tree's postfix tokens with a single space between neighbours. |
| Grammar.PostfixOfWellFormed | Calculator.java:28-72 | `infixToPostfix` writes a well-formed expression as its postfix tokens (operands, then operator), one space apart. |
| Grammar.RunPostfix | Calculator.java:79-118 | Running a tree's postfix tokens pushes its value on the stack, or fails with its division by zero. |
| Grammar.EvaluatesWellFormed | Calculator.java:23-25 | For every well-formed expression the calculator returns its value: standard precedence, left associativity, division by zero as the only error. |
| Grammar.OnlyDivisionFails | Calculator.java:106-108 | A well-formed expression fails only by dividing by zero. |
| Cases.TwoPlusThreeTimesFour | Calculator.java:23-25 | `2+3*4` gives 14. |
| Cases.TwoPlusThreeTimesFourPostfix | Calculator.java:28-72 | `2+3*4` converts to `2 3 4 * +`. |
| Cases.TenMinusTwoMinusThree | Calculator.java:23-25 | `10-2-3` gives 5 (left associative). |
| Cases.TenMinusTwoMinusThreePostfix | Calculator.java:52-54 | `10-2-3` converts to `10 2 - 3 -`: an equal precedence pops first. |
| Cases.EightOverTwoOverTwo | Calculator.java:23-25 | `8/2/2` gives 2. |
| Cases.GroupedSumTimesThree | Calculator.java:23-25 | `(1+2)*3` gives 9. |
| Cases.DecimalSum | Calculator.java:23-25 | `1.5+2.5` gives 4. |
| Cases.FiveOverZero | Calculator.java:105-108 | `5/0` fails with DivisionByZero. |
| Cases.AdjacentGroupsGlue | Calculator.java:37-47 | `(a)(b)` converts to the single token ab: no separator is written between the groups. |
| Cases.AdjacentGroups | Calculator.java:23-25 | `(1)(2)` converts to `12` and evaluates to 12. |
| Cases.SignAfterOperatorShape | Calculator.java:48-56 | For a + [o] + [p] + b with p not binding tighter than o, p pops o. The output is a, two spaces, o, a space, b, a space and p. |
| Cases.LonelyOperator | Calculator.java:86-90 | Text made of a number, two spaces and an operator fails with InvalidPostfixExpression: the operator finds one value. |
| Cases.SignAfterOperator | Calculator.java:23-25 | `1+-2` converts to `1  + 2 -` and fails with InvalidPostfixExpression. |
| Cases.GroupThenNumber | Calculator.java:40-47 | A group followed by digits writes its operator after a space, directly before the digits. |
| Cases.SignedToken | Calculator.java:80-82 | `(1+2)3` converts to `1 2 +3`. The Scanner reads `+3` as the number 3, so evaluation ends with three values and fails with InvalidPostfixExpression. |
| Cases.DoubleDot | Calculator.java:34-36 | `1..2` passes conversion unchanged and fails in evaluation with InvalidToken. |
| Cases.DecimalValue | Calculator.java:80-82 | A numeral d.f reads as d + f/10. |
| Cases.ForeignAfterOperator | Calculator.java:57-59 | A number, an operator and then a foreign character fails with InvalidCharacter. |
| Cases.ForeignLetter | Calculator.java:57-59 | `1+a` fails with InvalidCharacter. |
| Cases.UnclosedParenthesis | Calculator.java:63-67 | `(1+2` fails with MismatchedParentheses. |
| Cases.UnopenedParenthesis | Calculator.java:45-47 | `1+2)` fails with MismatchedParentheses. |
| Cases.EmptyExpression | Calculator.java:122-124 | The empty expression fails with InvalidPostfixExpression: no value is left. |

## Left out

- `main`, the console prompt and the printing of the result are not modelled. They are
  I/O around `evaluateExpression`.
- Doubles are modelled as exact `real` numbers. Rounding, overflow to infinity and NaN are
  not modelled. The test `b == 0` is kept as an exact comparison. `-0.0` is not
  distinguished from `0.0`.
- `Scanner.hasNextDouble` / `nextDouble` are modelled by `ParseNumber`. It accepts an
  optional sign, then ASCII digits with at most one `.` and at least one digit.
  - It does not model exponents, hexadecimal floats, `NaN` or `Infinity`. The converter
    never writes such tokens.
  - A leading sign is modelled. The converter can itself emit a signed token such as
    `+3` (`Cases.SignedToken`).
- `new Scanner(postfix)` reads numbers in the default format locale. The model assumes a
  locale whose decimal separator is `.` and in which `.` is not a grouping separator
  (for example `Locale.US`). Under a locale such as German, `.` is the grouping
  separator: `1.5` is then not a number and evaluation fails with InvalidToken, while
  `1.234` reads as 1234. The model does not capture these locales.
- The Scanner's white space is modelled as the ASCII white-space characters. Unicode
  spaces are left out, and the converter rejects every space anyway.
- `Character.isDigit` is modelled as the ASCII digits `0`-`9`. Other Unicode digits are
  left out. In the source the converter copies them and the Scanner reads them, so `٣+٤`
  evaluates to 7.0 there. The model rejects it with InvalidCharacter.
- Exception messages are modelled as the constructors of `Outcome.Error`. The message
  text is left out.
- `java.util.Stack` and `StringBuilder` are modelled as local sequences. The top of a stack
  is the last element.
- `infixToPostfix` writes no separator between `)` and a following number, and none
  between two adjacent groups. So the postfix text is not always a sequence of separated
  tokens, and the model follows the code (`Cases.AdjacentGroups`, `Cases.SignedToken`).
- The `default` branch of the switch (InvalidOperator) is modelled in `Apply`. `Push`
  only reaches `Apply` with one of the four operators, so `Evaluation.Run` proves that
  InvalidOperator never comes out of the loop.
- Converting and evaluating the same expression twice gives the same result because
  `EvaluateExpression` is a function. No separate lemma states this.
