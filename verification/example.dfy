/** The expression the example program evaluates, and a few small inputs that
    show how the grammar treats whitespace, minus signs and leftover text. */
module Example {
  import opened Wrappers
  import opened Ast
  import opened Grammar
  import opened Printer
  import opened GrammarFacts

  /** `3 / 1 * (2 + 4)`: division and multiplication chain to the left. */
  const Scaled: Expr := Mul(Div(Literal(3), Literal(1)), Add(Literal(2), Literal(4)))

  /** `14 + 3 / 1 * (2 + 4) + -1`, the expression the example program parses. */
  const Program: Expr := Add(Add(Literal(14), Scaled), Neg(Literal(1)))

  lemma ScaledText()
    ensures NaturalLiterals(Scaled)
    ensures PrintProduct(Scaled) == "3/1*(2+4)"
  {
    assert PrintUnary(Add(Literal(2), Literal(4))) == "(2+4)";
  }

  lemma ProgramText()
    ensures NaturalLiterals(Program)
    ensures PrintSum(Program) == "14+3/1*(2+4)+-1"
  {
    ScaledText();
    assert DecimalString(14) == "14";
  }

  /** The program's expression, written without blanks, parses to the tree
      above and uses up the whole text. */
  lemma ProgramParses()
    ensures ParseExpr("14+3/1*(2+4)+-1", 0) == Match(Program, 15)
  {
    ProgramText();
    ExprRoundTrip(Program);
  }

  /** ... and evaluates to 31. */
  lemma ProgramValue()
    ensures Eval(Program) == Some(31)
  {
  }

  /** The input of the example program, with its blanks. */
  const Input: string := "14 + 3 / 1 * (2 + 4) + -1"

  /** A number operand followed by blanks. */
  lemma SpacedNumber(s: string, n: nat, i: nat, k: nat)
    requires At(s, i, DecimalString(n))
    requires i + |DecimalString(n)| <= k <= |s|
    requires forall m :: i + |DecimalString(n)| <= m < k ==> s[m] == ' '
    requires OperandEnds(s, k)
    ensures ParseUnary(s, i) == Match(Literal(n), k)
  {
    PaddedNumber(n, s, i, k);
    UnaryAtomStep(s, i);
  }

  /** `s` is the example program's input, stated one character at a time;
      stating the input this way keeps the proofs below from evaluating the
      parser on the literal text. */
  predicate InputText(s: string)
  {
    && |s| == 25
    && s[0] == '1' && s[1] == '4' && s[2] == ' ' && s[3] == '+' && s[4] == ' '
    && s[5] == '3' && s[6] == ' ' && s[7] == '/' && s[8] == ' ' && s[9] == '1'
    && s[10] == ' ' && s[11] == '*' && s[12] == ' ' && s[13] == '(' && s[14] == '2'
    && s[15] == ' ' && s[16] == '+' && s[17] == ' ' && s[18] == '4' && s[19] == ')'
    && s[20] == ' ' && s[21] == '+' && s[22] == ' ' && s[23] == '-' && s[24] == '1'
  }

  lemma InputChars()
    ensures InputText(Input)
  {
    assert Input == "14 + " + "3 / 1" + " * (2" + " + 4)" + " + -1";
  }

  lemma Operand14(s: string)
    requires InputText(s)
    ensures ParseUnary(s, 0) == Match(Literal(14), 3)
  {
    assert DecimalString(14) == "14";
    SpacedNumber(s, 14, 0, 3);
  }

  lemma Operand3(s: string)
    requires InputText(s)
    ensures ParseUnary(s, 5) == Match(Literal(3), 7)
  {
    SpacedNumber(s, 3, 5, 7);
  }

  lemma Operand1(s: string)
    requires InputText(s)
    ensures ParseUnary(s, 9) == Match(Literal(1), 11)
  {
    SpacedNumber(s, 1, 9, 11);
  }

  lemma Operand2(s: string)
    requires InputText(s)
    ensures ParseUnary(s, 14) == Match(Literal(2), 16)
  {
    SpacedNumber(s, 2, 14, 16);
  }

  lemma Operand4(s: string)
    requires InputText(s)
    ensures ParseUnary(s, 18) == Match(Literal(4), 19)
  {
    SpacedNumber(s, 4, 18, 19);
  }

  /** `2 + 4`, inside the parentheses. */
  lemma InnerSum(s: string)
    requires InputText(s)
    ensures ParseExpr(s, 14) == Match(Add(Literal(2), Literal(4)), 19)
  {
    Operand2(s);
    Operand4(s);
    ProductStepsStop(s, 16);
    ProductSeed(s, 14, Literal(2), 16, [], 16);
    ProductStepsStop(s, 19);
    ProductSeed(s, 18, Literal(4), 19, [], 19);
    PadStopsAt(s, 17, 18);
    SumStepsStop(s, 19);
    SumStepsCons(Plus, s, 16, Literal(4), 19, [], 19);
    SumSeed(s, 14, Literal(2), 16, [Step(Plus, Literal(4))], 19);
    ExprWithoutSpaces(s, 14);
  }

  /** `(2 + 4)`, with the blank after it. */
  lemma ParenOperand(s: string)
    requires InputText(s)
    ensures ParseUnary(s, 13) == Match(Add(Literal(2), Literal(4)), 21)
  {
    InnerSum(s);
    ParenAtom(s, 13, Add(Literal(2), Literal(4)), 19);
    PadStopsAt(s, 20, 21);
    UnaryAtomStep(s, 13);
  }

  /** `-1`, the last operand. */
  lemma NegatedOperand(s: string)
    requires InputText(s)
    ensures ParseUnary(s, 23) == Match(Neg(Literal(1)), 25)
  {
    SpacedNumber(s, 1, 24, 25);
    PadStopsAt(s, 24, 24);
    UnaryMinusStep(s, 23);
  }

  /** `3 / 1 * (2 + 4)`. */
  lemma MiddleProduct(s: string)
    requires InputText(s)
    ensures ParseProduct(s, 5) == Match(Scaled, 21)
  {
    Operand3(s);
    Operand1(s);
    ParenOperand(s);
    ProductStepsStop(s, 21);
    PadStopsAt(s, 12, 13);
    ProductStepsCons(Times, s, 11, Add(Literal(2), Literal(4)), 21, [], 21);
    PadStopsAt(s, 8, 9);
    ProductStepsCons(Slash, s, 7, Literal(1), 11, [Step(Times, Add(Literal(2), Literal(4)))], 21);
    ProductSeed(s, 5, Literal(3), 7, [Step(Slash, Literal(1)), Step(Times, Add(Literal(2), Literal(4)))], 21);
    FoldLeftThree(Literal(3), Slash, Literal(1), Times, Add(Literal(2), Literal(4)));
  }

  /** The products `14` and `-1` at the ends of the input. */
  lemma OuterProducts(s: string)
    requires InputText(s)
    ensures ParseProduct(s, 0) == Match(Literal(14), 3)
    ensures ParseProduct(s, 23) == Match(Neg(Literal(1)), 25)
  {
    Operand14(s);
    NegatedOperand(s);
    ProductStepsStop(s, 3);
    ProductSeed(s, 0, Literal(14), 3, [], 3);
    ProductStepsStop(s, 25);
    ProductSeed(s, 23, Neg(Literal(1)), 25, [], 25);
  }

  /** `+ 3 / 1 * (2 + 4) + -1`: the suffix list of the outer sum. */
  lemma OuterSteps(s: string)
    requires InputText(s)
    ensures SumSteps(s, 3) == Chain([Step(Plus, Scaled), Step(Plus, Neg(Literal(1)))], 25)
  {
    MiddleProduct(s);
    OuterProducts(s);
    SumStepsStop(s, 25);
    PadStopsAt(s, 22, 23);
    SumStepsCons(Plus, s, 21, Neg(Literal(1)), 25, [], 25);
    PadStopsAt(s, 4, 5);
    SumStepsCons(Plus, s, 3, Scaled, 21, [Step(Plus, Neg(Literal(1)))], 25);
  }

  /** The example program's input parses, as a whole, to the program's
      expression. */
  lemma InputParses(s: string)
    requires InputText(s)
    ensures ParseExpr(s, 0) == Match(Program, |s|)
  {
    OuterProducts(s);
    OuterSteps(s);
    SumSeed(s, 0, Literal(14), 3, [Step(Plus, Scaled), Step(Plus, Neg(Literal(1)))], 25);
    FoldLeftThree(Literal(14), Plus, Scaled, Plus, Neg(Literal(1)));
    ExprWithoutSpaces(s, 0);
  }

  /** The program's assertion: the input parses, to its end, and the tree
      evaluates to 31. */
  lemma InputEvaluates()
    ensures var r := ParseExpr(Input, 0);
            r.Match? && r.next == |Input| && Eval(r.tree) == Some(31)
  {
    InputChars();
    InputParses(Input);
    ProgramValue();
  }

  /** `*` binds tighter than `+`. */
  lemma Precedence()
    ensures ParseExpr("1+2*3", 0) == Match(Add(Literal(1), Mul(Literal(2), Literal(3))), 5)
  {
    var e := Add(Literal(1), Mul(Literal(2), Literal(3)));
    assert PrintSum(e) == "1+2*3";
    ExprRoundTrip(e);
  }

  /** `-` associates to the left. */
  lemma LeftAssociative()
    ensures ParseExpr("8-4-2", 0) == Match(Sub(Sub(Literal(8), Literal(4)), Literal(2)), 5)
  {
    var e := Sub(Sub(Literal(8), Literal(4)), Literal(2));
    assert PrintSum(e) == "8-4-2";
    ExprRoundTrip(e);
  }

  /** Parentheses regroup without leaving a node of their own. */
  lemma Regrouped()
    ensures ParseExpr("8-(4-2)", 0) == Match(Sub(Literal(8), Sub(Literal(4), Literal(2))), 7)
  {
    var e := Sub(Literal(8), Sub(Literal(4), Literal(2)));
    assert PrintSum(e) == "8-(4-2)";
    ExprRoundTrip(e);
  }

  /** `s` is ` 1 + 1 `. */
  predicate SpacedSumText(s: string)
  {
    |s| == 7 && s[0] == ' ' && s[1] == '1' && s[2] == ' ' && s[3] == '+' && s[4] == ' ' && s[5] == '1' && s[6] == ' '
  }

  lemma SpacedSum(s: string)
    requires SpacedSumText(s)
    ensures ParseExpr(s, 0) == Match(Add(Literal(1), Literal(1)), 7)
  {
    SpacedNumber(s, 1, 1, 3);
    SpacedNumber(s, 1, 5, 7);
    ProductStepsStop(s, 3);
    ProductSeed(s, 1, Literal(1), 3, [], 3);
    ProductStepsStop(s, 7);
    ProductSeed(s, 5, Literal(1), 7, [], 7);
    SumStepsStop(s, 7);
    PadStopsAt(s, 4, 5);
    SumStepsCons(Plus, s, 3, Literal(1), 7, [], 7);
    SumSeed(s, 1, Literal(1), 3, [Step(Plus, Literal(1))], 7);
    assert SkipSpaces(s, 0) == 1;
  }

  /** Blanks around the tokens do not change the tree: ` 1 + 1 ` and `1+1`
      parse to the same sum, each to its end. */
  lemma SpacingIrrelevant(s: string)
    requires SpacedSumText(s)
    ensures ParseExpr(s, 0).Match? && ParseExpr(s, 0).next == |s|
    ensures ParseExpr("1+1", 0) == Match(ParseExpr(s, 0).tree, 3)
  {
    SpacedSum(s);
    var e := Add(Literal(1), Literal(1));
    assert PrintSum(e) == "1+1";
    ExprRoundTrip(e);
  }

  /** A number absorbs the whitespace after it, tabs included. */
  lemma NumberPadding()
    ensures ParseAtom("7 \t", 0) == Match(Literal(7), 3)
  {
  }

  /** Whitespace may separate the minus signs of a unary operand: `- -7`
      is `Neg(Neg(7))`. */
  lemma SpacedMinuses(s: string)
    requires |s| == 4 && s[0] == '-' && s[1] == ' ' && s[2] == '-' && s[3] == '7'
    ensures ParseUnary(s, 0) == Match(Neg(Neg(Literal(7))), 4)
  {
    SpacedNumber(s, 7, 3, 4);
    PadStopsAt(s, 3, 3);
    UnaryMinusStep(s, 2);
    PadStopsAt(s, 1, 2);
    UnaryMinusStep(s, 0);
  }

  /** Leading spaces are skipped before the first operand. */
  lemma LeadingSpaces()
    ensures ParseExpr("  8", 0) == Match(Literal(8), 3)
  {
  }

  /** A dangling operator is not consumed: the sum stops after `1`. */
  lemma DanglingOperator()
    ensures ParseExpr("1+", 0) == Match(Literal(1), 1)
  {
  }

  /** Text that does not start with an operand is not an expression. */
  lemma NoOperand()
    ensures ParseExpr(")", 0) == NoMatch
  {
  }

  /** Division truncates toward zero; the remainder follows the dividend. */
  lemma NegativeDivision()
    ensures Eval(Div(Neg(Literal(7)), Literal(2))) == Some(-3)
    ensures Eval(Rem(Neg(Literal(7)), Literal(2))) == Some(-1)
  {
  }

  /** A zero divisor has no value. */
  lemma ZeroDivisor()
    ensures Eval(Div(Literal(1), Literal(0))) == None
    ensures Eval(Rem(Literal(1), Literal(0))) == None
  {
  }
}
