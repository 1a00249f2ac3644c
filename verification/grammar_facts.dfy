/** Properties of the grammar: the left fold builds left-nested trees, each
    minus sign becomes one `Neg`, and parsing the printed form of any tree
    gives that tree back, which fixes precedence, associativity and the
    absence of parenthesis nodes at once. */
module GrammarFacts {
  import opened Wrappers
  import opened Ast
  import opened Grammar
  import opened Printer

  /** Left associativity of `:>`: the last operator of the chain is the root,
      with the fold of everything before it as its left child and the last
      operand as its right child. */
  lemma {:induction false} FoldLeftSnoc(seed: Expr, steps: seq<Step>, last: Step)
    ensures FoldLeft(seed, steps + [last]) == Reduce(FoldLeft(seed, steps), last)
    decreases |steps|
  {
    if steps == [] {
      assert steps + [last] == [last];
    } else {
      assert (steps + [last])[1..] == steps[1..] + [last];
      FoldLeftSnoc(Reduce(seed, steps[0]), steps[1..], last);
    }
  }

  /** `a op1 b op2 c` folds to `op2(op1(a, b), c)`. */
  lemma FoldLeftThree(a: Expr, op1: Op, b: Expr, op2: Op, c: Expr)
    ensures FoldLeft(a, [Step(op1, b), Step(op2, c)]) == Reduce(Reduce(a, Step(op1, b)), Step(op2, c))
  {
    FoldLeftSnoc(a, [Step(op1, b)], Step(op2, c));
    assert [Step(op1, b)] + [Step(op2, c)] == [Step(op1, b), Step(op2, c)];
  }

  /** Wraps the tree of a successful parse in `k` `Neg` nodes. */
  function WrapNeg(k: nat, r: Outcome): Outcome
  {
    match r
    case NoMatch => NoMatch
    case Match(t, j) => Match(NegN(k, t), j)
  }

  /** `'-'~* & atom <: ...` read one token at a time: a leading minus sign,
      with the whitespace after it, wraps the rest of the unary in one
      `Neg`. */
  lemma UnaryMinusStep(s: seq<char>, i: nat)
    requires i < |s| && s[i] == '-'
    ensures ParseUnary(s, i) == WrapNeg(1, ParseUnary(s, Pad(s, i + 1)))
  {
    var rest := MinusTokens(s, Pad(s, i + 1));
    assert MinusTokens(s, i) == Minuses(rest.count + 1, rest.next);
    match ParseAtom(s, rest.next)
    case NoMatch =>
    case Match(t, k) =>
      assert NegN(1, NegN(rest.count, t)) == NegN(rest.count + 1, t);
  }

  /** Without a leading minus sign, `unary` is `atom`. */
  lemma UnaryAtomStep(s: seq<char>, i: nat)
    requires i <= |s|
    requires i == |s| || s[i] != '-'
    ensures ParseUnary(s, i) == ParseAtom(s, i)
  {
  }

  /** `k` minus signs with nothing between them. */
  function MinusSigns(k: nat): (t: seq<char>)
    ensures |t| == k
  {
    if k == 0 then [] else ['-'] + MinusSigns(k - 1)
  }

  /** One `Neg` per minus sign: `k` minus signs in front of an atom wrap the
      atom's tree in exactly `k` `Neg` nodes, and `unary` fails exactly when
      the atom does. */
  lemma {:induction false} NegPerMinus(k: nat, s: seq<char>, i: nat)
    requires At(s, i, MinusSigns(k))
    requires i + k == |s| || (s[i + k] != '-' && !IsWhitespace(s[i + k]))
    ensures ParseUnary(s, i) == WrapNeg(k, ParseAtom(s, i + k))
    decreases k
  {
    if k == 0 {
      UnaryAtomStep(s, i);
      assert WrapNeg(0, ParseAtom(s, i)) == ParseAtom(s, i);
      assert i + k == i;
    } else {
      assert MinusSigns(k)[1..] == MinusSigns(k - 1);
      if k > 1 {
        AtHead(s, i + 1, MinusSigns(k - 1));
      }
      PadStopsAt(s, i + 1, i + 1);
      UnaryMinusStep(s, i);
      NegPerMinus(k - 1, s, i + 1);
      WrapNegOnce(k - 1, ParseAtom(s, i + k));
      assert ParseUnary(s, i) == WrapNeg(k, ParseAtom(s, i + k));
    }
  }

  /** One `Neg` per minus sign, for any text: `unary` consumes minus signs and
      whitespace only up to its atom, and wraps the atom's tree in as many
      `Neg` nodes as it consumed minus signs. */
  lemma UnaryNegPerMinus(s: seq<char>, i: nat)
    requires i <= |s|
    ensures var m := MinusTokens(s, i);
            && (forall n :: i <= n < m.next ==> s[n] == '-' || IsWhitespace(s[n]))
            && ParseUnary(s, i) == WrapNeg(multiset(s[i..m.next])['-'], ParseAtom(s, m.next))
  {
    MinusTokensCount(s, i);
  }

  /** One more `Neg` around `k` of them is `k + 1` of them. */
  lemma WrapNegOnce(k: nat, r: Outcome)
    ensures WrapNeg(1, WrapNeg(k, r)) == WrapNeg(k + 1, r)
  {
    if r.Match? {
      assert NegN(1, NegN(k, r.tree)) == NegN(k + 1, r.tree);
    }
  }

  /** `k` negations evaluate to the value itself for even `k` and to its
      negation for odd `k`; a panic inside propagates. */
  lemma {:induction false} EvalNegN(k: nat, e: Expr)
    ensures Eval(NegN(k, e)).None? <==> Eval(e).None?
    ensures Eval(e).Some? && k % 2 == 0 ==> Eval(NegN(k, e)) == Eval(e)
    ensures Eval(e).Some? && k % 2 == 1 ==> Eval(NegN(k, e)) == Some(-Eval(e).value)
    decreases k
  {
    if k > 0 {
      EvalNegN(k - 1, e);
    }
  }

  /** The padding after index `j` ends exactly at the first character that is
      not whitespace. */
  lemma {:induction false} PadStopsAt(s: seq<char>, j: nat, k: nat)
    requires j <= k <= |s|
    requires forall m :: j <= m < k ==> IsWhitespace(s[m])
    requires k == |s| || !IsWhitespace(s[k])
    ensures Pad(s, j) == k
    decreases k - j
  {
    if j < k {
      PadStopsAt(s, j + 1, k);
    }
  }

  /** The digit run at `j` ends exactly at the first character that is not a
      digit. */
  lemma {:induction false} DigitRunStopsAt(s: seq<char>, j: nat, k: nat)
    requires j <= k <= |s|
    requires forall m :: j <= m < k ==> IsDigit(s[m])
    requires k == |s| || !IsDigit(s[k])
    ensures DigitRun(s, j) == k
    decreases k - j
  {
    if j < k {
      DigitRunStopsAt(s, j + 1, k);
    }
  }

  /** `t` occurs in `s` at index `i`, stated one character at a time. */
  predicate At(s: seq<char>, i: nat, t: seq<char>)
    decreases |t|
  {
    i + |t| <= |s| && (|t| == 0 || (s[i] == t[0] && At(s, i + 1, t[1..])))
  }

  lemma {:induction false} AtSlice(s: seq<char>, i: nat, t: seq<char>)
    ensures At(s, i, t) <==> i + |t| <= |s| && s[i..i + |t|] == t
    decreases |t|
  {
    if |t| > 0 && i + |t| <= |s| {
      AtSlice(s, i + 1, t[1..]);
      assert s[i..i + |t|] == [s[i]] + s[i + 1..i + |t|];
      assert t == [t[0]] + t[1..];
    }
  }

  lemma AtConcat(s: seq<char>, i: nat, x: seq<char>, y: seq<char>)
    requires At(s, i, x + y)
    ensures At(s, i, x) && At(s, i + |x|, y)
  {
    AtSlice(s, i, x + y);
    assert s[i..i + |x|] == s[i..i + |x + y|][..|x|];
    assert s[i + |x|..i + |x| + |y|] == s[i..i + |x + y|][|x|..];
    AtSlice(s, i, x);
    AtSlice(s, i + |x|, y);
  }

  lemma AtHead(s: seq<char>, i: nat, t: seq<char>)
    requires At(s, i, t) && |t| > 0
    ensures i < |s| && s[i] == t[0]
  {
  }

  /** Printed text starts with neither whitespace nor a space. */
  lemma OperandStart(s: seq<char>, i: nat, t: seq<char>)
    requires At(s, i, t) && StartsOperand(t)
    ensures i < |s| && s[i] == t[0] && !IsWhitespace(s[i]) && s[i] != ' '
  {
    AtHead(s, i, t);
  }

  /** An operand ends at `k`: neither the digit run of `number` nor the
      padding after an atom can continue past it. */
  predicate OperandEnds(s: seq<char>, k: nat)
  {
    k <= |s| && (k == |s| || (!IsDigit(s[k]) && !IsWhitespace(s[k])))
  }

  /** An operator character ends an operand, is not a space, and tells the
      two precedence levels apart. */
  lemma OpCharFacts(op: Op)
    ensures var c := OpChar(op);
            && !IsDigit(c) && !IsWhitespace(c)
            && (IsProductSymbol(c) <==> Multiplicative(op))
            && (IsSumSymbol(c) <==> Additive(op))
  {
  }

  /** `x`, then the character `c`, then `y`, where `x + [c] + y` occurs. */
  lemma AtSplit(s: seq<char>, i: nat, x: seq<char>, c: char, y: seq<char>)
    requires At(s, i, x + [c] + y)
    ensures At(s, i, x) && At(s, i + |x| + 1, y)
    ensures i + |x| < |s| && s[i + |x|] == c
  {
    AtConcat(s, i, x + [c], y);
    AtConcat(s, i, x, [c]);
    AtHead(s, i + |x|, [c]);
  }

  /** The operator of a binary node. */
  function OpOf(e: Expr): (op: Op)
    requires !e.Literal? && !e.Neg?
    ensures Reduce(e.a, Step(op, e.b)) == e
  {
    match e
    case Mul(_, _) => Times
    case Div(_, _) => Slash
    case Rem(_, _) => Percent
    case Add(_, _) => Plus
    case Sub(_, _) => Minus
  }

  /** `OpOf` undoes `Reduce`: the node built for a step carries that step's
      operator and operand. */
  lemma ReduceOpOf(acc: Expr, step: Step)
    ensures OpOf(Reduce(acc, step)) == step.op
    ensures Reduce(acc, step) == Reduce(acc, Step(OpOf(Reduce(acc, step)), step.operand))
  {
  }

  /** The decimal numeral of `n`, where no digit follows, is a `number`
      whose tree is `Literal(n)`. */
  lemma NumeralNumber(n: nat, s: seq<char>, i: nat)
    requires At(s, i, DecimalString(n))
    requires i + |DecimalString(n)| == |s| || !IsDigit(s[i + |DecimalString(n)|])
    ensures ParseNumber(s, i) == Match(Literal(n), i + |DecimalString(n)|)
  {
    var t := DecimalString(n);
    var d := i + |t|;
    AtSlice(s, i, t);
    forall m | i <= m < d
      ensures IsDigit(s[m])
    {
      assert s[m] == s[i..d][m - i];
    }
    DigitRunStopsAt(s, i, d);
  }

  /** The decimal numeral of `n`, followed by whitespace up to `k`, is an
      atom whose tree is `Literal(n)` and which ends at `k`. */
  lemma PaddedNumber(n: nat, s: seq<char>, i: nat, k: nat)
    requires At(s, i, DecimalString(n))
    requires i + |DecimalString(n)| <= k <= |s|
    requires forall m :: i + |DecimalString(n)| <= m < k ==> IsWhitespace(s[m])
    requires OperandEnds(s, k)
    ensures ParseAtom(s, i) == Match(Literal(n), k)
  {
    var d := i + |DecimalString(n)|;
    assert d == |s| || !IsDigit(s[d]);
    NumeralNumber(n, s, i);
    PadStopsAt(s, d, k);
  }

  /** The decimal numeral of `n`, where an operand ends, is an atom whose
      tree is `Literal(n)`. */
  lemma NumberAtom(n: nat, s: seq<char>, i: nat)
    requires At(s, i, DecimalString(n))
    requires OperandEnds(s, i + |DecimalString(n)|)
    ensures ParseAtom(s, i) == Match(Literal(n), i + |DecimalString(n)|)
  {
    PaddedNumber(n, s, i, i + |DecimalString(n)|);
  }

  /** Parentheses leave no node: a parenthesised `expr` is an atom whose tree
      is the inner tree itself. */
  lemma ParenAtom(s: seq<char>, i: nat, e: Expr, k: nat)
    requires i < |s| && s[i] == '('
    requires ParseExpr(s, i + 1) == Match(e, k)
    requires k < |s| && s[k] == ')'
    ensures ParseAtom(s, i) == Match(e, Pad(s, k + 1))
  {
  }

  /** `expr` skips no spaces when none lead, and is then `sum`. */
  lemma ExprWithoutSpaces(s: seq<char>, i: nat)
    requires i <= |s|
    requires i == |s| || s[i] != ' '
    ensures ParseExpr(s, i) == ParseSum(s, i)
  {
  }

  /** `sum`'s suffix list is empty where no `+` or `-` follows. */
  lemma SumStepsStop(s: seq<char>, j: nat)
    requires j <= |s|
    requires j == |s| || !IsSumSymbol(s[j])
    ensures SumSteps(s, j) == Chain([], j)
  {
  }

  /** `product`'s suffix list is empty where no `*`, `/` or `%` follows. */
  lemma ProductStepsStop(s: seq<char>, j: nat)
    requires j <= |s|
    requires j == |s| || !IsProductSymbol(s[j])
    ensures ProductSteps(s, j) == Chain([], j)
  {
  }

  /** A `sum` between parentheses, where an operand ends after them, is a
      unary whose tree is the sum's tree. */
  lemma ParenUnary(s: seq<char>, i: nat, e: Expr, j: nat)
    requires i + 1 < |s| && s[i] == '(' && s[i + 1] != ' '
    requires ParseSum(s, i + 1) == Match(e, j)
    requires j < |s| && s[j] == ')'
    requires OperandEnds(s, j + 1)
    ensures ParseUnary(s, i) == Match(e, j + 1)
  {
    ExprWithoutSpaces(s, i + 1);
    ParenAtom(s, i, e, j);
    PadStopsAt(s, j + 1, j + 1);
    UnaryAtomStep(s, i);
  }

  /** The unary that starts `product` is the seed of its fold. */
  lemma ProductSeed(s: seq<char>, i: nat, e: Expr, k: nat, more: seq<Step>, n: nat)
    requires i <= |s|
    requires ParseUnary(s, i) == Match(e, k)
    requires ProductSteps(s, k) == Chain(more, n)
    ensures ParseProduct(s, i) == Match(FoldLeft(e, more), n)
  {
  }

  /** The product that starts `sum` is the seed of its fold. */
  lemma SumSeed(s: seq<char>, i: nat, e: Expr, k: nat, more: seq<Step>, n: nat)
    requires i <= |s|
    requires ParseProduct(s, i) == Match(e, k)
    requires SumSteps(s, k) == Chain(more, n)
    ensures ParseSum(s, i) == Match(FoldLeft(e, more), n)
  {
  }

  /** A product operator, the whitespace after it, and a unary make one
      element of `product`'s suffix list. */
  lemma ProductStepsCons(op: Op, s: seq<char>, j: nat, b: Expr, k: nat, more: seq<Step>, n: nat)
    requires Multiplicative(op)
    requires j < |s| && s[j] == OpChar(op)
    requires ParseUnary(s, Pad(s, j + 1)) == Match(b, k)
    requires ProductSteps(s, k) == Chain(more, n)
    ensures ProductSteps(s, j) == Chain([Step(op, b)] + more, n)
  {
    assert ProductOp(s, j) == Some(op);
  }

  /** A sum operator, the whitespace after it, and a product make one element
      of `sum`'s suffix list. */
  lemma SumStepsCons(op: Op, s: seq<char>, j: nat, b: Expr, k: nat, more: seq<Step>, n: nat)
    requires Additive(op)
    requires j < |s| && s[j] == OpChar(op)
    requires ParseProduct(s, Pad(s, j + 1)) == Match(b, k)
    requires SumSteps(s, k) == Chain(more, n)
    ensures SumSteps(s, j) == Chain([Step(op, b)] + more, n)
  {
    assert SumOp(s, j) == Some(op);
  }

  /** The same, with no whitespace after the operator. */
  lemma ProductLink(op: Op, s: seq<char>, j: nat, b: Expr, k: nat, more: seq<Step>, n: nat)
    requires Multiplicative(op)
    requires j + 1 < |s| && s[j] == OpChar(op) && !IsWhitespace(s[j + 1])
    requires ParseUnary(s, j + 1) == Match(b, k)
    requires ProductSteps(s, k) == Chain(more, n)
    ensures ProductSteps(s, j) == Chain([Step(op, b)] + more, n)
  {
    PadStopsAt(s, j + 1, j + 1);
    ProductStepsCons(op, s, j, b, k, more, n);
  }

  lemma SumLink(op: Op, s: seq<char>, j: nat, b: Expr, k: nat, more: seq<Step>, n: nat)
    requires Additive(op)
    requires j + 1 < |s| && s[j] == OpChar(op) && !IsWhitespace(s[j + 1])
    requires ParseProduct(s, j + 1) == Match(b, k)
    requires SumSteps(s, k) == Chain(more, n)
    ensures SumSteps(s, j) == Chain([Step(op, b)] + more, n)
  {
    PadStopsAt(s, j + 1, j + 1);
    SumStepsCons(op, s, j, b, k, more, n);
  }

  /** Folding a chain whose first element is `op b` into `a` is folding the
      rest into the node `op(a, b)`. */
  lemma FoldLeftCons(e: Expr, more: seq<Step>)
    requires !e.Literal? && !e.Neg?
    ensures FoldLeft(e.a, [Step(OpOf(e), e.b)] + more) == FoldLeft(e, more)
  {
    assert ([Step(OpOf(e), e.b)] + more)[1..] == more;
  }

  /** A tree that is not a sum prints at sum level as at product level. */
  lemma PrintSumUnit(e: Expr)
    requires !e.Add? && !e.Sub? && NaturalLiterals(e)
    ensures PrintSum(e) == PrintProduct(e)
  {
  }

  /** A tree that is not a product prints at product level as at unary
      level. */
  lemma PrintProductUnit(e: Expr)
    requires !e.Mul? && !e.Div? && !e.Rem? && NaturalLiterals(e)
    ensures PrintProduct(e) == PrintUnary(e)
  {
  }

  /** A printed unary-level tree parses back as `unary`, consuming exactly
      its text. */
  lemma {:induction false} UnaryRoundTrip(e: Expr, s: seq<char>, i: nat)
    requires NaturalLiterals(e)
    requires At(s, i, PrintUnary(e))
    requires OperandEnds(s, i + |PrintUnary(e)|)
    ensures ParseUnary(s, i) == Match(e, i + |PrintUnary(e)|)
    decreases e, Rank(UnaryLevel, e), 2
  {
    if e.Literal? {
      LiteralRoundTrip(e, s, i);
    } else if e.Neg? {
      NegRoundTrip(e, s, i);
    } else {
      ParenRoundTrip(e, s, i);
    }
  }

  lemma LiteralRoundTrip(e: Expr, s: seq<char>, i: nat)
    requires e.Literal? && NaturalLiterals(e)
    requires At(s, i, PrintUnary(e))
    requires OperandEnds(s, i + |PrintUnary(e)|)
    ensures ParseUnary(s, i) == Match(e, i + |PrintUnary(e)|)
  {
    var t := DecimalString(e.n);
    assert PrintUnary(e) == t;
    AtHead(s, i, t);
    NumberAtom(e.n, s, i);
    UnaryAtomStep(s, i);
  }

  lemma {:induction false} NegRoundTrip(e: Expr, s: seq<char>, i: nat)
    requires e.Neg? && NaturalLiterals(e)
    requires At(s, i, PrintUnary(e))
    requires OperandEnds(s, i + |PrintUnary(e)|)
    ensures ParseUnary(s, i) == Match(e, i + |PrintUnary(e)|)
    decreases e, Rank(UnaryLevel, e), 0
  {
    var t := PrintUnary(e.a);
    assert PrintUnary(e) == "-" + t;
    AtConcat(s, i, "-", t);
    AtHead(s, i, "-");
    OperandStart(s, i + 1, t);
    PadStopsAt(s, i + 1, i + 1);
    UnaryRoundTrip(e.a, s, i + 1);
    UnaryMinusStep(s, i);
  }

  /** A binary tree printed between parentheses parses back as `unary` to the
      tree itself: the parentheses leave no node of their own. */
  lemma {:induction false} ParenRoundTrip(e: Expr, s: seq<char>, i: nat)
    requires !e.Literal? && !e.Neg? && NaturalLiterals(e)
    requires At(s, i, PrintUnary(e))
    requires OperandEnds(s, i + |PrintUnary(e)|)
    ensures ParseUnary(s, i) == Match(e, i + |PrintUnary(e)|)
    decreases e, Rank(UnaryLevel, e), 0
  {
    var inner := PrintSum(e);
    var j := i + 1 + |inner|;
    assert PrintUnary(e) == "(" + inner + ")";
    AtConcat(s, i, "(" + inner, ")");
    AtConcat(s, i, "(", inner);
    AtHead(s, i, "(");
    OperandStart(s, i + 1, inner);
    AtHead(s, j, ")");
    SumStepsStop(s, j);
    SumRoundTrip(e, s, i + 1, [], j);
    ParenUnary(s, i, e, j);
  }

  /** A printed product-level tree parses back as the seed of `product`'s
      fold: followed by the text of a suffix list `more`, `product` yields the
      fold of `more` into the tree. */
  lemma {:induction false} ProductRoundTrip(e: Expr, s: seq<char>, i: nat, more: seq<Step>, n: nat)
    requires NaturalLiterals(e)
    requires At(s, i, PrintProduct(e))
    requires OperandEnds(s, i + |PrintProduct(e)|)
    requires ProductSteps(s, i + |PrintProduct(e)|) == Chain(more, n)
    ensures ParseProduct(s, i) == Match(FoldLeft(e, more), n)
    decreases e, Rank(ProductLevel, e), 2
  {
    if e.Mul? || e.Div? || e.Rem? {
      ProductChainRoundTrip(e, s, i, more, n);
    } else {
      ProductUnitRoundTrip(e, s, i, more, n);
    }
  }

  lemma {:induction false} ProductUnitRoundTrip(e: Expr, s: seq<char>, i: nat, more: seq<Step>, n: nat)
    requires !e.Mul? && !e.Div? && !e.Rem? && NaturalLiterals(e)
    requires At(s, i, PrintProduct(e))
    requires OperandEnds(s, i + |PrintProduct(e)|)
    requires ProductSteps(s, i + |PrintProduct(e)|) == Chain(more, n)
    ensures ParseProduct(s, i) == Match(FoldLeft(e, more), n)
    decreases e, Rank(ProductLevel, e), 0
  {
    PrintProductUnit(e);
    var k := i + |PrintProduct(e)|;
    ProductRightOperand(e, s, i, k);
    ProductSeed(s, i, e, k, more, n);
  }

  lemma {:induction false} ProductChainRoundTrip(e: Expr, s: seq<char>, i: nat, more: seq<Step>, n: nat)
    requires (e.Mul? || e.Div? || e.Rem?) && NaturalLiterals(e)
    requires At(s, i, PrintProduct(e))
    requires OperandEnds(s, i + |PrintProduct(e)|)
    requires ProductSteps(s, i + |PrintProduct(e)|) == Chain(more, n)
    ensures ParseProduct(s, i) == Match(FoldLeft(e, more), n)
    decreases e, Rank(ProductLevel, e), 1
  {
    var j := i + |PrintProduct(e.a)|;
    var k := i + |PrintProduct(e)|;
    ProductChainText(e, s, i, j, k);
    ProductRightOperand(e.b, s, j + 1, k);
    ProductChainParse(e, s, i, j, k, more, n);
  }

  /** The right operand of a product chain parses back as `unary`. */
  lemma ProductRightOperand(b: Expr, s: seq<char>, j: nat, k: nat)
    requires NaturalLiterals(b)
    requires At(s, j, PrintUnary(b))
    requires k == j + |PrintUnary(b)|
    requires OperandEnds(s, k)
    ensures ParseUnary(s, j) == Match(b, k)
    decreases b, Rank(UnaryLevel, b), 3
  {
    UnaryRoundTrip(b, s, j);
  }

  /** The text of a product chain: the left operand, the operator character,
      then the right operand, which starts right after the operator. */
  lemma ProductChainText(e: Expr, s: seq<char>, i: nat, j: nat, k: nat)
    requires (e.Mul? || e.Div? || e.Rem?) && NaturalLiterals(e)
    requires At(s, i, PrintProduct(e))
    requires OperandEnds(s, i + |PrintProduct(e)|)
    requires j == i + |PrintProduct(e.a)|
    requires k == i + |PrintProduct(e)|
    ensures NaturalLiterals(e.a) && NaturalLiterals(e.b)
    ensures k == j + 1 + |PrintUnary(e.b)|
    ensures At(s, i, PrintProduct(e.a)) && OperandEnds(s, j)
    ensures j + 1 < |s| && s[j] == OpChar(OpOf(e)) && !IsWhitespace(s[j + 1])
    ensures At(s, j + 1, PrintUnary(e.b))
    ensures OperandEnds(s, k)
  {
    var op := OpOf(e);
    assert PrintProduct(e) == PrintProduct(e.a) + [OpChar(op)] + PrintUnary(e.b);
    AtSplit(s, i, PrintProduct(e.a), OpChar(op), PrintUnary(e.b));
    OpCharFacts(op);
    OperandStart(s, j + 1, PrintUnary(e.b));
  }

  /** The parsing half of `ProductChainRoundTrip`: the left operand's text,
      the operator, and a right operand that `unary` has already parsed. */
  lemma {:induction false} ProductChainParse(e: Expr, s: seq<char>, i: nat, j: nat, k: nat, more: seq<Step>, n: nat)
    requires (e.Mul? || e.Div? || e.Rem?) && NaturalLiterals(e)
    requires j == i + |PrintProduct(e.a)|
    requires At(s, i, PrintProduct(e.a)) && OperandEnds(s, j)
    requires j + 1 < |s| && s[j] == OpChar(OpOf(e)) && !IsWhitespace(s[j + 1])
    requires ParseUnary(s, j + 1) == Match(e.b, k)
    requires ProductSteps(s, k) == Chain(more, n)
    ensures ParseProduct(s, i) == Match(FoldLeft(e, more), n)
    decreases e, Rank(ProductLevel, e), 0
  {
    var op := OpOf(e);
    ProductLink(op, s, j, e.b, k, more, n);
    ProductRoundTrip(e.a, s, i, [Step(op, e.b)] + more, n);
    FoldLeftCons(e, more);
  }

  /** A printed tree parses back as the seed of `sum`'s fold: followed by the
      text of a suffix list `more`, `sum` yields the fold of `more` into the
      tree. */
  lemma {:induction false} SumRoundTrip(e: Expr, s: seq<char>, i: nat, more: seq<Step>, n: nat)
    requires NaturalLiterals(e)
    requires At(s, i, PrintSum(e))
    requires OperandEnds(s, i + |PrintSum(e)|)
    requires i + |PrintSum(e)| == |s| || !IsProductSymbol(s[i + |PrintSum(e)|])
    requires SumSteps(s, i + |PrintSum(e)|) == Chain(more, n)
    ensures ParseSum(s, i) == Match(FoldLeft(e, more), n)
    decreases e, Rank(SumLevel, e), 2
  {
    if e.Add? || e.Sub? {
      SumChainRoundTrip(e, s, i, more, n);
    } else {
      SumUnitRoundTrip(e, s, i, more, n);
    }
  }

  lemma {:induction false} SumUnitRoundTrip(e: Expr, s: seq<char>, i: nat, more: seq<Step>, n: nat)
    requires !e.Add? && !e.Sub? && NaturalLiterals(e)
    requires At(s, i, PrintSum(e))
    requires OperandEnds(s, i + |PrintSum(e)|)
    requires i + |PrintSum(e)| == |s| || !IsProductSymbol(s[i + |PrintSum(e)|])
    requires SumSteps(s, i + |PrintSum(e)|) == Chain(more, n)
    ensures ParseSum(s, i) == Match(FoldLeft(e, more), n)
    decreases e, Rank(SumLevel, e), 0
  {
    PrintSumUnit(e);
    var k := i + |PrintSum(e)|;
    SumRightOperand(e, s, i, k);
    SumSeed(s, i, e, k, more, n);
  }

  lemma {:induction false} SumChainRoundTrip(e: Expr, s: seq<char>, i: nat, more: seq<Step>, n: nat)
    requires (e.Add? || e.Sub?) && NaturalLiterals(e)
    requires At(s, i, PrintSum(e))
    requires OperandEnds(s, i + |PrintSum(e)|)
    requires i + |PrintSum(e)| == |s| || !IsProductSymbol(s[i + |PrintSum(e)|])
    requires SumSteps(s, i + |PrintSum(e)|) == Chain(more, n)
    ensures ParseSum(s, i) == Match(FoldLeft(e, more), n)
    decreases e, Rank(SumLevel, e), 1
  {
    var j := i + |PrintSum(e.a)|;
    var k := i + |PrintSum(e)|;
    SumChainText(e, s, i, j, k);
    SumRightOperand(e.b, s, j + 1, k);
    SumChainParse(e, s, i, j, k, more, n);
  }

  /** The right operand of a sum chain, where no product operator follows,
      parses back as a whole `product`. */
  lemma SumRightOperand(b: Expr, s: seq<char>, j: nat, k: nat)
    requires NaturalLiterals(b)
    requires At(s, j, PrintProduct(b))
    requires k == j + |PrintProduct(b)|
    requires OperandEnds(s, k)
    requires k == |s| || !IsProductSymbol(s[k])
    ensures ParseProduct(s, j) == Match(b, k)
    decreases b, Rank(ProductLevel, b), 3
  {
    ProductStepsStop(s, k);
    ProductRoundTrip(b, s, j, [], k);
  }

  /** The text of a sum chain: the left operand, the operator character, then
      the right operand, which starts right after the operator. */
  lemma SumChainText(e: Expr, s: seq<char>, i: nat, j: nat, k: nat)
    requires (e.Add? || e.Sub?) && NaturalLiterals(e)
    requires At(s, i, PrintSum(e))
    requires OperandEnds(s, i + |PrintSum(e)|)
    requires j == i + |PrintSum(e.a)|
    requires k == i + |PrintSum(e)|
    ensures NaturalLiterals(e.a) && NaturalLiterals(e.b)
    ensures k == j + 1 + |PrintProduct(e.b)|
    ensures At(s, i, PrintSum(e.a)) && OperandEnds(s, j)
    ensures j + 1 < |s| && s[j] == OpChar(OpOf(e)) && !IsWhitespace(s[j + 1])
    ensures !IsProductSymbol(s[j])
    ensures At(s, j + 1, PrintProduct(e.b))
    ensures OperandEnds(s, k)
  {
    var op := OpOf(e);
    assert PrintSum(e) == PrintSum(e.a) + [OpChar(op)] + PrintProduct(e.b);
    AtSplit(s, i, PrintSum(e.a), OpChar(op), PrintProduct(e.b));
    OpCharFacts(op);
    OperandStart(s, j + 1, PrintProduct(e.b));
  }

  /** The parsing half of `SumChainRoundTrip`: the left operand's text, the
      operator, and a right operand that `product` has already parsed. */
  lemma {:induction false} SumChainParse(e: Expr, s: seq<char>, i: nat, j: nat, k: nat, more: seq<Step>, n: nat)
    requires (e.Add? || e.Sub?) && NaturalLiterals(e)
    requires j == i + |PrintSum(e.a)|
    requires At(s, i, PrintSum(e.a)) && OperandEnds(s, j)
    requires j + 1 < |s| && s[j] == OpChar(OpOf(e)) && !IsWhitespace(s[j + 1])
    requires !IsProductSymbol(s[j])
    requires ParseProduct(s, j + 1) == Match(e.b, k)
    requires SumSteps(s, k) == Chain(more, n)
    ensures ParseSum(s, i) == Match(FoldLeft(e, more), n)
    decreases e, Rank(SumLevel, e), 0
  {
    var op := OpOf(e);
    SumLink(op, s, j, e.b, k, more, n);
    SumRoundTrip(e.a, s, i, [Step(op, e.b)] + more, n);
    FoldLeftCons(e, more);
  }

  /** Parsing the printed form of any tree with `expr` consumes the whole
      text and gives the tree back. */
  lemma ExprRoundTrip(e: Expr)
    requires NaturalLiterals(e)
    ensures ParseExpr(PrintSum(e), 0) == Match(e, |PrintSum(e)|)
  {
    var s := PrintSum(e);
    AtSlice(s, 0, s);
    AtHead(s, 0, s);
    ExprWithoutSpaces(s, 0);
    SumStepsStop(s, |s|);
    SumRoundTrip(e, s, 0, [], |s|);
  }
}
