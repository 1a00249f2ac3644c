/** A printer for expression trees that writes the fewest parentheses the
    grammar needs: an operand is parenthesised only when its operator binds
    more loosely than the position it sits in, or when it is the right operand
    of an operator of its own precedence level. It is the reference that the
    parser is checked against: parsing a printed tree gives the tree back. */
module Printer {
  import opened Ast
  import opened Grammar

  function DigitChar(d: nat): (c: char)
    requires d < 10
    ensures IsDigit(c) && DigitValue(c) == d
  {
    ('0' as int + d) as char
  }

  /** The decimal numeral of `n`, without leading zeros. Reading it back gives
      `n`. */
  function DecimalString(n: nat): (ds: seq<char>)
    ensures |ds| > 0
    ensures AllDigits(ds)
    ensures DecimalValue(ds) == n
    decreases n
  {
    if n < 10 then [DigitChar(n)]
    else
      var ds := DecimalString(n / 10) + [DigitChar(n % 10)];
      assert ds[..|ds| - 1] == DecimalString(n / 10);
      ds
  }

  /** Conversely, a numeral without a leading zero is the decimal numeral of
      its own value. */
  lemma {:induction false} DecimalStringCanonical(ds: seq<char>)
    requires |ds| > 0 && AllDigits(ds)
    requires |ds| == 1 || ds[0] != '0'
    ensures DecimalString(DecimalValue(ds)) == ds
    decreases |ds|
  {
    var d := DigitValue(ds[|ds| - 1]);
    if |ds| == 1 {
      assert DigitChar(d) == ds[0];
    } else {
      var p := ds[..|ds| - 1];
      DecimalPositive(p);
      DecimalStringCanonical(p);
      assert DigitChar(d) == ds[|ds| - 1];
      assert ds == p + [ds[|ds| - 1]];
    }
  }

  /** The precedence levels of the grammar, loosest first. */
  datatype Level = SumLevel | ProductLevel | UnaryLevel

  /** Orders the calls between the three printers (and the proofs that follow
      them) that stay on the same tree: a sum-level tree passes from the
      product printer to the unary printer to the sum printer, a product-level
      tree from the unary printer to the sum printer to the product printer,
      and a unary-level tree from the sum printer down to the unary printer.
      The gaps between the ranks leave room for the proofs' intermediate
      steps. */
  function Rank(level: Level, e: Expr): nat
  {
    match e
    case Add(_, _) => (match level case ProductLevel => 4 case UnaryLevel => 2 case SumLevel => 0)
    case Sub(_, _) => (match level case ProductLevel => 4 case UnaryLevel => 2 case SumLevel => 0)
    case Mul(_, _) => (match level case UnaryLevel => 4 case SumLevel => 2 case ProductLevel => 0)
    case Div(_, _) => (match level case UnaryLevel => 4 case SumLevel => 2 case ProductLevel => 0)
    case Rem(_, _) => (match level case UnaryLevel => 4 case SumLevel => 2 case ProductLevel => 0)
    case _ => (match level case SumLevel => 4 case ProductLevel => 2 case UnaryLevel => 0)
  }

  /** A printed tree is never empty and starts with a digit, a minus sign or
      an opening parenthesis: never with whitespace. */
  predicate StartsOperand(t: seq<char>)
  {
    |t| > 0 && (IsDigit(t[0]) || t[0] == '-' || t[0] == '(')
  }

  /** Text for a `sum` position: a left-nested chain of `+` and `-`. */
  function PrintSum(e: Expr): (t: seq<char>)
    requires NaturalLiterals(e)
    ensures StartsOperand(t)
    decreases e, Rank(SumLevel, e)
  {
    match e
    case Add(a, b) => PrintSum(a) + "+" + PrintProduct(b)
    case Sub(a, b) => PrintSum(a) + "-" + PrintProduct(b)
    case _ => PrintProduct(e)
  }

  /** Text for a `product` position: a left-nested chain of `*`, `/` and `%`. */
  function PrintProduct(e: Expr): (t: seq<char>)
    requires NaturalLiterals(e)
    ensures StartsOperand(t)
    decreases e, Rank(ProductLevel, e)
  {
    match e
    case Mul(a, b) => PrintProduct(a) + "*" + PrintUnary(b)
    case Div(a, b) => PrintProduct(a) + "/" + PrintUnary(b)
    case Rem(a, b) => PrintProduct(a) + "%" + PrintUnary(b)
    case _ => PrintUnary(e)
  }

  /** Text for a `unary` position: minus signs before a number or a
      parenthesised expression. */
  function PrintUnary(e: Expr): (t: seq<char>)
    requires NaturalLiterals(e)
    ensures StartsOperand(t)
    decreases e, Rank(UnaryLevel, e)
  {
    match e
    case Literal(n) => DecimalString(n)
    case Neg(a) => "-" + PrintUnary(a)
    case _ => "(" + PrintSum(e) + ")"
  }
}
