/** The expression tree of the arithmetic example and its evaluator. A node
    owns its children; there is no sharing and no parenthesis node. */
module Ast {
  import opened Wrappers
  import opened RustInt

  /** Literals are `i64` in the program; here they are unbounded. */
  datatype Expr =
    | Literal(n: int)
    | Neg(a: Expr)
    | Mul(a: Expr, b: Expr)
    | Div(a: Expr, b: Expr)
    | Rem(a: Expr, b: Expr)
    | Add(a: Expr, b: Expr)
    | Sub(a: Expr, b: Expr)

  /** True when the tree has no `Div` or `Rem` node, the only nodes whose
      evaluation can panic. */
  predicate DivisionFree(e: Expr)
  {
    match e
    case Literal(_) => true
    case Neg(a) => DivisionFree(a)
    case Mul(a, b) => DivisionFree(a) && DivisionFree(b)
    case Add(a, b) => DivisionFree(a) && DivisionFree(b)
    case Sub(a, b) => DivisionFree(a) && DivisionFree(b)
    case Div(_, _) => false
    case Rem(_, _) => false
  }

  /** True when every literal of the tree is nonnegative. The grammar has no
      signed numbers (a minus sign becomes a `Neg` node), so every tree it
      produces has this shape. */
  predicate NaturalLiterals(e: Expr)
  {
    match e
    case Literal(n) => n >= 0
    case Neg(a) => NaturalLiterals(a)
    case Mul(a, b) => NaturalLiterals(a) && NaturalLiterals(b)
    case Div(a, b) => NaturalLiterals(a) && NaturalLiterals(b)
    case Rem(a, b) => NaturalLiterals(a) && NaturalLiterals(b)
    case Add(a, b) => NaturalLiterals(a) && NaturalLiterals(b)
    case Sub(a, b) => NaturalLiterals(a) && NaturalLiterals(b)
  }

  /** `Expr::eval`. `None` stands for the panic of a division or remainder by
      zero; a tree without such a node always has a value. */
  function Eval(e: Expr): (r: Option<int>)
    ensures DivisionFree(e) ==> r.Some?
  {
    match e
    case Literal(n) => Some(n)
    case Neg(a) =>
      (match Eval(a)
       case Some(x) => Some(-x)
       case None => None)
    case Mul(a, b) =>
      (match (Eval(a), Eval(b))
       case (Some(x), Some(y)) => Some(x * y)
       case _ => None)
    case Div(a, b) =>
      (match (Eval(a), Eval(b))
       case (Some(x), Some(y)) => if y == 0 then None else Some(TruncDiv(x, y))
       case _ => None)
    case Rem(a, b) =>
      (match (Eval(a), Eval(b))
       case (Some(x), Some(y)) => if y == 0 then None else Some(TruncRem(x, y))
       case _ => None)
    case Add(a, b) =>
      (match (Eval(a), Eval(b))
       case (Some(x), Some(y)) => Some(x + y)
       case _ => None)
    case Sub(a, b) =>
      (match (Eval(a), Eval(b))
       case (Some(x), Some(y)) => Some(x - y)
       case _ => None)
  }

  /** A `Div` and a `Rem` over the same operands agree with each other the way
      Rust's operators do: they panic together, exactly when an operand panics
      or the divisor is zero, and otherwise rebuild the dividend. */
  lemma EvalDivRem(a: Expr, b: Expr)
    ensures Eval(Div(a, b)).None? <==> Eval(a).None? || Eval(b).None? || Eval(b) == Some(0)
    ensures Eval(Rem(a, b)).None? <==> Eval(Div(a, b)).None?
    ensures Eval(Div(a, b)).Some? ==>
              Eval(a).value == Eval(Div(a, b)).value * Eval(b).value + Eval(Rem(a, b)).value
    ensures Eval(Rem(a, b)).Some? ==>
              Abs(Eval(Rem(a, b)).value) < Abs(Eval(b).value)
              && (Eval(a).value >= 0 ==> Eval(Rem(a, b)).value >= 0)
              && (Eval(a).value < 0 ==> Eval(Rem(a, b)).value <= 0)
  {
  }
}
