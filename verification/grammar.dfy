/** The arithmetic grammar of the example, one recursive-descent function per
    rule, over a character sequence `s` and a start index `i`.

    The grammar is written with combinator operators from a library that is not
    part of this model. Each is given the plain meaning the grammar relies on:
      - `p~`       runs `p`, then skips any whitespace after it (padding);
      - `p -& q`   runs `p` then `q` and keeps `q`'s value (discard left);
      - `p &- q`   runs `p` then `q` and keeps `p`'s value (discard right);
      - `p | q`    ordered choice: `q` runs, from the same index, only when `p`
                   fails;
      - `p*`, `p+` greedy repetition, zero-or-more and one-or-more; an attempt
                   that fails part-way is discarded and the repetition ends at
                   the index before it;
      - `ps & p <: f`  right fold of `f` over the values of the prefix list `ps`,
                   seeded with `p`'s value;
      - `p & qs :> f`  left fold of `f` over the values of the suffix list `qs`,
                   seeded with `p`'s value.
    A rule that matches returns `Match(tree, next)`, where `next` is the index
    just past what it consumed; a rule that does not match returns
    `NoMatch`. */
module Grammar {
  import opened Wrappers
  import opened Ast

  /** The outcome of a rule that yields a tree. */
  datatype Outcome = NoMatch | Match(tree: Expr, next: nat)

  predicate IsDigit(c: char)
  {
    '0' <= c <= '9'
  }

  /** `char::is_whitespace`: the characters with the Unicode White_Space
      property. */
  predicate IsWhitespace(c: char)
  {
    || c == ' '
    || '\t' <= c <= '\r'
    || c == '\U{85}'
    || c == '\U{A0}'
    || c == '\U{1680}'
    || '\U{2000}' <= c <= '\U{200A}'
    || c == '\U{2028}'
    || c == '\U{2029}'
    || c == '\U{202F}'
    || c == '\U{205F}'
    || c == '\U{3000}'
  }

  function DigitValue(c: char): nat
    requires IsDigit(c)
  {
    (c as int) - ('0' as int)
  }

  predicate AllDigits(ds: seq<char>)
  {
    forall m :: 0 <= m < |ds| ==> IsDigit(ds[m])
  }

  /** The value of a decimal numeral, read left to right (`str::parse` on the
      collected digits; leading zeros are allowed). */
  function DecimalValue(ds: seq<char>): nat
    requires AllDigits(ds)
  {
    if ds == [] then 0 else DecimalValue(ds[..|ds| - 1]) * 10 + DigitValue(ds[|ds| - 1])
  }

  /** A leading zero does not change the value of a numeral. */
  lemma {:induction false} DecimalLeadingZero(ds: seq<char>)
    requires AllDigits(ds)
    ensures AllDigits(['0'] + ds)
    ensures DecimalValue(['0'] + ds) == DecimalValue(ds)
    decreases |ds|
  {
    var zs := ['0'] + ds;
    if ds != [] {
      var p := ds[..|ds| - 1];
      assert zs[..|zs| - 1] == ['0'] + p;
      DecimalLeadingZero(p);
    }
  }

  /** A numeral whose first digit is not `0` has a positive value. */
  lemma {:induction false} DecimalPositive(ds: seq<char>)
    requires |ds| > 0 && AllDigits(ds) && ds[0] != '0'
    ensures DecimalValue(ds) > 0
    decreases |ds|
  {
    if |ds| > 1 {
      DecimalPositive(ds[..|ds| - 1]);
    }
  }

  /** The `~` suffix: the index after the whitespace run that starts at `j`.
      `PadRun` states that the run is whitespace and maximal. */
  function Pad(s: seq<char>, j: nat): (k: nat)
    requires j <= |s|
    ensures j <= k <= |s|
    decreases |s| - j
  {
    if j < |s| && IsWhitespace(s[j]) then Pad(s, j + 1) else j
  }

  lemma {:induction false} PadRun(s: seq<char>, j: nat)
    requires j <= |s|
    ensures forall m :: j <= m < Pad(s, j) ==> IsWhitespace(s[m])
    ensures Pad(s, j) == |s| || !IsWhitespace(s[Pad(s, j)])
    decreases |s| - j
  {
    if j < |s| && IsWhitespace(s[j]) {
      PadRun(s, j + 1);
    }
  }

  /** `' '*` with its values dropped: the index after the spaces at `j`.
      `SkipSpacesRun` states that the run is spaces. */
  function SkipSpaces(s: seq<char>, j: nat): (k: nat)
    requires j <= |s|
    ensures j <= k <= |s|
    ensures k == |s| || s[k] != ' '
    decreases |s| - j
  {
    if j < |s| && s[j] == ' ' then SkipSpaces(s, j + 1) else j
  }

  lemma {:induction false} SkipSpacesRun(s: seq<char>, j: nat)
    requires j <= |s|
    ensures forall m :: j <= m < SkipSpaces(s, j) ==> s[m] == ' '
    decreases |s| - j
  {
    if j < |s| && s[j] == ' ' {
      SkipSpacesRun(s, j + 1);
    }
  }

  /** The end of the run of digits at `j`.
      `DigitRunDigits` states that the run is digits and maximal. */
  function DigitRun(s: seq<char>, j: nat): (k: nat)
    requires j <= |s|
    ensures j <= k <= |s|
    decreases |s| - j
  {
    if j < |s| && IsDigit(s[j]) then DigitRun(s, j + 1) else j
  }

  lemma {:induction false} DigitRunDigits(s: seq<char>, j: nat)
    requires j <= |s|
    ensures AllDigits(s[j..DigitRun(s, j)])
    ensures DigitRun(s, j) == |s| || !IsDigit(s[DigitRun(s, j)])
    decreases |s| - j
  {
    if j < |s| && IsDigit(s[j]) {
      DigitRunDigits(s, j + 1);
      assert s[j..DigitRun(s, j)] == [s[j]] + s[j + 1..DigitRun(s, j)];
    }
  }

  /** The number rule: a nonempty, maximal run of decimal digits, turned into
      a literal carrying its decimal value. */
  function ParseNumber(s: seq<char>, i: nat): (r: Outcome)
    requires i <= |s|
    ensures r.Match? <==> i < |s| && IsDigit(s[i])
    ensures r.Match? ==>
              && i < r.next <= |s|
              && AllDigits(s[i..r.next])
              && (r.next == |s| || !IsDigit(s[r.next]))
              && r.tree == Literal(DecimalValue(s[i..r.next]))
  {
    var k := DigitRun(s, i);
    DigitRunDigits(s, i);
    if k == i then NoMatch else Match(Literal(DecimalValue(s[i..k])), k)
  }

  /** The binary operator tokens. The reducers of `product` and `sum` turn each
      into its node; their `unreachable!()` arms have no counterpart because
      only these five tokens exist. */
  datatype Op = Times | Slash | Percent | Plus | Minus

  /** The character of each operator token. */
  function OpChar(op: Op): char
  {
    match op
    case Times => '*'
    case Slash => '/'
    case Percent => '%'
    case Plus => '+'
    case Minus => '-'
  }

  /** The operators of `product`. */
  predicate Multiplicative(op: Op)
  {
    op == Times || op == Slash || op == Percent
  }

  /** The operators of `sum`. */
  predicate Additive(op: Op)
  {
    op == Plus || op == Minus
  }

  /** One `(operator, operand)` element of a suffix list. */
  datatype Step = Step(op: Op, operand: Expr)

  /** The outcome of a suffix list, which always matches (possibly empty). */
  datatype Chain = Chain(steps: seq<Step>, next: nat)

  /** The reducer closures of `product` and `sum`: the accumulated tree
      becomes the left child of the operator's node. */
  function Reduce(acc: Expr, step: Step): (r: Expr)
    ensures !r.Literal? && !r.Neg? && r.a == acc && r.b == step.operand
    ensures Multiplicative(step.op) <==> r.Mul? || r.Div? || r.Rem?
  {
    match step.op
    case Times => Mul(acc, step.operand)
    case Slash => Div(acc, step.operand)
    case Percent => Rem(acc, step.operand)
    case Plus => Add(acc, step.operand)
    case Minus => Sub(acc, step.operand)
  }

  predicate StepsHaveNaturalLiterals(steps: seq<Step>)
  {
    forall m :: 0 <= m < |steps| ==> NaturalLiterals(steps[m].operand)
  }

  /** `:>`: fold the suffix list into the seed, first element first. */
  function FoldLeft(seed: Expr, steps: seq<Step>): (r: Expr)
    ensures NaturalLiterals(seed) && StepsHaveNaturalLiterals(steps) ==> NaturalLiterals(r)
    decreases |steps|
  {
    if steps == [] then seed else FoldLeft(Reduce(seed, steps[0]), steps[1..])
  }

  /** `<:` over the prefix list of `unary`: its closure ignores the prefix
      token and wraps the tree in one `Neg`, so folding `k` prefixes wraps `k`
      times. */
  function NegN(k: nat, e: Expr): (r: Expr)
    ensures NaturalLiterals(r) <==> NaturalLiterals(e)
  {
    if k == 0 then e else Neg(NegN(k - 1, e))
  }

  /** The outcome of the minus tokens of the unary rule: how many there are,
      and the index after them. */
  datatype Minuses = Minuses(count: nat, next: nat)

  /** The minus tokens (each followed by whitespace) at `i`, and the
      index after them. `MinusTokensCount` states what was consumed. */
  function MinusTokens(s: seq<char>, i: nat): (r: Minuses)
    requires i <= |s|
    ensures i <= r.next <= |s|
    ensures r.next == |s| || s[r.next] != '-'
    ensures r.count == 0 <==> r.next == i
    decreases |s| - i
  {
    if i < |s| && s[i] == '-' then
      var rest := MinusTokens(s, Pad(s, i + 1));
      Minuses(rest.count + 1, rest.next)
    else
      Minuses(0, i)
  }

  /** Everything the minus tokens consume is a minus sign or whitespace, and its count
      is the number of minus signs consumed. */
  lemma {:induction false} MinusTokensCount(s: seq<char>, i: nat)
    requires i <= |s|
    ensures var r := MinusTokens(s, i);
            && (forall m :: i <= m < r.next ==> s[m] == '-' || IsWhitespace(s[m]))
            && r.count == multiset(s[i..r.next])['-']
    decreases |s| - i
  {
    if i < |s| && s[i] == '-' {
      var j := Pad(s, i + 1);
      PadRun(s, i + 1);
      MinusTokensCount(s, j);
      MinusThenWhitespace(s, i, j, MinusTokens(s, j).next);
    }
  }

  /** A minus sign followed by whitespace adds exactly one `'-'` to the count
      of what follows. */
  lemma MinusThenWhitespace(s: seq<char>, i: nat, j: nat, n: nat)
    requires i < j <= n <= |s|
    requires s[i] == '-'
    requires forall m :: i + 1 <= m < j ==> IsWhitespace(s[m])
    ensures multiset(s[i..n])['-'] == 1 + multiset(s[j..n])['-']
  {
    assert s[i..n] == [s[i]] + s[i + 1..j] + s[j..n];
    assert forall c :: c in s[i + 1..j] ==> IsWhitespace(c);
    assert '-' !in multiset(s[i + 1..j]);
  }

  /** The multiplicative operator characters. */
  predicate IsProductSymbol(c: char)
  {
    c == '*' || c == '/' || c == '%'
  }

  /** The additive operator characters. */
  predicate IsSumSymbol(c: char)
  {
    c == '+' || c == '-'
  }

  /** The multiplicative operator at `j`, if any; `OpChar` of the result is
      the character read. */
  function ProductOp(s: seq<char>, j: nat): (r: Option<Op>)
    requires j <= |s|
    ensures r.Some? <==> j < |s| && IsProductSymbol(s[j])
    ensures r.Some? ==> Multiplicative(r.value) && OpChar(r.value) == s[j]
  {
    if j == |s| then None
    else if s[j] == '*' then Some(Times)
    else if s[j] == '/' then Some(Slash)
    else if s[j] == '%' then Some(Percent)
    else None
  }

  /** The additive operator at `j`, if any; `OpChar` of the result is the
      character read. */
  function SumOp(s: seq<char>, j: nat): (r: Option<Op>)
    requires j <= |s|
    ensures r.Some? <==> j < |s| && IsSumSymbol(s[j])
    ensures r.Some? ==> Additive(r.value) && OpChar(r.value) == s[j]
  {
    if j == |s| then None
    else if s[j] == '+' then Some(Plus)
    else if s[j] == '-' then Some(Minus)
    else None
  }

  /** The atom rule: a number, or else an expression between parentheses with
      the parentheses dropped; either way the whitespace after it is skipped.
      A parenthesised expression leaves no node of its own. */
  function ParseAtom(s: seq<char>, i: nat): (r: Outcome)
    requires i <= |s|
    ensures r.Match? ==> i < r.next <= |s| && NaturalLiterals(r.tree)
    ensures r.Match? ==> IsDigit(s[i]) || s[i] == '('
    decreases |s| - i, 0
  {
    match ParseNumber(s, i)
    case Match(t, k) => Match(t, Pad(s, k))
    case NoMatch =>
      if i < |s| && s[i] == '(' then
        match ParseExpr(s, i + 1)
        case NoMatch => NoMatch
        case Match(t, k) =>
          if k < |s| && s[k] == ')' then Match(t, Pad(s, k + 1)) else NoMatch
      else NoMatch
  }

  /** The unary rule: any number of minus tokens, then an atom, whose tree is
      wrapped in one `Neg` per minus token. */
  function ParseUnary(s: seq<char>, i: nat): (r: Outcome)
    requires i <= |s|
    ensures r.Match? ==> i < r.next <= |s| && NaturalLiterals(r.tree)
    decreases |s| - i, 1
  {
    var m := MinusTokens(s, i);
    match ParseAtom(s, m.next)
    case NoMatch => NoMatch
    case Match(t, k) => Match(NegN(m.count, t), k)
  }

  /** The repeated tail of the product rule: as many (multiplicative
      operator, padding, unary) elements as match, giving back an element
      whose operand fails. */
  function ProductSteps(s: seq<char>, j: nat): (r: Chain)
    requires j <= |s|
    ensures j <= r.next <= |s|
    ensures r.next == j <==> r.steps == []
    ensures forall m :: 0 <= m < |r.steps| ==> Multiplicative(r.steps[m].op)
    ensures StepsHaveNaturalLiterals(r.steps)
    decreases |s| - j, 2
  {
    match ProductOp(s, j)
    case None => Chain([], j)
    case Some(op) =>
      match ParseUnary(s, Pad(s, j + 1))
      case NoMatch => Chain([], j)
      case Match(b, k) =>
        var rest := ProductSteps(s, k);
        Chain([Step(op, b)] + rest.steps, rest.next)
  }

  /** The product rule: a unary, then its tail folded in from the left, so
      that the operators group to the left. */
  function ParseProduct(s: seq<char>, i: nat): (r: Outcome)
    requires i <= |s|
    ensures r.Match? ==> i < r.next <= |s| && NaturalLiterals(r.tree)
    decreases |s| - i, 3
  {
    match ParseUnary(s, i)
    case NoMatch => NoMatch
    case Match(a, k) =>
      var c := ProductSteps(s, k);
      Match(FoldLeft(a, c.steps), c.next)
  }

  /** The repeated tail of the sum rule: as many (additive operator,
      padding, product) elements as match, giving back an element whose
      operand fails. */
  function SumSteps(s: seq<char>, j: nat): (r: Chain)
    requires j <= |s|
    ensures j <= r.next <= |s|
    ensures r.next == j <==> r.steps == []
    ensures forall m :: 0 <= m < |r.steps| ==> Additive(r.steps[m].op)
    ensures StepsHaveNaturalLiterals(r.steps)
    decreases |s| - j, 4
  {
    match SumOp(s, j)
    case None => Chain([], j)
    case Some(op) =>
      match ParseProduct(s, Pad(s, j + 1))
      case NoMatch => Chain([], j)
      case Match(b, k) =>
        var rest := SumSteps(s, k);
        Chain([Step(op, b)] + rest.steps, rest.next)
  }

  /** The sum rule: a product, then its tail folded in from the left. */
  function ParseSum(s: seq<char>, i: nat): (r: Outcome)
    requires i <= |s|
    ensures r.Match? ==> i < r.next <= |s| && NaturalLiterals(r.tree)
    decreases |s| - i, 5
  {
    match ParseProduct(s, i)
    case NoMatch => NoMatch
    case Match(a, k) =>
      var c := SumSteps(s, k);
      Match(FoldLeft(a, c.steps), c.next)
  }

  /** The expression rule: leading spaces (plain spaces only) are dropped,
      then a sum. */
  function ParseExpr(s: seq<char>, i: nat): (r: Outcome)
    requires i <= |s|
    ensures r.Match? ==> i < r.next <= |s| && NaturalLiterals(r.tree)
    decreases |s| - i, 6
  {
    ParseSum(s, SkipSpaces(s, i))
  }
}
