# Arithmetic expressions: grammar and evaluator

A Dafny model of the arithmetic-expression example of the parze parser
library (`examples/expr.rs`). It covers:

- the `Expr` tree;
- its evaluator `Expr::eval`, with Rust's signed `/` and `%`;
- the six grammar rules `number`, `atom`, `unary`, `product`, `sum` and
  `expr`, written as mutually recursive functions over a character sequence
  and a start index;
- the program's own assertion: `14 + 3 / 1 * (2 + 4) + -1` evaluates to 31.

The grammar is written in the library's combinator notation. The library is
not part of this model. Each operator is given the plain meaning the grammar
relies on, listed at the head of `grammar.dfy`:

- `~` skips the Unicode whitespace after a token;
- `-&` keeps the right value and `&-` keeps the left one;
- `|` is ordered choice;
- `*` and `+` are greedy repetition; an element that fails part-way is given
  back;
- `<:` folds a prefix list from the right;
- `:>` folds a suffix list from the left.

A rule returns `Match(tree, next)` or `NoMatch`.

Files:

- `wrappers.dfy`: `Option`.
- `rust_int.dfy` (module `RustInt`): Rust's truncating quotient and its
  remainder. Dafny's own operators are Euclidean.
- `ast.dfy` (module `Ast`): the tree and `Eval`. `None` stands for the panic on
  a zero divisor.
- `grammar.dfy` (module `Grammar`): the six rules and their helpers. The
  measure `(remaining input, rule rank)` decreases on every call, and `atom`
  consumes `(` before it re-enters `expr`.
- `printer.dfy` (module `Printer`): an independent reference. It prints a tree
  with the fewest parentheses the grammar needs.
- `grammar_facts.dfy` (module `GrammarFacts`): what the grammar does.
  - Folds are left-associative.
  - Each minus sign becomes one `Neg`.
  - Numbers and padding consume exactly the digits and the whitespace.
  - The round trip: parsing the printed form of any tree with nonnegative
    literals gives the tree back and consumes the whole text. This one
    theorem covers precedence, left associativity, and parentheses that
    leave no node (`GrammarFacts.ParenRoundTrip`, `Example.Regrouped`).
- `example.dfy` (module `Example`): the program's input parsed to its end and
  evaluated, plus small inputs about whitespace, minus signs, a dangling
  operator, division by zero and negative division.

The parse functions' own contracts state only bounds and the shape of the
trees they produce. Their meaning is stated by the lemmas in `GrammarFacts`.

## Model

| member | source | states |
|---|---|---|
| RustInt.TruncDiv | examples/expr.rs:23 | for a nonzero divisor, `q * b` lies between zero and the dividend (the quotient is rounded toward zero) and misses the dividend by less than one divisor |
| RustInt.TruncRem | examples/expr.rs:24 | `a == (a / b) * b + a % b`, the remainder is smaller than the divisor in absolute value, and it carries the dividend's sign |
| RustInt.TruncDivRemUnique | examples/expr.rs:23-24 | any quotient and remainder that rebuild the dividend, with the remainder smaller than the divisor and signed like the dividend, are Rust's quotient and remainder |
| RustInt.TruncatesTowardZero | examples/expr.rs:23-24 | `-7 / 2` is `-3` with remainder `-1`, where Euclidean division gives `-4` and `1`; `7 / -2` is `-3` with remainder `1` |
| Ast.Eval | examples/expr.rs:18-28 | a tree with no division or remainder node always has a value: only `/` and `%` can panic |
| Ast.EvalDivRem | examples/expr.rs:23-24 | `Div` and `Rem` over the same operands panic together, exactly when an operand panics or the divisor is zero; otherwise quotient times divisor plus remainder is the dividend, and the remainder is smaller than the divisor and signed like the dividend |
| GrammarFacts.EvalNegN | examples/expr.rs:21 | `k` nested negations keep the value for even `k` and negate it for odd `k`; a panic inside propagates |
| Grammar.DecimalLeadingZero | examples/expr.rs:34 | a leading zero does not change the value of a numeral, as the string-to-integer conversion of the `number` rule accepts leading zeros |
| Printer.DecimalStringCanonical | examples/expr.rs:34 | conversely to `Printer.DecimalString`, a numeral without a leading zero is exactly the numeral of its own value |
| Grammar.ParseNumber | examples/expr.rs:34 | `number` matches exactly when a digit is at the start; it then consumes the maximal nonempty run of digits and yields `Literal` of the run's decimal value |
| Grammar.DigitRunDigits | examples/expr.rs:34 | the digit run consists of digits and stops at the end of the text or at a non-digit |
| GrammarFacts.DigitRunStopsAt | examples/expr.rs:34 | conversely, a run of digits followed by a non-digit is exactly the digit run |
| Printer.DecimalString | examples/expr.rs:34 | the numeral of `n` is a nonempty digit string whose decimal value is `n` |
| GrammarFacts.NumeralNumber | examples/expr.rs:34 | the numeral of `n`, where no digit follows, is a `number` yielding `Literal(n)` and ending after the numeral |
| Grammar.PadRun | examples/expr.rs:38 | the `~` padding consumes only whitespace and stops at the end of the text or at a non-whitespace character |
| GrammarFacts.PadStopsAt | examples/expr.rs:38 | conversely, whitespace followed by a non-whitespace character is exactly the padding |
| GrammarFacts.PaddedNumber | examples/expr.rs:34-38 | a numeral followed by whitespace is an atom yielding `Literal(n)` and ending after the whitespace |
| GrammarFacts.NumberAtom | examples/expr.rs:34-38 | a numeral followed by neither a digit nor whitespace is an atom ending right after it |
| Grammar.ParseAtom | examples/expr.rs:37-39 | a matching atom consumes at least one character and starts with a digit or `(` |
| GrammarFacts.ParenRoundTrip | examples/expr.rs:38 | a binary tree printed between parentheses parses back as `unary` to the tree itself, consuming exactly its text: the parentheses leave no node |
| Grammar.MinusTokens | examples/expr.rs:42 | the minus tokens of `unary` stop where no minus sign follows, and counts zero exactly when it consumes nothing |
| Grammar.MinusTokensCount | examples/expr.rs:42 | everything the minus tokens consume is a minus sign or whitespace, and its count is the number of minus signs consumed |
| Grammar.NegN | examples/expr.rs:42 | wrapping in `Neg` nodes keeps the literals nonnegative exactly when they were |
| GrammarFacts.UnaryMinusStep | examples/expr.rs:42 | a leading minus sign and the whitespace after it wrap the rest of the `unary` in one `Neg` |
| GrammarFacts.UnaryNegPerMinus | examples/expr.rs:41-42 | on any text, `unary` consumes only minus signs and whitespace before its atom, and yields the atom's tree wrapped in as many `Neg` nodes as minus signs it consumed; it fails exactly when that atom fails |
| GrammarFacts.NegPerMinus | examples/expr.rs:42 | `k` minus signs before an atom give the atom's tree wrapped in exactly `k` `Neg` nodes, and `unary` fails exactly when the atom fails |
| Grammar.ParseUnary | examples/expr.rs:41-43 | a matching `unary` consumes at least one character, and its tree has nonnegative literals |
| Grammar.ProductOp | examples/expr.rs:45-49 | an operator is read exactly when the next character is `*`, `/` or `%`; it is multiplicative, and its character is the one read, so `*` is `Times` (built into `Mul`), `/` is `Slash` (`Div`) and `%` is `Percent` (`Rem`) |
| Grammar.SumOp | examples/expr.rs:54-57 | an operator is read exactly when the next character is `+` or `-`; it is additive, and its character is the one read, so `+` is `Plus` (built into `Add`) and `-` is `Minus` (`Sub`) |
| Grammar.Reduce | examples/expr.rs:45-57 | the reducer builds a binary node whose left child is the accumulated tree and whose right child is the new operand; the node is `Mul`, `Div` or `Rem` exactly for a multiplicative operator |
| GrammarFacts.ReduceOpOf | examples/expr.rs:45-57 | the operator of the node the reducer builds is the operator of the step, so each operator token has its own node kind |
| Grammar.ProductSteps | examples/expr.rs:46 | the suffix list of `product` consumes nothing exactly when it is empty, and all its operators are `*`, `/` or `%` |
| Grammar.SumSteps | examples/expr.rs:55 | the suffix list of `sum` consumes nothing exactly when it is empty, and all its operators are `+` or `-` |
| Grammar.ParseProduct | examples/expr.rs:45-51 | a matching `product` consumes at least one character, and its tree has nonnegative literals |
| Grammar.ParseSum | examples/expr.rs:54-59 | a matching `sum` consumes at least one character, and its tree has nonnegative literals |
| Grammar.FoldLeft | examples/expr.rs:46-51 | folding operands with nonnegative literals gives a tree with nonnegative literals |
| GrammarFacts.FoldLeftSnoc | examples/expr.rs:46-51 | left associativity of `:>`: the last operator of the chain is the root, over the fold of the rest and the last operand |
| GrammarFacts.FoldLeftThree | examples/expr.rs:45-60 | `a op1 b op2 c` folds to `op2(op1(a, b), c)`, never to `op1(a, op2(b, c))` |
| Grammar.SkipSpacesRun | examples/expr.rs:62 | the leading `' '*` of `expr` consumes only spaces |
| Grammar.SkipSpaces | examples/expr.rs:62 | the leading `' '*` of `expr` stops at the end of the text or at a character that is not a space |
| Grammar.ParseExpr | examples/expr.rs:62 | a matching `expr` consumes at least one character, and its tree has nonnegative literals |
| GrammarFacts.UnaryRoundTrip | examples/expr.rs:41-43 | the printed form of a number, a negation or a parenthesised tree parses back as `unary`, giving the tree and consuming exactly its text |
| GrammarFacts.ProductRoundTrip | examples/expr.rs:45-52 | the printed form of a product-level tree, followed by a suffix list, parses back as `product` folding that list into the tree |
| GrammarFacts.SumRoundTrip | examples/expr.rs:54-60 | the printed form of a tree, followed by a suffix list, parses back as `sum` folding that list into the tree |
| GrammarFacts.ExprRoundTrip | examples/expr.rs:33-62 | `expr` applied to the printed form of any tree with nonnegative literals gives the tree back and consumes the whole text. This fixes precedence, left associativity, and parentheses that leave no node (see also `GrammarFacts.ParenRoundTrip`) |
| Example.InputEvaluates | examples/expr.rs:65-68 | `14 + 3 / 1 * (2 + 4) + -1` parses with `expr` to its end, and the tree evaluates to 31 |
| Example.InputParses | examples/expr.rs:66 | a text with the characters of `14 + 3 / 1 * (2 + 4) + -1` parses to `Add(Add(14, Mul(Div(3, 1), Add(2, 4))), Neg(1))` |
| Example.ProgramValue | examples/expr.rs:65-68 | that tree evaluates to 31 |
| Example.ProgramParses | examples/expr.rs:33-62 | the same expression written without blanks parses to the same tree |
| Example.SpacingIrrelevant | examples/expr.rs:38-62 | ` 1 + 1 ` and `1+1` parse to the same tree, each to its end |
| Example.Precedence | examples/expr.rs:45-60 | `1+2*3` parses to `Add(1, Mul(2, 3))` |
| Example.LeftAssociative | examples/expr.rs:54-60 | `8-4-2` parses to `Sub(Sub(8, 4), 2)` |
| Example.Regrouped | examples/expr.rs:38 | `8-(4-2)` parses to `Sub(8, Sub(4, 2))`, with no node for the parentheses |
| Example.SpacedMinuses | examples/expr.rs:42 | `- -7` is a `unary` with two `Neg` nodes |
| Example.DanglingOperator | examples/expr.rs:55 | on `1+`, `sum` gives back the dangling `+` and stops after `1` |
| Example.NegativeDivision | examples/expr.rs:23-24 | `-7 / 2` evaluates to `-3` and `-7 % 2` to `-1` |
| Example.ZeroDivisor | examples/expr.rs:23-24 | division or remainder by zero has no value |

## Left out

- The combinator library and the `parsers!` macro: their code is not part of this model. Only the meanings listed above are modelled. The library's error values, expected-token sets and furthest-failure reporting are left out.
- Rejection of unconsumed input: if the library's entry point does this, it does it in code that is not part of this model. The model returns the index where `expr` stops, and the lemmas state where that is. On `1+` the grammar stops after `1` (`Example.DanglingOperator`): the repetition gives back the `+`.
- Ast.Eval: integers are unbounded, so the overflow of `i64` arithmetic is not modelled. Rust panics on `i64::MIN / -1` and `i64::MIN % -1` in every build; an overflowing `+`, `-`, `*` or negation (such as `-i64::MIN`) panics in a debug build and wraps in a release build. Only division and remainder by zero are modelled as panics, as `None`.
- Grammar.ParseNumber: it yields the exact value of any digit run. The program's `parse().unwrap()` panics on a numeral that does not fit in `i64`.
- The `unreachable!()` arms of the `product` and `sum` reducers have no counterpart: the operator token comes from a fixed set of five.
- `#[derive(Debug)]`, the feature attributes and the `main` harness: only the assertion in `main` is modelled, as `Example.InputEvaluates`.
- That whitespace between tokens never changes the tree is shown for particular inputs only (`Example.SpacingIrrelevant`, `Example.InputParses`, `Example.SpacedMinuses`). The general round trip is stated for the printer's blank-free text.
- Grammar.ParseAtom, Grammar.ParseUnary, Grammar.ProductSteps, Grammar.ParseProduct, Grammar.SumSteps, Grammar.ParseSum, Grammar.ParseExpr: their own contracts state bounds and the shape of the tree only. They do not say, for instance, that each element of a suffix list is the operator read at its position followed by the operand parsed after the padding. What they compute is stated by the lemmas of `GrammarFacts` listed above (`GrammarFacts.UnaryNegPerMinus`, the round-trip lemmas), and for the program's input by `Example.InputParses`.
