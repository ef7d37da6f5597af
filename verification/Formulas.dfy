/**
 * Arithmetic formulas as they are written: sums of products of factors, with every operator and every
 * parenthesis spelled out, and what they mean. Nothing here knows how any of the programs reads them.
 */
module Formulas {

  /** A sum goes on to the right after its first operator. */
  datatype Sum = Alone(p: Product) | Plus(p: Product, s: Sum) | Minus(p: Product, s: Sum)

  datatype Product = Single(f: Factor) | Times(f: Factor, p: Product) | Divide(f: Factor, p: Product)

  datatype Factor = Operand(c: char) | Parens(s: Sum)

  function SumText(s: Sum): string {
    match s
    case Alone(p) => ProductText(p)
    case Plus(p, s') => ProductText(p) + ['+'] + SumText(s')
    case Minus(p, s') => ProductText(p) + ['-'] + SumText(s')
  }

  function ProductText(p: Product): string {
    match p
    case Single(f) => FactorText(f)
    case Times(f, p') => FactorText(f) + ['*'] + ProductText(p')
    case Divide(f, p') => FactorText(f) + ['/'] + ProductText(p')
  }

  function FactorText(f: Factor): string {
    match f
    case Operand(c) => [c]
    case Parens(s) => ['('] + SumText(s) + [')']
  }

  function SumPostfix(s: Sum): string {
    match s
    case Alone(p) => ProductPostfix(p)
    case Plus(p, s') => ProductPostfix(p) + SumPostfix(s') + ['+']
    case Minus(p, s') => ProductPostfix(p) + SumPostfix(s') + ['-']
  }

  function ProductPostfix(p: Product): string {
    match p
    case Single(f) => FactorPostfix(f)
    case Times(f, p') => FactorPostfix(f) + ProductPostfix(p') + ['*']
    case Divide(f, p') => FactorPostfix(f) + ProductPostfix(p') + ['/']
  }

  function FactorPostfix(f: Factor): string {
    match f
    case Operand(c) => [c]
    case Parens(s) => SumPostfix(s)
  }

  /** What an operator computes is left open. */
  type Meaning = (char, int, int) -> int

  function SumValue(f: Meaning, s: Sum, at: char -> int): int {
    match s
    case Alone(p) => ProductValue(f, p, at)
    case Plus(p, s') => f('+', ProductValue(f, p, at), SumValue(f, s', at))
    case Minus(p, s') => f('-', ProductValue(f, p, at), SumValue(f, s', at))
  }

  function ProductValue(f: Meaning, p: Product, at: char -> int): int {
    match p
    case Single(x) => FactorValue(f, x, at)
    case Times(x, p') => f('*', FactorValue(f, x, at), ProductValue(f, p', at))
    case Divide(x, p') => f('/', FactorValue(f, x, at), ProductValue(f, p', at))
  }

  function FactorValue(f: Meaning, x: Factor, at: char -> int): int {
    match x
    case Operand(c) => at(c)
    case Parens(s) => SumValue(f, s, at)
  }

  /** The characters that stand for operands. */
  function SumOperands(s: Sum): set<char> {
    match s
    case Alone(p) => ProductOperands(p)
    case Plus(p, s') => ProductOperands(p) + SumOperands(s')
    case Minus(p, s') => ProductOperands(p) + SumOperands(s')
  }

  function ProductOperands(p: Product): set<char> {
    match p
    case Single(f) => FactorOperands(f)
    case Times(f, p') => FactorOperands(f) + ProductOperands(p')
    case Divide(f, p') => FactorOperands(f) + ProductOperands(p')
  }

  function FactorOperands(f: Factor): set<char> {
    match f
    case Operand(c) => {c}
    case Parens(s) => SumOperands(s)
  }
}
