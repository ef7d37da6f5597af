/**
 * What the translator makes of texts written with the usual grouping to the left. It reads them with
 * operators of equal rank regrouped to the right, and gets the meant postfix form exactly when there
 * was nothing to regroup.
 */
module InfixGrouping {
  import opened Infix

  /** The text as usually written: a left operand as strong as its operator stands bare, a right one does not. */
  function ShowLeft(e: Expr, rank: nat): string {
    match e
    case Leaf(c) => [c]
    case Op(op, l, r) =>
      var bare := ShowLeft(l, Rank(op)) + [op] + ShowLeft(r, Rank(op) + 1);
      if Rank(op) < rank then "(" + bare + ")" else bare
    case Paren(e') => "(" + ShowLeft(e', 1) + ")"
  }

  /** An unparenthesised operator of the given rank. */
  predicate HasRank(e: Expr, rank: nat) {
    e.Op? && Rank(e.op) == rank
  }

  /** No operator has an unparenthesised operator of equal rank as its left operand. */
  predicate NothingToRegroup(e: Expr) {
    match e
    case Leaf(_) => true
    case Op(op, l, r) => !HasRank(l, Rank(op)) && NothingToRegroup(l) && NothingToRegroup(r)
    case Paren(e') => NothingToRegroup(e')
  }

  // ----- what is read -----

  /** The operator and its right operand at the end of a chain of operators of its rank. */
  function Append(chain: Expr, op: char, r: Expr): Expr
    requires chain.Op?
  {
    if HasRank(chain.r, Rank(chain.op)) then Op(chain.op, chain.l, Append(chain.r, op, r))
    else Op(chain.op, chain.l, Op(op, chain.r, r))
  }

  /** A right operand as strong as its operator keeps the parentheses it was written with. */
  function Wrapped(r: Expr, rank: nat): Expr {
    if HasRank(r, rank) then Paren(r) else r
  }

  /** The expression that the translator reads in the text. */
  function Regrouped(e: Expr): Expr {
    match e
    case Leaf(_) => e
    case Op(op, l, r) =>
      var l', r' := Regrouped(l), Wrapped(Regrouped(r), Rank(op));
      if HasRank(l', Rank(op)) then Append(l', op, r') else Op(op, l', r')
    case Paren(e') => Paren(Regrouped(e'))
  }

  lemma {:induction false} AppendText(chain: Expr, op: char, r: Expr)
    requires chain.Op? && Rank(chain.op) == Rank(op) > 0
    ensures HasRank(Append(chain, op, r), Rank(op))
    ensures Show(Append(chain, op, r), Rank(op)) == Show(chain, Rank(op)) + [op] + Show(r, Rank(op))
    ensures Proper(chain) && Proper(r) ==> Proper(Append(chain, op, r))
    decreases chain
  {
    var b, k := chain.r, Rank(op);
    if HasRank(b, k) {
      AppendText(b, op, r);
      calc {
        Show(Append(chain, op, r), k);
        Show(chain.l, k + 1) + [chain.op] + (Show(b, k) + [op] + Show(r, k));
        Show(chain.l, k + 1) + [chain.op] + Show(b, k) + [op] + Show(r, k);
      }
    } else {
      assert Show(b, k) == Show(b, k + 1);
      assert Show(Op(op, b, r), k) == Bare(op, b, r);
      calc {
        Show(Append(chain, op, r), k);
        Show(chain.l, k + 1) + [chain.op] + (Show(b, k + 1) + [op] + Show(r, k));
        Show(chain.l, k + 1) + [chain.op] + Show(b, k) + [op] + Show(r, k);
      }
    }
  }

  /** Regrouping neither adds nor removes an operator at the top, and changes its rank not at all. */
  lemma {:induction false} RegroupedText(e: Expr, rank: nat)
    requires Proper(e) && rank > 0
    ensures Proper(Regrouped(e)) && (Regrouped(e).Op? <==> e.Op?) && (e.Op? ==> Rank(Regrouped(e).op) == Rank(e.op))
    ensures ShowLeft(e, rank) == Show(Regrouped(e), rank)
    decreases e
  {
    match e
    case Leaf(_) =>
    case Op(op, l, r) =>
      RegroupedText(l, Rank(op));
      RegroupedText(r, Rank(op) + 1);
      var l', r' := Regrouped(l), Wrapped(Regrouped(r), Rank(op));
      WrappedText(Regrouped(r), Rank(op));
      var x := Regrouped(e);
      assert Show(x, Rank(op)) == Show(l', Rank(op)) + [op] + Show(r', Rank(op)) by {
        if HasRank(l', Rank(op)) {
          AppendText(l', op, r');
        } else {
          assert Show(l', Rank(op)) == Show(l', Rank(op) + 1);
        }
      }
      assert HasRank(x, Rank(op)) by {
        if HasRank(l', Rank(op)) {
          AppendText(l', op, r');
        }
      }
      assert Proper(x) by {
        if HasRank(l', Rank(op)) {
          AppendText(l', op, r');
        }
      }
    case Paren(e') =>
      RegroupedText(e', 1);
  }

  lemma WrappedText(r: Expr, rank: nat)
    requires Proper(r) && rank > 0
    ensures Show(Wrapped(r, rank), rank) == Show(r, rank + 1) && Proper(Wrapped(r, rank))
  {
  }

  // ----- how regrouping shows -----

  function Operands(s: string): nat {
    |s| - Operators(s)
  }

  /** Summed over the operators, how many operands come after them. */
  function Early(s: string): nat {
    if s == [] then 0 else Early(s[1..]) + if Rank(s[0]) > 0 then Operands(s[1..]) else 0
  }

  /** A product, by repeated addition. */
  function Times(n: nat, m: nat): nat {
    if n == 0 then 0 else Times(n - 1, m) + m
  }

  lemma {:induction false} TimesRight(n: nat, m: nat, k: nat)
    ensures Times(n, m + k) == Times(n, m) + Times(n, k) && Times(n, 0) == 0
  {
    if n > 0 {
      TimesRight(n - 1, m, k);
    }
  }

  lemma {:induction false} TimesLeft(n: nat, i: nat, m: nat)
    ensures Times(n + i, m) == Times(n, m) + Times(i, m)
  {
    if i > 0 {
      TimesLeft(n, i - 1, m);
    }
  }

  lemma OperandsTwo(u: string, v: string)
    ensures Operands(u + v) == Operands(u) + Operands(v)
  {
    OperatorsTwo(u, v);
  }

  lemma {:induction false} EarlyTwo(u: string, v: string)
    ensures Early(u + v) == Early(u) + Early(v) + Times(Operators(u), Operands(v))
  {
    if u == [] {
      assert u + v == v;
    } else {
      assert Operators(u) == (if Rank(u[0]) > 0 then 1 else 0) + Operators(u[1..]);
      hide Operators, Operands, Rank;
      EarlyTwo(u[1..], v);
      OperandsTwo(u[1..], v);
      assert (u + v)[1..] == u[1..] + v;
    }
  }

  lemma EarlyOne(c: char)
    ensures Operators([c]) == (if Rank(c) > 0 then 1 else 0) && Early([c]) == 0
  {
    assert [c][1..] == [];
  }

  /** A postfix form has one operand more than operators, and its operators are early by as much as its parts make them. */
  lemma EarlyOp(op: char, l: string, r: string)
    requires Rank(op) > 0 && Operands(l) == Operators(l) + 1 && Operands(r) == Operators(r) + 1
    ensures var s := l + r + [op];
            && Operators(s) == Operators(l) + Operators(r) + 1 && Operands(s) == Operators(s) + 1
            && Early(s) == Early(l) + Early(r) + Times(Operators(l), Operators(r) + 1)
  {
    EarlyTwo(l, r);
    OperatorsTwo(l, r);
    EarlyTwo(l + r, [op]);
    OperatorsTwo(l + r, [op]);
    EarlyOne(op);
    TimesRight(Operators(l + r), 0, 0);
  }

  lemma {:induction false} PostfixCounts(e: Expr)
    requires Proper(e)
    ensures Operands(Postfix(e)) == Operators(Postfix(e)) + 1
    ensures e.Op? ==> Early(Postfix(e)) == Early(Postfix(e.l)) + Early(Postfix(e.r)) + Times(Operators(Postfix(e.l)), Operators(Postfix(e.r)) + 1)
    ensures e.Op? ==> Operators(Postfix(e)) == Operators(Postfix(e.l)) + Operators(Postfix(e.r)) + 1
  {
    hide Operators, Operands, Early, Times, Rank;
    match e
    case Leaf(c) => OperandOne(c);
    case Op(op, l, r) =>
      PostfixCounts(l);
      PostfixCounts(r);
      EarlyOp(op, Postfix(l), Postfix(r));
    case Paren(e') => PostfixCounts(e');
  }

  lemma OperandOne(c: char)
    requires Proper(Leaf(c))
    ensures Operands([c]) == Operators([c]) + 1
  {
    EarlyOne(c);
  }

  lemma Outer(i: nat, j: nat, k: nat)
    ensures Times(i, j + k + 2) == Times(i, j + 1) + Times(i, k + 1)
    ensures Times(i + j + 1, k + 1) == Times(i, k + 1) + Times(j, k + 1) + (k + 1)
  {
    TimesRight(i, j + 1, k + 1);
    TimesLeft(i, j + 1, k + 1);
  }

  /** Putting an operator at the end of the chain instead of above it makes operators later. */
  lemma {:induction false} AppendIsLater(chain: Expr, op: char, r: Expr)
    requires Proper(chain) && Proper(r) && chain.Op? && Rank(op) == Rank(chain.op)
    ensures Proper(Append(chain, op, r)) && Operators(Postfix(Append(chain, op, r))) == Operators(Postfix(Op(op, chain, r)))
    ensures Early(Postfix(Append(chain, op, r))) < Early(Postfix(Op(op, chain, r)))
    decreases chain
  {
    hide Postfix, Early, Operators, Operands, Rank, Times;
    var a, b := chain.l, chain.r;
    PostfixCounts(chain);
    PostfixCounts(Op(op, chain, r));
    PostfixCounts(Op(op, b, r));
    Outer(Operators(Postfix(a)), Operators(Postfix(b)), Operators(Postfix(r)));
    if HasRank(b, Rank(chain.op)) {
      AppendIsLater(b, op, r);
    }
    PostfixCounts(Append(chain, op, r));
  }

  /** More on the left or on the right makes an expression's operators earlier. */
  lemma EarlyGrows(op: char, l: Expr, r: Expr, l': Expr, r': Expr)
    requires Proper(Op(op, l, r)) && Proper(Op(op, l', r'))
    requires Operators(Postfix(l')) == Operators(Postfix(l)) && Operators(Postfix(r')) == Operators(Postfix(r))
    ensures Operators(Postfix(Op(op, l', r'))) == Operators(Postfix(Op(op, l, r)))
    ensures Early(Postfix(Op(op, l', r'))) - Early(Postfix(Op(op, l, r))) ==
            Early(Postfix(l')) - Early(Postfix(l)) + (Early(Postfix(r')) - Early(Postfix(r)))
  {
    hide *;
    PostfixCounts(Op(op, l, r));
    PostfixCounts(Op(op, l', r'));
  }

  /** Regrouping keeps the operators but makes some of them later, unless there was nothing to regroup. */
  lemma {:induction false} RegroupedIsLater(e: Expr)
    requires Proper(e)
    ensures Proper(Regrouped(e)) && Operators(Postfix(Regrouped(e))) == Operators(Postfix(e))
    ensures if NothingToRegroup(e) then Postfix(Regrouped(e)) == Postfix(e) else Early(Postfix(Regrouped(e))) < Early(Postfix(e))
    decreases e
  {
    match e
    case Leaf(_) =>
    case Op(op, l, r) =>
      RegroupedIsLater(l);
      RegroupedIsLater(r);
      RegroupedText(l, Rank(op));
      RegroupedText(r, Rank(op));
      var l', r' := Regrouped(l), Wrapped(Regrouped(r), Rank(op));
      assert Postfix(r') == Postfix(Regrouped(r)) && Proper(r');
      EarlyGrows(op, l, r, l', r');
      if HasRank(l', Rank(op)) {
        AppendIsLater(l', op, r');
      }
    case Paren(e') =>
      RegroupedIsLater(e');
  }

  /**
   * Text written with the usual grouping to the left is read as its expression regrouped to the
   * right; the postfix form that comes out is the meant one if and only if no operator has an
   * unparenthesised operator of equal rank as its left operand.
   */
  lemma LeftGroupingExactly(e: Expr)
    requires Proper(e)
    ensures Closes(START, ShowLeft(e, 1))
    ensures Displace(ReadAll(START, ShowLeft(e, 1)), 0) == State([TERMINATOR], Postfix(Regrouped(e)))
    ensures Displace(ReadAll(START, ShowLeft(e, 1)), 0) == State([TERMINATOR], Postfix(e)) <==> NothingToRegroup(e)
  {
    RegroupedText(e, 1);
    TransformIsPostfix(Regrouped(e));
    RegroupedIsLater(e);
  }
}
