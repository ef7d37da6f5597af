/**
 * Infix to postfix with an operator stack. Because an operator only displaces strictly stronger
 * ones from the stack, operators of equal rank group to the right.
 */
module Infix {
  import opened Sequences
  import opened Formulas

  const TERMINATOR := '#'

  function Rank(c: char): nat {
    if c == '+' || c == '-' then 1 else if c == '*' || c == '/' then 2 else 0
  }

  predicate Computes(c: char) {
    Rank(c) > 0
  }

  /** How many operators a text has. */
  function Operators(w: string): (n: nat)
    ensures n <= |w|
  {
    if w == [] then 0 else (if Computes(w[0]) then 1 else 0) + Operators(w[1..])
  }

  lemma {:induction false} OperatorsTwo(u: string, v: string)
    ensures Operators(u + v) == Operators(u) + Operators(v)
  {
    if u == [] {
      assert u + v == v;
    } else {
      OperatorsTwo(u[1..], v);
      assert (u + v)[1..] == u[1..] + v;
    }
  }

  predicate IsOperator(c: char) {
    c == '+' || c == '-' || c == '*' || c == '/' || c == '(' || c == ')'
  }

  // ----- what is written and what is meant -----

  /** An expression as it may be written, with any extra parentheses kept. */
  datatype Expr = Leaf(c: char) | Op(op: char, l: Expr, r: Expr) | Paren(e: Expr)

  predicate Proper(e: Expr) {
    match e
    case Leaf(c) => !IsOperator(c) && c != TERMINATOR
    case Op(op, l, r) => Rank(op) > 0 && Proper(l) && Proper(r)
    case Paren(e') => Proper(e')
  }

  /** The text of an expression where operators of at least the given rank may stand bare. */
  function Show(e: Expr, rank: nat): string
    decreases e, 1
  {
    match e
    case Leaf(c) => [c]
    case Op(op, l, r) =>
      if Rank(op) < rank then "(" + Bare(op, l, r) + ")" else Bare(op, l, r)
    case Paren(e') => "(" + Show(e', 1) + ")"
  }

  /** The left operand needs a stronger operator to stand bare, the right one an operator as strong. */
  function Bare(op: char, l: Expr, r: Expr): string
    decreases Op(op, l, r), 0
  {
    Show(l, Rank(op) + 1) + [op] + Show(r, Rank(op))
  }

  function Postfix(e: Expr): string {
    match e
    case Leaf(c) => [c]
    case Op(op, l, r) => Postfix(l) + Postfix(r) + [op]
    case Paren(e') => Postfix(e')
  }

  // ----- the machine -----

  datatype State = State(stack: string, out: string)

  /** Moves operators stronger than the given rank from the stack to the output. */
  function Displace(s: State, rank: nat): State
    decreases |s.stack|
  {
    if s.stack == [] || Rank(s.stack[|s.stack| - 1]) <= rank then s
    else Displace(State(s.stack[..|s.stack| - 1], s.out + [s.stack[|s.stack| - 1]]), rank)
  }

  /** Moves everything down to the opening parenthesis to the output and drops the parenthesis. */
  function Unwind(s: State): State
    decreases |s.stack|
  {
    if s.stack == [] then s
    else if s.stack[|s.stack| - 1] == '(' then State(s.stack[..|s.stack| - 1], s.out)
    else Unwind(State(s.stack[..|s.stack| - 1], s.out + [s.stack[|s.stack| - 1]]))
  }

  function Read(s: State, c: char): State {
    if !IsOperator(c) then State(s.stack, s.out + [c])
    else if c == '(' then State(s.stack + [c], s.out)
    else if c == ')' then Unwind(s)
    else
      var t := Displace(s, Rank(c));
      State(t.stack + [c], t.out)
  }

  function ReadAll(s: State, w: string): State
    decreases |w|
  {
    if w == [] then s else ReadAll(Read(s, w[0]), w[1..])
  }

  /** Every closing parenthesis finds an open one on the stack. */
  predicate Closes(s: State, w: string)
    decreases |w|
  {
    w == [] || ((w[0] == ')' ==> '(' in s.stack) && w[0] != TERMINATOR && Closes(Read(s, w[0]), w[1..]))
  }

  const START := State([TERMINATOR], [])

  // ----- the machine reads an expression -----

  predicate AllAbove(ops: string, rank: nat) {
    forall i :: 0 <= i < |ops| ==> Rank(ops[i]) > rank
  }

  function Reverse(s: string): string {
    if s == [] then [] else [s[|s| - 1]] + Reverse(s[..|s| - 1])
  }

  lemma {:induction false} DisplaceAll(stack: string, ops: string, out: string, rank: nat)
    requires AllAbove(ops, rank) && stack != [] && Rank(stack[|stack| - 1]) <= rank
    ensures Displace(State(stack + ops, out), rank) == State(stack, out + Reverse(ops))
    decreases |ops|
  {
    if ops == [] {
      assert stack + ops == stack && out + [] == out;
    } else {
      var front, last := ops[..|ops| - 1], ops[|ops| - 1];
      assert (stack + ops)[..|stack + ops| - 1] == stack + front && (stack + ops)[|stack + ops| - 1] == last;
      assert Rank(ops[|ops| - 1]) > rank;
      DisplaceAll(stack, front, out + [last], rank);
      assert out + [last] + Reverse(front) == out + ([last] + Reverse(front));
    }
  }

  lemma {:induction false} UnwindAll(stack: string, ops: string, out: string)
    requires AllAbove(ops, 0)
    ensures Unwind(State(stack + ['('] + ops, out)) == State(stack, out + Reverse(ops))
    decreases |ops|
  {
    var full := stack + ['('] + ops;
    if ops == [] {
      assert full == stack + ['('] && full[..|full| - 1] == stack && out + [] == out;
    } else {
      var front, last := ops[..|ops| - 1], ops[|ops| - 1];
      assert full[..|full| - 1] == stack + ['('] + front;
      assert full[|full| - 1] == last && Rank(last) > 0;
      assert Unwind(State(full, out)) == Unwind(State(stack + ['('] + front, out + [last]));
      UnwindAll(stack, front, out + [last]);
      Regroup(out, [last], Reverse(front));
    }
  }

  lemma {:induction false} ReadAllTwo(s: State, u: string, v: string)
    ensures ReadAll(s, u + v) == ReadAll(ReadAll(s, u), v)
    ensures Closes(s, u) && Closes(ReadAll(s, u), v) ==> Closes(s, u + v)
    decreases |u|
  {
    if u == [] {
      assert u + v == v;
    } else {
      ReadAllTwo(Read(s, u[0]), u[1..], v);
      assert (u + v)[1..] == u[1..] + v;
    }
  }

  lemma ReadOne(s: State, c: char)
    ensures ReadAll(s, [c]) == Read(s, c)
    ensures Closes(s, [c]) <==> (c == ')' ==> '(' in s.stack) && c != TERMINATOR
  {
    assert [c][1..] == [];
  }

  lemma {:induction false} ReverseSnoc(a: char, s: string)
    ensures Reverse([a] + s) == Reverse(s) + [a]
    decreases |s|
  {
    if s == [] {
      assert [a] + s == [a] && Reverse([a]) == [a] + Reverse([a][..0]) == [a];
    } else {
      var t := [a] + s;
      assert t[..|t| - 1] == [a] + s[..|s| - 1];
      ReverseSnoc(a, s[..|s| - 1]);
      assert [s[|s| - 1]] + (Reverse(s[..|s| - 1]) + [a]) == [s[|s| - 1]] + Reverse(s[..|s| - 1]) + [a];
    }
  }

  /**
   * After the text of an expression, what has been put out and what is pending on the stack
   * together are its postfix form, and all that is pending is at least as strong as its place asks.
   */
  lemma {:induction false} ReadsExpr(e: Expr, rank: nat, stack: string, out: string) returns (done: string, ops: string)
    requires Proper(e) && 0 < rank && stack != [] && Rank(stack[|stack| - 1]) <= rank
    ensures ReadAll(State(stack, out), Show(e, rank)) == State(stack + ops, out + done)
    ensures done + Reverse(ops) == Postfix(e) && AllAbove(ops, rank - 1)
    ensures Closes(State(stack, out), Show(e, rank))
    decreases e, 2
  {
    match e
    case Leaf(c) =>
      done, ops := [c], [];
      ReadOne(State(stack, out), c);
      assert stack + [] == stack;
    case Op(op, l, r) =>
      if Rank(op) < rank {
        done, ops := ReadsParens(e, stack, out);
      } else {
        done, ops := ReadsBare(op, l, r, stack, out);
      }
    case Paren(e') =>
      var d, o := ReadsExpr(e', 1, stack + ['('], out);
      ReadsWrapped(Show(e', 1), stack, out, d, o);
      done, ops := d + Reverse(o), [];
      assert stack + [] == stack;
      assert out + (d + Reverse(o)) == out + d + Reverse(o);
  }

  /** A text read between parentheses leaves nothing pending. */
  lemma ReadsWrapped(w: string, stack: string, out: string, d: string, o: string)
    requires ReadAll(State(stack + ['('], out), w) == State(stack + ['('] + o, out + d) && AllAbove(o, 0)
    requires Closes(State(stack + ['('], out), w)
    ensures ReadAll(State(stack, out), "(" + w + ")") == State(stack, out + d + Reverse(o))
    ensures Closes(State(stack, out), "(" + w + ")")
  {
    var s := State(stack, out);
    ReadOne(s, '(');
    ReadAllTwo(s, "(", w);
    ReadAllTwo(s, "(" + w, ")");
    var t := State(stack + ['('] + o, out + d);
    assert t.stack[|stack|] == '(';
    ReadOne(t, ')');
    UnwindAll(stack, o, out + d);
  }

  lemma {:induction false} ReadsParens(e: Expr, stack: string, out: string) returns (done: string, ops: string)
    requires Proper(e) && e.Op? && stack != []
    ensures ReadAll(State(stack, out), "(" + Bare(e.op, e.l, e.r) + ")") == State(stack + ops, out + done)
    ensures done + Reverse(ops) == Postfix(e) && ops == []
    ensures Closes(State(stack, out), "(" + Bare(e.op, e.l, e.r) + ")")
    decreases e, 1
  {
    var d, o := ReadsBare(e.op, e.l, e.r, stack + ['('], out);
    assert AllAbove(o, 0);
    ReadsWrapped(Bare(e.op, e.l, e.r), stack, out, d, o);
    done, ops := d + Reverse(o), [];
    assert stack + [] == stack;
    assert out + (d + Reverse(o)) == out + d + Reverse(o);
  }

  lemma {:induction false} ReadsBare(op: char, l: Expr, r: Expr, stack: string, out: string) returns (done: string, ops: string)
    requires Proper(Op(op, l, r)) && stack != [] && Rank(stack[|stack| - 1]) <= Rank(op)
    ensures ReadAll(State(stack, out), Bare(op, l, r)) == State(stack + ops, out + done)
    ensures done + Reverse(ops) == Postfix(Op(op, l, r)) && AllAbove(ops, Rank(op) - 1)
    ensures Closes(State(stack, out), Bare(op, l, r))
    decreases Op(op, l, r), 0
  {
    hide Reverse, Displace, Unwind, Show, ReadAll, Closes, AllAbove;
    var s := State(stack, out);
    var ld, lo := ReadsExpr(l, Rank(op) + 1, stack, out);
    DisplaceAll(stack, lo, out + ld, Rank(op));
    var mid := out + ld + Reverse(lo);
    Regroup(out, ld, Reverse(lo));
    ReadOne(State(stack + lo, out + ld), op);
    var rd, ro := ReadsExpr(r, Rank(op), stack + [op], mid);
    ReadAllTwo(s, Show(l, Rank(op) + 1), [op]);
    ReadAllTwo(s, Show(l, Rank(op) + 1) + [op], Show(r, Rank(op)));
    done, ops := Postfix(l) + rd, [op] + ro;
    ReverseSnoc(op, ro);
    AllAboveCons(op, ro);
    Regroup(stack, [op], ro);
    Regroup(out, Postfix(l), rd);
    Regroup(Postfix(l), rd, Reverse(ro) + [op]);
    Regroup(rd, Reverse(ro), [op]);
    Regroup(Postfix(l), rd + Reverse(ro), [op]);
  }

  lemma AllAboveCons(op: char, ops: string)
    requires Rank(op) > 0 && AllAbove(ops, Rank(op) - 1)
    ensures AllAbove([op] + ops, Rank(op) - 1)
  {
  }

  /** The whole text: its postfix form comes out, and only the terminator is left on the stack. */
  lemma TransformIsPostfix(e: Expr)
    requires Proper(e)
    ensures Closes(START, Show(e, 1))
    ensures Displace(ReadAll(START, Show(e, 1)), 0) == State([TERMINATOR], Postfix(e))
  {
    var done, ops := ReadsExpr(e, 1, [TERMINATOR], []);
    DisplaceAll([TERMINATOR], ops, [] + done, 0);
    assert [] + done == done;
  }

  /** Operators of equal rank group to the right: the text a-b-c stands for a-(b-c). */
  lemma EqualRanksGroupRight(a: char, b: char, c: char)
    ensures Show(Op('-', Leaf(a), Op('-', Leaf(b), Leaf(c))), 1) == [a, '-', b, '-', c]
    ensures Postfix(Op('-', Leaf(a), Op('-', Leaf(b), Leaf(c)))) == [a, b, c, '-', '-']
    ensures Proper(Leaf(a)) && Proper(Leaf(b)) && Proper(Leaf(c)) ==>
              Displace(ReadAll(START, [a, '-', b, '-', c]), 0) == State([TERMINATOR], [a, b, c, '-', '-'])
  {
    var x, y, z := Leaf(a), Leaf(b), Leaf(c);
    var inner := Op('-', y, z);
    assert Show(x, 2) == [a] && Show(y, 2) == [b] && Show(z, 1) == [c];
    assert Show(inner, 1) == Bare('-', y, z) == [b] + ['-'] + [c];
    assert Show(Op('-', x, inner), 1) == Bare('-', x, inner) == [a] + ['-'] + [b, '-', c];
    assert Postfix(inner) == [b] + [c] + ['-'];
    assert Postfix(Op('-', x, inner)) == [a] + [b, c, '-'] + ['-'];
    if Proper(x) && Proper(y) && Proper(z) {
      TransformIsPostfix(Op('-', x, inner));
    }
  }

  // ----- sums, products and factors -----

  /** No operand is written like an operator, a parenthesis or the terminator. */
  predicate Written(s: Sum) {
    Free(SumOperands(s))
  }

  predicate Free(operands: set<char>) {
    operands !! {'+', '-', '*', '/', '(', ')', '#'}
  }

  function SumExpr(s: Sum): Expr {
    match s
    case Alone(p) => ProductExpr(p)
    case Plus(p, s') => Op('+', ProductExpr(p), SumExpr(s'))
    case Minus(p, s') => Op('-', ProductExpr(p), SumExpr(s'))
  }

  function ProductExpr(p: Product): Expr {
    match p
    case Single(f) => FactorExpr(f)
    case Times(f, p') => Op('*', FactorExpr(f), ProductExpr(p'))
    case Divide(f, p') => Op('/', FactorExpr(f), ProductExpr(p'))
  }

  function FactorExpr(f: Factor): Expr {
    match f
    case Operand(c) => Leaf(c)
    case Parens(s) => Paren(SumExpr(s))
  }

  lemma {:induction false} SumShown(s: Sum)
    requires Written(s)
    ensures Proper(SumExpr(s)) && Show(SumExpr(s), 1) == SumText(s) && Postfix(SumExpr(s)) == SumPostfix(s)
  {
    match s
    case Alone(p) => ProductShown(p, 1);
    case Plus(p, s') => ProductShown(p, 2); SumShown(s');
    case Minus(p, s') => ProductShown(p, 2); SumShown(s');
  }

  lemma {:induction false} ProductShown(p: Product, rank: nat)
    requires Free(ProductOperands(p)) && 1 <= rank <= 2
    ensures Proper(ProductExpr(p)) && Show(ProductExpr(p), rank) == ProductText(p) && Postfix(ProductExpr(p)) == ProductPostfix(p)
  {
    match p
    case Single(f) => FactorShown(f, rank);
    case Times(f, p') => FactorShown(f, 3); ProductShown(p', 2);
    case Divide(f, p') => FactorShown(f, 3); ProductShown(p', 2);
  }

  lemma {:induction false} FactorShown(f: Factor, rank: nat)
    requires Free(FactorOperands(f))
    ensures Proper(FactorExpr(f)) && Show(FactorExpr(f), rank) == FactorText(f) && Postfix(FactorExpr(f)) == FactorPostfix(f)
  {
    match f
    case Operand(c) =>
    case Parens(s) => SumShown(s);
  }

  /**
   * The machine reads every sum of products of factors to its postfix form: products bind stronger than
   * sums, parentheses stronger than both.
   */
  lemma SumIsRead(s: Sum)
    requires Written(s)
    ensures Displace(ReadAll(START, SumText(s)), 0) == State([TERMINATOR], SumPostfix(s))
    ensures Closes(START, SumText(s))
  {
    SumShown(s);
    TransformIsPostfix(SumExpr(s));
  }

  /** And every text that an expression is printed to is the text of such a sum. */
  lemma {:induction false} ShownIsSum(e: Expr) returns (s: Sum)
    requires Proper(e)
    ensures Written(s) && SumText(s) == Show(e, 1) && SumPostfix(s) == Postfix(e)
    decreases e, 3
  {
    if e.Op? && Rank(e.op) == 1 {
      var p := ShownIsProduct(e.l);
      var s' := ShownIsSum(e.r);
      s := if e.op == '+' then Plus(p, s') else Minus(p, s');
      assert SumOperands(s) == ProductOperands(p) + SumOperands(s');
    } else {
      var p := BareIsProduct(e);
      s := Alone(p);
    }
  }

  /** An expression without a bare sum at its top. */
  lemma {:induction false} BareIsProduct(e: Expr) returns (p: Product)
    requires Proper(e) && (e.Op? ==> Rank(e.op) == 2)
    ensures Free(ProductOperands(p)) && ProductText(p) == Show(e, 1) == Show(e, 2) && ProductPostfix(p) == Postfix(e)
    decreases e, 1
  {
    match e
    case Leaf(c) => p := Single(Operand(c));
    case Op(op, l, r) =>
      var f := ShownIsFactor(l);
      var p' := ShownIsProduct(r);
      p := if op == '*' then Times(f, p') else Divide(f, p');
      assert ProductOperands(p) == FactorOperands(f) + ProductOperands(p');
    case Paren(e') =>
      var s := ShownIsSum(e');
      p := Single(Parens(s));
  }

  lemma {:induction false} ShownIsProduct(e: Expr) returns (p: Product)
    requires Proper(e)
    ensures Free(ProductOperands(p)) && ProductText(p) == Show(e, 2) && ProductPostfix(p) == Postfix(e)
    decreases e, 4
  {
    if e.Op? && Rank(e.op) == 1 {
      var s := ShownIsSum(e);
      p := Single(Parens(s));
    } else {
      p := BareIsProduct(e);
    }
  }

  lemma {:induction false} ShownIsFactor(e: Expr) returns (f: Factor)
    requires Proper(e)
    ensures Free(FactorOperands(f)) && FactorText(f) == Show(e, 3) && FactorPostfix(f) == Postfix(e)
    decreases e, 4
  {
    match e
    case Leaf(c) => f := Operand(c);
    case Op(op, l, r) =>
      var s := ShownIsSum(e);
      f := Parens(s);
    case Paren(e') =>
      var s := ShownIsSum(e');
      f := Parens(s);
  }

  // ----- the program -----

  lemma {:induction false} DisplaceKeeps(s: State, rank: nat)
    requires s.stack != [] && s.stack[0] == TERMINATOR
    ensures var t := Displace(s, rank);
            t.stack != [] && t.stack[0] == TERMINATOR && |t.stack| + |t.out| == |s.stack| + |s.out|
    decreases |s.stack|
  {
    if Rank(s.stack[|s.stack| - 1]) > rank {
      DisplaceKeeps(State(s.stack[..|s.stack| - 1], s.out + [s.stack[|s.stack| - 1]]), rank);
    }
  }

  lemma {:induction false} UnwindKeeps(s: State)
    requires s.stack != [] && s.stack[0] == TERMINATOR && '(' in s.stack
    ensures var t := Unwind(s);
            t.stack != [] && t.stack[0] == TERMINATOR && |t.stack| + |t.out| < |s.stack| + |s.out|
    decreases |s.stack|
  {
    var last := s.stack[|s.stack| - 1];
    if last != '(' {
      assert '(' in s.stack[..|s.stack| - 1] by {
        var i :| 0 <= i < |s.stack| && s.stack[i] == '(';
        assert s.stack[..|s.stack| - 1][i] == '(';
      }
      UnwindKeeps(State(s.stack[..|s.stack| - 1], s.out + [last]));
    }
  }

  /** The terminator stays at the bottom, and no more is on the stack and in the output than was read. */
  lemma ReadKeeps(s: State, c: char)
    requires s.stack != [] && s.stack[0] == TERMINATOR && (c == ')' ==> '(' in s.stack)
    ensures var t := Read(s, c);
            t.stack != [] && t.stack[0] == TERMINATOR && |t.stack| + |t.out| <= |s.stack| + |s.out| + 1
  {
    if c == ')' {
      UnwindKeeps(s);
    } else if IsOperator(c) && c != '(' {
      DisplaceKeeps(s, Rank(c));
    }
  }

  class Translator {
    const suffix: array<char>

    constructor (size: nat)
      ensures fresh(suffix) && suffix.Length == size
    {
      suffix := new char[size];
    }

    /** Pops what is stronger than the given rank into the suffix. */
    method DisplaceInto(stack: string, j: nat, rank: nat) returns (newStack: string, newJ: nat)
      requires stack != [] && stack[0] == TERMINATOR && j + |stack| <= suffix.Length
      modifies suffix
      ensures newJ + |newStack| <= suffix.Length && newJ >= j
      ensures State(newStack, suffix[..newJ]) == Displace(State(stack, old(suffix[..j])), rank)
      ensures newJ + |newStack| == j + |stack|
    {
      newStack, newJ := stack, j;
      while newStack != [] && Rank(newStack[|newStack| - 1]) > rank
        invariant j <= newJ && newJ + |newStack| == j + |stack|
        invariant Displace(State(newStack, suffix[..newJ]), rank) == Displace(State(stack, old(suffix[..j])), rank)
        decreases |newStack|
      {
        ghost var before := suffix[..newJ];
        suffix[newJ] := newStack[|newStack| - 1];
        assert suffix[..newJ + 1] == before + [newStack[|newStack| - 1]];
        newJ := newJ + 1;
        newStack := newStack[..|newStack| - 1];
      }
    }

    /** Pops into the suffix down to the opening parenthesis, which is dropped. */
    method UnwindInto(stack: string, j: nat) returns (newStack: string, newJ: nat)
      requires '(' in stack && j + |stack| <= suffix.Length
      modifies suffix
      ensures newJ + |newStack| < j + |stack|
      ensures State(newStack, suffix[..newJ]) == Unwind(State(stack, old(suffix[..j])))
    {
      var tmp := stack[|stack| - 1];
      newStack, newJ := stack[..|stack| - 1], j;
      PopKeeps(stack);
      while tmp != '('
        invariant newJ + |newStack| + 1 == j + |stack| && (tmp != '(' ==> '(' in newStack)
        invariant Unwind(State(newStack + [tmp], suffix[..newJ])) == Unwind(State(stack, old(suffix[..j])))
        decreases |newStack|
      {
        ghost var before := suffix[..newJ];
        suffix[newJ] := tmp;
        assert suffix[..newJ + 1] == before + [tmp];
        assert (newStack + [tmp])[..|newStack|] == newStack;
        newJ := newJ + 1;
        tmp := newStack[|newStack| - 1];
        PopKeeps(newStack);
        newStack := newStack[..|newStack| - 1];
      }
      assert (newStack + [tmp])[..|newStack|] == newStack;
    }

    /** Writes the postfix form of the text of a sum, followed by the terminator and a zero. */
    method Transform(exp: string, ghost t: Sum) returns (j: nat)
      requires Written(t) && exp == SumText(t) + [TERMINATOR] && suffix.Length > |exp|
      modifies suffix
      ensures j < suffix.Length && suffix[..j] == SumPostfix(t) + [TERMINATOR] && suffix[j] == '\0'
    {
      hide SumText, SumPostfix, ReadAll, Closes, Displace, Unwind;
      ghost var w := SumText(t);
      ghost var goal := ReadAll(START, w);
      SumIsRead(t);
      var i := 0;
      j := 0;
      var stack: string := [TERMINATOR];
      assert w[0..] == w && suffix[..0] == [];
      while exp[i] != TERMINATOR
        invariant 0 <= i <= |w| && stack != [] && stack[0] == TERMINATOR && j + |stack| <= i + 1
        invariant Closes(State(stack, suffix[..j]), w[i..]) && ReadAll(State(stack, suffix[..j]), w[i..]) == goal
        decreases |w| - i
      {
        stack, j := ReadInto(stack, j, i, exp, w, goal);
        i := i + 1;
      }
      NothingLeft(State(stack, suffix[..j]), w, i);
      stack, j := DisplaceInto(stack, j, 0);
      assert stack == [TERMINATOR] && suffix[..j] == SumPostfix(t);
      suffix[j] := stack[|stack| - 1];
      stack := stack[..|stack| - 1];
      j := j + 1;
      assert suffix[..j] == SumPostfix(t) + [TERMINATOR];
      suffix[j] := '\0';
    }

    /** One character of the text. */
    method ReadInto(stack: string, j: nat, i: nat, exp: string, ghost w: string, ghost goal: State) returns (newStack: string, newJ: nat)
      requires i < |w| && exp == w + [TERMINATOR] && exp[i] != TERMINATOR && suffix.Length > |exp|
      requires stack != [] && stack[0] == TERMINATOR && j + |stack| <= i + 1
      requires Closes(State(stack, suffix[..j]), w[i..]) && ReadAll(State(stack, suffix[..j]), w[i..]) == goal
      modifies suffix
      ensures newStack != [] && newStack[0] == TERMINATOR && newJ + |newStack| <= i + 2
      ensures Closes(State(newStack, suffix[..newJ]), w[i + 1..]) && ReadAll(State(newStack, suffix[..newJ]), w[i + 1..]) == goal
    {
      hide Displace, Unwind;
      ghost var s := State(stack, suffix[..j]);
      assert w[i..][0] == exp[i] && w[i..][1..] == w[i + 1..];
      ReadKeeps(s, exp[i]);
      newStack, newJ := stack, j;
      if !IsOperator(exp[i]) {
        suffix[j] := exp[i];
        newJ := j + 1;
        assert suffix[..newJ] == s.out + [exp[i]];
      } else if exp[i] == '(' {
        newStack := stack + [exp[i]];
      } else if exp[i] == ')' {
        newStack, newJ := UnwindInto(stack, j);
      } else {
        newStack, newJ := DisplaceInto(stack, j, Rank(exp[i]));
        newStack := newStack + [exp[i]];
      }
      assert State(newStack, suffix[..newJ]) == Read(s, exp[i]);
    }
  }

  lemma PopKeeps(stack: string)
    ensures '(' in stack ==> stack[|stack| - 1] == '(' || '(' in stack[..|stack| - 1]
    ensures stack != [] ==> stack == stack[..|stack| - 1] + [stack[|stack| - 1]]
  {
    if '(' in stack {
      var i :| 0 <= i < |stack| && stack[i] == '(';
      if i < |stack| - 1 {
        assert stack[..|stack| - 1][i] == '(';
      }
    }
  }

  /** The first terminator of the text is the one at its end. */
  lemma NothingLeft(s: State, w: string, i: nat)
    requires i <= |w| && Closes(s, w[i..]) && (w + [TERMINATOR])[i] == TERMINATOR
    ensures i == |w| && ReadAll(s, w[i..]) == s
  {
  }
}
