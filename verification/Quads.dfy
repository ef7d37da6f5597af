/**
 * Postfix to quadruples: the first operator and the two operands before it are replaced, over and
 * over, by the next temporary. Running the quadruples in order computes the expression's value if and
 * only if no operand is read after a temporary of its name has been written.
 */
module Quads {
  import opened Sequences
  import opened Formulas
  import opened Infix

  datatype Quad = Quad(op: char, a1: char, a2: char, rs: char)

  type Env = map<char, int>

  function Lookup(env: Env, c: char): int {
    if c in env then env[c] else 0
  }

  function Value(f: Meaning, e: Expr, env: Env): int {
    match e
    case Leaf(c) => Lookup(env, c)
    case Op(op, l, r) => f(op, Value(f, l, env), Value(f, r, env))
    case Paren(e') => Value(f, e', env)
  }

  /** A quadruple stores what its operator computes; the last one of a program copies. */
  function Stored(f: Meaning, q: Quad, env: Env): int {
    if q.op == '=' then Lookup(env, q.a1) else f(q.op, Lookup(env, q.a1), Lookup(env, q.a2))
  }

  function Run(f: Meaning, quads: seq<Quad>, env: Env): Env {
    if quads == [] then env else Run(f, quads[1..], env[quads[0].rs := Stored(f, quads[0], env)])
  }

  lemma {:induction false} RunTwo(f: Meaning, p: seq<Quad>, q: seq<Quad>, env: Env)
    ensures Run(f, p + q, env) == Run(f, q, Run(f, p, env))
    decreases |p|
  {
    if p == [] {
      assert p + q == q;
    } else {
      RunTwo(f, p[1..], q, env[p[0].rs := Stored(f, p[0], env)]);
      assert (p + q)[1..] == p[1..] + q;
    }
  }

  /** Evaluates a postfix text on a stack of values. */
  function Eval(f: Meaning, w: string, env: Env, vals: seq<int>): seq<int>
    decreases |w|
  {
    if w == [] then vals
    else if !Computes(w[0]) then Eval(f, w[1..], env, vals + [Lookup(env, w[0])])
    else if |vals| < 2 then []
    else Eval(f, w[1..], env, vals[..|vals| - 2] + [f(w[0], vals[|vals| - 2], vals[|vals| - 1])])
  }

  /** How many values a postfix text leaves on top of n; never fewer than two before an operator. */
  predicate Leaves(w: string, n: nat, m: nat)
    decreases |w|
  {
    if w == [] then n == m
    else if !Computes(w[0]) then Leaves(w[1..], n + 1, m)
    else n >= 2 && Leaves(w[1..], n - 1, m)
  }

  lemma {:induction false} EvalTwo(f: Meaning, u: string, v: string, env: Env, vals: seq<int>, n: nat)
    requires Leaves(u, |vals|, n)
    ensures |Eval(f, u, env, vals)| == n && Eval(f, u + v, env, vals) == Eval(f, v, env, Eval(f, u, env, vals))
    decreases |u|
  {
    if u == [] {
      assert u + v == v;
    } else {
      assert (u + v)[1..] == u[1..] + v;
      if !Computes(u[0]) {
        EvalTwo(f, u[1..], v, env, vals + [Lookup(env, u[0])], n);
      } else {
        EvalTwo(f, u[1..], v, env, vals[..|vals| - 2] + [f(u[0], vals[|vals| - 2], vals[|vals| - 1])], n);
      }
    }
  }

  lemma {:induction false} LeavesTwo(u: string, v: string, n: nat, m: nat, k: nat)
    requires Leaves(u, n, m)
    ensures Leaves(u + v, n, k) <==> Leaves(v, m, k)
    decreases |u|
  {
    if u == [] {
      assert u + v == v;
    } else {
      assert (u + v)[1..] == u[1..] + v;
      LeavesTwo(u[1..], v, if Computes(u[0]) then n - 1 else n + 1, m, k);
    }
  }

  /** The postfix form of an expression leaves one value, the expression's. */
  lemma {:induction false} PostfixValue(f: Meaning, e: Expr, env: Env, vals: seq<int>)
    requires Proper(e)
    ensures Leaves(Postfix(e), |vals|, |vals| + 1)
    ensures Eval(f, Postfix(e), env, vals) == vals + [Value(f, e, env)]
  {
    match e
    case Leaf(c) =>
      assert [c][1..] == [];
    case Op(op, l, r) =>
      var x, y := Value(f, l, env), Value(f, r, env);
      PostfixValue(f, l, env, vals);
      PostfixValue(f, r, env, vals + [x]);
      EvalTwo(f, Postfix(l), Postfix(r), env, vals, |vals| + 1);
      LeavesTwo(Postfix(l), Postfix(r), |vals|, |vals| + 1, |vals| + 2);
      EvalTwo(f, Postfix(l) + Postfix(r), [op], env, vals, |vals| + 2);
      LeavesTwo(Postfix(l) + Postfix(r), [op], |vals|, |vals| + 2, |vals| + 1);
      assert [op][1..] == [];
      var all := vals + [x] + [y];
      assert all[..|all| - 2] == vals;
    case Paren(e') =>
      PostfixValue(f, e', env, vals);
  }

  // ----- one replacement -----

  /** Where the first operator stands; the length of the text when there is none. */
  function FirstOperator(w: string): (i: nat)
    ensures i <= |w| && (i < |w| ==> Computes(w[i]))
    ensures forall k :: 0 <= k < i ==> !Computes(w[k])
  {
    if w == [] || Computes(w[0]) then 0 else 1 + FirstOperator(w[1..])
  }

  /** The first operator and its operands replaced by a temporary. */
  function Replaced(w: string, t: char): string
    requires 2 <= FirstOperator(w) < |w|
  {
    w[..FirstOperator(w) - 2] + [t] + w[FirstOperator(w) + 1..]
  }

  function QuadOf(w: string, t: char): Quad
    requires 2 <= FirstOperator(w) < |w|
  {
    Quad(w[FirstOperator(w)], w[FirstOperator(w) - 2], w[FirstOperator(w) - 1], t)
  }

  lemma {:induction false} LeavesOperands(w: string, n: nat)
    requires forall k :: 0 <= k < |w| ==> !Computes(w[k])
    ensures Leaves(w, n, n + |w|)
    decreases |w|
  {
    if w != [] {
      LeavesOperands(w[1..], n + 1);
    }
  }

  lemma {:induction false} NoOperators(w: string)
    requires forall k :: 0 <= k < |w| ==> !Computes(w[k])
    ensures Operators(w) == 0
  {
    if w != [] {
      NoOperators(w[1..]);
    }
  }

  lemma {:induction false} EvalIgnores(f: Meaning, w: string, env: Env, t: char, v: int, vals: seq<int>)
    requires t !in w
    ensures Eval(f, w, env[t := v], vals) == Eval(f, w, env, vals)
    decreases |w|
  {
    if w != [] {
      if !Computes(w[0]) {
        EvalIgnores(f, w[1..], env, t, v, vals + [Lookup(env, w[0])]);
      } else if |vals| >= 2 {
        EvalIgnores(f, w[1..], env, t, v, vals[..|vals| - 2] + [f(w[0], vals[|vals| - 2], vals[|vals| - 1])]);
      }
    }
  }

  /** The first operator of a postfix text has its two operands right before it. */
  lemma FirstHasOperands(w: string)
    requires Leaves(w, 0, 1) && Operators(w) > 0
    ensures 2 <= FirstOperator(w) < |w|
  {
    var i := FirstOperator(w);
    LeavesOperands(w[..i], 0);
    assert w == w[..i] + w[i..];
    LeavesTwo(w[..i], w[i..], 0, i, 1);
    if i == |w| {
      NoOperators(w);
    }
  }

  /** One token in place of two operands and their operator. */
  lemma ShapeKept(u: string, x: string, y: string, v: string)
    requires |x| == 3 && !Computes(x[0]) && !Computes(x[1]) && Computes(x[2]) && |y| == 1 && !Computes(y[0])
    requires (forall k :: 0 <= k < |u| ==> !Computes(u[k])) && Leaves(u + x + v, 0, 1)
    ensures Leaves(u, 0, |u|) && Leaves(x, |u|, |u| + 1) && Leaves(y, |u|, |u| + 1) && Leaves(v, |u| + 1, 1)
    ensures Leaves(u + x, 0, |u| + 1) && Leaves(u + y, 0, |u| + 1) && Leaves(u + y + v, 0, 1)
  {
    var n := |u|;
    LeavesOperands(u, 0);
    ThreeLeaveOne((c, x, y) => 0, x, map[], [], n);
    assert Leaves(y, n, n + 1) by { assert y[1..] == []; }
    hide Leaves;
    LeavesTwo(u, x, 0, n, n + 1);
    LeavesTwo(u, y, 0, n, n + 1);
    LeavesTwo(u + x, v, 0, n + 1, 1);
    LeavesTwo(u + y, v, 0, n + 1, 1);
  }

  lemma Parted(w: string, t: char)
    requires 2 <= FirstOperator(w) < |w|
    ensures var i := FirstOperator(w); var u, x, v := w[..i - 2], w[i - 2..i + 1], w[i + 1..];
            && w == u + x + v && Replaced(w, t) == u + [t] + v && (forall k :: 0 <= k < |u| ==> !Computes(u[k]))
            && |x| == 3 && !Computes(x[0]) && !Computes(x[1]) && Computes(x[2])
  {
  }

  /** A replacement leaves a postfix text with one operator less. */
  lemma ReplacedShape(w: string, t: char)
    requires Leaves(w, 0, 1) && 2 <= FirstOperator(w) < |w| && !Computes(t)
    ensures Leaves(Replaced(w, t), 0, 1) && Operators(Replaced(w, t)) == Operators(w) - 1
  {
    hide Leaves, Replaced, Operators;
    Parted(w, t);
    var i := FirstOperator(w);
    ShapeKept(w[..i - 2], w[i - 2..i + 1], [t], w[i + 1..]);
    CountsDown(w[..i - 2], w[i - 2..i + 1], [t], w[i + 1..]);
  }

  /** The tokens other than the first operator and its operands. */
  function Others(w: string): string
    requires 2 <= FirstOperator(w) < |w|
  {
    w[..FirstOperator(w) - 2] + w[FirstOperator(w) + 1..]
  }

  /**
   * A replacement, and the value of its quadruple kept in the temporary, do not change what the text
   * evaluates to, as long as no other token has the temporary's name.
   */
  lemma ReplacedKeepsValue(f: Meaning, w: string, env: Env, t: char)
    requires Leaves(w, 0, 1) && 2 <= FirstOperator(w) < |w| && t !in Others(w) && !Computes(t)
    ensures Leaves(Replaced(w, t), 0, 1) && Operators(Replaced(w, t)) == Operators(w) - 1
    ensures Eval(f, Replaced(w, t), Run(f, [QuadOf(w, t)], env), []) == Eval(f, w, env, [])
  {
    Parted(w, t);
    QuadWrites(f, w, env, t);
    var i := FirstOperator(w);
    var u, x, v := w[..i - 2], w[i - 2..i + 1], w[i + 1..];
    assert t !in u && t !in v by { OthersHold(u, v, t); }
    hide FirstOperator, Replaced, QuadOf, Leaves, Run, Eval, Operators;
    Leftover(f, u, x, [t], v, env, Run(f, [QuadOf(w, t)], env), f(x[2], Lookup(env, x[0]), Lookup(env, x[1])));
    CountsDown(u, x, [t], v);
  }

  lemma OthersHold(u: string, v: string, t: char)
    ensures t in u + v <==> t in u || t in v
  {
  }

  /** A quadruple of a text writes what its operator makes of its two operands. */
  lemma QuadWrites(f: Meaning, w: string, env: Env, t: char)
    requires 2 <= FirstOperator(w) < |w|
    ensures var x := w[FirstOperator(w) - 2..FirstOperator(w) + 1];
            Run(f, [QuadOf(w, t)], env) == env[t := f(x[2], Lookup(env, x[0]), Lookup(env, x[1]))]
  {
    assert [QuadOf(w, t)][1..] == [];
  }

  lemma CountsDown(u: string, x: string, y: string, v: string)
    requires |x| == 3 && !Computes(x[0]) && !Computes(x[1]) && Computes(x[2]) && |y| == 1 && !Computes(y[0])
    ensures Operators(u + y + v) == Operators(u + x + v) - 1
  {
    OperatorsTwo(u + x, v);
    OperatorsTwo(u, x);
    OperatorsTwo(u + y, v);
    OperatorsTwo(u, y);
    assert x[1..][1..] == [x[2]] && [x[2]][1..] == [] && y[1..] == [];
    assert Operators(x[1..]) == Operators(x[1..][1..]) && Operators([x[2]]) == 1;
  }

  lemma Leftover(f: Meaning, u: string, x: string, y: string, v: string, env: Env, env': Env, val: int)
    requires |x| == 3 && !Computes(x[0]) && !Computes(x[1]) && Computes(x[2]) && |y| == 1 && !Computes(y[0])
    requires (forall k :: 0 <= k < |u| ==> !Computes(u[k])) && Leaves(u + x + v, 0, 1)
    requires val == f(x[2], Lookup(env, x[0]), Lookup(env, x[1])) && env' == env[y[0] := val] && y[0] !in u && y[0] !in v
    ensures Leaves(u + y + v, 0, 1) && Eval(f, u + y + v, env', []) == Eval(f, u + x + v, env, [])
  {
    var n := |u|;
    ShapeKept(u, x, y, v);
    ThreeLeaveOne(f, x, env, Eval(f, u, env, []), n);
    EvalTwo(f, u, x, env, [], n);
    EvalTwo(f, u + x, v, env, [], n + 1);
    EvalTwo(f, u, y, env', [], n);
    EvalTwo(f, u + y, v, env', [], n + 1);
    EvalIgnores(f, u, env, y[0], val, []);
    var vals := Eval(f, u, env, []);
    assert Eval(f, y, env', vals) == vals + [val] by {
      assert y[1..] == [];
    }
    EvalIgnores(f, v, env, y[0], val, vals + [val]);
  }

  lemma ThreeLeaveOne(f: Meaning, x: string, env: Env, vals: seq<int>, n: nat)
    requires |x| == 3 && !Computes(x[0]) && !Computes(x[1]) && Computes(x[2])
    ensures Leaves(x, n, n + 1)
    ensures Eval(f, x, env, vals) == vals + [f(x[2], Lookup(env, x[0]), Lookup(env, x[1]))]
  {
    assert x[1..][1..] == [x[2]] && [x[2]][1..] == [] && x[1..][0] == x[1];
    var a := vals + [Lookup(env, x[0])];
    var b := a + [Lookup(env, x[1])];
    assert Leaves([x[2]], n + 2, n + 1) && Leaves(x[1..], n + 1, n + 1);
    assert Eval(f, x, env, vals) == Eval(f, x[1..], env, a) == Eval(f, [x[2]], env, b);
    assert b[..|b| - 2] == vals && b[|b| - 2] == Lookup(env, x[0]) && b[|b| - 1] == Lookup(env, x[1]);
    assert Eval(f, [x[2]], env, b) == Eval(f, [], env, vals + [f(x[2], Lookup(env, x[0]), Lookup(env, x[1]))]);
  }

  // ----- the text with its blanks -----

  predicate IsSpace(c: char) {
    c == ' ' || '\t' <= c <= '\r'
  }

  predicate IsUpper(c: char) {
    'A' <= c <= 'Z'
  }

  predicate IsAlnum(c: char) {
    IsUpper(c) || 'a' <= c <= 'z' || '0' <= c <= '9'
  }

  function Tokens(s: string): string {
    if s == [] then []
    else Tokens(s[..|s| - 1]) + if IsSpace(s[|s| - 1]) then [] else [s[|s| - 1]]
  }

  lemma {:induction false} TokensTwo(a: string, b: string)
    ensures Tokens(a + b) == Tokens(a) + Tokens(b)
    decreases |b|
  {
    if b == [] {
      assert a + b == a;
    } else {
      var front, last := b[..|b| - 1], b[|b| - 1];
      assert (a + b)[..|a + b| - 1] == a + front && (a + b)[|a + b| - 1] == last;
      TokensTwo(a, front);
    }
  }

  lemma {:induction false} TokensOfBlanks(n: nat)
    ensures Tokens(seq(n, _ => ' ')) == []
  {
    if n > 0 {
      TokensOfBlanks(n - 1);
      assert seq(n, _ => ' ')[..n - 1] == seq(n - 1, _ => ' ');
    }
  }

  lemma {:induction false} TokensKeepOperators(s: string)
    ensures (forall k :: 0 <= k < |s| ==> !Computes(s[k])) <==> (forall k :: 0 <= k < |Tokens(s)| ==> !Computes(Tokens(s)[k]))
    ensures |Tokens(s)| <= |s|
  {
    if s != [] {
      var front, last := s[..|s| - 1], s[|s| - 1];
      TokensKeepOperators(front);
      if !IsSpace(last) {
        assert Tokens(s) == Tokens(front) + [last];
        assert Tokens(s)[|Tokens(front)|] == last;
        if forall k :: 0 <= k < |Tokens(s)| ==> !Computes(Tokens(s)[k]) {
          forall k | 0 <= k < |Tokens(front)| ensures !Computes(Tokens(front)[k]) {
            assert Tokens(s)[k] == Tokens(front)[k];
          }
        }
      } else {
        assert !Computes(last) && Tokens(s) == Tokens(front);
        assert forall k :: 0 <= k < |front| ==> s[k] == front[k];
      }
    }
  }

  lemma {:induction false} FirstOperatorIs(w: string, i: nat)
    requires i < |w| && Computes(w[i]) && forall k :: 0 <= k < i ==> !Computes(w[k])
    ensures FirstOperator(w) == i
  {
    if i > 0 {
      FirstOperatorIs(w[1..], i - 1);
    }
  }

  /** Where the first operator of the text stands among its tokens. */
  lemma OperatorPlace(s: string, i: nat)
    requires i < |s| && Computes(s[i]) && forall k :: 0 <= k < i ==> !Computes(s[k])
    ensures var w := Tokens(s);
            && FirstOperator(w) == |Tokens(s[..i])| < |w|
            && w == Tokens(s[..i]) + [s[i]] + Tokens(s[i + 1..]) && w[FirstOperator(w)] == s[i]
  {
    assert s == s[..i] + ([s[i]] + s[i + 1..]);
    TokensTwo(s[..i], [s[i]] + s[i + 1..]);
    TokensTwo([s[i]], s[i + 1..]);
    assert [s[i]][..0] == [] && Tokens([s[i]]) == [s[i]];
    TokensKeepOperators(s[..i]);
    var u, w := Tokens(s[..i]), Tokens(s);
    assert w == u + [s[i]] + Tokens(s[i + 1..]);
    assert w[|u|] == s[i] && forall k :: 0 <= k < |u| ==> w[k] == u[k];
    FirstOperatorIs(w, |u|);
  }

  /** The text with everything from k to i blanked and a temporary put at i. */
  function Blanked(s: string, k: nat, i: nat, t: char): string
    requires k <= i < |s|
  {
    s[..k] + seq(i - k, _ => ' ') + [t] + s[i + 1..]
  }

  /** Blanking the two operands and the operator replaces them among the tokens. */
  lemma BlankedIsReplaced(s: string, k: nat, j: nat, i: nat, t: char)
    requires k < j < i < |s| && Computes(s[i]) && !IsSpace(t) && forall m :: 0 <= m < i ==> !Computes(s[m])
    requires Tokens(s[..i]) == Tokens(s[..j]) + [s[j]] && Tokens(s[..j]) == Tokens(s[..k]) + [s[k]]
    ensures 2 <= FirstOperator(Tokens(s)) < |Tokens(s)|
    ensures Tokens(Blanked(s, k, i, t)) == Replaced(Tokens(s), t) && QuadOf(Tokens(s), t) == Quad(s[i], s[k], s[j], t)
  {
    hide Tokens, FirstOperator, Blanked, Replaced, QuadOf;
    OperatorPlace(s, i);
    BlankedTokens(s, k, i, t);
    ReplacedAt(Tokens(s[..k]), s[k], s[j], s[i], Tokens(s[i + 1..]), t);
  }

  lemma BlankedTokens(s: string, k: nat, i: nat, t: char)
    requires k <= i < |s| && !IsSpace(t)
    ensures Tokens(Blanked(s, k, i, t)) == Tokens(s[..k]) + [] + [t] + Tokens(s[i + 1..])
  {
    hide Tokens;
    var b := seq(i - k, _ => ' ');
    TokensOfBlanks(i - k);
    TokensTwo(s[..k], b);
    TokensTwo(s[..k] + b, [t]);
    TokensTwo(s[..k] + b + [t], s[i + 1..]);
    OneToken(t);
  }

  lemma OneToken(t: char)
    ensures Tokens([t]) == if IsSpace(t) then [] else [t]
  {
    assert [t][..0] == [];
  }

  lemma ReplacedAt(u: string, a: char, b: char, op: char, v: string, t: char)
    requires FirstOperator(u + [a] + [b] + [op] + v) == |u| + 2
    ensures Replaced(u + [a] + [b] + [op] + v, t) == u + [] + [t] + v
    ensures QuadOf(u + [a] + [b] + [op] + v, t) == Quad(op, a, b, t)
  {
    var w := u + [a] + [b] + [op] + v;
    assert w[..|u|] == u && w[|u| + 3..] == v;
  }

  // ----- the program -----

  /** Every token is an operator, a letter or a digit. */
  predicate Ordinary(w: string) {
    forall c :: c in w ==> Computes(c) || IsAlnum(c)
  }

  function Temp(n: nat): (t: char)
    requires n <= 26
    ensures !Computes(t) && (n < 26 ==> IsUpper(t))
  {
    ('A' as int + n) as char
  }

  /** The quadruples made of a text, one for each operator from the first on, with temporaries from the n-th on. */
  function QuadsOf(w: string, n: nat): seq<Quad>
    requires Leaves(w, 0, 1) && n + Operators(w) <= 26
    decreases Operators(w)
  {
    if Operators(w) == 0 then []
    else
      FirstHasOperands(w);
      ReplacedShape(w, Temp(n));
      [QuadOf(w, Temp(n))] + QuadsOf(Replaced(w, Temp(n)), n + 1)
  }

  /** Whenever a temporary is written, no operand of its name is still to be read. */
  predicate Unmixed(w: string, n: nat)
    requires Leaves(w, 0, 1) && n + Operators(w) <= 26
    decreases Operators(w)
  {
    if Operators(w) == 0 then true
    else
      FirstHasOperands(w);
      ReplacedShape(w, Temp(n));
      Temp(n) !in Others(w) && Unmixed(Replaced(w, Temp(n)), n + 1)
  }

  /** Operands that are no capital letter are never mixed up with a temporary. */
  lemma {:induction false} LowerIsUnmixed(w: string, n: nat)
    requires Leaves(w, 0, 1) && n + Operators(w) <= 26 && forall c :: c in w && IsUpper(c) ==> c < Temp(n)
    ensures Unmixed(w, n)
    decreases Operators(w)
  {
    hide Leaves, Operators;
    if Operators(w) > 0 {
      FirstHasOperands(w);
      ReplacedShape(w, Temp(n));
      var r := Replaced(w, Temp(n));
      assert forall c :: c in r ==> c == Temp(n) || c in w;
      assert forall c :: c in Others(w) ==> c in w;
      LowerIsUnmixed(r, n + 1);
    }
  }

  /** What stands for the whole text when no operator is left: the last temporary. */
  function Remains(w: string, n: nat): char
    requires Leaves(w, 0, 1) && n + Operators(w) <= 26
  {
    if Operators(w) == 0 then OneLeft(w); w[0] else Temp(n + Operators(w) - 1)
  }

  lemma RemainsAfter(w: string, n: nat)
    requires Leaves(w, 0, 1) && 0 < Operators(w) && n + Operators(w) <= 26 && 2 <= FirstOperator(w) < |w|
    requires Leaves(Replaced(w, Temp(n)), 0, 1) && Operators(Replaced(w, Temp(n))) == Operators(w) - 1
    ensures Remains(Replaced(w, Temp(n)), n + 1) == Remains(w, n)
  {
    if Operators(w) == 1 {
      OneLeft(Replaced(w, Temp(n)));
      assert Replaced(w, Temp(n))[FirstOperator(w) - 2] == Temp(n);
    }
  }

  /** Where no temporary is mixed up with an operand, the quadruples leave the value of the text. */
  lemma {:induction false} QuadsValue(f: Meaning, w: string, n: nat, env: Env)
    requires Leaves(w, 0, 1) && n + Operators(w) <= 26 && Unmixed(w, n)
    ensures Eval(f, w, env, []) == [Lookup(Run(f, QuadsOf(w, n), env), Remains(w, n))]
    decreases Operators(w)
  {
    hide Eval, Leaves, Operators, FirstOperator, Replaced, Others, QuadOf, Remains, Temp, Lookup;
    if Operators(w) == 0 {
      NothingToDo(f, w, n, env);
    } else {
      FirstHasOperands(w);
      ReplacedShape(w, Temp(n));
      var r, q := Replaced(w, Temp(n)), QuadOf(w, Temp(n));
      ReplacedKeepsValue(f, w, env, Temp(n));
      QuadsValue(f, r, n + 1, Run(f, [q], env));
      RunTwo(f, [q], QuadsOf(r, n + 1), env);
      RemainsAfter(w, n);
    }
  }

  lemma NothingToDo(f: Meaning, w: string, n: nat, env: Env)
    requires Leaves(w, 0, 1) && n <= 26 && Operators(w) == 0
    ensures Eval(f, w, env, []) == [Lookup(Run(f, QuadsOf(w, n), env), Remains(w, n))]
  {
    OneLeft(w);
    assert w[1..] == [];
  }

  // ----- where they are mixed up -----

  /** An operator that counts: all leaves and one for each operator. */
  function Counting(): Meaning {
    (c, x, y) => x + y + 1
  }

  /** What a text counts up to: all its operands and one for each operator. */
  function Total(w: string, env: Env): int {
    if w == [] then 0 else (if Computes(w[0]) then 1 else Lookup(env, w[0])) + Total(w[1..], env)
  }

  lemma {:induction false} TotalTwo(u: string, v: string, env: Env)
    ensures Total(u + v, env) == Total(u, env) + Total(v, env)
  {
    if u == [] {
      assert u + v == v;
    } else {
      TotalTwo(u[1..], v, env);
      assert (u + v)[1..] == u[1..] + v;
    }
  }

  function Sum(vals: seq<int>): int {
    if vals == [] then 0 else Sum(vals[..|vals| - 1]) + vals[|vals| - 1]
  }

  lemma SumMore(vals: seq<int>, x: int)
    ensures Sum(vals + [x]) == Sum(vals) + x
  {
    assert (vals + [x])[..|vals + [x]| - 1] == vals;
  }

  lemma SumOfTwo(vals: seq<int>)
    requires |vals| >= 2
    ensures var low, x, y := vals[..|vals| - 2], vals[|vals| - 2], vals[|vals| - 1];
            Sum(low + [x + y + 1]) == Sum(vals) + 1
  {
    var low, x, y := vals[..|vals| - 2], vals[|vals| - 2], vals[|vals| - 1];
    assert vals == (low + [x]) + [y];
    SumMore(low, x + y + 1);
    SumMore(low, x);
    SumMore(low + [x], y);
  }

  lemma {:induction false} EvalCounts(w: string, env: Env, vals: seq<int>, m: nat)
    requires Leaves(w, |vals|, m)
    ensures |Eval(Counting(), w, env, vals)| == m && Sum(Eval(Counting(), w, env, vals)) == Sum(vals) + Total(w, env)
    decreases |w|
  {
    hide Sum, Computes;
    if w != [] {
      if !Computes(w[0]) {
        SumMore(vals, Lookup(env, w[0]));
        EvalCounts(w[1..], env, vals + [Lookup(env, w[0])], m);
      } else {
        SumOfTwo(vals);
        EvalCounts(w[1..], env, vals[..|vals| - 2] + [vals[|vals| - 2] + vals[|vals| - 1] + 1], m);
      }
    }
  }

  /** A variable that was 0 and no longer is adds something exactly if it is read. */
  lemma {:induction false} TotalRises(w: string, env: Env, t: char, v: int)
    requires Lookup(env, t) == 0 < v && !Computes(t)
    ensures Total(w, env[t := v]) >= Total(w, env) && (Total(w, env[t := v]) == Total(w, env) <==> t !in w)
  {
    if w != [] {
      TotalRises(w[1..], env, t, v);
      assert t in w <==> t == w[0] || t in w[1..];
    }
  }

  /** No variable is below 0, and those from the n-th temporary on have not been written. */
  predicate Begun(env: Env, n: nat)
    requires n <= 26
  {
    forall c :: c in env ==> env[c] >= 0 && c < Temp(n)
  }

  /** A replacement raises what the text counts up to exactly if some other token has the temporary's name. */
  lemma ReplacedTotal(w: string, n: nat, env: Env)
    requires Leaves(w, 0, 1) && 2 <= FirstOperator(w) < |w| && n < 26 && Begun(env, n)
    ensures var r, env' := Replaced(w, Temp(n)), Run(Counting(), [QuadOf(w, Temp(n))], env);
            Begun(env', n + 1) && Total(r, env') >= Total(w, env) && (Total(r, env') == Total(w, env) <==> Temp(n) !in Others(w))
  {
    var i, t := FirstOperator(w), Temp(n);
    var u, x, v := w[..i - 2], w[i - 2..i + 1], w[i + 1..];
    Parted(w, t);
    CountingWrites(w, env, t);
    assert Others(w) == u + v;
    hide *;
    NotBegun(env, n, x[0]);
    NotBegun(env, n, x[1]);
    BegunMore(env, n, Lookup(env, x[0]) + Lookup(env, x[1]) + 1);
    OthersHold(u, v, t);
    TotalChange(u, x, v, t, env);
  }

  lemma CountingWrites(w: string, env: Env, t: char)
    requires 2 <= FirstOperator(w) < |w|
    ensures var x := w[FirstOperator(w) - 2..FirstOperator(w) + 1];
            Run(Counting(), [QuadOf(w, t)], env) == env[t := Lookup(env, x[0]) + Lookup(env, x[1]) + 1]
  {
    hide Run, QuadOf, FirstOperator, Lookup;
    QuadWrites(Counting(), w, env, t);
  }

  lemma NotBegun(env: Env, n: nat, c: char)
    requires n <= 26 && Begun(env, n)
    ensures Lookup(env, c) >= 0 && Lookup(env, Temp(n)) == 0
  {
  }

  lemma BegunMore(env: Env, n: nat, v: int)
    requires n < 26 && Begun(env, n) && v >= 0
    ensures Begun(env[Temp(n) := v], n + 1)
  {
  }

  /** The text counts up to what it did before, where the name of the temporary is read nowhere else. */
  lemma TotalChange(u: string, x: string, v: string, t: char, env: Env)
    requires |x| == 3 && !Computes(x[0]) && !Computes(x[1]) && Computes(x[2]) && !Computes(t)
    requires Lookup(env, x[0]) >= 0 && Lookup(env, x[1]) >= 0 && Lookup(env, t) == 0
    ensures var env' := env[t := Lookup(env, x[0]) + Lookup(env, x[1]) + 1];
            && Total(u + [t] + v, env') >= Total(u + x + v, env)
            && (Total(u + [t] + v, env') == Total(u + x + v, env) <==> t !in u && t !in v)
  {
    var val := Lookup(env, x[0]) + Lookup(env, x[1]) + 1;
    assert x == [x[0]] + [x[1]] + [x[2]];
    TotalOfThree(x[0], x[1], x[2], env);
    assert Total([t], env[t := val]) == val by { assert [t][1..] == []; }
    hide Total, Computes;
    TotalAround(u, x, v, env);
    TotalAround(u, [t], v, env[t := val]);
    TotalRises(u, env, t, val);
    TotalRises(v, env, t, val);
  }

  lemma TotalAround(u: string, x: string, v: string, env: Env)
    ensures Total(u + x + v, env) == Total(u, env) + Total(x, env) + Total(v, env)
  {
    TotalTwo(u + x, v, env);
    TotalTwo(u, x, env);
  }

  lemma TotalOfThree(a: char, b: char, op: char, env: Env)
    requires !Computes(a) && !Computes(b) && Computes(op)
    ensures Total([a] + [b] + [op], env) == Lookup(env, a) + Lookup(env, b) + 1
  {
    TotalTwo([a] + [b], [op], env);
    TotalTwo([a], [b], env);
    assert [a][1..] == [] && [b][1..] == [] && [op][1..] == [];
  }

  /** Counting up, the quadruples leave too much exactly if a temporary is mixed up with an operand. */
  lemma {:induction false} QuadsTotal(w: string, n: nat, env: Env)
    requires Leaves(w, 0, 1) && n + Operators(w) <= 26 && Begun(env, n)
    ensures var left := Lookup(Run(Counting(), QuadsOf(w, n), env), Remains(w, n));
            left >= Total(w, env) && (left == Total(w, env) <==> Unmixed(w, n))
    decreases Operators(w)
  {
    hide Eval, Leaves, Operators, FirstOperator, Replaced, Others, QuadOf, Remains, Temp, Lookup, Begun, Counting;
    if Operators(w) == 0 {
      NothingToDo(Counting(), w, n, env);
      EvalIsTotal(w, env);
    } else {
      FirstHasOperands(w);
      ReplacedShape(w, Temp(n));
      var r, q := Replaced(w, Temp(n)), QuadOf(w, Temp(n));
      ReplacedTotal(w, n, env);
      QuadsTotal(r, n + 1, Run(Counting(), [q], env));
      RunTwo(Counting(), [q], QuadsOf(r, n + 1), env);
      RemainsAfter(w, n);
    }
  }

  lemma EvalIsTotal(w: string, env: Env)
    requires Leaves(w, 0, 1)
    ensures Eval(Counting(), w, env, []) == [Total(w, env)]
  {
    EvalCounts(w, env, [], 1);
    var vals := Eval(Counting(), w, env, []);
    assert vals[..0] == [];
  }

  /**
   * The program made of an expression computes its value, whatever the operators mean and the variables
   * hold, if and only if no operand is read after a temporary of its name has been written.
   */
  lemma ProgramExactly(e: Expr, lval: char)
    requires Proper(e) && Leaves(Postfix(e), 0, 1) && 1 <= Operators(Postfix(e)) <= 26
    ensures (forall f: Meaning, env: Env :: Lookup(Run(f, Program(e, lval), env), lval) == Value(f, e, env))
            <==> Unmixed(Postfix(e), 0)
  {
    hide Eval, Run, Value, Leaves, Operators, Program, Postfix, Unmixed, Total, Lookup, Proper, Counting;
    if Unmixed(Postfix(e), 0) {
      forall f: Meaning, env: Env ensures Lookup(Run(f, Program(e, lval), env), lval) == Value(f, e, env) {
        ProgramRuns(f, e, env, lval);
      }
    } else {
      ProgramCounts(e, lval);
    }
  }

  lemma ProgramCopies(f: Meaning, e: Expr, env: Env, lval: char)
    requires Leaves(Postfix(e), 0, 1) && 1 <= Operators(Postfix(e)) <= 26
    ensures Lookup(Run(f, Program(e, lval), env), lval) == Lookup(Run(f, QuadsOf(Postfix(e), 0), env), Remains(Postfix(e), 0))
  {
    hide Eval, Run, Leaves, Operators, QuadsOf, Postfix, Lookup;
    var w := Postfix(e);
    RunTwo(f, QuadsOf(w, 0), [Quad('=', Remains(w, 0), ' ', lval)], env);
    CopyValue(f, Run(f, QuadsOf(w, 0), env), Remains(w, 0), lval);
  }

  lemma ProgramRuns(f: Meaning, e: Expr, env: Env, lval: char)
    requires Proper(e) && Leaves(Postfix(e), 0, 1) && 1 <= Operators(Postfix(e)) <= 26 && Unmixed(Postfix(e), 0)
    ensures Lookup(Run(f, Program(e, lval), env), lval) == Value(f, e, env)
  {
    hide Eval, Run, Value, Leaves, Operators, Program, QuadsOf, Postfix, Unmixed, Lookup, Proper, Remains;
    ProgramCopies(f, e, env, lval);
    PostfixValue(f, e, env, []);
    QuadsValue(f, Postfix(e), 0, env);
    assert Eval(f, Postfix(e), env, [])[0] == Value(f, e, env);
  }

  /** Counting up from nothing shows every mix-up. */
  lemma ProgramCounts(e: Expr, lval: char)
    requires Proper(e) && Leaves(Postfix(e), 0, 1) && 1 <= Operators(Postfix(e)) <= 26 && !Unmixed(Postfix(e), 0)
    ensures Lookup(Run(Counting(), Program(e, lval), map[]), lval) != Value(Counting(), e, map[])
  {
    hide Eval, Run, Value, Leaves, Operators, Program, QuadsOf, Postfix, Unmixed, Lookup, Proper, Total, Counting, Remains;
    ProgramCopies(Counting(), e, map[], lval);
    PostfixValue(Counting(), e, map[], []);
    EvalIsTotal(Postfix(e), map[]);
    QuadsTotal(Postfix(e), 0, map[]);
    assert Eval(Counting(), Postfix(e), map[], [])[0] == Value(Counting(), e, map[]);
  }

  /** All quadruples of an expression, and the copy of the last temporary to the target. */
  function Program(e: Expr, lval: char): seq<Quad>
    requires Leaves(Postfix(e), 0, 1) && 1 <= Operators(Postfix(e)) <= 26
  {
    QuadsOf(Postfix(e), 0) + [Quad('=', Remains(Postfix(e), 0), ' ', lval)]
  }

  class Maker {
    const suffix: array<char>
    var temp: char

    constructor (text: array<char>)
      ensures suffix == text && temp == 'A'
    {
      suffix, temp := text, 'A';
    }

    /** The last place before i that is not blank. */
    method Before(i: nat) returns (j: nat)
      requires i <= suffix.Length && |Tokens(suffix[..i])| > 0
      ensures j < i && !IsSpace(suffix[j]) && Tokens(suffix[..i]) == Tokens(suffix[..j]) + [suffix[j]]
    {
      LastToken(suffix[..i]);
      j := i - 1;
      assert suffix[..i][..i - 1] == suffix[..i - 1];
      while IsSpace(suffix[j])
        invariant 0 <= j < i && Tokens(suffix[..j + 1]) == Tokens(suffix[..i])
        decreases j
      {
        LastToken(suffix[..j + 1]);
        assert suffix[..j + 1][..j] == suffix[..j];
        j := j - 1;
      }
      assert suffix[..j + 1][..j] == suffix[..j];
    }

    /** Takes the first operator out of the text as a quadruple; not found when none is left. */
    method FindAndDelQuad(ghost h: nat) returns (found: bool, quad: Quad)
      requires 2 <= h < suffix.Length && suffix[h] == TERMINATOR && TERMINATOR !in suffix[..h]
      requires Leaves(Tokens(suffix[..h]), 0, 1) && Ordinary(Tokens(suffix[..h]))
      requires Operators(Tokens(suffix[..h])) > 0 ==> IsUpper(temp)
      modifies suffix, `temp
      ensures found <==> Operators(old(Tokens(suffix[..h]))) > 0
      ensures found ==>
                && 2 <= FirstOperator(old(Tokens(suffix[..h]))) < |old(Tokens(suffix[..h]))|
                && quad == QuadOf(old(Tokens(suffix[..h])), old(temp))
                && Tokens(suffix[..h]) == Replaced(old(Tokens(suffix[..h])), old(temp))
                && temp as int == old(temp) as int + 1
                && suffix[h] == TERMINATOR && TERMINATOR !in suffix[..h]
      ensures !found ==> suffix[..] == old(suffix[..]) && temp == old(temp)
    {
      hide Leaves, Operators, FirstOperator, Tokens, Ordinary;
      ghost var s, w := suffix[..h], Tokens(suffix[..h]);
      quad := Quad(' ', ' ', ' ', ' ');
      var i := 2;
      StartsWithOperands(s);
      while suffix[i] != TERMINATOR
        invariant 2 <= i <= h && forall m :: 0 <= m < i ==> !Computes(suffix[m])
        decreases h - i
      {
        if Computes(suffix[i]) {
          SomeOperator(s, i);
          TwoBefore(s, i);
          assert s[..i] == suffix[..i];
          var j := Before(i);
          assert s[..j] == suffix[..j];
          var k := Before(j);
          assert s[..k] == suffix[..k];
          quad := Quad(suffix[i], suffix[k], suffix[j], temp);
          BlankedIsReplaced(s, k, j, i, temp);
          Blank(k, i, temp);
          assert suffix[..h] == Blanked(s, k, i, temp);
          temp := (temp as int + 1) as char;
          found := true;
          return;
        }
        i := i + 1;
      }
      assert i == h;
      TokensKeepOperators(s);
      NoOperators(w);
      found := false;
    }

    /** Blanks the places from k to i and writes the temporary at i. */
    method Blank(k: nat, i: nat, t: char)
      requires k <= i < suffix.Length
      modifies suffix
      ensures suffix[..] == Blanked(old(suffix[..]), k, i, t)
    {
      ghost var s := suffix[..];
      var m := k;
      while m <= i
        invariant k <= m <= i + 1
        invariant forall n :: 0 <= n < suffix.Length ==> suffix[n] == if k <= n < m then ' ' else s[n]
      {
        suffix[m] := ' ';
        m := m + 1;
      }
      m := m - 1;
      suffix[m] := t;
    }

    /** All quadruples of the text, ending with the copy of the last temporary to the target. */
    method GenQuad(lval: char, ghost e: Expr, ghost h: nat) returns (quads: seq<Quad>)
      requires Proper(e) && h < suffix.Length && suffix[..h] == Postfix(e) && suffix[h] == TERMINATOR
      requires Ordinary(Postfix(e)) && 1 <= Operators(Postfix(e)) <= 26 && temp == 'A'
      modifies suffix, `temp
      ensures Leaves(Postfix(e), 0, 1) && quads == Program(e, lval)
      ensures (forall f: Meaning, env: Env :: Lookup(Run(f, quads, env), lval) == Value(f, e, env)) <==> Unmixed(Postfix(e), 0)
    {
      hide Leaves, Operators, Tokens, Ordinary, Eval, Run, Postfix, Value, FirstOperator, Proper, QuadOf, Replaced, Unmixed;
      PostfixText(e);
      ProgramExactly(e, lval);
      quads := [];
      ghost var w := Postfix(e);
      var found, quad := FindAndDelQuad(h);
      while found
        invariant suffix[h] == TERMINATOR && TERMINATOR !in suffix[..h]
        invariant Leaves(w, 0, 1) && Ordinary(w) && |quads| + Operators(w) == Operators(Postfix(e))
        invariant (found <==> Operators(w) > 0) && temp == Temp(|quads| + if found then 1 else 0)
        invariant found ==> 2 <= FirstOperator(w) < |w| && quad == QuadOf(w, Temp(|quads|)) &&
                            Tokens(suffix[..h]) == Replaced(w, Temp(|quads|))
        invariant quads + QuadsOf(w, |quads|) == QuadsOf(Postfix(e), 0)
        decreases Operators(w)
      {
        ghost var w' := Replaced(w, Temp(|quads|));
        ReplacedShape(w, Temp(|quads|));
        OrdinaryAfter(w, Temp(|quads|));
        Regroup(quads, [quad], QuadsOf(w', |quads| + 1));
        quads := quads + [quad];
        w := w';
        found, quad := FindAndDelQuad(h);
      }
      quads := quads + [Quad('=', (temp as int - 1) as char, ' ', lval)];
    }
  }

  lemma LastToken(s: string)
    requires |Tokens(s)| > 0
    ensures |s| > 0
    ensures Tokens(s) == Tokens(s[..|s| - 1]) + if IsSpace(s[|s| - 1]) then [] else [s[|s| - 1]]
    ensures IsSpace(s[|s| - 1]) ==> |s| > 1
  {
  }

  lemma SomeOperator(s: string, i: nat)
    requires i < |s| && Computes(s[i]) && forall k :: 0 <= k < i ==> !Computes(s[k])
    ensures Operators(Tokens(s)) > 0
  {
    OperatorPlace(s, i);
    var u, v := Tokens(s[..i]), Tokens(s[i + 1..]);
    OperatorsTwo(u + [s[i]], v);
    OperatorsTwo(u, [s[i]]);
    assert [s[i]][1..] == [];
  }

  /** Before the first operator there are at least two tokens. */
  lemma TwoBefore(s: string, i: nat)
    requires i < |s| && Computes(s[i]) && (forall k :: 0 <= k < i ==> !Computes(s[k])) && Leaves(Tokens(s), 0, 1)
    ensures |Tokens(s[..i])| >= 2 && i >= 2
  {
    SomeOperator(s, i);
    FirstHasOperands(Tokens(s));
    OperatorPlace(s, i);
    TokensKeepOperators(s[..i]);
  }

  lemma StartsWithOperands(s: string)
    requires |s| >= 2 && Leaves(Tokens(s), 0, 1)
    ensures !Computes(s[0]) && !Computes(s[1])
  {
    if Computes(s[0]) {
      TwoBefore(s, 0);
    } else if Computes(s[1]) {
      TwoBefore(s, 1);
    }
  }

  lemma CopyValue(f: Meaning, env: Env, last: char, lval: char)
    requires !Computes(last)
    ensures Lookup(Run(f, [Quad('=', last, ' ', lval)], env), lval) == Lookup(env, last)
    ensures Eval(f, [last], env, []) == [Lookup(env, last)]
  {
    var q := Quad('=', last, ' ', lval);
    assert [q][1..] == [] && [last][1..] == [];
    assert Run(f, [q], env) == env[lval := Lookup(env, last)];
  }

  /** A postfix form is its own list of tokens. */
  lemma PostfixText(e: Expr)
    requires Proper(e) && Ordinary(Postfix(e)) && Operators(Postfix(e)) >= 1
    ensures Tokens(Postfix(e)) == Postfix(e) && TERMINATOR !in Postfix(e) && Leaves(Postfix(e), 0, 1) && |Postfix(e)| >= 2
  {
    hide Postfix, Eval, Value;
    PostfixValue((c, x, y) => 0, e, map[], []);
    NoBlanks(Postfix(e));
    FirstHasOperands(Postfix(e));
  }

  lemma {:induction false} NoBlanks(s: string)
    requires Ordinary(s)
    ensures Tokens(s) == s && TERMINATOR !in s
  {
    hide Computes, IsAlnum, IsSpace;
    if s != [] {
      var front, last := s[..|s| - 1], s[|s| - 1];
      NoBlanks(front);
      NoBlank(last);
      assert s == front + [last];
    }
  }

  lemma NoBlank(c: char)
    requires Computes(c) || IsAlnum(c)
    ensures !IsSpace(c) && c != TERMINATOR
  {
  }

  lemma OrdinaryTwo(u: string, v: string)
    ensures Ordinary(u + v) <==> Ordinary(u) && Ordinary(v)
  {
    hide Computes, IsAlnum;
    assert (forall c :: c in u ==> c in u + v) && (forall c :: c in v ==> c in u + v);
  }

  lemma OrdinaryAfter(w: string, t: char)
    requires Ordinary(w) && IsUpper(t) && 2 <= FirstOperator(w) < |w|
    ensures Ordinary(Replaced(w, t))
  {
    Parted(w, t);
    var i := FirstOperator(w);
    var u, x, v := w[..i - 2], w[i - 2..i + 1], w[i + 1..];
    assert Ordinary([t]);
    hide *;
    OrdinaryTwo(u + x, v);
    OrdinaryTwo(u, x);
    OrdinaryTwo(u + [t], v);
    OrdinaryTwo(u, [t]);
  }

  /** Without operators, a text that leaves one value is a single operand. */
  lemma OneLeft(w: string)
    requires Leaves(w, 0, 1) && Operators(w) == 0
    ensures |w| == 1 && !Computes(w[0])
  {
    NoneComputes(w);
    LeavesOperands(w, 0);
    LeavesOnce(w, 0, 1, |w|);
  }

  lemma {:induction false} NoneComputes(w: string)
    requires Operators(w) == 0
    ensures forall k :: 0 <= k < |w| ==> !Computes(w[k])
  {
    if w != [] {
      NoneComputes(w[1..]);
    }
  }

  lemma {:induction false} LeavesOnce(w: string, n: nat, a: nat, b: nat)
    requires Leaves(w, n, a) && Leaves(w, n, b)
    ensures a == b
    decreases |w|
  {
    if w != [] {
      LeavesOnce(w[1..], if Computes(w[0]) then n - 1 else n + 1, a, b);
    }
  }

  function Reading(env: Env): char -> int {
    c => Lookup(env, c)
  }

  lemma {:induction false} SumIsValue(f: Meaning, s: Sum, env: Env)
    ensures SumValue(f, s, Reading(env)) == Value(f, SumExpr(s), env)
  {
    match s
    case Alone(p) => ProductIsValue(f, p, env);
    case Plus(p, s') => ProductIsValue(f, p, env); SumIsValue(f, s', env);
    case Minus(p, s') => ProductIsValue(f, p, env); SumIsValue(f, s', env);
  }

  lemma {:induction false} ProductIsValue(f: Meaning, p: Product, env: Env)
    ensures ProductValue(f, p, Reading(env)) == Value(f, ProductExpr(p), env)
  {
    match p
    case Single(x) => FactorIsValue(f, x, env);
    case Times(x, p') => FactorIsValue(f, x, env); ProductIsValue(f, p', env);
    case Divide(x, p') => FactorIsValue(f, x, env); ProductIsValue(f, p', env);
  }

  lemma {:induction false} FactorIsValue(f: Meaning, x: Factor, env: Env)
    ensures FactorValue(f, x, Reading(env)) == Value(f, FactorExpr(x), env)
  {
    match x
    case Operand(c) =>
    case Parens(s) => SumIsValue(f, s, env);
  }

  /**
   * From the text of a sum of products of factors to the quadruples: running them leaves the sum's value
   * in the target, whatever operators and variables mean, exactly if no operand meets its temporary.
   */
  method Translate(exp: string, lval: char, ghost t: Sum) returns (quads: seq<Quad>)
    requires Written(t) && exp == SumText(t) + [TERMINATOR]
    requires Ordinary(SumPostfix(t)) && 1 <= Operators(SumPostfix(t)) <= 26
    ensures Leaves(SumPostfix(t), 0, 1)
    ensures (forall f: Meaning, env: Env :: Lookup(Run(f, quads, env), lval) == SumValue(f, t, Reading(env)))
            <==> Unmixed(SumPostfix(t), 0)
  {
    hide SumText, SumPostfix, Show, Postfix, Operators, Ordinary, Run, Value, SumValue, Leaves, Unmixed, Program, Reading, SumExpr;
    var translator := new Translator(|exp| + 1);
    var j := translator.Transform(exp, t);
    var maker := new Maker(translator.suffix);
    assert maker.suffix[..j - 1] == SumPostfix(t) && maker.suffix[j - 1] == TERMINATOR by {
      assert maker.suffix[..j][..j - 1] == maker.suffix[..j - 1] && maker.suffix[..j][j - 1] == maker.suffix[j - 1];
    }
    SumShown(t);
    quads := maker.GenQuad(lval, SumExpr(t), j - 1);
    forall f: Meaning, env: Env ensures SumValue(f, t, Reading(env)) == Value(f, SumExpr(t), env) {
      SumIsValue(f, t, env);
    }
  }
}
