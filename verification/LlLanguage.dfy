/**
 * The expression grammar that the program parses, and the language it derives: exactly the sums of
 * products of factors over the operand i.
 */
module LlLanguage {
  import opened Sequences
  import opened Formulas
  import opened Grammars
  import opened LlSets

  const E := Vn('E')
  const EP := Vn('e')
  const T := Vn('T')
  const TP := Vn('t')
  const F := Vn('F')
  const A := Vn('A')
  const M := Vn('M')

  const ID := Vt('i')
  const LP := Vt('(')
  const RP := Vt(')')
  const PLUS := Vt('+')
  const SUB := Vt('-')
  const MUL := Vt('*')
  const DIV := Vt('/')

  function Nonterminals(): seq<Symbol> {
    [E, EP, T, TP, F, A, M]
  }

  function Terminals(): seq<Symbol> {
    [ID, LP, RP, PLUS, SUB, MUL, DIV]
  }

  function Productions(): seq<Production> {
    [
      Production(E, [T, EP]),
      Production(EP, [A, T, EP]),
      Production(EP, [EPS]),
      Production(T, [F, TP]),
      Production(TP, [M, F, TP]),
      Production(TP, [EPS]),
      Production(F, [LP, E, RP]),
      Production(F, [ID]),
      Production(A, [PLUS]),
      Production(A, [SUB]),
      Production(M, [MUL]),
      Production(M, [DIV])
    ]
  }

  function Expressions(): Rules {
    Rules(E, Nonterminals(), Terminals(), Productions())
  }

  predicate Listed(p: Production) {
    || p == Production(E, [T, EP])
    || p == Production(EP, [A, T, EP]) || p == Production(EP, [EPS])
    || p == Production(T, [F, TP])
    || p == Production(TP, [M, F, TP]) || p == Production(TP, [EPS])
    || p == Production(F, [LP, E, RP]) || p == Production(F, [ID])
    || p == Production(A, [PLUS]) || p == Production(A, [SUB])
    || p == Production(M, [MUL]) || p == Production(M, [DIV])
  }

  lemma ProductionsAreListed(p: Production)
    ensures p in Productions() <==> Listed(p)
  {
    var s := Productions();
    if Listed(p) {
      assert || p == s[0] || p == s[1] || p == s[2] || p == s[3] || p == s[4] || p == s[5]
             || p == s[6] || p == s[7] || p == s[8] || p == s[9] || p == s[10] || p == s[11];
    }
  }

  lemma {:induction false} StripShort(w: seq<Symbol>)
    requires w != [] && (EPS in w ==> |w| == 1)
    ensures Strip(w) == if w == [EPS] then [] else w
  {
    if |w| > 1 {
      StripShort(w[1..]);
      assert w == [w[0]] + w[1..];
    }
  }

  // ----- the language -----

  function Tokens(s: string): seq<Symbol> {
    seq(|s|, i requires 0 <= i < |s| => Vt(s[i]))
  }

  /** The tokens of a sum whose operands are all i. */
  ghost predicate IsExpression(w: seq<Symbol>) {
    exists t :: SumOperands(t) <= {'i'} && w == Tokens(SumText(t))
  }

  lemma TokensThree(u: string, c: char, v: string)
    ensures Tokens(u + [c] + v) == Tokens(u) + ([Vt(c)] + Tokens(v))
  {
  }

  lemma TokensAround(u: string)
    ensures Tokens(['('] + u + [')']) == [LP] + Tokens(u) + [RP]
  {
  }

  // ----- every sum is derived -----

  lemma DerivesByListed(p: Production, v: seq<Symbol>)
    requires Listed(p) && Derives(Plain(Expressions()), if p.rhs == [EPS] then [] else p.rhs, v)
    ensures Derives(Plain(Expressions()), [p.lhs], v)
  {
    hide Derives, Plain, Productions;
    ProductionsAreListed(p);
    StripShort(p.rhs);
    DerivesByRule(Expressions(), p, v);
  }

  lemma DerivesBoth(g: Grammar, u: seq<Symbol>, v: seq<Symbol>, x: seq<Symbol>, y: seq<Symbol>)
    requires Derives(g, u, v) && Derives(g, x, y)
    ensures Derives(g, u + x, v + y)
  {
    hide Derives;
    DerivesInContext(g, [], u, v, x);
    DerivesInContext(g, v, x, y, []);
    assert [] + u + x == u + x && [] + v + x == v + x && v + x + [] == v + x && v + y + [] == v + y;
    DerivesThrough(g, u + x, v + x, v + y);
  }

  /** One more product in front of a sum, or factor in front of a product. */
  lemma DerivesLonger(x: Symbol, xp: Symbol, o: Symbol, u: seq<Symbol>, c: Symbol, v: seq<Symbol>)
    requires (x == T && xp == EP && o == A && (c == PLUS || c == SUB)) || (x == F && xp == TP && o == M && (c == MUL || c == DIV))
    requires Derives(Plain(Expressions()), [x], u) && Derives(Plain(Expressions()), [x, xp], v)
    ensures Derives(Plain(Expressions()), [x, xp], u + ([c] + v))
  {
    hide Derives, Plain, Expressions;
    var g := Plain(Expressions());
    DerivesItself(g, [c]);
    DerivesByListed(Production(o, [c]), [c]);
    DerivesBoth(g, [o], [c], [x, xp], v);
    assert [o] + [x, xp] == [o, x, xp] && [x] + [xp] == [x, xp];
    DerivesByListed(Production(xp, [o, x, xp]), [c] + v);
    DerivesBoth(g, [x], u, [xp], [c] + v);
  }

  lemma DerivesAlone(x: Symbol, xp: Symbol, u: seq<Symbol>)
    requires (x == T && xp == EP) || (x == F && xp == TP)
    requires Derives(Plain(Expressions()), [x], u)
    ensures Derives(Plain(Expressions()), [x, xp], u)
  {
    hide Derives, Plain, Expressions;
    var g := Plain(Expressions());
    DerivesItself(g, []);
    DerivesByListed(Production(xp, [EPS]), []);
    DerivesBoth(g, [x], u, [xp], []);
    assert u + [] == u && [x] + [xp] == [x, xp];
  }

  lemma {:induction false} SumIsDerived(t: Sum)
    requires SumOperands(t) <= {'i'}
    ensures Derives(Plain(Expressions()), [T, EP], Tokens(SumText(t)))
  {
    hide Derives, Plain, Expressions, Tokens;
    match t
    case Alone(p) =>
      ProductIsDerived(p);
      DerivesAlone(T, EP, Tokens(SumText(t)));
    case Plus(p, s) =>
      ProductIsDerived(p);
      SumIsDerived(s);
      TokensThree(ProductText(p), '+', SumText(s));
      DerivesLonger(T, EP, A, Tokens(ProductText(p)), PLUS, Tokens(SumText(s)));
    case Minus(p, s) =>
      ProductIsDerived(p);
      SumIsDerived(s);
      TokensThree(ProductText(p), '-', SumText(s));
      DerivesLonger(T, EP, A, Tokens(ProductText(p)), SUB, Tokens(SumText(s)));
  }

  lemma {:induction false} ProductIsDerived(p: Product)
    requires ProductOperands(p) <= {'i'}
    ensures Derives(Plain(Expressions()), [F, TP], Tokens(ProductText(p)))
    ensures Derives(Plain(Expressions()), [T], Tokens(ProductText(p)))
  {
    hide Derives, Plain, Expressions, Tokens;
    match p {
      case Single(f) =>
        FactorIsDerived(f);
        DerivesAlone(F, TP, Tokens(ProductText(p)));
      case Times(f, q) =>
        FactorIsDerived(f);
        ProductIsDerived(q);
        TokensThree(FactorText(f), '*', ProductText(q));
        DerivesLonger(F, TP, M, Tokens(FactorText(f)), MUL, Tokens(ProductText(q)));
      case Divide(f, q) =>
        FactorIsDerived(f);
        ProductIsDerived(q);
        TokensThree(FactorText(f), '/', ProductText(q));
        DerivesLonger(F, TP, M, Tokens(FactorText(f)), DIV, Tokens(ProductText(q)));
    }
    DerivesByListed(Production(T, [F, TP]), Tokens(ProductText(p)));
  }

  lemma {:induction false} FactorIsDerived(f: Factor)
    requires FactorOperands(f) <= {'i'}
    ensures Derives(Plain(Expressions()), [F], Tokens(FactorText(f)))
  {
    hide Derives, Plain, Expressions;
    var g := Plain(Expressions());
    match f
    case Operand(c) =>
      assert c in FactorOperands(f) && Tokens([c]) == [ID];
      DerivesItself(g, [ID]);
      DerivesByListed(Production(F, [ID]), [ID]);
    case Parens(s) =>
      SumIsDerived(s);
      DerivesByListed(Production(E, [T, EP]), Tokens(SumText(s)));
      DerivesInContext(g, [LP], [E], Tokens(SumText(s)), [RP]);
      TokensAround(SumText(s));
      assert [LP] + [E] + [RP] == [LP, E, RP];
      DerivesByListed(Production(F, [LP, E, RP]), Tokens(FactorText(f)));
  }

  // ----- every forest is a sum -----

  lemma RuleOf(p: Production) returns (q: Production)
    requires p in Plain(Expressions()).prods
    ensures Listed(q) && p == Production(q.lhs, if q.rhs == [EPS] then [] else q.rhs)
  {
    PlainProduction(Expressions(), p);
    q :| q in Productions() && Body(q) == p;
    ProductionsAreListed(q);
    StripShort(q.rhs);
  }

  /** The tree in front belongs to a listed production of its nonterminal. */
  lemma NodeInFront(f: Forest, x: Symbol) returns (q: Production)
    requires Grown(Plain(Expressions()), f) && Roots(f) != [] && Roots(f)[0] == x && x.Vn?
    ensures f.Node? && Listed(q) && q.lhs == x && Roots(f.kids) == (if q.rhs == [EPS] then [] else q.rhs)
    ensures Grown(Plain(Expressions()), f.kids) && Grown(Plain(Expressions()), f.rest) && Roots(f.rest) == Roots(f)[1..]
    ensures Yield(f) == Yield(f.kids) + Yield(f.rest)
  {
    hide Plain, Listed, Expressions;
    q := RuleOf(f.p);
  }

  lemma LeafInFront(f: Forest, a: Symbol)
    requires Grown(Plain(Expressions()), f) && Roots(f) != [] && Roots(f)[0] == a && a.Vt?
    ensures f.Leaf? && f.a == a && Roots(f.rest) == Roots(f)[1..] && Grown(Plain(Expressions()), f.rest)
    ensures Yield(f) == [a] + Yield(f.rest)
  {
    hide Plain, Expressions;
    if f.Node? {
      var q := RuleOf(f.p);
    }
  }

  lemma EmptyForest(f: Forest)
    requires Roots(f) == []
    ensures Yield(f) == []
  {
  }

  /** An operator stands alone in its tree. */
  lemma OperatorInFront(f: Forest, o: Symbol) returns (c: char)
    requires Grown(Plain(Expressions()), f) && Roots(f) != [] && Roots(f)[0] == o && (o == A || o == M)
    ensures f.Node? && Yield(f) == [Vt(c)] + Yield(f.rest) && (if o == A then c == '+' || c == '-' else c == '*' || c == '/')
    ensures Grown(Plain(Expressions()), f.rest) && Roots(f.rest) == Roots(f)[1..]
  {
    hide Plain, Expressions;
    var q := NodeInFront(f, o);
    LeafInFront(f.kids, q.rhs[0]);
    EmptyForest(f.kids.rest);
    c := q.rhs[0].name;
    assert Yield(f.kids) == [q.rhs[0]];
  }

  lemma {:induction false} ForestIsSum(f: Forest) returns (t: Sum)
    requires Grown(Plain(Expressions()), f) && Roots(f) == [T, EP]
    ensures SumOperands(t) <= {'i'} && Tokens(SumText(t)) == Yield(f)
    decreases f
  {
    hide Plain, Expressions, Tokens, Roots, Yield, Grown;
    var q := NodeInFront(f, T);
    var p := ForestIsProduct(f.kids);
    var e := f.rest;
    var r := NodeInFront(e, EP);
    EmptyForest(e.rest);
    assert Yield(e.kids) + [] == Yield(e.kids);
    if r.rhs == [EPS] {
      EmptyForest(e.kids);
      assert Yield(f.kids) + [] == Yield(f.kids);
      t := Alone(p);
    } else {
      var c := OperatorInFront(e.kids, A);
      var s := ForestIsSum(e.kids.rest);
      TokensThree(ProductText(p), c, SumText(s));
      t := if c == '+' then Plus(p, s) else Minus(p, s);
      assert SumOperands(t) == ProductOperands(p) + SumOperands(s);
    }
  }

  lemma {:induction false} ForestIsProduct(f: Forest) returns (p: Product)
    requires Grown(Plain(Expressions()), f) && Roots(f) == [F, TP]
    ensures ProductOperands(p) <= {'i'} && Tokens(ProductText(p)) == Yield(f)
    decreases f
  {
    hide Plain, Expressions, Tokens, Roots, Yield, Grown;
    var q := NodeInFront(f, F);
    var x := ForestIsFactor(f.kids);
    var e := f.rest;
    var r := NodeInFront(e, TP);
    EmptyForest(e.rest);
    assert Yield(e.kids) + [] == Yield(e.kids);
    if r.rhs == [EPS] {
      EmptyForest(e.kids);
      assert Yield(f.kids) + [] == Yield(f.kids);
      p := Single(x);
    } else {
      var c := OperatorInFront(e.kids, M);
      var s := ForestIsProduct(e.kids.rest);
      TokensThree(FactorText(x), c, ProductText(s));
      p := if c == '*' then Times(x, s) else Divide(x, s);
      assert ProductOperands(p) == FactorOperands(x) + ProductOperands(s);
    }
  }

  lemma {:induction false} ForestIsFactor(f: Forest) returns (x: Factor)
    requires Grown(Plain(Expressions()), f) && (Roots(f) == [ID] || Roots(f) == [LP, E, RP])
    ensures FactorOperands(x) <= {'i'} && Tokens(FactorText(x)) == Yield(f)
    decreases f
  {
    hide Plain, Expressions, Roots, Grown, Yield;
    if Roots(f) == [ID] {
      LeafInFront(f, ID);
      EmptyForest(f.rest);
      x := Operand('i');
      assert Tokens(FactorText(x)) == [ID] + [];
    } else {
      LeafInFront(f, LP);
      var e := f.rest;
      var q := NodeInFront(e, E);
      LeafInFront(e.rest, RP);
      EmptyForest(e.rest.rest);
      var s := ForestIsSum(e.kids);
      x := Parens(s);
      TokensAround(SumText(s));
      Regroup([LP], Yield(e.kids), [RP]);
      assert Yield(e.rest) == [RP] + [];
    }
  }

  /** The grammar derives exactly the sums of products of factors over i. */
  lemma ExpressionsExactly(w: seq<Symbol>)
    requires forall x :: x in w ==> x.Vt?
    ensures Derives(Plain(Expressions()), [E], w) <==> IsExpression(w)
  {
    hide Derives, Plain, Expressions, Tokens;
    if Derives(Plain(Expressions()), [E], w) {
      var f := DerivesHasForest(Plain(Expressions()), [E], w);
      var q := NodeInFront(f, E);
      EmptyForest(f.rest);
      assert Yield(f) == Yield(f.kids) + [];
      var t := ForestIsSum(f.kids);
    }
    if IsExpression(w) {
      var t :| SumOperands(t) <= {'i'} && w == Tokens(SumText(t));
      SumIsDerived(t);
      DerivesByListed(Production(E, [T, EP]), w);
    }
  }
}
