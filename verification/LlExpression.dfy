/**
 * The parser of the expression grammar. The least FIRST and FOLLOW sets are bounded by explicit sets,
 * which are enough to see that the grammar is predictive and has no left recursion.
 */
module LlExpression {
  import opened Sequences
  import opened Grammars
  import opened LlSets
  import opened LlLanguage
  import opened LlTables
  import opened LlParser

  // ----- bounds for the sets -----

  function FirstBound(x: Symbol): set<Symbol> {
    if x == E || x == T || x == F then {ID, LP}
    else if x == EP then {PLUS, SUB, EPS}
    else if x == TP then {MUL, DIV, EPS}
    else if x == A then {PLUS, SUB}
    else if x == M then {MUL, DIV}
    else {}
  }

  function FollowBound(x: Symbol): set<Symbol> {
    if x == E || x == EP then {RP, EOI}
    else if x == T || x == TP then {PLUS, SUB, RP, EOI}
    else if x == F then {MUL, DIV, PLUS, SUB, RP, EOI}
    else if x == A || x == M then {ID, LP}
    else {}
  }

  function Firsts(): Sets {
    map x | x in Nonterminals() :: FirstBound(x)
  }

  function Follows(): Sets {
    map x | x in Nonterminals() :: FollowBound(x)
  }

  function Rank(x: Symbol): nat {
    if x == E then 2 else if x == EP || x == T || x == TP then 1 else 0
  }

  lemma FirstsAt(x: Symbol)
    ensures FirstOf(Firsts(), x) == if x.Vt? then {x} else FirstBound(x)
  {
    SymbolsAreThere();
  }

  lemma FollowsAt(x: Symbol)
    ensures FollowOf(Follows(), x) == FollowBound(x)
  {
    SymbolsAreThere();
  }

  lemma SymbolsAreThere()
    ensures E in Nonterminals() && EP in Nonterminals() && T in Nonterminals() && TP in Nonterminals()
    ensures F in Nonterminals() && A in Nonterminals() && M in Nonterminals()
    ensures ID in Terminals() && LP in Terminals() && RP in Terminals() && PLUS in Terminals() && SUB in Terminals()
    ensures MUL in Terminals() && DIV in Terminals()
  {
    var n, t := Nonterminals(), Terminals();
    assert n[0] == E && n[1] == EP && n[2] == T && n[3] == TP && n[4] == F && n[5] == A && n[6] == M;
    assert t[0] == ID && t[1] == LP && t[2] == RP && t[3] == PLUS && t[4] == SUB && t[5] == MUL && t[6] == DIV;
  }

  // ----- the productions one by one -----

  lemma ListedIsOver(p: Production)
    requires Listed(p)
    ensures p.lhs in Nonterminals() && Over(p.rhs, Nonterminals() + Terminals() + [EPS])
  {
    SymbolsAreThere();
    forall x | x in p.rhs ensures x in Nonterminals() || x in Terminals() || x == EPS {
    }
  }

  lemma RulesAreProper()
    ensures Proper(Expressions())
  {
    hide Listed, Over, Productions, Nonterminals, Terminals, Distinct;
    SymbolsAreThere();
    SymbolsAreDistinct();
    forall p | p in Productions() ensures p.lhs in Nonterminals() && Over(p.rhs, Nonterminals() + Terminals() + [EPS]) {
      ProductionsAreListed(p);
      ListedIsOver(p);
    }
  }

  lemma SymbolsAreDistinct()
    ensures Distinct(Nonterminals()) && Distinct(Terminals())
    ensures (forall x :: x in Nonterminals() ==> x.Vn?) && (forall x :: x in Terminals() ==> x.Vt?)
    ensures EPS !in Terminals() && EOI !in Terminals()
  {
  }

  // ----- FIRST of every right side, and of every rest of one -----

  lemma FirstOfOne(x: Symbol)
    ensures SeqFirst(Firsts(), [x]) == FirstOf(Firsts(), x)
    ensures SeqFirst(Firsts(), []) == {EPS}
  {
    SeqFirstOne(Firsts(), x);
  }

  lemma FirstOfTwo(x: Symbol, y: Symbol)
    ensures SeqFirst(Firsts(), [x, y]) ==
            (FirstOf(Firsts(), x) - {EPS}) + if EPS in FirstOf(Firsts(), x) then FirstOf(Firsts(), y) else {}
  {
    FirstOfOne(y);
    assert [x, y][1..] == [y];
  }

  lemma FirstOfThree(x: Symbol, y: Symbol, z: Symbol)
    requires EPS !in FirstOf(Firsts(), x)
    ensures SeqFirst(Firsts(), [x, y, z]) == FirstOf(Firsts(), x)
  {
  }

  /** What each production can begin with, as far as the bounds tell. */
  function Begin(p: Production): set<Symbol> {
    if p.rhs == [T, EP] || p.rhs == [F, TP] then {ID, LP}
    else if p.rhs == [A, T, EP] then {PLUS, SUB}
    else if p.rhs == [M, F, TP] then {MUL, DIV}
    else if p.rhs == [LP, E, RP] then {LP}
    else if |p.rhs| == 1 then {p.rhs[0]}
    else {}
  }

  lemma BeginIsFirst(p: Production)
    requires Listed(p)
    ensures SeqFirst(Firsts(), p.rhs) == Begin(p)
  {
    hide SeqFirst, FirstOf, Firsts;
    FirstsAt(p.rhs[0]);
    if |p.rhs| == 1 {
      FirstOfOne(p.rhs[0]);
      assert p.rhs == [p.rhs[0]];
    } else if |p.rhs| == 2 {
      FirstOfTwo(p.rhs[0], p.rhs[1]);
      assert p.rhs == [p.rhs[0], p.rhs[1]];
    } else {
      FirstOfThree(p.rhs[0], p.rhs[1], p.rhs[2]);
      assert p.rhs == [p.rhs[0], p.rhs[1], p.rhs[2]];
    }
  }

  lemma FirstBoundIsClosed()
    ensures ClosedFirst(Expressions(), Firsts())
  {
    hide SeqFirst, FirstOf, Firsts, Productions, Nonterminals, Terminals;
    forall p | p in Productions() ensures SeqFirst(Firsts(), p.rhs) <= FirstOf(Firsts(), p.lhs) {
      ProductionsAreListed(p);
      BeginIsFirst(p);
      FirstsAt(p.lhs);
    }
  }

  lemma FollowBoundAt(p: Production, j: nat)
    requires Listed(p) && j < |p.rhs|
    ensures FollowFrom(Firsts(), Follows(), Follows(), p, j)
  {
    hide SeqFirst, FirstOf, Firsts, FollowOf, Follows;
    FollowsAt(p.rhs[j]);
    FollowsAt(p.lhs);
    if j == |p.rhs| - 1 {
      FirstOfOne(ID);
      assert p.rhs[j + 1..] == [];
    } else if j == |p.rhs| - 2 {
      FirstOfOne(p.rhs[j + 1]);
      FirstsAt(p.rhs[j + 1]);
      assert p.rhs[j + 1..] == [p.rhs[j + 1]];
    } else {
      FirstOfTwo(p.rhs[1], p.rhs[2]);
      FirstsAt(p.rhs[1]);
      FirstsAt(p.rhs[2]);
      assert p.rhs[j + 1..] == [p.rhs[1], p.rhs[2]];
    }
  }

  lemma FollowBoundIsClosed()
    ensures ClosedFollow(Expressions(), Firsts(), Follows())
  {
    hide FollowFrom, FollowOf, Follows, Listed, Productions, Nonterminals, Terminals;
    FollowsAt(E);
    forall p, j | p in Productions() && 0 <= j < |p.rhs| ensures FollowFrom(Firsts(), Follows(), Follows(), p, j) {
      ProductionsAreListed(p);
      FollowBoundAt(p, j);
    }
  }

  // ----- the least sets lie within the bounds -----

  lemma LeastIsBounded(first: Sets, follow: Sets)
    requires LeastFirst(Expressions(), first) && LeastFollow(Expressions(), first, follow)
    ensures Below(Expressions(), first, Firsts()) && FollowBelow(Expressions(), follow, Follows())
  {
    hide SeqFirst, Firsts, Follows, FollowFrom, ClosedFirst, ClosedFollow, Expressions;
    RulesAreProper();
    FirstBoundIsClosed();
    FollowBoundIsClosed();
    ClosedForSmaller(Expressions(), first, Firsts(), Follows());
  }

  // ----- the grammar is predictive -----

  /** The tokens that can choose a production, as far as the bounds tell. */
  function Chosen(p: Production): set<Symbol> {
    if EPS in Begin(p) then (Begin(p) - {EPS}) + FollowBound(p.lhs) else Begin(p)
  }

  lemma ChosenIsPredicted(first: Sets, follow: Sets, p: Production, a: Symbol)
    requires Below(Expressions(), first, Firsts()) && FollowBelow(Expressions(), follow, Follows())
    requires p in Productions() && a in Terminals() + [EOI] && Predicts(first, follow, p, a)
    ensures a in Chosen(p)
  {
    hide SeqFirst, Firsts, Follows, Begin, Productions, Nonterminals, Terminals, FollowOf;
    ProductionsAreListed(p);
    BeginIsFirst(p);
    RulesAreProper();
    assert Over(p.rhs, Nonterminals() + Terminals() + [EPS]);
    SeqFirstGrows(Expressions(), first, Firsts(), p.rhs);
    FollowsAt(p.lhs);
  }

  /** Different productions of a nonterminal are chosen by different tokens. */
  lemma ChosenOnce(p: Production, q: Production)
    requires Listed(p) && Listed(q) && p.lhs == q.lhs && p != q
    ensures Chosen(p) !! Chosen(q)
  {
  }

  lemma GrammarIsLl1(first: Sets, follow: Sets)
    requires Below(Expressions(), first, Firsts()) && FollowBelow(Expressions(), follow, Follows())
    ensures IsLl1(Expressions(), first, follow)
  {
    hide Below, FollowBelow, Predicts, Chosen, Listed, Productions, Nonterminals, Terminals;
    forall p, q, a | p in Productions() && q in Productions() && p.lhs == q.lhs && a in Terminals() + [EOI] &&
                     Predicts(first, follow, p, a) && Predicts(first, follow, q, a)
      ensures p == q
    {
      ChosenIsPredicted(first, follow, p, a);
      ChosenIsPredicted(first, follow, q, a);
      ProductionsAreListed(p);
      ProductionsAreListed(q);
      if p != q {
        ChosenOnce(p, q);
      }
    }
  }

  // ----- the grammar has no left recursion -----

  function Ranks(): map<Symbol, nat> {
    map x | x in Nonterminals() :: Rank(x)
  }

  lemma RanksAt(x: Symbol)
    ensures RankOf(Ranks(), x) == if x.Vn? then Rank(x) else 0
  {
    SymbolsAreThere();
  }

  /** Only the first symbol of a right side can come to the front, so only it needs a lower rank. */
  lemma BodyIsRanked(first: Sets, p: Production)
    requires Below(Expressions(), first, Firsts()) && Listed(p)
    ensures RankedBody(first, Ranks(), Strip(p.rhs), RankOf(Ranks(), p.lhs)) && |Strip(p.rhs)| < 4
  {
    hide Firsts, Ranks, SeqFirst, Below, Strip, Expressions, RankOf, Nonterminals, Terminals;
    RanksAt(p.lhs);
    StripShort(p.rhs);
    var b := Strip(p.rhs);
    forall j | 0 <= j < |b| && b[j].Vn? && EPS in SeqFirst(first, b[..j]) ensures RankOf(Ranks(), b[j]) < RankOf(Ranks(), p.lhs) {
      RanksAt(b[j]);
      if j > 0 {
        FrontIsRead(first, b, j);
      }
    }
  }

  /** What starts a right side never derives the empty word. */
  lemma FrontIsRead(first: Sets, b: seq<Symbol>, j: nat)
    requires Below(Expressions(), first, Firsts()) && 0 < j < |b|
    requires b[0] == T || b[0] == F || b[0] == A || b[0] == M || b[0] == LP
    ensures EPS !in SeqFirst(first, b[..j])
  {
    hide Firsts, Expressions, Nonterminals;
    SymbolsAreThere();
    BoundedAt(first, b[0]);
    FirstsAt(b[0]);
    assert b[..j][0] == b[0];
  }

  lemma BoundedAt(first: Sets, x: Symbol)
    requires Below(Expressions(), first, Firsts()) && (x in Nonterminals() || x.Vt?)
    ensures FirstOf(first, x) <= FirstOf(Firsts(), x)
  {
    hide Firsts;
  }

  lemma GrammarIsRanked(first: Sets)
    requires Below(Expressions(), first, Firsts())
    ensures Ranked(Expressions(), first, Ranks())
    ensures forall p :: p in Productions() ==> |Strip(p.rhs)| < 4
  {
    hide Firsts, RankedBody, Listed, Productions, Nonterminals, Terminals, Below;
    forall p | p in Productions() ensures RankedBody(first, Ranks(), Strip(p.rhs), RankOf(Ranks(), p.lhs)) && |Strip(p.rhs)| < 4 {
      ProductionsAreListed(p);
      BodyIsRanked(first, p);
    }
  }

  // ----- the program -----

  lemma ExpressionsAreNotEmpty()
    ensures !Derives(Plain(Expressions()), [E], [])
  {
    hide Derives, SeqFirst, ClosedFirst, Expressions, Firsts, Plain, FirstOf;
    FirstBoundIsClosed();
    FirstsAt(E);
    SeqFirstOne(Firsts(), E);
    if Derives(Plain(Expressions()), [E], []) {
      ClosedFirstHasStarts(Expressions(), Firsts(), [E], EPS);
    }
  }

  lemma MarkInFront(tokens: seq<Symbol>, left: seq<Symbol>, more: seq<Symbol>)
    requires EOI in tokens && LeftOver(tokens, left, true)
    ensures Before(left + more) == []
  {
    assert left[0] == EOI;
  }

  /** The sets and the table of the expression grammar. */
  method MakeTable() returns (gen: Generator)
    ensures fresh(gen) && gen.r == Expressions() && Ready(gen, Ranks(), 4)
  {
    hide Derives, Expressions, IsLl1, Ranked, IsTable, FirstSoFar, FollowSoFar, Firsts, Follows, LeastFirst, LeastFollow, Proper;
    RulesAreProper();
    gen := new Generator(Expressions());
    gen.MakeFirst();
    gen.MakeFollow();
    gen.MakeParsingTable();
    LeastIsBounded(gen.first, gen.follow);
    GrammarIsLl1(gen.first, gen.follow);
    GrammarIsRanked(gen.first);
    ExpressionParts();
  }

  /**
   * The first text is judged by its tokens before the end mark, the second together with what the
   * first call left; after an accepted text that begins with the end mark, so the second call rejects.
   */
  method ParseExpressions(tokens: seq<Symbol>, more: seq<Symbol>) returns (ok: bool, again: bool, ghost left: seq<Symbol>)
    requires EOI in tokens && forall x :: x in tokens + more ==> x.Vt?
    ensures ok <==> IsExpression(Before(tokens))
    ensures LeftOver(tokens, left, ok)
    ensures again <==> IsExpression(Before(left + more))
    ensures ok ==> !again
  {
    hide Derives, Expressions, Ready, Before, Plain, LeftOver, IsExpression;
    ExpressionParts();
    var gen := MakeTable();
    var parser := new Parser();
    assert [] + tokens == tokens;
    ok := parser.Parse(gen, tokens, Ranks(), 4);
    left := parser.queue;
    LeftOverIsThere(tokens, left, ok);
    assert forall x :: x in left + more ==> x in tokens + more;
    BeforeIsExpression(tokens);
    BeforeIsExpression(left + more);
    if ok {
      MarkInFront(tokens, left, more);
      ExpressionsAreNotEmpty();
    }
    again := parser.Parse(gen, more, Ranks(), 4);
  }

  lemma BeforeIsExpression(tokens: seq<Symbol>)
    requires EOI in tokens && forall x :: x in tokens ==> x.Vt?
    ensures IsExpression(Before(tokens)) <==> Derives(Plain(Expressions()), [E], Before(tokens))
  {
    hide Derives, Expressions, Plain, IsExpression;
    ExpressionsExactly(Before(tokens));
  }

  lemma LeftOverIsThere(tokens: seq<Symbol>, left: seq<Symbol>, ok: bool)
    requires EOI in tokens && LeftOver(tokens, left, ok)
    ensures EOI in left && forall x :: x in left ==> x in tokens
  {
  }

  lemma ExpressionParts()
    ensures Expressions().start == E && Expressions().prods == Productions()
  {
  }
}
