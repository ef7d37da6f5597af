/**
 * The table-driven predictive parser. The stack is a list of symbols, top first, over the end
 * mark. Proved for every grammar: what is accepted is a sentence; when no two productions of a
 * nonterminal are predicted by the same terminal, every sentence is accepted; and when no
 * nonterminal can come back to itself without reading a token, every run ends.
 */
module LlParser {
  import opened Sequences
  import opened Grammars
  import opened LlSets
  import opened LlTables

  datatype Config = Config(stack: seq<Symbol>, rest: seq<Symbol>)

  datatype Outcome = Running(c: Config) | Accepted | Rejected

  function Start(r: Rules, tokens: seq<Symbol>): Config {
    Config([r.start, EOI], tokens)
  }

  /** The token read next; the end mark follows the tokens. */
  function NextToken(c: Config): Symbol {
    if c.rest == [] then EOI else c.rest[0]
  }

  /** The table entry for a nonterminal and a token; none for a token that heads no column. */
  ghost function Lookup(r: Rules, first: Sets, follow: Sets, x: Symbol, a: Symbol): Entry {
    if x in r.vn && a in r.vt + [EOI] then Choice(r.prods, first, follow, x, a) else None
  }

  ghost function Next(r: Rules, first: Sets, follow: Sets, c: Config): Outcome {
    if c.stack == [] then Rejected
    else if c.stack[0].Vn? then
      match Lookup(r, first, follow, c.stack[0], NextToken(c))
      case None => Rejected
      case Some(p) => Running(Config(Strip(p.rhs) + c.stack[1..], c.rest))
    else if c.stack[0] != EOI then
      if c.rest != [] && c.stack[0] == c.rest[0] && c.rest[0] != EOI then Running(Config(c.stack[1..], c.rest[1..])) else Rejected
    else if NextToken(c) == EOI then Accepted
    else Rejected
  }

  ghost function Steps(r: Rules, first: Sets, follow: Sets, o: Outcome, n: nat): Outcome
    decreases n
  {
    if n == 0 || !o.Running? then o
    else Steps(r, first, follow, Next(r, first, follow, o.c), n - 1)
  }

  lemma {:induction false} ChoiceIsProduction(prods: seq<Production>, first: Sets, follow: Sets, x: Symbol, a: Symbol)
    ensures var e := Choice(prods, first, follow, x, a);
            e.Some? ==> e.p in prods && e.p.lhs == x && Predicts(first, follow, e.p, a)
    ensures var e := Choice(prods, first, follow, x, a);
            e.None? ==> forall p :: p in prods && p.lhs == x ==> !Predicts(first, follow, p, a)
  {
    hide Predicts;
    if prods != [] {
      ChoiceIsProduction(prods[1..], first, follow, x, a);
      assert forall p :: p in prods ==> p == prods[0] || p in prods[1..];
    }
  }

  // ----- soundness -----

  /** The consumed tokens followed by the stack are a form that the start symbol derives. */
  ghost predicate Inv(r: Rules, c: Config, tokens: seq<Symbol>) {
    && c.stack != [] && c.stack[|c.stack| - 1] == EOI
    && (forall i :: 0 <= i < |c.stack| - 1 ==> c.stack[i] in r.vn + r.vt)
    && |c.rest| <= |tokens| && c.rest == tokens[|tokens| - |c.rest|..]
    && Derives(Plain(r), [r.start], tokens[..|tokens| - |c.rest|] + c.stack[..|c.stack| - 1])
  }

  lemma StripOver(w: seq<Symbol>, symbols: seq<Symbol>)
    requires Over(w, symbols + [EPS])
    ensures Over(Strip(w), symbols)
  {
    if w != [] {
      assert w[0] in w;
      StripOver(w[1..], symbols);
    }
  }

  lemma ExpandKeeps(r: Rules, c: Config, tokens: seq<Symbol>, p: Production)
    requires Proper(r) && Inv(r, c, tokens) && c.stack[0].Vn? && p in r.prods && p.lhs == c.stack[0]
    ensures Inv(r, Config(Strip(p.rhs) + c.stack[1..], c.rest), tokens)
  {
    hide Derives, Strip, Over, Plain;
    var b, n := Strip(p.rhs), |c.stack|;
    var stack := b + c.stack[1..];
    var read, tail := tokens[..|tokens| - |c.rest|], c.stack[1..n - 1];
    StripOver(p.rhs, r.vn + r.vt);
    assert Over(p.rhs, r.vn + r.vt + [EPS]);
    ExpandedOver(b, c.stack, r.vn + r.vt);
    assert c.stack[..n - 1] == [p.lhs] + tail && stack[..|stack| - 1] == b + tail;
    ExpandedForm(r, read, p, tail);
  }

  lemma ExpandedOver(b: seq<Symbol>, stack: seq<Symbol>, symbols: seq<Symbol>)
    requires Over(b, symbols) && stack != [] && forall i :: 0 <= i < |stack| - 1 ==> stack[i] in symbols
    ensures forall i :: 0 <= i < |b + stack[1..]| - 1 ==> (b + stack[1..])[i] in symbols
  {
    var s := b + stack[1..];
    forall i | 0 <= i < |s| - 1 ensures s[i] in symbols {
      if i < |b| {
        assert s[i] in b;
      } else {
        assert s[i] == stack[i - |b| + 1];
      }
    }
  }

  lemma ExpandedForm(r: Rules, read: seq<Symbol>, p: Production, tail: seq<Symbol>)
    requires p in r.prods && Derives(Plain(r), [r.start], read + ([p.lhs] + tail))
    ensures Derives(Plain(r), [r.start], read + (Strip(p.rhs) + tail))
  {
    hide Derives, Strip;
    var b := Strip(p.rhs);
    DerivesItself(Plain(r), b);
    DerivesByRule(r, p, b);
    DerivesInContext(Plain(r), read, [p.lhs], b, tail);
    Regroup(read, [p.lhs], tail);
    Regroup(read, b, tail);
    DerivesThrough(Plain(r), [r.start], read + ([p.lhs] + tail), read + (b + tail));
  }

  lemma MatchKeeps(r: Rules, c: Config, tokens: seq<Symbol>)
    requires Inv(r, c, tokens) && c.rest != [] && c.stack[0] == c.rest[0] && c.stack[0] != EOI
    ensures Inv(r, Config(c.stack[1..], c.rest[1..]), tokens)
  {
    hide Derives;
    var k, n := |tokens| - |c.rest|, |c.stack|;
    assert c.rest[0] == tokens[k] && tokens[..k + 1] == tokens[..k] + [tokens[k]];
    assert tokens[..k] + c.stack[..n - 1] == tokens[..k + 1] + c.stack[1..][..n - 2];
  }

  /** One step keeps the form derivable; acceptance comes exactly at the end mark. */
  lemma StepIsSound(r: Rules, first: Sets, follow: Sets, c: Config, tokens: seq<Symbol>)
    requires Proper(r) && Inv(r, c, tokens) && EOI !in tokens
    ensures var o := Next(r, first, follow, c);
            (o.Running? ==> Inv(r, o.c, tokens)) && (o.Accepted? ==> Derives(Plain(r), [r.start], tokens))
  {
    hide Derives, Plain, Strip, Choice;
    if c.stack[0].Vn? {
      ChoiceIsProduction(r.prods, first, follow, c.stack[0], NextToken(c));
      var e := Lookup(r, first, follow, c.stack[0], NextToken(c));
      if e.Some? {
        ExpandKeeps(r, c, tokens, e.p);
      }
    } else if c.stack[0] != EOI {
      if c.rest != [] && c.stack[0] == c.rest[0] {
        MatchKeeps(r, c, tokens);
      }
    } else if NextToken(c) == EOI {
      assert forall x :: x in c.rest ==> x in tokens;
      assert c.rest == [];
      assert |c.stack| == 1;
      assert tokens[..|tokens|] + c.stack[..0] == tokens;
    }
  }

  lemma StartHolds(r: Rules, tokens: seq<Symbol>)
    requires Proper(r)
    ensures Inv(r, Start(r, tokens), tokens)
  {
    DerivesItself(Plain(r), [r.start]);
    assert tokens[..0] + [r.start, EOI][..1] == [r.start];
    assert tokens[|tokens| - |tokens|..] == tokens;
  }

  lemma {:induction false} StepsAreSound(r: Rules, first: Sets, follow: Sets, c: Config, tokens: seq<Symbol>, n: nat)
    requires Proper(r) && Inv(r, c, tokens) && EOI !in tokens
    ensures var o := Steps(r, first, follow, Running(c), n);
            (o.Running? ==> Inv(r, o.c, tokens)) && (o.Accepted? ==> Derives(Plain(r), [r.start], tokens))
    decreases n
  {
    hide Inv, Derives, Plain, Next;
    if n > 0 {
      StepIsSound(r, first, follow, c, tokens);
      var o := Next(r, first, follow, c);
      if o.Running? {
        StepsAreSound(r, first, follow, o.c, tokens, n - 1);
      }
    }
  }

  /** Soundness for every grammar: only sentences are accepted. */
  lemma ParserIsSound(r: Rules, first: Sets, follow: Sets, tokens: seq<Symbol>, n: nat)
    requires Proper(r) && EOI !in tokens
    requires Steps(r, first, follow, Running(Start(r, tokens)), n).Accepted?
    ensures Derives(Plain(r), [r.start], tokens)
  {
    StartHolds(r, tokens);
    StepsAreSound(r, first, follow, Start(r, tokens), tokens, n);
  }

  // ----- completeness -----

  /** No two productions of a nonterminal are predicted by the same token. */
  ghost predicate IsLl1(r: Rules, first: Sets, follow: Sets) {
    forall p, q, a ::
      (p in r.prods && q in r.prods && p.lhs == q.lhs && a in r.vt + [EOI] &&
       Predicts(first, follow, p, a) && Predicts(first, follow, q, a)) ==>
        p == q
  }

  /** The first token of a forest's yield, or the empty word, is in FIRST of its roots. */
  lemma {:induction false} ForestFirst(r: Rules, first: Sets, f: Forest)
    requires Proper(r) && ClosedFirst(r, first) && Grown(Plain(r), f) && EPS !in Yield(f)
    ensures (if Yield(f) == [] then EPS else Yield(f)[0]) in SeqFirst(first, Roots(f))
  {
    hide Plain, ClosedFirst, Strip;
    match f
    case Nil =>
    case Leaf(a, rest) =>
      assert a in Yield(f);
    case Node(p, kids, rest) =>
      ForestFirst(r, first, kids);
      PlainProduction(r, p);
      var q :| q in r.prods && Body(q) == p;
      ClosedIsFirst(r, first, q);
      SeqFirstOne(first, p.lhs);
      if Yield(kids) == [] {
        assert Yield(f) == Yield(rest);
        ForestFirst(r, first, rest);
      }
      SeqFirstConcat(first, [p.lhs], Roots(rest));
  }

  /** The production at the first tree is predicted by the next token. */
  lemma TreeIsPredicted(r: Rules, first: Sets, follow: Sets, f: Forest, q: Production)
    requires Proper(r) && ClosedFirst(r, first) && Grown(Plain(r), f) && f.Node? && EPS !in Yield(f)
    requires q in r.prods && Body(q) == f.p && Followed(first, follow, Roots(f) + [EOI])
    ensures Predicts(first, follow, q, if Yield(f) == [] then EOI else Yield(f)[0])
  {
    hide Plain, ClosedFirst, Strip, SeqFirst;
    assert EPS !in Yield(f.kids) && EPS !in Yield(f.rest);
    ForestFirst(r, first, f.kids);
    ForestFirst(r, first, f.rest);
    SeqFirstStrip(first, q.rhs);
    if Yield(f.kids) == [] {
      var a := if Yield(f.rest) == [] then EOI else Yield(f.rest)[0];
      SeqFirstOne(first, EOI);
      SeqFirstConcat(first, Roots(f.rest), [EOI]);
      assert a in SeqFirst(first, Roots(f.rest) + [EOI]) - {EPS};
      var w := Roots(f) + [EOI];
      assert w[0] == q.lhs && w[1..] == Roots(f.rest) + [EOI];
      assert Yield(f) == Yield(f.rest);
    }
  }

  lemma OneMoreStep(r: Rules, first: Sets, follow: Sets, c: Config, d: Config, n: nat)
    requires Next(r, first, follow, c) == Running(d) && Steps(r, first, follow, Running(d), n) == Accepted
    ensures Steps(r, first, follow, Running(c), n + 1) == Accepted
  {
  }

  /** With the roots of a forest on the stack and its yield as input, the parser accepts. */
  lemma {:induction false} ForestIsParsed(r: Rules, first: Sets, follow: Sets, f: Forest) returns (n: nat)
    requires Proper(r) && ClosedFirst(r, first) && ClosedFollow(r, first, follow) && IsLl1(r, first, follow)
    requires Grown(Plain(r), f) && Over(Yield(f), r.vt)
    requires Followed(first, follow, Roots(f) + [EOI])
    ensures Steps(r, first, follow, Running(Config(Roots(f) + [EOI], Yield(f))), n) == Accepted
    decreases Count(f)
  {
    hide Plain, ClosedFirst, ClosedFollow, IsLl1, Followed, Strip, Next, Predicts;
    var c := Config(Roots(f) + [EOI], Yield(f));
    match f
    case Nil =>
      EndStep(r, first, follow);
      assert c == Config([EOI], []);
      n := 1;
    case Leaf(a, rest) =>
      assert Yield(f)[0] == a && a in Yield(f) && c.stack[1..] == Roots(rest) + [EOI] && c.rest[1..] == Yield(rest);
      FollowedTail(first, follow, c.stack);
      OverTail(Yield(f), r.vt);
      EpsIsNotRead(r, Yield(f));
      MatchStep(r, first, follow, c);
      n := ForestIsParsed(r, first, follow, rest);
      OneMoreStep(r, first, follow, c, Config(c.stack[1..], c.rest[1..]), n);
      n := n + 1;
    case Node(p, kids, rest) =>
      NodeStep(r, first, follow, f);
      n := ForestIsParsed(r, first, follow, Join(kids, rest));
      OneMoreStep(r, first, follow, c, Config(Roots(Join(kids, rest)) + [EOI], c.rest), n);
      n := n + 1;
  }

  /** The first tree's production is expanded, which leaves its subtrees in front of the other trees. */
  lemma NodeStep(r: Rules, first: Sets, follow: Sets, f: Forest)
    requires Proper(r) && ClosedFirst(r, first) && ClosedFollow(r, first, follow) && IsLl1(r, first, follow)
    requires f.Node? && Grown(Plain(r), f) && Over(Yield(f), r.vt)
    requires Followed(first, follow, Roots(f) + [EOI])
    ensures Grown(Plain(r), Join(f.kids, f.rest)) && Count(Join(f.kids, f.rest)) < Count(f)
    ensures Yield(Join(f.kids, f.rest)) == Yield(f)
    ensures Followed(first, follow, Roots(Join(f.kids, f.rest)) + [EOI])
    ensures Next(r, first, follow, Config(Roots(f) + [EOI], Yield(f))) ==
            Running(Config(Roots(Join(f.kids, f.rest)) + [EOI], Yield(f)))
  {
    hide Plain, ClosedFirst, ClosedFollow, IsLl1, Followed, Strip, Next, Predicts, SeqFirst, Over;
    var c := Config(Roots(f) + [EOI], Yield(f));
    PlainProduction(r, f.p);
    var q :| q in r.prods && Body(q) == f.p;
    EpsIsNotRead(r, Yield(f));
    TreeIsPredicted(r, first, follow, f, q);
    ExpandStep(r, first, follow, c, q);
    Joined(Plain(r), f.kids, f.rest);
    var tail := Roots(f.rest) + [EOI];
    StackShapes(q.lhs, Strip(q.rhs), Roots(f.rest));
    FollowedExpand(r, first, follow, [], q, tail);
  }

  lemma StackShapes(x: Symbol, b: seq<Symbol>, rest: seq<Symbol>)
    ensures ([x] + rest) + [EOI] == [] + [x] + (rest + [EOI])
    ensures (([x] + rest) + [EOI])[1..] == rest + [EOI]
    ensures [] + b + (rest + [EOI]) == (b + rest) + [EOI] == b + (rest + [EOI])
  {
  }

  lemma EndStep(r: Rules, first: Sets, follow: Sets)
    ensures Steps(r, first, follow, Running(Config([EOI], [])), 1) == Accepted
  {
    assert Next(r, first, follow, Config([EOI], [])) == Accepted;
  }

  lemma MatchStep(r: Rules, first: Sets, follow: Sets, c: Config)
    requires c.stack != [] && c.rest != [] && c.stack[0] == c.rest[0] && c.stack[0].Vt? && c.stack[0] != EOI
    ensures Next(r, first, follow, c) == Running(Config(c.stack[1..], c.rest[1..]))
  {
  }

  lemma FollowedTail(first: Sets, follow: Sets, w: seq<Symbol>)
    requires Followed(first, follow, w) && w != []
    ensures Followed(first, follow, w[1..])
  {
    forall i | 0 <= i < |w[1..]| && w[1..][i].Vn? ensures SeqFirst(first, w[1..][i + 1..]) - {EPS} <= FollowOf(follow, w[1..][i]) {
      assert w[1..][i] == w[i + 1] && w[1..][i + 1..] == w[i + 2..];
    }
  }

  lemma OverTail(w: seq<Symbol>, symbols: seq<Symbol>)
    requires Over(w, symbols) && w != []
    ensures Over(w[1..], symbols) && w[0] in symbols
  {
  }

  lemma EpsIsNotRead(r: Rules, w: seq<Symbol>)
    requires Proper(r) && Over(w, r.vt)
    ensures EPS !in w && EOI !in w
  {
  }

  /** The production predicted by the next token is the one in the table. */
  lemma ExpandStep(r: Rules, first: Sets, follow: Sets, c: Config, q: Production)
    requires Proper(r) && IsLl1(r, first, follow) && Over(c.rest, r.vt)
    requires c.stack != [] && q in r.prods && c.stack[0] == q.lhs && Predicts(first, follow, q, NextToken(c))
    ensures Next(r, first, follow, c) == Running(Config(Strip(q.rhs) + c.stack[1..], c.rest))
  {
    hide Choice, Predicts, Strip;
    ChoiceIsProduction(r.prods, first, follow, q.lhs, NextToken(c));
  }

  /** Completeness: with at most one production predicted by each token, every sentence is accepted. */
  lemma ParserIsComplete(r: Rules, first: Sets, follow: Sets, tokens: seq<Symbol>) returns (n: nat)
    requires Proper(r) && ClosedFirst(r, first) && ClosedFollow(r, first, follow) && IsLl1(r, first, follow)
    requires Over(tokens, r.vt) && Derives(Plain(r), [r.start], tokens)
    ensures Steps(r, first, follow, Running(Start(r, tokens)), n) == Accepted
  {
    hide ClosedFirst, ClosedFollow, IsLl1, Followed, Derives;
    var f := DerivesHasForest(Plain(r), [r.start], tokens);
    StartIsFollowed(r, first, follow);
    assert Roots(f) + [EOI] == [r.start, EOI];
    n := ForestIsParsed(r, first, follow, f);
  }

  // ----- termination -----

  /**
   * A rank for nonterminals such that whatever can come to the front of a production's right side
   * without a token being read ranks lower than the left side: no left recursion, open or hidden.
   */
  ghost predicate Ranked(r: Rules, first: Sets, rank: map<Symbol, nat>) {
    && (forall x :: x in r.vn ==> x in rank)
    && forall p :: p in r.prods ==> RankedBody(first, rank, Strip(p.rhs), RankOf(rank, p.lhs))
  }

  ghost predicate RankedBody(first: Sets, rank: map<Symbol, nat>, b: seq<Symbol>, k: nat) {
    forall j :: 0 <= j < |b| && b[j].Vn? && EPS in SeqFirst(first, b[..j]) ==> RankOf(rank, b[j]) < k
  }

  function Weight(base: nat, k: nat): (w: nat)
    ensures base > 0 ==> w > 0
  {
    if k == 0 then 1
    else
      Positive(base, Weight(base, k - 1));
      base * Weight(base, k - 1)
  }

  lemma Positive(a: nat, b: nat)
    ensures a > 0 && b > 0 ==> a * b > 0
  {
  }

  lemma {:induction false} WeightGrows(base: nat, j: nat, k: nat)
    requires base > 0 && j <= k
    ensures Weight(base, j) <= Weight(base, k)
    decreases k
  {
    if j < k {
      WeightGrows(base, j, k - 1);
      assert base * Weight(base, k - 1) >= Weight(base, k - 1);
    }
  }

  /** The weight of the nonterminals that can come to the top before the next token is read. */
  ghost function Cost(first: Sets, rank: map<Symbol, nat>, base: nat, w: seq<Symbol>): nat {
    if w == [] then 0
    else
      (if w[0].Vn? then Weight(base, RankOf(rank, w[0])) else 0) +
      if EPS in FirstOf(first, w[0]) then Cost(first, rank, base, w[1..]) else 0
  }

  lemma {:induction false} CostConcat(first: Sets, rank: map<Symbol, nat>, base: nat, u: seq<Symbol>, v: seq<Symbol>)
    ensures Cost(first, rank, base, u + v) ==
            Cost(first, rank, base, u) + if EPS in SeqFirst(first, u) then Cost(first, rank, base, v) else 0
  {
    if u == [] {
      assert u + v == v;
    } else {
      CostConcat(first, rank, base, u[1..], v);
      assert (u + v)[1..] == u[1..] + v;
    }
  }

  lemma CostOfOne(first: Sets, rank: map<Symbol, nat>, base: nat, x: Symbol)
    ensures Cost(first, rank, base, [x]) == if x.Vn? then Weight(base, RankOf(rank, x)) else 0
  {
    assert Cost(first, rank, base, [x][1..]) == 0;
  }

  lemma {:induction false} CostOfFront(first: Sets, rank: map<Symbol, nat>, base: nat, b: seq<Symbol>, k: nat, j: nat)
    requires base > 0 && RankedBody(first, rank, b, k) && j <= |b|
    ensures Cost(first, rank, base, b[..j]) <= if k == 0 then 0 else j * Weight(base, k - 1)
    decreases j
  {
    hide Weight;
    if j > 0 {
      CostOfFront(first, rank, base, b, k, j - 1);
      assert b[..j] == b[..j - 1] + [b[j - 1]];
      CostConcat(first, rank, base, b[..j - 1], [b[j - 1]]);
      CostOfOne(first, rank, base, b[j - 1]);
      if b[j - 1].Vn? && EPS in SeqFirst(first, b[..j - 1]) {
        WeightGrows(base, RankOf(rank, b[j - 1]), k - 1);
      }
      if k > 0 {
        Distribute(j, Weight(base, k - 1));
      }
    }
  }

  lemma Distribute(j: nat, w: nat)
    ensures j * w == (j - 1) * w + w
  {
  }

  /** Expanding the top costs less than the nonterminal there did. */
  lemma ExpandCosts(r: Rules, first: Sets, rank: map<Symbol, nat>, base: nat, p: Production, tail: seq<Symbol>)
    requires ClosedFirst(r, first) && Ranked(r, first, rank) && p in r.prods && p.lhs.Vn? && |Strip(p.rhs)| < base
    ensures Cost(first, rank, base, Strip(p.rhs) + tail) < Cost(first, rank, base, [p.lhs] + tail)
  {
    hide Strip, SeqFirst;
    var b, k := Strip(p.rhs), RankOf(rank, p.lhs);
    CostConcat(first, rank, base, b, tail);
    CostConcat(first, rank, base, [p.lhs], tail);
    CostOfOne(first, rank, base, p.lhs);
    CostOfFront(first, rank, base, b, k, |b|);
    assert b[..|b|] == b;
    ClosedIsFirst(r, first, p);
    if k > 0 {
      assert |b| * Weight(base, k - 1) < base * Weight(base, k - 1) by {
        LessTimes(|b|, base, Weight(base, k - 1));
      }
    }
  }

  lemma LessTimes(a: nat, b: nat, w: nat)
    requires a < b && w > 0
    ensures a * w < b * w
  {
    assert b * w == a * w + (b - a) * w;
    Positive(b - a, w);
  }

  /** Without left recursion every run ends, whatever the tokens. */
  lemma {:induction false} RunEnds(r: Rules, first: Sets, follow: Sets, rank: map<Symbol, nat>, base: nat, c: Config) returns (n: nat)
    requires Proper(r) && ClosedFirst(r, first) && Ranked(r, first, rank)
    requires forall p :: p in r.prods ==> |Strip(p.rhs)| < base
    ensures !Steps(r, first, follow, Running(c), n).Running?
    decreases |c.rest|, Cost(first, rank, base, c.stack)
  {
    hide ClosedFirst, Ranked, Strip, Choice;
    var o := Next(r, first, follow, c);
    if o.Running? {
      if c.stack[0].Vn? {
        ChoiceIsProduction(r.prods, first, follow, c.stack[0], NextToken(c));
        var p := Lookup(r, first, follow, c.stack[0], NextToken(c)).p;
        assert c.stack == [p.lhs] + c.stack[1..];
        ExpandCosts(r, first, rank, base, p, c.stack[1..]);
      }
      n := RunEnds(r, first, follow, rank, base, o.c);
      n := n + 1;
    } else {
      n := 1;
      assert Steps(r, first, follow, o, 0) == o;
    }
  }

  // ----- the parser decides -----

  lemma {:induction false} FinishedStays(r: Rules, first: Sets, follow: Sets, o: Outcome, n: nat, m: nat)
    requires n <= m && !Steps(r, first, follow, o, n).Running?
    ensures Steps(r, first, follow, o, m) == Steps(r, first, follow, o, n)
    decreases n
  {
    if n > 0 && o.Running? {
      FinishedStays(r, first, follow, Next(r, first, follow, o.c), n - 1, m - 1);
    }
  }

  lemma {:induction false} StepsAdd(r: Rules, first: Sets, follow: Sets, o: Outcome, n: nat)
    ensures Steps(r, first, follow, o, n + 1) ==
            if Steps(r, first, follow, o, n).Running? then Next(r, first, follow, Steps(r, first, follow, o, n).c)
            else Steps(r, first, follow, o, n)
    decreases n
  {
    if n > 0 && o.Running? {
      StepsAdd(r, first, follow, Next(r, first, follow, o.c), n - 1);
    }
  }

  /** Terminals outside the grammar never appear in a derived string. */
  lemma {:induction false} DerivationStaysOver(r: Rules, d: seq<seq<Symbol>>)
    requires Proper(r) && Derivation(Plain(r), d) && Over(d[0], r.vn + r.vt)
    ensures Over(d[|d| - 1], r.vn + r.vt)
    decreases |d|
  {
    if |d| > 1 {
      var e := d[1..];
      forall k | 0 <= k < |e| - 1 ensures Rewrites(Plain(r), e[k], e[k + 1]) {
        assert Rewrites(Plain(r), d[k + 1], d[k + 2]);
      }
      assert Rewrites(Plain(r), d[0], d[1]);
      var q, i := RewrittenBy(r, d[0], d[1]);
      StripOver(q.rhs, r.vn + r.vt);
      DerivationStaysOver(r, e);
    }
  }

  lemma SentencesAreOver(r: Rules, tokens: seq<Symbol>)
    requires Proper(r) && Derives(Plain(r), [r.start], tokens) && forall x :: x in tokens ==> x.Vt?
    ensures Over(tokens, r.vt)
  {
    var d :| Derivation(Plain(r), d) && d[0] == [r.start] && d[|d| - 1] == tokens;
    DerivationStaysOver(r, d);
  }

  /** A run that has ended has accepted exactly when the tokens are a sentence. */
  lemma ParserDecides(r: Rules, first: Sets, follow: Sets, tokens: seq<Symbol>, n: nat)
    requires Proper(r) && ClosedFirst(r, first) && ClosedFollow(r, first, follow) && IsLl1(r, first, follow)
    requires EOI !in tokens && forall x :: x in tokens ==> x.Vt?
    requires !Steps(r, first, follow, Running(Start(r, tokens)), n).Running?
    ensures Steps(r, first, follow, Running(Start(r, tokens)), n).Accepted? <==> Derives(Plain(r), [r.start], tokens)
  {
    hide Derives, ClosedFirst, ClosedFollow, IsLl1, Next, Proper, Plain;
    if Derives(Plain(r), [r.start], tokens) {
      SentencesAreOver(r, tokens);
      var m := ParserIsComplete(r, first, follow, tokens);
      FinishedStays(r, first, follow, Running(Start(r, tokens)), n, if n <= m then m else n);
      FinishedStays(r, first, follow, Running(Start(r, tokens)), m, if n <= m then m else n);
    } else if Steps(r, first, follow, Running(Start(r, tokens)), n).Accepted? {
      ParserIsSound(r, first, follow, tokens, n);
    }
  }

  /** The sets and the table are made, the grammar is predictive and has no left recursion. */
  ghost predicate Ready(gen: Generator, rank: map<Symbol, nat>, base: nat)
    reads gen
  {
    && Proper(gen.r) && LeastFirst(gen.r, gen.first) && LeastFollow(gen.r, gen.first, gen.follow)
    && IsTable(gen.r, gen.first, gen.follow, gen.table)
    && IsLl1(gen.r, gen.first, gen.follow) && Ranked(gen.r, gen.first, rank)
    && forall p :: p in gen.r.prods ==> |Strip(p.rhs)| < base
  }

  method LookupParsingTable(gen: Generator, x: Symbol, a: Symbol) returns (entry: Entry)
    requires Proper(gen.r) && IsTable(gen.r, gen.first, gen.follow, gen.table)
    ensures entry == Lookup(gen.r, gen.first, gen.follow, x, a)
  {
    hide Choice;
    var cols := gen.r.vt + [EOI];
    var i := 0;
    while i < |gen.r.vn|
      invariant 0 <= i <= |gen.r.vn| && x !in gen.r.vn[..i]
    {
      if gen.r.vn[i] == x {
        var j := 0;
        while j < |cols|
          invariant 0 <= j <= |cols| && a !in cols[..j]
        {
          if cols[j] == a {
            assert IsRow(gen.r, gen.first, gen.follow, gen.r.vn[i], gen.table[i]);
            return gen.table[i][j];
          }
          j := j + 1;
        }
        assert cols[..j] == cols;
        return None;
      }
      i := i + 1;
    }
    assert gen.r.vn[..i] == gen.r.vn;
    entry := None;
  }

  /** Pushes a right side, last symbol first and leaving out the empty word. */
  method PushBody(stack: seq<Symbol>, rhs: seq<Symbol>) returns (result: seq<Symbol>)
    ensures result == Strip(rhs) + stack
  {
    result := stack;
    var i := |rhs|;
    while i > 0
      invariant 0 <= i <= |rhs| && result == Strip(rhs[i..]) + stack
    {
      i := i - 1;
      assert rhs[i..][1..] == rhs[i + 1..];
      if rhs[i] != EPS {
        result := [rhs[i]] + result;
      }
    }
    assert rhs[0..] == rhs;
  }

  /** What the parser can read of a queue: all before the first end mark. */
  function Before(q: seq<Symbol>): (w: seq<Symbol>)
    requires EOI in q
    ensures EOI !in w && |w| < |q| && q[|w|] == EOI && w == q[..|w|]
  {
    if q[0] == EOI then [] else [q[0]] + Before(q[1..])
  }

  /** A call takes tokens off the front, none past the first end mark; all of those before it when it accepts. */
  predicate LeftOver(q: seq<Symbol>, left: seq<Symbol>, ok: bool)
    requires EOI in q
  {
    && |q| - |Before(q)| <= |left| <= |q| && left == q[|q| - |left|..] && EOI in left
    && (ok ==> left == q[|Before(q)|..])
  }

  lemma WordOver(q: seq<Symbol>)
    requires EOI in q && forall x :: x in q ==> x.Vt?
    ensures Before(q) + q[|Before(q)|..] == q && forall x :: x in Before(q) ==> x.Vt?
  {
  }

  ghost predicate IsEnd(rest: seq<Symbol>, word: seq<Symbol>) {
    |rest| <= |word| && rest == word[|word| - |rest|..]
  }

  lemma EndOfFront(q: seq<Symbol>, m: nat, k: nat)
    requires k <= m <= |q|
    ensures q[..m][m - k..] + q[m..] == q[m - k..]
  {
  }

  lemma MarkNotReached(c: Config, word: seq<Symbol>)
    requires IsEnd(c.rest, word) && EOI !in word
    ensures NextToken(c) == EOI <==> c.rest == []
  {
    assert c.rest != [] ==> c.rest[0] == word[|word| - |c.rest|];
  }

  lemma SuffixIsLeftOver(q: seq<Symbol>, n: nat, ok: bool)
    requires EOI in q && n <= |Before(q)| && (ok ==> n == |Before(q)|)
    ensures LeftOver(q, q[n..], ok)
  {
    var m := |Before(q)|;
    assert q[m] == EOI && q[n..][m - n] == q[m];
    hide Before;
  }

  lemma RestIsLeftOver(q: seq<Symbol>, c: Config, ok: bool)
    requires EOI in q && IsEnd(c.rest, Before(q)) && (ok ==> NextToken(c) == EOI)
    ensures LeftOver(q, c.rest + q[|Before(q)|..], ok)
  {
    var m, k := |Before(q)|, |c.rest|;
    assert Before(q) == q[..m] && c.rest == q[..m][m - k..];
    MarkNotReached(c, Before(q));
    hide LeftOver, Before, IsEnd, NextToken;
    SuffixIsLeftOver(q, m - k, ok);
    EndOfFront(q, m, k);
  }

  /** The stack and the queue are global: each call finds what the one before it left. */
  class Parser {
    var stack: seq<Symbol>
    var queue: seq<Symbol>

    constructor ()
      ensures stack == [] && queue == []
    {
      stack, queue := [], [];
    }

    /** The stack and the queue are those of c, over what other calls left and before the end mark. */
    ghost predicate Stands(c: Config, below: seq<Symbol>, after: seq<Symbol>)
      reads this
    {
      && c.stack != [] && c.stack[|c.stack| - 1] == EOI && stack == c.stack + below
      && after != [] && after[0] == EOI && queue == c.rest + after
    }

    /** One turn of the loop. */
    method Turn(gen: Generator, ghost c: Config, ghost below: seq<Symbol>, ghost after: seq<Symbol>)
      returns (done: bool, ok: bool, ghost c': Config)
      requires Proper(gen.r) && IsTable(gen.r, gen.first, gen.follow, gen.table) && Stands(c, below, after)
      modifies this
      ensures Stands(c', below, after)
      ensures done ==> c' == c && Next(gen.r, gen.first, gen.follow, c) == if ok then Accepted else Rejected
      ensures !done ==> Next(gen.r, gen.first, gen.follow, c) == Running(c')
    {
      hide Proper, IsTable, Strip, Lookup;
      c', done, ok := c, true, false;
      var top, next := stack[0], queue[0];
      assert top == c.stack[0] && next == NextToken(c);
      assert stack[1..] == c.stack[1..] + below;
      if top.Vn? {
        var entry := LookupParsingTable(gen, top, next);
        if entry.Some? {
          done := false;
          stack := PushBody(stack[1..], entry.p.rhs);
          c' := Config(Strip(entry.p.rhs) + c.stack[1..], c.rest);
          Regroup(Strip(entry.p.rhs), c.stack[1..], below);
        }
      } else if top != EOI {
        if top == next && next != EOI {
          done := false;
          assert queue[1..] == c.rest[1..] + after;
          stack, queue := stack[1..], queue[1..];
          c' := Config(c.stack[1..], c.rest[1..]);
        }
      } else {
        ok := next == EOI;
      }
    }

    /**
     * Queues the tokens and parses what stands before the first end mark of the queue; always ends,
     * and says whether that is a sentence. The end mark is never taken out.
     */
    method Parse(gen: Generator, tokens: seq<Symbol>, ghost rank: map<Symbol, nat>, ghost base: nat) returns (ok: bool)
      requires Ready(gen, rank, base)
      requires EOI in queue + tokens && forall x :: x in queue + tokens ==> x.Vt?
      modifies this
      ensures ok <==> Derives(Plain(gen.r), [gen.r.start], Before(old(queue) + tokens))
      ensures LeftOver(old(queue) + tokens, queue, ok)
      ensures |old(stack)| < |stack| && stack[|stack| - |old(stack)|..] == old(stack)
    {
      hide Derives, ClosedFirst, ClosedFollow, IsLl1, Ranked, Proper, IsTable, Plain, Cost, Before, IsEnd, LeftOver, Next, Strip;
      ghost var r, first, follow, below := gen.r, gen.first, gen.follow, stack;
      queue := queue + tokens;
      ghost var q, word := queue, Before(queue);
      stack := [gen.r.start, EOI] + stack;
      ghost var n, c := 0, Start(r, word);
      WordOver(q);
      EndOfAll(word);
      while true
        invariant Steps(r, first, follow, Running(Start(r, word)), n) == Running(c)
        invariant Stands(c, below, q[|word|..]) && IsEnd(c.rest, word)
        decreases |c.rest|, Cost(first, rank, base, c.stack)
      {
        StepsAdd(r, first, follow, Running(Start(r, word)), n);
        n := n + 1;
        ghost var was := c;
        var done;
        done, ok, c := Turn(gen, c, below, q[|word|..]);
        if done {
          ParserDecides(r, first, follow, word, n);
          AcceptsAtEnd(r, first, follow, c);
          RestIsLeftOver(q, c, ok);
          return;
        }
        TurnCosts(r, first, follow, rank, base, was, c, word);
      }
    }
  }

  lemma EndOfAll(word: seq<Symbol>)
    ensures IsEnd(word, word)
  {
  }

  lemma AcceptsAtEnd(r: Rules, first: Sets, follow: Sets, c: Config)
    ensures Next(r, first, follow, c).Accepted? ==> NextToken(c) == EOI
  {
  }

  /** A turn reads a token or lowers the cost of the stack. */
  lemma TurnCosts(r: Rules, first: Sets, follow: Sets, rank: map<Symbol, nat>, base: nat, c: Config, c': Config, word: seq<Symbol>)
    requires Proper(r) && ClosedFirst(r, first) && Ranked(r, first, rank)
    requires forall p :: p in r.prods ==> |Strip(p.rhs)| < base
    requires Next(r, first, follow, c) == Running(c') && IsEnd(c.rest, word)
    ensures IsEnd(c'.rest, word)
    ensures |c'.rest| < |c.rest| || (c'.rest == c.rest && Cost(first, rank, base, c'.stack) < Cost(first, rank, base, c.stack))
  {
    hide Proper, ClosedFirst, Ranked, Strip, Cost, Choice;
    if c.stack[0].Vn? {
      TopCosts(r, first, follow, rank, base, c);
    }
  }

  lemma TopCosts(r: Rules, first: Sets, follow: Sets, rank: map<Symbol, nat>, base: nat, c: Config)
    requires Proper(r) && ClosedFirst(r, first) && Ranked(r, first, rank)
    requires forall p :: p in r.prods ==> |Strip(p.rhs)| < base
    requires c.stack != [] && c.stack[0].Vn? && Lookup(r, first, follow, c.stack[0], NextToken(c)).Some?
    ensures var p := Lookup(r, first, follow, c.stack[0], NextToken(c)).p;
            Cost(first, rank, base, Strip(p.rhs) + c.stack[1..]) < Cost(first, rank, base, c.stack)
  {
    hide ClosedFirst, Ranked, Strip, Choice, Cost;
    ChoiceIsProduction(r.prods, first, follow, c.stack[0], NextToken(c));
    var p := Lookup(r, first, follow, c.stack[0], NextToken(c)).p;
    assert c.stack == [p.lhs] + c.stack[1..];
    ExpandCosts(r, first, rank, base, p, c.stack[1..]);
  }
}
