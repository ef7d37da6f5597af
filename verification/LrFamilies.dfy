/**
 * Two families of grammars on which the LR(0) parser always ends: LR(0) grammars in which every
 * nonterminal derives some string of terminals, and grammars, with conflicts or without, that have no
 * empty right side and in which renaming one symbol to another cannot go round in a circle.
 */
module LrFamilies {
  import opened Sequences
  import opened Grammars
  import opened LrItems
  import opened LrTables
  import opened LrPumping
  import opened LrViable
  import opened LrParser
  import opened LrHalting

  /** Every nonterminal derives some string of terminals. */
  ghost predicate Productive(g: Grammar) {
    forall x :: x in g.vn ==> exists v :: Over(v, g.vt) && Derives(g, [x], v)
  }

  lemma {:induction false} HasForest(g: Grammar, u: seq<Symbol>) returns (f: Forest)
    requires WellFormed(g) && Productive(g) && Over(u, Symbols(g))
    ensures Grown(g, f) && Roots(f) == u && Over(Yield(f), g.vt)
    decreases |u|
  {
    hide Derives;
    if u == [] {
      return Nil;
    }
    var rest := HasForest(g, u[1..]);
    if u[0] in g.vt {
      return Leaf(u[0], rest);
    }
    assert u[0] in Symbols(g) && u[0] in g.vn;
    var v :| Over(v, g.vt) && Derives(g, [u[0]], v);
    var one := DerivesHasForest(g, [u[0]], v);
    assert one.Node? && Roots(one.rest) == Roots(one)[1..] == [];
    assert one.rest.Nil?;
    f := Node(one.p, one.kids, rest);
    assert Yield(one.kids) + [] == v;
  }

  /** What stands on the stack is the beginning of a parse of some sentence. */
  lemma StandingGoesOn(g: Grammar, f: Forest) returns (h: Forest, z: seq<Symbol>)
    requires WellFormed(g) && Fresh(g) && Productive(g) && Stands(g, f)
    ensures Grown(g, h) && Roots(h) == [g.start] && Yield(h) == Yield(f) + z && Over(z, g.vt)
  {
    hide Run, Grown, Roots, Yield, Count, Productive, Rewrites;
    var v := ReadableIsViable(g, Roots(f));
    var after := HasForest(g, v);
    Joined(g, f, after);
    z := Yield(after);
    var d :| Derivation(g, d) && d[0] == [g.start] && d[|d| - 1] == Roots(f) + v;
    h := ForestAbove(g, d, Join(f, after));
  }

  /** A sentence's whole parse is followed by acceptance. */
  lemma SentenceAccepted(g: Grammar, t: Tables, f: Forest)
    requires Clean(g, t) && Grown(g, f) && Roots(f) == [g.start] && Over(Yield(f), g.vt)
    ensures From(g, t, Start(Yield(f)), Count(f) + 1) == Accepted
  {
    hide Run, IsTable, ConflictFree, Inv, Next, Grown, Yield, Count;
    StartIsFound(g);
    RunAdvances(g, [], StartItem(g), g.start);
    assert [] + [g.start] == [g.start] && Yield(f) + [] == Yield(f);
    var d := StandingIsBuilt(g, t, f, []);
    AcceptStep(g, t.states, t.toState, t.actions, t.gotos, d, Yield(f));
    StepsAdd(g, t.actions, t.gotos, Running(Start(Yield(f))), Count(f), 1);
  }

  /** An LR(0) grammar in which every nonterminal derives some string of terminals. */
  lemma ProductiveIsTame(g: Grammar, t: Tables)
    requires Built(g, t) && IsLr0(g) && Productive(g)
    ensures Tame(g)
  {
    hide IsTable, IsLr0, Productive, Tame, From, Inv, Stands, Count, Clean;
    if !Tame(g) {
      Lr0IsClean(g, t);
      var f := UnboundedWithout(g);
      SomeLimit(g, t, f);
    }
  }

  /** The parser can be brought to acceptance, so only so many steps can be made before. */
  lemma SomeLimit(g: Grammar, t: Tables, f: Forest)
    requires Clean(g, t) && Productive(g) && Stands(g, f)
    ensures exists m: nat :: !Larger(g, Yield(f), m)
  {
    hide Clean, Productive, From, Inv, Stands, Count, Grown, Roots, Yield, Built;
    CleanIsBuilt(g, t);
    var whole, z := StandingGoesOn(g, f);
    YieldOver(g, f);
    SentenceAccepted(g, t, whole);
    var m := Count(whole) + 1;
    forall h | Stands(g, h) && Yield(h) == Yield(f) ensures Count(h) < m {
      var d := StandingIsBuilt(g, t, h, z);
      if Count(h) >= m { StaysFinished(g, t, Start(Yield(whole)), m, Count(h)); }
    }
    assert !Larger(g, Yield(f), m);
  }

  lemma YieldOver(g: Grammar, f: Forest)
    requires Stands(g, f)
    ensures Over(Yield(f), g.vt) && Grown(g, f)
  {
  }

  /** Over tables without conflicts every run ends, if every nonterminal derives some string of terminals. */
  lemma CleanRunEnds(g: Grammar, t: Tables, c: Config, tokens: seq<Symbol>) returns (n: nat)
    requires Clean(g, t) && Productive(g) && Inv(g, t.states, c, tokens)
    ensures !From(g, t, c, n).Running?
  {
    hide IsTable, IsLr0, Productive, Tame, From, Inv, Wants;
    ConflictFreeExactly(g, t);
    ProductiveIsTame(g, t);
    n := TameRunEnds(g, t, c, tokens);
  }

  /** No right side is empty, and a production that only renames a symbol leads to a higher rank. */
  predicate Ranked(g: Grammar, rank: map<Symbol, nat>) {
    forall p :: p in g.prods ==> p.rhs != [] && (|p.rhs| == 1 ==> RankOf(rank, p.rhs[0]) < RankOf(rank, p.lhs))
  }

  /** With no empty right side nothing is made of nothing. */
  lemma {:induction false} RankedYields(g: Grammar, rank: map<Symbol, nat>, f: Forest)
    requires Ranked(g, rank) && Grown(g, f) && f != Nil
    ensures Yield(f) != []
  {
    if f.Node? { RankedYields(g, rank, f.kids); }
  }

  function Weight(rank: map<Symbol, nat>, u: seq<Symbol>): nat {
    if u == [] then 0 else RankOf(rank, u[0]) + Weight(rank, u[1..])
  }

  lemma {:induction false} WeightTwo(rank: map<Symbol, nat>, u: seq<Symbol>, v: seq<Symbol>)
    ensures Weight(rank, u + v) == Weight(rank, u) + Weight(rank, v)
  {
    if u == [] {
      assert u + v == v;
    } else {
      WeightTwo(rank, u[1..], v);
      assert (u + v)[1..] == u[1..] + v;
    }
  }

  lemma WeightAround(rank: map<Symbol, nat>, u: seq<Symbol>, x: Symbol, v: seq<Symbol>)
    ensures Weight(rank, u + [x] + v) == Weight(rank, u) + RankOf(rank, x) + Weight(rank, v)
  {
    WeightTwo(rank, u + [x], v);
    WeightTwo(rank, u, [x]);
    assert Weight(rank, [x][1..]) == 0;
  }

  lemma RenamedIsLighter(rank: map<Symbol, nat>, u: seq<Symbol>, i: nat, x: Symbol)
    requires i < |u| && RankOf(rank, x) < RankOf(rank, u[i])
    ensures Weight(rank, u[..i] + [x] + u[i + 1..]) < Weight(rank, u)
  {
    hide Weight, RankOf;
    assert u == u[..i] + [u[i]] + u[i + 1..];
    WeightAround(rank, u[..i], u[i], u[i + 1..]);
    WeightAround(rank, u[..i], x, u[i + 1..]);
  }

  lemma LengthAfter(u: seq<Symbol>, i: nat, rhs: seq<Symbol>)
    requires i < |u|
    ensures |Replaced(u, i, rhs)| == |u| - 1 + |rhs| && (|rhs| == 1 ==> Replaced(u, i, rhs) == u[..i] + [rhs[0]] + u[i + 1..])
  {
    assert |rhs| == 1 ==> rhs == [rhs[0]];
  }

  /** A step makes the string longer, or of the same length and lighter. */
  lemma RankedStep(g: Grammar, rank: map<Symbol, nat>, u: seq<Symbol>, v: seq<Symbol>)
    requires Ranked(g, rank) && Rewrites(g, u, v)
    ensures |u| < |v| || (|u| == |v| && Weight(rank, v) < Weight(rank, u))
  {
    hide Weight, RankOf, Replaced;
    var p, i :| p in g.prods && 0 <= i < |u| && u[i] == p.lhs && v == Replaced(u, i, p.rhs);
    LengthAfter(u, i, p.rhs);
    if |p.rhs| == 1 {
      RenamedIsLighter(rank, u, i, p.rhs[0]);
    }
  }

  lemma {:induction false} RankedDerivation(g: Grammar, rank: map<Symbol, nat>, d: seq<seq<Symbol>>)
    requires Ranked(g, rank) && Derivation(g, d) && |d| > 1
    ensures d[0] != d[|d| - 1]
    ensures |d[0]| < |d[|d| - 1]| || (|d[0]| == |d[|d| - 1]| && Weight(rank, d[|d| - 1]) < Weight(rank, d[0]))
    decreases |d|
  {
    hide Rewrites, Ranked, Weight;
    var e := d[..|d| - 1];
    RankedStep(g, rank, d[|d| - 2], d[|d| - 1]);
    if |e| > 1 {
      RankedDerivation(g, rank, e);
    }
  }

  lemma RankedIsTame(g: Grammar, rank: map<Symbol, nat>)
    requires Ranked(g, rank)
    ensures Tame(g)
  {
    hide Run, Grown, Yield, Roots, Derivation, Ranked;
    if f, e :| Stands(g, f) && Idles(g, f, e) {
      RankedYields(g, rank, e);
    }
    if f, d :| Stands(g, f) && Returns(g, f, d) {
      RankedDerivation(g, rank, d);
    }
  }

  /** Over any tables every run ends, if no right side is empty and renaming goes down in rank. */
  lemma RankedRunEnds(g: Grammar, t: Tables, rank: map<Symbol, nat>, c: Config, tokens: seq<Symbol>) returns (n: nat)
    requires Built(g, t) && Ranked(g, rank) && Inv(g, t.states, c, tokens)
    ensures !From(g, t, c, n).Running?
  {
    hide IsTable, Inv, Ranked, Tame, From;
    RankedIsTame(g, rank);
    n := TameRunEnds(g, t, c, tokens);
  }
}
