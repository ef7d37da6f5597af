/**
 * Context-free grammars as both parser generators see them after their input has been read:
 * symbol and production tables, what it means for one string of symbols to derive another, and
 * parse forests, by which a derivation is followed from left to right.
 */
module Grammars {
  import opened Sequences

  datatype Symbol = Vn(name: char) | Vt(name: char)

  datatype Production = Production(lhs: Symbol, rhs: seq<Symbol>)

  datatype Grammar = Grammar(start: Symbol, vn: seq<Symbol>, vt: seq<Symbol>, prods: seq<Production>)

  function Symbols(g: Grammar): seq<Symbol> {
    g.vn + g.vt
  }

  predicate Over(w: seq<Symbol>, symbols: seq<Symbol>) {
    forall x :: x in w ==> x in symbols
  }

  predicate WellFormed(g: Grammar) {
    && g.start in g.vn
    && (forall x :: x in g.vn ==> x.Vn?)
    && (forall x :: x in g.vt ==> x.Vt?)
    && Distinct(g.vn) && Distinct(g.vt) && Distinct(g.prods)
    && (forall p :: p in g.prods ==> p.lhs in g.vn && Over(p.rhs, Symbols(g)))
  }

  /** A rank given to symbols; 0 for those without. */
  function RankOf(rank: map<Symbol, nat>, x: Symbol): nat {
    if x in rank then rank[x] else 0
  }

  // ----- derivations -----

  function Replaced(u: seq<Symbol>, i: nat, rhs: seq<Symbol>): seq<Symbol>
    requires i < |u|
  {
    u[..i] + rhs + u[i + 1..]
  }

  ghost predicate Rewrites(g: Grammar, u: seq<Symbol>, v: seq<Symbol>) {
    exists p, i :: p in g.prods && 0 <= i < |u| && u[i] == p.lhs && v == Replaced(u, i, p.rhs)
  }

  ghost predicate Derivation(g: Grammar, d: seq<seq<Symbol>>) {
    |d| > 0 && forall k :: 0 <= k < |d| - 1 ==> Rewrites(g, d[k], d[k + 1])
  }

  ghost predicate Derives(g: Grammar, u: seq<Symbol>, v: seq<Symbol>) {
    exists d {:trigger Derivation(g, d)} :: Derivation(g, d) && d[0] == u && d[|d| - 1] == v
  }

  lemma DerivesItself(g: Grammar, u: seq<Symbol>)
    ensures Derives(g, u, u)
  {
    assert Derivation(g, [u]);
  }

  /** A rewriting step in front of a derivation. */
  lemma DerivesAfterStep(g: Grammar, x: seq<Symbol>, p: Production, v: seq<Symbol>)
    requires p in g.prods && Derives(g, x + p.rhs, v)
    ensures Derives(g, x + [p.lhs], v)
  {
    var d :| Derivation(g, d) && d[0] == x + p.rhs && d[|d| - 1] == v;
    var u := x + [p.lhs];
    var e := [u] + d;
    assert u[|x|] == p.lhs && Replaced(u, |x|, p.rhs) == x + p.rhs;
    assert Rewrites(g, e[0], e[1]);
    forall k | 0 <= k < |e| - 1 ensures Rewrites(g, e[k], e[k + 1]) {
      if k > 0 {
        assert e[k] == d[k - 1] && e[k + 1] == d[k];
      }
    }
    assert Derivation(g, e) && e[0] == u && e[|e| - 1] == v;
  }

  /** A rewriting step at the end of a derivation. */
  lemma DerivesThenStep(g: Grammar, u: seq<Symbol>, v: seq<Symbol>, w: seq<Symbol>)
    requires Derives(g, u, v) && Rewrites(g, v, w)
    ensures Derives(g, u, w)
  {
    hide Rewrites;
    var d :| Derivation(g, d) && d[0] == u && d[|d| - 1] == v;
    var e := d + [w];
    forall k | 0 <= k < |e| - 1 ensures Rewrites(g, e[k], e[k + 1]) {
      if k < |d| - 1 { assert e[k] == d[k] && e[k + 1] == d[k + 1]; }
    }
    assert Derivation(g, e) && e[0] == u && e[|e| - 1] == w;
  }

  lemma StepBeforeSymbol(g: Grammar, u: seq<Symbol>, v: seq<Symbol>, a: Symbol)
    requires Rewrites(g, u, v)
    ensures Rewrites(g, u + [a], v + [a])
  {
    var p, i :| p in g.prods && 0 <= i < |u| && u[i] == p.lhs && v == Replaced(u, i, p.rhs);
    assert (u + [a])[i + 1..] == u[i + 1..] + [a] && (u + [a])[..i] == u[..i];
    assert (u + [a])[i] == p.lhs && v + [a] == Replaced(u + [a], i, p.rhs);
  }

  /** A derivation goes on unchanged in front of one more symbol. */
  lemma DerivesBeforeSymbol(g: Grammar, u: seq<Symbol>, v: seq<Symbol>, a: Symbol)
    requires Derives(g, u, v)
    ensures Derives(g, u + [a], v + [a])
  {
    var d :| Derivation(g, d) && d[0] == u && d[|d| - 1] == v;
    var e := seq(|d|, k requires 0 <= k < |d| => d[k] + [a]);
    forall k | 0 <= k < |e| - 1 ensures Rewrites(g, e[k], e[k + 1]) {
      StepBeforeSymbol(g, d[k], d[k + 1], a);
    }
    assert Derivation(g, e);
    assert e[0] == u + [a] && e[|e| - 1] == v + [a];
  }

  // ----- parse forests -----

  /** A list of parse trees, each with its list of subtrees first and the trees to its right after. */
  datatype Forest =
    | Nil
    | Leaf(a: Symbol, rest: Forest)
    | Node(p: Production, kids: Forest, rest: Forest)

  function Roots(f: Forest): seq<Symbol> {
    match f
    case Nil => []
    case Leaf(a, rest) => [a] + Roots(rest)
    case Node(p, _, rest) => [p.lhs] + Roots(rest)
  }

  function Yield(f: Forest): seq<Symbol> {
    match f
    case Nil => []
    case Leaf(a, rest) => [a] + Yield(rest)
    case Node(_, kids, rest) => Yield(kids) + Yield(rest)
  }

  predicate Grown(g: Grammar, f: Forest) {
    match f
    case Nil => true
    case Leaf(a, rest) => a.Vt? && Grown(g, rest)
    case Node(p, kids, rest) => p in g.prods && Roots(kids) == p.rhs && Grown(g, kids) && Grown(g, rest)
  }

  function Leaves(w: seq<Symbol>): Forest {
    if w == [] then Nil else Leaf(w[0], Leaves(w[1..]))
  }

  lemma {:induction false} LeavesStand(g: Grammar, w: seq<Symbol>)
    requires forall x :: x in w ==> x.Vt?
    ensures Grown(g, Leaves(w)) && Roots(Leaves(w)) == w && Yield(Leaves(w)) == w
  {
    if w != [] {
      LeavesStand(g, w[1..]);
    }
  }

  /** How many leaves and inner nodes a forest has. */
  function Count(f: Forest): nat {
    match f
    case Nil => 0
    case Leaf(_, rest) => 1 + Count(rest)
    case Node(_, kids, rest) => 1 + Count(kids) + Count(rest)
  }

  function Join(f: Forest, g: Forest): Forest {
    match f
    case Nil => g
    case Leaf(a, rest) => Leaf(a, Join(rest, g))
    case Node(p, kids, rest) => Node(p, kids, Join(rest, g))
  }

  lemma {:induction false} Joined(g: Grammar, f: Forest, h: Forest)
    requires Grown(g, f) && Grown(g, h)
    ensures Grown(g, Join(f, h)) && Count(Join(f, h)) == Count(f) + Count(h)
    ensures Roots(Join(f, h)) == Roots(f) + Roots(h) && Yield(Join(f, h)) == Yield(f) + Yield(h)
  {
    match f
    case Nil =>
    case Leaf(a, rest) =>
      Joined(g, rest, h);
      Regroup([a], Roots(rest), Roots(h));
      Regroup([a], Yield(rest), Yield(h));
    case Node(p, kids, rest) =>
      Joined(g, rest, h);
      Regroup([p.lhs], Roots(rest), Roots(h));
      Regroup(Yield(kids), Yield(rest), Yield(h));
  }

  /** The first n trees of a forest. */
  function Front(f: Forest, n: nat): Forest
    requires n <= |Roots(f)|
  {
    if n == 0 then Nil
    else match f
      case Leaf(a, rest) => Leaf(a, Front(rest, n - 1))
      case Node(p, kids, rest) => Node(p, kids, Front(rest, n - 1))
  }

  /** A forest without its first n trees. */
  function Back(f: Forest, n: nat): Forest
    requires n <= |Roots(f)|
  {
    if n == 0 then f else Back(f.rest, n - 1)
  }

  lemma {:induction false} FrontAndBackRoots(f: Forest, n: nat)
    requires n <= |Roots(f)|
    ensures Roots(Front(f, n)) == Roots(f)[..n] && Roots(Back(f, n)) == Roots(f)[n..]
  {
    if n > 0 {
      FrontAndBackRoots(f.rest, n - 1);
      assert Roots(f.rest) == Roots(f)[1..];
      assert Roots(f)[..n] == [Roots(f)[0]] + Roots(f.rest)[..n - 1];
      assert Roots(f)[n..] == Roots(f.rest)[n - 1..];
    }
  }

  lemma {:induction false} FrontAndBackYield(f: Forest, n: nat)
    requires n <= |Roots(f)|
    ensures Yield(f) == Yield(Front(f, n)) + Yield(Back(f, n))
  {
    if n > 0 {
      FrontAndBackYield(f.rest, n - 1);
      var first := if f.Leaf? then [f.a] else Yield(f.kids);
      assert Yield(f) == first + Yield(f.rest) && Yield(Front(f, n)) == first + Yield(Front(f.rest, n - 1));
      Regroup(first, Yield(Front(f.rest, n - 1)), Yield(Back(f.rest, n - 1)));
    }
  }

  lemma {:induction false} FrontAndBackGrown(g: Grammar, f: Forest, n: nat)
    requires Grown(g, f) && n <= |Roots(f)|
    ensures Grown(g, Front(f, n)) && Grown(g, Back(f, n))
  {
    hide Yield;
    if n > 0 {
      FrontAndBackGrown(g, f.rest, n - 1);
    }
  }

  lemma {:induction false} FrontAndBackCount(f: Forest, n: nat)
    requires n <= |Roots(f)|
    ensures Count(f) == Count(Front(f, n)) + Count(Back(f, n))
  {
    if n > 0 {
      FrontAndBackCount(f.rest, n - 1);
    }
  }

  /** The trees from position i on that spell out the right side of p are put under one new tree. */
  function Grouped(f: Forest, i: nat, p: Production): Forest
    requires i + |p.rhs| <= |Roots(f)|
  {
    if i == 0 then Node(p, Front(f, |p.rhs|), Back(f, |p.rhs|))
    else match f
      case Leaf(a, rest) => Leaf(a, Grouped(rest, i - 1, p))
      case Node(q, kids, rest) => Node(q, kids, Grouped(rest, i - 1, p))
  }

  lemma {:induction false} GroupedYield(f: Forest, i: nat, p: Production)
    requires i + |p.rhs| <= |Roots(f)|
    ensures Yield(Grouped(f, i, p)) == Yield(f)
  {
    if i == 0 {
      FrontAndBackYield(f, |p.rhs|);
    } else {
      assert Roots(f.rest) == Roots(f)[1..];
      GroupedYield(f.rest, i - 1, p);
    }
  }

  lemma {:induction false} GroupedCount(f: Forest, i: nat, p: Production)
    requires i + |p.rhs| <= |Roots(f)|
    ensures Count(Grouped(f, i, p)) == Count(f) + 1
  {
    if i == 0 {
      FrontAndBackCount(f, |p.rhs|);
    } else {
      assert Roots(f.rest) == Roots(f)[1..];
      GroupedCount(f.rest, i - 1, p);
    }
  }

  lemma ReplacedLater(u: seq<Symbol>, i: nat, rhs: seq<Symbol>)
    requires 0 < i < |u|
    ensures Replaced(u, i, rhs) == [u[0]] + Replaced(u[1..], i - 1, rhs)
  {
    assert u[..i] == [u[0]] + u[1..][..i - 1] && u[1..][i..] == u[i + 1..];
    Regroup([u[0]], u[1..][..i - 1], rhs);
    Regroup([u[0]], u[1..][..i - 1] + rhs, u[i + 1..]);
  }

  lemma ReplacedFirst(u: seq<Symbol>, rhs: seq<Symbol>)
    requires u != []
    ensures |rhs| <= |Replaced(u, 0, rhs)| && Replaced(u, 0, rhs)[..|rhs|] == rhs && Replaced(u, 0, rhs)[|rhs|..] == u[1..] && u == [u[0]] + u[1..]
  {
    assert u[..0] + rhs == rhs;
  }

  lemma RootsAfterFirst(f: Forest)
    requires f != Nil
    ensures Roots(f) == [if f.Leaf? then f.a else f.p.lhs] + Roots(f.rest)
  {
  }

  lemma {:induction false} GroupedRoots(f: Forest, u: seq<Symbol>, i: nat, p: Production)
    requires i < |u| && u[i] == p.lhs && Roots(f) == Replaced(u, i, p.rhs)
    ensures Roots(Grouped(f, i, p)) == u
  {
    hide Yield, Replaced;
    if i == 0 {
      ReplacedFirst(u, p.rhs);
      FrontAndBackRoots(f, |p.rhs|);
    } else {
      ReplacedLater(u, i, p.rhs);
      RootsAfterFirst(f);
      assert Roots(f)[1..] == Roots(f.rest) == Replaced(u[1..], i - 1, p.rhs);
      GroupedRoots(f.rest, u[1..], i - 1, p);
    }
  }

  lemma {:induction false} GroupedGrown(g: Grammar, f: Forest, u: seq<Symbol>, i: nat, p: Production)
    requires Grown(g, f) && p in g.prods && i < |u| && u[i] == p.lhs && Roots(f) == Replaced(u, i, p.rhs)
    ensures Grown(g, Grouped(f, i, p))
  {
    hide Yield, Replaced;
    if i == 0 {
      ReplacedFirst(u, p.rhs);
      FrontAndBackGrown(g, f, |p.rhs|);
      FrontAndBackRoots(f, |p.rhs|);
    } else {
      ReplacedLater(u, i, p.rhs);
      RootsAfterFirst(f);
      assert Roots(f)[1..] == Roots(f.rest) == Replaced(u[1..], i - 1, p.rhs);
      GroupedGrown(g, f.rest, u[1..], i - 1, p);
    }
  }

  /** Putting the trees of a right side under a new one takes back the rewriting step. */
  lemma GroupedUndoesStep(g: Grammar, f: Forest, u: seq<Symbol>, i: nat, p: Production)
    requires Grown(g, f) && p in g.prods && i < |u| && u[i] == p.lhs && Roots(f) == Replaced(u, i, p.rhs)
    ensures Grown(g, Grouped(f, i, p)) && Roots(Grouped(f, i, p)) == u && Yield(Grouped(f, i, p)) == Yield(f)
    ensures Count(Grouped(f, i, p)) == Count(f) + 1
  {
    GroupedGrown(g, f, u, i, p);
    GroupedCount(f, i, p);
    GroupedRoots(f, u, i, p);
    GroupedYield(f, i, p);
  }

  /** A forest over the last string of a derivation grows into one over the first, by one node for each step. */
  lemma {:induction false} ForestAbove(g: Grammar, d: seq<seq<Symbol>>, h: Forest) returns (f: Forest)
    requires Derivation(g, d) && Grown(g, h) && Roots(h) == d[|d| - 1]
    ensures Grown(g, f) && Roots(f) == d[0] && Yield(f) == Yield(h) && Count(f) == Count(h) + |d| - 1
    decreases |d|
  {
    hide Grown, Roots, Yield, Count, Grouped;
    if |d| == 1 {
      f := h;
    } else {
      var e := d[1..];
      forall k | 0 <= k < |e| - 1 ensures Rewrites(g, e[k], e[k + 1]) {
        assert Rewrites(g, d[k + 1], d[k + 2]);
      }
      var f' := ForestAbove(g, e, h);
      assert Rewrites(g, d[0], d[1]);
      var p, i :| p in g.prods && 0 <= i < |d[0]| && d[0][i] == p.lhs && d[1] == Replaced(d[0], i, p.rhs);
      GroupedUndoesStep(g, f', d[0], i, p);
      f := Grouped(f', i, p);
    }
  }

  /** Whatever derives a string of terminals has a parse forest over it. */
  lemma DerivesHasForest(g: Grammar, u: seq<Symbol>, v: seq<Symbol>) returns (f: Forest)
    requires Derives(g, u, v) && forall x :: x in v ==> x.Vt?
    ensures Grown(g, f) && Roots(f) == u && Yield(f) == v
  {
    var d :| Derivation(g, d) && d[0] == u && d[|d| - 1] == v;
    LeavesStand(g, v);
    f := ForestAbove(g, d, Leaves(v));
  }
}
