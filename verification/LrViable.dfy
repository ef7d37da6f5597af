/**
 * What the item sets of the LR(0) automaton are, told without closures, gotos or states: an item is
 * in the set that a string leads to exactly when there is a way down to it from the start symbol that
 * spells the string. With that, when a grammar is LR(0) is told in terms of its productions alone.
 */
module LrViable {
  import opened Grammars
  import opened LrItems

  /** A way down from the start symbol: productions entered one below the other, each read up to a place. */
  datatype Way = Begin | Down(above: Way, p: Production, k: nat)

  /** What is read along the way. */
  function Word(way: Way): seq<Symbol> {
    match way
    case Begin => []
    case Down(above, p, k) => if k <= |p.rhs| then Word(above) + p.rhs[..k] else []
  }

  /** The way ends in front of the symbol x. */
  predicate EndsBefore(g: Grammar, way: Way, x: Symbol) {
    match way
    case Begin => x == g.start
    case Down(above, p, k) => p in g.prods && k < |p.rhs| && p.rhs[k] == x && EndsBefore(g, above, p.lhs)
  }

  /** Some way down reads u and ends in front of x. */
  ghost predicate Awaits(g: Grammar, u: seq<Symbol>, x: Symbol) {
    exists way :: EndsBefore(g, way, x) && Word(way) == u
  }

  /** After reading w, production p may have been read up to its place k. */
  ghost predicate Open(g: Grammar, w: seq<Symbol>, p: Production, k: nat) {
    p in g.prods && k <= |p.rhs| && k <= |w| && w[|w| - k..] == p.rhs[..k] && Awaits(g, w[..|w| - k], p.lhs)
  }

  /** The new start symbol stands alone in front of everything. */
  ghost predicate Leads(g: Grammar, u: seq<Symbol>, x: Symbol) {
    if x == NEW_START then u == [] else Awaits(g, u, x)
  }

  // ----- every item is open -----

  /** What an item waits for is awaited, if its left side is. */
  lemma AwaitedLeads(g: Grammar, w: seq<Symbol>, it: Item)
    requires WellFormed(g) && Fresh(g) && it in Run(g, w) && it.pos < |it.p.rhs| && it.pos <= |w|
    requires Leads(g, w[..|w| - it.pos], it.p.lhs)
    ensures Awaits(g, w, it.p.rhs[it.pos])
  {
    hide Run, AllItems;
    RunIsProduction(g, w, it);
    RunSuffix(g, w, it);
    AugmentedIsWellFormed(g);
    var x, u := it.p.rhs[it.pos], w[..|w| - it.pos];
    if it.p.lhs == NEW_START {
      assert EndsBefore(g, Begin, x) && Word(Begin) == w;
    } else {
      var way :| EndsBefore(g, way, it.p.lhs) && Word(way) == u;
      var down := Down(way, it.p, it.pos);
      assert w == u + w[|w| - it.pos..];
      assert EndsBefore(g, down, x) && Word(down) == w;
    }
  }

  /** Every item of every reachable set is led to from where it began. */
  lemma {:induction false} AllLead(g: Grammar, w: seq<Symbol>)
    requires WellFormed(g) && Fresh(g)
    ensures forall it :: it in Run(g, w) ==> it.pos <= |w| && Leads(g, w[..|w| - it.pos], it.p.lhs)
    decreases |w|
  {
    hide Leads, Awaits, Closure, AllItems;
    var a := Augmented(g);
    var good := set it | it in Run(g, w) && it.pos <= |w| && Leads(g, w[..|w| - it.pos], it.p.lhs);
    RunIsItems(g, w);
    assert Closed(a, good) by {
      forall it, p | it in good && p in a.prods && NextIs(it, p.lhs) ensures Item(p, 0) in good {
        AwaitedLeads(g, w, it);
        AwaitsIsLeads(g, w, it);
        assert w[..|w|] == w;
      }
    }
    if w == [] {
      StartIsItem(g);
      ClosureIsLeast(a, {StartItem(g)});
      StartIsFound(g);
      assert Leads(g, [], NEW_START) by { StartLeads(g); }
      assert {StartItem(g)} <= good;
    } else {
      var front, x := w[..|w| - 1], w[|w| - 1];
      AllLead(g, front);
      RunIsItems(g, front);
      KernelIsItems(a, Run(g, front), x);
      ClosureIsLeast(a, Kernel(Run(g, front), x));
      assert Kernel(Run(g, front), x) <= good by {
        forall it | it in Run(g, front) && NextIs(it, x) ensures Advance(it) in good {
          assert w[..|w| - Advance(it).pos] == front[..|front| - it.pos];
        }
      }
    }
  }

  lemma StartLeads(g: Grammar)
    ensures Leads(g, [], NEW_START)
  {
  }

  lemma AwaitsIsLeads(g: Grammar, w: seq<Symbol>, it: Item)
    requires WellFormed(g) && Fresh(g) && it in Run(g, w) && it.pos < |it.p.rhs| && Awaits(g, w, it.p.rhs[it.pos])
    ensures Leads(g, w, it.p.rhs[it.pos])
  {
    hide Run, AllItems, Awaits;
    RunIsProduction(g, w, it);
    AugmentedIsWellFormed(g);
    assert it.p.rhs[it.pos] in it.p.rhs;
  }

  // ----- every open place is an item -----

  /** Where a way ends, an item waits for what it ends in front of. */
  lemma {:induction false} WayIsFollowed(g: Grammar, way: Way, x: Symbol) returns (it: Item)
    requires EndsBefore(g, way, x)
    ensures it in Run(g, Word(way)) && NextIs(it, x)
  {
    hide Run;
    match way
    case Begin =>
      StartIsFound(g);
      it := StartItem(g);
    case Down(above, p, k) =>
      var up := WayIsFollowed(g, above, p.lhs);
      ItemAwaited(g, Word(above), up, p);
      RunAdvancesBy(g, Word(above), Item(p, 0), p.rhs[..k]);
      it := Item(p, k);
  }

  /** The automaton's sets hold exactly the places that are open. */
  lemma ItemsAreOpen(g: Grammar, w: seq<Symbol>, p: Production, k: nat)
    requires WellFormed(g) && Fresh(g) && p in g.prods && k <= |p.rhs|
    ensures Item(p, k) in Run(g, w) <==> Open(g, w, p, k)
  {
    hide Run, Awaits;
    if Item(p, k) in Run(g, w) {
      AllLead(g, w);
      RunSuffix(g, w, Item(p, k));
      assert p.lhs != NEW_START;
    }
    if Open(g, w, p, k) {
      OpenIsItem(g, w, p, k);
    }
  }

  lemma OpenIsItem(g: Grammar, w: seq<Symbol>, p: Production, k: nat)
    requires Open(g, w, p, k)
    ensures Item(p, k) in Run(g, w)
  {
    hide Run;
    var u := w[..|w| - k];
    var way :| EndsBefore(g, way, p.lhs) && Word(way) == u;
    var up := WayIsFollowed(g, way, p.lhs);
    ItemAwaited(g, u, up, p);
    RunAdvancesBy(g, u, Item(p, 0), p.rhs[..k]);
    assert w == u + p.rhs[..k];
  }

  // ----- what is read begins a sentence form -----

  /** A production written out between u and v, read as far as its symbol at k. */
  lemma ExpandedBetween(g: Grammar, u: seq<Symbol>, p: Production, k: nat, v: seq<Symbol>)
    requires p in g.prods && k < |p.rhs|
    ensures Rewrites(g, u + [p.lhs] + v, (u + p.rhs[..k]) + [p.rhs[k]] + (p.rhs[k + 1..] + v))
  {
    var from := u + [p.lhs] + v;
    assert from[|u|] == p.lhs && from[..|u|] == u && from[|u| + 1..] == v;
    assert p.rhs == p.rhs[..k] + [p.rhs[k]] + p.rhs[k + 1..];
    assert Replaced(from, |u|, p.rhs) == (u + p.rhs[..k]) + [p.rhs[k]] + (p.rhs[k + 1..] + v);
  }

  /** The productions along a way derive what is read, what comes next, and a rest. */
  lemma {:induction false} WayIsDerivation(g: Grammar, way: Way, x: Symbol) returns (v: seq<Symbol>)
    requires WellFormed(g) && EndsBefore(g, way, x)
    ensures Over(v, Symbols(g)) && Derives(g, [g.start], Word(way) + [x] + v)
  {
    hide Derives, Rewrites;
    match way
    case Begin =>
      DerivesItself(g, [g.start]);
      v := [];
      assert [] + [x] + v == [g.start];
    case Down(above, p, k) =>
      var rest := WayIsDerivation(g, above, p.lhs);
      v := p.rhs[k + 1..] + rest;
      assert Over(p.rhs, Symbols(g));
      ExpandedBetween(g, Word(above), p, k, rest);
      DerivesThenStep(g, [g.start], Word(above) + [p.lhs] + rest, Word(way) + [x] + v);
  }

  /** Every string that the automaton reads is the beginning of one that the start symbol derives. */
  lemma ReadableIsViable(g: Grammar, w: seq<Symbol>) returns (v: seq<Symbol>)
    requires WellFormed(g) && Fresh(g) && Run(g, w) != {}
    ensures Over(v, Symbols(g)) && Derives(g, [g.start], w + v)
  {
    hide Run, Derives, AllItems;
    if w == [] {
      DerivesItself(g, [g.start]);
      v := [g.start];
      assert w + v == [g.start];
    } else {
      var front, x := w[..|w| - 1], w[|w| - 1];
      assert w == front + [x];
      RunGoesOn(g, front, x);
      var it :| it in Run(g, front) && NextIs(it, x);
      AllLead(g, front);
      AwaitedLeads(g, front, it);
      var way :| EndsBefore(g, way, x) && Word(way) == front;
      v := WayIsDerivation(g, way, x);
    }
  }
}
