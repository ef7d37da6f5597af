/**
 * LR(0) items, item-set closure, the goto of an item set on a symbol, and the item set that a
 * string of symbols leads to from the start. What the parser relies on is proved here about those
 * sets, without mentioning tables or state numbers.
 */
module LrItems {
  import opened Grammars

  const HASH := Vt('#')
  const NEW_START := Vn('Q')

  /** The names the generator adds are not already taken. */
  predicate Fresh(g: Grammar) {
    NEW_START !in g.vn && HASH !in g.vt
  }

  function Augmented(g: Grammar): Grammar {
    Grammar(NEW_START, g.vn + [NEW_START], g.vt, g.prods + [Production(NEW_START, [g.start])])
  }

  lemma AugmentedIsWellFormed(g: Grammar)
    requires WellFormed(g) && Fresh(g)
    ensures WellFormed(Augmented(g))
    ensures forall p :: p in Augmented(g).prods ==> NEW_START !in p.rhs
    ensures forall p :: p in Augmented(g).prods && p.lhs == NEW_START ==> p == Production(NEW_START, [g.start])
    ensures forall p :: p in Augmented(g).prods && p.lhs != NEW_START ==> p in g.prods
  {
    var a := Augmented(g);
    forall p | p in a.prods
      ensures p.lhs in a.vn && Over(p.rhs, Symbols(a)) && NEW_START !in p.rhs
    {
      if p in g.prods {
        assert Over(p.rhs, Symbols(g));
      }
    }
  }

  datatype Item = Item(p: Production, pos: nat)

  predicate NextIs(it: Item, x: Symbol) {
    it.pos < |it.p.rhs| && it.p.rhs[it.pos] == x
  }

  predicate Complete(it: Item) {
    it.pos == |it.p.rhs|
  }

  function Advance(it: Item): Item {
    Item(it.p, it.pos + 1)
  }

  function AllItems(g: Grammar): set<Item> {
    set p, k | p in g.prods && 0 <= k <= |p.rhs| :: Item(p, k)
  }

  predicate Closed(g: Grammar, items: set<Item>) {
    forall it, p :: it in items && p in g.prods && NextIs(it, p.lhs) ==> Item(p, 0) in items
  }

  /** The beginning items of the nonterminal after the dot. */
  function Awaited(g: Grammar, it: Item): set<Item> {
    set p | p in g.prods && NextIs(it, p.lhs) :: Item(p, 0)
  }

  /** The items that no closed superset can do without. */
  ghost function Closure(g: Grammar, items: set<Item>): set<Item> {
    set it | it in AllItems(g) && forall s: set<Item> {:trigger Closed(g, s)} :: Closed(g, s) && items <= s ==> it in s
  }

  function Kernel(items: set<Item>, x: Symbol): set<Item> {
    set it | it in items && NextIs(it, x) :: Advance(it)
  }

  ghost function Goto(g: Grammar, items: set<Item>, x: Symbol): set<Item> {
    Closure(g, Kernel(items, x))
  }

  function StartItem(g: Grammar): Item {
    Item(Production(NEW_START, [g.start]), 0)
  }

  /** The item set that the automaton of the augmented grammar is in after reading w. */
  ghost function Run(g: Grammar, w: seq<Symbol>): set<Item> {
    if w == [] then Closure(Augmented(g), {StartItem(g)})
    else Goto(Augmented(g), Run(g, w[..|w| - 1]), w[|w| - 1])
  }

  // ----- closure -----

  lemma AwaitedIsItems(g: Grammar, it: Item)
    ensures Awaited(g, it) <= AllItems(g)
  {
  }

  lemma ClosedHasAwaited(g: Grammar, items: set<Item>, it: Item)
    requires Closed(g, items) && it in items
    ensures Awaited(g, it) <= items
  {
  }

  lemma AwaitedCloses(g: Grammar, items: set<Item>)
    requires forall it :: it in items ==> Awaited(g, it) <= items
    ensures Closed(g, items)
  {
    forall it, p | it in items && p in g.prods && NextIs(it, p.lhs) ensures Item(p, 0) in items {
      assert Item(p, 0) in Awaited(g, it);
    }
  }

  lemma KernelAdds(items: set<Item>, it: Item, x: Symbol)
    ensures Kernel(items + {it}, x) == Kernel(items, x) + if NextIs(it, x) then {Advance(it)} else {}
  {
  }

  lemma ClosureIsLeast(g: Grammar, items: set<Item>)
    requires items <= AllItems(g)
    ensures items <= Closure(g, items) <= AllItems(g) && Closed(g, Closure(g, items))
    ensures forall s: set<Item> :: Closed(g, s) && items <= s ==> Closure(g, items) <= s
  {
    var c := Closure(g, items);
    forall it, p | it in c && p in g.prods && NextIs(it, p.lhs) ensures Item(p, 0) in c {
      assert Item(p, 0) in AllItems(g);
      forall s: set<Item> | Closed(g, s) && items <= s ensures Item(p, 0) in s {
        assert it in s;
      }
    }
  }

  lemma ClosureOfNothing(g: Grammar)
    ensures Closure(g, {}) == {}
  {
    assert Closed(g, {});
  }

  /** Every item that closure adds is at its beginning and awaited by some item of the closure. */
  lemma ClosureAdds(g: Grammar, items: set<Item>, it: Item)
    requires items <= AllItems(g) && it in Closure(g, items) && it !in items
    ensures it.pos == 0 && exists w :: w in Closure(g, items) && NextIs(w, it.p.lhs)
  {
    var c := Closure(g, items);
    ClosureIsLeast(g, items);
    var s := set i | i in c && (i in items || (i.pos == 0 && exists w :: w in c && NextIs(w, i.p.lhs)));
    assert items <= s;
    forall i, p | i in s && p in g.prods && NextIs(i, p.lhs) ensures Item(p, 0) in s {
      assert Item(p, 0) in c;
    }
    assert Closed(g, s);
    assert c <= s;
  }

  lemma KernelIsItems(g: Grammar, items: set<Item>, x: Symbol)
    requires items <= AllItems(g)
    ensures Kernel(items, x) <= AllItems(g)
  {
  }

  // ----- what a run keeps -----

  lemma StartIsItem(g: Grammar)
    ensures {StartItem(g)} <= AllItems(Augmented(g))
  {
    assert StartItem(g).p in Augmented(g).prods;
  }

  lemma StartIsFound(g: Grammar)
    ensures StartItem(g) in Run(g, [])
  {
    StartIsItem(g);
    ClosureIsLeast(Augmented(g), {StartItem(g)});
  }

  lemma {:induction false} RunIsItems(g: Grammar, w: seq<Symbol>)
    ensures Run(g, w) <= AllItems(Augmented(g)) && Closed(Augmented(g), Run(g, w))
  {
    var a := Augmented(g);
    if w == [] {
      StartIsItem(g);
      ClosureIsLeast(a, {StartItem(g)});
    } else {
      RunIsItems(g, w[..|w| - 1]);
      KernelIsItems(a, Run(g, w[..|w| - 1]), w[|w| - 1]);
      ClosureIsLeast(a, Kernel(Run(g, w[..|w| - 1]), w[|w| - 1]));
    }
  }

  lemma RunExtends(g: Grammar, w: seq<Symbol>, x: Symbol)
    ensures Run(g, w + [x]) == Goto(Augmented(g), Run(g, w), x)
  {
    assert (w + [x])[..|w + [x]| - 1] == w;
  }

  /** An item whose next symbol is x is found advanced after x. */
  lemma RunAdvances(g: Grammar, w: seq<Symbol>, it: Item, x: Symbol)
    requires it in Run(g, w) && NextIs(it, x)
    ensures Advance(it) in Run(g, w + [x])
  {
    hide Closure, Closed, AllItems;
    RunExtends(g, w, x);
    RunIsItems(g, w);
    KernelIsItems(Augmented(g), Run(g, w), x);
    ClosureIsLeast(Augmented(g), Kernel(Run(g, w), x));
    assert Advance(it) in Kernel(Run(g, w), x);
  }

  lemma {:induction false} RunAdvancesBy(g: Grammar, w: seq<Symbol>, it: Item, v: seq<Symbol>)
    requires it in Run(g, w) && it.pos + |v| <= |it.p.rhs| && it.p.rhs[it.pos..it.pos + |v|] == v
    ensures Item(it.p, it.pos + |v|) in Run(g, w + v)
    decreases |v|
  {
    hide Run;
    if v == [] {
      assert w + v == w;
    } else {
      assert it.p.rhs[it.pos] == v[0] && Advance(it).p.rhs[it.pos + 1..it.pos + |v|] == v[1..];
      RunAdvances(g, w, it, v[0]);
      RunAdvancesBy(g, w + [v[0]], Advance(it), v[1..]);
      assert w + [v[0]] + v[1..] == w + v;
    }
  }

  lemma ItemAwaited(g: Grammar, w: seq<Symbol>, it: Item, p: Production)
    requires it in Run(g, w) && NextIs(it, p.lhs) && p in g.prods
    ensures Item(p, 0) in Run(g, w)
  {
    hide Run;
    RunIsItems(g, w);
    assert p in Augmented(g).prods;
  }

  lemma RunGoesOn(g: Grammar, w: seq<Symbol>, x: Symbol)
    ensures Run(g, w + [x]) != {} <==> exists it :: it in Run(g, w) && NextIs(it, x)
  {
    RunExtends(g, w, x);
    if it :| it in Run(g, w) && NextIs(it, x) {
      RunAdvances(g, w, it, x);
    } else {
      assert Kernel(Run(g, w), x) == {};
      ClosureOfNothing(Augmented(g));
    }
  }

  /** An item with its dot past the beginning was one symbol less advanced before the last symbol. */
  lemma RunOrigin(g: Grammar, w: seq<Symbol>, it: Item)
    requires it in Run(g, w) && it.pos > 0
    ensures w != []
    ensures Item(it.p, it.pos - 1) in Run(g, w[..|w| - 1]) && NextIs(Item(it.p, it.pos - 1), w[|w| - 1])
  {
    hide Closure, Closed, AllItems;
    var a := Augmented(g);
    if w == [] {
      StartIsItem(g);
      if it !in {StartItem(g)} {
        ClosureAdds(a, {StartItem(g)}, it);
      }
      assert false;
    } else {
      var k := Kernel(Run(g, w[..|w| - 1]), w[|w| - 1]);
      RunIsItems(g, w[..|w| - 1]);
      KernelIsItems(a, Run(g, w[..|w| - 1]), w[|w| - 1]);
      if it !in k {
        ClosureAdds(a, k, it);
      }
    }
  }

  /**
   * An item with its dot after alpha is only ever found after a string that ends in alpha, and
   * the same item with its dot at the beginning is found where that alpha began.
   */
  lemma {:induction false} RunSuffix(g: Grammar, w: seq<Symbol>, it: Item)
    requires it in Run(g, w) && it.pos <= |it.p.rhs|
    ensures it.pos <= |w| && w[|w| - it.pos..] == it.p.rhs[..it.pos]
    ensures Item(it.p, 0) in Run(g, w[..|w| - it.pos])
    decreases it.pos
  {
    hide Closure, Run;
    if it.pos == 0 {
      assert w[..|w|] == w;
    } else {
      RunOrigin(g, w, it);
      var v, before := w[..|w| - 1], Item(it.p, it.pos - 1);
      RunSuffix(g, v, before);
      assert w == v + [w[|w| - 1]];
      assert w[|w| - it.pos..] == v[|v| - before.pos..] + [w[|w| - 1]];
      assert it.p.rhs[..it.pos] == it.p.rhs[..before.pos] + [it.p.rhs[before.pos]];
      assert w[..|w| - it.pos] == v[..|v| - before.pos];
    }
  }

  /** An item at its beginning is there because it is awaited, unless it is the start item. */
  lemma RunAwaits(g: Grammar, w: seq<Symbol>, p: Production)
    requires Item(p, 0) in Run(g, w)
    ensures (w == [] && Item(p, 0) == StartItem(g)) || exists it :: it in Run(g, w) && NextIs(it, p.lhs)
  {
    hide Closure, Closed, AllItems;
    var a := Augmented(g);
    if w == [] {
      StartIsItem(g);
      if Item(p, 0) != StartItem(g) {
        ClosureAdds(a, {StartItem(g)}, Item(p, 0));
      }
    } else {
      var k := Kernel(Run(g, w[..|w| - 1]), w[|w| - 1]);
      RunIsItems(g, w[..|w| - 1]);
      KernelIsItems(a, Run(g, w[..|w| - 1]), w[|w| - 1]);
      assert Item(p, 0) !in k;
      ClosureAdds(a, k, Item(p, 0));
    }
  }

  /** The new start symbol's item stands complete only after exactly the old start symbol. */
  lemma RunAccepts(g: Grammar, w: seq<Symbol>, it: Item)
    requires WellFormed(g) && Fresh(g)
    requires it in Run(g, w) && Complete(it) && it.p.lhs == NEW_START
    ensures w == [g.start]
  {
    hide Closure, Closed, AllItems, Run;
    RunIsProduction(g, w, it);
    AugmentedIsWellFormed(g);
    RunSuffix(g, w, it);
    var v := w[..|w| - 1];
    RunAwaits(g, v, it.p);
    if q :| q in Run(g, v) && NextIs(q, NEW_START) {
      RunIsProduction(g, v, q);
      assert false;
    }
    assert w == v + w[|w| - 1..];
  }

  lemma RunIsProduction(g: Grammar, w: seq<Symbol>, it: Item)
    requires it in Run(g, w)
    ensures it.p in Augmented(g).prods && it.pos <= |it.p.rhs|
  {
    RunIsItems(g, w);
  }
}
