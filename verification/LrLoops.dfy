/**
 * Two grammars on which the LR(0) parser does not end: one that lets a symbol be renamed to itself,
 * whatever order filled its tables, and one whose tables have no conflict but whose stacks grow out
 * of nothing at every step.
 */
module LrLoops {
  import opened Sequences
  import opened Grammars
  import opened LrItems
  import opened LrTables
  import opened LrParser
  import opened LrHalting

  const S := Vn('S')
  const A := Vn('A')
  const LITTLE_A := Vt('a')

  // ----- what a step does -----

  /** An item asks for something with the next symbol. */
  predicate Asks(it: Item, c: Config) {
    if Complete(it) then it.p.lhs != NEW_START || NextSymbol(c) == HASH else c.rest != [] && NextIs(it, c.rest[0])
  }

  /** What the next step does for an item that asked for it. */
  ghost predicate Does(g: Grammar, t: Tables, c: Config, it: Item) {
    var o := Next(g, t.actions, t.gotos, c);
    if Complete(it) then if it.p.lhs == NEW_START then o.Accepted? else o == ReducedBy(g, t, c, it)
    else c.rest != [] && o.Running? && Read(o.c) == Read(c) + [c.rest[0]] && o.c.rest == c.rest[1..]
  }

  lemma SymsAfterShift(g: Grammar, t: Tables, c: Config)
    requires c.syms != [] && c.rest != [] && c.states != [] && Next(g, t.actions, t.gotos, c).Running?
    requires c.states[|c.states| - 1] < |t.actions| && Column(g, c.rest[0]) < |t.actions[c.states[|c.states| - 1]]|
    requires t.actions[c.states[|c.states| - 1]][Column(g, c.rest[0])].Shift?
    ensures var d := Next(g, t.actions, t.gotos, c).c; Read(d) == Read(c) + [c.rest[0]] && d.rest == c.rest[1..]
  {
  }

  /** What an item asks for is not an error, and what is not an error is asked for. */
  lemma AskedExactly(g: Grammar, t: Tables, c: Config, tokens: seq<Symbol>, it: Item)
    requires Built(g, t) && Inv(g, t.states, c, tokens) && it in Run(g, Read(c)) && it in AllItems(Augmented(g))
    requires c.states[|c.states| - 1] < |t.toState| && |t.toState[c.states[|c.states| - 1]]| == |Symbols(Augmented(g))|
    ensures var wanted := Wants(g, t.toState[c.states[|c.states| - 1]], it, NextSymbol(c));
            && (wanted != Error <==> Asks(it, c))
            && (Complete(it) && it.p.lhs != NEW_START ==>
                  it.p in Augmented(g).prods && wanted == Reduce(IndexOf(Augmented(g).prods, it.p)))
            && (Complete(it) && it.p.lhs == NEW_START && NextSymbol(c) == HASH ==> wanted == Accept)
            && (!Complete(it) && Asks(it, c) ==> wanted.Shift?)
  {
    hide Run, AllItems, ActionRow, GotoRow, Derived;
    ItemIsItem(Augmented(g), it);
    Top(g, t.states, c);
    AugmentedIsWellFormed(g);
    if !Complete(it) {
      var x := it.p.rhs[it.pos];
      assert x in Symbols(Augmented(g));
      TransitionIsRun(g, t.states, t.toState, Read(c), c.states[|c.states| - 1], it, x);
    }
  }

  /** If some item asks for something, the step does what some item asks for. */
  lemma StepForSome(g: Grammar, t: Tables, c: Config, tokens: seq<Symbol>, asking: Item) returns (it: Item)
    requires Built(g, t) && Inv(g, t.states, c, tokens) && asking in Run(g, Read(c)) && Asks(asking, c)
    ensures it in Run(g, Read(c)) && Asks(it, c) && Does(g, t, c, it)
  {
    hide Run, AllItems, Derives, IsTable, OnPath, Wants, Reduced;
    TopAction(g, t.states, t.toState, t.actions, t.gotos, c);
    StepIsSafe(g, t.states, t.toState, t.actions, t.gotos, c, tokens);
    var row := t.toState[c.states[|c.states| - 1]];
    var act := t.actions[c.states[|c.states| - 1]][Column(g, NextSymbol(c))];
    AskedExactly(g, t, c, tokens, asking);
    it :| it in Run(g, Read(c)) && Wants(g, row, it, NextSymbol(c)) == act && act != Error;
    AskedExactly(g, t, c, tokens, it);
    assert c.syms != [] by {
      SymsThere(g, t, c);
    }
    if act.Shift? {
      SymsAfterShift(g, t, c);
    }
  }

  lemma SymsThere(g: Grammar, t: Tables, c: Config)
    requires OnPath(g, t.states, c)
    ensures c.syms != []
  {
  }

  // ----- S -> S | a on the tokens aa -----

  const AGAIN := Production(S, [S])
  const ONCE := Production(S, [LITTLE_A])

  function Renaming(): Grammar {
    Grammar(S, [S], [LITTLE_A], [AGAIN, ONCE])
  }

  lemma RenamingParts()
    ensures WellFormed(Renaming()) && Fresh(Renaming())
    ensures Symbols(Augmented(Renaming())) == [S, NEW_START, LITTLE_A]
    ensures forall p :: p in Augmented(Renaming()).prods <==> p == AGAIN || p == ONCE || p == Production(NEW_START, [S])
  {
    var g := Renaming();
    assert Symbols(g) == [S, LITTLE_A];
    assert g.prods[0] == AGAIN && g.prods[1] == ONCE;
    var q := Production(NEW_START, [S]);
    assert Augmented(g).prods == [AGAIN, ONCE, q];
    assert Augmented(g).vn == [S, NEW_START];
    assert AGAIN in [AGAIN, ONCE, q] && ONCE in [AGAIN, ONCE, q] && q in [AGAIN, ONCE, q];
  }

  /** After one symbol only complete items are found: every right side is one symbol long. */
  lemma AfterOneSymbol(x: Symbol, it: Item)
    requires it in Run(Renaming(), [x])
    ensures Complete(it) && it.p.rhs == [x] && it.p in Augmented(Renaming()).prods
  {
    hide Closure, AllItems, Run, Closed;
    var g := Renaming();
    var k := Kernel(Run(g, []), x);
    KernelIsComplete(x);
    RunExtends(g, [], x);
    assert [] + [x] == [x];
    RunIsItems(g, []);
    KernelIsItems(Augmented(g), Run(g, []), x);
    NothingAwaited(Augmented(g), k);
    ClosureIsLeast(Augmented(g), k);
    RunIsProduction(g, [x], it);
    RunSuffix(g, [x], it);
    OneRead(x, it);
  }

  lemma KernelIsComplete(x: Symbol)
    ensures forall i :: i in Kernel(Run(Renaming(), []), x) ==> Complete(i) && i.pos == 1
  {
    hide Run, Renaming;
    forall i | i in Kernel(Run(Renaming(), []), x) ensures Complete(i) && i.pos == 1 {
      var before :| before in Run(Renaming(), []) && NextIs(before, x) && i == Advance(before);
      AtStart(before);
      RenamingParts();
    }
  }

  lemma NothingAwaited(g: Grammar, items: set<Item>)
    requires forall i :: i in items ==> Complete(i)
    ensures Closed(g, items)
  {
  }

  lemma OneRead(x: Symbol, it: Item)
    requires it.pos == 1 && Complete(it) && [x] == it.p.rhs[..it.pos]
    ensures it.p.rhs == [x]
  {
    assert it.p.rhs[..1] == it.p.rhs;
  }

  /** At the start the token a is waited for, and nothing is complete. */
  lemma AtStart(it: Item)
    ensures Item(ONCE, 0) in Run(Renaming(), []) && Item(AGAIN, 0) in Run(Renaming(), [])
    ensures it in Run(Renaming(), []) ==> it.pos == 0 && it.p in Augmented(Renaming()).prods
  {
    hide Closure, AllItems, Run;
    var g := Renaming();
    RenamingParts();
    StartIsFound(g);
    RunIsItems(g, []);
    assert NextIs(StartItem(g), S) && ONCE.lhs == AGAIN.lhs == S;
    if it in Run(g, []) {
      RunIsProduction(g, [], it);
      RunSuffix(g, [], it);
    }
  }

  /** The first token is shifted. */
  lemma FirstStep(t: Tables, c: Config, tokens: seq<Symbol>)
    requires Built(Renaming(), t) && Inv(Renaming(), t.states, c, tokens) && Read(c) == [] && c.rest == [LITTLE_A, LITTLE_A]
    ensures var o := Next(Renaming(), t.actions, t.gotos, c);
            o.Running? && Inv(Renaming(), t.states, o.c, tokens) && Read(o.c) == [LITTLE_A] && o.c.rest == [LITTLE_A]
  {
    hide Run, IsTable, Inv, Next, Augmented;
    var g := Renaming();
    RenamingParts();
    StepIsSafe(g, t.states, t.toState, t.actions, t.gotos, c, tokens);
    AtStart(Item(ONCE, 0));
    var it := StepForSome(g, t, c, tokens, Item(ONCE, 0));
    AtStart(it);
    assert [] + [LITTLE_A] == [LITTLE_A];
  }

  /** With one symbol on the stack and the second token next, that symbol is renamed to S. */
  lemma RenamingStep(t: Tables, c: Config, tokens: seq<Symbol>, x: Symbol)
    requires Built(Renaming(), t) && Inv(Renaming(), t.states, c, tokens) && Read(c) == [x] && c.rest == [LITTLE_A]
    requires x == LITTLE_A || x == S
    ensures var o := Next(Renaming(), t.actions, t.gotos, c);
            o.Running? && Inv(Renaming(), t.states, o.c, tokens) && Read(o.c) == [S] && o.c.rest == [LITTLE_A]
  {
    hide Run, Built, Inv, Next, Augmented, Reduced, Read;
    var g := Renaming();
    RenamingParts();
    var p := if x == S then AGAIN else ONCE;
    AtStart(Item(p, 0));
    RunAdvances(g, [], Item(p, 0), x);
    assert [] + [x] == [x];
    var it := StepForSome(g, t, c, tokens, Item(p, 1));
    AfterOneSymbol(x, it);
    RenamedToS(t, c, tokens, it, x);
  }

  lemma RenamedToS(t: Tables, c: Config, tokens: seq<Symbol>, it: Item, x: Symbol)
    requires Built(Renaming(), t) && Inv(Renaming(), t.states, c, tokens) && Read(c) == [x] && it in Run(Renaming(), Read(c))
    requires Complete(it) && it.p.rhs == [x] && it.p.lhs == S && it.p in Augmented(Renaming()).prods
    requires Next(Renaming(), t.actions, t.gotos, c) == ReducedBy(Renaming(), t, c, it)
    ensures var o := Next(Renaming(), t.actions, t.gotos, c);
            o.Running? && Inv(Renaming(), t.states, o.c, tokens) && Read(o.c) == [S] && o.c.rest == c.rest
  {
    hide Run, IsTable, Inv, Next, Augmented, Reduced, Read, Renaming;
    ReduceKeeps(Renaming(), t.states, t.toState, t.actions, t.gotos, c, tokens, it);
    ReadOne(Renaming(), t, c, Next(Renaming(), t.actions, t.gotos, c).c, x);
  }

  lemma ReadOne(g: Grammar, t: Tables, c: Config, d: Config, x: Symbol)
    requires Read(c) == [x] && d.syms == c.syms[..|c.syms| - 1] + [S]
    ensures Read(d) == [S]
  {
  }

  /** Renaming goes on for any number of steps. */
  lemma {:induction false} RenamingGoesOn(t: Tables, c: Config, tokens: seq<Symbol>, x: Symbol, n: nat)
    requires Built(Renaming(), t) && Inv(Renaming(), t.states, c, tokens) && Read(c) == [x] && c.rest == [LITTLE_A]
    requires x == LITTLE_A || x == S
    ensures From(Renaming(), t, c, n).Running?
    decreases n
  {
    hide Built, Inv, Next, Read;
    if n > 0 {
      RenamingStep(t, c, tokens, x);
      RenamingGoesOn(t, Next(Renaming(), t.actions, t.gotos, c).c, tokens, S, n - 1);
    }
  }

  /** The grammar S -> S | a makes the parser run for ever on aa, with any of its tables. */
  lemma RenamingRunsForEver(t: Tables, n: nat)
    requires Built(Renaming(), t)
    ensures From(Renaming(), t, Start([LITTLE_A, LITTLE_A]), n).Running?
  {
    hide IsTable, Inv, Next;
    var g, tokens := Renaming(), [LITTLE_A, LITTLE_A];
    StartHolds(g, t.states, t.toState, t.actions, t.gotos, tokens);
    assert Read(Start(tokens)) == [];
    if n > 0 {
      FirstStep(t, Start(tokens), tokens);
      RenamingGoesOn(t, Next(g, t.actions, t.gotos, Start(tokens)).c, tokens, LITTLE_A, n - 1);
    }
  }

  // ----- S -> A S, A -> nothing, on no tokens -----

  const MORE := Production(S, [A, S])
  const NOTHING := Production(A, [])

  function Barren(): Grammar {
    Grammar(S, [S, A], [LITTLE_A], [MORE, NOTHING])
  }

  lemma BarrenParts()
    ensures WellFormed(Barren()) && Fresh(Barren())
    ensures forall p :: p in Augmented(Barren()).prods <==> p == MORE || p == NOTHING || p == Production(NEW_START, [S])
  {
    var g := Barren();
    assert Symbols(g) == [S, A, LITTLE_A];
    assert g.prods[0] == MORE && g.prods[1] == NOTHING;
    var q := Production(NEW_START, [S]);
    assert Augmented(g).prods == [MORE, NOTHING, q];
    assert MORE in [MORE, NOTHING, q] && NOTHING in [MORE, NOTHING, q] && q in [MORE, NOTHING, q];
  }

  /** S is awaited at the start and after A only. */
  lemma AwaitsS(w: seq<Symbol>, it: Item)
    requires it in Run(Barren(), w) && NextIs(it, S)
    ensures w == [] || w[|w| - 1] == A
  {
    hide Closure, AllItems, Run;
    var g := Barren();
    BarrenParts();
    RunIsProduction(g, w, it);
    RunSuffix(g, w, it);
    if it.p == MORE {
      assert it.pos == 1 && w[|w| - 1..] == it.p.rhs[..1];
    } else {
      assert it.pos == 0 && it.p.lhs == NEW_START;
      RunAwaits(g, w, it.p);
      if q :| q in Run(g, w) && NextIs(q, NEW_START) {
        RunIsProduction(g, w, q);
        assert false;
      }
    }
  }

  /** A is awaited, and its empty right side complete, at the start and after A only. */
  lemma AwaitsA(w: seq<Symbol>)
    requires Item(NOTHING, 0) in Run(Barren(), w)
    ensures w == [] || w[|w| - 1] == A
  {
    hide Closure, AllItems, Run;
    var g := Barren();
    BarrenParts();
    RunAwaits(g, w, NOTHING);
    if w != [] {
      var it :| it in Run(g, w) && NextIs(it, A);
      RunIsProduction(g, w, it);
      assert it == Item(MORE, 0);
      RunAwaits(g, w, MORE);
      var up :| up in Run(g, w) && NextIs(up, S);
      AwaitsS(w, up);
    }
  }

  /** A complete item other than the empty one stands after S. */
  lemma CompleteAfterS(w: seq<Symbol>, it: Item)
    requires it in Run(Barren(), w) && Complete(it) && it.p != NOTHING
    ensures w != [] && w[|w| - 1] == S
    ensures it.p == MORE ==> |w| >= 2
    ensures it.p != MORE ==> w == [S]
  {
    hide Closure, AllItems, Run;
    var g := Barren();
    BarrenParts();
    RunIsProduction(g, w, it);
    RunSuffix(g, w, it);
    if it.p == MORE {
      assert w[|w| - 2..] == it.p.rhs[..2] == [A, S];
      assert w[|w| - 1] == w[|w| - 2..][1];
    } else {
      RunAccepts(g, w, it);
    }
  }

  lemma BarrenIsLr0()
    ensures IsLr0(Barren())
  {
    hide Run;
    var g := Barren();
    BarrenParts();
    forall w, a, b | Over(w, Symbols(Augmented(g))) && a in Run(g, w) && b in Run(g, w) && Complete(a) && a.p.lhs != NEW_START
      ensures b == a || WaitsForVn(b)
    {
      RunIsProduction(g, w, a);
      RunIsProduction(g, w, b);
      if Complete(b) {
        if a.p == NOTHING {
          AwaitsA(w);
        } else {
          CompleteAfterS(w, a);
        }
        if b.p == NOTHING {
          AwaitsA(w);
        } else {
          CompleteAfterS(w, b);
        }
      }
    }
  }

  function ManyA(k: nat): seq<Symbol> {
    seq(k, _ => A)
  }

  /** However many A stand on the stack, one more can be made of nothing. */
  lemma NothingFound(k: nat)
    ensures Item(NOTHING, 0) in Run(Barren(), ManyA(k))
    ensures Item(MORE, 0) in Run(Barren(), ManyA(k))
  {
    hide Closure, AllItems, Run;
    var g := Barren();
    BarrenParts();
    RunIsItems(g, ManyA(k));
    if k == 0 {
      StartIsFound(g);
      assert ManyA(0) == [] && NextIs(StartItem(g), S) && MORE.lhs == S;
    } else {
      NothingFound(k - 1);
      RunAdvances(g, ManyA(k - 1), Item(MORE, 0), A);
      assert ManyA(k) == ManyA(k - 1) + [A];
      assert NextIs(Item(MORE, 1), S) && MORE.lhs == S;
    }
    assert NextIs(Item(MORE, 0), A) && NOTHING.lhs == A;
  }

  lemma BarrenStep(t: Tables, c: Config, k: nat)
    requires Built(Barren(), t) && Inv(Barren(), t.states, c, []) && Read(c) == ManyA(k)
    ensures var o := Next(Barren(), t.actions, t.gotos, c);
            o.Running? && Inv(Barren(), t.states, o.c, []) && Read(o.c) == ManyA(k + 1)
  {
    hide Run, AllItems, Inv, IsTable;
    var g := Barren();
    BarrenParts();
    NothingFound(k);
    BarrenIsLr0();
    Lr0IsClean(g, t);
    ReducesAnyway(g, t, c, [], Item(NOTHING, 0));
    ReduceKeeps(g, t.states, t.toState, t.actions, t.gotos, c, [], Item(NOTHING, 0));
    var d := Next(g, t.actions, t.gotos, c).c;
    OneMoreA(t, c, d, k);
  }

  lemma OneMoreA(t: Tables, c: Config, d: Config, k: nat)
    requires Inv(Barren(), t.states, c, []) && d.syms == c.syms[..|c.syms| - 0] + [A] && Read(c) == ManyA(k)
    ensures Read(d) == ManyA(k + 1)
  {
    hide Run, Derived;
    assert Read(d) == Read(c) + [A];
  }

  lemma {:induction false} BarrenGoesOn(t: Tables, c: Config, k: nat, n: nat)
    requires Built(Barren(), t) && Inv(Barren(), t.states, c, []) && Read(c) == ManyA(k)
    ensures From(Barren(), t, c, n).Running?
    decreases n
  {
    hide Built, Inv, Next, Read, ManyA;
    if n > 0 {
      BarrenStep(t, c, k);
      BarrenGoesOn(t, Next(Barren(), t.actions, t.gotos, c).c, k + 1, n - 1);
    }
  }

  /** Without conflicts the parser still does not end where the stacks can grow out of nothing. */
  lemma BarrenRunsForEver(t: Tables, n: nat)
    requires Built(Barren(), t)
    ensures IsLr0(Barren()) && From(Barren(), t, Start([]), n).Running?
  {
    hide IsTable, Inv, Next, IsLr0;
    StartHolds(Barren(), t.states, t.toState, t.actions, t.gotos, []);
    BarrenIsLr0();
    assert Read(Start([])) == ManyA(0);
    BarrenGoesOn(t, Start([]), 0, n);
  }
}
