/**
 * When the LR(0) parser comes to an end. Over any tables every run ends if no stack grows out of
 * nothing and none is derived from itself; over tables without conflicts only then, because each leaf
 * and each node of a forest is one step of the parser.
 */
module LrHalting {
  import opened Sequences
  import opened Grammars
  import opened LrItems
  import opened LrPumping
  import opened LrTables
  import opened LrParser
  import opened LrViable

  /** What the generator leaves behind. */
  datatype Tables = Tables(states: seq<set<Item>>, toState: seq<seq<int>>, actions: seq<seq<Action>>, gotos: seq<seq<int>>)

  ghost predicate Built(g: Grammar, t: Tables) {
    WellFormed(g) && Fresh(g) && IsTable(g, t.states, t.toState, t.actions, t.gotos)
  }

  ghost function From(g: Grammar, t: Tables, c: Config, n: nat): Outcome {
    Steps(g, t.actions, t.gotos, Running(c), n)
  }

  // ----- conflicts in terms of the grammar -----

  /** A complete item shares its reachable item set with no other complete item and none that waits for a terminal. */
  ghost predicate IsLr0(g: Grammar) {
    forall w, a, b :: Over(w, Symbols(Augmented(g))) && a in Run(g, w) && b in Run(g, w) && Complete(a) && a.p.lhs != NEW_START ==>
      b == a || WaitsForVn(b)
  }

  predicate WaitsForVn(it: Item) {
    it.pos < |it.p.rhs| && it.p.rhs[it.pos].Vn?
  }

  /** Read to its end, a production can be reduced after w. */
  ghost predicate Handle(g: Grammar, w: seq<Symbol>, p: Production) {
    Open(g, w, p, |p.rhs|)
  }

  /** A terminal may come next after w. */
  ghost predicate ReadsOn(g: Grammar, w: seq<Symbol>, p: Production, k: nat) {
    Open(g, w, p, k) && k < |p.rhs| && p.rhs[k].Vt?
  }

  /** Where one production can be reduced, no other can, no terminal can come next, and the start symbol does not stand alone. */
  ghost predicate Clear(g: Grammar, w: seq<Symbol>) {
    && (forall p, q :: Handle(g, w, p) && Handle(g, w, q) ==> p == q)
    && (forall p :: Handle(g, w, p) ==> w != [g.start] && forall q, k :: !ReadsOn(g, w, q, k))
  }

  lemma ReadIsOver(g: Grammar, w: seq<Symbol>)
    requires WellFormed(g) && Fresh(g) && Run(g, w) != {}
    ensures Over(w, Symbols(g))
  {
    hide Run;
    if w != [] {
      var front, x := w[..|w| - 1], w[|w| - 1];
      assert w == front + [x];
      RunGoesOn(g, front, x);
      var it :| it in Run(g, front) && NextIs(it, x);
      RunIsProduction(g, front, it);
      AugmentedIsWellFormed(g);
      assert Over(it.p.rhs, Symbols(g));
      ReadIsOver(g, front);
    }
  }

  lemma OldItem(g: Grammar, w: seq<Symbol>, it: Item)
    requires WellFormed(g) && Fresh(g) && it in Run(g, w)
    ensures it.pos <= |it.p.rhs|
    ensures it.p.lhs != NEW_START ==> it.p in g.prods && Open(g, w, it.p, it.pos)
    ensures it.p.lhs == NEW_START ==> WaitsForVn(it) || (Complete(it) && w == [g.start])
  {
    hide Run, Open, Closed, AllItems;
    RunIsProduction(g, w, it);
    AugmentedIsWellFormed(g);
    if it.p.lhs != NEW_START {
      ItemsAreOpen(g, w, it.p, it.pos);
    } else if Complete(it) {
      RunAccepts(g, w, it);
    }
  }

  lemma HandleIsItem(g: Grammar, w: seq<Symbol>, p: Production, k: nat)
    requires WellFormed(g) && Fresh(g) && Open(g, w, p, k)
    ensures p in g.prods && p.lhs != NEW_START && k <= |p.rhs|
    ensures Item(p, k) in Run(g, w) && Over(w, Symbols(Augmented(g)))
  {
    hide Run;
    ItemsAreOpen(g, w, p, k);
    ReadIsOver(g, w);
  }

  lemma StartIsRead(g: Grammar)
    requires WellFormed(g) && Fresh(g)
    ensures Item(Production(NEW_START, [g.start]), 1) in Run(g, [g.start])
  {
    hide Run;
    StartIsFound(g);
    RunAdvances(g, [], StartItem(g), g.start);
    assert [] + [g.start] == [g.start];
  }

  lemma Lr0At(g: Grammar, w: seq<Symbol>, a: Item, b: Item)
    requires IsLr0(g) && Over(w, Symbols(Augmented(g))) && a in Run(g, w) && b in Run(g, w) && Complete(a) && a.p.lhs != NEW_START
    ensures b == a || WaitsForVn(b)
  {
    hide Run;
  }

  lemma Lr0IsClear(g: Grammar, w: seq<Symbol>)
    requires WellFormed(g) && Fresh(g) && IsLr0(g)
    ensures Clear(g, w)
  {
    hide Run, Open;
    forall p, q | Handle(g, w, p) && Handle(g, w, q) ensures p == q {
      HandleIsItem(g, w, p, |p.rhs|);
      HandleIsItem(g, w, q, |q.rhs|);
      Lr0At(g, w, Item(p, |p.rhs|), Item(q, |q.rhs|));
    }
    forall p | Handle(g, w, p) ensures w != [g.start] && forall q, k :: !ReadsOn(g, w, q, k) {
      HandleIsItem(g, w, p, |p.rhs|);
      StartIsRead(g);
      if w == [g.start] {
        Lr0At(g, w, Item(p, |p.rhs|), Item(Production(NEW_START, [g.start]), 1));
      }
      forall q, k ensures !ReadsOn(g, w, q, k) {
        if ReadsOn(g, w, q, k) {
          HandleIsItem(g, w, q, k);
          Lr0At(g, w, Item(p, |p.rhs|), Item(q, k));
        }
      }
    }
  }

  /** A grammar is LR(0) if and only if, told in terms of ways down its productions, it is clear everywhere. */
  lemma Lr0Exactly(g: Grammar)
    requires WellFormed(g) && Fresh(g)
    ensures IsLr0(g) <==> forall w :: Clear(g, w)
  {
    hide Run, Open, Clear;
    if IsLr0(g) {
      forall w ensures Clear(g, w) {
        Lr0IsClear(g, w);
      }
    }
    if forall w :: Clear(g, w) {
      forall w, a, b | a in Run(g, w) && b in Run(g, w) && Complete(a) && a.p.lhs != NEW_START
        ensures b == a || WaitsForVn(b)
      {
        OldItem(g, w, a);
        OldItem(g, w, b);
        ClearAt(g, w, a, b);
      }
    }
  }

  lemma ClearAt(g: Grammar, w: seq<Symbol>, a: Item, b: Item)
    requires WellFormed(g) && Clear(g, w) && Complete(a) && Open(g, w, a.p, a.pos) && b.pos <= |b.p.rhs|
    requires b.p.lhs != NEW_START ==> Open(g, w, b.p, b.pos)
    requires b.p.lhs == NEW_START ==> WaitsForVn(b) || w == [g.start]
    ensures b == a || WaitsForVn(b)
  {
    hide Open;
    assert Handle(g, w, a.p);
    if b.p.lhs != NEW_START {
      if Complete(b) {
        assert Handle(g, w, b.p);
      } else {
        assert !ReadsOn(g, w, b.p, b.pos);
      }
    }
  }

  lemma WantsOfWaiting(g: Grammar, row: seq<int>, it: Item, k: nat)
    requires WellFormed(g) && Fresh(g) && it in AllItems(Augmented(g)) && |row| == |Symbols(Augmented(g))| && k <= |g.vt|
    ensures WaitsForVn(it) ==> Wants(g, row, it, Terminal(g, k)) == Error
    ensures Wants(g, row, it, Terminal(g, k)).Shift? ==> NextIs(it, Terminal(g, k)) && Terminal(g, k).Vt?
  {
    TerminalColumns(g, k);
  }

  /** In a set of an LR(0) grammar, no two items ask for different actions. */
  lemma NoClash(g: Grammar, row: seq<int>, w: seq<Symbol>, a: Item, b: Item, k: nat)
    requires WellFormed(g) && Fresh(g) && IsLr0(g) && Over(w, Symbols(Augmented(g))) && |row| == |Symbols(Augmented(g))| && k <= |g.vt|
    requires a in Run(g, w) && b in Run(g, w) && a in AllItems(Augmented(g)) && b in AllItems(Augmented(g))
    ensures var x, y := Wants(g, row, a, Terminal(g, k)), Wants(g, row, b, Terminal(g, k)); x == Error || y == Error || x == y
  {
    hide Run, AllItems;
    ItemIsItem(Augmented(g), a);
    ItemIsItem(Augmented(g), b);
    WantsOfWaiting(g, row, a, k);
    WantsOfWaiting(g, row, b, k);
    TerminalColumns(g, k);
  }

  /** Where the grammar has a clash, some column of the state's row has one. */
  lemma Clash(g: Grammar, t: Tables, w: seq<Symbol>, s: nat, a: Item, b: Item) returns (k: nat)
    requires Built(g, t) && Over(w, Symbols(Augmented(g))) && s < |t.states| && t.states[s] == Run(g, w)
    requires a in Run(g, w) && b in Run(g, w) && Complete(a) && a.p.lhs != NEW_START && b != a && !WaitsForVn(b)
    ensures k <= |g.vt| && |t.toState| == |t.states| && |t.toState[s]| == |Symbols(Augmented(g))|
    ensures a in AllItems(Augmented(g)) && b in AllItems(Augmented(g))
    ensures var x, y := Wants(g, t.toState[s], a, Terminal(g, k)), Wants(g, t.toState[s], b, Terminal(g, k));
            x != Error && y != Error && x != y
  {
    hide Run, AllItems, ActionRow, GotoRow;
    RunIsItems(g, w);
    StatesAreItems(g, t.states, t.toState);
    ItemIsItem(Augmented(g), a);
    ItemIsItem(Augmented(g), b);
    k := |g.vt|;
    if !Complete(b) {
      var x := b.p.rhs[b.pos];
      AugmentedIsWellFormed(g);
      assert x in Symbols(Augmented(g)) && x !in Augmented(g).vn;
      assert x in g.vt;
      k := IndexOf(g.vt, x);
      TransitionIsRun(g, t.states, t.toState, w, s, b, x);
    }
  }

  /** The tables have no conflict if and only if the grammar is LR(0). */
  lemma ConflictFreeExactly(g: Grammar, t: Tables)
    requires Built(g, t)
    ensures ConflictFree(g, t.states, t.toState) <==> IsLr0(g)
  {
    hide Run, AllItems, Wants, ActionRow, GotoRow;
    StatesAreItems(g, t.states, t.toState);
    if IsLr0(g) {
      forall i, k, a, b | 0 <= i < |t.states| && 0 <= k <= |g.vt| && a in t.states[i] && b in t.states[i]
        ensures Wants(g, t.toState[i], a, Terminal(g, k)) == Error || Wants(g, t.toState[i], b, Terminal(g, k)) == Error ||
                Wants(g, t.toState[i], a, Terminal(g, k)) == Wants(g, t.toState[i], b, Terminal(g, k))
      {
        var w := WordOf(g, t, i);
        NoClash(g, t.toState[i], w, a, b, k);
      }
    } else {
      var w, a, b :| Over(w, Symbols(Augmented(g))) && a in Run(g, w) && b in Run(g, w) && Complete(a) && a.p.lhs != NEW_START
        && b != a && !WaitsForVn(b);
      DfaIsComplete(g, t.states, t.toState, w);
      var s :| 0 <= s < |t.states| && t.states[s] == Run(g, w);
      var k := Clash(g, t, w, s, a, b);
    }
  }

  lemma WordOf(g: Grammar, t: Tables, i: nat) returns (w: seq<Symbol>)
    requires IsDfa(g, t.states, t.toState) && i < |t.states|
    ensures Over(w, Symbols(Augmented(g))) && t.states[i] == Run(g, w) && t.states[i] != {}
  {
    hide Run, RightRows;
    assert Reaches(g, t.states[i]);
    w :| Over(w, Symbols(Augmented(g))) && Run(g, w) == t.states[i] && t.states[i] != {};
  }

  /** The grammar's tables have no conflict. */
  ghost predicate Clean(g: Grammar, t: Tables) {
    Built(g, t) && ConflictFree(g, t.states, t.toState)
  }

  lemma Lr0IsClean(g: Grammar, t: Tables)
    requires Built(g, t) && IsLr0(g)
    ensures Clean(g, t)
  {
    hide ConflictFree, IsLr0, ActionRow, GotoRow, IsDfa;
    ConflictFreeExactly(g, t);
  }

  lemma CleanIsBuilt(g: Grammar, t: Tables)
    requires Clean(g, t)
    ensures Built(g, t)
  {
  }

  // ----- what a step does -----

  /** A production is to be reduced on top of the stack. */
  ghost predicate Reduces(g: Grammar, c: Config, it: Item) {
    it in Run(g, Read(c)) && Complete(it) && it.p.lhs != NEW_START
  }

  ghost function ReducedBy(g: Grammar, t: Tables, c: Config, it: Item): Outcome {
    if it.p in Augmented(g).prods then Reduced(g, t.gotos, c, IndexOf(Augmented(g).prods, it.p)) else Stuck
  }

  /** A step that reduces nothing shifts a token or ends the run. */
  lemma NoReduction(g: Grammar, t: Tables, c: Config, tokens: seq<Symbol>)
    requires Built(g, t) && Inv(g, t.states, c, tokens)
    requires forall it :: Reduces(g, c, it) ==> Next(g, t.actions, t.gotos, c) != ReducedBy(g, t, c, it)
    ensures var o := Next(g, t.actions, t.gotos, c);
            o.Running? ==> c.rest != [] && o.c.syms == c.syms + [c.rest[0]] && o.c.rest == c.rest[1..]
  {
    hide Run, AllItems, Derives, IsTable, OnPath, Reduced;
    TopAction(g, t.states, t.toState, t.actions, t.gotos, c);
    var row := t.toState[c.states[|c.states| - 1]];
    var act := t.actions[c.states[|c.states| - 1]][Column(g, NextSymbol(c))];
    if act.Reduce? {
      var it :| it in Run(g, Read(c)) && Wants(g, row, it, NextSymbol(c)) == act;
      ItemIsItem(Augmented(g), it);
      assert Reduces(g, c, it);
    }
  }

  /** Without conflicts a production is reduced whatever comes next in the input. */
  lemma ReducesAnyway(g: Grammar, t: Tables, c: Config, tokens: seq<Symbol>, it: Item)
    requires Clean(g, t) && Inv(g, t.states, c, tokens) && Reduces(g, c, it)
    ensures it.p in Augmented(g).prods
    ensures Next(g, t.actions, t.gotos, c) == Reduced(g, t.gotos, c, IndexOf(Augmented(g).prods, it.p))
    ensures Next(g, t.actions, t.gotos, c).Running? && Inv(g, t.states, Next(g, t.actions, t.gotos, c).c, tokens)
  {
    hide Run, AllItems, ConflictFree, Derives, IsDfa, ActionRow, GotoRow, Reduced;
    RunIsItems(g, Read(c));
    StatesAreItems(g, t.states, t.toState);
    ItemIsItem(Augmented(g), it);
    Top(g, t.states, c);
    OnlyAction(g, t.states, t.toState, t.actions, t.gotos, c, it);
    ReduceKeeps(g, t.states, t.toState, t.actions, t.gotos, c, tokens, it);
  }

  lemma SomeItem(g: Grammar, t: Tables, c: Config, tokens: seq<Symbol>) returns (it: Item)
    requires Built(g, t) && Inv(g, t.states, c, tokens)
    ensures it in Run(g, Read(c))
  {
    hide Run, ActionRow, GotoRow, Derived, IsDfa;
    Top(g, t.states, c);
    var w := WordOf(g, t, c.states[|c.states| - 1]);
    it :| it in t.states[c.states[|c.states| - 1]];
  }

  // ----- any tables: every step adds one to a forest that stands -----

  /** The forest's roots are on the stack and its yield has been read. */
  ghost predicate Traces(g: Grammar, c: Config, tokens: seq<Symbol>, f: Forest) {
    Grown(g, f) && Roots(f) == Read(c) && Yield(f) + c.rest == tokens
  }

  lemma TraceStands(g: Grammar, t: Tables, c: Config, tokens: seq<Symbol>, f: Forest)
    requires Built(g, t) && Inv(g, t.states, c, tokens) && Traces(g, c, tokens, f)
    ensures Stands(g, f) && Yield(f) <= tokens
  {
    hide Run, IsTable, OnPath, Derived, Grown, Roots, Yield;
    var it := SomeItem(g, t, c, tokens);
    assert Over(Yield(f), g.vt) by {
      forall x | x in Yield(f) ensures x in g.vt { assert x in tokens; }
    }
  }

  lemma SomeTrace(g: Grammar, t: Tables, c: Config, tokens: seq<Symbol>) returns (f: Forest)
    requires Built(g, t) && Inv(g, t.states, c, tokens)
    ensures Traces(g, c, tokens, f)
  {
    hide Run, IsTable, OnPath, Derives, Grown, Roots, Yield;
    var k := |tokens| - |c.rest|;
    assert tokens == tokens[..k] + c.rest;
    assert forall x :: x in tokens[..k] ==> x in tokens;
    f := DerivesHasForest(g, Read(c), tokens[..k]);
  }

  lemma ShiftTraced(g: Grammar, c: Config, d: Config, tokens: seq<Symbol>, f: Forest) returns (h: Forest)
    requires Traces(g, c, tokens, f) && c.syms != [] && c.rest != [] && c.rest[0].Vt?
    requires d.syms == c.syms + [c.rest[0]] && d.rest == c.rest[1..]
    ensures Traces(g, d, tokens, h) && Count(h) == Count(f) + 1
  {
    var leaf := Leaf(c.rest[0], Nil);
    h := Join(f, leaf);
    Joined(g, f, leaf);
    assert Roots(leaf) == Yield(leaf) == [c.rest[0]];
    assert Read(d) == Read(c) + [c.rest[0]] && c.rest == [c.rest[0]] + d.rest;
    Regroup(Yield(f), [c.rest[0]], d.rest);
  }

  lemma ReduceTraced(g: Grammar, c: Config, d: Config, tokens: seq<Symbol>, f: Forest, p: Production) returns (h: Forest)
    requires Traces(g, c, tokens, f) && p in g.prods && |p.rhs| <= |Read(c)| == |c.syms| - 1 && Read(c)[|Read(c)| - |p.rhs|..] == p.rhs
    requires d.syms == c.syms[..|c.syms| - |p.rhs|] + [p.lhs] && d.rest == c.rest
    ensures Traces(g, d, tokens, h) && Count(h) == Count(f) + 1
  {
    hide Grown, Roots, Yield, Count, Grouped;
    var i, u := |Read(c)| - |p.rhs|, Read(d);
    assert u == Read(c)[..i] + [p.lhs];
    assert Read(c) == Replaced(u, i, p.rhs);
    GroupedUndoesStep(g, f, u, i, p);
    h := Grouped(f, i, p);
  }

  lemma StepTraced(g: Grammar, t: Tables, c: Config, tokens: seq<Symbol>, f: Forest) returns (h: Forest)
    requires Built(g, t) && Inv(g, t.states, c, tokens) && Traces(g, c, tokens, f) && Next(g, t.actions, t.gotos, c).Running?
    ensures Inv(g, t.states, Next(g, t.actions, t.gotos, c).c, tokens)
    ensures Traces(g, Next(g, t.actions, t.gotos, c).c, tokens, h) && Count(h) == Count(f) + 1
  {
    hide Run, IsTable, Inv, Next, Traces, Count, Reduced, Augmented;
    StepIsSafe(g, t.states, t.toState, t.actions, t.gotos, c, tokens);
    var d := Next(g, t.actions, t.gotos, c).c;
    StackThere(g, t, c, tokens);
    if it :| Reduces(g, c, it) && Next(g, t.actions, t.gotos, c) == ReducedBy(g, t, c, it) {
      RunIsProduction(g, Read(c), it);
      ReduceKeeps(g, t.states, t.toState, t.actions, t.gotos, c, tokens, it);
      AugmentedIsWellFormed(g);
      h := ReduceTraced(g, c, d, tokens, f, it.p);
    } else {
      NoReduction(g, t, c, tokens);
      h := ShiftTraced(g, c, d, tokens, f);
    }
  }

  lemma StackThere(g: Grammar, t: Tables, c: Config, tokens: seq<Symbol>)
    requires Built(g, t) && Inv(g, t.states, c, tokens)
    ensures c.syms != [] && |Read(c)| == |c.syms| - 1 && (c.rest != [] ==> c.rest[0].Vt?)
  {
    hide Run, IsTable, Derives;
    assert c.rest != [] ==> c.rest[0] in tokens;
  }

  /** After n steps, over any tables, a forest with n more leaves and nodes is on the stack. */
  lemma {:induction false} RunTraced(g: Grammar, t: Tables, c: Config, tokens: seq<Symbol>, f: Forest, n: nat) returns (h: Forest)
    requires Built(g, t) && Inv(g, t.states, c, tokens) && Traces(g, c, tokens, f) && From(g, t, c, n).Running?
    ensures Inv(g, t.states, From(g, t, c, n).c, tokens)
    ensures Traces(g, From(g, t, c, n).c, tokens, h) && Count(h) == Count(f) + n
    decreases n
  {
    hide Built, Inv, Next, Traces, Count;
    if n == 0 {
      h := f;
    } else {
      var o := Next(g, t.actions, t.gotos, c);
      if !o.Running? { FinishedStays(g, t, o, n - 1); }
      var h' := StepTraced(g, t, c, tokens, f);
      h := RunTraced(g, t, Next(g, t.actions, t.gotos, c).c, tokens, h', n - 1);
    }
  }

  /** Over any tables, a run ends where the forests that can stand are bounded in size. */
  lemma BoundedRunEnds(g: Grammar, t: Tables, c: Config, tokens: seq<Symbol>) returns (n: nat)
    requires Built(g, t) && Inv(g, t.states, c, tokens) && Bounded(g, tokens)
    ensures !From(g, t, c, n).Running?
  {
    hide Built, Inv, From, Traces, Stands, Count;
    var bound: nat :| BoundedBy(g, tokens, bound);
    n := bound + 1;
    if From(g, t, c, n).Running? {
      var f := SomeTrace(g, t, c, tokens);
      var h := RunTraced(g, t, c, tokens, f, n);
      TraceStands(g, t, From(g, t, c, n).c, tokens, h);
      assert false;
    }
  }

  /** Every run over any tables ends when no stack grows out of nothing and none is derived from itself. */
  lemma TameRunEnds(g: Grammar, t: Tables, c: Config, tokens: seq<Symbol>) returns (n: nat)
    requires Built(g, t) && Tame(g) && Inv(g, t.states, c, tokens)
    ensures !From(g, t, c, n).Running?
  {
    hide IsTable, Inv, Tame, From, Bounded;
    TameIsBounded(g, tokens);
    n := BoundedRunEnds(g, t, c, tokens);
  }

  // ----- tables without conflicts: every forest that stands is built -----

  /** Some item of a set reached by a symbol has its dot past the beginning. */
  lemma LastItem(g: Grammar, w: seq<Symbol>) returns (it: Item)
    requires w != [] && Run(g, w) != {}
    ensures it in Run(g, w) && 0 < it.pos <= |it.p.rhs| && it.p in Augmented(g).prods
  {
    hide Run, Augmented;
    var v, x := w[..|w| - 1], w[|w| - 1];
    assert w == v + [x];
    RunGoesOn(g, v, x);
    var before :| before in Run(g, v) && NextIs(before, x);
    RunAdvances(g, v, before, x);
    it := Advance(before);
    RunIsProduction(g, w, it);
  }

  /** Each leaf and each node of a standing forest is one step of the parser on the forest's yield. */
  lemma {:induction false} StandingIsBuilt(g: Grammar, t: Tables, f: Forest, more: seq<Symbol>) returns (d: Config)
    requires Clean(g, t) && Stands(g, f) && Over(more, g.vt)
    ensures From(g, t, Start(Yield(f) + more), Count(f)) == Running(d) && Inv(g, t.states, d, Yield(f) + more)
    ensures Read(d) == Roots(f) && d.rest == more
    decreases |Roots(f)|
  {
    hide Run, IsTable, ConflictFree, Inv, Next, Grown, Augmented, Roots, Yield, Count;
    var tokens, w := Yield(f) + more, Roots(f);
    if f == Nil {
      StartHolds(g, t.states, t.toState, t.actions, t.gotos, tokens);
      NilParts();
      assert [] + more == more;
      d := Start(tokens);
    } else {
      RootsThere(f);
      var it := LastItem(g, w);
      RunSuffix(g, w, it);
      var k := |w| - it.pos;
      var low, top := Front(f, k), Back(f, k);
      FrontStands(g, f, k);
      PartedAt(g, f, k, it);
      var c := StandingIsBuilt(g, t, low, Yield(top) + more);
      Regroup(Yield(low), Yield(top), more);
      var n;
      n, d := ForestIsParsed(g, t.states, t.toState, t.actions, t.gotos, c, tokens, Item(it.p, 0), top, more);
      StepsAdd(g, t.actions, t.gotos, Running(Start(tokens)), Count(low), n);
      ReadGrows(g, t, c, d, tokens, Roots(top));
    }
  }

  lemma RootsThere(f: Forest)
    requires f != Nil
    ensures Roots(f) != []
  {
  }

  /** The trees from where the right side of an item begins are what the item waits for there. */
  lemma PartedAt(g: Grammar, f: Forest, k: nat, it: Item)
    requires it.pos <= |it.p.rhs| && k + it.pos == |Roots(f)| && Roots(Back(f, k)) == Roots(f)[k..] == it.p.rhs[..it.pos]
    ensures WaitsFor(Item(it.p, 0), Roots(Back(f, k)))
  {
    assert it.p.rhs[0..it.pos] == it.p.rhs[..it.pos];
  }

  lemma ReadGrows(g: Grammar, t: Tables, c: Config, d: Config, tokens: seq<Symbol>, v: seq<Symbol>)
    requires Inv(g, t.states, c, tokens) && d.syms == c.syms + v
    ensures Read(d) == Read(c) + v
  {
    hide Run, Derived;
  }

  /**
   * Over tables without conflicts the parser is still running after n steps if and only if some forest
   * with n leaves and nodes stands over a beginning of the tokens.
   */
  lemma RunningExactly(g: Grammar, t: Tables, tokens: seq<Symbol>, n: nat)
    requires Clean(g, t) && Over(tokens, g.vt)
    ensures From(g, t, Start(tokens), n).Running? <==> exists f :: Stands(g, f) && Yield(f) <= tokens && Count(f) == n
  {
    hide Clean, Inv, Stands, From, Count, Traces, Built;
    CleanIsBuilt(g, t);
    if From(g, t, Start(tokens), n).Running? {
      var h := StartTraced(g, t, tokens, n);
    }
    if f :| Stands(g, f) && Yield(f) <= tokens && Count(f) == n {
      var more := tokens[|Yield(f)|..];
      assert Yield(f) + more == tokens && forall x :: x in more ==> x in tokens;
      var d := StandingIsBuilt(g, t, f, more);
    }
  }

  lemma StartTraced(g: Grammar, t: Tables, tokens: seq<Symbol>, n: nat) returns (h: Forest)
    requires Built(g, t) && Over(tokens, g.vt) && From(g, t, Start(tokens), n).Running?
    ensures Stands(g, h) && Yield(h) <= tokens && Count(h) == n
  {
    hide IsTable, Inv, From;
    StartHolds(g, t.states, t.toState, t.actions, t.gotos, tokens);
    NilParts();
    assert Traces(g, Start(tokens), tokens, Nil);
    h := RunTraced(g, t, Start(tokens), tokens, Nil, n);
    TraceStands(g, t, From(g, t, Start(tokens), n).c, tokens, h);
  }

  lemma {:induction false} FinishedStays(g: Grammar, t: Tables, o: Outcome, n: nat)
    requires !o.Running?
    ensures Steps(g, t.actions, t.gotos, o, n) == o
  {
  }

  lemma StaysFinished(g: Grammar, t: Tables, c: Config, n: nat, m: nat)
    requires !From(g, t, c, n).Running? && n <= m
    ensures From(g, t, c, m) == From(g, t, c, n)
  {
    hide Next;
    StepsAdd(g, t.actions, t.gotos, Running(c), n, m - n);
    FinishedStays(g, t, From(g, t, c, n), m - n);
  }

  /** For an LR(0) grammar the parser ends on the tokens if and only if the forests over them are bounded. */
  lemma RunEndsExactly(g: Grammar, t: Tables, tokens: seq<Symbol>)
    requires Built(g, t) && IsLr0(g) && Over(tokens, g.vt)
    ensures (exists n: nat :: !From(g, t, Start(tokens), n).Running?) <==> Bounded(g, tokens)
  {
    hide IsTable, IsLr0, From, Stands, Inv, Clean, Count;
    if n: nat :| !From(g, t, Start(tokens), n).Running? {
      Lr0IsClean(g, t);
      forall f | Stands(g, f) && Yield(f) <= tokens ensures Count(f) <= n {
        RunningExactly(g, t, tokens, Count(f));
        if Count(f) > n { StaysFinished(g, t, Start(tokens), n, Count(f)); }
      }
      assert BoundedBy(g, tokens, n);
    }
    if Bounded(g, tokens) {
      StartHolds(g, t.states, t.toState, t.actions, t.gotos, tokens);
      var n := BoundedRunEnds(g, t, Start(tokens), tokens);
    }
  }

  /**
   * For an LR(0) grammar the parser ends on every token string if and only if no stack grows out of
   * nothing and none is derived from itself.
   */
  lemma EndsExactly(g: Grammar, t: Tables)
    requires Built(g, t) && IsLr0(g)
    ensures (forall tokens :: Over(tokens, g.vt) ==> exists n: nat :: !From(g, t, Start(tokens), n).Running?) <==> Tame(g)
  {
    hide IsTable, IsLr0, From, Tame, Bounded;
    forall tokens | Over(tokens, g.vt)
      ensures (exists n: nat :: !From(g, t, Start(tokens), n).Running?) <==> Bounded(g, tokens)
    {
      RunEndsExactly(g, t, tokens);
    }
    TameExactly(g);
  }

  // ----- the theorems about whole runs -----

  /**
   * Where the grammar is tame, or at least the forests over these tokens are bounded, the parser ends
   * on the tokens over any tables, and always by accepting or rejecting.
   */
  lemma ParserEnds(g: Grammar, t: Tables, tokens: seq<Symbol>) returns (n: nat)
    requires Built(g, t) && (Tame(g) || Bounded(g, tokens)) && Over(tokens, g.vt)
    ensures var o := From(g, t, Start(tokens), n); o.Accepted? || o.Rejected?
  {
    hide IsTable, Inv, Tame, Bounded, Derives;
    StartHolds(g, t.states, t.toState, t.actions, t.gotos, tokens);
    if Tame(g) {
      TameIsBounded(g, tokens);
    }
    n := BoundedRunEnds(g, t, Start(tokens), tokens);
    ParserIsSound(g, t.states, t.toState, t.actions, t.gotos, tokens, n);
  }

  /** A run that has ended over tables without conflicts accepted exactly if the tokens are a sentence. */
  lemma FinishedRunDecides(g: Grammar, t: Tables, tokens: seq<Symbol>, n: nat)
    requires Built(g, t) && IsLr0(g) && Over(tokens, g.vt) && !From(g, t, Start(tokens), n).Running?
    ensures From(g, t, Start(tokens), n).Accepted? <==> Derives(g, [g.start], tokens)
  {
    hide IsTable, IsLr0, Derives, WellFormed, Next, ConflictFree;
    Lr0IsClean(g, t);
    ParserIsSound(g, t.states, t.toState, t.actions, t.gotos, tokens, n);
    if Derives(g, [g.start], tokens) {
      var m := ParserIsComplete(g, t.states, t.toState, t.actions, t.gotos, tokens);
      if m <= n {
        StaysFinished(g, t, Start(tokens), m, n);
      } else {
        StaysFinished(g, t, Start(tokens), n, m);
      }
    }
  }

  /** Where runs end and tables have no conflict, the parser accepts every sentence and rejects everything else. */
  lemma ParserDecides(g: Grammar, t: Tables, tokens: seq<Symbol>) returns (n: nat)
    requires Built(g, t) && IsLr0(g) && (Tame(g) || Bounded(g, tokens)) && Over(tokens, g.vt)
    ensures From(g, t, Start(tokens), n) == if Derives(g, [g.start], tokens) then Accepted else Rejected
  {
    hide IsTable, IsLr0, Tame, Bounded, Derives, From;
    n := ParserEnds(g, t, tokens);
    FinishedRunDecides(g, t, tokens, n);
  }
}
