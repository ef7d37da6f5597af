/**
 * The table-driven LR(0) parser: a state stack and a symbol stack over a token string that ends in
 * the end mark, as a machine that takes one step at a time. Proved: no run on any grammar's tables
 * gets stuck, whatever is accepted is derived by the grammar, and over tables without conflicts
 * whatever the grammar derives is accepted.
 */
module LrParser {
  import opened Sequences
  import opened Grammars
  import opened LrItems
  import opened LrTables

  datatype Config = Config(states: seq<nat>, syms: seq<Symbol>, rest: seq<Symbol>)

  /** Stuck is what must not happen: a pop below the bottom, a missing table row, a push of -1. */
  datatype Outcome = Running(c: Config) | Accepted | Rejected | Stuck

  function Start(tokens: seq<Symbol>): Config {
    Config([0], [HASH], tokens)
  }

  /** The symbol read next; the end mark follows the tokens. */
  function NextSymbol(c: Config): Symbol {
    if c.rest == [] then HASH else c.rest[0]
  }

  function Column(g: Grammar, a: Symbol): nat {
    if a in g.vt then IndexOf(g.vt, a) else |g.vt|
  }

  function Next(g: Grammar, actions: seq<seq<Action>>, gotos: seq<seq<int>>, c: Config): Outcome {
    var k := Column(g, NextSymbol(c));
    if c.states == [] || c.states[|c.states| - 1] >= |actions| || k >= |actions[c.states[|c.states| - 1]]| then Stuck
    else
      match actions[c.states[|c.states| - 1]][k]
      case Accept => Accepted
      case Error => Rejected
      case Shift(t) =>
        if c.rest == [] then Stuck
        else Running(Config(c.states + [t], c.syms + [c.rest[0]], c.rest[1..]))
      case Reduce(j) => Reduced(g, gotos, c, j)
  }

  function Reduced(g: Grammar, gotos: seq<seq<int>>, c: Config, j: nat): Outcome {
    if j >= |Augmented(g).prods| then Stuck
    else
      var p := Augmented(g).prods[j];
      var n := |p.rhs|;
      if n >= |c.states| || n >= |c.syms| || p.lhs !in Augmented(g).vn then Stuck
      else
        var top := c.states[|c.states| - n - 1];
        var column := IndexOf(Augmented(g).vn, p.lhs);
        if top >= |gotos| || column >= |gotos[top]| || gotos[top][column] < 0 then Stuck
        else Running(Config(c.states[..|c.states| - n] + [gotos[top][column]], c.syms[..|c.syms| - n] + [p.lhs], c.rest))
  }

  function Steps(g: Grammar, actions: seq<seq<Action>>, gotos: seq<seq<int>>, o: Outcome, n: nat): Outcome
    decreases n
  {
    if n == 0 || !o.Running? then o
    else Steps(g, actions, gotos, Next(g, actions, gotos, o.c), n - 1)
  }

  lemma {:induction false} StepsAdd(g: Grammar, actions: seq<seq<Action>>, gotos: seq<seq<int>>, o: Outcome, n: nat, m: nat)
    ensures Steps(g, actions, gotos, o, n + m) == Steps(g, actions, gotos, Steps(g, actions, gotos, o, n), m)
    decreases n
  {
    if n > 0 && o.Running? {
      StepsAdd(g, actions, gotos, Next(g, actions, gotos, o.c), n - 1, m);
    }
  }

  /** The symbols on the stack above the end mark. */
  function Read(c: Config): seq<Symbol> {
    if c.syms == [] then [] else c.syms[1..]
  }

  /** The state stack spells out the automaton's path along the symbol stack. */
  ghost predicate OnPath(g: Grammar, states: seq<set<Item>>, c: Config) {
    && |c.states| == |c.syms| > 0 && c.syms[0] == HASH
    && Over(Read(c), Symbols(Augmented(g)))
    && (forall i {:trigger c.states[i]} :: 0 <= i < |c.states| ==>
          c.states[i] < |states| && states[c.states[i]] == Run(g, Read(c)[..i]))
  }

  /** The symbols on the stack derive what has been read of the tokens. */
  ghost predicate Derived(g: Grammar, c: Config, tokens: seq<Symbol>) {
    |c.rest| <= |tokens| && c.rest == tokens[|tokens| - |c.rest|..] &&
    Derives(g, Read(c), tokens[..|tokens| - |c.rest|])
  }

  // ----- safety -----

  lemma Top(g: Grammar, states: seq<set<Item>>, c: Config)
    requires OnPath(g, states, c)
    ensures c.states[|c.states| - 1] < |states| && states[c.states[|c.states| - 1]] == Run(g, Read(c))
  {
    assert Read(c)[..|c.states| - 1] == Read(c);
  }

  lemma ColumnOf(g: Grammar, a: Symbol)
    requires a in g.vt || a == HASH
    requires Fresh(g)
    ensures Column(g, a) <= |g.vt| && Terminal(g, Column(g, a)) == a
  {
  }

  /** The action found for the top state and the next symbol is justified by the item set of the stack. */
  lemma TopAction(g: Grammar, states: seq<set<Item>>, toState: seq<seq<int>>,
                  actions: seq<seq<Action>>, gotos: seq<seq<int>>, c: Config)
    requires WellFormed(g) && Fresh(g) && IsTable(g, states, toState, actions, gotos)
    requires OnPath(g, states, c) && Over(c.rest, g.vt)
    ensures |toState| == |actions| == |states| && Run(g, Read(c)) <= AllItems(Augmented(g)) && c.states != []
    ensures c.states[|c.states| - 1] < |states| && states[c.states[|c.states| - 1]] == Run(g, Read(c))
    ensures |toState[c.states[|c.states| - 1]]| == |Symbols(Augmented(g))|
    ensures Column(g, NextSymbol(c)) < |actions[c.states[|c.states| - 1]]|
    ensures Justified(g, toState[c.states[|c.states| - 1]], Run(g, Read(c)), NextSymbol(c),
                      actions[c.states[|c.states| - 1]][Column(g, NextSymbol(c))])
  {
    hide Justified, Run, AllItems;
    Top(g, states, c);
    ColumnOf(g, NextSymbol(c));
    var s := c.states[|c.states| - 1];
    assert ActionRow(g, toState[s], states[s], actions[s]);
  }

  /** Pushing a symbol with the state that the automaton goes to keeps the stacks on a path. */
  lemma PushKeepsPath(g: Grammar, states: seq<set<Item>>, c: Config, x: Symbol, t: nat, rest: seq<Symbol>)
    requires OnPath(g, states, c) && x in Symbols(Augmented(g))
    requires t < |states| && states[t] == Run(g, Read(c) + [x])
    ensures OnPath(g, states, Config(c.states + [t], c.syms + [x], rest))
    ensures Read(Config(c.states + [t], c.syms + [x], rest)) == Read(c) + [x]
  {
    hide Run;
    var d := Config(c.states + [t], c.syms + [x], rest);
    assert Read(d) == Read(c) + [x];
    forall i | 0 <= i < |d.states| ensures states[d.states[i]] == Run(g, Read(d)[..i]) {
      if i < |c.states| {
        assert Read(d)[..i] == Read(c)[..i];
      } else {
        assert Read(d)[..i] == Read(d);
      }
    }
  }

  lemma PopKeepsPath(g: Grammar, states: seq<set<Item>>, c: Config, n: nat)
    requires OnPath(g, states, c) && n < |c.states|
    ensures OnPath(g, states, Config(c.states[..|c.states| - n], c.syms[..|c.syms| - n], c.rest))
    ensures Read(Config(c.states[..|c.states| - n], c.syms[..|c.syms| - n], c.rest)) == Read(c)[..|Read(c)| - n]
  {
    hide Run;
    var d := Config(c.states[..|c.states| - n], c.syms[..|c.syms| - n], c.rest);
    assert Read(d) == Read(c)[..|Read(c)| - n];
    forall i | 0 <= i < |d.states| ensures states[d.states[i]] == Run(g, Read(d)[..i]) {
      assert Read(d)[..i] == Read(c)[..i];
    }
  }

  /** From the state of a string, an item waiting for x makes the transition on x lead to the state of the longer string. */
  lemma TransitionIsRun(g: Grammar, states: seq<set<Item>>, toState: seq<seq<int>>, w: seq<Symbol>, s: nat, it: Item, x: Symbol)
    requires IsDfa(g, states, toState) && s < |states| && states[s] == Run(g, w)
    requires it in Run(g, w) && NextIs(it, x) && x in Symbols(Augmented(g))
    ensures |toState[s]| == |Symbols(Augmented(g))|
    ensures var t := toState[s][IndexOf(Symbols(Augmented(g)), x)]; 0 <= t < |states| && states[t] == Run(g, w + [x])
  {
    hide Run, Collected, Closure;
    DfaGoes(g, states, toState, s, x);
    RunExtends(g, w, x);
    RunGoesOn(g, w, x);
  }

  /** What holds of every configuration of a run on the given tokens. */
  ghost predicate Inv(g: Grammar, states: seq<set<Item>>, c: Config, tokens: seq<Symbol>) {
    OnPath(g, states, c) && Over(tokens, g.vt) && Derived(g, c, tokens)
  }

  lemma DerivedShift(g: Grammar, c: Config, tokens: seq<Symbol>, t: nat)
    requires Derived(g, c, tokens) && c.rest != [] && c.syms != []
    ensures Derived(g, Config(c.states + [t], c.syms + [c.rest[0]], c.rest[1..]), tokens)
  {
    hide Derives;
    var k := |tokens| - |c.rest|;
    assert c.rest[0] == tokens[k] && tokens[..k + 1] == tokens[..k] + [c.rest[0]];
    assert (c.syms + [c.rest[0]])[1..] == Read(c) + [c.rest[0]];
    DerivesBeforeSymbol(g, Read(c), tokens[..k], c.rest[0]);
  }

  lemma ShiftKeeps(g: Grammar, states: seq<set<Item>>, toState: seq<seq<int>>, actions: seq<seq<Action>>,
                   gotos: seq<seq<int>>, c: Config, tokens: seq<Symbol>, it: Item)
    requires WellFormed(g) && Fresh(g) && IsTable(g, states, toState, actions, gotos) && Inv(g, states, c, tokens)
    requires it in Run(g, Read(c)) && Run(g, Read(c)) <= AllItems(Augmented(g))
    requires |toState| == |states| && |toState[c.states[|c.states| - 1]]| == |Symbols(Augmented(g))|
    requires Wants(g, toState[c.states[|c.states| - 1]], it, NextSymbol(c)).Shift?
    ensures c.rest != [] && NextIs(it, c.rest[0])
    ensures var t := Wants(g, toState[c.states[|c.states| - 1]], it, NextSymbol(c)).state;
            Inv(g, states, Config(c.states + [t], c.syms + [c.rest[0]], c.rest[1..]), tokens)
  {
    hide Run, AllItems, Derived, ActionRow, GotoRow;
    AugmentedIsWellFormed(g);
    ItemIsItem(Augmented(g), it);
    Top(g, states, c);
    var x := it.p.rhs[it.pos];
    assert x in Symbols(Augmented(g)) && NextSymbol(c) == x && NextIs(it, x);
    if c.rest == [] {
      assert false;
    }
    TransitionIsRun(g, states, toState, Read(c), c.states[|c.states| - 1], it, x);
    var t := toState[c.states[|c.states| - 1]][IndexOf(Symbols(Augmented(g)), x)];
    PushKeepsPath(g, states, c, x, t, c.rest[1..]);
    DerivedShift(g, c, tokens, t);
  }

  /** What lies below a complete item's right side waits for its left side, and the GOTO table knows where to. */
  lemma ReduceTarget(g: Grammar, states: seq<set<Item>>, toState: seq<seq<int>>, actions: seq<seq<Action>>,
                     gotos: seq<seq<int>>, v: seq<Symbol>, s: nat, it: Item)
    requires WellFormed(g) && Fresh(g) && IsTable(g, states, toState, actions, gotos)
    requires it in Run(g, v + it.p.rhs) && Complete(it) && it.p.lhs != NEW_START && it.p in Augmented(g).prods
    requires s < |states| && states[s] == Run(g, v)
    ensures it.p.lhs in Augmented(g).vn && s < |gotos| && |gotos[s]| == |Augmented(g).vn|
    ensures var t := gotos[s][IndexOf(Augmented(g).vn, it.p.lhs)];
            0 <= t < |states| && states[t] == Run(g, v + [it.p.lhs])
  {
    hide Run, AllItems, ActionRow, IsDfa;
    var p, w := it.p, v + it.p.rhs;
    AugmentedIsWellFormed(g);
    StatesAreItems(g, states, toState);
    RunSuffix(g, w, it);
    assert w[..|w| - it.pos] == v;
    RunAwaits(g, v, p);
    var waiting :| waiting in Run(g, v) && NextIs(waiting, p.lhs);
    TransitionIsRun(g, states, toState, v, s, waiting, p.lhs);
    SymbolColumns(g);
    var j := IndexOf(Augmented(g).vn, p.lhs);
    assert Symbols(Augmented(g))[j] == p.lhs;
    IndexIs(Symbols(Augmented(g)), j);
    assert gotos[s][j] == toState[s][j];
  }

  lemma Lengths(g: Grammar, states: seq<set<Item>>, c: Config)
    requires OnPath(g, states, c)
    ensures |c.states| == |c.syms| == |Read(c)| + 1
  {
  }

  lemma DerivedReduce(g: Grammar, c: Config, tokens: seq<Symbol>, p: Production, v: seq<Symbol>, t: nat)
    requires Derived(g, c, tokens) && |c.states| == |c.syms| > |p.rhs| && p in g.prods && Read(c) == v + p.rhs
    ensures Derived(g, Config(c.states[..|c.states| - |p.rhs|] + [t], c.syms[..|c.syms| - |p.rhs|] + [p.lhs], c.rest), tokens)
  {
    hide Derives;
    DerivesAfterStep(g, v, p, tokens[..|tokens| - |c.rest|]);
    assert (c.syms[..|c.syms| - |p.rhs|] + [p.lhs])[1..] == v + [p.lhs];
  }

  /** A complete item's right side is on top of the stack. */
  lemma RightSideOnTop(g: Grammar, w: seq<Symbol>, it: Item)
    requires it in Run(g, w) && Complete(it)
    ensures |it.p.rhs| <= |w| && w[|w| - |it.p.rhs|..] == it.p.rhs
    ensures w == w[..|w| - |it.p.rhs|] + it.p.rhs
  {
    hide Run;
    RunSuffix(g, w, it);
    assert it.p.rhs[..it.pos] == it.p.rhs;
  }

  /** Where the stacks stand after a reduction's pops, the GOTO entry is the state of the string with the left side. */
  lemma PoppedGoes(g: Grammar, states: seq<set<Item>>, toState: seq<seq<int>>, actions: seq<seq<Action>>,
                   gotos: seq<seq<int>>, c: Config, it: Item) returns (d: Config)
    requires WellFormed(g) && Fresh(g) && IsTable(g, states, toState, actions, gotos) && OnPath(g, states, c)
    requires it in Run(g, Read(c)) && Complete(it) && it.p.lhs != NEW_START && it.p in Augmented(g).prods
    requires |c.states| == |c.syms| == |Read(c)| + 1 && |it.p.rhs| <= |Read(c)|
    ensures d == Config(c.states[..|c.states| - |it.p.rhs|], c.syms[..|c.syms| - |it.p.rhs|], c.rest)
    ensures OnPath(g, states, d) && Read(d) == Read(c)[..|Read(c)| - |it.p.rhs|] && d.states != []
    ensures var s := d.states[|d.states| - 1];
            it.p.lhs in Augmented(g).vn && s < |gotos| && |gotos[s]| == |Augmented(g).vn| &&
            var t := gotos[s][IndexOf(Augmented(g).vn, it.p.lhs)];
            0 <= t < |states| && states[t] == Run(g, Read(d) + [it.p.lhs])
  {
    hide *;
    var n := |it.p.rhs|;
    d := Config(c.states[..|c.states| - n], c.syms[..|c.syms| - n], c.rest);
    RightSideOnTop(g, Read(c), it);
    PopKeepsPath(g, states, c, n);
    Top(g, states, d);
    ReduceTarget(g, states, toState, actions, gotos, Read(d), d.states[|d.states| - 1], it);
  }

  /** What a reduction leaves, when the stacks are long enough and the GOTO entry is there. */
  lemma ReducedIs(g: Grammar, gotos: seq<seq<int>>, c: Config, p: Production, s: nat)
    requires p in Augmented(g).prods && p.lhs in Augmented(g).vn && |p.rhs| < |c.states| == |c.syms|
    requires s == c.states[|c.states| - |p.rhs| - 1] && s < |gotos| && |gotos[s]| == |Augmented(g).vn|
    requires gotos[s][IndexOf(Augmented(g).vn, p.lhs)] >= 0
    ensures Reduced(g, gotos, c, IndexOf(Augmented(g).prods, p)) ==
            Running(Config(c.states[..|c.states| - |p.rhs|] + [gotos[s][IndexOf(Augmented(g).vn, p.lhs)]],
                           c.syms[..|c.syms| - |p.rhs|] + [p.lhs], c.rest))
  {
    hide Augmented, IndexOf;
  }

  lemma ReduceKeeps(g: Grammar, states: seq<set<Item>>, toState: seq<seq<int>>, actions: seq<seq<Action>>,
                    gotos: seq<seq<int>>, c: Config, tokens: seq<Symbol>, it: Item)
    requires WellFormed(g) && Fresh(g) && IsTable(g, states, toState, actions, gotos) && Inv(g, states, c, tokens)
    requires it in Run(g, Read(c)) && Complete(it) && it.p.lhs != NEW_START && it.p in Augmented(g).prods
    ensures var n := |it.p.rhs|; n <= |Read(c)| && Read(c)[|Read(c)| - n..] == it.p.rhs
    ensures var o := Reduced(g, gotos, c, IndexOf(Augmented(g).prods, it.p));
            && o.Running? && Inv(g, states, o.c, tokens)
            && o.c.syms == c.syms[..|c.syms| - |it.p.rhs|] + [it.p.lhs] && o.c.rest == c.rest
  {
    hide Run, AllItems, IsTable, WellFormed, OnPath, Derived, Augmented, Fresh, Reduced, Read, IndexOf;
    var p, n := it.p, |it.p.rhs|;
    RightSideOnTop(g, Read(c), it);
    Lengths(g, states, c);
    var d := PoppedGoes(g, states, toState, actions, gotos, c, it);
    LeftSideKnown(g, p);
    var s := d.states[|d.states| - 1];
    var t := gotos[s][IndexOf(Augmented(g).vn, p.lhs)];
    PushKeepsPath(g, states, d, p.lhs, t, c.rest);
    DerivedReduce(g, c, tokens, p, Read(d), t);
    ReducedIs(g, gotos, c, p, s);
  }

  lemma LeftSideKnown(g: Grammar, p: Production)
    requires p in Augmented(g).prods && p.lhs != NEW_START && p.lhs in Augmented(g).vn
    ensures p in g.prods && p.lhs in Symbols(Augmented(g))
  {
  }

  /** Acceptance happens only on the end mark, with just the start symbol above the end mark. */
  lemma AcceptMeans(g: Grammar, states: seq<set<Item>>, c: Config, tokens: seq<Symbol>, it: Item)
    requires WellFormed(g) && Fresh(g) && Inv(g, states, c, tokens)
    requires it in Run(g, Read(c)) && Complete(it) && it.p.lhs == NEW_START && NextSymbol(c) == HASH
    ensures c.rest == [] && c.syms == [HASH, g.start] && Derives(g, [g.start], tokens)
  {
    hide Run, Derives;
    RunAccepts(g, Read(c), it);
    assert c.rest == [];
    assert tokens[..|tokens|] == tokens;
    assert c.syms == [HASH] + Read(c);
  }

  /**
   * One step: the invariant is kept, the parser does not get stuck, a reduction pops exactly the
   * right side of its production, and acceptance proves the tokens to be a sentence.
   */
  lemma StepIsSafe(g: Grammar, states: seq<set<Item>>, toState: seq<seq<int>>, actions: seq<seq<Action>>,
                   gotos: seq<seq<int>>, c: Config, tokens: seq<Symbol>)
    requires WellFormed(g) && Fresh(g) && IsTable(g, states, toState, actions, gotos) && Inv(g, states, c, tokens)
    ensures !Next(g, actions, gotos, c).Stuck?
    ensures Next(g, actions, gotos, c).Running? ==> Inv(g, states, Next(g, actions, gotos, c).c, tokens)
    ensures Next(g, actions, gotos, c).Accepted? ==>
              c.rest == [] && c.syms == [HASH, g.start] && Derives(g, [g.start], tokens)
  {
    hide Run, AllItems, Derives, IsTable, OnPath, WellFormed, Augmented;
    TopAction(g, states, toState, actions, gotos, c);
    var row := toState[c.states[|c.states| - 1]];
    var act := actions[c.states[|c.states| - 1]][Column(g, NextSymbol(c))];
    if act != Error {
      var it :| it in Run(g, Read(c)) && Wants(g, row, it, NextSymbol(c)) == act;
      ItemIsItem(Augmented(g), it);
      match act
      case Shift(t) => ShiftKeeps(g, states, toState, actions, gotos, c, tokens, it);
      case Reduce(j) => ReduceKeeps(g, states, toState, actions, gotos, c, tokens, it);
      case Accept => AcceptMeans(g, states, c, tokens, it);
    }
  }

  lemma StartHolds(g: Grammar, states: seq<set<Item>>, toState: seq<seq<int>>, actions: seq<seq<Action>>,
                   gotos: seq<seq<int>>, tokens: seq<Symbol>)
    requires WellFormed(g) && Fresh(g) && IsTable(g, states, toState, actions, gotos) && Over(tokens, g.vt)
    ensures Inv(g, states, Start(tokens), tokens)
  {
    hide Run, Derives, Reaches, RightRows, Distinct, ActionRow, GotoRow, AllItems, WellFormed;
    DerivesItself(g, []);
    assert Read(Start(tokens)) == [] && tokens[..0] == [];
    assert tokens[|tokens| - |tokens|..] == tokens;
    assert Read(Start(tokens))[..0] == [];
  }

  /** Any number of steps from a configuration in the invariant: never stuck, and sound. */
  lemma {:induction false} StepsAreSafe(g: Grammar, states: seq<set<Item>>, toState: seq<seq<int>>, actions: seq<seq<Action>>,
                                        gotos: seq<seq<int>>, c: Config, tokens: seq<Symbol>, n: nat)
    requires WellFormed(g) && Fresh(g) && IsTable(g, states, toState, actions, gotos) && Inv(g, states, c, tokens)
    ensures var o := Steps(g, actions, gotos, Running(c), n);
            && !o.Stuck?
            && (o.Running? ==> Inv(g, states, o.c, tokens))
            && (o.Accepted? ==> Derives(g, [g.start], tokens))
    decreases n
  {
    hide IsTable, Inv, Next, Derives;
    if n > 0 {
      StepIsSafe(g, states, toState, actions, gotos, c, tokens);
      var o := Next(g, actions, gotos, c);
      if o.Running? {
        StepsAreSafe(g, states, toState, actions, gotos, o.c, tokens, n - 1);
      }
    }
  }

  /**
   * Soundness, for every grammar and every order in which items were written into the tables: in
   * every run the stacks are on a path of the automaton, and what is accepted is a sentence.
   */
  lemma ParserIsSound(g: Grammar, states: seq<set<Item>>, toState: seq<seq<int>>, actions: seq<seq<Action>>,
                      gotos: seq<seq<int>>, tokens: seq<Symbol>, n: nat)
    requires WellFormed(g) && Fresh(g) && IsTable(g, states, toState, actions, gotos) && Over(tokens, g.vt)
    ensures var o := Steps(g, actions, gotos, Running(Start(tokens)), n);
            && !o.Stuck?
            && (o.Running? ==> OnPath(g, states, o.c))
            && (o.Accepted? ==> Derives(g, [g.start], tokens))
  {
    StartHolds(g, states, toState, actions, gotos, tokens);
    StepsAreSafe(g, states, toState, actions, gotos, Start(tokens), tokens, n);
  }

  // ----- completeness -----

  /** No state holds two items that ask for different actions on the same terminal. */
  ghost predicate ConflictFree(g: Grammar, states: seq<set<Item>>, toState: seq<seq<int>>)
    requires WellFormed(g) && Fresh(g) && IsDfa(g, states, toState)
  {
    StatesAreItems(g, states, toState);
    forall i, k, a, b :: 0 <= i < |states| && 0 <= k <= |g.vt| && a in states[i] && b in states[i] ==>
      Wants(g, toState[i], a, Terminal(g, k)) == Error || Wants(g, toState[i], b, Terminal(g, k)) == Error ||
      Wants(g, toState[i], a, Terminal(g, k)) == Wants(g, toState[i], b, Terminal(g, k))
  }

  /** Without conflicts, what any item of the top state asks for is what is done. */
  lemma OnlyAction(g: Grammar, states: seq<set<Item>>, toState: seq<seq<int>>, actions: seq<seq<Action>>,
                   gotos: seq<seq<int>>, c: Config, it: Item)
    requires WellFormed(g) && Fresh(g) && IsTable(g, states, toState, actions, gotos)
    requires ConflictFree(g, states, toState)
    requires OnPath(g, states, c) && Over(c.rest, g.vt)
    requires it in Run(g, Read(c)) && it in AllItems(Augmented(g)) && c.states[|c.states| - 1] < |toState|
    requires Wants(g, toState[c.states[|c.states| - 1]], it, NextSymbol(c)) != Error
    ensures c.states[|c.states| - 1] < |actions| && Column(g, NextSymbol(c)) < |actions[c.states[|c.states| - 1]]|
    ensures actions[c.states[|c.states| - 1]][Column(g, NextSymbol(c))] ==
            Wants(g, toState[c.states[|c.states| - 1]], it, NextSymbol(c))
  {
    hide Run, AllItems, Wants, IsDfa, ActionRow, GotoRow;
    TopAction(g, states, toState, actions, gotos, c);
    ColumnOf(g, NextSymbol(c));
  }

  /** A symbol that an item waits for is shifted. */
  lemma ShiftStep(g: Grammar, states: seq<set<Item>>, toState: seq<seq<int>>, actions: seq<seq<Action>>,
                  gotos: seq<seq<int>>, c: Config, tokens: seq<Symbol>, it: Item) returns (d: Config)
    requires WellFormed(g) && Fresh(g) && IsTable(g, states, toState, actions, gotos) && Inv(g, states, c, tokens)
    requires ConflictFree(g, states, toState)
    requires it in Run(g, Read(c)) && c.rest != [] && NextIs(it, c.rest[0])
    ensures Next(g, actions, gotos, c) == Running(d) && Inv(g, states, d, tokens)
    ensures d.syms == c.syms + [c.rest[0]] && d.rest == c.rest[1..]
  {
    hide Run, AllItems, ConflictFree, Derives, IsDfa, ActionRow, GotoRow;
    var x, s := c.rest[0], c.states[|c.states| - 1];
    Top(g, states, c);
    RunIsItems(g, Read(c));
    StatesAreItems(g, states, toState);
    ItemIsItem(Augmented(g), it);
    assert x in Symbols(Augmented(g));
    TransitionIsRun(g, states, toState, Read(c), s, it, x);
    OnlyAction(g, states, toState, actions, gotos, c, it);
    StepIsSafe(g, states, toState, actions, gotos, c, tokens);
    d := Next(g, actions, gotos, c).c;
  }

  /** The right side of a production with a complete item on top is reduced, whatever comes next. */
  lemma ReduceStep(g: Grammar, states: seq<set<Item>>, toState: seq<seq<int>>, actions: seq<seq<Action>>,
                   gotos: seq<seq<int>>, c: Config, tokens: seq<Symbol>, it: Item) returns (d: Config)
    requires WellFormed(g) && Fresh(g) && IsTable(g, states, toState, actions, gotos) && Inv(g, states, c, tokens)
    requires ConflictFree(g, states, toState)
    requires it in Run(g, Read(c)) && Complete(it) && it.p.lhs != NEW_START
    ensures Next(g, actions, gotos, c) == Running(d) && Inv(g, states, d, tokens)
    ensures |it.p.rhs| < |c.syms| && d.syms == c.syms[..|c.syms| - |it.p.rhs|] + [it.p.lhs] && d.rest == c.rest
  {
    hide Run, AllItems, ConflictFree, Derives, IsDfa, ActionRow, GotoRow, Reduced;
    RunIsItems(g, Read(c));
    StatesAreItems(g, states, toState);
    ItemIsItem(Augmented(g), it);
    Top(g, states, c);
    OnlyAction(g, states, toState, actions, gotos, c, it);
    ReduceKeeps(g, states, toState, actions, gotos, c, tokens, it);
    d := Next(g, actions, gotos, c).c;
  }

  lemma OneMoreStep(g: Grammar, actions: seq<seq<Action>>, gotos: seq<seq<int>>, c: Config, d: Config, e: Config, n: nat)
    requires Next(g, actions, gotos, c) == Running(d) && Steps(g, actions, gotos, Running(d), n) == Running(e)
    ensures Steps(g, actions, gotos, Running(c), n + 1) == Running(e)
  {
  }

  /** The item still waits, its dot at pos, for the given symbols. */
  predicate WaitsFor(it: Item, v: seq<Symbol>) {
    it.pos + |v| <= |it.p.rhs| && it.p.rhs[it.pos..it.pos + |v|] == v
  }

  /**
   * Where an item waits for the roots of a parse forest and the forest's yield comes next in the
   * input, the parser reads exactly that yield and leaves exactly those roots on the stack, in one
   * step for each leaf and each node of the forest.
   */
  lemma {:induction false} ForestIsParsed(g: Grammar, states: seq<set<Item>>, toState: seq<seq<int>>, actions: seq<seq<Action>>,
                                          gotos: seq<seq<int>>, c: Config, tokens: seq<Symbol>,
                                          it: Item, f: Forest, more: seq<Symbol>) returns (n: nat, d: Config)
    requires WellFormed(g) && Fresh(g) && IsTable(g, states, toState, actions, gotos) && Inv(g, states, c, tokens)
    requires ConflictFree(g, states, toState)
    requires Grown(g, f) && it in Run(g, Read(c)) && WaitsFor(it, Roots(f)) && c.rest == Yield(f) + more
    ensures Steps(g, actions, gotos, Running(c), n) == Running(d) && Inv(g, states, d, tokens)
    ensures d.syms == c.syms + Roots(f) && d.rest == more && n == Count(f)
    decreases f, 1
  {
    hide *;
    ForestParts(g, f);
    match f
    case Nil =>
      n, d := 0, c;
      NoSteps(g, actions, gotos, c);
      assert c.syms + [] == c.syms;
    case Leaf(a, rest) =>
      LeafNext(it, a, rest, c.rest, more);
      var c1 := ShiftStep(g, states, toState, actions, gotos, c, tokens, it);
      WaitsAfter(g, states, c, c1, tokens, it, a, Roots(rest));
      var m;
      m, d := ForestIsParsed(g, states, toState, actions, gotos, c1, tokens, Advance(it), rest, more);
      OneMoreStep(g, actions, gotos, c, c1, d, m);
      n := m + 1;
      Regroup(c.syms, [a], Roots(rest));
    case Node(p, kids, rest) =>
      Regroup(Yield(kids), Yield(rest), more);
      NodeNext(it, p, rest);
      var m1, c2 := TreeIsParsed(g, states, toState, actions, gotos, c, tokens, it, p, kids, Yield(rest) + more);
      WaitsAfter(g, states, c, c2, tokens, it, p.lhs, Roots(rest));
      var m2;
      m2, d := ForestIsParsed(g, states, toState, actions, gotos, c2, tokens, Advance(it), rest, more);
      StepsAdd(g, actions, gotos, Running(c), m1, m2);
      n := m1 + m2;
      Regroup(c.syms, [p.lhs], Roots(rest));
  }

  lemma ForestParts(g: Grammar, f: Forest)
    requires Grown(g, f)
    ensures f.Nil? ==> Roots(f) == Yield(f) == [] && Count(f) == 0
    ensures f.Leaf? ==>
              && f.a.Vt? && Grown(g, f.rest) && Count(f) == 1 + Count(f.rest)
              && Roots(f) == [f.a] + Roots(f.rest) && Yield(f) == [f.a] + Yield(f.rest)
    ensures f.Node? ==>
              && f.p in g.prods && Roots(f.kids) == f.p.rhs && Grown(g, f.kids) && Grown(g, f.rest)
              && Roots(f) == [f.p.lhs] + Roots(f.rest) && Yield(f) == Yield(f.kids) + Yield(f.rest)
              && Count(f) == 1 + Count(f.kids) + Count(f.rest)
  {
  }

  lemma NoSteps(g: Grammar, actions: seq<seq<Action>>, gotos: seq<seq<int>>, c: Config)
    ensures Steps(g, actions, gotos, Running(c), 0) == Running(c)
  {
  }

  lemma LeafNext(it: Item, a: Symbol, rest: Forest, input: seq<Symbol>, more: seq<Symbol>)
    requires WaitsFor(it, [a] + Roots(rest)) && input == [a] + Yield(rest) + more
    ensures input != [] && input[0] == a && NextIs(it, a) && input[1..] == Yield(rest) + more
  {
    assert it.p.rhs[it.pos..it.pos + |[a] + Roots(rest)|][0] == a;
  }

  lemma NodeNext(it: Item, p: Production, rest: Forest)
    requires WaitsFor(it, [p.lhs] + Roots(rest))
    ensures NextIs(it, p.lhs)
  {
    assert it.p.rhs[it.pos..it.pos + |[p.lhs] + Roots(rest)|][0] == p.lhs;
  }

  /** One tree whose root an item waits for: its subtrees are read and its production is reduced. */
  lemma {:induction false} TreeIsParsed(g: Grammar, states: seq<set<Item>>, toState: seq<seq<int>>, actions: seq<seq<Action>>,
                                        gotos: seq<seq<int>>, c: Config, tokens: seq<Symbol>,
                                        it: Item, p: Production, kids: Forest, more: seq<Symbol>) returns (n: nat, d: Config)
    requires WellFormed(g) && Fresh(g) && IsTable(g, states, toState, actions, gotos) && Inv(g, states, c, tokens)
    requires ConflictFree(g, states, toState)
    requires p in g.prods && Roots(kids) == p.rhs && Grown(g, kids) && it in Run(g, Read(c)) && NextIs(it, p.lhs)
    requires c.rest == Yield(kids) + more
    ensures Steps(g, actions, gotos, Running(c), n) == Running(d) && Inv(g, states, d, tokens)
    ensures d.syms == c.syms + [p.lhs] && d.rest == more && n == Count(kids) + 1
    decreases kids, 2
  {
    hide Run, Inv, IsTable, ConflictFree, Next, WellFormed, Fresh, AllItems, Augmented, Yield, Grown, Roots, Count;
    ItemAwaited(g, Read(c), it, p);
    assert p.rhs[0..|p.rhs|] == p.rhs;
    var m, c1 := ForestIsParsed(g, states, toState, actions, gotos, c, tokens, Item(p, 0), kids, more);
    KidsAreRead(g, states, c, c1, tokens, p);
    d := ReduceStep(g, states, toState, actions, gotos, c1, tokens, Item(p, |p.rhs|));
    StepsAdd(g, actions, gotos, Running(c), m, 1);
    n := m + 1;
  }

  lemma WaitsAfter(g: Grammar, states: seq<set<Item>>, c: Config, d: Config, tokens: seq<Symbol>, it: Item, x: Symbol, v: seq<Symbol>)
    requires Inv(g, states, c, tokens) && Inv(g, states, d, tokens) && d.syms == c.syms + [x]
    requires it in Run(g, Read(c)) && WaitsFor(it, [x] + v)
    ensures Advance(it) in Run(g, Read(d)) && WaitsFor(Advance(it), v)
  {
    hide Run, Derived;
    assert Read(d) == Read(c) + [x];
    assert it.p.rhs[it.pos..it.pos + |[x] + v|][0] == x;
    assert it.p.rhs[it.pos + 1..it.pos + 1 + |v|] == it.p.rhs[it.pos..it.pos + |[x] + v|][1..];
    RunAdvances(g, Read(c), it, x);
  }

  /** With the right side of p read from where p's item was awaited, the item is complete. */
  lemma KidsAreRead(g: Grammar, states: seq<set<Item>>, c: Config, d: Config, tokens: seq<Symbol>, p: Production)
    requires WellFormed(g) && Fresh(g) && p in g.prods
    requires Inv(g, states, c, tokens) && Inv(g, states, d, tokens) && d.syms == c.syms + p.rhs
    requires Item(p, 0) in Run(g, Read(c))
    ensures Item(p, |p.rhs|) in Run(g, Read(d)) && p.lhs != NEW_START
    ensures |c.syms| > 0 && d.syms[..|d.syms| - |p.rhs|] == c.syms
  {
    hide Run, Derived;
    assert Read(d) == Read(c) + p.rhs;
    assert p.rhs[0..0 + |p.rhs|] == p.rhs;
    RunAdvancesBy(g, Read(c), Item(p, 0), p.rhs);
  }

  /** With the start symbol alone on the stack and the input at its end, the next step accepts. */
  lemma AcceptStep(g: Grammar, states: seq<set<Item>>, toState: seq<seq<int>>, actions: seq<seq<Action>>,
                   gotos: seq<seq<int>>, c: Config, tokens: seq<Symbol>)
    requires WellFormed(g) && Fresh(g) && IsTable(g, states, toState, actions, gotos) && Inv(g, states, c, tokens)
    requires ConflictFree(g, states, toState) && Read(c) == [g.start] && c.rest == []
    ensures Next(g, actions, gotos, c) == Accepted
  {
    hide Run, IsDfa, ActionRow, GotoRow, ConflictFree, Derived, AllItems;
    StartIsFound(g);
    StatesAreItems(g, states, toState);
    RunAdvances(g, [], StartItem(g), g.start);
    assert [] + [g.start] == [g.start];
    RunIsItems(g, Read(c));
    Top(g, states, c);
    OnlyAction(g, states, toState, actions, gotos, c, Advance(StartItem(g)));
  }

  /** Completeness: over tables without conflicts every sentence is accepted. */
  lemma ParserIsComplete(g: Grammar, states: seq<set<Item>>, toState: seq<seq<int>>, actions: seq<seq<Action>>,
                         gotos: seq<seq<int>>, tokens: seq<Symbol>) returns (n: nat)
    requires WellFormed(g) && Fresh(g) && IsTable(g, states, toState, actions, gotos) && Over(tokens, g.vt)
    requires ConflictFree(g, states, toState) && Derives(g, [g.start], tokens)
    ensures Steps(g, actions, gotos, Running(Start(tokens)), n) == Accepted
  {
    hide Run, Derives, IsTable, ConflictFree, Grown, Inv, AllItems, Next;
    StartHolds(g, states, toState, actions, gotos, tokens);
    var f := DerivesHasForest(g, [g.start], tokens);
    var it := StartItem(g);
    StartIsFound(g);
    assert it.p.rhs[0..1] == [g.start] && Yield(f) + [] == tokens && Read(Start(tokens)) == [];
    var m, d := ForestIsParsed(g, states, toState, actions, gotos, Start(tokens), tokens, it, f, []);
    assert Read(d) == [g.start];
    AcceptStep(g, states, toState, actions, gotos, d, tokens);
    StepsAdd(g, actions, gotos, Running(Start(tokens)), m, 1);
    n := m + 1;
  }

  /** Over tables without conflicts the parser accepts in some number of steps exactly the sentences. */
  lemma ParserDecidesLanguage(g: Grammar, states: seq<set<Item>>, toState: seq<seq<int>>, actions: seq<seq<Action>>,
                              gotos: seq<seq<int>>, tokens: seq<Symbol>)
    requires WellFormed(g) && Fresh(g) && IsTable(g, states, toState, actions, gotos) && Over(tokens, g.vt)
    requires ConflictFree(g, states, toState)
    ensures (exists n :: Steps(g, actions, gotos, Running(Start(tokens)), n) == Accepted) <==> Derives(g, [g.start], tokens)
  {
    hide IsTable, ConflictFree, Derives, WellFormed;
    if Derives(g, [g.start], tokens) {
      var n := ParserIsComplete(g, states, toState, actions, gotos, tokens);
    } else if n :| Steps(g, actions, gotos, Running(Start(tokens)), n) == Accepted {
      ParserIsSound(g, states, toState, actions, gotos, tokens, n);
    }
  }
}
