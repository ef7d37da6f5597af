/**
 * The LR(0) generator: it augments a grammar, builds the automaton of item sets by a worklist over
 * numbered states, and fills the ACTION and GOTO tables from the items of each state. An ordered
 * container of items is a set here, walked in an arbitrary order: container order is pointer order
 * in the source, so nothing may depend on it.
 */
module LrTables {
  import opened Sequences
  import opened Grammars
  import opened LrItems

  datatype Action = Shift(state: nat) | Reduce(idx: nat) | Accept | Error

  // ----- specification: the automaton -----

  ghost predicate Reaches(g: Grammar, items: set<Item>) {
    exists w :: Over(w, Symbols(Augmented(g))) && Run(g, w) == items && items != {}
  }

  /** Entry t of a transition row is right for going from one item set on a symbol. */
  ghost predicate GoesTo(g: Grammar, states: seq<set<Item>>, items: set<Item>, x: Symbol, t: int) {
    if Goto(Augmented(g), items, x) == {} then t == -1
    else 0 <= t < |states| && states[t] == Goto(Augmented(g), items, x)
  }

  ghost predicate RightRow(g: Grammar, states: seq<set<Item>>, items: set<Item>, row: seq<int>) {
    |row| <= |Symbols(Augmented(g))| &&
    forall j {:trigger row[j]} :: 0 <= j < |row| ==> GoesTo(g, states, items, Symbols(Augmented(g))[j], row[j])
  }

  /** The states are pairwise different, all reachable, and the first is the start state. */
  ghost predicate Collected(g: Grammar, states: seq<set<Item>>) {
    && |states| > 0 && states[0] == Run(g, [])
    && Distinct(states)
    && forall s :: s in states ==> Reaches(g, s)
  }

  ghost predicate RightRows(g: Grammar, states: seq<set<Item>>, toState: seq<seq<int>>) {
    |toState| <= |states| &&
    forall i {:trigger toState[i]} :: 0 <= i < |toState| ==>
      |toState[i]| == |Symbols(Augmented(g))| && RightRow(g, states, states[i], toState[i])
  }

  /** States and transitions are exactly the automaton of item sets. */
  ghost predicate IsDfa(g: Grammar, states: seq<set<Item>>, toState: seq<seq<int>>) {
    Collected(g, states) && |toState| == |states| && RightRows(g, states, toState)
  }

  lemma SymbolColumns(g: Grammar)
    requires WellFormed(g) && Fresh(g)
    ensures Distinct(Symbols(Augmented(g)))
  {
    AugmentedIsWellFormed(g);
    var a := Augmented(g);
    forall i, j | 0 <= i < j < |Symbols(a)| ensures Symbols(a)[i] != Symbols(a)[j] {
      if i < |a.vn| <= j {
        assert a.vn[i].Vn? && a.vt[j - |a.vn|].Vt?;
      }
    }
  }

  lemma IndexIs<T>(s: seq<T>, i: nat)
    requires Distinct(s) && i < |s|
    ensures IndexOf(s, s[i]) == i
  {
  }

  /** Different states that are all sets of items: the worklist cannot grow for ever. */
  lemma StatesAreBounded(g: Grammar, states: seq<set<Item>>)
    requires Collected(g, states)
    ensures forall s :: s in states ==> s <= AllItems(Augmented(g))
  {
    hide Run;
    forall s | s in states ensures s <= AllItems(Augmented(g)) {
      var w :| Over(w, Symbols(Augmented(g))) && Run(g, w) == s && s != {};
      RunIsItems(g, w);
    }
  }

  ghost function Sets(items: set<Item>): set<set<Item>> {
    set s | s <= items
  }

  /** Entries stay right when a state is added. */
  lemma RowsStayRight(g: Grammar, states: seq<set<Item>>, more: set<Item>, items: set<Item>, row: seq<int>)
    requires RightRow(g, states, items, row)
    ensures RightRow(g, states + [more], items, row)
  {
    hide Goto, Augmented;
    forall j | 0 <= j < |row| ensures GoesTo(g, states + [more], items, Symbols(Augmented(g))[j], row[j]) {
      assert GoesTo(g, states, items, Symbols(Augmented(g))[j], row[j]);
    }
  }

  lemma RowBegins(g: Grammar, states: seq<set<Item>>, items: set<Item>)
    ensures RightRow(g, states, items, [])
  {
  }

  lemma RowGrows(g: Grammar, states: seq<set<Item>>, items: set<Item>, row: seq<int>, t: int)
    requires RightRow(g, states, items, row) && |row| < |Symbols(Augmented(g))|
    requires GoesTo(g, states, items, Symbols(Augmented(g))[|row|], t)
    ensures RightRow(g, states, items, row + [t])
  {
    hide GoesTo, Augmented;
  }

  /** A state reached from a state over a symbol of the grammar is reachable. */
  lemma ReachesOn(g: Grammar, items: set<Item>, x: Symbol)
    requires Reaches(g, items) && x in Symbols(Augmented(g)) && Goto(Augmented(g), items, x) != {}
    ensures Reaches(g, Goto(Augmented(g), items, x))
  {
    var w :| Over(w, Symbols(Augmented(g))) && Run(g, w) == items && items != {};
    RunExtends(g, w, x);
    assert Over(w + [x], Symbols(Augmented(g)));
  }

  lemma StartReaches(g: Grammar)
    ensures Reaches(g, Run(g, []))
  {
    StartIsItem(g);
    ClosureIsLeast(Augmented(g), {StartItem(g)});
    assert Over([], Symbols(Augmented(g)));
  }

  /** From a state, a symbol leads to the state its transition entry names. */
  lemma DfaGoes(g: Grammar, states: seq<set<Item>>, toState: seq<seq<int>>, i: nat, x: Symbol)
    requires IsDfa(g, states, toState) && i < |states| && x in Symbols(Augmented(g))
    ensures GoesTo(g, states, states[i], x, toState[i][IndexOf(Symbols(Augmented(g)), x)])
  {
    hide Collected, GoesTo;
  }

  /** Every reachable item set is among the states, so the states are exactly the reachable ones. */
  lemma {:induction false} DfaIsComplete(g: Grammar, states: seq<set<Item>>, toState: seq<seq<int>>, w: seq<Symbol>)
    requires IsDfa(g, states, toState) && Over(w, Symbols(Augmented(g))) && Run(g, w) != {}
    ensures Run(g, w) in states
    decreases |w|
  {
    if w != [] {
      var v, x := w[..|w| - 1], w[|w| - 1];
      assert w == v + [x];
      RunGoesOn(g, v, x);
      DfaIsComplete(g, states, toState, v);
      var i :| 0 <= i < |states| && states[i] == Run(g, v);
      DfaGoes(g, states, toState, i, x);
    }
  }

  /** The states of the automaton are exactly the reachable non-empty item sets. */
  lemma DfaStates(g: Grammar, states: seq<set<Item>>, toState: seq<seq<int>>, items: set<Item>)
    requires IsDfa(g, states, toState)
    ensures items in states <==> Reaches(g, items)
  {
    if Reaches(g, items) {
      var w :| Over(w, Symbols(Augmented(g))) && Run(g, w) == items && items != {};
      DfaIsComplete(g, states, toState, w);
    }
  }

  /** A new reachable state at the end of the list spoils nothing. */
  lemma AddState(g: Grammar, states: seq<set<Item>>, done: seq<seq<int>>, i: nat, row: seq<int>, x: Symbol)
    requires Collected(g, states) && RightRows(g, states, done) && i < |states| && RightRow(g, states, states[i], row)
    requires x in Symbols(Augmented(g))
    requires Goto(Augmented(g), states[i], x) != {} && Goto(Augmented(g), states[i], x) !in states
    ensures Collected(g, states + [Goto(Augmented(g), states[i], x)])
    ensures RightRows(g, states + [Goto(Augmented(g), states[i], x)], done)
    ensures RightRow(g, states + [Goto(Augmented(g), states[i], x)], states[i], row)
  {
    hide Goto, Run, Reaches, RightRow;
    var more := Goto(Augmented(g), states[i], x);
    ReachesOn(g, states[i], x);
    RowsStayRight(g, states, more, states[i], row);
    forall k | 0 <= k < |done| ensures RightRow(g, states + [more], states[k], done[k]) {
      RowsStayRight(g, states, more, states[k], done[k]);
    }
  }

  // ----- specification: the tables -----

  /** The terminal heading column k of the ACTION table; the last column is the end mark's. */
  function Terminal(g: Grammar, k: nat): Symbol
    requires k <= |g.vt|
  {
    if k < |g.vt| then g.vt[k] else HASH
  }

  /** What an item of a state asks to be done when the next terminal is a; Error when it asks nothing. */
  function Wants(g: Grammar, row: seq<int>, it: Item, a: Symbol): Action
    requires WellFormed(g) && Fresh(g) && it in AllItems(Augmented(g))
    requires |row| == |Symbols(Augmented(g))|
  {
    if Complete(it) then
      if it.p.lhs != NEW_START then Reduce(IndexOf(Augmented(g).prods, it.p))
      else if a == HASH then Accept
      else Error
    else
      var x := it.p.rhs[it.pos];
      assert x in Symbols(Augmented(g)) by { AugmentedIsWellFormed(g); }
      var t := row[IndexOf(Symbols(Augmented(g)), x)];
      if x == a && t >= 0 then Shift(t) else Error
  }

  /** The cell is filled with something an item asks for, and is an error only if no item asks. */
  ghost predicate Justified(g: Grammar, row: seq<int>, items: set<Item>, a: Symbol, cell: Action)
    requires WellFormed(g) && Fresh(g) && items <= AllItems(Augmented(g))
    requires |row| == |Symbols(Augmented(g))|
  {
    if cell == Error then forall it :: it in items ==> Wants(g, row, it, a) == Error
    else exists it :: it in items && Wants(g, row, it, a) == cell
  }

  /** One row of the ACTION table as far as the given items have been seen. */
  ghost predicate ActionRow(g: Grammar, row: seq<int>, items: set<Item>, actions: seq<Action>)
    requires WellFormed(g) && Fresh(g) && items <= AllItems(Augmented(g))
    requires |row| == |Symbols(Augmented(g))|
  {
    |actions| == |g.vt| + 1 &&
    forall k {:trigger actions[k]} :: 0 <= k <= |g.vt| ==> Justified(g, row, items, Terminal(g, k), actions[k])
  }

  ghost predicate GotoRow(g: Grammar, row: seq<int>, items: set<Item>, gotos: seq<int>)
    requires |row| == |Symbols(Augmented(g))|
  {
    |gotos| == |Augmented(g).vn| &&
    forall j {:trigger gotos[j]} :: 0 <= j < |gotos| ==>
      gotos[j] == if exists it :: it in items && NextIs(it, Augmented(g).vn[j]) then row[j] else -1
  }

  ghost predicate IsTable(g: Grammar, states: seq<set<Item>>, toState: seq<seq<int>>,
                          actions: seq<seq<Action>>, gotos: seq<seq<int>>)
    requires WellFormed(g) && Fresh(g)
  {
    && IsDfa(g, states, toState)
    && |actions| == |gotos| == |states|
    && (forall i {:trigger states[i]} :: 0 <= i < |states| ==> states[i] <= AllItems(Augmented(g)))
    && (forall i {:trigger actions[i]} :: 0 <= i < |states| ==> ActionRow(g, toState[i], states[i], actions[i]))
    && (forall i {:trigger gotos[i]} :: 0 <= i < |states| ==> GotoRow(g, toState[i], states[i], gotos[i]))
  }

  /** Where one more item writes over a cell what it asks for, the cell stays justified. */
  lemma CellStaysJustified(g: Grammar, row: seq<int>, seen: set<Item>, it: Item, a: Symbol, before: Action, after: Action)
    requires WellFormed(g) && Fresh(g) && seen + {it} <= AllItems(Augmented(g))
    requires |row| == |Symbols(Augmented(g))|
    requires Justified(g, row, seen, a, before)
    requires after == if Wants(g, row, it, a) == Error then before else Wants(g, row, it, a)
    ensures Justified(g, row, seen + {it}, a, after)
  {
    hide Wants;
    if after == before && before != Error {
      var w :| w in seen && Wants(g, row, w, a) == before;
      assert w in seen + {it};
    }
  }

  /** The terminals heading the columns of the ACTION table. */
  lemma TerminalColumns(g: Grammar, k: nat)
    requires WellFormed(g) && Fresh(g) && k <= |g.vt|
    ensures Terminal(g, k).Vt? && (Terminal(g, k) == HASH <==> k == |g.vt|)
    ensures forall j :: 0 <= j < |g.vt| ==> (Terminal(g, k) == g.vt[j] <==> k == j)
  {
  }

  /** What the ACTION row must be after one more item. */
  lemma ActionRowGrows(g: Grammar, row: seq<int>, seen: set<Item>, it: Item, before: seq<Action>, after: seq<Action>)
    requires WellFormed(g) && Fresh(g) && seen + {it} <= AllItems(Augmented(g))
    requires |row| == |Symbols(Augmented(g))|
    requires ActionRow(g, row, seen, before) && |after| == |before|
    requires forall k :: 0 <= k <= |g.vt| ==>
               after[k] == if Wants(g, row, it, Terminal(g, k)) == Error then before[k] else Wants(g, row, it, Terminal(g, k))
    ensures ActionRow(g, row, seen + {it}, after)
  {
    hide Wants, Justified;
    forall k | 0 <= k <= |g.vt| ensures Justified(g, row, seen + {it}, Terminal(g, k), after[k]) {
      CellStaysJustified(g, row, seen, it, Terminal(g, k), before[k], after[k]);
    }
  }

  lemma GotoRowGrows(g: Grammar, row: seq<int>, seen: set<Item>, it: Item, before: seq<int>, after: seq<int>)
    requires |row| == |Symbols(Augmented(g))| && GotoRow(g, row, seen, before) && |after| == |before|
    requires forall j :: 0 <= j < |after| ==> after[j] == if NextIs(it, Augmented(g).vn[j]) then row[j] else before[j]
    ensures GotoRow(g, row, seen + {it}, after)
  {
    hide Augmented, NextIs;
    forall j | 0 <= j < |after|
      ensures after[j] == if exists i :: i in seen + {it} && NextIs(i, Augmented(g).vn[j]) then row[j] else -1
    {
      if NextIs(it, Augmented(g).vn[j]) {
        assert it in seen + {it};
      } else if i :| i in seen && NextIs(i, Augmented(g).vn[j]) {
        assert i in seen + {it};
      }
    }
  }

  lemma RowIsFull(g: Grammar, states: seq<set<Item>>, toState: seq<seq<int>>, i: nat)
    requires IsDfa(g, states, toState) && i < |states|
    ensures |toState| == |states| && |toState[i]| == |Symbols(Augmented(g))|
    ensures forall j :: 0 <= j < |toState[i]| ==> toState[i][j] >= -1
  {
    forall j | 0 <= j < |toState[i]| ensures toState[i][j] >= -1 {
      assert GoesTo(g, states, states[i], Symbols(Augmented(g))[j], toState[i][j]);
    }
  }

  lemma StatesAreItems(g: Grammar, states: seq<set<Item>>, toState: seq<seq<int>>)
    requires IsDfa(g, states, toState)
    ensures |toState| == |states|
    ensures forall i :: 0 <= i < |states| ==> states[i] <= AllItems(Augmented(g)) && |toState[i]| == |Symbols(Augmented(g))|
  {
    StatesAreBounded(g, states);
  }

  lemma RowLengths(g: Grammar, row: seq<int>, items: set<Item>, actions: seq<Action>, gotos: seq<int>)
    requires WellFormed(g) && Fresh(g) && items <= AllItems(Augmented(g)) && |row| == |Symbols(Augmented(g))|
    requires ActionRow(g, row, items, actions) && GotoRow(g, row, items, gotos)
    ensures |actions| == |g.vt| + 1 && |gotos| == |Augmented(g).vn|
  {
  }

  function ErrorRow(n: nat): seq<Action> {
    seq(n, _ => Error)
  }

  function EmptyRow(n: nat): seq<int> {
    seq(n, _ => -1)
  }

  /** A complete item, or one with a terminal next, does not wait for a nonterminal. */
  lemma NothingNext(g: Grammar, it: Item)
    requires WellFormed(g) && Fresh(g) && it.pos <= |it.p.rhs|
    requires Complete(it) || it.p.rhs[it.pos].Vt?
    ensures forall j :: 0 <= j < |Augmented(g).vn| ==> !NextIs(it, Augmented(g).vn[j])
  {
    AugmentedIsWellFormed(g);
    forall j | 0 <= j < |Augmented(g).vn| ensures !NextIs(it, Augmented(g).vn[j]) {
      assert Augmented(g).vn[j].Vn?;
    }
  }

  lemma ItemIsItem(g: Grammar, it: Item)
    requires it in AllItems(g)
    ensures it.p in g.prods && it.pos <= |it.p.rhs|
  {
  }

  /** Before any item has been looked at, a row of errors and a row of -1 are right. */
  lemma RowsBegin(g: Grammar, row: seq<int>)
    requires WellFormed(g) && Fresh(g) && |row| == |Symbols(Augmented(g))|
    ensures ActionRow(g, row, {}, ErrorRow(|g.vt| + 1)) && GotoRow(g, row, {}, EmptyRow(|Augmented(g).vn|))
  {
  }

  // ----- the generator -----

  class Generator {
    var g: Grammar
    ghost const given: Grammar
    var allItems: set<Item>
    var startItem: Item
    var states: seq<set<Item>>
    var toState: seq<seq<int>>
    var actions: seq<seq<Action>>
    var gotos: seq<seq<int>>

    constructor (grammar: Grammar)
      ensures g == given == grammar
    {
      g, given := grammar, grammar;
      allItems, states, toState, actions, gotos := {}, [], [], [], [];
      startItem := Item(Production(grammar.start, []), 0);
    }

    /** The grammar has been augmented and its items made. */
    ghost predicate Prepared()
      reads this
    {
      && WellFormed(given) && Fresh(given)
      && g == Augmented(given) && allItems == AllItems(g) && startItem == StartItem(given)
    }

    method MakeAllItems()
      requires WellFormed(g) && Fresh(g) && g == given
      modifies this
      ensures Prepared()
    {
      var newStart, oldStart := NEW_START, g.start;
      var p := Production(newStart, [oldStart]);
      g := Grammar(newStart, g.vn + [newStart], g.vt, g.prods + [p]);
      allItems := {};
      for i := 0 to |g.prods|
        invariant g == Augmented(given)
        invariant allItems == set q, k | q in g.prods[..i] && 0 <= k <= |q.rhs| :: Item(q, k)
        invariant i == |g.prods| ==> startItem == StartItem(given)
      {
        var q := g.prods[i];
        ghost var before := allItems;
        for j := 0 to |q.rhs| + 1
          invariant g == Augmented(given) && q == g.prods[i]
          invariant allItems == before + set k | 0 <= k < j :: Item(q, k)
          invariant j > 0 && q.lhs == NEW_START ==> startItem == Item(q, 0)
        {
          var item := Item(q, j);
          if item !in allItems {
            allItems := allItems + {item};
            if q.lhs == NEW_START && j == 0 {
              startItem := item;
            }
          }
        }
        assert g.prods[..i + 1] == g.prods[..i] + [q];
      }
      assert g.prods[..|g.prods|] == g.prods;
    }

    /** Puts into an item set the beginning items of what stands after the dot of one item. */
    method AddAwaited(item1: Item, itemSet: set<Item>) returns (result: set<Item>, changed: bool)
      requires allItems == AllItems(g) && WellFormed(g)
      ensures result == itemSet + Awaited(g, item1) && (changed <==> result != itemSet)
    {
      result, changed := itemSet, false;
      if item1.pos < |item1.p.rhs| && item1.p.rhs[item1.pos].Vn? {
        var toTry := allItems;
        while toTry != {}
          invariant toTry <= allItems && itemSet <= result <= itemSet + Awaited(g, item1)
          invariant changed <==> result != itemSet
          invariant Awaited(g, item1) - toTry <= result
        {
          var item2 :| item2 in toTry;
          toTry := toTry - {item2};
          if item2.p.lhs == item1.p.rhs[item1.pos] && item2.pos == 0 && item2 !in result {
            assert item2 == Item(item2.p, 0);
            result := result + {item2};
            changed := true;
          }
        }
      }
    }

    /**
     * Adds to an item set, until nothing changes, the beginning items of the nonterminals that
     * stand after a dot; every addition starts the walk over the set again.
     */
    method MakeItemSetClosure(itemSet: set<Item>) returns (result: set<Item>)
      requires allItems == AllItems(g) && itemSet <= allItems && WellFormed(g)
      ensures result == Closure(g, itemSet)
    {
      hide WellFormed, AllItems, Closed, Awaited;
      result := itemSet;
      var toVisit := result;
      while toVisit != {}
        invariant itemSet <= result <= allItems && toVisit <= result
        invariant forall s: set<Item> :: Closed(g, s) && itemSet <= s ==> result <= s
        invariant forall it :: it in result && it !in toVisit ==> Awaited(g, it) <= result
        decreases allItems - result, toVisit
      {
        var item1 :| item1 in toVisit;
        AwaitedIsItems(g, item1);
        forall s: set<Item> | Closed(g, s) && itemSet <= s ensures Awaited(g, item1) <= s {
          ClosedHasAwaited(g, s, item1);
        }
        var more, changed := AddAwaited(item1, result);
        result := more;
        if changed {
          toVisit := result;
        } else {
          toVisit := toVisit - {item1};
        }
      }
      AwaitedCloses(g, result);
      ClosureIsLeast(g, itemSet);
    }

    /** Moves the dot over x wherever x is next, and closes the result unless it is empty. */
    method MakeStateItemSet(itemSet: set<Item>, x: Symbol) returns (result: set<Item>)
      requires allItems == AllItems(g) && itemSet <= allItems && WellFormed(g)
      ensures result == Goto(g, itemSet, x)
    {
      result := {};
      var toVisit := itemSet;
      while toVisit != {}
        invariant toVisit <= itemSet && result == Kernel(itemSet - toVisit, x)
      {
        var item1 :| item1 in toVisit;
        KernelAdds(itemSet - toVisit, item1, x);
        toVisit := toVisit - {item1};
        assert itemSet - toVisit == itemSet - (toVisit + {item1}) + {item1};
        if item1.pos < |item1.p.rhs| && item1.p.rhs[item1.pos] == x {
          result := result + {Item(item1.p, item1.pos + 1)};
        }
      }
      assert itemSet - toVisit == itemSet;
      KernelIsItems(g, itemSet, x);
      if result != {} {
        result := MakeItemSetClosure(result);
      } else {
        ClosureOfNothing(g);
      }
    }

    method FindSameState(itemSet: set<Item>) returns (i: int)
      ensures if itemSet in states then 0 <= i < |states| && states[i] == itemSet else i == -1
    {
      i := 0;
      while i < |states|
        invariant 0 <= i <= |states| && itemSet !in states[..i]
      {
        if states[i] == itemSet {
          return;
        }
        i := i + 1;
      }
      i := -1;
    }

    /** Works out the transitions of state i over every symbol. */
    method FillRow(i: nat)
      requires Prepared() && i == |toState| < |states|
      requires Collected(given, states) && RightRows(given, states, toState)
      modifies `states, `toState
      ensures |toState| == i + 1 && old(states) <= states
      ensures Collected(given, states) && RightRows(given, states, toState)
    {
      hide Goto, Run, Reaches, RightRow;
      AugmentedIsWellFormed(given);
      var symbols := g.vn + g.vt;
      ghost var done := toState;
      toState := toState + [[]];
      RowBegins(given, states, states[i]);
      var j := 0;
      while j < |symbols|
        invariant 0 <= j <= |symbols| && |toState| == i + 1 && toState[..i] == done && old(states) <= states
        invariant Collected(given, states) && RightRows(given, states, done)
        invariant |toState[i]| == j && RightRow(given, states, states[i], toState[i])
      {
        StatesAreBounded(given, states);
        var next := MakeStateItemSet(states[i], symbols[j]);
        var t := -1;
        if next != {} {
          t := FindSameState(next);
          if t == -1 {
            t := |states|;
            AddState(given, states, done, i, toState[i], symbols[j]);
            states := states + [next];
          }
        }
        RowGrows(given, states, states[i], toState[i], t);
        toState := toState[i := toState[i] + [t]];
        j := j + 1;
      }
      assert toState == done + [toState[i]];
    }

    /**
     * Numbers the reachable item sets: the start set is state 0, and each state in turn is moved
     * over every symbol, a set not yet numbered becoming a new state at the end of the list.
     */
    method MakeDfa()
      requires Prepared()
      modifies `states, `toState
      ensures IsDfa(given, states, toState)
    {
      AugmentedIsWellFormed(given);
      StartIsItem(given);
      StartReaches(given);
      var symbols := g.vn + g.vt;
      var first := MakeItemSetClosure({startItem});
      states, toState := [first], [];
      ghost var sets := Sets(allItems);
      var i := 0;
      while i < |states|
        invariant 0 <= i == |toState| <= |states|
        invariant Collected(given, states) && RightRows(given, states, toState)
        decreases sets - (set s | s in states), |states| - i
      {
        ghost var before := states;
        FillRow(i);
        StatesAreBounded(given, states);
        assert Sets(allItems) == sets;
        if |before| < |states| {
          var s := states[|before|];
          assert s !in before && s in sets;
          assert s in sets - (set x | x in before) && s !in sets - (set x | x in states);
          assert sets - (set x | x in states) <= sets - (set x | x in before);
        } else {
          assert states == before;
        }
        i := i + 1;
      }
    }

    /** The state that state i goes to on a symbol, -1 for none. */
    method StateGo(from: nat, x: Symbol) returns (t: int)
      requires Prepared() && IsDfa(given, states, toState) && from < |states| && x in Symbols(g)
      ensures t == toState[from][IndexOf(Symbols(g), x)]
    {
      SymbolColumns(given);
      var symbols := g.vn + g.vt;
      var i := 0;
      while i < |symbols| && symbols[i] != x
        invariant 0 <= i <= |symbols| && x !in symbols[..i]
      {
        i := i + 1;
      }
      assert i < |symbols| by {
        assert symbols[..|symbols|] == symbols;
      }
      IndexIs(symbols, i);
      t := toState[from][i];
    }

    /** Writes what one complete item asks for over the ACTION row of its state. */
    method WriteComplete(row: seq<Action>, item: Item, ghost to: seq<int>) returns (result: seq<Action>)
      requires Prepared() && item in allItems && Complete(item)
      requires |row| == |given.vt| + 1 && |to| == |Symbols(g)|
      ensures |result| == |row|
      ensures forall k :: 0 <= k <= |given.vt| ==>
                result[k] == if Wants(given, to, item, Terminal(given, k)) == Error then row[k]
                             else Wants(given, to, item, Terminal(given, k))
    {
      result := row;
      forall k | 0 <= k <= |given.vt| ensures Terminal(given, k) == HASH <==> k == |given.vt| {
        TerminalColumns(given, k);
      }
      if item.p.lhs == g.start {
        result := result[|g.vt| := Accept];
      } else {
        var j := FindProduction(item.p);
        var k := 0;
        while k < |g.vt| + 1
          invariant 0 <= k <= |g.vt| + 1 && |result| == |row|
          invariant forall i :: 0 <= i < |row| ==> result[i] == if i < k then Reduce(j) else row[i]
        {
          result := result[k := Reduce(j)];
          k := k + 1;
        }
      }
    }

    method FindProduction(p: Production) returns (j: nat)
      requires p in g.prods
      ensures j == IndexOf(g.prods, p) && j < |g.prods|
    {
      j := 0;
      while g.prods[j] != p
        invariant 0 <= j < |g.prods| && p !in g.prods[..j]
        invariant IndexOf(g.prods, p) == j + IndexOf(g.prods[j..], p)
        decreases |g.prods| - j
      {
        assert g.prods[j..][1..] == g.prods[j + 1..];
        j := j + 1;
      }
    }

    /** Writes the shift that an item with a terminal next asks for. */
    method WriteShift(row: seq<Action>, item: Item, t: int, ghost to: seq<int>) returns (result: seq<Action>)
      requires Prepared() && item in allItems && !Complete(item) && item.p.rhs[item.pos].Vt?
      requires item.p.rhs[item.pos] in Symbols(g)
      requires |row| == |given.vt| + 1 && |to| == |Symbols(g)| && t == to[IndexOf(Symbols(g), item.p.rhs[item.pos])] >= -1
      ensures |result| == |row|
      ensures forall k :: 0 <= k <= |given.vt| ==>
                result[k] == if Wants(given, to, item, Terminal(given, k)) == Error then row[k]
                             else Wants(given, to, item, Terminal(given, k))
    {
      result := row;
      var x := item.p.rhs[item.pos];
      assert x in g.vt;
      if t != -1 {
        var j := 0;
        while g.vt[j] != x
          invariant 0 <= j < |g.vt| && x !in g.vt[..j]
          decreases |g.vt| - j
        {
          j := j + 1;
        }
        forall k | 0 <= k <= |given.vt| ensures Terminal(given, k) == x <==> k == j {
          TerminalColumns(given, k);
        }
        result := result[j := Shift(t)];
      }
    }

    /** Writes the GOTO entry that an item with a nonterminal next asks for. */
    method WriteGoto(row: seq<int>, item: Item, t: int, ghost to: seq<int>) returns (result: seq<int>)
      requires Prepared() && item.pos < |item.p.rhs| && item.p.rhs[item.pos].Vn? && item.p.rhs[item.pos] in Symbols(g)
      requires |row| == |g.vn| && |to| == |Symbols(g)| && t == to[IndexOf(Symbols(g), item.p.rhs[item.pos])]
      ensures |result| == |row|
      ensures forall j :: 0 <= j < |row| ==> result[j] == if NextIs(item, g.vn[j]) then to[j] else row[j]
    {
      SymbolColumns(given);
      result := row;
      var x := item.p.rhs[item.pos];
      var j := 0;
      while j < |g.vn|
        invariant 0 <= j <= |g.vn| && |result| == |row|
        invariant forall i :: 0 <= i < |row| ==> result[i] == if i < j && g.vn[i] == x then to[i] else row[i]
      {
        if g.vn[j] == x {
          assert Symbols(g)[j] == x;
          IndexIs(Symbols(g), j);
          result := result[j := t];
        }
        j := j + 1;
      }
    }

    /** Writes into the rows of a state everything that one item of it asks for. */
    method WriteItem(i: nat, item: Item, ghost seen: set<Item>, action: seq<Action>, goto: seq<int>)
        returns (newAction: seq<Action>, newGoto: seq<int>)
      requires Prepared() && IsDfa(given, states, toState) && i < |states|
      requires item in states[i] && states[i] <= allItems && seen <= states[i]
      requires ActionRow(given, toState[i], seen, action) && GotoRow(given, toState[i], seen, goto)
      ensures ActionRow(given, toState[i], seen + {item}, newAction)
      ensures GotoRow(given, toState[i], seen + {item}, newGoto)
    {
      hide IsDfa, ActionRow, GotoRow, AllItems;
      RowIsFull(given, states, toState, i);
      ghost var to := toState[i];
      newAction, newGoto := action, goto;
      RowLengths(given, to, seen, action, goto);
      ItemIsItem(g, item);
      if item.pos == |item.p.rhs| {
        newAction := WriteComplete(action, item, to);
        NothingNext(given, item);
      } else {
        var x := item.p.rhs[item.pos];
        AugmentedIsWellFormed(given);
        var t := StateGo(i, x);
        if x.Vt? {
          newAction := WriteShift(action, item, t, to);
          NothingNext(given, item);
        } else {
          newGoto := WriteGoto(goto, item, t, to);
        }
      }
      ActionRowGrows(given, to, seen, item, action, newAction);
      GotoRowGrows(given, to, seen, item, goto, newGoto);
    }

    /** Fills both tables row by row from the items of the states, a later item writing over an earlier one. */
    method MakeParsingTable()
      requires Prepared() && IsDfa(given, states, toState)
      modifies `actions, `gotos
      ensures IsTable(given, states, toState, actions, gotos)
    {
      hide IsDfa, ActionRow, GotoRow, AllItems;
      StatesAreItems(given, states, toState);
      actions, gotos := [], [];
      for k := 0 to |states|
        invariant |actions| == |gotos| == k
        invariant forall j :: 0 <= j < k ==> actions[j] == ErrorRow(|given.vt| + 1) && gotos[j] == EmptyRow(|Augmented(given).vn|)
      {
        actions, gotos := actions + [ErrorRow(|g.vt| + 1)], gotos + [EmptyRow(|g.vn|)];
      }
      var i := 0;
      while i < |states|
        invariant 0 <= i <= |states| && |actions| == |gotos| == |states|
        invariant forall k :: 0 <= k < i ==> ActionRow(given, toState[k], states[k], actions[k])
        invariant forall k :: 0 <= k < i ==> GotoRow(given, toState[k], states[k], gotos[k])
        invariant forall k :: i <= k < |states| ==> actions[k] == ErrorRow(|given.vt| + 1)
        invariant forall k :: i <= k < |states| ==> gotos[k] == EmptyRow(|Augmented(given).vn|)
      {
        label Row:
        var toVisit := states[i];
        RowsBegin(given, toState[i]);
        assert states[i] - toVisit == {};
        while toVisit != {}
          invariant toVisit <= states[i] && |actions| == |gotos| == |states|
          invariant ActionRow(given, toState[i], states[i] - toVisit, actions[i])
          invariant GotoRow(given, toState[i], states[i] - toVisit, gotos[i])
          invariant forall k :: 0 <= k < |states| && k != i ==> actions[k] == old@Row(actions[k]) && gotos[k] == old@Row(gotos[k])
        {
          var item :| item in toVisit;
          var action, goto := WriteItem(i, item, states[i] - toVisit, actions[i], gotos[i]);
          assert states[i] - toVisit + {item} == states[i] - (toVisit - {item});
          toVisit := toVisit - {item};
          actions, gotos := actions[i := action], gotos[i := goto];
        }
        assert states[i] - toVisit == states[i];
        i := i + 1;
      }
    }
  }
}
