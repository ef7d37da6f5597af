/**
 * The LR(0) parser as a program: array stacks, table lookups and the loop that goes on until the
 * tokens are accepted or an error is found.
 */
module LrDriver {
  import opened Sequences
  import opened Grammars
  import opened LrItems
  import opened LrTables
  import opened LrPumping
  import opened LrParser
  import opened LrHalting

  /** The ACTION entry for the top of the state stack and the next symbol; the stacks allow what it says. */
  method Lookup(gen: Generator, state: seq<nat>, sym: seq<Symbol>, input: seq<Symbol>, ghost tokens: seq<Symbol>)
      returns (action: Action)
    requires gen.Prepared() && IsTable(gen.given, gen.states, gen.toState, gen.actions, gen.gotos)
    requires Inv(gen.given, gen.states, Config(state, sym, input), tokens)
    ensures var c, next := Config(state, sym, input), Next(gen.given, gen.actions, gen.gotos, Config(state, sym, input));
            match action
            case Accept => next == Accepted
            case Error => next == Rejected
            case Shift(t) => input != [] && next == Running(Config(state + [t], sym + [input[0]], input[1..]))
            case Reduce(j) => j < |Augmented(gen.given).prods| && next == Reduced(gen.given, gen.gotos, c, j) && next.Running?
  {
    hide Run, AllItems, IsDfa, ActionRow, GotoRow, Derives, Justified;
    ghost var c := Config(state, sym, input);
    StepIsSafe(gen.given, gen.states, gen.toState, gen.actions, gen.gotos, c, tokens);
    TopAction(gen.given, gen.states, gen.toState, gen.actions, gen.gotos, c);
    var next := if input == [] then HASH else input[0];
    var k := if next in gen.g.vt then IndexOf(gen.g.vt, next) else |gen.g.vt|;
    action := gen.actions[state[|state| - 1]][k];
  }

  /** Pops the right side of a production off both stacks and pushes its left side and the GOTO state. */
  method Reduce(gen: Generator, state: seq<nat>, sym: seq<Symbol>, ghost input: seq<Symbol>, j: nat)
      returns (newState: seq<nat>, newSym: seq<Symbol>)
    requires gen.g == Augmented(gen.given) && j < |gen.g.prods|
    requires Reduced(gen.given, gen.gotos, Config(state, sym, input), j).Running?
    ensures Running(Config(newState, newSym, input)) == Reduced(gen.given, gen.gotos, Config(state, sym, input), j)
  {
    var p := gen.g.prods[j];
    newState := state[..|state| - |p.rhs|];
    newSym := sym[..|sym| - |p.rhs|];
    newSym := newSym + [p.lhs];
    newState := newState + [gen.gotos[newState[|newState| - 1]][IndexOf(gen.g.vn, p.lhs)]];
  }

  ghost function TablesOf(gen: Generator): Tables
    reads gen
  {
    Tables(gen.states, gen.toState, gen.actions, gen.gotos)
  }

  /** Parses the tokens, where a run of n steps is known to have ended. */
  method Parse(gen: Generator, tokens: seq<Symbol>, ghost n: nat) returns (outcome: Outcome)
    requires gen.Prepared() && IsTable(gen.given, gen.states, gen.toState, gen.actions, gen.gotos)
    requires Over(tokens, gen.given.vt) && !From(gen.given, TablesOf(gen), Start(tokens), n).Running?
    ensures outcome == From(gen.given, TablesOf(gen), Start(tokens), n)
    ensures outcome.Accepted? || outcome.Rejected?
  {
    hide IsTable, Derives, Next, Reduced, Inv;
    StartHolds(gen.given, gen.states, gen.toState, gen.actions, gen.gotos, tokens);
    ParserIsSound(gen.given, gen.states, gen.toState, gen.actions, gen.gotos, tokens, n);
    var state, sym, input := [0], [HASH], tokens;
    ghost var left := n;
    while true
      invariant Inv(gen.given, gen.states, Config(state, sym, input), tokens)
      invariant From(gen.given, TablesOf(gen), Start(tokens), n) == From(gen.given, TablesOf(gen), Config(state, sym, input), left)
      decreases left
    {
      ghost var c := Config(state, sym, input);
      ghost var next := Next(gen.given, gen.actions, gen.gotos, c);
      assert left > 0;
      if !next.Running? {
        FinishedStays(gen.given, TablesOf(gen), next, left - 1);
      }
      StepIsSafe(gen.given, gen.states, gen.toState, gen.actions, gen.gotos, c, tokens);
      var action := Lookup(gen, state, sym, input, tokens);
      match action {
        case Accept =>
          return Accepted;
        case Error =>
          return Rejected;
        case Shift(t) =>
          state := state + [t];
          sym := sym + [input[0]];
          input := input[1..];
        case Reduce(j) =>
          state, sym := Reduce(gen, state, sym, input, j);
      }
      assert next == Running(Config(state, sym, input));
      left := left - 1;
    }
  }

  /**
   * The whole program on a grammar whose runs all end, or at least the one on these tokens: tables
   * from the grammar, then a run on the tokens. Only sentences are accepted, and all of them if the
   * grammar is LR(0).
   */
  method Recognize(g: Grammar, tokens: seq<Symbol>) returns (accepted: bool)
    requires WellFormed(g) && Fresh(g) && Over(tokens, g.vt) && (Tame(g) || Bounded(g, tokens))
    ensures accepted ==> Derives(g, [g.start], tokens)
    ensures IsLr0(g) ==> (accepted <==> Derives(g, [g.start], tokens))
  {
    hide IsTable, IsDfa, Derives, IsLr0, Tame, Bounded;
    var gen := new Generator(g);
    gen.MakeAllItems();
    gen.MakeDfa();
    gen.MakeParsingTable();
    ghost var n := ParserEnds(g, TablesOf(gen), tokens);
    var outcome := Parse(gen, tokens, n);
    accepted := outcome.Accepted?;
    ParserIsSound(g, gen.states, gen.toState, gen.actions, gen.gotos, tokens, n);
    if IsLr0(g) {
      FinishedRunDecides(g, TablesOf(gen), tokens, n);
    }
  }
}
