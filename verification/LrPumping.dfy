/**
 * Which grammars let an LR(0) parser work without end, said of the grammar alone. A forest stands if
 * its roots are a string that the automaton can read; its leaves and nodes are the steps that put it on
 * the stack. Standing forests over any one token string are bounded in size if and only if no stack can
 * grow out of nothing and no stack can be derived from itself.
 */
module LrPumping {
  import opened Sequences
  import opened Grammars
  import opened LrItems

  /** The roots can stand on the parser's stack once the forest's yield has been read. */
  ghost predicate Stands(g: Grammar, f: Forest) {
    Grown(g, f) && Over(Yield(f), g.vt) && Run(g, Roots(f)) != {}
  }

  /** On some stack, symbols made of nothing lead the automaton back to the state it was in. */
  ghost predicate Grows(g: Grammar) {
    exists f, e :: Stands(g, f) && Idles(g, f, e)
  }

  ghost predicate Idles(g: Grammar, f: Forest, e: Forest) {
    e != Nil && Grown(g, e) && Yield(e) == [] && Run(g, Roots(f) + Roots(e)) == Run(g, Roots(f))
  }

  /** Some stack is derived from itself in one step or more. */
  ghost predicate Cyclic(g: Grammar) {
    exists f, d :: Stands(g, f) && Returns(g, f, d)
  }

  ghost predicate Returns(g: Grammar, f: Forest, d: seq<seq<Symbol>>) {
    Derivation(g, d) && |d| > 1 && d[0] == Roots(f) == d[|d| - 1]
  }

  ghost predicate Tame(g: Grammar) {
    !Grows(g) && !Cyclic(g)
  }

  /** The forests that can stand when tokens have been read as far as any point are bounded in size. */
  ghost predicate Bounded(g: Grammar, tokens: seq<Symbol>) {
    exists bound: nat :: BoundedBy(g, tokens, bound)
  }

  ghost predicate BoundedBy(g: Grammar, tokens: seq<Symbol>, bound: nat) {
    forall f :: Stands(g, f) && Yield(f) <= tokens ==> Count(f) <= bound
  }

  // ----- the last step that made a forest -----

  lemma NilParts()
    ensures Roots(Nil) == Yield(Nil) == [] && Count(Nil) == 0
  {
  }

  function Last(f: Forest): (t: Forest)
    requires f != Nil
    ensures t != Nil && t.rest == Nil
  {
    if f.rest == Nil then f else Last(f.rest)
  }

  function Init(f: Forest): Forest
    requires f != Nil
  {
    match f
    case Leaf(a, rest) => if rest == Nil then Nil else Leaf(a, Init(rest))
    case Node(p, kids, rest) => if rest == Nil then Nil else Node(p, kids, Init(rest))
  }

  /** The forest before its last leaf was read or its last node made. */
  function Undone(f: Forest): Forest
    requires f != Nil
  {
    if Last(f).Leaf? then Init(f) else Join(Init(f), Last(f).kids)
  }

  lemma {:induction false} InitAndLast(g: Grammar, f: Forest)
    requires f != Nil && Grown(g, f)
    ensures Grown(g, Init(f)) && Grown(g, Last(f)) && Join(Init(f), Last(f)) == f
  {
    if f.rest != Nil { InitAndLast(g, f.rest); }
  }

  lemma UndoneParts(g: Grammar, f: Forest) returns (u: seq<Symbol>, x: Symbol)
    requires f != Nil && Grown(g, f)
    ensures Grown(g, Undone(f)) && Count(Undone(f)) == Count(f) - 1 && Roots(f) == u + [x]
    ensures var t := Last(f);
            if t.Leaf? then x == t.a && Roots(Undone(f)) == u && Yield(f) == Yield(Undone(f)) + [x]
            else t.p in g.prods && x == t.p.lhs && Roots(Undone(f)) == u + t.p.rhs && Yield(f) == Yield(Undone(f))
  {
    var t := Last(f);
    InitAndLast(g, f);
    Joined(g, Init(f), t);
    u, x := Roots(Init(f)), if t.Leaf? then t.a else t.p.lhs;
    assert Roots(t) == [x];
    if t.Node? {
      Joined(g, Init(f), t.kids);
      assert Yield(t) == Yield(t.kids) + [];
    }
  }

  lemma {:induction false} RunsBefore(g: Grammar, u: seq<Symbol>, v: seq<Symbol>)
    requires Run(g, u + v) != {}
    ensures Run(g, u) != {}
    decreases |v|
  {
    hide Run;
    if v == [] {
      assert u + v == u;
    } else {
      var front, x := u + v[..|v| - 1], v[|v| - 1];
      assert u + v == front + [x];
      RunGoesOn(g, front, x);
      RunsBefore(g, u, v[..|v| - 1]);
    }
  }

  /** What stands stood before its last step. */
  lemma UndoneStands(g: Grammar, f: Forest)
    requires f != Nil && Stands(g, f)
    ensures Stands(g, Undone(f))
  {
    hide Run, Grown, Yield, Roots, Undone, Count;
    var u, x := UndoneParts(g, f);
    assert Over(Yield(Undone(f)), g.vt);
    RunGoesOn(g, u, x);
    var it :| it in Run(g, u) && NextIs(it, x);
    if Last(f).Node? {
      var p := Last(f).p;
      ItemAwaited(g, u, it, p);
      assert p.rhs[0..|p.rhs|] == p.rhs;
      RunAdvancesBy(g, u, Item(p, 0), p.rhs);
    }
  }

  // ----- stacks that do not grow out of nothing are bounded -----

  ghost function Marks(g: Grammar, n: nat): set<(nat, set<Item>)> {
    set k: nat, s | 0 <= k <= n && s <= AllItems(Augmented(g)) :: (k, s)
  }

  /** How much has been read below the i-th symbol of a stack, and the automaton's state there. */
  ghost function Mark(g: Grammar, f: Forest, i: nat): (nat, set<Item>)
    requires i <= |Roots(f)|
  {
    (|Yield(Front(f, i))|, Run(g, Roots(f)[..i]))
  }

  lemma {:induction false} FrontOfFront(f: Forest, i: nat, j: nat)
    requires i <= j <= |Roots(f)|
    ensures i <= |Roots(Front(f, j))| && Front(Front(f, j), i) == Front(f, i)
  {
    FrontAndBackRoots(f, j);
    if i > 0 {
      assert |Roots(f.rest)| == |Roots(f)| - 1;
      FrontOfFront(f.rest, i - 1, j - 1);
    }
  }

  /** The forest under the i-th symbol stands, and so do its first trees up to there. */
  lemma FrontStands(g: Grammar, f: Forest, i: nat)
    requires Stands(g, f) && i <= |Roots(f)|
    ensures Stands(g, Front(f, i)) && Roots(Front(f, i)) == Roots(f)[..i] && Roots(Back(f, i)) == Roots(f)[i..]
    ensures Grown(g, Back(f, i)) && Yield(f) == Yield(Front(f, i)) + Yield(Back(f, i)) && Count(f) == Count(Front(f, i)) + Count(Back(f, i))
    ensures Roots(f) == Roots(f)[..i] + Roots(f)[i..] && Over(Yield(Back(f, i)), g.vt)
  {
    hide Run;
    FrontAndBackRoots(f, i);
    FrontAndBackGrown(g, f, i);
    FrontAndBackYield(f, i);
    FrontAndBackCount(f, i);
    assert Roots(f) == Roots(f)[..i] + Roots(f)[i..];
    RunsBefore(g, Roots(f)[..i], Roots(f)[i..]);
  }

  /** A mark that returns shows symbols made of nothing. */
  lemma SameMarkGrows(g: Grammar, f: Forest, i: nat, j: nat)
    requires Stands(g, f) && i < j <= |Roots(f)| && Mark(g, f, i) == Mark(g, f, j)
    ensures Grows(g)
  {
    hide Run, Stands, Grown, Front, Back, Yield, Roots;
    var h := Front(f, j);
    FrontStands(g, f, j);
    FrontOfFront(f, i, j);
    FrontStands(g, h, i);
    var low, e := Front(h, i), Back(h, i);
    assert Roots(f)[..j][..i] == Roots(f)[..i] && |Roots(e)| == j - i;
    NilParts();
    assert Idles(g, low, e);
  }

  lemma StackIsBounded(g: Grammar, f: Forest, n: nat)
    requires Stands(g, f) && !Grows(g) && |Yield(f)| <= n
    ensures |Roots(f)| < |Marks(g, n)|
  {
    hide Run, Mark, Grows;
    var q := seq(|Roots(f)| + 1, i requires 0 <= i < |Roots(f)| + 1 => Mark(g, f, i));
    forall i, j | 0 <= i < j < |q| ensures q[i] != q[j] {
      if q[i] == q[j] { SameMarkGrows(g, f, i, j); }
    }
    forall i | 0 <= i < |q| ensures q[i] in Marks(g, n) {
      MarkIsMark(g, f, i, n);
    }
    DistinctFits(q, Marks(g, n));
  }

  lemma MarkIsMark(g: Grammar, f: Forest, i: nat, n: nat)
    requires i <= |Roots(f)| && |Yield(f)| <= n
    ensures Mark(g, f, i) in Marks(g, n)
  {
    hide Run;
    FrontAndBackYield(f, i);
    RunIsItems(g, Roots(f)[..i]);
  }

  // ----- and stacks that are not derived from themselves come only once -----

  /** The strings over some symbols up to a length. */
  function Words(symbols: seq<Symbol>, n: nat): set<seq<Symbol>> {
    if n == 0 then {[]} else Words(symbols, n - 1) + set u, x | u in Words(symbols, n - 1) && x in symbols :: u + [x]
  }

  lemma {:induction false} WordsHold(symbols: seq<Symbol>, n: nat, w: seq<Symbol>)
    requires Over(w, symbols) && |w| <= n
    ensures w in Words(symbols, n)
  {
    if n > 0 {
      if |w| == n {
        var u, x := w[..n - 1], w[n - 1];
        WordsHold(symbols, n - 1, u);
        assert w == u + [x] && x in symbols;
      } else {
        WordsHold(symbols, n - 1, w);
      }
    }
  }

  lemma {:induction false} RootsOver(g: Grammar, f: Forest)
    requires WellFormed(g) && Grown(g, f) && Over(Yield(f), g.vt)
    ensures Over(Roots(f), Symbols(g))
  {
    match f
    case Nil =>
    case Leaf(a, rest) =>
      assert Yield(f)[0] == a && Yield(f)[1..] == Yield(rest);
      RootsOver(g, rest);
    case Node(p, kids, rest) =>
      assert Yield(f)[|Yield(kids)|..] == Yield(rest);
      RootsOver(g, rest);
  }

  /** All stacks that can stand once no more than n tokens have been read, if none grows out of nothing. */
  ghost function Stacks(g: Grammar, n: nat): set<seq<Symbol>> {
    Words(Symbols(g), |Marks(g, n)|)
  }

  lemma StackIsThere(g: Grammar, f: Forest, n: nat)
    requires WellFormed(g) && Stands(g, f) && !Grows(g) && |Yield(f)| <= n
    ensures Roots(f) in Stacks(g, n)
  {
    hide Run, Grows, Marks;
    StackIsBounded(g, f, n);
    RootsOver(g, f);
    WordsHold(Symbols(g), |Marks(g, n)|, Roots(f));
  }

  /** Each of the stacks is derived, in one step or more, into w. */
  ghost predicate AllLeadTo(g: Grammar, later: set<seq<Symbol>>, w: seq<Symbol>) {
    forall u :: u in later ==> exists d :: Derivation(g, d) && |d| > 1 && d[0] == u && d[|d| - 1] == w
  }

  lemma OneStepMore(g: Grammar, later: set<seq<Symbol>>, w: seq<Symbol>, v: seq<Symbol>)
    requires AllLeadTo(g, later, w) && Rewrites(g, w, v)
    ensures AllLeadTo(g, later + {w}, v)
  {
    hide Rewrites;
    forall u | u in later + {w} ensures exists d :: Derivation(g, d) && |d| > 1 && d[0] == u && d[|d| - 1] == v {
      var d := [w];
      if u in later {
        d :| Derivation(g, d) && |d| > 1 && d[0] == u && d[|d| - 1] == w;
      }
      var e := d + [v];
      forall k | 0 <= k < |e| - 1 ensures Rewrites(g, e[k], e[k + 1]) {
        if k < |d| - 1 { assert e[k] == d[k] && e[k + 1] == d[k + 1]; }
      }
      assert Derivation(g, e);
    }
  }

  /**
   * Going back from a standing forest: the stacks since the last token was read are all different,
   * so there are no more steps to each token than there are stacks.
   */
  lemma {:induction false} CountIsBounded(g: Grammar, f: Forest, n: nat, later: set<seq<Symbol>>)
    requires WellFormed(g) && Tame(g) && Stands(g, f) && |Yield(f)| <= n
    requires later <= Stacks(g, n) && AllLeadTo(g, later, Roots(f))
    ensures Count(f) + |later| <= (|Yield(f)| + 1) * |Stacks(g, n)|
    decreases Count(f)
  {
    hide Run, Grown, Grows, Stands, Stacks, Cyclic, Undone, Rewrites, AllLeadTo;
    StackIsThere(g, f, n);
    if Roots(f) in later { AmongLater(g, f, later); }
    SubsetLess(later + {Roots(f)}, Stacks(g, n));
    assert |later + {Roots(f)}| == |later| + 1;
    if f != Nil {
      CountBefore(g, f, n, later);
    } else {
      assert Count(f) == 0 && |Yield(f)| == 0;
    }
  }

  lemma {:induction false} CountBefore(g: Grammar, f: Forest, n: nat, later: set<seq<Symbol>>)
    requires WellFormed(g) && Tame(g) && Stands(g, f) && |Yield(f)| <= n && f != Nil
    requires later + {Roots(f)} <= Stacks(g, n) && AllLeadTo(g, later, Roots(f)) && |later + {Roots(f)}| == |later| + 1 <= |Stacks(g, n)|
    ensures Count(f) + |later| <= (|Yield(f)| + 1) * |Stacks(g, n)|
    decreases Count(f), 0
  {
    hide Run, Grown, Grows, Stacks, Cyclic, Undone, Rewrites, AllLeadTo, Yield, Roots, Count;
    var u, x := Stood(g, f);
    UndoneStands(g, f);
    var h, size := Undone(f), |Stacks(g, n)|;
    if Last(f).Leaf? {
      NothingLater(g, Roots(h));
      CountIsBounded(g, h, n, {});
      assert (|Yield(f)| + 1) * size == (|Yield(h)| + 1) * size + size;
    } else {
      StepBack(g, u, Last(f).p);
      OneStepMore(g, later, Roots(f), Roots(h));
      CountIsBounded(g, h, n, later + {Roots(f)});
    }
  }

  lemma Stood(g: Grammar, f: Forest) returns (u: seq<Symbol>, x: Symbol)
    requires f != Nil && Stands(g, f)
    ensures Count(Undone(f)) == Count(f) - 1 && Roots(f) == u + [x]
    ensures var t := Last(f);
            if t.Leaf? then |Yield(f)| == |Yield(Undone(f))| + 1
            else t.p in g.prods && x == t.p.lhs && Roots(Undone(f)) == u + t.p.rhs && Yield(f) == Yield(Undone(f))
  {
    hide Run;
    u, x := UndoneParts(g, f);
  }

  lemma NothingLater(g: Grammar, w: seq<Symbol>)
    ensures AllLeadTo(g, {}, w)
  {
  }

  lemma StepBack(g: Grammar, u: seq<Symbol>, p: Production)
    requires p in g.prods
    ensures Rewrites(g, u + [p.lhs], u + p.rhs)
  {
    var w := u + [p.lhs];
    assert w[|u|] == p.lhs && Replaced(w, |u|, p.rhs) == u + p.rhs;
  }

  lemma AmongLater(g: Grammar, f: Forest, later: set<seq<Symbol>>)
    requires Stands(g, f) && AllLeadTo(g, later, Roots(f)) && Roots(f) in later
    ensures Cyclic(g)
  {
    hide Run, Derivation;
    var d :| Derivation(g, d) && |d| > 1 && d[0] == Roots(f) && d[|d| - 1] == Roots(f);
    assert Returns(g, f, d);
  }

  lemma TameIsBounded(g: Grammar, tokens: seq<Symbol>)
    requires WellFormed(g) && Tame(g)
    ensures Bounded(g, tokens)
  {
    hide Stands, Stacks, Tame, AllLeadTo;
    var n := |tokens|;
    var bound := (n + 1) * |Stacks(g, n)|;
    forall f | Stands(g, f) && Yield(f) <= tokens ensures Count(f) <= bound {
      NothingLater(g, Roots(f));
      CountIsBounded(g, f, n, {});
      MoreTimes(|Yield(f)| + 1, n + 1, |Stacks(g, n)|);
    }
    assert BoundedBy(g, tokens, bound);
  }

  lemma MoreTimes(a: nat, b: nat, k: nat)
    requires a <= b
    ensures a * k <= b * k
  {
  }

  // ----- otherwise there are forests of any size -----

  lemma {:induction false} RunSame(g: Grammar, u: seq<Symbol>, w: seq<Symbol>, v: seq<Symbol>)
    requires Run(g, u) == Run(g, w)
    ensures Run(g, u + v) == Run(g, w + v)
    decreases |v|
  {
    hide Run;
    if v == [] {
      assert u + v == u && w + v == w;
    } else {
      var front, x := v[..|v| - 1], v[|v| - 1];
      RunSame(g, u, w, front);
      assert u + v == (u + front) + [x] && w + v == (w + front) + [x];
      RunExtends(g, u + front, x);
      RunExtends(g, w + front, x);
    }
  }

  /** The trees made of nothing can be put on the stack again and again. */
  lemma {:induction false} GrownBy(g: Grammar, f: Forest, e: Forest, m: nat) returns (h: Forest)
    requires Stands(g, f) && Idles(g, f, e)
    ensures Stands(g, h) && Yield(h) == Yield(f) && Run(g, Roots(h)) == Run(g, Roots(f)) && Count(h) >= m
  {
    hide Run;
    if m == 0 {
      h := f;
    } else {
      var h' := GrownBy(g, f, e, m - 1);
      h := Join(h', e);
      Joined(g, h', e);
      RunSame(g, Roots(h'), Roots(f), Roots(e));
      assert Yield(h') + [] == Yield(h');
    }
  }

  /** And the derivation of a stack from itself can be gone through again and again. */
  lemma {:induction false} GrownRound(g: Grammar, f: Forest, d: seq<seq<Symbol>>, m: nat) returns (h: Forest)
    requires Stands(g, f) && Returns(g, f, d)
    ensures Stands(g, h) && Yield(h) == Yield(f) && Roots(h) == Roots(f) && Count(h) >= m
  {
    hide Run, Grown, Yield, Roots, Count, Derivation;
    if m == 0 {
      h := f;
    } else {
      var h' := GrownRound(g, f, d, m - 1);
      h := ForestAbove(g, d, h');
    }
  }

  /** Otherwise forests of any size stand over one token string, each over all of it. */
  lemma UnboundedWithout(g: Grammar) returns (f: Forest)
    requires !Tame(g)
    ensures Stands(g, f) && forall m: nat :: Larger(g, Yield(f), m)
  {
    hide Run, Grown, Yield, Roots, Count, Idles, Returns, Stands;
    if Grows(g) {
      var e;
      f, e :| Stands(g, f) && Idles(g, f, e);
      forall m: nat ensures Larger(g, Yield(f), m) {
        var h := GrownBy(g, f, e, m);
      }
    } else {
      var d;
      f, d :| Stands(g, f) && Returns(g, f, d);
      forall m: nat ensures Larger(g, Yield(f), m) {
        var h := GrownRound(g, f, d, m);
      }
    }
  }

  ghost predicate Larger(g: Grammar, tokens: seq<Symbol>, m: nat) {
    exists h :: Stands(g, h) && Yield(h) == tokens && Count(h) >= m
  }

  lemma NoBound(g: Grammar, f: Forest)
    requires Stands(g, f) && forall m: nat :: Larger(g, Yield(f), m)
    ensures Over(Yield(f), g.vt) && !Bounded(g, Yield(f))
  {
    hide Run;
    forall bound: nat ensures !BoundedBy(g, Yield(f), bound) {
      assert Larger(g, Yield(f), bound + 1);
      var h :| Stands(g, h) && Yield(h) == Yield(f) && Count(h) >= bound + 1;
    }
  }

  /**
   * The forests that can stand are bounded over every token string if and only if no stack grows out
   * of nothing and none is derived from itself.
   */
  lemma TameExactly(g: Grammar)
    requires WellFormed(g)
    ensures Tame(g) <==> forall tokens :: Over(tokens, g.vt) ==> Bounded(g, tokens)
  {
    hide Tame, Bounded, Larger;
    if Tame(g) {
      forall tokens | Over(tokens, g.vt) ensures Bounded(g, tokens) {
        TameIsBounded(g, tokens);
      }
    } else {
      var f := UnboundedWithout(g);
      NoBound(g, f);
    }
  }
}
