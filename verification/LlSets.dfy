/**
 * FIRST and FOLLOW sets. The equations the generator solves by iteration are stated here, with
 * what their least solutions mean: a terminal is in FIRST of a nonterminal exactly when the
 * nonterminal derives a string beginning with it, and in FOLLOW exactly when it can come next
 * after the nonterminal in a string derived from the start symbol and the end mark.
 */
module LlSets {
  import opened Sequences
  import opened Grammars

  /** The empty word written as a symbol in a production, and the end-of-input mark. */
  const EPS := Vt('\0')
  const EOI := Vt('$')

  type Sets = map<Symbol, set<Symbol>>

  /** Productions as they are tabulated, with the empty word written out. */
  datatype Rules = Rules(start: Symbol, vn: seq<Symbol>, vt: seq<Symbol>, prods: seq<Production>)

  predicate Proper(r: Rules) {
    && r.start in r.vn
    && (forall x :: x in r.vn ==> x.Vn?)
    && (forall x :: x in r.vt ==> x.Vt?) && EPS !in r.vt && EOI !in r.vt
    && Distinct(r.vn) && Distinct(r.vt)
    && forall p :: p in r.prods ==> p.lhs in r.vn && Over(p.rhs, r.vn + r.vt + [EPS])
  }

  function Strip(w: seq<Symbol>): seq<Symbol> {
    if w == [] then [] else (if w[0] == EPS then [] else [w[0]]) + Strip(w[1..])
  }

  function Body(p: Production): Production {
    Production(p.lhs, Strip(p.rhs))
  }

  /** The grammar proper: the empty word is written by writing nothing. */
  function Plain(r: Rules): Grammar {
    Grammar(r.start, r.vn, r.vt, seq(|r.prods|, i requires 0 <= i < |r.prods| => Body(r.prods[i])))
  }

  lemma PlainProduction(r: Rules, p: Production)
    ensures p in r.prods ==> Body(p) in Plain(r).prods
    ensures p in Plain(r).prods ==> exists q :: q in r.prods && Body(q) == p
  {
    if p in r.prods {
      var i :| 0 <= i < |r.prods| && r.prods[i] == p;
      assert Plain(r).prods[i] == Body(p);
    }
    if p in Plain(r).prods {
      var i :| 0 <= i < |r.prods| && Plain(r).prods[i] == p;
      assert r.prods[i] in r.prods && Body(r.prods[i]) == p;
    }
  }

  // ----- derivations put together -----

  lemma ReplacedInContext(x: seq<Symbol>, u: seq<Symbol>, i: nat, rhs: seq<Symbol>, y: seq<Symbol>)
    requires i < |u|
    ensures (x + u + y)[|x| + i] == u[i] && Replaced(x + u + y, |x| + i, rhs) == x + Replaced(u, i, rhs) + y
  {
    var w := x + u + y;
    assert w[..|x| + i] == x + u[..i] && w[|x| + i + 1..] == u[i + 1..] + y;
  }

  lemma RewritesInContext(g: Grammar, x: seq<Symbol>, u: seq<Symbol>, v: seq<Symbol>, y: seq<Symbol>)
    requires Rewrites(g, u, v)
    ensures Rewrites(g, x + u + y, x + v + y)
  {
    hide Replaced;
    var p, i :| p in g.prods && 0 <= i < |u| && u[i] == p.lhs && v == Replaced(u, i, p.rhs);
    ReplacedInContext(x, u, i, p.rhs, y);
  }

  lemma DerivesInContext(g: Grammar, x: seq<Symbol>, u: seq<Symbol>, v: seq<Symbol>, y: seq<Symbol>)
    requires Derives(g, u, v)
    ensures Derives(g, x + u + y, x + v + y)
  {
    var d :| Derivation(g, d) && d[0] == u && d[|d| - 1] == v;
    var e := seq(|d|, k requires 0 <= k < |d| => x + d[k] + y);
    forall k | 0 <= k < |e| - 1 ensures Rewrites(g, e[k], e[k + 1]) {
      RewritesInContext(g, x, d[k], d[k + 1], y);
    }
    assert Derivation(g, e) && e[0] == x + u + y && e[|e| - 1] == x + v + y;
  }

  lemma DerivesThrough(g: Grammar, u: seq<Symbol>, v: seq<Symbol>, w: seq<Symbol>)
    requires Derives(g, u, v) && Derives(g, v, w)
    ensures Derives(g, u, w)
  {
    var d :| Derivation(g, d) && d[0] == u && d[|d| - 1] == v;
    var e :| Derivation(g, e) && e[0] == v && e[|e| - 1] == w;
    var f := d + e[1..];
    forall k | 0 <= k < |f| - 1 ensures Rewrites(g, f[k], f[k + 1]) {
      if k < |d| - 1 {
        assert f[k] == d[k] && f[k + 1] == d[k + 1];
      } else {
        assert f[k] == e[k - (|d| - 1)] && f[k + 1] == e[k - (|d| - 1) + 1];
      }
    }
    assert Derivation(g, f) && f[0] == u && f[|f| - 1] == w;
  }

  lemma DerivesByRule(r: Rules, p: Production, v: seq<Symbol>)
    requires p in r.prods && Derives(Plain(r), Strip(p.rhs), v)
    ensures Derives(Plain(r), [p.lhs], v)
  {
    PlainProduction(r, p);
    assert [] + Strip(p.rhs) == Strip(p.rhs) && [] + [p.lhs] == [p.lhs];
    DerivesAfterStep(Plain(r), [], Body(p), v);
  }

  // ----- FIRST: the equations -----

  function FirstOf(first: Sets, x: Symbol): set<Symbol> {
    if x.Vt? then {x} else if x in first then first[x] else {}
  }

  function SeqFirst(first: Sets, w: seq<Symbol>): set<Symbol> {
    if w == [] then {EPS}
    else (FirstOf(first, w[0]) - {EPS}) + if EPS in FirstOf(first, w[0]) then SeqFirst(first, w[1..]) else {}
  }

  ghost predicate ClosedFirst(r: Rules, first: Sets) {
    forall p :: p in r.prods ==> SeqFirst(first, p.rhs) <= FirstOf(first, p.lhs)
  }

  ghost predicate Below(r: Rules, a: Sets, b: Sets) {
    forall x :: x in r.vn ==> FirstOf(a, x) <= FirstOf(b, x)
  }

  /** The least solution: closed, and below everything that is closed. */
  ghost predicate LeastFirst(r: Rules, first: Sets) {
    ClosedFirst(r, first) && forall other :: ClosedFirst(r, other) ==> Below(r, first, other)
  }

  lemma {:induction false} SeqFirstStrip(first: Sets, w: seq<Symbol>)
    ensures SeqFirst(first, Strip(w)) == SeqFirst(first, w)
  {
    if w != [] {
      SeqFirstStrip(first, w[1..]);
      assert Strip(w) == (if w[0] == EPS then [] else [w[0]]) + Strip(w[1..]);
      if w[0] != EPS {
        assert Strip(w)[1..] == Strip(w[1..]);
      } else {
        assert Strip(w) == Strip(w[1..]);
        assert SeqFirst(first, w) == ({EPS} - {EPS}) + SeqFirst(first, w[1..]) == SeqFirst(first, w[1..]);
      }
    }
  }

  lemma {:induction false} SeqFirstConcat(first: Sets, u: seq<Symbol>, v: seq<Symbol>)
    ensures SeqFirst(first, u + v) ==
            if EPS in SeqFirst(first, u) then (SeqFirst(first, u) - {EPS}) + SeqFirst(first, v) else SeqFirst(first, u)
  {
    if u == [] {
      assert u + v == v;
    } else {
      SeqFirstConcat(first, u[1..], v);
      assert (u + v)[1..] == u[1..] + v;
    }
  }

  lemma {:induction false} SeqFirstGrows(r: Rules, a: Sets, b: Sets, w: seq<Symbol>)
    requires Below(r, a, b) && forall x :: x in w && x.Vn? ==> x in r.vn
    ensures SeqFirst(a, w) <= SeqFirst(b, w)
  {
    if w != [] {
      assert FirstOf(a, w[0]) <= FirstOf(b, w[0]);
      SeqFirstGrows(r, a, b, w[1..]);
    }
  }

  // ----- FIRST: what it means -----

  /** The string derives one that begins with a; for the empty word, the string derives nothing. */
  ghost predicate Starts(g: Grammar, w: seq<Symbol>, a: Symbol) {
    if a == EPS then Derives(g, w, []) else exists rest :: Derives(g, w, [a] + rest)
  }

  ghost function TrueFirst(r: Rules, x: Symbol): set<Symbol> {
    set a | a in r.vt + [EPS] && Starts(Plain(r), [x], a)
  }

  ghost function TrueFirsts(r: Rules): Sets {
    map x | x in r.vn :: TrueFirst(r, x)
  }

  /** Rewriting a string never adds to what a closed solution says about it. */
  lemma FirstBackwards(r: Rules, first: Sets, u: seq<Symbol>, v: seq<Symbol>)
    requires ClosedFirst(r, first) && Rewrites(Plain(r), u, v)
    ensures SeqFirst(first, v) <= SeqFirst(first, u)
  {
    hide Rewrites, SeqFirst, Strip;
    var q, i := RewrittenBy(r, u, v);
    SeqFirstStrip(first, q.rhs);
    SeqFirstOne(first, q.lhs);
    SeqFirstInContext(first, u[..i], Strip(q.rhs), [q.lhs], u[i + 1..]);
    assert u == u[..i] + [q.lhs] + u[i + 1..];
  }

  /** The tabulated production behind a rewriting step. */
  lemma RewrittenBy(r: Rules, u: seq<Symbol>, v: seq<Symbol>) returns (q: Production, i: nat)
    requires Rewrites(Plain(r), u, v)
    ensures q in r.prods && i < |u| && u[i] == q.lhs && v == u[..i] + Strip(q.rhs) + u[i + 1..]
  {
    var p;
    p, i :| p in Plain(r).prods && 0 <= i < |u| && u[i] == p.lhs && v == Replaced(u, i, p.rhs);
    PlainProduction(r, p);
    q :| q in r.prods && Body(q) == p;
  }

  lemma SeqFirstOne(first: Sets, x: Symbol)
    ensures SeqFirst(first, [x]) == FirstOf(first, x)
  {
    assert [x][1..] == [];
  }

  lemma SeqFirstInContext(first: Sets, x: seq<Symbol>, a: seq<Symbol>, b: seq<Symbol>, y: seq<Symbol>)
    requires SeqFirst(first, a) <= SeqFirst(first, b)
    ensures SeqFirst(first, x + a + y) <= SeqFirst(first, x + b + y)
  {
    SeqFirstConcat(first, x + a, y);
    SeqFirstConcat(first, x + b, y);
    SeqFirstConcat(first, x, a);
    SeqFirstConcat(first, x, b);
  }

  lemma {:induction false} FirstBackwardsAll(r: Rules, first: Sets, d: seq<seq<Symbol>>)
    requires ClosedFirst(r, first) && Derivation(Plain(r), d)
    ensures SeqFirst(first, d[|d| - 1]) <= SeqFirst(first, d[0])
    decreases |d|
  {
    if |d| > 1 {
      var e := d[1..];
      forall k | 0 <= k < |e| - 1 ensures Rewrites(Plain(r), e[k], e[k + 1]) {
        assert Rewrites(Plain(r), d[k + 1], d[k + 2]);
      }
      FirstBackwardsAll(r, first, e);
      FirstBackwards(r, first, d[0], d[1]);
    }
  }

  /** A closed solution contains whatever a string can begin with. */
  lemma ClosedFirstHasStarts(r: Rules, first: Sets, w: seq<Symbol>, a: Symbol)
    requires ClosedFirst(r, first) && a.Vt? && Starts(Plain(r), w, a)
    ensures a in SeqFirst(first, w)
  {
    var rest := [];
    if a != EPS {
      rest :| Derives(Plain(r), w, [a] + rest);
    }
    var v := if a == EPS then [] else [a] + rest;
    var d :| Derivation(Plain(r), d) && d[0] == w && d[|d| - 1] == v;
    FirstBackwardsAll(r, first, d);
  }

  /** Conversely the meaning is a solution: what the equations give can be begun with. */
  lemma {:induction false} TrueFirstStarts(r: Rules, w: seq<Symbol>, a: Symbol)
    requires Proper(r) && Over(w, r.vn + r.vt + [EPS]) && a in SeqFirst(TrueFirsts(r), w)
    ensures a in r.vt + [EPS] && Starts(Plain(r), Strip(w), a)
    decreases |w|
  {
    hide Derives;
    var g, firsts := Plain(r), TrueFirsts(r);
    if w == [] {
      DerivesItself(g, []);
    } else {
      var x, y := w[0], w[1..];
      assert x in w;
      if x == EPS {
        assert FirstOf(firsts, EPS) - {EPS} == {} && Strip(w) == Strip(y);
        TrueFirstStarts(r, y, a);
      } else {
        var u, v := [x], Strip(y);
        assert Strip(w) == u + v;
        if a in FirstOf(firsts, x) && a != EPS {
          SymbolStarts(r, x, a);
          var rest :| Derives(g, u, [a] + rest);
          DerivesInContext(g, [], u, [a] + rest, v);
          assert [] + u + v == u + v && [] + ([a] + rest) + v == [a] + (rest + v);
        } else {
          assert EPS in FirstOf(firsts, x) && a in SeqFirst(firsts, y);
          TrueFirstStarts(r, y, a);
          DerivesInContext(g, [], u, [], v);
          assert [] + u + v == u + v && [] + [] + v == v;
          StartsBack(g, u + v, v, a);
        }
      }
    }
  }

  lemma SymbolStarts(r: Rules, x: Symbol, a: Symbol)
    requires a in FirstOf(TrueFirsts(r), x) && a != EPS
    ensures exists rest :: Derives(Plain(r), [x], [a] + rest)
  {
    if x.Vt? {
      DerivesItself(Plain(r), [x]);
      assert [x] == [a] + [];
    }
  }

  lemma StartsBack(g: Grammar, u: seq<Symbol>, v: seq<Symbol>, a: Symbol)
    requires Derives(g, u, v) && Starts(g, v, a)
    ensures Starts(g, u, a)
  {
    hide Derives;
    if a == EPS {
      DerivesThrough(g, u, v, []);
    } else {
      var rest :| Derives(g, v, [a] + rest);
      DerivesThrough(g, u, v, [a] + rest);
    }
  }

  lemma TrueFirstIsClosed(r: Rules)
    requires Proper(r)
    ensures ClosedFirst(r, TrueFirsts(r))
  {
    hide Derives;
    forall p, a | p in r.prods && a in SeqFirst(TrueFirsts(r), p.rhs) ensures a in FirstOf(TrueFirsts(r), p.lhs) {
      TrueFirstStarts(r, p.rhs, a);
      DerivesItself(Plain(r), Strip(p.rhs));
      DerivesByRule(r, p, Strip(p.rhs));
      StartsBack(Plain(r), [p.lhs], Strip(p.rhs), a);
    }
  }

  /** The least solution is exactly what can be begun with: both directions, for every grammar. */
  lemma FirstIsExact(r: Rules, first: Sets, x: Symbol)
    requires Proper(r) && LeastFirst(r, first) && x in r.vn
    ensures FirstOf(first, x) == TrueFirst(r, x)
  {
    hide Starts, Derives, SeqFirst;
    TrueFirstIsClosed(r);
    assert FirstOf(TrueFirsts(r), x) == TrueFirst(r, x);
    forall a | a in TrueFirst(r, x) ensures a in FirstOf(first, x) {
      ClosedFirstHasStarts(r, first, [x], a);
      SeqFirstOne(first, x);
    }
  }

  // ----- FOLLOW: the equations -----

  function FollowOf(follow: Sets, x: Symbol): set<Symbol> {
    if x in follow then follow[x] else {}
  }

  /** What production p says about the nonterminal at place j of its right side. */
  ghost predicate FollowFrom(first: Sets, follow: Sets, into: Sets, p: Production, j: nat)
    requires j < |p.rhs|
  {
    p.rhs[j].Vn? ==>
      && SeqFirst(first, p.rhs[j + 1..]) - {EPS} <= FollowOf(into, p.rhs[j])
      && (EPS in SeqFirst(first, p.rhs[j + 1..]) ==> FollowOf(follow, p.lhs) <= FollowOf(into, p.rhs[j]))
  }

  ghost predicate ClosedFollow(r: Rules, first: Sets, follow: Sets) {
    && EOI in FollowOf(follow, r.start)
    && forall p, j :: p in r.prods && 0 <= j < |p.rhs| ==> FollowFrom(first, follow, follow, p, j)
  }

  ghost predicate FollowBelow(r: Rules, a: Sets, b: Sets) {
    forall x :: x in r.vn ==> FollowOf(a, x) <= FollowOf(b, x)
  }

  ghost predicate LeastFollow(r: Rules, first: Sets, follow: Sets) {
    ClosedFollow(r, first, follow) && forall other :: ClosedFollow(r, first, other) ==> FollowBelow(r, follow, other)
  }

  /** A solution of the FOLLOW equations for larger FIRST sets is one for smaller FIRST sets. */
  lemma ClosedForSmaller(r: Rules, first: Sets, larger: Sets, follow: Sets)
    requires Proper(r) && Below(r, first, larger) && ClosedFollow(r, larger, follow)
    ensures ClosedFollow(r, first, follow)
  {
    hide SeqFirst, FollowOf;
    forall p, j | p in r.prods && 0 <= j < |p.rhs| ensures FollowFrom(first, follow, follow, p, j) {
      assert FollowFrom(larger, follow, follow, p, j);
      forall x | x in p.rhs[j + 1..] && x.Vn? ensures x in r.vn {
        assert x in p.rhs && x in r.vn + r.vt + [EPS];
      }
      SeqFirstGrows(r, first, larger, p.rhs[j + 1..]);
    }
  }

  // ----- FOLLOW: what it means -----

  /** In every place of the string, what can come next is in FOLLOW of the nonterminal there. */
  ghost predicate Followed(first: Sets, follow: Sets, w: seq<Symbol>) {
    forall i :: 0 <= i < |w| && w[i].Vn? ==> SeqFirst(first, w[i + 1..]) - {EPS} <= FollowOf(follow, w[i])
  }

  lemma {:induction false} StripPlace(w: seq<Symbol>, j: nat) returns (k: nat)
    requires j < |Strip(w)|
    ensures k < |w| && w[k] == Strip(w)[j] && Strip(w[k + 1..]) == Strip(w)[j + 1..]
  {
    if w[0] == EPS {
      k := StripPlace(w[1..], j);
      assert w[1..][k + 1..] == w[k + 2..];
      k := k + 1;
    } else if j == 0 {
      k := 0;
    } else {
      assert Strip(w)[1..] == Strip(w[1..]);
      k := StripPlace(w[1..], j - 1);
      assert w[1..][k + 1..] == w[k + 2..];
      k := k + 1;
    }
  }

  /** Inside a right side put in place of its left side, everything stays followed. */
  lemma FollowedInside(r: Rules, first: Sets, follow: Sets, q: Production, y: seq<Symbol>, j: nat)
    requires ClosedFollow(r, first, follow) && q in r.prods && j < |Strip(q.rhs)| && Strip(q.rhs)[j].Vn?
    requires SeqFirst(first, y) - {EPS} <= FollowOf(follow, q.lhs)
    ensures SeqFirst(first, Strip(q.rhs)[j + 1..] + y) - {EPS} <= FollowOf(follow, Strip(q.rhs)[j])
  {
    hide SeqFirst, Strip;
    var k := StripPlace(q.rhs, j);
    SeqFirstStrip(first, q.rhs[k + 1..]);
    SeqFirstConcat(first, Strip(q.rhs)[j + 1..], y);
    assert FollowFrom(first, follow, follow, q, k);
  }

  lemma FollowedStep(r: Rules, first: Sets, follow: Sets, u: seq<Symbol>, v: seq<Symbol>)
    requires Proper(r) && ClosedFirst(r, first) && ClosedFollow(r, first, follow)
    requires Followed(first, follow, u) && Rewrites(Plain(r), u, v)
    ensures Followed(first, follow, v)
  {
    hide SeqFirst, Strip, Rewrites, ClosedFollow;
    var q, i := RewrittenBy(r, u, v);
    assert u == u[..i] + [q.lhs] + u[i + 1..];
    FollowedExpand(r, first, follow, u[..i], q, u[i + 1..]);
  }

  /** Expanding a nonterminal anywhere keeps a string followed. */
  lemma FollowedExpand(r: Rules, first: Sets, follow: Sets, x: seq<Symbol>, q: Production, y: seq<Symbol>)
    requires ClosedFirst(r, first) && ClosedFollow(r, first, follow)
    requires q in r.prods && q.lhs.Vn? && Followed(first, follow, x + [q.lhs] + y)
    ensures Followed(first, follow, x + Strip(q.rhs) + y)
  {
    hide SeqFirst, Strip, ClosedFollow, ClosedFirst;
    var u, b := x + [q.lhs] + y, Strip(q.rhs);
    var v := x + b + y;
    assert u[|x|] == q.lhs && u[|x| + 1..] == y;
    forall i | 0 <= i < |v| && v[i].Vn? ensures SeqFirst(first, v[i + 1..]) - {EPS} <= FollowOf(follow, v[i]) {
      if i < |x| {
        assert u[i] == v[i] && u[i + 1..] == x[i + 1..] + [q.lhs] + y && v[i + 1..] == x[i + 1..] + b + y;
        ClosedIsFirst(r, first, q);
        SeqFirstInContext(first, x[i + 1..], b, [q.lhs], y);
      } else if i < |x| + |b| {
        FollowedInside(r, first, follow, q, y, i - |x|);
        assert v[i] == b[i - |x|] && v[i + 1..] == b[i - |x| + 1..] + y;
      } else {
        assert v[i] == u[i - |b| + 1] && v[i + 1..] == u[i - |b| + 2..];
      }
    }
  }

  lemma ClosedIsFirst(r: Rules, first: Sets, q: Production)
    requires ClosedFirst(r, first) && q in r.prods
    ensures SeqFirst(first, Strip(q.rhs)) <= SeqFirst(first, [q.lhs])
  {
    SeqFirstStrip(first, q.rhs);
    SeqFirstOne(first, q.lhs);
  }

  lemma {:induction false} FollowedAll(r: Rules, first: Sets, follow: Sets, d: seq<seq<Symbol>>)
    requires Proper(r) && ClosedFirst(r, first) && ClosedFollow(r, first, follow)
    requires Derivation(Plain(r), d) && Followed(first, follow, d[0])
    ensures Followed(first, follow, d[|d| - 1])
    decreases |d|
  {
    hide Followed, ClosedFollow, ClosedFirst;
    if |d| > 1 {
      var e := d[1..];
      forall k | 0 <= k < |e| - 1 ensures Rewrites(Plain(r), e[k], e[k + 1]) {
        assert Rewrites(Plain(r), d[k + 1], d[k + 2]);
      }
      FollowedStep(r, first, follow, d[0], d[1]);
      FollowedAll(r, first, follow, e);
    }
  }

  lemma StartIsFollowed(r: Rules, first: Sets, follow: Sets)
    requires ClosedFollow(r, first, follow)
    ensures Followed(first, follow, [r.start, EOI])
  {
    assert [r.start, EOI][1..] == [EOI];
    SeqFirstOne(first, EOI);
  }

  ghost predicate CanFollow(r: Rules, x: Symbol, a: Symbol) {
    exists before, after :: Derives(Plain(r), [r.start, EOI], before + [x] + ([a] + after))
  }

  ghost function TrueFollow(r: Rules, x: Symbol): set<Symbol> {
    set a | a in r.vt + [EOI] && CanFollow(r, x, a)
  }

  ghost function TrueFollows(r: Rules): Sets {
    map x | x in r.vn :: TrueFollow(r, x)
  }

  ghost predicate Reachable(r: Rules, x: Symbol) {
    exists before, after :: Derives(Plain(r), [r.start, EOI], before + [x] + after)
  }

  /** A closed solution contains whatever can come next after a nonterminal. */
  lemma ClosedFollowHasNext(r: Rules, first: Sets, follow: Sets, x: Symbol, a: Symbol)
    requires Proper(r) && ClosedFirst(r, first) && ClosedFollow(r, first, follow) && x.Vn? && a.Vt? && a != EPS && CanFollow(r, x, a)
    ensures a in FollowOf(follow, x)
  {
    hide ClosedFollow, ClosedFirst, FollowOf;
    var before, after :| Derives(Plain(r), [r.start, EOI], before + [x] + ([a] + after));
    var w := before + [x] + ([a] + after);
    var d :| Derivation(Plain(r), d) && d[0] == [r.start, EOI] && d[|d| - 1] == w;
    StartIsFollowed(r, first, follow);
    FollowedAll(r, first, follow, d);
    assert w[|before|] == x && w[|before| + 1..] == [a] + after;
    assert a in SeqFirst(first, [a] + after);
  }

  /** Expanding a production where its left side stands. */
  lemma ExpandThere(r: Rules, p: Production, j: nat, before: seq<Symbol>, after: seq<Symbol>)
    requires p in r.prods && j < |p.rhs| && p.rhs[j] != EPS
    requires Derives(Plain(r), [r.start, EOI], before + [p.lhs] + after)
    ensures Derives(Plain(r), [r.start, EOI], (before + Strip(p.rhs[..j])) + [p.rhs[j]] + (Strip(p.rhs[j + 1..]) + after))
  {
    hide Derives, Strip;
    var g := Plain(r);
    StripSplit(p.rhs, j);
    DerivesItself(g, Strip(p.rhs));
    DerivesByRule(r, p, Strip(p.rhs));
    DerivesInContext(g, before, [p.lhs], Strip(p.rhs), after);
    DerivesThrough(g, [r.start, EOI], before + [p.lhs] + after, before + Strip(p.rhs) + after);
    var a, x, b := Strip(p.rhs[..j]), [p.rhs[j]], Strip(p.rhs[j + 1..]);
    assert before + (a + x + b) + after == (before + a) + x + (b + after);
  }

  lemma {:induction false} StripSplit(w: seq<Symbol>, j: nat)
    requires j < |w| && w[j] != EPS
    ensures Strip(w) == Strip(w[..j]) + [w[j]] + Strip(w[j + 1..])
  {
    if j > 0 {
      StripSplit(w[1..], j - 1);
      assert w[..j][1..] == w[1..][..j - 1] && w[1..][j..] == w[j + 1..];
      var h := if w[0] == EPS then [] else [w[0]];
      assert h + (Strip(w[1..][..j - 1]) + [w[j]] + Strip(w[j + 1..])) == (h + Strip(w[1..][..j - 1])) + [w[j]] + Strip(w[j + 1..]);
    } else {
      assert w[..0] == [];
    }
  }

  /** What can begin the rest of a right side can follow the nonterminal before it. */
  lemma NextInside(r: Rules, first: Sets, p: Production, j: nat, a: Symbol)
    requires Proper(r) && LeastFirst(r, first) && p in r.prods && j < |p.rhs| && p.rhs[j].Vn?
    requires Reachable(r, p.lhs) && a in SeqFirst(first, p.rhs[j + 1..]) && a != EPS
    ensures a in r.vt && CanFollow(r, p.rhs[j], a)
  {
    hide Derives, SeqFirst, Strip;
    var g, tail := Plain(r), p.rhs[j + 1..];
    var before, after :| Derives(g, [r.start, EOI], before + [p.lhs] + after);
    ExpandThere(r, p, j, before, after);
    TailStarts(r, first, p, j, a);
    var rest :| Derives(g, Strip(tail), [a] + rest);
    var left := before + Strip(p.rhs[..j]) + [p.rhs[j]];
    DerivesInContext(g, left, Strip(tail), [a] + rest, after);
    assert left + Strip(tail) + after == left + (Strip(tail) + after);
    assert left + ([a] + rest) + after == left + ([a] + (rest + after));
    DerivesThrough(g, [r.start, EOI], left + (Strip(tail) + after), left + ([a] + (rest + after)));
  }

  lemma TailStarts(r: Rules, first: Sets, p: Production, j: nat, a: Symbol)
    requires Proper(r) && LeastFirst(r, first) && p in r.prods && j < |p.rhs| && a in SeqFirst(first, p.rhs[j + 1..])
    ensures a in r.vt + [EPS] && Starts(Plain(r), Strip(p.rhs[j + 1..]), a)
  {
    hide Derives, Starts, SeqFirst, Strip;
    var tail := p.rhs[j + 1..];
    assert Over(tail, r.vn + r.vt + [EPS]) by {
      assert forall x :: x in tail ==> x in p.rhs;
    }
    TrueFirstIsClosed(r);
    SeqFirstGrows(r, first, TrueFirsts(r), tail);
    TrueFirstStarts(r, tail, a);
  }

  /** What follows the left side follows a nonterminal behind which nothing need stand. */
  lemma NextBehind(r: Rules, first: Sets, p: Production, j: nat, a: Symbol)
    requires Proper(r) && LeastFirst(r, first) && p in r.prods && j < |p.rhs| && p.rhs[j].Vn?
    requires EPS in SeqFirst(first, p.rhs[j + 1..]) && CanFollow(r, p.lhs, a)
    ensures CanFollow(r, p.rhs[j], a)
  {
    hide Derives, SeqFirst, Strip;
    var g, tail := Plain(r), p.rhs[j + 1..];
    var before, after :| Derives(g, [r.start, EOI], before + [p.lhs] + ([a] + after));
    ExpandThere(r, p, j, before, [a] + after);
    TailStarts(r, first, p, j, EPS);
    var left := before + Strip(p.rhs[..j]) + [p.rhs[j]];
    DerivesInContext(g, left, Strip(tail), [], [a] + after);
    assert left + Strip(tail) + ([a] + after) == left + (Strip(tail) + ([a] + after));
    assert left + [] + ([a] + after) == left + ([a] + after);
    DerivesThrough(g, [r.start, EOI], left + (Strip(tail) + ([a] + after)), left + ([a] + after));
  }

  lemma TrueFollowIsClosed(r: Rules, first: Sets)
    requires Proper(r) && LeastFirst(r, first) && forall x :: x in r.vn ==> Reachable(r, x)
    ensures ClosedFollow(r, first, TrueFollows(r))
  {
    hide Derives, SeqFirst, Reachable, LeastFirst, CanFollow;
    var f := TrueFollows(r);
    EndFollowsStart(r);
    forall p, j | p in r.prods && 0 <= j < |p.rhs| ensures FollowFrom(first, f, f, p, j) {
      var x, tail := p.rhs[j], SeqFirst(first, p.rhs[j + 1..]);
      if x.Vn? {
        assert x in p.rhs && x in r.vn;
        forall a | a in tail - {EPS} ensures a in FollowOf(f, x) {
          NextInside(r, first, p, j, a);
        }
        if EPS in tail {
          forall a | a in FollowOf(f, p.lhs) ensures a in FollowOf(f, x) {
            NextBehind(r, first, p, j, a);
          }
        }
      }
    }
  }

  lemma EndFollowsStart(r: Rules)
    ensures CanFollow(r, r.start, EOI)
  {
    DerivesItself(Plain(r), [r.start, EOI]);
    assert [r.start, EOI] == [] + [r.start] + ([EOI] + []);
  }

  /**
   * With every nonterminal reachable, the least solution is exactly what can come next after a
   * nonterminal, the end mark included: both directions, for every grammar.
   */
  lemma FollowIsExact(r: Rules, first: Sets, follow: Sets, x: Symbol)
    requires Proper(r) && LeastFirst(r, first) && LeastFollow(r, first, follow) && x in r.vn
    requires forall y :: y in r.vn ==> Reachable(r, y)
    ensures FollowOf(follow, x) == TrueFollow(r, x)
  {
    hide ClosedFirst, ClosedFollow, CanFollow, Reachable;
    TrueFollowIsClosed(r, first);
    assert FollowOf(TrueFollows(r), x) == TrueFollow(r, x);
    forall a | a in TrueFollow(r, x) ensures a in FollowOf(follow, x) {
      ClosedFollowHasNext(r, first, follow, x, a);
    }
  }
}
