/**
 * The generator of FIRST and FOLLOW sets and of the predictive parsing table: rounds over all
 * productions until the sizes of the sets stop growing. For every grammar the rounds end, and end
 * at the least solutions of the equations.
 */
module LlTables {
  import opened Grammars
  import opened LlSets

  datatype Entry = None | Some(p: Production)

  /** The production is chosen for the nonterminal when a comes next. */
  ghost predicate Predicts(first: Sets, follow: Sets, p: Production, a: Symbol) {
    a in SeqFirst(first, p.rhs) || (EPS in SeqFirst(first, p.rhs) && a in FollowOf(follow, p.lhs))
  }

  /** The first production, in table order, that is for the nonterminal and predicts a. */
  ghost function Choice(prods: seq<Production>, first: Sets, follow: Sets, x: Symbol, a: Symbol): Entry {
    if prods == [] then None
    else if prods[0].lhs == x && Predicts(first, follow, prods[0], a) then Some(prods[0])
    else Choice(prods[1..], first, follow, x, a)
  }

  function Size(sets: Sets, xs: seq<Symbol>): nat {
    if xs == [] then 0
    else Size(sets, xs[..|xs| - 1]) + if xs[|xs| - 1] in sets then |sets[xs[|xs| - 1]]| else 0
  }

  ghost predicate Grows(a: Sets, b: Sets, xs: seq<Symbol>) {
    forall x :: x in xs ==> x in a && x in b && a[x] <= b[x]
  }

  lemma SetSizes(a: set<Symbol>, b: set<Symbol>)
    requires a <= b
    ensures |a| <= |b| && (|a| == |b| ==> a == b)
  {
    assert b == a + (b - a);
  }

  /** Sets that only grow and have the same total size have not changed. */
  lemma {:induction false} SameSizeSameSets(a: Sets, b: Sets, xs: seq<Symbol>)
    requires Grows(a, b, xs)
    ensures Size(a, xs) <= Size(b, xs)
    ensures Size(a, xs) == Size(b, xs) ==> forall x :: x in xs ==> a[x] == b[x]
  {
    if xs != [] {
      var front, last := xs[..|xs| - 1], xs[|xs| - 1];
      assert forall x :: x in xs <==> x in front || x == last;
      SameSizeSameSets(a, b, front);
      SetSizes(a[last], b[last]);
    }
  }

  lemma {:induction false} SizeIsBounded(a: Sets, xs: seq<Symbol>, all: set<Symbol>)
    requires forall x :: x in xs ==> x in a && a[x] <= all
    ensures Size(a, xs) <= |xs| * |all|
  {
    if xs != [] {
      var front, last := xs[..|xs| - 1], xs[|xs| - 1];
      assert forall x :: x in front ==> x in xs;
      SizeIsBounded(a, front, all);
      SetSizes(a[last], all);
      assert |xs| * |all| == |front| * |all| + |all|;
    }
  }

  lemma {:induction false} SizeUnchanged(a: Sets, b: Sets, xs: seq<Symbol>)
    requires forall x :: x in xs ==> x in a && x in b && a[x] == b[x]
    ensures Size(a, xs) == Size(b, xs)
  {
    if xs != [] {
      var front := xs[..|xs| - 1];
      assert forall x :: x in front ==> x in xs;
      SizeUnchanged(a, b, front);
    }
  }

  ghost function Alphabet(r: Rules): set<Symbol> {
    set x | x in r.vt + [EPS, EOI]
  }

  /** The FIRST sets so far: terminals done, nonterminals within the alphabet and below every solution. */
  ghost predicate FirstSoFar(r: Rules, first: Sets) {
    && (forall x :: x in r.vn ==> x in first && first[x] <= Alphabet(r))
    && (forall x :: x in r.vt + [EPS] ==> x in first && first[x] == {x})
    && forall other :: ClosedFirst(r, other) ==> Below(r, first, other)
  }

  /** Everything that production p says, read in the given sets, has been added. */
  ghost predicate Added(before: Sets, first: Sets, p: Production) {
    SeqFirst(before, p.rhs) <= FirstOf(first, p.lhs)
  }

  /** The sets with more in the set of one nonterminal, all of it in every solution, are still below every solution. */
  lemma FirstStaysSoFar(r: Rules, first: Sets, x: Symbol, more: set<Symbol>)
    requires Proper(r) && FirstSoFar(r, first) && x in r.vn && more <= Alphabet(r)
    requires forall other :: ClosedFirst(r, other) ==> more <= FirstOf(other, x)
    ensures FirstSoFar(r, first[x := first[x] + more])
  {
    hide ClosedFirst, Alphabet;
    var next := first[x := first[x] + more];
    forall other | ClosedFirst(r, other) ensures Below(r, next, other) {
      assert Below(r, first, other);
      forall y | y in r.vn ensures FirstOf(next, y) <= FirstOf(other, y) {
        assert FirstOf(first, y) <= FirstOf(other, y);
      }
    }
  }

  lemma EmptyFirst(first: Sets)
    ensures SeqFirst(first, []) == {EPS}
  {
  }

  lemma EpsIsLetter(r: Rules)
    ensures EPS in Alphabet(r)
  {
  }

  lemma SoFarKeys(r: Rules, first: Sets)
    requires FirstSoFar(r, first)
    ensures forall x :: x in r.vn + r.vt + [EPS] ==> x in first
  {
  }

  lemma ClosedAt(r: Rules, other: Sets, p: Production)
    requires ClosedFirst(r, other) && p in r.prods
    ensures SeqFirst(other, p.rhs) <= FirstOf(other, p.lhs)
  {
  }

  /** Scanning place k of a right side: nothing is added that a solution does not have. */
  lemma ScanIsSound(r: Rules, first: Sets, other: Sets, w: seq<Symbol>, k: nat)
    requires Proper(r) && FirstSoFar(r, first) && ClosedFirst(r, other) && Over(w, r.vn + r.vt + [EPS]) && k < |w|
    ensures FirstOf(first, w[k]) - {EPS} <= SeqFirst(other, w[k..])
    ensures EPS in FirstOf(first, w[k]) ==> SeqFirst(other, w[k + 1..]) <= SeqFirst(other, w[k..])
  {
    hide ClosedFirst;
    assert w[k] in w && w[k..][1..] == w[k + 1..];
    assert FirstOf(first, w[k]) <= FirstOf(other, w[k]);
  }

  /** Scanning place k of a right side: nothing is missed that the sets said when the scan began. */
  lemma ScanIsComplete(r: Rules, before: Sets, first: Sets, w: seq<Symbol>, k: nat)
    requires Proper(r) && FirstSoFar(r, first) && Grows(before, first, r.vn) && Over(w, r.vn + r.vt + [EPS]) && k < |w|
    ensures SeqFirst(before, w[k..]) <=
            (FirstOf(first, w[k]) - {EPS}) + if EPS in FirstOf(first, w[k]) then SeqFirst(before, w[k + 1..]) else {}
  {
    assert w[k] in w && w[k..][1..] == w[k + 1..];
    assert FirstOf(before, w[k]) <= FirstOf(first, w[k]);
  }

  /** In the tables every symbol's set is what the equations take it to be. */
  lemma TabulatedFirst(r: Rules, first: Sets, w: seq<Symbol>, k: nat)
    requires Proper(r) && FirstSoFar(r, first) && Over(w, r.vn + r.vt + [EPS]) && k < |w|
    ensures w[k] in first && first[w[k]] == FirstOf(first, w[k]) <= Alphabet(r)
  {
    assert w[k] in w;
  }

  lemma {:induction false} SeqFirstAlphabet(r: Rules, first: Sets, w: seq<Symbol>)
    requires Proper(r) && FirstSoFar(r, first) && Over(w, r.vn + r.vt + [EPS])
    ensures SeqFirst(first, w) <= Alphabet(r)
  {
    if w != [] {
      TabulatedFirst(r, first, w, 0);
      SeqFirstAlphabet(r, first, w[1..]);
    }
  }

  /** Productions of the nonterminals up to i, and of the one at i up to j, have been added. */
  ghost predicate AddedUpTo(r: Rules, before: Sets, first: Sets, i: nat, j: nat) {
    forall k, p :: 0 <= k < |r.vn| && p in r.prods && p.lhs == r.vn[k] && (k < i || (k == i && p in r.prods[..Min(j, |r.prods|)])) ==>
      Added(before, first, p)
  }

  function Min(a: nat, b: nat): nat {
    if a < b then a else b
  }

  lemma AddedStays(r: Rules, before: Sets, first: Sets, more: Sets, i: nat, j: nat)
    requires Proper(r) && AddedUpTo(r, before, first, i, j) && Grows(first, more, r.vn)
    ensures AddedUpTo(r, before, more, i, j)
  {
    hide SeqFirst;
    forall k, p | 0 <= k < |r.vn| && p in r.prods && p.lhs == r.vn[k] && (k < i || (k == i && p in r.prods[..Min(j, |r.prods|)]))
      ensures Added(before, more, p)
    {
      assert Added(before, first, p);
    }
  }

  lemma AddedFromEarlier(r: Rules, before: Sets, mid: Sets, first: Sets, p: Production)
    requires Proper(r) && p in r.prods && Grows(before, mid, r.vn) && Added(mid, first, p)
    ensures Added(before, first, p)
  {
    SeqFirstGrows(r, before, mid, p.rhs);
  }

  lemma AddedNext(r: Rules, before: Sets, first: Sets, i: nat, j: nat)
    requires AddedUpTo(r, before, first, i, j) && i < |r.vn| && j < |r.prods|
    requires r.prods[j].lhs == r.vn[i] ==> Added(before, first, r.prods[j])
    ensures AddedUpTo(r, before, first, i, j + 1)
  {
    hide Added;
    assert r.prods[..j + 1] == r.prods[..j] + [r.prods[j]];
  }

  lemma AddedRow(r: Rules, before: Sets, first: Sets, i: nat)
    requires AddedUpTo(r, before, first, i, |r.prods|)
    ensures AddedUpTo(r, before, first, i + 1, 0)
  {
    hide Added;
    assert r.prods[..|r.prods|] == r.prods;
  }

  /** A round that changes nothing ends at a solution. */
  lemma QuietRoundCloses(r: Rules, before: Sets, first: Sets)
    requires Proper(r) && AddedUpTo(r, before, first, |r.vn|, 0)
    requires forall x :: x in r.vn ==> x in before && x in first && before[x] == first[x]
    ensures ClosedFirst(r, first)
  {
    hide SeqFirst;
    forall p | p in r.prods ensures SeqFirst(first, p.rhs) <= FirstOf(first, p.lhs) {
      var k :| 0 <= k < |r.vn| && r.vn[k] == p.lhs;
      assert Added(before, first, p);
      SeqFirstGrows(r, first, before, p.rhs);
    }
  }

  // ----- FOLLOW -----

  /** The FOLLOW sets so far: the end mark follows the start, and all is below every solution. */
  ghost predicate FollowSoFar(r: Rules, first: Sets, follow: Sets) {
    && (forall x :: x in r.vn ==> x in follow && follow[x] <= Alphabet(r))
    && EOI in FollowOf(follow, r.start)
    && forall other :: ClosedFollow(r, first, other) ==> FollowBelow(r, follow, other)
  }

  lemma FollowStaysSoFar(r: Rules, first: Sets, follow: Sets, x: Symbol, more: set<Symbol>)
    requires Proper(r) && FollowSoFar(r, first, follow) && x in r.vn && more <= Alphabet(r)
    requires forall other :: ClosedFollow(r, first, other) ==> more <= FollowOf(other, x)
    ensures FollowSoFar(r, first, follow[x := follow[x] + more])
  {
    hide ClosedFollow, Alphabet;
    var next := follow[x := follow[x] + more];
    forall other | ClosedFollow(r, first, other) ensures FollowBelow(r, next, other) {
      assert FollowBelow(r, follow, other);
      forall y | y in r.vn ensures FollowOf(next, y) <= FollowOf(other, y) {
        assert FollowOf(follow, y) <= FollowOf(other, y);
      }
    }
  }

  /** What a place of a production adds is in every solution. */
  lemma PlaceIsSound(r: Rules, first: Sets, follow: Sets, other: Sets, p: Production, j: nat)
    requires Proper(r) && FollowSoFar(r, first, follow) && ClosedFollow(r, first, other)
    requires p in r.prods && j < |p.rhs| && p.rhs[j].Vn?
    ensures SeqFirst(first, p.rhs[j + 1..]) - {EPS} <= FollowOf(other, p.rhs[j])
    ensures EPS in SeqFirst(first, p.rhs[j + 1..]) ==> FollowOf(follow, p.lhs) <= FollowOf(other, p.rhs[j])
  {
    hide SeqFirst;
    assert FollowFrom(first, other, other, p, j);
    assert FollowBelow(r, follow, other);
  }

  lemma FollowKeys(r: Rules, first: Sets, follow: Sets)
    requires FollowSoFar(r, first, follow)
    ensures forall x :: x in r.vn ==> x in follow && follow[x] <= Alphabet(r) && follow[x] == FollowOf(follow, x)
  {
  }

  lemma EndIsFollowing(r: Rules, first: Sets, other: Sets)
    requires ClosedFollow(r, first, other)
    ensures EOI in FollowOf(other, r.start)
  {
  }

  // ----- the parsing table -----

  ghost predicate IsRow(r: Rules, first: Sets, follow: Sets, x: Symbol, row: seq<Entry>) {
    |row| == |r.vt| + 1 &&
    forall k :: 0 <= k < |row| ==> row[k] == Choice(r.prods, first, follow, x, (r.vt + [EOI])[k])
  }

  ghost predicate IsTable(r: Rules, first: Sets, follow: Sets, table: seq<seq<Entry>>) {
    |table| == |r.vn| && forall i :: 0 <= i < |table| ==> IsRow(r, first, follow, r.vn[i], table[i])
  }

  /** All places of the first i productions, and the first j places of the next, have been seen to. */
  ghost predicate SeenTo(r: Rules, first: Sets, before: Sets, follow: Sets, i: nat, j: nat) {
    forall k, m :: 0 <= k < |r.prods| && 0 <= m < |r.prods[k].rhs| && (k < i || (k == i && m < j)) ==>
      FollowFrom(first, before, follow, r.prods[k], m)
  }

  lemma SeenStays(r: Rules, first: Sets, before: Sets, follow: Sets, more: Sets, i: nat, j: nat)
    requires Proper(r) && SeenTo(r, first, before, follow, i, j) && Grows(follow, more, r.vn)
    ensures SeenTo(r, first, before, more, i, j)
  {
    hide SeqFirst;
    forall k, m | 0 <= k < |r.prods| && 0 <= m < |r.prods[k].rhs| && (k < i || (k == i && m < j))
      ensures FollowFrom(first, before, more, r.prods[k], m)
    {
      assert FollowFrom(first, before, follow, r.prods[k], m);
      assert r.prods[k] in r.prods && r.prods[k].rhs[m] in r.prods[k].rhs;
    }
  }

  lemma SeenNext(r: Rules, first: Sets, before: Sets, mid: Sets, follow: Sets, i: nat, j: nat)
    requires Proper(r) && SeenTo(r, first, before, follow, i, j) && i < |r.prods| && j < |r.prods[i].rhs|
    requires Grows(before, mid, r.vn) && FollowFrom(first, mid, follow, r.prods[i], j)
    ensures SeenTo(r, first, before, follow, i, j + 1)
  {
    hide SeqFirst;
    assert r.prods[i] in r.prods;
    assert FollowFrom(first, before, follow, r.prods[i], j);
  }

  lemma QuietFollowCloses(r: Rules, first: Sets, before: Sets, follow: Sets)
    requires Proper(r) && FollowSoFar(r, first, follow) && SeenTo(r, first, before, follow, |r.prods|, 0)
    requires forall x :: x in r.vn ==> x in before && x in follow && before[x] == follow[x]
    ensures ClosedFollow(r, first, follow)
  {
    hide SeqFirst;
    forall p, m | p in r.prods && 0 <= m < |p.rhs| ensures FollowFrom(first, follow, follow, p, m) {
      var k :| 0 <= k < |r.prods| && r.prods[k] == p;
      assert FollowFrom(first, before, follow, r.prods[k], m);
    }
  }

  class Generator {
    const r: Rules
    var first: Sets
    var follow: Sets
    var table: seq<seq<Entry>>

    constructor (rules: Rules)
      ensures r == rules
    {
      r := rules;
      first, follow, table := map[], map[], [];
    }

    /** Adds to FIRST of x what one production of x says. */
    method AddProduction(x: Symbol, p: Production)
      requires Proper(r) && FirstSoFar(r, first) && p in r.prods && p.lhs == x
      modifies `first
      ensures FirstSoFar(r, first) && Grows(old(first), first, r.vn) && Added(old(first), first, p)
      ensures forall y :: y in r.vn && y != x ==> first[y] == old(first)[y]
    {
      hide ClosedFirst, FirstSoFar, SeqFirst, Alphabet;
      var k, goOn := 0, true;
      ghost var w := p.rhs;
      ghost var before := first;
      SoFarKeys(r, first);
      while goOn && k < |p.rhs|
        invariant 0 <= k <= |w| && FirstSoFar(r, first) && Grows(before, first, r.vn)
        invariant forall y :: y in r.vn && y != x ==> first[y] == before[y]
        invariant SeqFirst(before, w) <= first[x] + if goOn then SeqFirst(before, w[k..]) else {}
        invariant goOn ==> forall other :: ClosedFirst(r, other) ==> SeqFirst(other, w[k..]) <= SeqFirst(other, w)
      {
        TabulatedFirst(r, first, w, k);
        ScanIsComplete(r, before, first, w, k);
        ghost var more := first[w[k]] - {EPS};
        forall other | ClosedFirst(r, other)
          ensures more <= FirstOf(other, x)
          ensures EPS in first[w[k]] ==> SeqFirst(other, w[k + 1..]) <= SeqFirst(other, w)
        {
          ScanIsSound(r, first, other, w, k);
          ClosedAt(r, other, p);
        }
        FirstStaysSoFar(r, first, x, more);
        var s := first[p.rhs[k]];
        first := first[x := first[x] + (s - {EPS})];
        TabulatedFirst(r, first, w, k);
        if EPS !in first[p.rhs[k]] {
          goOn := false;
        }
        k := k + 1;
      }
      if goOn {
        assert w[k..] == [];
        forall other | ClosedFirst(r, other) ensures {EPS} <= FirstOf(other, x) {
          ClosedAt(r, other, p);
          assert SeqFirst(other, []) == {EPS} by {
            EmptyFirst(other);
          }
        }
        EmptyFirst(before);
        EpsIsLetter(r);
        FirstStaysSoFar(r, first, x, {EPS});
        first := first[x := first[x] + {EPS}];
      }
    }

    /** One pass over all nonterminals and productions; the total size is summed up row by row. */
    method FirstRound() returns (newSize: nat)
      requires Proper(r) && FirstSoFar(r, first)
      modifies `first
      ensures FirstSoFar(r, first) && Grows(old(first), first, r.vn)
      ensures newSize == Size(first, r.vn) && AddedUpTo(r, old(first), first, |r.vn|, 0)
    {
      hide FirstSoFar, SeqFirst, Added;
      SoFarKeys(r, first);
      ghost var before := first;
      newSize := 0;
      var i := 0;
      while i < |r.vn|
        invariant 0 <= i <= |r.vn| && FirstSoFar(r, first) && Grows(before, first, r.vn)
        invariant newSize == Size(first, r.vn[..i]) && AddedUpTo(r, before, first, i, 0)
      {
        var j := 0;
        while j < |r.prods|
          invariant 0 <= j <= |r.prods| && FirstSoFar(r, first) && Grows(before, first, r.vn)
          invariant newSize == Size(first, r.vn[..i]) && AddedUpTo(r, before, first, i, j)
        {
          if r.prods[j].lhs == r.vn[i] {
            ghost var last := first;
            AddProduction(r.vn[i], r.prods[j]);
            AddedStays(r, before, last, first, i, j);
            AddedFromEarlier(r, before, last, first, r.prods[j]);
            SizeUnchanged(last, first, r.vn[..i]);
          }
          AddedNext(r, before, first, i, j);
          j := j + 1;
        }
        AddedRow(r, before, first, i);
        assert r.vn[..i + 1] == r.vn[..i] + [r.vn[i]];
        assert r.vn[i] in first;
        newSize := newSize + |first[r.vn[i]]|;
        i := i + 1;
      }
      assert r.vn[..i] == r.vn;
    }

    method TotalFirst() returns (size: nat)
      requires forall x :: x in r.vn ==> x in first
      ensures size == Size(first, r.vn)
    {
      size := 0;
      var i := 0;
      while i < |r.vn|
        invariant 0 <= i <= |r.vn| && size == Size(first, r.vn[..i])
      {
        assert r.vn[..i + 1] == r.vn[..i] + [r.vn[i]];
        size := size + |first[r.vn[i]]|;
        i := i + 1;
      }
      assert r.vn[..i] == r.vn;
    }

    /** Iterates to the least solution; every round but the last enlarges some set, so it ends. */
    method MakeFirst()
      requires Proper(r)
      modifies `first
      ensures FirstSoFar(r, first) && LeastFirst(r, first)
    {
      hide SeqFirst, ClosedFirst;
      first := map x | x in r.vn + r.vt + [EPS] :: if x.Vt? then {x} else {};
      ghost var all := Alphabet(r);
      while true
        invariant FirstSoFar(r, first)
        decreases |r.vn| * |all| - Size(first, r.vn)
      {
        ghost var before := first;
        var oldSize := TotalFirst();
        var newSize := FirstRound();
        SameSizeSameSets(before, first, r.vn);
        SizeIsBounded(first, r.vn, all);
        if oldSize == newSize {
          QuietRoundCloses(r, before, first);
          break;
        }
      }
    }

    /** The FIRST set of a string of symbols. */
    method MakeListFirst(xs: seq<Symbol>) returns (result: set<Symbol>)
      requires Proper(r) && FirstSoFar(r, first) && Over(xs, r.vn + r.vt + [EPS])
      ensures result == SeqFirst(first, xs)
    {
      hide FirstSoFar;
      result := {};
      var k, goOn := 0, true;
      while goOn && k < |xs|
        invariant 0 <= k <= |xs|
        invariant SeqFirst(first, xs) == result + if goOn then SeqFirst(first, xs[k..]) else {}
      {
        TabulatedFirst(r, first, xs, k);
        assert xs[k..][1..] == xs[k + 1..];
        result := result + (first[xs[k]] - {EPS});
        if EPS !in first[xs[k]] {
          goOn := false;
        }
        k := k + 1;
      }
      if goOn {
        assert xs[k..] == [];
        result := result + {EPS};
      }
    }

    /** Adds to FOLLOW of the nonterminal at place j of a production what the production says of it. */
    method AddFollow(p: Production, j: nat)
      requires Proper(r) && FirstSoFar(r, first) && FollowSoFar(r, first, follow)
      requires p in r.prods && j < |p.rhs| && p.rhs[j].Vn?
      modifies `follow
      ensures FollowSoFar(r, first, follow) && Grows(old(follow), follow, r.vn)
      ensures FollowFrom(first, old(follow), follow, p, j)
    {
      hide FirstSoFar, FollowSoFar, ClosedFollow, SeqFirst, Alphabet;
      ghost var before := follow;
      FollowKeys(r, first, follow);
      var x, tail := p.rhs[j], p.rhs[j + 1..];
      assert x in p.rhs && forall y :: y in tail ==> y in p.rhs;
      var next := MakeListFirst(tail);
      SeqFirstAlphabet(r, first, tail);
      forall other | ClosedFollow(r, first, other) ensures next - {EPS} <= FollowOf(other, x) {
        PlaceIsSound(r, first, before, other, p, j);
      }
      FollowStaysSoFar(r, first, follow, x, next - {EPS});
      follow := follow[x := follow[x] + (next - {EPS})];
      if EPS in next {
        FollowKeys(r, first, follow);
        ghost var mid := follow;
        forall other | ClosedFollow(r, first, other) ensures mid[p.lhs] <= FollowOf(other, x) {
          PlaceIsSound(r, first, mid, other, p, j);
        }
        FollowStaysSoFar(r, first, follow, x, follow[p.lhs]);
        follow := follow[x := follow[x] + follow[p.lhs]];
      }
    }

    method FollowRound()
      requires Proper(r) && FirstSoFar(r, first) && FollowSoFar(r, first, follow)
      modifies `follow
      ensures FollowSoFar(r, first, follow) && Grows(old(follow), follow, r.vn)
      ensures SeenTo(r, first, old(follow), follow, |r.prods|, 0)
    {
      hide FirstSoFar, FollowSoFar, SeqFirst;
      FollowKeys(r, first, follow);
      ghost var before := follow;
      var i := 0;
      while i < |r.prods|
        invariant 0 <= i <= |r.prods| && FollowSoFar(r, first, follow) && Grows(before, follow, r.vn)
        invariant SeenTo(r, first, before, follow, i, 0)
      {
        var j := 0;
        while j < |r.prods[i].rhs|
          invariant 0 <= j <= |r.prods[i].rhs| && FollowSoFar(r, first, follow) && Grows(before, follow, r.vn)
          invariant SeenTo(r, first, before, follow, i, j)
        {
          ghost var mid := follow;
          if r.prods[i].rhs[j].Vn? {
            AddFollow(r.prods[i], j);
            SeenStays(r, first, before, mid, follow, i, j);
          }
          SeenNext(r, first, before, mid, follow, i, j);
          j := j + 1;
        }
        i := i + 1;
      }
    }

    method TotalFollow() returns (size: nat)
      requires forall x :: x in r.vn ==> x in follow
      ensures size == Size(follow, r.vn)
    {
      size := 0;
      var i := 0;
      while i < |r.vn|
        invariant 0 <= i <= |r.vn| && size == Size(follow, r.vn[..i])
      {
        assert r.vn[..i + 1] == r.vn[..i] + [r.vn[i]];
        size := size + |follow[r.vn[i]]|;
        i := i + 1;
      }
      assert r.vn[..i] == r.vn;
    }

    method MakeFollow()
      requires Proper(r) && FirstSoFar(r, first)
      modifies `follow
      ensures FollowSoFar(r, first, follow) && LeastFollow(r, first, follow)
    {
      hide FirstSoFar, SeqFirst, ClosedFollow;
      follow := map x | x in r.vn :: if x == r.start then {EOI} else {};
      ghost var all := Alphabet(r);
      forall other | ClosedFollow(r, first, other) ensures FollowBelow(r, follow, other) {
        EndIsFollowing(r, first, other);
      }
      while true
        invariant FollowSoFar(r, first, follow)
        decreases |r.vn| * |all| - Size(follow, r.vn)
      {
        ghost var before := follow;
        var oldSize := TotalFollow();
        FollowRound();
        var newSize := TotalFollow();
        SameSizeSameSets(before, follow, r.vn);
        SizeIsBounded(follow, r.vn, all);
        if oldSize == newSize {
          QuietFollowCloses(r, first, before, follow);
          break;
        }
      }
    }

    /** Fills every cell with the first production of its row that predicts its column. */
    method MakeParsingTable()
      requires Proper(r) && FirstSoFar(r, first) && FollowSoFar(r, first, follow)
      modifies `table
      ensures IsTable(r, first, follow, table)
    {
      hide FirstSoFar, FollowSoFar, Predicts, IsRow;
      table := [];
      var i := 0;
      while i < |r.vn|
        invariant 0 <= i <= |r.vn| && |table| == i
        invariant forall k :: 0 <= k < i ==> IsRow(r, first, follow, r.vn[k], table[k])
      {
        var row := MakeRow(r.vn[i]);
        table := table + [row];
        i := i + 1;
      }
    }

    method MakeRow(x: Symbol) returns (row: seq<Entry>)
      requires Proper(r) && FirstSoFar(r, first) && FollowSoFar(r, first, follow) && x in r.vn
      ensures IsRow(r, first, follow, x, row)
    {
      hide FirstSoFar, FollowSoFar, Predicts, Choice;
      var cols := r.vt + [EOI];
      row := [];
      var j := 0;
      while j < |cols|
        invariant 0 <= j <= |cols| && |row| == j
        invariant forall k :: 0 <= k < j ==> row[k] == Choice(r.prods, first, follow, x, cols[k])
      {
        var entry := Choose(x, cols[j]);
        row := row + [entry];
        j := j + 1;
      }
    }

    method Choose(x: Symbol, a: Symbol) returns (entry: Entry)
      requires Proper(r) && FirstSoFar(r, first) && FollowSoFar(r, first, follow) && x in r.vn
      ensures entry == Choice(r.prods, first, follow, x, a)
    {
      hide FirstSoFar, SeqFirst;
      entry := None;
      var k := 0;
      while k < |r.prods|
        invariant 0 <= k <= |r.prods| && entry == None
        invariant Choice(r.prods, first, follow, x, a) == Choice(r.prods[k..], first, follow, x, a)
      {
        var p := r.prods[k];
        assert r.prods[k..][1..] == r.prods[k + 1..];
        if p.lhs == x {
          var firsts := MakeListFirst(p.rhs);
          if a in firsts {
            entry := Some(p);
            break;
          } else if EPS in firsts && a in follow[x] {
            entry := Some(p);
            break;
          }
        }
        k := k + 1;
      }
    }
  }
}
