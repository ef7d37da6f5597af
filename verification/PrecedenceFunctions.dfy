/**
 * Precedence functions for an operator precedence matrix: two rows of numbers are raised, pair by
 * pair, until every relation of the matrix holds between them. The iteration ends if and only if the
 * relations can be met at all, and then with the least numbers, from 1 on, that meet them.
 */
module PrecedenceFunctions {
  datatype Relation = Unrelated | Less | Equal | Greater

  predicate Meets(rel: Relation, f: int, g: int) {
    match rel
    case Unrelated => true
    case Less => f < g
    case Equal => f == g
    case Greater => f > g
  }

  predicate IsMatrix(m: seq<seq<Relation>>) {
    forall i :: 0 <= i < |m| ==> |m[i]| == |m|
  }

  /** Numbers from 1 on between which every relation of the matrix holds. */
  predicate Solves(m: seq<seq<Relation>>, f: seq<int>, g: seq<int>)
    requires IsMatrix(m)
  {
    && |f| == |g| == |m|
    && (forall i :: 0 <= i < |m| ==> f[i] >= 1 && g[i] >= 1)
    && forall i, j :: 0 <= i < |m| && 0 <= j < |m| ==> Meets(m[i][j], f[i], g[j])
  }

  predicate BelowAll(a: seq<int>, b: seq<int>) {
    |a| == |b| && forall i :: 0 <= i < |a| ==> a[i] <= b[i]
  }

  /** Pointwise no greater than any solution. */
  ghost predicate UnderSolutions(m: seq<seq<Relation>>, f: seq<int>, g: seq<int>)
    requires IsMatrix(m)
  {
    forall f', g' :: Solves(m, f', g') ==> BelowAll(f, f') && BelowAll(g, g')
  }

  /** How much is left between the numbers and a solution. */
  function Distance(a: seq<int>, b: seq<int>): int
    requires |a| == |b|
  {
    if a == [] then 0 else b[0] - a[0] + Distance(a[1..], b[1..])
  }

  lemma {:induction false} DistanceIsNat(a: seq<int>, b: seq<int>)
    requires BelowAll(a, b)
    ensures Distance(a, b) >= 0
  {
    if a != [] {
      DistanceIsNat(a[1..], b[1..]);
    }
  }

  /** What one pair of numbers becomes. */
  function Raised(rel: Relation, f: int, g: int): (int, int) {
    if rel == Greater && f <= g then (g + 1, g)
    else if rel == Less && f >= g then (f, f + 1)
    else if rel == Equal && f != g then if f > g then (f, f) else (g, g)
    else (f, g)
  }

  /** Raising a pair does not carry it over any solution, and changes it exactly when its relation fails. */
  lemma RaisedStaysUnder(rel: Relation, f: int, g: int, f': int, g': int)
    requires f <= f' && g <= g' && Meets(rel, f', g')
    ensures Raised(rel, f, g).0 <= f' && Raised(rel, f, g).1 <= g'
    ensures Raised(rel, f, g).0 >= f && Raised(rel, f, g).1 >= g
    ensures Raised(rel, f, g) == (f, g) <==> Meets(rel, f, g)
  {
  }

  lemma PairStaysUnder(m: seq<seq<Relation>>, f: seq<int>, g: seq<int>, i: nat, j: nat)
    requires IsMatrix(m) && |f| == |g| == |m| && i < |m| && j < |m| && UnderSolutions(m, f, g)
    ensures var p := Raised(m[i][j], f[i], g[j]); UnderSolutions(m, f[i := p.0], g[j := p.1])
  {
    var p := Raised(m[i][j], f[i], g[j]);
    forall f', g' | Solves(m, f', g') ensures BelowAll(f[i := p.0], f') && BelowAll(g[j := p.1], g') {
      assert BelowAll(f, f') && BelowAll(g, g') && Meets(m[i][j], f'[i], g'[j]);
      RaisedStaysUnder(m[i][j], f[i], g[j], f'[i], g'[j]);
    }
  }

  lemma RelationsHold(m: seq<seq<Relation>>, f: seq<int>, g: seq<int>)
    requires IsMatrix(m) && Solves(m, f, g)
    ensures |f| == |g| == |m|
    ensures forall i, j :: 0 <= i < |m| && 0 <= j < |m| ==>
              (m[i][j] == Less ==> f[i] < g[j]) && (m[i][j] == Equal ==> f[i] == g[j]) && (m[i][j] == Greater ==> f[i] > g[j])
  {
    forall i, j | 0 <= i < |m| && 0 <= j < |m|
      ensures (m[i][j] == Less ==> f[i] < g[j]) && (m[i][j] == Equal ==> f[i] == g[j]) && (m[i][j] == Greater ==> f[i] > g[j])
    {
      assert Meets(m[i][j], f[i], g[j]);
    }
  }

  // ----- passes over the two rows -----

  datatype Rows = Rows(f: seq<int>, g: seq<int>)

  predicate Fit(m: seq<seq<Relation>>, r: Rows) {
    IsMatrix(m) && |r.f| == |r.g| == |m|
  }

  predicate FromOne(r: Rows) {
    (forall k :: 0 <= k < |r.f| ==> r.f[k] >= 1) && forall k :: 0 <= k < |r.g| ==> r.g[k] >= 1
  }

  function Ones(n: nat): Rows {
    Rows(seq(n, _ => 1), seq(n, _ => 1))
  }

  /** The rows after one pair has been looked at. */
  function RaisedAt(m: seq<seq<Relation>>, r: Rows, i: nat, j: nat): (s: Rows)
    requires Fit(m, r) && i < |m| && j < |m|
    ensures Fit(m, s)
  {
    var p := Raised(m[i][j], r.f[i], r.g[j]);
    Rows(r.f[i := p.0], r.g[j := p.1])
  }

  /** The rows after all pairs from (i, j) on have been looked at, row by row. */
  function PassFrom(m: seq<seq<Relation>>, r: Rows, i: nat, j: nat): (s: Rows)
    requires Fit(m, r) && i <= |m| && j <= |m|
    ensures Fit(m, s)
    decreases |m| - i, |m| - j
  {
    if i == |m| then r
    else if j == |m| then PassFrom(m, r, i + 1, 0)
    else PassFrom(m, RaisedAt(m, r, i, j), i, j + 1)
  }

  function Passes(m: seq<seq<Relation>>, r: Rows, k: nat): (s: Rows)
    requires Fit(m, r)
    ensures Fit(m, s)
  {
    if k == 0 then r else PassFrom(m, Passes(m, r, k - 1), 0, 0)
  }

  predicate Above(r: Rows, s: Rows) {
    BelowAll(r.f, s.f) && BelowAll(r.g, s.g)
  }

  lemma PairRises(m: seq<seq<Relation>>, r: Rows, i: nat, j: nat)
    requires Fit(m, r) && i < |m| && j < |m|
    ensures Above(r, RaisedAt(m, r, i, j)) && (FromOne(r) ==> FromOne(RaisedAt(m, r, i, j)))
    ensures RaisedAt(m, r, i, j) == r <==> Meets(m[i][j], r.f[i], r.g[j])
  {
    var p := Raised(m[i][j], r.f[i], r.g[j]);
    assert RaisedAt(m, r, i, j).f[i] == p.0 && RaisedAt(m, r, i, j).g[j] == p.1;
  }

  /** A pass only raises, and it leaves the rows alone exactly when every pair it looks at meets its relation. */
  lemma {:induction false} PassRises(m: seq<seq<Relation>>, r: Rows, i: nat, j: nat)
    requires Fit(m, r) && i <= |m| && j <= |m|
    ensures Above(r, PassFrom(m, r, i, j)) && (FromOne(r) ==> FromOne(PassFrom(m, r, i, j)))
    ensures PassFrom(m, r, i, j) == r <==> MeetsFrom(m, r, i, j)
    decreases |m| - i, |m| - j
  {
    hide Meets, Raised, FromOne;
    if i == |m| {
    } else if j == |m| {
      PassRises(m, r, i + 1, 0);
    } else {
      var s := RaisedAt(m, r, i, j);
      PairRises(m, r, i, j);
      PassRises(m, s, i, j + 1);
      if PassFrom(m, r, i, j) == r {
        Sandwiched(r, s);
      }
    }
  }

  /** Every pair from (i, j) on, row by row, meets its relation. */
  predicate MeetsFrom(m: seq<seq<Relation>>, r: Rows, i: nat, j: nat)
    requires Fit(m, r) && i <= |m| && j <= |m|
    decreases |m| - i, |m| - j
  {
    if i == |m| then true
    else if j == |m| then MeetsFrom(m, r, i + 1, 0)
    else Meets(m[i][j], r.f[i], r.g[j]) && MeetsFrom(m, r, i, j + 1)
  }

  lemma Sandwiched(r: Rows, s: Rows)
    requires Above(r, s) && Above(s, r)
    ensures r == s
  {
    assert r.f == s.f && r.g == s.g;
  }

  lemma {:induction false} MeetsFromIs(m: seq<seq<Relation>>, r: Rows, i: nat, j: nat)
    requires Fit(m, r) && i <= |m| && j <= |m|
    ensures MeetsFrom(m, r, i, j) <==>
              forall k, l :: i <= k < |m| && (if k == i then j else 0) <= l < |m| ==> Meets(m[k][l], r.f[k], r.g[l])
    decreases |m| - i, |m| - j
  {
    hide Meets;
    if i == |m| {
    } else if j == |m| {
      MeetsFromIs(m, r, i + 1, 0);
    } else {
      MeetsFromIs(m, r, i, j + 1);
    }
  }

  /** A pass changes nothing exactly on solutions. */
  lemma FixedIsSolution(m: seq<seq<Relation>>, r: Rows)
    requires Fit(m, r) && FromOne(r)
    ensures PassFrom(m, r, 0, 0) == r <==> Solves(m, r.f, r.g)
  {
    hide Meets, PassFrom, MeetsFrom;
    PassRises(m, r, 0, 0);
    MeetsFromIs(m, r, 0, 0);
  }

  /** A pass stays under every solution. */
  lemma {:induction false} PassStaysUnder(m: seq<seq<Relation>>, r: Rows, i: nat, j: nat)
    requires Fit(m, r) && i <= |m| && j <= |m| && UnderSolutions(m, r.f, r.g)
    ensures UnderSolutions(m, PassFrom(m, r, i, j).f, PassFrom(m, r, i, j).g)
    decreases |m| - i, |m| - j
  {
    hide UnderSolutions;
    if i == |m| {
    } else if j == |m| {
      PassStaysUnder(m, r, i + 1, 0);
    } else {
      PairStaysUnder(m, r.f, r.g, i, j);
      PassStaysUnder(m, RaisedAt(m, r, i, j), i, j + 1);
    }
  }

  /** How much is left of both rows. */
  function Left(r: Rows, goal: Rows): int
    requires |r.f| == |goal.f| && |r.g| == |goal.g|
  {
    Distance(r.f, goal.f) + Distance(r.g, goal.g)
  }

  lemma {:induction false} DistanceShrinks(a: seq<int>, b: seq<int>, c: seq<int>)
    requires BelowAll(a, b) && |c| == |a|
    ensures Distance(b, c) <= Distance(a, c) && (a != b ==> Distance(b, c) < Distance(a, c))
  {
    if a != [] {
      DistanceShrinks(a[1..], b[1..], c[1..]);
      assert a == [a[0]] + a[1..] && b == [b[0]] + b[1..];
    }
  }

  lemma PassIsNearer(m: seq<seq<Relation>>, r: Rows, goal: Rows)
    requires Fit(m, r) && |goal.f| == |goal.g| == |m| && UnderSolutions(m, r.f, r.g) && Solves(m, goal.f, goal.g)
    ensures var s := PassFrom(m, r, 0, 0);
            0 <= Left(s, goal) && UnderSolutions(m, s.f, s.g) && (s != r ==> Left(s, goal) < Left(r, goal))
  {
    hide PassFrom, Distance, Solves;
    var s := PassFrom(m, r, 0, 0);
    PassRises(m, r, 0, 0);
    PassStaysUnder(m, r, 0, 0);
    DistanceShrinks(r.f, s.f, goal.f);
    DistanceShrinks(r.g, s.g, goal.g);
    DistanceIsNat(s.f, goal.f);
    DistanceIsNat(s.g, goal.g);
  }

  lemma OnesAreUnder(m: seq<seq<Relation>>)
    requires IsMatrix(m)
    ensures Fit(m, Ones(|m|)) && FromOne(Ones(|m|)) && UnderSolutions(m, Ones(|m|).f, Ones(|m|).g)
  {
  }

  lemma {:induction false} PassesAreUnder(m: seq<seq<Relation>>, k: nat)
    requires IsMatrix(m)
    ensures Fit(m, Ones(|m|))
    ensures var r := Passes(m, Ones(|m|), k); FromOne(r) && UnderSolutions(m, r.f, r.g)
  {
    hide PassFrom, UnderSolutions, FromOne, Ones;
    OnesAreUnder(m);
    if k > 0 {
      PassesAreUnder(m, k - 1);
      PassRises(m, Passes(m, Ones(|m|), k - 1), 0, 0);
      PassStaysUnder(m, Passes(m, Ones(|m|), k - 1), 0, 0);
    }
  }

  /** With a solution to come nearer to, some pass is the last. */
  lemma {:induction false} SomePassIsLast(m: seq<seq<Relation>>, goal: Rows, k: nat) returns (n: nat)
    requires IsMatrix(m) && |goal.f| == |goal.g| == |m| && Solves(m, goal.f, goal.g)
    requires Fit(m, Ones(|m|))
    ensures Passes(m, Ones(|m|), n + 1) == Passes(m, Ones(|m|), n)
    decreases Left(Passes(m, Ones(|m|), k), goal)
  {
    hide PassFrom, UnderSolutions, Left, Solves;
    PassesAreUnder(m, k);
    var r := Passes(m, Ones(|m|), k);
    PassIsNearer(m, r, goal);
    if Passes(m, Ones(|m|), k + 1) == r {
      n := k;
    } else {
      n := SomePassIsLast(m, goal, k + 1);
    }
  }

  /**
   * From all ones, some pass changes nothing if and only if the relations can be met at all; on any
   * other matrix every pass changes something, for ever.
   */
  lemma PassesEndExactly(m: seq<seq<Relation>>)
    requires IsMatrix(m)
    ensures Fit(m, Ones(|m|))
    ensures (exists k: nat :: Passes(m, Ones(|m|), k + 1) == Passes(m, Ones(|m|), k)) <==> exists f, g :: Solves(m, f, g)
  {
    hide PassFrom, UnderSolutions, Solves, FromOne, Ones;
    OnesAreUnder(m);
    if k: nat :| Passes(m, Ones(|m|), k + 1) == Passes(m, Ones(|m|), k) {
      PassesAreUnder(m, k);
      var r := Passes(m, Ones(|m|), k);
      assert Passes(m, Ones(|m|), k + 1) == PassFrom(m, r, 0, 0);
      FixedIsSolution(m, r);
      assert Solves(m, r.f, r.g);
    } else if f, g :| Solves(m, f, g) {
      SolutionLengths(m, f, g);
      var n := SomePassIsLast(m, Rows(f, g), 0);
    }
  }

  lemma SolutionLengths(m: seq<seq<Relation>>, f: seq<int>, g: seq<int>)
    requires IsMatrix(m) && Solves(m, f, g)
    ensures |f| == |g| == |m|
  {
  }

  class Table {
    const m: seq<seq<Relation>>
    const head: seq<int>
    const fValues: array<int>
    const gValues: array<int>

    constructor (terminals: seq<int>, matrix: seq<seq<Relation>>)
      requires IsMatrix(matrix) && |terminals| == |matrix| && forall i, j :: 0 <= i < j < |terminals| ==> terminals[i] != terminals[j]
      ensures Valid() && m == matrix && fresh(fValues) && fresh(gValues)
    {
      m, head := matrix, terminals;
      fValues, gValues := new int[|matrix|], new int[|matrix|];
    }

    ghost predicate Valid() {
      && IsMatrix(m) && |head| == |m| && fValues.Length == gValues.Length == |m| && fValues != gValues
      && forall i, j :: 0 <= i < j < |head| ==> head[i] != head[j]
    }

    /** The relation between two terminals, found by their places in the heading. */
    method GetPrec(t1: int, t2: int) returns (rel: Relation)
      requires Valid()
      ensures forall i, j :: 0 <= i < |m| && 0 <= j < |m| && head[i] == t1 && head[j] == t2 ==> rel == m[i][j]
    {
      rel := Unrelated;
      var i := 0;
      while i < |m|
        invariant 0 <= i <= |m| && (t1 !in head[..i] || t2 !in head)
      {
        if head[i] == t1 {
          var j := 0;
          while j < |m|
            invariant 0 <= j <= |m| && t2 !in head[..j]
          {
            if head[j] == t2 {
              return m[i][j];
            }
            j := j + 1;
          }
          assert head[..j] == head;
        }
        i := i + 1;
      }
      assert head[..|m|] == head;
    }

    ghost function Now(): Rows
      reads fValues, gValues
    {
      Rows(fValues[..], gValues[..])
    }

    /** Raises one pair where its relation fails. */
    method RaisePair(i: nat, j: nat) returns (changed: bool)
      requires Valid() && i < |m| && j < |m|
      modifies fValues, gValues
      ensures Now() == RaisedAt(m, old(Now()), i, j)
      ensures changed <==> Now() != old(Now())
    {
      ghost var r := Now();
      var rel := GetPrec(head[i], head[j]);
      assert rel == m[i][j];
      ghost var p := Raised(rel, r.f[i], r.g[j]);
      PairRises(m, r, i, j);
      changed := false;
      if rel == Greater && fValues[i] <= gValues[j] {
        fValues[i] := gValues[j] + 1;
        changed := true;
      } else if rel == Less && fValues[i] >= gValues[j] {
        gValues[j] := fValues[i] + 1;
        changed := true;
      } else if rel == Equal && fValues[i] != gValues[j] {
        if fValues[i] > gValues[j] {
          gValues[j] := fValues[i];
        } else {
          fValues[i] := gValues[j];
        }
        changed := true;
      }
      assert fValues[..] == r.f[i := p.0] && gValues[..] == r.g[j := p.1];
    }

    /** One pass over all pairs; it reports whether it changed anything. */
    method Pass() returns (changed: bool)
      requires Valid()
      modifies fValues, gValues
      ensures Fit(m, old(Now())) && Now() == PassFrom(m, old(Now()), 0, 0)
      ensures changed <==> Now() != old(Now())
    {
      hide Raised;
      changed := false;
      var i := 0;
      while i < |m|
        invariant 0 <= i <= |m| && PassFrom(m, old(Now()), 0, 0) == PassFrom(m, Now(), i, 0)
        invariant Above(old(Now()), Now()) && (changed <==> Now() != old(Now()))
      {
        var j := 0;
        while j < |m|
          invariant 0 <= j <= |m| && PassFrom(m, old(Now()), 0, 0) == PassFrom(m, Now(), i, j)
          invariant Above(old(Now()), Now()) && (changed <==> Now() != old(Now()))
        {
          ghost var r := Now();
          PairRises(m, r, i, j);
          var one := RaisePair(i, j);
          if one && Now() == old(Now()) {
            Sandwiched(r, Now());
          }
          changed := changed || one;
          j := j + 1;
        }
        i := i + 1;
      }
    }

    /**
     * For every matrix whose relations some numbers from 1 on meet, ends and leaves the least such
     * numbers: a solution that is pointwise below every solution. What it leaves is what passes from
     * all ones come to.
     */
    method MakePrecFunc()
      requires Valid() && exists f, g :: Solves(m, f, g)
      modifies fValues, gValues
      ensures Solves(m, fValues[..], gValues[..])
      ensures forall i, j :: 0 <= i < |m| && 0 <= j < |m| ==>
                && (m[i][j] == Less ==> fValues[i] < gValues[j]) && (m[i][j] == Equal ==> fValues[i] == gValues[j])
                && (m[i][j] == Greater ==> fValues[i] > gValues[j])
      ensures UnderSolutions(m, fValues[..], gValues[..])
      ensures Fit(m, Ones(|m|)) && exists k: nat :: Now() == Passes(m, Ones(|m|), k) == Passes(m, Ones(|m|), k + 1)
    {
      hide Solves, UnderSolutions, Left, PassFrom;
      ghost var f, g :| Solves(m, f, g);
      SolutionLengths(m, f, g);
      ghost var goal := Rows(f, g);
      for i := 0 to |m|
        invariant forall k :: 0 <= k < i ==> fValues[k] == 1 && gValues[k] == 1
      {
        fValues[i] := 1;
        gValues[i] := 1;
      }
      assert Now() == Ones(|m|);
      ghost var k: nat := 0;
      var again := true;
      OnesAreUnder(m);
      while again
        invariant Now() == Passes(m, Ones(|m|), k)
        invariant !again ==> Passes(m, Ones(|m|), k + 1) == Passes(m, Ones(|m|), k)
        decreases Left(Now(), goal), if again then 1 else 0
      {
        PassesAreUnder(m, k);
        PassIsNearer(m, Now(), goal);
        ghost var before := Now();
        again := Pass();
        if again {
          k := k + 1;
        } else {
          assert Passes(m, Ones(|m|), k + 1) == before;
        }
      }
      PassesAreUnder(m, k);
      FixedIsSolution(m, Now());
      RelationsHold(m, fValues[..], gValues[..]);
    }
  }
}
