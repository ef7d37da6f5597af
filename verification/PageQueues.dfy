/**
 * The policies that keep their pages in an order of eviction: least recently used, first in first
 * out and the clock. All three evict the front of the order and put a missed page at its end; they
 * differ in where a hit moves a page to. One potential argument bounds all of them by the number
 * of frames times the replacements of any demand policy.
 */
module PageQueues {
  import opened Sequences
  import opened PageOptimal

  /** Weight, front of the order 1, of the pages that the other policy does not hold. */
  function Potential(q: seq<int>, mem: set<int>): nat {
    if q == [] then 0
    else Potential(q[..|q| - 1], mem) + if q[|q| - 1] in mem then 0 else |q|
  }

  function Missing(q: seq<int>, mem: set<int>): nat {
    if q == [] then 0
    else Missing(q[..|q| - 1], mem) + if q[|q| - 1] in mem then 0 else 1
  }

  lemma {:induction false} PotentialOfHeld(q: seq<int>, mem: set<int>)
    requires Pages(q) <= mem
    ensures Potential(q, mem) == 0
  {
    if q != [] {
      assert q[|q| - 1] in Pages(q);
      forall x | x in Pages(q[..|q| - 1]) ensures x in mem {
        assert x in Pages(q);
      }
      PotentialOfHeld(q[..|q| - 1], mem);
    }
  }

  /** Holding more pages does not raise the potential. */
  lemma {:induction false} PotentialFalls(q: seq<int>, mem: set<int>, more: set<int>)
    requires forall x :: x in q && x in mem ==> x in more
    ensures Potential(q, more) <= Potential(q, mem)
  {
    if q != [] {
      var r, last := q[..|q| - 1], q[|q| - 1];
      assert forall x :: x in r ==> x in q;
      assert last in q && (last in mem ==> last in more);
      PotentialFalls(r, mem, more);
      assert Potential(q, more) == Potential(r, more) + if last in more then 0 else |q|;
    }
  }

  /** One replacement by the other policy raises the potential by at most the number of frames. */
  lemma {:induction false} PotentialAfterSwap(q: seq<int>, mem: set<int>, v: int, p: int)
    requires Distinct(q)
    ensures Potential(q, mem - {v} + {p}) <= Potential(q, mem) + |q|
  {
    if q != [] {
      var r := q[..|q| - 1];
      if q[|q| - 1] == v {
        PotentialFalls(r, mem, mem - {v} + {p});
      } else {
        PotentialAfterSwap(r, mem, v, p);
      }
    }
  }

  /** Taking the front page away moves every other page one place forward. */
  lemma {:induction false} PotentialOfTail(q: seq<int>, mem: set<int>)
    requires q != []
    ensures Potential(q[1..], mem) + Missing(q, mem) == Potential(q, mem)
  {
    if |q| > 1 {
      PotentialOfTail(q[..|q| - 1], mem);
      assert q[1..][..|q[1..]| - 1] == q[..|q| - 1][1..];
    } else {
      assert q[..|q| - 1] == [] && q[1..] == [];
    }
  }

  lemma {:induction false} MissingSome(q: seq<int>, mem: set<int>)
    requires Missing(q, mem) == 0
    ensures Pages(q) <= mem
  {
    if q != [] {
      MissingSome(q[..|q| - 1], mem);
      forall x | x in q ensures x in mem {
        assert x == q[|q| - 1] || x in Pages(q[..|q| - 1]);
      }
    }
  }

  lemma {:induction false} PageCount(q: seq<int>)
    requires Distinct(q)
    ensures |Pages(q)| == |q|
  {
    if q == [] {
      assert Pages(q) == {};
    } else {
      PageCount(q[..|q| - 1]);
      assert Pages(q) == Pages(q[..|q| - 1]) + {q[|q| - 1]};
    }
  }

  lemma SubsetSize<T>(a: set<T>, b: set<T>)
    requires a <= b && |a| == |b|
    ensures a == b
  {
    if a != b {
      assert !(b <= a);
      var x :| x in b && x !in a;
      SubsetLess(a, b - {x});
    }
  }

  /** A miss: the front goes, the page held by the other policy comes in at the end. */
  lemma PotentialAfterMiss(q: seq<int>, mem: set<int>, p: int)
    requires q != [] && Distinct(q) && |mem| == |q| && p in mem && p !in q
    ensures Potential(q[1..] + [p], mem) + 1 <= Potential(q, mem)
  {
    var next := q[1..] + [p];
    assert next[..|next| - 1] == q[1..];
    PotentialOfTail(q, mem);
    if Missing(q, mem) == 0 {
      MissingSome(q, mem);
      PageCount(q);
      SubsetSize(Pages(q), mem);
    }
  }

  lemma {:induction false} PotentialInsertsHeld(q: seq<int>, j: nat, p: int, mem: set<int>)
    requires p in mem && j <= |q|
    ensures Potential(q, mem) <= Potential(q[..j] + [p] + q[j..], mem)
    decreases |q|
  {
    var r := q[..j] + [p] + q[j..];
    if j == |q| {
      assert r[..|r| - 1] == q;
    } else {
      PotentialInsertsHeld(q[..|q| - 1], j, p, mem);
      assert r[..|r| - 1] == q[..|q| - 1][..j] + [p] + q[..|q| - 1][j..];
    }
  }

  lemma MovedInFront(q: seq<int>, i: nat, j: nat)
    requires i <= j < |q| - 1
    ensures var m := Moved(q, i, j);
            m[..|m| - 1] == Moved(q[..|q| - 1], i, j) && m[|m| - 1] == q[|q| - 1]
  {
  }

  lemma MovedToEnd(q: seq<int>, i: nat)
    requires i < |q|
    ensures var m, r := Moved(q, i, |q| - 1), q[..i] + q[i + 1..];
            m[..|m| - 1] == r && m[|m| - 1] == q[i] && r[..i] + [q[i]] + r[i..] == q
  {
  }

  /** A held page moving away from the front does not raise the potential. */
  lemma {:induction false} PotentialAfterMove(q: seq<int>, i: nat, j: nat, mem: set<int>)
    requires i < |q| && i <= j < |q| && q[i] in mem
    ensures Potential(Moved(q, i, j), mem) <= Potential(q, mem)
    decreases |q|
  {
    hide Moved;
    if j < |q| - 1 {
      PotentialAfterMove(q[..|q| - 1], i, j, mem);
      MovedInFront(q, i, j);
    } else {
      var r := q[..i] + q[i + 1..];
      MovedToEnd(q, i);
      PotentialInsertsHeld(r, i, q[i], mem);
    }
  }

  /** The order with its element at i taken out and put back so that it stands at j. */
  function Moved(q: seq<int>, i: nat, j: nat): (r: seq<int>)
    requires i <= j < |q|
    ensures |r| == |q|
  {
    q[..i] + q[i + 1..j + 1] + [q[i]] + q[j + 1..]
  }

  lemma MovedPages(q: seq<int>, i: nat, j: nat)
    requires i <= j < |q| && Distinct(q)
    ensures Distinct(Moved(q, i, j)) && Pages(Moved(q, i, j)) == Pages(q)
  {
    var m := Moved(q, i, j);
    MovedAt(q, i, j);
    forall x | x in Pages(q) ensures x in m {
      var k :| 0 <= k < |q| && q[k] == x;
      assert m[if k < i || k > j then k else if k == i then j else k - 1] == x;
    }
  }

  lemma MovedAt(q: seq<int>, i: nat, j: nat)
    requires i <= j < |q|
    ensures forall k :: 0 <= k < |q| ==>
              Moved(q, i, j)[k] == if k < i || k > j then q[k] else if k == j then q[i] else q[k + 1]
  {
    var m, a, b := Moved(q, i, j), q[..i], q[i + 1..j + 1];
    assert m == a + (b + ([q[i]] + q[j + 1..]));
    forall k | 0 <= k < |q| ensures m[k] == if k < i || k > j then q[k] else if k == j then q[i] else q[k + 1] {
      if i <= k < j {
        assert m[k] == b[k - i] == q[k + 1];
      }
    }
  }

  lemma ShiftedPages(q: seq<int>, p: int)
    requires q != [] && Distinct(q) && p !in q
    ensures Distinct(q[1..] + [p]) && Pages(q[1..] + [p]) == Pages(q) - {q[0]} + {p}
  {
    var next := q[1..] + [p];
    assert next[|q| - 1] == p;
    forall x | x in Pages(q) - {q[0]} ensures x in next {
      var k :| 0 <= k < |q| && q[k] == x;
      assert next[k - 1] == x;
    }
  }

  /** One reference served by a queue policy: what it costs and how the order changes. */
  ghost predicate Serves(q: seq<int>, p: int, next: seq<int>, cost: nat) {
    if p in q then cost == 0 && exists i, j :: 0 <= i <= j < |q| && q[i] == p && next == Moved(q, i, j)
    else cost == 1 && q != [] && next == q[1..] + [p]
  }

  /** A run of a queue policy: the orders before each reference and after the last one. */
  ghost predicate Run(orders: seq<seq<int>>, refs: seq<int>, costs: seq<nat>) {
    && |orders| == |refs| + 1 && |costs| == |refs|
    && forall k :: 0 <= k < |refs| ==> Serves(orders[k], refs[k], orders[k + 1], costs[k])
  }

  function Total(costs: seq<nat>): nat {
    if costs == [] then 0 else costs[0] + Total(costs[1..])
  }

  lemma ServesKeeps(q: seq<int>, p: int, next: seq<int>, cost: nat)
    requires q != [] && Distinct(q) && Serves(q, p, next, cost)
    ensures |next| == |q| && Distinct(next)
    ensures Pages(next) == if p in q then Pages(q) else Pages(q) - {q[0]} + {p}
  {
    if p in q {
      var i, j :| 0 <= i <= j < |q| && q[i] == p && next == Moved(q, i, j);
      MovedPages(q, i, j);
    } else {
      ShiftedPages(q, p);
    }
  }

  /** One reference, served by the other policy first: cost and potential against its replacements. */
  lemma ServesIsPaid(q: seq<int>, p: int, next: seq<int>, cost: nat, mem: set<int>)
    requires q != [] && Distinct(q) && Serves(q, p, next, cost) && |mem| == |q| && p in mem
    ensures cost + Potential(next, mem) <= Potential(q, mem)
  {
    if p in q {
      var i, j :| 0 <= i <= j < |q| && q[i] == p && next == Moved(q, i, j);
      PotentialAfterMove(q, i, j, mem);
    } else {
      PotentialAfterMiss(q, mem, p);
    }
  }

  lemma OneLess(k: nat, c: nat)
    ensures k * (c - 1) + k == k * c
  {
  }

  /** Competitiveness with the potential carried along. */
  lemma {:induction false} RunIsPaid(orders: seq<seq<int>>, refs: seq<int>, costs: seq<nat>, mem: set<int>, c: nat)
    requires Run(orders, refs, costs) && orders[0] != [] && Distinct(orders[0]) && |mem| == |orders[0]|
    requires Feasible(mem, refs, c)
    ensures Total(costs) <= |orders[0]| * c + Potential(orders[0], mem)
    decreases |refs|
  {
    hide Serves, Potential, Run, Distinct;
    RunLengths(orders, refs, costs);
    if refs != [] {
      var q, p, next := orders[0], refs[0], orders[1];
      ServesKeeps(q, p, next, costs[0]);
      RunTail(orders, refs, costs);
      if p in mem {
        ServesIsPaid(q, p, next, costs[0], mem);
        RunIsPaid(orders[1..], refs[1..], costs[1..], mem, c);
      } else {
        var v := FeasibleMissed(mem, refs, c);
        var held := mem - {v} + {p};
        PotentialAfterSwap(q, mem, v, p);
        ServesIsPaid(q, p, next, costs[0], held);
        RunIsPaid(orders[1..], refs[1..], costs[1..], held, c - 1);
        OneLess(|q|, c);
      }
    }
  }

  lemma RunLengths(orders: seq<seq<int>>, refs: seq<int>, costs: seq<nat>)
    requires Run(orders, refs, costs)
    ensures |orders| == |refs| + 1 && |costs| == |refs|
    ensures refs != [] ==> Serves(orders[0], refs[0], orders[1], costs[0])
  {
  }

  lemma RunTail(orders: seq<seq<int>>, refs: seq<int>, costs: seq<nat>)
    requires Run(orders, refs, costs) && refs != []
    ensures Run(orders[1..], refs[1..], costs[1..])
  {
    forall k | 0 <= k < |refs[1..]| ensures Serves(orders[1..][k], refs[1..][k], orders[1..][k + 1], costs[1..][k]) {
      assert Serves(orders[k + 1], refs[k + 1], orders[k + 2], costs[k + 1]);
    }
  }

  /**
   * Every queue policy, starting with the same pages as any demand policy, makes at most as many
   * times more replacements than it as there are frames.
   */
  lemma QueuesAreCompetitive(orders: seq<seq<int>>, refs: seq<int>, costs: seq<nat>, c: nat)
    requires Run(orders, refs, costs) && orders[0] != [] && Distinct(orders[0])
    requires Feasible(Pages(orders[0]), refs, c)
    ensures Total(costs) <= |orders[0]| * c
  {
    PageCount(orders[0]);
    PotentialOfHeld(orders[0], Pages(orders[0]));
    RunIsPaid(orders, refs, costs, Pages(orders[0]), c);
  }
}
