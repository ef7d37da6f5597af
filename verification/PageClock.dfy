/**
 * The clock policy. Its frames, read from the hand on, hide an order of eviction: first the frames
 * whose flag is clear, then those whose flag is set. Passing a set flag does not change that
 * order, a replacement takes its front and adds at its end, and setting a flag moves a page back,
 * so the clock is a queue policy.
 */
module PageClock {
  import opened Sequences
  import opened PageOptimal
  import opened PageQueues
  import opened PageRecency

  datatype Frame = Frame(page: int, used: bool)

  function PagesIn(ring: seq<Frame>, used: bool): seq<int> {
    if ring == [] then []
    else (if ring[0].used == used then [ring[0].page] else []) + PagesIn(ring[1..], used)
  }

  function Order(ring: seq<Frame>): seq<int> {
    PagesIn(ring, false) + PagesIn(ring, true)
  }

  predicate Holds(ring: seq<Frame>, p: int) {
    exists i :: 0 <= i < |ring| && ring[i].page == p
  }

  /** Moves the hand past set flags, clearing them, and puts p into the first frame with a clear one. */
  function Replace(ring: seq<Frame>, p: int): (r: seq<Frame>)
    requires ring != []
    ensures |r| == |ring|
    decreases |PagesIn(ring, true)|
  {
    if !ring[0].used then ring[1..] + [Frame(p, true)]
    else
      PassedIsClear(ring);
      Replace(ring[1..] + [Frame(ring[0].page, false)], p)
  }

  /** Sets the flag of the first frame that holds p. */
  function Mark(ring: seq<Frame>, p: int): (r: seq<Frame>)
    ensures |r| == |ring|
  {
    if ring == [] then []
    else if ring[0].page == p then [Frame(p, true)] + ring[1..]
    else [ring[0]] + Mark(ring[1..], p)
  }

  function ClockCost(ring: seq<Frame>, refs: seq<int>): nat
    requires ring != []
    decreases |refs|
  {
    if refs == [] then 0
    else if Holds(ring, refs[0]) then ClockCost(Mark(ring, refs[0]), refs[1..])
    else 1 + ClockCost(Replace(ring, refs[0]), refs[1..])
  }

  // ----- the hidden order -----

  lemma {:induction false} PagesInAppend(a: seq<Frame>, b: seq<Frame>, used: bool)
    ensures PagesIn(a + b, used) == PagesIn(a, used) + PagesIn(b, used)
  {
    if a == [] {
      assert a + b == b;
    } else {
      PagesInAppend(a[1..], b, used);
      assert (a + b)[1..] == a[1..] + b;
      Regroup(if a[0].used == used then [a[0].page] else [], PagesIn(a[1..], used), PagesIn(b, used));
    }
  }

  lemma PassedIsClear(ring: seq<Frame>)
    requires ring != [] && ring[0].used
    ensures Order(ring[1..] + [Frame(ring[0].page, false)]) == Order(ring)
    ensures |PagesIn(ring[1..] + [Frame(ring[0].page, false)], true)| < |PagesIn(ring, true)|
  {
    var f := Frame(ring[0].page, false);
    PagesInAppend(ring[1..], [f], true);
    PagesInAppend(ring[1..], [f], false);
    assert PagesIn([f], true) == [] && PagesIn([f], false) == [f.page];
  }

  /** A replacement evicts the front of the order and puts the new page at its end. */
  lemma {:induction false} ReplaceShifts(ring: seq<Frame>, p: int)
    requires ring != []
    ensures |Order(ring)| > 0 && Order(Replace(ring, p)) == Order(ring)[1..] + [p]
    decreases |PagesIn(ring, true)|
  {
    if ring[0].used {
      PassedIsClear(ring);
      ReplaceShifts(ring[1..] + [Frame(ring[0].page, false)], p);
    } else {
      var f := Frame(p, true);
      PagesInAppend(ring[1..], [f], true);
      PagesInAppend(ring[1..], [f], false);
      assert PagesIn([f], true) == [p] && PagesIn([f], false) == [];
      var a, b := PagesIn(ring[1..], false), PagesIn(ring[1..], true);
      assert PagesIn(ring, false) == [ring[0].page] + a && PagesIn(ring, true) == b;
      ShiftGroups(ring[0].page, a, b, p);
    }
  }

  lemma ShiftGroups(x: int, a: seq<int>, b: seq<int>, p: int)
    ensures ([x] + a + b)[1..] + [p] == a + [] + (b + [p])
  {
  }

  lemma {:induction false} OrderPages(ring: seq<Frame>, p: int)
    ensures p in Order(ring) <==> Holds(ring, p)
    ensures |Order(ring)| == |ring|
  {
    if ring != [] {
      OrderPages(ring[1..], p);
      assert ring == [ring[0]] + ring[1..];
      if Holds(ring[1..], p) {
        var i :| 0 <= i < |ring[1..]| && ring[1..][i].page == p;
        assert ring[i + 1].page == p;
      }
      if Holds(ring, p) && ring[0].page != p {
        var i :| 0 <= i < |ring| && ring[i].page == p;
        assert ring[1..][i - 1].page == p;
      }
    }
  }

  /** Setting a flag moves its page back in the order. */
  lemma {:induction false} MarkMoves(ring: seq<Frame>, p: int) returns (i: nat, j: nat)
    requires Holds(ring, p)
    ensures i <= j < |Order(ring)| && Order(ring)[i] == p && Order(Mark(ring, p)) == Moved(Order(ring), i, j)
  {
    var n := FirstFrame(ring, p);
    var a, f, b := ring[..n], ring[n], ring[n + 1..];
    assert ring == a + ([f] + b) && a + ([Frame(p, true)] + b) == Mark(ring, p);
    SplitOrder(a, f, b, false);
    SplitOrder(a, f, b, true);
    SplitOrder(a, Frame(p, true), b, false);
    SplitOrder(a, Frame(p, true), b, true);
    var u, v := PagesIn(a, false), PagesIn(b, false);
    var s, t := PagesIn(a, true), PagesIn(b, true);
    hide PagesIn, Moved;
    i, j := GroupMoves(u, v, s, t, p, f.used);
  }

  lemma GroupMoves(u: seq<int>, v: seq<int>, s: seq<int>, t: seq<int>, p: int, used: bool) returns (i: nat, j: nat)
    ensures var x, y := if used then [] else [p], if used then [p] else [];
            var before, after := (u + (x + v)) + (s + (y + t)), (u + ([] + v)) + (s + ([p] + t));
            i <= j < |before| && before[i] == p && Moved(before, i, j) == after
  {
    hide Moved;
    i := if used then |u + v + s| else |u|;
    j := |u + v + s|;
    Ungroup(u, [], v, s, [p], t);
    if used {
      assert u + [] + (v + s) == u + v + s;
      MovedInPlace(u + v + s, p, t);
    } else {
      Ungroup(u, [p], v, s, [], t);
      MovedPast(u, p, v + s, t);
    }
  }

  lemma Ungroup(u: seq<int>, x: seq<int>, v: seq<int>, s: seq<int>, y: seq<int>, t: seq<int>)
    ensures (u + (x + v)) + (s + (y + t)) == u + x + (v + s) + y + t
  {
  }

  lemma MovedInPlace(a: seq<int>, p: int, t: seq<int>)
    ensures Moved(a + [p] + t, |a|, |a|) == a + [p] + t && (a + [p] + t)[|a|] == p
  {
  }

  lemma MovedPast(u: seq<int>, p: int, m: seq<int>, t: seq<int>)
    ensures Moved(u + [p] + m + [] + t, |u|, |u| + |m|) == u + [] + m + [p] + t
  {
    var q := u + [p] + m + [] + t;
    assert q[..|u|] == u && q[|u| + 1..|u| + |m| + 1] == m && q[|u| + |m| + 1..] == t;
  }

  lemma SplitOrder(a: seq<Frame>, f: Frame, b: seq<Frame>, used: bool)
    ensures PagesIn(a + ([f] + b), used) == PagesIn(a, used) + ((if f.used == used then [f.page] else []) + PagesIn(b, used))
  {
    PagesInAppend(a, [f] + b, used);
    assert ([f] + b)[1..] == b;
  }

  lemma {:induction false} FirstFrame(ring: seq<Frame>, p: int) returns (n: nat)
    requires Holds(ring, p)
    ensures n < |ring| && ring[n].page == p && forall k :: 0 <= k < n ==> ring[k].page != p
    ensures Mark(ring, p) == ring[..n] + ([Frame(p, true)] + ring[n + 1..])
  {
    if ring[0].page == p {
      n := 0;
    } else {
      var i :| 0 <= i < |ring| && ring[i].page == p;
      assert ring[1..][i - 1].page == p;
      var m := FirstFrame(ring[1..], p);
      n := m + 1;
      assert forall k :: 0 < k < n ==> ring[k] == ring[1..][k - 1];
      assert ring[..n] == [ring[0]] + ring[1..][..m];
    }
  }

  lemma {:induction false} ClockRuns(ring: seq<Frame>, refs: seq<int>) returns (orders: seq<seq<int>>, costs: seq<nat>)
    requires ring != []
    ensures Run(orders, refs, costs) && orders[0] == Order(ring) && Total(costs) == ClockCost(ring, refs)
    decreases |refs|
  {
    hide Order, Run, Holds, Mark, Replace;
    if refs == [] {
      orders, costs := [Order(ring)], [];
      assert Total([]) == 0;
      EmptyRun(Order(ring));
    } else {
      var q, p := Order(ring), refs[0];
      OrderPages(ring, p);
      if Holds(ring, p) {
        orders, costs := ClockRuns(Mark(ring, p), refs[1..]);
        RunLengths(orders, refs[1..], costs);
        var i, j := MarkMoves(ring, p);
        assert Serves(q, p, orders[0], 0);
        RunLonger(q, refs, 0, orders, costs);
        orders, costs := [q] + orders, [0] + costs;
      } else {
        orders, costs := ClockRuns(Replace(ring, p), refs[1..]);
        RunLengths(orders, refs[1..], costs);
        ReplaceShifts(ring, p);
        RunLonger(q, refs, 1, orders, costs);
        orders, costs := [q] + orders, [1] + costs;
      }
    }
  }

  lemma EmptyRun(q: seq<int>)
    ensures Run([q], [], [])
  {
  }

  lemma ClockIsCompetitive(ring: seq<Frame>, refs: seq<int>, c: nat)
    requires ring != [] && Distinct(Order(ring)) && Feasible(Pages(Order(ring)), refs, c)
    ensures ClockCost(ring, refs) <= |ring| * c
  {
    var orders, costs := ClockRuns(ring, refs);
    OrderPages(ring, 0);
    QueuesAreCompetitive(orders, refs, costs, c);
  }
}
