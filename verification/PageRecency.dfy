/**
 * What each queue policy does, as functions of the reference string, and the theorems about them:
 * all are competitive, and the least-recently-used order with fewer frames is always a suffix of
 * the order with more, so more frames never cost more replacements.
 */
module PageRecency {
  import opened Sequences
  import opened PageOptimal
  import opened PageQueues
  import PageLaws

  function Without(q: seq<int>, p: int): seq<int> {
    if p in q then q[..IndexOf(q, p)] + q[IndexOf(q, p) + 1..] else q
  }

  // ----- first in first out -----

  function FifoCost(q: seq<int>, refs: seq<int>): nat
    requires q != []
    decreases |refs|
  {
    if refs == [] then 0
    else if refs[0] in q then FifoCost(q, refs[1..])
    else 1 + FifoCost(q[1..] + [refs[0]], refs[1..])
  }

  /** A run in front of which one more reference was served. */
  lemma RunLonger(q: seq<int>, refs: seq<int>, cost: nat, orders: seq<seq<int>>, costs: seq<nat>)
    requires refs != [] && Run(orders, refs[1..], costs) && Serves(q, refs[0], orders[0], cost)
    ensures Run([q] + orders, refs, [cost] + costs) && Total([cost] + costs) == cost + Total(costs)
  {
    var o, c := [q] + orders, [cost] + costs;
    forall k | 0 <= k < |refs| ensures Serves(o[k], refs[k], o[k + 1], c[k]) {
      if k > 0 {
        assert refs[k] == refs[1..][k - 1] && o[k] == orders[k - 1] && o[k + 1] == orders[k] && c[k] == costs[k - 1];
      }
    }
  }

  lemma StaysServes(q: seq<int>, p: int)
    requires p in q
    ensures Serves(q, p, q, 0)
  {
    var i := IndexOf(q, p);
    assert Moved(q, i, i) == q;
  }

  lemma {:induction false} FifoRuns(q: seq<int>, refs: seq<int>) returns (orders: seq<seq<int>>, costs: seq<nat>)
    requires q != []
    ensures Run(orders, refs, costs) && orders[0] == q && Total(costs) == FifoCost(q, refs)
    decreases |refs|
  {
    hide IndexOf;
    if refs == [] {
      orders, costs := [q], [];
    } else if refs[0] in q {
      orders, costs := FifoRuns(q, refs[1..]);
      StaysServes(q, refs[0]);
      RunLonger(q, refs, 0, orders, costs);
      orders, costs := [q] + orders, [0] + costs;
    } else {
      orders, costs := FifoRuns(q[1..] + [refs[0]], refs[1..]);
      RunLonger(q, refs, 1, orders, costs);
      orders, costs := [q] + orders, [1] + costs;
    }
  }

  lemma FifoIsCompetitive(q: seq<int>, refs: seq<int>, c: nat)
    requires q != [] && Distinct(q) && Feasible(Pages(q), refs, c)
    ensures FifoCost(q, refs) <= |q| * c
  {
    var orders, costs := FifoRuns(q, refs);
    QueuesAreCompetitive(orders, refs, costs, c);
  }

  // ----- least recently used -----

  function LruCost(q: seq<int>, refs: seq<int>): nat
    requires q != []
    decreases |refs|
  {
    if refs == [] then 0
    else if refs[0] in q then LruCost(Without(q, refs[0]) + [refs[0]], refs[1..])
    else 1 + LruCost(q[1..] + [refs[0]], refs[1..])
  }

  lemma {:induction false} LruRuns(q: seq<int>, refs: seq<int>) returns (orders: seq<seq<int>>, costs: seq<nat>)
    requires q != []
    ensures Run(orders, refs, costs) && orders[0] == q && Total(costs) == LruCost(q, refs)
    decreases |refs|
  {
    hide IndexOf;
    if refs == [] {
      orders, costs := [q], [];
    } else if refs[0] in q {
      var next := Without(q, refs[0]) + [refs[0]];
      orders, costs := LruRuns(next, refs[1..]);
      assert next == Moved(q, IndexOf(q, refs[0]), |q| - 1);
      RunLonger(q, refs, 0, orders, costs);
      orders, costs := [q] + orders, [0] + costs;
    } else {
      orders, costs := LruRuns(q[1..] + [refs[0]], refs[1..]);
      RunLonger(q, refs, 1, orders, costs);
      orders, costs := [q] + orders, [1] + costs;
    }
  }

  lemma LruIsCompetitive(q: seq<int>, refs: seq<int>, c: nat)
    requires q != [] && Distinct(q) && Feasible(Pages(q), refs, c)
    ensures LruCost(q, refs) <= |q| * c
  {
    var orders, costs := LruRuns(q, refs);
    QueuesAreCompetitive(orders, refs, costs, c);
  }

  /** The pages of a reference string in order of their last use. */
  function Recency(refs: seq<int>): seq<int> {
    if refs == [] then []
    else Without(Recency(refs[..|refs| - 1]), refs[|refs| - 1]) + [refs[|refs| - 1]]
  }

  function LastOf(q: seq<int>, m: nat): seq<int> {
    if |q| <= m then q else q[|q| - m..]
  }

  /** The pages that m frames hold under the policy, least recently used first. */
  function Recent(refs: seq<int>, m: nat): seq<int> {
    LastOf(Recency(refs), m)
  }

  /** One reference on an order of at most m pages; there may still be free frames. */
  function LruStep(q: seq<int>, p: int, m: nat): seq<int> {
    if p in q then Without(q, p) + [p] else if |q| < m then q + [p] else if q == [] then q else q[1..] + [p]
  }

  lemma WithoutPage(q: seq<int>, p: int)
    requires Distinct(q)
    ensures Distinct(Without(q, p)) && Pages(Without(q, p)) == Pages(q) - {p}
  {
    hide IndexOf;
    if p in q {
      var i := IndexOf(q, p);
      Splice(q[..i], p, q[i + 1..]);
      assert q[..i] + [p] + q[i + 1..] == q;
    }
  }

  lemma Splice(a: seq<int>, p: int, b: seq<int>)
    requires Distinct(a + [p] + b)
    ensures Distinct(a + b) && Pages(a + b) == Pages(a + [p] + b) - {p}
  {
    var q, r := a + [p] + b, a + b;
    assert q[|a|] == p;
    assert forall k :: 0 <= k < |a| ==> r[k] == q[k];
    assert forall k :: |a| <= k < |r| ==> r[k] == q[k + 1];
    assert p !in r;
    forall x | x in q && x != p ensures x in r {
      var k :| 0 <= k < |q| && q[k] == x;
      assert r[if k < |a| then k else k - 1] == x;
    }
    forall x | x in r ensures x in q {
      var k :| 0 <= k < |r| && r[k] == x;
      assert q[if k < |a| then k else k + 1] == x;
    }
  }

  lemma {:induction false} RecencyPages(refs: seq<int>)
    ensures Distinct(Recency(refs)) && Pages(Recency(refs)) == Pages(refs)
  {
    if refs != [] {
      var r, p := Recency(refs[..|refs| - 1]), refs[|refs| - 1];
      RecencyPages(refs[..|refs| - 1]);
      WithoutPage(r, p);
      assert p !in Pages(Without(r, p));
      assert Pages(refs) == Pages(refs[..|refs| - 1]) + {p};
      assert Pages(Recency(refs)) == Pages(Without(r, p)) + {p};
    }
  }

  lemma FindIs(q: seq<int>, i: nat)
    requires Distinct(q) && i < |q|
    ensures IndexOf(q, q[i]) == i
  {
  }

  lemma WithoutBehind(u: seq<int>, l: seq<int>, p: int)
    requires p in l && Distinct(u + l)
    ensures Without(u + l, p) == u + Without(l, p)
  {
    hide IndexOf, Distinct;
    var i, n := IndexOf(l, p), |u|;
    assert (u + l)[n + i] == l[i];
    FindIs(u + l, n + i);
    assert Without(u + l, p) == (u + l)[..n + i] + (u + l)[n + i + 1..];
    assert Without(l, p) == l[..i] + l[i + 1..];
    hide Without;
    CutBehind(u, l, i);
  }

  lemma CutBehind(u: seq<int>, l: seq<int>, i: nat)
    requires i < |l|
    ensures (u + l)[..|u| + i] + (u + l)[|u| + i + 1..] == u + (l[..i] + l[i + 1..])
  {
    assert (u + l)[..|u| + i] == u + l[..i];
    assert (u + l)[|u| + i + 1..] == l[i + 1..];
  }

  /** The last m pages of what ends in exactly them. */
  lemma LastOfBehind(u: seq<int>, v: seq<int>, m: nat)
    requires |v| == m || (u == [] && |v| <= m)
    ensures LastOf(u + v, m) == v
  {
  }

  lemma RecentStepHeld(r: seq<int>, p: int, m: nat)
    requires m > 0 && Distinct(r) && p in LastOf(r, m)
    ensures LastOf(Without(r, p) + [p], m) == Without(LastOf(r, m), p) + [p]
  {
    var l := LastOf(r, m);
    var u := r[..|r| - |l|];
    assert r == u + l;
    WithoutBehind(u, l, p);
    Regroup(u, Without(l, p), [p]);
    assert |Without(l, p) + [p]| == |l|;
    hide IndexOf, Distinct, Without;
    LastOfBehind(u, Without(l, p) + [p], m);
  }

  lemma FoundBefore(u: seq<int>, l: seq<int>, p: int)
    requires p in u + l && p !in l
    ensures IndexOf(u + l, p) < |u|
  {
    hide IndexOf;
    forall k | |u| <= k < |u + l| ensures (u + l)[k] in l {
      assert (u + l)[k] == l[k - |u|];
    }
  }

  lemma CutBefore(u: seq<int>, l: seq<int>, i: nat, p: int)
    requires i < |u| && l != []
    ensures (u + l)[..i] + (u + l)[i + 1..] + [p] == ((u[..i] + u[i + 1..]) + [l[0]]) + (l[1..] + [p])
  {
    assert (u + l)[..i] == u[..i];
    assert (u + l)[i + 1..] == u[i + 1..] + l;
    assert l == [l[0]] + l[1..];
  }

  lemma RecentStepOld(r: seq<int>, p: int, m: nat)
    requires m > 0 && p in r && p !in LastOf(r, m)
    ensures LastOf(Without(r, p) + [p], m) == LastOf(r, m)[1..] + [p]
  {
    hide IndexOf, Distinct;
    var i, d := IndexOf(r, p), |r| - m;
    var u, l := r[..d], r[d..];
    assert r == u + l && l == LastOf(r, m);
    FoundBefore(u, l, p);
    CutBefore(u, l, i, p);
    assert Without(r, p) == r[..i] + r[i + 1..];
    hide Without;
    LastOfBehind((u[..i] + u[i + 1..]) + [l[0]], l[1..] + [p], m);
  }

  /** Taking the last m of the recency order is a policy step on the last m. */
  lemma RecentStep(r: seq<int>, p: int, m: nat)
    requires m > 0 && Distinct(r)
    ensures LastOf(Without(r, p) + [p], m) == LruStep(LastOf(r, m), p, m)
  {
    hide IndexOf, Distinct;
    if p in LastOf(r, m) {
      RecentStepHeld(r, p, m);
    } else if p in r {
      RecentStepOld(r, p, m);
    } else {
      assert LastOf(r + [p], m) == if |r| < m then r + [p] else LastOf(r, m)[1..] + [p];
    }
  }

  /** The order the policy keeps is always the order of last use, cut to the number of frames. */
  lemma RecentIsKept(refs: seq<int>, p: int, m: nat)
    requires m > 0
    ensures Recent(refs + [p], m) == LruStep(Recent(refs, m), p, m)
    ensures Distinct(Recent(refs, m)) && |Recent(refs, m)| <= m
  {
    RecencyPages(refs);
    RecentStep(Recency(refs), p, m);
    assert (refs + [p])[..|refs + [p]| - 1] == refs;
  }

  /** Inclusion: fewer frames hold a suffix of what more frames hold. */
  lemma Inclusion(refs: seq<int>, m: nat, n: nat)
    requires m <= n
    ensures |Recent(refs, m)| <= |Recent(refs, n)|
    ensures Recent(refs, m) == Recent(refs, n)[|Recent(refs, n)| - |Recent(refs, m)|..]
  {
  }

  /** References that find their page absent, from empty memory. */
  function Misses(refs: seq<int>, m: nat): nat {
    if refs == [] then 0
    else Misses(refs[..|refs| - 1], m) + if refs[|refs| - 1] in Recent(refs[..|refs| - 1], m) then 0 else 1
  }

  /** More frames never miss more. */
  lemma {:induction false} MoreFramesMissLess(refs: seq<int>, m: nat, n: nat)
    requires m <= n
    ensures Misses(refs, n) <= Misses(refs, m)
  {
    if refs != [] {
      MoreFramesMissLess(refs[..|refs| - 1], m, n);
      Inclusion(refs[..|refs| - 1], m, n);
    }
  }

  lemma StepLength(q: seq<int>, p: int, m: nat)
    requires |q| == m > 0
    ensures |LruStep(q, p, m)| == m
  {
  }

  lemma MissesStep(refs: seq<int>, p: int, m: nat)
    ensures Misses(refs + [p], m) == Misses(refs, m) + if p in Recent(refs, m) then 0 else 1
  {
    assert (refs + [p])[..|refs|] == refs;
  }

  /** Replacements after loading are the misses after loading. */
  lemma {:induction false} MissesSplit(a: seq<int>, b: seq<int>, m: nat)
    requires m > 0 && |Recent(a, m)| == m
    ensures Misses(a + b, m) == Misses(a, m) + LruCost(Recent(a, m), b)
    decreases |b|
  {
    hide Recent, Misses, Without;
    if b == [] {
      assert a + b == a;
    } else {
      var q, p := Recent(a, m), b[0];
      RecentIsKept(a, p, m);
      MissesStep(a, p, m);
      StepLength(q, p, m);
      MissesSplit(a + [p], b[1..], m);
      assert a + [p] + b[1..] == a + b;
    }
  }

  // ----- loading -----

  /** The pages of a reference string in order of their first use. */
  function FirstSeen(refs: seq<int>): (q: seq<int>)
    ensures |q| <= |refs|
  {
    if refs == [] then []
    else if refs[|refs| - 1] in FirstSeen(refs[..|refs| - 1]) then FirstSeen(refs[..|refs| - 1])
    else FirstSeen(refs[..|refs| - 1]) + [refs[|refs| - 1]]
  }

  lemma {:induction false} FirstSeenPages(refs: seq<int>)
    ensures Distinct(FirstSeen(refs)) && Pages(FirstSeen(refs)) == Pages(refs)
  {
    if refs != [] {
      FirstSeenPages(refs[..|refs| - 1]);
      assert Pages(refs) == Pages(refs[..|refs| - 1]) + {refs[|refs| - 1]};
      assert refs[|refs| - 1] in FirstSeen(refs[..|refs| - 1]) <==> refs[|refs| - 1] in Pages(FirstSeen(refs[..|refs| - 1]));
    }
  }

  /** How many references it takes to fill k frames; one more than there are when they do not fill. */
  function LoadEnd(refs: seq<int>, k: nat, n: nat): (e: nat)
    requires n <= |refs|
    ensures n <= e
    ensures e <= |refs| ==> |FirstSeen(refs[..e])| >= k && forall i :: n <= i < e ==> |FirstSeen(refs[..i])| < k
    ensures e > |refs| ==> e == |refs| + 1 && forall i :: n <= i <= |refs| ==> |FirstSeen(refs[..i])| < k
    decreases |refs| - n
  {
    if |FirstSeen(refs[..n])| >= k then n
    else if n == |refs| then n + 1
    else LoadEnd(refs, k, n + 1)
  }

  lemma {:induction false} LoadEndAt(refs: seq<int>, k: nat, n: nat, i: nat)
    requires n <= i <= |refs| && forall m :: n <= m <= i ==> |FirstSeen(refs[..m])| < k
    ensures i < |refs| && |FirstSeen(refs[..i + 1])| >= k ==> LoadEnd(refs, k, n) == i + 1
    ensures i == |refs| ==> LoadEnd(refs, k, n) == i + 1
    decreases i - n
  {
    hide FirstSeen;
    if n < i {
      LoadEndAt(refs, k, n + 1, i);
    } else if n < |refs| {
      assert |FirstSeen(refs[..n])| < k;
      assert LoadEnd(refs, k, n) == LoadEnd(refs, k, n + 1);
    }
  }

  lemma FirstSeenGrows(refs: seq<int>, n: nat)
    requires n < |refs|
    ensures |FirstSeen(refs[..n])| <= |FirstSeen(refs[..n + 1])| <= |FirstSeen(refs[..n])| + 1
    ensures FirstSeen(refs[..n + 1]) ==
            if refs[n] in FirstSeen(refs[..n]) then FirstSeen(refs[..n]) else FirstSeen(refs[..n]) + [refs[n]]
  {
    assert refs[..n + 1][..n] == refs[..n];
  }

  /** The memory after loading: the first k different pages, exactly as many as there are frames. */
  lemma LoadFills(refs: seq<int>, k: nat)
    requires k > 0 && LoadEnd(refs, k, 0) <= |refs|
    ensures var q := FirstSeen(refs[..LoadEnd(refs, k, 0)]);
            |q| == k && Distinct(q) && Pages(q) == Pages(Recent(refs[..LoadEnd(refs, k, 0)], k))
    ensures |Recent(refs[..LoadEnd(refs, k, 0)], k)| == k && Distinct(Recent(refs[..LoadEnd(refs, k, 0)], k))
    ensures Misses(refs[..LoadEnd(refs, k, 0)], k) == k
  {
    hide Recency, FirstSeen, LoadEnd;
    var e := LoadEnd(refs, k, 0);
    LoadEndIsFull(refs, k);
    FirstSeenPages(refs[..e]);
    RecencyPages(refs[..e]);
    PageCount(FirstSeen(refs[..e]));
    PageCount(Recency(refs[..e]));
    MissesWhileLoading(refs, e, k);
  }

  lemma LoadEndIsFull(refs: seq<int>, k: nat)
    requires k > 0 && LoadEnd(refs, k, 0) <= |refs|
    ensures 0 < LoadEnd(refs, k, 0) && |FirstSeen(refs[..LoadEnd(refs, k, 0)])| == k
  {
    hide *;
    var e := LoadEnd(refs, k, 0);
    NothingSeen(refs);
    assert e > 0;
    FirstSeenGrows(refs, e - 1);
    assert |FirstSeen(refs[..e - 1])| < k;
  }

  lemma NothingSeen(refs: seq<int>)
    ensures FirstSeen(refs[..0]) == []
  {
  }

  lemma {:induction false} MissesWhileLoading(refs: seq<int>, n: nat, k: nat)
    requires n <= |refs| && |FirstSeen(refs[..n])| <= k
    ensures Misses(refs[..n], k) == |FirstSeen(refs[..n])| == |Recency(refs[..n])|
    decreases n
  {
    hide Distinct, Without;
    FirstSeenPages(refs[..n]);
    RecencyPages(refs[..n]);
    PageCount(FirstSeen(refs[..n]));
    PageCount(Recency(refs[..n]));
    if n > 0 {
      FirstSeenGrows(refs, n - 1);
      assert refs[..n][..n - 1] == refs[..n - 1];
      MissesWhileLoading(refs, n - 1, k);
      FirstSeenPages(refs[..n - 1]);
      RecencyPages(refs[..n - 1]);
      assert refs[n - 1] in FirstSeen(refs[..n - 1]) <==> refs[n - 1] in Pages(FirstSeen(refs[..n - 1]));
      assert refs[n - 1] in Recency(refs[..n - 1]) <==> refs[n - 1] in Pages(Recency(refs[..n - 1]));
    }
  }

  /** Later in the order of last use is later used. */
  lemma {:induction false} RecencyIsByLastUse(refs: seq<int>)
    ensures forall a, b :: 0 <= a < b < |Recency(refs)| ==>
              PageLaws.LastUse(refs, Recency(refs)[a]) < PageLaws.LastUse(refs, Recency(refs)[b])
  {
    if refs != [] {
      hide Distinct, IndexOf, Recency;
      var n := |refs| - 1;
      var r, p := Recency(refs[..n]), refs[n];
      RecencyIsByLastUse(refs[..n]);
      RecencyPages(refs[..n]);
      WithoutPage(r, p);
      assert p !in Pages(Without(r, p));
      WithoutOrder(refs[..n], r, p);
      RecencyLast(refs);
      var w := Without(r, p);
      forall a, b | 0 <= a < b < |w + [p]|
        ensures PageLaws.LastUse(refs, (w + [p])[a]) < PageLaws.LastUse(refs, (w + [p])[b])
      {
        assert w[a] in Pages(w);
        LastUseBefore(refs, w[a]);
        if b < |w| {
          assert w[b] in Pages(w);
          LastUseBefore(refs, w[b]);
        }
      }
    }
  }

  lemma RecencyLast(refs: seq<int>)
    requires refs != []
    ensures Recency(refs) == Without(Recency(refs[..|refs| - 1]), refs[|refs| - 1]) + [refs[|refs| - 1]]
  {
  }

  lemma WithoutOrder(refs: seq<int>, q: seq<int>, p: int)
    requires forall a, b :: 0 <= a < b < |q| ==> PageLaws.LastUse(refs, q[a]) < PageLaws.LastUse(refs, q[b])
    ensures forall a, b :: 0 <= a < b < |Without(q, p)| ==>
              PageLaws.LastUse(refs, Without(q, p)[a]) < PageLaws.LastUse(refs, Without(q, p)[b])
  {
    hide *;
    WithoutPlaces(q, p);
    var i, w := if p in q then IndexOf(q, p) else |q|, Without(q, p);
    forall a, b | 0 <= a < b < |w| ensures PageLaws.LastUse(refs, w[a]) < PageLaws.LastUse(refs, w[b]) {
      var c, d := if a < i then a else a + 1, if b < i then b else b + 1;
      assert w[a] == q[c] && w[b] == q[d];
    }
  }

  lemma WithoutPlaces(q: seq<int>, p: int)
    ensures |Without(q, p)| == |q| - if p in q then 1 else 0
    ensures forall a :: 0 <= a < |Without(q, p)| ==> Without(q, p)[a] == q[if p in q && a >= IndexOf(q, p) then a + 1 else a]
  {
    hide IndexOf;
  }

  /** A page other than the last one referenced was last used before it. */
  lemma {:induction false} LastUseBefore(refs: seq<int>, x: int)
    requires refs != [] && x != refs[|refs| - 1]
    ensures PageLaws.LastUse(refs, x) == PageLaws.LastUse(refs[..|refs| - 1], x) < |refs| - 1
    ensures PageLaws.LastUse(refs, refs[|refs| - 1]) == |refs| - 1
  {
    var r := refs[..|refs| - 1];
    if r != [] && x != r[|r| - 1] {
      LastUseBefore(r, x);
    }
  }

  /** The front of what m frames hold is the page whose last use is longest ago. */
  lemma FrontIsLeastRecent(past: seq<int>, frames: nat, mem: seq<int>, v: nat)
    requires v < |mem| && Distinct(mem) && Pages(mem) == Pages(Recent(past, frames))
    requires Recent(past, frames) != [] && mem[v] == Recent(past, frames)[0]
    ensures PageLaws.IsLeastRecent(past, mem, v)
  {
    hide Recency, PageLaws.LastUse, Distinct;
    var q, r := Recent(past, frames), Recency(past);
    RecencyIsByLastUse(past);
    assert forall b :: 0 <= b < |q| ==> q[b] == r[|r| - |q| + b];
    forall k | 0 <= k < |mem| && k != v ensures PageLaws.LastUse(past, mem[v]) < PageLaws.LastUse(past, mem[k]) {
      assert mem[k] in Pages(mem);
      var b :| 0 <= b < |q| && q[b] == mem[k];
      OthersDiffer(mem, v, k);
    }
  }

  lemma OthersDiffer(q: seq<int>, j: nat, k: nat)
    requires Distinct(q) && j < |q| && k < |q| && j != k
    ensures q[j] != q[k]
  {
  }

  /** The first different pages are listed in the order of their first references. */
  lemma {:induction false} FirstSeenInOrder(refs: seq<int>)
    ensures PageLaws.ListedInOrder(refs, FirstSeen(refs))
  {
    if refs != [] {
      var n := |refs| - 1;
      FirstSeenInOrder(refs[..n]);
      SeenIsReferenced(refs[..n]);
      if refs[n] in FirstSeen(refs[..n]) {
        ListedLonger(refs, FirstSeen(refs[..n]));
      } else {
        ListedMore(refs, FirstSeen(refs[..n]));
      }
    }
  }

  lemma ListedLonger(refs: seq<int>, m: seq<int>)
    requires refs != [] && PageLaws.ListedInOrder(refs[..|refs| - 1], m)
    ensures PageLaws.ListedInOrder(refs, m)
  {
    var r := refs[..|refs| - 1];
    forall j, k | 0 <= j < k < |m| ensures PageLaws.SeenBefore(refs, m[j], m[k]) {
      assert PageLaws.SeenBefore(r, m[j], m[k]);
      var n :| 0 <= n <= |r| && m[j] in r[..n] && m[k] !in r[..n];
      assert r[..n] == refs[..n];
    }
  }

  lemma ListedMore(refs: seq<int>, m: seq<int>)
    requires refs != [] && PageLaws.ListedInOrder(refs[..|refs| - 1], m) && refs[|refs| - 1] !in refs[..|refs| - 1]
    requires forall k :: 0 <= k < |m| ==> m[k] in refs[..|refs| - 1]
    ensures PageLaws.ListedInOrder(refs, m + [refs[|refs| - 1]])
  {
    ListedLonger(refs, m);
    var l, w := |refs| - 1, m + [refs[|refs| - 1]];
    forall j, k | 0 <= j < k < |w| ensures PageLaws.SeenBefore(refs, w[j], w[k]) {
      if k < |m| {
        assert PageLaws.SeenBefore(refs, m[j], m[k]);
      } else {
        assert w[j] == m[j] && w[k] == refs[l];
        assert w[j] in refs[..l] && w[k] !in refs[..l];
      }
    }
  }

  lemma SeenIsReferenced(refs: seq<int>)
    ensures forall x :: x in FirstSeen(refs) <==> x in refs
    ensures forall k :: 0 <= k < |FirstSeen(refs)| ==> FirstSeen(refs)[k] in refs
    ensures forall i :: 0 <= i < |refs| ==> refs[i] in FirstSeen(refs)
  {
    hide FirstSeen, Distinct;
    FirstSeenPages(refs);
    forall x ensures x in FirstSeen(refs) <==> x in refs {
      assert x in FirstSeen(refs) <==> x in Pages(FirstSeen(refs));
      assert x in refs <==> x in Pages(refs);
    }
    forall k | 0 <= k < |FirstSeen(refs)| ensures FirstSeen(refs)[k] in refs {
      assert FirstSeen(refs)[k] in FirstSeen(refs);
    }
    forall i | 0 <= i < |refs| ensures refs[i] in FirstSeen(refs) {
      assert refs[i] in refs;
    }
  }

  /** What loading leaves in the frames. */
  lemma LoadedInOrder(refs: seq<int>, k: nat)
    requires k > 0 && LoadEnd(refs, k, 0) <= |refs|
    ensures PageLaws.FilledInOrder(refs, LoadEnd(refs, k, 0), FirstSeen(refs[..LoadEnd(refs, k, 0)]))
  {
    hide FirstSeen, LoadEnd, Distinct, Pages, PageLaws.ListedInOrder;
    var e := LoadEnd(refs, k, 0);
    LoadEndIsFull(refs, k);
    SeenIsReferenced(refs[..e]);
    SeenIsReferenced(refs[..e - 1]);
    FirstSeenInOrder(refs[..e]);
    FirstSeenGrows(refs, e - 1);
    var q, r := FirstSeen(refs[..e]), FirstSeen(refs[..e - 1]);
    assert |r| < k;
    assert refs[e - 1] !in r && q == r + [refs[e - 1]];
    assert forall i :: 0 <= i < e ==> refs[i] == refs[..e][i];
  }

  /** The frames are filled exactly when there are as many different pages as frames. */
  lemma FillsExactly(refs: seq<int>, k: nat)
    requires k > 0
    ensures LoadEnd(refs, k, 0) <= |refs| <==> |Pages(refs)| >= k
  {
    hide FirstSeen, LoadEnd, Distinct;
    var e := LoadEnd(refs, k, 0);
    FirstSeenPages(refs);
    PageCount(FirstSeen(refs));
    assert refs[..|refs|] == refs;
    if e <= |refs| {
      FirstSeenPages(refs[..e]);
      PageCount(FirstSeen(refs[..e]));
      assert Pages(refs[..e]) <= Pages(refs);
      SubsetLess(Pages(refs[..e]), Pages(refs));
    }
  }

  /** Replacements of the policy on the whole string with k frames, after loading them. */
  function LruReplacements(refs: seq<int>, k: nat): nat
    requires k > 0 && LoadEnd(refs, k, 0) <= |refs|
  {
    LoadFills(refs, k);
    LruCost(Recent(refs[..LoadEnd(refs, k, 0)], k), refs[LoadEnd(refs, k, 0)..])
  }

  /** More frames never make more replacements, when the string has pages enough to fill them. */
  lemma MoreFramesReplaceLess(refs: seq<int>, m: nat, n: nat)
    requires 0 < m <= n && LoadEnd(refs, m, 0) <= |refs| && LoadEnd(refs, n, 0) <= |refs|
    ensures LruReplacements(refs, m) + m == Misses(refs, m)
    ensures LruReplacements(refs, n) <= LruReplacements(refs, m)
  {
    ReplacementsAreMisses(refs, m);
    ReplacementsAreMisses(refs, n);
    MoreFramesMissLess(refs, m, n);
  }

  lemma ReplacementsAreMisses(refs: seq<int>, k: nat)
    requires k > 0 && LoadEnd(refs, k, 0) <= |refs|
    ensures LruReplacements(refs, k) + k == Misses(refs, k)
  {
    var e := LoadEnd(refs, k, 0);
    LoadFills(refs, k);
    MissesSplit(refs[..e], refs[e..], k);
    assert refs[..e] + refs[e..] == refs;
  }
}
