/**
 * Demand paging in general, and the policy that evicts the page used furthest in the future. A
 * demand policy is any way of choosing victims; what can be reached by some policy is a recursive
 * predicate, and optimality is shown by exchanging one page of two memories.
 */
module PageOptimal {
  import opened Sequences
  import PageLaws

  function Pages(q: seq<int>): set<int> {
    set x | x in q
  }

  /** Some choice of victims serves the references from this memory with at most c replacements. */
  ghost predicate Feasible(mem: set<int>, refs: seq<int>, c: nat)
    decreases |refs|
  {
    if refs == [] then true
    else if refs[0] in mem then Feasible(mem, refs[1..], c)
    else c > 0 && exists v :: v in mem && Feasible(mem - {v} + {refs[0]}, refs[1..], c - 1)
  }

  lemma {:induction false} FeasibleMore(mem: set<int>, refs: seq<int>, c: nat, d: nat)
    requires Feasible(mem, refs, c) && c <= d
    ensures Feasible(mem, refs, d)
    decreases |refs|
  {
    if refs != [] {
      if refs[0] in mem {
        FeasibleMore(mem, refs[1..], c, d);
      } else {
        var v :| v in mem && Feasible(mem - {v} + {refs[0]}, refs[1..], c - 1);
        FeasibleMore(mem - {v} + {refs[0]}, refs[1..], c - 1, d - 1);
      }
    }
  }

  /** A policy for a longer string serves every prefix of it. */
  lemma {:induction false} FeasiblePrefix(mem: set<int>, refs: seq<int>, c: nat, n: nat)
    requires Feasible(mem, refs, c) && n <= |refs|
    ensures Feasible(mem, refs[..n], c)
    decreases n
  {
    if n > 0 {
      assert refs[..n][1..] == refs[1..][..n - 1];
      if refs[0] in mem {
        FeasiblePrefix(mem, refs[1..], c, n - 1);
      } else {
        var v :| v in mem && Feasible(mem - {v} + {refs[0]}, refs[1..], c - 1);
        FeasiblePrefix(mem - {v} + {refs[0]}, refs[1..], c - 1, n - 1);
      }
    }
  }

  /** How far ahead a page is referenced next; the length of the string when it never is. */
  function NextUse(p: int, refs: seq<int>): (n: nat)
    ensures n <= |refs|
  {
    if refs == [] || refs[0] == p then 0 else 1 + NextUse(p, refs[1..])
  }

  /** A miss leads on from a memory by its chosen victim. */
  lemma FeasibleMiss(mem: set<int>, refs: seq<int>, c: nat, v: int)
    requires refs != [] && refs[0] !in mem && v in mem && c > 0
    requires Feasible(mem - {v} + {refs[0]}, refs[1..], c - 1)
    ensures Feasible(mem, refs, c)
  {
  }

  lemma FeasibleMissed(mem: set<int>, refs: seq<int>, c: nat) returns (v: int)
    requires refs != [] && refs[0] !in mem && Feasible(mem, refs, c)
    ensures c > 0 && v in mem && Feasible(mem - {v} + {refs[0]}, refs[1..], c - 1)
  {
    v :| v in mem && Feasible(mem - {v} + {refs[0]}, refs[1..], c - 1);
  }

  /** Two memories that differ in one page are at most one replacement apart. */
  lemma {:induction false} OnePageApart(rest: set<int>, has: int, wants: int, refs: seq<int>, c: nat)
    requires has !in rest && wants !in rest && has != wants
    requires Feasible(rest + {has}, refs, c)
    ensures Feasible(rest + {wants}, refs, c + 1)
    decreases |refs|
  {
    if refs == [] {
    } else if refs[0] in rest {
      OnePageApart(rest, has, wants, refs[1..], c);
    } else if refs[0] == has {
      assert rest + {wants} - {wants} + {has} == rest + {has};
      FeasibleMiss(rest + {wants}, refs, c + 1, wants);
    } else {
      var p := refs[0];
      var v := FeasibleMissed(rest + {has}, refs, c);
      if v == has {
        assert rest + {has} - {has} + {p} == rest + {p} == rest + {wants} - {wants} + {p};
        if p == wants {
          FeasibleMore(rest + {p}, refs[1..], c - 1, c + 1);
        } else {
          FeasibleMore(rest + {p}, refs[1..], c - 1, c);
          FeasibleMiss(rest + {wants}, refs, c + 1, wants);
        }
      } else {
        var both := rest - {v} + {p};
        assert rest + {has} - {v} + {p} == both + {has};
        if p == wants {
          OnePageApart(both, has, v, refs[1..], c - 1);
          assert both + {v} == rest + {wants};
          FeasibleMore(rest + {wants}, refs[1..], c, c + 1);
        } else {
          OnePageApart(both, has, wants, refs[1..], c - 1);
          assert both + {wants} == rest + {wants} - {v} + {p};
          FeasibleMiss(rest + {wants}, refs, c + 1, v);
        }
      }
    }
  }

  /** Of two memories that differ in one page, the one whose page is used sooner is at least as good. */
  lemma {:induction false} SoonerIsBetter(rest: set<int>, later: int, sooner: int, refs: seq<int>, c: nat)
    requires later !in rest && sooner !in rest && later != sooner
    requires NextUse(sooner, refs) <= NextUse(later, refs)
    requires Feasible(rest + {later}, refs, c)
    ensures Feasible(rest + {sooner}, refs, c)
    decreases |refs|
  {
    if refs == [] {
    } else if refs[0] in rest {
      SoonerIsBetter(rest, later, sooner, refs[1..], c);
    } else {
      var p := refs[0];
      assert p != later;
      var v := FeasibleMissed(rest + {later}, refs, c);
      if v == later {
        assert rest + {later} - {later} + {p} == rest + {p} == rest + {sooner} - {sooner} + {p};
        if p == sooner {
          FeasibleMore(rest + {p}, refs[1..], c - 1, c);
        } else {
          FeasibleMiss(rest + {sooner}, refs, c, sooner);
        }
      } else {
        var both := rest - {v} + {p};
        assert rest + {later} - {v} + {p} == both + {later};
        if p == sooner {
          OnePageApart(both, later, v, refs[1..], c - 1);
          assert both + {v} == rest + {sooner};
        } else {
          SoonerIsBetter(both, later, sooner, refs[1..], c - 1);
          assert both + {sooner} == rest + {sooner} - {v} + {p};
          FeasibleMiss(rest + {sooner}, refs, c, v);
        }
      }
    }
  }

  /** Whatever a policy evicts, evicting a page used furthest ahead is as good. */
  lemma FurthestIsBest(mem: set<int>, refs: seq<int>, c: nat, v: int)
    requires refs != [] && refs[0] !in mem && v in mem
    requires forall x :: x in mem ==> NextUse(x, refs[1..]) <= NextUse(v, refs[1..])
    requires Feasible(mem, refs, c)
    ensures c > 0 && Feasible(mem - {v} + {refs[0]}, refs[1..], c - 1)
  {
    var w := FeasibleMissed(mem, refs, c);
    if w != v {
      var rest := mem - {v} - {w} + {refs[0]};
      assert rest + {v} == mem - {w} + {refs[0]} && rest + {w} == mem - {v} + {refs[0]};
      SoonerIsBetter(rest, v, w, refs[1..], c - 1);
    }
  }

  // ----- the source's policy -----

  /** The score of a resident page: how many references are looked at until the page is met. */
  function Score(p: int, ahead: seq<int>): nat {
    if ahead == [] then 0 else if ahead[0] == p then 1 else 1 + Score(p, ahead[1..])
  }

  /** The first frame with the highest score, among the first n frames. */
  function Victim(mem: seq<int>, ahead: seq<int>, n: nat): (v: nat)
    requires n <= |mem|
    ensures 0 < |mem| ==> v < |mem|
    ensures forall j :: 0 <= j < n ==> Score(mem[j], ahead) <= Score(mem[v], ahead)
  {
    if n == 0 then 0
    else
      var v := Victim(mem, ahead, n - 1);
      if Score(mem[v], ahead) < Score(mem[n - 1], ahead) then n - 1 else v
  }

  /** The victim is the first page used furthest ahead. */
  lemma VictimIsFurthest(refs: seq<int>, n: nat, mem: seq<int>)
    requires n <= |refs| && mem != []
    ensures PageLaws.IsFurthest(refs, n, mem, Victim(mem, refs[n..], |mem|))
  {
    hide Victim, Score;
    VictimIsFirst(mem, refs[n..], |mem|);
    forall k | 0 <= k < |mem| ensures Score(mem[k], refs[n..]) == if n == |refs| then 0 else PageLaws.UsedNext(refs, n, mem[k]) - n + 1 {
      ScoreIsPosition(refs, n, mem[k]);
    }
    if n == |refs| {
      assert Score(mem[0], refs[n..]) == 0;
      assert forall k :: 0 <= k < |mem| ==> PageLaws.UsedNext(refs, n, mem[k]) == n;
    }
  }

  lemma {:induction false} VictimIsFirst(mem: seq<int>, ahead: seq<int>, n: nat)
    requires 0 < n <= |mem|
    ensures Victim(mem, ahead, n) < n
    ensures forall k :: 0 <= k < Victim(mem, ahead, n) ==> Score(mem[k], ahead) < Score(mem[Victim(mem, ahead, n)], ahead)
  {
    hide Score;
    if n > 1 {
      VictimIsFirst(mem, ahead, n - 1);
    }
  }

  lemma {:induction false} ScoreIsPosition(refs: seq<int>, n: nat, p: int)
    requires n <= |refs|
    ensures Score(p, refs[n..]) == if n == |refs| then 0 else PageLaws.UsedNext(refs, n, p) - n + 1
    decreases |refs| - n
  {
    if n < |refs| {
      assert refs[n..][1..] == refs[n + 1..];
      ScoreIsPosition(refs, n + 1, p);
    }
  }

  /** Replacements of the source's optimal policy over the first n references, looking ahead over all. */
  function OptCost(mem: seq<int>, refs: seq<int>, n: nat): nat
    requires |mem| > 0 && n <= |refs|
    decreases n
  {
    if n == 0 then 0
    else if refs[0] in mem then OptCost(mem, refs[1..], n - 1)
    else 1 + OptCost(mem[Victim(mem, refs[1..], |mem|) := refs[0]], refs[1..], n - 1)
  }

  /** The score tells all next uses apart except "at the last reference" and "never". */
  lemma {:induction false} ScoreIsNextUse(p: int, ahead: seq<int>)
    requires ahead != []
    ensures Score(p, ahead) == 1 + NextUse(p, ahead[..|ahead| - 1])
  {
    if |ahead| > 1 && ahead[0] != p {
      ScoreIsNextUse(p, ahead[1..]);
      assert ahead[1..][..|ahead[1..]| - 1] == ahead[..|ahead| - 1][1..];
    }
  }

  lemma SwapPages(mem: seq<int>, v: nat, p: int)
    requires Distinct(mem) && v < |mem| && p !in mem
    ensures Distinct(mem[v := p]) && Pages(mem[v := p]) == Pages(mem) - {mem[v]} + {p}
  {
    var after := mem[v := p];
    assert after[v] == p;
    forall x | x in Pages(mem) - {mem[v]} ensures x in after {
      var i :| 0 <= i < |mem| && mem[i] == x;
      assert after[i] == x;
    }
  }

  /** Over all references but the last, the source's policy is optimal: no demand policy does better. */
  lemma {:induction false} OptIsOptimal(mem: seq<int>, refs: seq<int>, n: nat, c: nat)
    requires |mem| > 0 && Distinct(mem) && n < |refs|
    requires n == |refs| - 1
    requires Feasible(Pages(mem), refs[..n], c)
    ensures OptCost(mem, refs, n) <= c
    decreases n
  {
    if n > 0 {
      assert refs[..n][1..] == refs[1..][..n - 1];
      if refs[0] in mem {
        OptIsOptimal(mem, refs[1..], n - 1, c);
      } else {
        var v := Victim(mem, refs[1..], |mem|);
        forall x | x in Pages(mem) ensures NextUse(x, refs[..n][1..]) <= NextUse(mem[v], refs[..n][1..]) {
          var j :| 0 <= j < |mem| && mem[j] == x;
          ScoreIsNextUse(x, refs[1..]);
          ScoreIsNextUse(mem[v], refs[1..]);
          assert refs[1..][..|refs[1..]| - 1] == refs[..n][1..];
        }
        FurthestIsBest(Pages(mem), refs[..n], c, mem[v]);
        SwapPages(mem, v, refs[0]);
        OptIsOptimal(mem[v := refs[0]], refs[1..], n - 1, c - 1);
      }
    }
  }

  /** The source's policy is itself a demand policy. */
  lemma {:induction false} OptIsFeasible(mem: seq<int>, refs: seq<int>, n: nat)
    requires |mem| > 0 && Distinct(mem) && n <= |refs|
    ensures Feasible(Pages(mem), refs[..n], OptCost(mem, refs, n))
    decreases n
  {
    if n > 0 {
      assert refs[..n][1..] == refs[1..][..n - 1];
      if refs[0] in mem {
        OptIsFeasible(mem, refs[1..], n - 1);
      } else {
        var v := Victim(mem, refs[1..], |mem|);
        SwapPages(mem, v, refs[0]);
        OptIsFeasible(mem[v := refs[0]], refs[1..], n - 1);
        FeasibleMiss(Pages(mem), refs[..n], OptCost(mem, refs, n), mem[v]);
      }
    }
  }

  lemma {:induction false} OneMoreReference(mem: seq<int>, refs: seq<int>, n: nat)
    requires |mem| > 0 && n < |refs|
    ensures OptCost(mem, refs, n) <= OptCost(mem, refs, n + 1) <= OptCost(mem, refs, n) + 1
    decreases n
  {
    if n > 0 {
      if refs[0] in mem {
        OneMoreReference(mem, refs[1..], n - 1);
      } else {
        OneMoreReference(mem[Victim(mem, refs[1..], |mem|) := refs[0]], refs[1..], n - 1);
      }
    }
  }

  /** Over the whole string the source's policy replaces at most one page more than any demand policy. */
  lemma OptIsNearlyOptimal(mem: seq<int>, refs: seq<int>, c: nat)
    requires |mem| > 0 && Distinct(mem) && Feasible(Pages(mem), refs, c)
    ensures OptCost(mem, refs, |refs|) <= c + 1
    ensures refs != [] ==> OptCost(mem, refs, |refs| - 1) <= c
  {
    if refs != [] {
      FeasiblePrefix(Pages(mem), refs, c, |refs| - 1);
      OptIsOptimal(mem, refs, |refs| - 1, c);
      OneMoreReference(mem, refs, |refs| - 1);
    }
  }

  /**
   * The one replacement of slack is real: with pages 1 and 2 in memory and 3, 1 to come, page 1 is
   * used at the last reference and page 2 never, their scores are equal, and page 1 is evicted.
   */
  lemma OptIsNotOptimal()
    ensures OptCost([1, 2], [3, 1], 2) == 2 && Feasible({1, 2}, [3, 1], 1)
  {
    assert [3, 1][1..] == [1] && [1][1..] == [];
    assert Score(1, [1]) == 1 && Score(2, [1]) == 1;
    assert Victim([1, 2], [1], 1) == 0 && Victim([1, 2], [1], 2) == 0;
    assert [1, 2][0 := 3] == [3, 2];
    assert OptCost([3, 2], [1], 1) == 1;
    assert Feasible({1, 2} - {2} + {3}, [1], 0);
    FeasibleMiss({1, 2}, [3, 1], 1, 2);
  }
}
