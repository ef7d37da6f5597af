/**
 * Exactly when the source's optimal policy is optimal on a whole string. Its score cannot tell a
 * page used at the last reference from a page never used again; it loses one replacement exactly
 * when it evicts the last page in such a tie and never again runs short of unused pages.
 */
module PageTies {
  import opened Sequences
  import opened PageOptimal

  function Last(refs: seq<int>): int
    requires refs != []
  {
    refs[|refs| - 1]
  }

  /** The references before the last. */
  function Front(refs: seq<int>): seq<int>
    requires refs != []
  {
    refs[..|refs| - 1]
  }

  /** The pages in memory that are not used in the given references. */
  function Idle(mem: seq<int>, w: seq<int>): set<int> {
    set x | x in mem && x !in w
  }

  /** The memory after a miss. */
  function Next(mem: seq<int>, refs: seq<int>): seq<int>
    requires mem != [] && refs != []
  {
    mem[Victim(mem, refs[1..], |mem|) := refs[0]]
  }

  /** At every further miss two pages or more lie idle up to the last reference. */
  predicate Spare(mem: seq<int>, refs: seq<int>)
    requires mem != []
    decreases |refs|
  {
    |refs| <= 1 ||
    if refs[0] in mem then Spare(mem, refs[1..])
    else |Idle(mem, Front(refs[1..]))| >= 2 && Spare(Next(mem, refs), refs[1..])
  }

  /** The policy evicts the last page, unused until then, while another page lies idle for good. */
  predicate TieLoses(mem: seq<int>, refs: seq<int>)
    requires mem != []
    decreases |refs|
  {
    |refs| > 1 &&
    if refs[0] in mem then TieLoses(mem, refs[1..])
    else
      var out := mem[Victim(mem, refs[1..], |mem|)];
      if out == Last(refs) && out !in Front(refs[1..]) then
        |Idle(mem, Front(refs[1..]))| >= 2 && Spare(Next(mem, refs), refs[1..])
      else TieLoses(Next(mem, refs), refs[1..])
  }

  // ----- next uses and victims -----

  /** Next uses with and without the last reference. */
  lemma {:induction false} NextUses(p: int, refs: seq<int>)
    requires refs != []
    ensures p in Front(refs) <==> NextUse(p, Front(refs)) < |Front(refs)|
    ensures NextUse(p, refs) == if p in Front(refs) || p == Last(refs) then NextUse(p, Front(refs)) else |refs|
    decreases |refs|
  {
    if |refs| > 1 {
      assert Front(refs)[1..] == Front(refs[1..]) && Last(refs[1..]) == Last(refs);
      assert p in Front(refs) <==> p == refs[0] || p in Front(refs[1..]);
      NextUses(p, refs[1..]);
    }
  }

  /** The victim lies idle if any page does, and is used furthest ahead but for a tie over the last page. */
  lemma VictimIs(mem: seq<int>, ahead: seq<int>)
    requires mem != [] && ahead != []
    ensures var out := mem[Victim(mem, ahead, |mem|)];
            && (Idle(mem, Front(ahead)) != {} ==> out in Idle(mem, Front(ahead)))
            && (out != Last(ahead) || Idle(mem, Front(ahead)) <= {out} ==>
                  forall x :: x in mem ==> NextUse(x, ahead) <= NextUse(out, ahead))
  {
    var out := mem[Victim(mem, ahead, |mem|)];
    forall x | x in mem
      ensures NextUse(x, Front(ahead)) <= NextUse(out, Front(ahead))
      ensures x !in Front(ahead) ==> out !in Front(ahead)
      ensures out != Last(ahead) || Idle(mem, Front(ahead)) <= {out} ==> NextUse(x, ahead) <= NextUse(out, ahead)
    {
      var j :| 0 <= j < |mem| && mem[j] == x;
      ScoreIsNextUse(x, ahead);
      ScoreIsNextUse(out, ahead);
      NextUses(x, ahead);
      NextUses(out, ahead);
      assert x !in Front(ahead) ==> x in Idle(mem, Front(ahead));
    }
  }

  lemma Smaller(refs: seq<int>)
    requires |refs| > 1
    ensures refs[0] in Front(refs) && Last(refs[1..]) == Last(refs)
    ensures forall x :: x in Front(refs) <==> x == refs[0] || x in Front(refs[1..])
  {
    assert Front(refs) == [refs[0]] + Front(refs[1..]);
  }

  lemma NextPages(mem: seq<int>, refs: seq<int>)
    requires mem != [] && Distinct(mem) && refs != [] && refs[0] !in mem
    ensures Next(mem, refs) != [] && Distinct(Next(mem, refs))
    ensures Pages(Next(mem, refs)) == Pages(mem) - {mem[Victim(mem, refs[1..], |mem|)]} + {refs[0]}
    ensures forall x :: x in Next(mem, refs) <==> x == refs[0] || (x in mem && x != mem[Victim(mem, refs[1..], |mem|)])
  {
    SwapPages(mem, Victim(mem, refs[1..], |mem|), refs[0]);
    forall x ensures x in Next(mem, refs) <==> x in Pages(Next(mem, refs)) {
    }
  }

  // ----- when the last page is out for good -----

  lemma {:induction false} NeverThere(mem: seq<int>, refs: seq<int>)
    requires mem != [] && Distinct(mem) && refs != [] && Last(refs) !in mem && Last(refs) !in Front(refs)
    ensures !TieLoses(mem, refs)
    ensures OptCost(mem, refs, |refs|) == OptCost(mem, refs, |refs| - 1) + 1
    decreases |refs|
  {
    if |refs| > 1 {
      Smaller(refs);
      if refs[0] in mem {
        NeverThere(mem, refs[1..]);
      } else {
        NextPages(mem, refs);
        NeverThere(Next(mem, refs), refs[1..]);
      }
    }
  }

  lemma TwoIdle<T>(idle: set<T>, x: T) returns (z: T)
    requires |idle| >= 2
    ensures z in idle && z != x
  {
    z :| z in idle;
    if z == x {
      var rest := idle - {x};
      assert |rest| == |idle| - 1;
      z :| z in rest;
    }
  }

  lemma OneIdle<T>(idle: set<T>, x: T)
    requires |idle| < 2 && x in idle
    ensures idle == {x}
  {
    var rest := idle - {x};
    assert |rest| == |idle| - 1;
    assert idle == rest + {x};
  }

  /** What the rival evicts at a miss, and the idle page it then has the last page in place of. */
  lemma RivalMiss(mem: seq<int>, refs: seq<int>, x: int) returns (out: int, z: int)
    requires mem != [] && Distinct(mem) && |refs| > 1 && refs[0] !in mem
    requires Last(refs) !in mem && Last(refs) !in Front(refs) && x in Idle(mem, Front(refs))
    requires |Idle(mem, Front(refs[1..]))| >= 2
    ensures z in Idle(Next(mem, refs), Front(refs[1..])) && Last(refs) !in Next(mem, refs)
    ensures var rival := Pages(mem) - {x} + {Last(refs)};
            && out in rival && out !in refs[1..]
            && rival - {out} + {refs[0]} == Pages(Next(mem, refs)) - {z} + {Last(refs)}
  {
    Smaller(refs);
    VictimIs(mem, refs[1..]);
    NextPages(mem, refs);
    out, z := mem[Victim(mem, refs[1..], |mem|)], x;
    if out == x {
      z := TwoIdle(Idle(mem, Front(refs[1..])), x);
      out := z;
    }
    assert refs[1..] == Front(refs[1..]) + [Last(refs)];
  }

  /** A rival that holds the last page in place of an idle one saves the last replacement, if pages stay to spare. */
  lemma {:induction false} SpareKept(mem: seq<int>, refs: seq<int>, x: int)
    requires mem != [] && Distinct(mem) && refs != []
    requires Last(refs) !in mem && Last(refs) !in Front(refs) && x in Idle(mem, Front(refs))
    requires Spare(mem, refs)
    ensures Feasible(Pages(mem) - {x} + {Last(refs)}, refs, OptCost(mem, refs, |refs| - 1))
    decreases |refs|
  {
    var rival := Pages(mem) - {x} + {Last(refs)};
    if |refs| > 1 {
      Smaller(refs);
      if refs[0] in mem {
        SpareKept(mem, refs[1..], x);
      } else {
        var out, z := RivalMiss(mem, refs, x);
        NextPages(mem, refs);
        SpareKept(Next(mem, refs), refs[1..], z);
        FeasibleMiss(rival, refs, OptCost(mem, refs, |refs| - 1), out);
      }
    }
  }

  /** A page idle up to the last reference is idle after the next one. */
  lemma IdleLater(mem: seq<int>, refs: seq<int>)
    requires |refs| > 1
    ensures Idle(mem, Front(refs)) <= Idle(mem, Front(refs[1..]))
    ensures forall x :: x in Idle(mem, Front(refs)) ==> x in mem && x !in Front(refs)
  {
    Smaller(refs);
  }

  /** A rival whose other pages are all used in between evicts the last page. */
  lemma LastIsFurthest(mem: seq<int>, ahead: seq<int>, x: int)
    requires ahead != [] && Last(ahead) !in Front(ahead) && Idle(mem, Front(ahead)) == {x}
    ensures forall y :: y in Pages(mem) - {x} + {Last(ahead)} ==> NextUse(y, ahead) <= NextUse(Last(ahead), ahead)
  {
    forall y | y in Pages(mem) - {x} + {Last(ahead)} ensures NextUse(y, ahead) <= NextUse(Last(ahead), ahead) {
      assert y in Idle(mem, Front(ahead)) <==> y == x;
      NextUses(y, ahead);
      NextUses(Last(ahead), ahead);
    }
  }

  /** Once pages run short, even a rival that held the last page does no better than the policy. */
  lemma {:induction false} SpareLost(mem: seq<int>, refs: seq<int>, x: int, c: nat)
    requires mem != [] && Distinct(mem) && refs != []
    requires Last(refs) !in mem && Last(refs) !in Front(refs) && x in Idle(mem, Front(refs))
    requires !Spare(mem, refs) && Feasible(Pages(mem) - {x} + {Last(refs)}, refs, c)
    ensures OptCost(mem, refs, |refs|) <= c
    decreases |refs|, 0
  {
    hide Victim, Score, NextUse, Idle, TieLoses;
    var rival := Pages(mem) - {x} + {Last(refs)};
    Smaller(refs);
    IdleLater(mem, refs);
    if refs[0] in mem {
      SpareLost(mem, refs[1..], x, c);
    } else {
      NextPages(mem, refs);
      if |Idle(mem, Front(refs[1..]))| >= 2 {
        var out, z := RivalMiss(mem, refs, x);
        NextUses(out, refs[1..]);
        assert refs[1..] == Front(refs[1..]) + [Last(refs)];
        FurthestIsBest(rival, refs, c, out);
        SpareLost(Next(mem, refs), refs[1..], z, c - 1);
      } else {
        OneIdle(Idle(mem, Front(refs[1..])), x);
        VictimIs(mem, refs[1..]);
        LastIsFurthest(mem, refs[1..], x);
        FurthestIsBest(rival, refs, c, Last(refs));
        assert rival - {Last(refs)} + {refs[0]} == Pages(Next(mem, refs));
        NeverThere(Next(mem, refs), refs[1..]);
        NoTieIsOptimal(Next(mem, refs), refs[1..], c - 1);
      }
    }
  }

  /** Evicting the last page costs nothing when no other page lies idle, or pages run short later anyway. */
  lemma LastOutAnyway(mem: seq<int>, refs: seq<int>, c: nat)
    requires mem != [] && Distinct(mem) && |refs| > 1 && refs[0] !in mem && Feasible(Pages(mem), refs, c)
    requires mem[Victim(mem, refs[1..], |mem|)] == Last(refs) && Last(refs) !in Front(refs[1..])
    requires |Idle(mem, Front(refs[1..]))| < 2 || !Spare(Next(mem, refs), refs[1..])
    ensures OptCost(mem, refs, |refs|) <= c
    decreases |refs|, 0
  {
    hide Score, Spare, TieLoses, NextUse;
    var idle := Idle(mem, Front(refs[1..]));
    Smaller(refs);
    VictimIs(mem, refs[1..]);
    NextPages(mem, refs);
    NextUses(Last(refs), refs[1..]);
    hide Victim;
    if |idle| >= 2 {
      var z := TwoIdle(idle, Last(refs));
      NextUses(z, refs[1..]);
      FurthestIsBest(Pages(mem), refs, c, z);
      assert Pages(mem) - {z} + {refs[0]} == Pages(Next(mem, refs)) - {z} + {Last(refs)};
      SpareLost(Next(mem, refs), refs[1..], z, c - 1);
    } else {
      OneIdle(idle, Last(refs));
      FurthestIsBest(Pages(mem), refs, c, Last(refs));
      NeverThere(Next(mem, refs), refs[1..]);
      NoTieIsOptimal(Next(mem, refs), refs[1..], c - 1);
    }
  }

  /** Without such a tie the policy is optimal to the end. */
  lemma {:induction false} NoTieIsOptimal(mem: seq<int>, refs: seq<int>, c: nat)
    requires mem != [] && Distinct(mem) && !TieLoses(mem, refs) && Feasible(Pages(mem), refs, c)
    ensures OptCost(mem, refs, |refs|) <= c
    decreases |refs|, 1
  {
    hide Victim, Score, Spare, Idle, NextUse;
    if refs == [] {
    } else if refs[0] in mem {
      if |refs| > 1 {
        NoTieIsOptimal(mem, refs[1..], c);
      }
    } else if |refs| > 1 {
      var out := mem[Victim(mem, refs[1..], |mem|)];
      Smaller(refs);
      if out == Last(refs) && out !in Front(refs[1..]) {
        LastOutAnyway(mem, refs, c);
      } else {
        NextPages(mem, refs);
        ScoreIsExact(mem, refs[1..]);
        FurthestIsBest(Pages(mem), refs, c, out);
        NoTieIsOptimal(Next(mem, refs), refs[1..], c - 1);
      }
    } else {
      assert refs[1..] == [];
    }
  }

  /** When no page lies idle, or the victim is not the last page, the score is exact. */
  lemma ScoreIsExact(mem: seq<int>, ahead: seq<int>)
    requires mem != [] && ahead != []
    requires var out := mem[Victim(mem, ahead, |mem|)]; out != Last(ahead) || out in Front(ahead)
    ensures forall x :: x in mem ==> NextUse(x, ahead) <= NextUse(mem[Victim(mem, ahead, |mem|)], ahead)
  {
    VictimIs(mem, ahead);
    var idle, out := Idle(mem, Front(ahead)), mem[Victim(mem, ahead, |mem|)];
    if out in Front(ahead) {
      assert idle == {};
    }
  }

  /** The tie itself: evicting the other idle page instead is followed by one replacement less. */
  lemma TieHere(mem: seq<int>, refs: seq<int>)
    requires mem != [] && Distinct(mem) && |refs| > 1 && refs[0] !in mem
    requires mem[Victim(mem, refs[1..], |mem|)] == Last(refs) && Last(refs) !in Front(refs[1..])
    requires |Idle(mem, Front(refs[1..]))| >= 2 && Spare(Next(mem, refs), refs[1..])
    ensures Feasible(Pages(mem), refs, OptCost(mem, refs, |refs| - 1))
    ensures OptCost(mem, refs, |refs|) == OptCost(mem, refs, |refs| - 1) + 1
  {
    hide Victim, Score, NextUse, Spare;
    Smaller(refs);
    NextPages(mem, refs);
    var z := TwoIdle(Idle(mem, Front(refs[1..])), Last(refs));
    NeverThere(Next(mem, refs), refs[1..]);
    SpareKept(Next(mem, refs), refs[1..], z);
    assert Pages(mem) - {z} + {refs[0]} == Pages(Next(mem, refs)) - {z} + {Last(refs)};
    FeasibleMiss(Pages(mem), refs, OptCost(mem, refs, |refs| - 1), z);
  }

  /** In such a tie the policy pays one replacement that another policy saves. */
  lemma {:induction false} TieCosts(mem: seq<int>, refs: seq<int>)
    requires mem != [] && Distinct(mem) && TieLoses(mem, refs)
    ensures Feasible(Pages(mem), refs, OptCost(mem, refs, |refs| - 1))
    ensures OptCost(mem, refs, |refs|) == OptCost(mem, refs, |refs| - 1) + 1
    decreases |refs|
  {
    hide Victim, Score, NextUse, Spare, Idle;
    Smaller(refs);
    if refs[0] in mem {
      TieCosts(mem, refs[1..]);
    } else {
      var out := mem[Victim(mem, refs[1..], |mem|)];
      if out == Last(refs) && out !in Front(refs[1..]) {
        TieHere(mem, refs);
      } else {
        NextPages(mem, refs);
        TieCosts(Next(mem, refs), refs[1..]);
        FeasibleMiss(Pages(mem), refs, OptCost(mem, refs, |refs| - 1), out);
      }
    }
  }

  /** On a whole string the policy is optimal if and only if it does not lose a tie over the last page. */
  lemma OptIsOptimalExactly(mem: seq<int>, refs: seq<int>)
    requires mem != [] && Distinct(mem)
    ensures (forall c: nat :: Feasible(Pages(mem), refs, c) ==> OptCost(mem, refs, |refs|) <= c) <==> !TieLoses(mem, refs)
  {
    hide OptCost, Feasible, Pages, TieLoses;
    if TieLoses(mem, refs) {
      TieHasReferences(mem, refs);
      TieCosts(mem, refs);
      var c := OptCost(mem, refs, |refs| - 1);
      assert Feasible(Pages(mem), refs, c) && OptCost(mem, refs, |refs|) > c;
    } else {
      forall c: nat | Feasible(Pages(mem), refs, c) ensures OptCost(mem, refs, |refs|) <= c {
        NoTieIsOptimal(mem, refs, c);
      }
    }
  }

  lemma TieHasReferences(mem: seq<int>, refs: seq<int>)
    requires mem != [] && TieLoses(mem, refs)
    ensures |refs| > 1
  {
  }
}
