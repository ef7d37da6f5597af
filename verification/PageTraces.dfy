/**
 * The traces of the four policies as their loops make them, one reference at a time, and why they
 * obey the laws.
 */
module PageTraces {
  import opened Sequences
  import opened PageOptimal
  import opened PageLaws

  // ----- growing a trace -----

  function Longer(r: Trace, p: int, m: seq<int>): Trace {
    Trace(r.mems + [m], r.refs + [p])
  }

  lemma NothingToTell(m: seq<int>)
    requires m != []
    ensures Tells(Trace([m], []), m, [], m, 0)
  {
  }

  /** One more reference, found or put into frame v. */
  lemma TellsLonger(r: Trace, first: seq<int>, refs: seq<int>, now: seq<int>, count: nat, p: int, v: nat, m: seq<int>)
    requires Tells(r, first, refs, now, count) && v < |now|
    requires m == if p in now then now else now[v := p]
    ensures Tells(Longer(r, p, m), first, refs + [p], m, count + if p in now then 0 else 1)
    ensures Misses(Longer(r, p, m), |refs|) <==> p !in now
    ensures p !in now ==> Place(Longer(r, p, m), |refs|) == v
  {
    hide Absences;
    var q, n := Longer(r, p, m), |refs|;
    if p !in now {
      PlaceIs(now, v, p);
    }
    forall t | 0 <= t < |q.refs| ensures Follows(q.mems[t], q.refs[t], q.mems[t + 1]) {
      if t < n {
        assert Follows(r.mems[t], r.refs[t], r.mems[t + 1]);
      }
    }
    SameAbsences(r, q, n);
    AbsencesStep(q, n);
  }

  lemma AbsencesStep(r: Trace, n: nat)
    requires OnDemand(r) && n < |r.refs|
    ensures Absences(r, n + 1) == Absences(r, n) + if Misses(r, n) then 1 else 0
  {
  }

  lemma PlaceIs(m: seq<int>, v: nat, p: int)
    requires v < |m| && p !in m
    ensures p in m[v := p] && IndexOf(m[v := p], p) == v
  {
    var next := m[v := p];
    assert next[v] == p;
    assert forall i :: 0 <= i < |m| && i != v ==> next[i] == m[i] && m[i] in m;
  }

  lemma {:induction false} SameAbsences(r: Trace, q: Trace, n: nat)
    requires OnDemand(r) && OnDemand(q) && n <= |r.refs| && r.refs <= q.refs && r.mems <= q.mems
    ensures Absences(r, n) == Absences(q, n)
  {
    if n > 0 {
      SameAbsences(r, q, n - 1);
    }
  }

  /** What was there stays in a longer trace. */
  lemma LongerKeeps(r: Trace, p: int, m: seq<int>, t: nat)
    requires OnDemand(r) && OnDemand(Longer(r, p, m)) && t < |r.refs|
    ensures Misses(Longer(r, p, m), t) <==> Misses(r, t)
    ensures Misses(r, t) ==> Place(Longer(r, p, m), t) == Place(r, t)
    ensures Longer(r, p, m).mems[t] == r.mems[t] && Longer(r, p, m).mems[t + 1] == r.mems[t + 1]
  {
  }

  // ----- furthest ahead -----

  /** The law for a beginning of the references. */
  ghost predicate FurthestSoFar(r: Trace, refs: seq<int>)
    requires OnDemand(r)
  {
    forall t :: 0 <= t < |r.refs| && Misses(r, t) ==> IsFurthest(refs, t + 1, r.mems[t], Place(r, t))
  }

  lemma FurthestLonger(r: Trace, p: int, m: seq<int>, refs: seq<int>)
    requires OnDemand(r) && FurthestSoFar(r, refs) && OnDemand(Longer(r, p, m))
    requires var q, n := Longer(r, p, m), |r.refs|; Misses(q, n) ==> IsFurthest(refs, n + 1, q.mems[n], Place(q, n))
    ensures FurthestSoFar(Longer(r, p, m), refs)
  {
    hide Misses, IsFurthest, Absences, Follows;
    var q := Longer(r, p, m);
    forall t | 0 <= t < |q.refs| && Misses(q, t) ensures IsFurthest(refs, t + 1, q.mems[t], Place(q, t)) {
      if t < |r.refs| {
        LongerKeeps(r, p, m, t);
      }
    }
  }

  // ----- least recent -----

  lemma LeastRecentLonger(before: seq<int>, r: Trace, p: int, m: seq<int>)
    requires OnDemand(r) && GivesUpLeastRecent(before, r) && OnDemand(Longer(r, p, m))
    requires var q, n := Longer(r, p, m), |r.refs|; Misses(q, n) ==> IsLeastRecent(before + r.refs, q.mems[n], Place(q, n))
    ensures GivesUpLeastRecent(before, Longer(r, p, m))
  {
    hide Misses, IsLeastRecent, Absences, Follows;
    var q := Longer(r, p, m);
    forall t | 0 <= t < |q.refs| && Misses(q, t) ensures IsLeastRecent(before + q.refs[..t], q.mems[t], Place(q, t)) {
      if t < |r.refs| {
        LongerKeeps(r, p, m, t);
        assert q.refs[..t] == r.refs[..t];
      } else {
        assert q.refs[..t] == r.refs;
      }
    }
  }

  // ----- round robin -----

  function NextFrame(v: nat, frames: nat): nat {
    if v + 1 == frames then 0 else v + 1
  }

  /** A trace with the positions of the hand in it. */
  predicate TurnsOver(r: Trace, hands: seq<nat>)
    requires OnDemand(r)
  {
    && |hands| == |r.mems| && hands[0] == 0
    && forall t :: 0 <= t < |r.refs| ==>
      hands[t + 1] == if Misses(r, t) then NextFrame(Place(r, t), |r.mems[0]|) else hands[t]
  }

  lemma TurnsLonger(r: Trace, hands: seq<nat>, p: int, m: seq<int>, h: nat)
    requires OnDemand(r) && TurnsOver(r, hands) && OnDemand(Longer(r, p, m))
    requires var q, n := Longer(r, p, m), |r.refs|; h == if Misses(q, n) then NextFrame(Place(q, n), |r.mems[0]|) else hands[n]
    ensures TurnsOver(Longer(r, p, m), hands + [h])
  {
    hide Misses, Place, Follows;
    var q, hs := Longer(r, p, m), hands + [h];
    forall t | 0 <= t < |q.refs|
      ensures hs[t + 1] == if Misses(q, t) then NextFrame(Place(q, t), |q.mems[0]|) else hs[t]
    {
      if t < |r.refs| {
        LongerKeeps(r, p, m, t);
        assert hs[t + 1] == hands[t + 1] && hs[t] == hands[t];
      }
    }
  }

  lemma {:induction false} HandIs(r: Trace, hands: seq<nat>, t: nat)
    requires OnDemand(r) && TurnsOver(r, hands) && t <= |r.refs|
    ensures hands[t] == Hand(r, t)
  {
    if t > 0 {
      HandIs(r, hands, t - 1);
    }
  }

  /** With every load under the hand, the frames from the hand on are in order of loading. */
  lemma {:induction false} LoadedInTurn(r: Trace, hands: seq<nat>, t: nat)
    requires OnDemand(r) && TurnsOver(r, hands) && t <= |r.refs|
    requires forall i :: 0 <= i < t && Misses(r, i) ==> Place(r, i) == hands[i]
    ensures hands[t] < |r.mems[0]|
    ensures forall k :: 0 <= k < |r.mems[0]| ==> LoadedAt(r, k, t) < t
    ensures forall j, k | 0 <= j < |r.mems[0]| && 0 <= k < |r.mems[0]| ::
              (Ahead(hands[t], j, |r.mems[0]|) < Ahead(hands[t], k, |r.mems[0]|) ==> LoadedAt(r, j, t) < LoadedAt(r, k, t))
  {
    if t > 0 {
      LoadedInTurn(r, hands, t - 1);
    }
  }

  lemma RoundRobinIsOldest(r: Trace, hands: seq<nat>)
    requires OnDemand(r) && TurnsOver(r, hands)
    requires forall t :: 0 <= t < |r.refs| && Misses(r, t) ==> Place(r, t) == hands[t]
    ensures GivesUpOldest(r)
  {
    hide OnDemand, Misses, Place, LoadedAt;
    forall t | 0 <= t < |r.refs| && Misses(r, t) ensures IsOldest(r, t, Place(r, t)) {
      LoadedInTurn(r, hands, t);
    }
  }

  // ----- the clock -----

  /** The flags after a sweep of the hand from h that ended by loading frame v. */
  predicate Swept(f: seq<int>, h: nat, v: nat, next: seq<int>)
    requires h < |f| && v < |f|
  {
    && |next| == |f| && next[v] == 1
    && if forall k :: 0 <= k < |f| ==> f[k] == 1 then v == h && forall k :: 0 <= k < |f| && k != v ==> next[k] == 0
       else f[v] == 0 && forall k :: 0 <= k < |f| && k != v ==>
         if Ahead(h, k, |f|) < Ahead(h, v, |f|) then f[k] == 1 && next[k] == 0 else next[k] == f[k]
  }

  predicate IsMarked(m: seq<int>, p: int, f: seq<int>, next: seq<int>)
    requires |m| == |f|
  {
    |next| == |f| && forall k :: 0 <= k < |f| ==> next[k] == if m[k] == p then 1 else f[k]
  }

  /** A trace with the flags of the frames and the positions of the hand in it. */
  ghost predicate Ticks(r: Trace, hands: seq<nat>, flags: seq<seq<int>>)
    requires OnDemand(r)
  {
    && TurnsOver(r, hands) && |hands| == |flags| == |r.mems|
    && (forall t :: 0 <= t < |r.mems| ==> |flags[t]| == |r.mems[0]| && hands[t] < |r.mems[0]|)
    && (forall k :: 0 <= k < |r.mems[0]| ==> flags[0][k] == 1)
    && forall t :: 0 <= t < |r.refs| ==> TickAt(r, hands, flags, t)
  }

  ghost predicate TickAt(r: Trace, hands: seq<nat>, flags: seq<seq<int>>, t: nat)
    requires OnDemand(r) && t < |r.refs| && |hands| == |flags| == |r.mems| && |flags[t]| == |r.mems[0]| && hands[t] < |r.mems[0]|
  {
    if Misses(r, t) then Swept(flags[t], hands[t], Place(r, t), flags[t + 1])
    else IsMarked(r.mems[t], r.refs[t], flags[t], flags[t + 1])
  }

  /** A flag is set exactly when its frame was used since the hand last went past. */
  lemma {:induction false} FlagIsUsed(r: Trace, hands: seq<nat>, flags: seq<seq<int>>, t: nat)
    requires OnDemand(r) && Ticks(r, hands, flags) && t <= |r.refs|
    ensures forall k :: 0 <= k < |r.mems[0]| ==> flags[t][k] == (if Used(r, k, t) then 1 else 0)
  {
    if t > 0 {
      FlagIsUsed(r, hands, flags, t - 1);
      HandIs(r, hands, t - 1);
      assert TickAt(r, hands, flags, t - 1);
    }
  }

  lemma ClockGivesSecondChance(r: Trace, hands: seq<nat>, flags: seq<seq<int>>)
    requires OnDemand(r) && Ticks(r, hands, flags)
    ensures GivesSecondChance(r)
  {
    hide Used, Misses, TurnsOver;
    forall t | 0 <= t < |r.refs| && Misses(r, t) ensures IsFirstUnused(r, t) {
      FlagIsUsed(r, hands, flags, t);
      HandIs(r, hands, t);
      assert TickAt(r, hands, flags, t);
      FirstClear(r, hands[t], flags[t], flags[t + 1], t);
    }
  }

  /** A sweep over the flags stops where the law says. */
  lemma FirstClear(r: Trace, h: nat, f: seq<int>, next: seq<int>, t: nat)
    requires OnDemand(r) && t < |r.refs| && Misses(r, t) && |f| == |r.mems[0]| && h == Hand(r, t)
    requires forall k :: 0 <= k < |f| ==> f[k] == if Used(r, k, t) then 1 else 0
    requires Swept(f, h, Place(r, t), next)
    ensures IsFirstUnused(r, t)
  {
    hide Used, OnDemand, Misses, Place, Hand;
  }

  lemma TicksLonger(r: Trace, hands: seq<nat>, flags: seq<seq<int>>, p: int, m: seq<int>, h: nat, f: seq<int>)
    requires OnDemand(r) && Ticks(r, hands, flags) && OnDemand(Longer(r, p, m))
    requires TurnsOver(Longer(r, p, m), hands + [h]) && |f| == |r.mems[0]| && h < |f|
    requires TickAt(Longer(r, p, m), hands + [h], flags + [f], |r.refs|)
    ensures Ticks(Longer(r, p, m), hands + [h], flags + [f])
  {
    hide Misses, Swept, IsMarked, TurnsOver, Follows;
    var q := Longer(r, p, m);
    assert forall t :: 0 <= t < |r.mems| ==> (hands + [h])[t] == hands[t] && (flags + [f])[t] == flags[t];
    forall t | 0 <= t < |q.refs| ensures TickAt(q, hands + [h], flags + [f], t) {
      if t < |r.refs| {
        LongerKeeps(r, p, m, t);
        assert TickAt(r, hands, flags, t);
        assert (hands + [h])[t + 1] == hands[t + 1] && (flags + [f])[t + 1] == flags[t + 1];
      }
    }
  }

  // ----- the loops -----

  /** What the loop of the optimal policy has told after the references from start to i. */
  ghost predicate OptSoFar(r: Trace, first: seq<int>, refs: seq<int>, start: nat, i: nat, now: seq<int>, count: nat)
    requires start <= i <= |refs|
  {
    Tells(r, first, refs[start..i], now, count) && FurthestSoFar(r, refs[start..])
  }

  lemma OptBegins(first: seq<int>, refs: seq<int>, start: nat)
    requires first != [] && start <= |refs|
    ensures OptSoFar(Trace([first], []), first, refs, start, start, first, 0)
  {
    NothingToTell(first);
  }

  lemma OptStep(r: Trace, first: seq<int>, refs: seq<int>, start: nat, i: nat, now: seq<int>, count: nat, v: nat, m: seq<int>)
    requires start <= i < |refs| && OptSoFar(r, first, refs, start, i, now, count)
    requires refs[i] !in now ==> v == Victim(now, refs[i + 1..], |now|)
    requires v < |now| && m == if refs[i] in now then now else now[v := refs[i]]
    ensures OptSoFar(Longer(r, refs[i], m), first, refs, start, i + 1, m, count + if refs[i] in now then 0 else 1)
  {
    hide FurthestSoFar, IsFurthest, UsedNext, Victim, Absences, Place, Follows;
    NextSlice(refs, start, i);
    var rest := refs[start..];
    TellsLonger(r, first, refs[start..i], now, count, refs[i], v, m);
    VictimIsFurthest(rest, i - start + 1, now);
    FurthestLonger(r, refs[i], m, rest);
  }

  lemma OptEnds(r: Trace, first: seq<int>, refs: seq<int>, start: nat, now: seq<int>, count: nat)
    requires start <= |refs| && OptSoFar(r, first, refs, start, |refs|, now, count)
    ensures Tells(r, first, refs[start..], now, count) && GivesUpFurthest(r)
  {
    assert refs[start..|refs|] == refs[start..];
  }

  lemma NextSlice(refs: seq<int>, start: nat, i: nat)
    requires start <= i < |refs|
    ensures refs[start..i + 1] == refs[start..i] + [refs[i]]
    ensures refs[start..][i - start + 1..] == refs[i + 1..]
    ensures refs[..start] + refs[start..i] == refs[..i]
  {
  }

  /** First in first out: every load went under the hand, which now stands at h. */
  ghost predicate FifoSoFar(r: Trace, hands: seq<nat>, first: seq<int>, refs: seq<int>, start: nat, i: nat, now: seq<int>, count: nat, h: nat)
    requires start <= i <= |refs|
  {
    && Tells(r, first, refs[start..i], now, count) && TurnsOver(r, hands) && hands[i - start] == h
    && forall t :: 0 <= t < |r.refs| && Misses(r, t) ==> Place(r, t) == hands[t]
  }

  lemma FifoBegins(first: seq<int>, refs: seq<int>, start: nat)
    requires first != [] && start <= |refs|
    ensures FifoSoFar(Trace([first], []), [0], first, refs, start, start, first, 0, 0)
  {
    NothingToTell(first);
  }

  lemma FifoStep(r: Trace, hands: seq<nat>, first: seq<int>, refs: seq<int>, start: nat, i: nat, now: seq<int>, count: nat,
                 h: nat, m: seq<int>, next: nat)
    requires start <= i < |refs| && FifoSoFar(r, hands, first, refs, start, i, now, count, h)
    requires h < |now| && m == if refs[i] in now then now else now[h := refs[i]]
    requires next == if refs[i] in now then h else NextFrame(h, |now|)
    ensures FifoSoFar(Longer(r, refs[i], m), hands + [next], first, refs, start, i + 1, m, count + if refs[i] in now then 0 else 1, next)
  {
    hide Absences, Place, Follows;
    NextSlice(refs, start, i);
    TellsLonger(r, first, refs[start..i], now, count, refs[i], h, m);
    TurnsLonger(r, hands, refs[i], m, next);
    var q := Longer(r, refs[i], m);
    forall t | 0 <= t < |q.refs| && Misses(q, t) ensures Place(q, t) == (hands + [next])[t] {
      if t < i - start {
        LongerKeeps(r, refs[i], m, t);
      }
    }
  }

  lemma FifoEnds(r: Trace, hands: seq<nat>, first: seq<int>, refs: seq<int>, start: nat, now: seq<int>, count: nat, h: nat)
    requires start <= |refs| && FifoSoFar(r, hands, first, refs, start, |refs|, now, count, h)
    ensures Tells(r, first, refs[start..], now, count) && GivesUpOldest(r)
  {
    hide GivesUpOldest;
    assert refs[start..|refs|] == refs[start..];
    RoundRobinIsOldest(r, hands);
  }

  ghost predicate LruSoFar(r: Trace, first: seq<int>, refs: seq<int>, start: nat, i: nat, now: seq<int>, count: nat)
    requires start <= i <= |refs|
  {
    Tells(r, first, refs[start..i], now, count) && GivesUpLeastRecent(refs[..start], r)
  }

  lemma LruBegins(first: seq<int>, refs: seq<int>, start: nat)
    requires first != [] && start <= |refs|
    ensures LruSoFar(Trace([first], []), first, refs, start, start, first, 0)
  {
    NothingToTell(first);
  }

  lemma LruStep(r: Trace, first: seq<int>, refs: seq<int>, start: nat, i: nat, now: seq<int>, count: nat, v: nat, m: seq<int>)
    requires start <= i < |refs| && LruSoFar(r, first, refs, start, i, now, count)
    requires v < |now| && m == if refs[i] in now then now else now[v := refs[i]]
    requires refs[i] !in now ==> IsLeastRecent(refs[..i], now, v)
    ensures LruSoFar(Longer(r, refs[i], m), first, refs, start, i + 1, m, count + if refs[i] in now then 0 else 1)
  {
    hide GivesUpLeastRecent, IsLeastRecent, Absences, Place, Follows;
    NextSlice(refs, start, i);
    TellsLonger(r, first, refs[start..i], now, count, refs[i], v, m);
    LeastRecentLonger(refs[..start], r, refs[i], m);
  }

  lemma LruEnds(r: Trace, first: seq<int>, refs: seq<int>, start: nat, now: seq<int>, count: nat)
    requires start <= |refs| && LruSoFar(r, first, refs, start, |refs|, now, count)
    ensures Tells(r, first, refs[start..], now, count) && GivesUpLeastRecent(refs[..start], r)
  {
    assert refs[start..|refs|] == refs[start..];
  }

  /** The clock, with its hand now at h and its flags at f. */
  ghost predicate ClockSoFar(r: Trace, hands: seq<nat>, flags: seq<seq<int>>, first: seq<int>, refs: seq<int>, start: nat, i: nat,
                             now: seq<int>, count: nat, h: nat, f: seq<int>)
    requires start <= i <= |refs|
  {
    && Tells(r, first, refs[start..i], now, count) && Ticks(r, hands, flags)
    && hands[i - start] == h && flags[i - start] == f
  }

  lemma ClockBegins(first: seq<int>, refs: seq<int>, start: nat, f: seq<int>)
    requires first != [] && start <= |refs| && |f| == |first| && forall k :: 0 <= k < |f| ==> f[k] == 1
    ensures ClockSoFar(Trace([first], []), [0], [f], first, refs, start, start, first, 0, 0, f)
  {
    NothingToTell(first);
  }

  lemma ClockStep(r: Trace, hands: seq<nat>, flags: seq<seq<int>>, first: seq<int>, refs: seq<int>, start: nat, i: nat,
                  now: seq<int>, count: nat, h: nat, f: seq<int>, v: nat, m: seq<int>, next: nat, g: seq<int>)
    requires start <= i < |refs| && ClockSoFar(r, hands, flags, first, refs, start, i, now, count, h, f)
    requires v < |now| == |f| && h < |f| && m == if refs[i] in now then now else now[v := refs[i]]
    requires next == if refs[i] in now then h else NextFrame(v, |now|)
    requires if refs[i] in now then IsMarked(now, refs[i], f, g) else Swept(f, h, v, g)
    ensures ClockSoFar(Longer(r, refs[i], m), hands + [next], flags + [g], first, refs, start, i + 1, m,
                       count + if refs[i] in now then 0 else 1, next, g)
  {
    hide Absences, Place, Follows;
    NextSlice(refs, start, i);
    TellsLonger(r, first, refs[start..i], now, count, refs[i], v, m);
    TurnsLonger(r, hands, refs[i], m, next);
    TicksLonger(r, hands, flags, refs[i], m, next, g);
  }

  lemma ClockEnds(r: Trace, hands: seq<nat>, flags: seq<seq<int>>, first: seq<int>, refs: seq<int>, start: nat,
                  now: seq<int>, count: nat, h: nat, f: seq<int>)
    requires start <= |refs| && ClockSoFar(r, hands, flags, first, refs, start, |refs|, now, count, h, f)
    ensures Tells(r, first, refs[start..], now, count) && GivesSecondChance(r)
  {
    hide GivesSecondChance;
    assert refs[start..|refs|] == refs[start..];
    ClockGivesSecondChance(r, hands, flags);
  }

  // ----- one sweep of the hand -----

  /** The hand came past some frames from h on: all their flags were set, and are clear now. */
  predicate SweptSoFar(f: seq<int>, h: nat, passed: nat, now: seq<int>)
    requires h < |f|
  {
    && |now| == |f|
    && forall k :: 0 <= k < |f| ==> if Ahead(h, k, |f|) < passed then f[k] == 1 && now[k] == 0 else now[k] == f[k]
  }

  lemma SweepBegins(f: seq<int>, h: nat)
    requires h < |f|
    ensures SweptSoFar(f, h, 0, f)
  {
  }

  lemma SweepEnds(f: seq<int>, h: nat, passed: nat, v: nat, now: seq<int>, next: seq<int>)
    requires h < |f| && passed <= |f| && v == (if h + passed < |f| then h + passed else h + passed - |f|)
    requires v < |f| && SweptSoFar(f, h, passed, now) && now[v] == 0 && next == now[v := 1]
    ensures Swept(f, h, v, next)
  {
    if forall k :: 0 <= k < |f| ==> f[k] == 1 {
      assert f[v] == 1;
    } else {
      assert passed < |f|;
    }
  }

  /** One more frame passed: its flag was set, so the hand has not come all the way round yet. */
  lemma SweepGoesOn(f: seq<int>, h: nat, passed: nat, v: nat, now: seq<int>)
    requires h < |f| && passed <= |f| && v == (if h + passed < |f| then h + passed else h + passed - |f|)
    requires v < |f| && SweptSoFar(f, h, passed, now) && now[v] == 1
    ensures passed < |f| && SweptSoFar(f, h, passed + 1, now[v := 0])
  {
  }
}
