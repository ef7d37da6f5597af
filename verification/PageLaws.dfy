/**
 * What a run of each policy looks like from outside: the memories before every reference and after
 * the last one. Which page a policy gives up is told from these memories and the references alone.
 */
module PageLaws {
  import opened Sequences

  /** The references after loading, with the memory before each of them and after the last one. */
  datatype Trace = Trace(mems: seq<seq<int>>, refs: seq<int>)

  /** A hit changes nothing; a miss puts the page into one frame. */
  predicate Follows(m: seq<int>, p: int, next: seq<int>) {
    if p in m then next == m
    else |next| == |m| && p in next && next == m[IndexOf(next, p) := p]
  }

  predicate OnDemand(r: Trace) {
    && |r.mems| == |r.refs| + 1 && r.mems[0] != []
    && (forall t :: 0 <= t < |r.mems| ==> |r.mems[t]| == |r.mems[0]|)
    && forall t :: 0 <= t < |r.refs| ==> Follows(r.mems[t], r.refs[t], r.mems[t + 1])
  }

  predicate Misses(r: Trace, t: nat)
    requires OnDemand(r) && t < |r.refs|
  {
    r.refs[t] !in r.mems[t]
  }

  /** The frame that reference t was put into. */
  function Place(r: Trace, t: nat): (v: nat)
    requires OnDemand(r) && t < |r.refs| && Misses(r, t)
    ensures v < |r.mems[0]|
  {
    assert Follows(r.mems[t], r.refs[t], r.mems[t + 1]);
    IndexOf(r.mems[t + 1], r.refs[t])
  }

  /** How many of the first n references find their page absent. */
  function Absences(r: Trace, n: nat): nat
    requires OnDemand(r) && n <= |r.refs|
  {
    if n == 0 then 0 else Absences(r, n - 1) + if Misses(r, n - 1) then 1 else 0
  }

  /** How far the hand at h has to go to frame k. */
  function Ahead(h: nat, k: nat, frames: nat): nat
    requires h < frames && k < frames
  {
    if k >= h then k - h else k + frames - h
  }

  // ----- the memory after loading -----

  /** The frames hold the first different pages, in the order in which they are first referenced. */
  predicate FilledInOrder(refs: seq<int>, start: nat, m: seq<int>) {
    && 0 < start <= |refs| && m != []
    && (forall i :: 0 <= i < start ==> refs[i] in m)
    && (forall k :: 0 <= k < |m| ==> m[k] in refs[..start])
    && ListedInOrder(refs[..start], m)
    && refs[start - 1] == m[|m| - 1] && refs[start - 1] !in refs[..start - 1]
  }

  predicate ListedInOrder(refs: seq<int>, m: seq<int>) {
    forall j, k :: 0 <= j < k < |m| ==> SeenBefore(refs, m[j], m[k])
  }

  /** At some time x has been referenced, and y has not. */
  predicate SeenBefore(refs: seq<int>, x: int, y: int) {
    exists n :: 0 <= n <= |refs| && x in refs[..n] && y !in refs[..n]
  }

  // ----- what each policy gives up -----

  /** Where the page is referenced next, from position n on; the last position when it is not. */
  function UsedNext(refs: seq<int>, n: nat, p: int): nat
    decreases |refs| - n
  {
    if n + 1 >= |refs| || refs[n] == p then n else UsedNext(refs, n + 1, p)
  }

  /** Always the page that is used furthest ahead, the first of several. */
  ghost predicate GivesUpFurthest(r: Trace)
    requires OnDemand(r)
  {
    forall t :: 0 <= t < |r.refs| && Misses(r, t) ==> IsFurthest(r.refs, t + 1, r.mems[t], Place(r, t))
  }

  predicate IsFurthest(refs: seq<int>, n: nat, m: seq<int>, v: nat)
    requires v < |m|
  {
    forall k :: 0 <= k < |m| ==>
      if k < v then UsedNext(refs, n, m[k]) < UsedNext(refs, n, m[v]) else UsedNext(refs, n, m[k]) <= UsedNext(refs, n, m[v])
  }

  /** When frame k was last loaded, in references after loading; the first loading filled them in order. */
  function LoadedAt(r: Trace, k: nat, t: nat): int
    requires OnDemand(r) && t <= |r.refs| && k < |r.mems[0]|
  {
    if t == 0 then k - |r.mems[0]|
    else if Misses(r, t - 1) && Place(r, t - 1) == k then t - 1
    else LoadedAt(r, k, t - 1)
  }

  /** Always the page that was loaded longest ago. */
  ghost predicate GivesUpOldest(r: Trace)
    requires OnDemand(r)
  {
    forall t :: 0 <= t < |r.refs| && Misses(r, t) ==> IsOldest(r, t, Place(r, t))
  }

  predicate IsOldest(r: Trace, t: nat, v: nat)
    requires OnDemand(r) && t <= |r.refs| && v < |r.mems[0]|
  {
    forall k :: 0 <= k < |r.mems[0]| && k != v ==> LoadedAt(r, v, t) < LoadedAt(r, k, t)
  }

  /** When the page was last referenced; -1 when it never was. */
  function LastUse(refs: seq<int>, p: int): int {
    if refs == [] then -1 else if refs[|refs| - 1] == p then |refs| - 1 else LastUse(refs[..|refs| - 1], p)
  }

  /** Always the page whose last use, counting the references before the trace, is longest ago. */
  ghost predicate GivesUpLeastRecent(before: seq<int>, r: Trace)
    requires OnDemand(r)
  {
    forall t :: 0 <= t < |r.refs| && Misses(r, t) ==> IsLeastRecent(before + r.refs[..t], r.mems[t], Place(r, t))
  }

  predicate IsLeastRecent(past: seq<int>, m: seq<int>, v: nat)
    requires v < |m|
  {
    forall k :: 0 <= k < |m| && k != v ==> LastUse(past, m[v]) < LastUse(past, m[k])
  }

  // ----- the clock -----

  /** Where the hand stands: one past the frame loaded last. */
  function Hand(r: Trace, t: nat): (h: nat)
    requires OnDemand(r) && t <= |r.refs|
    ensures h < |r.mems[0]|
  {
    if t == 0 then 0
    else if !Misses(r, t - 1) then Hand(r, t - 1)
    else if Place(r, t - 1) + 1 == |r.mems[0]| then 0 else Place(r, t - 1) + 1
  }

  /** Reference t was loaded into frame k, or found there. */
  predicate Touched(r: Trace, k: nat, t: nat)
    requires OnDemand(r) && t < |r.refs| && k < |r.mems[0]|
  {
    r.mems[t + 1][k] == r.refs[t]
  }

  /** While looking for a frame for reference t the hand went past frame k, perhaps all the way round. */
  predicate Passed(r: Trace, k: nat, t: nat)
    requires OnDemand(r) && t < |r.refs| && k < |r.mems[0]|
    decreases t, 1
  {
    Misses(r, t) &&
    if Place(r, t) == Hand(r, t) then Used(r, Hand(r, t), t)
    else Ahead(Hand(r, t), k, |r.mems[0]|) < Ahead(Hand(r, t), Place(r, t), |r.mems[0]|)
  }

  /** Frame k was loaded or referenced since the hand last went past it. */
  predicate Used(r: Trace, k: nat, t: nat)
    requires OnDemand(r) && t <= |r.refs| && k < |r.mems[0]|
    decreases t, 0
  {
    t == 0 || Touched(r, k, t - 1) || (!Passed(r, k, t - 1) && Used(r, k, t - 1))
  }

  /** Always the first unused frame from the hand on, or the one under the hand when all are used. */
  ghost predicate GivesSecondChance(r: Trace)
    requires OnDemand(r)
  {
    forall t :: 0 <= t < |r.refs| && Misses(r, t) ==> IsFirstUnused(r, t)
  }

  ghost predicate IsFirstUnused(r: Trace, t: nat)
    requires OnDemand(r) && t < |r.refs| && Misses(r, t)
  {
    var h, v, n := Hand(r, t), Place(r, t), |r.mems[0]|;
    if forall k :: 0 <= k < n ==> Used(r, k, t) then v == h
    else !Used(r, v, t) && forall k :: 0 <= k < n && Ahead(h, k, n) < Ahead(h, v, n) ==> Used(r, k, t)
  }

  // ----- what a program has to tell -----

  /** The trace from the first memory to the present one over the given references, with their absences. */
  predicate Tells(r: Trace, first: seq<int>, refs: seq<int>, now: seq<int>, count: nat) {
    && OnDemand(r) && r.refs == refs && r.mems[0] == first && r.mems[|refs|] == now
    && Absences(r, |refs|) == count
  }
}
