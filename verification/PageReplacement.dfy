/**
 * The page replacement simulator: a memory of frames, filled by a reference string and then
 * served by one of four policies. Every method is proved to count exactly the replacements of its
 * policy's specification function, and carries the bound that the policy guarantees against every
 * demand policy starting from the same memory.
 */
module PageReplacement {
  import opened Sequences
  import opened PageOptimal
  import opened PageQueues
  import opened PageRecency
  import opened PageClock
  import PageLaws
  import PageTraces
  import PageTies

  /** A circular buffer read from position pos on. */
  function Rotated<T>(z: seq<T>, pos: nat): (r: seq<T>)
    requires pos <= |z|
    ensures |r| == |z|
  {
    z[pos..] + z[..pos]
  }

  lemma NextPosition(pos: nat, n: nat)
    requires pos < n
    ensures (pos + 1) % n == if pos + 1 == n then 0 else pos + 1
  {
    if pos + 1 == n {
      assert n % n == 0;
    }
  }

  lemma RotatedStep<T>(z: seq<T>, pos: nat, x: T)
    requires pos < |z|
    ensures Rotated(z[pos := x], if pos + 1 == |z| then 0 else pos + 1) == Rotated(z, pos)[1..] + [x]
    ensures Rotated(z, pos)[0] == z[pos]
  {
    var y := z[pos := x];
    if pos + 1 == |z| {
      assert y == z[..pos] + [x];
      assert Rotated(y, 0) == y;
    } else {
      assert y[pos + 1..] == z[pos + 1..] && y[..pos + 1] == z[..pos] + [x];
    }
  }

  lemma RotatedBegins<T>(z: seq<T>)
    ensures Rotated(z, 0) == z
  {
  }

  lemma RotatedHolds<T>(z: seq<T>, pos: nat)
    requires pos <= |z|
    ensures forall x :: x in Rotated(z, pos) <==> x in z
  {
    assert z == z[..pos] + z[pos..];
  }

  lemma RotatedUpdate<T>(z: seq<T>, pos: nat, j: nat, x: T) returns (n: nat)
    requires pos < |z| && j < |z|
    ensures n < |z| && Rotated(z, pos)[n] == z[j] && Rotated(z[j := x], pos) == Rotated(z, pos)[n := x]
  {
    n := if j >= pos then j - pos else |z| - pos + j;
  }

  lemma Closed(q: seq<int>, j: nat, p: int, r: seq<int>)
    requires j < |q| == |r|
    requires forall k :: 0 <= k < j ==> r[k] == q[k]
    requires forall k :: j <= k < |q| - 1 ==> r[k] == q[k + 1]
    requires r[|r| - 1] == p
    ensures r == q[..j] + q[j + 1..] + [p]
  {
  }

  lemma FindFirst(q: seq<int>, j: nat)
    requires j < |q| && q[j] !in q[..j]
    ensures IndexOf(q, q[j]) == j
  {
    if j > 0 {
      assert q[..j][0] == q[0];
      forall x | x in q[1..][..j - 1] ensures x in q[..j] {
        var k :| 0 <= k < j - 1 && q[1..][..j - 1][k] == x;
        assert q[..j][k + 1] == x;
      }
      FindFirst(q[1..], j - 1);
    }
  }

  lemma NothingRecent(refs: seq<int>, k: nat)
    ensures Recent(refs[..0], k) == []
  {
  }

  lemma WithoutAt(q: seq<int>, p: int)
    requires p in q
    ensures Without(q, p) == q[..IndexOf(q, p)] + q[IndexOf(q, p) + 1..]
  {
  }

  lemma PagesPlus(q: seq<int>, p: int)
    ensures Pages(q + [p]) == Pages(q) + {p}
  {
    forall x | x in Pages(q) + {p} ensures x in q + [p] {
      assert (q + [p])[|q|] == p;
    }
  }

  lemma StepWhenFull(q: seq<int>, p: int)
    requires q != []
    ensures LruStep(q, p, |q|) == if p in q then Without(q, p) + [p] else q[1..] + [p]
  {
  }

  lemma PageIsIn(q: seq<int>, mem: seq<int>)
    requires Pages(q) == Pages(mem)
    ensures forall x :: x in q <==> x in mem
  {
    assert forall x :: x in q <==> x in Pages(q);
    assert forall x :: x in mem <==> x in Pages(mem);
  }

  /** A page that is new while loading finds a free frame. */
  lemma RoomWhileLoading(refs: seq<int>, i: nat, k: nat)
    requires k > 0 && i < LoadEnd(refs, k, 0) <= |refs| && refs[i] !in Recent(refs[..i], k)
    ensures |Recent(refs[..i], k)| < k
  {
    hide FirstSeen, Recency, Distinct;
    assert |FirstSeen(refs[..i])| < k;
    MissesWhileLoading(refs, i, k);
  }

  function Zip(pages: seq<int>, flags: seq<int>): (z: seq<Frame>)
    requires |pages| == |flags|
    ensures |z| == |pages|
    ensures forall i :: 0 <= i < |z| ==> z[i] == Frame(pages[i], flags[i] == 1)
  {
    seq(|pages|, i requires 0 <= i < |pages| == |flags| => Frame(pages[i], flags[i] == 1))
  }

  /** The frames right after loading: every flag is set. */
  function AllUsed(pages: seq<int>): (z: seq<Frame>)
    ensures |z| == |pages| && forall i :: 0 <= i < |z| ==> z[i] == Frame(pages[i], true)
  {
    seq(|pages|, i requires 0 <= i < |pages| => Frame(pages[i], true))
  }

  lemma {:induction false} AllUsedOrder(pages: seq<int>)
    ensures PagesIn(AllUsed(pages), false) == [] && PagesIn(AllUsed(pages), true) == pages
    ensures Order(AllUsed(pages)) == pages
  {
    if pages != [] {
      AllUsedOrder(pages[1..]);
      assert AllUsed(pages)[1..] == AllUsed(pages[1..]);
    } else {
      assert AllUsed(pages) == [];
    }
  }

  lemma RingHolds(pages: seq<int>, flags: seq<int>, pos: nat, p: int)
    requires |pages| == |flags| && pos <= |pages|
    ensures Holds(Rotated(Zip(pages, flags), pos), p) <==> p in pages
  {
    var z := Zip(pages, flags);
    var r := Rotated(z, pos);
    if p in pages {
      var k :| 0 <= k < |pages| && pages[k] == p;
      assert r[if k >= pos then k - pos else |z| - pos + k].page == p;
    }
    if Holds(r, p) {
      var k :| 0 <= k < |r| && r[k].page == p;
      assert r[k] == z[if k < |z| - pos then pos + k else k - (|z| - pos)];
    }
  }

  lemma RotatedOnce(pages: seq<int>, flags: seq<int>, pos: nat, m: nat, n: nat)
    requires |pages| == |flags| && pos < |pages| && m < |pages| && n < |pages| && Distinct(pages)
    requires Rotated(Zip(pages, flags), pos)[m].page == Rotated(Zip(pages, flags), pos)[n].page
    ensures m == n
  {
    var z := Zip(pages, flags);
    var r, d := Rotated(z, pos), |z| - pos;
    assert r[m] == z[if m < d then pos + m else m - d] && r[n] == z[if n < d then pos + n else n - d];
  }

  /** Marking a page in the frames is marking it in the ring. */
  lemma MarkRotated(pages: seq<int>, flags: seq<int>, pos: nat, j: nat)
    requires |pages| == |flags| && pos < |pages| && j < |pages| && Distinct(pages)
    ensures Rotated(Zip(pages, flags)[j := Frame(pages[j], true)], pos) == Mark(Rotated(Zip(pages, flags), pos), pages[j])
  {
    hide Rotated, Mark;
    var z := Zip(pages, flags);
    var r := Rotated(z, pos);
    var n := RotatedUpdate(z, pos, j, Frame(pages[j], true));
    assert Holds(r, pages[j]) by {
      assert r[n].page == pages[j];
    }
    var m := FirstFrame(r, pages[j]);
    RotatedOnce(pages, flags, pos, m, n);
    assert r[..n] + ([Frame(pages[j], true)] + r[n + 1..]) == r[n := Frame(pages[j], true)];
  }

  class Simulator {
    const refs: seq<int>
    const frames: nat
    const mem: array<int>

    constructor (references: seq<int>, memSize: nat)
      requires memSize > 0
      ensures Valid() && fresh(mem) && refs == references && frames == memSize
    {
      refs, frames := references, memSize;
      mem := new int[memSize];
    }

    ghost predicate Valid() {
      frames > 0 && mem.Length == frames
    }

    /** How many references are used up by loading. */
    ghost function Start(): nat {
      LoadEnd(refs, frames, 0)
    }

    /** Enough different pages are referenced to fill the memory. */
    ghost predicate Fills() {
      Start() <= |refs|
    }

    ghost function Loaded(): seq<int>
      requires Fills()
    {
      FirstSeen(refs[..Start()])
    }

    /** Some demand policy serves what comes after loading with at most c replacements. */
    ghost predicate Served(c: nat)
      requires Fills()
    {
      Feasible(Pages(Loaded()), refs[Start()..], c)
    }

    /** Fills the frames with the first different pages. */
    method LoadPage() returns (start: nat)
      requires Valid()
      modifies mem
      ensures start == Start()
      ensures Fills() ==> mem[..] == Loaded()
      ensures Fills() <==> |Pages(refs)| >= frames
      ensures Fills() ==> PageLaws.FilledInOrder(refs, start, mem[..])
    {
      hide FirstSeen, Pages, PageLaws.FilledInOrder, LoadEnd;
      for k := 0 to mem.Length {
        mem[k] := -1;
      }
      var cnt, i := 0, 0;
      NothingSeen(refs);
      while i < |refs|
        invariant 0 <= i <= |refs| && cnt < frames && mem[..cnt] == FirstSeen(refs[..i])
        invariant forall n :: 0 <= n <= i ==> |FirstSeen(refs[..n])| < frames
      {
        var j := 0;
        while j < cnt && refs[i] != mem[j]
          invariant 0 <= j <= cnt && refs[i] !in mem[..j]
        {
          j := j + 1;
        }
        FirstSeenGrows(refs, i);
        if j == cnt {
          ghost var seen := mem[..cnt];
          mem[cnt] := refs[i];
          cnt := cnt + 1;
          assert mem[..cnt] == seen + [refs[i]];
          if cnt == frames {
            assert mem[..] == mem[..cnt] == FirstSeen(refs[..i + 1]);
            break;
          }
        } else {
          assert mem[..cnt][j] == refs[i];
        }
        i := i + 1;
      }
      start := i + 1;
      LoadEndAt(refs, frames, 0, i);
      FillsExactly(refs, frames);
      if start <= |refs| {
        LoadedInOrder(refs, frames);
      }
    }

    method InMem(page: int) returns (found: bool)
      requires Valid()
      ensures found <==> page in mem[..]
    {
      var i := 0;
      while i < frames
        invariant 0 <= i <= frames && page !in mem[..i]
      {
        if mem[i] == page {
          return true;
        }
        i := i + 1;
      }
      assert mem[..frames] == mem[..];
      found := false;
    }

    /** How many references after i are looked at until the page is met. */
    method CountAhead(page: int, i: nat) returns (count: nat)
      requires i < |refs|
      ensures count == Score(page, refs[i + 1..])
    {
      count := 0;
      var k := i + 1;
      while k < |refs|
        invariant i < k <= |refs| && Score(page, refs[i + 1..]) == count + Score(page, refs[k..])
      {
        count := count + 1;
        if page == refs[k] {
          return;
        }
        assert refs[k..][1..] == refs[k + 1..];
        k := k + 1;
      }
    }

    method ChooseVictim(i: nat) returns (max: nat)
      requires Valid() && i < |refs|
      ensures max == Victim(mem[..], refs[i + 1..], frames)
    {
      max := 0;
      var countMax := 0;
      ghost var ahead := refs[i + 1..];
      var j := 0;
      while j < frames
        invariant 0 <= j <= frames && max == Victim(mem[..], ahead, j)
        invariant countMax == if j == 0 then 0 else Score(mem[max], ahead)
      {
        var countNow := CountAhead(mem[j], i);
        if countMax < countNow {
          max, countMax := j, countNow;
        }
        j := j + 1;
      }
    }

    /** Serves the references from i on, evicting the page used furthest ahead as far as the scores can tell. */
    method OptServe(start: nat) returns (replaced: nat, ghost run: PageLaws.Trace)
      requires Valid() && start <= |refs|
      modifies mem
      ensures replaced == OptCost(old(mem[..]), refs[start..], |refs| - start)
      ensures PageLaws.Tells(run, old(mem[..]), refs[start..], mem[..], replaced) && PageLaws.GivesUpFurthest(run)
    {
      hide Victim, PageTraces.OptSoFar, PageLaws.OnDemand, PageLaws.Absences;
      ghost var first := mem[..];
      run := PageLaws.Trace([first], []);
      PageTraces.OptBegins(first, refs, start);
      var i := start;
      replaced := 0;
      while i < |refs|
        invariant start <= i <= |refs|
        invariant OptCost(first, refs[start..], |refs| - start) == replaced + OptCost(mem[..], refs[i..], |refs| - i)
        invariant PageTraces.OptSoFar(run, first, refs, start, i, mem[..], replaced)
      {
        var found := InMem(refs[i]);
        assert refs[i..][1..] == refs[i + 1..];
        ghost var before, count := mem[..], replaced;
        ghost var v := 0;
        if !found {
          replaced := replaced + 1;
          var max := ChooseVictim(i);
          mem[max] := refs[i];
          assert mem[..] == before[max := refs[i]];
          v := max;
        }
        PageTraces.OptStep(run, first, refs, start, i, before, count, v, mem[..]);
        run := PageTraces.Longer(run, refs[i], mem[..]);
        i := i + 1;
      }
      PageTraces.OptEnds(run, first, refs, start, mem[..], replaced);
    }

    method OptReplAlg() returns (replaced: nat, ghost run: PageLaws.Trace)
      requires Valid()
      modifies mem
      ensures Fills() ==> PageLaws.Tells(run, Loaded(), refs[Start()..], mem[..], replaced) && PageLaws.GivesUpFurthest(run)
      ensures !Fills() ==> replaced == 0
      ensures Fills() ==> |Loaded()| == frames && replaced == OptCost(Loaded(), refs[Start()..], |refs| - Start())
      ensures Fills() ==> Served(replaced) && forall c: nat :: Served(c) ==> replaced <= c + 1
      ensures Fills() ==> ((forall c: nat :: Served(c) ==> replaced <= c) <==> !PageTies.TieLoses(Loaded(), refs[Start()..]))
    {
      hide FirstSeen, LoadEnd, OptCost, Feasible, PageTies.TieLoses;
      run := PageLaws.Trace([], []);
      var start := LoadPage();
      replaced := 0;
      if start <= |refs| {
        LoadFills(refs, frames);
        replaced, run := OptServe(start);
        ghost var rest := refs[start..];
        PageTies.OptIsOptimalExactly(Loaded(), rest);
        assert replaced == OptCost(Loaded(), rest, |rest|);
        OptIsFeasible(Loaded(), rest, |rest|);
        assert rest[..|rest|] == rest;
        if forall c: nat :: Served(c) ==> replaced <= c {
          forall c: nat | Feasible(Pages(Loaded()), rest, c) ensures OptCost(Loaded(), rest, |rest|) <= c {
            assert Served(c);
          }
        } else {
          ghost var c: nat :| Served(c) && replaced > c;
          assert Feasible(Pages(Loaded()), rest, c);
        }
        forall c: nat | Served(c) ensures replaced <= c + 1 {
          OptIsNearlyOptimal(Loaded(), refs[start..], c);
        }
      }
    }

    /** Serves the references from i on, replacing frames round robin. */
    method FifoServe(start: nat) returns (replaced: nat, ghost run: PageLaws.Trace)
      requires Valid() && start <= |refs|
      modifies mem
      ensures replaced == FifoCost(old(mem[..]), refs[start..])
      ensures PageLaws.Tells(run, old(mem[..]), refs[start..], mem[..], replaced) && PageLaws.GivesUpOldest(run)
    {
      hide Rotated, PageTraces.FifoSoFar, PageLaws.OnDemand, PageLaws.Absences;
      ghost var first, hands: seq<nat> := mem[..], [0];
      run := PageLaws.Trace([first], []);
      PageTraces.FifoBegins(first, refs, start);
      var oldest, i := 0, start;
      replaced := 0;
      RotatedBegins(mem[..]);
      RotatedHolds(mem[..], 0);
      while i < |refs|
        invariant start <= i <= |refs| && 0 <= oldest < frames
        invariant FifoCost(first, refs[start..]) == replaced + FifoCost(Rotated(mem[..], oldest), refs[i..])
        invariant PageTraces.FifoSoFar(run, hands, first, refs, start, i, mem[..], replaced, oldest)
      {
        var found := InMem(refs[i]);
        RotatedHolds(mem[..], oldest);
        assert refs[i..][1..] == refs[i + 1..];
        ghost var before, count, hand := mem[..], replaced, oldest;
        if !found {
          replaced := replaced + 1;
          mem[oldest] := refs[i];
          assert mem[..] == before[oldest := refs[i]];
          RotatedStep(before, oldest, refs[i]);
          NextPosition(oldest, frames);
          oldest := oldest + 1;
          oldest := oldest % frames;
        }
        PageTraces.FifoStep(run, hands, first, refs, start, i, before, count, hand, mem[..], oldest);
        run, hands := PageTraces.Longer(run, refs[i], mem[..]), hands + [oldest];
        i := i + 1;
      }
      PageTraces.FifoEnds(run, hands, first, refs, start, mem[..], replaced, oldest);
    }

    method FifoReplAlg() returns (replaced: nat, ghost run: PageLaws.Trace)
      requires Valid()
      modifies mem
      ensures Fills() ==> PageLaws.Tells(run, Loaded(), refs[Start()..], mem[..], replaced) && PageLaws.GivesUpOldest(run)
      ensures !Fills() ==> replaced == 0
      ensures Fills() ==> |Loaded()| == frames && replaced == FifoCost(Loaded(), refs[Start()..])
      ensures Fills() ==> forall c: nat :: Served(c) ==> replaced <= frames * c
    {
      hide FirstSeen, LoadEnd, FifoCost, Feasible;
      run := PageLaws.Trace([], []);
      var start := LoadPage();
      replaced := 0;
      if start <= |refs| {
        LoadFills(refs, frames);
        replaced, run := FifoServe(start);
        forall c: nat | Served(c) ensures replaced <= frames * c {
          FifoIsCompetitive(Loaded(), refs[start..], c);
        }
      }
    }

    /** Where the page stands among the first front entries of the queue; front when it does not. */
    method FindInQueue(queue: array<int>, front: nat, p: int) returns (j: nat)
      requires front <= queue.Length
      ensures j == if p in queue[..front] then IndexOf(queue[..front], p) else front
    {
      j := 0;
      while j < front && queue[j] != p
        invariant 0 <= j <= front && p !in queue[..j]
      {
        j := j + 1;
      }
      if j < front {
        FindFirst(queue[..front], j);
      }
    }

    /** Appends the page behind the queue and closes the gap at j, leaving as many entries as before. */
    method Requeue(queue: array<int>, front: nat, j: nat, p: int)
      requires j < front < queue.Length
      modifies queue
      ensures queue[..front] == old(queue[..front])[..j] + old(queue[..front])[j + 1..] + [p]
    {
      ghost var q := queue[..front];
      queue[front] := p;
      var t := j;
      while t < front
        invariant j <= t <= front && queue[front] == p
        invariant forall k :: 0 <= k < j ==> queue[k] == q[k]
        invariant forall k :: j <= k < t && k < front - 1 ==> queue[k] == q[k + 1]
        invariant t == front ==> queue[front - 1] == p
        invariant forall k :: t <= k < front ==> queue[k] == q[k]
      {
        queue[t] := queue[t + 1];
        t := t + 1;
      }
      Closed(q, j, p, queue[..front]);
    }

    /** One reference while there is room: its page goes to the end of the queue. */
    method LruEnqueue(queue: array<int>, front: nat, p: int) returns (front': nat)
      requires front <= frames && queue.Length == frames + 1 && (p !in queue[..front] ==> front < frames)
      modifies queue
      ensures front' <= frames && queue[..front'] == LruStep(old(queue[..front]), p, frames)
    {
      hide IndexOf;
      front' := front;
      var j := FindInQueue(queue, front, p);
      if j < front {
        Requeue(queue, front, j, p);
      } else {
        ghost var before := queue[..front];
        queue[front] := p;
        front' := front + 1;
        assert queue[..front'] == before + [p];
      }
    }

    /** Puts the references up to start into the queue, which has room for all their pages. */
    method LruLoad(queue: array<int>, start: nat) returns (front: nat)
      requires Valid() && Fills() && start == Start() && queue.Length == frames + 1
      modifies queue
      ensures front == frames && queue[..front] == Recent(refs[..start], frames)
    {
      hide FirstSeen, Recency, LoadEnd, LruStep, LastOf, Distinct;
      front := 0;
      LoadFills(refs, frames);
      NothingRecent(refs, frames);
      var i := 0;
      while i < start
        invariant 0 <= i <= start && 0 <= front <= frames && queue[..front] == Recent(refs[..i], frames)
      {
        var p := refs[i];
        assert refs[..i + 1] == refs[..i] + [p];
        RecentIsKept(refs[..i], p, frames);
        if p !in queue[..front] {
          RoomWhileLoading(refs, i, frames);
        }
        front := LruEnqueue(queue, front, p);
        i := i + 1;
      }
    }

    /** One reference with all frames taken; on a miss the front of the queue is evicted. */
    method LruReference(queue: array<int>, p: int) returns (missed: bool, ghost v: nat)
      requires Valid() && queue.Length == frames + 1 && queue != mem && Distinct(queue[..frames])
      requires Distinct(mem[..]) && Pages(mem[..]) == Pages(queue[..frames])
      modifies mem, queue
      ensures missed <==> p !in old(queue[..frames])
      ensures queue[..frames] == LruStep(old(queue[..frames]), p, frames)
      ensures Distinct(mem[..]) && Pages(mem[..]) == Pages(queue[..frames])
      ensures v < frames && mem[..] == if missed then old(mem[..])[v := p] else old(mem[..])
      ensures missed ==> old(mem[v]) == old(queue[0])
    {
      hide IndexOf, Distinct, Without;
      ghost var q := queue[..frames];
      missed, v := false, 0;
      var j := FindInQueue(queue, frames, p);
      if j < frames {
        Requeue(queue, frames, j, p);
        WithoutAt(q, p);
        WithoutPage(q, p);
        PagesPlus(Without(q, p), p);
        assert p in Pages(q);
      } else {
        missed := true;
        PageIsIn(q, mem[..]);
        var victim := queue[0];
        v := Swap(victim, p);
        Requeue(queue, frames, 0, p);
        ShiftedPages(q, p);
        assert queue[..frames] == q[1..] + [p];
      }
    }

    /** Serves the references from start on; the queue lists the pages in memory by last use. */
    method LruServe(queue: array<int>, start: nat) returns (replaced: nat, ghost run: PageLaws.Trace)
      requires Valid() && start <= |refs| && queue.Length == frames + 1 && queue != mem
      requires queue[..frames] == Recent(refs[..start], frames)
      requires Distinct(mem[..]) && Pages(mem[..]) == Pages(queue[..frames])
      modifies mem, queue
      ensures queue[..frames] == Recent(refs, frames)
      ensures Distinct(mem[..]) && Pages(mem[..]) == Pages(Recent(refs, frames))
      ensures replaced == LruCost(old(queue[..frames]), refs[start..])
      ensures PageLaws.Tells(run, old(mem[..]), refs[start..], mem[..], replaced) && PageLaws.GivesUpLeastRecent(refs[..start], run)
    {
      hide Recency, IndexOf, Distinct, Recent, Without, LruStep, PageTraces.LruSoFar, PageLaws.IsLeastRecent, PageLaws.OnDemand, PageLaws.Absences;
      ghost var first := mem[..];
      run := PageLaws.Trace([first], []);
      PageTraces.LruBegins(first, refs, start);
      ghost var q0 := queue[..frames];
      var i := start;
      replaced := 0;
      while i < |refs|
        invariant start <= i <= |refs| && queue[..frames] == Recent(refs[..i], frames)
        invariant Distinct(mem[..]) && Pages(mem[..]) == Pages(queue[..frames])
        invariant LruCost(q0, refs[start..]) == replaced + LruCost(queue[..frames], refs[i..])
        invariant PageTraces.LruSoFar(run, first, refs, start, i, mem[..], replaced)
      {
        assert refs[..i + 1] == refs[..i] + [refs[i]] && refs[i..][1..] == refs[i + 1..];
        RecentIsKept(refs[..i], refs[i], frames);
        ghost var q, before, count := queue[..frames], mem[..], replaced;
        PageIsIn(q, before);
        var missed, v := LruReference(queue, refs[i]);
        StepWhenFull(q, refs[i]);
        if missed {
          replaced := replaced + 1;
          FrontIsLeastRecent(refs[..i], frames, before, v);
        }
        PageTraces.LruStep(run, first, refs, start, i, before, count, v, mem[..]);
        run := PageTraces.Longer(run, refs[i], mem[..]);
        i := i + 1;
      }
      assert refs[..i] == refs;
      PageTraces.LruEnds(run, first, refs, start, mem[..], replaced);
    }

    /** Puts p into the frame that holds the victim. */
    method Swap(victim: int, p: int) returns (ghost v: nat)
      requires Valid() && Distinct(mem[..]) && victim in mem[..] && p !in mem[..]
      modifies mem
      ensures Distinct(mem[..]) && Pages(mem[..]) == old(Pages(mem[..])) - {victim} + {p}
      ensures v < frames && old(mem[v]) == victim && mem[..] == old(mem[..])[v := p]
    {
      var k := 0;
      ghost var before := mem[..];
      while mem[k] != victim
        invariant 0 <= k < frames && victim !in mem[..k]
        decreases frames - k
      {
        k := k + 1;
      }
      mem[k] := p;
      v := k;
      assert mem[..] == before[k := p];
      SwapPages(before, k, p);
    }

    method LruReplAlg() returns (replaced: nat, ghost run: PageLaws.Trace)
      requires Valid() && Fills()
      modifies mem
      ensures PageLaws.Tells(run, Loaded(), refs[Start()..], mem[..], replaced)
      ensures PageLaws.GivesUpLeastRecent(refs[..Start()], run)
      ensures replaced == LruReplacements(refs, frames)
      ensures Pages(mem[..]) == Pages(Recent(refs, frames))
      ensures forall c: nat :: Served(c) ==> replaced <= frames * c
    {
      hide FirstSeen, LoadEnd, LruCost, Feasible, Recency;
      var start := LoadPage();
      LoadFills(refs, frames);
      var queue := new int[frames + 1];
      var front := LruLoad(queue, start);
      replaced, run := LruServe(queue, start);
      forall c: nat | Served(c) ensures replaced <= frames * c {
        LruIsCompetitive(Recent(refs[..start], frames), refs[start..], c);
      }
    }

    /** The frames with their flags, read from the hand on. */
    ghost function Ring(flags: array<int>, pos: nat): (r: seq<Frame>)
      requires mem.Length == flags.Length && pos <= mem.Length
      reads mem, flags
    {
      Rotated(Zip(mem[..], flags[..]), pos)
    }

    /** Moves the hand on, clearing flags, to the first frame with a clear flag, and puts p there. */
    method ClockReplace(flags: array<int>, hand: nat, p: int) returns (pos: nat, ghost v: nat)
      requires Valid() && flags != mem && flags.Length == frames && hand < frames
      requires Distinct(mem[..]) && p !in mem[..]
      requires forall k :: 0 <= k < frames ==> flags[k] == 0 || flags[k] == 1
      modifies mem, flags
      ensures pos < frames && forall k :: 0 <= k < frames ==> flags[k] == 0 || flags[k] == 1
      ensures Ring(flags, pos) == Replace(old(Ring(flags, hand)), p)
      ensures Distinct(mem[..])
      ensures v < frames && mem[..] == old(mem[..])[v := p] && pos == PageTraces.NextFrame(v, frames)
      ensures PageTraces.Swept(old(flags[..]), hand, v, flags[..])
    {
      hide Rotated, PageTraces.Swept, PageTraces.SweptSoFar;
      pos := hand;
      ghost var before, f0, passed := mem[..], flags[..], 0;
      PageTraces.SweepBegins(f0, hand);
      while true
        invariant 0 <= pos < frames && mem[..] == before
        invariant passed <= frames && pos == (if hand + passed < frames then hand + passed else hand + passed - frames)
        invariant PageTraces.SweptSoFar(f0, hand, passed, flags[..])
        invariant forall k :: 0 <= k < frames ==> flags[k] == 0 || flags[k] == 1
        invariant Replace(Ring(flags, pos), p) == Replace(old(Ring(flags, hand)), p)
        decreases |PagesIn(Ring(flags, pos), true)|
      {
        ghost var z, at, f := Zip(mem[..], flags[..]), pos, flags[..];
        NextPosition(pos, frames);
        if flags[pos] == 0 {
          RotatedStep(z, pos, Frame(p, true));
          mem[pos] := p;
          flags[pos] := 1;
          assert Zip(mem[..], flags[..]) == z[at := Frame(p, true)];
          v := at;
          assert flags[..] == f[at := 1];
          PageTraces.SweepEnds(f0, hand, passed, v, f, flags[..]);
          pos := pos + 1;
          pos := pos % frames;
          assert mem[..] == before[at := p];
          SwapPages(before, at, p);
          break;
        } else {
          RotatedStep(z, pos, Frame(mem[pos], false));
          PassedIsClear(Ring(flags, pos));
          flags[pos] := 0;
          assert flags[..] == f[at := 0];
          PageTraces.SweepGoesOn(f0, hand, passed, at, f);
          assert Zip(mem[..], flags[..]) == z[at := Frame(mem[at], false)];
          passed := passed + 1;
          pos := pos + 1;
          pos := pos % frames;
        }
      }
    }

    /** Sets the flag of the frame that holds the page. */
    method ClockMark(flags: array<int>, ghost pos: nat, page: int)
      requires Valid() && flags != mem && flags.Length == frames && pos < frames
      requires Distinct(mem[..]) && page in mem[..]
      requires forall k :: 0 <= k < frames ==> flags[k] == 0 || flags[k] == 1
      modifies flags
      ensures forall k :: 0 <= k < frames ==> flags[k] == 0 || flags[k] == 1
      ensures Ring(flags, pos) == Mark(old(Ring(flags, pos)), page)
      ensures PageTraces.IsMarked(mem[..], page, old(flags[..]), flags[..])
    {
      hide Rotated;
      var j := 0;
      while mem[j] != page
        invariant 0 <= j < frames && page !in mem[..j]
        decreases frames - j
      {
        j := j + 1;
      }
      ghost var z := Zip(mem[..], flags[..]);
      MarkRotated(mem[..], flags[..], pos, j);
      flags[j] := 1;
      assert Zip(mem[..], flags[..]) == z[j := Frame(page, true)];
    }

    method ClockServe(flags: array<int>, start: nat) returns (replaced: nat, ghost run: PageLaws.Trace)
      requires Valid() && start <= |refs| && flags != mem && flags.Length == frames
      requires Distinct(mem[..]) && forall k :: 0 <= k < frames ==> flags[k] == 1
      modifies mem, flags
      ensures replaced == ClockCost(old(Ring(flags, 0)), refs[start..])
      ensures PageLaws.Tells(run, old(mem[..]), refs[start..], mem[..], replaced) && PageLaws.GivesSecondChance(run)
    {
      hide Rotated, Mark, Replace, PageTraces.ClockSoFar, PageTraces.Swept, PageTraces.IsMarked, PageLaws.OnDemand, PageLaws.Absences;
      ghost var first, hands: seq<nat>, settings := mem[..], [0], [flags[..]];
      run := PageLaws.Trace([first], []);
      PageTraces.ClockBegins(first, refs, start, flags[..]);
      var pos, i := 0, start;
      replaced := 0;
      while i < |refs|
        invariant start <= i <= |refs| && 0 <= pos < frames && Distinct(mem[..])
        invariant forall k :: 0 <= k < frames ==> flags[k] == 0 || flags[k] == 1
        invariant ClockCost(old(Ring(flags, 0)), refs[start..]) == replaced + ClockCost(Ring(flags, pos), refs[i..])
        invariant PageTraces.ClockSoFar(run, hands, settings, first, refs, start, i, mem[..], replaced, pos, flags[..])
      {
        var found := InMem(refs[i]);
        RingHolds(mem[..], flags[..], pos, refs[i]);
        assert refs[i..][1..] == refs[i + 1..];
        ghost var before, count, hand, f, v := mem[..], replaced, pos, flags[..], 0;
        if !found {
          replaced := replaced + 1;
          pos, v := ClockReplace(flags, pos, refs[i]);
        } else {
          ClockMark(flags, pos, refs[i]);
        }
        PageTraces.ClockStep(run, hands, settings, first, refs, start, i, before, count, hand, f, v, mem[..], pos, flags[..]);
        run, hands, settings := PageTraces.Longer(run, refs[i], mem[..]), hands + [pos], settings + [flags[..]];
        i := i + 1;
      }
      PageTraces.ClockEnds(run, hands, settings, first, refs, start, mem[..], replaced, pos, flags[..]);
    }

    method ClockReplAlg() returns (replaced: nat, ghost run: PageLaws.Trace)
      requires Valid()
      modifies mem
      ensures Fills() ==> PageLaws.Tells(run, Loaded(), refs[Start()..], mem[..], replaced) && PageLaws.GivesSecondChance(run)
      ensures !Fills() ==> replaced == 0
      ensures Fills() ==> |Loaded()| == frames && replaced == ClockCost(AllUsed(Loaded()), refs[Start()..])
      ensures Fills() ==> forall c: nat :: Served(c) ==> replaced <= frames * c
    {
      hide FirstSeen, LoadEnd, ClockCost, Feasible, Pages, Rotated, PageLaws.Absences, PageLaws.GivesSecondChance, PageLaws.FilledInOrder;
      run := PageLaws.Trace([], []);
      var start := LoadPage();
      replaced := 0;
      var flags := new int[frames](_ => 1);
      if start <= |refs| {
        LoadFills(refs, frames);
        RotatedBegins(Zip(mem[..], flags[..]));
        assert Zip(mem[..], flags[..]) == AllUsed(Loaded());
        replaced, run := ClockServe(flags, start);
        AllUsedOrder(Loaded());
        forall c: nat | Served(c) ensures replaced <= frames * c {
          ClockIsCompetitive(AllUsed(Loaded()), refs[start..], c);
        }
      }
    }
  }
}
