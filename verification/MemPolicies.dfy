/**
 * What a request and a release do to the layout and to the free list under each fit policy, what
 * both keep, and how a release right after a request takes it back.
 */
module MemPolicies {
  import opened Sequences
  import opened MemArena

  datatype Policy = FirstFit | BestFit | WorstFit

  datatype State = State(layout: seq<Block>, list: seq<Block>)

  const OVERHEAD := HEAD_SIZE + FOOT_SIZE

  // ----- the order of the free list -----

  /** The first place, from i on, before which the scan for first or best fit stops. */
  function PointAfter(policy: Policy, list: seq<Block>, p: Block, i: nat): (j: nat)
    requires i <= |list|
    ensures i <= j <= |list|
    decreases |list| - i
  {
    if i == |list| || (if policy == FirstFit then list[i].at > p.at else list[i].size >= p.size) then i
    else PointAfter(policy, list, p, i + 1)
  }

  /** The place after which the backward scan for worst fit stops. */
  function PointBefore(list: seq<Block>, p: Block, i: nat): (j: nat)
    requires i <= |list|
    ensures j <= i
  {
    if i == 0 || list[i - 1].size >= p.size then i else PointBefore(list, p, i - 1)
  }

  function Point(policy: Policy, list: seq<Block>, p: Block): (j: nat)
    ensures j <= |list|
  {
    if policy == WorstFit then PointBefore(list, p, |list|) else PointAfter(policy, list, p, 0)
  }

  function Insert(policy: Policy, list: seq<Block>, p: Block): seq<Block> {
    Put(list, Point(policy, list, p), p)
  }

  /** First fit keeps the list by address, best fit by growing and worst fit by falling size. */
  predicate InOrder(policy: Policy, b: Block, c: Block) {
    match policy
    case FirstFit => b.at < c.at
    case BestFit => b.size <= c.size
    case WorstFit => b.size >= c.size
  }

  predicate Ordered(policy: Policy, list: seq<Block>) {
    forall i, j :: 0 <= i < j < |list| ==> InOrder(policy, list[i], list[j])
  }

  lemma {:induction false} PointAfterSplits(policy: Policy, list: seq<Block>, p: Block, i: nat)
    requires i <= |list|
    ensures var j := PointAfter(policy, list, p, i);
            && (forall k :: i <= k < j ==> !(if policy == FirstFit then list[k].at > p.at else list[k].size >= p.size))
            && (j < |list| ==> if policy == FirstFit then list[j].at > p.at else list[j].size >= p.size)
    decreases |list| - i
  {
    if i < |list| && !(if policy == FirstFit then list[i].at > p.at else list[i].size >= p.size) {
      PointAfterSplits(policy, list, p, i + 1);
    }
  }

  lemma {:induction false} PointBeforeSplits(list: seq<Block>, p: Block, i: nat)
    requires i <= |list|
    ensures var j := PointBefore(list, p, i);
            (forall k :: j <= k < i ==> list[k].size < p.size) && (j > 0 ==> list[j - 1].size >= p.size)
  {
    if i > 0 && list[i - 1].size < p.size {
      PointBeforeSplits(list, p, i - 1);
    }
  }

  lemma PutAt(list: seq<Block>, j: nat, p: Block, k: nat)
    requires j <= |list| && k <= |list|
    ensures Put(list, j, p)[k] == if k < j then list[k] else if k == j then p else list[k - 1]
  {
  }

  /** Inserting at the point keeps the order. */
  lemma InsertKeepsOrder(policy: Policy, list: seq<Block>, p: Block)
    requires Ordered(policy, list) && (policy == FirstFit ==> forall b :: b in list ==> b.at != p.at)
    ensures Ordered(policy, Insert(policy, list, p))
  {
    hide Put;
    var j, r := Point(policy, list, p), Insert(policy, list, p);
    PutLength(list, j, p);
    PointAfterSplits(policy, list, p, 0);
    PointBeforeSplits(list, p, |list|);
    forall a, b | 0 <= a < b < |r| ensures InOrder(policy, r[a], r[b]) {
      PutAt(list, j, p, a);
      PutAt(list, j, p, b);
      if b == j && policy == WorstFit {
        assert list[j - 1].size >= p.size && (a < j - 1 ==> InOrder(policy, list[a], list[j - 1]));
      } else if a == j && policy != WorstFit {
        assert b - 1 > j ==> InOrder(policy, list[j], list[b - 1]);
      }
    }
  }

  lemma CutAt(list: seq<Block>, i: nat, k: nat)
    requires i < |list| && k < |list| - 1
    ensures Cut(list, i)[k] == if k < i then list[k] else list[k + 1]
  {
  }

  lemma CutKeepsOrder(policy: Policy, list: seq<Block>, i: nat)
    requires Ordered(policy, list) && Distinct(list) && i < |list|
    ensures Ordered(policy, Cut(list, i)) && Distinct(Cut(list, i))
    ensures forall b :: b in Cut(list, i) <==> b in list && b != list[i]
  {
    hide Cut;
    var r := Cut(list, i);
    CutLength(list, i);
    forall a, b | 0 <= a < b < |r| ensures InOrder(policy, r[a], r[b]) && r[a] != r[b] {
      CutAt(list, i, a);
      CutAt(list, i, b);
    }
    forall b | b in list && b != list[i] ensures b in r {
      var k :| 0 <= k < |list| && list[k] == b;
      CutAt(list, i, if k < i then k else k - 1);
    }
    forall b | b in r ensures b != list[i] {
      var k :| 0 <= k < |r| && r[k] == b;
      CutAt(list, i, k);
    }
  }

  lemma PutKeepsDistinct(list: seq<Block>, j: nat, p: Block)
    requires Distinct(list) && p !in list && j <= |list|
    ensures Distinct(Put(list, j, p))
  {
    hide Put;
    var r := Put(list, j, p);
    PutLength(list, j, p);
    forall a, b | 0 <= a < b < |r| ensures r[a] != r[b] {
      PutAt(list, j, p, a);
      PutAt(list, j, p, b);
    }
  }

  // ----- the invariant -----

  predicate NoTwoFree(layout: seq<Block>) {
    forall i :: 0 <= i < |layout| - 1 ==> layout[i].used || layout[i + 1].used
  }

  /** The list holds exactly the free blocks, each once, in the policy's order. */
  ghost predicate Listed(policy: Policy, s: State) {
    && Distinct(s.list) && Ordered(policy, s.list)
    && forall b :: b in s.list <==> b in s.layout && !b.used
  }

  ghost predicate Valid(policy: Policy, s: State, memSize: int) {
    Tiled(s.layout, 0, memSize) && NoTwoFree(s.layout) && Listed(policy, s)
  }

  // ----- request -----

  /** The place in the list of the block that a request takes; the length of the list when none fits. */
  function Choice(policy: Policy, list: seq<Block>, n: int): (i: nat)
    ensures i <= |list|
    ensures i < |list| ==> list[i].size >= n
    decreases |list|
  {
    if list == [] || list[0].size >= n then 0
    else if policy == WorstFit then |list|
    else 1 + Choice(policy, list[1..], n)
  }

  function Fits(p: Block, n: int): bool {
    p.size < n + OVERHEAD + 1
  }

  /** The front part given away and the rest that stays free. */
  function Given(p: Block, n: int): Block {
    Block(p.at, if Fits(p, n) then p.size else n, true)
  }

  function Rest(p: Block, n: int): Block {
    Block(p.at + HEAD_SIZE + n + FOOT_SIZE, p.size - n - FOOT_SIZE - HEAD_SIZE, false)
  }

  /** Taking n bytes from the block at place i of the list, which is at place k of the layout. */
  function Taken(policy: Policy, s: State, i: nat, k: nat, n: int): State
    requires i < |s.list| && k < |s.layout|
  {
    var p := s.list[i];
    if Fits(p, n) then State(s.layout[k := Given(p, n)], Cut(s.list, i))
    else
      State(s.layout[..k] + [Given(p, n), Rest(p, n)] + s.layout[k + 1..],
            if policy == FirstFit then s.list[i := Rest(p, n)] else Insert(policy, Cut(s.list, i), Rest(p, n)))
  }

  // ----- release -----

  function From(s: State, k: nat): nat
    requires k < |s.layout|
  {
    if k > 0 && !s.layout[k - 1].used then k - 1 else k
  }

  function To(s: State, k: nat): nat
    requires k < |s.layout|
  {
    if k + 1 < |s.layout| && !s.layout[k + 1].used then k + 2 else k + 1
  }

  /** The free block that the released one becomes, grown over its free neighbours. */
  function Merged(s: State, k: nat): Block
    requires k < |s.layout|
  {
    var a := s.layout[From(s, k)].at;
    Block(a, Back(s.layout[To(s, k) - 1]) - a - OVERHEAD, false)
  }

  function Minus(list: seq<Block>, b: Block): seq<Block> {
    if b in list then Cut(list, IndexOf(list, b)) else list
  }

  /** The list without the free neighbours of the released block. */
  function Others(s: State, k: nat): seq<Block>
    requires k < |s.layout|
  {
    var l := if From(s, k) < k then Minus(s.list, s.layout[k - 1]) else s.list;
    if To(s, k) > k + 1 then Minus(l, s.layout[k + 1]) else l
  }

  function Released(policy: Policy, s: State, k: nat): State
    requires k < |s.layout|
  {
    State(s.layout[..From(s, k)] + [Merged(s, k)] + s.layout[To(s, k)..], Insert(policy, Others(s, k), Merged(s, k)))
  }

  // ----- what a request keeps -----

  lemma ListedPlaces(policy: Policy, s: State, memSize: int, i: nat)
    requires Valid(policy, s, memSize) && i < |s.list|
    ensures s.list[i] in s.layout && !s.list[i].used && s.list[i].size > 0
    ensures s.layout[IndexOf(s.layout, s.list[i])] == s.list[i]
  {
    assert s.list[i] in s.list;
    TiledDisjoint(s.layout, 0, memSize);
  }

  lemma TiledReplace(a: seq<Block>, x: seq<Block>, y: seq<Block>, b: seq<Block>, from: int, to: int)
    requires Tiled(a + x + b, from, to)
    requires forall f, t :: Tiled(x, f, t) ==> Tiled(y, f, t)
    ensures Tiled(a + y + b, from, to)
  {
    TiledSplit(a + x, b, from, to);
    var m :| Tiled(a + x, from, m) && Tiled(b, m, to);
    TiledSplit(a, x, from, m);
    var l :| Tiled(a, from, l) && Tiled(x, l, m);
    TiledSplit(a, y, from, m);
    TiledSplit(a + y, b, from, to);
  }

  /** A layout in which some blocks x have become others y: what the list must then hold. */
  lemma ListedAfter(policy: Policy, list: seq<Block>, a: seq<Block>, x: seq<Block>, y: seq<Block>, b: seq<Block>, next: seq<Block>)
    requires Listed(policy, State(a + x + b, list)) && forall c :: c in a + b ==> c !in x
    requires Distinct(next) && Ordered(policy, next)
    requires forall c :: c in next <==> (c in list && c !in x) || (c in y && !c.used)
    ensures Listed(policy, State(a + y + b, next))
  {
    forall c ensures c in next <==> c in a + y + b && !c.used {
      assert c in a + x + b <==> c in a || c in x || c in b;
      assert c in a + y + b <==> c in a || c in y || c in b;
    }
  }

  /** The layout around one of its blocks. */
  lemma Around(layout: seq<Block>, memSize: int, k: nat)
    requires Tiled(layout, 0, memSize) && k < |layout|
    ensures layout == layout[..k] + [layout[k]] + layout[k + 1..]
    ensures forall c :: c in layout[..k] + layout[k + 1..] ==> c in layout && c != layout[k] && Disjoint(c, layout[k])
  {
    TiledDisjoint(layout, 0, memSize);
    forall c | c in layout[..k] + layout[k + 1..] ensures c in layout && c != layout[k] {
      if c in layout[..k] {
        var i :| 0 <= i < k && layout[i] == c;
        TiledApart(layout, 0, memSize, i, k);
      } else {
        var i :| 0 <= i < |layout| - k - 1 && layout[k + 1..][i] == c;
        TiledApart(layout, 0, memSize, k, k + 1 + i);
      }
    }
  }

  lemma SplitTiles(p: Block, n: int, f: int, t: int)
    requires Tiled([p], f, t) && 0 < n <= p.size
    ensures if Fits(p, n) then Tiled([Given(p, n)], f, t) else Tiled([Given(p, n), Rest(p, n)], f, t)
  {
    assert Tiled([p][1..], Back(p), t);
    if Fits(p, n) {
      assert [Given(p, n)][1..] == [];
    } else {
      assert [Given(p, n), Rest(p, n)][1..] == [Rest(p, n)] && [Rest(p, n)][1..] == [];
    }
  }

  lemma NoTwoFreeAfter(a: seq<Block>, p: Block, y: seq<Block>, b: seq<Block>)
    requires NoTwoFree(a + [p] + b) && !p.used && y != [] && y[0].used && NoTwoFree(y)
    ensures NoTwoFree(a + y + b)
  {
    var l, l' := a + [p] + b, a + y + b;
    forall i | 0 <= i < |l'| - 1 ensures l'[i].used || l'[i + 1].used {
      if i < |a| - 1 {
        assert l'[i] == l[i] && l'[i + 1] == l[i + 1];
      } else if i < |a| {
        assert l'[i + 1] == y[0];
      } else if i < |a| + |y| - 1 {
        assert l'[i] == y[i - |a|] && l'[i + 1] == y[i - |a| + 1];
      } else if i == |a| + |y| - 1 {
        assert l[|a|] == p && l[|a| + 1] == l'[i + 1];
      } else {
        assert l'[i] == l[i - |y| + 1] && l'[i + 1] == l[i - |y| + 2];
      }
    }
  }

  lemma RestIsNew(policy: Policy, s: State, memSize: int, i: nat, n: int)
    requires Valid(policy, s, memSize) && i < |s.list| && 0 < n && !Fits(s.list[i], n)
    ensures Rest(s.list[i], n) !in s.layout && Rest(s.list[i], n) !in s.list
    ensures forall b :: b in s.list ==> b.at != Rest(s.list[i], n).at
    ensures forall b :: b in s.list && b != s.list[i] ==> Disjoint(b, s.list[i])
  {
    TiledDisjoint(s.layout, 0, memSize);
    assert s.list[i] in s.list;
  }

  lemma ReplaceKeepsOrder(list: seq<Block>, i: nat, q: Block)
    requires Ordered(FirstFit, list) && Distinct(list) && i < |list| && q !in list
    requires list[i].at < q.at < Back(list[i]) && list[i].size > 0
    requires forall b :: b in list && b != list[i] ==> Disjoint(b, list[i])
    requires forall b :: b in list ==> b.size > 0
    ensures Ordered(FirstFit, list[i := q]) && Distinct(list[i := q])
    ensures forall b :: b in list[i := q] <==> (b in list && b != list[i]) || b == q
  {
    var r := list[i := q];
    forall a, b | 0 <= a < b < |r| ensures InOrder(FirstFit, r[a], r[b]) && r[a] != r[b] {
      assert InOrder(FirstFit, list[a], list[b]) && list[a] in list && list[b] in list;
    }
    forall b | (b in list && b != list[i]) || b == q ensures b in r {
      if b == q {
        assert r[i] == q;
      } else {
        var k :| 0 <= k < |list| && list[k] == b;
        assert r[k] == b;
      }
    }
  }

  /** A request that succeeds keeps the invariant. */
  lemma TakenKeeps(policy: Policy, s: State, memSize: int, i: nat, n: int)
    requires Valid(policy, s, memSize) && i < |s.list| && 0 < n <= s.list[i].size
    ensures s.list[i] in s.layout && Valid(policy, Taken(policy, s, i, IndexOf(s.layout, s.list[i]), n), memSize)
  {
    hide Tiled, Ordered, Insert, Cut;
    ListedPlaces(policy, s, memSize, i);
    var p := s.list[i];
    var k := IndexOf(s.layout, p);
    Around(s.layout, memSize, k);
    var a, b := s.layout[..k], s.layout[k + 1..];
    var y := if Fits(p, n) then [Given(p, n)] else [Given(p, n), Rest(p, n)];
    forall f, t | Tiled([p], f, t) ensures Tiled(y, f, t) {
      SplitTiles(p, n, f, t);
    }
    TiledReplace(a, [p], y, b, 0, memSize);
    NoTwoFreeAfter(a, p, y, b);
    CutKeepsOrder(policy, s.list, i);
    var after := Taken(policy, s, i, k, n);
    assert after.layout == a + y + b;
    if !Fits(p, n) {
      RestIsNew(policy, s, memSize, i, n);
      TakenListKeeps(policy, s, memSize, i, n);
    }
    ListedAfter(policy, s.list, a, [p], y, b, after.list);
  }

  lemma TakenListKeeps(policy: Policy, s: State, memSize: int, i: nat, n: int)
    requires Valid(policy, s, memSize) && i < |s.list| && 0 < n && !Fits(s.list[i], n)
    ensures var q := Rest(s.list[i], n);
            var next := if policy == FirstFit then s.list[i := q] else Insert(policy, Cut(s.list, i), q);
            && Distinct(next) && Ordered(policy, next)
            && forall b :: b in next <==> (b in s.list && b != s.list[i]) || b == q
  {
    hide Tiled, Ordered, Cut, Put, Point;
    var q := Rest(s.list[i], n);
    RestIsNew(policy, s, memSize, i, n);
    ListedPlaces(policy, s, memSize, i);
    TiledDisjoint(s.layout, 0, memSize);
    if policy == FirstFit {
      ReplaceKeepsOrder(s.list, i, q);
    } else {
      var c := Cut(s.list, i);
      CutKeepsOrder(policy, s.list, i);
      InsertKeepsOrder(policy, c, q);
      PutKeepsDistinct(c, Point(policy, c, q), q);
      PutLength(c, Point(policy, c, q), q);
    }
  }

  /** A request fails exactly when no free block is large enough, and chooses as its policy promises. */
  lemma {:induction false} ChoiceFits(policy: Policy, list: seq<Block>, n: int)
    requires Ordered(policy, list)
    ensures Choice(policy, list, n) == |list| <==> forall b :: b in list ==> b.size < n
    ensures var i := Choice(policy, list, n);
            i < |list| ==>
              match policy
              case FirstFit => forall b :: b in list && b.size >= n ==> list[i].at <= b.at
              case BestFit => forall b :: b in list && b.size >= n ==> list[i].size <= b.size
              case WorstFit => forall b :: b in list ==> list[i].size >= b.size
    decreases |list|
  {
    if list != [] {
      assert list[0] in list;
      if list[0].size >= n || policy == WorstFit {
        forall b | b in list && b != list[0] ensures InOrder(policy, list[0], b) {
          var k :| 0 <= k < |list| && list[k] == b;
        }
      } else {
        assert Ordered(policy, list[1..]);
        ChoiceFits(policy, list[1..], n);
        assert forall b :: b in list <==> b == list[0] || b in list[1..];
      }
    }
  }

  // ----- what a caller gets -----

  /**
   * What a request for n bytes gives out at an address: a free block that is large enough, by the policy
   * the first, the smallest or the largest of them. What it has more than n bytes is cut off as a free
   * block behind it if that leaves at least one byte beside a header and a footer, and given out too if not.
   */
  predicate GrantedFrom(policy: Policy, before: seq<Block>, k: nat, n: int, address: int, after: seq<Block>)
    requires k < |before|
  {
    var b := before[k];
    && !b.used && b.size >= n && address == b.at + HEAD_SIZE
    && (forall c :: c in before && !c.used && c.size >= n ==>
          if policy == FirstFit then b.at <= c.at else if policy == BestFit then b.size <= c.size else b.size >= c.size)
    && if b.size <= n + HEAD_SIZE + FOOT_SIZE then
         after == before[..k] + [Block(b.at, b.size, true)] + before[k + 1..]
       else
         var rest := Block(b.at + HEAD_SIZE + n + FOOT_SIZE, b.size - n - HEAD_SIZE - FOOT_SIZE, false);
         after == before[..k] + [Block(b.at, n, true), rest] + before[k + 1..]
  }

  ghost predicate Granted(policy: Policy, before: seq<Block>, n: int, address: int, after: seq<Block>) {
    exists k :: 0 <= k < |before| && GrantedFrom(policy, before, k, n, address, after)
  }

  lemma TakenIsGranted(policy: Policy, s: State, memSize: int, n: int)
    requires Valid(policy, s, memSize) && n > 0 && Choice(policy, s.list, n) < |s.list|
    ensures var i := Choice(policy, s.list, n);
            s.list[i] in s.layout &&
            Granted(policy, s.layout, n, s.list[i].at + HEAD_SIZE, Taken(policy, s, i, IndexOf(s.layout, s.list[i]), n).layout)
  {
    hide Tiled, Ordered, Cut, Insert, NoTwoFree, Choice;
    var i := Choice(policy, s.list, n);
    ListedPlaces(policy, s, memSize, i);
    ChoiceFits(policy, s.list, n);
    var k := IndexOf(s.layout, s.list[i]);
    var after := Taken(policy, s, i, k, n).layout;
    assert s.layout[k := Given(s.list[i], n)] == s.layout[..k] + [Given(s.list[i], n)] + s.layout[k + 1..];
    assert GrantedFrom(policy, s.layout, k, n, s.list[i].at + HEAD_SIZE, after);
  }

  /** A request is refused exactly when every free block is too small. */
  lemma RefusedExactly(policy: Policy, s: State, memSize: int, n: int)
    requires Valid(policy, s, memSize)
    ensures Choice(policy, s.list, n) == |s.list| <==> forall b :: b in s.layout && !b.used ==> b.size < n
  {
    hide Tiled, Ordered, NoTwoFree, Choice;
    ChoiceFits(policy, s.list, n);
  }

  /** The used blocks of a layout. */
  function UsedIn(layout: seq<Block>): set<Block> {
    set b | b in layout && b.used
  }

  /** After a release the used blocks are those before without the released one. */
  lemma ReleasedFrees(policy: Policy, s: State, memSize: int, k: nat)
    requires Valid(policy, s, memSize) && k < |s.layout| && s.layout[k].used
    ensures UsedIn(Released(policy, s, k).layout) == UsedIn(s.layout) - {s.layout[k]}
  {
    hide Tiled, Ordered, NoTwoFree, Merged, Insert, Others, UsedIn, From, To, Listed;
    var f, t := From(s, k), To(s, k);
    FromTo(s, k);
    NeighboursAreFree(s, k);
    AroundRange(s.layout, memSize, f, t);
    var x := s.layout[f..t];
    forall i | 0 <= i < |x| ensures x[i] == s.layout[k] || !x[i].used {
      assert x[i] == s.layout[f + i];
    }
    assert x[k - f] == s.layout[k];
    UsedOutside(s.layout[..f], x, s.layout[t..], Merged(s, k), s.layout[k]);
  }

  lemma NeighboursAreFree(s: State, k: nat)
    requires k < |s.layout|
    ensures forall i :: From(s, k) <= i < To(s, k) <= |s.layout| ==> i == k || !s.layout[i].used
  {
  }

  /** One used block among free ones makes way for a free block. */
  lemma UsedOutside(a: seq<Block>, x: seq<Block>, b: seq<Block>, m: Block, u: Block)
    requires u in x && u.used && !m.used
    requires forall i :: 0 <= i < |x| ==> x[i] == u || !x[i].used
    requires forall c, d :: c in a + b && d in x ==> c != d
    ensures UsedIn(a + [m] + b) == UsedIn(a + x + b) - {u}
  {
    forall c: Block ensures c in UsedIn(a + [m] + b) <==> c in UsedIn(a + x + b) - {u} {
      assert c in a + [m] + b <==> c in a + b || c == m;
      assert c in a + x + b <==> c in a + b || c in x;
    }
  }

  /** Tiling without free neighbours, a layout is determined by its used blocks. */
  lemma {:induction false} LayoutIsDetermined(a: seq<Block>, b: seq<Block>, from: int, to: int)
    requires Tiled(a, from, to) && Tiled(b, from, to) && NoTwoFree(a) && NoTwoFree(b)
    requires UsedIn(a) == UsedIn(b)
    ensures a == b
  {
    if a != [] && b != [] {
      FirstIsSame(a, b, from, to);
      TailKeeps(a, from, to);
      TailKeeps(b, from, to);
      LayoutIsDetermined(a[1..], b[1..], Back(a[0]), to);
    } else {
      NothingLeft(a, from, to);
      NothingLeft(b, from, to);
    }
  }

  lemma NothingLeft(a: seq<Block>, from: int, to: int)
    requires Tiled(a, from, to)
    ensures a == [] <==> from == to
  {
    if a != [] {
      TiledInside(a, from, to, 0);
    }
  }

  lemma TailKeeps(a: seq<Block>, from: int, to: int)
    requires Tiled(a, from, to) && NoTwoFree(a) && a != []
    ensures Tiled(a[1..], Back(a[0]), to) && NoTwoFree(a[1..])
    ensures UsedIn(a[1..]) == UsedIn(a) - {a[0]}
  {
    forall i | 0 <= i < |a[1..]| - 1 ensures a[1..][i].used || a[1..][i + 1].used {
      assert a[i + 1].used || a[i + 2].used;
    }
    assert a == [a[0]] + a[1..];
    forall c | c in a[1..] ensures c != a[0] {
      var i :| 0 <= i < |a[1..]| && a[1..][i] == c;
      TiledApart(a, from, to, 0, i + 1);
      TiledInside(a, from, to, 0);
    }
  }

  lemma FirstIsSame(a: seq<Block>, b: seq<Block>, from: int, to: int)
    requires Tiled(a, from, to) && Tiled(b, from, to) && NoTwoFree(a) && NoTwoFree(b)
    requires UsedIn(a) == UsedIn(b) && a != [] && b != []
    ensures a[0] == b[0]
  {
    FirstIsThere(a, b, from, to);
    FirstIsThere(b, a, from, to);
    if !a[0].used {
      FreeReachesAsFar(a, b, from, to);
      FreeReachesAsFar(b, a, from, to);
    }
  }

  /** A used block at the beginning stands at the beginning of the other layout, too. */
  lemma FirstIsThere(a: seq<Block>, b: seq<Block>, from: int, to: int)
    requires Tiled(a, from, to) && Tiled(b, from, to) && UsedIn(a) == UsedIn(b) && a != [] && b != []
    ensures a[0].used ==> a[0] == b[0]
  {
    if a[0].used {
      assert a[0] in UsedIn(a);
      assert a[0] in b && b[0] in b;
      TiledDisjoint(b, from, to);
      TiledInside(a, from, to, 0);
      assert a[0] == b[0] || Disjoint(a[0], b[0]);
    }
  }

  /** A free block at the beginning ends where the next used block or the arena's end is. */
  lemma FreeReachesAsFar(a: seq<Block>, b: seq<Block>, from: int, to: int)
    requires Tiled(a, from, to) && Tiled(b, from, to) && NoTwoFree(b) && UsedIn(a) == UsedIn(b)
    requires a != [] && b != [] && !a[0].used && !b[0].used
    ensures Back(a[0]) <= Back(b[0])
  {
    TiledInside(a, from, to, 0);
    TiledInside(b, from, to, 0);
    if |b| > 1 {
      TiledInside(b, from, to, 1);
      assert b[0].used || b[1].used;
      assert b[1] in UsedIn(b);
      assert a[0] in a && b[1] in a && b[1] != a[0];
      TiledDisjoint(a, from, to);
      assert Disjoint(a[0], b[1]);
    }
  }

  // ----- what a release keeps -----

  /** The layout around some consecutive blocks. */
  lemma AroundRange(layout: seq<Block>, memSize: int, from: nat, to: nat)
    requires Tiled(layout, 0, memSize) && from < to <= |layout|
    ensures layout == layout[..from] + layout[from..to] + layout[to..]
    ensures forall c, d :: c in layout[..from] + layout[to..] && d in layout[from..to] ==> c in layout && d in layout && c != d && Disjoint(c, d)
  {
    TiledDisjoint(layout, 0, memSize);
    forall c, d | c in layout[..from] + layout[to..] && d in layout[from..to] ensures c in layout && d in layout && c != d {
      var j :| 0 <= j < to - from && layout[from..to][j] == d;
      assert layout[from + j] == d;
      if c in layout[..from] {
        var i :| 0 <= i < from && layout[i] == c;
        TiledApart(layout, 0, memSize, i, from + j);
        TiledInside(layout, 0, memSize, i);
      } else {
        var i :| 0 <= i < |layout| - to && layout[to..][i] == c;
        TiledApart(layout, 0, memSize, from + j, to + i);
        TiledInside(layout, 0, memSize, to + i);
      }
    }
  }

  /** The merged block covers exactly what the blocks did that went into it. */
  lemma {:induction false} MergeTiles(x: seq<Block>, f: int, t: int)
    requires x != [] && Tiled(x, f, t)
    ensures Tiled([Block(x[0].at, Back(x[|x| - 1]) - x[0].at - OVERHEAD, false)], f, t)
  {
    var m := Block(x[0].at, Back(x[|x| - 1]) - x[0].at - OVERHEAD, false);
    TiledInside(x, f, t, 0);
    TiledInside(x, f, t, |x| - 1);
    if |x| > 1 {
      TiledApart(x, f, t, 0, |x| - 1);
    }
    assert [m][1..] == [];
  }

  lemma MergedNoTwoFree(s: State, k: nat)
    requires NoTwoFree(s.layout) && k < |s.layout| && s.layout[k].used
    ensures NoTwoFree(s.layout[..From(s, k)] + [Merged(s, k)] + s.layout[To(s, k)..])
  {
    var f, t := From(s, k), To(s, k);
    var l := s.layout[..f] + [Merged(s, k)] + s.layout[t..];
    assert f > 0 ==> s.layout[f - 1].used;
    assert t < |s.layout| ==> s.layout[t].used;
    forall i | 0 <= i < |l| - 1 ensures l[i].used || l[i + 1].used {
      if i + 1 < f {
        assert l[i] == s.layout[i] && l[i + 1] == s.layout[i + 1];
      } else if i > f {
        assert l[i] == s.layout[t + i - f - 1] && l[i + 1] == s.layout[t + i - f];
      }
    }
  }

  lemma MinusKeeps(policy: Policy, list: seq<Block>, b: Block)
    requires Ordered(policy, list) && Distinct(list)
    ensures Ordered(policy, Minus(list, b)) && Distinct(Minus(list, b))
    ensures forall c :: c in Minus(list, b) <==> c in list && c != b
  {
    if b in list {
      CutKeepsOrder(policy, list, IndexOf(list, b));
    }
  }

  lemma OthersKeep(policy: Policy, s: State, memSize: int, k: nat)
    requires Valid(policy, s, memSize) && k < |s.layout| && s.layout[k].used
    ensures Ordered(policy, Others(s, k)) && Distinct(Others(s, k))
    ensures forall c :: c in Others(s, k) <==> c in s.list && c !in s.layout[From(s, k)..To(s, k)]
  {
    hide Minus, Tiled, Ordered;
    MinusKeeps(policy, s.list, s.layout[if k > 0 then k - 1 else k]);
    var l := if From(s, k) < k then Minus(s.list, s.layout[k - 1]) else s.list;
    MinusKeeps(policy, l, s.layout[if k + 1 < |s.layout| then k + 1 else k]);
    assert s.layout[k] !in s.list;
    var x := s.layout[From(s, k)..To(s, k)];
    forall c ensures c in x <==> (From(s, k) < k && c == s.layout[k - 1]) || c == s.layout[k] || (To(s, k) > k + 1 && c == s.layout[k + 1]) {
      assert x[k - From(s, k)] == s.layout[k];
      if From(s, k) < k {
        assert x[0] == s.layout[k - 1];
      }
      if To(s, k) > k + 1 {
        assert x[|x| - 1] == s.layout[k + 1];
      }
    }
  }

  /** Releasing a used block keeps the invariant. */
  lemma ReleasedKeeps(policy: Policy, s: State, memSize: int, k: nat)
    requires Valid(policy, s, memSize) && k < |s.layout| && s.layout[k].used
    ensures Valid(policy, Released(policy, s, k), memSize)
  {
    hide Tiled, Ordered, Put, Point, Others, NoTwoFree, Merged, From, To;
    var f, t, m := From(s, k), To(s, k), Merged(s, k);
    FromTo(s, k);
    MergedTiles(s, memSize, k);
    MergedNoTwoFree(s, k);
    OthersKeep(policy, s, memSize, k);
    var others := Others(s, k);
    MergedIsNew(policy, s, memSize, k);
    InsertKeepsOrder(policy, others, m);
    PutKeepsDistinct(others, Point(policy, others, m), m);
    PutLength(others, Point(policy, others, m), m);
    AroundRange(s.layout, memSize, f, t);
    ListedAfter(policy, s.list, s.layout[..f], s.layout[f..t], [m], s.layout[t..], Insert(policy, others, m));
  }

  lemma FromTo(s: State, k: nat)
    requires k < |s.layout|
    ensures From(s, k) <= k < To(s, k) <= |s.layout| && !Merged(s, k).used
  {
  }

  lemma MergedTiles(s: State, memSize: int, k: nat)
    requires Tiled(s.layout, 0, memSize) && k < |s.layout|
    ensures Tiled(s.layout[..From(s, k)] + [Merged(s, k)] + s.layout[To(s, k)..], 0, memSize)
  {
    hide *;
    var f, t, m := From(s, k), To(s, k), Merged(s, k);
    FromTo(s, k);
    var x := s.layout[f..t];
    ThreeParts(s.layout, f, t);
    forall f', t' | Tiled(x, f', t') ensures Tiled([m], f', t') {
      MergedFrom(s, k);
      MergeTiles(x, f', t');
    }
    TiledReplace(s.layout[..f], x, [m], s.layout[t..], 0, memSize);
  }

  lemma MergedFrom(s: State, k: nat)
    requires k < |s.layout|
    ensures var x := s.layout[From(s, k)..To(s, k)];
            x != [] && Merged(s, k) == Block(x[0].at, Back(x[|x| - 1]) - x[0].at - OVERHEAD, false)
  {
    hide Back;
  }

  lemma ThreeParts<T>(l: seq<T>, f: nat, t: nat)
    requires f <= t <= |l|
    ensures l == l[..f] + l[f..t] + l[t..]
  {
  }

  lemma MergedIsNew(policy: Policy, s: State, memSize: int, k: nat)
    requires Valid(policy, s, memSize) && k < |s.layout| && s.layout[k].used
    requires forall c :: c in Others(s, k) <==> c in s.list && c !in s.layout[From(s, k)..To(s, k)]
    ensures Merged(s, k) !in Others(s, k) && forall c :: c in Others(s, k) ==> c.at != Merged(s, k).at
  {
    hide Others, Ordered, NoTwoFree, From, To, Tiled;
    var f, t := From(s, k), To(s, k);
    FromTo(s, k);
    TiledDisjoint(s.layout, 0, memSize);
    assert s.layout[f..t][0] == s.layout[f];
    assert s.layout[f] in s.layout;
    forall c | c in Others(s, k) ensures c.at != Merged(s, k).at {
      assert c in s.layout && c != s.layout[f];
      assert Disjoint(c, s.layout[f]);
    }
  }

  // ----- release takes back a request -----

  /** Putting a chosen block back where its policy inserts it restores the list; for worst fit, up to equal sizes. */
  lemma InsertBack(policy: Policy, list: seq<Block>, n: int)
    requires Ordered(policy, list) && Choice(policy, list, n) < |list|
    ensures var i := Choice(policy, list, n);
            policy != WorstFit ==> Insert(policy, Cut(list, i), list[i]) == list
    ensures var r := Insert(policy, Cut(list, Choice(policy, list, n)), list[Choice(policy, list, n)]);
            |r| == |list| && multiset(r) == multiset(list) && forall k :: 0 <= k < |r| ==> r[k].size == list[k].size
  {
    hide Cut, Put, Choice;
    var i := Choice(policy, list, n);
    ChoiceIsFirst(policy, list, n);
    if policy == WorstFit {
      CutFirst(list);
      var c := list[1..];
      PointBeforeSplits(c, list[0], |c|);
      BackAmongEquals(list, PointBefore(c, list[0], |c|));
    } else {
      PointIsBack(policy, list, i, n);
      PutCut(list, i);
    }
  }

  lemma CutFirst(list: seq<Block>)
    requires list != []
    ensures Cut(list, 0) == list[1..]
  {
  }

  lemma PutCut(list: seq<Block>, i: nat)
    requires i < |list|
    ensures i <= |Cut(list, i)| && Put(Cut(list, i), i, list[i]) == list
  {
    assert Cut(list, i)[..i] == list[..i] && Cut(list, i)[i..] == list[i + 1..];
  }

  lemma PointIsBack(policy: Policy, list: seq<Block>, i: nat, n: int)
    requires policy != WorstFit && Ordered(policy, list) && i < |list| && list[i].size >= n
    requires forall k :: 0 <= k < i ==> list[k].size < n
    ensures PointAfter(policy, Cut(list, i), list[i], 0) == i
  {
    hide Cut;
    var c, p := Cut(list, i), list[i];
    CutLength(list, i);
    PointAfterSplits(policy, c, p, 0);
    forall k | 0 <= k < i ensures c[k] == list[k] && InOrder(policy, list[k], p) {
      CutAt(list, i, k);
    }
    if i < |c| {
      CutAt(list, i, i);
      assert InOrder(policy, p, list[i + 1]);
    }
  }

  lemma BackAmongEquals(list: seq<Block>, j: nat)
    requires list != [] && Ordered(WorstFit, list) && j <= |list| - 1
    requires j > 0 ==> list[1..][j - 1].size >= list[0].size
    ensures var r := Put(list[1..], j, list[0]);
            |r| == |list| && multiset(r) == multiset(list) && forall k :: 0 <= k < |r| ==> r[k].size == list[k].size
  {
    var t := list[1..];
    var r := Put(t, j, list[0]);
    SameElements(list, j);
    forall k | 0 <= k < |r| ensures r[k].size == list[k].size {
      PutAt(t, j, list[0], k);
      if 0 < k <= j {
        assert InOrder(WorstFit, list[0], list[k]);
        assert k < j ==> InOrder(WorstFit, list[k], list[j]);
        if 1 < k {
          assert InOrder(WorstFit, list[k - 1], list[k]) && InOrder(WorstFit, list[0], list[k - 1]);
        }
      } else if k == 0 && j > 0 {
        assert InOrder(WorstFit, list[0], list[1]) && (j > 1 ==> InOrder(WorstFit, list[1], list[j]));
      }
    }
  }

  lemma SameElements(list: seq<Block>, j: nat)
    requires list != [] && j <= |list| - 1
    ensures |Put(list[1..], j, list[0])| == |list| && multiset(Put(list[1..], j, list[0])) == multiset(list)
  {
    var t := list[1..];
    assert list == [list[0]] + (t[..j] + t[j..]);
    assert multiset(list) == multiset([list[0]]) + (multiset(t[..j]) + multiset(t[j..]));
    assert multiset(Put(t, j, list[0])) == multiset(t[..j]) + multiset([list[0]]) + multiset(t[j..]);
  }

  lemma {:induction false} ChoiceIsFirst(policy: Policy, list: seq<Block>, n: int)
    ensures var i := Choice(policy, list, n);
            (policy == WorstFit ==> i == 0 || i == |list|) &&
            (policy != WorstFit ==> forall k :: 0 <= k < i ==> list[k].size < n)
    decreases |list|
  {
    if list != [] && list[0].size < n && policy != WorstFit {
      ChoiceIsFirst(policy, list[1..], n);
    }
  }

  /** In a freshly taken layout the neighbours of the block are used, except for its own rest. */
  lemma TakenNeighbours(policy: Policy, s: State, memSize: int, i: nat, k: nat, n: int)
    requires Valid(policy, s, memSize) && i < |s.list| && 0 < n <= s.list[i].size
    requires k < |s.layout| && s.layout[k] == s.list[i]
    ensures !s.list[i].used
    ensures var t := Taken(policy, s, i, k, n);
            && k < |t.layout| && t.layout[k] == Given(s.list[i], n)
            && From(t, k) == k && To(t, k) == (if Fits(s.list[i], n) then k + 1 else k + 2)
            && t.layout[..k] == s.layout[..k] && t.layout[To(t, k)..] == s.layout[k + 1..]
            && Merged(t, k) == s.list[i]
  {
    hide Insert, Cut;
    ListedPlaces(policy, s, memSize, i);
    var p, t := s.list[i], Taken(policy, s, i, k, n);
    assert k > 0 ==> s.layout[k - 1].used && t.layout[k - 1] == s.layout[k - 1];
    assert k + 1 < |s.layout| ==> s.layout[k + 1].used;
    if Fits(p, n) {
      assert k + 1 < |t.layout| ==> t.layout[k + 1] == s.layout[k + 1];
    } else {
      assert t.layout[k + 1] == Rest(p, n);
    }
  }

  lemma MinusPut(list: seq<Block>, j: nat, b: Block)
    requires j <= |list| && b !in list
    ensures Minus(Put(list, j, b), b) == list
  {
    var r := Put(list, j, b);
    assert r[j] == b;
    var k := IndexOf(r, b);
    if k != j {
      PutAt(list, j, b, k);
    }
    assert r[..j] == list[..j] && r[j + 1..] == list[j..];
  }

  lemma MinusUpdate(list: seq<Block>, i: nat, b: Block)
    requires i < |list| && b !in list
    ensures Minus(list[i := b], b) == Cut(list, i)
  {
    assert list[i := b][i] == b;
  }

  /**
   * Releasing a block right after it was taken restores the layout, and the free list: exactly for
   * first and best fit; for worst fit up to the order of blocks of equal size.
   */
  lemma ReleaseUndoesRequest(policy: Policy, s: State, memSize: int, n: int)
    requires Valid(policy, s, memSize) && n > 0 && Choice(policy, s.list, n) < |s.list|
    ensures var i := Choice(policy, s.list, n);
            s.list[i] in s.layout &&
            var k := IndexOf(s.layout, s.list[i]);
            var t := Taken(policy, s, i, k, n);
            && k < |t.layout| && t.layout[k] == Given(s.list[i], n)
            && Released(policy, t, k).layout == s.layout
            && (policy != WorstFit ==> Released(policy, t, k).list == s.list)
            && |Released(policy, t, k).list| == |s.list| && multiset(Released(policy, t, k).list) == multiset(s.list)
            && forall j :: 0 <= j < |s.list| ==> Released(policy, t, k).list[j].size == s.list[j].size
  {
    hide Insert, Cut, Choice, Tiled, NoTwoFree, Ordered, Minus, IndexOf, Put, Point;
    var i := Choice(policy, s.list, n);
    ListedPlaces(policy, s, memSize, i);
    var p := s.list[i];
    var k := IndexOf(s.layout, p);
    var t := Taken(policy, s, i, k, n);
    TakenNeighbours(policy, s, memSize, i, k, n);
    assert s.layout == s.layout[..k] + [p] + s.layout[k + 1..];
    TakenOthers(policy, s, memSize, i, k, n);
    InsertBack(policy, s.list, n);
  }

  lemma TakenOthers(policy: Policy, s: State, memSize: int, i: nat, k: nat, n: int)
    requires Valid(policy, s, memSize) && i < |s.list| && 0 < n <= s.list[i].size
    requires k < |s.layout| && s.layout[k] == s.list[i]
    ensures k < |Taken(policy, s, i, k, n).layout| && Others(Taken(policy, s, i, k, n), k) == Cut(s.list, i)
  {
    hide Cut, Put, Point, Minus, Tiled;
    var p, t := s.list[i], Taken(policy, s, i, k, n);
    TakenNeighbours(policy, s, memSize, i, k, n);
    if !Fits(p, n) {
      var q := Rest(p, n);
      RestIsNew(policy, s, memSize, i, n);
      assert t.layout[k + 1] == q;
      CutKeepsOrder(policy, s.list, i);
      if policy == FirstFit {
        MinusUpdate(s.list, i, q);
      } else {
        MinusPut(Cut(s.list, i), Point(policy, Cut(s.list, i), q), q);
      }
    }
  }
}
