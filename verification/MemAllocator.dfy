/**
 * The allocator over its arena. Each method writes headers, footers and links one by one as the
 * source does, and is proved to bring the memory from one layout and free list to the next.
 */
module MemAllocator {
  import opened Sequences
  import opened MemArena
  import opened MemPolicies

  datatype Pointer = Null | User(at: int)

  // ----- the ring of a valid state -----

  function Whole(list: seq<Block>): seq<Block> {
    [HEAD] + list
  }

  lemma WholeApart(policy: Policy, s: State, memSize: int)
    requires Valid(policy, s, memSize)
    ensures Apart(Whole(s.list))
    ensures forall b :: b in s.layout && b !in s.list ==> Outside(Whole(s.list), b)
    ensures forall b :: b in s.layout ==> b.at >= 0
  {
    hide Tiled, NoTwoFree, Ordered;
    TiledDisjoint(s.layout, 0, memSize);
    var r := Whole(s.list);
    forall i, j | 0 <= i < j < |r| ensures r[i].at != r[j].at && Back(r[i]) != Back(r[j]) {
      assert r[j] == s.list[j - 1] && r[j] in s.list;
      if i > 0 {
        assert r[i] == s.list[i - 1] && r[i] in s.list;
      }
    }
    forall b, c | b in s.layout && b !in s.list && c in r ensures c.at != b.at && Back(c) != Back(b) {
      assert c == HEAD || c in s.list;
    }
  }

  /** Fields of the blocks that stay are kept by writes inside the blocks that change. */
  lemma FieldsAfter(m: Mem, m': Mem, a: seq<Block>, x: seq<Block>, y: seq<Block>, b: seq<Block>)
    requires Fields(m, a + x + b) && Fields(m', y)
    requires forall c :: c in a + b && c.at in m.size && Back(c) in m.footer && c.at in m.tag ==>
               c.at in m'.size && m'.size[c.at] == m.size[c.at] &&
               Back(c) in m'.footer && m'.footer[Back(c)] == m.footer[Back(c)] &&
               c.at in m'.tag && m'.tag[c.at] == m.tag[c.at]
    ensures Fields(m', a + y + b)
  {
    forall c | c in a + y + b ensures Fields(m', [c]) {
      if c !in y {
        assert c in a + b && c in a + x + b;
      }
    }
    forall c | c in a + y + b
      ensures c.at in m'.size && m'.size[c.at] == c.size && Back(c) in m'.footer && m'.footer[Back(c)] == c.size &&
              c.at in m'.tag && m'.tag[c.at] == c.used
    {
      assert Fields(m', [c]) && c in [c];
    }
  }

  lemma WholeAt(list: seq<Block>, i: nat)
    requires i < |list|
    ensures Whole(list)[i + 1] == list[i]
    ensures Cut(Whole(list), i + 1) == Whole(Cut(list, i))
  {
  }

  lemma WholeSwap(list: seq<Block>, i: nat, q: Block)
    requires i < |list|
    ensures Whole(list)[i + 1 := q] == Whole(list[i := q])
  {
  }

  lemma WholePut(list: seq<Block>, i: nat, b: Block)
    requires i <= |list|
    ensures Put(Whole(list), i + 1, b) == Whole(Put(list, i, b))
  {
  }

  // ----- taking -----

  lemma TakeWholeRep(policy: Policy, s: State, memSize: int, m: Mem, i: nat, k: nat, n: int)
    requires Valid(policy, s, memSize) && Fields(m, s.layout) && Ring(m, Whole(s.list))
    requires i < |s.list| && k < |s.layout| && s.layout[k] == s.list[i] && Fits(s.list[i], n)
    ensures var m' := SetTag(ListDel(m, s.list[i].at), s.list[i].at, true);
            Fields(m', Taken(policy, s, i, k, n).layout) && Ring(m', Whole(Taken(policy, s, i, k, n).list))
  {
    hide Tiled, NoTwoFree, Ordered, Ring, Apart, ListDel;
    WholeApart(policy, s, memSize);
    WholeAt(s.list, i);
    var p := s.list[i];
    ListDelCuts(m, Whole(s.list), i + 1);
    var m1 := ListDel(m, p.at);
    RingTag(m1, Whole(Cut(s.list, i)), p.at, true);
    Around(s.layout, memSize, k);
    FieldsAfter(m, SetTag(m1, p.at, true), s.layout[..k], [p], [Given(p, n)], s.layout[k + 1..]);
    assert s.layout[k := Given(p, n)] == s.layout[..k] + [Given(p, n)] + s.layout[k + 1..];
  }

  /** The list once the rest has taken the place of the block that was cut. */
  lemma SplitRep(policy: Policy, s: State, memSize: int, m: Mem, i: nat, k: nat, n: int)
    requires Valid(policy, s, memSize) && Fields(m, s.layout) && Ring(m, Whole(s.list))
    requires i < |s.list| && k < |s.layout| && s.layout[k] == s.list[i] && !Fits(s.list[i], n) && n > 0
    ensures var u, q, r := Given(s.list[i], n), Rest(s.list[i], n), Whole(s.list);
            var m' := SplitWrites(m, u, q, r[i].at, Succ(r, i + 1).at);
            && Fields(m', s.layout[..k] + [u, q] + s.layout[k + 1..])
            && Ring(m', Whole(s.list[i := q]))
  {
    hide Tiled, NoTwoFree, Ordered, Ring, Apart, SplitWrites;
    WholeApart(policy, s, memSize);
    WholeAt(s.list, i);
    ListedPlaces(policy, s, memSize, i);
    var p, r := s.list[i], Whole(s.list);
    var u, q := Given(p, n), Rest(p, n);
    RestIsNew(policy, s, memSize, i, n);
    WholeSwap(s.list, i, q);
    SplitRing(m, r, i + 1, u, q);
    RingNeighbours(m, r, i);
    FrontsApart(r, i, i + 1);
    SuccIn(r, i + 1);
    Around(s.layout, memSize, k);
    TiledDisjoint(s.layout, 0, memSize);
    SplitLinks(m, u, q, r[i], Succ(r, i + 1));
    SplitFields(m, SplitWrites(m, u, q, r[i].at, Succ(r, i + 1).at), s.layout[..k], p, u, q, s.layout[k + 1..]);
  }

  lemma SuccIn(r: seq<Block>, j: nat)
    requires j < |r|
    ensures Succ(r, j) in r
  {
  }

  /** The writes of cutting p into u and q stay inside p. */
  lemma SplitFields(m: Mem, m': Mem, a: seq<Block>, p: Block, u: Block, q: Block, b: seq<Block>)
    requires Fields(m, a + [p] + b) && forall c :: c in a + b ==> Disjoint(c, p) && c.size > 0
    requires u.at == p.at && q.at == Back(u) && Back(q) == Back(p) && u.size > 0 && q.size > 0 && u.used && !q.used
    requires m'.size == m.size[u.at := u.size][q.at := q.size]
    requires m'.footer == m.footer[Back(u) := u.size][Back(q) := q.size]
    requires m'.tag == m.tag[u.at := true][q.at := false]
    ensures Fields(m', a + [u, q] + b)
  {
    forall c | c in a + [u, q] + b
      ensures c.at in m'.size && m'.size[c.at] == c.size && Back(c) in m'.footer && m'.footer[Back(c)] == c.size &&
              c.at in m'.tag && m'.tag[c.at] == c.used
    {
      if c in a + b {
        assert Disjoint(c, p) && c in a + [p] + b;
      } else {
        assert c == u || c == q;
      }
    }
  }

  /** The writes of growing a free block y over the blocks x stay inside x. */
  lemma MergeFields(m: Mem, m': Mem, a: seq<Block>, x: seq<Block>, y: Block, b: seq<Block>)
    requires Fields(m, a + x + b) && x != [] && forall c :: c in a + b ==> Disjoint(c, x[0]) && Disjoint(c, x[|x| - 1]) && c.size > 0
    requires y.at == x[0].at && Back(y) == Back(x[|x| - 1]) && !y.used && forall c :: c in x ==> c.size > 0
    requires m'.size == m.size[y.at := y.size] && m'.footer == m.footer[Back(y) := y.size]
    requires y.at in m'.tag && !m'.tag[y.at]
    requires forall f :: f in m.tag && f != y.at ==> f in m'.tag && m'.tag[f] == m.tag[f]
    ensures Fields(m', a + [y] + b)
  {
    forall c | c in a + [y] + b
      ensures c.at in m'.size && m'.size[c.at] == c.size && Back(c) in m'.footer && m'.footer[Back(c)] == c.size &&
              c.at in m'.tag && m'.tag[c.at] == c.used
    {
      if c in a + b {
        assert Disjoint(c, x[0]) && Disjoint(c, x[|x| - 1]) && c in a + x + b;
        assert x[0] in x && x[|x| - 1] in x;
      }
    }
  }

  // ----- giving back -----

  /** Facts about the blocks a release merges, gathered once. */
  lemma MergeFacts(policy: Policy, s: State, memSize: int, k: nat)
    requires Valid(policy, s, memSize) && k < |s.layout| && s.layout[k].used
    ensures From(s, k) <= k < To(s, k) <= |s.layout|
    ensures var x := s.layout[From(s, k)..To(s, k)];
            && s.layout == s.layout[..From(s, k)] + x + s.layout[To(s, k)..]
            && Merged(s, k).at == x[0].at && Back(Merged(s, k)) == Back(x[|x| - 1])
            && (forall c :: c in s.layout[..From(s, k)] + s.layout[To(s, k)..] ==> Disjoint(c, x[0]) && Disjoint(c, x[|x| - 1]) && c.size > 0)
            && (forall c :: c in x ==> c.size > 0 && c in s.layout)
  {
    hide Tiled, NoTwoFree, Listed, From, To, Merged, Back, Disjoint;
    MergedEnds(s, k);
    MergeAround(s, memSize, From(s, k), To(s, k));
  }

  /** Where a block lies among its neighbours. */
  lemma PlaceFacts(layout: seq<Block>, memSize: int, k: nat)
    requires Tiled(layout, 0, memSize) && k < |layout|
    ensures k > 0 ==> layout[k].at == Back(layout[k - 1])
    ensures k + 1 < |layout| ==> layout[k + 1].at == Back(layout[k])
    ensures (k == 0 <==> layout[k].at == 0) && (k == |layout| - 1 <==> Back(layout[k]) == memSize)
  {
    hide Tiled;
    TiledInside(layout, 0, memSize, k);
    if k > 0 {
      TiledInside(layout, 0, memSize, k - 1);
    }
  }

  lemma MergedEnds(s: State, k: nat)
    requires k < |s.layout|
    ensures From(s, k) <= k < To(s, k) <= |s.layout|
    ensures var x := s.layout[From(s, k)..To(s, k)];
            Merged(s, k).at == x[0].at && Back(Merged(s, k)) == Back(x[|x| - 1])
  {
  }

  lemma MergeAround(s: State, memSize: int, f: nat, t: nat)
    requires Tiled(s.layout, 0, memSize) && f < t <= |s.layout|
    ensures var x := s.layout[f..t];
            && s.layout == s.layout[..f] + x + s.layout[t..]
            && (forall c :: c in s.layout[..f] + s.layout[t..] ==> Disjoint(c, x[0]) && Disjoint(c, x[|x| - 1]) && c.size > 0)
            && (forall c :: c in x ==> c.size > 0 && c in s.layout)
  {
    hide Tiled, Disjoint;
    AroundRange(s.layout, memSize, f, t);
    TiledDisjoint(s.layout, 0, memSize);
    var x := s.layout[f..t];
    assert x[0] in x && x[|x| - 1] in x;
  }

  /** What a merge leaves in memory: the new layout, and the merged block somewhere in the ring. */
  ghost predicate MergedIn(m: Mem, s: State, k: nat, mid: seq<Block>, i: nat)
    requires k < |s.layout|
  {
    && Fields(m, s.layout[..From(s, k)] + [Merged(s, k)] + s.layout[To(s, k)..])
    && Ring(m, Whole(mid)) && i < |mid| && mid[i] == Merged(s, k) && Cut(mid, i) == Others(s, k)
  }

  lemma UsedIsOutside(policy: Policy, s: State, memSize: int, k: nat)
    requires Valid(policy, s, memSize) && k < |s.layout| && s.layout[k].used
    ensures Apart(Whole(s.list)) && Outside(Whole(s.list), s.layout[k])
  {
    WholeApart(policy, s, memSize);
    assert s.layout[k] in s.layout && s.layout[k] !in s.list;
  }

  /** Where a free block of the layout stands in the list. */
  lemma PlaceOf(policy: Policy, s: State, memSize: int, k: nat) returns (i: nat)
    requires Valid(policy, s, memSize) && k < |s.layout| && !s.layout[k].used
    ensures i < |s.list| && s.list[i] == s.layout[k]
    ensures Minus(s.list, s.layout[k]) == Cut(s.list, i)
  {
    assert s.layout[k] in s.layout;
    i := IndexOf(s.list, s.layout[k]);
  }

  lemma SwapCut(list: seq<Block>, i: nat, b: Block)
    requires i < |list|
    ensures Cut(list[i := b], i) == Cut(list, i)
  {
  }

  lemma RightRep(policy: Policy, s: State, memSize: int, m: Mem, k: nat, i: nat)
    requires Valid(policy, s, memSize) && Fields(m, s.layout) && Ring(m, Whole(s.list))
    requires k < |s.layout| && s.layout[k].used && From(s, k) == k && To(s, k) == k + 2
    requires i < |s.list| && s.list[i] == s.layout[k + 1] && Minus(s.list, s.layout[k + 1]) == Cut(s.list, i)
    ensures var r := Whole(s.list);
            MergedIn(RightWrites(m, Merged(s, k), r[i].at, Succ(r, i + 1).at), s, k, s.list[i := Merged(s, k)], i)
  {
    hide Valid, Fields, Ring, Apart, RightWrites, Minus, Cut, Merged, Outside, Disjoint, Linked, GetBack;
    MergeFacts(policy, s, memSize, k);
    UsedIsOutside(policy, s, memSize, k);
    var y, r := Merged(s, k), Whole(s.list);
    var x := s.layout[k..k + 2];
    assert x[0] == s.layout[k] && x[1] == s.layout[k + 1] && x[1] in x && x[0] in x;
    WholeAt(s.list, i);
    WholeSwap(s.list, i, y);
    SwapCut(s.list, i, y);
    OutsideFronts(r, s.layout[k], y);
    RightRing(m, r, i + 1, y);
    RightLinks(m, r, i + 1, y);
    IsFree(s, k);
    RightFields(m, RightWrites(m, y, r[i].at, Succ(r, i + 1).at), s, k);
  }

  lemma RightFields(m: Mem, m': Mem, s: State, k: nat)
    requires k + 1 < |s.layout| && From(s, k) == k && To(s, k) == k + 2 && Fields(m, s.layout)
    requires var x := s.layout[From(s, k)..To(s, k)];
             && s.layout == s.layout[..From(s, k)] + x + s.layout[To(s, k)..]
             && Merged(s, k).at == x[0].at && Back(Merged(s, k)) == Back(x[|x| - 1])
             && (forall c :: c in s.layout[..From(s, k)] + s.layout[To(s, k)..] ==> Disjoint(c, x[0]) && Disjoint(c, x[|x| - 1]) && c.size > 0)
             && (forall c :: c in x ==> c.size > 0 && c in s.layout)
    requires m'.size == m.size[Merged(s, k).at := Merged(s, k).size] && m'.footer == m.footer[Back(Merged(s, k)) := Merged(s, k).size]
    requires m'.tag == m.tag[Merged(s, k).at := false] && !Merged(s, k).used
    ensures Fields(m', s.layout[..From(s, k)] + [Merged(s, k)] + s.layout[To(s, k)..])
  {
    hide Fields, Merged, Disjoint, From, To;
    MergeFields(m, m', s.layout[..k], s.layout[k..k + 2], Merged(s, k), s.layout[k + 2..]);
  }

  lemma OutsideFronts(r: seq<Block>, b: Block, y: Block)
    requires Outside(r, b) && y.at == b.at
    ensures forall c :: c in r ==> c.at != y.at
  {
  }

  lemma OutsideBacks(r: seq<Block>, b: Block, y: Block)
    requires Outside(r, b) && Back(y) == Back(b)
    ensures forall c :: c in r ==> Back(c) != Back(y)
  {
  }

  lemma IsFree(s: State, k: nat)
    requires k < |s.layout|
    ensures !Merged(s, k).used
  {
  }

  lemma LeftRep(policy: Policy, s: State, memSize: int, m: Mem, k: nat, i: nat)
    requires Valid(policy, s, memSize) && Fields(m, s.layout) && Ring(m, Whole(s.list))
    requires 0 < k < |s.layout| && s.layout[k].used && From(s, k) == k - 1 && To(s, k) == k + 1
    requires i < |s.list| && s.list[i] == s.layout[k - 1] && Minus(s.list, s.layout[k - 1]) == Cut(s.list, i)
    ensures MergedIn(LeftWrites(m, Merged(s, k)), s, k, s.list[i := Merged(s, k)], i)
  {
    hide Valid, Fields, Ring, Apart, LeftWrites, Minus, Cut, Merged, Outside, Disjoint, Linked, GetBack;
    MergeFacts(policy, s, memSize, k);
    UsedIsOutside(policy, s, memSize, k);
    var y, r := Merged(s, k), Whole(s.list);
    var x := s.layout[k - 1..k + 1];
    assert x[0] == s.layout[k - 1] && x[1] == s.layout[k] && x[1] in x && x[0] in x;
    WholeAt(s.list, i);
    WholeSwap(s.list, i, y);
    SwapCut(s.list, i, y);
    OutsideBacks(r, s.layout[k], y);
    LeftRing(m, r, i + 1, y);
    FreeTag(m, s.layout, k - 1);
    IsFree(s, k);
    FreeIn(policy, s, memSize, i);
    MergeFields(m, LeftWrites(m, y), s.layout[..k - 1], x, y, s.layout[k + 1..]);
  }

  lemma FreeIn(policy: Policy, s: State, memSize: int, i: nat)
    requires Valid(policy, s, memSize) && i < |s.list|
    ensures !s.list[i].used
  {
    assert s.list[i] in s.list;
  }

  lemma FreeTag(m: Mem, blocks: seq<Block>, k: nat)
    requires Fields(m, blocks) && k < |blocks|
    ensures blocks[k].at in m.tag && m.tag[blocks[k].at] == blocks[k].used
    ensures blocks[k].at in m.size && m.size[blocks[k].at] == blocks[k].size
    ensures Back(blocks[k]) in m.footer && m.footer[Back(blocks[k])] == blocks[k].size
  {
    assert blocks[k] in blocks;
  }

  lemma BothRep(policy: Policy, s: State, memSize: int, m: Mem, k: nat, i: nat, j: nat) returns (l: nat)
    requires Valid(policy, s, memSize) && Fields(m, s.layout) && Ring(m, Whole(s.list))
    requires 0 < k < |s.layout| - 1 && s.layout[k].used && From(s, k) == k - 1 && To(s, k) == k + 2
    requires i < |s.list| && s.list[i] == s.layout[k - 1] && j < |s.list| && s.list[j] == s.layout[k + 1]
    ensures l < |s.list| - 1 && Cut(s.list, j)[l] == s.layout[k - 1]
    ensures MergedIn(LeftWrites(ListDel(m, s.layout[k + 1].at), Merged(s, k)), s, k, Cut(s.list, j)[l := Merged(s, k)], l)
  {
    hide Valid, Fields, Ring, Apart, LeftWrites, ListDel, Minus, Merged, Outside, Disjoint, Linked, GetBack, From, To, Cut, Others, Back;
    l := CutPlace(policy, s, memSize, k, i, j);
    CutLength(s.list, j);
    RightUnlinked(policy, s, memSize, m, k, j);
    LeftGrows(policy, s, memSize, ListDel(m, s.layout[k + 1].at), k, Cut(s.list, j), l);
  }

  /** With the right neighbour unlinked, the rest of the ring and all fields are as before. */
  lemma RightUnlinked(policy: Policy, s: State, memSize: int, m: Mem, k: nat, j: nat)
    requires Valid(policy, s, memSize) && Fields(m, s.layout) && Ring(m, Whole(s.list))
    requires k + 1 < |s.layout| && j < |s.list| && s.list[j] == s.layout[k + 1]
    ensures var m1 := ListDel(m, s.layout[k + 1].at);
            && Ring(m1, Whole(Cut(s.list, j))) && Apart(Whole(Cut(s.list, j))) && Fields(m1, s.layout)
            && forall c :: c in Whole(Cut(s.list, j)) ==> Back(c) != Back(s.layout[k + 1])
  {
    hide Valid, Fields, Ring, Apart, ListDel, Back;
    WholeApart(policy, s, memSize);
    WholeAt(s.list, j);
    ListDelCuts(m, Whole(s.list), j + 1);
    CutApart(Whole(s.list), j + 1);
    SameFields(m, ListDel(m, s.layout[k + 1].at), s.layout);
  }

  lemma LeftGrows(policy: Policy, s: State, memSize: int, m: Mem, k: nat, c: seq<Block>, l: nat)
    requires Valid(policy, s, memSize) && 0 < k < |s.layout| - 1 && s.layout[k].used && From(s, k) == k - 1 && To(s, k) == k + 2
    requires Ring(m, Whole(c)) && Apart(Whole(c)) && Fields(m, s.layout)
    requires forall b :: b in Whole(c) ==> Back(b) != Back(s.layout[k + 1])
    requires l < |c| && c[l] == s.layout[k - 1] && Cut(c, l) == Others(s, k)
    ensures MergedIn(LeftWrites(m, Merged(s, k)), s, k, c[l := Merged(s, k)], l)
  {
    hide Valid, Fields, Ring, Apart, LeftWrites, Merged, Disjoint, Linked, GetBack, From, To, Cut, Others, Back;
    MergeFacts(policy, s, memSize, k);
    var y := Merged(s, k);
    MergedIsAround(s, k);
    WholeAt(c, l);
    WholeSwap(c, l, y);
    SwapCut(c, l, y);
    SameEnds(s, k, c, l, y);
    LeftRing(m, Whole(c), l + 1, y);
    IsFree(s, k);
    LeftIsFree(s, k);
    BothFields(m, LeftWrites(m, y), s.layout, From(s, k), To(s, k), y);
  }

  lemma MergedIsAround(s: State, k: nat)
    requires 0 < k < |s.layout| - 1 && From(s, k) == k - 1 && To(s, k) == k + 2
    ensures Merged(s, k).at == s.layout[k - 1].at && Back(Merged(s, k)) == Back(s.layout[k + 1])
  {
  }

  lemma LeftIsFree(s: State, k: nat)
    requires k < |s.layout| && From(s, k) < k
    ensures !s.layout[k - 1].used
  {
  }

  lemma SameFields(m: Mem, m': Mem, blocks: seq<Block>)
    requires Fields(m, blocks) && SameBlocks(m, m')
    ensures Fields(m', blocks)
  {
  }

  /** Growing the free block that the blocks from f to t begin with over all of them. */
  lemma BothFields(m: Mem, m': Mem, blocks: seq<Block>, f: nat, t: nat, y: Block)
    requires f < t <= |blocks| && Fields(m, blocks) && !blocks[f].used && !y.used
    requires var x := blocks[f..t];
             && y.at == x[0].at && Back(y) == Back(x[|x| - 1])
             && (forall c :: c in blocks[..f] + blocks[t..] ==> Disjoint(c, x[0]) && Disjoint(c, x[|x| - 1]) && c.size > 0)
             && (forall c :: c in x ==> c.size > 0)
    requires m'.size == m.size[y.at := y.size] && m'.footer == m.footer[Back(y) := y.size] && m'.tag == m.tag
    ensures Fields(m', blocks[..f] + [y] + blocks[t..])
  {
    FreeTag(m, blocks, f);
    assert blocks == blocks[..f] + blocks[f..t] + blocks[t..];
    hide Fields, Disjoint;
    MergeFields(m, m', blocks[..f], blocks[f..t], y, blocks[t..]);
  }

  lemma CutApart(r: seq<Block>, i: nat)
    requires Apart(r) && i < |r|
    ensures Apart(Cut(r, i))
    ensures forall c :: c in Cut(r, i) ==> Back(c) != Back(r[i])
  {
    var c := Cut(r, i);
    forall a, b | 0 <= a < b < |c| ensures c[a].at != c[b].at && Back(c[a]) != Back(c[b]) {
      CutAt(r, i, a);
      CutAt(r, i, b);
    }
    forall b | b in c ensures Back(b) != Back(r[i]) {
      var k :| 0 <= k < |c| && c[k] == b;
      CutAt(r, i, k);
    }
  }

  /** With the right neighbour out of the list, where the left one stands. */
  lemma CutPlace(policy: Policy, s: State, memSize: int, k: nat, i: nat, j: nat) returns (l: nat)
    requires Valid(policy, s, memSize) && 0 < k < |s.layout| - 1 && From(s, k) == k - 1 && To(s, k) == k + 2
    requires i < |s.list| && s.list[i] == s.layout[k - 1] && j < |s.list| && s.list[j] == s.layout[k + 1]
    ensures l < |s.list| - 1 && Cut(s.list, j)[l] == s.layout[k - 1] && Cut(Cut(s.list, j), l) == Others(s, k)
  {
    hide Tiled, NoTwoFree, Ordered;
    TiledDisjoint(s.layout, 0, memSize);
    TiledApart(s.layout, 0, memSize, k - 1, k + 1);
    assert s.layout[k - 1] in s.layout && s.layout[k + 1] in s.layout;
    assert i != j && s.list[i] in s.list && s.list[j] in s.list;
    assert IndexOf(s.list, s.layout[k - 1]) == i;
    l := if i < j then i else i - 1;
    CutAt(s.list, j, l);
    var c := Cut(s.list, i);
    CutKeepsOrder(policy, s.list, i);
    assert s.layout[k + 1] in c;
    var q := if j < i then j else j - 1;
    CutAt(s.list, i, q);
    assert IndexOf(c, s.layout[k + 1]) == q;
    CutTwice(s.list, i, j);
  }

  lemma CutTwice(list: seq<Block>, i: nat, j: nat)
    requires i < |list| && j < |list| && i != j
    ensures |Cut(list, i)| == |Cut(list, j)| == |list| - 1
    ensures Cut(Cut(list, i), if j < i then j else j - 1) == Cut(Cut(list, j), if i < j then i else i - 1)
  {
  }

  lemma SameEnds(s: State, k: nat, c: seq<Block>, l: nat, y: Block)
    requires l < |c| && Apart(Whole(c)) && c[l].at == y.at
    requires 0 < k < |s.layout| - 1 && Back(y) == Back(s.layout[k + 1])
    requires forall b :: b in Whole(c) ==> Back(b) != Back(s.layout[k + 1])
    ensures y.at == Whole(c)[l + 1].at && forall b :: b in Whole(c) && b != Whole(c)[l + 1] ==> Back(b) != Back(y)
  {
  }

  // ----- putting the merged block where its policy wants it -----

  /** Scanning from place i finds the same point as scanning the whole list. */
  predicate ScansFrom(policy: Policy, list: seq<Block>, b: Block, i: nat) {
    i <= |list| && Point(policy, list, b) == if policy == WorstFit then PointBefore(list, b, i) else PointAfter(policy, list, b, i)
  }

  /** First fit: the merged block already stands where an insertion by address would put it. */
  lemma InPlaceIsInsert(mid: seq<Block>, i: nat)
    requires Ordered(FirstFit, mid) && i < |mid|
    ensures mid == Insert(FirstFit, Cut(mid, i), mid[i])
  {
    hide Put;
    var c, p := Cut(mid, i), mid[i];
    PutCut(mid, i);
    CutLength(mid, i);
    PointAfterSplits(FirstFit, c, p, 0);
    forall k | 0 <= k < i ensures c[k] == mid[k] && InOrder(FirstFit, mid[k], p) {
      CutAt(mid, i, k);
    }
    if i < |c| {
      CutAt(mid, i, i);
      assert InOrder(FirstFit, p, mid[i + 1]);
    }
  }

  lemma {:induction false} StartLater(policy: Policy, list: seq<Block>, p: Block, j: nat, i: nat)
    requires policy == BestFit && j <= i <= |list| && forall k :: j <= k < i ==> list[k].size < p.size
    ensures PointAfter(policy, list, p, j) == PointAfter(policy, list, p, i)
    decreases i - j
  {
    if j < i {
      StartLater(policy, list, p, j + 1, i);
    }
  }

  lemma {:induction false} StartEarlier(list: seq<Block>, p: Block, i: nat, j: nat)
    requires i <= j <= |list| && forall k :: i <= k < j ==> list[k].size < p.size
    ensures PointBefore(list, p, j) == PointBefore(list, p, i)
  {
    if i < j {
      StartEarlier(list, p, i, j - 1);
    }
  }

  /** Best and worst fit start the scan at the merged block's old place, which comes to the same. */
  lemma ScanFromPlace(policy: Policy, list: seq<Block>, i: nat, y: Block)
    requires policy != FirstFit && Ordered(policy, list) && i < |list| && list[i].size < y.size
    ensures ScansFrom(policy, Cut(list, i), y, i)
  {
    hide Cut;
    var c := Cut(list, i);
    CutLength(list, i);
    if policy == WorstFit {
      forall k | i <= k < |c| ensures c[k].size < y.size {
        CutAt(list, i, k);
        assert InOrder(policy, list[i], list[k + 1]);
      }
      StartEarlier(c, y, i, |c|);
    } else {
      forall k | 0 <= k < i ensures c[k].size < y.size {
        CutAt(list, i, k);
        assert InOrder(policy, list[k], list[i]);
      }
      StartLater(policy, c, y, 0, i);
    }
  }

  // ----- one block -----

  function SetAll(m: Mem, front: int, size: int, prev: int, used: bool, next: int): Mem {
    SetNext(SetTag(SetPrev(SetSize(m, front, size), front, prev), front, used), front, next)
  }

  function Single(memSize: int): Block {
    Block(0, memSize - HEAD_SIZE - FOOT_SIZE, false)
  }

  function InitWrites(m: Mem, memSize: int): Mem {
    SetAll(SetAll(m, 0, memSize - HEAD_SIZE - FOOT_SIZE, HEAD.at, false, HEAD.at), HEAD.at, 0, 0, false, 0)
  }

  lemma InitRep(policy: Policy, memSize: int, m: Mem)
    requires memSize > OVERHEAD
    ensures var b := Single(memSize);
            Valid(policy, State([b], [b]), memSize) && Fields(InitWrites(m, memSize), [b]) && Ring(InitWrites(m, memSize), Whole([b]))
  {
    var b, m' := Single(memSize), InitWrites(m, memSize);
    assert [b][1..] == [];
    assert Back(b) == memSize && Back(HEAD) == 0;
    var r := Whole([b]);
    assert r[0] == HEAD && r[1] == b && Succ(r, 0) == b && Succ(r, 1) == HEAD;
    assert Linked(m', r[0], Succ(r, 0)) && Linked(m', r[1], Succ(r, 1));
  }

  lemma HasElement(list: seq<Block>)
    ensures list != [] ==> exists b :: b in list
  {
    if list != [] {
      assert list[0] in list;
    }
  }

  lemma OnlyBlock(policy: Policy, s: State, memSize: int)
    requires Valid(policy, s, memSize) && |s.layout| == 1 && s.layout[0].used
    ensures Released(policy, s, 0) == State([Single(memSize)], [Single(memSize)])
  {
    assert s.layout == [s.layout[0]];
    assert forall b :: b !in s.list;
    HasElement(s.list);
    assert s.layout[1..] == [] && s.layout[..0] == [];
    TiledInside(s.layout, 0, memSize, 0);
  }

  lemma StepBack(m: Mem, r: seq<Block>, i: int)
    requires Ring(m, r)
    ensures 0 <= i < |r| ==> GetPrev(m, Succ(r, i).at) == r[i].at
  {
    if 0 <= i < |r| {
      LinkAt(m, r, i);
    }
  }

  lemma StepForward(r: seq<Block>, j: nat)
    ensures j + 1 < |r| ==> Succ(r, j) == r[j + 1]
  {
  }

  /** Only the head is at the head's front. */
  lemma NotHead(r: seq<Block>, j: nat)
    requires Apart(r) && j < |r| && r[0] == HEAD
    ensures r[j].at == HEAD.at <==> j == 0
  {
  }

  lemma SuccNotHead(r: seq<Block>, j: nat)
    requires Apart(r) && j < |r| && r[0] == HEAD
    ensures Succ(r, j).at == HEAD.at <==> j == |r| - 1
  {
  }

  lemma LastIsHead(r: seq<Block>, j: nat)
    requires r != [] && r[0] == HEAD
    ensures j == |r| - 1 ==> Succ(r, j) == HEAD
  {
  }

  /** With the rest in place of the block that was cut, ring elements still share no end, and the rest none with the others. */
  lemma SplitMid(policy: Policy, s: State, memSize: int, i: nat, n: int)
    requires Valid(policy, s, memSize) && i < |s.list| && n > 0 && !Fits(s.list[i], n)
    ensures var q := Rest(s.list[i], n);
            Apart(Whole(s.list[i := q])) && Apart(Whole(Cut(s.list, i))) && Outside(Whole(Cut(s.list, i)), q)
  {
    hide Tiled, NoTwoFree, Ordered;
    var q := Rest(s.list[i], n);
    WholeApart(policy, s, memSize);
    RestIsNew(policy, s, memSize, i, n);
    TiledDisjoint(s.layout, 0, memSize);
    ListedPlaces(policy, s, memSize, i);
    var r := Whole(s.list);
    WholeAt(s.list, i);
    CutApart(r, i + 1);
    CutKeepsOrder(policy, s.list, i);
    var t := Whole(s.list[i := q]);
    forall a, b | 0 <= a < b < |t| ensures t[a].at != t[b].at && Back(t[a]) != Back(t[b]) {
      assert r[a].at != r[b].at && Back(r[a]) != Back(r[b]);
      assert a > 0 ==> s.list[a - 1] in s.list;
      assert s.list[b - 1] in s.list;
    }
    forall c | c in Whole(Cut(s.list, i)) ensures c.at != q.at && Back(c) != Back(q) {
      assert c == HEAD || (c in s.list && c != s.list[i]);
    }
  }

  lemma RestSize(m: Mem, blocks: seq<Block>, k: nat, u: Block, q: Block)
    requires Fields(m, blocks) && k + 1 < |blocks| && blocks[k] == u && blocks[k + 1] == q
    ensures At(m.size, q.at) == q.size
  {
    assert blocks[k + 1] in blocks;
  }

  /** The head stands before the first and after the last element. */
  lemma HeadOfList(list: seq<Block>)
    ensures Whole(list)[0] == HEAD && Succ(Whole(list), |list|) == HEAD
  {
  }

  lemma InsertAtPoint(policy: Policy, list: seq<Block>, b: Block)
    ensures Insert(policy, list, b) ==
            Put(list, if policy == WorstFit then PointBefore(list, b, |list|) else PointAfter(policy, list, b, 0), b)
  {
  }

  lemma ListIsNotHead(policy: Policy, s: State, memSize: int, i: nat)
    requires Valid(policy, s, memSize)
    ensures i < |s.list| ==> s.list[i].at != HEAD.at
  {
    WholeApart(policy, s, memSize);
    if i < |s.list| {
      assert s.list[i] in s.list;
    }
  }

  lemma FrontSize(policy: Policy, s: State, memSize: int, m: Mem, i: nat)
    requires Ring(m, Whole(s.list)) && i < |s.list|
    ensures GetSize(m, s.list[i].at) == s.list[i].size
  {
    WholeAt(s.list, i);
    RingNeighbours(m, Whole(s.list), i + 1);
  }

  lemma ReleasedIs(policy: Policy, s: State, k: nat)
    requires k < |s.layout|
    ensures From(s, k) < |s.layout| && To(s, k) <= |s.layout|
    ensures Released(policy, s, k).layout == s.layout[..From(s, k)] + [Merged(s, k)] + s.layout[To(s, k)..]
    ensures Released(policy, s, k).list == Insert(policy, Others(s, k), Merged(s, k))
  {
  }

  lemma MergedAmong(s: State, k: nat)
    requires k < |s.layout|
    ensures From(s, k) <= |s.layout| && To(s, k) <= |s.layout|
    ensures var blocks := s.layout[..From(s, k)] + [Merged(s, k)] + s.layout[To(s, k)..];
            From(s, k) < |blocks| && blocks[From(s, k)] == Merged(s, k)
  {
  }

  /** Taking an element out does not change what stands before it and after it. */
  lemma FromStays(mid: seq<Block>, i: nat, others: seq<Block>)
    requires i < |mid| && Cut(mid, i) == others
    ensures i <= |others| && Whole(others)[i] == Whole(mid)[i] && Succ(Whole(others), i) == Succ(Whole(mid), i + 1)
  {
  }

  lemma PointPut(policy: Policy, list: seq<Block>, b: Block)
    ensures Insert(policy, list, b) == Put(list, Point(policy, list, b), b)
  {
  }

  lemma LeftIs(m: Mem, y: Block, m': Mem, next: int)
    requires m' == SetNext(SetSize(m, y.at, y.size), y.at, next) && next == GetNext(m, y.at)
    ensures m' == LeftWrites(m, y)
  {
  }

  /** The sizes and ends of the block merged with its right neighbour. */
  lemma RightSizes(policy: Policy, s: State, memSize: int, k: nat, i: nat)
    requires Valid(policy, s, memSize) && k + 1 < |s.layout| && s.layout[k].used && From(s, k) == k && To(s, k) == k + 2
    requires i < |s.list| && s.list[i] == s.layout[k + 1]
    ensures Merged(s, k).at == s.layout[k].at
    ensures Merged(s, k).size == s.layout[k].size + FOOT_SIZE + HEAD_SIZE + s.layout[k + 1].size > s.list[i].size
    ensures s.layout[k + 1].at == Back(s.layout[k])
  {
    TiledInside(s.layout, 0, memSize, k);
    TiledInside(s.layout, 0, memSize, k + 1);
  }

  lemma LeftSizes(policy: Policy, s: State, memSize: int, k: nat, i: nat)
    requires Valid(policy, s, memSize) && 0 < k < |s.layout| && s.layout[k].used && From(s, k) == k - 1 && To(s, k) == k + 1
    requires i < |s.list| && s.list[i] == s.layout[k - 1]
    ensures Merged(s, k).at == s.layout[k - 1].at
    ensures Merged(s, k).size == s.layout[k].size + HEAD_SIZE + FOOT_SIZE + s.layout[k - 1].size > s.list[i].size
    ensures s.layout[k].at == Back(s.layout[k - 1])
  {
    TiledInside(s.layout, 0, memSize, k);
    TiledInside(s.layout, 0, memSize, k - 1);
  }

  /** What re-listing asks for, from the list the merged block stands in. */
  ghost predicate Ready(policy: Policy, s: State, k: nat, mid: seq<Block>, i: nat)
    requires k < |s.layout|
  {
    && Apart(Whole(mid)) && Apart(Whole(Others(s, k))) && Outside(Whole(Others(s, k)), Merged(s, k))
    && (policy == FirstFit ==> Ordered(FirstFit, mid))
    && (policy != FirstFit ==> ScansFrom(policy, Others(s, k), Merged(s, k), i))
  }

  /** Both neighbours free, the right one already unlinked. */
  lemma BothReady(policy: Policy, s: State, memSize: int, k: nat, j: nat, l: nat)
    requires Valid(policy, s, memSize) && 0 < k < |s.layout| - 1 && s.layout[k].used && From(s, k) == k - 1 && To(s, k) == k + 2
    requires j < |s.list| && s.list[j] == s.layout[k + 1]
    requires l < |s.list| - 1 && Cut(s.list, j)[l] == s.layout[k - 1] && Cut(Cut(s.list, j), l) == Others(s, k)
    ensures Ready(policy, s, k, Cut(s.list, j)[l := Merged(s, k)], l)
  {
    hide Tiled, NoTwoFree, Minus, Cut, Apart, Outside, Ordered, Others;
    var y, c := Merged(s, k), Cut(s.list, j);
    CutLength(s.list, j);
    BothSizes(policy, s, memSize, k);
    WholeApart(policy, s, memSize);
    WholeAt(s.list, j);
    CutApart(Whole(s.list), j + 1);
    CutKeepsOrder(policy, s.list, j);
    EndsOf(Whole(c), l + 1);
    WholeAt(c, l);
    SwapReady(c, l, y);
    if policy == FirstFit {
      SameFrontOrder(c, l, y);
    } else {
      ScanFromPlace(policy, c, l, y);
    }
  }

  lemma BothSizes(policy: Policy, s: State, memSize: int, k: nat)
    requires Valid(policy, s, memSize) && 0 < k < |s.layout| - 1 && From(s, k) == k - 1 && To(s, k) == k + 2
    ensures Merged(s, k).at == s.layout[k - 1].at && Back(Merged(s, k)) == Back(s.layout[k + 1])
    ensures Merged(s, k).size ==
            s.layout[k - 1].size + FOOT_SIZE + HEAD_SIZE + s.layout[k].size + FOOT_SIZE + HEAD_SIZE + s.layout[k + 1].size
    ensures Merged(s, k).size > s.layout[k - 1].size
    ensures s.layout[k].at == Back(s.layout[k - 1]) && s.layout[k + 1].at == Back(s.layout[k])
  {
    TiledInside(s.layout, 0, memSize, k - 1);
    TiledInside(s.layout, 0, memSize, k);
    TiledInside(s.layout, 0, memSize, k + 1);
  }

  /** Replacing one list element by a block whose ends no other element has. */
  lemma SwapReady(c: seq<Block>, i: nat, y: Block)
    requires Apart(Whole(c)) && i < |c|
    requires forall b :: b in Whole(c) && b != c[i] ==> b.at != y.at && Back(b) != Back(y)
    ensures Apart(Whole(c[i := y])) && Apart(Whole(Cut(c, i))) && Outside(Whole(Cut(c, i)), y)
  {
    var r, t := Whole(c), Whole(c[i := y]);
    forall a, b | 0 <= a < b < |t| ensures t[a].at != t[b].at && Back(t[a]) != Back(t[b]) {
      assert r[a] in r && r[b] in r && r[a].at != r[b].at;
    }
    WholeAt(c, i);
    CutApart(r, i + 1);
    forall b | b in Cut(r, i + 1) ensures b in r && b != c[i] {
      CutLength(r, i + 1);
    }
  }

  lemma RightReady(policy: Policy, s: State, memSize: int, k: nat, i: nat)
    requires Valid(policy, s, memSize) && k + 1 < |s.layout| && s.layout[k].used && From(s, k) == k && To(s, k) == k + 2
    requires i < |s.list| && s.list[i] == s.layout[k + 1] && Minus(s.list, s.layout[k + 1]) == Cut(s.list, i)
    ensures Ready(policy, s, k, s.list[i := Merged(s, k)], i)
  {
    hide Tiled, NoTwoFree, Minus, Cut, Apart, Ordered, Outside;
    var y := Merged(s, k);
    RightSizes(policy, s, memSize, k, i);
    UsedIsOutside(policy, s, memSize, k);
    OutsideFronts(Whole(s.list), s.layout[k], y);
    EndsOf(Whole(s.list), i + 1);
    WholeAt(s.list, i);
    SwapReady(s.list, i, y);
    if policy == FirstFit {
      FrontMovesBack(policy, s, memSize, k, i, y);
    } else {
      ScanFromPlace(policy, s.list, i, y);
    }
  }

  lemma EndsOf(r: seq<Block>, i: nat)
    requires Apart(r) && i < |r|
    ensures forall b :: b in r && b != r[i] ==> b.at != r[i].at && Back(b) != Back(r[i])
  {
  }

  /** By address, the released block stands where its right neighbour stood: no free block lies between. */
  lemma FrontMovesBack(policy: Policy, s: State, memSize: int, k: nat, i: nat, y: Block)
    requires Valid(FirstFit, s, memSize) && k + 1 < |s.layout| && s.layout[k].used
    requires i < |s.list| && s.list[i] == s.layout[k + 1] && y.at == s.layout[k].at
    ensures Ordered(FirstFit, s.list[i := y])
  {
    hide Tiled, NoTwoFree;
    TiledDisjoint(s.layout, 0, memSize);
    TiledApart(s.layout, 0, memSize, k, k + 1);
    TiledInside(s.layout, 0, memSize, k);
    var r := s.list[i := y];
    assert s.layout[k] in s.layout && s.list[i] in s.list;
    forall a, b | 0 <= a < b < |r| ensures InOrder(FirstFit, r[a], r[b]) {
      assert InOrder(FirstFit, s.list[a], s.list[b]);
      assert s.list[a] in s.list && s.list[b] in s.list;
    }
  }

  lemma LeftReady(policy: Policy, s: State, memSize: int, k: nat, i: nat)
    requires Valid(policy, s, memSize) && 0 < k < |s.layout| && s.layout[k].used && From(s, k) == k - 1 && To(s, k) == k + 1
    requires i < |s.list| && s.list[i] == s.layout[k - 1] && Minus(s.list, s.layout[k - 1]) == Cut(s.list, i)
    ensures Ready(policy, s, k, s.list[i := Merged(s, k)], i)
  {
    hide Tiled, NoTwoFree, Minus, Cut, Apart, Outside;
    var y := Merged(s, k);
    LeftSizes(policy, s, memSize, k, i);
    UsedIsOutside(policy, s, memSize, k);
    OutsideBacks(Whole(s.list), s.layout[k], y);
    EndsOf(Whole(s.list), i + 1);
    WholeAt(s.list, i);
    SwapReady(s.list, i, y);
    if policy == FirstFit {
      SameFrontOrder(s.list, i, y);
    } else {
      ScanFromPlace(policy, s.list, i, y);
    }
  }

  lemma SameFrontOrder(list: seq<Block>, i: nat, y: Block)
    requires Ordered(FirstFit, list) && i < |list| && y.at == list[i].at
    ensures Ordered(FirstFit, list[i := y])
  {
    var r := list[i := y];
    forall a, b | 0 <= a < b < |r| ensures InOrder(FirstFit, r[a], r[b]) {
      assert InOrder(FirstFit, list[a], list[b]);
    }
  }

  lemma SameAround(list: seq<Block>, i: nat, y: Block)
    requires i < |list|
    ensures Whole(list[i := y])[i] == Whole(list)[i] && Succ(Whole(list[i := y]), i + 1) == Succ(Whole(list), i + 1)
  {
  }

  lemma PlacesOf(policy: Policy, s: State, memSize: int, k: nat) returns (i: nat, j: nat)
    requires Valid(policy, s, memSize) && 0 < k < |s.layout| - 1 && From(s, k) == k - 1 && To(s, k) == k + 2
    ensures i < |s.list| && s.list[i] == s.layout[k - 1] && j < |s.list| && s.list[j] == s.layout[k + 1]
  {
    hide Tiled, NoTwoFree, Ordered;
    i := PlaceOf(policy, s, memSize, k - 1);
    j := PlaceOf(policy, s, memSize, k + 1);
  }

  lemma MergedInCut(m: Mem, s: State, k: nat, y: Block, c: seq<Block>, l: nat, right: int)
    requires k + 1 < |s.layout| && right == s.layout[k + 1].at && l < |c| && y == Merged(s, k)
    requires MergedIn(LeftWrites(ListDel(m, s.layout[k + 1].at), Merged(s, k)), s, k, c[l := Merged(s, k)], l)
    ensures MergedIn(LeftWrites(ListDel(m, right), y), s, k, c[l := y], l)
    ensures Cut(c, l) == Others(s, k)
  {
    hide Ring, Fields, Merged, Others;
    SwapCut(c, l, y);
  }

  lemma Place(policy: Policy, s: State, memSize: int, k: nat)
    requires Valid(policy, s, memSize) && k < |s.layout|
    ensures k > 0 ==> s.layout[k].at == Back(s.layout[k - 1])
    ensures k + 1 < |s.layout| ==> s.layout[k + 1].at == Back(s.layout[k])
    ensures (k == 0 <==> s.layout[k].at == 0) && (k == |s.layout| - 1 <==> Back(s.layout[k]) == memSize)
    ensures s.layout[k].size > 0
  {
    PlaceFacts(s.layout, memSize, k);
    TiledInside(s.layout, 0, memSize, k);
  }

  /** Neither neighbour free: only the tag changes before the block is linked. */
  lemma PlainRep(policy: Policy, s: State, memSize: int, m: Mem, k: nat)
    requires Valid(policy, s, memSize) && Fields(m, s.layout) && Ring(m, Whole(s.list))
    requires k < |s.layout| && s.layout[k].used && From(s, k) == k && To(s, k) == k + 1
    ensures var b := s.layout[k]; var y := Merged(s, k); var m' := SetTag(m, b.at, false);
            && y == Block(b.at, b.size, false) && Others(s, k) == s.list
            && Fields(m', s.layout[..k] + [y] + s.layout[k + 1..]) && Ring(m', Whole(s.list))
            && Apart(Whole(s.list)) && Outside(Whole(s.list), y) && At(m'.size, y.at) == y.size
  {
    hide Ring, Apart, Tiled, NoTwoFree, Ordered;
    var b, y := s.layout[k], Merged(s, k);
    UsedIsOutside(policy, s, memSize, k);
    RingTag(m, Whole(s.list), b.at, false);
    FreeTag(m, s.layout, k);
    Around(s.layout, memSize, k);
    TiledDisjoint(s.layout, 0, memSize);
    FieldsAfter(m, SetTag(m, b.at, false), s.layout[..k], [b], [y], s.layout[k + 1..]);
  }

  // ----- the allocator -----

  class Allocator {
    const policy: Policy
    const memSize: int
    var mem: Mem
    ghost var s: State

    ghost predicate Rep()
      reads this
    {
      Valid(policy, s, memSize) && Fields(mem, s.layout) && Ring(mem, Whole(s.list))
    }

    constructor (fit: Policy, size: int)
      requires size > OVERHEAD
      ensures Rep() && policy == fit && memSize == size && s == State([Single(size)], [Single(size)])
    {
      policy, memSize := fit, size;
      mem := InitWrites(Mem(map[], map[], map[], map[], map[]), size);
      s := State([Single(size)], [Single(size)]);
      InitRep(fit, size, Mem(map[], map[], map[], map[], map[]));
    }

    /** Links p into the list, scanning from a given element in the policy's direction. */
    method ListAdd(p: int, from: int, ghost b: Block, ghost list: seq<Block>, ghost i: nat)
      requires Ring(mem, Whole(list)) && Apart(Whole(list)) && Outside(Whole(list), b)
      requires b.at == p && At(mem.size, p) == b.size && i <= |list|
      requires from == if policy == WorstFit then Succ(Whole(list), i).at else Whole(list)[i].at
      modifies `mem
      ensures SameBlocks(old(mem), mem)
      ensures Ring(mem, Whole(Put(list, if policy == WorstFit then PointBefore(list, b, i) else PointAfter(policy, list, b, i), b)))
    {
      hide Ring, Apart, Outside, Put, ListAddBefore, ListAddAfter, Succ;
      ghost var r := Whole(list);
      ghost var j := i;
      ghost var m := mem;
      if policy == WorstFit {
        StepBack(mem, r, i);
        var pos := GetPrev(mem, from);
        while pos != HEAD.at && !(GetSize(mem, pos) >= GetSize(mem, p))
          invariant mem == m && 0 <= j <= i && pos == r[j].at && PointBefore(list, b, i) == PointBefore(list, b, j)
          decreases j
        {
          NotHead(r, j);
          StepBack(mem, r, j - 1);
          LinkAt(mem, r, j);
          pos := GetPrev(mem, pos);
          j := j - 1;
          StepForward(r, j);
        }
        NotHead(r, j);
        LinkAt(mem, r, j);
        ListAddPuts(mem, r, j + 1, b);
        mem := ListAddAfter(mem, p, pos);
      } else {
        RingNeighbours(mem, r, i);
        var pos := GetNext(mem, from);
        while pos != HEAD.at && !(if policy == FirstFit then pos - p > 0 else GetSize(mem, pos) >= GetSize(mem, p))
          invariant mem == m && i <= j <= |list| && pos == Succ(r, j).at && PointAfter(policy, list, b, i) == PointAfter(policy, list, b, j)
          decreases |list| - j
        {
          LastIsHead(r, j);
          StepForward(r, j);
          RingNeighbours(mem, r, j + 1);
          LinkAt(mem, r, j + 1);
          pos := GetNext(mem, pos);
          j := j + 1;
        }
        SuccNotHead(r, j);
        if j < |list| {
          StepForward(r, j);
          LinkAt(mem, r, j + 1);
        }
        ListAddPuts(mem, r, j + 1, b);
        mem := ListAddBefore(mem, p, pos);
      }
      WholePut(list, j, b);
    }

    /** The front of the block to take, or the head's when none fits; also how many were looked at. */
    method Find(n: int) returns (front: int, steps: nat, ghost i: nat)
      requires Rep() && n > 0
      ensures i == Choice(policy, s.list, n)
      ensures front == if i < |s.list| then s.list[i].at else HEAD.at
      ensures steps == if policy == WorstFit then 1 else if i < |s.list| then i + 1 else |s.list|
    {
      hide Ring, Fields, Valid, Succ, Apart;
      WholeApart(policy, s, memSize);
      ghost var r := Whole(s.list);
      RingNeighbours(mem, r, 0);
      SuccNotHead(r, 0);
      StepForward(r, 0);
      LastIsHead(r, 0);
      i, steps := 0, 0;
      front := GetNext(mem, HEAD.at);
      if policy == WorstFit {
        steps := 1;
        if front != HEAD.at {
          LinkAt(mem, r, 1);
        }
        if front == HEAD.at || GetSize(mem, front) < n {
          front, i := HEAD.at, |s.list|;
        }
      } else {
        while front != HEAD.at
          invariant 0 <= i <= |s.list| && steps == i && front == Succ(r, i).at
          invariant Choice(policy, s.list, n) == i + Choice(policy, s.list[i..], n)
          decreases |s.list| - i
        {
          SuccNotHead(r, i);
          StepForward(r, i);
          LinkAt(mem, r, i + 1);
          steps := steps + 1;
          if GetSize(mem, front) >= n {
            return;
          }
          assert s.list[i..][1..] == s.list[i + 1..];
          RingNeighbours(mem, r, i + 1);
          front := GetNext(mem, front);
          i := i + 1;
        }
        SuccNotHead(r, i);
      }
    }

    /** Unlinks a block and marks it used. */
    method TakeWhole(front: int, ghost i: nat, ghost k: nat, ghost n: int)
      requires Rep() && n > 0 && i < |s.list| && front == s.list[i].at && s.list[i].size >= n && Fits(s.list[i], n)
      requires k < |s.layout| && s.layout[k] == s.list[i] && s.list[i] in s.layout && k == IndexOf(s.layout, s.list[i])
      modifies `mem, `s
      ensures Rep() && s == Taken(policy, old(s), i, k, n)
    {
      hide Ring, Fields, Valid, Taken, ListDel;
      TakeWholeRep(policy, s, memSize, mem, i, k, n);
      TakenKeeps(policy, s, memSize, i, n);
      mem := ListDel(mem, front);
      mem := SetTag(mem, front, true);
      s := Taken(policy, s, i, k, n);
    }

    /** Cuts n bytes off the block p: the tags and sizes of both parts. */
    method CutInTwo(front: int, n: int, ghost p: Block) returns (rest: int)
      requires front == p.at && GetSize(mem, front) == p.size && !Fits(p, n)
      modifies `mem
      ensures rest == Rest(p, n).at && mem == Parted(old(mem), Given(p, n), Rest(p, n))
    {
      var size := GetSize(mem, front);
      mem := SetSize(mem, front, n);
      mem := SetTag(mem, front, true);
      rest := GetBack(mem, front);
      mem := SetSize(mem, rest, size - n - FOOT_SIZE - HEAD_SIZE);
      mem := SetTag(mem, rest, false);
    }

    /** Takes the element at place i out of the list and links it where the policy by size wants it. */
    method MoveInList(front: int, ghost list: seq<Block>, ghost i: nat)
      requires policy != FirstFit && i < |list| && front == list[i].at && At(mem.size, front) == list[i].size
      requires Ring(mem, Whole(list)) && Apart(Whole(list)) && Apart(Whole(Cut(list, i))) && Outside(Whole(Cut(list, i)), list[i])
      modifies `mem
      ensures SameBlocks(old(mem), mem) && Ring(mem, Whole(Insert(policy, Cut(list, i), list[i])))
    {
      hide Ring, Apart, Outside, Insert, Cut, Put, ListDel, Succ;
      WholeAt(list, i);
      ListDelCuts(mem, Whole(list), i + 1);
      ghost var c := Cut(list, i);
      HeadOfList(c);
      mem := ListDel(mem, front);
      ListAdd(front, HEAD.at, list[i], c, if policy == WorstFit then |c| else 0);
      InsertAtPoint(policy, c, list[i]);
    }

    /** Cuts n bytes off a block; the rest takes its place in the list, and then the place its policy wants. */
    method Split(front: int, n: int, ghost i: nat, ghost k: nat)
      requires Rep() && n > 0 && i < |s.list| && front == s.list[i].at && s.list[i].size >= n && !Fits(s.list[i], n)
      requires k < |s.layout| && s.layout[k] == s.list[i] && s.list[i] in s.layout && k == IndexOf(s.layout, s.list[i])
      modifies `mem, `s
      ensures Rep() && s == Taken(policy, old(s), i, k, n)
    {
      hide Ring, Fields, Valid, Apart, Outside, Succ, Insert, Cut, Parted, SetNext, SetPrev, IndexOf;
      ghost var p := s.list[i];
      ghost var u, q, blocks := Given(p, n), Rest(p, n), s.layout[..k] + [Given(p, n), Rest(p, n)] + s.layout[k + 1..];
      WholeAt(s.list, i);
      RingNeighbours(mem, Whole(s.list), i + 1);
      SplitRep(policy, s, memSize, mem, i, k, n);
      TakenKeeps(policy, s, memSize, i, n);
      var prev, next := GetPrev(mem, front), GetNext(mem, front);
      var rest := CutInTwo(front, n, p);
      mem := SetNext(mem, prev, rest);
      mem := SetPrev(mem, rest, prev);
      mem := SetPrev(mem, next, rest);
      mem := SetNext(mem, rest, next);
      if policy != FirstFit {
        SplitMid(policy, s, memSize, i, n);
        SwapCut(s.list, i, q);
        RestSize(mem, blocks, k, u, q);
        ghost var m := mem;
        MoveInList(rest, s.list[i := q], i);
        SameFields(m, mem, blocks);
      }
      s := Taken(policy, s, i, k, n);
    }

    /**
     * Gives n bytes of the free block the policy chooses; nothing when no free block is that large.
     */
    method Request(n: int) returns (p: Pointer, steps: nat)
      requires Rep()
      modifies `mem, `s
      ensures Rep()
      ensures p == Null <==> n <= 0 || forall b :: b in old(s.layout) && !b.used ==> b.size < n
      ensures p.User? ==> Granted(policy, old(s.layout), n, p.at, s.layout)
      ensures n <= 0 || Choice(policy, old(s.list), n) == |old(s.list)| ==> p == Null && mem == old(mem) && s == old(s)
      ensures n > 0 && Choice(policy, old(s.list), n) < |old(s.list)| ==>
                var i := Choice(policy, old(s.list), n);
                old(s.list)[i] in old(s.layout) && p == User(old(s.list)[i].at + HEAD_SIZE) &&
                s == Taken(policy, old(s), i, IndexOf(old(s.layout), old(s.list)[i]), n)
      ensures steps == if n <= 0 then 0 else if policy == WorstFit then 1
                       else if Choice(policy, old(s.list), n) < |old(s.list)| then Choice(policy, old(s.list), n) + 1
                       else |old(s.list)|
    {
      hide Ring, Fields, Valid, Taken, Granted, Choice;
      if n <= 0 {
        return Null, 0;
      }
      RefusedExactly(policy, s, memSize, n);
      ghost var i;
      var front;
      front, steps, i := Find(n);
      if front == HEAD.at {
        ListIsNotHead(policy, s, memSize, i);
        return Null, steps;
      }
      ListedPlaces(policy, s, memSize, i);
      ghost var k := IndexOf(s.layout, s.list[i]);
      FrontSize(policy, s, memSize, mem, i);
      TakenIsGranted(policy, s, memSize, n);
      if GetSize(mem, front) < n + HEAD_SIZE + FOOT_SIZE + 1 {
        TakeWhole(front, i, k, n);
      } else {
        Split(front, n, i, k);
      }
      p := User(front + HEAD_SIZE);
    }

    /** Links the merged block anew when the policy goes by size; first fit leaves it where it stands. */
    method Relist(front: int, from: int, ghost k: nat, ghost mid: seq<Block>, ghost i: nat)
      requires Valid(policy, s, memSize) && k < |s.layout| && s.layout[k].used && MergedIn(mem, s, k, mid, i)
      requires front == Merged(s, k).at && Ready(policy, s, k, mid, i)
      requires from == if policy == WorstFit then Succ(Whole(mid), i + 1).at else Whole(mid)[i].at
      modifies `mem, `s
      ensures Rep() && s == Released(policy, old(s), k)
    {
      hide Ring, Fields, Valid, Apart, Outside, Insert, Cut, Put, Point, Others, Merged, Ordered, ListDel, Succ, From, To;
      ReleasedIs(policy, s, k);
      MergedAmong(s, k);
      ghost var y := Merged(s, k);
      ghost var blocks := s.layout[..From(s, k)] + [y] + s.layout[To(s, k)..];
      ReleasedKeeps(policy, s, memSize, k);
      if policy == FirstFit {
        InPlaceIsInsert(mid, i);
      } else {
        WholeAt(mid, i);
        ListDelCuts(mem, Whole(mid), i + 1);
        ghost var m := mem;
        mem := ListDel(mem, front);
        SameFields(m, mem, blocks);
        FreeTag(mem, blocks, From(s, k));
        ghost var m1 := mem;
        FromStays(mid, i, Others(s, k));
        ListAdd(front, from, y, Others(s, k), i);
        SameFields(m1, mem, blocks);
        PointPut(policy, Others(s, k), y);
      }
      s := Released(policy, s, k);
    }

    /** The writes that put the block at front, now of the given size, in the place between prev and next. */
    method TakePlace(front: int, size: int, prev: int, next: int, ghost y: Block)
      requires y.at == front && y.size == size
      modifies `mem
      ensures mem == RightWrites(old(mem), y, prev, next)
    {
      mem := SetSize(mem, front, size);
      mem := SetPrev(mem, front, prev);
      mem := SetTag(mem, front, false);
      if GetPrev(mem, prev) == GetNext(mem, prev) {
        mem := SetPrev(mem, prev, front);
      }
      mem := SetNext(mem, prev, front);
      mem := SetPrev(mem, next, front);
    }

    /** The block to the right is free: the released block takes its place and its footer. */
    method MergeRight(front: int, right: int, ghost k: nat)
      requires Rep() && k + 1 < |s.layout| && s.layout[k].used && From(s, k) == k && To(s, k) == k + 2
      requires front == s.layout[k].at && right == s.layout[k + 1].at
      modifies `mem, `s
      ensures Rep() && s == Released(policy, old(s), k)
    {
      hide Ring, Fields, Valid, Apart, Outside, Others, Merged, Ordered, Succ, RightWrites, Minus, Cut, Released;
      ghost var i := PlaceOf(policy, s, memSize, k + 1);
      ghost var y, r := Merged(s, k), Whole(s.list);
      RightSizes(policy, s, memSize, k, i);
      WholeAt(s.list, i);
      RingNeighbours(mem, r, i + 1);
      FreeTag(mem, s.layout, k);
      RightRep(policy, s, memSize, mem, k, i);
      var size, rightSize := GetSize(mem, front), GetSize(mem, right);
      var prev, next := GetPrev(mem, right), GetNext(mem, right);
      TakePlace(front, size + FOOT_SIZE + HEAD_SIZE + rightSize, prev, next, y);
      RightReady(policy, s, memSize, k, i);
      SameAround(s.list, i, y);
      Relist(front, if policy == WorstFit then next else prev, k, s.list[i := y], i);
    }

    /** The block to the left is free: it grows over the released one. */
    method MergeLeft(front: int, left: int, ghost k: nat)
      requires Rep() && 0 < k < |s.layout| && s.layout[k].used && From(s, k) == k - 1 && To(s, k) == k + 1
      requires front == s.layout[k].at && left == s.layout[k - 1].at
      modifies `mem, `s
      ensures Rep() && s == Released(policy, old(s), k)
    {
      hide Ring, Fields, Valid, Apart, Outside, Others, Merged, Ordered, Succ, LeftWrites, Minus, Cut, Released;
      ghost var i := PlaceOf(policy, s, memSize, k - 1);
      ghost var y, r := Merged(s, k), Whole(s.list);
      LeftSizes(policy, s, memSize, k, i);
      WholeAt(s.list, i);
      RingNeighbours(mem, r, i + 1);
      FreeTag(mem, s.layout, k);
      LeftRep(policy, s, memSize, mem, k, i);
      ghost var m := mem;
      var size, leftSize := GetSize(mem, front), GetSize(mem, left);
      var prev, next := GetPrev(mem, left), GetNext(mem, left);
      mem := SetSize(mem, left, size + HEAD_SIZE + FOOT_SIZE + leftSize);
      mem := SetNext(mem, left, next);
      LeftIs(m, y, mem, next);
      LeftReady(policy, s, memSize, k, i);
      SameAround(s.list, i, y);
      Relist(left, if policy == WorstFit then next else prev, k, s.list[i := y], i);
    }

    /** Both neighbours are free: the right one is unlinked and the left one grows over both. */
    method MergeBoth(front: int, left: int, right: int, ghost k: nat)
      requires Rep() && 0 < k < |s.layout| - 1 && s.layout[k].used && From(s, k) == k - 1 && To(s, k) == k + 2
      requires front == s.layout[k].at && left == s.layout[k - 1].at && right == s.layout[k + 1].at
      modifies `mem, `s
      ensures Rep() && s == Released(policy, old(s), k)
    {
      hide Ring, Fields, Valid, Apart, Outside, Others, Merged, Ordered, Succ, LeftWrites, Minus, Cut, Released, ListDel, From, To;
      ghost var i, j := PlacesOf(policy, s, memSize, k);
      ghost var y, c := Merged(s, k), Cut(s.list, j);
      BothSizes(policy, s, memSize, k);
      FreeTag(mem, s.layout, k);
      FreeTag(mem, s.layout, k - 1);
      FreeTag(mem, s.layout, k + 1);
      ghost var l := BothRep(policy, s, memSize, mem, k, i, j);
      CutLength(s.list, j);
      MergedInCut(mem, s, k, y, c, l, right);
      BothReady(policy, s, memSize, k, j, l);
      RightUnlinked(policy, s, memSize, mem, k, j);
      WholeAt(c, l);
      SameAround(c, l, y);
      var size, rightSize, leftSize := GetSize(mem, front), GetSize(mem, right), GetSize(mem, left);
      mem := ListDel(mem, right);
      RingNeighbours(mem, Whole(c), l + 1);
      ghost var m := mem;
      var next, prev := GetNext(mem, left), GetPrev(mem, left);
      mem := SetSize(mem, left, leftSize + FOOT_SIZE + HEAD_SIZE + size + FOOT_SIZE + HEAD_SIZE + rightSize);
      mem := SetNext(mem, left, next);
      LeftIs(m, y, mem, next);
      Relist(left, if policy == WorstFit then next else prev, k, c[l := y], l);
    }

    /** Gives a block back: it is merged with its free neighbours and linked where its policy wants it. */
    method Release(p: Pointer, ghost k: nat)
      requires Rep()
      requires p.User? ==> k < |s.layout| && s.layout[k].used && p.at == s.layout[k].at + HEAD_SIZE
      modifies `mem, `s
      ensures Rep()
      ensures p == Null ==> mem == old(mem) && s == old(s)
      ensures p.User? ==> s == Released(policy, old(s), k)
      ensures p.User? ==> UsedIn(s.layout) == UsedIn(old(s.layout)) - {old(s.layout)[k]}
    {
      hide Ring, Fields, Valid, Apart, Outside, Ordered, Released, UsedIn;
      if p == Null {
        return;
      }
      ReleasedFrees(policy, s, memSize, k);
      var front := p.at - HEAD_SIZE;
      Place(policy, s, memSize, k);
      FreeTag(mem, s.layout, k);
      var first, last := front == 0, GetBack(mem, front) == memSize;
      if first && last {
        OnlyBlock(policy, s, memSize);
        InitRep(policy, memSize, mem);
        mem := InitWrites(mem, memSize);
        s := State([Single(memSize)], [Single(memSize)]);
        return;
      }
      var leftFree, rightFree := false, false;
      var left, right := GetFrontBack(mem, front), GetBack(mem, front);
      if !first {
        FreeTag(mem, s.layout, k - 1);
        leftFree := !IsUsed(mem, left);
      }
      if !last {
        FreeTag(mem, s.layout, k + 1);
        rightFree := !IsUsed(mem, right);
      }
      if leftFree && !rightFree {
        MergeLeft(front, left, k);
      } else if !leftFree && rightFree {
        MergeRight(front, right, k);
      } else if leftFree && rightFree {
        MergeBoth(front, left, right, k);
      } else {
        PlainRep(policy, s, memSize, mem, k);
        ghost var m := mem;
        mem := SetTag(mem, front, false);
        HeadOfList(s.list);
        ListAdd(front, HEAD.at, Merged(s, k), s.list, if policy == WorstFit then |s.list| else 0);
        SameFields(SetTag(m, front, false), mem, s.layout[..k] + [Merged(s, k)] + s.layout[k + 1..]);
        InsertAtPoint(policy, s.list, Merged(s, k));
        ReleasedKeeps(policy, s, memSize, k);
        ReleasedIs(policy, s, k);
        s := Released(policy, s, k);
      }
    }
  }
}
