/**
 * The arena of the three allocators: blocks with a header (previous pointer, tag, size) and a
 * footer (size, next pointer), laid end to end, and the circular free list threaded through them.
 * The next pointer lives in the footer, so it moves when a block's size changes.
 */
module MemArena {
  const HEAD_SIZE := 13
  const FOOT_SIZE := 12

  datatype Block = Block(at: int, size: int, used: bool)

  /** Where the block after this one starts. */
  function Back(b: Block): int {
    b.at + HEAD_SIZE + b.size + FOOT_SIZE
  }

  /** The list head is a block of size 0 that ends where the arena begins. */
  const HEAD := Block(-(HEAD_SIZE + FOOT_SIZE), 0, false)

  /** Header fields by the offset of the front, footer fields by the offset of the back. */
  datatype Mem = Mem(prev: map<int, int>, tag: map<int, bool>, size: map<int, int>, footer: map<int, int>, next: map<int, int>)

  function At(m: map<int, int>, x: int): int {
    if x in m then m[x] else 0
  }

  function GetSize(m: Mem, front: int): int {
    At(m.size, front)
  }

  function GetBack(m: Mem, front: int): int {
    front + HEAD_SIZE + GetSize(m, front) + FOOT_SIZE
  }

  function GetPrev(m: Mem, front: int): int {
    At(m.prev, front)
  }

  function GetNext(m: Mem, front: int): int {
    At(m.next, GetBack(m, front))
  }

  predicate IsUsed(m: Mem, front: int) {
    front in m.tag && m.tag[front]
  }

  /** The front of the block that ends at the given offset, found through its footer. */
  function GetFrontBack(m: Mem, back: int): int {
    back - FOOT_SIZE - At(m.footer, back) - HEAD_SIZE
  }

  function SetPrev(m: Mem, front: int, prev: int): Mem {
    m.(prev := m.prev[front := prev])
  }

  function SetTag(m: Mem, front: int, used: bool): Mem {
    m.(tag := m.tag[front := used])
  }

  function SetSize(m: Mem, front: int, size: int): Mem {
    m.(size := m.size[front := size], footer := m.footer[front + HEAD_SIZE + size + FOOT_SIZE := size])
  }

  function SetNext(m: Mem, front: int, next: int): Mem {
    m.(next := m.next[GetBack(m, front) := next])
  }

  // ----- layout -----

  predicate Disjoint(b: Block, c: Block) {
    Back(b) <= c.at || Back(c) <= b.at
  }

  /** Blocks laid end to end from one offset to another. */
  predicate Tiled(blocks: seq<Block>, from: int, to: int) {
    if blocks == [] then from == to
    else blocks[0].at == from && blocks[0].size > 0 && Tiled(blocks[1..], Back(blocks[0]), to)
  }

  function Total(blocks: seq<Block>): int {
    if blocks == [] then 0 else blocks[0].size + Total(blocks[1..])
  }

  /** Nothing is lost: user sizes and the overhead of every block add up to the whole. */
  lemma {:induction false} TiledTotal(blocks: seq<Block>, from: int, to: int)
    requires Tiled(blocks, from, to)
    ensures Total(blocks) + |blocks| * (HEAD_SIZE + FOOT_SIZE) == to - from
  {
    if blocks != [] {
      TiledTotal(blocks[1..], Back(blocks[0]), to);
    }
  }

  lemma {:induction false} TiledSplit(a: seq<Block>, b: seq<Block>, from: int, to: int)
    ensures Tiled(a + b, from, to) <==> exists mid :: Tiled(a, from, mid) && Tiled(b, mid, to)
  {
    if a == [] {
      assert a + b == b;
      assert Tiled(a, from, from);
    } else {
      TiledSplit(a[1..], b, Back(a[0]), to);
      assert (a + b)[1..] == a[1..] + b;
    }
  }

  lemma {:induction false} TiledInside(blocks: seq<Block>, from: int, to: int, i: nat)
    requires Tiled(blocks, from, to) && i < |blocks|
    ensures from <= blocks[i].at && Back(blocks[i]) <= to && blocks[i].size > 0
    ensures i == 0 ==> blocks[i].at == from
    ensures i == |blocks| - 1 <==> Back(blocks[i]) == to
    ensures i + 1 < |blocks| ==> blocks[i + 1].at == Back(blocks[i])
  {
    if i > 0 {
      TiledInside(blocks[1..], Back(blocks[0]), to, i - 1);
    } else if |blocks| > 1 {
      TiledInside(blocks[1..], Back(blocks[0]), to, 0);
    }
  }

  lemma {:induction false} TiledApart(blocks: seq<Block>, from: int, to: int, i: nat, j: nat)
    requires Tiled(blocks, from, to) && i < j < |blocks|
    ensures Back(blocks[i]) <= blocks[j].at
  {
    if i == 0 {
      TiledInside(blocks[1..], Back(blocks[0]), to, j - 1);
    } else {
      TiledApart(blocks[1..], Back(blocks[0]), to, i - 1, j - 1);
    }
  }

  /** Different blocks of a layout do not overlap. */
  lemma TiledDisjoint(blocks: seq<Block>, from: int, to: int)
    requires Tiled(blocks, from, to)
    ensures forall b, c :: b in blocks && c in blocks && b != c ==> Disjoint(b, c)
    ensures forall b :: b in blocks ==> from <= b.at && b.size > 0
  {
    forall b, c | b in blocks && c in blocks && b != c ensures Disjoint(b, c) {
      var i :| 0 <= i < |blocks| && blocks[i] == b;
      var j :| 0 <= j < |blocks| && blocks[j] == c;
      if i < j {
        TiledApart(blocks, from, to, i, j);
      } else {
        TiledApart(blocks, from, to, j, i);
      }
    }
    forall b | b in blocks ensures from <= b.at && b.size > 0 {
      var i :| 0 <= i < |blocks| && blocks[i] == b;
      TiledInside(blocks, from, to, i);
    }
  }

  /** Header and footer of every block say what the layout says. */
  predicate Fields(m: Mem, blocks: seq<Block>) {
    forall b :: b in blocks ==>
      b.at in m.size && m.size[b.at] == b.size && Back(b) in m.footer && m.footer[Back(b)] == b.size &&
      b.at in m.tag && m.tag[b.at] == b.used
  }

  // ----- the ring -----

  function Succ(r: seq<Block>, i: nat): Block
    requires i < |r|
  {
    if i + 1 < |r| then r[i + 1] else r[0]
  }

  /** The first block points forwards to the second, and the second back to the first. */
  predicate Linked(m: Mem, b: Block, c: Block) {
    At(m.next, Back(b)) == c.at && At(m.prev, c.at) == b.at
  }

  /** The blocks are linked in this order, round to the first, and their headers give their sizes. */
  predicate Ring(m: Mem, r: seq<Block>) {
    && (forall i {:trigger Succ(r, i)} :: 0 <= i < |r| ==> Linked(m, r[i], Succ(r, i)))
    && forall b :: b in r ==> At(m.size, b.at) == b.size
  }

  /** No two blocks share a front or a back. */
  predicate Apart(r: seq<Block>) {
    forall i, j :: 0 <= i < j < |r| ==> r[i].at != r[j].at && Back(r[i]) != Back(r[j])
  }

  lemma RingNeighbours(m: Mem, r: seq<Block>, i: nat)
    requires Ring(m, r) && i < |r|
    ensures GetSize(m, r[i].at) == r[i].size && GetBack(m, r[i].at) == Back(r[i])
    ensures GetNext(m, r[i].at) == Succ(r, i).at
    ensures i > 0 ==> GetPrev(m, r[i].at) == r[i - 1].at
    ensures i == 0 ==> GetPrev(m, r[0].at) == r[|r| - 1].at
  {
    if i > 0 {
      assert Succ(r, i - 1) == r[i];
    } else {
      assert Succ(r, |r| - 1) == r[0];
    }
  }

  /** The ring with its element i taken out. */
  function Cut(r: seq<Block>, i: nat): seq<Block>
    requires i < |r|
  {
    r[..i] + r[i + 1..]
  }

  function Put(r: seq<Block>, i: nat, b: Block): seq<Block>
    requires i <= |r|
  {
    r[..i] + [b] + r[i..]
  }

  function ListDel(m: Mem, p: int): Mem {
    var m1 := SetPrev(m, GetNext(m, p), GetPrev(m, p));
    SetNext(m1, GetPrev(m1, p), GetNext(m1, p))
  }

  function ListAddBefore(m: Mem, p: int, pos: int): Mem {
    var m1 := SetNext(m, p, pos);
    var m2 := SetPrev(m1, p, GetPrev(m1, pos));
    var m3 := SetNext(m2, GetPrev(m2, pos), p);
    SetPrev(m3, pos, p)
  }

  function ListAddAfter(m: Mem, p: int, pos: int): Mem {
    var m1 := SetNext(m, p, GetNext(m, pos));
    var m2 := SetPrev(m1, p, pos);
    var m3 := SetPrev(m2, GetNext(m2, pos), p);
    SetNext(m3, pos, p)
  }

  /** What an update of links leaves alone. */
  predicate SameBlocks(m: Mem, m': Mem) {
    m'.size == m.size && m'.footer == m.footer && m'.tag == m.tag
  }

  lemma CutPairs(r: seq<Block>, i: nat, k: nat) returns (j: nat)
    requires 0 < i < |r| && k < |r| - 1
    ensures j < |r| && Cut(r, i)[k] == r[j] && j != i
    ensures if k == i - 1 then j == i - 1 && Succ(Cut(r, i), k) == Succ(r, i) else j != i - 1 && Succ(Cut(r, i), k) == Succ(r, j)
  {
    j := if k < i then k else k + 1;
  }

  lemma PutPairs(r: seq<Block>, i: nat, b: Block, k: nat) returns (j: nat)
    requires 0 < i <= |r| && k <= |r|
    ensures j < |r|
    ensures if k == i - 1 then j == i - 1 && Put(r, i, b)[k] == r[j] && Succ(Put(r, i, b), k) == b
            else if k == i then j == i - 1 && Put(r, i, b)[k] == b && Succ(Put(r, i, b), k) == Succ(r, j)
            else j != i - 1 && Put(r, i, b)[k] == r[j] && Succ(Put(r, i, b), k) == Succ(r, j)
  {
    j := if k < i then k else k - 1;
  }

  /** Successors of different places are at different fronts. */
  lemma SuccApart(r: seq<Block>, i: nat, j: nat)
    requires Apart(r) && i < |r| && j < |r| && i != j
    ensures Succ(r, i).at != Succ(r, j).at && Back(r[i]) != Back(r[j])
  {
  }

  /** A ring without one element, when its neighbours have been linked and the other links kept. */
  lemma RingCut(m: Mem, m': Mem, r: seq<Block>, i: nat)
    requires Ring(m, r) && 0 < i < |r| && m'.size == m.size
    requires Linked(m', r[i - 1], Succ(r, i))
    requires forall k :: 0 <= k < |r| && k != i - 1 && k != i ==> Linked(m', r[k], Succ(r, k))
    ensures Ring(m', Cut(r, i))
  {
    hide Linked, Cut, Succ;
    var c := Cut(r, i);
    CutLength(r, i);
    forall k | 0 <= k < |c| ensures Linked(m', c[k], Succ(c, k)) {
      var j := CutPairs(r, i, k);
    }
  }

  lemma CutLength(r: seq<Block>, i: nat)
    requires i < |r|
    ensures |Cut(r, i)| == |r| - 1 && forall b :: b in Cut(r, i) ==> b in r
  {
  }

  lemma PutLength(r: seq<Block>, i: nat, b: Block)
    requires i <= |r|
    ensures |Put(r, i, b)| == |r| + 1 && forall c :: c in Put(r, i, b) <==> c in r || c == b
  {
  }

  lemma RingPut(m: Mem, m': Mem, r: seq<Block>, i: nat, b: Block)
    requires Ring(m, r) && 0 < i <= |r| && m'.size == m.size && At(m.size, b.at) == b.size
    requires Linked(m', r[i - 1], b) && Linked(m', b, Succ(r, i - 1))
    requires forall k :: 0 <= k < |r| && k != i - 1 ==> Linked(m', r[k], Succ(r, k))
    ensures Ring(m', Put(r, i, b))
  {
    hide Linked, Put, Succ;
    var c := Put(r, i, b);
    PutLength(r, i, b);
    forall k | 0 <= k < |c| ensures Linked(m', c[k], Succ(c, k)) {
      var j := PutPairs(r, i, b, k);
    }
  }

  /** Changing the link between b and c keeps every other link of blocks with other fronts and backs. */
  lemma LinkKept(m: Mem, m': Mem, b: Block, c: Block, x: Block, y: Block)
    requires m'.prev == m.prev[c.at := b.at] && m'.next == m.next[Back(b) := c.at]
    requires Linked(m, x, y) && Back(x) != Back(b) && y.at != c.at
    ensures Linked(m', x, y)
  {
  }

  lemma ListDelCuts(m: Mem, r: seq<Block>, i: nat)
    requires Ring(m, r) && Apart(r) && 0 < i < |r|
    ensures Ring(ListDel(m, r[i].at), Cut(r, i)) && SameBlocks(m, ListDel(m, r[i].at))
  {
    RingNeighbours(m, r, i);
    RingNeighbours(m, r, i - 1);
    var p, q, n := r[i - 1], r[i], Succ(r, i);
    var m' := ListDel(m, q.at);
    DelLinks(m, p, q, n);
    forall k | 0 <= k < |r| && k != i - 1 && k != i ensures Linked(m', r[k], Succ(r, k)) {
      SuccApart(r, k, i);
      SuccApart(r, k, i - 1);
      LinkKept(m, m', p, n, r[k], Succ(r, k));
    }
    RingCut(m, m', r, i);
  }

  /** Deleting q between p and n, written out; p and n may be the same block. */
  lemma DelLinks(m: Mem, p: Block, q: Block, n: Block)
    requires GetNext(m, q.at) == n.at && GetPrev(m, q.at) == p.at && GetBack(m, p.at) == Back(p)
    requires p.at != q.at && n.at != q.at && Back(p) != Back(q) && GetBack(m, q.at) == Back(q)
    ensures var m' := ListDel(m, q.at);
            m'.prev == m.prev[n.at := p.at] && m'.next == m.next[Back(p) := n.at] && SameBlocks(m, m') && Linked(m', p, n)
  {
  }

  /** One block of the ring replaced by another, when its links are made and all others kept. */
  lemma RingSwap(m: Mem, m': Mem, r: seq<Block>, j: nat, q: Block)
    requires Ring(m, r) && 0 < j < |r|
    requires Linked(m', r[j - 1], q) && Linked(m', q, Succ(r, j))
    requires forall k :: 0 <= k < |r| && k != j - 1 && k != j ==> Linked(m', r[k], Succ(r, k))
    requires forall b :: b in r[j := q] ==> At(m'.size, b.at) == b.size
    ensures Ring(m', r[j := q])
  {
    hide Linked;
    var c := r[j := q];
    forall k | 0 <= k < |c| ensures Linked(m', c[k], Succ(c, k)) {
      if k == j - 1 {
        assert Succ(c, k) == q;
      } else if k == j {
        assert Succ(c, k) == Succ(r, j);
      } else {
        assert Succ(c, k) == Succ(r, k);
      }
    }
  }

  /** Adding b between p and n, written out; both macros come to this. */
  lemma AddLinks(m: Mem, p: Block, b: Block, n: Block)
    requires GetBack(m, p.at) == Back(p) && GetBack(m, b.at) == Back(b)
    requires Linked(m, p, n) && b.at != n.at && b.at != p.at && Back(b) != Back(p)
    ensures var m' := ListAddBefore(m, b.at, n.at);
            m'.prev == m.prev[b.at := p.at][n.at := b.at] && m'.next == m.next[Back(b) := n.at][Back(p) := b.at] && SameBlocks(m, m')
    ensures ListAddAfter(m, b.at, p.at) == ListAddBefore(m, b.at, n.at)
  {
    assert GetPrev(m, n.at) == p.at && GetNext(m, p.at) == n.at;
    var a, c := ListAddAfter(m, b.at, p.at), ListAddBefore(m, b.at, n.at);
    assert a.prev == m.prev[b.at := p.at][n.at := b.at] && a.next == m.next[Back(b) := n.at][Back(p) := b.at];
    assert c.prev == m.prev[b.at := p.at][n.at := b.at] && c.next == m.next[Back(b) := n.at][Back(p) := b.at];
  }

  /** A link away from two written backs and two written fronts stays. */
  lemma LinkStays(m: Mem, m': Mem, x: Block, y: Block, b1: int, v1: int, b2: int, v2: int, f1: int, w1: int, f2: int, w2: int)
    requires Linked(m, x, y) && m'.next == m.next[b1 := v1][b2 := v2] && m'.prev == m.prev[f1 := w1][f2 := w2]
    requires Back(x) != b1 && Back(x) != b2 && y.at != f1 && y.at != f2
    ensures Linked(m', x, y)
  {
  }

  lemma LinkAt(m: Mem, r: seq<Block>, i: nat)
    requires Ring(m, r) && i < |r|
    ensures Linked(m, r[i], Succ(r, i)) && At(m.size, r[i].at) == r[i].size
    ensures r[i] in r && Succ(r, i) in r
  {
    assert r[i] in r;
  }

  /** A block none of whose ends belongs to the ring. */
  predicate Outside(r: seq<Block>, b: Block) {
    forall c :: c in r ==> c.at != b.at && Back(c) != Back(b)
  }

  /** Adding a block before place i of the ring, by either macro. */
  lemma ListAddPuts(m: Mem, r: seq<Block>, i: nat, b: Block)
    requires Ring(m, r) && Apart(r) && 0 < i <= |r| && Outside(r, b) && At(m.size, b.at) == b.size
    ensures var m' := ListAddBefore(m, b.at, Succ(r, i - 1).at);
            Ring(m', Put(r, i, b)) && SameBlocks(m, m') && m' == ListAddAfter(m, b.at, r[i - 1].at)
  {
    hide Ring, Apart, Put, ListAddBefore, ListAddAfter, Succ;
    RingNeighbours(m, r, i - 1);
    LinkAt(m, r, i - 1);
    var p, n := r[i - 1], Succ(r, i - 1);
    var m' := ListAddBefore(m, b.at, n.at);
    AddLinks(m, p, b, n);
    forall k | 0 <= k < |r| && k != i - 1 ensures Linked(m', r[k], Succ(r, k)) {
      LinkAt(m, r, k);
      SuccApart(r, k, i - 1);
      LinkStays(m, m', r[k], Succ(r, k), Back(b), n.at, Back(p), b.at, b.at, p.at, n.at, b.at);
    }
    RingPut(m, m', r, i, b);
  }

  lemma RingTag(m: Mem, r: seq<Block>, front: int, used: bool)
    requires Ring(m, r)
    ensures Ring(SetTag(m, front, used), r)
  {
    forall i | 0 <= i < |r| ensures Linked(SetTag(m, front, used), r[i], Succ(r, i)) {
      assert Linked(m, r[i], Succ(r, i));
    }
  }

  // ----- compound writes -----

  /** Sizes and tags of a used block u and a free block q. */
  function Parted(m: Mem, u: Block, q: Block): Mem {
    var m1 := SetTag(SetSize(m, u.at, u.size), u.at, true);
    SetTag(SetSize(m1, q.at, q.size), q.at, false)
  }

  /** Cutting p into u and q and putting q in p's place of the list, between pr and nx. */
  function SplitWrites(m: Mem, u: Block, q: Block, pr: int, nx: int): Mem {
    var m3 := SetPrev(SetNext(Parted(m, u, q), pr, q.at), q.at, pr);
    SetNext(SetPrev(m3, nx, q.at), q.at, nx)
  }

  lemma SplitLinks(m: Mem, u: Block, q: Block, p: Block, n: Block)
    requires GetBack(m, p.at) == Back(p) && p.at != u.at && p.at != q.at && u.at != q.at && n.at != q.at && Back(p) != Back(q)
    ensures var m' := SplitWrites(m, u, q, p.at, n.at);
            && m'.size == m.size[u.at := u.size][q.at := q.size]
            && m'.footer == m.footer[Back(u) := u.size][Back(q) := q.size]
            && m'.tag == m.tag[u.at := true][q.at := false]
            && m'.next == m.next[Back(p) := q.at][Back(q) := n.at]
            && m'.prev == m.prev[q.at := p.at][n.at := q.at]
  {
  }

  /** The block at place j of the ring replaced by one that has its back but another front. */
  lemma SplitRing(m: Mem, r: seq<Block>, j: nat, u: Block, q: Block)
    requires Ring(m, r) && Apart(r) && 0 < j < |r| && Back(q) == Back(r[j]) && u.at == r[j].at && q.at != u.at
    requires forall c :: c in r ==> c.at != q.at
    ensures Ring(SplitWrites(m, u, q, r[j - 1].at, Succ(r, j).at), r[j := q])
  {
    hide Ring, Apart, SplitWrites, Succ;
    RingNeighbours(m, r, j - 1);
    LinkAt(m, r, j - 1);
    LinkAt(m, r, j);
    SuccApart(r, j - 1, j);
    FrontsApart(r, j - 1, j);
    var p, n := r[j - 1], Succ(r, j);
    SplitLinks(m, u, q, p, n);
    var m' := SplitWrites(m, u, q, p.at, n.at);
    forall k | 0 <= k < |r| && k != j - 1 && k != j ensures Linked(m', r[k], Succ(r, k)) {
      LinkAt(m, r, k);
      SuccApart(r, k, j);
      SuccApart(r, k, j - 1);
      LinkStays(m, m', r[k], Succ(r, k), Back(p), q.at, Back(q), n.at, q.at, p.at, n.at, q.at);
    }
    forall b | b in r[j := q] ensures At(m'.size, b.at) == b.size {
      SwappedAt(r, j, q, b);
      SizeIn(m, r, b);
    }
    RingSwap(m, m', r, j, q);
  }

  lemma FrontsApart(r: seq<Block>, i: nat, j: nat)
    requires Apart(r) && i < j < |r|
    ensures r[i].at != r[j].at && Back(r[i]) != Back(r[j])
  {
  }

  lemma SizeIn(m: Mem, r: seq<Block>, b: Block)
    requires Ring(m, r)
    ensures b in r ==> At(m.size, b.at) == b.size
  {
  }

  lemma SwappedAt(r: seq<Block>, j: nat, q: Block, b: Block)
    requires Apart(r) && j < |r| && b in r[j := q]
    ensures b == q || (b in r && b.at != r[j].at && Back(b) != Back(r[j]))
  {
    var k :| 0 <= k < |r| && r[j := q][k] == b;
  }

  /** A released block takes over the place of the free block to its right, keeping that block's footer. */
  function RightWrites(m: Mem, b: Block, pr: int, nx: int): Mem {
    var m1 := SetTag(SetPrev(SetSize(m, b.at, b.size), b.at, pr), b.at, false);
    var m2 := if GetPrev(m1, pr) == GetNext(m1, pr) then SetPrev(m1, pr, b.at) else m1;
    SetPrev(SetNext(m2, pr, b.at), nx, b.at)
  }

  lemma RightRing(m: Mem, r: seq<Block>, j: nat, b: Block)
    requires Ring(m, r) && Apart(r) && 0 < j < |r| && Back(b) == Back(r[j]) && b.at != r[j].at
    requires forall c :: c in r ==> c.at != b.at
    ensures Ring(RightWrites(m, b, r[j - 1].at, Succ(r, j).at), r[j := b])
  {
    hide Ring, Apart, RightWrites, Succ;
    LinkAt(m, r, j - 1);
    LinkAt(m, r, j);
    SuccApart(r, j - 1, j);
    var p, n := r[j - 1], Succ(r, j);
    var m' := RightWrites(m, b, p.at, n.at);
    RightLinks(m, r, j, b);
    forall k | 0 <= k < |r| && k != j - 1 && k != j ensures Linked(m', r[k], Succ(r, k)) {
      LinkAt(m, r, k);
      SuccApart(r, k, j);
      SuccApart(r, k, j - 1);
      LinkStays(m, m', r[k], Succ(r, k), Back(p), b.at, Back(p), b.at, b.at, p.at, n.at, b.at);
    }
    forall c | c in r[j := b] ensures At(m'.size, c.at) == c.size {
      SwappedAt(r, j, b, c);
      SizeIn(m, r, c);
    }
    RingSwap(m, m', r, j, b);
  }

  /** The extra write for a list of one element repeats another write. */
  lemma RightLinks(m: Mem, r: seq<Block>, j: nat, b: Block)
    requires Ring(m, r) && Apart(r) && 0 < j < |r| && Back(b) == Back(r[j])
    requires forall c :: c in r ==> c.at != b.at
    ensures var p, n := r[j - 1], Succ(r, j);
            var m' := RightWrites(m, b, p.at, n.at);
            && m'.size == m.size[b.at := b.size] && m'.footer == m.footer[Back(b) := b.size]
            && m'.tag == m.tag[b.at := false]
            && m'.next == m.next[Back(p) := b.at]
            && m'.prev == m.prev[b.at := p.at][n.at := b.at]
  {
    hide Ring, Apart, Linked, RightWrites;
    RingNeighbours(m, r, j - 1);
    LinkAt(m, r, j - 1);
    LinkAt(m, r, j);
    var p, n := r[j - 1], Succ(r, j);
    var before := if j == 1 then r[|r| - 1] else r[j - 2];
    assert GetPrev(m, p.at) == before.at && GetNext(m, p.at) == r[j].at;
    if before.at == r[j].at {
      SameFront(r, if j == 1 then |r| - 1 else j - 2, j);
      assert |r| == 2 && n == p;
    }
    RightMaps(m, b, p, n);
  }

  lemma RightMaps(m: Mem, b: Block, p: Block, n: Block)
    requires GetBack(m, p.at) == Back(p) && p.at != b.at
    requires GetPrev(m, p.at) == GetNext(m, p.at) ==> n.at == p.at
    ensures var m' := RightWrites(m, b, p.at, n.at);
            && m'.size == m.size[b.at := b.size] && m'.footer == m.footer[Back(b) := b.size]
            && m'.tag == m.tag[b.at := false]
            && m'.next == m.next[Back(p) := b.at]
            && m'.prev == m.prev[b.at := p.at][n.at := b.at]
  {
    var m1 := SetTag(SetPrev(SetSize(m, b.at, b.size), b.at, p.at), b.at, false);
    assert GetBack(m1, p.at) == Back(p) && GetPrev(m1, p.at) == GetPrev(m, p.at) && GetNext(m1, p.at) == GetNext(m, p.at);
    var m2 := if GetPrev(m1, p.at) == GetNext(m1, p.at) then SetPrev(m1, p.at, b.at) else m1;
    assert GetBack(m2, p.at) == Back(p) && m2.prev[n.at := b.at] == m1.prev[n.at := b.at];
    hide GetBack, GetPrev, GetNext;
  }

  lemma SameFront(r: seq<Block>, i: nat, j: nat)
    requires Apart(r) && i < |r| && j < |r| && r[i].at == r[j].at
    ensures i == j
  {
  }

  /** A free block grows to the right; its next pointer moves to the new footer. */
  function LeftWrites(m: Mem, b: Block): Mem {
    var nx := GetNext(m, b.at);
    SetNext(SetSize(m, b.at, b.size), b.at, nx)
  }

  lemma LeftRing(m: Mem, r: seq<Block>, j: nat, b: Block)
    requires Ring(m, r) && Apart(r) && 0 < j < |r| && b.at == r[j].at
    requires forall c :: c in r && c != r[j] ==> Back(c) != Back(b)
    ensures Ring(LeftWrites(m, b), r[j := b])
    ensures var m' := LeftWrites(m, b);
            m'.size == m.size[b.at := b.size] && m'.footer == m.footer[Back(b) := b.size] && m'.tag == m.tag
  {
    hide Ring, Apart, Succ;
    RingNeighbours(m, r, j);
    LinkAt(m, r, j);
    LinkAt(m, r, j - 1);
    FrontsApart(r, j - 1, j);
    var m', n := LeftWrites(m, b), Succ(r, j);
    assert m'.next == m.next[Back(b) := n.at] && m'.prev == m.prev;
    forall k | 0 <= k < |r| && k != j ensures Back(r[k]) != Back(b) && Linked(m, r[k], Succ(r, k)) {
      LinkAt(m, r, k);
      if k < j {
        FrontsApart(r, k, j);
      } else {
        FrontsApart(r, j, k);
      }
    }
    assert Succ(r, j - 1) == r[j] by {
      SuccIs(r, j);
    }
    forall c | c in r[j := b] ensures At(m'.size, c.at) == c.size {
      SwappedAt(r, j, b, c);
      SizeIn(m, r, c);
    }
    RingSwap(m, m', r, j, b);
  }

  lemma SuccIs(r: seq<Block>, j: nat)
    requires 0 < j < |r|
    ensures Succ(r, j - 1) == r[j]
  {
  }
}
