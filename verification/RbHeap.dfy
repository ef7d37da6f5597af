/** The nodes of an intrusive red-black tree, and what it means for their fields to hold a tree.
    The statements are about a snapshot of the fields, so that a rotation is a change to a map
    and the subtrees it does not touch are carried over by one lemma. */
module RbHeap {
  import opened RbBalance
  import Sequences

  /** What one node stores: its two children, its parent and its colour. */
  datatype Record = Record(left: Node?, right: Node?, parent: Node?, color: Color)

  class Node {
    const key: int
    var left: Node?
    var right: Node?
    var parent: Node?
    var color: Color

    constructor (key: int)
      ensures this.key == key
    {
      this.key := key;
      left, right, parent, color := null, null, null, Red;
    }

    function Now(): Record
      reads this
    {
      Record(left, right, parent, color)
    }
  }

  type Memory = map<Node, Record>

  /** Everything an operation on a tree can read or change: the nodes' fields and the root pointer. */
  datatype State = State(m: Memory, root: Node?)

  function RootOf(t: Tree<Node>): Node? { if t.Leaf? then null else t.n }

  function ParentOf(c: Ctx<Node>): Node? { if c.Top? then null else c.n }

  ghost function Nodes(t: Tree<Node>): set<Node> {
    if t.Leaf? then {} else Nodes(t.l) + {t.n} + Nodes(t.r)
  }

  ghost function PathNodes(c: Ctx<Node>): set<Node> {
    match c
    case Top => {}
    case InLeft(n, _, r, up) => {n} + Nodes(r) + PathNodes(up)
    case InRight(l, n, _, up) => {n} + Nodes(l) + PathNodes(up)
  }

  ghost predicate Distinct(t: Tree<Node>) {
    t.Bin? ==>
      && t.n !in Nodes(t.l) && t.n !in Nodes(t.r) && Nodes(t.l) !! Nodes(t.r)
      && Distinct(t.l) && Distinct(t.r)
  }

  ghost predicate PathDistinct(c: Ctx<Node>) {
    match c
    case Top => true
    case InLeft(n, _, r, up) =>
      n !in Nodes(r) && n !in PathNodes(up) && Nodes(r) !! PathNodes(up) && Distinct(r) && PathDistinct(up)
    case InRight(l, n, _, up) =>
      n !in Nodes(l) && n !in PathNodes(up) && Nodes(l) !! PathNodes(up) && Distinct(l) && PathDistinct(up)
  }

  ghost predicate Apart(c: Ctx<Node>, t: Tree<Node>) {
    Distinct(t) && PathDistinct(c) && Nodes(t) !! PathNodes(c)
  }

  /** The subtree t hangs below p. */
  ghost predicate Linked(m: Memory, t: Tree<Node>, p: Node?) {
    t.Bin? ==>
      && t.n in m && m[t.n] == Record(RootOf(t.l), RootOf(t.r), p, t.c)
      && Linked(m, t.l, t.n) && Linked(m, t.r, t.n)
  }

  /** As Linked, but the root's own parent and colour may be stale, as they are between the
      assignments of a rotation. */
  ghost predicate Hangs(m: Memory, t: Tree<Node>) {
    t.Bin? ==>
      && t.n in m && m[t.n].left == RootOf(t.l) && m[t.n].right == RootOf(t.r)
      && Linked(m, t.l, t.n) && Linked(m, t.r, t.n)
  }

  /** The path c is in place, and the hole's slot holds x. */
  ghost predicate LinkedAbove(s: State, c: Ctx<Node>, x: Node?) {
    match c
    case Top => s.root == x
    case InLeft(n, col, r, up) =>
      && n in s.m && s.m[n] == Record(x, RootOf(r), ParentOf(up), col)
      && Linked(s.m, r, n) && LinkedAbove(s, up, n)
    case InRight(l, n, col, up) =>
      && n in s.m && s.m[n] == Record(RootOf(l), x, ParentOf(up), col)
      && Linked(s.m, l, n) && LinkedAbove(s, up, n)
  }

  /** The state holds the tree t at the hole of c. */
  ghost predicate At(s: State, c: Ctx<Node>, t: Tree<Node>) {
    Linked(s.m, t, ParentOf(c)) && LinkedAbove(s, c, RootOf(t))
  }

  /** A pointer that can be followed. */
  ghost predicate Known(s: State, x: Node?) {
    x != null ==> x in s.m
  }

  ghost predicate Agree(m: Memory, m': Memory, ns: set<Node>) {
    forall n :: n in ns && n in m ==> n in m' && m'[n] == m[n]
  }

  lemma {:induction false} LinkedFrame(m: Memory, m': Memory, t: Tree<Node>, p: Node?)
    requires Linked(m, t, p) && Agree(m, m', Nodes(t))
    ensures Linked(m', t, p)
  {
    if t.Bin? {
      LinkedFrame(m, m', t.l, t.n);
      LinkedFrame(m, m', t.r, t.n);
    }
  }

  /** A hanging subtree is linked once its root is given its parent and colour. */
  lemma HangsFrame(m: Memory, m': Memory, t: Tree<Node>, t': Tree<Node>, p: Node?)
    requires Hangs(m, t) && Distinct(t) && t.Bin? == t'.Bin?
    requires t.Bin? ==>
      && t' == t.(c := t'.c) && t.n in m'
      && m'[t.n] == m[t.n].(parent := p, color := t'.c)
      && Agree(m, m', Nodes(t) - {t.n})
    ensures Linked(m', t', p)
  {
    if t.Bin? {
      LinkedFrame(m, m', t.l, t.n);
      LinkedFrame(m, m', t.r, t.n);
    }
  }

  lemma {:induction false} LinkedAboveFrame(s: State, s': State, c: Ctx<Node>, x: Node?)
    requires LinkedAbove(s, c, x) && Agree(s.m, s'.m, PathNodes(c)) && s'.root == s.root
    ensures LinkedAbove(s', c, x)
  {
    match c
    case Top =>
    case InLeft(n, col, r, up) =>
      LinkedFrame(s.m, s'.m, r, n);
      LinkedAboveFrame(s, s', up, n);
    case InRight(l, n, col, up) =>
      LinkedFrame(s.m, s'.m, l, n);
      LinkedAboveFrame(s, s', up, n);
  }

  /** Moving the hole up or down the path changes nothing: the whole tree is in place or not. */
  lemma {:induction false} AtPlug(s: State, c: Ctx<Node>, t: Tree<Node>)
    ensures Nodes(Plug(c, t)) == Nodes(t) + PathNodes(c)
    ensures At(s, c, t) <==> At(s, Top, Plug(c, t))
  {
    match c
    case Top =>
    case InLeft(n, col, r, up) => AtPlug(s, up, Bin(t, n, col, r));
    case InRight(l, n, col, up) => AtPlug(s, up, Bin(l, n, col, t));
  }

  ghost predicate Pieces(c: Ctx<Node>, a: Tree<Node>, x: Node, b: Tree<Node>, y: Node, d: Tree<Node>) {
    && Distinct(a) && Distinct(b) && Distinct(d) && PathDistinct(c)
    && x != y && x !in PathNodes(c) && y !in PathNodes(c)
    && x !in Nodes(a) && x !in Nodes(b) && x !in Nodes(d)
    && y !in Nodes(a) && y !in Nodes(b) && y !in Nodes(d)
    && Nodes(a) !! Nodes(b) && Nodes(a) !! Nodes(d) && Nodes(b) !! Nodes(d)
    && Nodes(a) !! PathNodes(c) && Nodes(b) !! PathNodes(c) && Nodes(d) !! PathNodes(c)
  }

  /** No node occurs twice in the tree. */
  ghost predicate Unique(t: Tree<Node>) {
    Sequences.Distinct(Inorder(t))
  }

  lemma {:induction false} NodesOfInorder(t: Tree<Node>)
    ensures Nodes(t) == set n | n in Inorder(t)
  {
    if t.Bin? {
      NodesOfInorder(t.l);
      NodesOfInorder(t.r);
    }
  }

  lemma {:induction false} NodesOfPath(c: Ctx<Node>)
    ensures PathNodes(c) == set n | n in Before(c) + After(c)
  {
    match c
    case Top =>
    case InLeft(_, _, r, up) => NodesOfInorder(r); NodesOfPath(up);
    case InRight(l, _, _, up) => NodesOfInorder(l); NodesOfPath(up);
  }

  lemma NoDupSplit(p: seq<Node>, q: seq<Node>)
    requires Sequences.Distinct(p + q)
    ensures Sequences.Distinct(p) && Sequences.Distinct(q) && forall n :: n in p ==> n !in q
  {
    assert forall i :: 0 <= i < |p| ==> p[i] == (p + q)[i];
    assert forall j :: 0 <= j < |q| ==> q[j] == (p + q)[|p| + j];
  }

  lemma NoDupMiddle(p: seq<Node>, q: seq<Node>, r: seq<Node>)
    requires Sequences.Distinct(p + q + r)
    ensures Sequences.Distinct(q) && Sequences.Distinct(p + r)
    ensures forall n :: n in q ==> n !in p && n !in r
  {
    NoDupSplit(p + q, r);
    NoDupSplit(p, q);
    var w := p + q + r;
    assert forall i :: 0 <= i < |p| ==> (p + r)[i] == w[i];
    assert forall i :: |p| <= i < |p + r| ==> (p + r)[i] == w[i + |q|];
    assert forall i :: 0 <= i < |q| ==> q[i] in p + q;
  }

  lemma {:induction false} UniqueDistinct(t: Tree<Node>)
    requires Unique(t)
    ensures Distinct(t)
  {
    if t.Bin? {
      NoDupMiddle(Inorder(t.l), [t.n], Inorder(t.r));
      NoDupSplit(Inorder(t.l), Inorder(t.r));
      assert t.n in [t.n];
      NodesOfInorder(t.l);
      NodesOfInorder(t.r);
      forall m | m in Nodes(t.l) ensures m !in Nodes(t.r) {
        assert m in Inorder(t.l) && m !in Inorder(t.r);
      }
      UniqueDistinct(t.l);
      UniqueDistinct(t.r);
    }
  }

  lemma UniqueSide(up: Ctx<Node>, n: Node, t: Tree<Node>, q: seq<Node>)
    requires Sequences.Distinct(Before(up) + q + After(up)) && (q == [n] + Inorder(t) || q == Inorder(t) + [n])
    ensures n !in Nodes(t) && Distinct(t) && Sequences.Distinct(Before(up) + After(up))
    ensures n !in PathNodes(up) && Nodes(t) !! PathNodes(up)
  {
    NoDupMiddle(Before(up), q, After(up));
    assert n in [n];
    if q == [n] + Inorder(t) { NoDupSplit([n], Inorder(t)); } else { NoDupSplit(Inorder(t), [n]); }
    NodesOfInorder(t);
    NodesOfPath(up);
    UniqueDistinct(t);
    assert forall m :: m == n || m in Nodes(t) ==> m in q;
  }

  lemma {:induction false} UniquePath(c: Ctx<Node>)
    requires Sequences.Distinct(Before(c) + After(c))
    ensures PathDistinct(c)
  {
    match c
    case Top =>
    case InLeft(n, _, r, up) =>
      assert Before(c) + After(c) == Before(up) + ([n] + Inorder(r)) + After(up);
      UniqueSide(up, n, r, [n] + Inorder(r));
      UniquePath(up);
    case InRight(l, n, _, up) =>
      assert Before(c) + After(c) == Before(up) + (Inorder(l) + [n]) + After(up);
      UniqueSide(up, n, l, Inorder(l) + [n]);
      UniquePath(up);
  }

  lemma UniqueApart(c: Ctx<Node>, t: Tree<Node>)
    requires Unique(Plug(c, t))
    ensures Apart(c, t)
  {
    InorderPlug(c, t);
    NoDupMiddle(Before(c), Inorder(t), After(c));
    NodesOfInorder(t);
    NodesOfPath(c);
    UniqueDistinct(t);
    UniquePath(c);
  }

  lemma UniquePieces(c: Ctx<Node>, a: Tree<Node>, x: Node, b: Tree<Node>, y: Node, d: Tree<Node>, k: Color, k': Color)
    requires Unique(Plug(c, Bin(a, x, k, Bin(b, y, k', d)))) || Unique(Plug(c, Bin(Bin(a, x, k, b), y, k', d)))
    ensures Pieces(c, a, x, b, y, d)
  {
    var t1, t2 := Bin(a, x, k, Bin(b, y, k', d)), Bin(Bin(a, x, k, b), y, k', d);
    RotationKeepsOrder(a, x, b, y, d, k);
    assert Inorder(t1) == Inorder(t2);
    PlugKeepsOrder(c, t1, t2);
    UniqueApart(c, t1);
    var q := Bin(b, y, k', d);
    assert Nodes(t1) == Nodes(a) + {x} + Nodes(q) && Nodes(q) == Nodes(b) + {y} + Nodes(d);
    assert Distinct(q);
  }

  lemma PiecesBlacken(c: Ctx<Node>, a: Tree<Node>, x: Node, b: Tree<Node>, y: Node, d: Tree<Node>)
    requires Pieces(c, a, x, b, y, d)
    ensures Pieces(c, Blacken(a), x, b, y, d) && Pieces(c, a, x, Blacken(b), y, d) && Pieces(c, a, x, b, y, Blacken(d))
  {
    assert forall t: Tree<Node> :: Nodes(Blacken(t)) == Nodes(t) && Distinct(Blacken(t)) == Distinct(t);
  }

  // ----- the shared assignments, as functions on states

  function Read(s: State, n: Node?): Record {
    if n != null && n in s.m then s.m[n] else Record(null, null, null, Black)
  }

  function Write(s: State, n: Node, r: Record): State {
    if n in s.m then s.(m := s.m[n := r]) else s
  }

  function WithLeft(s: State, n: Node, x: Node?): State {
    Write(s, n, Read(s, n).(left := x))
  }

  function WithRight(s: State, n: Node, x: Node?): State {
    Write(s, n, Read(s, n).(right := x))
  }

  function WithParent(s: State, n: Node, p: Node?): State {
    Write(s, n, Read(s, n).(parent := p))
  }

  function WithParentColor(s: State, n: Node, p: Node?, c: Color): State {
    Write(s, n, Read(s, n).(parent := p, color := c))
  }

  function ChildChanged(s: State, old': Node, new': Node?, parent: Node?): State {
    if parent != null then
      if Read(s, parent).left == old' then WithLeft(s, parent, new') else WithRight(s, parent, new')
    else
      s.(root := new')
  }

  lemma ChildChangedInPlace(s: State, old': Node, new': Node?, c: Ctx<Node>)
    requires LinkedAbove(s, c, old') && PathDistinct(c) && old' !in PathNodes(c)
    ensures LinkedAbove(ChildChanged(s, old', new', ParentOf(c)), c, new')
  {
    var s' := ChildChanged(s, old', new', ParentOf(c));
    match c
    case Top =>
    case InLeft(n, col, r, up) =>
      LinkedFrame(s.m, s'.m, r, n);
      LinkedAboveFrame(s, s', up, n);
    case InRight(l, n, col, up) =>
      assert l.Bin? ==> l.n in Nodes(l);
      LinkedFrame(s.m, s'.m, l, n);
      LinkedAboveFrame(s, s', up, n);
  }

  function ParentsRotated(s: State, old': Node, new': Node, color: Color): State {
    var was := Read(s, old');
    var s1 := WithParentColor(s, new', was.parent, was.color);
    var s2 := WithParentColor(s1, old', new', color);
    ChildChanged(s2, old', new', was.parent)
  }

  /** Left rotation at x, whose right child y moves up: the assignments shared by the rotation
      cases of both loops. `tmp` is y's left child, which moves below x; it is blackened, or
      keeps its colour in case 4 of the erasure. */
  function RotatedLeft(s: State, x: Node, y: Node, tmp: Node?, keepColor: bool, color: Color): State {
    var s1 := WithLeft(WithRight(s, x, tmp), y, x);
    var s2 := if tmp == null then s1 else WithParentColor(s1, tmp, x, if keepColor then Read(s1, tmp).color else Black);
    ParentsRotated(s2, x, y, color)
  }

  function RotatedRight(s: State, x: Node, y: Node, tmp: Node?, keepColor: bool, color: Color): State {
    var s1 := WithRight(WithLeft(s, x, tmp), y, x);
    var s2 := if tmp == null then s1 else WithParentColor(s1, tmp, x, if keepColor then Read(s1, tmp).color else Black);
    ParentsRotated(s2, x, y, color)
  }

  lemma WriteKeys(s: State, n: Node, r: Record)
    ensures Write(s, n, r).m.Keys == s.m.Keys
  {
  }

  lemma ParentsRotatedKeys(s: State, old': Node, new': Node, color: Color)
    ensures ParentsRotated(s, old', new', color).m.Keys == s.m.Keys
  {
    var s1 := WithParentColor(s, new', Read(s, old').parent, Read(s, old').color);
    var s2 := WithParentColor(s1, old', new', color);
    var parent := Read(s, old').parent;
    assert s2.m.Keys == s.m.Keys by {
      WriteKeys(s, new', Read(s1, new'));
      WriteKeys(s1, old', Read(s2, old'));
    }
    if parent != null {
      WriteKeys(s2, parent, Read(s2, parent).(left := new'));
      WriteKeys(s2, parent, Read(s2, parent).(right := new'));
    }
  }

  lemma RotationKeys(s: State, x: Node, y: Node, tmp: Node?, keepColor: bool, color: Color)
    ensures RotatedLeft(s, x, y, tmp, keepColor, color).m.Keys == s.m.Keys
    ensures RotatedRight(s, x, y, tmp, keepColor, color).m.Keys == s.m.Keys
  {
    hide ParentsRotated;
    forall s': State | s'.m.Keys == s.m.Keys
      ensures ParentsRotated(s', x, y, color).m.Keys == s.m.Keys
    {
      ParentsRotatedKeys(s', x, y, color);
    }
  }

  /** Which records a rotation writes. */
  ghost predicate Rotated(s: State, s': State, x: Node, y: Node, xr: Record, yr: Record, tmp: Node?, tc: Color) {
    && x in s'.m && y in s'.m && s'.m[x] == xr && s'.m[y] == yr
    && (tmp != null ==> tmp in s.m && tmp in s'.m && s'.m[tmp] == s.m[tmp].(parent := x, color := tc))
    && forall n :: n in s.m && n != x && n != y && n != tmp && n != yr.parent ==> n in s'.m && s'.m[n] == s.m[n]
  }

  ghost predicate Rotatable(s: State, x: Node, y: Node, tmp: Node?) {
    && x in s.m && y in s.m && (tmp != null ==> tmp in s.m)
    && (s.m[x].parent != null ==> s.m[x].parent in s.m)
    && x != y && x != tmp && y != tmp && s.m[x].parent != x && s.m[x].parent != y && (tmp != null ==> s.m[x].parent != tmp)
  }

  /** What the last three assignments of a rotation leave in the two nodes. */
  lemma ParentsRotatedRecords(s: State, old': Node, new': Node, color: Color)
    requires old' in s.m && new' in s.m && old' != new'
    requires var p := s.m[old'].parent; (p != null ==> p in s.m) && p != old' && p != new'
    ensures var s', p := ParentsRotated(s, old', new', color), s.m[old'].parent;
      && s'.m.Keys == s.m.Keys
      && s'.m[new'] == s.m[new'].(parent := p, color := s.m[old'].color)
      && s'.m[old'] == s.m[old'].(parent := new', color := color)
      && forall n :: n in s.m && n != old' && n != new' && n != p ==> s'.m[n] == s.m[n]
  {
  }

  lemma RotateLeftRecords(s: State, x: Node, y: Node, tmp: Node?, keepColor: bool, color: Color)
    requires Rotatable(s, x, y, tmp)
    ensures Rotated(s, RotatedLeft(s, x, y, tmp, keepColor, color), x, y,
      Record(s.m[x].left, tmp, y, color), Record(x, s.m[y].right, s.m[x].parent, s.m[x].color), tmp,
      if tmp != null && keepColor then s.m[tmp].color else Black)
  {
    var s1 := WithLeft(WithRight(s, x, tmp), y, x);
    var s2 := if tmp == null then s1 else WithParentColor(s1, tmp, x, if keepColor then Read(s1, tmp).color else Black);
    assert forall n :: n in s.m && n != x && n != y && n != tmp ==> n in s2.m && s2.m[n] == s.m[n];
    assert x in s2.m && y in s2.m && (tmp != null ==> tmp in s2.m);
    hide ParentsRotated;
    ParentsRotatedRecords(s2, x, y, color);
  }

  lemma RotateRightRecords(s: State, x: Node, y: Node, tmp: Node?, keepColor: bool, color: Color)
    requires Rotatable(s, x, y, tmp)
    ensures Rotated(s, RotatedRight(s, x, y, tmp, keepColor, color), x, y,
      Record(tmp, s.m[x].right, y, color), Record(s.m[y].left, x, s.m[x].parent, s.m[x].color), tmp,
      if tmp != null && keepColor then s.m[tmp].color else Black)
  {
    var s1 := WithRight(WithLeft(s, x, tmp), y, x);
    var s2 := if tmp == null then s1 else WithParentColor(s1, tmp, x, if keepColor then Read(s1, tmp).color else Black);
    assert forall n :: n in s.m && n != x && n != y && n != tmp ==> n in s2.m && s2.m[n] == s.m[n];
    assert x in s2.m && y in s2.m && (tmp != null ==> tmp in s2.m);
    hide ParentsRotated;
    ParentsRotatedRecords(s2, x, y, color);
  }

  /** A subtree that a rotation does not touch. */
  lemma RotationKeeps(s: State, s': State, x: Node, y: Node, xr: Record, yr: Record, tmp: Node?, tc: Color, a: Tree<Node>, p: Node)
    requires Rotated(s, s', x, y, xr, yr, tmp, tc) && Linked(s.m, a, p)
    requires x !in Nodes(a) && y !in Nodes(a) && tmp !in Nodes(a) && yr.parent !in Nodes(a)
    ensures Linked(s'.m, a, p)
  {
    LinkedFrame(s.m, s'.m, a, p);
  }

  /** The inner subtree changes hands. */
  lemma RotationHands(s: State, s': State, x: Node, y: Node, xr: Record, yr: Record, b: Tree<Node>, b': Tree<Node>)
    requires Rotated(s, s', x, y, xr, yr, RootOf(b), ColorOf(b')) && Hangs(s.m, b) && Distinct(b)
    requires b.Bin? == b'.Bin? && (b.Bin? ==> b' == b.(c := b'.c))
    requires x !in Nodes(b) && y !in Nodes(b) && yr.parent !in Nodes(b)
    ensures Linked(s'.m, b', x)
  {
    HangsFrame(s.m, s'.m, b, b', x);
  }

  /** The node above is in none of the pieces. */
  lemma PathApart(c: Ctx<Node>, a: Tree<Node>, x: Node, b: Tree<Node>, y: Node, d: Tree<Node>)
    requires Pieces(c, a, x, b, y, d)
    ensures ParentOf(c) !in Nodes(a) && ParentOf(c) !in Nodes(b) && ParentOf(c) !in Nodes(d)
  {
    hide Distinct, PathDistinct;
    assert !c.Top? ==> c.n in PathNodes(c);
  }

  lemma SubtreesAfterRotation(s: State, s': State, c: Ctx<Node>, a: Tree<Node>, x: Node, b: Tree<Node>, b': Tree<Node>, y: Node,
                              d: Tree<Node>, xr: Record, yr: Record, pa: Node, pd: Node)
    requires Rotated(s, s', x, y, xr, yr, RootOf(b), ColorOf(b')) && yr.parent == ParentOf(c)
    requires Pieces(c, a, x, b, y, d) || Pieces(c, a, y, b, x, d)
    requires b.Bin? == b'.Bin? && (b.Bin? ==> b' == b.(c := b'.c))
    requires Linked(s.m, a, pa) && Linked(s.m, d, pd) && Hangs(s.m, b)
    ensures Linked(s'.m, a, pa) && Linked(s'.m, d, pd) && Linked(s'.m, b', x)
  {
    if Pieces(c, a, x, b, y, d) {
      PiecesApart(c, a, x, b, y, d);
      PathApart(c, a, x, b, y, d);
    } else {
      PiecesApart(c, a, y, b, x, d);
      PathApart(c, a, y, b, x, d);
    }
    hide Pieces, Distinct, Nodes, PathNodes;
    RotationKeeps(s, s', x, y, xr, yr, RootOf(b), ColorOf(b'), a, pa);
    RotationKeeps(s, s', x, y, xr, yr, RootOf(b), ColorOf(b'), d, pd);
    RotationHands(s, s', x, y, xr, yr, b, b');
  }

  lemma ParentsRotatedInPlace(s: State, old': Node, new': Node, color: Color, c: Ctx<Node>)
    requires LinkedAbove(s, c, old') && PathDistinct(c) && old' !in PathNodes(c) && new' !in PathNodes(c)
    requires old' in s.m && new' in s.m && s.m[old'].parent == ParentOf(c)
    ensures LinkedAbove(ParentsRotated(s, old', new', color), c, new')
  {
    var s1 := WithParentColor(s, new', s.m[old'].parent, s.m[old'].color);
    var s2 := WithParentColor(s1, old', new', color);
    LinkedAboveFrame(s, s2, c, old');
    ChildChangedInPlace(s2, old', new', c);
  }

  lemma RotationPathLeft(s: State, c: Ctx<Node>, x: Node, y: Node, tmp: Node?, keepColor: bool, color: Color)
    requires LinkedAbove(s, c, x) && PathDistinct(c)
    requires x !in PathNodes(c) && y !in PathNodes(c) && tmp !in PathNodes(c)
    requires x in s.m && y in s.m && (tmp != null ==> tmp in s.m) && s.m[x].parent == ParentOf(c)
    requires x != y && x != tmp && y != tmp
    ensures LinkedAbove(RotatedLeft(s, x, y, tmp, keepColor, color), c, y)
  {
    var s1 := WithLeft(WithRight(s, x, tmp), y, x);
    var s2 := if tmp == null then s1 else WithParentColor(s1, tmp, x, if keepColor then Read(s1, tmp).color else Black);
    LinkedAboveFrame(s, s2, c, x);
    hide ParentsRotated;
    ParentsRotatedInPlace(s2, x, y, color, c);
  }

  lemma RotationPathRight(s: State, c: Ctx<Node>, x: Node, y: Node, tmp: Node?, keepColor: bool, color: Color)
    requires LinkedAbove(s, c, x) && PathDistinct(c)
    requires x !in PathNodes(c) && y !in PathNodes(c) && tmp !in PathNodes(c)
    requires x in s.m && y in s.m && (tmp != null ==> tmp in s.m) && s.m[x].parent == ParentOf(c)
    requires x != y && x != tmp && y != tmp
    ensures LinkedAbove(RotatedRight(s, x, y, tmp, keepColor, color), c, y)
  {
    var s1 := WithRight(WithLeft(s, x, tmp), y, x);
    var s2 := if tmp == null then s1 else WithParentColor(s1, tmp, x, if keepColor then Read(s1, tmp).color else Black);
    LinkedAboveFrame(s, s2, c, x);
    hide ParentsRotated;
    ParentsRotatedInPlace(s2, x, y, color, c);
  }

  lemma LinkedBin(m: Memory, l: Tree<Node>, n: Node, c: Color, r: Tree<Node>, p: Node?)
    requires n in m && m[n] == Record(RootOf(l), RootOf(r), p, c)
    requires Linked(m, l, n) && Linked(m, r, n)
    ensures Linked(m, Bin(l, n, c, r), p)
  {
  }

  /** The two nodes of a rotation, and the inner subtree's root, are away from everything else. */
  lemma PiecesApart(c: Ctx<Node>, x: Tree<Node>, m: Node, y: Tree<Node>, b: Node, z: Tree<Node>)
    requires Pieces(c, x, m, y, b, z)
    ensures Distinct(y) && b != m && m !in PathNodes(c) && b !in PathNodes(c) && RootOf(y) !in PathNodes(c)
    ensures m !in Nodes(x) && m !in Nodes(y) && m !in Nodes(z) && b !in Nodes(x) && b !in Nodes(y) && b !in Nodes(z)
    ensures RootOf(y) !in Nodes(x) && RootOf(y) !in Nodes(z) && RootOf(y) != m && RootOf(y) != b
  {
    hide PathDistinct, Distinct;
    assert y.Bin? ==> y.n in Nodes(y);
  }

  /** The pieces of a rotation are apart from each other and from the path. */
  lemma PiecesReady(s: State, c: Ctx<Node>, a: Tree<Node>, x: Node, b: Tree<Node>, y: Node, d: Tree<Node>)
    requires Pieces(c, a, x, b, y, d) && x in s.m && y in s.m && Hangs(s.m, b)
    ensures PathDistinct(c) && x != y && x != RootOf(b) && y != RootOf(b)
    ensures x !in PathNodes(c) && y !in PathNodes(c) && RootOf(b) !in PathNodes(c)
    ensures (b.Bin? ==> b.n in s.m) && (!c.Top? ==> c.n in PathNodes(c))
  {
    assert b.Bin? ==> b.n in Nodes(b);
  }

  lemma RotateLeftInPlace(s: State, c: Ctx<Node>, a: Tree<Node>, x: Node, b: Tree<Node>, y: Node, d: Tree<Node>,
                          b': Tree<Node>, keepColor: bool, color: Color)
    requires Pieces(c, a, x, b, y, d) && LinkedAbove(s, c, x)
    requires x in s.m && s.m[x].left == RootOf(a) && s.m[x].parent == ParentOf(c)
    requires y in s.m && s.m[y].right == RootOf(d)
    requires Linked(s.m, a, x) && Linked(s.m, d, y)
    requires Hangs(s.m, b) && (keepColor && b.Bin? ==> s.m[b.n].color == b.c)
    requires b' == if keepColor then b else Blacken(b)
    ensures x != RootOf(b)
    ensures LinkedAbove(RotatedLeft(s, x, y, RootOf(b), keepColor, color), c, y)
    ensures Linked(RotatedLeft(s, x, y, RootOf(b), keepColor, color).m, Bin(Bin(a, x, color, b'), y, s.m[x].color, d), ParentOf(c))
  {
    var tmp, s' := RootOf(b), RotatedLeft(s, x, y, RootOf(b), keepColor, color);
    PiecesReady(s, c, a, x, b, y, d);
    RotationPathLeft(s, c, x, y, tmp, keepColor, color);
    RotateLeftRecords(s, x, y, tmp, keepColor, color);
    hide RotatedLeft, Pieces, Rotatable, LinkedAbove;
    SubtreesAfterRotation(s, s', c, a, x, b, b', y, d, s'.m[x], s'.m[y], x, y);
    hide Linked, Hangs;
    LinkedBin(s'.m, a, x, color, b', y);
    LinkedBin(s'.m, Bin(a, x, color, b'), y, s.m[x].color, d, ParentOf(c));
  }

  lemma RotateRightInPlace(s: State, c: Ctx<Node>, a: Tree<Node>, y: Node, b: Tree<Node>, x: Node, d: Tree<Node>,
                           b': Tree<Node>, keepColor: bool, color: Color)
    requires Pieces(c, a, y, b, x, d) && LinkedAbove(s, c, x)
    requires x in s.m && s.m[x].right == RootOf(d) && s.m[x].parent == ParentOf(c)
    requires y in s.m && s.m[y].left == RootOf(a)
    requires Linked(s.m, a, y) && Linked(s.m, d, x)
    requires Hangs(s.m, b) && (keepColor && b.Bin? ==> s.m[b.n].color == b.c)
    requires b' == if keepColor then b else Blacken(b)
    ensures x != RootOf(b)
    ensures LinkedAbove(RotatedRight(s, x, y, RootOf(b), keepColor, color), c, y)
    ensures Linked(RotatedRight(s, x, y, RootOf(b), keepColor, color).m, Bin(a, y, s.m[x].color, Bin(b', x, color, d)), ParentOf(c))
  {
    var tmp, s' := RootOf(b), RotatedRight(s, x, y, RootOf(b), keepColor, color);
    PiecesReady(s, c, a, y, b, x, d);
    RotationPathRight(s, c, x, y, tmp, keepColor, color);
    RotateRightRecords(s, x, y, tmp, keepColor, color);
    hide RotatedRight, Pieces, Rotatable, LinkedAbove;
    SubtreesAfterRotation(s, s', c, a, x, b, b', y, d, s'.m[x], s'.m[y], y, x);
    hide Linked, Hangs;
    LinkedBin(s'.m, b', x, color, d, y);
    LinkedBin(s'.m, a, y, s.m[x].color, Bin(b', x, color, d), ParentOf(c));
  }
}
