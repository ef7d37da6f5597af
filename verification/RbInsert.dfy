/** The rebalancing cases after an insertion: each turn of the loop in __rb_insert, as a change to
    the nodes' fields, puts in place what RbBalance.InsertFix computes. */
module RbInsert {
  import opened RbBalance
  import opened RbHeap

  /** Case 1: grandparent g, with red children a and b (uncle and parent). */
  function Flipped(s: State, a: Node, b: Node, g: Node): State {
    var s' := WithParentColor(WithParentColor(s, a, g, Black), b, g, Black);
    WithParentColor(s', g, Read(s', g).parent, Red)
  }

  lemma FlippedInPlace(s: State, c: Ctx<Node>, l: Tree<Node>, g: Node, gc: Color, r: Tree<Node>, a: Node, b: Node)
    requires At(s, c, Bin(l, g, gc, r)) && Apart(c, Bin(l, g, gc, r))
    requires l.Bin? && r.Bin? && g in s.m && a in s.m && b in s.m && ((a == l.n && b == r.n) || (a == r.n && b == l.n))
    ensures At(Flipped(s, a, b, g), c, Bin(Blacken(l), g, Red, Blacken(r)))
  {
    var s' := Flipped(s, a, b, g);
    assert Linked(s.m, l, g) && Linked(s.m, r, g);
    assert l.n in Nodes(l) && r.n in Nodes(r);
    LinkedAboveFrame(s, s', c, g);
    HangsFrame(s.m, s'.m, l, Blacken(l), g);
    HangsFrame(s.m, s'.m, r, Blacken(r), g);
    LinkedBin(s'.m, Blacken(l), g, Red, Blacken(r), ParentOf(c));
  }

  /** Case 2, before case 3 completes it: node n takes parent p below it on the left. */
  function TuckedLeft(s: State, p: Node, n: Node): State {
    var tmp := Read(s, n).left;
    var s1 := WithLeft(WithRight(s, p, tmp), n, p);
    var s2 := if tmp == null then s1 else WithParentColor(s1, tmp, p, Black);
    WithParentColor(s2, p, n, Red)
  }

  function TuckedRight(s: State, p: Node, n: Node): State {
    var tmp := Read(s, n).right;
    var s1 := WithRight(WithLeft(s, p, tmp), n, p);
    var s2 := if tmp == null then s1 else WithParentColor(s1, tmp, p, Black);
    WithParentColor(s2, p, n, Red)
  }

  /** What tucking below n leaves: p and n hold the given records, and n's inner child hangs black below p. */
  ghost predicate Tucked(s: State, s': State, p: Node, pr: Record, n: Node, nr: Record, tmp: Node?) {
    && s'.root == s.root && p in s'.m && s'.m[p] == pr && n in s'.m && s'.m[n] == nr
    && (tmp != null ==> tmp in s.m && tmp in s'.m && s'.m[tmp] == s.m[tmp].(parent := p, color := Black))
    && forall k :: k in s.m && k != p && k != n && k != tmp ==> k in s'.m && s'.m[k] == s.m[k]
  }

  lemma TuckedRecords(s: State, p: Node, n: Node)
    requires p in s.m && n in s.m && p != n
    ensures var tmp := s.m[n].left; (tmp != null ==> tmp in s.m && tmp != p && tmp != n) ==>
              Tucked(s, TuckedLeft(s, p, n), p, s.m[p].(right := tmp, parent := n, color := Red), n, s.m[n].(left := p), tmp)
    ensures var tmp := s.m[n].right; (tmp != null ==> tmp in s.m && tmp != p && tmp != n) ==>
              Tucked(s, TuckedRight(s, p, n), p, s.m[p].(left := tmp, parent := n, color := Red), n, s.m[n].(right := p), tmp)
  {
  }

  lemma TuckedKeeps(s: State, s': State, p: Node, pr: Record, n: Node, nr: Record, tmp: Node?, t: Tree<Node>, q: Node)
    requires Tucked(s, s', p, pr, n, nr, tmp) && Linked(s.m, t, q)
    requires p !in Nodes(t) && n !in Nodes(t) && tmp !in Nodes(t)
    ensures Linked(s'.m, t, q)
  {
    LinkedFrame(s.m, s'.m, t, q);
  }

  lemma TuckedHands(s: State, s': State, p: Node, pr: Record, n: Node, nr: Record, t: Tree<Node>)
    requires Tucked(s, s', p, pr, n, nr, RootOf(t)) && Hangs(s.m, t) && Distinct(t) && p !in Nodes(t) && n !in Nodes(t)
    ensures Linked(s'.m, Blacken(t), p)
  {
    HangsFrame(s.m, s'.m, t, Blacken(t), p);
  }

  lemma TuckedPath(s: State, s': State, p: Node, pr: Record, n: Node, nr: Record, tmp: Node?, c: Ctx<Node>, x: Node?)
    requires Tucked(s, s', p, pr, n, nr, tmp) && LinkedAbove(s, c, x)
    requires p !in PathNodes(c) && n !in PathNodes(c) && tmp !in PathNodes(c)
    ensures LinkedAbove(s', c, x)
  {
    LinkedAboveFrame(s, s', c, x);
  }

  /** The subtrees around a tucked node, and the path above it. */
  lemma TuckedFrames(s: State, s': State, c: Ctx<Node>, a: Tree<Node>, x: Node, b: Tree<Node>, y: Node, d: Tree<Node>,
                     p: Node, pr: Record, n: Node, nr: Record, pa: Node, pd: Node)
    requires Pieces(c, a, x, b, y, d) && ((p == x && n == y) || (p == y && n == x))
    requires Tucked(s, s', p, pr, n, nr, RootOf(b))
    requires Linked(s.m, a, pa) && Hangs(s.m, b) && Linked(s.m, d, pd) && LinkedAbove(s, c, p)
    ensures Linked(s'.m, a, pa) && Linked(s'.m, Blacken(b), p) && Linked(s'.m, d, pd) && LinkedAbove(s', c, p)
  {
    hide *;
    PiecesApart(c, a, x, b, y, d);
    TuckedKeeps(s, s', p, pr, n, nr, RootOf(b), a, pa);
    TuckedKeeps(s, s', p, pr, n, nr, RootOf(b), d, pd);
    TuckedHands(s, s', p, pr, n, nr, b);
    TuckedPath(s, s', p, pr, n, nr, RootOf(b), c, p);
  }

  lemma TuckedLeftInPlace(s: State, c: Ctx<Node>, a: Tree<Node>, p: Node, b: Tree<Node>, n: Node, d: Tree<Node>)
    requires Pieces(c, a, p, b, n, d) && LinkedAbove(s, c, p)
    requires p in s.m && s.m[p].left == RootOf(a) && n in s.m && s.m[n].left == RootOf(b)
    requires Linked(s.m, a, p) && Hangs(s.m, b) && Linked(s.m, d, n) && (b.Bin? ==> b.n in s.m)
    ensures var s' := TuckedLeft(s, p, n);
      && Linked(s'.m, Bin(a, p, Red, Blacken(b)), n) && Linked(s'.m, d, n)
      && n in s'.m && s'.m[n] == s.m[n].(left := p)
      && LinkedAbove(s', c, p)
  {
    var s' := TuckedLeft(s, p, n);
    PiecesReady(s, c, a, p, b, n, d);
    TuckedRecords(s, p, n);
    hide TuckedLeft, Pieces;
    TuckedFrames(s, s', c, a, p, b, n, d, p, s'.m[p], n, s'.m[n], p, n);
    hide Linked, LinkedAbove;
    LinkedBin(s'.m, a, p, Red, Blacken(b), n);
  }

  lemma TuckedRightInPlace(s: State, c: Ctx<Node>, a: Tree<Node>, n: Node, b: Tree<Node>, p: Node, d: Tree<Node>)
    requires Pieces(c, a, n, b, p, d) && LinkedAbove(s, c, p)
    requires p in s.m && s.m[p].right == RootOf(d) && n in s.m && s.m[n].right == RootOf(b)
    requires Linked(s.m, d, p) && Hangs(s.m, b) && Linked(s.m, a, n) && (b.Bin? ==> b.n in s.m)
    ensures var s' := TuckedRight(s, p, n);
      && Linked(s'.m, Bin(Blacken(b), p, Red, d), n) && Linked(s'.m, a, n)
      && n in s'.m && s'.m[n] == s.m[n].(right := p)
      && LinkedAbove(s', c, p)
  {
    var s' := TuckedRight(s, p, n);
    PiecesReady(s, c, a, n, b, p, d);
    TuckedRecords(s, p, n);
    hide TuckedRight, Pieces;
    TuckedFrames(s, s', c, a, n, b, p, d, p, s'.m[p], n, s'.m[n], n, p);
    hide Linked, LinkedAbove;
    LinkedBin(s'.m, Blacken(b), p, Red, d, n);
  }

  // Case 3, with or without case 2 before it. The subtree t of the inserted node is an outer or an
  // inner grandchild of g; q is t's sibling and u the uncle.

  lemma OuterRight(s: State, c: Ctx<Node>, t: Tree<Node>, p: Node, pc: Color, q: Tree<Node>, g: Node, gc: Color, u: Tree<Node>)
    requires At(s, c, Bin(Bin(t, p, pc, q), g, gc, u)) && Unique(Plug(c, Bin(Bin(t, p, pc, q), g, gc, u)))
    ensures At(RotatedRight(s, g, p, RootOf(q), false, Red), c, Bin(t, p, gc, Bin(Blacken(q), g, Red, u)))
  {
    UniquePieces(c, t, p, q, g, u, pc, gc);
    assert Linked(s.m, Bin(t, p, pc, q), g) && Linked(s.m, q, p);
    RotateRightInPlace(s, c, t, p, q, g, u, Blacken(q), false, Red);
  }

  lemma OuterLeft(s: State, c: Ctx<Node>, u: Tree<Node>, g: Node, gc: Color, q: Tree<Node>, p: Node, pc: Color, t: Tree<Node>)
    requires At(s, c, Bin(u, g, gc, Bin(q, p, pc, t))) && Unique(Plug(c, Bin(u, g, gc, Bin(q, p, pc, t))))
    ensures At(RotatedLeft(s, g, p, RootOf(q), false, Red), c, Bin(Bin(u, g, Red, Blacken(q)), p, gc, t))
  {
    UniquePieces(c, u, g, q, p, t, gc, pc);
    assert Linked(s.m, Bin(q, p, pc, t), g) && Linked(s.m, q, p);
    RotateLeftInPlace(s, c, u, g, q, p, t, Blacken(q), false, Red);
  }

  lemma InnerRightPieces(c: Ctx<Node>, q: Tree<Node>, p: Node, pc: Color, t: Tree<Node>, g: Node, gc: Color, u: Tree<Node>)
    requires t.Bin? && Unique(Plug(c, Bin(Bin(q, p, pc, t), g, gc, u)))
    ensures Pieces(InLeft(g, gc, u, c), q, p, t.l, t.n, t.r)
    ensures Pieces(c, Bin(q, p, Red, Blacken(t.l)), t.n, t.r, g, u)
  {
    var old', mid := Bin(q, p, pc, t), Bin(Bin(q, p, Red, Blacken(t.l)), t.n, Red, t.r);
    assert Plug(InLeft(g, gc, u, c), Bin(q, p, pc, Bin(t.l, t.n, t.c, t.r))) == Plug(c, Bin(old', g, gc, u));
    UniquePieces(InLeft(g, gc, u, c), q, p, t.l, t.n, t.r, pc, t.c);
    assert Inorder(old') == Inorder(mid) by {
      BlackenKeepsOrder(t.l);
      assert Inorder(t) == Inorder(Bin(t.l, t.n, Red, t.r));
      RotationKeepsOrder(q, p, t.l, t.n, t.r, Red);
    }
    PlugKeepsOrder(c, Bin(old', g, gc, u), Bin(mid, g, gc, u));
    UniquePieces(c, Bin(q, p, Red, Blacken(t.l)), t.n, t.r, g, u, Red, gc);
  }

  lemma InnerLeftPieces(c: Ctx<Node>, u: Tree<Node>, g: Node, gc: Color, t: Tree<Node>, p: Node, pc: Color, q: Tree<Node>)
    requires t.Bin? && Unique(Plug(c, Bin(u, g, gc, Bin(t, p, pc, q))))
    ensures Pieces(InRight(u, g, gc, c), t.l, t.n, t.r, p, q)
    ensures Pieces(c, u, g, t.l, t.n, Bin(Blacken(t.r), p, Red, q))
  {
    var old', mid := Bin(t, p, pc, q), Bin(t.l, t.n, Red, Bin(Blacken(t.r), p, Red, q));
    assert Plug(InRight(u, g, gc, c), Bin(Bin(t.l, t.n, t.c, t.r), p, pc, q)) == Plug(c, Bin(u, g, gc, old'));
    UniquePieces(InRight(u, g, gc, c), t.l, t.n, t.r, p, q, t.c, pc);
    assert Inorder(old') == Inorder(mid) by {
      BlackenKeepsOrder(t.r);
      assert Inorder(t) == Inorder(Bin(t.l, t.n, Red, t.r));
      RotationKeepsOrder(t.l, t.n, t.r, p, q, Red);
    }
    PlugKeepsOrder(c, Bin(u, g, gc, old'), Bin(u, g, gc, mid));
    UniquePieces(c, u, g, t.l, t.n, Bin(Blacken(t.r), p, Red, q), gc, Red);
  }

  lemma InnerRight(s: State, c: Ctx<Node>, q: Tree<Node>, p: Node, pc: Color, t: Tree<Node>, g: Node, gc: Color, u: Tree<Node>)
    requires t.Bin? && At(s, c, Bin(Bin(q, p, pc, t), g, gc, u)) && Unique(Plug(c, Bin(Bin(q, p, pc, t), g, gc, u)))
    ensures At(RotatedRight(TuckedLeft(s, p, t.n), g, t.n, RootOf(t.r), false, Red), c,
               Bin(Bin(q, p, Red, Blacken(t.l)), t.n, gc, Bin(Blacken(t.r), g, Red, u)))
  {
    InnerRightPieces(c, q, p, pc, t, g, gc, u);
    var c', s' := InLeft(g, gc, u, c), TuckedLeft(s, p, t.n);
    assert Linked(s.m, Bin(q, p, pc, t), g) && Linked(s.m, t, p);
    assert Linked(s.m, t.l, t.n) && Linked(s.m, t.r, t.n);
    TuckedLeftInPlace(s, c', q, p, t.l, t.n, t.r);
    RotateRightInPlace(s', c, Bin(q, p, Red, Blacken(t.l)), t.n, t.r, g, u, Blacken(t.r), false, Red);
  }

  lemma InnerLeft(s: State, c: Ctx<Node>, u: Tree<Node>, g: Node, gc: Color, t: Tree<Node>, p: Node, pc: Color, q: Tree<Node>)
    requires t.Bin? && At(s, c, Bin(u, g, gc, Bin(t, p, pc, q))) && Unique(Plug(c, Bin(u, g, gc, Bin(t, p, pc, q))))
    ensures At(RotatedLeft(TuckedRight(s, p, t.n), g, t.n, RootOf(t.l), false, Red), c,
               Bin(Bin(u, g, Red, Blacken(t.l)), t.n, gc, Bin(Blacken(t.r), p, Red, q)))
  {
    InnerLeftPieces(c, u, g, gc, t, p, pc, q);
    var c', s' := InRight(u, g, gc, c), TuckedRight(s, p, t.n);
    assert Linked(s.m, Bin(t, p, pc, q), g) && Linked(s.m, t, p);
    assert Linked(s.m, t.l, t.n) && Linked(s.m, t.r, t.n);
    TuckedRightInPlace(s, c', t.l, t.n, t.r, p, q);
    RotateLeftInPlace(s', c, u, g, t.l, t.n, Bin(Blacken(t.r), p, Red, q), Blacken(t.l), false, Red);
  }

  // ----- the turns of the loop

  /** Where the loop stands: t is the subtree of the red node being looked at, c the path above it. */
  ghost predicate Climbing(s: State, c: Ctx<Node>, t: Tree<Node>, h: nat) {
    && Nodes(t) + PathNodes(c) <= s.m.Keys
    && At(s, c, t) && Unique(Plug(c, t))
    && IsRed(t) && Balanced(t, h) && Fits(c, h, Black)
  }

  /** What the loop reads: the parent, the grandparent and the uncle. */
  lemma Reads(s: State, c: Ctx<Node>, t: Tree<Node>, h: nat)
    requires Climbing(s, c, t, h)
    ensures t.n in s.m && s.m[t.n] == Record(RootOf(t.l), RootOf(t.r), ParentOf(c), Red)
    ensures (t.l.Bin? ==> t.l.n in s.m) && (t.r.Bin? ==> t.r.n in s.m)
    ensures !c.Top? ==> c.n in s.m && s.m[c.n].color == c.c && s.m[c.n].parent == ParentOf(c.up)
    ensures c.InLeft? ==> s.m[c.n].left == t.n && s.m[c.n].right == RootOf(c.r) && s.m[c.n].right != t.n
    ensures c.InRight? ==> s.m[c.n].right == t.n && s.m[c.n].left == RootOf(c.l) && s.m[c.n].left != t.n
  {
    UniqueApart(c, t);
    assert t.n in Nodes(t) && (t.l.Bin? ==> t.l.n in Nodes(t.l)) && (t.r.Bin? ==> t.r.n in Nodes(t.r));
    if c.InLeft? && c.r.Bin? { assert c.r.n in Nodes(c.r); }
    if c.InRight? && c.l.Bin? { assert c.l.n in Nodes(c.l); }
  }

  /** The subtree of the hole's parent. */
  function ParentTree(c: Ctx<Node>, t: Tree<Node>): Tree<Node>
    requires !c.Top?
  {
    if c.InLeft? then Bin(t, c.n, c.c, c.r) else Bin(c.l, c.n, c.c, t)
  }

  ghost predicate RedParent(s: State, c: Ctx<Node>, t: Tree<Node>, h: nat) {
    Climbing(s, c, t, h) && !c.Top? && c.c == Red
  }

  function Uncle(c: Ctx<Node>): Tree<Node>
    requires !c.Top? && !c.up.Top?
  {
    if c.up.InLeft? then c.up.r else c.up.l
  }

  /** A red parent is not the root, so there is a grandparent, whose fields the loop reads next. */
  lemma ReadsGrandparent(s: State, c: Ctx<Node>, t: Tree<Node>, h: nat)
    requires RedParent(s, c, t, h)
    ensures !c.up.Top? && c.up.n in s.m && c.n in s.m && t.n in s.m
    ensures Uncle(c).Bin? ==> Uncle(c).n in s.m && s.m[Uncle(c).n].color == Uncle(c).c
    ensures s.m[c.up.n].parent == ParentOf(c.up.up) && (ParentOf(c.up.up) != null ==> ParentOf(c.up.up) in s.m)
    ensures c.up.InLeft? ==> s.m[c.up.n].left == c.n && s.m[c.up.n].right == RootOf(c.up.r) && RootOf(c.up.r) != c.n
    ensures c.up.InRight? ==> s.m[c.up.n].right == c.n && s.m[c.up.n].left == RootOf(c.up.l)
  {
    Reads(s, c, t, h);
    UniqueApart(c, t);
    var up := c.up;
    assert LinkedAbove(s, up, c.n) && Fits(up, h, Red);
    assert !up.Top? && PathNodes(up) <= PathNodes(c) && up.n in PathNodes(up);
    assert !up.up.Top? ==> up.up.n in PathNodes(up.up) && PathNodes(up.up) <= PathNodes(up);
    var u := Uncle(c);
    assert Linked(s.m, u, up.n);
    assert u.Bin? ==> u.n in Nodes(u) && u.n in PathNodes(up);
  }

  /** The grandparent's subtree, before and after the colour flip. */
  function GrandTree(c: Ctx<Node>, t: Tree<Node>): Tree<Node>
    requires !c.Top? && !c.up.Top?
  {
    ParentTree(c.up, ParentTree(c, t))
  }

  function FlippedTree(c: Ctx<Node>, t: Tree<Node>): Tree<Node>
    requires !c.Top? && !c.up.Top?
  {
    var q := GrandTree(c, t);
    Bin(Blacken(q.l), q.n, Red, Blacken(q.r))
  }

  lemma FlipBalances(c: Ctx<Node>, t: Tree<Node>, h: nat)
    requires !c.Top? && c.c == Red && !c.up.Top? && IsRed(Uncle(c))
    requires IsRed(t) && Balanced(t, h) && Fits(c, h, Black)
    ensures Balanced(FlippedTree(c, t), h + 1) && Fits(c.up.up, h + 1, Black)
    ensures InsertFix(FlippedTree(c, t), c.up.up) == InsertFix(t, c)
    ensures Inorder(Plug(c.up.up, FlippedTree(c, t))) == Inorder(Plug(c, t))
  {
    InsertFixKeepsOrder(t, c);
    InsertFixKeepsOrder(FlippedTree(c, t), c.up.up);
    FitsBlack(c.up.up, h + 1, c.up.c);
    BlackenBalances(Uncle(c), h);
  }

  lemma TurnFlip(s: State, c: Ctx<Node>, t: Tree<Node>, h: nat)
    requires RedParent(s, c, t, h) && !c.up.Top? && IsRed(Uncle(c))
    requires Uncle(c).n in s.m && c.n in s.m && c.up.n in s.m
    ensures Climbing(Flipped(s, Uncle(c).n, c.n, c.up.n), c.up.up, FlippedTree(c, t), h + 1)
    ensures InsertFix(FlippedTree(c, t), c.up.up) == InsertFix(t, c)
  {
    FlipBalances(c, t, h);
    var q := GrandTree(c, t);
    GrandInPlace(s, c, t);
    FlippedInPlace(s, c.up.up, q.l, q.n, q.c, q.r, Uncle(c).n, c.n);
  }

  lemma GrandInPlace(s: State, c: Ctx<Node>, t: Tree<Node>)
    requires !c.Top? && !c.up.Top? && Unique(Plug(c, t)) && At(s, c, t)
    ensures Plug(c.up.up, GrandTree(c, t)) == Plug(c, t)
    ensures At(s, c.up.up, GrandTree(c, t)) && Apart(c.up.up, GrandTree(c, t))
    ensures Nodes(GrandTree(c, t)) + PathNodes(c.up.up) == Nodes(t) + PathNodes(c)
    ensures t.Bin? ==> Nodes(FlippedTree(c, t)) == Nodes(GrandTree(c, t))
  {
    var q := GrandTree(c, t);
    assert Plug(c.up.up, q) == Plug(c.up, ParentTree(c, t)) == Plug(c, t);
    AtPlug(s, c, t);
    AtPlug(s, c.up.up, q);
    UniqueApart(c.up.up, q);
  }

  /** Cases 2 and 3 end the loop: the tree is repaired. The parent is a left child here. */
  function TurnedUnderLeft(s: State, node: Node, parent: Node, gparent: Node): State {
    if node == Read(s, parent).right then
      var s' := TuckedLeft(s, parent, node);
      RotatedRight(s', gparent, node, Read(s', node).right, false, Red)
    else
      RotatedRight(s, gparent, parent, Read(s, parent).right, false, Red)
  }

  function TurnedUnderRight(s: State, node: Node, parent: Node, gparent: Node): State {
    if node == Read(s, parent).left then
      var s' := TuckedRight(s, parent, node);
      RotatedLeft(s', gparent, node, Read(s', node).left, false, Red)
    else
      RotatedLeft(s, gparent, parent, Read(s, parent).left, false, Red)
  }

  /** The pointers the rotations follow are in memory. */
  ghost predicate CanRotate(s: State, node: Node, parent: Node, gparent: Node) {
    && node in s.m && parent in s.m && gparent in s.m
    && node != parent && node != gparent && parent != gparent
    && (s.m[gparent].parent != null ==> s.m[gparent].parent in s.m)
    && Known(s, s.m[parent].left) && Known(s, s.m[parent].right)
    && Known(s, s.m[node].left) && Known(s, s.m[node].right)
    && s.m[parent].left != gparent && s.m[parent].right != gparent
    && s.m[node].left != gparent && s.m[node].right != gparent
    && s.m[node].left != parent && s.m[node].right != parent
    && s.m[node].left != node && s.m[node].right != node
  }

  lemma TurnRotate(s: State, c: Ctx<Node>, t: Tree<Node>, h: nat)
    requires RedParent(s, c, t, h) && !c.up.Top? && IsBlack(Uncle(c))
    ensures CanRotate(s, t.n, c.n, c.up.n)
    ensures c.up.InLeft? ==> At(TurnedUnderLeft(s, t.n, c.n, c.up.n), Top, InsertFix(t, c))
    ensures c.up.InRight? ==> At(TurnedUnderRight(s, t.n, c.n, c.up.n), Top, InsertFix(t, c))
  {
    RotationReady(s, c, t, h);
    GrandInPlace(s, c, t);
    var g, gc, up := c.up.n, c.up.c, c.up.up;
    match c
    case InLeft(p, _, q, InLeft(_, _, u, _)) =>
      OuterRight(s, up, t, p, Red, q, g, gc, u);
      AtPlug(TurnedUnderLeft(s, t.n, p, g), up, Bin(t, p, gc, Bin(Blacken(q), g, Red, u)));
    case InRight(q, p, _, InLeft(_, _, u, _)) =>
      InnerRight(s, up, q, p, Red, t, g, gc, u);
      AtPlug(TurnedUnderLeft(s, t.n, p, g), up, Bin(Bin(q, p, Red, Blacken(t.l)), t.n, gc, Bin(Blacken(t.r), g, Red, u)));
    case InRight(q, p, _, InRight(u, _, _, _)) =>
      OuterLeft(s, up, u, g, gc, q, p, Red, t);
      AtPlug(TurnedUnderRight(s, t.n, p, g), up, Bin(Bin(u, g, Red, Blacken(q)), p, gc, t));
    case InLeft(p, _, q, InRight(u, _, _, _)) =>
      InnerLeft(s, up, u, g, gc, t, p, Red, q);
      AtPlug(TurnedUnderRight(s, t.n, p, g), up, Bin(Bin(u, g, Red, Blacken(t.l)), t.n, gc, Bin(Blacken(t.r), p, Red, q)));
  }

  /** The nodes that a rotation reads are different ones. */
  lemma RotationApart(c: Ctx<Node>, t: Tree<Node>)
    requires Apart(c, t) && t.Bin? && !c.Top? && !c.up.Top?
    ensures var q, g := if c.InLeft? then c.r else c.l, c.up.n;
      && t.n != c.n && t.n != g && c.n != g && RootOf(q) != g
      && RootOf(t.l) != t.n && RootOf(t.r) != t.n && RootOf(t.l) != c.n && RootOf(t.r) != c.n && RootOf(t.l) != g && RootOf(t.r) != g
  {
    var q := if c.InLeft? then c.r else c.l;
    assert q.Bin? ==> q.n in Nodes(q);
    assert c.up.n in PathNodes(c.up) && c.n in PathNodes(c) && PathNodes(c.up) <= PathNodes(c);
    assert t.n in Nodes(t) && (t.l.Bin? ==> t.l.n in Nodes(t.l)) && (t.r.Bin? ==> t.r.n in Nodes(t.r));
    assert Nodes(t.l) <= Nodes(t) && Nodes(t.r) <= Nodes(t);
  }

  /** They are all in memory. */
  lemma RotationInMemory(s: State, c: Ctx<Node>, t: Tree<Node>, h: nat)
    requires RedParent(s, c, t, h) && !c.up.Top?
    ensures RootOf(if c.InLeft? then c.r else c.l) != null ==> RootOf(if c.InLeft? then c.r else c.l) in s.m
    ensures Apart(c, t)
  {
    hide Linked, LinkedAbove, Balanced, Fits;
    UniqueApart(c, t);
    var q := if c.InLeft? then c.r else c.l;
    assert q.Bin? ==> q.n in Nodes(q) && q.n in PathNodes(c);
  }

  /** Tucking keeps the outer child of the node that moves up. */
  lemma TuckingReads(s: State, p: Node, n: Node)
    requires p in s.m && n in s.m && p != n
    ensures Read(TuckedLeft(s, p, n), n).right == s.m[n].right || s.m[n].left == n
    ensures Read(TuckedRight(s, p, n), n).left == s.m[n].left || s.m[n].right == n
  {
  }

  lemma RotationReady(s: State, c: Ctx<Node>, t: Tree<Node>, h: nat)
    requires RedParent(s, c, t, h) && !c.up.Top?
    ensures CanRotate(s, t.n, c.n, c.up.n)
    ensures Read(TuckedLeft(s, c.n, t.n), t.n).right == RootOf(t.r)
    ensures Read(TuckedRight(s, c.n, t.n), t.n).left == RootOf(t.l)
  {
    Reads(s, c, t, h);
    ReadsGrandparent(s, c, t, h);
    RotationInMemory(s, c, t, h);
    hide Climbing, Apart, TuckedLeft, TuckedRight;
    RotationApart(c, t);
    TuckingReads(s, c.n, t.n);
  }

  lemma BlackRootInPlace(s: State, t: Tree<Node>)
    requires t.Bin? && At(s, Top, t) && Unique(t)
    ensures At(WithParentColor(s, t.n, null, Black), Top, Blacken(t))
  {
    var s' := WithParentColor(s, t.n, null, Black);
    UniqueApart(Top, t);
    HangsFrame(s.m, s'.m, t, Blacken(t), null);
  }
}
