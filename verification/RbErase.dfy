/** The rebalancing cases after an erasure: each turn of the loop in __rb_erase_color, as a change
    to the nodes' fields, puts in place what RbBalance.EraseStep computes. */
module RbErase {
  import opened RbBalance
  import opened RbHeap

  /** Where the loop stands: t is one black node short, c is the path above it. */
  ghost predicate Short(s: State, c: Ctx<Node>, t: Tree<Node>, h: nat) {
    && Nodes(t) + PathNodes(c) <= s.m.Keys
    && At(s, c, t) && Unique(Plug(c, t))
    && !c.Top? && IsBlack(t) && Balanced(t, h) && Fits(c, h + 1, Black)
  }

  function Sibling(c: Ctx<Node>): Tree<Node>
    requires !c.Top?
  {
    if c.InLeft? then c.r else c.l
  }

  ghost predicate Stored(s: State, t: Tree<Node>, p: Node?) {
    t.Bin? ==> t.n in s.m && s.m[t.n] == Record(RootOf(t.l), RootOf(t.r), p, t.c)
  }

  /** What the loop reads around the parent p and the sibling. */
  lemma SiblingReads(s: State, c: Ctx<Node>, t: Tree<Node>, h: nat)
    requires Short(s, c, t, h)
    ensures Apart(c, t) && LinkedAbove(s, c.up, c.n) && Linked(s.m, t, c.n)
    ensures Linked(s.m, Sibling(c), c.n) && Sibling(c).Bin?
    ensures Linked(s.m, Sibling(c).l, Sibling(c).n) && Linked(s.m, Sibling(c).r, Sibling(c).n)
    ensures c.n in s.m && s.m[c.n].parent == ParentOf(c.up) && s.m[c.n].color == c.c
    ensures ParentOf(c.up) != null ==> ParentOf(c.up) in s.m
    ensures var b := Sibling(c);
      && b.Bin? && Stored(s, b, c.n) && Stored(s, b.l, b.n) && Stored(s, b.r, b.n)
      && b.n != c.n && b.n != RootOf(t)
      && (b.c == Red ==> b.l.Bin? && b.r.Bin? && IsBlack(b.l) && IsBlack(b.r))
    ensures c.InLeft? ==> s.m[c.n].left == RootOf(t) && s.m[c.n].right == RootOf(c.r)
    ensures c.InRight? ==> s.m[c.n].right == RootOf(t) && s.m[c.n].left == RootOf(c.l)
  {
    UniqueApart(c, t);
    var b := Sibling(c);
    assert Balanced(b, h + 1) && Linked(s.m, b, c.n);
    assert Linked(s.m, b.l, b.n) && Linked(s.m, b.r, b.n);
    assert b.Bin? && b.n in Nodes(b) && b.n in PathNodes(c) && (t.Bin? ==> t.n in Nodes(t));
    assert b.c == Red ==> Balanced(b.l, h + 1) && Balanced(b.r, h + 1);
    assert !c.up.Top? ==> c.up.n in PathNodes(c.up);
  }

  // ----- case 1: a red sibling is rotated up, leaving a black one

  /** The path once the red sibling has moved above the parent. */
  function RotatedPath(c: Ctx<Node>): Ctx<Node>
    requires !c.Top? && Sibling(c).Bin?
  {
    var b := Sibling(c);
    if c.InLeft? then InLeft(c.n, Red, Blacken(b.l), InLeft(b.n, c.c, b.r, c.up))
    else InRight(Blacken(b.r), c.n, Red, InRight(b.l, b.n, c.c, c.up))
  }

  function Case1(s: State, c: Ctx<Node>): State
    requires !c.Top? && Sibling(c).Bin?
  {
    var b := Sibling(c);
    if c.InLeft? then RotatedLeft(s, c.n, b.n, Read(s, b.n).left, false, Red)
    else RotatedRight(s, c.n, b.n, Read(s, b.n).right, false, Red)
  }

  lemma Case1Balances(c: Ctx<Node>, t: Tree<Node>, h: nat)
    requires !c.Top? && IsRed(Sibling(c)) && Fits(c, h + 1, Black) && IsBlack(t) && Balanced(t, h)
    ensures Fits(RotatedPath(c), h + 1, Black) && IsBlack(Sibling(RotatedPath(c))) && c.c == Black
    ensures Inorder(Plug(RotatedPath(c), t)) == Inorder(Plug(c, t))
    ensures EraseStep(t, c) == EraseStepBlack(t, RotatedPath(c))
  {
    var b := Sibling(c);
    assert Balanced(b.l, h + 1) && Balanced(b.r, h + 1);
    if c.InLeft? {
      RotationKeepsOrder(t, c.n, b.l, b.n, b.r, Red);
      BlackenKeepsOrder(b.l);
      PlugKeepsOrder(c.up, Bin(t, c.n, c.c, b), Bin(Bin(t, c.n, Red, Blacken(b.l)), b.n, c.c, b.r));
    } else {
      RotationKeepsOrder(b.l, b.n, b.r, c.n, t, Red);
      BlackenKeepsOrder(b.r);
      PlugKeepsOrder(c.up, Bin(b, c.n, c.c, t), Bin(b.l, b.n, c.c, Bin(Blacken(b.r), c.n, Red, t)));
    }
  }

  lemma Case1InPlace(s: State, c: Ctx<Node>, t: Tree<Node>, h: nat)
    requires Short(s, c, t, h) && IsRed(Sibling(c))
    ensures Short(Case1(s, c), RotatedPath(c), t, h)
  {
    Case1Balances(c, t, h);
    Case1At(s, c, t, h);
    RotationKeys(s, c.n, Sibling(c).n, RootOf(Sibling(c).l), false, Red);
    RotationKeys(s, c.n, Sibling(c).n, RootOf(Sibling(c).r), false, Red);
    SiblingReads(s, c, t, h);
    var c' := RotatedPath(c);
    assert Nodes(t) + PathNodes(c) == Nodes(t) + PathNodes(c') by {
      AtPlug(s, c, t);
      AtPlug(s, c', t);
      NodesOfInorder(Plug(c, t));
      NodesOfInorder(Plug(c', t));
    }
  }

  lemma Case1LeftAt(s: State, c: Ctx<Node>, t: Tree<Node>, h: nat)
    requires Short(s, c, t, h) && IsRed(Sibling(c)) && c.InLeft?
    ensures At(Case1(s, c), RotatedPath(c), t)
  {
    SiblingReads(s, c, t, h);
    var b, up := Sibling(c), c.up;
    hide Unique, Fits, Balanced, Pieces, Nodes, PathNodes, Distinct, PathDistinct, RotatedLeft, RotatedRight;
    UniquePieces(up, t, c.n, b.l, b.n, b.r, c.c, b.c);
    RotateLeftInPlace(s, up, t, c.n, b.l, b.n, b.r, Blacken(b.l), false, Red);
    assert At(Case1(s, c), InLeft(b.n, c.c, b.r, up), Bin(t, c.n, Red, Blacken(b.l)));
  }

  lemma Case1RightAt(s: State, c: Ctx<Node>, t: Tree<Node>, h: nat)
    requires Short(s, c, t, h) && IsRed(Sibling(c)) && c.InRight?
    ensures At(Case1(s, c), RotatedPath(c), t)
  {
    SiblingReads(s, c, t, h);
    var b, up := Sibling(c), c.up;
    hide Unique, Fits, Balanced, Pieces, Nodes, PathNodes, Distinct, PathDistinct, RotatedLeft, RotatedRight;
    UniquePieces(up, b.l, b.n, b.r, c.n, t, b.c, c.c);
    RotateRightInPlace(s, up, b.l, b.n, b.r, c.n, t, Blacken(b.r), false, Red);
    assert At(Case1(s, c), InRight(b.l, b.n, c.c, up), Bin(Blacken(b.r), c.n, Red, t));
  }

  lemma Case1At(s: State, c: Ctx<Node>, t: Tree<Node>, h: nat)
    requires Short(s, c, t, h) && IsRed(Sibling(c))
    ensures At(Case1(s, c), RotatedPath(c), t)
  {
    if c.InLeft? { Case1LeftAt(s, c, t, h); } else { Case1RightAt(s, c, t, h); }
  }

  // ----- case 2: a black sibling with black children is coloured red

  function Reddened(s: State, sibling: Node, parent: Node): State {
    WithParentColor(s, sibling, parent, Red)
  }

  function ParentBlackened(s: State, parent: Node): State {
    WithParentColor(s, parent, Read(s, parent).parent, Black)
  }

  function Case2Tree(c: Ctx<Node>, t: Tree<Node>): Tree<Node>
    requires !c.Top? && Sibling(c).Bin?
  {
    var b := Sibling(c).(c := Red);
    if c.InLeft? then Bin(t, c.n, Black, b) else Bin(b, c.n, Black, t)
  }

  lemma Case2Frame(s: State, s': State, c: Ctx<Node>, t: Tree<Node>)
    requires !c.Top? && Sibling(c).Bin? && Apart(c, t)
    requires LinkedAbove(s, c.up, c.n) && Linked(s.m, t, c.n) && Linked(s.m, Sibling(c), c.n)
    requires s'.root == s.root && c.n in s'.m && Sibling(c).n in s.m && Sibling(c).n in s'.m
    requires s'.m[c.n] == if c.InLeft? then Record(RootOf(t), c.r.n, ParentOf(c.up), Black) else Record(c.l.n, RootOf(t), ParentOf(c.up), Black)
    requires s'.m[Sibling(c).n] == s.m[Sibling(c).n].(color := Red)
    requires forall n :: n in s.m && n != c.n && n != Sibling(c).n ==> n in s'.m && s'.m[n] == s.m[n]
    ensures At(s', c.up, Case2Tree(c, t))
  {
    var b := Sibling(c);
    assert b.n in Nodes(b);
    LinkedAboveFrame(s, s', c.up, c.n);
    LinkedFrame(s.m, s'.m, t, c.n);
    HangsFrame(s.m, s'.m, b, b.(c := Red), c.n);
    if c.InLeft? {
      LinkedBin(s'.m, t, c.n, Black, b.(c := Red), ParentOf(c.up));
    } else {
      LinkedBin(s'.m, b.(c := Red), c.n, Black, t, ParentOf(c.up));
    }
  }

  lemma Case2At(s: State, c: Ctx<Node>, t: Tree<Node>, h: nat)
    requires Short(s, c, t, h) && IsBlack(Sibling(c)) && IsBlack(Sibling(c).l) && IsBlack(Sibling(c).r)
    ensures var s' := Reddened(s, Sibling(c).n, c.n);
      At(if c.c == Red then ParentBlackened(s', c.n) else s', c.up, Case2Tree(c, t))
  {
    SiblingReads(s, c, t, h);
    var s1 := Reddened(s, Sibling(c).n, c.n);
    hide Short, Linked, LinkedAbove, Apart;
    Case2Frame(s, if c.c == Red then ParentBlackened(s1, c.n) else s1, c, t);
  }

  lemma Case2Step(c: Ctx<Node>, t: Tree<Node>)
    requires !c.Top? && Sibling(c).Bin? && Sibling(c).c == Black && IsBlack(Sibling(c).l) && IsBlack(Sibling(c).r)
    ensures EraseStep(t, c) == if c.c == Red then Done(Plug(c.up, Case2Tree(c, t))) else Climb(Case2Tree(c, t))
  {
  }

  // ----- cases 3 and 4: a red nephew is rotated up

  /** Case 4: the far nephew is red. */
  function Case4Left(s: State, parent: Node, sibling: Node): State {
    var far := Read(s, sibling).right;
    var s1 := if far == null then s else WithParentColor(s, far, sibling, Black);
    RotatedLeft(s1, parent, sibling, Read(s1, sibling).left, true, Black)
  }

  function Case4Right(s: State, parent: Node, sibling: Node): State {
    var far := Read(s, sibling).left;
    var s1 := if far == null then s else WithParentColor(s, far, sibling, Black);
    RotatedRight(s1, parent, sibling, Read(s1, sibling).right, true, Black)
  }

  lemma Case4LeftAt(s: State, c: Ctx<Node>, t: Tree<Node>, h: nat)
    requires Short(s, c, t, h) && c.InLeft? && IsBlack(c.r) && IsRed(c.r.r)
    ensures At(Case4Left(s, c.n, c.r.n), c.up, Bin(Bin(t, c.n, Black, c.r.l), c.r.n, c.c, Blacken(c.r.r)))
  {
    SiblingReads(s, c, t, h);
    var b, s1 := c.r, WithParentColor(s, c.r.r.n, c.r.n, Black);
    UniquePieces(c.up, t, c.n, b.l, b.n, b.r, c.c, b.c);
    PiecesBlacken(c.up, t, c.n, b.l, b.n, b.r);
    hide Unique, Fits, Balanced;
    assert b.r.n in Nodes(b.r);
    LinkedFrame(s.m, s1.m, t, c.n);
    LinkedFrame(s.m, s1.m, b.l, b.n);
    HangsFrame(s.m, s1.m, b.r, Blacken(b.r), b.n);
    LinkedAboveFrame(s, s1, c.up, c.n);
    RotateLeftInPlace(s1, c.up, t, c.n, b.l, b.n, Blacken(b.r), b.l, true, Black);
  }

  lemma Case4RightAt(s: State, c: Ctx<Node>, t: Tree<Node>, h: nat)
    requires Short(s, c, t, h) && c.InRight? && IsBlack(c.l) && IsRed(c.l.l)
    ensures At(Case4Right(s, c.n, c.l.n), c.up, Bin(Blacken(c.l.l), c.l.n, c.c, Bin(c.l.r, c.n, Black, t)))
  {
    SiblingReads(s, c, t, h);
    var b, s1 := c.l, WithParentColor(s, c.l.l.n, c.l.n, Black);
    UniquePieces(c.up, b.l, b.n, b.r, c.n, t, b.c, c.c);
    PiecesBlacken(c.up, b.l, b.n, b.r, c.n, t);
    hide Unique, Fits, Balanced;
    assert b.l.n in Nodes(b.l);
    LinkedFrame(s.m, s1.m, t, c.n);
    LinkedFrame(s.m, s1.m, b.r, b.n);
    HangsFrame(s.m, s1.m, b.l, Blacken(b.l), b.n);
    LinkedAboveFrame(s, s1, c.up, c.n);
    RotateRightInPlace(s1, c.up, Blacken(b.l), b.n, b.r, c.n, t, b.r, true, Black);
  }

  /** Case 3, before case 4 completes it: the red near nephew m takes the sibling below it. */
  function Case3Left(s: State, parent: Node, sibling: Node, m: Node): State {
    var tmp := Read(s, m).right;
    var s1 := WithRight(WithRight(WithLeft(s, sibling, tmp), m, sibling), parent, m);
    if tmp == null then s1 else WithParentColor(s1, tmp, sibling, Black)
  }

  function Case3Right(s: State, parent: Node, sibling: Node, m: Node): State {
    var tmp := Read(s, m).left;
    var s1 := WithLeft(WithLeft(WithRight(s, sibling, tmp), m, sibling), parent, m);
    if tmp == null then s1 else WithParentColor(s1, tmp, sibling, Black)
  }

  lemma Case3LeftPieces(c: Ctx<Node>, t: Tree<Node>)
    requires c.InLeft? && c.r.Bin? && c.r.l.Bin? && Unique(Plug(c, t))
    ensures var b, m := c.r, c.r.l;
      Pieces(c.up, t, c.n, m.l, m.n, Bin(Blacken(m.r), b.n, Black, b.r))
  {
    var b, m, up := c.r, c.r.l, c.up;
    var old', new' := Bin(m, b.n, b.c, b.r), Bin(m.l, m.n, Red, Bin(Blacken(m.r), b.n, Black, b.r));
    assert Inorder(old') == Inorder(new') by {
      assert Inorder(m) == Inorder(Bin(m.l, m.n, Red, m.r));
      BlackenKeepsOrder(m.r);
      RotationKeepsOrder(m.l, m.n, m.r, b.n, b.r, Red);
    }
    PlugKeepsOrder(up, Bin(t, c.n, c.c, old'), Bin(t, c.n, c.c, new'));
    UniquePieces(up, t, c.n, m.l, m.n, Bin(Blacken(m.r), b.n, Black, b.r), c.c, Red);
  }

  /** Which records case 3 writes, with the assignment to the sibling that follows it. */
  ghost predicate Case3Wrote(s: State, s2: State, p: Node, pr: Record, b: Node, br: Record, m: Node, mr: Record, tmp: Node?) {
    && s2.root == s.root
    && p in s2.m && s2.m[p] == pr && b in s2.m && s2.m[b] == br && m in s2.m && s2.m[m] == mr
    && (tmp != null ==> tmp in s.m && tmp in s2.m && s2.m[tmp] == s.m[tmp].(parent := b, color := Black))
    && forall n :: n in s.m && n != p && n != b && n != m && n != tmp ==> n in s2.m && s2.m[n] == s.m[n]
  }

  lemma Case3LeftRecords(s: State, p: Node, b: Node, m: Node, tmp: Node?)
    requires p in s.m && b in s.m && m in s.m && (tmp != null ==> tmp in s.m) && s.m[m].right == tmp
    requires p != b && p != m && b != m && tmp != p && tmp != b && tmp != m
    ensures Case3Wrote(s, WithParentColor(Case3Left(s, p, b, m), b, m, Black), p, s.m[p].(right := m),
      b, s.m[b].(left := tmp, parent := m, color := Black), m, s.m[m].(right := b), tmp)
    ensures Read(Case3Left(s, p, b, m), m).right == b
  {
  }

  /** A subtree away from the nodes that case 3 writes. */
  lemma Case3Keeps(s: State, s2: State, p: Node, pr: Record, b: Node, br: Record, m: Node, mr: Record, tmp: Node?, t: Tree<Node>, q: Node)
    requires Case3Wrote(s, s2, p, pr, b, br, m, mr, tmp) && Linked(s.m, t, q)
    requires p !in Nodes(t) && b !in Nodes(t) && m !in Nodes(t) && tmp !in Nodes(t)
    ensures Linked(s2.m, t, q)
  {
    LinkedFrame(s.m, s2.m, t, q);
  }

  /** The inner subtree, which changes hands. */
  lemma Case3Hands(s: State, s2: State, p: Node, pr: Record, b: Node, br: Record, m: Node, mr: Record, t: Tree<Node>)
    requires Case3Wrote(s, s2, p, pr, b, br, m, mr, RootOf(t)) && Linked(s.m, t, m) && Distinct(t)
    requires p !in Nodes(t) && b !in Nodes(t) && m !in Nodes(t)
    ensures Linked(s2.m, Blacken(t), b)
  {
    HangsFrame(s.m, s2.m, t, Blacken(t), b);
  }

  lemma Case3Path(s: State, s2: State, p: Node, pr: Record, b: Node, br: Record, m: Node, mr: Record, tmp: Node?, c: Ctx<Node>, x: Node?)
    requires Case3Wrote(s, s2, p, pr, b, br, m, mr, tmp) && LinkedAbove(s, c, x)
    requires p !in PathNodes(c) && b !in PathNodes(c) && m !in PathNodes(c) && tmp !in PathNodes(c)
    ensures LinkedAbove(s2, c, x)
  {
    LinkedAboveFrame(s, s2, c, x);
  }

  /** The third one is the parent, on the path. */
  lemma Case3Outer(c: Ctx<Node>, x: Tree<Node>, m: Node, y: Tree<Node>, b: Node, z: Tree<Node>)
    requires Pieces(c, x, m, y, b, z) && !c.Top?
    ensures c.n in PathNodes(c) && PathNodes(c.up) <= PathNodes(c) && c.n !in PathNodes(c.up)
    ensures c.n !in Nodes(x) && c.n !in Nodes(y) && c.n !in Nodes(z) && RootOf(y) != c.n
    ensures var t := if c.InLeft? then c.r else c.l; Nodes(t) <= PathNodes(c) && c.n !in Nodes(t)
  {
    hide Distinct;
    assert y.Bin? ==> y.n in Nodes(y);
  }

  lemma Case3LeftFrame(s: State, c: Ctx<Node>, t: Tree<Node>, h: nat)
    requires Short(s, c, t, h) && c.InLeft? && IsBlack(c.r) && IsRed(c.r.l)
    ensures var b, m := c.r, c.r.l;
      var s2 := WithParentColor(Case3Left(s, c.n, b.n, m.n), b.n, m.n, Black);
      && Read(Case3Left(s, c.n, b.n, m.n), m.n).right == b.n
      && LinkedAbove(s2, c.up, c.n) && Linked(s2.m, t, c.n)
      && c.n in s2.m && s2.m[c.n].left == RootOf(t) && s2.m[c.n].parent == ParentOf(c.up) && s2.m[c.n].color == c.c
      && m.n in s2.m && s2.m[m.n].left == RootOf(m.l) && s2.m[m.n].right == b.n
      && Linked(s2.m, m.l, m.n) && Linked(s2.m, Bin(Blacken(m.r), b.n, Black, b.r), m.n)
  {
    SiblingReads(s, c, t, h);
    var b, m := c.r, c.r.l;
    UniquePieces(InRight(t, c.n, c.c, c.up), m.l, m.n, m.r, b.n, b.r, m.c, b.c);
    PiecesApart(InRight(t, c.n, c.c, c.up), m.l, m.n, m.r, b.n, b.r);
    Case3Outer(InRight(t, c.n, c.c, c.up), m.l, m.n, m.r, b.n, b.r);
    assert Linked(s.m, m.l, m.n) && Linked(s.m, m.r, m.n);
    Case3LeftRecords(s, c.n, b.n, m.n, RootOf(m.r));
    var s2 := WithParentColor(Case3Left(s, c.n, b.n, m.n), b.n, m.n, Black);
    var pr, br, mr, tmp := s2.m[c.n], s2.m[b.n], s2.m[m.n], RootOf(m.r);
    hide Short, Unique, Fits, Balanced, Case3Left, WithParentColor, Pieces, Case3Wrote;
    Case3Keeps(s, s2, c.n, pr, b.n, br, m.n, mr, tmp, t, c.n);
    Case3Keeps(s, s2, c.n, pr, b.n, br, m.n, mr, tmp, m.l, m.n);
    Case3Keeps(s, s2, c.n, pr, b.n, br, m.n, mr, tmp, b.r, b.n);
    Case3Hands(s, s2, c.n, pr, b.n, br, m.n, mr, m.r);
    Case3Path(s, s2, c.n, pr, b.n, br, m.n, mr, tmp, c.up, c.n);
    LinkedBin(s2.m, Blacken(m.r), b.n, Black, b.r, m.n);
  }

  lemma Case3LeftAt(s: State, c: Ctx<Node>, t: Tree<Node>, h: nat)
    requires Short(s, c, t, h) && c.InLeft? && IsBlack(c.r) && IsRed(c.r.l)
    ensures var b, m := c.r, c.r.l;
      At(Case4Left(Case3Left(s, c.n, b.n, m.n), c.n, m.n), c.up,
         Bin(Bin(t, c.n, Black, m.l), m.n, c.c, Bin(Blacken(m.r), b.n, Black, b.r)))
  {
    Case3LeftFrame(s, c, t, h);
    Case3LeftPieces(c, t);
    var b, m := c.r, c.r.l;
    var s2 := WithParentColor(Case3Left(s, c.n, b.n, m.n), b.n, m.n, Black);
    hide Short, Case3Left, RotatedLeft;
    RotateLeftInPlace(s2, c.up, t, c.n, m.l, m.n, Bin(Blacken(m.r), b.n, Black, b.r), m.l, true, Black);
  }

  lemma Case3RightRecords(s: State, p: Node, b: Node, m: Node, tmp: Node?)
    requires p in s.m && b in s.m && m in s.m && (tmp != null ==> tmp in s.m) && s.m[m].left == tmp
    requires p != b && p != m && b != m && tmp != p && tmp != b && tmp != m
    ensures Case3Wrote(s, WithParentColor(Case3Right(s, p, b, m), b, m, Black), p, s.m[p].(left := m),
      b, s.m[b].(right := tmp, parent := m, color := Black), m, s.m[m].(left := b), tmp)
    ensures Read(Case3Right(s, p, b, m), m).left == b
  {
  }

  lemma Case3RightPieces(c: Ctx<Node>, t: Tree<Node>)
    requires c.InRight? && c.l.Bin? && c.l.r.Bin? && Unique(Plug(c, t))
    ensures var b, m := c.l, c.l.r;
      Pieces(c.up, Bin(b.l, b.n, Black, Blacken(m.l)), m.n, m.r, c.n, t)
  {
    var b, m, up := c.l, c.l.r, c.up;
    var old', new' := Bin(b.l, b.n, b.c, m), Bin(Bin(b.l, b.n, Black, Blacken(m.l)), m.n, Red, m.r);
    assert Inorder(old') == Inorder(new') by {
      assert Inorder(m) == Inorder(Bin(m.l, m.n, Red, m.r));
      BlackenKeepsOrder(m.l);
      RotationKeepsOrder(b.l, b.n, m.l, m.n, m.r, Red);
    }
    PlugKeepsOrder(up, Bin(old', c.n, c.c, t), Bin(new', c.n, c.c, t));
    UniquePieces(up, Bin(b.l, b.n, Black, Blacken(m.l)), m.n, m.r, c.n, t, Red, c.c);
  }

  lemma Case3RightFrame(s: State, c: Ctx<Node>, t: Tree<Node>, h: nat)
    requires Short(s, c, t, h) && c.InRight? && IsBlack(c.l) && IsRed(c.l.r)
    ensures var b, m := c.l, c.l.r;
      var s2 := WithParentColor(Case3Right(s, c.n, b.n, m.n), b.n, m.n, Black);
      && Read(Case3Right(s, c.n, b.n, m.n), m.n).left == b.n
      && LinkedAbove(s2, c.up, c.n) && Linked(s2.m, t, c.n)
      && c.n in s2.m && s2.m[c.n].right == RootOf(t) && s2.m[c.n].parent == ParentOf(c.up) && s2.m[c.n].color == c.c
      && m.n in s2.m && s2.m[m.n].right == RootOf(m.r) && s2.m[m.n].left == b.n
      && Linked(s2.m, m.r, m.n) && Linked(s2.m, Bin(b.l, b.n, Black, Blacken(m.l)), m.n)
  {
    SiblingReads(s, c, t, h);
    var b, m := c.l, c.l.r;
    UniquePieces(InLeft(c.n, c.c, t, c.up), b.l, b.n, m.l, m.n, m.r, b.c, m.c);
    PiecesApart(InLeft(c.n, c.c, t, c.up), b.l, b.n, m.l, m.n, m.r);
    Case3Outer(InLeft(c.n, c.c, t, c.up), b.l, b.n, m.l, m.n, m.r);
    assert Linked(s.m, m.l, m.n) && Linked(s.m, m.r, m.n);
    Case3RightRecords(s, c.n, b.n, m.n, RootOf(m.l));
    var s2 := WithParentColor(Case3Right(s, c.n, b.n, m.n), b.n, m.n, Black);
    var pr, br, mr, tmp := s2.m[c.n], s2.m[b.n], s2.m[m.n], RootOf(m.l);
    hide Short, Unique, Fits, Balanced, Case3Right, WithParentColor, Pieces, Case3Wrote;
    Case3Keeps(s, s2, c.n, pr, b.n, br, m.n, mr, tmp, t, c.n);
    Case3Keeps(s, s2, c.n, pr, b.n, br, m.n, mr, tmp, m.r, m.n);
    Case3Keeps(s, s2, c.n, pr, b.n, br, m.n, mr, tmp, b.l, b.n);
    Case3Hands(s, s2, c.n, pr, b.n, br, m.n, mr, m.l);
    Case3Path(s, s2, c.n, pr, b.n, br, m.n, mr, tmp, c.up, c.n);
    LinkedBin(s2.m, b.l, b.n, Black, Blacken(m.l), m.n);
  }

  lemma Case3RightAt(s: State, c: Ctx<Node>, t: Tree<Node>, h: nat)
    requires Short(s, c, t, h) && c.InRight? && IsBlack(c.l) && IsRed(c.l.r)
    ensures var b, m := c.l, c.l.r;
      At(Case4Right(Case3Right(s, c.n, b.n, m.n), c.n, m.n), c.up,
         Bin(Bin(b.l, b.n, Black, Blacken(m.l)), m.n, c.c, Bin(m.r, c.n, Black, t)))
  {
    Case3RightFrame(s, c, t, h);
    Case3RightPieces(c, t);
    var b, m := c.l, c.l.r;
    var s2 := WithParentColor(Case3Right(s, c.n, b.n, m.n), b.n, m.n, Black);
    hide Short, Case3Right, RotatedRight;
    RotateRightInPlace(s2, c.up, Bin(b.l, b.n, Black, Blacken(m.l)), m.n, m.r, c.n, t, m.r, true, Black);
  }

  // ----- the turns of the loop

  /** The part of a turn that lifts a red nephew: cases 3 and 4. */
  function LiftedLeft(s: State, parent: Node, sibling: Node): State {
    var far, near := Read(s, sibling).right, Read(s, sibling).left;
    if (far == null || Read(s, far).color == Black) && near != null then
      Case4Left(Case3Left(s, parent, sibling, near), parent, near)
    else
      Case4Left(s, parent, sibling)
  }

  function LiftedRight(s: State, parent: Node, sibling: Node): State {
    var far, near := Read(s, sibling).left, Read(s, sibling).right;
    if (far == null || Read(s, far).color == Black) && near != null then
      Case4Right(Case3Right(s, parent, sibling, near), parent, near)
    else
      Case4Right(s, parent, sibling)
  }

  lemma LiftedLeftInPlace(s: State, c: Ctx<Node>, t: Tree<Node>, h: nat)
    requires Short(s, c, t, h) && IsBlack(Sibling(c)) && Sibling(c).Bin? && (IsRed(Sibling(c).l) || IsRed(Sibling(c).r)) && c.InLeft?
    ensures EraseStep(t, c).Done? && At(LiftedLeft(s, c.n, c.r.n), Top, EraseStep(t, c).t)
  {
    SiblingReads(s, c, t, h);
    var b, up := Sibling(c), c.up;
    hide Short, At, Apart, Linked, LinkedAbove, Case3Left, Case4Left, Plug;
    if IsRed(b.r) {
      Case4LeftAt(s, c, t, h);
      AtPlug(Case4Left(s, c.n, b.n), up, Bin(Bin(t, c.n, Black, b.l), b.n, c.c, Blacken(b.r)));
    } else {
      var m := b.l;
      Case3LeftAt(s, c, t, h);
      AtPlug(Case4Left(Case3Left(s, c.n, b.n, m.n), c.n, m.n), up,
             Bin(Bin(t, c.n, Black, m.l), m.n, c.c, Bin(Blacken(m.r), b.n, Black, b.r)));
    }
  }

  lemma LiftedRightInPlace(s: State, c: Ctx<Node>, t: Tree<Node>, h: nat)
    requires Short(s, c, t, h) && IsBlack(Sibling(c)) && Sibling(c).Bin? && (IsRed(Sibling(c).l) || IsRed(Sibling(c).r)) && !c.InLeft?
    ensures EraseStep(t, c).Done? && At(LiftedRight(s, c.n, c.l.n), Top, EraseStep(t, c).t)
  {
    SiblingReads(s, c, t, h);
    var b, up := Sibling(c), c.up;
    hide Short, At, Apart, Linked, LinkedAbove, Case3Right, Case4Right, Plug;
    if IsRed(b.l) {
      Case4RightAt(s, c, t, h);
      AtPlug(Case4Right(s, c.n, b.n), up, Bin(Blacken(b.l), b.n, c.c, Bin(b.r, c.n, Black, t)));
    } else {
      var m := b.r;
      Case3RightAt(s, c, t, h);
      AtPlug(Case4Right(Case3Right(s, c.n, b.n, m.n), c.n, m.n), up,
             Bin(Bin(b.l, b.n, Black, Blacken(m.l)), m.n, c.c, Bin(m.r, c.n, Black, t)));
    }
  }

  /** Lifting a red nephew ends the loop: the tree is repaired. */
  lemma LiftedInPlace(s: State, c: Ctx<Node>, t: Tree<Node>, h: nat)
    requires Short(s, c, t, h) && IsBlack(Sibling(c)) && Sibling(c).Bin? && (IsRed(Sibling(c).l) || IsRed(Sibling(c).r))
    ensures var s' := if c.InLeft? then LiftedLeft(s, c.n, c.r.n) else LiftedRight(s, c.n, c.l.n);
      EraseStep(t, c).Done? && At(s', Top, EraseStep(t, c).t)
  {
    if c.InLeft? { LiftedLeftInPlace(s, c, t, h); } else { LiftedRightInPlace(s, c, t, h); }
  }

  /** Colouring the sibling red either repairs the tree at a red parent or moves one level up. */
  lemma FlippedInPlace(s: State, c: Ctx<Node>, t: Tree<Node>, h: nat)
    requires Short(s, c, t, h) && IsBlack(Sibling(c)) && Sibling(c).Bin? && IsBlack(Sibling(c).l) && IsBlack(Sibling(c).r)
    ensures var s' := Reddened(s, Sibling(c).n, c.n);
      if c.c == Red then EraseStep(t, c).Done? && At(ParentBlackened(s', c.n), Top, EraseStep(t, c).t)
      else
        && EraseStep(t, c) == Climb(Case2Tree(c, t))
        && (if c.up.Top? then At(s', Top, Case2Tree(c, t)) else Short(s', c.up, Case2Tree(c, t), h + 1))
  {
    var q, s' := Case2Tree(c, t), Reddened(s, Sibling(c).n, c.n);
    Case2At(s, c, t, h);
    Case2Step(c, t);
    if c.c == Red {
      AtPlug(ParentBlackened(s', c.n), c.up, q);
    } else {
      EraseStepBalances(t, c, h);
      EraseStepKeepsOrder(t, c);
      AtPlug(s, c, t);
      AtPlug(s, c.up, q);
      NodesOfInorder(Plug(c, t));
      NodesOfInorder(Plug(c.up, q));
    }
  }

  /** The pointers that cases 3 and 4 follow are in memory. */
  ghost predicate CanLift(s: State, parent: Node, sibling: Node) {
    && parent in s.m && sibling in s.m && Known(s, s.m[parent].parent)
    && Known(s, s.m[sibling].left) && s.m[sibling].left != parent
    && Known(s, s.m[sibling].right) && s.m[sibling].right != parent
  }

  lemma LiftReady(s: State, c: Ctx<Node>, t: Tree<Node>, h: nat)
    requires Short(s, c, t, h)
    ensures Sibling(c).Bin? && CanLift(s, c.n, Sibling(c).n)
    ensures var b := Sibling(c); forall m :: m != null && (m == RootOf(b.l) || m == RootOf(b.r)) ==>
      m in s.m && Known(s, s.m[m].left) && Known(s, s.m[m].right) && m != b.n && m != c.n && m != RootOf(t)
      && s.m[m].left != b.n && s.m[m].right != b.n && s.m[m].left != c.n && s.m[m].right != c.n && s.m[m].left != m && s.m[m].right != m
  {
    SiblingReads(s, c, t, h);
    var b := Sibling(c);
    assert b.n in PathNodes(c);
    assert b.l.Bin? ==> b.l.n in Nodes(b.l) && Stored(s, b.l.l, b.l.n) && Stored(s, b.l.r, b.l.n);
    assert b.r.Bin? ==> b.r.n in Nodes(b.r) && Stored(s, b.r.l, b.r.n) && Stored(s, b.r.r, b.r.n);
  }

  /** Case 1 leaves a black sibling and a red parent, so the same turn ends the loop. */
  lemma RedSibling(s: State, c: Ctx<Node>, t: Tree<Node>, h: nat)
    requires Short(s, c, t, h) && IsRed(Sibling(c))
    ensures Short(Case1(s, c), RotatedPath(c), t, h)
    ensures !RotatedPath(c).Top? && RotatedPath(c).n == c.n && (RotatedPath(c).InLeft? <==> c.InLeft?)
    ensures Sibling(RotatedPath(c)).Bin? && Sibling(RotatedPath(c)).c == Black
    ensures Sibling(RotatedPath(c)).n == if c.InLeft? then Sibling(c).l.n else Sibling(c).r.n
    ensures EraseStep(t, c) == EraseStepBlack(t, RotatedPath(c)) == EraseStep(t, RotatedPath(c)) && EraseStep(t, c).Done?
  {
    SiblingReads(s, c, t, h);
    Case1InPlace(s, c, t, h);
    Case1Balances(c, t, h);
  }
}
