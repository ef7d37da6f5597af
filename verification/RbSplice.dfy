/** The first half of rb_erase_augmented: taking a node out of its place, as a change to the
    nodes' fields, puts in place what RbBalance.SplicedPath and SplicedChild describe. */
module RbSplice {
  import opened RbBalance
  import opened RbHeap

  // ----- at most one child

  function SplicedSingle(s: State, node: Node, child: Node?): State {
    var s1 := ChildChanged(s, node, child, Read(s, node).parent);
    if child == null then s1 else WithParentColor(s1, child, Read(s, node).parent, Read(s, node).color)
  }

  lemma SingleInPlace(s: State, c: Ctx<Node>, t: Tree<Node>)
    requires t.Bin? && (t.l.Leaf? || t.r.Leaf?) && At(s, c, t) && Apart(c, t)
    ensures var x := SplicedChild(t); At(SplicedSingle(s, t.n, RootOf(x)), c, x)
  {
    var other, x := if t.l.Leaf? then t.r else t.l, SplicedChild(t);
    var s1, s' := ChildChanged(s, t.n, RootOf(x), ParentOf(c)), SplicedSingle(s, t.n, RootOf(x));
    assert Linked(s.m, other, t.n);
    assert t.n in Nodes(t) && (other.Bin? ==> other.n in Nodes(other) && other.n in Nodes(t));
    assert !c.Top? ==> c.n in PathNodes(c);
    ChildChangedInPlace(s, t.n, RootOf(x), c);
    LinkedAboveFrame(s1, s', c, RootOf(x));
    HangsFrame(s.m, s'.m, other, x, ParentOf(c));
  }

  // ----- two children: the successor takes the node's place

  /** A successor deeper down is replaced by its right child and takes the node's right child. */
  function Freed(s: State, child: Node, parent: Node, succ: Node): State {
    WithParent(WithRight(WithLeft(s, parent, Read(s, succ).right), succ, child), child, succ)
  }

  /** The successor takes the node's left child, its place below its parent and its colour. */
  function Adopted(s: State, node: Node, parent: Node, succ: Node, child2: Node?): State {
    var left := Read(s, node).left;
    var s2 := WithLeft(s, succ, left);
    var s3 := if left == null then s2 else WithParent(s2, left, succ);
    var up, color := Read(s3, node).parent, Read(s3, node).color;
    var s4 := ChildChanged(s3, node, succ, up);
    var s5 := WithParentColor(s4, succ, up, color);
    if child2 == null then s5 else WithParentColor(s5, child2, parent, Black)
  }

  /** `parent` is the successor's parent once the successor has moved: the successor itself when
      it is the node's right child. */
  function SplicedDouble(s: State, node: Node, child: Node, parent: Node, succ: Node): State {
    Adopted(if succ == child then s else Freed(s, child, parent, succ), node, parent, succ, Read(s, succ).right)
  }

  /** The parent of the leftmost node of r, whose own parent is p. */
  function LeastParent(r: Tree<Node>, p: Node): Node
    requires r.Bin?
  {
    if r.l.Leaf? then p else LeastParent(r.l, r.n)
  }

  lemma {:induction false} LeastNodes(r: Tree<Node>, p: Node)
    requires r.Bin? && Distinct(r)
    ensures Least(r).n in Nodes(r) && Nodes(Least(r).r) <= Nodes(r) - {Least(r).n}
    ensures r.l.Bin? ==> LeastParent(r, p) in Nodes(r) && LeastParent(r, p) != Least(r).n && LeastParent(r, p) !in Nodes(Least(r).r)
    ensures r.l.Bin? ==> r.n != Least(r).n && r.n !in Nodes(Least(r).r)
    ensures Distinct(Least(r).r)
  {
    if r.l.Bin? { LeastNodes(r.l, r.n); }
  }

  /** Putting x in place of the leftmost subtree changes one child field. */
  lemma {:induction false} WithoutLeastLinked(m: Memory, m': Memory, r: Tree<Node>, p: Node, x: Tree<Node>)
    requires r.Bin? && Distinct(r) && Linked(m, r, p)
    requires Linked(m', x, LeastParent(r, p))
    requires var q := LeastParent(r, p); r.l.Bin? ==> q in m && q in m' && m'[q] == m[q].(left := RootOf(x))
    requires Agree(m, m', Nodes(r) - {Least(r).n, LeastParent(r, p)} - Nodes(Least(r).r))
    ensures Linked(m', WithoutLeast(r, x), p)
  {
    if r.l.Bin? {
      LeastNodes(r.l, r.n);
      assert Linked(m, r.r, r.n) && Linked(m, r.l, r.n);
      LinkedFrame(m, m', r.r, r.n);
      WithoutLeastLinked(m, m', r.l, r.n, x);
      assert RootOf(WithoutLeast(r.l, x)) == if r.l.l.Leaf? then RootOf(x) else r.l.n;
      LinkedBin(m', WithoutLeast(r.l, x), r.n, r.c, r.r, p);
    }
  }

  /** The pointers the splice follows, all different. */
  ghost predicate CanSplice(s: State, node: Node, child: Node, parent: Node, succ: Node, left: Node, child2: Node?) {
    && node in s.m && child in s.m && parent in s.m && succ in s.m && left in s.m && (child2 != null ==> child2 in s.m)
    && s.m[node].left == left && s.m[node].right == child && s.m[succ].right == child2
    && node != child && node != parent && node != succ && node != left && node != child2
    && left != child && left != parent && left != succ && left != child2
    && child2 != child && child2 != parent && child2 != succ
    && (parent == succ <==> child == succ)
    && (s.m[node].parent != null ==>
          var up := s.m[node].parent;
          up in s.m && up != node && up != child && up != parent && up != succ && up != left && up != child2)
  }

  /** Which records the splice writes. */
  ghost predicate SplicedRecords(s: State, s': State, node: Node, child: Node, parent: Node, succ: Node, left: Node, child2: Node?)
    requires CanSplice(s, node, child, parent, succ, left, child2)
  {
    && succ in s'.m
    && s'.m[succ] == Record(left, if succ == child then child2 else child, s.m[node].parent, s.m[node].color)
    && left in s'.m && s'.m[left] == s.m[left].(parent := succ)
    && (child2 != null ==> child2 in s'.m && s'.m[child2] == s.m[child2].(parent := parent, color := Black))
    && (succ != child ==> parent in s'.m && child in s'.m)
    && (succ != child && parent == child ==> s'.m[child] == s.m[child].(parent := succ, left := child2))
    && (succ != child && parent != child ==>
          s'.m[child] == s.m[child].(parent := succ) && s'.m[parent] == s.m[parent].(left := child2))
    && forall n :: n in s.m && n != succ && n != left && n != child2 && n != child && n != parent && n != s.m[node].parent
         ==> n in s'.m && s'.m[n] == s.m[n]
  }

  lemma AdoptedRecords(s: State, node: Node, parent: Node, succ: Node, left: Node, child2: Node?)
    requires node in s.m && succ in s.m && left in s.m && (child2 != null ==> child2 in s.m) && s.m[node].left == left
    requires node != succ && node != left && node != child2 && left != succ && left != child2 && child2 != succ
    requires s.m[node].parent != null ==>
      var up := s.m[node].parent; up in s.m && up != node && up != succ && up != left && up != child2
    ensures var s' := Adopted(s, node, parent, succ, child2);
      && succ in s'.m && s'.m[succ] == Record(left, s.m[succ].right, s.m[node].parent, s.m[node].color)
      && left in s'.m && s'.m[left] == s.m[left].(parent := succ)
      && (child2 != null ==> child2 in s'.m && s'.m[child2] == s.m[child2].(parent := parent, color := Black))
      && forall n :: n in s.m && n != succ && n != left && n != child2 && n != s.m[node].parent ==> n in s'.m && s'.m[n] == s.m[n]
  {
  }

  lemma FreedRecords(s: State, child: Node, parent: Node, succ: Node)
    requires child in s.m && parent in s.m && succ in s.m && succ != child && succ != parent
    ensures var s', child2 := Freed(s, child, parent, succ), s.m[succ].right;
      && succ in s'.m && s'.m[succ] == s.m[succ].(right := child)
      && parent in s'.m && child in s'.m
      && (if parent == child then s'.m[child] == s.m[child].(parent := succ, left := child2)
          else s'.m[child] == s.m[child].(parent := succ) && s'.m[parent] == s.m[parent].(left := child2))
      && s'.root == s.root
      && forall n :: n in s.m && n != succ && n != child && n != parent ==> n in s'.m && s'.m[n] == s.m[n]
  {
  }

  lemma DoubleRecords(s: State, node: Node, child: Node, parent: Node, succ: Node, left: Node, child2: Node?)
    requires CanSplice(s, node, child, parent, succ, left, child2)
    ensures SplicedRecords(s, SplicedDouble(s, node, child, parent, succ), node, child, parent, succ, left, child2)
  {
    var s1 := if succ == child then s else Freed(s, child, parent, succ);
    if succ != child { FreedRecords(s, child, parent, succ); }
    AdoptedRecords(s1, node, parent, succ, left, child2);
    hide Freed, Adopted;
  }

  lemma AdoptedPath(s: State, c: Ctx<Node>, node: Node, parent: Node, succ: Node, left: Node, child2: Node?)
    requires node in s.m && succ in s.m && left in s.m && (child2 != null ==> child2 in s.m) && s.m[node].left == left
    requires s.m[node].parent == ParentOf(c) && node != succ && node != left
    requires LinkedAbove(s, c, node) && PathDistinct(c)
    requires node !in PathNodes(c) && succ !in PathNodes(c) && left !in PathNodes(c) && child2 !in PathNodes(c)
    ensures LinkedAbove(Adopted(s, node, parent, succ, child2), c, succ)
  {
    var s3 := WithParent(WithLeft(s, succ, left), left, succ);
    var s4 := ChildChanged(s3, node, succ, ParentOf(c));
    LinkedAboveFrame(s, s3, c, node);
    assert PathDistinct(c) && LinkedAbove(s3, c, node);
    ChildChangedInPlace(s3, node, succ, c);
    AdoptedTail(s4, c, parent, succ, s.m[node].color, child2);
  }

  lemma AdoptedTail(s: State, c: Ctx<Node>, parent: Node, succ: Node, color: Color, child2: Node?)
    requires LinkedAbove(s, c, succ) && succ !in PathNodes(c) && child2 !in PathNodes(c)
    ensures var s5 := WithParentColor(s, succ, ParentOf(c), color);
      LinkedAbove(if child2 == null then s5 else WithParentColor(s5, child2, parent, Black), c, succ)
  {
    var s5 := WithParentColor(s, succ, ParentOf(c), color);
    LinkedAboveFrame(s, if child2 == null then s5 else WithParentColor(s5, child2, parent, Black), c, succ);
  }

  lemma DoublePath(s: State, c: Ctx<Node>, node: Node, child: Node, parent: Node, succ: Node, left: Node, child2: Node?)
    requires CanSplice(s, node, child, parent, succ, left, child2) && s.m[node].parent == ParentOf(c)
    requires LinkedAbove(s, c, node) && PathDistinct(c)
    requires node !in PathNodes(c) && child !in PathNodes(c) && parent !in PathNodes(c) && succ !in PathNodes(c)
    requires left !in PathNodes(c) && child2 !in PathNodes(c)
    ensures LinkedAbove(SplicedDouble(s, node, child, parent, succ), c, succ)
  {
    if succ != child {
      FreedRecords(s, child, parent, succ);
      hide Freed;
      LinkedAboveFrame(s, Freed(s, child, parent, succ), c, node);
    }
    hide Adopted, Freed;
    AdoptedPath(if succ == child then s else Freed(s, child, parent, succ), c, node, parent, succ, left, child2);
  }

  lemma {:induction false} LeastLinked(m: Memory, r: Tree<Node>, p: Node)
    requires r.Bin? && Linked(m, r, p)
    ensures Linked(m, Least(r), LeastParent(r, p)) && Linked(m, Least(r).r, Least(r).n)
    ensures r.l.Bin? ==> LeastParent(r, p) in m && LeastParent(r, r.n) == LeastParent(r, p)
  {
    if r.l.Bin? { LeastLinked(m, r.l, r.n); }
  }

  /** The node's subtree once its successor has moved into its place. */
  function SplicedTree(t: Tree<Node>): Tree<Node>
    requires t.Bin? && t.r.Bin?
  {
    var m := Least(t.r);
    Bin(t.l, m.n, t.c, WithoutLeast(t.r, Blacken(m.r)))
  }

  ghost predicate TwoChildren(s: State, c: Ctx<Node>, t: Tree<Node>) {
    && t.Bin? && t.l.Bin? && t.r.Bin?
    && Nodes(t) + PathNodes(c) <= s.m.Keys && At(s, c, t) && Apart(c, t)
  }

  lemma SpliceReady(s: State, c: Ctx<Node>, t: Tree<Node>)
    requires TwoChildren(s, c, t)
    ensures var m := Least(t.r); var parent := LeastParent(t.r, m.n);
      && CanSplice(s, t.n, t.r.n, parent, m.n, t.l.n, RootOf(m.r))
      && parent in Nodes(t) && m.n in Nodes(t) && t.l.n in Nodes(t) && t.r.n in Nodes(t) && (m.r.Bin? ==> m.r.n in Nodes(t))
      && s.m[m.n].color == m.c
  {
    var m := Least(t.r);
    assert Linked(s.m, t.l, t.n) && Linked(s.m, t.r, t.n);
    LeastLinked(s.m, t.r, t.n);
    LeastNodes(t.r, m.n);
    LeastParents(t.r, m.n, t.n);
    assert t.l.n in Nodes(t.l) && t.r.n in Nodes(t.r) && t.n in Nodes(t) && (m.r.Bin? ==> m.r.n in Nodes(m.r));
    assert !c.Top? ==> c.n in PathNodes(c);
  }

  lemma LeastParents(r: Tree<Node>, p: Node, p': Node)
    requires r.Bin?
    ensures if r.l.Leaf? then LeastParent(r, p) == p else LeastParent(r, p) == LeastParent(r, p')
  {
  }

  /** The left subtree hangs below the successor now. */
  lemma LeftHandedOver(s: State, s': State, node: Node, child: Node, parent: Node, succ: Node, l: Tree<Node>, child2: Node?)
    requires l.Bin? && CanSplice(s, node, child, parent, succ, l.n, child2)
      && SplicedRecords(s, s', node, child, parent, succ, l.n, child2)
    requires Linked(s.m, l, node) && Distinct(l)
    requires child !in Nodes(l) && parent !in Nodes(l) && succ !in Nodes(l) && child2 !in Nodes(l) && s.m[node].parent !in Nodes(l)
    ensures Linked(s'.m, l, succ)
  {
    HangsFrame(s.m, s'.m, l, l, succ);
  }

  /** The successor's own child hangs black below the parent now. */
  lemma ChildHandedOver(s: State, s': State, node: Node, child: Node, parent: Node, succ: Node, left: Node, r: Tree<Node>)
    requires CanSplice(s, node, child, parent, succ, left, RootOf(r)) && SplicedRecords(s, s', node, child, parent, succ, left, RootOf(r))
    requires Linked(s.m, r, succ) && Distinct(r)
    requires child !in Nodes(r) && parent !in Nodes(r) && succ !in Nodes(r) && left !in Nodes(r) && s.m[node].parent !in Nodes(r)
    ensures Linked(s'.m, Blacken(r), parent)
  {
    HangsFrame(s.m, s'.m, r, Blacken(r), parent);
  }

  /** A subtree away from what is written. */
  lemma SpliceKeeps(s: State, s': State, node: Node, child: Node, parent: Node, succ: Node, left: Node, child2: Node?, t: Tree<Node>, q: Node)
    requires CanSplice(s, node, child, parent, succ, left, child2) && SplicedRecords(s, s', node, child, parent, succ, left, child2)
    requires Linked(s.m, t, q) && child !in Nodes(t) && parent !in Nodes(t) && succ !in Nodes(t) && left !in Nodes(t)
    requires child2 !in Nodes(t) && s.m[node].parent !in Nodes(t)
    ensures Linked(s'.m, t, q)
  {
    LinkedFrame(s.m, s'.m, t, q);
  }

  /** The nodes that a splice writes, seen from the subtrees that it moves. */
  lemma SpliceApart(c: Ctx<Node>, t: Tree<Node>)
    requires t.Bin? && t.l.Bin? && t.r.Bin? && Apart(c, t)
    ensures var m := Least(t.r); var parent := LeastParent(t.r, m.n);
      && Distinct(t.l) && Distinct(m.r)
      && t.r.n !in Nodes(t.l) && parent !in Nodes(t.l) && m.n !in Nodes(t.l) && RootOf(m.r) !in Nodes(t.l) && ParentOf(c) !in Nodes(t.l)
      && m.n !in Nodes(m.r) && t.l.n !in Nodes(m.r) && ParentOf(c) !in Nodes(m.r) && t.r.n !in Nodes(m.r) && parent !in Nodes(m.r)
  {
    var m := Least(t.r);
    LeastNodes(t.r, m.n);
    assert !c.Top? ==> c.n in PathNodes(c);
    assert t.l.n in Nodes(t.l) && t.r.n in Nodes(t.r) && (m.r.Bin? ==> m.r.n in Nodes(m.r));
  }

  lemma SpliceApartRight(c: Ctx<Node>, t: Tree<Node>)
    requires t.Bin? && t.l.Bin? && t.r.Bin? && t.r.l.Bin? && Apart(c, t)
    ensures var m, rr := Least(t.r), t.r.r; var parent := LeastParent(t.r, m.n);
      && t.r.n !in Nodes(rr) && parent !in Nodes(rr) && m.n !in Nodes(rr) && t.l.n !in Nodes(rr)
      && RootOf(m.r) !in Nodes(rr) && ParentOf(c) !in Nodes(rr)
  {
    var m := Least(t.r);
    assert m == Least(t.r.l) && LeastParent(t.r, m.n) == LeastParent(t.r.l, t.r.n);
    assert Distinct(t.r) && Distinct(t.r.l);
    LeastNodes(t.r.l, t.r.n);
    assert !c.Top? ==> c.n in PathNodes(c);
    assert t.l.n in Nodes(t.l) && (m.r.Bin? ==> m.r.n in Nodes(m.r));
  }

  lemma DoubleSides(s: State, s': State, c: Ctx<Node>, t: Tree<Node>)
    requires TwoChildren(s, c, t)
    requires var m := Least(t.r); var parent := LeastParent(t.r, m.n);
      && CanSplice(s, t.n, t.r.n, parent, m.n, t.l.n, RootOf(m.r))
      && SplicedRecords(s, s', t.n, t.r.n, parent, m.n, t.l.n, RootOf(m.r))
    ensures var m := Least(t.r); var parent := LeastParent(t.r, m.n);
      && Linked(s'.m, t.l, m.n) && Linked(s'.m, Blacken(m.r), parent)
      && (t.r.l.Bin? ==> Linked(s'.m, t.r.r, t.r.n))
  {
    var m := Least(t.r);
    var parent := LeastParent(t.r, m.n);
    LeastLinked(s.m, t.r, t.n);
    SpliceApart(c, t);
    assert Linked(s.m, t.l, t.n) && Linked(s.m, t.r, t.n) && s.m[t.n].parent == ParentOf(c);
    if t.r.l.Bin? {
      SpliceApartRight(c, t);
      assert Linked(s.m, t.r.r, t.r.n);
    }
    hide Linked, Apart, Least, LeastParent, SplicedRecords, CanSplice;
    LeftHandedOver(s, s', t.n, t.r.n, parent, m.n, t.l, RootOf(m.r));
    ChildHandedOver(s, s', t.n, t.r.n, parent, m.n, t.l.n, m.r);
    if t.r.l.Bin? {
      SpliceKeeps(s, s', t.n, t.r.n, parent, m.n, t.l.n, RootOf(m.r), t.r.r, t.r.n);
    }
  }

  lemma DoubleSpine(s: State, s': State, c: Ctx<Node>, t: Tree<Node>)
    requires TwoChildren(s, c, t) && t.r.l.Bin?
    requires var m := Least(t.r); var parent := LeastParent(t.r, m.n);
      && CanSplice(s, t.n, t.r.n, parent, m.n, t.l.n, RootOf(m.r))
      && SplicedRecords(s, s', t.n, t.r.n, parent, m.n, t.l.n, RootOf(m.r))
      && Linked(s'.m, Blacken(m.r), parent)
    ensures Linked(s'.m, WithoutLeast(t.r.l, Blacken(Least(t.r).r)), t.r.n)
    ensures t.r.n in s'.m
    ensures s'.m[t.r.n] == Record(RootOf(WithoutLeast(t.r.l, Blacken(Least(t.r).r))), RootOf(t.r.r), Least(t.r).n, t.r.c)
  {
    var m := Least(t.r);
    assert Distinct(t.r) && Distinct(t.r.l);
    LeastNodes(t.r.l, t.r.n);
    LeastLinked(s.m, t.r, t.n);
    assert Linked(s.m, t.r, t.n) && Linked(s.m, t.r.l, t.r.n);
    assert !c.Top? ==> c.n in PathNodes(c);
    assert t.l.n in Nodes(t.l) && (m.r.Bin? ==> m.r.n in Nodes(m.r));
    WithoutLeastLinked(s.m, s'.m, t.r.l, t.r.n, Blacken(m.r));
  }

  lemma DoubleInPlace(s: State, c: Ctx<Node>, t: Tree<Node>)
    requires TwoChildren(s, c, t)
    ensures var m := Least(t.r); var s' := SplicedDouble(s, t.n, t.r.n, LeastParent(t.r, m.n), m.n);
      && At(s', c, SplicedTree(t))
  {
    var m := Least(t.r);
    var parent, x := LeastParent(t.r, m.n), Blacken(m.r);
    var s' := SplicedDouble(s, t.n, t.r.n, parent, m.n);
    SpliceReady(s, c, t);
    DoublePath(s, c, t.n, t.r.n, parent, m.n, t.l.n, RootOf(m.r));
    DoubleRecords(s, t.n, t.r.n, parent, m.n, t.l.n, RootOf(m.r));
    assert t.n in s.m && s.m[t.n].parent == ParentOf(c) && s.m[t.n].color == t.c;
    hide SplicedDouble, Apart, Linked;
    DoubleSides(s, s', c, t);
    if t.r.l.Bin? {
      DoubleSpine(s, s', c, t);
      LinkedBin(s'.m, WithoutLeast(t.r.l, x), t.r.n, t.r.c, t.r.r, m.n);
    }
    LinkedBin(s'.m, t.l, m.n, t.c, WithoutLeast(t.r, x), ParentOf(c));
  }

  lemma {:induction false} SpineParent(r: Tree<Node>, c: Ctx<Node>, p: Node)
    requires r.Bin? && !c.Top? && c.n == p
    ensures !Spine(r, c).Top? && Spine(r, c).n == LeastParent(r, p)
  {
    if r.l.Bin? { SpineParent(r.l, InLeft(r.n, r.c, r.r, c), r.n); }
  }

  /** The hole the splice leaves, and who is above it. */
  lemma SplicedHole(s: State, c: Ctx<Node>, t: Tree<Node>)
    requires t.Bin? && t.l.Bin? && t.r.Bin?
    ensures At(s, c, SplicedTree(t)) <==> At(s, SplicedPath(t, c), SplicedChild(t))
    ensures !SplicedPath(t, c).Top? && SplicedPath(t, c).n == LeastParent(t.r, Least(t.r).n)
  {
    var m := Least(t.r);
    var c0, x := InRight(t.l, m.n, t.c, c), Blacken(m.r);
    SpinePlug(t.r, c0, x);
    SpineParent(t.r, c0, m.n);
    AtPlug(s, c, SplicedTree(t));
    AtPlug(s, SplicedPath(t, c), x);
  }

  lemma SplicedUnique(t: Tree<Node>, c: Ctx<Node>)
    requires t.Bin? && Unique(Plug(c, t))
    ensures Unique(Plug(SplicedPath(t, c), SplicedChild(t)))
    ensures Nodes(SplicedChild(t)) + PathNodes(SplicedPath(t, c)) <= Nodes(t) + PathNodes(c)
  {
    var q, q' := Plug(c, t), Plug(SplicedPath(t, c), SplicedChild(t));
    var b, l, r, a := Before(c), Inorder(t.l), Inorder(t.r), After(c);
    InorderPlug(c, t);
    SplicedOrder(t, c);
    RegroupAround(b, l, t.n, r, a);
    NoDupMiddle(b + l, [t.n], r + a);
    NodesOfInorder(q);
    NodesOfInorder(q');
    var s := State(map[], null);
    AtPlug(s, c, t);
    AtPlug(s, SplicedPath(t, c), SplicedChild(t));
  }
}
