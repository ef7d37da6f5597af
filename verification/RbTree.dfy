/**
 * The red-black tree as an object: the root pointer, with a ghost copy of the fields of its nodes and
 * a ghost tree that they are linked as. The methods follow the source's assignments one by one; the
 * other modules say what each group of them does to the fields.
 */
module RbTree {
  import opened RbBalance
  import opened RbHeap
  import opened RbInsert
  import opened RbErase
  import opened RbSplice
  import Sequences

  class Root {
    var rbNode: Node?
    /** The fields of the nodes the tree is built from. */
    ghost var mem: Memory
    ghost var tree: Tree<Node>

    ghost predicate Synced()
      reads this, mem.Keys
    {
      forall n :: n in mem ==> n.Now() == mem[n]
    }

    ghost function Now(): State
      reads this
    {
      State(mem, rbNode)
    }

    // ----- assignments to the fields of a node

    method SetLeft(n: Node, x: Node?)
      requires Synced() && n in mem
      modifies this`mem, n`left
      ensures Synced() && mem.Keys == old(mem.Keys) && Now() == WithLeft(old(Now()), n, x)
    {
      n.left := x;
      mem := mem[n := mem[n].(left := x)];
    }

    method SetRight(n: Node, x: Node?)
      requires Synced() && n in mem
      modifies this`mem, n`right
      ensures Synced() && mem.Keys == old(mem.Keys) && Now() == WithRight(old(Now()), n, x)
    {
      n.right := x;
      mem := mem[n := mem[n].(right := x)];
    }

    method SetParent(n: Node, p: Node?)
      requires Synced() && n in mem
      modifies this`mem, n`parent
      ensures Synced() && mem.Keys == old(mem.Keys) && Now() == WithParent(old(Now()), n, p)
    {
      n.parent := p;
      mem := mem[n := mem[n].(parent := p)];
    }

    method SetParentColor(n: Node, p: Node?, c: Color)
      requires Synced() && n in mem
      modifies this`mem, n`parent, n`color
      ensures Synced() && mem.Keys == old(mem.Keys) && Now() == WithParentColor(old(Now()), n, p, c)
    {
      n.parent, n.color := p, c;
      mem := mem[n := mem[n].(parent := p, color := c)];
    }

    method ChangeChild(old': Node, new': Node?, parent: Node?)
      requires Synced() && (parent != null ==> parent in mem)
      modifies this, mem.Keys
      ensures Synced() && mem.Keys == old(mem.Keys) && Now() == ChildChanged(old(Now()), old', new', parent)
    {
      if parent != null {
        if parent.left == old' {
          SetLeft(parent, new');
        } else {
          SetRight(parent, new');
        }
      } else {
        rbNode := new';
      }
    }

    method RotateSetParents(old': Node, new': Node, color: Color)
      requires Synced() && old' in mem && new' in mem
      requires mem[old'].parent != null ==> mem[old'].parent in mem
      modifies this, mem.Keys
      ensures Synced() && mem.Keys == old(mem.Keys) && Now() == ParentsRotated(old(Now()), old', new', color)
    {
      var parent := old'.parent;
      SetParentColor(new', old'.parent, old'.color);
      SetParentColor(old', new', color);
      ChangeChild(old', new', parent);
    }

    /** Left rotation at x, whose right child y moves up: the assignments shared by the rotation
        cases of both loops. `tmp` is y's left child, which moves below x. */
    method RotateLeft(x: Node, y: Node, tmp: Node?, keepColor: bool, color: Color)
      requires Synced() && x in mem && y in mem && (tmp != null ==> tmp in mem) && x != tmp
      requires mem[x].parent != null ==> mem[x].parent in mem
      modifies this, mem.Keys
      ensures Synced() && mem.Keys == old(mem.Keys) && Now() == RotatedLeft(old(Now()), x, y, tmp, keepColor, color)
    {
      SetRight(x, tmp);
      SetLeft(y, x);
      if tmp != null {
        SetParentColor(tmp, x, if keepColor then tmp.color else Black);
      }
      RotateSetParents(x, y, color);
    }

    method RotateRight(x: Node, y: Node, tmp: Node?, keepColor: bool, color: Color)
      requires Synced() && x in mem && y in mem && (tmp != null ==> tmp in mem) && x != tmp
      requires mem[x].parent != null ==> mem[x].parent in mem
      modifies this, mem.Keys
      ensures Synced() && mem.Keys == old(mem.Keys) && Now() == RotatedRight(old(Now()), x, y, tmp, keepColor, color)
    {
      SetLeft(x, tmp);
      SetRight(y, x);
      if tmp != null {
        SetParentColor(tmp, x, if keepColor then tmp.color else Black);
      }
      RotateSetParents(x, y, color);
    }

    // ----- __rb_insert

    /** Case 1 - color flips. */
    method FlipColors(uncle: Node, parent: Node, gparent: Node)
      requires Synced() && uncle in mem && parent in mem && gparent in mem
      modifies this, mem.Keys
      ensures Synced() && mem.Keys == old(mem.Keys) && Now() == Flipped(old(Now()), uncle, parent, gparent)
    {
      SetParentColor(uncle, gparent, Black);
      SetParentColor(parent, gparent, Black);
      SetParentColor(gparent, gparent.parent, Red);
    }

    /** Cases 2 and 3 below a left child: an inner node is first turned into an outer one. */
    method RotateUnderLeft(node: Node, parent: Node, gparent: Node)
      requires Synced() && CanRotate(Now(), node, parent, gparent)
      modifies this, mem.Keys
      ensures Synced() && mem.Keys == old(mem.Keys) && Now() == TurnedUnderLeft(old(Now()), node, parent, gparent)
    {
      var top, tmp := parent, parent.right;
      if node == tmp {
        tmp := node.left;
        SetRight(parent, tmp);
        SetLeft(node, parent);
        if tmp != null {
          SetParentColor(tmp, parent, Black);
        }
        SetParentColor(parent, node, Red);
        top := node;
        tmp := node.right;
      }
      RotateRight(gparent, top, tmp, false, Red);
    }

    method RotateUnderRight(node: Node, parent: Node, gparent: Node)
      requires Synced() && CanRotate(Now(), node, parent, gparent)
      modifies this, mem.Keys
      ensures Synced() && mem.Keys == old(mem.Keys) && Now() == TurnedUnderRight(old(Now()), node, parent, gparent)
    {
      var top, tmp := parent, parent.left;
      if node == tmp {
        tmp := node.right;
        SetLeft(parent, tmp);
        SetRight(node, parent);
        if tmp != null {
          SetParentColor(tmp, parent, Black);
        }
        SetParentColor(parent, node, Red);
        top := node;
        tmp := node.left;
      }
      RotateLeft(gparent, top, tmp, false, Red);
    }

    /** One turn of the loop below a red parent that is a left child. */
    method TurnLeft(node: Node, parent: Node, gparent: Node, ghost c: Ctx<Node>, ghost t: Tree<Node>, ghost h: nat) returns (done: bool)
      requires Synced() && RedParent(Now(), c, t, h) && c.up.InLeft?
      requires node == t.n && parent == c.n && gparent == c.up.n && gparent in mem && gparent.right == RootOf(c.up.r)
      modifies this, mem.Keys
      ensures Synced() && mem.Keys == old(mem.Keys)
      ensures done ==> At(Now(), Top, InsertFix(t, c))
      ensures !done ==> InsertFix(FlippedTree(c, t), c.up.up) == InsertFix(t, c)
      ensures !done ==> Climbing(Now(), c.up.up, FlippedTree(c, t), h + 1)
    {
      ReadsGrandparent(Now(), c, t, h);
      var tmp := gparent.right;
      assert tmp != null ==> tmp.Now() == mem[tmp];
      if tmp != null && tmp.color == Red {
        TurnFlip(Now(), c, t, h);
        FlipColors(tmp, parent, gparent);
        done := false;
      } else {
        TurnRotate(Now(), c, t, h);
        RotateUnderLeft(node, parent, gparent);
        done := true;
      }
    }

    method TurnRight(node: Node, parent: Node, gparent: Node, ghost c: Ctx<Node>, ghost t: Tree<Node>, ghost h: nat) returns (done: bool)
      requires Synced() && RedParent(Now(), c, t, h) && c.up.InRight?
      requires node == t.n && parent == c.n && gparent == c.up.n && gparent in mem && gparent.left == RootOf(c.up.l)
      modifies this, mem.Keys
      ensures Synced() && mem.Keys == old(mem.Keys)
      ensures done ==> At(Now(), Top, InsertFix(t, c))
      ensures !done ==> InsertFix(FlippedTree(c, t), c.up.up) == InsertFix(t, c)
      ensures !done ==> Climbing(Now(), c.up.up, FlippedTree(c, t), h + 1)
    {
      ReadsGrandparent(Now(), c, t, h);
      var tmp := gparent.left;
      assert tmp != null ==> tmp.Now() == mem[tmp];
      if tmp != null && tmp.color == Red {
        TurnFlip(Now(), c, t, h);
        FlipColors(tmp, parent, gparent);
        done := false;
      } else {
        TurnRotate(Now(), c, t, h);
        RotateUnderRight(node, parent, gparent);
        done := true;
      }
    }

    /** The loop's tests for a root or a black parent, which end it. */
    method SettleAbove(node: Node, parent: Node?, ghost c: Ctx<Node>, ghost t: Tree<Node>, ghost h: nat) returns (done: bool)
      requires Synced() && Climbing(Now(), c, t, h) && t.n == node && parent == ParentOf(c)
      modifies this, mem.Keys
      ensures Synced() && mem.Keys == old(mem.Keys)
      ensures done ==> At(Now(), Top, InsertFix(t, c))
      ensures !done ==> Now() == old(Now()) && !c.Top? && c.c == Red && parent == c.n
    {
      Reads(Now(), c, t, h);
      done := true;
      if parent == null {
        BlackRootInPlace(Now(), t);
        SetParentColor(node, null, Black);
      } else if parent.color == Black {
        AtPlug(Now(), c, t);
      } else {
        done := false;
      }
    }

    method Turn(node: Node, parent: Node, ghost c: Ctx<Node>, ghost t: Tree<Node>, ghost h: nat) returns (done: bool, gparent: Node)
      requires Synced() && RedParent(Now(), c, t, h) && node == t.n && parent == c.n
      modifies this, mem.Keys
      ensures Synced() && mem.Keys == old(mem.Keys)
      ensures done ==> At(Now(), Top, InsertFix(t, c))
      ensures !done ==> !c.up.Top? && gparent == c.up.n && gparent in mem && gparent.parent == ParentOf(c.up.up)
      ensures !done ==> InsertFix(FlippedTree(c, t), c.up.up) == InsertFix(t, c)
      ensures !done ==> Climbing(Now(), c.up.up, FlippedTree(c, t), h + 1)
    {
      ReadsGrandparent(Now(), c, t, h);
      gparent := parent.parent;
      if parent != gparent.right {
        done := TurnLeft(node, parent, gparent, c, t, h);
      } else {
        done := TurnRight(node, parent, gparent, c, t, h);
      }
      if !done {
        Reads(Now(), c.up.up, FlippedTree(c, t), h + 1);
      }
    }

    /** The loop after an insertion: t0 is the subtree of the new red node x, c0 the path above it.
        The heap ends up holding the tree that RbBalance.InsertFix computes. */
    method InsertColor(x: Node, ghost c0: Ctx<Node>, ghost t0: Tree<Node>, ghost h0: nat)
      requires Synced() && IsRed(t0) && Climbing(Now(), c0, t0, h0) && t0.n == x && x in mem && x.parent == ParentOf(c0)
      modifies this, mem.Keys
      ensures Synced() && mem.Keys == old(mem.Keys)
      ensures At(Now(), Top, InsertFix(t0, c0))
    {
      hide InsertFix, Climbing, At;
      var node, parent := x, x.parent;
      ghost var c, t, h := c0, t0, h0;
      while true
        invariant Synced() && mem.Keys == old(mem.Keys)
        invariant IsRed(t) && Climbing(Now(), c, t, h) && t.n == node && parent == ParentOf(c)
        invariant InsertFix(t, c) == InsertFix(t0, c0)
        decreases c
      {
        var done := SettleAbove(node, parent, c, t, h);
        if done {
          break;
        }
        done, node := Turn(node, parent, c, t, h);
        if done {
          break;
        }
        c, t, h := c.up.up, FlippedTree(c, t), h + 1;
        parent := node.parent;
      }
    }

    // ----- __rb_erase_color

    /** Case 3, parent on the left - right rotate at sibling. */
    method LiftNearLeft(parent: Node, sibling: Node, near: Node)
      requires Synced() && parent in mem && sibling in mem && near in mem && RbHeap.Known(Now(), mem[near].right)
      modifies this, mem.Keys
      ensures Synced() && mem.Keys == old(mem.Keys) && Now() == Case3Left(old(Now()), parent, sibling, near)
    {
      var tmp := near.right;
      SetLeft(sibling, tmp);
      SetRight(near, sibling);
      SetRight(parent, near);
      if tmp != null {
        SetParentColor(tmp, sibling, Black);
      }
    }

    method LiftNearRight(parent: Node, sibling: Node, near: Node)
      requires Synced() && parent in mem && sibling in mem && near in mem && RbHeap.Known(Now(), mem[near].left)
      modifies this, mem.Keys
      ensures Synced() && mem.Keys == old(mem.Keys) && Now() == Case3Right(old(Now()), parent, sibling, near)
    {
      var tmp := near.left;
      SetRight(sibling, tmp);
      SetLeft(near, sibling);
      SetLeft(parent, near);
      if tmp != null {
        SetParentColor(tmp, sibling, Black);
      }
    }

    /** Case 4 - rotate at parent and flip colours. */
    method LiftFarLeft(parent: Node, sibling: Node)
      requires Synced() && CanLift(Now(), parent, sibling) && parent != sibling
      modifies this, mem.Keys
      ensures Synced() && mem.Keys == old(mem.Keys) && Now() == Case4Left(old(Now()), parent, sibling)
    {
      var far := sibling.right;
      if far != null {
        SetParentColor(far, sibling, Black);
      }
      RotateLeft(parent, sibling, sibling.left, true, Black);
    }

    method LiftFarRight(parent: Node, sibling: Node)
      requires Synced() && CanLift(Now(), parent, sibling) && parent != sibling
      modifies this, mem.Keys
      ensures Synced() && mem.Keys == old(mem.Keys) && Now() == Case4Right(old(Now()), parent, sibling)
    {
      var far := sibling.left;
      if far != null {
        SetParentColor(far, sibling, Black);
      }
      RotateRight(parent, sibling, sibling.right, true, Black);
    }

    /** Case 2: colour the sibling red; a red parent absorbs the missing black. */
    method Recolor(parent: Node, sibling: Node, ghost c: Ctx<Node>, ghost t: Tree<Node>, ghost h: nat) returns (done: bool)
      requires Synced() && Short(Now(), c, t, h) && parent == c.n && Sibling(c).Bin? && sibling == Sibling(c).n
      requires IsBlack(Sibling(c)) && IsBlack(Sibling(c).l) && IsBlack(Sibling(c).r)
      modifies this, mem.Keys
      ensures Synced() && mem.Keys == old(mem.Keys)
      ensures done <==> EraseStep(t, c).Done?
      ensures done ==> At(Now(), Top, EraseStep(t, c).t)
      ensures !done ==> if c.up.Top? then At(Now(), Top, EraseStep(t, c).t) else Short(Now(), c.up, EraseStep(t, c).t, h + 1)
      ensures !done ==> parent in mem && parent.parent == ParentOf(c.up) && RootOf(EraseStep(t, c).t) == parent
    {
      SiblingReads(Now(), c, t, h);
      RbErase.FlippedInPlace(Now(), c, t, h);
      hide Short, At, EraseStep, LinkedAbove, Linked, Apart;
      SetParentColor(sibling, parent, Red);
      if parent.color == Red {
        SetParentColor(parent, parent.parent, Black);
        done := true;
      } else {
        done := false;
      }
    }

    /** A turn of the loop with the short subtree on the left and a black sibling. */
    method TurnBlackLeft(parent: Node, sibling: Node, ghost c: Ctx<Node>, ghost t: Tree<Node>, ghost h: nat) returns (done: bool)
      requires Synced() && Short(Now(), c, t, h) && parent == c.n && Sibling(c).Bin? && sibling == Sibling(c).n
      requires c.InLeft? && IsBlack(c.r)
      modifies this, mem.Keys
      ensures Synced() && mem.Keys == old(mem.Keys)
      ensures done <==> EraseStep(t, c).Done?
      ensures done ==> At(Now(), Top, EraseStep(t, c).t)
      ensures !done ==> if c.up.Top? then At(Now(), Top, EraseStep(t, c).t) else Short(Now(), c.up, EraseStep(t, c).t, h + 1)
      ensures !done ==> parent in mem && parent.parent == ParentOf(c.up) && RootOf(EraseStep(t, c).t) == parent
    {
      hide Short, At, EraseStep, LinkedAbove, Linked, Apart, Case4Left, Case4Right;
      LiftReady(Now(), c, t, h);
      SiblingReads(Now(), c, t, h);
      var tmp1, tmp2 := sibling.right, sibling.left;
      assert tmp1 != null ==> tmp1.Now() == mem[tmp1];
      assert tmp2 != null ==> tmp2.Now() == mem[tmp2];
      if tmp1 == null || tmp1.color == Black {
        if tmp2 == null || tmp2.color == Black {
          hide *;
          done := Recolor(parent, sibling, c, t, h);
          return;
        }
        LiftedInPlace(Now(), c, t, h);
        Case3LeftRecords(Now(), parent, sibling, tmp2, mem[tmp2].right);
        LiftNearLeft(parent, sibling, tmp2);
        LiftFarLeft(parent, tmp2);
      } else {
        LiftedInPlace(Now(), c, t, h);
        LiftFarLeft(parent, sibling);
      }
      done := true;
    }

    method TurnBlackRight(parent: Node, sibling: Node, ghost c: Ctx<Node>, ghost t: Tree<Node>, ghost h: nat) returns (done: bool)
      requires Synced() && Short(Now(), c, t, h) && parent == c.n && Sibling(c).Bin? && sibling == Sibling(c).n
      requires c.InRight? && IsBlack(c.l)
      modifies this, mem.Keys
      ensures Synced() && mem.Keys == old(mem.Keys)
      ensures done <==> EraseStep(t, c).Done?
      ensures done ==> At(Now(), Top, EraseStep(t, c).t)
      ensures !done ==> if c.up.Top? then At(Now(), Top, EraseStep(t, c).t) else Short(Now(), c.up, EraseStep(t, c).t, h + 1)
      ensures !done ==> parent in mem && parent.parent == ParentOf(c.up) && RootOf(EraseStep(t, c).t) == parent
    {
      hide Short, At, EraseStep, LinkedAbove, Linked, Apart, Case4Left, Case4Right;
      LiftReady(Now(), c, t, h);
      SiblingReads(Now(), c, t, h);
      var tmp1, tmp2 := sibling.left, sibling.right;
      assert tmp1 != null ==> tmp1.Now() == mem[tmp1];
      assert tmp2 != null ==> tmp2.Now() == mem[tmp2];
      if tmp1 == null || tmp1.color == Black {
        if tmp2 == null || tmp2.color == Black {
          hide *;
          done := Recolor(parent, sibling, c, t, h);
          return;
        }
        LiftedInPlace(Now(), c, t, h);
        Case3RightRecords(Now(), parent, sibling, tmp2, mem[tmp2].left);
        LiftNearRight(parent, sibling, tmp2);
        LiftFarRight(parent, tmp2);
      } else {
        LiftedInPlace(Now(), c, t, h);
        LiftFarRight(parent, sibling);
      }
      done := true;
    }

    /** One turn of the loop: case 1 first, when the sibling is red. */
    method EraseTurn(node: Node?, parent: Node, ghost c: Ctx<Node>, ghost t: Tree<Node>, ghost h: nat) returns (done: bool)
      requires Synced() && Short(Now(), c, t, h) && parent == c.n && node == RootOf(t)
      modifies this, mem.Keys
      ensures Synced() && mem.Keys == old(mem.Keys)
      ensures done <==> EraseStep(t, c).Done?
      ensures done ==> At(Now(), Top, EraseStep(t, c).t)
      ensures !done ==> if c.up.Top? then At(Now(), Top, EraseStep(t, c).t) else Short(Now(), c.up, EraseStep(t, c).t, h + 1)
      ensures !done ==> parent in mem && parent.parent == ParentOf(c.up) && RootOf(EraseStep(t, c).t) == parent
    {
      ghost var c' := c;
      SiblingReads(Now(), c, t, h);
      var sibling := parent.right;
      if node != sibling {
        if sibling.color == Red {
          RedSibling(Now(), c, t, h);
          c' := RotatedPath(c);
          var tmp1 := sibling.left;
          RotateLeft(parent, sibling, tmp1, false, Red);
          sibling := tmp1;
        }
        done := TurnBlackLeft(parent, sibling, c', t, h);
      } else {
        sibling := parent.left;
        if sibling.color == Red {
          RedSibling(Now(), c, t, h);
          c' := RotatedPath(c);
          var tmp1 := sibling.right;
          RotateRight(parent, sibling, tmp1, false, Red);
          sibling := tmp1;
        }
        done := TurnBlackRight(parent, sibling, c', t, h);
      }
    }

    /** The loop after an erasure has taken a black node from the hole of c0. The heap ends up
        holding the tree that RbBalance.EraseFix computes. */
    method EraseColor(p: Node, ghost c0: Ctx<Node>)
      requires Synced() && Short(Now(), c0, Leaf, 0) && !c0.Top? && p == c0.n
      modifies this, mem.Keys
      ensures Synced() && mem.Keys == old(mem.Keys)
      ensures At(Now(), Top, EraseFix(Leaf, c0))
    {
      hide Short, EraseStep, At;
      var node: Node?, parent := null, p;
      ghost var c, t, h := c0, Leaf, 0;
      while true
        invariant Synced() && mem.Keys == old(mem.Keys)
        invariant Short(Now(), c, t, h) && node == RootOf(t) && !c.Top? && parent == c.n
        invariant EraseFix(t, c) == EraseFix(Leaf, c0)
        decreases c
      {
        var done := EraseTurn(node, parent, c, t, h);
        if done {
          break;
        }
        node := parent;
        c, t, h := c.up, EraseStep(t, c).t, h + 1;
        if node.parent == null {
          break;
        }
        parent := node.parent;
      }
    }

    // ----- rb_erase_augmented, with callbacks that do nothing

    /** The node has at most one child, which takes its place and colour. */
    method SpliceSingle(node: Node, child: Node?)
      requires Synced() && node in mem && (child != null ==> child in mem) && (mem[node].parent != null ==> mem[node].parent in mem)
      requires child != node && mem[node].parent != node
      modifies this, mem.Keys
      ensures Synced() && mem.Keys == old(mem.Keys) && Now() == SplicedSingle(old(Now()), node, child)
    {
      var parent, color := node.parent, node.color;
      ChangeChild(node, child, parent);
      if child != null {
        SetParentColor(child, parent, color);
      }
    }

    /** The node has two children: its successor takes its place and colour. Returns the place
        where a black node is now missing, if any. */
    method SpliceDouble(node: Node, ghost c: Ctx<Node>, ghost t: Tree<Node>) returns (rebalance: Node?)
      requires Synced() && TwoChildren(Now(), c, t) && t.n == node
      modifies this, mem.Keys
      ensures Synced() && mem.Keys == old(mem.Keys)
      ensures At(Now(), c, SplicedTree(t))
      ensures rebalance == if Least(t.r).r.Leaf? && Least(t.r).c == Black then LeastParent(t.r, Least(t.r).n) else null
    {
      SpliceReady(Now(), c, t);
      DoubleInPlace(Now(), c, t);
      var child := node.right;
      var parent, successor := FindSuccessor(node, child, c, t);
      var child2 := successor.right;
      var pc2 := successor.color;
      hide At, TwoChildren;
      if successor != child {
        FreedRecords(Now(), child, parent, successor);
        Free(child, parent, successor);
        hide Freed;
      }
      Adopt(node, parent, successor, child2);
      rebalance := if child2 == null && pc2 == Black then parent else null;
    }

    /** Walk to the leftmost node below child, keeping its parent; the parent is the successor
        itself when there is no step to take. */
    method FindSuccessor(node: Node, child: Node, ghost c: Ctx<Node>, ghost t: Tree<Node>) returns (parent: Node, successor: Node)
      requires Synced() && TwoChildren(Now(), c, t) && t.n == node && child == t.r.n
      ensures successor == Least(t.r).n && parent == LeastParent(t.r, Least(t.r).n)
    {
      successor := child;
      assert Linked(mem, t.r, node) && child in Nodes(t.r);
      var tmp := child.left;
      if tmp == null {
        parent := successor;
      } else {
        ghost var r := t.r;
        parent := successor;
        while tmp != null
          invariant Synced() && r.Bin? && Nodes(r) <= mem.Keys && Linked(mem, r, mem[r.n].parent)
          invariant r.n == successor && tmp == RootOf(r.l) && Least(r) == Least(t.r)
          invariant tmp == null ==> parent == LeastParent(t.r, Least(t.r).n)
          invariant tmp != null ==> LeastParent(r, Least(t.r).n) == LeastParent(t.r, Least(t.r).n)
          decreases r
        {
          parent := successor;
          successor := tmp;
          r := r.l;
          assert successor in Nodes(r);
          tmp := tmp.left;
        }
      }
    }

    method Free(child: Node, parent: Node, successor: Node)
      requires Synced() && child in mem && parent in mem && successor in mem
      modifies this, mem.Keys
      ensures Synced() && mem.Keys == old(mem.Keys) && Now() == Freed(old(Now()), child, parent, successor)
    {
      SetLeft(parent, successor.right);
      SetRight(successor, child);
      SetParent(child, successor);
    }

    method Adopt(node: Node, parent: Node, successor: Node, child2: Node?)
      requires Synced() && node in mem && successor in mem && (child2 != null ==> child2 in mem) && mem[node].left in mem
      requires node != successor && mem[node].left != node && (mem[node].parent != null ==> mem[node].parent in mem)
      modifies this, mem.Keys
      ensures Synced() && mem.Keys == old(mem.Keys) && Now() == Adopted(old(Now()), node, parent, successor, child2)
    {
      var left := node.left;
      SetLeft(successor, left);
      SetParent(left, successor);
      var up, color := node.parent, node.color;
      ChangeChild(node, successor, up);
      SetParentColor(successor, up, color);
      if child2 != null {
        SetParentColor(child2, parent, Black);
      }
    }

    /** Everything before the rebalancing: the node at the root of t leaves the tree, and the
        result is the place below which a black node is missing, if any. */
    method Unlink(node: Node, ghost c: Ctx<Node>, ghost t: Tree<Node>) returns (rebalance: Node?)
      requires Synced() && At(Now(), c, t) && t.Bin? && t.n == node
      requires Unique(Plug(c, t)) && RedBlack(Plug(c, t)) && Nodes(t) + PathNodes(c) <= mem.Keys
      modifies this, mem.Keys
      ensures Synced() && mem.Keys == old(mem.Keys)
      ensures At(Now(), SplicedPath(t, c), SplicedChild(t))
      ensures rebalance == if SplicedChild(t).Leaf? && RemovedColor(t) == Black then ParentOf(SplicedPath(t, c)) else null
    {
      EraseReady(Now(), c, t);
      var child, tmp := node.right, node.left;
      var parent, color := node.parent, node.color;
      if tmp == null {
        SingleInPlace(Now(), c, t);
        SpliceSingle(node, child);
        rebalance := if child == null && color == Black then parent else null;
      } else if child == null {
        SingleInPlace(Now(), c, t);
        SpliceSingle(node, tmp);
        rebalance := null;
      } else {
        rebalance := SpliceDouble(node, c, t);
        SplicedHole(Now(), c, t);
      }
    }

    /** rb_erase on the node at the root of t below c: the heap ends up holding the tree that
        RbBalance.EraseAt computes. */
    method EraseNode(node: Node, ghost c: Ctx<Node>, ghost t: Tree<Node>)
      requires Synced() && At(Now(), c, t) && t.Bin? && t.n == node
      requires Unique(Plug(c, t)) && RedBlack(Plug(c, t)) && Nodes(t) + PathNodes(c) <= mem.Keys
      modifies this, mem.Keys
      ensures Synced() && mem.Keys == old(mem.Keys)
      ensures At(Now(), Top, EraseAt(t, c))
    {
      hide Unique, RedBlack, Fits, SplicedPath, Nodes, PathNodes, Linked, LinkedAbove;
      ghost var c', x := SplicedPath(t, c), SplicedChild(t);
      EraseReady(Now(), c, t);
      var rebalance := Unlink(node, c, t);
      AtPlug(Now(), c', x);
      if rebalance != null {
        EraseColor(rebalance, c');
      }
    }

    // ----- the ordered set of rbtree_rc.c

    /** The heap holds the tree, which obeys the red-black rules and is in strict key order. */
    ghost predicate Valid()
      reads this, mem.Keys
    {
      WellBuilt() && Ordered(Inorder(tree))
    }

    /** As Valid, but for the order of the keys. */
    ghost predicate WellBuilt()
      reads this, mem.Keys
    {
      Synced() && mem.Keys == Nodes(tree) && At(Now(), Top, tree) && RedBlack(tree)
    }

    /** The nodes in key order: what a traversal visits. */
    ghost function Contents(): seq<Node>
      reads this
    {
      Inorder(tree)
    }

    constructor ()
      ensures Valid() && Contents() == []
    {
      rbNode, mem, tree := null, map[], Leaf;
      new;
      assert Balanced(tree, 0);
    }

    /** container_search: finds the key if it is there, in at most 2 log2(n + 1) comparisons. */
    method Search(key: int) returns (self: Node?, steps: nat)
      requires Valid()
      ensures self != null ==> self in Contents() && self.key == key
      ensures self == null ==> forall n :: n in Contents() ==> n.key != key
      ensures Pow2(steps) <= (|Contents()| + 1) * (|Contents()| + 1)
    {
      var node := rbNode;
      self, steps := null, 0;
      ghost var c, t := Top, tree;
      while node != null
        invariant self == null
        invariant Plug(c, t) == tree && At(Now(), c, t) && node == RootOf(t) && Nodes(t) <= mem.Keys
        invariant Below(Before(c), key) && Above(After(c), key)
        invariant steps + Height(t) <= Height(tree)
        decreases t
      {
        assert node in Nodes(t);
        SearchStep(c, t, key);
        steps := steps + 1;
        var result := key - node.key;
        if result < 0 {
          c, t := InLeft(t.n, t.c, t.r, c), t.l;
          node := node.left;
        } else if result > 0 {
          c, t := InRight(t.l, t.n, t.c, c), t.r;
          node := node.right;
        } else {
          self := node;
          break;
        }
      }
      InorderPlug(c, t);
      SearchCost(tree, steps);
    }

    /** The pointer a slot holds: the root pointer, or a child field. */
    function Deref(slot: Slot): Node?
      reads this, match slot case RootSlot => {} case LeftOf(n) => {n} case RightOf(n) => {n}
    {
      match slot
      case RootSlot => rbNode
      case LeftOf(n) => n.left
      case RightOf(n) => n.right
    }

    /** container_insert: walks down to the key's slot, links the new node there in red and
        rebalances; an equal key leaves everything as it was. */
    method Insert(x: Node) returns (r: int)
      requires Valid() && x !in mem
      modifies this, mem.Keys, x
      ensures Valid()
      ensures r == if exists n :: n in old(Contents()) && n.key == x.key then -1 else 0
      ensures r == -1 ==> Now() == old(Now()) && tree == old(tree) && unchanged(x)
      ensures r == 0 ==> exists p, q :: old(Contents()) == p + q && Contents() == p + [x] + q
    {
      hide RedBlack, Ordered, Inorder, Before, After;
      var slot, parent: Node? := RootSlot, null;
      ghost var c, t := Top, tree;
      BeginSearch(x.key);
      while Deref(slot) != null
        invariant Now() == old(Now()) && tree == old(tree) && Valid() && unchanged(x)
        invariant Plug(c, t) == tree && At(Now(), c, t) && Nodes(t) <= mem.Keys
        invariant slot == SlotOf(c) && Deref(slot) == RootOf(t) && parent == ParentOf(c)
        invariant Below(Before(c), x.key) && Above(After(c), x.key)
        decreases t
      {
        var self := Deref(slot);
        assert self in Nodes(t);
        SearchStep(c, t, x.key);
        var result := x.key - self.key;
        parent := self;
        if result < 0 {
          slot := LeftOf(self);
          c, t := InLeft(t.n, t.c, t.r, c), t.l;
        } else if result > 0 {
          slot := RightOf(self);
          c, t := InRight(t.l, t.n, t.c, c), t.r;
        } else {
          r := -1;
          return;
        }
      }
      EndSearch(c, t, x.key);
      hide Valid;
      LinkAndColor(x, parent, slot, c);
      r := 0;
    }

    /** rb_link_node and rb_insert_color at an empty slot. */
    method LinkAndColor(x: Node, parent: Node?, slot: Slot, ghost c: Ctx<Node>)
      requires Valid() && x !in mem && Plug(c, Leaf) == tree && slot == SlotOf(c) && parent == ParentOf(c)
      requires Below(Before(c), x.key) && Above(After(c), x.key)
      modifies this, mem.Keys, x
      ensures Valid() && Contents() == Before(c) + [x] + After(c)
    {
      hide Climbing, At, RedBlack, Ordered, InsertFix, PathNodes, Below, Above, Plug;
      ghost var repaired := LinkRed(x, parent, slot, c);
      InsertColor(x, c, Bin(Leaf, x, Red, Leaf), 0);
      tree := repaired;
    }

    method LinkRed(x: Node, parent: Node?, slot: Slot, ghost c: Ctx<Node>) returns (ghost repaired: Tree<Node>)
      requires Valid() && x !in mem && Plug(c, Leaf) == tree && slot == SlotOf(c) && parent == ParentOf(c)
      requires Below(Before(c), x.key) && Above(After(c), x.key)
      modifies this, mem.Keys, x
      ensures Synced() && Climbing(Now(), c, Bin(Leaf, x, Red, Leaf), 0)
      ensures mem.Keys == old(mem.Keys) + {x} && x.parent == ParentOf(c)
      ensures repaired == InsertFix(Bin(Leaf, x, Red, Leaf), c) && RedBlack(repaired) && Nodes(repaired) == mem.Keys
      ensures Inorder(repaired) == Before(c) + [x] + After(c) && Ordered(Inorder(repaired))
    {
      AtPlug(Now(), c, Leaf);
      repaired := InsertFix(Bin(Leaf, x, Red, Leaf), c);
      NewLeafOrder(c, x);
      NewLeafBalance(c, x);
      NewLeaf(Now(), c, x);
      assert !c.Top? ==> c.n in PathNodes(c);
      hide Climbing, At, RedBlack, Ordered, LinkedNew;
      LinkNode(x, parent, slot, c);
    }

    method LinkNode(x: Node, parent: Node?, slot: Slot, ghost c: Ctx<Node>)
      requires Synced() && x !in mem && slot == SlotOf(c) && parent == ParentOf(c) && (!c.Top? ==> c.n in mem)
      modifies this, mem.Keys, x
      ensures Synced() && Now() == LinkedNew(old(Now()), c, x) && mem.Keys == old(mem.Keys) + {x}
      ensures x.parent == ParentOf(c)
    {
      x.parent, x.color := parent, Red;
      x.left, x.right := null, null;
      mem := mem[x := Record(null, null, parent, Red)];
      match slot {
        case RootSlot => rbNode := x;
        case LeftOf(n) => SetLeft(n, x);
        case RightOf(n) => SetRight(n, x);
      }
    }

    /** rb_erase: exactly this node, which p and q surround in key order, leaves the set. */
    method Erase(node: Node) returns (ghost p: seq<Node>, ghost q: seq<Node>)
      requires Valid() && node in mem
      modifies this, mem.Keys
      ensures Valid() && mem.Keys == old(mem.Keys) - {node}
      ensures old(Contents()) == p + [node] + q && Contents() == p + q
    {
      hide EraseAt, RedBlack, Ordered, At, Plug, Inorder, Unique, Before, After, PathNodes, Valid;
      ghost var c, t, repaired;
      c, t, repaired, p, q := ErasePlan(node);
      InTree();
      EraseNode(node, c, t);
      LetGo(node, repaired);
    }

    lemma InTree()
      requires Valid()
      ensures Synced()
    {
    }

    /** The erased node is no longer one of the tree's. */
    ghost method LetGo(node: Node, repaired: Tree<Node>)
      requires Synced() && At(Now(), Top, repaired) && RedBlack(repaired) && Ordered(Inorder(repaired))
      requires node in mem && Nodes(repaired) == mem.Keys - {node}
      modifies `tree, `mem
      ensures Valid() && mem.Keys == old(mem.Keys) - {node} && tree == repaired
    {
      hide RedBlack, Ordered, At, Inorder, Nodes;
      Forget(Now(), repaired, node);
      tree, mem := repaired, mem - {node};
    }

    ghost method ErasePlan(node: Node)
      returns (c: Ctx<Node>, t: Tree<Node>, repaired: Tree<Node>, p: seq<Node>, q: seq<Node>)
      requires Valid() && node in mem
      ensures At(Now(), c, t) && t.Bin? && t.n == node && Nodes(t) + PathNodes(c) <= mem.Keys
      ensures Unique(Plug(c, t)) && RedBlack(Plug(c, t))
      ensures repaired == EraseAt(t, c) && RedBlack(repaired) && Ordered(Inorder(repaired)) && Nodes(repaired) == mem.Keys - {node}
      ensures Contents() == p + [node] + q && Inorder(repaired) == p + q
    {
      c, t := Locate(tree, node);
      AtPlug(Now(), c, t);
      OrderedNoDup(Inorder(tree));
      EraseResult(c, t);
      repaired := EraseAt(t, c);
      p, q := Before(c) + Inorder(t.l), Inorder(t.r) + After(c);
    }

    /** container_delete: removes the key's node and returns it, or returns null and changes nothing. */
    method Delete(key: int) returns (find: Node?)
      requires Valid()
      modifies this, mem.Keys
      ensures Valid()
      ensures find == null <==> forall n :: n in old(Contents()) ==> n.key != key
      ensures find == null ==> Now() == old(Now()) && tree == old(tree)
      ensures find != null ==> find.key == key && find in old(Contents()) && mem.Keys == old(mem.Keys) - {find}
      ensures find != null ==> exists p, q :: old(Contents()) == p + [find] + q && Contents() == p + q
    {
      ghost var p, q;
      var steps;
      find, steps := Search(key);
      if find == null {
        return;
      }
      NodesOfInorder(tree);
      p, q := Erase(find);
    }

    // ----- rb_first, rb_next, rb_prev

    method First() returns (n: Node?)
      requires Valid()
      ensures n == if Contents() == [] then null else Contents()[0]
    {
      n := rbNode;
      if n == null {
        return;
      }
      n := Leftmost(n, Top, tree);
    }

    /** Down the left children from n: the first node of its subtree. */
    method Leftmost(n0: Node, ghost c0: Ctx<Node>, ghost t0: Tree<Node>) returns (n: Node)
      requires Synced() && Linked(mem, t0, ParentOf(c0)) && Nodes(t0) <= mem.Keys && t0.Bin? && n0 == t0.n
      ensures Inorder(t0) != [] && n == Inorder(t0)[0]
    {
      n := n0;
      ghost var p: Node?, t := ParentOf(c0), t0;
      while n.left != null
        invariant t.Bin? && n == t.n && Linked(mem, t, p) && Nodes(t) <= mem.Keys
        invariant Inorder(t)[0] == Inorder(t0)[0]
        decreases t
      {
        p, t := t.n, t.l;
        n := n.left;
      }
    }

    method Rightmost(n0: Node, ghost c0: Ctx<Node>, ghost t0: Tree<Node>) returns (n: Node)
      requires Synced() && Linked(mem, t0, ParentOf(c0)) && Nodes(t0) <= mem.Keys && t0.Bin? && n0 == t0.n
      ensures Inorder(t0) != [] && n == Inorder(t0)[|Inorder(t0)| - 1]
    {
      n := n0;
      ghost var p: Node?, t := ParentOf(c0), t0;
      while n.right != null
        invariant t.Bin? && n == t.n && Linked(mem, t, p) && Nodes(t) <= mem.Keys
        invariant Inorder(t)[|Inorder(t)| - 1] == Inorder(t0)[|Inorder(t0)| - 1]
        decreases t
      {
        p, t := t.n, t.r;
        n := n.right;
      }
    }

    /** rb_next: the node after this one in key order, or null after the last. */
    method Next(node: Node) returns (r: Node?)
      requires Valid() && node in mem
      ensures r == NextOf(Contents(), node)
    {
      ghost var c, t := Locate(tree, node);
      AtPlug(Now(), c, t);
      Neighbours(c, t);
      assert node in Nodes(t);
      if node.right != null {
        r := Leftmost(node.right, InRight(t.l, t.n, t.c, c), t.r);
        return;
      }
      var n := node;
      r := n.parent;
      ghost var after := After(c);
      assert NextOf(Contents(), node) == if after == [] then null else after[0];
      hide Balanced, RedBlack, Ordered;
      while r != null && n == r.right
        invariant At(Now(), c, t) && PathNodes(c) <= mem.Keys && Apart(c, t)
        invariant t.Bin? && n == t.n && r == ParentOf(c) && After(c) == after
        decreases c
      {
        ClimbOne(Now(), c, t);
        n := r;
        t, c := Bin(c.l, c.n, c.c, t), c.up;
        r := n.parent;
      }
      if r != null {
        ClimbOne(Now(), c, t);
      }
    }

    /** rb_prev: the node before this one in key order, or null before the first. */
    method Prev(node: Node) returns (r: Node?)
      requires Valid() && node in mem
      ensures r == PrevOf(Contents(), node)
    {
      ghost var c, t := Locate(tree, node);
      AtPlug(Now(), c, t);
      Neighbours(c, t);
      assert node in Nodes(t);
      if node.left != null {
        r := Rightmost(node.left, InLeft(t.n, t.c, t.r, c), t.l);
        return;
      }
      var n := node;
      r := n.parent;
      ghost var before := Before(c);
      assert PrevOf(Contents(), node) == if before == [] then null else before[|before| - 1];
      hide Balanced, RedBlack, Ordered;
      while r != null && n == r.left
        invariant At(Now(), c, t) && PathNodes(c) <= mem.Keys && Apart(c, t)
        invariant t.Bin? && n == t.n && r == ParentOf(c) && Before(c) == before
        decreases c
      {
        ClimbOne(Now(), c, t);
        n := r;
        t, c := Bin(t, c.n, c.c, c.r), c.up;
        r := n.parent;
      }
      if r != null {
        ClimbOne(Now(), c, t);
      }
    }

    /** container_traverse: every node once, in key order. */
    method Traverse() returns (visited: seq<Node>)
      requires Valid()
      ensures visited == Contents()
    {
      visited := [];
      var node := First();
      while node != null
        invariant visited <= Contents()
        invariant node == if |visited| < |Contents()| then Contents()[|visited|] else null
        decreases |Contents()| - |visited|
      {
        NextInTree(this, |visited|);
        visited := visited + [node];
        node := Next(node);
      }
    }

    /** rb_cmp: walks both trees in order. */
    static method Compare(a: Root, b: Root) returns (result: int)
      requires a.Valid() && b.Valid()
      ensures result == Lexicographic(Keys(a.Contents()), Keys(b.Contents()))
      ensures forall d :: PartAt(Keys(a.Contents()), Keys(b.Contents()), d) ==> result == PartedBy(Keys(a.Contents()), Keys(b.Contents()), d)
    {
      hide Lexicographic, RedBlack, At, Ordered, Inorder, Nodes;
      LexicographicParts(Keys(a.Contents()), Keys(b.Contents()));
      ghost var i, p, q := 0, a.Contents(), b.Contents();
      var n1 := a.First();
      var n2 := b.First();
      while n1 != null && n2 != null
        invariant 0 <= i <= |p| && i <= |q|
        invariant n1 == if i < |p| then p[i] else null
        invariant n2 == if i < |q| then q[i] else null
        invariant Lexicographic(Keys(p), Keys(q)) == Lexicographic(Keys(p)[i..], Keys(q)[i..])
        decreases |p| - i
      {
        NextInTree(a, i);
        NextInTree(b, i);
        LexicographicStep(Keys(p), Keys(q), i);
        result := n1.key - n2.key;
        if result != 0 {
          return;
        }
        n1 := a.Next(n1);
        n2 := b.Next(n2);
        i := i + 1;
      }
      LexicographicEnd(Keys(p)[i..], Keys(q)[i..]);
      if n1 != null && n2 == null {
        return 1;
      }
      if n2 != null && n1 == null {
        return -1;
      }
      return 0;
    }

    /** container_replace: the found node's place, links and colour go to cont, whose own key is
        not compared with anything; so the result is in order exactly when that key fits between
        the neighbours. */
    method Replace(key: int, cont: Node) returns (find: Node?, ghost i: nat)
      requires Valid() && cont !in mem
      modifies this, mem.Keys, cont
      ensures find == null <==> forall n :: n in old(Contents()) ==> n.key != key
      ensures find == null ==> Valid() && Now() == old(Now()) && tree == old(tree)
      ensures find != null ==> i < |old(Contents())| && old(Contents())[i] == find && find.key == key
      ensures find != null ==> WellBuilt() && Contents() == old(Contents())[i := cont]
      ensures find != null ==> (Valid() <==> FitsBetween(old(Contents()), i, cont.key))
    {
      var steps;
      find, steps := Search(key);
      i := 0;
      if find == null {
        return;
      }
      NodesOfInorder(tree);
      i :| 0 <= i < |Contents()| && Contents()[i] == find;
      FitsOrdered(Contents(), i, cont);
      ReplaceNode(find, cont, i);
    }

    /** rb_replace_node. */
    method ReplaceNode(victim: Node, new': Node, ghost i: nat)
      requires Valid() && i < |Contents()| && Contents()[i] == victim && victim in mem && new' !in mem
      modifies this, mem.Keys, new'
      ensures WellBuilt() && Contents() == old(Contents())[i := new']
    {
      hide RedBlack, Ordered, At, Plug, Inorder, Nodes, Replaced, CanReplace;
      ghost var c, t := Locate(tree, victim);
      ghost var t' := t.(n := new');
      ReplacedPlan(Now(), c, t, i, new');
      WriteReplacement(victim, new');
      tree := Plug(c, t');
    }

    method WriteReplacement(victim: Node, new': Node)
      requires Synced() && victim in mem && new' !in mem && CanReplace(Now(), victim)
      modifies this, mem.Keys, new'
      ensures Synced() && Now() == Replaced(old(Now()), victim, new') && mem.Keys == old(mem.Keys) - {victim} + {new'}
    {
      hide Reparented, ChildChanged;
      VictimKept(Now(), victim, new');
      var parent := victim.parent;
      ChangeChild(victim, new', parent);
      ReparentChildren(victim, new');
      CopyNode(victim, new');
    }

    method ReparentChildren(victim: Node, new': Node)
      requires Synced() && victim in mem
      requires (mem[victim].left != null ==> mem[victim].left in mem) && (mem[victim].right != null ==> mem[victim].right in mem)
      modifies this, mem.Keys
      ensures Synced() && mem.Keys == old(mem.Keys) && Now() == Reparented(old(Now()), victim, new')
    {
      if victim.left != null {
        SetParent(victim.left, new');
      }
      if victim.right != null {
        SetParent(victim.right, new');
      }
    }

    method CopyNode(victim: Node, new': Node)
      requires Synced() && victim in mem && new' !in mem
      modifies this`mem, new'
      ensures Synced() && Now() == old(Now()).(m := old(mem)[new' := old(mem)[victim]] - {victim})
    {
      new'.left, new'.right, new'.parent, new'.color := victim.left, victim.right, victim.parent, victim.color;
      mem := mem[new' := mem[victim]] - {victim};
    }
  }

  ghost predicate FitsBetween(q: seq<Node>, i: nat, key: int)
    requires i < |q|
  {
    (i > 0 ==> q[i - 1].key < key) && (i + 1 < |q| ==> key < q[i + 1].key)
  }

  lemma FitsOrdered(q: seq<Node>, i: nat, n: Node)
    requires Ordered(q) && i < |q|
    ensures Ordered(q[i := n]) <==> FitsBetween(q, i, n.key)
  {
    var w := q[i := n];
    if Ordered(w) {
      assert i > 0 ==> w[i - 1].key < w[i].key;
      assert i + 1 < |q| ==> w[i].key < w[i + 1].key;
    }
  }

  function Reparented(s: State, victim: Node, new': Node): State {
    var left := Read(s, victim).left;
    var s1 := if left == null then s else WithParent(s, left, new');
    var right := Read(s1, victim).right;
    if right == null then s1 else WithParent(s1, right, new')
  }

  /** The links to the victim lead to the new node, which takes over the victim's fields. */
  function Replaced(s: State, victim: Node, new': Node): State {
    var s1 := Reparented(ChildChanged(s, victim, new', Read(s, victim).parent), victim, new');
    s1.(m := s1.m[new' := Read(s1, victim)] - {victim})
  }

  ghost predicate CanReplace(s: State, v: Node) {
    v in s.m &&
    var r := s.m[v];
    (r.parent != null ==> r.parent in s.m && r.parent != v && r.parent != r.left && r.parent != r.right)
    && (r.left != null ==> r.left in s.m && r.left != v && r.left != r.right) && (r.right != null ==> r.right in s.m && r.right != v)
  }

  lemma VictimKept(s: State, v: Node, new': Node)
    requires CanReplace(s, v)
    ensures var s1 := ChildChanged(s, v, new', s.m[v].parent);
            s1.m.Keys == s.m.Keys && s1.m[v] == s.m[v]
  {
  }

  /** A replacement writes the new record, the parent fields of the children and the slot above. */
  lemma ReplacedRecords(s: State, v: Node, new': Node)
    requires CanReplace(s, v) && new' !in s.m
    ensures var s', r := Replaced(s, v, new'), s.m[v];
      && new' in s'.m && s'.m[new'] == r
      && (r.left != null ==> r.left in s'.m && s'.m[r.left] == s.m[r.left].(parent := new'))
      && (r.right != null ==> r.right in s'.m && s'.m[r.right] == s.m[r.right].(parent := new'))
      && forall n :: n in s.m && n != v && n != r.left && n != r.right && n != r.parent ==> n in s'.m && s'.m[n] == s.m[n]
  {
    VictimKept(s, v, new');
  }

  lemma ReplacedPath(s: State, c: Ctx<Node>, v: Node, new': Node)
    requires CanReplace(s, v) && new' !in s.m && s.m[v].parent == ParentOf(c)
    requires LinkedAbove(s, c, v) && PathDistinct(c) && PathNodes(c) <= s.m.Keys
    requires v !in PathNodes(c) && s.m[v].left !in PathNodes(c) && s.m[v].right !in PathNodes(c)
    ensures LinkedAbove(Replaced(s, v, new'), c, new')
  {
    var s1 := ChildChanged(s, v, new', ParentOf(c));
    ChildChangedInPlace(s, v, new', c);
    VictimKept(s, v, new');
    hide ChildChanged, PathDistinct;
    LinkedAboveFrame(s1, Replaced(s, v, new'), c, new');
  }

  /** A child's subtree hangs below the new node. */
  lemma ReplacedSide(s: State, v: Node, new': Node, a: Tree<Node>)
    requires CanReplace(s, v) && new' !in s.m && Linked(s.m, a, v) && Distinct(a)
    requires (RootOf(a) == s.m[v].left && s.m[v].right !in Nodes(a)) || (RootOf(a) == s.m[v].right && s.m[v].left !in Nodes(a))
    requires v !in Nodes(a) && s.m[v].parent !in Nodes(a)
    ensures Linked(Replaced(s, v, new').m, a, new')
  {
    ReplacedRecords(s, v, new');
    hide Replaced, CanReplace;
    HangsFrame(s.m, Replaced(s, v, new').m, a, a, new');
  }

  lemma VictimReads(s: State, c: Ctx<Node>, t: Tree<Node>)
    requires t.Bin? && At(s, c, t) && Apart(c, t) && Nodes(t) + PathNodes(c) <= s.m.Keys
    ensures CanReplace(s, t.n) && s.m[t.n] == Record(RootOf(t.l), RootOf(t.r), ParentOf(c), t.c)
    ensures Linked(s.m, t.l, t.n) && Linked(s.m, t.r, t.n) && LinkedAbove(s, c, t.n)
    ensures Distinct(t.l) && Distinct(t.r) && PathDistinct(c)
    ensures t.n !in Nodes(t.l) && t.n !in Nodes(t.r) && t.n !in PathNodes(c)
    ensures RootOf(t.l) !in Nodes(t.r) && RootOf(t.r) !in Nodes(t.l)
    ensures ParentOf(c) !in Nodes(t.l) && ParentOf(c) !in Nodes(t.r) && RootOf(t.l) !in PathNodes(c) && RootOf(t.r) !in PathNodes(c)
  {
    assert t.n in Nodes(t) && (t.l.Bin? ==> t.l.n in Nodes(t.l)) && (t.r.Bin? ==> t.r.n in Nodes(t.r));
    assert Linked(s.m, t.l, t.n) && Linked(s.m, t.r, t.n);
    assert !c.Top? ==> c.n in PathNodes(c);
  }

  lemma ReplacedInPlace(s: State, c: Ctx<Node>, t: Tree<Node>, new': Node)
    requires t.Bin? && At(s, c, t) && Apart(c, t) && Nodes(t) + PathNodes(c) <= s.m.Keys && new' !in s.m
    ensures CanReplace(s, t.n)
    ensures At(Replaced(s, t.n, new'), c, t.(n := new'))
  {
    VictimReads(s, c, t);
    ReplacedRecords(s, t.n, new');
    hide Replaced, CanReplace, Apart, Distinct, PathDistinct, LinkedAbove;
    ReplacedPath(s, c, t.n, new');
    ReplacedSide(s, t.n, new', t.l);
    ReplacedSide(s, t.n, new', t.r);
  }

  lemma ReplacedPlan(s: State, c: Ctx<Node>, t: Tree<Node>, i: nat, new': Node)
    requires At(s, Top, Plug(c, t)) && t.Bin? && s.m.Keys == Nodes(Plug(c, t)) && new' !in s.m
    requires RedBlack(Plug(c, t)) && Ordered(Inorder(Plug(c, t)))
    requires i < |Inorder(Plug(c, t))| && Inorder(Plug(c, t))[i] == t.n
    ensures CanReplace(s, t.n)
    ensures var t', q := t.(n := new'), Inorder(Plug(c, t));
      && At(Replaced(s, t.n, new'), Top, Plug(c, t')) && RedBlack(Plug(c, t'))
      && Inorder(Plug(c, t')) == q[i := new'] && Nodes(Plug(c, t')) == s.m.Keys - {t.n} + {new'}
  {
    var t', q := t.(n := new'), Inorder(Plug(c, t));
    AtPlug(s, c, t);
    OrderedNoDup(q);
    UniqueApart(c, t);
    ReplacedInPlace(s, c, t, new');
    AtPlug(Replaced(s, t.n, new'), c, t');
    var h := PlugFits(c, t);
    FitsPlug(c, t', h);
    ReplacedOrder(c, t, i, new');
    assert t.n !in Nodes(t.l) && t.n !in Nodes(t.r) && t.n !in PathNodes(c);
    hide At, RedBlack, Plug, Inorder, Ordered, Distinct, PathDistinct;
    assert Nodes(t') + PathNodes(c) == s.m.Keys - {t.n} + {new'};
  }

  lemma ReplacedOrder(c: Ctx<Node>, t: Tree<Node>, i: nat, new': Node)
    requires t.Bin? && Sequences.Distinct(Inorder(Plug(c, t))) && i < |Inorder(Plug(c, t))| && Inorder(Plug(c, t))[i] == t.n
    ensures Inorder(Plug(c, t.(n := new'))) == Inorder(Plug(c, t))[i := new']
  {
    InorderPlug(c, t);
    InorderPlug(c, t.(n := new'));
    RegroupAround(Before(c), Inorder(t.l), t.n, Inorder(t.r), After(c));
    RegroupAround(Before(c), Inorder(t.l), new', Inorder(t.r), After(c));
    UpdateSplit(Before(c) + Inorder(t.l), t.n, new', Inorder(t.r) + After(c), i);
  }

  lemma UpdateSplit(p: seq<Node>, n: Node, n': Node, r: seq<Node>, i: nat)
    requires var q := p + [n] + r; Sequences.Distinct(q) && i < |q| && q[i] == n
    ensures (p + [n] + r)[i := n'] == p + [n'] + r
  {
    assert (p + [n] + r)[|p|] == n;
  }

  /** The sequences agree up to d, and there they differ or one of them ends. */
  predicate PartAt(p: seq<int>, q: seq<int>, d: nat) {
    d <= |p| && d <= |q| && p[..d] == q[..d] && (d == |p| || d == |q| || p[d] != q[d])
  }

  function PartedBy(p: seq<int>, q: seq<int>, d: nat): int
    requires d <= |p| && d <= |q|
  {
    if d < |p| && d < |q| then p[d] - q[d] else if d < |p| then 1 else if d < |q| then -1 else 0
  }

  lemma LexicographicParts(p: seq<int>, q: seq<int>)
    ensures forall d :: PartAt(p, q, d) ==> Lexicographic(p, q) == PartedBy(p, q, d)
  {
    hide Lexicographic, PartedBy;
    forall d | PartAt(p, q, d) ensures Lexicographic(p, q) == PartedBy(p, q, d) {
      LexicographicPart(p, q, d);
    }
  }

  lemma {:induction false} LexicographicPart(p: seq<int>, q: seq<int>, d: nat)
    requires PartAt(p, q, d)
    ensures Lexicographic(p, q) == PartedBy(p, q, d)
  {
    if d > 0 {
      assert p[0] == p[..d][0] && q[0] == q[..d][0];
      assert p[1..][..d - 1] == p[..d][1..] && q[1..][..d - 1] == q[..d][1..];
      LexicographicPart(p[1..], q[1..], d - 1);
    }
  }

  lemma LexicographicStep(p: seq<int>, q: seq<int>, i: nat)
    requires i < |p| && i < |q|
    ensures Lexicographic(p[i..], q[i..]) == if p[i] != q[i] then p[i] - q[i] else Lexicographic(p[i + 1..], q[i + 1..])
  {
  }

  lemma LexicographicEnd(p: seq<int>, q: seq<int>)
    requires p == [] || q == []
    ensures Lexicographic(p, q) == if p != [] then 1 else if q != [] then -1 else 0
  {
  }

  ghost predicate Increasing(p: seq<int>) {
    forall i, j :: 0 <= i < j < |p| ==> p[i] < p[j]
  }

  lemma {:induction false} LexicographicZero(p: seq<int>, q: seq<int>)
    ensures Lexicographic(p, q) == 0 <==> p == q
  {
    if p != [] && q != [] && p[0] == q[0] {
      LexicographicZero(p[1..], q[1..]);
      assert p == [p[0]] + p[1..] && q == [q[0]] + q[1..];
    }
  }

  /** An increasing sequence is determined by its set of elements. */
  lemma {:induction false} IncreasingSet(p: seq<int>, q: seq<int>)
    requires Increasing(p) && Increasing(q) && forall k :: k in p <==> k in q
    ensures p == q
  {
    HasMember(p);
    HasMember(q);
    if p != [] && q != [] {
      assert p[0] in q && q[0] in p;
      assert p[0] == q[0];
      IncreasingTail(p);
      IncreasingTail(q);
      IncreasingSet(p[1..], q[1..]);
    }
  }

  lemma HasMember(p: seq<int>)
    ensures p != [] ==> exists k :: k in p
  {
    if p != [] {
      var k := p[0];
      assert k in p;
    }
  }

  lemma IncreasingTail(p: seq<int>)
    requires Increasing(p) && p != []
    ensures p == [p[0]] + p[1..] && Increasing(p[1..])
    ensures forall k :: k in p[1..] <==> k in p && k != p[0]
  {
    forall k | k in p && k != p[0] ensures k in p[1..] {
      var i :| 0 <= i < |p| && p[i] == k;
      assert p[1..][i - 1] == k;
    }
  }

  /** rb_cmp gives 0 exactly for equal key sets, whatever the shapes and colours of the trees. */
  lemma CompareZero(p: seq<Node>, q: seq<Node>)
    requires Ordered(p) && Ordered(q)
    ensures Lexicographic(Keys(p), Keys(q)) == 0 <==> forall k :: k in Keys(p) <==> k in Keys(q)
  {
    LexicographicZero(Keys(p), Keys(q));
    if forall k :: k in Keys(p) <==> k in Keys(q) {
      IncreasingSet(Keys(p), Keys(q));
    }
  }

  lemma NextInTree(a: Root, i: nat)
    requires a.Valid() && i < |a.Contents()|
    ensures a.Contents()[i] in a.mem
    ensures NextOf(a.Contents(), a.Contents()[i]) == if i + 1 < |a.Contents()| then a.Contents()[i + 1] else null
  {
    NodesOfInorder(a.tree);
    OrderedNoDup(a.Contents());
    NextOfIndex(a.Contents(), i);
  }

  function Keys(q: seq<Node>): seq<int> {
    seq(|q|, i requires 0 <= i < |q| => q[i].key)
  }

  /** Dictionary order on key sequences, with the difference of the first unequal keys as result. */
  function Lexicographic(p: seq<int>, q: seq<int>): int {
    if p == [] then (if q == [] then 0 else -1)
    else if q == [] then 1
    else if p[0] != q[0] then p[0] - q[0]
    else Lexicographic(p[1..], q[1..])
  }

  /** A step up the path, and which child the hole is. */
  lemma ClimbOne(s: State, c: Ctx<Node>, t: Tree<Node>)
    requires !c.Top? && At(s, c, t) && Apart(c, t) && t.Bin?
    ensures c.n in s.m && s.m[c.n].parent == ParentOf(c.up) && PathNodes(c.up) <= PathNodes(c)
    ensures s.m[c.n].right == t.n <==> c.InRight?
    ensures s.m[c.n].left == t.n <==> c.InLeft?
    ensures c.InRight? ==> At(s, c.up, Bin(c.l, c.n, c.c, t)) && Apart(c.up, Bin(c.l, c.n, c.c, t)) && After(c.up) == After(c)
    ensures c.InLeft? ==> At(s, c.up, Bin(t, c.n, c.c, c.r)) && Apart(c.up, Bin(t, c.n, c.c, c.r)) && Before(c.up) == Before(c)
    ensures c.InLeft? ==> After(c) != [] && After(c)[0] == c.n
    ensures c.InRight? ==> Before(c) != [] && Before(c)[|Before(c)| - 1] == c.n
  {
    var q := if c.InRight? then c.l else c.r;
    assert t.n in Nodes(t) && (q.Bin? ==> q.n in Nodes(q) && q.n in PathNodes(c));
  }

  /** The node after n in q, or null. */
  function NextOf(q: seq<Node>, n: Node): Node? {
    if |q| <= 1 then null else if q[0] == n then q[1] else NextOf(q[1..], n)
  }

  /** The node before n in q, or null. */
  function PrevOf(q: seq<Node>, n: Node): Node? {
    if |q| <= 1 then null else if q[1] == n then q[0] else PrevOf(q[1..], n)
  }

  lemma {:induction false} NextOfSplit(p: seq<Node>, n: Node, r: seq<Node>)
    requires n !in p
    ensures NextOf(p + [n] + r, n) == if r == [] then null else r[0]
  {
    if p != [] {
      assert (p + [n] + r)[1..] == p[1..] + [n] + r;
      NextOfSplit(p[1..], n, r);
    }
  }

  lemma {:induction false} PrevOfSplit(p: seq<Node>, n: Node, r: seq<Node>)
    requires n !in p && n !in r
    ensures PrevOf(p + [n] + r, n) == if p == [] then null else p[|p| - 1]
  {
    var q := p + [n] + r;
    if |p| > 1 {
      assert q[1..] == p[1..] + [n] + r && q[1] == p[1] && p[1] in p;
      PrevOfSplit(p[1..], n, r);
    } else if p == [] {
      NoPrev(q, n);
    }
  }

  lemma {:induction false} NoPrev(q: seq<Node>, n: Node)
    requires forall i :: 0 < i < |q| ==> q[i] != n
    ensures PrevOf(q, n) == null
  {
    if |q| > 1 { NoPrev(q[1..], n); }
  }

  /** What stands next to a node in the order. */
  lemma Neighbours(c: Ctx<Node>, t: Tree<Node>)
    requires t.Bin? && Ordered(Inorder(Plug(c, t)))
    ensures Apart(c, t)
    ensures NextOf(Inorder(Plug(c, t)), t.n) ==
      if t.r.Bin? then Inorder(t.r)[0] else if After(c) != [] then After(c)[0] else null
    ensures PrevOf(Inorder(Plug(c, t)), t.n) ==
      if t.l.Bin? then Inorder(t.l)[|Inorder(t.l)| - 1] else if Before(c) != [] then Before(c)[|Before(c)| - 1] else null
  {
    var p, r := Before(c) + Inorder(t.l), Inorder(t.r) + After(c);
    InorderPlug(c, t);
    RegroupAround(Before(c), Inorder(t.l), t.n, Inorder(t.r), After(c));
    OrderedNoDup(Inorder(Plug(c, t)));
    UniqueApart(c, t);
    OrderedMiddle(p, t.n, r);
    NextOfSplit(p, t.n, r);
    PrevOfSplit(p, t.n, r);
    assert t.r.Bin? <==> Inorder(t.r) != [];
    assert t.l.Bin? <==> Inorder(t.l) != [];
  }

  lemma {:induction false} NextOfIndex(q: seq<Node>, i: nat)
    requires i < |q| && Sequences.Distinct(q)
    ensures NextOf(q, q[i]) == if i + 1 < |q| then q[i + 1] else null
  {
    assert q == q[..i] + [q[i]] + q[i + 1..];
    NextOfSplit(q[..i], q[i], q[i + 1..]);
  }

  /** What stands after and before a node is told by its place. */
  lemma NextOfPlace(q: seq<Node>, n: Node)
    requires Ordered(q)
    ensures forall i :: 0 <= i < |q| && q[i] == n ==> NextOf(q, n) == if i + 1 < |q| then q[i + 1] else null
  {
    hide NextOf, Ordered;
    OrderedNoDup(q);
    forall i | 0 <= i < |q| && q[i] == n ensures NextOf(q, n) == if i + 1 < |q| then q[i + 1] else null {
      NextOfIndex(q, i);
    }
  }

  lemma PrevOfPlace(q: seq<Node>, n: Node)
    requires Ordered(q)
    ensures forall i :: 0 <= i < |q| && q[i] == n ==> PrevOf(q, n) == if i > 0 then q[i - 1] else null
  {
    hide PrevOf, Ordered;
    OrderedNoDup(q);
    forall i | 0 <= i < |q| && q[i] == n ensures PrevOf(q, n) == if i > 0 then q[i - 1] else null {
      assert q == q[..i] + [n] + q[i + 1..];
      PrevOfSplit(q[..i], n, q[i + 1..]);
    }
  }

  lemma Locate(t: Tree<Node>, n: Node) returns (c: Ctx<Node>, s: Tree<Node>)
    requires n in Nodes(t)
    ensures Plug(c, s) == t && s.Bin? && s.n == n
  {
    c, s := LocateBelow(Top, t, n);
  }

  lemma {:induction false} LocateBelow(c0: Ctx<Node>, t: Tree<Node>, n: Node) returns (c: Ctx<Node>, s: Tree<Node>)
    requires n in Nodes(t)
    ensures Plug(c, s) == Plug(c0, t) && s.Bin? && s.n == n
    decreases t
  {
    if t.n == n {
      c, s := c0, t;
    } else if n in Nodes(t.l) {
      c, s := LocateBelow(InLeft(t.n, t.c, t.r, c0), t.l, n);
    } else {
      c, s := LocateBelow(InRight(t.l, t.n, t.c, c0), t.r, n);
    }
  }

  lemma EraseResult(c: Ctx<Node>, t: Tree<Node>)
    requires t.Bin? && RedBlack(Plug(c, t)) && Ordered(Inorder(Plug(c, t)))
    ensures RedBlack(EraseAt(t, c)) && Ordered(Inorder(EraseAt(t, c)))
    ensures Inorder(Plug(c, t)) == (Before(c) + Inorder(t.l)) + [t.n] + (Inorder(t.r) + After(c))
    ensures Inorder(EraseAt(t, c)) == (Before(c) + Inorder(t.l)) + (Inorder(t.r) + After(c))
    ensures Nodes(EraseAt(t, c)) == Nodes(Plug(c, t)) - {t.n}
  {
    var p, q := Before(c) + Inorder(t.l), Inorder(t.r) + After(c);
    EraseAtBalances(t, c);
    EraseOrders(c, t);
    OrderedMiddle(p, t.n, q);
    hide EraseAt, RedBlack, Ordered, Nodes;
    NodesOfInorder(Plug(c, t));
    NodesOfInorder(EraseAt(t, c));
    SetWithout(p, t.n, q);
  }

  lemma EraseOrders(c: Ctx<Node>, t: Tree<Node>)
    requires t.Bin?
    ensures Inorder(Plug(c, t)) == (Before(c) + Inorder(t.l)) + [t.n] + (Inorder(t.r) + After(c))
    ensures Inorder(EraseAt(t, c)) == (Before(c) + Inorder(t.l)) + (Inorder(t.r) + After(c))
  {
    EraseAtOrder(t, c);
    InorderPlug(c, t);
    RegroupAround(Before(c), Inorder(t.l), t.n, Inorder(t.r), After(c));
  }

  lemma SetWithout(p: seq<Node>, n: Node, q: seq<Node>)
    requires n !in p && n !in q
    ensures (set m | m in p + q) == (set m | m in p + [n] + q) - {n}
  {
  }

  lemma OrderedMiddle(p: seq<Node>, n: Node, q: seq<Node>)
    requires Ordered(p + [n] + q)
    ensures Ordered(p + q) && n !in p && n !in q
  {
    var v, w := p + q, p + [n] + q;
    OrderedAround(p, n, q);
    assert forall i :: 0 <= i < |p| ==> v[i] == w[i];
    assert forall i :: |p| <= i < |v| ==> v[i] == w[i + 1];
  }

  /** A node outside the tree can be dropped from memory. */
  lemma Forget(s: State, t: Tree<Node>, n: Node)
    requires At(s, Top, t) && n !in Nodes(t)
    ensures At(s.(m := s.m - {n}), Top, t)
  {
    LinkedFrame(s.m, s.m - {n}, t, null);
  }

  /** Where a pointer to a child, or to the root, is stored. */
  datatype Slot = RootSlot | LeftOf(n: Node) | RightOf(n: Node)

  function SlotOf(c: Ctx<Node>): Slot {
    match c
    case Top => RootSlot
    case InLeft(n, _, _, _) => LeftOf(n)
    case InRight(_, n, _, _) => RightOf(n)
  }

  function Stored(s: State, slot: Slot, x: Node): State {
    match slot
    case RootSlot => s.(root := x)
    case LeftOf(n) => WithLeft(s, n, x)
    case RightOf(n) => WithRight(s, n, x)
  }

  function LinkedNew(s: State, c: Ctx<Node>, x: Node): State {
    Stored(s.(m := s.m[x := Record(null, null, ParentOf(c), Red)]), SlotOf(c), x)
  }

  lemma NewLeafOrder(c: Ctx<Node>, x: Node)
    requires Ordered(Inorder(Plug(c, Leaf))) && Below(Before(c), x.key) && Above(After(c), x.key)
    ensures var t0 := Bin(Leaf, x, Red, Leaf);
      && Unique(Plug(c, t0)) && Unique(Plug(c, Leaf))
      && Inorder(InsertFix(t0, c)) == Before(c) + [x] + After(c) && Ordered(Inorder(InsertFix(t0, c)))
      && Nodes(InsertFix(t0, c)) == PathNodes(c) + {x}
  {
    var t0, q := Bin(Leaf, x, Red, Leaf), Before(c) + [x] + After(c);
    InorderPlug(c, Leaf);
    assert Before(c) + Inorder<Node>(Leaf) + After(c) == Before(c) + After(c);
    OrderedInsert(Before(c), x, After(c));
    InorderPlug(c, t0);
    assert Inorder(t0) == [x];
    OrderedNoDup(q);
    OrderedNoDup(Inorder(Plug(c, Leaf)));
    InsertFixKeepsOrder(t0, c);
    NodesOfInorder(InsertFix(t0, c));
    NodesOfPath(c);
  }

  lemma NewLeafBalance(c: Ctx<Node>, x: Node)
    requires RedBlack(Plug(c, Leaf))
    ensures Fits(c, 0, Black) && RedBlack(InsertFix(Bin(Leaf, x, Red, Leaf), c))
  {
    var h := PlugFits(c, Leaf);
    FitsBlack(c, h, Black);
    assert Balanced(Bin(Leaf, x, Red, Leaf), 0);
    InsertFixBalances(Bin(Leaf, x, Red, Leaf), c, 0);
  }

  /** A red leaf in the empty slot is where the rebalancing loop starts. */
  lemma NewLeaf(s: State, c: Ctx<Node>, x: Node)
    requires At(s, c, Leaf) && s.m.Keys == PathNodes(c) && x !in s.m
    requires RedBlack(Plug(c, Leaf)) && Ordered(Inorder(Plug(c, Leaf)))
    requires Below(Before(c), x.key) && Above(After(c), x.key)
    ensures Climbing(LinkedNew(s, c, x), c, Bin(Leaf, x, Red, Leaf), 0)
  {
    var t0, s' := Bin(Leaf, x, Red, Leaf), LinkedNew(s, c, x);
    NewLeafOrder(c, x);
    NewLeafBalance(c, x);
    UniqueApart(c, Leaf);
    HoleFilled(s, c, x);
    assert !c.Top? ==> c.n in PathNodes(c) && c.n != x;
    assert x in s'.m && s'.m[x] == Record(null, null, ParentOf(c), Red);
    assert s'.m.Keys == s.m.Keys + {x};
    assert Nodes(t0) == {x};
    assert Balanced(t0, 0);
    LinkedBin(s'.m, Leaf, x, Red, Leaf, ParentOf(c));
    hide InsertFix, LinkedAbove, Linked, Unique, Ordered, RedBlack, Fits;
  }

  lemma HoleFilled(s: State, c: Ctx<Node>, x: Node)
    requires LinkedAbove(s, c, null) && PathDistinct(c) && x !in s.m && PathNodes(c) <= s.m.Keys
    ensures LinkedAbove(LinkedNew(s, c, x), c, x)
  {
    var s1, s' := s.(m := s.m[x := Record(null, null, ParentOf(c), Red)]), LinkedNew(s, c, x);
    assert LinkedAbove(s1, c, null) by { LinkedAboveFrame(s, s1, c, null); }
    match c
    case Top =>
    case InLeft(n, _, r, up) =>
      LinkedFrame(s1.m, s'.m, r, n);
      LinkedAboveFrame(s1, s', up, n);
    case InRight(l, n, _, up) =>
      LinkedFrame(s1.m, s'.m, l, n);
      LinkedAboveFrame(s1, s', up, n);
  }

  lemma OrderedInsert(p: seq<Node>, x: Node, q: seq<Node>)
    requires Ordered(p + q) && Below(p, x.key) && Above(q, x.key)
    ensures Ordered(p + [x] + q)
  {
    var v, w := p + q, p + [x] + q;
    assert forall i :: 0 <= i < |p| ==> w[i] == v[i] && w[i] in p;
    assert forall i :: |p| < i < |w| ==> w[i] == v[i - 1] && w[i] in q;
  }

  ghost predicate Ordered(q: seq<Node>) {
    forall i, j :: 0 <= i < j < |q| ==> q[i].key < q[j].key
  }

  ghost predicate Below(q: seq<Node>, key: int) {
    forall n :: n in q ==> n.key < key
  }

  ghost predicate Above(q: seq<Node>, key: int) {
    forall n :: n in q ==> key < n.key
  }

  lemma OrderedAround(p: seq<Node>, n: Node, q: seq<Node>)
    requires Ordered(p + [n] + q)
    ensures Below(p, n.key) && Above(q, n.key)
  {
    var w := p + [n] + q;
    forall m | m in p ensures m.key < n.key {
      var i :| 0 <= i < |p| && p[i] == m;
      assert w[i] == m && w[|p|] == n;
    }
    forall m | m in q ensures n.key < m.key {
      var i :| 0 <= i < |q| && q[i] == m;
      assert w[|p|] == n && w[|p| + 1 + i] == m;
    }
  }

  /** One comparison rules out everything on the other side. */
  lemma BeginSearch(key: int)
    ensures Below(Before(Top), key) && Above(After(Top), key)
  {
  }

  /** The search has ended at an empty slot: no node has the key. */
  lemma EndSearch(c: Ctx<Node>, t: Tree<Node>, key: int)
    requires t == Leaf && Below(Before(c), key) && Above(After(c), key)
    ensures Inorder(Plug(c, t)) == Before(c) + After(c)
    ensures forall n :: n in Inorder(Plug(c, t)) ==> n.key != key
  {
    InorderPlug(c, t);
    assert Before(c) + Inorder(t) + After(c) == Before(c) + After(c);
  }

  lemma SearchStep(c: Ctx<Node>, t: Tree<Node>, key: int)
    requires t.Bin? && Ordered(Inorder(Plug(c, t))) && Below(Before(c), key) && Above(After(c), key)
    ensures t.n in Inorder(Plug(c, t))
    ensures key < t.n.key ==> Above(After(InLeft(t.n, t.c, t.r, c)), key)
    ensures key > t.n.key ==> Below(Before(InRight(t.l, t.n, t.c, c)), key)
    ensures Before(InLeft(t.n, t.c, t.r, c)) == Before(c) && After(InRight(t.l, t.n, t.c, c)) == After(c)
  {
    var p, q := Before(c) + Inorder(t.l), Inorder(t.r) + After(c);
    SearchSplit(c, t);
    OrderedAround(p, t.n, q);
    assert (p + [t.n] + q)[|p|] == t.n;
    if key < t.n.key { AboveCons(t.n, Inorder(t.r), After(c), key); }
    if key > t.n.key { BelowSnoc(Before(c), Inorder(t.l), t.n, key); }
  }

  lemma AboveCons(n: Node, r: seq<Node>, a: seq<Node>, key: int)
    requires Above(r + a, n.key) && key < n.key
    ensures Above([n] + r + a, key)
  {
    forall m | m in [n] + r + a ensures key < m.key {
      assert m == n || m in r + a;
    }
  }

  lemma BelowSnoc(b: seq<Node>, l: seq<Node>, n: Node, key: int)
    requires Below(b + l, n.key) && n.key < key
    ensures Below(b + l + [n], key)
  {
  }

  lemma SearchSplit(c: Ctx<Node>, t: Tree<Node>)
    requires t.Bin?
    ensures Inorder(Plug(c, t)) == (Before(c) + Inorder(t.l)) + [t.n] + (Inorder(t.r) + After(c))
  {
    InorderPlug(c, t);
    RegroupAround(Before(c), Inorder(t.l), t.n, Inorder(t.r), After(c));
  }

  lemma OrderedNoDup(q: seq<Node>)
    requires Ordered(q)
    ensures Sequences.Distinct(q)
  {
  }

  function Height<N>(t: Tree<N>): nat {
    if t.Leaf? then 0 else 1 + (if Height(t.l) > Height(t.r) then Height(t.l) else Height(t.r))
  }

  function Pow2(n: nat): nat {
    if n == 0 then 1 else 2 * Pow2(n - 1)
  }

  lemma {:induction false} Pow2Monotone(a: nat, b: nat)
    requires a <= b
    ensures 1 <= Pow2(a) <= Pow2(b)
    decreases b
  {
    if a < b { Pow2Monotone(a, b - 1); }
    else if a > 0 { Pow2Monotone(a - 1, a - 1); }
  }

  lemma {:induction false} Pow2Double(h: nat)
    ensures Pow2(2 * h) == Pow2(h) * Pow2(h)
  {
    if h > 0 {
      Pow2Double(h - 1);
      assert Pow2(2 * h) == 2 * (2 * Pow2(2 * h - 2));
    }
  }

  /** Rules 4 and 5: the longest path is at most twice the black height, and a tree of black
      height h has at least 2^h - 1 nodes. */
  lemma {:induction false} BalancedBounds<N>(t: Tree<N>, h: nat)
    requires Balanced(t, h)
    ensures Height(t) <= 2 * h + if IsRed(t) then 1 else 0
    ensures Pow2(h) <= |Inorder(t)| + 1
  {
    if t.Bin? {
      var k := if t.c == Black then h - 1 else h;
      BalancedBounds(t.l, k);
      BalancedBounds(t.r, k);
    }
  }

  lemma SquareMonotone(a: nat, b: nat)
    requires a <= b
    ensures a * a <= b * b
  {
    assert a * a <= a * b <= b * b;
  }

  lemma SearchCost(t: Tree<Node>, steps: nat)
    requires RedBlack(t) && steps <= Height(t)
    ensures Pow2(steps) <= (|Inorder(t)| + 1) * (|Inorder(t)| + 1)
  {
    var h: nat :| Balanced(t, h);
    BalancedBounds(t, h);
    Pow2Monotone(steps, 2 * h);
    Pow2Double(h);
    SquareMonotone(Pow2(h), |Inorder(t)| + 1);
  }

  lemma EraseReady(s: State, c: Ctx<Node>, t: Tree<Node>)
    requires At(s, c, t) && t.Bin? && Unique(Plug(c, t)) && RedBlack(Plug(c, t)) && Nodes(t) + PathNodes(c) <= s.m.Keys
    ensures Apart(c, t)
    ensures t.n in s.m && s.m[t.n] == Record(RootOf(t.l), RootOf(t.r), ParentOf(c), t.c)
    ensures (t.l.Bin? ==> t.l.n in s.m && t.l.n != t.n) && (t.r.Bin? ==> t.r.n in s.m && t.r.n != t.n)
    ensures ParentOf(c) != null ==> ParentOf(c) in s.m && ParentOf(c) != t.n
    ensures var c', x := SplicedPath(t, c), SplicedChild(t);
      && Unique(Plug(c', x)) && Nodes(x) + PathNodes(c') <= s.m.Keys
      && (x.Leaf? && RemovedColor(t) == Black ==> Fits(c', 1, Black))
  {
    UniqueApart(c, t);
    EraseAtBalances(t, c);
    SplicedUnique(t, c);
    assert t.n in Nodes(t) && (t.l.Bin? ==> t.l.n in Nodes(t.l)) && (t.r.Bin? ==> t.r.n in Nodes(t.r));
    assert !c.Top? ==> c.n in PathNodes(c);
  }
}