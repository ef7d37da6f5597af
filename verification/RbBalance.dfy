/** Red-black trees as values: the shape of the tree, the path down to a hole in it, and the
    two rebalancing climbs as functions on a subtree and the path above it. The class in
    RbTree.dfy changes a heap of nodes in place and is proved against these functions. */
module RbBalance {

  datatype Color = Red | Black

  datatype Tree<N> = Leaf | Bin(l: Tree<N>, n: N, c: Color, r: Tree<N>)

  /** The path from a hole up to the root: which child the hole is, the parent, its other child. */
  datatype Ctx<N> =
    | Top
    | InLeft(n: N, c: Color, r: Tree<N>, up: Ctx<N>)
    | InRight(l: Tree<N>, n: N, c: Color, up: Ctx<N>)

  function Plug<N>(c: Ctx<N>, t: Tree<N>): Tree<N> {
    match c
    case Top => t
    case InLeft(n, col, r, up) => Plug(up, Bin(t, n, col, r))
    case InRight(l, n, col, up) => Plug(up, Bin(l, n, col, t))
  }

  predicate IsRed<N>(t: Tree<N>) { t.Bin? && t.c == Red }

  predicate IsBlack<N>(t: Tree<N>) { !IsRed(t) }

  function ColorOf<N>(t: Tree<N>): Color { if IsRed(t) then Red else Black }

  function Blacken<N>(t: Tree<N>): Tree<N> { if t.Bin? then t.(c := Black) else t }

  function Inorder<N>(t: Tree<N>): seq<N> {
    if t.Leaf? then [] else Inorder(t.l) + [t.n] + Inorder(t.r)
  }

  function Before<N>(c: Ctx<N>): seq<N> {
    match c
    case Top => []
    case InLeft(_, _, _, up) => Before(up)
    case InRight(l, n, _, up) => Before(up) + Inorder(l) + [n]
  }

  function After<N>(c: Ctx<N>): seq<N> {
    match c
    case Top => []
    case InLeft(n, _, r, up) => [n] + Inorder(r) + After(up)
    case InRight(_, _, _, up) => After(up)
  }

  /** Concatenation associates: what stands before and after n, grouped on its two sides. */
  lemma RegroupAround<N>(b: seq<N>, l: seq<N>, n: N, r: seq<N>, a: seq<N>)
    ensures b + (l + [n] + r) + a == (b + l) + [n] + (r + a)
    ensures b + l + r + a == (b + l) + (r + a)
  {
  }

  lemma {:induction false} InorderPlug<N>(c: Ctx<N>, t: Tree<N>)
    ensures Inorder(Plug(c, t)) == Before(c) + Inorder(t) + After(c)
  {
    match c
    case Top =>
    case InLeft(n, col, r, up) =>
      InorderPlug(up, Bin(t, n, col, r));
    case InRight(l, n, col, up) =>
      InorderPlug(up, Bin(l, n, col, t));
  }

  lemma {:induction false} PlugKeepsOrder<N>(c: Ctx<N>, t: Tree<N>, t': Tree<N>)
    requires Inorder(t) == Inorder(t')
    ensures Inorder(Plug(c, t)) == Inorder(Plug(c, t'))
  {
    InorderPlug(c, t);
    InorderPlug(c, t');
  }

  lemma BlackenKeepsOrder<N>(t: Tree<N>)
    ensures Inorder(Blacken(t)) == Inorder(t)
  {
  }

  /** Both sides of a rotation list the same nodes; colours do not matter. */
  lemma RotationKeepsOrder<N>(a: Tree<N>, x: N, b: Tree<N>, y: N, d: Tree<N>, c: Color)
    ensures Inorder(Bin(a, x, c, Bin(b, y, c, d))) == Inorder(Bin(Bin(a, x, c, b), y, c, d))
  {
  }

  lemma DoubleRotationKeepsOrder<N>(a: Tree<N>, x: N, m: Tree<N>, z: N, e: Tree<N>, c: Color)
    requires m.Bin?
    ensures Inorder(Bin(Bin(a, x, c, m), z, c, e)) == Inorder(Bin(Bin(a, x, c, m.l), m.n, c, Bin(m.r, z, c, e)))
    ensures Inorder(Bin(a, x, c, Bin(m, z, c, e))) == Inorder(Bin(Bin(a, x, c, m.l), m.n, c, Bin(m.r, z, c, e)))
  {
    assert Inorder(m) == Inorder(Bin(m.l, m.n, c, m.r));
    RotationKeepsOrder(a, x, m.l, m.n, m.r, c);
    RotationKeepsOrder(Bin(a, x, c, m.l), m.n, m.r, z, e, c);
    RotationKeepsOrder(a, x, m, z, e, c);
  }

  // ----- the red-black rules

  /** Rules 4 and 5 with black height h: no red node has a red child, and every path down to a
      leaf crosses h black nodes. */
  predicate Balanced<N>(t: Tree<N>, h: nat) {
    match t
    case Leaf => h == 0
    case Bin(l, _, Red, r) => IsBlack(l) && IsBlack(r) && Balanced(l, h) && Balanced(r, h)
    case Bin(l, _, Black, r) => h > 0 && Balanced(l, h - 1) && Balanced(r, h - 1)
  }

  // ----- the rules told by the ways down

  /** A way from the root of a tree down to one of its leaves: true turns right. */
  predicate IsWay<N>(t: Tree<N>, turns: seq<bool>)
    decreases t
  {
    if t.Leaf? then turns == [] else turns != [] && IsWay(if turns[0] then t.r else t.l, turns[1..])
  }

  /** The colours met along it. */
  function Met<N>(t: Tree<N>, turns: seq<bool>): seq<Color>
    requires IsWay(t, turns)
    decreases t
  {
    if t.Leaf? then [] else [t.c] + Met(if turns[0] then t.r else t.l, turns[1..])
  }

  predicate NoRedPair(q: seq<Color>) {
    forall i :: 0 <= i < |q| - 1 ==> q[i] == Black || q[i + 1] == Black
  }

  function Blacks(q: seq<Color>): nat {
    if q == [] then 0 else (if q[0] == Black then 1 else 0) + Blacks(q[1..])
  }

  /** Along every way no red follows red and h black nodes are met. */
  ghost predicate GoodWays<N>(t: Tree<N>, h: nat) {
    forall turns :: IsWay(t, turns) ==> NoRedPair(Met(t, turns)) && Blacks(Met(t, turns)) == h
  }

  function FirstWay<N>(t: Tree<N>): (turns: seq<bool>)
    ensures IsWay(t, turns)
  {
    if t.Leaf? then [] else [false] + FirstWay(t.l)
  }

  lemma NoRedPairCons(x: Color, q: seq<Color>)
    ensures NoRedPair([x] + q) <==> NoRedPair(q) && (q == [] || x == Black || q[0] == Black)
  {
    var r := [x] + q;
    if NoRedPair(r) {
      forall i | 0 <= i < |q| - 1 ensures q[i] == Black || q[i + 1] == Black {
        assert r[i + 1] == Black || r[i + 2] == Black;
      }
      assert q != [] ==> r[0] == Black || r[1] == Black;
    }
  }

  lemma {:induction false} WaysOfBalanced<N>(t: Tree<N>, h: nat, turns: seq<bool>)
    requires Balanced(t, h) && IsWay(t, turns)
    ensures NoRedPair(Met(t, turns)) && Blacks(Met(t, turns)) == h
    decreases t
  {
    hide NoRedPair;
    if t.Leaf? {
      assert NoRedPair([]) by { EmptyNoPair(); }
    } else {
      var child := if turns[0] then t.r else t.l;
      WaysOfBalanced(child, if t.c == Red then h else h - 1, turns[1..]);
      NoRedPairCons(t.c, Met(child, turns[1..]));
    }
  }

  lemma EmptyNoPair()
    ensures NoRedPair([])
  {
  }

  lemma ChildWays<N>(t: Tree<N>, right: bool, h: nat)
    requires t.Bin? && GoodWays(t, h)
    ensures t.c == Black ==> h > 0
    ensures var child := if right then t.r else t.l;
            (t.c == Red ==> IsBlack(child)) && GoodWays(child, if t.c == Red then h else h - 1)
  {
    hide NoRedPair;
    var child := if right then t.r else t.l;
    forall turns | IsWay(child, turns)
      ensures NoRedPair(Met(child, turns)) && Blacks(Met(child, turns)) + (if t.c == Black then 1 else 0) == h
      ensures t.c == Red ==> IsBlack(child)
    {
      var more := [right] + turns;
      assert more[1..] == turns && IsWay(t, more);
      assert Met(t, more) == [t.c] + Met(child, turns);
      NoRedPairCons(t.c, Met(child, turns));
    }
    assert IsWay(child, FirstWay(child));
  }

  lemma {:induction false} BalancedByWays<N>(t: Tree<N>, h: nat)
    requires GoodWays(t, h)
    ensures Balanced(t, h)
  {
    if t.Leaf? {
      assert IsWay(t, []);
    } else {
      ChildWays(t, false, h);
      ChildWays(t, true, h);
      BalancedByWays(t.l, if t.c == Red then h else h - 1);
      BalancedByWays(t.r, if t.c == Red then h else h - 1);
    }
  }

  /** The rules hold if and only if the root is black and, on the ways down, no red follows red and the same number of black nodes is met. */
  lemma RedBlackExactly<N>(t: Tree<N>)
    ensures RedBlack(t) <==> (t.Bin? ==> t.c == Black) && exists h :: GoodWays(t, h)
  {
    hide GoodWays, IsWay;
    if RedBlack(t) {
      var h :| Balanced(t, h);
      BalancedHasWays(t, h);
    }
    if h :| GoodWays(t, h) {
      BalancedByWays(t, h);
    }
  }

  lemma BalancedHasWays<N>(t: Tree<N>, h: nat)
    requires Balanced(t, h)
    ensures GoodWays(t, h)
  {
    forall turns | IsWay(t, turns) ensures NoRedPair(Met(t, turns)) && Blacks(Met(t, turns)) == h {
      WaysOfBalanced(t, h, turns);
    }
  }

  /** The path obeys the rules when a subtree of black height h and root colour hc fills the hole. */
  predicate Fits<N>(c: Ctx<N>, h: nat, hc: Color) {
    match c
    case Top => hc == Black
    case InLeft(_, col, r, up) =>
      && (col == Red ==> hc == Black && IsBlack(r))
      && Balanced(r, h)
      && Fits(up, if col == Black then h + 1 else h, col)
    case InRight(l, _, col, up) =>
      && (col == Red ==> hc == Black && IsBlack(l))
      && Balanced(l, h)
      && Fits(up, if col == Black then h + 1 else h, col)
  }

  /** All five rules: colours are a datatype and leaves are black, so 2, 4 and 5 remain. */
  ghost predicate RedBlack<N>(t: Tree<N>) {
    IsBlack(t) && exists h: nat :: Balanced(t, h)
  }

  lemma {:induction false} FitsPlug<N>(c: Ctx<N>, t: Tree<N>, h: nat)
    requires Fits(c, h, ColorOf(t)) && Balanced(t, h)
    ensures RedBlack(Plug(c, t))
  {
    match c
    case Top => assert Balanced(Plug(c, t), h);
    case InLeft(n, col, r, up) => FitsPlug(up, Bin(t, n, col, r), if col == Black then h + 1 else h);
    case InRight(l, n, col, up) => FitsPlug(up, Bin(l, n, col, t), if col == Black then h + 1 else h);
  }

  /** The converse: a position inside a red-black tree splits it into a fitting path and subtree. */
  lemma {:induction false} PlugFits<N>(c: Ctx<N>, t: Tree<N>) returns (h: nat)
    requires RedBlack(Plug(c, t))
    ensures Fits(c, h, ColorOf(t)) && Balanced(t, h)
  {
    match c
    case Top =>
      h :| Balanced(t, h);
    case InLeft(n, col, r, up) =>
      var h' := PlugFits(up, Bin(t, n, col, r));
      h := if col == Black then h' - 1 else h';
    case InRight(l, n, col, up) =>
      var h' := PlugFits(up, Bin(l, n, col, t));
      h := if col == Black then h' - 1 else h';
  }

  lemma {:induction false} FitsBlack<N>(c: Ctx<N>, h: nat, hc: Color)
    requires Fits(c, h, hc)
    ensures Fits(c, h, Black)
  {
  }

  lemma BlackenBalances<N>(t: Tree<N>, h: nat)
    requires Balanced(t, h)
    ensures if IsRed(t) then Balanced(Blacken(t), h + 1) else Blacken(t) == t
  {
  }

  // ----- the climb after an insertion

  /** `t` is the subtree of the red node that may have a red parent; `c` is the path above it. */
  function InsertFix<N>(t: Tree<N>, c: Ctx<N>): Tree<N>
    requires t.Bin?
    decreases c
  {
    if c.Top? then Blacken(t)
    else if c.c == Black then Plug(c, t)
    else match c
      case InLeft(p, _, s, InLeft(g, gc, u, up)) =>
        if IsRed(u) then InsertFix(Bin(Bin(t, p, Black, s), g, Red, Blacken(u)), up)
        else Plug(up, Bin(t, p, gc, Bin(Blacken(s), g, Red, u)))
      case InRight(s, p, _, InLeft(g, gc, u, up)) =>
        if IsRed(u) then InsertFix(Bin(Bin(s, p, Black, t), g, Red, Blacken(u)), up)
        else Plug(up, Bin(Bin(s, p, Red, Blacken(t.l)), t.n, gc, Bin(Blacken(t.r), g, Red, u)))
      case InRight(s, p, _, InRight(u, g, gc, up)) =>
        if IsRed(u) then InsertFix(Bin(Blacken(u), g, Red, Bin(s, p, Black, t)), up)
        else Plug(up, Bin(Bin(u, g, Red, Blacken(s)), p, gc, t))
      case InLeft(p, _, s, InRight(u, g, gc, up)) =>
        if IsRed(u) then InsertFix(Bin(Blacken(u), g, Red, Bin(t, p, Black, s)), up)
        else Plug(up, Bin(Bin(u, g, Red, Blacken(t.l)), t.n, gc, Bin(Blacken(t.r), p, Red, s)))
      case _ => Plug(c, t)   // a red root: excluded by Fits
  }

  lemma {:induction false} InsertFixBalances<N>(t: Tree<N>, c: Ctx<N>, h: nat)
    requires IsRed(t) && Balanced(t, h) && Fits(c, h, Black)
    ensures RedBlack(InsertFix(t, c))
    decreases c
  {
    if c.Top? {
      assert Balanced(Blacken(t), h + 1);
    } else if c.c == Black {
      FitsPlug(c, t, h);
    } else {
      match c
      case InLeft(p, _, s, InLeft(g, gc, u, up)) =>
        FitsBlack(up, h + 1, gc);
        if IsRed(u) { InsertFixBalances(Bin(Bin(t, p, Black, s), g, Red, Blacken(u)), up, h + 1); }
        else { FitsPlug(up, Bin(t, p, gc, Bin(Blacken(s), g, Red, u)), h + 1); }
      case InRight(s, p, _, InLeft(g, gc, u, up)) =>
        FitsBlack(up, h + 1, gc);
        if IsRed(u) { InsertFixBalances(Bin(Bin(s, p, Black, t), g, Red, Blacken(u)), up, h + 1); }
        else { FitsPlug(up, Bin(Bin(s, p, Red, Blacken(t.l)), t.n, gc, Bin(Blacken(t.r), g, Red, u)), h + 1); }
      case InRight(s, p, _, InRight(u, g, gc, up)) =>
        FitsBlack(up, h + 1, gc);
        if IsRed(u) { InsertFixBalances(Bin(Blacken(u), g, Red, Bin(s, p, Black, t)), up, h + 1); }
        else { FitsPlug(up, Bin(Bin(u, g, Red, Blacken(s)), p, gc, t), h + 1); }
      case InLeft(p, _, s, InRight(u, g, gc, up)) =>
        FitsBlack(up, h + 1, gc);
        if IsRed(u) { InsertFixBalances(Bin(Blacken(u), g, Red, Bin(t, p, Black, s)), up, h + 1); }
        else { FitsPlug(up, Bin(Bin(u, g, Red, Blacken(t.l)), t.n, gc, Bin(Blacken(t.r), p, Red, s)), h + 1); }
      case _ =>
    }
  }

  lemma RecolorKeepsOrder<N>(a: Tree<N>, p: N, pc: Color, b: Tree<N>, g: N, gc: Color, u: Tree<N>)
    ensures Inorder(Bin(Bin(a, p, Black, b), g, Red, Blacken(u))) == Inorder(Bin(Bin(a, p, pc, b), g, gc, u))
    ensures Inorder(Bin(Blacken(u), g, Red, Bin(a, p, Black, b))) == Inorder(Bin(u, g, gc, Bin(a, p, pc, b)))
  {
    BlackenKeepsOrder(u);
  }

  lemma OuterKeepsOrder<N>(t: Tree<N>, p: N, pc: Color, s: Tree<N>, g: N, gc: Color, u: Tree<N>)
    ensures Inorder(Bin(t, p, gc, Bin(Blacken(s), g, Red, u))) == Inorder(Bin(Bin(t, p, pc, s), g, gc, u))
    ensures Inorder(Bin(Bin(u, g, Red, Blacken(s)), p, gc, t)) == Inorder(Bin(u, g, gc, Bin(s, p, pc, t)))
  {
    BlackenKeepsOrder(s);
    RotationKeepsOrder(t, p, s, g, u, gc);
    RotationKeepsOrder(u, g, s, p, t, gc);
  }

  lemma InnerKeepsOrder<N>(t: Tree<N>, p: N, pc: Color, s: Tree<N>, g: N, gc: Color, u: Tree<N>)
    requires t.Bin?
    ensures Inorder(Bin(Bin(s, p, Red, Blacken(t.l)), t.n, gc, Bin(Blacken(t.r), g, Red, u))) == Inorder(Bin(Bin(s, p, pc, t), g, gc, u))
    ensures Inorder(Bin(Bin(u, g, Red, Blacken(t.l)), t.n, gc, Bin(Blacken(t.r), p, Red, s))) == Inorder(Bin(u, g, gc, Bin(t, p, pc, s)))
  {
    BlackenKeepsOrder(t.l);
    BlackenKeepsOrder(t.r);
    DoubleRotationKeepsOrder(s, p, t, g, u, gc);
    DoubleRotationKeepsOrder(u, g, t, p, s, gc);
  }

  lemma {:induction false} InsertFixKeepsOrder<N>(t: Tree<N>, c: Ctx<N>)
    requires t.Bin?
    ensures Inorder(InsertFix(t, c)) == Inorder(Plug(c, t))
    decreases c
  {
    hide Inorder;
    if c.Top? { BlackenKeepsOrder(t); }
    if !c.Top? && c.c == Red && !c.up.Top? {
      var up, g, gc := c.up.up, c.up.n, c.up.c;
      match c
      case InLeft(p, pc, s, InLeft(_, _, u, _)) =>
        var old' := Bin(Bin(t, p, pc, s), g, gc, u);
        if IsRed(u) {
          var new' := Bin(Bin(t, p, Black, s), g, Red, Blacken(u));
          RecolorKeepsOrder(t, p, pc, s, g, gc, u);
          InsertFixKeepsOrder(new', up);
          PlugKeepsOrder(up, old', new');
        } else {
          OuterKeepsOrder(t, p, pc, s, g, gc, u);
          PlugKeepsOrder(up, old', Bin(t, p, gc, Bin(Blacken(s), g, Red, u)));
        }
      case InRight(s, p, pc, InLeft(_, _, u, _)) =>
        var old' := Bin(Bin(s, p, pc, t), g, gc, u);
        if IsRed(u) {
          var new' := Bin(Bin(s, p, Black, t), g, Red, Blacken(u));
          RecolorKeepsOrder(s, p, pc, t, g, gc, u);
          InsertFixKeepsOrder(new', up);
          PlugKeepsOrder(up, old', new');
        } else {
          InnerKeepsOrder(t, p, pc, s, g, gc, u);
          PlugKeepsOrder(up, old', Bin(Bin(s, p, Red, Blacken(t.l)), t.n, gc, Bin(Blacken(t.r), g, Red, u)));
        }
      case InRight(s, p, pc, InRight(u, _, _, _)) =>
        var old' := Bin(u, g, gc, Bin(s, p, pc, t));
        if IsRed(u) {
          var new' := Bin(Blacken(u), g, Red, Bin(s, p, Black, t));
          RecolorKeepsOrder(s, p, pc, t, g, gc, u);
          InsertFixKeepsOrder(new', up);
          PlugKeepsOrder(up, old', new');
        } else {
          OuterKeepsOrder(t, p, pc, s, g, gc, u);
          PlugKeepsOrder(up, old', Bin(Bin(u, g, Red, Blacken(s)), p, gc, t));
        }
      case InLeft(p, pc, s, InRight(u, _, _, _)) =>
        var old' := Bin(u, g, gc, Bin(t, p, pc, s));
        if IsRed(u) {
          var new' := Bin(Blacken(u), g, Red, Bin(t, p, Black, s));
          RecolorKeepsOrder(t, p, pc, s, g, gc, u);
          InsertFixKeepsOrder(new', up);
          PlugKeepsOrder(up, old', new');
        } else {
          InnerKeepsOrder(t, p, pc, s, g, gc, u);
          PlugKeepsOrder(up, old', Bin(Bin(u, g, Red, Blacken(t.l)), t.n, gc, Bin(Blacken(t.r), p, Red, s)));
        }
    }
  }

  // ----- the climb after an erasure

  /** One turn of the loop: either the whole tree is repaired, or the parent becomes the new
      short subtree and the loop goes on one level up. */
  datatype Step<N> = Done(t: Tree<N>) | Climb(t: Tree<N>)

  /** Cases 2, 3 and 4: the sibling is black. */
  function EraseStepBlack<N>(t: Tree<N>, c: Ctx<N>): Step<N>
    requires !c.Top?
  {
    match c
    case InLeft(p, pc, Bin(sl, s, sc, sr), up) =>
      if IsBlack(sr) then
        if IsBlack(sl) then
          var q := Bin(t, p, Black, Bin(sl, s, Red, sr));
          if pc == Red then Done(Plug(up, q)) else Climb(q)
        else
          Done(Plug(up, Bin(Bin(t, p, Black, sl.l), sl.n, pc, Bin(Blacken(sl.r), s, Black, sr))))
      else
        Done(Plug(up, Bin(Bin(t, p, Black, sl), s, pc, Blacken(sr))))
    case InRight(Bin(sl, s, sc, sr), p, pc, up) =>
      if IsBlack(sl) then
        if IsBlack(sr) then
          var q := Bin(Bin(sl, s, Red, sr), p, Black, t);
          if pc == Red then Done(Plug(up, q)) else Climb(q)
        else
          Done(Plug(up, Bin(Bin(sl, s, Black, Blacken(sr.l)), sr.n, pc, Bin(sr.r, p, Black, t))))
      else
        Done(Plug(up, Bin(Blacken(sl), s, pc, Bin(sr, p, Black, t))))
    case _ => Done(Plug(c, t))   // no sibling: excluded by Fits
  }

  function EraseStep<N>(t: Tree<N>, c: Ctx<N>): Step<N>
    requires !c.Top?
  {
    match c
    case InLeft(p, pc, Bin(sl, s, Red, sr), up) =>
      EraseStepBlack(t, InLeft(p, Red, Blacken(sl), InLeft(s, pc, sr, up)))
    case InRight(Bin(sl, s, Red, sr), p, pc, up) =>
      EraseStepBlack(t, InRight(Blacken(sr), p, Red, InRight(sl, s, pc, up)))
    case _ => EraseStepBlack(t, c)
  }

  /** `t` has one black node too few on every path; `c` is the path above it. */
  function EraseFix<N>(t: Tree<N>, c: Ctx<N>): Tree<N>
    decreases c
  {
    if c.Top? then t
    else match EraseStep(t, c)
      case Done(r) => r
      case Climb(q) => EraseFix(q, c.up)
  }

  lemma EraseStepBlackBalances<N>(t: Tree<N>, c: Ctx<N>, h: nat)
    requires !c.Top? && Balanced(t, h) && Fits(c, h + 1, Black) && IsBlack(t)
    requires c.InLeft? ==> IsBlack(c.r)
    requires c.InRight? ==> IsBlack(c.l)
    ensures var s := EraseStepBlack(t, c);
      if s.Done? then RedBlack(s.t)
      else IsBlack(s.t) && Balanced(s.t, h + 1) && c.c == Black && Fits(c.up, h + 2, Black)
  {
    var h2 := if c.c == Black then h + 2 else h + 1;
    FitsBlack(c.up, h2, c.c);
    match c
    case InLeft(p, pc, Bin(sl, s, sc, sr), up) =>
      if IsBlack(sr) {
        if IsBlack(sl) {
          if pc == Red { FitsPlug(up, Bin(t, p, Black, Bin(sl, s, Red, sr)), h2); }
        } else {
          assert Balanced(sl, h);
          BlackenBalances(sl.r, h);
          FitsPlug(up, Bin(Bin(t, p, Black, sl.l), sl.n, pc, Bin(Blacken(sl.r), s, Black, sr)), h2);
        }
      } else {
        BlackenBalances(sr, h);
        FitsPlug(up, Bin(Bin(t, p, Black, sl), s, pc, Blacken(sr)), h2);
      }
    case InRight(Bin(sl, s, sc, sr), p, pc, up) =>
      assert Balanced(Bin(sl, s, sc, sr), h + 1);
      if IsBlack(sl) {
        if IsBlack(sr) {
          if pc == Red { FitsPlug(up, Bin(Bin(sl, s, Red, sr), p, Black, t), h2); }
        } else {
          assert Balanced(sr, h);
          BlackenBalances(sr.l, h);
          FitsPlug(up, Bin(Bin(sl, s, Black, Blacken(sr.l)), sr.n, pc, Bin(sr.r, p, Black, t)), h2);
        }
      } else {
        BlackenBalances(sl, h);
        FitsPlug(up, Bin(Blacken(sl), s, pc, Bin(sr, p, Black, t)), h2);
      }
  }

  lemma EraseStepBalances<N>(t: Tree<N>, c: Ctx<N>, h: nat)
    requires !c.Top? && Balanced(t, h) && Fits(c, h + 1, Black) && IsBlack(t)
    ensures var s := EraseStep(t, c);
      if s.Done? then RedBlack(s.t)
      else IsBlack(s.t) && Balanced(s.t, h + 1) && c.c == Black && Fits(c.up, h + 2, Black)
  {
    match c
    case InLeft(p, pc, Bin(sl, s, Red, sr), up) =>
      EraseStepBlackBalances(t, InLeft(p, Red, Blacken(sl), InLeft(s, pc, sr, up)), h);
    case InRight(Bin(sl, s, Red, sr), p, pc, up) =>
      EraseStepBlackBalances(t, InRight(Blacken(sr), p, Red, InRight(sl, s, pc, up)), h);
    case _ => EraseStepBlackBalances(t, c, h);
  }

  lemma {:induction false} EraseFixBalances<N>(t: Tree<N>, c: Ctx<N>, h: nat)
    requires IsBlack(t) && Balanced(t, h) && Fits(c, h + 1, Black)
    ensures RedBlack(EraseFix(t, c))
    decreases c
  {
    if !c.Top? {
      EraseStepBalances(t, c, h);
      var s := EraseStep(t, c);
      if s.Climb? { EraseFixBalances(s.t, c.up, h + 1); }
    }
  }

  /** What the loop still has to put right is a tree with the old order of nodes. */
  function StepTree<N>(s: Step<N>, up: Ctx<N>): Tree<N> {
    match s
    case Done(t) => t
    case Climb(t) => Plug(up, t)
  }

  lemma EraseStepBlackKeepsOrder<N>(t: Tree<N>, c: Ctx<N>)
    requires !c.Top?
    ensures Inorder(StepTree(EraseStepBlack(t, c), c.up)) == Inorder(Plug(c, t))
  {
    match c
    case InLeft(p, pc, Bin(sl, s, sc, sr), up) =>
      var old' := Bin(t, p, pc, Bin(sl, s, sc, sr));
      if IsRed(sr) {
        RotationKeepsOrder(t, p, sl, s, sr, pc);
        PlugKeepsOrder(up, old', Bin(Bin(t, p, Black, sl), s, pc, Blacken(sr)));
      } else if IsRed(sl) {
        BlackenKeepsOrder(sl.r);
        DoubleRotationKeepsOrder(t, p, sl, s, sr, pc);
        PlugKeepsOrder(up, old', Bin(Bin(t, p, Black, sl.l), sl.n, pc, Bin(Blacken(sl.r), s, Black, sr)));
      } else {
        PlugKeepsOrder(up, old', Bin(t, p, Black, Bin(sl, s, Red, sr)));
      }
    case InRight(Bin(sl, s, sc, sr), p, pc, up) =>
      var old' := Bin(Bin(sl, s, sc, sr), p, pc, t);
      if IsRed(sl) {
        RotationKeepsOrder(sl, s, sr, p, t, pc);
        PlugKeepsOrder(up, old', Bin(Blacken(sl), s, pc, Bin(sr, p, Black, t)));
      } else if IsRed(sr) {
        BlackenKeepsOrder(sr.l);
        DoubleRotationKeepsOrder(sl, s, sr, p, t, pc);
        PlugKeepsOrder(up, old', Bin(Bin(sl, s, Black, Blacken(sr.l)), sr.n, pc, Bin(sr.r, p, Black, t)));
      } else {
        PlugKeepsOrder(up, old', Bin(Bin(sl, s, Red, sr), p, Black, t));
      }
    case _ =>
  }

  lemma SiblingKeepsOrder<N>(t: Tree<N>, p: N, pc: Color, sl: Tree<N>, s: N, sr: Tree<N>)
    ensures Inorder(Bin(Bin(t, p, Red, Blacken(sl)), s, pc, sr)) == Inorder(Bin(t, p, pc, Bin(sl, s, Red, sr)))
    ensures Inorder(Bin(sl, s, pc, Bin(Blacken(sr), p, Red, t))) == Inorder(Bin(Bin(sl, s, Red, sr), p, pc, t))
  {
    BlackenKeepsOrder(sl);
    BlackenKeepsOrder(sr);
    RotationKeepsOrder(t, p, sl, s, sr, pc);
    RotationKeepsOrder(sl, s, sr, p, t, pc);
  }

  lemma EraseStepKeepsOrder<N>(t: Tree<N>, c: Ctx<N>)
    requires !c.Top?
    requires EraseStep(t, c).Climb? ==> c.c == Black
    ensures Inorder(StepTree(EraseStep(t, c), c.up)) == Inorder(Plug(c, t))
  {
    hide Inorder;
    match c
    case InLeft(p, pc, Bin(sl, s, Red, sr), up) =>
      EraseStepBlackKeepsOrder(t, InLeft(p, Red, Blacken(sl), InLeft(s, pc, sr, up)));
      SiblingKeepsOrder(t, p, pc, sl, s, sr);
      PlugKeepsOrder(up, Bin(t, p, pc, Bin(sl, s, Red, sr)), Bin(Bin(t, p, Red, Blacken(sl)), s, pc, sr));
    case InRight(Bin(sl, s, Red, sr), p, pc, up) =>
      EraseStepBlackKeepsOrder(t, InRight(Blacken(sr), p, Red, InRight(sl, s, pc, up)));
      SiblingKeepsOrder(t, p, pc, sl, s, sr);
      PlugKeepsOrder(up, Bin(Bin(sl, s, Red, sr), p, pc, t), Bin(sl, s, pc, Bin(Blacken(sr), p, Red, t)));
    case _ => EraseStepBlackKeepsOrder(t, c);
  }

  lemma {:induction false} EraseFixKeepsOrder<N>(t: Tree<N>, c: Ctx<N>)
    ensures Inorder(EraseFix(t, c)) == Inorder(Plug(c, t))
    decreases c
  {
    if !c.Top? {
      EraseStepKeepsOrder(t, c);
      var s := EraseStep(t, c);
      if s.Climb? { EraseFixKeepsOrder(s.t, c.up); }
    }
  }

  // ----- taking a node out, before rebalancing

  /** The leftmost subtree of r, whose root is r's first node. */
  function Least<N>(r: Tree<N>): (m: Tree<N>)
    requires r.Bin?
    ensures m.Bin? && m.l.Leaf?
  {
    if r.l.Leaf? then r else Least(r.l)
  }

  /** The path from below c down to the first node of r. */
  function Spine<N>(r: Tree<N>, c: Ctx<N>): Ctx<N>
    requires r.Bin?
  {
    if r.l.Leaf? then c else Spine(r.l, InLeft(r.n, r.c, r.r, c))
  }

  /** r with x in place of its leftmost subtree. */
  function WithoutLeast<N>(r: Tree<N>, x: Tree<N>): Tree<N>
    requires r.Bin?
  {
    if r.l.Leaf? then x else Bin(WithoutLeast(r.l, x), r.n, r.c, r.r)
  }

  lemma {:induction false} SpinePlug<N>(r: Tree<N>, c: Ctx<N>, x: Tree<N>)
    requires r.Bin?
    ensures Plug(Spine(r, c), x) == Plug(c, WithoutLeast(r, x))
    ensures WithoutLeast(r, Least(r)) == r
  {
    if r.l.Bin? { SpinePlug(r.l, InLeft(r.n, r.c, r.r, c), x); }
  }

  /** A node with two children gives its place and colour to its successor, whose right subtree
      moves up; a node with one child gives them to the child. The results are the hole where a
      black node may now be missing, and the subtree in it. */
  function SplicedPath<N>(t: Tree<N>, c: Ctx<N>): Ctx<N>
    requires t.Bin?
  {
    if t.l.Leaf? || t.r.Leaf? then c
    else Spine(t.r, InRight(t.l, Least(t.r).n, t.c, c))
  }

  function SplicedChild<N>(t: Tree<N>): Tree<N>
    requires t.Bin?
  {
    if t.l.Leaf? then (if t.r.Bin? then t.r.(c := t.c) else Leaf)
    else if t.r.Leaf? then t.l.(c := t.c)
    else Blacken(Least(t.r).r)
  }

  /** The colour that leaves the tree. */
  function RemovedColor<N>(t: Tree<N>): Color
    requires t.Bin?
  {
    if t.l.Leaf? || t.r.Leaf? then t.c else Least(t.r).c
  }

  function EraseAt<N>(t: Tree<N>, c: Ctx<N>): Tree<N>
    requires t.Bin?
  {
    if SplicedChild(t).Leaf? && RemovedColor(t) == Black then EraseFix(Leaf, SplicedPath(t, c))
    else Plug(SplicedPath(t, c), SplicedChild(t))
  }

  lemma {:induction false} SpineFits<N>(r: Tree<N>, c: Ctx<N>, h: nat) returns (k: nat)
    requires r.Bin? && Balanced(r, h) && Fits(c, h, ColorOf(r))
    ensures Balanced(Least(r), k) && Fits(Spine(r, c), k, ColorOf(Least(r)))
  {
    if r.l.Leaf? {
      k := h;
    } else {
      k := SpineFits(r.l, InLeft(r.n, r.c, r.r, c), if r.c == Black then h - 1 else h);
    }
  }

  /** Erasing the root of t below c keeps the red-black rules. */
  lemma EraseAtBalances<N>(t: Tree<N>, c: Ctx<N>)
    requires t.Bin? && RedBlack(Plug(c, t))
    ensures RedBlack(EraseAt(t, c))
    ensures SplicedChild(t).Leaf? && RemovedColor(t) == Black ==> Fits(SplicedPath(t, c), 1, Black)
  {
    var h := PlugFits(c, t);
    var x, c' := SplicedChild(t), SplicedPath(t, c);
    if t.l.Leaf? || t.r.Leaf? {
      var other := if t.l.Leaf? then t.r else t.l;
      assert Balanced(other, 0) && (other.Bin? ==> IsRed(other) && t.c == Black && h == 1);
      if x.Bin? {
        FitsPlug(c, x, h);
      } else if t.c == Black {
        EraseFixBalances(Leaf, c, 0);
      } else {
        FitsBlack(c, h, t.c);
        FitsPlug(c, Leaf, h);
      }
    } else {
      var m := Least(t.r);
      var k := SpineFits(t.r, InRight(t.l, m.n, t.c, c), if t.c == Black then h - 1 else h);
      assert Balanced(m.r, 0) && (m.r.Bin? ==> IsRed(m.r) && m.c == Black && k == 1);
      FitsBlack(c', k, m.c);
      if x.Bin? {
        BlackenBalances(m.r, 0);
        FitsPlug(c', x, 1);
      } else if m.c == Black {
        EraseFixBalances(Leaf, c', 0);
      } else {
        FitsPlug(c', Leaf, 0);
      }
    }
  }

  lemma {:induction false} SpineOrder<N>(r: Tree<N>, x: Tree<N>)
    requires r.Bin? && Inorder(x) == Inorder(Least(r).r)
    ensures Inorder(r) == [Least(r).n] + Inorder(WithoutLeast(r, x))
  {
    if r.l.Bin? {
      SpineOrder(r.l, x);
    }
  }

  lemma Prepend<N>(l: seq<N>, n: N, w: seq<N>, r: seq<N>)
    requires r == [n] + w
    ensures l + [n] + w == l + r
  {
  }

  lemma Regroup3<N>(b: seq<N>, l: seq<N>, r: seq<N>, a: seq<N>)
    ensures b + (l + r) + a == b + l + r + a
  {
  }

  lemma SplicedOrder<N>(t: Tree<N>, c: Ctx<N>)
    requires t.Bin?
    ensures Inorder(Plug(SplicedPath(t, c), SplicedChild(t))) == Before(c) + Inorder(t.l) + Inorder(t.r) + After(c)
  {
    if t.l.Leaf? || t.r.Leaf? {
      InorderPlug(c, SplicedChild(t));
    } else {
      var m := Least(t.r);
      BlackenKeepsOrder(m.r);
      SpineOrder(t.r, Blacken(m.r));
      var w := WithoutLeast(t.r, Blacken(m.r));
      SpinePlug(t.r, InRight(t.l, m.n, t.c, c), Blacken(m.r));
      InorderPlug(c, Bin(t.l, m.n, t.c, w));
      Prepend(Inorder(t.l), m.n, Inorder(w), Inorder(t.r));
      RegroupAround(Before(c), Inorder(t.l), m.n, Inorder(w), After(c));
      Regroup3(Before(c), Inorder(t.l), Inorder(t.r), After(c));
    }
  }

  /** Erasing the root of t below c takes exactly that node out of the order. */
  lemma EraseAtOrder<N>(t: Tree<N>, c: Ctx<N>)
    requires t.Bin?
    ensures Inorder(EraseAt(t, c)) == Before(c) + Inorder(t.l) + Inorder(t.r) + After(c)
  {
    SplicedOrder(t, c);
    EraseFixKeepsOrder(SplicedChild(t), SplicedPath(t, c));
  }
}
