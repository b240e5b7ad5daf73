/** The mutable AVL nodes of `libs/storage/node.ts` with the rotations and the rebalancing of
    `libs/storage/memtable.ts`. Pointers are related to tree values by a ghost shape. */
module MemNodes {
  import opened Bytes
  import opened WriteModel
  import T = MemTree

  class Node {
    var key: Bytes
    var val: MemValue
    var left: Node?
    var right: Node?
    var height: nat

    constructor (k: Bytes, v: MemValue)
      ensures key == k && val == v && left == null && right == null && height == 1
    {
      key, val, left, right, height := k, v, null, null, 1;
    }
  }

  // ---------------------------------------------------------------- pointers and values

  /** Which objects form the tree. */
  datatype Shape = Empty | Branch(left: Shape, node: Node, right: Shape)

  ghost function Nodes(s: Shape): set<Node>
  {
    if s.Empty? then {} else Nodes(s.left) + {s.node} + Nodes(s.right)
  }

  ghost function Root(s: Shape): Node?
  {
    if s.Empty? then null else s.node
  }

  /** The links are those of the shape, and nothing is shared. */
  ghost predicate Linked(s: Shape)
    reads Nodes(s)
  {
    s.Branch? ==>
      && s.node.left == Root(s.left) && s.node.right == Root(s.right)
      && s.node !in Nodes(s.left) && s.node !in Nodes(s.right) && Nodes(s.left) !! Nodes(s.right)
      && Linked(s.left) && Linked(s.right)
  }

  ghost function Abs(s: Shape): (t: T.Tree)
    reads Nodes(s)
    ensures t.Leaf? <==> s.Empty?
  {
    if s.Empty? then T.Leaf else T.Node(Abs(s.left), s.node.key, s.node.val, Abs(s.right), s.node.height)
  }

  // ---------------------------------------------------------------- rotations

  function HeightOf(n: Node?): nat
    reads n
  {
    if n == null then 0 else n.height
  }

  lemma HeightIsStored(s: Shape)
    ensures HeightOf(Root(s)) == T.Height(Abs(s))
  {
  }

  lemma FactorIsStored(s: Shape)
    requires Linked(s) && s.Branch?
    ensures T.BalanceFactor(Abs(s)) == HeightOf(s.node.left) - HeightOf(s.node.right)
  {
    HeightIsStored(s.left);
    HeightIsStored(s.right);
  }

  method UpdateHeight(n: Node, ghost s: Shape)
    requires Linked(s) && Root(s) == n
    modifies n`height
    ensures Linked(s) && Abs(s) == T.UpdateHeight(old(Abs(s)))
  {
    n.height := 1 + if HeightOf(n.left) > HeightOf(n.right) then HeightOf(n.left) else HeightOf(n.right);
  }

  method RotateRight(y: Node, ghost s: Shape) returns (x: Node, ghost r: Shape)
    requires Linked(s) && Root(s) == y && s.left.Branch?
    modifies y, s.left.node
    ensures Linked(r) && Root(r) == x && Nodes(r) == Nodes(s)
    ensures Abs(r) == T.RotateRight(old(Abs(s)))
  {
    x := y.left;
    var t2 := x.right;
    ghost var a, b, c := s.left.left, s.left.right, s.right;
    assert Linked(a) && Linked(b) && Linked(c) && x != y;
    assert Nodes(s.left) == Nodes(a) + {x} + Nodes(b);
    assert Nodes(a) !! Nodes(b) && Nodes(a) !! Nodes(c) && Nodes(b) !! Nodes(c);
    ghost var ta, tb, tc := Abs(a), Abs(b), Abs(c);
    x.right := y;
    y.left := t2;
    ghost var low := Branch(s.left.right, y, s.right);
    r := Branch(s.left.left, x, low);
    assert Linked(a) && Linked(b) && Linked(c);
    assert Abs(a) == ta && Abs(b) == tb && Abs(c) == tc;
    assert Linked(low);
    assert allocated(Nodes(a));
    UpdateHeight(y, low);
    assert Linked(a) && Abs(a) == ta;
    UpdateHeight(x, r);
  }

  method RotateLeft(x: Node, ghost s: Shape) returns (y: Node, ghost r: Shape)
    requires Linked(s) && Root(s) == x && s.right.Branch?
    modifies x, s.right.node
    ensures Linked(r) && Root(r) == y && Nodes(r) == Nodes(s)
    ensures Abs(r) == T.RotateLeft(old(Abs(s)))
  {
    y := x.right;
    var t2 := y.left;
    ghost var a, b, c := s.left, s.right.left, s.right.right;
    assert Linked(a) && Linked(b) && Linked(c) && x != y;
    assert Nodes(s.right) == Nodes(b) + {y} + Nodes(c);
    assert Nodes(a) !! Nodes(b) && Nodes(a) !! Nodes(c) && Nodes(b) !! Nodes(c);
    ghost var ta, tb, tc := Abs(a), Abs(b), Abs(c);
    y.left := x;
    x.right := t2;
    ghost var low := Branch(s.left, x, s.right.left);
    r := Branch(low, y, s.right.right);
    assert Linked(a) && Linked(b) && Linked(c);
    assert Abs(a) == ta && Abs(b) == tb && Abs(c) == tc;
    assert Linked(low);
    assert allocated(Nodes(c));
    UpdateHeight(x, low);
    assert Linked(c) && Abs(c) == tc;
    UpdateHeight(y, r);
  }

  method FixLeft(node: Node, ghost s: Shape) returns (n: Node, ghost r: Shape)
    requires Linked(s) && Root(s) == node && s.left.Branch?
    requires T.BalanceFactor(Abs(s.left)) < 0 ==> s.left.right.Branch?
    modifies Nodes(s)
    ensures Linked(r) && Root(r) == n && Nodes(r) == Nodes(s)
    ensures Abs(r) == T.FixLeft(old(Abs(s)))
  {
    hide T.RotateLeft, T.RotateRight;
    ghost var t, was := s, Abs(s);
    FactorIsStored(s.left);
    if HeightOf(node.left.left) < HeightOf(node.left.right) {
      ghost var sub, tr := s, Abs(s.right);
      assert allocated(Nodes(s.right));
      node.left, sub := RotateLeft(node.left, s.left);
      t := Branch(sub, node, s.right);
      assert Linked(s.right) && Abs(s.right) == tr;
      assert Abs(t) == was.(left := T.RotateLeft(was.left));
    }
    n, r := RotateRight(node, t);
  }

  method FixRight(node: Node, ghost s: Shape) returns (n: Node, ghost r: Shape)
    requires Linked(s) && Root(s) == node && s.right.Branch?
    requires T.BalanceFactor(Abs(s.right)) > 0 ==> s.right.left.Branch?
    modifies Nodes(s)
    ensures Linked(r) && Root(r) == n && Nodes(r) == Nodes(s)
    ensures Abs(r) == T.FixRight(old(Abs(s)))
  {
    hide T.RotateLeft, T.RotateRight;
    ghost var t, was := s, Abs(s);
    FactorIsStored(s.right);
    if HeightOf(node.right.left) > HeightOf(node.right.right) {
      ghost var sub, tl := s, Abs(s.left);
      assert allocated(Nodes(s.left));
      node.right, sub := RotateRight(node.right, s.right);
      t := Branch(s.left, node, sub);
      assert Linked(s.left) && Abs(s.left) == tl;
      assert Abs(t) == was.(right := T.RotateRight(was.right));
    }
    n, r := RotateLeft(node, t);
  }

  method Balance(node: Node, ghost s: Shape) returns (n: Node, ghost r: Shape)
    requires Linked(s) && Root(s) == node && T.CanBalance(Abs(s))
    modifies Nodes(s)
    ensures Linked(r) && Root(r) == n && Nodes(r) == Nodes(s)
    ensures Abs(r) == T.Balance(old(Abs(s)))
  {
    hide T.FixLeft, T.FixRight;
    UpdateHeight(node, s);
    if HeightOf(node.left) > HeightOf(node.right) + 1 {
      n, r := FixLeft(node, s);
    } else if HeightOf(node.left) + 1 < HeightOf(node.right) {
      n, r := FixRight(node, s);
    } else {
      n, r := node, s;
    }
  }
}
