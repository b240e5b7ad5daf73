/** The AVL tree of `libs/storage/memtable.ts` as a value: the operations node by node, as the
    code has them, and what they do to the in-order sequence. */
module MemTree {
  import opened Bytes
  import opened WriteModel

  /** Heights are stored, so they can be wrong; `Avl` says that they are not. */
  datatype Tree = Leaf | Node(left: Tree, key: Bytes, val: MemValue, right: Tree, height: nat)

  datatype KV = KV(key: Bytes, val: MemValue)

  // ---------------------------------------------------------------- operations

  function Height(t: Tree): nat
  {
    if t.Leaf? then 0 else t.height
  }

  function Max(a: nat, b: nat): nat
  {
    if a > b then a else b
  }

  function UpdateHeight(t: Tree): Tree
    requires t.Node?
  {
    t.(height := 1 + Max(Height(t.left), Height(t.right)))
  }

  function BalanceFactor(t: Tree): int
    requires t.Node?
  {
    Height(t.left) - Height(t.right)
  }

  function RotateRight(y: Tree): Tree
    requires y.Node? && y.left.Node?
  {
    UpdateHeight(y.left.(right := UpdateHeight(y.(left := y.left.right))))
  }

  function RotateLeft(x: Tree): Tree
    requires x.Node? && x.right.Node?
  {
    UpdateHeight(x.right.(left := UpdateHeight(x.(right := x.right.left))))
  }

  /** What `balance` takes for granted: a side that is higher by two is not empty, and neither
      is its inner child when that one is the higher. */
  predicate CanBalance(t: Tree)
  {
    && t.Node?
    && (BalanceFactor(t) > 1 ==> t.left.Node? && (BalanceFactor(t.left) < 0 ==> t.left.right.Node?))
    && (BalanceFactor(t) < -1 ==> t.right.Node? && (BalanceFactor(t.right) > 0 ==> t.right.left.Node?))
  }

  function FixLeft(n: Tree): Tree
    requires n.Node? && n.left.Node? && (BalanceFactor(n.left) < 0 ==> n.left.right.Node?)
  {
    RotateRight(if BalanceFactor(n.left) < 0 then n.(left := RotateLeft(n.left)) else n)
  }

  function FixRight(n: Tree): Tree
    requires n.Node? && n.right.Node? && (BalanceFactor(n.right) > 0 ==> n.right.left.Node?)
  {
    RotateLeft(if BalanceFactor(n.right) > 0 then n.(right := RotateRight(n.right)) else n)
  }

  function Balance(t: Tree): Tree
    requires CanBalance(t)
  {
    var n := UpdateHeight(t);
    if BalanceFactor(n) > 1 then FixLeft(n)
    else if BalanceFactor(n) < -1 then FixRight(n)
    else n
  }

  /** Stored heights are exact, and siblings differ by at most one. */
  ghost predicate Avl(t: Tree)
  {
    t.Node? ==>
      && Avl(t.left) && Avl(t.right)
      && t.height == 1 + Max(Height(t.left), Height(t.right))
      && -1 <= BalanceFactor(t) <= 1
  }

  /** One subtree may be out of balance by one more step. */
  ghost predicate NearlyAvl(t: Tree)
  {
    t.Node? && Avl(t.left) && Avl(t.right) && -2 <= BalanceFactor(t) <= 2
  }

  function InOrder(t: Tree): seq<KV>
  {
    if t.Leaf? then [] else InOrder(t.left) + [KV(t.key, t.val)] + InOrder(t.right)
  }

  lemma AvlParts(t: Tree)
    requires t.Node?
    ensures Avl(t) <==>
            && Avl(t.left) && Avl(t.right)
            && t.height == 1 + Max(Height(t.left), Height(t.right))
            && -1 <= BalanceFactor(t) <= 1
  {
  }

  lemma LeftHeavy(t: Tree)
    requires NearlyAvl(t) && BalanceFactor(t) == 2
    ensures CanBalance(t) && Avl(Balance(t)) && Balance(t).Node?
    ensures 0 <= Height(Balance(t)) - Height(t.left) <= 1
  {
    hide Avl;
    var l := t.left;
    AvlParts(l);
    AvlParts(Balance(t));
    AvlParts(Balance(t).right);
    if BalanceFactor(l) < 0 {
      AvlParts(l.right);
      AvlParts(Balance(t).left);
    }
  }

  lemma RightHeavy(t: Tree)
    requires NearlyAvl(t) && BalanceFactor(t) == -2
    ensures CanBalance(t) && Avl(Balance(t)) && Balance(t).Node?
    ensures 0 <= Height(Balance(t)) - Height(t.right) <= 1
  {
    hide Avl;
    var r := t.right;
    AvlParts(r);
    AvlParts(Balance(t));
    AvlParts(Balance(t).left);
    if BalanceFactor(r) > 0 {
      AvlParts(r.left);
      AvlParts(Balance(t).right);
    }
  }

  /** Rebalancing restores the invariant, never changes the order, and changes the height
      only downwards from what the higher side suggests. */
  lemma BalanceRestores(t: Tree)
    requires NearlyAvl(t)
    ensures CanBalance(t) && Avl(Balance(t)) && Balance(t).Node?
    ensures var h := 1 + Max(Height(t.left), Height(t.right)); h - 1 <= Height(Balance(t)) <= h
    ensures -1 <= BalanceFactor(t) <= 1 ==> Balance(t) == UpdateHeight(t)
  {
    hide Avl;
    if BalanceFactor(t) == 2 {
      LeftHeavy(t);
    } else if BalanceFactor(t) == -2 {
      RightHeavy(t);
    } else {
      AvlParts(UpdateHeight(t));
    }
  }

  lemma InOrderParts(t: Tree)
    requires t.Node?
    ensures InOrder(t) == InOrder(t.left) + [KV(t.key, t.val)] + InOrder(t.right)
  {
  }

  lemma Regroup(a: seq<KV>, x: KV, b: seq<KV>, y: KV, c: seq<KV>)
    ensures a + [x] + (b + [y] + c) == (a + [x] + b) + [y] + c
  {
  }

  lemma RotateRightOrder(y: Tree)
    requires y.Node? && y.left.Node?
    ensures InOrder(RotateRight(y)) == InOrder(y)
  {
    hide InOrder;
    var x, r := y.left, RotateRight(y);
    InOrderParts(x);
    InOrderParts(y);
    InOrderParts(r);
    InOrderParts(r.right);
    Regroup(InOrder(x.left), KV(x.key, x.val), InOrder(x.right), KV(y.key, y.val), InOrder(y.right));
  }

  lemma RotateLeftOrder(x: Tree)
    requires x.Node? && x.right.Node?
    ensures InOrder(RotateLeft(x)) == InOrder(x)
  {
    hide InOrder;
    var y, r := x.right, RotateLeft(x);
    InOrderParts(x);
    InOrderParts(y);
    InOrderParts(r);
    InOrderParts(r.left);
    Regroup(InOrder(x.left), KV(x.key, x.val), InOrder(y.left), KV(y.key, y.val), InOrder(y.right));
  }

  lemma BalanceOrder(t: Tree)
    requires CanBalance(t)
    ensures InOrder(Balance(t)) == InOrder(t)
  {
    var n := UpdateHeight(t);
    assert InOrder(n) == InOrder(t);
    if BalanceFactor(n) > 1 {
      if BalanceFactor(n.left) < 0 {
        RotateLeftOrder(n.left);
        RotateRightOrder(n.(left := RotateLeft(n.left)));
      } else {
        RotateRightOrder(n);
      }
    } else if BalanceFactor(n) < -1 {
      if BalanceFactor(n.right) > 0 {
        RotateRightOrder(n.right);
        RotateLeftOrder(n.(right := RotateRight(n.right)));
      } else {
        RotateLeftOrder(n);
      }
    }
  }

  function Get(t: Tree, key: Bytes): Option<MemValue>
  {
    if t.Leaf? then None
    else if key == t.key then Some(t.val)
    else if Less(key, t.key) then Get(t.left, key)
    else Get(t.right, key)
  }

  /** `insertRec`. */
  function Insert(t: Tree, key: Bytes, val: MemValue): (r: Tree)
    requires Avl(t)
    ensures Avl(r) && r.Node? && Height(t) <= Height(r) <= Height(t) + 1
  {
    if t.Leaf? then Node(Leaf, key, val, Leaf, 1)
    else
      var n := if key == t.key then t.(val := val)
               else if Less(key, t.key) then t.(left := Insert(t.left, key, val))
               else t.(right := Insert(t.right, key, val));
      BalanceRestores(n);
      Balance(n)
  }

  /** The node that `insertRec` hands to `balance`. */
  function InsertBelow(t: Tree, key: Bytes, val: MemValue): Tree
    requires Avl(t) && t.Node?
  {
    if key == t.key then t.(val := val)
    else if Less(key, t.key) then t.(left := Insert(t.left, key, val))
    else t.(right := Insert(t.right, key, val))
  }

  lemma InsertUnfold(t: Tree, key: Bytes, val: MemValue)
    requires Avl(t)
    ensures t.Leaf? ==> Insert(t, key, val) == Node(Leaf, key, val, Leaf, 1)
    ensures t.Node? ==>
              && Avl(t.left) && Avl(t.right)
              && CanBalance(InsertBelow(t, key, val))
              && Insert(t, key, val) == Balance(InsertBelow(t, key, val))
  {
    if t.Node? {
      BalanceRestores(InsertBelow(t, key, val));
    }
  }

  lemma GetUnfold(t: Tree, key: Bytes)
    ensures t.Leaf? ==> Get(t, key) == None
    ensures t.Node? ==>
              Get(t, key) ==
              if key == t.key then Some(t.val)
              else if Less(key, t.key) then Get(t.left, key)
              else Get(t.right, key)
  {
  }

  function MinNode(t: Tree): (r: KV)
    requires t.Node?
    ensures InOrder(t) != [] && r == InOrder(t)[0]
  {
    if t.left.Leaf? then KV(t.key, t.val) else MinNode(t.left)
  }

  /** `deleteRec`, for the outer key. Below a node with two children it goes on looking for
      that same key, not for the key of the successor it has just copied. */
  function Remove(t: Tree, key: Bytes): (r: Tree)
    requires Avl(t)
    ensures Avl(r) && Height(t) - 1 <= Height(r) <= Height(t)
  {
    if t.Leaf? then Leaf
    else if key != t.key then
      var n := if Less(key, t.key) then t.(left := Remove(t.left, key)) else t.(right := Remove(t.right, key));
      BalanceRestores(n);
      Balance(n)
    else if t.left.Leaf? then t.right
    else if t.right.Leaf? then t.left
    else
      var succ := MinNode(t.right);
      var n := t.(key := succ.key, val := succ.val, right := Remove(t.right, key));
      BalanceRestores(n);
      Balance(n)
  }

  /** The node that `deleteRec` hands to `balance`. */
  function RemoveBelow(t: Tree, key: Bytes): Tree
    requires Avl(t) && t.Node? && (key == t.key ==> t.left.Node? && t.right.Node?)
  {
    if key == t.key then
      var succ := MinNode(t.right);
      t.(key := succ.key, val := succ.val, right := Remove(t.right, key))
    else if Less(key, t.key) then t.(left := Remove(t.left, key))
    else t.(right := Remove(t.right, key))
  }

  lemma RemoveUnfold(t: Tree, key: Bytes)
    requires Avl(t)
    ensures t.Leaf? ==> Remove(t, key) == Leaf && Found(t, key) == 0
    ensures t.Node? ==> Avl(t.left) && Avl(t.right)
    ensures t.Node? && key == t.key && t.left.Leaf? ==> Remove(t, key) == t.right && Found(t, key) == 1
    ensures t.Node? && key == t.key && t.right.Leaf? && t.left.Node? ==> Remove(t, key) == t.left && Found(t, key) == 1
    ensures t.Node? && (key == t.key ==> t.left.Node? && t.right.Node?) ==>
              && CanBalance(RemoveBelow(t, key))
              && Remove(t, key) == Balance(RemoveBelow(t, key))
              && Found(t, key) == (if key == t.key then 1 else 0) +
                                  Found(if key != t.key && Less(key, t.key) then t.left else t.right, key)
  {
    if t.Node? && (key == t.key ==> t.left.Node? && t.right.Node?) {
      BalanceRestores(RemoveBelow(t, key));
    }
  }

  /** How often `deleteRec` finds the key, and so how often it decrements the size. */
  function Found(t: Tree, key: Bytes): nat
  {
    if t.Leaf? then 0
    else if key != t.key then Found(if Less(key, t.key) then t.left else t.right, key)
    else if t.left.Leaf? || t.right.Leaf? then 1
    else 1 + Found(t.right, key)
  }

  /** The deletion the code aims at: the successor's own key is removed below. */
  function RemoveIntended(t: Tree, key: Bytes): (r: Tree)
    requires Avl(t)
    ensures Avl(r) && Height(t) - 1 <= Height(r) <= Height(t)
  {
    if t.Leaf? then Leaf
    else if key != t.key then
      var n := if Less(key, t.key) then t.(left := RemoveIntended(t.left, key))
               else t.(right := RemoveIntended(t.right, key));
      BalanceRestores(n);
      Balance(n)
    else if t.left.Leaf? then t.right
    else if t.right.Leaf? then t.left
    else
      var succ := MinNode(t.right);
      var n := t.(key := succ.key, val := succ.val, right := RemoveIntended(t.right, succ.key));
      BalanceRestores(n);
      Balance(n)
  }

  /** `delete`: a tombstone only for a key that was not there. */
  function Delete(t: Tree, key: Bytes, rev: nat): (r: Tree)
    requires Avl(t)
    ensures Avl(r)
  {
    if Found(t, key) > 0 then Remove(t, key) else Insert(Remove(t, key), key, MemValue(None, rev))
  }

  // ---------------------------------------------------------------- balance bounds the height

  function Nodes(t: Tree): nat
  {
    if t.Leaf? then 0 else Nodes(t.left) + 1 + Nodes(t.right)
  }

  function Fib(n: nat): nat
  {
    if n < 2 then n else Fib(n - 1) + Fib(n - 2)
  }

  lemma {:induction false} FibGrows(m: nat, n: nat)
    requires m <= n
    ensures Fib(m) <= Fib(n)
  {
    if m < n {
      FibGrows(m, n - 1);
    }
  }

  lemma CountHere(t: Tree, h: nat)
    requires t.Node?
    ensures Nodes(t) == Nodes(t.left) + 1 + Nodes(t.right) && Fib(h + 2) == Fib(h + 1) + Fib(h)
  {
  }

  lemma CountNothing()
    ensures Nodes(Leaf) + 1 >= Fib(2)
  {
    assert Fib(2) == Fib(1) + Fib(0);
  }

  /** A tree of height h has at least Fib(h + 2) - 1 nodes, so the height is logarithmic. */
  lemma {:induction false} HeightBound(t: Tree)
    requires Avl(t)
    ensures Nodes(t) + 1 >= Fib(Height(t) + 2)
  {
    hide Avl, Fib, Nodes;
    if t.Node? {
      AvlParts(t);
      HeightBound(t.left);
      HeightBound(t.right);
      var h := Height(t);
      FibGrows(h, Height(t.left) + 2);
      FibGrows(h, Height(t.right) + 2);
      CountHere(t, h);
    } else {
      CountNothing();
    }
  }
}
