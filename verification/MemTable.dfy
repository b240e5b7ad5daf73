/** The memtable of `libs/storage/memtable.ts` and its frozen snapshot
    (`memtable_snapshot.ts`), as classes over mutable nodes. */
module MemTable {
  import opened Bytes
  import opened WriteModel
  import opened MemOrder
  import opened MemIterators
  import opened MemNodes
  import T = MemTree

  class MemTable {
    var root: Node?
    var size: int
    var bytes: int
    ghost var shape: Shape

    ghost predicate Valid()
      reads this, Nodes(shape)
    {
      Linked(shape) && Root(shape) == root && T.Avl(Abs(shape)) && Weak(T.InOrder(Abs(shape)))
    }

    ghost function Tree(): T.Tree
      reads this, Nodes(shape)
    {
      Abs(shape)
    }

    constructor ()
      ensures Valid() && Tree() == T.Leaf && shape == Empty && size == 0 && bytes == 0
    {
      root, size, bytes, shape := null, 0, 0, Empty;
    }

    /** `insertRec`. */
    method InsertRec(node: Node?, key: Bytes, v: MemValue, ghost s: Shape) returns (n: Node, ghost r: Shape)
      requires Linked(s) && Root(s) == node && T.Avl(Abs(s))
      modifies this`size, this`bytes, Nodes(s)
      ensures Linked(r) && Root(r) == n && fresh(Nodes(r) - Nodes(s))
      ensures Abs(r) == T.Insert(old(Abs(s)), key, v)
      ensures size == old(size) + if T.Get(old(Abs(s)), key) == None then 1 else 0
      ensures bytes == old(bytes) + Delta(T.Get(old(Abs(s)), key), key, v)
      decreases s, 1
    {
      hide T.Insert, T.Get, T.Balance, T.Avl, T.CanBalance, Less;
      T.InsertUnfold(Abs(s), key, v);
      T.GetUnfold(Abs(s), key);
      if node == null {
        size := size + 1;
        bytes := bytes + |key| + ValueBytes(v);
        n := new Node(key, v);
        r := Branch(Empty, n, Empty);
        return;
      }
      ghost var u := s;
      if key == node.key {
        ghost var tl, tr := Abs(s.left), Abs(s.right);
        bytes := bytes + ValueBytes(v) - ValueBytes(node.val);
        node.val := v;
        assert Linked(s.left) && Linked(s.right) && Abs(s.left) == tl && Abs(s.right) == tr;
      } else if Less(key, node.key) {
        u := InsertLeft(node, key, v, s);
      } else {
        u := InsertRight(node, key, v, s);
      }
      n, r := Balance(node, u);
    }

    method InsertLeft(node: Node, key: Bytes, v: MemValue, ghost s: Shape) returns (ghost u: Shape)
      requires Linked(s) && Root(s) == node && T.Avl(Abs(s)) && T.Avl(Abs(s.left))
      modifies this`size, this`bytes, Nodes(s)
      ensures Linked(u) && Root(u) == node && fresh(Nodes(u) - Nodes(s))
      ensures var t := old(Abs(s)); Abs(u) == t.(left := T.Insert(t.left, key, v))
      ensures size == old(size) + if T.Get(old(Abs(s)).left, key) == None then 1 else 0
      ensures bytes == old(bytes) + Delta(T.Get(old(Abs(s)).left, key), key, v)
      decreases s, 0
    {
      hide T.Insert, T.Get, T.Avl, Delta;
      ghost var tr := Abs(s.right);
      assert allocated(Nodes(s.right));
      ghost var sub;
      node.left, sub := InsertRec(node.left, key, v, s.left);
      u := Branch(sub, node, s.right);
      assert Linked(s.right) && Abs(s.right) == tr;
    }

    method InsertRight(node: Node, key: Bytes, v: MemValue, ghost s: Shape) returns (ghost u: Shape)
      requires Linked(s) && Root(s) == node && T.Avl(Abs(s)) && T.Avl(Abs(s.right))
      modifies this`size, this`bytes, Nodes(s)
      ensures Linked(u) && Root(u) == node && fresh(Nodes(u) - Nodes(s))
      ensures var t := old(Abs(s)); Abs(u) == t.(right := T.Insert(t.right, key, v))
      ensures size == old(size) + if T.Get(old(Abs(s)).right, key) == None then 1 else 0
      ensures bytes == old(bytes) + Delta(T.Get(old(Abs(s)).right, key), key, v)
      decreases s, 0
    {
      hide T.Insert, T.Get, T.Avl, Delta;
      ghost var tl := Abs(s.left);
      assert allocated(Nodes(s.left));
      ghost var sub;
      node.right, sub := InsertRec(node.right, key, v, s.right);
      u := Branch(s.left, node, sub);
      assert Linked(s.left) && Abs(s.left) == tl;
    }

    method MinNode(n: Node, ghost s: Shape) returns (m: Node)
      requires Linked(s) && Root(s) == n
      ensures T.KV(m.key, m.val) == T.MinNode(Abs(s))
    {
      m := n;
      ghost var cur := s;
      while m.left != null
        invariant Linked(cur) && Root(cur) == m
        invariant T.MinNode(Abs(cur)) == T.MinNode(Abs(s))
        decreases cur
      {
        m := m.left;
        cur := cur.left;
      }
    }

    /** `deleteRec`, with the outer key throughout. */
    method DeleteRec(node: Node?, key: Bytes, ghost s: Shape) returns (n: Node?, removed: bool, ghost r: Shape)
      requires Linked(s) && Root(s) == node && T.Avl(Abs(s))
      modifies this`size, Nodes(s)
      ensures Linked(r) && Root(r) == n && Nodes(r) <= Nodes(s)
      ensures Abs(r) == T.Remove(old(Abs(s)), key)
      ensures size == old(size) - T.Found(old(Abs(s)), key)
      ensures removed <==> T.Found(old(Abs(s)), key) > 0
      decreases s, 2
    {
      hide T.Remove, T.Found, T.Balance, T.Avl, T.CanBalance, T.MinNode, Less;
      T.RemoveUnfold(Abs(s), key);
      if node == null {
        return null, false, Empty;
      }
      ghost var u := s;
      if key != node.key && Less(key, node.key) {
        removed, u := DeleteLeft(node, key, s);
      } else if key != node.key {
        removed, u := DeleteRight(node, key, s);
      } else {
        size := size - 1;
        if node.left == null || node.right == null {
          removed := true;
          if node.left != null {
            n, r := node.left, s.left;
          } else {
            n, r := node.right, s.right;
          }
          return;
        }
        var more;
        more, u := DeleteFromRight(node, key, s);
        removed := true;
      }
      n, r := Balance(node, u);
    }

    method DeleteLeft(node: Node, key: Bytes, ghost s: Shape) returns (removed: bool, ghost u: Shape)
      requires Linked(s) && Root(s) == node && T.Avl(Abs(s)) && T.Avl(Abs(s.left))
      modifies this`size, Nodes(s)
      ensures Linked(u) && Root(u) == node && Nodes(u) <= Nodes(s)
      ensures var t := old(Abs(s)); Abs(u) == t.(left := T.Remove(t.left, key))
      ensures size == old(size) - T.Found(old(Abs(s)).left, key)
      ensures removed <==> T.Found(old(Abs(s)).left, key) > 0
      decreases s, 0
    {
      hide T.Remove, T.Found, T.Avl;
      ghost var tr := Abs(s.right);
      assert allocated(Nodes(s.right));
      ghost var sub;
      node.left, removed, sub := DeleteRec(node.left, key, s.left);
      u := Branch(sub, node, s.right);
      assert Linked(s.right) && Abs(s.right) == tr;
    }

    method DeleteRight(node: Node, key: Bytes, ghost s: Shape) returns (removed: bool, ghost u: Shape)
      requires Linked(s) && Root(s) == node && T.Avl(Abs(s.right))
      modifies this`size, Nodes(s)
      ensures Linked(u) && Root(u) == node && Nodes(u) <= Nodes(s)
      ensures var t := old(Abs(s)); Abs(u) == t.(right := T.Remove(t.right, key))
      ensures size == old(size) - T.Found(old(Abs(s)).right, key)
      ensures removed <==> T.Found(old(Abs(s)).right, key) > 0
      decreases s, 0
    {
      hide T.Remove, T.Found, T.Avl;
      ghost var tl := Abs(s.left);
      assert allocated(Nodes(s.left));
      ghost var sub;
      node.right, removed, sub := DeleteRec(node.right, key, s.right);
      u := Branch(s.left, node, sub);
      assert Linked(s.left) && Abs(s.left) == tl;
    }

    /** The branch with two children. */
    method DeleteFromRight(node: Node, key: Bytes, ghost s: Shape) returns (removed: bool, ghost u: Shape)
      requires Linked(s) && Root(s) == node && s.left.Branch? && s.right.Branch?
      requires T.Avl(Abs(s)) && T.Avl(Abs(s.right)) && key == node.key
      modifies this`size, Nodes(s)
      ensures Linked(u) && Root(u) == node && Nodes(u) <= Nodes(s)
      ensures Abs(u) == T.RemoveBelow(old(Abs(s)), key)
      ensures size == old(size) - T.Found(old(Abs(s)).right, key)
      decreases s, 1
    {
      hide T.Remove, T.Found, T.Avl, T.MinNode;
      CopySuccessor(node, s);
      removed, u := DeleteRight(node, key, s);
    }

    method CopySuccessor(node: Node, ghost s: Shape)
      requires Linked(s) && Root(s) == node && s.left.Branch? && s.right.Branch?
      modifies node`key, node`val
      ensures Linked(s)
      ensures var t := old(Abs(s)); Abs(s) == t.(key := T.MinNode(t.right).key, val := T.MinNode(t.right).val)
    {
      hide T.MinNode;
      ghost var tl, tr := Abs(s.left), Abs(s.right);
      assert allocated(Nodes(s.left)) && allocated(Nodes(s.right));
      var succ := MinNode(node.right, s.right);
      node.key, node.val := succ.key, succ.val;
      assert Linked(s.left) && Linked(s.right) && Abs(s.left) == tl && Abs(s.right) == tr;
    }

    // -------------------------------------------------------------- public operations

    method Put(key: Bytes, value: Option<Bytes>, rev: nat)
      requires Valid()
      modifies this, Nodes(shape)
      ensures Valid() && fresh(Nodes(shape) - old(Nodes(shape)))
      ensures Tree() == T.Insert(old(Tree()), key, MemValue(value, rev))
      ensures size == old(size) + if T.Get(old(Tree()), key) == None then 1 else 0
      ensures bytes == old(bytes) + Delta(T.Get(old(Tree()), key), key, MemValue(value, rev))
    {
      hide T.Insert, T.Get, T.InOrder, T.Avl, Weak, Delta;
      var v := MemValue(value, rev);
      InsertKeepsOrder(Tree(), key, v);
      T.InsertUnfold(Tree(), key, v);
      root, shape := InsertRec(root, key, v, shape);
    }

    method Get(key: Bytes) returns (r: Option<MemValue>)
      requires Valid()
      ensures r == T.Get(Tree(), key)
    {
      var cur := root;
      ghost var s := shape;
      while cur != null
        invariant Linked(s) && Root(s) == cur
        invariant T.Get(Abs(s), key) == T.Get(Tree(), key)
        decreases s
      {
        if key == cur.key {
          return Some(cur.val);
        }
        if Less(key, cur.key) {
          cur, s := cur.left, s.left;
        } else {
          cur, s := cur.right, s.right;
        }
      }
      return None;
    }

    method Delete(key: Bytes, rev: nat)
      requires Valid()
      modifies this, Nodes(shape)
      ensures Valid() && fresh(Nodes(shape) - old(Nodes(shape)))
      ensures Tree() == T.Delete(old(Tree()), key, rev)
      ensures size == old(size) + if T.Found(old(Tree()), key) > 0 then 0 - T.Found(old(Tree()), key) else 1
    {
      hide T.Insert, T.Remove, T.Found, T.Get, T.InOrder, T.Avl, Weak, Delta;
      RemoveKeepsWeak(Tree(), key);
      FoundIffPresent(Tree(), key);
      AbsentStays(Tree(), key);
      var removed;
      ghost var before := Nodes(shape);
      root, removed, shape := DeleteRec(root, key, shape);
      ghost var between := Nodes(shape);
      assert between <= before && between - before == {};
      if !removed {
        label mid:
        Put(key, None, rev);
        assert fresh@mid(Nodes(shape) - between);
        forall o | o in Nodes(shape) && o !in before
          ensures fresh(o)
        {
          assert o in Nodes(shape) - between && !old@mid(allocated(o));
        }
      }
    }

    method Iterator() returns (out: seq<T.KV>)
      requires Valid()
      ensures out == T.InOrder(Tree())
    {
      assert allocated(Nodes(shape));
      out := Iterate(root, shape, Tree());
    }

    method IteratorRange(start: Option<Bytes>, end: Option<Bytes>) returns (out: seq<T.KV>)
      requires Valid()
      ensures out == InRange(T.InOrder(Tree()), start, end)
    {
      assert allocated(Nodes(shape));
      out := IterateRange(root, start, end, shape, Tree());
    }

    /** The tree is detached, not copied. */
    method Snapshot() returns (snap: MemTableSnapshot)
      requires Valid()
      modifies this
      ensures Valid() && Tree() == T.Leaf && shape == Empty && size == 0 && bytes == 0
      ensures fresh(snap) && snap.Valid() && snap.Tree() == old(Tree()) && snap.shape == old(shape)
      ensures snap.size == old(size) && snap.bytes == old(bytes)
    {
      assert allocated(Nodes(shape));
      ghost var t := Abs(shape);
      snap := new MemTableSnapshot(root, size, bytes, shape);
      assert Linked(shape) && Abs(shape) == t;
      root, size, bytes, shape := null, 0, 0, Empty;
    }
  }

  lemma AbsentStays(t: T.Tree, key: Bytes)
    requires T.Avl(t)
    ensures T.Found(t, key) == 0 ==> T.Remove(t, key) == t
    ensures T.Avl(T.Remove(t, key))
  {
    if T.Found(t, key) == 0 {
      RemoveAbsent(t, key);
    }
  }

  class MemTableSnapshot {
    const root: Node?
    const size: int
    const bytes: int
    ghost const shape: Shape

    ghost predicate Valid()
      reads Nodes(shape)
    {
      Linked(shape) && Root(shape) == root && Weak(T.InOrder(Abs(shape)))
    }

    ghost function Tree(): T.Tree
      reads Nodes(shape)
    {
      Abs(shape)
    }

    constructor (root: Node?, size: int, bytes: int, ghost shape: Shape)
      ensures this.root == root && this.size == size && this.bytes == bytes && this.shape == shape
    {
      this.root, this.size, this.bytes, this.shape := root, size, bytes, shape;
    }

    method Iterator() returns (out: seq<T.KV>)
      requires Valid()
      ensures out == T.InOrder(Tree())
    {
      assert allocated(Nodes(shape));
      out := Iterate(root, shape, Tree());
    }

    method IteratorRange(start: Option<Bytes>, end: Option<Bytes>) returns (out: seq<T.KV>)
      requires Valid()
      ensures out == InRange(T.InOrder(Tree()), start, end)
    {
      assert allocated(Nodes(shape));
      out := IterateRange(root, start, end, shape, Tree());
    }
  }

  method ApplyOp(m: MemTable, op: MemOp)
    requires m.Valid()
    modifies m, Nodes(m.shape)
    ensures m.Valid() && fresh(Nodes(m.shape) - old(Nodes(m.shape)))
    ensures m.Tree() == StepOp(old(m.Tree()), op)
  {
    match op {
      case PutOp(k, v) => m.Put(k, v.value, v.rev);
      case DeleteOp(k, rev) => m.Delete(k, rev);
    }
  }

  lemma RunUnfold(t: T.Tree, ops: seq<MemOp>, i: nat)
    requires T.Avl(t) && i < |ops|
    ensures RunOps(t, ops[i..]) == RunOps(StepOp(t, ops[i]), ops[i + 1..])
  {
    assert ops[i..][1..] == ops[i + 1..];
  }

  /** Whatever is put into the memtable or deleted from it afterwards, the snapshot keeps the
      tree that it took. */
  method RunAfterSnapshot(m: MemTable, ops: seq<MemOp>) returns (snap: MemTableSnapshot)
    requires m.Valid()
    modifies m, Nodes(m.shape)
    ensures m.Valid() && m.Tree() == RunOps(T.Leaf, ops)
    ensures snap.Valid() && snap.Tree() == old(m.Tree())
  {
    hide RunOps, StepOp, T.Avl, T.InOrder, Weak;
    ghost var taken := m.shape;
    snap := m.Snapshot();
    var i := 0;
    while i < |ops|
      invariant 0 <= i <= |ops| && m.Valid() && fresh(Nodes(m.shape))
      invariant RunOps(m.Tree(), ops[i..]) == RunOps(T.Leaf, ops)
      invariant snap.shape == taken && Nodes(m.shape) !! Nodes(taken)
      invariant snap.Valid() && snap.Tree() == old(m.Tree())
    {
      assert allocated(Nodes(taken));
      ghost var mine := Nodes(m.shape);
      RunUnfold(m.Tree(), ops, i);
      label mid:
      ApplyOp(m, ops[i]);
      forall o | o in Nodes(m.shape)
        ensures fresh(o)
      {
        assert o in mine || (o in Nodes(m.shape) - mine && !old@mid(allocated(o)));
      }
      assert Linked(taken) && Abs(taken) == old(Abs(taken));
      i := i + 1;
    }
    assert ops[i..] == [];
    RunNothing(m.Tree());
  }

  lemma RunNothing(t: T.Tree)
    requires T.Avl(t)
    ensures RunOps(t, []) == t
  {
  }

  function ValueBytes(v: MemValue): nat
  {
    if v.value.Some? then |v.value.value| else 0
  }

  /** By how much one put changes the byte count. */
  function Delta(prev: Option<MemValue>, key: Bytes, v: MemValue): int
  {
    if prev == None then |key| + ValueBytes(v) else ValueBytes(v) - ValueBytes(prev.value)
  }
}
