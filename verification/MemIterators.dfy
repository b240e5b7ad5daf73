/** The iterators of `libs/storage/memtable.ts` and `libs/storage/memtable_snapshot.ts`: loops
    over an explicit stack of nodes. Both classes have the same two loops. */
module MemIterators {
  import opened Bytes
  import opened WriteModel
  import opened MemOrder
  import opened MemNodes
  import T = MemTree

  // ---------------------------------------------------------------- what is still to come

  /** The entries that a stack of nodes stands for, top first: each node and its right subtree. */
  function Pending(stack: seq<T.Tree>): seq<T.KV>
    requires forall t :: t in stack ==> t.Node?
  {
    if stack == [] then []
    else
      var top := stack[|stack| - 1];
      [T.KV(top.key, top.val)] + T.InOrder(top.right) + Pending(stack[..|stack| - 1])
  }

  lemma PendingPush(stack: seq<T.Tree>, t: T.Tree)
    requires (forall u :: u in stack ==> u.Node?) && t.Node?
    ensures T.InOrder(t.left) + Pending(stack + [t]) == T.InOrder(t) + Pending(stack)
  {
    hide T.InOrder, Pending;
    assert (stack + [t])[..|stack|] == stack;
    PendingPop(stack + [t]);
    T.InOrderParts(t);
    PushOrder(T.InOrder(t.left), T.KV(t.key, t.val), T.InOrder(t.right), Pending(stack));
  }

  lemma PushOrder(a: seq<T.KV>, x: T.KV, b: seq<T.KV>, c: seq<T.KV>)
    ensures a + ([x] + (b + c)) == (a + [x] + b) + c
  {
  }

  lemma PendingPop(stack: seq<T.Tree>)
    requires (forall u :: u in stack ==> u.Node?) && stack != []
    ensures var top := stack[|stack| - 1];
            Pending(stack) == [T.KV(top.key, top.val)] + (T.InOrder(top.right) + Pending(stack[..|stack| - 1]))
  {
    hide T.InOrder;
    var top, init := stack[|stack| - 1], stack[..|stack| - 1];
    assert Pending(stack) == [T.KV(top.key, top.val)] + T.InOrder(top.right) + Pending(init);
  }

  lemma NothingPending()
    ensures T.InOrder(T.Leaf) == [] && Pending([]) == []
  {
  }

  /** The ghost companion of a stacked node: the subtree that it heads. */
  ghost predicate Heads(n: Node, s: Shape, t: T.Tree)
    reads Nodes(s)
  {
    s.Branch? && Linked(s) && s.node == n && Abs(s) == t
  }

  lemma HeadsParts(n: Node, s: Shape, t: T.Tree)
    requires Heads(n, s, t)
    ensures s.Branch? && t.Node? && n.key == t.key && n.val == t.val
    ensures Linked(s.left) && Root(s.left) == n.left && Abs(s.left) == t.left
    ensures Linked(s.right) && Root(s.right) == n.right && Abs(s.right) == t.right
  {
  }

  lemma HeadsRoot(n: Node, s: Shape)
    requires Linked(s) && Root(s) == n
    ensures Heads(n, s, Abs(s)) && Abs(s).Node?
  {
  }

  lemma EndOfTree(s: Shape)
    requires Root(s) == null
    ensures Abs(s) == T.Leaf
  {
  }

  // ---------------------------------------------------------------- iterator()

  /** `iterator`, collecting what it yields. */
  method Iterate(root: Node?, ghost s: Shape, ghost t: T.Tree) returns (out: seq<T.KV>)
    requires Linked(s) && Root(s) == root && Abs(s) == t
    ensures out == T.InOrder(t)
  {
    hide T.InOrder, Pending, Linked, Abs, Root, Nodes, Heads;
    out := [];
    var stack: seq<Node> := [];
    ghost var shapes: seq<Shape>, trees: seq<T.Tree> := [], [];
    var cur := root;
    ghost var at := s;
    NothingPending();
    while |stack| > 0 || cur != null
      invariant Linked(at) && Root(at) == cur
      invariant |stack| == |shapes| == |trees|
      invariant forall i :: 0 <= i < |stack| ==> trees[i].Node? && Heads(stack[i], shapes[i], trees[i])
      invariant out + (T.InOrder(Abs(at)) + Pending(trees)) == T.InOrder(t)
      decreases |T.InOrder(Abs(at)) + Pending(trees)|
    {
      ghost var todo := T.InOrder(Abs(at)) + Pending(trees);
      while cur != null
        invariant Linked(at) && Root(at) == cur
        invariant |stack| == |shapes| == |trees|
        invariant forall i :: 0 <= i < |stack| ==> trees[i].Node? && Heads(stack[i], shapes[i], trees[i])
        invariant T.InOrder(Abs(at)) + Pending(trees) == todo
        invariant cur != null || |stack| > 0
        decreases at
      {
        HeadsRoot(cur, at);
        HeadsParts(cur, at, Abs(at));
        PendingPush(trees, Abs(at));
        stack, shapes, trees := stack + [cur], shapes + [at], trees + [Abs(at)];
        cur, at := cur.left, at.left;
      }
      EndOfTree(at);
      NothingPending();
      var n := |stack| - 1;
      cur, at := stack[n], shapes[n];
      PendingPop(trees);
      HeadsParts(cur, at, trees[n]);
      ghost var sofar, e := out, T.KV(cur.key, cur.val);
      out := out + [T.KV(cur.key, cur.val)];
      stack, shapes, trees := stack[..n], shapes[..n], trees[..n];
      cur, at := cur.right, at.right;
      ghost var left := T.InOrder(Abs(at)) + Pending(trees);
      assert [] + ([e] + left) == [e] + left;
      assert todo == [e] + left;
      assert sofar + ([e] + left) == out + left;
    }
    EndOfTree(at);
    NothingPending();
  }

  // ---------------------------------------------------------------- iteratorRange()

  predicate FromStart(key: Bytes, start: Option<Bytes>)
  {
    start == None || !Less(key, start.value)
  }

  predicate BeforeEnd(key: Bytes, end: Option<Bytes>)
  {
    end == None || Less(key, end.value)
  }

  /** The entries with a key in [start, end). */
  function InRange(s: seq<T.KV>, start: Option<Bytes>, end: Option<Bytes>): seq<T.KV>
  {
    if s == [] then []
    else if FromStart(s[0].key, start) && BeforeEnd(s[0].key, end) then [s[0]] + InRange(s[1..], start, end)
    else InRange(s[1..], start, end)
  }

  lemma RangeUnfold(e: T.KV, s: seq<T.KV>, start: Option<Bytes>, end: Option<Bytes>)
    ensures InRange([e] + s, start, end) ==
            (if FromStart(e.key, start) && BeforeEnd(e.key, end) then [e] else []) + InRange(s, start, end)
    ensures InRange([], start, end) == []
  {
    assert ([e] + s)[1..] == s;
  }

  lemma {:induction false} SkipBelow(a: seq<T.KV>, b: seq<T.KV>, start: Option<Bytes>, end: Option<Bytes>)
    requires forall e :: e in a ==> !FromStart(e.key, start)
    ensures InRange(a + b, start, end) == InRange(b, start, end)
  {
    if a == [] {
      assert a + b == b;
    } else {
      assert (a + b)[1..] == a[1..] + b && a[0] in a;
      SkipBelow(a[1..], b, start, end);
    }
  }

  lemma {:induction false} NoneBeforeEnd(s: seq<T.KV>, start: Option<Bytes>, end: Option<Bytes>)
    requires forall e :: e in s ==> !BeforeEnd(e.key, end)
    ensures InRange(s, start, end) == []
  {
    if s != [] {
      assert s[0] in s;
      NoneBeforeEnd(s[1..], start, end);
    }
  }

  /** Skipping a node below the start together with its left subtree loses nothing. */
  lemma DescendRight(t: T.Tree, rest: seq<T.KV>, start: Option<Bytes>, end: Option<Bytes>)
    requires t.Node? && Weak(T.InOrder(t) + rest) && !FromStart(t.key, start)
    ensures InRange(T.InOrder(t) + rest, start, end) == InRange(T.InOrder(t.right) + rest, start, end)
    ensures Weak(T.InOrder(t.right) + rest)
  {
    hide T.InOrder, InRange;
    var a, x, b := T.InOrder(t.left), T.KV(t.key, t.val), T.InOrder(t.right) + rest;
    T.InOrderParts(t);
    assert T.InOrder(t) + rest == a + [x] + b;
    WeakParts(a, x, b, start.value);
    SkipBelow(a + [x], b, start, end);
  }

  /** Nothing after an entry at or past the end is in range. */
  lemma StopAtEnd(e: T.KV, rest: seq<T.KV>, start: Option<Bytes>, end: Option<Bytes>)
    requires Weak([e] + rest) && !BeforeEnd(e.key, end)
    ensures InRange([e] + rest, start, end) == []
  {
    hide InRange;
    forall y | y in [e] + rest
      ensures !BeforeEnd(y.key, end)
    {
      if y != e {
        WeakConcat([e], rest);
        assert e in [e];
        if Less(y.key, end.value) {
          LessThenAtMost(y.key, end.value, e.key);
        }
      }
    }
    NoneBeforeEnd([e] + rest, start, end);
  }

  lemma WeakTail(e: T.KV, rest: seq<T.KV>)
    requires Weak([e] + rest)
    ensures Weak(rest)
  {
    WeakConcat([e], rest);
  }

  /** `iteratorRange`, collecting what it yields: exactly the range filter of the in-order
      sequence. Weak order is enough, so this holds for every tree the memtable can reach. */
  method IterateRange(root: Node?, start: Option<Bytes>, end: Option<Bytes>, ghost s: Shape, ghost t: T.Tree)
      returns (out: seq<T.KV>)
    requires Linked(s) && Root(s) == root && Abs(s) == t && Weak(T.InOrder(t))
    ensures out == InRange(T.InOrder(t), start, end)
  {
    hide T.InOrder, Pending, Linked, Abs, Root, Nodes, Heads, InRange, Weak, FromStart, BeforeEnd;
    ghost var all := InRange(T.InOrder(t), start, end);
    out := [];
    var stack: seq<Node> := [];
    ghost var shapes: seq<Shape>, trees: seq<T.Tree> := [], [];
    var cur := root;
    ghost var at := s;
    NothingPending();
    assert T.InOrder(t) + [] == T.InOrder(t);
    while cur != null
      invariant Linked(at) && Root(at) == cur
      invariant |stack| == |shapes| == |trees|
      invariant forall i :: 0 <= i < |stack| ==> trees[i].Node? && Heads(stack[i], shapes[i], trees[i])
      invariant Weak(T.InOrder(Abs(at)) + Pending(trees))
      invariant InRange(T.InOrder(Abs(at)) + Pending(trees), start, end) == all
      decreases at
    {
      HeadsRoot(cur, at);
      HeadsParts(cur, at, Abs(at));
      if FromStart(cur.key, start) {
        PendingPush(trees, Abs(at));
        stack, shapes, trees := stack + [cur], shapes + [at], trees + [Abs(at)];
        cur, at := cur.left, at.left;
      } else {
        DescendRight(Abs(at), Pending(trees), start, end);
        cur, at := cur.right, at.right;
      }
    }
    EndOfTree(at);
    NothingPending();
    assert [] + Pending(trees) == Pending(trees);
    while |stack| > 0
      invariant |stack| == |shapes| == |trees|
      invariant forall i :: 0 <= i < |stack| ==> trees[i].Node? && Heads(stack[i], shapes[i], trees[i])
      invariant Weak(Pending(trees))
      invariant out + InRange(Pending(trees), start, end) == all
      decreases |Pending(trees)|
    {
      var n := |stack| - 1;
      cur, at := stack[n], shapes[n];
      PendingPop(trees);
      HeadsParts(cur, at, trees[n]);
      ghost var e := T.KV(cur.key, cur.val);
      ghost var before := Pending(trees);
      stack, shapes, trees := stack[..n], shapes[..n], trees[..n];
      ghost var todo := T.InOrder(Abs(at.right)) + Pending(trees);
      assert before == [e] + todo;
      RangeUnfold(e, todo, start, end);
      WeakTail(e, todo);
      if FromStart(cur.key, start) {
        if !BeforeEnd(cur.key, end) {
          StopAtEnd(e, todo, start, end);
          assert out + [] == out;
          return;
        }
        out := out + [T.KV(cur.key, cur.val)];
      }
      var node := cur.right;
      at := at.right;
      while node != null
        invariant Linked(at) && Root(at) == node
        invariant |stack| == |shapes| == |trees|
        invariant forall i :: 0 <= i < |stack| ==> trees[i].Node? && Heads(stack[i], shapes[i], trees[i])
        invariant Weak(T.InOrder(Abs(at)) + Pending(trees))
        invariant out + InRange(T.InOrder(Abs(at)) + Pending(trees), start, end) == all
        invariant |T.InOrder(Abs(at)) + Pending(trees)| < |before|
        decreases at
      {
        HeadsRoot(node, at);
        HeadsParts(node, at, Abs(at));
        if FromStart(node.key, start) {
          PendingPush(trees, Abs(at));
          stack, shapes, trees := stack + [node], shapes + [at], trees + [Abs(at)];
          node, at := node.left, at.left;
        } else {
          T.InOrderParts(Abs(at));
          DescendRight(Abs(at), Pending(trees), start, end);
          node, at := node.right, at.right;
        }
      }
      EndOfTree(at);
      NothingPending();
      assert [] + Pending(trees) == Pending(trees);
    }
    NothingPending();
    RangeUnfold(T.KV([], MemValue(None, 0)), [], start, end);
  }
}
