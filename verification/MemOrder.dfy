/** What the memtable's operations do to the order of its keys and to the map it stands for. */
module MemOrder {
  import opened Bytes
  import opened WriteModel
  import opened MemTree

  ghost predicate Strict(s: seq<KV>)
  {
    forall i, j :: 0 <= i < j < |s| ==> Less(s[i].key, s[j].key)
  }

  /** Equal keys may stand side by side. */
  ghost predicate Weak(s: seq<KV>)
  {
    forall i, j :: 0 <= i < j < |s| ==> !Less(s[j].key, s[i].key)
  }

  lemma StrictIsWeak(s: seq<KV>)
    requires Strict(s)
    ensures Weak(s)
  {
    forall i, j | 0 <= i < j < |s|
      ensures !Less(s[j].key, s[i].key)
    {
      LessAsymmetric(s[i].key, s[j].key);
    }
  }

  lemma LessThenAtMost(a: Bytes, b: Bytes, c: Bytes)
    requires Less(a, b) && !Less(c, b)
    ensures Less(a, c)
  {
    LessConnected(b, c);
    if b != c {
      LessTransitive(a, b, c);
    }
  }

  lemma AtMostThenLess(a: Bytes, b: Bytes, c: Bytes)
    requires !Less(b, a) && Less(b, c)
    ensures Less(a, c)
  {
    LessConnected(a, b);
    if a != b {
      LessTransitive(a, b, c);
    }
  }

  ghost predicate AllBelow(s: seq<KV>, key: Bytes)
  {
    forall i :: 0 <= i < |s| ==> Less(s[i].key, key)
  }

  ghost predicate AllAbove(key: Bytes, s: seq<KV>)
  {
    forall i :: 0 <= i < |s| ==> Less(key, s[i].key)
  }

  ghost predicate NoKey(s: seq<KV>, key: Bytes)
  {
    forall i :: 0 <= i < |s| ==> s[i].key != key
  }

  /** The parts of a weakly ordered tree. */
  lemma WeakParts(a: seq<KV>, x: KV, b: seq<KV>, key: Bytes)
    requires Weak(a + [x] + b)
    ensures Weak(a) && Weak(b)
    ensures Less(key, x.key) ==> AllAbove(key, [x] + b)
    ensures Less(x.key, key) ==> AllBelow(a + [x], key)
  {
    var s := a + [x] + b;
    assert s[|a|] == x;
    forall i, j | 0 <= i < j < |a|
      ensures !Less(a[j].key, a[i].key)
    {
      assert s[i] == a[i] && s[j] == a[j];
    }
    forall i, j | 0 <= i < j < |b|
      ensures !Less(b[j].key, b[i].key)
    {
      assert s[|a| + 1 + i] == b[i] && s[|a| + 1 + j] == b[j];
    }
    if Less(key, x.key) {
      forall i | 0 <= i < |b|
        ensures Less(key, b[i].key)
      {
        assert s[|a| + 1 + i] == b[i];
        LessThenAtMost(key, x.key, b[i].key);
      }
    }
    if Less(x.key, key) {
      forall i | 0 <= i < |a|
        ensures Less(a[i].key, key)
      {
        assert s[i] == a[i];
        AtMostThenLess(a[i].key, x.key, key);
      }
    }
  }

  lemma AboveHasNoKey(key: Bytes, s: seq<KV>)
    ensures AllAbove(key, s) || AllBelow(s, key) ==> NoKey(s, key)
  {
    LessIrreflexive(key);
  }

  // ---------------------------------------------------------------- lookup

  /** A lookup finds some entry of the key, and fails only if there is none. */
  lemma {:induction false} GetFinds(t: Tree, key: Bytes) returns (i: nat)
    requires Weak(InOrder(t))
    ensures Get(t, key).Some? ==> i < |InOrder(t)| && InOrder(t)[i] == KV(key, Get(t, key).value)
    ensures Get(t, key) == None ==> NoKey(InOrder(t), key)
  {
    i := 0;
    if t.Node? {
      var a, x, b := InOrder(t.left), KV(t.key, t.val), InOrder(t.right);
      InOrderParts(t);
      hide InOrder, Weak;
      WeakParts(a, x, b, key);
      AboveHasNoKey(key, [x] + b);
      AboveHasNoKey(key, a + [x]);
      LessConnected(key, t.key);
      if key == t.key {
        i := |a|;
      } else if Less(key, t.key) {
        i := GetFinds(t.left, key);
        NoKeyJoin(a, x, b, key);
      } else {
        var j := GetFinds(t.right, key);
        i := |a| + 1 + j;
        NoKeyJoin(a, x, b, key);
      }
    }
  }

  lemma NoKeyJoin(a: seq<KV>, x: KV, b: seq<KV>, key: Bytes)
    ensures NoKey(a, key) && NoKey([x] + b, key) ==> NoKey(a + [x] + b, key)
    ensures NoKey(a + [x], key) && NoKey(b, key) ==> NoKey(a + [x] + b, key)
  {
    assert a + [x] + b == a + ([x] + b);
  }

  /** In a strictly ordered tree it finds the entry. */
  lemma GetAt(t: Tree, i: nat)
    requires Strict(InOrder(t)) && i < |InOrder(t)|
    ensures Get(t, InOrder(t)[i].key) == Some(InOrder(t)[i].val)
  {
    hide InOrder, Get;
    var s := InOrder(t);
    StrictIsWeak(s);
    var j := GetFinds(t, s[i].key);
    LessIrreflexive(s[i].key);
  }

  // ---------------------------------------------------------------- put

  /** `u` is `s` with the value of one entry replaced in its place, or with a new entry exactly
      between the smaller and the greater keys. */
  ghost predicate Placed(s: seq<KV>, u: seq<KV>, i: nat, replaced: bool, kv: KV)
  {
    if replaced then i < |s| && s[i].key == kv.key && u == s[i := kv]
    else i <= |s| && u == s[..i] + [kv] + s[i..] && AllBelow(s[..i], kv.key) && AllAbove(kv.key, s[i..])
  }

  lemma {:induction false} InsertPlace(t: Tree, key: Bytes, val: MemValue) returns (i: nat, replaced: bool)
    requires Avl(t) && Weak(InOrder(t))
    ensures Placed(InOrder(t), InOrder(Insert(t, key, val)), i, replaced, KV(key, val))
  {
    hide InOrder, Insert, Avl, Weak, Placed, AllBelow, AllAbove, Less, Height, Get;
    if t.Leaf? {
      i, replaced := 0, false;
      PlaceInLeaf(key, val);
    } else {
      var a, x, b := InOrder(t.left), KV(t.key, t.val), InOrder(t.right);
      InOrderParts(t);
      LessConnected(key, t.key);
      WeakParts(a, x, b, key);
      InsertParts(t, key, val);
      if key == t.key {
        i, replaced := |a|, true;
        PlaceHere(a, x, b, KV(key, val));
      } else if Less(key, t.key) {
        i, replaced := InsertPlace(t.left, key, val);
        PlaceLeft(a, x, b, InOrder(Insert(t.left, key, val)), i, replaced, KV(key, val));
      } else {
        var j;
        j, replaced := InsertPlace(t.right, key, val);
        i := |a| + 1 + j;
        PlaceRight(a, x, b, InOrder(Insert(t.right, key, val)), j, replaced, KV(key, val));
      }
    }
  }

  lemma PlaceInLeaf(key: Bytes, val: MemValue)
    ensures Placed(InOrder(Leaf), InOrder(Insert(Leaf, key, val)), 0, false, KV(key, val))
  {
  }

  lemma InsertParts(t: Tree, key: Bytes, val: MemValue)
    requires Avl(t) && t.Node?
    ensures Avl(t.left) && Avl(t.right)
    ensures InOrder(Insert(t, key, val)) ==
            if key == t.key then InOrder(t.left) + [KV(key, val)] + InOrder(t.right)
            else if Less(key, t.key) then
              InOrder(Insert(t.left, key, val)) + [KV(t.key, t.val)] + InOrder(t.right)
            else InOrder(t.left) + [KV(t.key, t.val)] + InOrder(Insert(t.right, key, val))
  {
    var n := if key == t.key then t.(val := val)
             else if Less(key, t.key) then t.(left := Insert(t.left, key, val))
             else t.(right := Insert(t.right, key, val));
    BalanceRestores(n);
    BalanceOrder(n);
    InOrderParts(n);
  }

  lemma PlaceHere(a: seq<KV>, x: KV, b: seq<KV>, kv: KV)
    requires x.key == kv.key
    ensures Placed(a + [x] + b, a + [kv] + b, |a|, true, kv)
  {
    assert (a + [x] + b)[|a| := kv] == a + [kv] + b;
  }

  lemma PlaceLeft(a: seq<KV>, x: KV, b: seq<KV>, u: seq<KV>, i: nat, replaced: bool, kv: KV)
    requires Placed(a, u, i, replaced, kv) && AllAbove(kv.key, [x] + b)
    ensures Placed(a + [x] + b, u + [x] + b, i, replaced, kv)
  {
    var s := a + [x] + b;
    if replaced {
      assert s[i := kv] == a[i := kv] + [x] + b;
    } else {
      assert s[..i] == a[..i] && s[i..] == a[i..] + ([x] + b);
      assert s[..i] + [kv] + s[i..] == (a[..i] + [kv] + a[i..]) + [x] + b;
    }
  }

  lemma PlaceRight(a: seq<KV>, x: KV, b: seq<KV>, u: seq<KV>, j: nat, replaced: bool, kv: KV)
    requires Placed(b, u, j, replaced, kv) && AllBelow(a + [x], kv.key)
    ensures Placed(a + [x] + b, a + [x] + u, |a| + 1 + j, replaced, kv)
  {
    var c := a + [x];
    var s, i := c + b, |c| + j;
    if replaced {
      assert s[i] == b[j];
      assert s[i := kv] == c + b[j := kv];
    } else {
      assert s[..i] == c + b[..j] && s[i..] == b[j..];
      assert s[..i] + [kv] + s[i..] == c + (b[..j] + [kv] + b[j..]);
    }
  }

  lemma SpliceKeepsOrder(s: seq<KV>, i: nat, kv: KV)
    requires i <= |s| && AllBelow(s[..i], kv.key) && AllAbove(kv.key, s[i..])
    ensures Strict(s) ==> Strict(s[..i] + [kv] + s[i..])
    ensures Weak(s) ==> Weak(s[..i] + [kv] + s[i..])
  {
    var r := s[..i] + [kv] + s[i..];
    assert forall a :: 0 <= a < i ==> s[a] == s[..i][a];
    assert forall a :: i <= a < |s| ==> s[a] == s[i..][a - i];
    forall a, b | 0 <= a < b < |r|
      ensures Strict(s) ==> Less(r[a].key, r[b].key)
      ensures Weak(s) ==> !Less(r[b].key, r[a].key)
    {
      if a == i || b == i {
        LessAsymmetric(r[a].key, r[b].key);
      }
    }
  }

  /** Every operation keeps the keys in weak order; `put` keeps them in strict order. */
  lemma InsertKeepsOrder(t: Tree, key: Bytes, val: MemValue)
    requires Avl(t) && Weak(InOrder(t))
    ensures Weak(InOrder(Insert(t, key, val)))
    ensures Strict(InOrder(t)) ==> Strict(InOrder(Insert(t, key, val)))
  {
    hide InOrder, Insert, Avl;
    var i, replaced := InsertPlace(t, key, val);
    if !replaced {
      SpliceKeepsOrder(InOrder(t), i, KV(key, val));
    }
  }

  /** The tree stands for a map: lookups agree. */
  ghost predicate Represents(t: Tree, m: Mem)
  {
    forall k :: Get(t, k) == Cell(m, k)
  }

  /** `put` is map update. */
  lemma PutRefinesMap(t: Tree, m: Mem, key: Bytes, val: MemValue)
    requires Avl(t) && Strict(InOrder(t)) && Represents(t, m)
    ensures Represents(Insert(t, key, val), m[key := val]) && Strict(InOrder(Insert(t, key, val)))
  {
    StrictIsWeak(InOrder(t));
    InsertKeepsOrder(t, key, val);
    var r := Insert(t, key, val);
    forall k
      ensures Get(r, k) == Cell(m[key := val], k)
    {
      assert Get(t, k) == Cell(m, k);
      GetAfterInsert(t, key, val, k);
    }
  }

  /** Two trees with the same entries of a key, of which there is one at most. */
  lemma SameLookup(t: Tree, r: Tree, k: Bytes)
    requires Strict(InOrder(t)) && Weak(InOrder(r))
    requires forall e: KV :: e.key == k ==> (e in InOrder(t) <==> e in InOrder(r))
    ensures Get(t, k) == Get(r, k)
  {
    hide InOrder, Get;
    var s, u := InOrder(t), InOrder(r);
    StrictIsWeak(s);
    var j := GetFinds(t, k);
    var l := GetFinds(r, k);
    LessIrreflexive(k);
    assert Get(t, k).Some? ==> s[j] in u;
    assert Get(r, k).Some? ==> u[l] in s;
  }

  lemma PlacedMembers(s: seq<KV>, u: seq<KV>, i: nat, replaced: bool, kv: KV)
    requires Placed(s, u, i, replaced, kv)
    ensures i < |u| && u[i] == kv
    ensures forall e: KV :: e.key != kv.key ==> (e in s <==> e in u)
  {
    forall e: KV | e.key != kv.key
      ensures e in s <==> e in u
    {
      if replaced {
        assert forall j :: 0 <= j < |s| && j != i ==> s[j] == u[j];
      } else {
        assert s == s[..i] + s[i..];
      }
    }
  }

  lemma GetAfterInsert(t: Tree, key: Bytes, val: MemValue, k: Bytes)
    requires Avl(t) && Strict(InOrder(t)) && Strict(InOrder(Insert(t, key, val)))
    ensures Get(Insert(t, key, val), k) == if k == key then Some(val) else Get(t, k)
  {
    hide InOrder, Insert, Get, Avl, Placed, Strict, Weak;
    var r := Insert(t, key, val);
    StrictIsWeak(InOrder(t));
    StrictIsWeak(InOrder(r));
    var i, replaced := InsertPlace(t, key, val);
    PlacedMembers(InOrder(t), InOrder(r), i, replaced, KV(key, val));
    if k == key {
      GetAt(r, i);
    } else {
      SameLookup(t, r, k);
    }
  }

  // ---------------------------------------------------------------- delete, as written

  /** The node that the search reaches has two children. */
  predicate TwoChild(t: Tree, key: Bytes)
  {
    t.Node? &&
    if key == t.key then t.left.Node? && t.right.Node?
    else TwoChild(if Less(key, t.key) then t.left else t.right, key)
  }

  /** An unsuccessful search changes nothing at all, in any tree. */
  lemma {:induction false} RemoveAbsent(t: Tree, key: Bytes)
    requires Avl(t) && Found(t, key) == 0
    ensures Remove(t, key) == t
  {
    if t.Node? {
      RemoveAbsent(if Less(key, t.key) then t.left else t.right, key);
      BalanceRestores(t);
    }
  }

  lemma {:induction false} FoundIffPresent(t: Tree, key: Bytes)
    ensures Found(t, key) > 0 <==> Get(t, key).Some?
  {
    if t.Node? && key != t.key {
      FoundIffPresent(if Less(key, t.key) then t.left else t.right, key);
    }
  }

  lemma RemoveParts(t: Tree, key: Bytes)
    requires Avl(t) && t.Node?
    ensures Avl(t.left) && Avl(t.right)
    ensures InOrder(Remove(t, key)) ==
            if key != t.key then
              if Less(key, t.key) then InOrder(Remove(t.left, key)) + [KV(t.key, t.val)] + InOrder(t.right)
              else InOrder(t.left) + [KV(t.key, t.val)] + InOrder(Remove(t.right, key))
            else if t.left.Leaf? then InOrder(t.right)
            else if t.right.Leaf? then InOrder(t.left)
            else InOrder(t.left) + [MinNode(t.right)] + InOrder(Remove(t.right, key))
  {
    if key != t.key || (t.left.Node? && t.right.Node?) {
      var n := if key == t.key then
                 var succ := MinNode(t.right);
                 t.(key := succ.key, val := succ.val, right := Remove(t.right, key))
               else if Less(key, t.key) then t.(left := Remove(t.left, key))
               else t.(right := Remove(t.right, key));
      BalanceRestores(n);
      BalanceOrder(n);
      InOrderParts(n);
    }
  }

  lemma StrictParts(a: seq<KV>, x: KV, b: seq<KV>, key: Bytes)
    requires Strict(a + [x] + b)
    ensures Strict(a) && Strict(b)
    ensures AllBelow(a, x.key) && AllAbove(x.key, b)
    ensures Less(key, x.key) ==> AllAbove(key, [x] + b)
    ensures Less(x.key, key) ==> AllBelow(a + [x], key)
  {
    var s := a + [x] + b;
    StrictIsWeak(s);
    WeakParts(a, x, b, key);
    assert s[|a|] == x;
    assert forall i :: 0 <= i < |a| ==> s[i] == a[i];
    assert forall i :: 0 <= i < |b| ==> s[|a| + 1 + i] == b[i];
    forall i, j | 0 <= i < j < |b|
      ensures Less(b[i].key, b[j].key)
    {
      assert Less(s[|a| + 1 + i].key, s[|a| + 1 + j].key);
    }
    forall i | 0 <= i < |b|
      ensures Less(x.key, b[i].key)
    {
      assert Less(s[|a|].key, s[|a| + 1 + i].key);
    }
  }

  /** `u` is `s` without its entry at `i`; or with that entry overwritten by its successor. */
  ghost predicate Removed(s: seq<KV>, u: seq<KV>, i: nat, shadowed: bool)
  {
    if shadowed then i + 1 < |s| && u == s[i := s[i + 1]]
    else i < |s| && u == s[..i] + s[i + 1..]
  }

  ghost predicate KeyAt(s: seq<KV>, i: nat, key: Bytes)
  {
    i < |s| && s[i].key == key
  }

  lemma RemovedLeft(a: seq<KV>, x: KV, b: seq<KV>, u: seq<KV>, i: nat, shadowed: bool, key: Bytes)
    requires Removed(a, u, i, shadowed) && KeyAt(a, i, key)
    ensures Removed(a + [x] + b, u + [x] + b, i, shadowed) && KeyAt(a + [x] + b, i, key)
  {
    var s := a + [x] + b;
    if shadowed {
      assert s[i := s[i + 1]] == a[i := a[i + 1]] + [x] + b;
    } else {
      assert s[..i] == a[..i] && s[i + 1..] == a[i + 1..] + [x] + b;
      assert s[..i] + s[i + 1..] == (a[..i] + a[i + 1..]) + [x] + b;
    }
  }

  lemma RemovedRight(a: seq<KV>, x: KV, b: seq<KV>, u: seq<KV>, j: nat, shadowed: bool, key: Bytes)
    requires Removed(b, u, j, shadowed) && KeyAt(b, j, key)
    ensures Removed(a + [x] + b, a + [x] + u, |a| + 1 + j, shadowed) && KeyAt(a + [x] + b, |a| + 1 + j, key)
  {
    var c := a + [x];
    var s, i := c + b, |c| + j;
    assert s[i] == b[j];
    if shadowed {
      assert s[i := s[i + 1]] == c + b[j := b[j + 1]];
    } else {
      assert s[..i] == c + b[..j] && s[i + 1..] == b[j + 1..];
      assert s[..i] + s[i + 1..] == c + (b[..j] + b[j + 1..]);
    }
  }

  lemma RemovedRoot(a: seq<KV>, x: KV, b: seq<KV>)
    ensures KeyAt(a + [x] + b, |a|, x.key)
    ensures Removed(a + [x] + b, a + b, |a|, false)
    ensures b != [] ==> Removed(a + [x] + b, a + [b[0]] + b, |a|, true)
    ensures a == [] ==> a + b == b
    ensures b == [] ==> a + b == a
  {
    var s := a + [x] + b;
    assert s[..|a|] == a && s[|a| + 1..] == b;
    if b != [] {
      assert s[|a| := s[|a| + 1]] == a + [b[0]] + b;
    }
  }

  lemma EmptyOrder(t: Tree)
    ensures t.Leaf? <==> InOrder(t) == []
  {
  }

  /** Deleting a present key from a strictly ordered tree, as the code does it. */
  lemma {:induction false} RemovePlace(t: Tree, key: Bytes) returns (i: nat)
    requires Avl(t) && Strict(InOrder(t)) && Get(t, key).Some?
    ensures KeyAt(InOrder(t), i, key)
    ensures Removed(InOrder(t), InOrder(Remove(t, key)), i, TwoChild(t, key))
    ensures Found(t, key) == 1
  {
    hide InOrder, Remove, Avl, Strict, Removed, KeyAt, AllAbove, AllBelow, Less, Height;
    var a, x, b := InOrder(t.left), KV(t.key, t.val), InOrder(t.right);
    InOrderParts(t);
    if key == t.key {
      i := |a|;
      RemoveRoot(t);
    } else {
      RemoveParts(t, key);
      StrictParts(a, x, b, key);
      if Less(key, t.key) {
        i := RemovePlace(t.left, key);
        RemovedLeft(a, x, b, InOrder(Remove(t.left, key)), i, TwoChild(t.left, key), key);
      } else {
        var j := RemovePlace(t.right, key);
        i := |a| + 1 + j;
        RemovedRight(a, x, b, InOrder(Remove(t.right, key)), j, TwoChild(t.right, key), key);
      }
    }
  }

  lemma RemoveRoot(t: Tree)
    requires t.Node? && Avl(t) && Strict(InOrder(t))
    ensures KeyAt(InOrder(t), |InOrder(t.left)|, t.key)
    ensures Removed(InOrder(t), InOrder(Remove(t, t.key)), |InOrder(t.left)|, TwoChild(t, t.key))
    ensures Found(t, t.key) == 1
  {
    hide InOrder, Remove, Avl, Strict, Removed, KeyAt, AllAbove, AllBelow, Less, Height;
    var a, x, b := InOrder(t.left), KV(t.key, t.val), InOrder(t.right);
    InOrderParts(t);
    RemoveParts(t, t.key);
    StrictParts(a, x, b, t.key);
    EmptyOrder(t.left);
    EmptyOrder(t.right);
    RemovedRoot(a, x, b);
    if t.left.Node? && t.right.Node? {
      AboveHasNoKey(t.key, b);
      NoKeyNotFound(t.right, t.key);
      RemoveAbsent(t.right, t.key);
    }
  }

  lemma {:induction false} NoKeyNotFound(t: Tree, key: Bytes)
    requires NoKey(InOrder(t), key)
    ensures Found(t, key) == 0 && Get(t, key) == None
  {
    if t.Node? {
      var a, x, b := InOrder(t.left), KV(t.key, t.val), InOrder(t.right);
      var s := a + [x] + b;
      assert s[|a|] == x;
      assert forall i :: 0 <= i < |a| ==> s[i] == a[i];
      assert forall i :: 0 <= i < |b| ==> s[|a| + 1 + i] == b[i];
      NoKeyNotFound(t.left, key);
      NoKeyNotFound(t.right, key);
    }
  }

  /** The order survives exactly if the node had at most one child; else the successor stands
      twice. */
  lemma RemoveStrictIff(t: Tree, key: Bytes)
    requires Avl(t) && Strict(InOrder(t)) && Get(t, key).Some?
    ensures Strict(InOrder(Remove(t, key))) <==> !TwoChild(t, key)
    ensures |InOrder(Remove(t, key))| == |InOrder(t)| - Found(t, key) <==> !TwoChild(t, key)
  {
    hide InOrder, Remove, Get, Avl, TwoChild;
    var i := RemovePlace(t, key);
    var s, u := InOrder(t), InOrder(Remove(t, key));
    if TwoChild(t, key) {
      assert u[i] == u[i + 1];
      LessIrreflexive(u[i].key);
    }
  }

  /** What the two kinds of deletion have in common. */
  lemma RemovedMembers(s: seq<KV>, u: seq<KV>, i: nat, shadowed: bool, key: Bytes)
    requires Strict(s) && Removed(s, u, i, shadowed) && KeyAt(s, i, key)
    ensures Weak(u) && NoKey(u, key)
    ensures forall e: KV :: e.key != key ==> (e in s <==> e in u)
  {
    StrictIsWeak(s);
    LessIrreflexive(key);
    if shadowed {
      ShadowedIsWeak(s, i);
      assert forall j :: 0 <= j < |u| ==> u[j] == s[if j == i then i + 1 else j];
      assert forall j :: 0 <= j < |s| && j != i ==> u[j] == s[j];
    } else {
      assert forall j :: 0 <= j < |u| ==> u[j] == s[if j < i then j else j + 1];
      assert s == s[..i] + [s[i]] + s[i + 1..];
    }
  }

  lemma ShadowedIsWeak(s: seq<KV>, i: nat)
    requires Weak(s) && i + 1 < |s|
    ensures Weak(s[i := s[i + 1]])
  {
    LessIrreflexive(s[i + 1].key);
  }

  /** One delete on a strictly ordered tree is right for every lookup, two children or not:
      a present key is gone, an absent one gets a tombstone. */
  lemma DeleteRefinesMap(t: Tree, m: Mem, key: Bytes, rev: nat)
    requires Avl(t) && Strict(InOrder(t)) && Represents(t, m)
    ensures Represents(Delete(t, key, rev), ApplyOne(m, Logged(key, None, rev)))
    ensures Strict(InOrder(Delete(t, key, rev))) <==> !TwoChild(t, key)
  {
    FoundIffPresent(t, key);
    assert Get(t, key) == Cell(m, key);
    if Found(t, key) == 0 {
      RemoveAbsent(t, key);
      PutRefinesMap(t, m, key, MemValue(None, rev));
      NotTwoChild(t, key);
    } else {
      RemoveStrictIff(t, key);
      var r := Remove(t, key);
      forall k
        ensures Get(r, k) == Cell(m - {key}, k)
      {
        assert Get(t, k) == Cell(m, k);
        GetAfterRemove(t, key, k);
      }
    }
  }

  lemma {:induction false} NotTwoChild(t: Tree, key: Bytes)
    ensures TwoChild(t, key) ==> Get(t, key).Some?
  {
    if t.Node? && key != t.key {
      NotTwoChild(if Less(key, t.key) then t.left else t.right, key);
    }
  }

  lemma GetAfterRemove(t: Tree, key: Bytes, k: Bytes)
    requires Avl(t) && Strict(InOrder(t)) && Get(t, key).Some?
    ensures Get(Remove(t, key), k) == if k == key then None else Get(t, k)
  {
    hide InOrder, Remove, Get, Avl, Removed, KeyAt, Strict, Weak;
    var i := RemovePlace(t, key);
    RemovedMembers(InOrder(t), InOrder(Remove(t, key)), i, TwoChild(t, key), key);
    if k == key {
      NoKeyNotFound(Remove(t, key), key);
    } else {
      SameLookup(t, Remove(t, key), k);
    }
  }

  // ---------------------------------------------------------------- a key that stands twice

  function Count(s: seq<KV>, key: Bytes): nat
  {
    if s == [] then 0 else (if s[0].key == key then 1 else 0) + Count(s[1..], key)
  }

  lemma {:induction false} CountConcat(a: seq<KV>, b: seq<KV>, key: Bytes)
    ensures Count(a + b, key) == Count(a, key) + Count(b, key)
  {
    if a == [] {
      assert a + b == b;
    } else {
      assert (a + b)[1..] == a[1..] + b;
      CountConcat(a[1..], b, key);
    }
  }

  lemma {:induction false} CountNone(s: seq<KV>, key: Bytes)
    ensures Count(s, key) == 0 <==> NoKey(s, key)
  {
    if s != [] {
      CountNone(s[1..], key);
      assert s == [s[0]] + s[1..];
    }
  }

  lemma CountParts(a: seq<KV>, x: KV, b: seq<KV>, key: Bytes)
    ensures Count(a + [x] + b, key) == Count(a, key) + (if x.key == key then 1 else 0) + Count(b, key)
    ensures NoKey(a + [x] + b, key) <==> NoKey(a, key) && x.key != key && NoKey(b, key)
  {
    CountConcat(a + [x], b, key);
    CountConcat(a, [x], key);
    assert [x][1..] == [] && Count([], key) == 0;
    assert Count([x], key) == if x.key == key then 1 else 0;
    CountNone(a + [x] + b, key);
    CountNone(a, key);
    CountNone(b, key);
  }

  /** Behind an entry of the key, the first one has it too, or none has. */
  lemma FirstOrNone(a: seq<KV>, x: KV, b: seq<KV>, key: Bytes)
    requires Weak(a + [x] + b) && x.key == key && b != [] && b[0].key != key
    ensures NoKey(b, key)
  {
    var s := a + [x] + b;
    assert s[|a|] == x && s[|a| + 1] == b[0];
    LessConnected(key, b[0].key);
    forall i | 0 <= i < |b|
      ensures b[i].key != key
    {
      LessIrreflexive(key);
      if i > 0 {
        assert s[|a| + 1 + i] == b[i];
        LessThenAtMost(key, b[0].key, b[i].key);
      }
    }
  }

  /** Whatever the earlier deletions have left behind: one more deletion removes its key
      exactly if the key stands in the tree once at most. */
  lemma {:induction false} RemoveClearsIff(t: Tree, key: Bytes)
    requires Avl(t) && Weak(InOrder(t))
    ensures NoKey(InOrder(Remove(t, key)), key) <==> Count(InOrder(t), key) <= 1
  {
    if t.Leaf? {
      CountNone(InOrder(t), key);
    } else {
      var a, x, b := InOrder(t.left), KV(t.key, t.val), InOrder(t.right);
      InOrderParts(t);
      RemoveParts(t, key);
      WeakParts(a, x, b, key);
      CountParts(a, x, b, key);
      CountNone(a, key);
      CountNone(b, key);
      EmptyOrder(t.left);
      EmptyOrder(t.right);
      hide InOrder, Remove, Avl, Weak, NoKey, Count;
      if key == t.key {
        if t.left.Node? && t.right.Node? {
          CountParts(a, b[0], InOrder(Remove(t.right, key)), key);
          if b[0].key != key {
            FirstOrNone(a, x, b, key);
            RemoveClearsIff(t.right, key);
          }
        }
      } else if Less(key, t.key) {
        RemoveClearsIff(t.left, key);
        AboveHasNoKey(key, [x] + b);
        AfterOne(x, b, key);
        CountParts(InOrder(Remove(t.left, key)), x, b, key);
      } else {
        LessConnected(key, t.key);
        RemoveClearsIff(t.right, key);
        AboveHasNoKey(key, a + [x]);
        BeforeOne(a, x, key);
        CountParts(a, x, InOrder(Remove(t.right, key)), key);
      }
    }
  }

  lemma AfterOne(x: KV, b: seq<KV>, key: Bytes)
    ensures NoKey([x] + b, key) ==> NoKey(b, key)
  {
    assert forall i :: 0 <= i < |b| ==> ([x] + b)[i + 1] == b[i];
  }

  lemma BeforeOne(a: seq<KV>, x: KV, key: Bytes)
    ensures NoKey(a + [x], key) ==> NoKey(a, key)
  {
    assert forall i :: 0 <= i < |a| ==> (a + [x])[i] == a[i];
  }

  /** `delete` seen by the next lookup: a tombstone for a key that was not there, nothing for
      one that stood there once, and an old value for one that stood there more often. */
  lemma DeleteWorksIff(t: Tree, key: Bytes, rev: nat)
    requires Avl(t) && Weak(InOrder(t))
    ensures var n := Count(InOrder(t), key);
            && (n == 0 ==> Get(Delete(t, key, rev), key) == Some(MemValue(None, rev)))
            && (n > 0 ==> (Get(Delete(t, key, rev), key) == None <==> n == 1))
  {
    hide InOrder, Remove, Insert, Get, Avl, Weak, Count, Found;
    FoundIffPresent(t, key);
    var i := GetFinds(t, key);
    CountNone(InOrder(t), key);
    if Found(t, key) > 0 {
      RemoveClearsIff(t, key);
      RemoveKeepsWeak(t, key);
      FindsNoKey(t, key, i);
      var j := GetFinds(Remove(t, key), key);
      if Get(Remove(t, key), key).Some? {
        FindsNoKey(Remove(t, key), key, j);
      }
    } else {
      RemoveAbsent(t, key);
      GetInserted(t, key, MemValue(None, rev));
    }
  }

  lemma FindsNoKey(t: Tree, key: Bytes, i: nat)
    requires i < |InOrder(t)| && InOrder(t)[i].key == key
    ensures !NoKey(InOrder(t), key)
  {
  }

  /** What is put where there was nothing is found. */
  lemma GetInserted(t: Tree, key: Bytes, val: MemValue)
    requires Avl(t) && Weak(InOrder(t)) && NoKey(InOrder(t), key)
    ensures Get(Insert(t, key, val), key) == Some(val)
  {
    hide InOrder, Insert, Get, Avl, Weak;
    var s, r := InOrder(t), Insert(t, key, val);
    var i, replaced := InsertPlace(t, key, val);
    InsertKeepsOrder(t, key, val);
    var j := GetFinds(r, key);
    var u := InOrder(r);
    assert u == s[..i] + [KV(key, val)] + s[i..] && u[i] == KV(key, val);
    assert forall x :: 0 <= x < i ==> u[x] == s[x];
    assert forall x :: i < x < |u| ==> u[x] == s[x - 1];
    assert Get(r, key).Some? ==> j == i;
  }

  /** Over whole runs: a deletion at the end of any run of puts and deletes works exactly if
      the run has left its key in the tree once at most. */
  lemma DeleteAfterRunIff(ops: seq<MemOp>, key: Bytes, rev: nat)
    ensures var n := Count(InOrder(RunOps(Leaf, ops)), key);
            var r := RunOps(Leaf, ops + [DeleteOp(key, rev)]);
            && (n == 0 ==> Get(r, key) == Some(MemValue(None, rev)))
            && (n > 0 ==> (Get(r, key) == None <==> n == 1))
  {
    hide StepOp, Get, Count;
    assert Weak(InOrder(Leaf));
    var t := EveryRunKeepsOrder(Leaf, ops);
    RunSnoc(Leaf, ops, DeleteOp(key, rev));
    DeleteWorksIff(t, key, rev);
    IsDelete(t, key, rev);
  }

  lemma IsDelete(t: Tree, key: Bytes, rev: nat)
    requires Avl(t)
    ensures StepOp(t, DeleteOp(key, rev)) == Delete(t, key, rev)
  {
  }

  lemma {:induction false} RunSnoc(t: Tree, ops: seq<MemOp>, op: MemOp)
    requires Avl(t)
    ensures RunOps(t, ops + [op]) == StepOp(RunOps(t, ops), op)
    decreases |ops|
  {
    hide StepOp;
    if ops == [] {
      assert (ops + [op])[1..] == [];
      assert RunOps(StepOp(t, op), []) == StepOp(t, op);
    } else {
      assert (ops + [op])[1..] == ops[1..] + [op];
      RunSnoc(StepOp(t, ops[0]), ops[1..], op);
    }
  }

  /** Such a run: three puts and the deletion of the middle key leave the greatest key standing
      twice, so its own deletion leaves it there. */
  lemma DeletedKeySurvives(a: MemValue, b: MemValue, c: MemValue, rev: nat, rev': nat)
    ensures var ops := [PutOp([2], b), PutOp([1], a), PutOp([3], c), DeleteOp([2], rev)];
            && Count(InOrder(RunOps(Leaf, ops)), [3]) == 2
            && Get(RunOps(Leaf, ops + [DeleteOp([3], rev')]), [3]) == Some(c)
  {
    var t, u := Three(a, [2], b, c), Three(a, [3], c, c);
    ThreePuts(a, b, c);
    TwoDeletes(a, b, c);
    assert Delete(t, [2], rev) == u;
    hide Insert, Delete, Remove;
    FourSteps(PutOp([2], b), PutOp([1], a), PutOp([3], c), DeleteOp([2], rev));
    StandsTwice(a, c);
    RunSnoc(Leaf, [PutOp([2], b), PutOp([1], a), PutOp([3], c), DeleteOp([2], rev)], DeleteOp([3], rev'));
    LastDelete(u, a, c, rev');
  }

  lemma ThreePuts(a: MemValue, b: MemValue, c: MemValue)
    ensures var two := StepOp(Leaf, PutOp([2], b));
            StepOp(StepOp(two, PutOp([1], a)), PutOp([3], c)) == Three(a, [2], b, c)
  {
    var one, two, three := Single([1], a), Single([2], b), Single([3], c);
    assert Insert(Leaf, [2], b) == two && Insert(Leaf, [1], a) == one && Insert(Leaf, [3], c) == three;
    assert Insert(two, [1], a) == Node(one, [2], b, Leaf, 2);
    assert Insert(Node(one, [2], b, Leaf, 2), [3], c) == Three(a, [2], b, c);
  }

  lemma FourSteps(a: MemOp, b: MemOp, c: MemOp, d: MemOp)
    ensures RunOps(Leaf, [a, b, c, d]) == StepOp(StepOp(StepOp(StepOp(Leaf, a), b), c), d)
  {
    hide StepOp;
    RunSnoc(Leaf, [], a);
    RunSnoc(Leaf, [a], b);
    RunSnoc(Leaf, [a, b], c);
    RunSnoc(Leaf, [a, b, c], d);
    assert [] + [a] == [a] && [a] + [b] == [a, b] && [a, b] + [c] == [a, b, c] && [a, b, c] + [d] == [a, b, c, d];
  }

  lemma StandsTwice(a: MemValue, c: MemValue)
    ensures Count(InOrder(Three(a, [3], c, c)), [3]) == 2
  {
    var x, y := KV([1], a), KV([3], c);
    assert InOrder(Single([1], a)) == [x] && InOrder(Single([3], c)) == [y];
    assert InOrder(Three(a, [3], c, c)) == [x] + [y] + [y];
    assert x.key != y.key by {
      assert x.key[0] != y.key[0];
    }
    CountConcat([x] + [y], [y], [3]);
    CountConcat([x], [y], [3]);
    assert [x][1..] == [] && [y][1..] == [] && Count([], [3]) == 0;
    assert Count([x], [3]) == 0 && Count([y], [3]) == 1;
  }

  lemma LastDelete(u: Tree, a: MemValue, c: MemValue, rev: nat)
    requires u == Three(a, [3], c, c)
    ensures Get(StepOp(u, DeleteOp([3], rev)), [3]) == Some(c)
  {
    TwoDeletes(a, c, c);
  }

  function Single(key: Bytes, v: MemValue): (r: Tree)
    ensures Avl(r)
  {
    Node(Leaf, key, v, Leaf, 1)
  }

  /** A root between the keys 1 and 3. */
  function Three(a: MemValue, key: Bytes, b: MemValue, c: MemValue): (r: Tree)
    ensures Avl(r)
  {
    Node(Single([1], a), key, b, Single([3], c), 2)
  }

  lemma TwoDeletes(a: MemValue, b: MemValue, c: MemValue)
    ensures Remove(Three(a, [2], b, c), [2]) == Three(a, [3], c, c)
    ensures Remove(Three(a, [3], b, c), [3]) == Node(Single([1], a), [3], c, Leaf, 2)
  {
    var one, three := Single([1], a), Single([3], c);
    assert Remove(three, [2]) == three by {
      assert Found(three, [2]) == 0;
      RemoveAbsent(three, [2]);
    }
    assert Remove(three, [3]) == Leaf;
    assert MinNode(three) == KV([3], c);
  }

  // ---------------------------------------------------------------- delete, as intended

  lemma IntendedParts(t: Tree, key: Bytes)
    requires Avl(t) && t.Node?
    ensures Avl(t.left) && Avl(t.right)
    ensures InOrder(RemoveIntended(t, key)) ==
            if key != t.key then
              if Less(key, t.key) then InOrder(RemoveIntended(t.left, key)) + [KV(t.key, t.val)] + InOrder(t.right)
              else InOrder(t.left) + [KV(t.key, t.val)] + InOrder(RemoveIntended(t.right, key))
            else if t.left.Leaf? then InOrder(t.right)
            else if t.right.Leaf? then InOrder(t.left)
            else InOrder(t.left) + [MinNode(t.right)] + InOrder(RemoveIntended(t.right, MinNode(t.right).key))
  {
    if key != t.key || (t.left.Node? && t.right.Node?) {
      var n := if key == t.key then
                 var succ := MinNode(t.right);
                 t.(key := succ.key, val := succ.val, right := RemoveIntended(t.right, succ.key))
               else if Less(key, t.key) then t.(left := RemoveIntended(t.left, key))
               else t.(right := RemoveIntended(t.right, key));
      BalanceRestores(n);
      BalanceOrder(n);
      InOrderParts(n);
    }
  }

  /** With the successor's own key removed below, exactly the entry of the key disappears. */
  lemma {:induction false} IntendedPlace(t: Tree, key: Bytes) returns (i: nat)
    requires Avl(t) && Strict(InOrder(t)) && Get(t, key).Some?
    ensures KeyAt(InOrder(t), i, key)
    ensures Removed(InOrder(t), InOrder(RemoveIntended(t, key)), i, false)
    decreases t
  {
    hide InOrder, RemoveIntended, Avl, Strict, Removed, KeyAt, AllAbove, AllBelow, Less, Height;
    var a, x, b := InOrder(t.left), KV(t.key, t.val), InOrder(t.right);
    InOrderParts(t);
    IntendedParts(t, key);
    StrictParts(a, x, b, key);
    if key == t.key {
      i := |a|;
      RemovedRoot(a, x, b);
      EmptyOrder(t.left);
      EmptyOrder(t.right);
      if t.left.Node? && t.right.Node? {
        GetAt(t.right, 0);
        var j := IntendedPlace(t.right, b[0].key);
        FirstOut(a, b, InOrder(RemoveIntended(t.right, b[0].key)), j);
      }
    } else if Less(key, t.key) {
      i := IntendedPlace(t.left, key);
      RemovedLeft(a, x, b, InOrder(RemoveIntended(t.left, key)), i, false, key);
    } else {
      var j := IntendedPlace(t.right, key);
      i := |a| + 1 + j;
      RemovedRight(a, x, b, InOrder(RemoveIntended(t.right, key)), j, false, key);
    }
  }

  lemma FirstOut(a: seq<KV>, b: seq<KV>, u: seq<KV>, j: nat)
    requires Strict(b) && b != [] && KeyAt(b, j, b[0].key) && Removed(b, u, j, false)
    ensures a + [b[0]] + u == a + b
  {
    LessIrreflexive(b[0].key);
    assert j == 0;
    assert b == [b[0]] + b[1..];
    assert u == b[1..];
  }

  lemma IntendedKeepsStrict(t: Tree, key: Bytes)
    requires Avl(t) && Strict(InOrder(t)) && Get(t, key).Some?
    ensures Strict(InOrder(RemoveIntended(t, key)))
    ensures NoKey(InOrder(RemoveIntended(t, key)), key)
    ensures forall e: KV :: e.key != key ==> (e in InOrder(t) <==> e in InOrder(RemoveIntended(t, key)))
  {
    hide InOrder, RemoveIntended, Get, Avl;
    var i := IntendedPlace(t, key);
    RemovedMembers(InOrder(t), InOrder(RemoveIntended(t, key)), i, false, key);
  }

  // ---------------------------------------------------------------- every run of the memtable

  datatype MemOp = PutOp(key: Bytes, val: MemValue) | DeleteOp(key: Bytes, rev: nat)

  /** Only entries that were there before remain, in their old order. */
  lemma {:induction false} RemoveKeepsWeak(t: Tree, key: Bytes)
    requires Avl(t) && Weak(InOrder(t))
    ensures Weak(InOrder(Remove(t, key)))
    ensures forall e :: e in InOrder(Remove(t, key)) ==> e in InOrder(t)
  {
    if t.Node? {
      var a, x, b := InOrder(t.left), KV(t.key, t.val), InOrder(t.right);
      InOrderParts(t);
      RemoveParts(t, key);
      WeakParts(a, x, b, key);
      EmptyOrder(t.left);
      EmptyOrder(t.right);
      hide InOrder, Remove, Avl, Weak;
      if key == t.key {
        if t.left.Node? && t.right.Node? {
          RemoveKeepsWeak(t.right, key);
          JoinWeak(a, x, b, a, b[0], InOrder(Remove(t.right, key)));
        }
      } else if Less(key, t.key) {
        RemoveKeepsWeak(t.left, key);
        JoinWeak(a, x, b, InOrder(Remove(t.left, key)), x, b);
      } else {
        RemoveKeepsWeak(t.right, key);
        JoinWeak(a, x, b, a, x, InOrder(Remove(t.right, key)));
      }
    }
  }

  ghost predicate AtMost(a: seq<KV>, b: seq<KV>)
  {
    forall p, q :: p in a && q in b ==> !Less(q.key, p.key)
  }

  lemma WeakConcat(a: seq<KV>, b: seq<KV>)
    ensures Weak(a + b) <==> Weak(a) && Weak(b) && AtMost(a, b)
  {
    var s := a + b;
    if Weak(s) {
      assert forall i :: 0 <= i < |a| ==> s[i] == a[i];
      assert forall i :: 0 <= i < |b| ==> s[|a| + i] == b[i];
      forall i, j | 0 <= i < j < |b|
        ensures !Less(b[j].key, b[i].key)
      {
        assert !Less(s[|a| + j].key, s[|a| + i].key);
      }
      forall i, j | 0 <= i < |a| && 0 <= j < |b|
        ensures !Less(b[j].key, a[i].key)
      {
        assert !Less(s[|a| + j].key, s[i].key);
      }
    }
  }

  lemma FirstIsLeast(b: seq<KV>)
    requires Weak(b) && b != []
    ensures AtMost([b[0]], b)
  {
    LessIrreflexive(b[0].key);
  }

  lemma JoinWeak(a: seq<KV>, x: KV, b: seq<KV>, a': seq<KV>, x': KV, b': seq<KV>)
    requires Weak(a + [x] + b) && Weak(a') && Weak(b')
    requires x' == x || (b != [] && x' == b[0])
    requires (forall e :: e in a' ==> e in a) && (forall e :: e in b' ==> e in b)
    ensures Weak(a' + [x'] + b')
    ensures forall e :: e in a' + [x'] + b' ==> e in a + [x] + b
  {
    WeakConcat(a + [x], b);
    WeakConcat(a, [x]);
    WeakConcat(a' + [x'], b');
    WeakConcat(a', [x']);
    if x' != x {
      FirstIsLeast(b);
    }
    assert x in a + [x] && forall e :: e in a ==> e in a + [x];
    hide Weak;
  }

  /** After any sequence of puts and deletes: the tree is an AVL tree, iteration never goes
      down in key order, and a lookup misses no key that is there. */
  lemma {:induction false} EveryRunKeepsOrder(t: Tree, ops: seq<MemOp>) returns (r: Tree)
    requires Avl(t) && Weak(InOrder(t))
    ensures r == RunOps(t, ops) && Avl(r) && Weak(InOrder(r))
    ensures forall k :: Get(r, k) == None <==> NoKey(InOrder(r), k)
    decreases |ops|
  {
    if ops == [] {
      r := t;
      forall k
        ensures Get(r, k) == None <==> NoKey(InOrder(r), k)
      {
        var i := GetFinds(r, k);
      }
    } else {
      var n := StepOp(t, ops[0]);
      StepKeepsWeak(t, ops[0]);
      hide InOrder, Weak, Avl, StepOp;
      r := EveryRunKeepsOrder(n, ops[1..]);
    }
  }

  lemma StepKeepsWeak(t: Tree, op: MemOp)
    requires Avl(t) && Weak(InOrder(t))
    ensures Weak(InOrder(StepOp(t, op)))
  {
    hide InOrder, Remove, Insert, Weak, Avl;
    match op {
      case PutOp(k, v) => InsertKeepsOrder(t, k, v);
      case DeleteOp(k, rev) =>
        RemoveKeepsWeak(t, k);
        InsertKeepsOrder(Remove(t, k), k, MemValue(None, rev));
    }
  }

  function StepOp(t: Tree, op: MemOp): (r: Tree)
    requires Avl(t)
    ensures Avl(r)
  {
    match op
    case PutOp(k, v) => Insert(t, k, v)
    case DeleteOp(k, rev) => Delete(t, k, rev)
  }

  function RunOps(t: Tree, ops: seq<MemOp>): (r: Tree)
    requires Avl(t)
    ensures Avl(r)
    decreases |ops|
  {
    if ops == [] then t else RunOps(StepOp(t, ops[0]), ops[1..])
  }
}
