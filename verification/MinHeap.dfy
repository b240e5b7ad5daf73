/** The binary heap of `libs/storage/min_heap.ts` over the items that the merge puts in it. */
module MinHeap {
  import opened Bytes
  import opened Entries

  /** A merge item: the current entry of source `idx`. */
  datatype Item = Item(entry: Entry, idx: nat)

  /** `cmp(a, b) < 0`: by key, and by source among equal keys. */
  predicate Before(a: Item, b: Item)
  {
    Less(a.entry.key, b.entry.key) || (a.entry.key == b.entry.key && a.idx < b.idx)
  }

  predicate AtMost(a: Item, b: Item)
  {
    !Before(b, a)
  }

  lemma AtMostTransitive(a: Item, b: Item, c: Item)
    requires AtMost(a, b) && AtMost(b, c)
    ensures AtMost(a, c)
  {
    LessConnected(a.entry.key, b.entry.key);
    LessConnected(b.entry.key, c.entry.key);
    if Less(c.entry.key, a.entry.key) {
      if Less(a.entry.key, b.entry.key) {
        LessTransitive(c.entry.key, a.entry.key, b.entry.key);
      }
    } else if c.entry.key == a.entry.key {
      LessIrreflexive(a.entry.key);
    }
  }

  lemma AtMostTotal(a: Item, b: Item)
    ensures AtMost(a, b) || AtMost(b, a)
    ensures AtMost(a, a)
  {
    LessIrreflexive(a.entry.key);
    if Less(a.entry.key, b.entry.key) {
      LessAsymmetric(a.entry.key, b.entry.key);
    }
    if Less(b.entry.key, a.entry.key) {
      LessAsymmetric(b.entry.key, a.entry.key);
    }
  }

  // ---------------------------------------------------------------- the operations as functions

  /** `bubbleUp`: the parents of the hole at `i` move down until `item` fits in it. */
  function BubbleUp(d: seq<Item>, i: nat, item: Item): (r: seq<Item>)
    requires i < |d|
    ensures |r| == |d|
    decreases i
  {
    if i == 0 || AtMost(d[(i - 1) / 2], item) then d[i := item]
    else BubbleUp(d[i := d[(i - 1) / 2]], (i - 1) / 2, item)
  }

  /** The child of `i` that is below what `data[i]` holds, as `sinkDown` finds it. */
  function Smallest(d: seq<Item>, i: nat): (s: nat)
    requires i < |d|
    ensures s == i || s == 2 * i + 1 || s == 2 * i + 2
    ensures s < |d|
  {
    var l := 2 * i + 1;
    var s := if l < |d| && Before(d[l], d[i]) then l else i;
    if l + 1 < |d| && Before(d[l + 1], d[s]) then l + 1 else s
  }

  /** `sinkDown`: the hole at `i` still holds a stale copy when its children are compared
      with it, so `item` itself takes part in the first comparison only. */
  function SinkDown(d: seq<Item>, i: nat, item: Item): (r: seq<Item>)
    requires i < |d|
    ensures |r| == |d|
    decreases |d| - i
  {
    var s := Smallest(d, i);
    if s == i then d[i := item] else SinkDown(d[i := d[s]], s, item)
  }

  function Push(d: seq<Item>, v: Item): (r: seq<Item>)
    ensures |r| == |d| + 1
  {
    BubbleUp(d + [v], |d|, v)
  }

  /** What `pop` leaves; it returns `d[0]`. */
  function Pop(d: seq<Item>): (r: seq<Item>)
    requires d != []
    ensures |r| == |d| - 1
  {
    var last := d[|d| - 1];
    var rest := d[..|d| - 1];
    if rest == [] then [] else SinkDown(rest[0 := last], 0, last)
  }

  // ---------------------------------------------------------------- the class

  class MinHeap {
    var data: seq<Item>

    constructor ()
      ensures data == []
    {
      data := [];
    }

    /** `push`. */
    method PushItem(v: Item)
      modifies this
      ensures data == Push(old(data), v)
    {
      data := data + [v];
      BubbleUpFrom(|data| - 1);
    }

    /** `pop`; `None` is `undefined`. */
    method PopItem() returns (r: Option<Item>)
      modifies this
      ensures old(data) == [] ==> r == None && data == []
      ensures old(data) != [] ==> r == Some(old(data)[0]) && data == Pop(old(data))
    {
      if |data| == 0 {
        return None;
      }
      var top := data[0];
      var last := data[|data| - 1];
      data := data[..|data| - 1];
      if |data| > 0 {
        data := data[0 := last];
        SinkDownFrom(0);
      }
      return Some(top);
    }

    method BubbleUpFrom(start: nat)
      requires start < |data|
      modifies this
      ensures data == BubbleUp(old(data), start, old(data)[start])
    {
      var i := start;
      var item := data[i];
      while i > 0
        invariant i < |data|
        invariant BubbleUp(data, i, item) == BubbleUp(old(data), start, item)
      {
        var p := (i - 1) / 2;
        if AtMost(data[p], item) {
          break;
        }
        data := data[i := data[p]];
        i := p;
      }
      data := data[i := item];
    }

    method SinkDownFrom(start: nat)
      requires start < |data|
      modifies this
      ensures data == SinkDown(old(data), start, old(data)[start])
    {
      var i := start;
      var n := |data|;
      var item := data[i];
      while true
        invariant i < n == |data|
        invariant SinkDown(data, i, item) == SinkDown(old(data), start, item)
        decreases n - i
      {
        var left := 2 * i + 1;
        var right := left + 1;
        var smallest := i;
        if left < n && Before(data[left], data[smallest]) {
          smallest := left;
        }
        if right < n && Before(data[right], data[smallest]) {
          smallest := right;
        }
        if smallest == i {
          break;
        }
        data := data[i := data[smallest]];
        i := smallest;
      }
      data := data[i := item];
    }
  }

  // ---------------------------------------------------------------- nothing is lost

  lemma {:induction false} BubbleUpPermutes(d: seq<Item>, i: nat, item: Item)
    requires i < |d|
    ensures multiset(BubbleUp(d, i, item)) == multiset(d[i := item])
    decreases i
  {
    if i > 0 && !AtMost(d[(i - 1) / 2], item) {
      var p := (i - 1) / 2;
      var e := d[i := d[p]];
      BubbleUpPermutes(e, p, item);
      assert multiset(e[p := item]) == multiset(d) - multiset{d[i]} + multiset{item};
    }
  }

  lemma {:induction false} SinkDownPermutes(d: seq<Item>, i: nat, item: Item)
    requires i < |d|
    ensures multiset(SinkDown(d, i, item)) == multiset(d[i := item])
    decreases |d| - i
  {
    var s := Smallest(d, i);
    if s != i {
      var e := d[i := d[s]];
      SinkDownPermutes(e, s, item);
      assert multiset(e[s := item]) == multiset(d) - multiset{d[i]} + multiset{item};
    }
  }

  lemma PushPermutes(d: seq<Item>, v: Item)
    ensures multiset(Push(d, v)) == multiset(d) + multiset{v}
  {
    hide BubbleUp;
    BubbleUpPermutes(d + [v], |d|, v);
    assert (d + [v])[|d| := v] == d + [v];
  }

  lemma PopPermutes(d: seq<Item>)
    requires d != []
    ensures multiset(Pop(d)) == multiset(d) - multiset{d[0]}
  {
    hide SinkDown, Smallest;
    if |d| > 1 {
      var last := d[|d| - 1];
      var rest := d[..|d| - 1];
      var w := rest[0 := last];
      SinkDownPermutes(w, 0, last);
      assert w[0 := last] == w && Pop(d) == SinkDown(w, 0, last);
      assert d == rest + [last];
      assert multiset(d) == multiset(rest) + multiset{last};
      assert multiset(w) == multiset(rest) - multiset{rest[0]} + multiset{last};
    } else {
      assert d == [d[0]];
    }
  }

  /** In any array, ordered or not, `push` adds its item and `pop` removes the first one. */
  lemma PushPopPermute(d: seq<Item>, v: Item)
    ensures multiset(Push(d, v)) == multiset(d) + multiset{v}
    ensures d != [] ==> multiset(Pop(d)) == multiset(d) - multiset{d[0]}
  {
    hide Push, Pop;
    PushPermutes(d, v);
    if d != [] {
      PopPermutes(d);
    }
  }

  // ---------------------------------------------------------------- heap order

  /** Entry `j` is not below its parent. */
  ghost predicate Link(d: seq<Item>, j: nat)
    requires 1 <= j < |d|
  {
    AtMost(d[(j - 1) / 2], d[j])
  }

  ghost predicate HeapOrdered(d: seq<Item>)
  {
    forall j :: 1 <= j < |d| ==> Link(d, j)
  }

  /** Heap order except between `i` and its parent, which is below the children of `i`. */
  ghost predicate OrderedExcept(d: seq<Item>, i: nat)
  {
    && i < |d|
    && (forall j :: 1 <= j < |d| && j != i ==> Link(d, j))
    && (i > 0 && 2 * i + 1 < |d| ==> AtMost(d[(i - 1) / 2], d[2 * i + 1]))
    && (i > 0 && 2 * i + 2 < |d| ==> AtMost(d[(i - 1) / 2], d[2 * i + 2]))
  }

  /** One step of `bubbleUp`: the parent moves down and the hole up. */
  lemma BubbleStepKeepsOrder(w: seq<Item>, i: nat)
    requires OrderedExcept(w, i) && i > 0 && !AtMost(w[(i - 1) / 2], w[i])
    ensures OrderedExcept(w[i := w[(i - 1) / 2]][(i - 1) / 2 := w[i]], (i - 1) / 2)
  {
    var p := (i - 1) / 2;
    var x := w[i := w[p]][p := w[i]];
    AtMostTotal(w[i], w[p]);
    forall j | 1 <= j < |x| && j != p
      ensures Link(x, j)
    {
      assert j != i ==> Link(w, j);
      if (j - 1) / 2 == p && j != i {
        AtMostTransitive(w[i], w[p], w[j]);
      }
    }
    if p > 0 {
      assert Link(w, p);
      forall j | 2 * p + 1 <= j <= 2 * p + 2 && j < |x|
        ensures AtMost(x[(p - 1) / 2], x[j])
      {
        if j != i {
          assert Link(w, j);
          AtMostTransitive(w[(p - 1) / 2], w[p], w[j]);
        }
      }
    }
  }

  lemma {:induction false} BubbleUpOrders(d: seq<Item>, i: nat, item: Item)
    requires i < |d| && OrderedExcept(d[i := item], i)
    ensures HeapOrdered(BubbleUp(d, i, item))
    decreases i
  {
    var w := d[i := item];
    if i == 0 || AtMost(d[(i - 1) / 2], item) {
      assert i > 0 ==> Link(w, i);
    } else {
      var p := (i - 1) / 2;
      BubbleStepKeepsOrder(w, i);
      assert d[i := d[p]][p := item] == w[i := w[p]][p := w[i]];
      BubbleUpOrders(d[i := d[p]], p, item);
    }
  }

  lemma PushKeepsOrder(d: seq<Item>, v: Item)
    requires HeapOrdered(d)
    ensures HeapOrdered(Push(d, v))
  {
    var e := d + [v];
    assert e[|d| := v] == e;
    forall j | 1 <= j < |e| && j != |d|
      ensures Link(e, j)
    {
      assert Link(d, j);
    }
    BubbleUpOrders(e, |d|, v);
  }

  lemma {:induction false} RootIsLeast(d: seq<Item>, j: nat)
    requires HeapOrdered(d) && j < |d|
    ensures AtMost(d[0], d[j])
  {
    if j == 0 {
      AtMostTotal(d[0], d[0]);
    } else {
      RootIsLeast(d, (j - 1) / 2);
      assert Link(d, j);
      AtMostTransitive(d[0], d[(j - 1) / 2], d[j]);
    }
  }

  // ---------------------------------------------------------------- when pop keeps the order

  /** The array on which `pop` calls `sinkDown`. */
  function BeforeSink(d: seq<Item>): (r: seq<Item>)
    requires |d| > 1
    ensures |r| == |d| - 1 && r[0] == d[|d| - 1]
    ensures forall j {:trigger r[j]} :: 1 <= j < |r| ==> r[j] == d[j]
  {
    d[..|d| - 1][0 := d[|d| - 1]]
  }

  /** The guard: below the child that moves up, nothing is less than the item that sinks. */
  predicate OneLevelIsEnough(d: seq<Item>)
  {
    |d| <= 1 ||
    var w := BeforeSink(d);
    var s := Smallest(w, 0);
    && (s > 0 && 2 * s + 1 < |w| ==> AtMost(w[0], w[2 * s + 1]))
    && (s > 0 && 2 * s + 2 < |w| ==> AtMost(w[0], w[2 * s + 2]))
  }

  /** On an ordered heap the sinking item moves down one level at most. */
  lemma SinkStopsAfterOneLevel(d: seq<Item>)
    requires |d| > 1 && HeapOrdered(d)
    ensures var w := BeforeSink(d);
            var s := Smallest(w, 0);
            Pop(d) == w[0 := w[s]][s := w[0]]
  {
    var w := BeforeSink(d);
    var s := Smallest(w, 0);
    if s > 0 {
      var e := w[0 := w[s]];
      assert 2 * s + 1 < |w| ==> Link(d, 2 * s + 1);
      assert 2 * s + 2 < |w| ==> Link(d, 2 * s + 2);
      assert Smallest(e, s) == s;
      assert SinkDown(e, s, w[0]) == e[s := w[0]];
    } else {
      assert w[0 := w[0]][0 := w[0]] == w[0 := w[0]];
    }
    assert Pop(d) == SinkDown(w, 0, w[0]);
  }

  /** The new root is below both of its children. */
  lemma SmallestIsLeast(w: seq<Item>)
    requires w != []
    ensures var s := Smallest(w, 0);
            && (1 < |w| ==> AtMost(w[s], w[1]))
            && (2 < |w| ==> AtMost(w[s], w[2]))
            && AtMost(w[s], w[0])
  {
    AtMostTotal(w[0], w[0]);
    if 1 < |w| {
      AtMostTotal(w[0], w[1]);
      AtMostTotal(w[1], w[1]);
    }
    if 2 < |w| {
      AtMostTotal(w[2], w[2]);
      AtMostTotal(w[0], w[2]);
      AtMostTotal(w[1], w[2]);
      var l := if Before(w[1], w[0]) then 1 else 0;
      if Before(w[2], w[l]) {
        AtMostTransitive(w[2], w[l], w[0]);
        AtMostTransitive(w[2], w[l], w[1]);
      }
    }
  }

  /** The link of `j` after the root and `s` have been exchanged. */
  lemma LinksAfterPop(d: seq<Item>, j: nat)
    requires |d| > 1 && HeapOrdered(d) && 1 <= j < |d| - 1
    ensures var w := BeforeSink(d);
            var s := Smallest(w, 0);
            Link(Pop(d), j) <==> (s > 0 && (j - 1) / 2 == s ==> AtMost(w[0], w[j]))
  {
    SinkStopsAfterOneLevel(d);
    var w := BeforeSink(d);
    SmallestIsLeast(w);
    assert Link(d, j);
    AtMostTotal(w[0], w[Smallest(w, 0)]);
  }

  /** After a `pop` from an ordered heap the heap is ordered exactly under the guard. */
  lemma PopOrderIff(d: seq<Item>)
    requires HeapOrdered(d) && d != []
    ensures HeapOrdered(Pop(d)) <==> OneLevelIsEnough(d)
  {
    if |d| > 1 {
      var w := BeforeSink(d);
      var s := Smallest(w, 0);
      forall j | 1 <= j < |w|
        ensures Link(Pop(d), j) <==> (s > 0 && (j - 1) / 2 == s ==> AtMost(w[0], w[j]))
      {
        LinksAfterPop(d, j);
      }
      if !OneLevelIsEnough(d) {
        var g := if 2 * s + 1 < |w| && !AtMost(w[0], w[2 * s + 1]) then 2 * s + 1 else 2 * s + 2;
        assert !Link(Pop(d), g);
      }
    }
  }

  /** With at most four items there is no second level to miss. */
  lemma SmallHeapPopKeepsOrder(d: seq<Item>)
    requires HeapOrdered(d) && 0 < |d| <= 4
    ensures HeapOrdered(Pop(d))
  {
    PopOrderIff(d);
  }
}
