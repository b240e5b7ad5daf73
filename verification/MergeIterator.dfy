/** The streaming k-way merge of `libs/storage/merge_iterator.ts`. */
module MergeIterator {
  import opened Bytes
  import opened Entries
  import opened MinHeap

  /** The merge in progress: the unread part of each source, and the heap. */
  datatype Cursor = Cursor(rest: seq<seq<Entry>>, heap: seq<Item>)

  /** What is yielded: the winner, and all same-key items when there is more than one. */
  datatype Merged = Merged(chosen: Item, candidates: seq<Item>)

  // ---------------------------------------------------------------- the merge as a function

  /** Highest revision, later source among equal revisions. */
  function Better(c: Item, s: Item): Item
  {
    if s.entry.rev > c.entry.rev then s
    else if s.entry.rev == c.entry.rev && s.idx > c.idx then s
    else c
  }

  function Choose(same: seq<Item>): (r: Item)
    requires same != []
  {
    if |same| == 1 then same[0] else Better(Choose(same[..|same| - 1]), same[|same| - 1])
  }

  function Emit(same: seq<Item>): Merged
    requires same != []
  {
    Merged(Choose(same), if |same| > 1 then same else [])
  }

  /** Pops everything whose key is `key`. */
  function Drain(heap: seq<Item>, key: Bytes): (r: (seq<Item>, seq<Item>))
    ensures |r.0| + |r.1| == |heap|
    decreases |heap|
  {
    if heap == [] || heap[0].entry.key != key then ([], heap)
    else
      var (same, left) := Drain(Pop(heap), key);
      ([heap[0]] + same, left)
  }

  function Measure(rest: seq<seq<Entry>>): nat
  {
    if rest == [] then 0 else |rest[0]| + Measure(rest[1..])
  }

  lemma {:induction false} MeasureAdvance(rest: seq<seq<Entry>>, i: nat)
    requires i < |rest| && rest[i] != []
    ensures Measure(rest[i := rest[i][1..]]) == Measure(rest) - 1
  {
    var after := rest[i := rest[i][1..]];
    if i == 0 {
      assert after[1..] == rest[1..];
    } else {
      assert after[1..] == rest[1..][i - 1 := rest[i][1..]];
      MeasureAdvance(rest[1..], i - 1);
    }
  }

  /** Reads the next entry of source `i` into the heap, if there is one. */
  function Advance(c: Cursor, i: nat): (r: Cursor)
    ensures |r.rest| == |c.rest|
    ensures Measure(r.rest) + |r.heap| == Measure(c.rest) + |c.heap|
    ensures |r.heap| <= |c.heap| + 1
  {
    if i < |c.rest| && c.rest[i] != [] then
      MeasureAdvance(c.rest, i);
      Cursor(c.rest[i := c.rest[i][1..]], Push(c.heap, Item(c.rest[i][0], i)))
    else c
  }

  /** Advances the source of every drained item. */
  function Refill(c: Cursor, same: seq<Item>): (r: Cursor)
    ensures |r.rest| == |c.rest|
    ensures Measure(r.rest) + |r.heap| == Measure(c.rest) + |c.heap|
    ensures |r.heap| <= |c.heap| + |same|
    decreases |same|
  {
    if same == [] then c else Refill(Advance(c, same[0].idx), same[1..])
  }

  /** One round of the main loop: the drained group and the cursor after it. */
  function Round(c: Cursor): (r: (seq<Item>, Cursor))
    requires c.heap != []
    ensures r.0 != [] && |r.1.rest| == |c.rest| && |r.1.heap| <= |c.heap|
    ensures Measure(r.1.rest) + |r.1.heap| < Measure(c.rest) + |c.heap|
  {
    var (more, left) := Drain(Pop(c.heap), c.heap[0].entry.key);
    var same := [c.heap[0]] + more;
    (same, Refill(Cursor(c.rest, left), same))
  }

  /** The groups of items that the rounds drain, in order. */
  function Groups(c: Cursor): (r: seq<seq<Item>>)
    ensures forall i :: 0 <= i < |r| ==> r[i] != []
    decreases Measure(c.rest) + |c.heap|
  {
    if c.heap == [] then [] else [Round(c).0] + Groups(Round(c).1)
  }

  /** Reads the first entry of every source. */
  function StartFrom(c: Cursor, i: nat): (r: Cursor)
    ensures |r.rest| == |c.rest|
    ensures |r.heap| <= |c.heap| + (if i < |c.rest| then |c.rest| - i else 0)
    decreases |c.rest| - i
  {
    if i >= |c.rest| then c else StartFrom(Advance(c, i), i + 1)
  }

  function Start(sources: seq<seq<Entry>>): Cursor
  {
    StartFrom(Cursor(sources, []), 0)
  }

  function EmitAll(groups: seq<seq<Item>>): (r: seq<Merged>)
    requires forall i :: 0 <= i < |groups| ==> groups[i] != []
    ensures |r| == |groups|
    ensures forall i :: 0 <= i < |r| ==> r[i] == Emit(groups[i])
  {
    if groups == [] then [] else [Emit(groups[0])] + EmitAll(groups[1..])
  }

  function Merge(sources: seq<seq<Entry>>): seq<Merged>
  {
    EmitAll(Groups(Start(sources)))
  }

  // ---------------------------------------------------------------- the generator

  /** Advances one source, as both loops of the generator do. */
  method Next(rest: seq<seq<Entry>>, heap: MinHeap, i: nat) returns (r: seq<seq<Entry>>)
    modifies heap
    ensures Cursor(r, heap.data) == Advance(Cursor(rest, old(heap.data)), i)
  {
    r := rest;
    if i < |rest| && rest[i] != [] {
      heap.PushItem(Item(rest[i][0], i));
      r := rest[i := rest[i][1..]];
    }
  }

  method ChooseBest(same: seq<Item>) returns (chosen: Item)
    requires same != []
    ensures chosen == Choose(same)
  {
    chosen := same[0];
    var i := 0;
    while i < |same|
      invariant 0 <= i <= |same|
      invariant chosen == if i == 0 then same[0] else Choose(same[..i])
    {
      var s := same[i];
      if s.entry.rev > chosen.entry.rev {
        chosen := s;
      } else if s.entry.rev == chosen.entry.rev && s.idx > chosen.idx {
        chosen := s;
      }
      assert same[..i + 1][..i] == same[..i];
      i := i + 1;
    }
    assert same[..i] == same;
  }

  /** The first loop of `kWayMerge`. */
  method LoadAll(sources: seq<seq<Entry>>, heap: MinHeap) returns (rest: seq<seq<Entry>>)
    requires heap.data == []
    modifies heap
    ensures Cursor(rest, heap.data) == Start(sources)
  {
    rest := sources;
    var i := 0;
    while i < |sources|
      invariant i <= |sources| == |rest|
      invariant StartFrom(Cursor(rest, heap.data), i) == Start(sources)
    {
      rest := Next(rest, heap, i);
      i := i + 1;
    }
  }

  /** The loop that refills the heap from every drained source. */
  method RefillAll(unread: seq<seq<Entry>>, heap: MinHeap, same: seq<Item>) returns (rest: seq<seq<Entry>>)
    modifies heap
    ensures Cursor(rest, heap.data) == Refill(Cursor(unread, old(heap.data)), same)
  {
    rest := unread;
    var j := 0;
    while j < |same|
      invariant 0 <= j <= |same|
      invariant Refill(Cursor(rest, heap.data), same[j..]) == Refill(Cursor(unread, old(heap.data)), same)
    {
      rest := Next(rest, heap, same[j].idx);
      j := j + 1;
    }
  }

  /** `kWayMerge`, collecting what it yields. */
  method KWayMerge(sources: seq<seq<Entry>>) returns (out: seq<Merged>)
    ensures out == Merge(sources)
  {
    hide Round, Emit, EmitAll, Start;
    var heap := new MinHeap();
    var rest := LoadAll(sources, heap);
    out := [];
    while |heap.data| > 0
      invariant out + EmitAll(Groups(Cursor(rest, heap.data))) == Merge(sources)
      decreases Measure(rest) + |heap.data|
    {
      EmitRound(Cursor(rest, heap.data));
      var yielded;
      rest, yielded := MergeRound(rest, heap);
      out := out + [yielded];
    }
  }

  lemma EmitRound(c: Cursor)
    requires c.heap != []
    ensures EmitAll(Groups(c)) == [Emit(Round(c).0)] + EmitAll(Groups(Round(c).1))
  {
    hide Round, Emit;
    assert Groups(c) == [Round(c).0] + Groups(Round(c).1);
  }

  /** The body of the main loop. */
  method MergeRound(unread: seq<seq<Entry>>, heap: MinHeap) returns (rest: seq<seq<Entry>>, yielded: Merged)
    requires heap.data != []
    modifies heap
    ensures var (same, next) := Round(Cursor(unread, old(heap.data)));
            yielded == Emit(same) && Cursor(rest, heap.data) == next
  {
    hide Pop, Drain, Refill, Emit;
    var same;
    same, yielded := DrainGroup(heap);
    rest := RefillAll(unread, heap, same);
  }

  method DrainGroup(heap: MinHeap) returns (same: seq<Item>, yielded: Merged)
    requires heap.data != []
    modifies heap
    ensures var (more, left) := Drain(Pop(old(heap.data)), old(heap.data)[0].entry.key);
            && same == [old(heap.data)[0]] + more
            && heap.data == left
            && yielded == Emit(same)
  {
    hide Pop, Choose;
    var head := heap.PopItem();
    var key := head.value.entry.key;
    same := [head.value];
    while |heap.data| > 0 && heap.data[0].entry.key == key
      invariant same != []
      invariant same + Drain(heap.data, key).0 ==
                [old(heap.data)[0]] + Drain(Pop(old(heap.data)), key).0
      invariant Drain(heap.data, key).1 == Drain(Pop(old(heap.data)), key).1
      decreases |heap.data|
    {
      var s := heap.PopItem();
      same := same + [s.value];
    }
    var chosen := ChooseBest(same);
    yielded := Merged(chosen, if |same| > 1 then same else []);
  }

  // ---------------------------------------------------------------- the winner of a group

  lemma {:induction false} ChooseIsBest(same: seq<Item>)
    requires same != []
    ensures Choose(same) in same
    ensures forall s :: s in same ==>
              s.entry.rev < Choose(same).entry.rev ||
              (s.entry.rev == Choose(same).entry.rev && s.idx <= Choose(same).idx)
  {
    if |same| > 1 {
      ChooseIsBest(same[..|same| - 1]);
      assert same == same[..|same| - 1] + [same[|same| - 1]];
    }
  }

  // ---------------------------------------------------------------- nothing lost, nothing invented

  /** Still to be merged: in the heap, or unread in its source. */
  ghost predicate Pending(c: Cursor, it: Item)
  {
    it in c.heap || (it.idx < |c.rest| && it.entry in c.rest[it.idx])
  }

  lemma PopMembers(d: seq<Item>)
    requires d != []
    ensures forall x :: x in d <==> x == d[0] || x in Pop(d)
  {
    PushPopPermute(d, d[0]);
    forall x
      ensures x in d <==> x == d[0] || x in Pop(d)
    {
      assert x in d <==> x in multiset(d);
      assert x in Pop(d) <==> x in multiset(Pop(d));
      assert multiset(d) == multiset(Pop(d)) + multiset{d[0]};
    }
  }

  lemma PushMembers(d: seq<Item>, v: Item)
    ensures forall x :: x in Push(d, v) <==> x == v || x in d
  {
    PushPopPermute(d, v);
    forall x
      ensures x in Push(d, v) <==> x == v || x in d
    {
      assert x in d <==> x in multiset(d);
      assert x in Push(d, v) <==> x in multiset(Push(d, v));
    }
  }

  lemma {:induction false} DrainMembers(heap: seq<Item>, key: Bytes)
    ensures forall x :: x in heap <==> x in Drain(heap, key).0 || x in Drain(heap, key).1
    ensures forall x :: x in Drain(heap, key).0 ==> x.entry.key == key
    decreases |heap|
  {
    if heap != [] && heap[0].entry.key == key {
      PopMembers(heap);
      DrainMembers(Pop(heap), key);
    }
  }

  lemma AdvancePending(c: Cursor, i: nat)
    ensures forall it :: Pending(Advance(c, i), it) <==> Pending(c, it)
  {
    if i < |c.rest| && c.rest[i] != [] {
      PushMembers(c.heap, Item(c.rest[i][0], i));
      var d := Advance(c, i);
      forall it
        ensures Pending(d, it) <==> Pending(c, it)
      {
        assert c.rest[i] == [c.rest[i][0]] + d.rest[i];
        if it.idx == i {
          assert it.entry in c.rest[i] <==> it.entry == c.rest[i][0] || it.entry in d.rest[i];
        }
      }
    }
  }

  lemma {:induction false} RefillPending(c: Cursor, same: seq<Item>)
    ensures forall it :: Pending(Refill(c, same), it) <==> Pending(c, it)
    decreases |same|
  {
    if same != [] {
      AdvancePending(c, same[0].idx);
      RefillPending(Advance(c, same[0].idx), same[1..]);
    }
  }

  lemma RoundPending(c: Cursor)
    requires c.heap != []
    ensures forall it :: Pending(c, it) <==> it in Round(c).0 || Pending(Round(c).1, it)
    ensures forall x :: x in Round(c).0 ==> x.entry.key == c.heap[0].entry.key
  {
    var (more, left) := Drain(Pop(c.heap), c.heap[0].entry.key);
    PopMembers(c.heap);
    DrainMembers(Pop(c.heap), c.heap[0].entry.key);
    RefillPending(Cursor(c.rest, left), Round(c).0);
  }

  /** Every source below `n` with unread entries has an item in the heap or in `todo`. */
  ghost predicate Loaded(c: Cursor, todo: seq<Item>, n: nat)
  {
    forall i :: 0 <= i < n && i < |c.rest| && c.rest[i] != [] ==> HasItemOf(c.heap + todo, i)
  }

  ghost predicate HasItemOf(items: seq<Item>, i: nat)
  {
    exists x :: x in items && x.idx == i
  }

  lemma AdvanceLoads(c: Cursor, i: nat, todo: seq<Item>, n: nat)
    requires Loaded(c, todo, n)
    ensures forall j :: 0 <= j < n && j < |c.rest| && Advance(c, i).rest[j] != [] && j != i ==>
              HasItemOf(Advance(c, i).heap + todo, j)
    ensures i < |c.rest| && Advance(c, i).rest[i] != [] ==> HasItemOf(Advance(c, i).heap, i)
  {
    var d := Advance(c, i);
    if i < |c.rest| && c.rest[i] != [] {
      var v := Item(c.rest[i][0], i);
      PushMembers(c.heap, v);
      assert v in d.heap;
    }
    forall j | 0 <= j < n && j < |c.rest| && d.rest[j] != [] && j != i
      ensures HasItemOf(d.heap + todo, j)
    {
      assert HasItemOf(c.heap + todo, j);
      var x :| x in c.heap + todo && x.idx == j;
      assert x in d.heap + todo;
    }
  }

  lemma {:induction false} RefillLoads(c: Cursor, same: seq<Item>)
    requires Loaded(c, same, |c.rest|)
    ensures Loaded(Refill(c, same), [], |c.rest|)
    decreases |same|
  {
    if same != [] {
      var d := Advance(c, same[0].idx);
      AdvanceLoads(c, same[0].idx, same, |c.rest|);
      forall j | 0 <= j < |c.rest| && d.rest[j] != []
        ensures HasItemOf(d.heap + same[1..], j)
      {
        if j == same[0].idx {
          var x :| x in d.heap && x.idx == j;
          assert x in d.heap + same[1..];
        } else {
          var x :| x in d.heap + same && x.idx == j;
          assert same == [same[0]] + same[1..];
          assert x in d.heap + same[1..];
        }
      }
      RefillLoads(d, same[1..]);
    }
  }

  lemma RoundLoads(c: Cursor)
    requires c.heap != [] && Loaded(c, [], |c.rest|)
    ensures Loaded(Round(c).1, [], |c.rest|)
  {
    var (more, left) := Drain(Pop(c.heap), c.heap[0].entry.key);
    var same := [c.heap[0]] + more;
    PopMembers(c.heap);
    DrainMembers(Pop(c.heap), c.heap[0].entry.key);
    forall j | 0 <= j < |c.rest| && c.rest[j] != []
      ensures HasItemOf(left + same, j)
    {
      assert HasItemOf(c.heap + [], j);
      var x :| x in c.heap + [] && x.idx == j;
      assert x in left + same;
    }
    RefillLoads(Cursor(c.rest, left), same);
  }

  lemma {:induction false} StartLoads(c: Cursor, i: nat)
    requires Loaded(c, [], i)
    ensures Loaded(StartFrom(c, i), [], |c.rest|)
    ensures forall it :: Pending(StartFrom(c, i), it) <==> Pending(c, it)
    decreases |c.rest| - i
  {
    if i < |c.rest| {
      var d := Advance(c, i);
      AdvanceLoads(c, i, [], i);
      AdvancePending(c, i);
      assert d.heap + [] == d.heap;
      StartLoads(d, i + 1);
    }
  }

  /** All items of a group share one key. */
  ghost predicate OneKey(g: seq<Item>)
  {
    forall x, y :: x in g && y in g ==> x.entry.key == y.entry.key
  }

  ghost predicate InSome(groups: seq<seq<Item>>, it: Item)
  {
    exists i :: 0 <= i < |groups| && it in groups[i]
  }

  lemma InSomeCons(g: seq<Item>, groups: seq<seq<Item>>)
    ensures forall it :: InSome([g] + groups, it) <==> it in g || InSome(groups, it)
  {
    var all := [g] + groups;
    assert all[0] == g && forall i :: 0 <= i < |groups| ==> all[i + 1] == groups[i];
    forall it
      ensures InSome(all, it) <==> it in g || InSome(groups, it)
    {
      if it in g {
        assert it in all[0];
      }
      if InSome(groups, it) {
        var i :| 0 <= i < |groups| && it in groups[i];
        assert it in all[i + 1];
      }
      if InSome(all, it) && it !in g {
        var i :| 0 <= i < |all| && it in all[i];
        assert it in groups[i - 1];
      }
    }
  }

  lemma NothingPending(c: Cursor)
    requires Loaded(c, [], |c.rest|) && c.heap == []
    ensures forall it :: !Pending(c, it)
  {
    forall it
      ensures !Pending(c, it)
    {
      if Pending(c, it) {
        assert HasItemOf(c.heap + [], it.idx);
      }
    }
  }

  lemma {:induction false} GroupsCover(c: Cursor)
    requires Loaded(c, [], |c.rest|)
    ensures forall it :: Pending(c, it) <==> InSome(Groups(c), it)
    ensures forall i :: 0 <= i < |Groups(c)| ==> OneKey(Groups(c)[i])
    decreases Measure(c.rest) + |c.heap|
  {
    hide Pending, InSome, Loaded, Round;
    if c.heap == [] {
      NothingPending(c);
      NothingInNone();
    } else {
      RoundPending(c);
      RoundLoads(c);
      var (same, next) := Round(c);
      GroupsCover(next);
      InSomeCons(same, Groups(next));
    }
  }

  lemma NothingInNone()
    ensures forall it :: !InSome([], it)
  {
  }

  /** The entry of source `idx`. */
  ghost predicate FromSource(sources: seq<seq<Entry>>, it: Item)
  {
    it.idx < |sources| && it.entry in sources[it.idx]
  }

  /** For any number of sources, sorted or not, and although the heap may lose its order:
      the groups hold exactly the entries of the sources, and each group is about one key. */
  lemma MergeLosesNothing(sources: seq<seq<Entry>>)
    ensures forall it :: FromSource(sources, it) <==> InSome(Groups(Start(sources)), it)
    ensures forall i :: 0 <= i < |Groups(Start(sources))| ==> OneKey(Groups(Start(sources))[i])
  {
    var c := Cursor(sources, []);
    StartLoads(c, 0);
    GroupsCover(Start(sources));
    assert forall it :: FromSource(sources, it) <==> Pending(c, it);
  }

  // ---------------------------------------------------------------- order, for at most four sources

  /** The items of the heap and of `todo` are ahead of what their sources still hold. */
  ghost predicate Ahead(c: Cursor, items: seq<Item>)
  {
    forall x, e :: x in items && x.idx < |c.rest| && e in c.rest[x.idx] ==> Less(x.entry.key, e.key)
  }

  ghost predicate SortedSources(rest: seq<seq<Entry>>)
  {
    forall i :: 0 <= i < |rest| ==> StrictlySorted(rest[i])
  }

  ghost predicate Ready(c: Cursor, todo: seq<Item>)
  {
    HeapOrdered(c.heap) && SortedSources(c.rest) && Ahead(c, c.heap) && Ahead(c, todo)
  }

  ghost predicate Above(key: Bytes, items: seq<Item>)
  {
    forall x :: x in items ==> Less(key, x.entry.key)
  }

  lemma AdvanceReady(c: Cursor, i: nat, todo: seq<Item>)
    requires Ready(c, todo)
    ensures Ready(Advance(c, i), todo)
  {
    if i < |c.rest| && c.rest[i] != [] {
      var d := Advance(c, i);
      var v := Item(c.rest[i][0], i);
      PushKeepsOrder(c.heap, v);
      PushMembers(c.heap, v);
      forall j | 0 <= j < |d.rest|
        ensures StrictlySorted(d.rest[j])
      {
        assert StrictlySorted(c.rest[j]);
      }
      assert StrictlySorted(c.rest[i]);
      forall x, e | (x in d.heap || x in todo) && x.idx < |d.rest| && e in d.rest[x.idx]
        ensures Less(x.entry.key, e.key)
      {
        assert e in c.rest[x.idx];
        if x == v {
          var k :| 0 <= k < |d.rest[i]| && d.rest[i][k] == e;
          assert e == c.rest[i][k + 1];
        }
      }
    }
  }

  lemma AdvanceAbove(c: Cursor, s: Item, key: Bytes)
    requires Ahead(c, [s]) && s.entry.key == key && Above(key, c.heap)
    ensures Above(key, Advance(c, s.idx).heap)
  {
    if s.idx < |c.rest| && c.rest[s.idx] != [] {
      PushMembers(c.heap, Item(c.rest[s.idx][0], s.idx));
      assert s in [s] && c.rest[s.idx][0] in c.rest[s.idx];
    }
  }

  lemma {:induction false} RefillReady(c: Cursor, same: seq<Item>, key: Bytes)
    requires Ready(c, same) && Above(key, c.heap)
    requires forall s :: s in same ==> s.entry.key == key
    ensures Ready(Refill(c, same), []) && Above(key, Refill(c, same).heap)
    decreases |same|
  {
    if same != [] {
      assert forall s :: s in same[1..] ==> s in same;
      assert same[0] in same;
      assert Ahead(c, [same[0]]) && Ahead(c, same[1..]);
      AdvanceReady(c, same[0].idx, same[1..]);
      AdvanceAbove(c, same[0], key);
      RefillReady(Advance(c, same[0].idx), same[1..], key);
    }
  }

  lemma LeastAbove(heap: seq<Item>, key: Bytes)
    requires HeapOrdered(heap) && heap != []
    requires heap[0].entry.key != key
    requires forall x :: x in heap ==> x.entry.key == key || Less(key, x.entry.key)
    ensures Above(key, heap)
  {
    forall x | x in heap
      ensures Less(key, x.entry.key)
    {
      var j :| 0 <= j < |heap| && heap[j] == x;
      RootIsLeast(heap, j);
      assert heap[0] in heap;
      LessConnected(heap[0].entry.key, x.entry.key);
      if Less(heap[0].entry.key, x.entry.key) {
        LessTransitive(key, heap[0].entry.key, x.entry.key);
      }
    }
  }

  lemma {:induction false} DrainReady(heap: seq<Item>, key: Bytes)
    requires HeapOrdered(heap) && |heap| <= 4
    requires forall x :: x in heap ==> x.entry.key == key || Less(key, x.entry.key)
    ensures HeapOrdered(Drain(heap, key).1) && Above(key, Drain(heap, key).1)
    decreases |heap|
  {
    if heap != [] {
      if heap[0].entry.key != key {
        LeastAbove(heap, key);
      } else {
        PopMembers(heap);
        SmallHeapPopKeepsOrder(heap);
        DrainReady(Pop(heap), key);
      }
    }
  }

  lemma RoundReady(c: Cursor)
    requires Ready(c, []) && c.heap != [] && |c.heap| <= 4
    ensures Ready(Round(c).1, []) && Above(c.heap[0].entry.key, Round(c).1.heap)
  {
    var key := c.heap[0].entry.key;
    var popped := Pop(c.heap);
    PopMembers(c.heap);
    SmallHeapPopKeepsOrder(c.heap);
    forall x | x in popped
      ensures x.entry.key == key || Less(key, x.entry.key)
    {
      var j :| 0 <= j < |c.heap| && c.heap[j] == x;
      RootIsLeast(c.heap, j);
      LessConnected(key, x.entry.key);
    }
    DrainReady(popped, key);
    DrainMembers(popped, key);
    var (more, left) := Drain(popped, key);
    var same := [c.heap[0]] + more;
    assert forall x :: x in same || x in left ==> x in c.heap;
    RefillReady(Cursor(c.rest, left), same, key);
  }

  lemma {:induction false} StartReady(c: Cursor, i: nat)
    requires Ready(c, [])
    ensures Ready(StartFrom(c, i), [])
    decreases |c.rest| - i
  {
    if i < |c.rest| {
      AdvanceReady(c, i, []);
      StartReady(Advance(c, i), i + 1);
    }
  }

  /** Whatever is still pending is above the bound. */
  lemma PendingAbove(c: Cursor, key: Bytes, it: Item)
    requires Ready(c, []) && Loaded(c, [], |c.rest|) && Above(key, c.heap) && Pending(c, it)
    ensures Less(key, it.entry.key)
  {
    if it !in c.heap {
      assert HasItemOf(c.heap + [], it.idx);
      var x :| x in c.heap + [] && x.idx == it.idx;
      assert x in c.heap;
      LessTransitive(key, x.entry.key, it.entry.key);
    }
  }

  function KeyOf(g: seq<Item>): Bytes
    requires g != []
  {
    g[0].entry.key
  }

  ghost predicate KeysIncrease(groups: seq<seq<Item>>)
    requires forall i :: 0 <= i < |groups| ==> groups[i] != []
  {
    forall i, j :: 0 <= i < j < |groups| ==> Less(KeyOf(groups[i]), KeyOf(groups[j]))
  }

  lemma {:induction false} GroupsIncrease(c: Cursor)
    requires Ready(c, []) && Loaded(c, [], |c.rest|) && |c.heap| <= 4
    ensures KeysIncrease(Groups(c))
    decreases Measure(c.rest) + |c.heap|
  {
    if c.heap != [] {
      var (same, next) := Round(c);
      RoundReady(c);
      RoundLoads(c);
      GroupsIncrease(next);
      GroupsCover(next);
      forall j | 0 <= j < |Groups(next)|
        ensures Less(KeyOf(same), KeyOf(Groups(next)[j]))
      {
        var it := Groups(next)[j][0];
        assert it in Groups(next)[j];
        assert InSome(Groups(next), it);
        PendingAbove(next, KeyOf(same), it);
      }
      var groups := Groups(c);
      assert forall j :: 0 < j < |groups| ==> groups[j] == Groups(next)[j - 1];
    }
  }

  /** Up to four strictly sorted sources: every key comes exactly once, in increasing order,
      and its group holds all entries of that key. */
  lemma MergeOfFourIsCorrect(sources: seq<seq<Entry>>)
    requires SortedSources(sources) && |sources| <= 4
    ensures KeysIncrease(Groups(Start(sources)))
    ensures forall i, it :: 0 <= i < |Groups(Start(sources))| ==>
              (it in Groups(Start(sources))[i] <==>
               FromSource(sources, it) && it.entry.key == KeyOf(Groups(Start(sources))[i]))
  {
    hide Groups, FromSource, Less, StartFrom, KeysIncrease;
    var c := Cursor(sources, []);
    var groups := Groups(Start(sources));
    StartReady(c, 0);
    StartLoads(c, 0);
    GroupsIncrease(Start(sources));
    MergeLosesNothing(sources);
    forall i, it | 0 <= i < |groups|
      ensures it in groups[i] <==> FromSource(sources, it) && it.entry.key == KeyOf(groups[i])
    {
      assert groups[i][0] in groups[i] && OneKey(groups[i]);
      if it in groups[i] {
        assert InSome(groups, it);
      } else if FromSource(sources, it) && it.entry.key == KeyOf(groups[i]) {
        assert InSome(groups, it);
        var j :| 0 <= j < |groups| && it in groups[j];
        assert groups[j][0] in groups[j] && OneKey(groups[j]);
        SameKeySameGroup(groups, i, j);
      }
    }
  }

  lemma SameKeySameGroup(groups: seq<seq<Item>>, i: nat, j: nat)
    requires (forall g :: 0 <= g < |groups| ==> groups[g] != []) && KeysIncrease(groups)
    requires i < |groups| && j < |groups| && KeyOf(groups[i]) == KeyOf(groups[j])
    ensures i == j
  {
    LessIrreflexive(KeyOf(groups[i]));
  }

  /** The same said of what is yielded: the entry of highest revision, the later source among
      equal revisions, and as candidates all entries of a key that has several. */
  lemma MergeYieldsNewestOnce(sources: seq<seq<Entry>>)
    requires SortedSources(sources) && |sources| <= 4
    ensures forall i, j :: 0 <= i < j < |Merge(sources)| ==>
              Less(Merge(sources)[i].chosen.entry.key, Merge(sources)[j].chosen.entry.key)
    ensures forall it :: FromSource(sources, it) ==>
              exists i :: 0 <= i < |Merge(sources)| && Merge(sources)[i].chosen.entry.key == it.entry.key
    ensures forall m :: m in Merge(sources) ==> IsWinner(m.chosen, sources) && AreRivals(m, sources)
  {
    hide Groups, Start, Choose, FromSource, Less;
    MergeOfFourIsCorrect(sources);
    MergeLosesNothing(sources);
    var groups := Groups(Start(sources));
    var ms := Merge(sources);
    forall i | 0 <= i < |ms|
      ensures ms[i].chosen.entry.key == KeyOf(groups[i])
      ensures IsWinner(ms[i].chosen, sources) && AreRivals(ms[i], sources)
    {
      ChooseIsBest(groups[i]);
      assert ms[i] == Emit(groups[i]);
      RivalsOf(groups[i], sources);
    }
    forall it | FromSource(sources, it)
      ensures exists i :: 0 <= i < |ms| && ms[i].chosen.entry.key == it.entry.key
    {
      assert InSome(groups, it);
      var i :| 0 <= i < |groups| && it in groups[i];
      assert ms[i].chosen.entry.key == KeyOf(groups[i]);
    }
  }

  /** No entry of the key has a higher revision, and none of that revision a later source. */
  ghost predicate IsWinner(w: Item, sources: seq<seq<Entry>>)
  {
    && FromSource(sources, w)
    && forall it :: FromSource(sources, it) && it.entry.key == w.entry.key ==>
         it.entry.rev < w.entry.rev || (it.entry.rev == w.entry.rev && it.idx <= w.idx)
  }

  /** The candidates are all entries of the key, or none if it has only one. */
  ghost predicate AreRivals(m: Merged, sources: seq<seq<Entry>>)
  {
    if m.candidates == [] then
      forall it :: FromSource(sources, it) && it.entry.key == m.chosen.entry.key ==> it == m.chosen
    else
      forall it :: it in m.candidates <==> FromSource(sources, it) && it.entry.key == m.chosen.entry.key
  }

  lemma RivalsOf(g: seq<Item>, sources: seq<seq<Entry>>)
    requires g != [] && forall it :: it in g <==> FromSource(sources, it) && it.entry.key == KeyOf(g)
    ensures IsWinner(Choose(g), sources) && AreRivals(Emit(g), sources)
  {
    hide FromSource;
    ChooseIsBest(g);
    if |g| == 1 {
      assert g == [g[0]];
    }
  }
}
