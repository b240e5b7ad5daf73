/** How many sources the merge sorts: four, because of the one-level `sinkDown`. */
module MergeLimits {
  import opened Bytes
  import opened Entries
  import opened MinHeap
  import opened MergeIterator

  function E(b: Byte): Entry
  {
    Entry([b], None, 0, 0, 0)
  }

  function I(b: Byte, idx: nat): Item
  {
    Item(E(b), idx)
  }

  lemma OneByteOrder(a: Byte, b: Byte, i: nat, j: nat)
    ensures Before(I(a, i), I(b, j)) <==> a < b || (a == b && i < j)
    ensures Less([a], [b]) <==> a < b
  {
    assert [a][1..] == [] && [b][1..] == [];
    assert Less([a], [b]) <==> a < b;
    var x, y := [a], [b];
    assert x == y ==> x[0] == y[0];
    assert I(a, i).entry.key == x && I(b, j).entry.key == y;
  }

  lemma OneByteOrderAll()
    ensures forall a: Byte, b: Byte, i: nat, j: nat {:trigger I(a, i), I(b, j)} ::
              Before(I(a, i), I(b, j)) <==> a < b || (a == b && i < j)
  {
    forall a: Byte, b: Byte, i: nat, j: nat
      ensures Before(I(a, i), I(b, j)) <==> a < b || (a == b && i < j)
    {
      OneByteOrder(a, b, i, j);
    }
  }

  lemma {:induction false} StartSkipsEmpty(c: Cursor, i: nat)
    requires forall j :: i <= j < |c.rest| ==> c.rest[j] == []
    ensures StartFrom(c, i) == c
    decreases |c.rest| - i
  {
    if i < |c.rest| {
      StartSkipsEmpty(c, i + 1);
    }
  }

  function Empties(n: nat): (r: seq<seq<Entry>>)
    ensures |r| == n && forall j :: 0 <= j < n ==> r[j] == []
  {
    seq(n, _ => [])
  }

  /** Five sorted sources, and any number of empty ones, that come out unsorted. */
  function Witness(n: nat): (r: seq<seq<Entry>>)
    requires 5 <= n
    ensures |r| == n && SortedSources(r)
  {
    OneByteOrder(1, 10, 0, 0);
    [[E(1), E(10)], [E(2)], [E(5)], [E(3)], [E(9)]] + Empties(n - 5)
  }

  lemma WitnessPushes()
    ensures Push([], I(1, 0)) == [I(1, 0)]
    ensures Push([I(1, 0)], I(2, 1)) == [I(1, 0), I(2, 1)]
    ensures Push([I(1, 0), I(2, 1)], I(5, 2)) == [I(1, 0), I(2, 1), I(5, 2)]
    ensures Push([I(1, 0), I(2, 1), I(5, 2)], I(3, 3)) == [I(1, 0), I(2, 1), I(5, 2), I(3, 3)]
    ensures Push([I(1, 0), I(2, 1), I(5, 2), I(3, 3)], I(9, 4)) == [I(1, 0), I(2, 1), I(5, 2), I(3, 3), I(9, 4)]
  {
    OneByteOrderAll();
  }

  /** The heap that the first reads build. */
  lemma WitnessStart(n: nat)
    requires 5 <= n
    ensures Start(Witness(n)) ==
            Cursor([[E(10)], [], [], [], []] + Empties(n - 5), [I(1, 0), I(2, 1), I(5, 2), I(3, 3), I(9, 4)])
  {
    hide Push, Less;
    WitnessPushes();
    var w := Witness(n);
    var pad := Empties(n - 5);
    var c0 := Cursor(w, []);
    var c1 := Advance(c0, 0);
    assert c1 == Cursor([[E(10)], [E(2)], [E(5)], [E(3)], [E(9)]] + pad, [I(1, 0)]);
    assert c1.rest[1][1..] == [] && c1.rest[1 := []] == [[E(10)], [], [E(5)], [E(3)], [E(9)]] + pad;
    var c2 := Advance(c1, 1);
    assert c2 == Cursor([[E(10)], [], [E(5)], [E(3)], [E(9)]] + pad, [I(1, 0), I(2, 1)]);
    assert c2.rest[2][1..] == [] && c2.rest[2 := []] == [[E(10)], [], [], [E(3)], [E(9)]] + pad;
    var c3 := Advance(c2, 2);
    assert c3 == Cursor([[E(10)], [], [], [E(3)], [E(9)]] + pad, [I(1, 0), I(2, 1), I(5, 2)]);
    assert c3.rest[3][1..] == [] && c3.rest[3 := []] == [[E(10)], [], [], [], [E(9)]] + pad;
    var c4 := Advance(c3, 3);
    assert c4 == Cursor([[E(10)], [], [], [], [E(9)]] + pad, [I(1, 0), I(2, 1), I(5, 2), I(3, 3)]);
    assert c4.rest[4][1..] == [] && c4.rest[4 := []] == [[E(10)], [], [], [], []] + pad;
    var c5 := Advance(c4, 4);
    assert c5 == Cursor([[E(10)], [], [], [], []] + pad, [I(1, 0), I(2, 1), I(5, 2), I(3, 3), I(9, 4)]);
    StartSkipsEmpty(c5, 5);
    assert Start(w) == StartFrom(c1, 1) == StartFrom(c2, 2) == StartFrom(c3, 3) == StartFrom(c4, 4) == StartFrom(c5, 5);
  }

  lemma WitnessPops()
    ensures Pop([I(1, 0), I(2, 1), I(5, 2), I(3, 3), I(9, 4)]) == [I(2, 1), I(9, 4), I(5, 2), I(3, 3)]
    ensures Push([I(2, 1), I(9, 4), I(5, 2), I(3, 3)], I(10, 0)) == [I(2, 1), I(9, 4), I(5, 2), I(3, 3), I(10, 0)]
    ensures Pop([I(2, 1), I(9, 4), I(5, 2), I(3, 3), I(10, 0)]) == [I(5, 2), I(9, 4), I(10, 0), I(3, 3)]
    ensures Pop([I(5, 2), I(9, 4), I(10, 0), I(3, 3)]) == [I(3, 3), I(9, 4), I(10, 0)]
  {
    OneByteOrderAll();
    var a := [I(9, 4), I(2, 1), I(5, 2), I(3, 3)];
    assert [I(1, 0), I(2, 1), I(5, 2), I(3, 3), I(9, 4)][..4][0 := I(9, 4)] == a;
    assert Smallest(a, 0) == 1;
    var a1 := [I(2, 1), I(2, 1), I(5, 2), I(3, 3)];
    assert a[0 := a[1]] == a1 && Smallest(a1, 1) == 1;
    assert SinkDown(a, 0, I(9, 4)) == a1[1 := I(9, 4)];
    var b := [I(10, 0), I(9, 4), I(5, 2), I(3, 3)];
    assert [I(2, 1), I(9, 4), I(5, 2), I(3, 3), I(10, 0)][..4][0 := I(10, 0)] == b;
    assert Smallest(b, 0) == 2;
    var b1 := [I(5, 2), I(9, 4), I(5, 2), I(3, 3)];
    assert b[0 := b[2]] == b1 && Smallest(b1, 2) == 2;
    assert SinkDown(b, 0, I(10, 0)) == b1[2 := I(10, 0)];
    var d := [I(3, 3), I(9, 4), I(10, 0)];
    assert [I(5, 2), I(9, 4), I(10, 0), I(3, 3)][..3][0 := I(3, 3)] == d;
    assert Smallest(d, 0) == 0;
  }

  /** A round that drains only the root of the heap. */
  lemma SingleRound(c: Cursor)
    requires c.heap != []
    requires Pop(c.heap) != [] && Pop(c.heap)[0].entry.key != c.heap[0].entry.key
    ensures Round(c) == ([c.heap[0]], Advance(Cursor(c.rest, Pop(c.heap)), c.heap[0].idx))
    ensures Groups(c) == [[c.heap[0]]] + Groups(Round(c).1)
  {
    var d := Cursor(c.rest, Pop(c.heap));
    assert Drain(Pop(c.heap), c.heap[0].entry.key) == ([], Pop(c.heap));
    assert [c.heap[0]] + [] == [c.heap[0]] && [c.heap[0]][1..] == [];
    assert Refill(d, [c.heap[0]]) == Refill(Advance(d, c.heap[0].idx), []);
  }

  /** The first three groups are 1, 2 and 5, and the fourth starts with 3. */
  lemma WitnessRounds(n: nat) returns (c: Cursor)
    requires 5 <= n
    ensures c.heap == [I(3, 3), I(9, 4), I(10, 0)]
    ensures Groups(Start(Witness(n))) == [[I(1, 0)], [I(2, 1)], [I(5, 2)]] + Groups(c)
  {
    hide Round, Groups, Pop, Push, Less, Witness, Start;
    WitnessStart(n);
    WitnessPops();
    var none := [[], [], [], [], []] + Empties(n - 5);
    var c0 := Start(Witness(n));
    SingleRound(c0);
    assert c0.rest[0][1..] == [] && c0.rest[0 := []] == none;
    var c1 := Cursor(none, [I(2, 1), I(9, 4), I(5, 2), I(3, 3), I(10, 0)]);
    assert Round(c0).1 == c1;
    SingleRound(c1);
    var c2 := Cursor(none, [I(5, 2), I(9, 4), I(10, 0), I(3, 3)]);
    assert Round(c1).1 == c2;
    SingleRound(c2);
    c := Cursor(none, [I(3, 3), I(9, 4), I(10, 0)]);
    assert Round(c2).1 == c;
  }

  lemma WitnessUnsorted(n: nat)
    requires 5 <= n
    ensures !KeysIncrease(Groups(Start(Witness(n))))
  {
    var c := WitnessRounds(n);
    var groups := Groups(Start(Witness(n)));
    assert KeyOf(groups[2]) == [5];
    assert groups[3] == Groups(c)[0] == Round(c).0 && KeyOf(groups[3]) == [3];
    OneByteOrder(5, 3, 0, 0);
  }

  /** The generator sorts every choice of `n` sorted sources exactly when `n` is at most four. */
  lemma MergeSortsIffAtMostFour(n: nat)
    ensures (forall sources :: |sources| == n && SortedSources(sources) ==>
               KeysIncrease(Groups(Start(sources)))) <==> n <= 4
  {
    if n <= 4 {
      forall sources | |sources| == n && SortedSources(sources)
        ensures KeysIncrease(Groups(Start(sources)))
      {
        MergeOfFourIsCorrect(sources);
      }
    } else {
      WitnessUnsorted(n);
      var w := Witness(n);
      assert |w| == n && SortedSources(w) && !KeysIncrease(Groups(Start(w)));
    }
  }
}
