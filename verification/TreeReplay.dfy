/** The write path and the memtable's tree together: when the tree that replay builds from the
    log answers every lookup like the live tree, which got the same operations in the order in
    which the calls applied them. */
module TreeReplay {
  import opened Bytes
  import opened WriteModel
  import opened WriteLocks
  import opened WriteReplay
  import opened WriteCas
  import opened MemTree
  import opened MemOrder

  function OpOf(l: Logged): MemOp
  {
    if l.value.Some? then PutOp(l.key, MemValue(l.value, l.rev)) else DeleteOp(l.key, l.rev)
  }

  function TreeOps(ls: seq<Logged>): (r: seq<MemOp>)
    ensures |r| == |ls| && forall i :: 0 <= i < |r| ==> r[i] == OpOf(ls[i])
  {
    seq(|ls|, i requires 0 <= i < |ls| => OpOf(ls[i]))
  }

  /** The memtable after these operations. */
  function TreeOf(ls: seq<Logged>): (t: Tree)
    ensures Avl(t)
  {
    RunOps(Leaf, TreeOps(ls))
  }

  /** The guard: no deletion but the last operation hits a node with two children. */
  predicate Unshadowed(t: Tree, ops: seq<MemOp>)
    requires Avl(t)
    decreases |ops|
  {
    |ops| <= 1 ||
    ((ops[0].DeleteOp? ==> !TwoChild(t, ops[0].key)) && Unshadowed(StepOp(t, ops[0]), ops[1..]))
  }

  // ---------------------------------------------------------------- the tree follows the map

  lemma StepFollows(t: Tree, m: Mem, l: Logged)
    requires Avl(t) && Strict(InOrder(t)) && Represents(t, m)
    ensures Represents(StepOp(t, OpOf(l)), ApplyOne(m, l))
    ensures (OpOf(l).DeleteOp? && TwoChild(t, l.key)) || Strict(InOrder(StepOp(t, OpOf(l))))
  {
    hide InOrder, Insert, Delete, Avl, Strict, Represents, TwoChild;
    if l.value.Some? {
      PutRefinesMap(t, m, l.key, MemValue(l.value, l.rev));
    } else {
      DeleteRefinesMap(t, m, l.key, l.rev);
      assert Logged(l.key, None, l.rev) == l;
    }
  }

  /** The tree answers every lookup like the map, after whatever operation comes next. */
  ghost predicate Safe(t: Tree, m: Mem)
    requires Avl(t)
  {
    Represents(t, m) && forall l: Logged :: Represents(StepOp(t, OpOf(l)), ApplyOne(m, l))
  }

  /** Before each operation of the run the tree is safe. */
  ghost predicate SafeRun(t: Tree, m: Mem, ls: seq<Logged>)
    requires Avl(t)
    decreases |ls|
  {
    ls != [] ==> Safe(t, m) && SafeRun(StepOp(t, OpOf(ls[0])), ApplyOne(m, ls[0]), ls[1..])
  }

  lemma TwiceCounts(s: seq<KV>, i: nat, j: nat)
    requires i < j < |s| && s[i].key == s[j].key
    ensures Count(s, s[i].key) >= 2
  {
    hide Count;
    var k := s[i].key;
    assert s == s[..j] + [s[j]] + s[j + 1..];
    CountParts(s[..j], s[j], s[j + 1..], k);
    CountNone(s[..j], k);
    assert s[..j][i].key == k;
  }

  /** In weak order, two entries that are not in strict order have the same key. */
  lemma WeakNotStrict(s: seq<KV>) returns (i: nat, j: nat)
    requires Weak(s) && !Strict(s)
    ensures i < j < |s| && s[i].key == s[j].key
  {
    i, j :| 0 <= i < j < |s| && !Less(s[i].key, s[j].key);
    LessConnected(s[i].key, s[j].key);
  }

  /** Whatever run led to a tree that answers like the map: it goes on doing so after every
      possible next operation exactly if no key stands in it twice. */
  lemma SafeIffStrict(t: Tree, m: Mem)
    requires Avl(t) && Weak(InOrder(t)) && Represents(t, m)
    ensures Safe(t, m) <==> Strict(InOrder(t))
  {
    hide InOrder, Insert, Delete, Remove, Avl, Weak, Strict, Represents, Get, StepOp, ApplyOne, Count;
    if Strict(InOrder(t)) {
      forall l: Logged
        ensures Represents(StepOp(t, OpOf(l)), ApplyOne(m, l))
      {
        StepFollows(t, m, l);
      }
    } else {
      var i, j := WeakNotStrict(InOrder(t));
      TwiceCounts(InOrder(t), i, j);
      TwiceIsUnsafe(t, m, InOrder(t)[i].key);
    }
  }

  /** The deletion of a key that stands twice leaves an old value to be found. */
  lemma TwiceIsUnsafe(t: Tree, m: Mem, k: Bytes)
    requires Avl(t) && Weak(InOrder(t)) && Represents(t, m) && Count(InOrder(t), k) >= 2
    ensures !Represents(StepOp(t, OpOf(Logged(k, None, 0))), ApplyOne(m, Logged(k, None, 0)))
  {
    hide InOrder, Insert, Delete, Remove, Avl, Weak, Get, Count;
    DeleteWorksIff(t, k, 0);
    IsDelete(t, k, 0);
    var i := GetFinds(t, k);
    CountNone(InOrder(t), k);
    assert Get(t, k) == Cell(m, k);
    var l := Logged(k, None, 0);
    assert Cell(ApplyOne(m, l), k) == None && OpOf(l) == DeleteOp(k, 0);
    assert Get(StepOp(t, OpOf(l)), k) != Cell(ApplyOne(m, l), k);
  }

  lemma StepKeepsGuard(t: Tree, m: Mem, l: Logged)
    requires Avl(t) && Strict(InOrder(t)) && Represents(t, m)
    ensures var n := StepOp(t, OpOf(l));
            && Weak(InOrder(n)) && Represents(n, ApplyOne(m, l))
            && (Strict(InOrder(n)) <==> !(OpOf(l).DeleteOp? && TwoChild(t, l.key)))
  {
    hide InOrder, Insert, Delete, Avl, Strict, Weak, Represents, TwoChild, ApplyOne;
    StrictIsWeak(InOrder(t));
    StepFollows(t, m, l);
    StepKeepsWeak(t, OpOf(l));
    if OpOf(l).DeleteOp? {
      DeleteRefinesMap(t, m, l.key, l.rev);
    }
  }

  /** The exact condition for a run: the tree is safe before each of its operations if and only
      if no deletion but the last operation hits a node with two children. */
  lemma {:induction false} SafeRunIff(t: Tree, m: Mem, ls: seq<Logged>)
    requires Avl(t) && Strict(InOrder(t)) && Represents(t, m)
    ensures SafeRun(t, m, ls) <==> Unshadowed(t, TreeOps(ls))
    decreases |ls|
  {
    hide InOrder, Avl, Strict, Weak, Represents, TwoChild, StepOp, ApplyOne, Safe;
    if ls != [] {
      var n, m' := StepOp(t, OpOf(ls[0])), ApplyOne(m, ls[0]);
      assert TreeOps(ls)[1..] == TreeOps(ls[1..]);
      StrictIsWeak(InOrder(t));
      SafeIffStrict(t, m);
      StepKeepsGuard(t, m, ls[0]);
      if Strict(InOrder(n)) {
        SafeRunIff(n, m', ls[1..]);
      } else {
        SafeIffStrict(n, m');
      }
    }
  }

  /** A safe run ends with a tree that answers like the map. */
  lemma {:induction false} SafeRunFollows(t: Tree, m: Mem, ls: seq<Logged>)
    requires Avl(t) && Represents(t, m) && SafeRun(t, m, ls)
    ensures Represents(RunOps(t, TreeOps(ls)), ApplyAll(m, ls))
    decreases |ls|
  {
    hide Avl, Represents, StepOp, ApplyOne;
    if ls != [] {
      assert TreeOps(ls)[1..] == TreeOps(ls[1..]);
      SafeRunFollows(StepOp(t, OpOf(ls[0])), ApplyOne(m, ls[0]), ls[1..]);
    }
  }

  lemma TreeIsMap(ls: seq<Logged>)
    requires Unshadowed(Leaf, TreeOps(ls))
    ensures Represents(TreeOf(ls), ApplyAll(map[], ls))
  {
    EmptyIsMap();
    SafeRunIff(Leaf, map[], ls);
    SafeRunFollows(Leaf, map[], ls);
  }

  // ---------------------------------------------------------------- log order

  /** What replay applies. */
  function WithKey(ls: seq<Logged>): seq<Logged>
  {
    if ls == [] then [] else (if ls[0].key == [] then [] else [ls[0]]) + WithKey(ls[1..])
  }

  lemma {:induction false} ReplayApplies(r: Replayed, ls: seq<Logged>)
    ensures ReplayOps(r, ls).mem == ApplyAll(r.mem, WithKey(ls))
    decreases |ls|
  {
    hide ApplyOne;
    if ls != [] {
      ReplayApplies(ReplayOp(r, ls[0]), ls[1..]);
      if ls[0].key != [] {
        assert WithKey(ls)[1..] == WithKey(ls[1..]);
      } else {
        assert [] + WithKey(ls[1..]) == WithKey(ls[1..]);
      }
    }
  }

  // ---------------------------------------------------------------- the order of the calls

  /** The operations of a run in the order in which the memtable got them. */
  function Applied(s: State, actions: seq<Action>): seq<Logged>
    requires Run(s, actions).Some?
    decreases |actions|
  {
    if actions == [] then []
    else
      (if actions[0].Apply? then OpsInFlight(s.ops[actions[0].o]) else []) +
      Applied(Step(s, actions[0]).value, actions[1..])
  }

  lemma {:induction false} ApplyAllConcat(m: Mem, a: seq<Logged>, b: seq<Logged>)
    ensures ApplyAll(m, a + b) == ApplyAll(ApplyAll(m, a), b)
    decreases |a|
  {
    if a == [] {
      assert a + b == b;
    } else {
      assert (a + b)[1..] == a[1..] + b;
      ApplyAllConcat(ApplyOne(m, a[0]), a[1..], b);
    }
  }

  lemma StepApplies(s: State, a: Action)
    requires Step(s, a).Some?
    ensures Step(s, a).value.mem == ApplyAll(s.mem, if a.Apply? then OpsInFlight(s.ops[a.o]) else [])
  {
    hide LockKeys, UnlockAll, StampAll, WritesOf, CurrentRev, RecordOf;
    assert ApplyAll(s.mem, []) == s.mem;
    if a.Submit? {
      SubmitShape(s, a.req, []);
    }
  }

  lemma {:induction false} MemIsApplied(s: State, actions: seq<Action>)
    requires Run(s, actions).Some?
    ensures Run(s, actions).value.mem == ApplyAll(s.mem, Applied(s, actions))
    decreases |actions|
  {
    hide ApplyAll, Step, OpsInFlight;
    if actions == [] {
      NothingApplied(s.mem);
    } else {
      ItsCall(s, actions[0]);
      var here := if actions[0].Apply? then OpsInFlight(s.ops[actions[0].o]) else [];
      var t := Step(s, actions[0]).value;
      StepApplies(s, actions[0]);
      MemIsApplied(t, actions[1..]);
      ApplyAllConcat(s.mem, here, Applied(t, actions[1..]));
    }
  }

  lemma ItsCall(s: State, a: Action)
    requires Step(s, a).Some?
    ensures a.Apply? ==> a.o < |s.ops|
  {
  }

  lemma NothingApplied(m: Mem)
    ensures ApplyAll(m, []) == m
  {
  }

  // ---------------------------------------------------------------- both trees

  lemma {:induction false} NothingToSettle(s: State, n: nat)
    requires n <= |s.ops| && forall o :: 0 <= o < |s.ops| ==> !s.ops[o].phase.Appended?
    ensures Settled(s, n) == s.mem
  {
    if n > 0 {
      NothingToSettle(s, n - 1);
    }
  }

  /** After any interleaving, if log order is unshadowed: the replayed tree answers every lookup
      like the memtable map that the calls in flight lead to. */
  lemma ReplayedTreeIsSettled(actions: seq<Action>)
    requires Run(INITIAL, actions).Some?
    requires Unshadowed(Leaf, TreeOps(WithKey(LogOps(Run(INITIAL, actions).value.log))))
    ensures var s := Run(INITIAL, actions).value;
            Represents(TreeOf(WithKey(LogOps(s.log))), Settled(s, |s.ops|) - {[]})
  {
    hide Run, LogOps, Represents, TreeOf, Unshadowed, WithKey, ReplayOps, ApplyAll;
    var s := Run(INITIAL, actions).value;
    ReplayRebuildsMemtable(actions);
    ReplayApplies(Replayed(map[], 0), LogOps(s.log));
    TreeIsMap(WithKey(LogOps(s.log)));
  }

  /** The live tree and the one that replay builds answer every lookup alike, in whatever order
      the calls have applied their operations, if neither order is shadowed. */
  lemma ReplayedTreeAnswersLikeLive(actions: seq<Action>, k: Bytes)
    requires Run(INITIAL, actions).Some? && k != []
    requires var s := Run(INITIAL, actions).value;
             && (forall o :: 0 <= o < |s.ops| ==> !s.ops[o].phase.Appended?)
             && Unshadowed(Leaf, TreeOps(Applied(INITIAL, actions)))
             && Unshadowed(Leaf, TreeOps(WithKey(LogOps(s.log))))
    ensures var s := Run(INITIAL, actions).value;
            Get(TreeOf(Applied(INITIAL, actions)), k) == Get(TreeOf(WithKey(LogOps(s.log))), k)
  {
    hide Run, LogOps, TreeOf, Unshadowed, WithKey, ApplyAll, Applied, Settled;
    var s := Run(INITIAL, actions).value;
    ReplayedTreeIsSettled(actions);
    NothingToSettle(s, |s.ops|);
    MemIsApplied(INITIAL, actions);
    TreeIsMap(Applied(INITIAL, actions));
    assert Get(TreeOf(Applied(INITIAL, actions)), k) == Cell(s.mem, k);
    assert Get(TreeOf(WithKey(LogOps(s.log))), k) == Cell(s.mem - {[]}, k);
  }

  // ---------------------------------------------------------------- without the guard

  /** The order matters: the same deletions of two keys, one way round and the other. */
  lemma OrderOfDeletesMatters(a: MemValue, b: MemValue, c: MemValue, rev: nat, rev': nat)
    ensures var puts := [PutOp([2], b), PutOp([1], a), PutOp([3], c)];
            var two, three := DeleteOp([2], rev), DeleteOp([3], rev');
            && Get(RunOps(Leaf, puts + [two, three]), [3]) == Some(c)
            && Get(RunOps(Leaf, puts + [three, two]), [3]) == None
  {
    var puts := [PutOp([2], b), PutOp([1], a), PutOp([3], c)];
    DeletedKeySurvives(a, b, c, rev, rev');
    var two, three := DeleteOp([2], rev), DeleteOp([3], rev');
    assert puts + [two, three] == [PutOp([2], b), PutOp([1], a), PutOp([3], c), two] + [three];
    hide RunOps, StepOp;
    GreatestFirst(a, b, c, rev, rev');
  }

  lemma GreatestFirst(a: MemValue, b: MemValue, c: MemValue, rev: nat, rev': nat)
    ensures var ops := [PutOp([2], b), PutOp([1], a), PutOp([3], c)];
            Get(RunOps(Leaf, ops + [DeleteOp([3], rev'), DeleteOp([2], rev)]), [3]) == None
  {
    var ops := [PutOp([2], b), PutOp([1], a), PutOp([3], c)];
    var one, three, t := MemOrder.Single([1], a), MemOrder.Single([3], c), Three(a, [2], b, c);
    ThreePuts(a, b, c);
    assert Remove(three, [3]) == Leaf && Found(three, [3]) == 1;
    assert Less([2], [3]);
    assert Remove(t, [3]) == Balance(Node(one, [2], b, Leaf, 2));
    assert Delete(t, [3], rev') == Node(one, [2], b, Leaf, 2);
    assert Delete(Node(one, [2], b, Leaf, 2), [2], rev) == one;
    hide Insert, Delete, Remove;
    FourSteps(PutOp([2], b), PutOp([1], a), PutOp([3], c), DeleteOp([3], rev'));
    var four := [PutOp([2], b), PutOp([1], a), PutOp([3], c), DeleteOp([3], rev')];
    assert ops + [DeleteOp([3], rev'), DeleteOp([2], rev)] == four + [DeleteOp([2], rev)];
    RunSnoc(Leaf, four, DeleteOp([2], rev));
  }

  lemma {:induction false} AppliedConcat(s: State, a: seq<Action>, b: seq<Action>)
    requires Run(s, a).Some? && Run(Run(s, a).value, b).Some?
    ensures Run(s, a + b) == Run(Run(s, a).value, b)
    ensures Applied(s, a + b) == Applied(s, a) + Applied(Run(s, a).value, b)
    decreases |a|
  {
    hide Step, OpsInFlight;
    if a == [] {
      assert a + b == b;
    } else {
      assert (a + b)[1..] == a[1..] + b;
      AppliedConcat(Step(s, a[0]).value, a[1..], b);
    }
  }

  lemma {:induction false} NothingAppliedYet(s: State, actions: seq<Action>)
    requires Run(s, actions).Some? && forall i :: 0 <= i < |actions| ==> !actions[i].Apply?
    ensures Applied(s, actions) == []
    decreases |actions|
  {
    hide Step, OpsInFlight;
    if actions != [] {
      NothingAppliedYet(Step(s, actions[0]).value, actions[1..]);
    }
  }

  /** What a call with one write leaves in the log and gives to the memtable. */
  function OnlyOp(req: Request, rev: nat): Logged
    requires !req.Group?
  {
    Logged(WritesOf(req)[0].key, WritesOf(req)[0].value, rev)
  }

  lemma BeginTrace(s: State, req: Request, k: Bytes)
    requires k !in s.queues && !req.Group? && !req.Cas? && req.key == k
    ensures Run(s, Begin(req, |s.ops|)).Some?
    ensures var t := Run(s, Begin(req, |s.ops|)).value;
            && t.queues == s.queues[k := [|s.ops|]] && t.revCounter == s.revCounter + 1
            && t.ops == s.ops + [Op(req, [k], Appended(s.revCounter))]
            && LogOps(t.log) == LogOps(s.log) + [OnlyOp(req, s.revCounter + 1)]
            && Applied(s, Begin(req, |s.ops|)) == []
  {
    hide LockKeys, Run, LogOps;
    OneKeyLocks(req);
    BeginEffect(s, req, k);
    LogOpsSnoc(s.log, RecordOf(req, s.revCounter));
    assert StampAll(WritesOf(req), s.revCounter) == [OnlyOp(req, s.revCounter + 1)];
    NothingAppliedYet(s, Begin(req, |s.ops|));
  }

  lemma FinishTrace(s: State, o: nat, k: Bytes)
    requires o < |s.ops| && s.ops[o].phase.Appended? && s.ops[o].keys == [k] && k in s.queues && s.queues[k] == [o]
    requires !s.ops[o].req.Group?
    ensures Run(s, [Apply(o)]).Some?
    ensures var t, op := Run(s, [Apply(o)]).value, s.ops[o];
            && t.queues == s.queues - {k} && t.log == s.log && t.revCounter == s.revCounter
            && t.ops == s.ops[o := op.(phase := Done(Success(op.phase.base)))]
            && Applied(s, [Apply(o)]) == [OnlyOp(op.req, op.phase.base + 1)]
  {
    hide LockKeys;
    FinishEffect(s, o, k);
    var op := s.ops[o];
    var t := Step(s, Apply(o)).value;
    assert [Apply(o)][1..] == [];
    assert Applied(t, []) == [];
    assert StampAll(WritesOf(op.req), op.phase.base) == [OnlyOp(op.req, op.phase.base + 1)];
    assert OpsInFlight(op) + [] == OpsInFlight(op);
  }

  lemma AloneTrace(s: State, req: Request, k: Bytes)
    requires k !in s.queues && !req.Group? && !req.Cas? && req.key == k
    ensures Run(s, Alone(req, |s.ops|)).Some?
    ensures var t := Run(s, Alone(req, |s.ops|)).value;
            && t.queues == s.queues && t.revCounter == s.revCounter + 1
            && t.ops == s.ops + [Op(req, [k], Done(Success(s.revCounter)))]
            && LogOps(t.log) == LogOps(s.log) + [OnlyOp(req, s.revCounter + 1)]
            && Applied(s, Alone(req, |s.ops|)) == [OnlyOp(req, s.revCounter + 1)]
  {
    hide Run, LogOps, Begin, OnlyOp, Applied;
    var o := |s.ops|;
    BeginTrace(s, req, k);
    var t := Run(s, Begin(req, o)).value;
    FinishTrace(t, o, k);
    AppliedConcat(s, Begin(req, o), [Apply(o)]);
    assert s.queues[k := [o]] - {k} == s.queues;
    assert [] + [OnlyOp(req, s.revCounter + 1)] == [OnlyOp(req, s.revCounter + 1)];
  }

  /** Three puts, one after the other. */
  lemma PutsTrace(v: Bytes) returns (actions: seq<Action>, s: State)
    ensures Run(INITIAL, actions) == Some(s) && s.queues == map[] && s.revCounter == 3
    ensures |s.ops| == 3 && forall o :: 0 <= o < 3 ==> s.ops[o].phase.Done?
    ensures var puts := [Logged([2], Some(v), 1), Logged([1], Some(v), 2), Logged([3], Some(v), 3)];
            LogOps(s.log) == puts && Applied(INITIAL, actions) == puts
  {
    hide Run, LogOps, Alone, Applied;
    var two, one, three := Put([2], v), Put([1], v), Put([3], v);
    AloneTrace(INITIAL, two, [2]);
    var s1 := Run(INITIAL, Alone(two, 0)).value;
    AloneTrace(s1, one, [1]);
    var s2 := Run(s1, Alone(one, 1)).value;
    AloneTrace(s2, three, [3]);
    s := Run(s2, Alone(three, 2)).value;
    AppliedConcat(INITIAL, Alone(two, 0), Alone(one, 1));
    AppliedConcat(INITIAL, Alone(two, 0) + Alone(one, 1), Alone(three, 2));
    actions := Alone(two, 0) + Alone(one, 1) + Alone(three, 2);
    assert LogOps([]) == [] by { EmptyLog(); }
  }

  lemma EmptyLog()
    ensures LogOps([]) == [] && INITIAL.log == []
  {
  }

  /** A run of the write path in which the live tree and the replayed one differ: two deletions
      append in one order and apply in the other. The live engine has no key 3 any more; after a
      restart its deleted value is back. */
  lemma LiveAndReplayedDiffer(v: Bytes) returns (actions: seq<Action>)
    ensures Run(INITIAL, actions).Some?
    ensures var s := Run(INITIAL, actions).value;
            && (forall o :: 0 <= o < |s.ops| ==> s.ops[o].phase.Done?)
            && Get(TreeOf(Applied(INITIAL, actions)), [3]) == None
            && Get(TreeOf(WithKey(LogOps(s.log))), [3]) == Some(MemValue(Some(v), 3))
  {
    hide Run, LogOps, Begin, Applied, Get, RunOps, StepOp, WithKey;
    var two, three := Del([2]), Del([3]);
    var puts, s := PutsTrace(v);
    BeginTrace(s, two, [2]);
    var s1 := Run(s, Begin(two, 3)).value;
    assert [3] !in s1.queues by { assert [2][0] != [3][0]; }
    BeginTrace(s1, three, [3]);
    var s2 := Run(s1, Begin(three, 4)).value;
    FinishTrace(s2, 4, [3]);
    var s3 := Run(s2, [Apply(4)]).value;
    assert s3.queues[[2]] == [3];
    FinishTrace(s3, 3, [2]);
    AppliedConcat(INITIAL, puts, Begin(two, 3));
    AppliedConcat(INITIAL, puts + Begin(two, 3), Begin(three, 4));
    AppliedConcat(INITIAL, puts + Begin(two, 3) + Begin(three, 4), [Apply(4)]);
    AppliedConcat(INITIAL, puts + Begin(two, 3) + Begin(three, 4) + [Apply(4)], [Apply(3)]);
    actions := puts + Begin(two, 3) + Begin(three, 4) + [Apply(4)] + [Apply(3)];
    var t := Run(INITIAL, actions).value;
    var b, a, c := Logged([2], Some(v), 1), Logged([1], Some(v), 2), Logged([3], Some(v), 3);
    var x, y := Logged([2], None, 4), Logged([3], None, 5);
    assert LogOps(t.log) == [b, a, c, x, y];
    assert Applied(INITIAL, actions) == [b, a, c, y, x];
    AllHaveKeys([b, a, c, x, y]);
    OrderOfDeletesMatters(MemValue(Some(v), 2), MemValue(Some(v), 1), MemValue(Some(v), 3), 4, 5);
    var ops := [PutOp([2], MemValue(Some(v), 1)), PutOp([1], MemValue(Some(v), 2)), PutOp([3], MemValue(Some(v), 3))];
    assert TreeOps([b, a, c, x, y]) == ops + [DeleteOp([2], 4), DeleteOp([3], 5)];
    assert TreeOps([b, a, c, y, x]) == ops + [DeleteOp([3], 5), DeleteOp([2], 4)];
  }

  lemma {:induction false} AllHaveKeys(ls: seq<Logged>)
    requires forall i :: 0 <= i < |ls| ==> ls[i].key != []
    ensures WithKey(ls) == ls
  {
    if ls != [] {
      AllHaveKeys(ls[1..]);
      assert ls == [ls[0]] + ls[1..];
    }
  }

  /** The guard, read off at one place. */
  lemma {:induction false} UnshadowedAt(t: Tree, ops: seq<MemOp>, i: nat)
    requires Avl(t) && Unshadowed(t, ops) && i + 1 < |ops| && ops[i].DeleteOp?
    ensures !TwoChild(RunOps(t, ops[..i]), ops[i].key)
    decreases i
  {
    hide StepOp, TwoChild;
    if i == 0 {
      assert ops[..0] == [];
    } else {
      assert ops[..i][1..] == ops[1..][..i - 1];
      UnshadowedAt(StepOp(t, ops[0]), ops[1..], i - 1);
    }
  }

  lemma LastWriteStands(ls: seq<Logged>, i: nat)
    requires i < |ls| && ls[i].value.Some? && forall j :: i < j < |ls| ==> ls[j].key != ls[i].key
    ensures Cell(ApplyAll(map[], ls), ls[i].key) == Some(MemValue(ls[i].value, ls[i].rev))
  {
    hide ApplyAll;
    var l := ls[i];
    ApplyAllAtCell(map[], ls, l.key);
    assert ls == ls[..i] + ([l] + ls[i + 1..]);
    FoldCellConcat(None, ls[..i], [l] + ls[i + 1..], l.key);
    var c := FoldCell(None, ls[..i], l.key);
    assert ([l] + ls[i + 1..])[1..] == ls[i + 1..];
    assert FoldCell(c, [l] + ls[i + 1..], l.key) == FoldCell(ApplyCell(c, l), ls[i + 1..], l.key);
    FoldCellElsewhere(ApplyCell(c, l), ls[i + 1..], l.key);
  }

  /** The last three of the operations below. */
  lemma RotatedUp(a: MemValue, c: MemValue, d: MemValue, e: MemValue, rev: nat)
    ensures var t := StepOp(StepOp(StepOp(Three(a, [3], c, c), PutOp([3], d)), PutOp([4], e)), DeleteOp([1], rev));
            t == Node(MemOrder.Single([3], d), [3], c, MemOrder.Single([4], e), 2)
  {
    var one, four := MemOrder.Single([1], a), MemOrder.Single([4], e);
    assert Insert(Three(a, [3], c, c), [3], d) == Three(a, [3], d, c);
    assert Less([3], [4]) && Less([1], [3]);
    var right := Node(Leaf, [3], c, four, 2);
    assert Insert(MemOrder.Single([3], c), [4], e) == right by {
      assert Insert(Leaf, [4], e) == four;
    }
    var u := Node(one, [3], d, right, 3);
    assert Insert(Three(a, [3], d, c), [4], e) == u;
    assert Remove(one, [1]) == Leaf && Found(u, [1]) == 1;
    assert Remove(u, [1]) == Balance(Node(Leaf, [3], d, right, 3));
  }

  /** What an unsafe tree can do to a key that nobody deletes: key 3 is put, doubled by the
      deletion of key 2, and overwritten; the deletion of key 1 then rotates the old entry to the
      top, and the overwritten value is read again. */
  lemma OverwrittenValueComesBack(a: Bytes, b: Bytes)
    ensures var ls := [Logged([2], Some(a), 1), Logged([1], Some(a), 2), Logged([3], Some(a), 3),
                       Logged([2], None, 4), Logged([3], Some(b), 5), Logged([4], Some(a), 6), Logged([1], None, 7)];
            && !SafeRun(Leaf, map[], ls)
            && Cell(ApplyAll(map[], ls), [3]) == Some(MemValue(Some(b), 5))
            && Get(TreeOf(ls), [3]) == Some(MemValue(Some(a), 3))
  {
    hide SafeRun, Unshadowed, ApplyAll, RunOps, StepOp;
    var ls := [Logged([2], Some(a), 1), Logged([1], Some(a), 2), Logged([3], Some(a), 3), Logged([2], None, 4),
               Logged([3], Some(b), 5), Logged([4], Some(a), 6), Logged([1], None, 7)];
    assert [3][0] != [4][0] && [3][0] != [1][0];
    LastWriteStands(ls, 4);
    var one, two, three, four := MemValue(Some(a), 2), MemValue(Some(a), 1), MemValue(Some(a), 3), MemValue(Some(a), 6);
    var ops := [PutOp([2], two), PutOp([1], one), PutOp([3], three), DeleteOp([2], 4), PutOp([3], MemValue(Some(b), 5)),
                PutOp([4], four), DeleteOp([1], 7)];
    assert TreeOps(ls) == ops;
    SevenSteps(ops);
    ThreePuts(one, two, three);
    ThirdDelete(one, two, three);
    RotatedUp(one, three, MemValue(Some(b), 5), four, 7);
    EmptyIsMap();
    SafeRunIff(Leaf, map[], ls);
    if Unshadowed(Leaf, ops) {
      UnshadowedAt(Leaf, ops, 3);
      assert false;
    }
  }

  lemma EmptyIsMap()
    ensures Strict(InOrder(Leaf)) && Represents(Leaf, map[])
  {
  }

  lemma ThirdDelete(a: MemValue, b: MemValue, c: MemValue)
    ensures TwoChild(Three(a, [2], b, c), [2])
    ensures StepOp(Three(a, [2], b, c), DeleteOp([2], 4)) == Three(a, [3], c, c)
  {
    TwoDeletes(a, b, c);
  }

  lemma SevenSteps(ops: seq<MemOp>)
    requires |ops| == 7
    ensures var three := StepOp(StepOp(StepOp(Leaf, ops[0]), ops[1]), ops[2]);
            && RunOps(Leaf, ops[..3]) == three
            && RunOps(Leaf, ops) == StepOp(StepOp(StepOp(StepOp(three, ops[3]), ops[4]), ops[5]), ops[6])
  {
    hide StepOp;
    assert forall i :: 0 <= i < 7 ==> ops[..i + 1] == ops[..i] + [ops[i]];
    RunSnoc(Leaf, ops[..0], ops[0]);
    RunSnoc(Leaf, ops[..1], ops[1]);
    RunSnoc(Leaf, ops[..2], ops[2]);
    RunSnoc(Leaf, ops[..3], ops[3]);
    RunSnoc(Leaf, ops[..4], ops[4]);
    RunSnoc(Leaf, ops[..5], ops[5]);
    RunSnoc(Leaf, ops[..6], ops[6]);
    assert ops[..7] == ops && RunOps(Leaf, ops[..0]) == Leaf;
  }
}
