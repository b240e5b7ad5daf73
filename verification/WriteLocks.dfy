/** The key locks of the write path: mutual exclusion, first come first served, no deadlock. */
module WriteLocks {
  import opened Bytes
  import opened WriteModel

  // ---------------------------------------------------------------- the invariant of the queues

  /** The call has a ticket in the queue of `k`. */
  ghost predicate Claims(op: Op, k: Bytes)
  {
    match op.phase
    case Waiting(got) => got < |op.keys| && k in op.keys[..got + 1]
    case Done(_) => false
    case _ => k in op.keys
  }

  /** The call holds the lock of `k`. */
  ghost predicate Holds(op: Op, k: Bytes)
  {
    match op.phase
    case Waiting(got) => got < |op.keys| && k in op.keys[..got]
    case Done(_) => false
    case _ => k in op.keys
  }

  ghost predicate OpOk(op: Op)
  {
    && op.keys == LockKeys(WritesOf(op.req))
    && (op.phase.Waiting? ==> op.phase.got < |op.keys|)
    && (op.keys == [] ==> op.phase.Done?)
  }

  ghost predicate NoRepeats(q: seq<nat>)
  {
    forall i, j :: 0 <= i < j < |q| ==> q[i] != q[j]
  }

  /** The queue is the latest part of everything that ever queued. */
  ghost predicate IsSuffix(q: seq<nat>, all: seq<nat>)
  {
    |q| <= |all| && q == all[|all| - |q|..]
  }

  /** The queue of a key holds exactly the calls with a ticket, each once, in the order of
      their arrival, and whoever holds the lock is at the head. */
  ghost predicate Agrees(q: seq<nat>, all: seq<nat>, ops: seq<Op>, k: Bytes)
  {
    && NoRepeats(q)
    && IsSuffix(q, all)
    && (forall o: nat :: o in q <==> o < |ops| && Claims(ops[o], k))
    && (forall o: nat :: o < |ops| && Holds(ops[o], k) ==> q != [] && q[0] == o)
  }

  ghost predicate QueueOk(s: State, k: Bytes)
  {
    Agrees(Q(s.queues, k), Q(s.arrivals, k), s.ops, k)
  }

  ghost predicate LockInv(s: State)
  {
    && (forall o :: 0 <= o < |s.ops| ==> OpOk(s.ops[o]))
    && (forall k :: QueueOk(s, k))
  }

  lemma KeysDistinct(op: Op)
    requires OpOk(op)
    ensures Increasing(op.keys)
    ensures forall i, j :: 0 <= i < j < |op.keys| ==> op.keys[i] != op.keys[j]
  {
    LockKeysIncreasing(WritesOf(op.req));
    IncreasingDistinct(op.keys);
  }

  /** Only entry `o` differs, or is new. */
  ghost predicate OnlyChanged(ops: seq<Op>, ops': seq<Op>, o: nat)
  {
    && |ops| <= |ops'| && o < |ops'| && (|ops'| > |ops| ==> o == |ops| && |ops'| == o + 1)
    && (forall i :: 0 <= i < |ops| && i != o ==> ops'[i] == ops[i])
  }

  lemma TicketAgrees(q: seq<nat>, all: seq<nat>, ops: seq<Op>, ops': seq<Op>, o: nat, k: Bytes)
    requires Agrees(q, all, ops, k) && OnlyChanged(ops, ops', o)
    requires o < |ops| ==> !Claims(ops[o], k)
    requires Claims(ops'[o], k) && !Holds(ops'[o], k)
    ensures Agrees(q + [o], all + [o], ops', k)
  {
    assert o !in q;
    forall i, j | 0 <= i < j < |q + [o]|
      ensures (q + [o])[i] != (q + [o])[j]
    {
      assert (q + [o])[i] in q;
    }
  }

  lemma StayAgrees(q: seq<nat>, all: seq<nat>, ops: seq<Op>, ops': seq<Op>, o: nat, k: Bytes)
    requires Agrees(q, all, ops, k) && OnlyChanged(ops, ops', o)
    requires Claims(ops'[o], k) <==> o < |ops| && Claims(ops[o], k)
    requires Holds(ops'[o], k) ==> q != [] && q[0] == o
    ensures Agrees(q, all, ops', k)
  {
    forall p: nat
      ensures p in q <==> p < |ops'| && Claims(ops'[p], k)
    {
      assert p in q <==> p < |ops| && Claims(ops[p], k);
    }
    forall p: nat | p < |ops'| && Holds(ops'[p], k)
      ensures q != [] && q[0] == p
    {
      assert p != o ==> Holds(ops[p], k);
    }
  }

  lemma LeaveAgrees(q: seq<nat>, all: seq<nat>, ops: seq<Op>, ops': seq<Op>, o: nat, k: Bytes)
    requires Agrees(q, all, ops, k) && OnlyChanged(ops, ops', o) && o < |ops|
    requires q != [] && q[0] == o && !Claims(ops'[o], k) && !Holds(ops'[o], k)
    ensures Agrees(q[1..], all, ops', k)
  {
    assert q == [o] + q[1..];
    forall p: nat
      ensures p in q[1..] <==> p < |ops'| && Claims(ops'[p], k)
    {
      assert p in q <==> p < |ops| && Claims(ops[p], k);
      assert p in q <==> p == o || p in q[1..];
    }
    forall p: nat
      ensures p < |ops'| ==> !Holds(ops'[p], k)
    {
      assert p < |ops| && Holds(ops[p], k) ==> q[0] == p;
    }
  }

  lemma SubmitKeepsQueues(s: State, req: Request, k: Bytes)
    requires QueueOk(s, k)
    ensures QueueOk(SubmitStep(s, req), k)
  {
    hide LockKeys, WritesOf;
    var ops' := SubmitStep(s, req).ops;
    var o := |s.ops|;
    var keys := LockKeys(WritesOf(req));
    assert ops'[o].keys == keys && OnlyChanged(s.ops, ops', o);
    if keys != [] && k == keys[0] {
      assert keys[..1][0] == k;
      TicketAgrees(Q(s.queues, k), Q(s.arrivals, k), s.ops, ops', o, k);
    } else {
      StayAgrees(Q(s.queues, k), Q(s.arrivals, k), s.ops, ops', o, k);
    }
  }

  /** Which keys a call claims and holds once it has acquired one more lock. */
  lemma AcquireClaims(op: Op, next: Op, k: Bytes)
    requires OpOk(op) && op.phase.Waiting? && next.keys == op.keys
    requires var got := op.phase.got + 1;
             next.phase == if got == |op.keys| then Running else Waiting(got)
    ensures var got := op.phase.got + 1;
            && (Claims(next, k) <==> Claims(op, k) || (got < |op.keys| && k == op.keys[got]))
            && (Holds(next, k) <==> Claims(op, k))
            && (Claims(op, k) <==> Holds(op, k) || k == WaitedKey(op))
            && (got < |op.keys| ==> !Claims(op, op.keys[got]))
  {
    var got := op.phase.got + 1;
    KeysDistinct(op);
    assert op.keys[..got] == op.keys[..got - 1] + [op.keys[got - 1]];
    if got < |op.keys| {
      assert op.keys[..got + 1] == op.keys[..got] + [op.keys[got]];
    } else {
      assert op.keys[..got] == op.keys;
    }
  }

  lemma AcquiredQueues(s: State, o: nat, k: Bytes)
    requires CanAcquire(s, o)
    ensures var t := AcquireStep(s, o);
            var op := s.ops[o];
            var more := if op.phase.got + 1 < |op.keys| && k == op.keys[op.phase.got + 1] then [o] else [];
            Q(t.queues, k) == Q(s.queues, k) + more && Q(t.arrivals, k) == Q(s.arrivals, k) + more
  {
  }

  /** A call that can go on is at the head of the queue it waits in, as it is of those it holds. */
  lemma ClaimHead(s: State, o: nat, k: Bytes)
    requires QueueOk(s, k) && CanAcquire(s, o)
    requires Holds(s.ops[o], k) || k == WaitedKey(s.ops[o])
    ensures Q(s.queues, k) != [] && Q(s.queues, k)[0] == o
  {
  }

  lemma HolderIsHead(s: State, o: nat, k: Bytes)
    requires QueueOk(s, k) && o < |s.ops| && Holds(s.ops[o], k)
    ensures Q(s.queues, k) != [] && Q(s.queues, k)[0] == o
  {
  }

  lemma AcquireKeepsQueues(s: State, o: nat, k: Bytes)
    requires QueueOk(s, k) && CanAcquire(s, o) && OpOk(s.ops[o])
    ensures QueueOk(AcquireStep(s, o), k)
  {
    hide LockKeys, WritesOf, Less, Agrees, Claims, Holds, Q, Enqueue, OpOk;
    var ops' := AcquireStep(s, o).ops;
    var op := s.ops[o];
    AcquireClaims(op, ops'[o], k);
    AcquiredQueues(s, o, k);
    assert OnlyChanged(s.ops, ops', o);
    if op.phase.got + 1 < |op.keys| && k == op.keys[op.phase.got + 1] {
      TicketAgrees(Q(s.queues, k), Q(s.arrivals, k), s.ops, ops', o, k);
    } else {
      if Claims(op, k) {
        ClaimHead(s, o, k);
      }
      StayAgrees(Q(s.queues, k), Q(s.arrivals, k), s.ops, ops', o, k);
      assert Q(s.queues, k) + [] == Q(s.queues, k) && Q(s.arrivals, k) + [] == Q(s.arrivals, k);
    }
  }

  /** What the end of a call leaves of the lock state. */
  ghost predicate Released(s: State, t: State, o: nat)
  {
    && o < |s.ops| && (s.ops[o].phase.Running? || s.ops[o].phase.Appended?)
    && t.queues == UnlockAll(s.queues, s.ops[o].keys) && t.arrivals == s.arrivals
    && |t.ops| == |s.ops| && OnlyChanged(s.ops, t.ops, o) && t.ops[o].phase.Done?
  }

  /** A call that ends leaves the head of the queue of each of its keys. */
  lemma ReleaseKeepsQueues(s: State, t: State, o: nat, k: Bytes)
    requires QueueOk(s, k) && Released(s, t, o) && OpOk(s.ops[o])
    ensures QueueOk(t, k)
    ensures k in s.ops[o].keys ==>
              Q(s.queues, k) != [] && Q(s.queues, k)[0] == o && Q(t.queues, k) == Q(s.queues, k)[1..]
    ensures k !in s.ops[o].keys ==> Q(t.queues, k) == Q(s.queues, k)
  {
    hide Agrees, UnlockAll, LockKeys, WritesOf, Q;
    KeysDistinct(s.ops[o]);
    UnlockAllQueues(s.queues, s.ops[o].keys, k);
    var q := Q(s.queues, k);
    if k in s.ops[o].keys {
      HolderIsHead(s, o, k);
      LeaveAgrees(q, Q(s.arrivals, k), s.ops, t.ops, o, k);
    } else {
      StayAgrees(q, Q(s.arrivals, k), s.ops, t.ops, o, k);
    }
  }

  /** A call that only moves on keeps its tickets and its locks. */
  lemma MoveKeepsQueues(s: State, t: State, o: nat, k: Bytes)
    requires QueueOk(s, k) && o < |s.ops| && t.queues == s.queues && t.arrivals == s.arrivals
    requires OnlyChanged(s.ops, t.ops, o) && |t.ops| == |s.ops| && t.ops[o].keys == s.ops[o].keys
    requires s.ops[o].phase.Running? || s.ops[o].phase.Stamped?
    requires t.ops[o].phase.Stamped? || t.ops[o].phase.Appended?
    ensures QueueOk(t, k)
  {
    StayAgrees(Q(s.queues, k), Q(s.arrivals, k), s.ops, t.ops, o, k);
  }

  lemma StepKeepsQueue(s: State, a: Action, k: Bytes)
    requires LockInv(s) && Step(s, a).Some?
    ensures QueueOk(Step(s, a).value, k)
  {
    hide Agrees, LockKeys, WritesOf, UnlockAll, ApplyAll, StampAll, RecordOf;
    var t := Step(s, a).value;
    assert QueueOk(s, k);
    match a {
      case Submit(req) => SubmitKeepsQueues(s, req, k);
      case Acquire(o) => AcquireKeepsQueues(s, o, k);
      case Stamp(o) =>
        if CasMismatch(s, s.ops[o].req) {
          assert Released(s, t, o);
          ReleaseKeepsQueues(s, t, o, k);
        } else {
          MoveKeepsQueues(s, t, o, k);
        }
      case Append(o) => MoveKeepsQueues(s, t, o, k);
      case Apply(o) =>
        assert Released(s, t, o);
        ReleaseKeepsQueues(s, t, o, k);
    }
  }

  lemma StepKeepsOps(s: State, a: Action)
    requires LockInv(s) && Step(s, a).Some?
    ensures var t := Step(s, a).value; forall i :: 0 <= i < |t.ops| ==> OpOk(t.ops[i])
  {
    hide QueueOk, Step, OpOk;
    var t := Step(s, a).value;
    forall i | 0 <= i < |t.ops|
      ensures OpOk(t.ops[i])
    {
      assert i < |s.ops| ==> OpOk(s.ops[i]);
      StepKeepsOp(s, a, i);
    }
  }

  lemma StepKeepsOp(s: State, a: Action, i: nat)
    requires Step(s, a).Some? && i < |Step(s, a).value.ops|
    requires i < |s.ops| ==> OpOk(s.ops[i])
    ensures OpOk(Step(s, a).value.ops[i])
  {
    hide UnlockAll, ApplyAll, StampAll, RecordOf, LockKeys, WritesOf, Enqueue, CurrentRev;
  }

  lemma StepKeepsLockInv(s: State, a: Action)
    requires LockInv(s) && Step(s, a).Some?
    ensures LockInv(Step(s, a).value)
  {
    hide QueueOk, OpOk, Step;
    StepKeepsOps(s, a);
    forall k
      ensures QueueOk(Step(s, a).value, k)
    {
      StepKeepsQueue(s, a, k);
    }
  }

  // ---------------------------------------------------------------- mutual exclusion and order

  /** At most one call holds the lock of a key: the one at the head of its queue. */
  lemma HoldersAreUnique(s: State, k: Bytes, a: nat, b: nat)
    requires LockInv(s) && a < |s.ops| && b < |s.ops|
    requires Holds(s.ops[a], k) && Holds(s.ops[b], k)
    ensures a == b
  {
    assert QueueOk(s, k);
  }

  /** `a` is ahead of `b` in the queue of `k`. */
  ghost predicate AheadOf(s: State, k: Bytes, a: nat, b: nat)
  {
    var q := Q(s.queues, k);
    exists i, j :: 0 <= i < j < |q| && q[i] == a && q[j] == b
  }

  lemma AheadInPrefix(s: State, t: State, k: Bytes, a: nat, b: nat)
    requires AheadOf(s, k, a, b) && Q(s.queues, k) <= Q(t.queues, k)
    ensures AheadOf(t, k, a, b)
  {
    var q := Q(s.queues, k);
    var i, j :| 0 <= i < j < |q| && q[i] == a && q[j] == b;
    assert Q(t.queues, k)[i] == a && Q(t.queues, k)[j] == b;
  }

  lemma AheadAfterRelease(s: State, t: State, o: nat, k: Bytes, a: nat, b: nat)
    requires QueueOk(s, k) && Released(s, t, o) && OpOk(s.ops[o]) && AheadOf(s, k, a, b)
    ensures AheadOf(t, k, a, b) || (a == o && Holds(s.ops[o], k))
  {
    hide Agrees, UnlockAll, LockKeys, WritesOf, Q;
    ReleaseKeepsQueues(s, t, o, k);
    var q := Q(s.queues, k);
    if k !in s.ops[o].keys {
      AheadInPrefix(s, t, k, a, b);
    } else if a != o {
      var i, j :| 0 <= i < j < |q| && q[i] == a && q[j] == b;
      assert q[1..][i - 1] == a && q[1..][j - 1] == b;
    }
  }

  /** Who is behind another one waits. */
  lemma BehindDoesNotHold(s: State, k: Bytes, a: nat, b: nat)
    requires QueueOk(s, k) && AheadOf(s, k, a, b)
    ensures a < |s.ops| && b < |s.ops| && !Holds(s.ops[b], k)
  {
    var q := Q(s.queues, k);
    var i, j :| 0 <= i < j < |q| && q[i] == a && q[j] == b;
    assert q[i] in q && q[j] in q;
  }

  /** Steps that do not end a call only ever add tickets behind the others. */
  lemma QueuesGrow(s: State, act: Action, k: Bytes)
    requires Step(s, act).Some? && !act.Apply?
    requires act.Stamp? ==> !CasMismatch(s, s.ops[act.o].req)
    ensures Q(s.queues, k) <= Q(Step(s, act).value.queues, k)
  {
    hide LockKeys, WritesOf, StampAll, RecordOf;
  }

  /** Whoever queued first stays ahead until it gives the lock back, and until then the
      other one does not hold the lock. */
  lemma FirstComeFirstServed(s: State, act: Action, k: Bytes, a: nat, b: nat)
    requires LockInv(s) && Step(s, act).Some? && AheadOf(s, k, a, b)
    ensures a < |s.ops| && b < |s.ops| && !Holds(s.ops[b], k)
    ensures var t := Step(s, act).value;
            |t.ops| >= |s.ops| && (AheadOf(t, k, a, b) || (t.ops[a].phase.Done? && Holds(s.ops[a], k)))
  {
    hide LockKeys, WritesOf, UnlockAll, ApplyAll, StampAll, RecordOf, Agrees, AheadOf, Holds;
    assert QueueOk(s, k);
    BehindDoesNotHold(s, k, a, b);
    var t := Step(s, act).value;
    if act.Apply? || (act.Stamp? && CasMismatch(s, s.ops[act.o].req)) {
      assert Released(s, t, act.o) && OpOk(s.ops[act.o]);
      AheadAfterRelease(s, t, act.o, k, a, b);
    } else {
      QueuesGrow(s, act, k);
      AheadInPrefix(s, t, k, a, b);
    }
  }

  // ---------------------------------------------------------------- no deadlock

  ghost predicate Unfinished(s: State, o: nat)
  {
    o < |s.ops| && !s.ops[o].phase.Done?
  }

  function WaitedKey(op: Op): Bytes
    requires op.phase.Waiting? && op.phase.got < |op.keys|
  {
    op.keys[op.phase.got]
  }

  /** Among waiting calls there is one whose awaited key no other awaited key exceeds. */
  lemma {:induction false} GreatestWaiting(s: State, n: nat, o: nat) returns (m: nat)
    requires LockInv(s) && n <= |s.ops| && o < n
    requires forall i :: 0 <= i < n && Unfinished(s, i) ==> s.ops[i].phase.Waiting?
    requires Unfinished(s, o)
    ensures m < n && Unfinished(s, m)
    ensures forall i :: 0 <= i < n && Unfinished(s, i) ==> !Less(WaitedKey(s.ops[m]), WaitedKey(s.ops[i]))
  {
    hide Less, Agrees, LockKeys, WritesOf;
    assert forall i :: 0 <= i < n ==> OpOk(s.ops[i]);
    if forall i :: 0 <= i < n - 1 ==> !Unfinished(s, i) {
      m := o;
      LessIrreflexive(WaitedKey(s.ops[o]));
    } else {
      var p :| 0 <= p < n - 1 && Unfinished(s, p);
      m := GreatestWaiting(s, n - 1, p);
      var l := n - 1;
      if Unfinished(s, l) && Less(WaitedKey(s.ops[m]), WaitedKey(s.ops[l])) {
        forall i | 0 <= i < n && Unfinished(s, i)
          ensures !Less(WaitedKey(s.ops[l]), WaitedKey(s.ops[i]))
        {
          if Less(WaitedKey(s.ops[l]), WaitedKey(s.ops[i])) {
            LessTransitive(WaitedKey(s.ops[m]), WaitedKey(s.ops[l]), WaitedKey(s.ops[i]));
            LessIrreflexive(WaitedKey(s.ops[l]));
          }
        }
        m := l;
      }
    }
  }

  /** The call that waits for the greatest key is at the head of its queue. */
  lemma GreatestWaitingIsHead(s: State, m: nat)
    requires LockInv(s) && Unfinished(s, m)
    requires forall i :: 0 <= i < |s.ops| && Unfinished(s, i) ==> s.ops[i].phase.Waiting?
    requires forall i :: 0 <= i < |s.ops| && Unfinished(s, i) ==> OpOk(s.ops[i])
    requires forall i :: 0 <= i < |s.ops| && Unfinished(s, i) ==>
               !Less(WaitedKey(s.ops[m]), WaitedKey(s.ops[i]))
    ensures exists o :: CanAcquire(s, o)
  {
    var op := s.ops[m];
    var k := WaitedKey(op);
    var q := Q(s.queues, k);
    assert QueueOk(s, k);
    assert op.keys[..op.phase.got + 1][op.phase.got] == k;
    assert m in q;
    var h := q[0];
    assert h in q;
    var hop := s.ops[h];
    assert Claims(hop, k) && Unfinished(s, h);
    KeysDistinct(hop);
    var awaited := WaitedKey(hop);
    var i :| 0 <= i < |hop.keys[..hop.phase.got + 1]| && hop.keys[..hop.phase.got + 1][i] == k;
    assert i < hop.phase.got ==> Less(k, awaited);
    assert CanAcquire(s, h);
  }

  /** In every reachable state, while some call is unfinished, some call can take a step. */
  lemma NoDeadlock(s: State, o: nat)
    requires LockInv(s) && Unfinished(s, o)
    ensures exists a: Action :: !a.Submit? && Step(s, a).Some?
  {
    if forall i :: 0 <= i < |s.ops| && Unfinished(s, i) ==> s.ops[i].phase.Waiting? {
      var m := GreatestWaiting(s, |s.ops|, o);
      GreatestWaitingIsHead(s, m);
      var h :| CanAcquire(s, h);
      assert Step(s, Acquire(h)).Some?;
    } else {
      var i :| 0 <= i < |s.ops| && Unfinished(s, i) && !s.ops[i].phase.Waiting?;
      match s.ops[i].phase {
        case Running => assert Step(s, Stamp(i)).Some?;
        case Stamped(_) => assert Step(s, Append(i)).Some?;
        case Appended(_) => assert Step(s, Apply(i)).Some?;
      }
    }
  }

  // ---------------------------------------------------------------- every step is progress

  /** The steps a call still has to take. */
  function Rank(op: Op): nat
  {
    match op.phase
    case Waiting(got) => if got < |op.keys| then |op.keys| - got + 3 else 4
    case Running => 3
    case Stamped(_) => 2
    case Appended(_) => 1
    case Done(_) => 0
  }

  function Work(ops: seq<Op>): nat
  {
    if ops == [] then 0 else Rank(ops[0]) + Work(ops[1..])
  }

  lemma {:induction false} WorkUpdate(ops: seq<Op>, o: nat, op: Op)
    requires o < |ops|
    ensures Work(ops[o := op]) == Work(ops) - Rank(ops[o]) + Rank(op)
  {
    if o == 0 {
      assert ops[o := op][1..] == ops[1..];
    } else {
      assert ops[o := op][1..] == ops[1..][o - 1 := op];
      WorkUpdate(ops[1..], o - 1, op);
    }
  }

  /** Together with `NoDeadlock`: without new submissions, every run ends with all calls done. */
  lemma StepsAreProgress(s: State, a: Action)
    requires LockInv(s) && !a.Submit? && Step(s, a).Some?
    ensures Work(Step(s, a).value.ops) < Work(s.ops)
  {
    hide Work, LockKeys, WritesOf, UnlockAll, ApplyAll, StampAll, RecordOf, Agrees;
    var t := Step(s, a).value;
    var o := a.o;
    assert OpOk(s.ops[o]);
    assert t.ops == s.ops[o := t.ops[o]];
    WorkUpdate(s.ops, o, t.ops[o]);
  }
}
