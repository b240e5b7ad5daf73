/** The write side of `Engine` as a class. Each method is the part of an asynchronous call
    between two awaits, and does exactly the step of the model that it names. */
module WritePath {
  import opened Bytes
  import opened WriteModel

  class Engine {
    var revCounter: nat
    var keyQueues: map<Bytes, seq<nat>>
    var mem: Mem
    var wal: seq<Record>
    /** The calls made so far, with what their suspended bodies remember. */
    var calls: seq<Op>
    ghost var arrivals: map<Bytes, seq<nat>>

    ghost function View(): State
      reads this
    {
      State(revCounter, keyQueues, mem, wal, calls, arrivals)
    }

    /** A new engine on an existing log: the replay loop of `open`. */
    constructor Open(log: seq<Record>)
      ensures mem == Replay(log).mem && revCounter == Replay(log).revCounter
      ensures wal == log && keyQueues == map[] && calls == []
    {
      revCounter, keyQueues, mem, wal, calls, arrivals := 0, map[], map[], log, [], map[];
      new;
      var i := 0;
      while i < |log|
        invariant 0 <= i <= |log|
        invariant ReplayOps(Replayed(mem, revCounter), LogOps(log[i..])) == Replay(log)
        invariant wal == log && keyQueues == map[] && calls == []
      {
        assert log[i..][1..] == log[i + 1..];
        ReplayConcat(Replayed(mem, revCounter), OpsOf(log[i]), LogOps(log[i + 1..]));
        ReplayRecord(log[i]);
        i := i + 1;
      }
    }

    method ReplayRecord(record: Record)
      modifies this`mem, this`revCounter
      ensures Replayed(mem, revCounter) == ReplayOps(old(Replayed(mem, revCounter)), OpsOf(record))
    {
      var ops := OpsOf(record);
      var j := 0;
      while j < |ops|
        invariant 0 <= j <= |ops|
        invariant ReplayOps(Replayed(mem, revCounter), ops[j..]) == ReplayOps(old(Replayed(mem, revCounter)), ops)
      {
        var op := ops[j];
        if op.key != [] {
          mem := ApplyOne(mem, op);
          if op.rev > revCounter {
            revCounter := op.rev;
          }
        }
        j := j + 1;
      }
    }

    /** `acquireKeyLock`: `held` tells that the ticket was first and has run at once. */
    method AcquireKeyLock(k: Bytes, o: nat) returns (held: bool)
      modifies this
      ensures View() == Ticket(old(View()), k, o)
      ensures held <==> Q(old(keyQueues), k) == []
    {
      if k !in keyQueues {
        keyQueues := keyQueues[k := []];
      }
      keyQueues := keyQueues[k := keyQueues[k] + [o]];
      arrivals := Enqueue(arrivals, k, o);
      held := |keyQueues[k]| == 1;
    }

    /** The closure that `acquireKeyLock` hands out; it wakes the next ticket, if any. */
    method UnlockKey(k: Bytes) returns (woken: Option<nat>)
      requires forall x :: x in keyQueues ==> keyQueues[x] != []
      modifies this`keyQueues
      ensures keyQueues == Unlock(old(keyQueues), k)
      ensures woken == if Q(keyQueues, k) == [] then None else Some(Q(keyQueues, k)[0])
      ensures forall x :: x in keyQueues ==> keyQueues[x] != []
    {
      if k !in keyQueues {
        return None;
      }
      var rest := keyQueues[k][1..];
      if |rest| == 0 {
        keyQueues := keyQueues - {k};
        return None;
      }
      keyQueues := keyQueues[k := rest];
      return Some(rest[0]);
    }

    /** The combined unlock of `acquireKeyLocks`, in reverse order. */
    method ReleaseLocks(ks: seq<Bytes>)
      requires forall x :: x in keyQueues ==> keyQueues[x] != []
      modifies this`keyQueues
      ensures keyQueues == UnlockAll(old(keyQueues), ks)
      ensures forall x :: x in keyQueues ==> keyQueues[x] != []
    {
      var unlocks := ks;
      while |unlocks| > 0
        invariant UnlockAll(keyQueues, unlocks) == UnlockAll(old(keyQueues), ks)
        invariant forall x :: x in keyQueues ==> keyQueues[x] != []
      {
        var woken := UnlockKey(unlocks[|unlocks| - 1]);
        unlocks := unlocks[..|unlocks| - 1];
      }
    }

    /** `allocateRevs`. */
    method AllocateRevs(n: nat) returns (revs: seq<nat>)
      modifies this`revCounter
      ensures revCounter == old(revCounter) + n
      ensures |revs| == n && forall i :: 0 <= i < n ==> revs[i] == old(revCounter) + 1 + i
    {
      revs := [];
      while |revs| < n
        invariant |revs| <= n && revCounter == old(revCounter) + |revs|
        invariant forall i :: 0 <= i < |revs| ==> revs[i] == old(revCounter) + 1 + i
      {
        revCounter := revCounter + 1;
        revs := revs + [revCounter];
      }
    }

    /** `put`, `del`, `cas` or `commit` up to the wait for the first lock. */
    method Start(req: Request) returns (o: nat)
      modifies this
      ensures View() == SubmitStep(old(View()), req) && o == |old(calls)|
    {
      var keys := LockKeys(WritesOf(req));
      o := |calls|;
      if keys == [] {
        calls := calls + [Op(req, keys, Done(NothingToDo))];
      } else {
        calls := calls + [Op(req, keys, Waiting(0))];
        var held := AcquireKeyLock(keys[0], o);
      }
    }

    /** The continuation of one lock promise: on to the next key, or all locks are held. */
    method ResumeWithLock(o: nat)
      requires CanAcquire(View(), o)
      modifies this
      ensures View() == AcquireStep(old(View()), o)
    {
      var op := calls[o];
      var got := op.phase.got + 1;
      if got == |op.keys| {
        calls := calls[o := op.(phase := Running)];
      } else {
        calls := calls[o := op.(phase := Waiting(got))];
        var held := AcquireKeyLock(op.keys[got], o);
      }
    }

    /** All locks are held: the compare of a `cas`, and the new revisions. */
    method Prepare(o: nat)
      requires o < |calls| && calls[o].phase.Running?
      requires forall x :: x in keyQueues ==> keyQueues[x] != []
      modifies this
      ensures View() == StampStep(old(View()), o)
    {
      var op := calls[o];
      if op.req.Cas? {
        var current: Option<nat> := None;
        if op.req.key in mem {
          current := Some(mem[op.req.key].rev);
        }
        if current != op.req.expected {
          calls := calls[o := op.(phase := Done(CasFailed(current)))];
          ReleaseLocks(op.keys);
          return;
        }
      }
      calls := calls[o := op.(phase := Stamped(revCounter))];
      var revs := AllocateRevs(|WritesOf(op.req)|);
    }

    /** The record reaches the log: from now on a replay gives what it gave before and then the
        operations of this call, while the memtable has not seen them yet. */
    method AppendRecord(o: nat)
      requires o < |calls| && calls[o].phase.Stamped?
      modifies this
      ensures View() == AppendStep(old(View()), o)
      ensures Replay(wal) == ReplayOps(old(Replay(wal)), old(StampAll(WritesOf(calls[o].req), calls[o].phase.base)))
      ensures mem == old(mem)
    {
      var op := calls[o];
      RecordReplayed(wal, RecordOf(op.req, op.phase.base));
      wal := wal + [RecordOf(op.req, op.phase.base)];
      calls := calls[o := op.(phase := Appended(op.phase.base))];
    }

    /** After the append: the memtable update, operation by operation, and the unlock. */
    method Finish(o: nat)
      requires o < |calls| && calls[o].phase.Appended?
      requires forall x :: x in keyQueues ==> keyQueues[x] != []
      modifies this
      ensures View() == ApplyStep(old(View()), o)
    {
      var op := calls[o];
      var base := op.phase.base;
      var ops := StampAll(WritesOf(op.req), base);
      var i := 0;
      while i < |ops|
        invariant 0 <= i <= |ops|
        invariant ApplyAll(mem, ops[i..]) == ApplyAll(old(mem), ops)
        invariant View() == old(View()).(mem := mem)
      {
        var l := ops[i];
        if l.value.Some? {
          mem := mem[l.key := MemValue(l.value, l.rev)];
        } else if l.key in mem {
          mem := mem - {l.key};
        } else {
          mem := mem[l.key := MemValue(None, l.rev)];
        }
        i := i + 1;
      }
      calls := calls[o := op.(phase := Done(Success(base)))];
      ReleaseLocks(op.keys);
    }
  }

  lemma RecordReplayed(log: seq<Record>, r: Record)
    ensures Replay(log + [r]) == ReplayOps(Replay(log), OpsOf(r))
  {
    LogOpsSnoc(log, r);
    ReplayConcat(Replayed(map[], 0), LogOps(log), OpsOf(r));
  }

  lemma {:induction false} ReplayConcat(r: Replayed, a: seq<Logged>, b: seq<Logged>)
    ensures ReplayOps(r, a + b) == ReplayOps(ReplayOps(r, a), b)
    decreases |a|
  {
    if a == [] {
      assert a + b == b;
    } else {
      assert (a + b)[1..] == a[1..] + b;
      ReplayConcat(ReplayOp(r, a[0]), a[1..], b);
    }
  }

  /** A crash keeps a prefix of the records: each one, and so each transaction, is replayed
      wholly or not at all, and replaying the rest later completes the state. */
  lemma {:induction false} ReplayIsRecordwise(log: seq<Record>, n: nat)
    requires n <= |log|
    ensures ReplayOps(Replay(log[..n]), LogOps(log[n..])) == Replay(log)
    ensures n < |log| ==> Replay(log[..n + 1]) == ReplayOps(Replay(log[..n]), OpsOf(log[n]))
  {
    var r := Replayed(map[], 0);
    LogOpsConcat(log[..n], log[n..]);
    assert log[..n] + log[n..] == log;
    ReplayConcat(r, LogOps(log[..n]), LogOps(log[n..]));
    if n < |log| {
      LogOpsSnoc(log[..n], log[n]);
      assert log[..n] + [log[n]] == log[..n + 1];
      ReplayConcat(r, LogOps(log[..n]), OpsOf(log[n]));
    }
  }

  lemma {:induction false} LogOpsConcat(a: seq<Record>, b: seq<Record>)
    ensures LogOps(a + b) == LogOps(a) + LogOps(b)
  {
    if a == [] {
      assert a + b == b;
    } else {
      assert (a + b)[1..] == a[1..] + b;
      LogOpsConcat(a[1..], b);
    }
  }
}
