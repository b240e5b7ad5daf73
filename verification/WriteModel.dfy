/** The concurrent write path of `libs/storage/engine.ts` as a state machine. A step is what
    one call does between two of its awaits, so any interleaving of put, bulk put, del, cas
    and transaction commits is a sequence of steps. */
module WriteModel {
  import opened Bytes

  // ---------------------------------------------------------------- the memtable as a map

  /** What the memtable keeps for a key; `value == None` is a tombstone. */
  datatype MemValue = MemValue(value: Option<Bytes>, rev: nat)

  type Mem = map<Bytes, MemValue>

  /** One operation inside a WAL record. */
  datatype Logged = Logged(key: Bytes, value: Option<Bytes>, rev: nat)

  /** `mem.put`, or `mem.delete`, which drops a present key and marks an absent one. */
  function ApplyOne(m: Mem, l: Logged): Mem
  {
    if l.value.Some? then m[l.key := MemValue(l.value, l.rev)]
    else if l.key in m then m - {l.key}
    else m[l.key := MemValue(None, l.rev)]
  }

  function ApplyAll(m: Mem, ls: seq<Logged>): Mem
    decreases |ls|
  {
    if ls == [] then m else ApplyAll(ApplyOne(m, ls[0]), ls[1..])
  }

  function Cell(m: Mem, k: Bytes): Option<MemValue>
  {
    if k in m then Some(m[k]) else None
  }

  /** The same at a single key. */
  function ApplyCell(c: Option<MemValue>, l: Logged): Option<MemValue>
  {
    if l.value.Some? then Some(MemValue(l.value, l.rev))
    else if c.Some? then None
    else Some(MemValue(None, l.rev))
  }

  function FoldCell(c: Option<MemValue>, ls: seq<Logged>, k: Bytes): Option<MemValue>
    decreases |ls|
  {
    if ls == [] then c
    else FoldCell(if ls[0].key == k then ApplyCell(c, ls[0]) else c, ls[1..], k)
  }

  // ---------------------------------------------------------------- the log and its replay

  /** One `wal.append`: a plain operation, or a transaction record. */
  datatype Record = Single(op: Logged) | Batch(ops: seq<Logged>)

  function OpsOf(r: Record): seq<Logged>
  {
    match r
    case Single(op) => [op]
    case Batch(ops) => ops
  }

  function LogOps(log: seq<Record>): seq<Logged>
  {
    if log == [] then [] else OpsOf(log[0]) + LogOps(log[1..])
  }

  /** What `open` rebuilds: the memtable and the revision counter. */
  datatype Replayed = Replayed(mem: Mem, revCounter: nat)

  /** Replay skips an operation whose key is the empty string: `entry.key` is falsy. */
  function ReplayOp(r: Replayed, l: Logged): Replayed
  {
    if l.key == [] then r
    else Replayed(ApplyOne(r.mem, l), if l.rev > r.revCounter then l.rev else r.revCounter)
  }

  function ReplayOps(r: Replayed, ls: seq<Logged>): Replayed
    decreases |ls|
  {
    if ls == [] then r else ReplayOps(ReplayOp(r, ls[0]), ls[1..])
  }

  function Replay(log: seq<Record>): Replayed
  {
    ReplayOps(Replayed(map[], 0), LogOps(log))
  }

  // ---------------------------------------------------------------- operations in flight

  datatype Write = Write(key: Bytes, value: Option<Bytes>)

  /** `Group` is a bulk put or a transaction commit: both take the same path. */
  datatype Request =
    | Put(key: Bytes, value: Bytes)
    | Del(key: Bytes)
    | Cas(key: Bytes, expected: Option<nat>, newValue: Option<Bytes>)
    | Group(writes: seq<Write>)

  function WritesOf(req: Request): seq<Write>
  {
    match req
    case Put(k, v) => [Write(k, Some(v))]
    case Del(k) => [Write(k, None)]
    case Cas(k, _, v) => [Write(k, v)]
    case Group(ws) => ws
  }

  /** Consecutive revisions above `base`, in the order of the writes. */
  function StampAll(ws: seq<Write>, base: nat): (r: seq<Logged>)
    ensures |r| == |ws|
    ensures forall i :: 0 <= i < |r| ==> r[i] == Logged(ws[i].key, ws[i].value, base + 1 + i)
  {
    if ws == [] then []
    else [Logged(ws[0].key, ws[0].value, base + 1)] + StampAll(ws[1..], base + 1)
  }

  function RecordOf(req: Request, base: nat): (r: Record)
    ensures OpsOf(r) == StampAll(WritesOf(req), base)
  {
    var ops := StampAll(WritesOf(req), base);
    if req.Group? then Batch(ops) else Single(ops[0])
  }

  /** Inserts a key into a strictly increasing sequence. */
  function InsertKey(ks: seq<Bytes>, k: Bytes): (r: seq<Bytes>)
    ensures forall x :: x in r <==> x == k || x in ks
  {
    if ks == [] || Less(k, ks[0]) then [k] + ks
    else if k == ks[0] then ks
    else [ks[0]] + InsertKey(ks[1..], k)
  }

  /** The distinct keys of a request in increasing order: the order of their locks. */
  function LockKeys(ws: seq<Write>): seq<Bytes>
  {
    if ws == [] then [] else InsertKey(LockKeys(ws[1..]), ws[0].key)
  }

  ghost predicate Touches(ws: seq<Write>, k: Bytes)
  {
    exists i :: 0 <= i < |ws| && ws[i].key == k
  }

  lemma {:induction false} LockKeysAreTheKeys(ws: seq<Write>, k: Bytes)
    ensures k in LockKeys(ws) <==> Touches(ws, k)
  {
    if ws != [] {
      LockKeysAreTheKeys(ws[1..], k);
      if Touches(ws[1..], k) {
        var i :| 0 <= i < |ws[1..]| && ws[1..][i].key == k;
        assert ws[i + 1].key == k;
      }
      if Touches(ws, k) && ws[0].key != k {
        var i :| 0 <= i < |ws| && ws[i].key == k;
        assert ws[1..][i - 1].key == k;
      }
    }
  }

  datatype Outcome = NothingToDo | CasFailed(current: Option<nat>) | Success(base: nat)

  /** How far a call has come. `base` is the revision counter before its own revisions. */
  datatype Phase =
    | Waiting(got: nat)      // holds keys[..got], has a ticket in the queue of keys[got]
    | Running                // holds all its locks
    | Stamped(base: nat)     // has its revisions
    | Appended(base: nat)    // its record is in the log
    | Done(outcome: Outcome)

  datatype Op = Op(req: Request, keys: seq<Bytes>, phase: Phase)

  /** `arrivals` is history: every ticket ever pushed for a key, in order. */
  datatype State = State(revCounter: nat, queues: map<Bytes, seq<nat>>, mem: Mem,
                         log: seq<Record>, ops: seq<Op>, arrivals: map<Bytes, seq<nat>>)

  const INITIAL: State := State(0, map[], map[], [], [], map[])

  // ---------------------------------------------------------------- lock queues

  function Q(queues: map<Bytes, seq<nat>>, k: Bytes): seq<nat>
  {
    if k in queues then queues[k] else []
  }

  /** A new ticket at the end of the key's queue. */
  function Enqueue(queues: map<Bytes, seq<nat>>, k: Bytes, o: nat): map<Bytes, seq<nat>>
  {
    queues[k := Q(queues, k) + [o]]
  }

  /** The unlock function of a key: the head leaves, and an empty queue is dropped. */
  function Unlock(queues: map<Bytes, seq<nat>>, k: Bytes): map<Bytes, seq<nat>>
  {
    if |Q(queues, k)| <= 1 then queues - {k} else queues[k := queues[k][1..]]
  }

  /** Releases the locks in reverse order. */
  function UnlockAll(queues: map<Bytes, seq<nat>>, ks: seq<Bytes>): map<Bytes, seq<nat>>
    decreases |ks|
  {
    if ks == [] then queues else UnlockAll(Unlock(queues, ks[|ks| - 1]), ks[..|ks| - 1])
  }

  // ---------------------------------------------------------------- the steps

  datatype Action = Submit(req: Request) | Acquire(o: nat) | Stamp(o: nat) | Append(o: nat) | Apply(o: nat)

  function SetPhase(s: State, o: nat, p: Phase): State
    requires o < |s.ops|
  {
    s.(ops := s.ops[o := s.ops[o].(phase := p)])
  }

  /** Takes a ticket for `k`. */
  function Ticket(s: State, k: Bytes, o: nat): State
  {
    s.(queues := Enqueue(s.queues, k, o), arrivals := Enqueue(s.arrivals, k, o))
  }

  /** The call starts and queues for its first key; a group without writes returns at once. */
  function SubmitStep(s: State, req: Request): State
  {
    var keys := LockKeys(WritesOf(req));
    var o := |s.ops|;
    if keys == [] then s.(ops := s.ops + [Op(req, keys, Done(NothingToDo))])
    else Ticket(s.(ops := s.ops + [Op(req, keys, Waiting(0))]), keys[0], o)
  }

  /** The ticket at the head of the queue has been called: the lock is held. */
  predicate CanAcquire(s: State, o: nat)
  {
    && o < |s.ops|
    && s.ops[o].phase.Waiting?
    && s.ops[o].phase.got < |s.ops[o].keys|
    && var q := Q(s.queues, s.ops[o].keys[s.ops[o].phase.got]);
       q != [] && q[0] == o
  }

  function AcquireStep(s: State, o: nat): State
    requires CanAcquire(s, o)
  {
    var op := s.ops[o];
    var got := op.phase.got + 1;
    if got == |op.keys| then SetPhase(s, o, Running)
    else Ticket(SetPhase(s, o, Waiting(got)), op.keys[got], o)
  }

  function CurrentRev(m: Mem, k: Bytes): Option<nat>
  {
    if k in m then Some(m[k].rev) else None
  }

  predicate CasMismatch(s: State, req: Request)
  {
    req.Cas? && CurrentRev(s.mem, req.key) != req.expected
  }

  /** A compare that fails: the call returns what it found, and unlocks. */
  function Refuse(s: State, o: nat, current: Option<nat>): State
    requires o < |s.ops|
  {
    SetPhase(s, o, Done(CasFailed(current))).(queues := UnlockAll(s.queues, s.ops[o].keys))
  }

  /** Everything else takes its revisions. */
  function TakeRevs(s: State, o: nat): State
    requires o < |s.ops|
  {
    SetPhase(s, o, Stamped(s.revCounter)).(revCounter := s.revCounter + |WritesOf(s.ops[o].req)|)
  }

  function StampStep(s: State, o: nat): State
    requires o < |s.ops|
  {
    var req := s.ops[o].req;
    if CasMismatch(s, req) then Refuse(s, o, CurrentRev(s.mem, req.key)) else TakeRevs(s, o)
  }

  function AppendStep(s: State, o: nat): State
    requires o < |s.ops| && s.ops[o].phase.Stamped?
  {
    var base := s.ops[o].phase.base;
    SetPhase(s, o, Appended(base)).(log := s.log + [RecordOf(s.ops[o].req, base)])
  }

  function ApplyStep(s: State, o: nat): State
    requires o < |s.ops| && s.ops[o].phase.Appended?
  {
    var op := s.ops[o];
    var base := op.phase.base;
    SetPhase(s, o, Done(Success(base))).(mem := ApplyAll(s.mem, StampAll(WritesOf(op.req), base)),
                                         queues := UnlockAll(s.queues, op.keys))
  }

  /** `None` when the action is not possible in `s`. */
  function Step(s: State, a: Action): Option<State>
  {
    match a
    case Submit(req) => Some(SubmitStep(s, req))
    case Acquire(o) => if CanAcquire(s, o) then Some(AcquireStep(s, o)) else None
    case Stamp(o) => if o < |s.ops| && s.ops[o].phase.Running? then Some(StampStep(s, o)) else None
    case Append(o) => if o < |s.ops| && s.ops[o].phase.Stamped? then Some(AppendStep(s, o)) else None
    case Apply(o) => if o < |s.ops| && s.ops[o].phase.Appended? then Some(ApplyStep(s, o)) else None
  }

  function Run(s: State, actions: seq<Action>): Option<State>
    decreases |actions|
  {
    if actions == [] then Some(s)
    else
      var t := Step(s, actions[0]);
      if t == None then None else Run(t.value, actions[1..])
  }

  // ---------------------------------------------------------------- facts about the definitions

  lemma {:induction false} ApplyAllAtCell(m: Mem, ls: seq<Logged>, k: Bytes)
    ensures Cell(ApplyAll(m, ls), k) == FoldCell(Cell(m, k), ls, k)
    decreases |ls|
  {
    if ls != [] {
      ApplyAllAtCell(ApplyOne(m, ls[0]), ls[1..], k);
    }
  }

  lemma {:induction false} FoldCellConcat(c: Option<MemValue>, a: seq<Logged>, b: seq<Logged>, k: Bytes)
    ensures FoldCell(c, a + b, k) == FoldCell(FoldCell(c, a, k), b, k)
    decreases |a|
  {
    if a == [] {
      assert a + b == b;
    } else {
      assert (a + b)[1..] == a[1..] + b;
      FoldCellConcat(if a[0].key == k then ApplyCell(c, a[0]) else c, a[1..], b, k);
    }
  }

  lemma {:induction false} FoldCellElsewhere(c: Option<MemValue>, ls: seq<Logged>, k: Bytes)
    requires forall i :: 0 <= i < |ls| ==> ls[i].key != k
    ensures FoldCell(c, ls, k) == c
    decreases |ls|
  {
    if ls != [] {
      FoldCellElsewhere(c, ls[1..], k);
    }
  }

  lemma {:induction false} LogOpsSnoc(log: seq<Record>, r: Record)
    ensures LogOps(log + [r]) == LogOps(log) + OpsOf(r)
  {
    if log == [] {
      assert (log + [r])[1..] == [];
    } else {
      assert (log + [r])[1..] == log[1..] + [r];
      LogOpsSnoc(log[1..], r);
    }
  }

  /** Replay, seen at a key that is not empty, applies every logged operation in order. */
  lemma {:induction false} ReplayAtCell(r: Replayed, ls: seq<Logged>, k: Bytes)
    requires k != []
    ensures Cell(ReplayOps(r, ls).mem, k) == FoldCell(Cell(r.mem, k), ls, k)
    decreases |ls|
  {
    if ls != [] {
      ReplayAtCell(ReplayOp(r, ls[0]), ls[1..], k);
    }
  }

  /** The empty key is never rebuilt. */
  lemma {:induction false} ReplayNeverHoldsEmptyKey(r: Replayed, ls: seq<Logged>)
    requires [] !in r.mem
    ensures [] !in ReplayOps(r, ls).mem
    decreases |ls|
  {
    if ls != [] {
      ReplayNeverHoldsEmptyKey(ReplayOp(r, ls[0]), ls[1..]);
    }
  }

  /** The rebuilt counter is the highest replayed revision. */
  lemma {:induction false} ReplayCounter(r: Replayed, ls: seq<Logged>)
    ensures var t := ReplayOps(r, ls).revCounter;
            && r.revCounter <= t
            && (forall i :: 0 <= i < |ls| && ls[i].key != [] ==> ls[i].rev <= t)
            && (t == r.revCounter || exists i :: 0 <= i < |ls| && ls[i].rev == t)
    decreases |ls|
  {
    if ls != [] {
      var r' := ReplayOp(r, ls[0]);
      ReplayCounter(r', ls[1..]);
      assert forall i :: 0 < i < |ls| ==> ls[i] == ls[1..][i - 1];
      var t := ReplayOps(r, ls).revCounter;
      if t != r'.revCounter {
        var i :| 0 <= i < |ls[1..]| && ls[1..][i].rev == t;
        assert ls[i + 1].rev == t;
      }
    }
  }

  ghost predicate Increasing(ks: seq<Bytes>)
  {
    forall i, j :: 0 <= i < j < |ks| ==> Less(ks[i], ks[j])
  }

  lemma {:induction false} InsertKeyIncreasing(ks: seq<Bytes>, k: Bytes)
    requires Increasing(ks)
    ensures Increasing(InsertKey(ks, k))
  {
    if ks != [] {
      if Less(k, ks[0]) {
        forall j | 0 <= j < |ks|
          ensures Less(k, ks[j])
        {
          if j > 0 {
            LessTransitive(k, ks[0], ks[j]);
          }
        }
      } else if k != ks[0] {
        LessConnected(k, ks[0]);
        InsertKeyIncreasing(ks[1..], k);
        var r := InsertKey(ks[1..], k);
        forall j | 0 <= j < |r|
          ensures Less(ks[0], r[j])
        {
          assert r[j] in r;
          if r[j] != k {
            var i :| 0 <= i < |ks[1..]| && ks[1..][i] == r[j];
            assert Less(ks[0], ks[i + 1]);
          }
        }
      }
    }
  }

  lemma {:induction false} LockKeysIncreasing(ws: seq<Write>)
    ensures Increasing(LockKeys(ws))
  {
    if ws != [] {
      LockKeysIncreasing(ws[1..]);
      InsertKeyIncreasing(LockKeys(ws[1..]), ws[0].key);
    }
  }

  lemma IncreasingDistinct(ks: seq<Bytes>)
    requires Increasing(ks)
    ensures forall i, j :: 0 <= i < j < |ks| ==> ks[i] != ks[j]
  {
    forall i, j | 0 <= i < j < |ks|
      ensures ks[i] != ks[j]
    {
      LessIrreflexive(ks[i]);
    }
  }

  /** Unlocking distinct keys takes the head off exactly their queues. */
  lemma {:induction false} UnlockAllQueues(queues: map<Bytes, seq<nat>>, ks: seq<Bytes>, k: Bytes)
    requires forall i, j :: 0 <= i < j < |ks| ==> ks[i] != ks[j]
    ensures Q(UnlockAll(queues, ks), k) ==
            if k in ks && Q(queues, k) != [] then Q(queues, k)[1..] else Q(queues, k)
    decreases |ks|
  {
    if ks != [] {
      var init, last := ks[..|ks| - 1], ks[|ks| - 1];
      assert ks == init + [last];
      assert last !in init;
      UnlockAllQueues(Unlock(queues, last), init, k);
    }
  }
}
