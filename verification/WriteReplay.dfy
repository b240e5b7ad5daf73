/** What every interleaving of the write path keeps: the log rebuilds the memtable, revisions
    grow along the log, and a compare-and-swap has one winner. */
module WriteReplay {
  import opened Bytes
  import opened WriteModel
  import opened WriteLocks

  // ---------------------------------------------------------------- the invariants

  function OpsInFlight(op: Op): seq<Logged>
  {
    if op.phase.Stamped? || op.phase.Appended? then StampAll(WritesOf(op.req), op.phase.base) else []
  }

  /** Logged operations on `k` that the memtable has not seen: those of the holder of its
      lock, between the append and the memtable update. */
  function Unapplied(s: State, k: Bytes): seq<Logged>
  {
    var q := Q(s.queues, k);
    if q != [] && q[0] < |s.ops| && s.ops[q[0]].phase.Appended? then OpsInFlight(s.ops[q[0]]) else []
  }

  /** At every key, the memtable plus what is unapplied is what the log says. */
  ghost predicate MemOk(s: State, k: Bytes)
  {
    FoldCell(Cell(s.mem, k), Unapplied(s, k), k) == FoldCell(None, LogOps(s.log), k)
  }

  ghost predicate RevsBelow(ls: seq<Logged>, bound: nat)
  {
    forall i :: 0 <= i < |ls| ==> ls[i].rev <= bound
  }

  /** Along the log, the revisions of each key strictly increase. */
  ghost predicate RevsIncrease(ls: seq<Logged>)
  {
    forall i, j :: 0 <= i < j < |ls| && ls[i].key == ls[j].key ==> ls[i].rev < ls[j].rev
  }

  /** The revisions of a call are above everything the memtable has for its keys, and above
      everything logged for them until it appends its own record. */
  ghost predicate StampOk(s: State, op: Op)
  {
    op.phase.Stamped? || op.phase.Appended? ==>
      && op.phase.base + |WritesOf(op.req)| <= s.revCounter
      && (forall k :: k in op.keys && k in s.mem ==> s.mem[k].rev <= op.phase.base)
      && (op.phase.Stamped? ==>
            forall i :: 0 <= i < |LogOps(s.log)| && LogOps(s.log)[i].key in op.keys ==>
              LogOps(s.log)[i].rev <= op.phase.base)
  }

  ghost predicate RevInv(s: State)
  {
    && RevsBelow(LogOps(s.log), s.revCounter)
    && RevsIncrease(LogOps(s.log))
    && (forall k :: k in s.mem ==> s.mem[k].rev <= s.revCounter)
    && (forall o :: 0 <= o < |s.ops| ==> StampOk(s, s.ops[o]))
  }

  ghost predicate Inv(s: State)
  {
    LockInv(s) && RevInv(s) && (forall k :: MemOk(s, k))
  }

  // ---------------------------------------------------------------- small facts

  lemma WritesAreInKeys(op: Op)
    requires OpOk(op)
    ensures forall i :: 0 <= i < |WritesOf(op.req)| ==> WritesOf(op.req)[i].key in op.keys
  {
    var ws := WritesOf(op.req);
    forall i | 0 <= i < |ws|
      ensures ws[i].key in op.keys
    {
      LockKeysAreTheKeys(ws, ws[i].key);
    }
  }

  lemma InFlightElsewhere(op: Op, c: Option<MemValue>, k: Bytes)
    requires OpOk(op) && k !in op.keys
    ensures FoldCell(c, OpsInFlight(op), k) == c
  {
    WritesAreInKeys(op);
    FoldCellElsewhere(c, OpsInFlight(op), k);
  }

  /** A cell after some operations is the old one or stems from one of them. */
  lemma {:induction false} FoldCellOrigin(c: Option<MemValue>, ls: seq<Logged>, k: Bytes)
    ensures var d := FoldCell(c, ls, k);
            d == None || d == c || exists i :: 0 <= i < |ls| && ls[i].key == k && ls[i].rev == d.value.rev
    decreases |ls|
  {
    if ls != [] {
      var c' := if ls[0].key == k then ApplyCell(c, ls[0]) else c;
      FoldCellOrigin(c', ls[1..], k);
      var d := FoldCell(c, ls, k);
      if i :| 0 <= i < |ls[1..]| && ls[1..][i].key == k && d.Some? && ls[1..][i].rev == d.value.rev {
        assert ls[i + 1].key == k;
      }
    }
  }

  /** Only waiting calls and calls that are done do not hold what they claim. */
  lemma NextHeadWaits(s: State, t: State, o: nat, k: Bytes)
    requires LockInv(s) && Released(s, t, o) && k in s.ops[o].keys
    ensures Unapplied(t, k) == []
  {
    assert QueueOk(s, k) && OpOk(s.ops[o]);
    ReleaseKeepsQueues(s, t, o, k);
    var q := Q(t.queues, k);
    if q != [] {
      assert q[0] == Q(s.queues, k)[1];
      assert q[0] in Q(s.queues, k);
      assert q[0] != o && t.ops[q[0]] == s.ops[q[0]];
      assert !Holds(s.ops[q[0]], k);
    }
  }

  // ---------------------------------------------------------------- the memtable follows the log

  /** A submission adds one waiting or finished call and at most one ticket. */
  lemma SubmitShape(s: State, req: Request, k: Bytes)
    ensures var t := SubmitStep(s, req);
            && t.log == s.log && t.mem == s.mem && t.revCounter == s.revCounter
            && |t.ops| == |s.ops| + 1 && t.ops[..|s.ops|] == s.ops
            && !t.ops[|s.ops|].phase.Stamped? && !t.ops[|s.ops|].phase.Appended?
            && (Q(t.queues, k) == Q(s.queues, k) || Q(t.queues, k) == Q(s.queues, k) + [|s.ops|])
  {
  }

  lemma SubmitKeepsMem(s: State, req: Request, k: Bytes)
    requires QueueOk(s, k) && MemOk(s, k)
    ensures MemOk(SubmitStep(s, req), k)
  {
    SubmitShape(s, req, k);
    var t := SubmitStep(s, req);
    var q := Q(s.queues, k);
    if q != [] {
      assert q[0] in q;
      assert t.ops[..|s.ops|][q[0]] == s.ops[q[0]];
    }
    assert Unapplied(t, k) == Unapplied(s, k);
  }

  lemma AcquireKeepsMem(s: State, o: nat, k: Bytes)
    requires LockInv(s) && MemOk(s, k) && CanAcquire(s, o)
    ensures MemOk(AcquireStep(s, o), k)
  {
    hide FoldCell, LogOps, LockKeys, WritesOf, StampAll, Less;
    assert QueueOk(s, k);
    var q := Q(s.queues, k);
    if q != [] {
      assert q[0] in q;
    }
    assert Unapplied(AcquireStep(s, o), k) == Unapplied(s, k);
  }

  lemma RefuseKeepsMem(s: State, o: nat, current: Option<nat>, k: Bytes)
    requires LockInv(s) && MemOk(s, k) && o < |s.ops| && s.ops[o].phase.Running?
    ensures MemOk(Refuse(s, o, current), k)
  {
    var t := Refuse(s, o, current);
    assert QueueOk(s, k) && OpOk(s.ops[o]) && Released(s, t, o);
    ReleaseKeepsQueues(s, t, o, k);
    if k in s.ops[o].keys {
      NextHeadWaits(s, t, o, k);
      assert Unapplied(s, k) == [];
    } else {
      assert Unapplied(t, k) == Unapplied(s, k);
    }
  }

  lemma TakeRevsKeepsMem(s: State, o: nat, k: Bytes)
    requires LockInv(s) && MemOk(s, k) && o < |s.ops| && s.ops[o].phase.Running?
    ensures MemOk(TakeRevs(s, o), k)
  {
    assert QueueOk(s, k);
    assert Unapplied(TakeRevs(s, o), k) == Unapplied(s, k);
  }

  lemma NothingFolded(c: Option<MemValue>, k: Bytes)
    ensures FoldCell(c, [], k) == c
  {
  }

  lemma AppendKeepsMem(s: State, o: nat, k: Bytes)
    requires LockInv(s) && MemOk(s, k) && o < |s.ops| && s.ops[o].phase.Stamped?
    ensures MemOk(AppendStep(s, o), k)
  {
    hide FoldCell, LogOps, StampAll, LockKeys, WritesOf, Less;
    var t := AppendStep(s, o);
    var op := s.ops[o];
    var ops := OpsInFlight(op);
    assert QueueOk(s, k) && OpOk(op);
    LogOpsSnoc(s.log, RecordOf(op.req, op.phase.base));
    FoldCellConcat(None, LogOps(s.log), ops, k);
    if k in op.keys {
      assert Holds(op, k);
      assert Unapplied(s, k) == [] && Unapplied(t, k) == ops;
      NothingFolded(Cell(s.mem, k), k);
    } else {
      InFlightElsewhere(op, FoldCell(None, LogOps(s.log), k), k);
      if Q(s.queues, k) != [] {
        assert Q(s.queues, k)[0] in Q(s.queues, k);
      }
      assert Unapplied(t, k) == Unapplied(s, k);
    }
  }

  lemma ApplyKeepsMem(s: State, o: nat, k: Bytes)
    requires LockInv(s) && MemOk(s, k) && o < |s.ops| && s.ops[o].phase.Appended?
    ensures MemOk(ApplyStep(s, o), k)
  {
    hide FoldCell, ApplyAll, StampAll, LockKeys, WritesOf, UnlockAll, LogOps, Agrees, Cell;
    var t := ApplyStep(s, o);
    var op := s.ops[o];
    assert QueueOk(s, k) && OpOk(op) && Released(s, t, o);
    ReleaseKeepsQueues(s, t, o, k);
    ApplyAllAtCell(s.mem, OpsInFlight(op), k);
    if k in op.keys {
      HolderIsHead(s, o, k);
      NextHeadWaits(s, t, o, k);
      NothingFolded(Cell(t.mem, k), k);
    } else {
      InFlightElsewhere(op, Cell(s.mem, k), k);
      HeadClaims(s, k);
      assert Unapplied(t, k) == Unapplied(s, k);
    }
  }

  lemma StepKeepsMem(s: State, a: Action, k: Bytes)
    requires LockInv(s) && MemOk(s, k) && Step(s, a).Some?
    ensures MemOk(Step(s, a).value, k)
  {
    match a {
      case Submit(req) =>
        assert QueueOk(s, k);
        SubmitKeepsMem(s, req, k);
      case Acquire(o) => AcquireKeepsMem(s, o, k);
      case Stamp(o) =>
        if CasMismatch(s, s.ops[o].req) {
          RefuseKeepsMem(s, o, CurrentRev(s.mem, s.ops[o].req.key), k);
        } else {
          TakeRevsKeepsMem(s, o, k);
        }
      case Append(o) => AppendKeepsMem(s, o, k);
      case Apply(o) => ApplyKeepsMem(s, o, k);
    }
  }

  // ---------------------------------------------------------------- revisions

  lemma AppendKeepsRevs(s: State, o: nat)
    requires LockInv(s) && RevInv(s) && o < |s.ops| && s.ops[o].phase.Stamped?
    ensures RevInv(AppendStep(s, o))
  {
    hide LockInv, StampOk, RevsBelow, RevsIncrease, OpsInFlight, LogOps, RecordOf;
    var t := AppendStep(s, o);
    assert StampOk(s, s.ops[o]);
    AppendedLog(s, o);
    AppendExtends(s, o);
    forall p | 0 <= p < |t.ops|
      ensures StampOk(t, t.ops[p])
    {
      assert StampOk(s, s.ops[p]);
      AppendKeepsStamp(s, o, p);
    }
  }

  lemma AppendedLog(s: State, o: nat)
    requires o < |s.ops| && s.ops[o].phase.Stamped?
    ensures LogOps(AppendStep(s, o).log) == LogOps(s.log) + OpsInFlight(s.ops[o])
  {
    var op := s.ops[o];
    LogOpsSnoc(s.log, RecordOf(op.req, op.phase.base));
  }

  lemma AppendExtends(s: State, o: nat)
    requires LockInv(s) && o < |s.ops| && s.ops[o].phase.Stamped? && StampOk(s, s.ops[o])
    requires RevsBelow(LogOps(s.log), s.revCounter) && RevsIncrease(LogOps(s.log))
    ensures var ls := LogOps(s.log) + OpsInFlight(s.ops[o]); RevsBelow(ls, s.revCounter) && RevsIncrease(ls)
  {
    hide LogOps, WritesOf, RevsIncrease;
    assert OpOk(s.ops[o]);
    WritesAreInKeys(s.ops[o]);
    AppendKeepsIncrease(LogOps(s.log), OpsInFlight(s.ops[o]), s.ops[o]);
  }

  /** Whoever else has stamped its revisions holds other keys. */
  lemma AppendKeepsStamp(s: State, o: nat, p: nat)
    requires LockInv(s) && o < |s.ops| && s.ops[o].phase.Stamped? && p < |s.ops| && StampOk(s, s.ops[p])
    ensures StampOk(AppendStep(s, o), AppendStep(s, o).ops[p])
  {
    hide LockInv, LogOps, RecordOf;
    var t := AppendStep(s, o);
    AppendedLog(s, o);
    if p != o && s.ops[p].phase.Stamped? {
      var old' := LogOps(s.log);
      var all := old' + OpsInFlight(s.ops[o]);
      forall i | 0 <= i < |all| && all[i].key in t.ops[p].keys
        ensures all[i].rev <= t.ops[p].phase.base
      {
        if i >= |old'| {
          OtherKeys(s, o, p, i - |old'|);
        } else {
          assert all[i] == old'[i];
        }
      }
    }
  }

  lemma OtherKeys(s: State, o: nat, p: nat, i: nat)
    requires LockInv(s) && o < |s.ops| && p < |s.ops| && p != o
    requires s.ops[o].phase.Stamped? && s.ops[p].phase.Stamped? && i < |OpsInFlight(s.ops[o])|
    ensures OpsInFlight(s.ops[o])[i].key !in s.ops[p].keys
  {
    hide QueueOk;
    var k := OpsInFlight(s.ops[o])[i].key;
    assert OpOk(s.ops[o]);
    WritesAreInKeys(s.ops[o]);
    if k in s.ops[p].keys {
      assert Holds(s.ops[p], k) && Holds(s.ops[o], k);
      HoldersAreUnique(s, k, p, o);
    }
  }

  lemma AppendKeepsIncrease(old': seq<Logged>, new': seq<Logged>, op: Op)
    requires RevsIncrease(old') && new' == OpsInFlight(op) && op.phase.Stamped?
    requires forall i :: 0 <= i < |WritesOf(op.req)| ==> WritesOf(op.req)[i].key in op.keys
    requires forall i :: 0 <= i < |old'| && old'[i].key in op.keys ==> old'[i].rev <= op.phase.base
    ensures RevsIncrease(old' + new')
  {
  }

  lemma ApplyKeepsRevs(s: State, o: nat)
    requires LockInv(s) && RevInv(s) && o < |s.ops| && s.ops[o].phase.Appended?
    ensures RevInv(ApplyStep(s, o))
  {
    var t := ApplyStep(s, o);
    var op := s.ops[o];
    assert OpOk(op) && StampOk(s, op);
    forall k | k in t.mem
      ensures t.mem[k].rev <= s.revCounter
      ensures k !in op.keys ==> k in s.mem && t.mem[k] == s.mem[k]
    {
      AppliedCell(s, o, k);
    }
    forall p | 0 <= p < |t.ops|
      ensures StampOk(t, t.ops[p])
    {
      assert StampOk(s, s.ops[p]);
      if p != o && (s.ops[p].phase.Stamped? || s.ops[p].phase.Appended?) {
        forall k | k in t.ops[p].keys && k in t.mem
          ensures t.mem[k].rev <= t.ops[p].phase.base
        {
          if k in op.keys {
            assert Holds(s.ops[p], k) && Holds(s.ops[o], k);
            HoldersAreUnique(s, k, p, o);
          }
        }
      }
    }
  }

  /** A cell after the memtable update of call `o`. */
  lemma AppliedCell(s: State, o: nat, k: Bytes)
    requires o < |s.ops| && OpOk(s.ops[o]) && s.ops[o].phase.Appended? && StampOk(s, s.ops[o])
    requires forall k :: k in s.mem ==> s.mem[k].rev <= s.revCounter
    ensures var m := ApplyStep(s, o).mem;
            k in m ==>
              && m[k].rev <= s.revCounter
              && (k !in s.ops[o].keys ==> k in s.mem && m[k] == s.mem[k])
              && ((k in s.mem && m[k] == s.mem[k]) || m[k].rev > s.ops[o].phase.base)
  {
    var op := s.ops[o];
    ApplyAllAtCell(s.mem, OpsInFlight(op), k);
    FoldCellOrigin(Cell(s.mem, k), OpsInFlight(op), k);
    if k !in op.keys {
      InFlightElsewhere(op, Cell(s.mem, k), k);
    }
  }

  lemma SubmitKeepsRevs(s: State, req: Request)
    requires RevInv(s)
    ensures RevInv(SubmitStep(s, req))
  {
    SubmitShape(s, req, []);
    var t := SubmitStep(s, req);
    forall p | 0 <= p < |t.ops|
      ensures StampOk(t, t.ops[p])
    {
      if p < |s.ops| {
        assert t.ops[..|s.ops|][p] == s.ops[p];
        assert StampOk(s, s.ops[p]);
      }
    }
  }

  /** A step that at most takes new revisions for one call. */
  lemma QuietKeepsRevs(s: State, t: State, o: nat)
    requires RevInv(s) && t.log == s.log && t.mem == s.mem && s.revCounter <= t.revCounter
    requires |t.ops| == |s.ops| && OnlyChanged(s.ops, t.ops, o) && !t.ops[o].phase.Appended?
    requires t.ops[o].phase.Stamped? ==>
               t.ops[o].phase.base == s.revCounter && s.revCounter + |WritesOf(t.ops[o].req)| <= t.revCounter
    ensures RevInv(t)
  {
    hide LogOps, WritesOf;
    forall p | 0 <= p < |t.ops|
      ensures StampOk(t, t.ops[p])
    {
      assert StampOk(s, s.ops[p]);
    }
  }

  lemma AcquireOrStampKeepsRevs(s: State, a: Action)
    requires RevInv(s) && Step(s, a).Some? && (a.Acquire? || a.Stamp?)
    ensures RevInv(Step(s, a).value)
  {
    hide LogOps, LockKeys, WritesOf, UnlockAll, ApplyAll, StampAll, RecordOf, Less, Enqueue, RevInv;
    QuietKeepsRevs(s, Step(s, a).value, a.o);
  }

  // ---------------------------------------------------------------- all steps, all runs

  lemma StepKeepsInv(s: State, a: Action)
    requires Inv(s) && Step(s, a).Some?
    ensures Inv(Step(s, a).value)
  {
    StepKeepsLockInv(s, a);
    forall k
      ensures MemOk(Step(s, a).value, k)
    {
      StepKeepsMem(s, a, k);
    }
    match a {
      case Append(o) => AppendKeepsRevs(s, o);
      case Apply(o) => ApplyKeepsRevs(s, o);
      case Submit(req) => SubmitKeepsRevs(s, req);
      case _ => AcquireOrStampKeepsRevs(s, a);
    }
  }

  lemma {:induction false} RunKeepsInv(s: State, actions: seq<Action>)
    requires Inv(s) && Run(s, actions).Some?
    ensures Inv(Run(s, actions).value)
    decreases |actions|
  {
    if actions != [] {
      StepKeepsInv(s, actions[0]);
      RunKeepsInv(Step(s, actions[0]).value, actions[1..]);
    }
  }

  lemma InitialInv()
    ensures Inv(INITIAL)
  {
    assert LogOps([]) == [];
  }

  // ---------------------------------------------------------------- the main theorem

  /** The memtable once the calls that have appended have also applied. */
  function Settled(s: State, n: nat): Mem
    requires n <= |s.ops|
  {
    if n == 0 then s.mem
    else if s.ops[n - 1].phase.Appended? then ApplyAll(Settled(s, n - 1), OpsInFlight(s.ops[n - 1]))
    else Settled(s, n - 1)
  }

  /** The order in which they apply does not matter: at each key at most one has work left. */
  lemma {:induction false} SettledCell(s: State, n: nat, k: Bytes)
    requires LockInv(s) && n <= |s.ops|
    ensures Cell(Settled(s, n), k) ==
            if Q(s.queues, k) != [] && Q(s.queues, k)[0] < n then FoldCell(Cell(s.mem, k), Unapplied(s, k), k)
            else Cell(s.mem, k)
    decreases n
  {
    hide FoldCell, ApplyAll, OpsInFlight, Agrees, Cell, LockKeys, WritesOf;
    if n > 0 {
      SettledCell(s, n - 1, k);
      var op := s.ops[n - 1];
      assert OpOk(op) && QueueOk(s, k);
      HeadClaims(s, k);
      NothingFolded(Cell(s.mem, k), k);
      if op.phase.Appended? {
        ApplyAllAtCell(Settled(s, n - 1), OpsInFlight(op), k);
        if k in op.keys {
          HolderIsHead(s, n - 1, k);
        } else {
          InFlightElsewhere(op, Cell(Settled(s, n - 1), k), k);
          HeadClaims(s, k);
        }
      }
    }
  }

  lemma HeadClaims(s: State, k: Bytes)
    requires LockInv(s)
    ensures var q := Q(s.queues, k);
            q != [] ==> q[0] < |s.ops| && (!s.ops[q[0]].phase.Waiting? ==> k in s.ops[q[0]].keys)
  {
    assert QueueOk(s, k);
    var q := Q(s.queues, k);
    if q != [] {
      assert q[0] in q;
    }
  }

  lemma ReplayOfState(s: State)
    requires Inv(s)
    ensures Replay(s.log).mem == Settled(s, |s.ops|) - {[]}
  {
    var live := Settled(s, |s.ops|) - {[]};
    var rebuilt := Replay(s.log).mem;
    ReplayNeverHoldsEmptyKey(Replayed(map[], 0), LogOps(s.log));
    forall k
      ensures Cell(rebuilt, k) == Cell(live, k)
    {
      if k != [] {
        ReplayAtCell(Replayed(map[], 0), LogOps(s.log), k);
        SettledCell(s, |s.ops|, k);
        HeadClaims(s, k);
        assert MemOk(s, k);
      }
    }
    SameCells(rebuilt, live);
  }

  /** After any interleaving, replaying the log from empty gives the live memtable once the
      appended calls are applied, except for the empty key, which replay always skips. */
  lemma ReplayRebuildsMemtable(actions: seq<Action>)
    requires Run(INITIAL, actions).Some?
    ensures var s := Run(INITIAL, actions).value;
            Replay(s.log).mem == Settled(s, |s.ops|) - {[]}
  {
    InitialInv();
    RunKeepsInv(INITIAL, actions);
    ReplayOfState(Run(INITIAL, actions).value);
  }

  lemma SameCells(m: Mem, n: Mem)
    requires forall k :: Cell(m, k) == Cell(n, k)
    ensures m == n
  {
    forall k
      ensures k in m <==> k in n
      ensures k in m ==> k in n && m[k] == n[k]
    {
      assert Cell(m, k) == Cell(n, k);
    }
  }

  /** Replay is exact precisely when no write of the empty key has survived. */
  lemma ReplayExactIff(actions: seq<Action>)
    requires Run(INITIAL, actions).Some?
    ensures var s := Run(INITIAL, actions).value;
            Replay(s.log).mem == Settled(s, |s.ops|) <==> [] !in Settled(s, |s.ops|)
  {
    ReplayRebuildsMemtable(actions);
    var s := Run(INITIAL, actions).value;
    var live := Settled(s, |s.ops|);
    assert [] !in live ==> live - {[]} == live;
  }

  /** Along the log each key's revisions strictly increase, and the rebuilt counter lies
      between every replayed revision and the live counter. */
  lemma RevisionsGrowAlongTheLog(actions: seq<Action>)
    requires Run(INITIAL, actions).Some?
    ensures var s := Run(INITIAL, actions).value;
            && RevsIncrease(LogOps(s.log))
            && Replay(s.log).revCounter <= s.revCounter
            && forall i :: 0 <= i < |LogOps(s.log)| && LogOps(s.log)[i].key != [] ==>
                 LogOps(s.log)[i].rev <= Replay(s.log).revCounter
  {
    InitialInv();
    RunKeepsInv(INITIAL, actions);
    var s := Run(INITIAL, actions).value;
    ReplayCounter(Replayed(map[], 0), LogOps(s.log));
  }

  /** No reachable state is stuck. */
  lemma ReachableStatesProgress(actions: seq<Action>, o: nat)
    requires Run(INITIAL, actions).Some?
    requires Unfinished(Run(INITIAL, actions).value, o)
    ensures var s := Run(INITIAL, actions).value;
            exists a: Action :: !a.Submit? && Step(s, a).Some? && Work(Step(s, a).value.ops) < Work(s.ops)
  {
    InitialInv();
    RunKeepsInv(INITIAL, actions);
    var s := Run(INITIAL, actions).value;
    NoDeadlock(s, o);
    var a: Action :| !a.Submit? && Step(s, a).Some?;
    StepsAreProgress(s, a);
  }
}
