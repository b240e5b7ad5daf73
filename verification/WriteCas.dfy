/** Compare-and-swap: how many calls with the same key and expectation can succeed. */
module WriteCas {
  import opened Bytes
  import opened WriteModel
  import opened WriteLocks
  import opened WriteReplay

  ghost predicate InFlight(op: Op)
  {
    op.phase.Stamped? || op.phase.Appended?
  }

  ghost predicate Succeeded(op: Op)
  {
    op.phase.Done? && op.phase.outcome.Success?
  }

  /** No call so far deletes `k`. */
  ghost predicate NeverDeleted(ops: seq<Op>, k: Bytes)
  {
    forall o, i :: 0 <= o < |ops| && 0 <= i < |WritesOf(ops[o].req)| && WritesOf(ops[o].req)[i].key == k ==>
      WritesOf(ops[o].req)[i].value.Some?
  }

  /** A compare-and-swap on `k` with expectation `e` that found what it expected. */
  ghost predicate Winner(op: Op, k: Bytes, e: Option<nat>)
  {
    op.req.Cas? && op.req.key == k && op.req.expected == e && (InFlight(op) || Succeeded(op))
  }

  ghost predicate OneWinner(ops: seq<Op>, k: Bytes, e: Option<nat>)
  {
    forall a, b :: 0 <= a < |ops| && 0 <= b < |ops| && Winner(ops[a], k, e) && Winner(ops[b], k, e) ==> a == b
  }

  /** Whatever a finished call wrote has been kept, deleted, or overwritten by newer revisions. */
  ghost predicate DoneOk(s: State, op: Op)
  {
    Succeeded(op) ==>
      var base := op.phase.outcome.base;
      && base < s.revCounter
      && (forall k :: k in op.keys && k in s.mem ==> base < s.mem[k].rev)
      && (forall k :: k in op.keys && NeverDeleted(s.ops, k) ==> k in s.mem)
      && (op.req.Cas? && op.req.expected.Some? ==> op.req.expected.value <= base)
  }

  /** A call in flight still sees what it compared with, and is newer than every finished
      call that shares a key with it. */
  ghost predicate FlightOk(s: State, op: Op)
  {
    InFlight(op) ==>
      && (op.req.Cas? ==> CurrentRev(s.mem, op.req.key) == op.req.expected)
      && forall a, k :: 0 <= a < |s.ops| && Succeeded(s.ops[a]) && k in s.ops[a].keys && k in op.keys ==>
           s.ops[a].phase.outcome.base < op.phase.base
  }

  ghost predicate CasInv(s: State)
  {
    && (forall o :: 0 <= o < |s.ops| ==> DoneOk(s, s.ops[o]))
    && (forall o :: 0 <= o < |s.ops| ==> FlightOk(s, s.ops[o]))
    && (forall k, e: Option<nat> :: e.Some? || NeverDeleted(s.ops, k) ==> OneWinner(s.ops, k, e))
  }

  // ---------------------------------------------------------------- small facts

  lemma CasKeys(op: Op)
    requires OpOk(op) && op.req.Cas?
    ensures op.keys == [op.req.key]
  {
    var ws := WritesOf(op.req);
    assert ws[1..] == [];
    assert LockKeys(ws[1..]) == [];
  }

  /** A step changes at most one call, and never what was asked for. */
  ghost predicate Evolves(ops: seq<Op>, ops': seq<Op>, o: nat)
  {
    && OnlyChanged(ops, ops', o)
    && (o < |ops| ==> ops'[o].req == ops[o].req && ops'[o].keys == ops[o].keys)
  }

  lemma StillNeverDeleted(ops: seq<Op>, ops': seq<Op>, o: nat, k: Bytes)
    requires Evolves(ops, ops', o) && NeverDeleted(ops', k)
    ensures NeverDeleted(ops, k)
  {
    forall p, i | 0 <= p < |ops| && 0 <= i < |WritesOf(ops[p].req)| && WritesOf(ops[p].req)[i].key == k
      ensures WritesOf(ops[p].req)[i].value.Some?
    {
      assert ops'[p].req == ops[p].req;
    }
  }

  /** After operations on `k`, its cell is gone or stems from one of them. */
  lemma {:induction false} FoldCellTouched(c: Option<MemValue>, ls: seq<Logged>, k: Bytes, base: nat)
    requires exists i :: 0 <= i < |ls| && ls[i].key == k
    requires forall i :: 0 <= i < |ls| ==> base < ls[i].rev
    ensures FoldCell(c, ls, k).Some? ==> base < FoldCell(c, ls, k).value.rev
    decreases |ls|
  {
    if ls[0].key == k {
      FoldCellOrigin(ApplyCell(c, ls[0]), ls[1..], k);
    } else {
      var i :| 0 <= i < |ls| && ls[i].key == k;
      assert ls[1..][i - 1].key == k;
      FoldCellTouched(c, ls[1..], k, base);
    }
  }

  lemma {:induction false} FoldCellLive(c: Option<MemValue>, ls: seq<Logged>, k: Bytes)
    requires forall i :: 0 <= i < |ls| && ls[i].key == k ==> ls[i].value.Some?
    requires c.Some? || exists i :: 0 <= i < |ls| && ls[i].key == k
    ensures FoldCell(c, ls, k).Some?
    decreases |ls|
  {
    if ls != [] {
      var c' := if ls[0].key == k then ApplyCell(c, ls[0]) else c;
      if c' == None {
        var i :| 0 <= i < |ls| && ls[i].key == k;
        assert ls[1..][i - 1].key == k;
      }
      FoldCellLive(c', ls[1..], k);
    }
  }

  // ---------------------------------------------------------------- preservation

  /** Steps that leave memtable and finished calls alone. */
  lemma QuietKeepsDone(s: State, t: State, o: nat)
    requires CasInv(s) && Evolves(s.ops, t.ops, o) && t.mem == s.mem && s.revCounter <= t.revCounter
    requires !Succeeded(t.ops[o])
    ensures forall p :: 0 <= p < |t.ops| ==> DoneOk(t, t.ops[p])
  {
    forall p | 0 <= p < |t.ops|
      ensures DoneOk(t, t.ops[p])
    {
      if p != o {
        assert DoneOk(s, s.ops[p]);
        forall k | k in t.ops[p].keys && Succeeded(t.ops[p]) && NeverDeleted(t.ops, k)
          ensures k in t.mem
        {
          StillNeverDeleted(s.ops, t.ops, o, k);
        }
      }
    }
  }

  lemma QuietKeepsFlight(s: State, t: State, o: nat)
    requires CasInv(s) && Evolves(s.ops, t.ops, o) && t.mem == s.mem
    requires !Succeeded(t.ops[o]) && (o < |s.ops| ==> !Succeeded(s.ops[o]))
    requires InFlight(t.ops[o]) ==> o < |s.ops| && InFlight(s.ops[o]) && t.ops[o].phase.base == s.ops[o].phase.base
    ensures forall p :: 0 <= p < |t.ops| ==> FlightOk(t, t.ops[p])
  {
    forall p | 0 <= p < |t.ops|
      ensures FlightOk(t, t.ops[p])
    {
      if InFlight(t.ops[p]) {
        assert FlightOk(s, s.ops[p]);
      }
    }
  }

  lemma SameWinners(s: State, t: State, o: nat, k: Bytes, e: Option<nat>)
    requires Evolves(s.ops, t.ops, o) && OneWinner(s.ops, k, e)
    requires Winner(t.ops[o], k, e) ==> o < |s.ops| && Winner(s.ops[o], k, e)
    ensures OneWinner(t.ops, k, e)
  {
  }

  lemma SameWinnersAll(s: State, t: State, o: nat)
    requires CasInv(s) && Evolves(s.ops, t.ops, o)
    requires InFlight(t.ops[o]) || Succeeded(t.ops[o]) ==>
               o < |s.ops| && (InFlight(s.ops[o]) || Succeeded(s.ops[o]))
    ensures forall k, e: Option<nat> :: e.Some? || NeverDeleted(t.ops, k) ==> OneWinner(t.ops, k, e)
  {
    forall k, e: Option<nat> | e.Some? || NeverDeleted(t.ops, k)
      ensures OneWinner(t.ops, k, e)
    {
      if NeverDeleted(t.ops, k) {
        StillNeverDeleted(s.ops, t.ops, o, k);
      }
      SameWinners(s, t, o, k, e);
    }
  }

  lemma QuietKeepsCas(s: State, a: Action)
    requires CasInv(s) && Step(s, a).Some? && (a.Submit? || a.Acquire? || a.Append?)
    ensures CasInv(Step(s, a).value)
  {
    var t := Step(s, a).value;
    var o := if a.Submit? then |s.ops| else a.o;
    if a.Submit? {
      SubmitShape(s, a.req, []);
      assert forall i :: 0 <= i < |s.ops| ==> t.ops[i] == t.ops[..|s.ops|][i];
      assert !Succeeded(t.ops[o]);
    }
    QuietKeepsDone(s, t, o);
    QuietKeepsFlight(s, t, o);
    SameWinnersAll(s, t, o);
  }

  /** A compare that finds its expectation is the first one to do so. */
  lemma NewWinnerIsAlone(s: State, o: nat, k: Bytes, e: Option<nat>, a: nat)
    requires LockInv(s) && CasInv(s) && o < |s.ops| && s.ops[o].phase.Running?
    requires s.ops[o].req.Cas? && s.ops[o].req.key == k && CurrentRev(s.mem, k) == e
    requires e.Some? || NeverDeleted(s.ops, k)
    requires a < |s.ops|
    ensures !Winner(s.ops[a], k, e)
  {
    assert OpOk(s.ops[o]) && OpOk(s.ops[a]) && DoneOk(s, s.ops[a]);
    CasKeys(s.ops[o]);
    if s.ops[a].req.Cas? {
      CasKeys(s.ops[a]);
    }
    if Winner(s.ops[a], k, e) && InFlight(s.ops[a]) {
      assert Holds(s.ops[a], k) && Holds(s.ops[o], k);
      HoldersAreUnique(s, k, a, o);
    }
  }

  lemma StampKeepsWinners(s: State, o: nat)
    requires LockInv(s) && CasInv(s) && o < |s.ops| && s.ops[o].phase.Running?
    requires !CasMismatch(s, s.ops[o].req)
    ensures var t := StampStep(s, o);
            forall k, e: Option<nat> :: e.Some? || NeverDeleted(t.ops, k) ==> OneWinner(t.ops, k, e)
  {
    var t := StampStep(s, o);
    assert Evolves(s.ops, t.ops, o);
    forall k, e: Option<nat> | e.Some? || NeverDeleted(t.ops, k)
      ensures OneWinner(t.ops, k, e)
    {
      if NeverDeleted(t.ops, k) {
        StillNeverDeleted(s.ops, t.ops, o, k);
      }
      if Winner(t.ops[o], k, e) {
        forall a | 0 <= a < |s.ops|
          ensures !Winner(s.ops[a], k, e)
        {
          NewWinnerIsAlone(s, o, k, e, a);
        }
      } else {
        SameWinners(s, t, o, k, e);
      }
    }
  }

  lemma StampKeepsCas(s: State, o: nat)
    requires LockInv(s) && RevInv(s) && CasInv(s) && o < |s.ops| && s.ops[o].phase.Running?
    ensures CasInv(StampStep(s, o))
  {
    var t := StampStep(s, o);
    assert Evolves(s.ops, t.ops, o);
    QuietKeepsDone(s, t, o);
    if CasMismatch(s, s.ops[o].req) {
      QuietKeepsFlight(s, t, o);
      SameWinnersAll(s, t, o);
    } else {
      StampKeepsWinners(s, o);
      forall p | 0 <= p < |t.ops|
        ensures FlightOk(t, t.ops[p])
      {
        assert FlightOk(s, s.ops[p]);
        assert forall a :: 0 <= a < |s.ops| ==> DoneOk(s, s.ops[a]);
      }
    }
  }

  /** The memtable update of call `o`, seen by a finished call. */
  lemma ApplyKeepsDone(s: State, o: nat, p: nat)
    requires Inv(s) && CasInv(s) && o < |s.ops| && s.ops[o].phase.Appended? && p < |s.ops|
    ensures DoneOk(ApplyStep(s, o), ApplyStep(s, o).ops[p])
  {
    var t := ApplyStep(s, o);
    var op := s.ops[o];
    assert OpOk(op) && StampOk(s, op) && FlightOk(s, op) && DoneOk(s, s.ops[p]);
    assert Evolves(s.ops, t.ops, o);
    if Succeeded(t.ops[p]) {
      forall k | k in t.ops[p].keys
        ensures k in t.mem ==> t.ops[p].phase.outcome.base < t.mem[k].rev
        ensures NeverDeleted(t.ops, k) ==> k in t.mem
      {
        AppliedCellOf(s, o, k);
        if NeverDeleted(t.ops, k) {
          StillNeverDeleted(s.ops, t.ops, o, k);
        }
      }
      assert LockKeys([]) == [];
      if p == o && op.req.Cas? && op.req.expected.Some? {
        CasKeys(op);
      }
    }
  }

  lemma AppliedCellOf(s: State, o: nat, k: Bytes)
    requires Inv(s) && o < |s.ops| && s.ops[o].phase.Appended?
    ensures var m := ApplyStep(s, o).mem;
            var op := s.ops[o];
            && (k !in op.keys ==> Cell(m, k) == Cell(s.mem, k))
            && (k in op.keys && k in m ==> op.phase.base < m[k].rev)
            && (NeverDeleted(s.ops, k) && (k in op.keys || k in s.mem) ==> k in m)
  {
    var op := s.ops[o];
    var ls := OpsInFlight(op);
    assert OpOk(op);
    ApplyAllAtCell(s.mem, ls, k);
    LockKeysAreTheKeys(WritesOf(op.req), k);
    if k in op.keys {
      var i :| 0 <= i < |WritesOf(op.req)| && WritesOf(op.req)[i].key == k;
      assert ls[i].key == k;
      FoldCellTouched(Cell(s.mem, k), ls, k, op.phase.base);
      if NeverDeleted(s.ops, k) {
        FoldCellLive(Cell(s.mem, k), ls, k);
      }
    } else {
      InFlightElsewhere(op, Cell(s.mem, k), k);
    }
  }

  lemma ApplyKeepsFlight(s: State, o: nat, p: nat)
    requires Inv(s) && CasInv(s) && o < |s.ops| && s.ops[o].phase.Appended? && p < |s.ops|
    ensures FlightOk(ApplyStep(s, o), ApplyStep(s, o).ops[p])
  {
    var t := ApplyStep(s, o);
    var op := s.ops[p];
    assert FlightOk(s, op) && OpOk(op) && OpOk(s.ops[o]);
    if InFlight(t.ops[p]) {
      forall k | k in op.keys
        ensures k !in s.ops[o].keys
      {
        if k in s.ops[o].keys {
          assert Holds(op, k) && Holds(s.ops[o], k);
          HoldersAreUnique(s, k, p, o);
        }
      }
      if op.req.Cas? {
        CasKeys(op);
        AppliedCellOf(s, o, op.req.key);
        assert Cell(t.mem, op.req.key) == Cell(s.mem, op.req.key);
      }
    }
  }

  lemma ApplyKeepsCas(s: State, o: nat)
    requires Inv(s) && CasInv(s) && o < |s.ops| && s.ops[o].phase.Appended?
    ensures CasInv(ApplyStep(s, o))
  {
    var t := ApplyStep(s, o);
    assert Evolves(s.ops, t.ops, o);
    SameWinnersAll(s, t, o);
    forall p | 0 <= p < |t.ops|
      ensures DoneOk(t, t.ops[p]) && FlightOk(t, t.ops[p])
    {
      ApplyKeepsDone(s, o, p);
      ApplyKeepsFlight(s, o, p);
    }
  }

  lemma {:induction false} RunKeepsCas(s: State, actions: seq<Action>)
    requires Inv(s) && CasInv(s) && Run(s, actions).Some?
    ensures CasInv(Run(s, actions).value)
    decreases |actions|
  {
    if actions != [] {
      match actions[0] {
        case Stamp(o) => StampKeepsCas(s, o);
        case Apply(o) => ApplyKeepsCas(s, o);
        case _ => QuietKeepsCas(s, actions[0]);
      }
      StepKeepsInv(s, actions[0]);
      RunKeepsCas(Step(s, actions[0]).value, actions[1..]);
    }
  }

  /** In every run without flushes, at most one compare-and-swap per key and revision succeeds; for
      the expectation "absent" as long as the run does not delete the key. */
  lemma CasHasOneWinner(actions: seq<Action>, k: Bytes, e: Option<nat>)
    requires Run(INITIAL, actions).Some?
    requires e.Some? || NeverDeleted(Run(INITIAL, actions).value.ops, k)
    ensures OneWinner(Run(INITIAL, actions).value.ops, k, e)
  {
    InitialInv();
    RunKeepsCas(INITIAL, actions);
  }

  // ---------------------------------------------------------------- with deletes it can fail

  /** The steps of a call whose key nobody else wants, up to its append. */
  function Begin(req: Request, o: nat): seq<Action>
  {
    [Submit(req), Acquire(o), Stamp(o), Append(o)]
  }

  /** The steps of a call that runs alone. */
  function Alone(req: Request, o: nat): seq<Action>
  {
    Begin(req, o) + [Apply(o)]
  }

  lemma RunFour(s: seq<State>, acts: seq<Action>)
    requires |s| == 5 && |acts| == 4
    requires forall i :: 0 <= i < 4 ==> Step(s[i], acts[i]) == Some(s[i + 1])
    ensures Run(s[0], acts) == Some(s[4])
  {
    assert acts == [acts[0], acts[1], acts[2], acts[3]];
    assert acts[3..] == [acts[3]] && acts[4..] == [];
    assert Run(s[3], acts[3..]) == Some(s[4]);
    assert acts[2..][1..] == acts[3..];
    assert Run(s[2], acts[2..]) == Some(s[4]);
    assert acts[1..][1..] == acts[2..];
    assert Run(s[1], acts[1..]) == Some(s[4]);
  }

  lemma RunOne(s: State, a: Action)
    ensures Run(s, [a]) == Step(s, a)
  {
    assert [a][1..] == [];
  }

  lemma BeginEffect(s: State, req: Request, k: Bytes)
    requires k !in s.queues && LockKeys(WritesOf(req)) == [k] && !CasMismatch(s, req)
    ensures Run(s, Begin(req, |s.ops|)).Some?
    ensures var t := Run(s, Begin(req, |s.ops|)).value;
            && t.queues == s.queues[k := [|s.ops|]] && t.mem == s.mem
            && t.revCounter == s.revCounter + |WritesOf(req)|
            && t.log == s.log + [RecordOf(req, s.revCounter)]
            && t.ops == s.ops + [Op(req, [k], Appended(s.revCounter))]
  {
    hide LockKeys, StampAll, RecordOf, Run, WritesOf;
    var o := |s.ops|;
    var s1 := SubmitStep(s, req);
    assert [] + [o] == [o] && LockKeys(WritesOf(req))[0] == k;
    assert s1.queues == s.queues[k := [o]] && s1.ops == s.ops + [Op(req, [k], Waiting(0))];
    var s2 := SetPhase(s1, o, Running);
    assert AcquireStep(s1, o) == s2;
    var s3 := StampStep(s2, o);
    assert s3.ops[o] == Op(req, [k], Stamped(s.revCounter));
    var s4 := AppendStep(s3, o);
    assert s4.ops == s.ops + [Op(req, [k], Appended(s.revCounter))];
    RunFour([s, s1, s2, s3, s4], Begin(req, o));
  }

  lemma FinishEffect(s: State, o: nat, k: Bytes)
    requires o < |s.ops| && s.ops[o].phase.Appended? && s.ops[o].keys == [k] && k in s.queues && s.queues[k] == [o]
    ensures Run(s, [Apply(o)]).Some?
    ensures var t, op := Run(s, [Apply(o)]).value, s.ops[o];
            && t.queues == s.queues - {k} && t.log == s.log && t.revCounter == s.revCounter
            && t.mem == ApplyAll(s.mem, StampAll(WritesOf(op.req), op.phase.base))
            && t.ops == s.ops[o := op.(phase := Done(Success(op.phase.base)))]
  {
    hide ApplyAll, StampAll, WritesOf, Run;
    RunOne(s, Apply(o));
    assert [k][..0] == [];
    assert UnlockAll(Unlock(s.queues, k), []) == Unlock(s.queues, k);
  }

  /** Its effect, for a call with a single key. */
  lemma AloneEffect(s: State, req: Request, k: Bytes)
    requires k !in s.queues && LockKeys(WritesOf(req)) == [k] && !CasMismatch(s, req)
    ensures Run(s, Alone(req, |s.ops|)).Some?
    ensures var t := Run(s, Alone(req, |s.ops|)).value;
            && t.queues == s.queues
            && t.mem == ApplyAll(s.mem, StampAll(WritesOf(req), s.revCounter))
            && t.revCounter == s.revCounter + |WritesOf(req)|
            && t.log == s.log + [RecordOf(req, s.revCounter)]
            && t.ops == s.ops + [Op(req, [k], Done(Success(s.revCounter)))]
  {
    hide LockKeys, ApplyAll, StampAll, RecordOf, Run, WritesOf, Begin;
    var o := |s.ops|;
    BeginEffect(s, req, k);
    var t := Run(s, Begin(req, o)).value;
    FinishEffect(t, o, k);
    RunConcat(s, Begin(req, o), [Apply(o)]);
    assert s.queues[k := [o]] - {k} == s.queues;
  }

  lemma {:induction false} RunConcat(s: State, a: seq<Action>, b: seq<Action>)
    requires Run(s, a).Some?
    ensures Run(s, a + b) == Run(Run(s, a).value, b)
    decreases |a|
  {
    if a == [] {
      assert a + b == b;
    } else {
      assert (a + b)[1..] == a[1..] + b;
      RunConcat(Step(s, a[0]).value, a[1..], b);
    }
  }

  lemma OneKeyLocks(req: Request)
    requires !req.Group?
    ensures LockKeys(WritesOf(req)) == [req.key]
  {
    var ws := WritesOf(req);
    assert ws[1..] == [] && LockKeys([]) == [];
    assert InsertKey([], req.key) == [req.key];
  }

  lemma OneWriteApplied(m: Mem, req: Request, base: nat)
    requires !req.Group?
    ensures var w := WritesOf(req)[0];
            ApplyAll(m, StampAll(WritesOf(req), base)) == ApplyOne(m, Logged(w.key, w.value, base + 1))
  {
    var ls := StampAll(WritesOf(req), base);
    assert ls[1..] == [];
    assert ApplyAll(m, ls) == ApplyAll(ApplyOne(m, ls[0]), []);
  }

  /** Create, delete, create again: two swaps that expected an absent key both succeed. */
  lemma DeleteAllowsSecondWinner(k: Bytes, v: Bytes)
    ensures exists actions: seq<Action> ::
              Run(INITIAL, actions).Some? && !OneWinner(Run(INITIAL, actions).value.ops, k, None)
  {
    hide Run, Alone, LockKeys, StampAll, ApplyAll;
    var create, remove := Cas(k, None, Some(v)), Del(k);
    OneKeyLocks(create);
    OneKeyLocks(remove);
    AloneEffect(INITIAL, create, k);
    OneWriteApplied(map[], create, 0);
    var s1 := Run(INITIAL, Alone(create, 0)).value;
    assert s1.mem == map[k := MemValue(Some(v), 1)];
    AloneEffect(s1, remove, k);
    OneWriteApplied(s1.mem, remove, s1.revCounter);
    var s2 := Run(s1, Alone(remove, 1)).value;
    assert k !in s2.mem;
    AloneEffect(s2, create, k);
    var s3 := Run(s2, Alone(create, 2)).value;
    var actions := Alone(create, 0) + (Alone(remove, 1) + Alone(create, 2));
    RunConcat(INITIAL, Alone(create, 0), Alone(remove, 1) + Alone(create, 2));
    RunConcat(s1, Alone(remove, 1), Alone(create, 2));
    assert Run(INITIAL, actions) == Some(s3);
    assert Winner(s3.ops[0], k, None) && Winner(s3.ops[2], k, None);
  }
}
