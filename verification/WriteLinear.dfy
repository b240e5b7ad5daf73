/** Where the compare-and-swaps stand in the log, and when a second one that expects an absent
    key can succeed. */
module WriteLinear {
  import opened Bytes
  import opened WriteModel
  import opened WriteLocks
  import opened WriteReplay
  import opened WriteCas

  function RevOf(c: Option<MemValue>): Option<nat>
  {
    if c == None then None else Some(c.value.rev)
  }

  /** The revisions of a call that has appended its record, finished or not. */
  ghost predicate HasLogged(op: Op, base: nat)
  {
    op.phase == Appended(base) || op.phase == Done(Success(base))
  }

  /** At `j` stands what a compare-and-swap wrote, and the log in front of it shows the revision
      that the call expected. */
  ghost predicate StandsAt(ls: seq<Logged>, op: Op, base: nat, j: nat)
    requires op.req.Cas?
  {
    && j < |ls|
    && ls[j] == Logged(op.req.key, op.req.newValue, base + 1)
    && RevOf(FoldCell(None, ls[..j], op.req.key)) == op.req.expected
  }

  ghost predicate Linear(s: State, op: Op)
  {
    forall base :: op.req.Cas? && HasLogged(op, base) ==> exists j :: StandsAt(LogOps(s.log), op, base, j)
  }

  ghost predicate AllLinear(s: State)
  {
    forall o :: 0 <= o < |s.ops| ==> Linear(s, s.ops[o])
  }

  // ---------------------------------------------------------------- every step keeps it

  lemma StillStands(ls: seq<Logged>, more: seq<Logged>, op: Op, base: nat, j: nat)
    requires op.req.Cas? && StandsAt(ls, op, base, j)
    ensures StandsAt(ls + more, op, base, j)
  {
    assert (ls + more)[..j] == ls[..j];
  }

  lemma StaysLinear(s: State, t: State, op: Op, more: seq<Logged>)
    requires Linear(s, op) && LogOps(t.log) == LogOps(s.log) + more
    ensures Linear(t, op)
  {
    hide LogOps, StandsAt;
    forall base | op.req.Cas? && HasLogged(op, base)
      ensures exists j :: StandsAt(LogOps(t.log), op, base, j)
    {
      var j :| StandsAt(LogOps(s.log), op, base, j);
      StillStands(LogOps(s.log), more, op, base, j);
    }
  }

  /** While a call holds the lock of a key, the log and the memtable agree on it. */
  lemma HolderSeesLog(s: State, o: nat, k: Bytes)
    requires Inv(s) && o < |s.ops| && k in s.ops[o].keys
    requires s.ops[o].phase.Running? || s.ops[o].phase.Stamped?
    ensures Cell(s.mem, k) == FoldCell(None, LogOps(s.log), k)
  {
    hide FoldCell, LogOps;
    assert OpOk(s.ops[o]) && QueueOk(s, k) && MemOk(s, k);
    assert Holds(s.ops[o], k);
    assert Unapplied(s, k) == [];
    NothingFolded(Cell(s.mem, k), k);
  }

  /** The record goes to the end of a log that shows what the call compared with. */
  lemma AppendIsLinear(s: State, o: nat)
    requires Inv(s) && CasInv(s) && AllLinear(s) && o < |s.ops| && s.ops[o].phase.Stamped?
    ensures AllLinear(AppendStep(s, o))
  {
    hide Inv, CasInv, LogOps, FoldCell, StandsAt, RecordOf;
    var t := AppendStep(s, o);
    AppendedOps(s, o);
    forall p | 0 <= p < |t.ops|
      ensures Linear(t, t.ops[p])
    {
      if p != o {
        StaysLinear(s, t, s.ops[p], OpsInFlight(s.ops[o]));
      } else if s.ops[o].req.Cas? {
        AppendedStands(s, o);
      }
    }
  }

  lemma AppendedOps(s: State, o: nat)
    requires Inv(s) && o < |s.ops| && s.ops[o].phase.Stamped?
    ensures LogOps(AppendStep(s, o).log) == LogOps(s.log) + OpsInFlight(s.ops[o])
  {
    AppendedLog(s, o);
  }

  lemma AppendedStands(s: State, o: nat)
    requires Inv(s) && CasInv(s) && o < |s.ops| && s.ops[o].phase.Stamped? && s.ops[o].req.Cas?
    ensures Linear(AppendStep(s, o), AppendStep(s, o).ops[o])
  {
    hide Inv, LogOps, FoldCell, RecordOf;
    var t := AppendStep(s, o);
    var op, ls := t.ops[o], LogOps(s.log);
    assert FlightOk(s, s.ops[o]);
    KeyIsLocked(s, o);
    HolderSeesLog(s, o, op.req.key);
    AppendedOps(s, o);
    assert OpsInFlight(s.ops[o])[0] == Logged(op.req.key, op.req.newValue, op.phase.base + 1);
    assert LogOps(t.log)[..|ls|] == ls;
    assert StandsAt(LogOps(t.log), op, op.phase.base, |ls|);
  }

  lemma KeyIsLocked(s: State, o: nat)
    requires Inv(s) && o < |s.ops| && s.ops[o].req.Cas?
    ensures s.ops[o].keys == [s.ops[o].req.key]
  {
    assert OpOk(s.ops[o]);
    CasKeys(s.ops[o]);
  }

  /** All other steps leave the log alone, and none lets a call seem to have logged. */
  lemma OtherStepIsLinear(s: State, a: Action)
    requires AllLinear(s) && Step(s, a).Some? && !a.Append?
    ensures AllLinear(Step(s, a).value)
  {
    hide LogOps, FoldCell, StandsAt, Step, HasLogged;
    var t := Step(s, a).value;
    OtherStepKeepsLog(s, a);
    assert LogOps(s.log) + [] == LogOps(s.log);
    forall p | 0 <= p < |t.ops|
      ensures Linear(t, t.ops[p])
    {
      OtherStepOfCall(s, a, p);
      if p < |s.ops| {
        StaysLinear(s, t, s.ops[p], []);
        SameRequest(t, s.ops[p], t.ops[p]);
      }
    }
  }

  lemma OtherStepKeepsLog(s: State, a: Action)
    requires Step(s, a).Some? && !a.Append?
    ensures Step(s, a).value.log == s.log
  {
    hide LockKeys, UnlockAll, ApplyAll, StampAll, WritesOf, CurrentRev;
  }

  lemma OtherStepOfCall(s: State, a: Action, p: nat)
    requires Step(s, a).Some? && !a.Append? && p < |Step(s, a).value.ops|
    ensures var next := Step(s, a).value.ops[p];
            if p < |s.ops| then
              next.req == s.ops[p].req && forall base :: HasLogged(next, base) ==> HasLogged(s.ops[p], base)
            else forall base :: !HasLogged(next, base)
  {
    hide LockKeys, UnlockAll, ApplyAll, StampAll, WritesOf, CurrentRev, Enqueue;
    if a.Submit? {
      var t := Step(s, a).value;
      SubmitShape(s, a.req, []);
      assert forall i :: 0 <= i < |s.ops| ==> t.ops[i] == t.ops[..|s.ops|][i];
    }
  }

  lemma SameRequest(t: State, op: Op, next: Op)
    requires Linear(t, op) && next.req == op.req
    requires forall base :: HasLogged(next, base) ==> HasLogged(op, base)
    ensures Linear(t, next)
  {
    hide LogOps, FoldCell;
    forall base | next.req.Cas? && HasLogged(next, base)
      ensures exists j :: StandsAt(LogOps(t.log), next, base, j)
    {
      var j :| StandsAt(LogOps(t.log), op, base, j);
      assert StandsAt(LogOps(t.log), next, base, j);
    }
  }

  lemma {:induction false} RunIsLinear(s: State, actions: seq<Action>)
    requires Inv(s) && CasInv(s) && AllLinear(s) && Run(s, actions).Some?
    ensures var t := Run(s, actions).value; Inv(t) && CasInv(t) && AllLinear(t)
    decreases |actions|
  {
    hide Inv, CasInv, AllLinear, Step;
    if actions != [] {
      var t := Step(s, actions[0]).value;
      StepKeepsAll(s, actions[0]);
      RunIsLinear(t, actions[1..]);
    }
  }

  lemma StepKeepsAll(s: State, a: Action)
    requires Inv(s) && CasInv(s) && AllLinear(s) && Step(s, a).Some?
    ensures var t := Step(s, a).value; Inv(t) && CasInv(t) && AllLinear(t)
  {
    hide Inv, CasInv, AllLinear;
    StepKeepsInv(s, a);
    RunOne(s, a);
    RunKeepsCas(s, [a]);
    if a.Append? {
      AppendIsLinear(s, a.o);
    } else {
      OtherStepIsLinear(s, a);
    }
  }

  /** Main result on order: in every run without flushes, the record of every compare-and-swap that has gone
      through stands where the log in front of it holds the expected revision of the key. */
  lemma CasStandsWhereExpected(actions: seq<Action>, o: nat, base: nat) returns (j: nat)
    requires Run(INITIAL, actions).Some?
    requires var s := Run(INITIAL, actions).value;
             o < |s.ops| && s.ops[o].req.Cas? && HasLogged(s.ops[o], base)
    ensures var s := Run(INITIAL, actions).value; StandsAt(LogOps(s.log), s.ops[o], base, j)
  {
    hide LogOps, FoldCell, Run, StandsAt;
    StartIsLinear();
    RunIsLinear(INITIAL, actions);
    var s := Run(INITIAL, actions).value;
    assert Linear(s, s.ops[o]);
    j :| StandsAt(LogOps(s.log), s.ops[o], base, j);
  }

  lemma StartIsLinear()
    ensures Inv(INITIAL) && CasInv(INITIAL) && AllLinear(INITIAL)
  {
    InitialInv();
  }

  // ---------------------------------------------------------------- absent again

  /** How many deletions of a key stand behind its last value. */
  function DeletesAtEnd(ls: seq<Logged>, k: Bytes): nat
    decreases |ls|
  {
    if ls == [] then 0
    else
      var init, last := ls[..|ls| - 1], ls[|ls| - 1];
      if last.key != k then DeletesAtEnd(init, k)
      else if last.value.Some? then 0
      else DeletesAtEnd(init, k) + 1
  }

  /** A deletion drops what is there, be it a tombstone, and marks what is not: a key that was
      there is gone after an odd number of them. */
  lemma {:induction false} GoneIff(c: MemValue, ls: seq<Logged>, k: Bytes)
    ensures FoldCell(Some(c), ls, k) == None <==> DeletesAtEnd(ls, k) % 2 == 1
    decreases |ls|
  {
    if ls != [] {
      var init, last := ls[..|ls| - 1], ls[|ls| - 1];
      assert ls == init + [last];
      FoldCellConcat(Some(c), init, [last], k);
      OneFolded(FoldCell(Some(c), init, k), last, k);
      hide FoldCell;
      GoneIff(c, init, k);
    }
  }

  lemma OneFolded(c: Option<MemValue>, l: Logged, k: Bytes)
    ensures FoldCell(c, [l], k) == if l.key == k then ApplyCell(c, l) else c
  {
    assert [l][1..] == [];
    assert FoldCell(c, [l], k) == FoldCell(if l.key == k then ApplyCell(c, l) else c, [], k);
  }

  /** The exact condition for a second winner without flushes. Call `a` has created the key, expecting it to be
      absent, and call `o` expects the same: it finds the key absent exactly if the log holds,
      behind the record of `a`, an odd number of deletions of the key since its last value. */
  lemma AbsentAgainIff(actions: seq<Action>, a: nat, o: nat, k: Bytes) returns (j: nat)
    requires Run(INITIAL, actions).Some?
    requires var s := Run(INITIAL, actions).value;
             && a < |s.ops| && Winner(s.ops[a], k, None)
             && o < |s.ops| && s.ops[o].phase.Running? && s.ops[o].req.Cas?
             && s.ops[o].req.key == k && s.ops[o].req.expected == None
    ensures var s := Run(INITIAL, actions).value;
            && Succeeded(s.ops[a]) && StandsAt(LogOps(s.log), s.ops[a], s.ops[a].phase.outcome.base, j)
            && (!CasMismatch(s, s.ops[o].req) <==> DeletesAtEnd(LogOps(s.log)[j + 1..], k) % 2 == 1)
  {
    hide LogOps, FoldCell, Run, Inv, CasInv, AllLinear;
    StartIsLinear();
    RunIsLinear(INITIAL, actions);
    var s := Run(INITIAL, actions).value;
    WinnerIsDone(s, a, o, k);
    j := CasStandsWhereExpected(actions, a, s.ops[a].phase.outcome.base);
    KeyIsLocked(s, o);
    HolderSeesLog(s, o, k);
    LiveBehind(LogOps(s.log), s.ops[a], s.ops[a].phase.outcome.base, j);
  }

  lemma WinnerIsDone(s: State, a: nat, o: nat, k: Bytes)
    requires Inv(s) && a < |s.ops| && o < |s.ops| && Winner(s.ops[a], k, None)
    requires s.ops[o].phase.Running? && s.ops[o].req.Cas? && s.ops[o].req.key == k
    ensures Succeeded(s.ops[a])
  {
    KeyIsLocked(s, a);
    KeyIsLocked(s, o);
    if InFlight(s.ops[a]) {
      assert Holds(s.ops[a], k) && Holds(s.ops[o], k);
      HoldersAreUnique(s, k, a, o);
    }
  }

  /** Right behind its record the key is there, be it as a tombstone. */
  lemma LiveBehind(ls: seq<Logged>, op: Op, base: nat, j: nat)
    requires op.req.Cas? && op.req.expected == None && StandsAt(ls, op, base, j)
    ensures FoldCell(None, ls, op.req.key) == None <==> DeletesAtEnd(ls[j + 1..], op.req.key) % 2 == 1
  {
    hide FoldCell;
    var k := op.req.key;
    assert ls == ls[..j] + ([ls[j]] + ls[j + 1..]);
    FoldCellConcat(None, ls[..j], [ls[j]] + ls[j + 1..], k);
    FoldCellConcat(None, [ls[j]], ls[j + 1..], k);
    OneFolded(None, ls[j], k);
    GoneIff(ApplyCell(None, ls[j]).value, ls[j + 1..], k);
  }
}
