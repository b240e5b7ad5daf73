/** The write path while flushes run beside it. A flush takes the memtable away at once and
    publishes its file after its awaits; a `cas` compares with the memtable in use and the
    published files, so it does not see what is on its way. */
module WriteFlush {
  import opened Bytes
  import opened WriteModel
  import opened WriteLocks
  import opened WriteReplay
  import opened WriteCas
  import opened WriteLinear
  import ReadPath

  /** A memtable taken away by a flush, and the file made of it. `ops` is history: the
      operations it had got. */
  datatype Part = Part(file: ReadPath.Sst, ops: seq<Logged>)

  /** `path` has the calls, their locks, the log and the revision counter; `mem` is the memtable
      in use. History: `path.mem` is the memtable as it were without flushes, `applied` all
      operations in the order of their memtable updates, `now` those of the memtable in use. */
  datatype Store = Store(path: State, mem: Mem, readers: seq<Part>, frozen: seq<Part>,
                         applied: seq<Logged>, now: seq<Logged>)

  datatype Move = Call(a: Action) | Detach(offset: nat) | Publish(i: nat)

  const START: Store := Store(INITIAL, map[], [], [], [], [])

  function Files(parts: seq<Part>): (r: seq<ReadPath.Sst>)
    ensures |r| == |parts| && forall i :: 0 <= i < |r| ==> r[i] == parts[i].file
  {
    seq(|parts|, i requires 0 <= i < |parts| => parts[i].file)
  }

  // ---------------------------------------------------------------- the steps

  /** The revision that a `cas` finds. */
  function SeenRev(s: Store, k: Bytes): Option<nat>
  {
    ReadPath.LatestRev(s.mem, Files(s.readers), k)
  }

  predicate Mismatch(s: Store, req: Request)
  {
    req.Cas? && SeenRev(s, req.key) != req.expected
  }

  function StampMove(s: Store, o: nat): Store
    requires o < |s.path.ops|
  {
    var req := s.path.ops[o].req;
    s.(path := if Mismatch(s, req) then Refuse(s.path, o, SeenRev(s, req.key)) else TakeRevs(s.path, o))
  }

  /** The memtable update goes to the memtable in use. */
  function ApplyMove(s: Store, o: nat): Store
    requires o < |s.path.ops| && s.path.ops[o].phase.Appended?
  {
    var ops := OpsInFlight(s.path.ops[o]);
    s.(path := ApplyStep(s.path, o), mem := ApplyAll(s.mem, ops), applied := s.applied + ops, now := s.now + ops)
  }

  function DetachMove(s: Store, offset: nat): Store
  {
    s.(mem := map[], now := [], frozen := s.frozen + [Part(ReadPath.Sst(s.mem, offset), s.now)])
  }

  function PublishMove(s: Store, i: nat): Store
    requires i < |s.frozen|
  {
    s.(readers := s.readers + [s.frozen[i]], frozen := s.frozen[..i] + s.frozen[i + 1..])
  }

  function MoveStep(s: Store, m: Move): Option<Store>
  {
    match m
    case Detach(offset) => Some(DetachMove(s, offset))
    case Publish(i) => if i < |s.frozen| then Some(PublishMove(s, i)) else None
    case Call(a) =>
      if Step(s.path, a) == None then None
      else if a.Stamp? then Some(StampMove(s, a.o))
      else if a.Apply? then Some(ApplyMove(s, a.o))
      else Some(s.(path := Step(s.path, a).value))
  }

  function MoveRun(s: Store, moves: seq<Move>): Option<Store>
    decreases |moves|
  {
    if moves == [] then Some(s)
    else
      var t := MoveStep(s, moves[0]);
      if t == None then None else MoveRun(t.value, moves[1..])
  }

  // ---------------------------------------------------------------- what every move keeps

  ghost predicate PartOk(p: Part)
  {
    p.file.content == ApplyAll(map[], p.ops)
  }

  ghost predicate PartsOk(ps: seq<Part>)
  {
    forall i :: 0 <= i < |ps| ==> PartOk(ps[i])
  }

  ghost predicate StoreInv(s: Store)
  {
    && Inv(s.path)
    && s.path.mem == ApplyAll(map[], s.applied)
    && s.mem == ApplyAll(map[], s.now)
    && PartsOk(s.readers) && PartsOk(s.frozen)
  }

  lemma ApplyMore(m: Mem, before: seq<Logged>, ops: seq<Logged>)
    requires m == ApplyAll(map[], before)
    ensures ApplyAll(m, ops) == ApplyAll(map[], before + ops)
  {
    hide ApplyAll;
    forall k
      ensures Cell(ApplyAll(m, ops), k) == Cell(ApplyAll(map[], before + ops), k)
    {
      ApplyAllAtCell(m, ops, k);
      ApplyAllAtCell(map[], before, k);
      ApplyAllAtCell(map[], before + ops, k);
      FoldCellConcat(None, before, ops, k);
    }
    SameCells(ApplyAll(m, ops), ApplyAll(map[], before + ops));
  }

  /** Whatever a `cas` finds, the write path keeps its invariant. */
  lemma RefuseKeepsInv(s: State, o: nat, current: Option<nat>)
    requires Inv(s) && o < |s.ops| && s.ops[o].phase.Running?
    ensures Inv(Refuse(s, o, current))
  {
    hide MemOk, RevInv, UnlockAll, Agrees, LockKeys, WritesOf;
    var t := Refuse(s, o, current);
    assert Released(s, t, o);
    QuietKeepsRevs(s, t, o);
    forall p | 0 <= p < |t.ops|
      ensures OpOk(t.ops[p])
    {
      assert OpOk(s.ops[p]);
    }
    forall k
      ensures QueueOk(t, k) && MemOk(t, k)
    {
      assert QueueOk(s, k) && OpOk(s.ops[o]) && MemOk(s, k);
      ReleaseKeepsQueues(s, t, o, k);
      RefuseKeepsMem(s, o, current, k);
    }
  }

  lemma TakeRevsKeepsInv(s: State, o: nat)
    requires Inv(s) && o < |s.ops| && s.ops[o].phase.Running?
    ensures Inv(TakeRevs(s, o))
  {
    hide MemOk, RevInv, Agrees, LockKeys, WritesOf;
    var t := TakeRevs(s, o);
    QuietKeepsRevs(s, t, o);
    forall p | 0 <= p < |t.ops|
      ensures OpOk(t.ops[p])
    {
      assert OpOk(s.ops[p]);
    }
    forall k
      ensures QueueOk(t, k) && MemOk(t, k)
    {
      assert QueueOk(s, k) && MemOk(s, k);
      MoveKeepsQueues(s, t, o, k);
      TakeRevsKeepsMem(s, o, k);
    }
  }

  lemma OtherCallKeepsMem(s: State, a: Action)
    requires Step(s, a).Some? && !a.Apply?
    ensures Step(s, a).value.mem == s.mem
  {
    hide LockKeys, UnlockAll, StampAll, WritesOf, RecordOf, CurrentRev;
    if a.Submit? {
      SubmitShape(s, a.req, []);
    }
  }

  lemma CallKeepsInv(s: Store, a: Action)
    requires StoreInv(s) && MoveStep(s, Call(a)).Some?
    ensures StoreInv(MoveStep(s, Call(a)).value)
  {
    hide Inv, ApplyAll, Step, SeenRev, PartsOk, Refuse, TakeRevs, OpsInFlight;
    var t := MoveStep(s, Call(a)).value;
    if a.Stamp? {
      StampRuns(s.path, a.o);
      RefuseKeepsInv(s.path, a.o, SeenRev(s, WantedKey(s.path.ops[a.o].req)));
      TakeRevsKeepsInv(s.path, a.o);
      StampOnlyStamps(s.path, a.o, SeenRev(s, WantedKey(s.path.ops[a.o].req)));
    } else {
      StepKeepsInv(s.path, a);
      if a.Apply? {
        ApplyStepIs(s.path, a.o);
        var ops := OpsInFlight(s.path.ops[a.o]);
        ApplyMore(s.mem, s.now, ops);
        ApplyMore(s.path.mem, s.applied, ops);
      } else {
        OtherCallKeepsMem(s.path, a);
      }
    }
  }

  function WantedKey(req: Request): Bytes
  {
    if req.Cas? then req.key else []
  }

  lemma StampRuns(s: State, o: nat)
    requires Step(s, Stamp(o)).Some?
    ensures o < |s.ops| && s.ops[o].phase.Running?
  {
  }

  lemma StampOnlyStamps(s: State, o: nat, current: Option<nat>)
    requires o < |s.ops|
    ensures Refuse(s, o, current).mem == s.mem && TakeRevs(s, o).mem == s.mem
  {
  }

  lemma ApplyStepIs(s: State, o: nat)
    requires Step(s, Apply(o)).Some?
    ensures o < |s.ops| && s.ops[o].phase.Appended? && Step(s, Apply(o)) == Some(ApplyStep(s, o))
    ensures ApplyStep(s, o).mem == ApplyAll(s.mem, OpsInFlight(s.ops[o]))
  {
  }

  lemma MoveKeepsInv(s: Store, m: Move)
    requires StoreInv(s) && MoveStep(s, m).Some?
    ensures StoreInv(MoveStep(s, m).value)
  {
    hide Inv, ApplyAll, Step;
    match m {
      case Call(a) => CallKeepsInv(s, a);
      case Detach(offset) => NothingApplied();
      case Publish(i) =>
        assert PartOk(s.frozen[i]);
    }
  }

  lemma NothingApplied()
    ensures ApplyAll(map[], []) == map[]
  {
  }

  lemma {:induction false} RunKeepsStoreInv(s: Store, moves: seq<Move>)
    requires StoreInv(s) && MoveRun(s, moves).Some?
    ensures StoreInv(MoveRun(s, moves).value)
    decreases |moves|
  {
    hide StoreInv, MoveStep;
    if moves != [] {
      MoveKeepsInv(s, moves[0]);
      RunKeepsStoreInv(MoveStep(s, moves[0]).value, moves[1..]);
    }
  }

  lemma StartInv()
    ensures StoreInv(START)
  {
    InitialInv();
    NothingApplied();
  }

  /** Flushes at any time, and memtable updates that go to one memtable or the next: replaying
      the whole log still gives what all memtable updates give together, in their order, once
      the calls in flight have applied, without the empty key. */
  lemma ReplayWithFlushes(moves: seq<Move>)
    requires MoveRun(START, moves).Some?
    ensures var s := MoveRun(START, moves).value;
            && Replay(s.path.log).mem == Settled(s.path, |s.path.ops|) - {[]}
            && s.path.mem == ApplyAll(map[], s.applied)
  {
    hide Inv;
    StartInv();
    RunKeepsStoreInv(START, moves);
    ReplayOfState(MoveRun(START, moves).value.path);
  }

  // ---------------------------------------------------------------- what a cas finds

  /** The revision that these operations leave for the key, from nothing. */
  function LeftRev(ops: seq<Logged>, k: Bytes): Option<nat>
  {
    RevOf(FoldCell(None, ops, k))
  }

  /** The newest of these parts that leaves something. */
  function PartsRev(parts: seq<Part>, k: Bytes): Option<nat>
  {
    if parts == [] then None
    else
      var n := |parts| - 1;
      if LeftRev(parts[n].ops, k).Some? then LeftRev(parts[n].ops, k) else PartsRev(parts[..n], k)
  }

  /** Told from the operations: the memtable in use, then the published files from the newest. */
  function ShownRev(s: Store, k: Bytes): Option<nat>
  {
    if LeftRev(s.now, k).Some? then LeftRev(s.now, k) else PartsRev(s.readers, k)
  }

  lemma ContentCell(ops: seq<Logged>, k: Bytes)
    ensures Cell(ApplyAll(map[], ops), k) == FoldCell(None, ops, k)
  {
    ApplyAllAtCell(map[], ops, k);
  }

  lemma {:induction false} FilesShow(parts: seq<Part>, k: Bytes)
    requires PartsOk(parts)
    ensures RevOf(ReadPath.NewestCell(Files(parts), k)) == PartsRev(parts, k)
    decreases |parts|
  {
    hide ApplyAll, FoldCell;
    if parts != [] {
      var n := |parts| - 1;
      assert PartOk(parts[n]);
      ContentCell(parts[n].ops, k);
      assert Files(parts)[..n] == Files(parts[..n]);
      FilesShow(parts[..n], k);
    }
  }

  lemma SeenIsShown(s: Store, k: Bytes)
    requires StoreInv(s)
    ensures SeenRev(s, k) == ShownRev(s, k)
  {
    hide ApplyAll, FoldCell, Inv;
    ContentCell(s.now, k);
    FilesShow(s.readers, k);
  }

  /** The exact condition for any compare: in every run with flushes, the step of a `cas` finds
      its expectation if and only if that is the revision which the memtable in use shows, or,
      if that shows none, the newest published file that does. Parts on their way count for
      nothing. */
  lemma CasMatchesIff(moves: seq<Move>, o: nat)
    requires MoveRun(START, moves).Some?
    requires var s := MoveRun(START, moves).value;
             o < |s.path.ops| && s.path.ops[o].phase.Running? && s.path.ops[o].req.Cas?
    ensures var s := MoveRun(START, moves).value;
            var req := s.path.ops[o].req;
            var t := MoveStep(s, Call(Stamp(o)));
            && t.Some? && o < |t.value.path.ops|
            && (t.value.path.ops[o].phase.Stamped? <==> ShownRev(s, req.key) == req.expected)
  {
    hide Inv, SeenRev, ShownRev, MoveRun;
    StartInv();
    RunKeepsStoreInv(START, moves);
    var s := MoveRun(START, moves).value;
    SeenIsShown(s, s.path.ops[o].req.key);
    StampGoes(s, o);
  }

  lemma StampGoes(s: Store, o: nat)
    requires o < |s.path.ops| && s.path.ops[o].phase.Running?
    ensures MoveStep(s, Call(Stamp(o))) == Some(StampMove(s, o))
    ensures var t := StampMove(s, o).path;
            |t.ops| == |s.path.ops| && (t.ops[o].phase.Stamped? <==> !Mismatch(s, s.path.ops[o].req))
  {
    hide SeenRev;
  }

  // ---------------------------------------------------------------- expecting nothing

  predicate HasPut(ls: seq<Logged>, k: Bytes)
  {
    exists i :: 0 <= i < |ls| && ls[i].key == k && ls[i].value.Some?
  }

  /** From nothing a value is needed, or a deletion that leaves its mark. */
  predicate LeavesNothing(ls: seq<Logged>, k: Bytes)
  {
    DeletesAtEnd(ls, k) % 2 == if HasPut(ls, k) then 1 else 0
  }

  lemma {:induction false} LeavesNothingIff(ls: seq<Logged>, k: Bytes)
    ensures FoldCell(None, ls, k) == None <==> LeavesNothing(ls, k)
    decreases |ls|
  {
    if ls != [] {
      var init, last := ls[..|ls| - 1], ls[|ls| - 1];
      assert ls == init + [last];
      FoldCellConcat(None, init, [last], k);
      OneFolded(FoldCell(None, init, k), last, k);
      hide FoldCell;
      LeavesNothingIff(init, k);
      PutInInit(ls, k);
    }
  }

  lemma PutInInit(ls: seq<Logged>, k: Bytes)
    requires ls != []
    ensures var init, last := ls[..|ls| - 1], ls[|ls| - 1];
            HasPut(ls, k) <==> (last.key == k && last.value.Some?) || HasPut(init, k)
  {
    var init := ls[..|ls| - 1];
    assert forall i :: 0 <= i < |init| ==> init[i] == ls[i];
    if HasPut(init, k) {
      var i :| 0 <= i < |init| && init[i].key == k && init[i].value.Some?;
      assert ls[i].key == k;
    }
  }

  lemma {:induction false} PartsShowNothing(parts: seq<Part>, k: Bytes)
    ensures PartsRev(parts, k) == None <==> forall i :: 0 <= i < |parts| ==> LeavesNothing(parts[i].ops, k)
    decreases |parts|
  {
    hide LeavesNothing, FoldCell;
    if parts != [] {
      var n := |parts| - 1;
      LeavesNothingIff(parts[n].ops, k);
      PartsShowNothing(parts[..n], k);
      assert forall i :: 0 <= i < n ==> parts[..n][i] == parts[i];
    }
  }

  /** A null expectation, exactly: the key counts as absent if and only if the memtable in use
      and every published file have got either no value of the key and an even number of its
      deletions, or an odd number of deletions since its last value. */
  lemma NullCasMatchesIff(moves: seq<Move>, o: nat)
    requires MoveRun(START, moves).Some?
    requires var s := MoveRun(START, moves).value;
             && o < |s.path.ops| && s.path.ops[o].phase.Running?
             && s.path.ops[o].req.Cas? && s.path.ops[o].req.expected == None
    ensures var s := MoveRun(START, moves).value;
            var k := s.path.ops[o].req.key;
            var t := MoveStep(s, Call(Stamp(o)));
            && t.Some? && o < |t.value.path.ops|
            && (t.value.path.ops[o].phase.Stamped? <==>
                LeavesNothing(s.now, k) && forall i :: 0 <= i < |s.readers| ==> LeavesNothing(s.readers[i].ops, k))
  {
    hide LeavesNothing, FoldCell, MoveStep, MoveRun;
    CasMatchesIff(moves, o);
    var s := MoveRun(START, moves).value;
    LeavesNothingIff(s.now, s.path.ops[o].req.key);
    PartsShowNothing(s.readers, s.path.ops[o].req.key);
  }

  // ---------------------------------------------------------------- without deletions

  ghost predicate Touched(ls: seq<Logged>, k: Bytes)
  {
    exists i :: 0 <= i < |ls| && ls[i].key == k
  }

  ghost predicate TouchedIn(parts: seq<Part>, k: Bytes)
  {
    exists i :: 0 <= i < |parts| && Touched(parts[i].ops, k)
  }

  ghost predicate OnlyPuts(ls: seq<Logged>, k: Bytes)
  {
    forall i :: 0 <= i < |ls| && ls[i].key == k ==> ls[i].value.Some?
  }

  ghost predicate OnlyPutsIn(parts: seq<Part>, k: Bytes)
  {
    forall i :: 0 <= i < |parts| ==> OnlyPuts(parts[i].ops, k)
  }

  ghost predicate Somewhere(s: Store, k: Bytes)
  {
    Touched(s.now, k) || TouchedIn(s.readers, k) || TouchedIn(s.frozen, k)
  }

  /** What a finished call has written is in some memtable or file, and a key that nobody
      deletes has values only. */
  ghost predicate KeyInv(s: Store, k: Bytes)
  {
    && (NeverDeleted(s.path.ops, k) ==> OnlyPuts(s.now, k) && OnlyPutsIn(s.readers, k) && OnlyPutsIn(s.frozen, k))
    && forall a :: 0 <= a < |s.path.ops| && Succeeded(s.path.ops[a]) && k in s.path.ops[a].keys ==> Somewhere(s, k)
  }

  lemma TouchedMore(a: seq<Logged>, b: seq<Logged>, k: Bytes)
    ensures Touched(a, k) || Touched(b, k) ==> Touched(a + b, k)
    ensures OnlyPuts(a, k) && OnlyPuts(b, k) ==> OnlyPuts(a + b, k)
  {
    if i :| 0 <= i < |a| && a[i].key == k {
      assert (a + b)[i].key == k;
    }
    if i :| 0 <= i < |b| && b[i].key == k {
      assert (a + b)[|a| + i].key == k;
    }
  }

  lemma OnePart(parts: seq<Part>, p: Part, k: Bytes)
    ensures Touched(p.ops, k) || TouchedIn(parts, k) ==> TouchedIn(parts + [p], k)
    ensures OnlyPuts(p.ops, k) && OnlyPutsIn(parts, k) ==> OnlyPutsIn(parts + [p], k)
  {
    hide Touched, OnlyPuts;
    var all := parts + [p];
    assert all[|parts|] == p;
    if i :| 0 <= i < |parts| && Touched(parts[i].ops, k) {
      assert all[i] == parts[i];
    }
  }

  lemma PartTaken(parts: seq<Part>, i: nat, k: Bytes)
    requires i < |parts|
    ensures TouchedIn(parts, k) ==> Touched(parts[i].ops, k) || TouchedIn(parts[..i] + parts[i + 1..], k)
    ensures OnlyPutsIn(parts, k) ==> OnlyPuts(parts[i].ops, k) && OnlyPutsIn(parts[..i] + parts[i + 1..], k)
  {
    hide Touched, OnlyPuts;
    var rest := parts[..i] + parts[i + 1..];
    if TouchedIn(parts, k) {
      var j :| 0 <= j < |parts| && Touched(parts[j].ops, k);
      assert j < i ==> rest[j] == parts[j];
      assert j > i ==> rest[j - 1] == parts[j];
    }
  }

  /** The calls before and after a step; only the memtable update makes one succeed. */
  lemma CallEvolves(s: Store, a: Action) returns (o: nat)
    requires MoveStep(s, Call(a)).Some?
    ensures var t := MoveStep(s, Call(a)).value;
            && Evolves(s.path.ops, t.path.ops, o)
            && (a.Apply? ==> o == a.o < |s.path.ops|)
            && (!a.Apply? ==>
                  !Succeeded(t.path.ops[o]) && t.now == s.now && t.readers == s.readers && t.frozen == s.frozen)
  {
    hide LockKeys, UnlockAll, ApplyAll, StampAll, WritesOf, RecordOf, SeenRev, Enqueue, CurrentRev;
    if a.Submit? {
      o := |s.path.ops|;
      var t := MoveStep(s, Call(a)).value.path;
      SubmitShape(s.path, a.req, []);
      assert forall i :: 0 <= i < |s.path.ops| ==> t.ops[i] == t.ops[..|s.path.ops|][i];
    } else {
      o := a.o;
    }
  }

  lemma CallKeepsKey(s: Store, a: Action, k: Bytes)
    requires Inv(s.path) && KeyInv(s, k) && MoveStep(s, Call(a)).Some?
    ensures KeyInv(MoveStep(s, Call(a)).value, k)
  {
    hide Inv, MoveStep, Touched, TouchedIn, OnlyPuts, OnlyPutsIn, NeverDeleted, Succeeded;
    var t := MoveStep(s, Call(a)).value;
    var o := CallEvolves(s, a);
    if NeverDeleted(t.path.ops, k) {
      StillNeverDeleted(s.path.ops, t.path.ops, o, k);
    }
    if a.Apply? {
      AppliedTo(s, a.o, k);
      TouchedMore(s.now, OpsInFlight(s.path.ops[a.o]), k);
    }
  }

  lemma AppliedTo(s: Store, o: nat, k: Bytes)
    requires Inv(s.path) && MoveStep(s, Call(Apply(o))).Some? && o < |s.path.ops|
    ensures var t, ops := MoveStep(s, Call(Apply(o))).value, OpsInFlight(s.path.ops[o]);
            && t.now == s.now + ops && t.readers == s.readers && t.frozen == s.frozen
            && (k in s.path.ops[o].keys ==> Touched(ops, k))
            && (NeverDeleted(s.path.ops, k) ==> OnlyPuts(ops, k))
  {
    hide StampAll, LockKeys, UnlockAll, ApplyAll, WritesOf;
    var op := s.path.ops[o];
    assert OpOk(op) by { PathOk(s.path, o); }
    var ws, ops := WritesOf(op.req), OpsInFlight(op);
    LockKeysAreTheKeys(ws, k);
    if k in op.keys {
      var i :| 0 <= i < |ws| && ws[i].key == k;
      assert ops[i].key == k;
    }
  }

  lemma PathOk(s: State, o: nat)
    requires Inv(s) && o < |s.ops|
    ensures OpOk(s.ops[o])
  {
  }

  lemma MoveKeepsKey(s: Store, m: Move, k: Bytes)
    requires Inv(s.path) && KeyInv(s, k) && MoveStep(s, m).Some?
    ensures KeyInv(MoveStep(s, m).value, k)
  {
    hide Inv, Step, Touched, TouchedIn, OnlyPuts, OnlyPutsIn, NeverDeleted, Succeeded;
    match m {
      case Call(a) => CallKeepsKey(s, a, k);
      case Detach(offset) =>
        OnePart(s.frozen, Part(ReadPath.Sst(s.mem, offset), s.now), k);
        assert OnlyPuts([], k) by { PutsOfNothing(k); }
      case Publish(i) =>
        PartTaken(s.frozen, i, k);
        OnePart(s.readers, s.frozen[i], k);
    }
  }

  lemma PutsOfNothing(k: Bytes)
    ensures OnlyPuts([], k)
  {
  }

  lemma {:induction false} RunKeepsKey(s: Store, moves: seq<Move>, k: Bytes)
    requires StoreInv(s) && KeyInv(s, k) && MoveRun(s, moves).Some?
    ensures StoreInv(MoveRun(s, moves).value) && KeyInv(MoveRun(s, moves).value, k)
    decreases |moves|
  {
    hide KeyInv, MoveStep, Inv, PartsOk, ApplyAll;
    if moves != [] {
      MoveKeepsInv(s, moves[0]);
      MoveKeepsKey(s, moves[0], k);
      RunKeepsKey(MoveStep(s, moves[0]).value, moves[1..], k);
    }
  }

  lemma PutsShow(ls: seq<Logged>, k: Bytes)
    requires OnlyPuts(ls, k)
    ensures LeftRev(ls, k) == None <==> !Touched(ls, k)
  {
    hide FoldCell;
    if Touched(ls, k) {
      FoldCellLive(None, ls, k);
    } else {
      FoldCellElsewhere(None, ls, k);
    }
  }

  lemma {:induction false} PartsShow(parts: seq<Part>, k: Bytes)
    requires OnlyPutsIn(parts, k)
    ensures PartsRev(parts, k) == None <==> !TouchedIn(parts, k)
    decreases |parts|
  {
    hide OnlyPuts, Touched, LeftRev;
    if parts != [] {
      var n := |parts| - 1;
      PutsShow(parts[n].ops, k);
      PartsShow(parts[..n], k);
      assert parts[..n] + [parts[n]] == parts;
      OnePart(parts[..n], parts[n], k);
      PartTaken(parts, n, k);
      assert parts[..n] + parts[n + 1..] == parts[..n];
    }
  }

  /** A key that the run never deletes and that one null `cas` has already created: another one
      succeeds if and only if every write of the key is with flushes in progress. */
  lemma SecondNullWinnerIff(moves: seq<Move>, a: nat, o: nat, k: Bytes)
    requires MoveRun(START, moves).Some?
    requires var s := MoveRun(START, moves).value;
             && NeverDeleted(s.path.ops, k)
             && a < |s.path.ops| && Winner(s.path.ops[a], k, None)
             && o < |s.path.ops| && s.path.ops[o].phase.Running? && s.path.ops[o].req.Cas?
             && s.path.ops[o].req.key == k && s.path.ops[o].req.expected == None
    ensures var s := MoveRun(START, moves).value;
            var t := MoveStep(s, Call(Stamp(o)));
            && t.Some? && o < |t.value.path.ops|
            && (t.value.path.ops[o].phase.Stamped? <==> !Touched(s.now, k) && !TouchedIn(s.readers, k))
            && (t.value.path.ops[o].phase.Stamped? ==> TouchedIn(s.frozen, k))
  {
    hide Inv, MoveStep, MoveRun, Touched, TouchedIn, NeverDeleted, OnlyPuts, OnlyPutsIn, LeftRev, PartsRev, Winner;
    StartInv();
    StartKey(k);
    RunKeepsKey(START, moves, k);
    CasMatchesIff(moves, o);
    var s := MoveRun(START, moves).value;
    PutsShow(s.now, k);
    PartsShow(s.readers, k);
    WinnerIsDone(s.path, a, o, k);
    WinnerKeys(s.path, a, k);
  }

  lemma StartKey(k: Bytes)
    ensures KeyInv(START, k)
  {
  }

  lemma WinnerKeys(s: State, a: nat, k: Bytes)
    requires Inv(s) && a < |s.ops| && Winner(s.ops[a], k, None)
    ensures k in s.ops[a].keys
  {
    KeyIsLocked(s, a);
  }

  // ---------------------------------------------------------------- the window, as runs

  /** The moves of a call that runs alone. */
  function CallAlone(req: Request, o: nat): seq<Move>
  {
    [Call(Submit(req)), Call(Acquire(o)), Call(Stamp(o)), Call(Append(o)), Call(Apply(o))]
  }

  lemma {:induction false} RunsThrough(s: seq<Store>, moves: seq<Move>, i: nat)
    requires |s| == |moves| + 1 && i <= |moves|
    requires forall i :: 0 <= i < |moves| ==> MoveStep(s[i], moves[i]) == Some(s[i + 1])
    ensures MoveRun(s[i], moves[i..]) == Some(s[|moves|])
    decreases |moves| - i
  {
    hide MoveStep;
    if i < |moves| {
      assert moves[i..][1..] == moves[i + 1..];
      RunsThrough(s, moves, i + 1);
    }
  }

  lemma {:induction false} RunJoins(s: Store, a: seq<Move>, b: seq<Move>)
    requires MoveRun(s, a).Some?
    ensures MoveRun(s, a + b) == MoveRun(MoveRun(s, a).value, b)
    decreases |a|
  {
    hide MoveStep;
    if a == [] {
      assert a + b == b;
    } else {
      assert (a + b)[1..] == a[1..] + b;
      RunJoins(MoveStep(s, a[0]).value, a[1..], b);
    }
  }

  lemma CallAloneEffect(s: Store, req: Request, k: Bytes)
    requires k !in s.path.queues && !req.Group? && req.key == k && !Mismatch(s, req)
    ensures MoveRun(s, CallAlone(req, |s.path.ops|)).Some?
    ensures var t := MoveRun(s, CallAlone(req, |s.path.ops|)).value;
            && t.path.queues == s.path.queues && t.path.revCounter == s.path.revCounter + 1
            && t.path.ops == s.path.ops + [Op(req, [k], Done(Success(s.path.revCounter)))]
            && t.mem == ApplyOne(s.mem, Logged(k, WritesOf(req)[0].value, s.path.revCounter + 1))
            && t.readers == s.readers && t.frozen == s.frozen
  {
    hide MoveRun, MoveStep, SeenRev, ApplyOne, WritesOf;
    var o := |s.path.ops|;
    var s1, s2, s3, s4 := CallUpToAppend(s, req, k);
    var s5 := CallEnds(s4, s, req, k);
    RunsThrough([s, s1, s2, s3, s4, s5], CallAlone(req, o), 0);
    assert CallAlone(req, o)[0..] == CallAlone(req, o);
  }

  /** The states of the call up to its append. */
  lemma CallUpToAppend(s: Store, req: Request, k: Bytes) returns (s1: Store, s2: Store, s3: Store, s4: Store)
    requires k !in s.path.queues && !req.Group? && req.key == k && !Mismatch(s, req)
    ensures var o := |s.path.ops|;
            && MoveStep(s, Call(Submit(req))) == Some(s1) && MoveStep(s1, Call(Acquire(o))) == Some(s2)
            && MoveStep(s2, Call(Stamp(o))) == Some(s3) && MoveStep(s3, Call(Append(o))) == Some(s4)
            && s4.path.queues == s.path.queues[k := [o]] && s4.path.revCounter == s.path.revCounter + 1
            && s4.path.ops == s.path.ops + [Op(req, [k], Appended(s.path.revCounter))]
            && s4.mem == s.mem && s4.readers == s.readers && s4.frozen == s.frozen
  {
    hide LockKeys, WritesOf, StampAll, RecordOf, ReadPath.LatestRev, ApplyAll, UnlockAll;
    OneKeyLocks(req);
    OneWrite(req);
    var o, p := |s.path.ops|, s.path;
    s1 := s.(path := SubmitStep(p, req));
    assert [] + [o] == [o] && LockKeys(WritesOf(req))[0] == k;
    assert s1.path.queues == p.queues[k := [o]] && s1.path.ops == p.ops + [Op(req, [k], Waiting(0))];
    s2 := s.(path := SetPhase(s1.path, o, Running));
    assert AcquireStep(s1.path, o) == s2.path;
    s3 := s.(path := TakeRevs(s2.path, o));
    assert s3.path.ops[o] == Op(req, [k], Stamped(p.revCounter));
    s4 := s.(path := AppendStep(s3.path, o));
    assert s4.path.ops == p.ops + [Op(req, [k], Appended(p.revCounter))];
  }

  lemma OneWrite(req: Request)
    requires !req.Group?
    ensures |WritesOf(req)| == 1 && WritesOf(req)[0].key == req.key
  {
  }

  /** The memtable update of the call that `s` has submitted. */
  lemma CallEnds(s4: Store, s: Store, req: Request, k: Bytes) returns (s5: Store)
    requires var o := |s.path.ops|;
             && s4.path.queues == s.path.queues[k := [o]] && k !in s.path.queues
             && s4.path.ops == s.path.ops + [Op(req, [k], Appended(s.path.revCounter))]
             && s4.mem == s.mem && s4.readers == s.readers && s4.frozen == s.frozen
    requires !req.Group? && req.key == k
    ensures MoveStep(s4, Call(Apply(|s.path.ops|))) == Some(s5)
    ensures s5.path.queues == s.path.queues && s5.path.revCounter == s4.path.revCounter
    ensures s5.path.ops == s.path.ops + [Op(req, [k], Done(Success(s.path.revCounter)))]
    ensures s5.mem == ApplyOne(s.mem, Logged(k, WritesOf(req)[0].value, s.path.revCounter + 1))
    ensures s5.readers == s.readers && s5.frozen == s.frozen
  {
    hide LockKeys, WritesOf, StampAll, SeenRev, ApplyAll, ApplyOne, UnlockAll, Run;
    var o := |s.path.ops|;
    FinishEffect(s4.path, o, k);
    RunOne(s4.path, Apply(o));
    OneWrite(req);
    OneWriteApplied(s.mem, req, s.path.revCounter);
    s5 := ApplyMove(s4, o);
    assert s.path.queues[k := [o]] - {k} == s.path.queues;
    assert s5.path.ops == s.path.ops + [Op(req, [k], Done(Success(s.path.revCounter)))];
  }

  /** Create, begin a flush, create again: two swaps that expected an absent key succeed although
      nobody deletes it. */
  lemma FlushAllowsSecondWinner(k: Bytes, v: Bytes, offset: nat) returns (moves: seq<Move>)
    ensures MoveRun(START, moves).Some?
    ensures var ops := MoveRun(START, moves).value.path.ops; NeverDeleted(ops, k) && !OneWinner(ops, k, None)
  {
    hide MoveRun, CallAlone;
    var create := Cas(k, None, Some(v));
    CallAloneEffect(START, create, k);
    var s1 := MoveRun(START, CallAlone(create, 0)).value;
    var s2 := DetachMove(s1, offset);
    OneMove(s1, Detach(offset));
    CallAloneEffect(s2, create, k);
    var s3 := MoveRun(s2, CallAlone(create, 1)).value;
    RunJoins(START, CallAlone(create, 0), [Detach(offset)]);
    RunJoins(START, CallAlone(create, 0) + [Detach(offset)], CallAlone(create, 1));
    moves := CallAlone(create, 0) + [Detach(offset)] + CallAlone(create, 1);
    assert Winner(s3.path.ops[0], k, None) && Winner(s3.path.ops[1], k, None);
  }

  lemma OneMove(s: Store, m: Move)
    ensures MoveRun(s, [m]) == MoveStep(s, m)
  {
    assert [m][1..] == [];
  }

  /** The same for a revision: once a file shows revision 1 and the memtable with revision 2 is on
      its way, a second swap that expects revision 1 succeeds. */
  lemma StaleRevisionWinsAgain(k: Bytes, v: Bytes, offset: nat) returns (moves: seq<Move>)
    ensures MoveRun(START, moves).Some?
    ensures var ops := MoveRun(START, moves).value.path.ops; NeverDeleted(ops, k) && !OneWinner(ops, k, Some(1))
  {
    hide MoveRun, CallAlone;
    var put, swap := Put(k, v), Cas(k, Some(1), Some(v));
    CallAloneEffect(START, put, k);
    var s1 := MoveRun(START, CallAlone(put, 0)).value;
    assert s1.mem == map[k := MemValue(Some(v), 1)];
    var s2 := DetachMove(s1, offset);
    var s3 := PublishMove(s2, 0);
    OneMove(s1, Detach(offset));
    OneMove(s2, Publish(0));
    FileShows(s3, k, MemValue(Some(v), 1));
    CallAloneEffect(s3, swap, k);
    var s4 := MoveRun(s3, CallAlone(swap, 1)).value;
    var s5 := DetachMove(s4, offset);
    OneMove(s4, Detach(offset));
    FileShows(s5, k, MemValue(Some(v), 1));
    CallAloneEffect(s5, swap, k);
    var s6 := MoveRun(s5, CallAlone(swap, 2)).value;
    var a, b, c := CallAlone(put, 0), CallAlone(swap, 1), CallAlone(swap, 2);
    RunJoins(START, a, [Detach(offset)]);
    RunJoins(START, a + [Detach(offset)], [Publish(0)]);
    RunJoins(START, a + [Detach(offset)] + [Publish(0)], b);
    RunJoins(START, a + [Detach(offset)] + [Publish(0)] + b, [Detach(offset)]);
    RunJoins(START, a + [Detach(offset)] + [Publish(0)] + b + [Detach(offset)], c);
    moves := a + [Detach(offset)] + [Publish(0)] + b + [Detach(offset)] + c;
    assert Winner(s6.path.ops[1], k, Some(1)) && Winner(s6.path.ops[2], k, Some(1));
  }

  lemma FileShows(s: Store, k: Bytes, v: MemValue)
    requires s.mem == map[] && |s.readers| == 1 && s.readers[0].file.content == map[k := v]
    ensures SeenRev(s, k) == Some(v.rev)
  {
    assert Files(s.readers)[0] == s.readers[0].file;
  }
}
