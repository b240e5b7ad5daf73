/** `get`, `flush` and `open` of `libs/storage/engine.ts` together: what reads return over
    histories of puts, flushes and restarts. A flush is two steps, as it awaits in between: it
    detaches the memtable, and later publishes the file made of it. The memtable and the SST
    files are maps here, the log is the list of its records with their end offsets. */
module ReadPath {
  import opened Bytes
  import opened WriteModel

  /** An open SST file, in the place where the engine keeps its reader. */
  datatype Sst = Sst(content: Mem, walOffset: nat)

  datatype LogRec = LogRec(op: Logged, end: nat)

  /** `frozen` are the memtables of the flushes in progress, in the order of their start. */
  datatype State = Engine(mem: Mem, log: seq<LogRec>, readers: seq<Sst>, frozen: seq<Sst>, revCounter: nat)

  /** `size` is the length of the log record. A flush records the offset that
      `currentEndOffset()` gives it, which after a restart may lag behind the true end.
      `Publish(i)` ends the i-th of the flushes in progress. */
  datatype Event =
    | Put(key: Bytes, value: Bytes, size: nat)
    | Detach(offset: nat)
    | Publish(i: nat)
    | Reopen

  const EMPTY: State := Engine(map[], [], [], [], 0)

  function End(log: seq<LogRec>): nat
  {
    if log == [] then 0 else log[|log| - 1].end
  }

  // ---------------------------------------------------------------- reading

  /** The readers from the last one to the first, up to the first value. */
  function GetFromSsts(readers: seq<Sst>, key: Bytes): Option<Bytes>
  {
    if readers == [] then None
    else
      var r := readers[|readers| - 1];
      if key in r.content && r.content[key].value.Some? then r.content[key].value
      else GetFromSsts(readers[..|readers| - 1], key)
  }

  /** `get`: a tombstone in the memtable is passed over like an absent key. */
  function Get(s: State, key: Bytes): Option<Bytes>
  {
    if key in s.mem && s.mem[key].value.Some? then s.mem[key].value else GetFromSsts(s.readers, key)
  }

  // ---------------------------------------------------------------- the calls

  /** The append and the memtable update of one operation, and its revision. */
  function WriteStep(s: State, key: Bytes, value: Option<Bytes>, size: nat): State
  {
    var op := Logged(key, value, s.revCounter + 1);
    s.(mem := ApplyOne(s.mem, op), log := s.log + [LogRec(op, End(s.log) + size)], revCounter := s.revCounter + 1)
  }

  /** `flush` up to its first await: the snapshot takes the tree away from the memtable. */
  function DetachStep(s: State, offset: nat): State
  {
    s.(mem := map[], frozen := s.frozen + [Sst(s.mem, offset)])
  }

  /** Its end: the reader of the new file is pushed. */
  function PublishStep(s: State, i: nat): State
    requires i < |s.frozen|
  {
    s.(readers := s.readers + [s.frozen[i]], frozen := s.frozen[..i] + s.frozen[i + 1..])
  }

  /** A flush during which nothing else happens. */
  function FlushStep(s: State, offset: nat): State
  {
    s.(mem := map[], readers := s.readers + [Sst(s.mem, offset)])
  }

  lemma FlushIsTwoSteps(s: State, offset: nat)
    ensures FlushStep(s, offset) == PublishStep(DetachStep(s, offset), |s.frozen|)
  {
  }

  function InsertReader(x: Sst, sorted: seq<Sst>): seq<Sst>
  {
    if sorted == [] then [x]
    else if x.walOffset <= sorted[0].walOffset then [x] + sorted
    else [sorted[0]] + InsertReader(x, sorted[1..])
  }

  /** The stable sort of the readers by offset. */
  function SortReaders(readers: seq<Sst>): seq<Sst>
  {
    if readers == [] then [] else InsertReader(readers[0], SortReaders(readers[1..]))
  }

  /** `Math.min` of the recorded offsets; 0 without files. */
  function MinOffset(readers: seq<Sst>): nat
  {
    if readers == [] then 0
    else if |readers| == 1 then readers[0].walOffset
    else
      var rest := MinOffset(readers[1..]);
      if readers[0].walOffset < rest then readers[0].walOffset else rest
  }

  /** The replay loop over the records that end after `min`. */
  function ReplayAfter(log: seq<LogRec>, min: nat, r: Replayed): Replayed
    decreases |log|
  {
    if log == [] then r
    else ReplayAfter(log[1..], min, if log[0].end > min then ReplayOp(r, log[0].op) else r)
  }

  /** `close`, or a crash, and a new `open` on the same directory: flushes in progress leave no
      file. */
  function ReopenStep(s: State): State
  {
    var readers := SortReaders(s.readers);
    var r := ReplayAfter(s.log, MinOffset(readers), Replayed(map[], 0));
    Engine(r.mem, s.log, readers, [], r.revCounter)
  }

  function LastOffset(readers: seq<Sst>): nat
  {
    if readers == [] then 0 else readers[|readers| - 1].walOffset
  }

  /** Records are not empty; a recorded offset is neither below an earlier one nor past the end. */
  predicate Legal(s: State, e: Event)
  {
    match e
    case Put(_, _, size) => size > 0
    case Detach(offset) => LastOffset(s.readers + s.frozen) <= offset <= End(s.log)
    case Publish(i) => i < |s.frozen|
    case Reopen => true
  }

  function Step(s: State, e: Event): State
  {
    match e
    case Put(k, v, size) => WriteStep(s, k, Some(v), size)
    case Detach(offset) => DetachStep(s, offset)
    case Publish(i) => if i < |s.frozen| then PublishStep(s, i) else s
    case Reopen => ReopenStep(s)
  }

  predicate AllLegal(s: State, es: seq<Event>)
    decreases |es|
  {
    es != [] ==> Legal(s, es[0]) && AllLegal(Step(s, es[0]), es[1..])
  }

  /** Overlapping flushes end in the order in which they began. */
  predicate InOrder(es: seq<Event>)
  {
    forall e :: e in es && e.Publish? ==> e.i == 0
  }

  function Run(s: State, es: seq<Event>): State
    decreases |es|
  {
    if es == [] then s else Run(Step(s, es[0]), es[1..])
  }

  // ---------------------------------------------------------------- the last put

  /** The value of the last operation on a key among the first `n` records. */
  function LastPut(log: seq<LogRec>, n: nat, key: Bytes): Option<Bytes>
    requires n <= |log|
  {
    if n == 0 then None
    else if log[n - 1].op.key == key then log[n - 1].op.value
    else LastPut(log, n - 1, key)
  }

  lemma {:induction false} LastPutStable(log: seq<LogRec>, log': seq<LogRec>, n: nat, key: Bytes)
    requires n <= |log| && log <= log'
    ensures LastPut(log', n, key) == LastPut(log, n, key)
  {
    if n > 0 {
      LastPutStable(log, log', n - 1, key);
    }
  }

  lemma {:induction false} LastPutUnchanged(log: seq<LogRec>, m: nat, n: nat, key: Bytes)
    requires m <= n <= |log| && forall i :: m <= i < n ==> log[i].op.key != key
    ensures LastPut(log, n, key) == LastPut(log, m, key)
  {
    if m < n {
      LastPutUnchanged(log, m, n - 1, key);
    }
  }

  // ---------------------------------------------------------------- the invariant

  /** Every record ends later than the one before it. */
  ghost predicate EndsRise(log: seq<LogRec>)
  {
    && (forall i :: 0 <= i < |log| ==> log[i].end > 0)
    && forall i, j :: 0 <= i < j < |log| ==> log[i].end < log[j].end
  }

  /** And every record is a put. */
  ghost predicate GoodLog(log: seq<LogRec>)
  {
    EndsRise(log) && forall i :: 0 <= i < |log| ==> log[i].op.value.Some?
  }

  /** A file made when the log had `n` records: for its keys it knows the last put among
      them, and its recorded offset does not exceed their end. */
  ghost predicate Covers(r: Sst, log: seq<LogRec>, n: nat)
  {
    && n <= |log|
    && r.walOffset <= End(log[..n])
    && forall k :: k in r.content && k != [] ==>
         r.content[k].value.Some? && r.content[k].value == LastPut(log, n, k)
  }

  /** It has every key that was put since the file before it. */
  ghost predicate HasNew(content: Mem, log: seq<LogRec>, m: nat, n: nat)
    requires n <= |log|
  {
    forall i :: m <= i < n && log[i].op.key != [] ==> log[i].op.key in content
  }

  function Before(marks: seq<nat>, i: nat): nat
    requires i <= |marks|
  {
    if i == 0 then 0 else marks[i - 1]
  }

  /** `n` is the length of the log when this file was made, `m` when the one before it was. */
  ghost predicate FileOk(r: Sst, log: seq<LogRec>, m: nat, n: nat)
  {
    Covers(r, log, n) && HasNew(r.content, log, m, n)
  }

  ghost predicate Rising(readers: seq<Sst>, marks: seq<nat>)
    requires |marks| == |readers|
  {
    forall i, j :: 0 <= i < j < |marks| ==> marks[i] <= marks[j] && readers[i].walOffset <= readers[j].walOffset
  }

  /** `marks[i]` is the length of the log when the i-th file was made. */
  ghost predicate FilesOk(readers: seq<Sst>, log: seq<LogRec>, marks: seq<nat>)
  {
    && |marks| == |readers| && Rising(readers, marks)
    && forall i :: 0 <= i < |marks| ==> FileOk(readers[i], log, Before(marks, i), marks[i])
  }

  lemma FilesPrefix(readers: seq<Sst>, log: seq<LogRec>, marks: seq<nat>, n: nat)
    requires FilesOk(readers, log, marks) && n < |readers|
    ensures FilesOk(readers[..n], log, marks[..n]) && Before(marks[..n], n) == Before(marks, n)
    ensures FileOk(readers[n], log, Before(marks, n), marks[n]) && Before(marks, n) <= marks[n]
  {
    hide FileOk;
    forall i | 0 <= i < n
      ensures FileOk(readers[..n][i], log, Before(marks[..n], i), marks[..n][i])
    {
      assert FileOk(readers[i], log, Before(marks, i), marks[i]);
    }
  }

  lemma FilesTake(readers: seq<Sst>, log: seq<LogRec>, marks: seq<nat>, n: nat)
    requires FilesOk(readers, log, marks) && n <= |readers|
    ensures FilesOk(readers[..n], log, marks[..n]) && Before(marks[..n], n) == Before(marks, n)
  {
    hide FileOk;
    if n < |readers| {
      FilesPrefix(readers, log, marks, n);
    } else {
      assert readers[..n] == readers && marks[..n] == marks;
    }
  }

  /** `marks[i]` belongs to the i-th of the files, published or not. */
  ghost predicate Inv(s: State, marks: seq<nat>)
  {
    && GoodLog(s.log) && FilesOk(s.readers + s.frozen, s.log, marks)
    && (forall k :: k in s.mem && k != [] ==>
          s.mem[k].value.Some? && s.mem[k].value == LastPut(s.log, |s.log|, k))
    && HasNew(s.mem, s.log, Before(marks, |marks|), |s.log|)
  }

  // ---------------------------------------------------------------- reading under the invariant

  /** The files alone know the last put among the records that they cover. */
  lemma {:induction false} SstsKnow(readers: seq<Sst>, log: seq<LogRec>, marks: seq<nat>, key: Bytes)
    requires GoodLog(log) && FilesOk(readers, log, marks) && key != []
    ensures Before(marks, |marks|) <= |log|
    ensures GetFromSsts(readers, key) == LastPut(log, Before(marks, |marks|), key)
    decreases |readers|
  {
    hide FilesOk;
    if readers == [] {
      NoFiles(log, marks);
    } else {
      var n := |readers| - 1;
      FilesPrefix(readers, log, marks, n);
      SameLength(readers, log, marks);
      if key !in readers[n].content {
        SstsKnow(readers[..n], log, marks[..n], key);
        Untouched(readers[n], log, Before(marks, n), marks[n], key);
      }
    }
  }

  lemma NoFiles(log: seq<LogRec>, marks: seq<nat>)
    requires FilesOk([], log, marks)
    ensures marks == []
  {
  }

  lemma SameLength(readers: seq<Sst>, log: seq<LogRec>, marks: seq<nat>)
    requires FilesOk(readers, log, marks)
    ensures |marks| == |readers|
  {
  }

  lemma Untouched(r: Sst, log: seq<LogRec>, m: nat, n: nat, key: Bytes)
    requires FileOk(r, log, m, n) && key !in r.content && key != []
    ensures n <= |log| && (m <= n ==> LastPut(log, n, key) == LastPut(log, m, key))
  {
    if m <= n {
      LastPutUnchanged(log, m, n, key);
    }
  }

  /** The key is in a memtable that a flush has taken away, and in none since. */
  predicate Hidden(s: State, key: Bytes)
  {
    key !in s.mem && exists i :: 0 <= i < |s.frozen| && key in s.frozen[i].content
  }

  /** Exactly what a read returns: the last put, unless the key is hidden; then the last put
      before the first of the flushes in progress began. */
  lemma GetIsLastPut(s: State, marks: seq<nat>, key: Bytes)
    requires Inv(s, marks) && key != []
    ensures |s.readers| <= |marks| && Before(marks, |s.readers|) <= |s.log|
    ensures Get(s, key) == LastPut(s.log, if Hidden(s, key) then Before(marks, |s.readers|) else |s.log|, key)
    ensures Hidden(s, key) ==>
              GetFromSsts(s.frozen, key) == LastPut(s.log, |s.log|, key) && GetFromSsts(s.readers, key) == Get(s, key)
  {
    hide GetFromSsts, FilesOk;
    var all, p := s.readers + s.frozen, |s.readers|;
    SameLength(all, s.log, marks);
    FilesTake(all, s.log, marks, p);
    assert all[..p] == s.readers;
    SstsKnow(s.readers, s.log, marks[..p], key);
    if key !in s.mem {
      SstsKnow(all, s.log, marks, key);
      LastPutUnchanged(s.log, Before(marks, |marks|), |s.log|, key);
      GetConcat(s.readers, s.frozen, key);
      FrozenKnow(s, marks, key);
    }
  }

  /** All entries of the files are values. */
  lemma FrozenKnow(s: State, marks: seq<nat>, key: Bytes)
    requires Inv(s, marks) && key != []
    ensures GetFromSsts(s.frozen, key) == None <==>
            forall i :: 0 <= i < |s.frozen| ==> key !in s.frozen[i].content
  {
    hide GetFromSsts, Inv;
    SstsSilentIff(s.frozen, key);
    forall i | 0 <= i < |s.frozen| && key in s.frozen[i].content
      ensures s.frozen[i].content[key].value.Some?
    {
      FrozenIsOk(s, marks, i);
    }
  }

  lemma FrozenIsOk(s: State, marks: seq<nat>, i: nat)
    requires Inv(s, marks) && i < |s.frozen|
    ensures forall k :: k in s.frozen[i].content && k != [] ==> s.frozen[i].content[k].value.Some?
  {
    hide FileOk, GoodLog, HasNew, LastPut;
    var all, j := s.readers + s.frozen, |s.readers| + i;
    assert all[j] == s.frozen[i];
    assert FileOk(all[j], s.log, Before(marks, j), marks[j]);
    ValuesOnly(all[j], s.log, Before(marks, j), marks[j]);
  }

  lemma ValuesOnly(r: Sst, log: seq<LogRec>, m: nat, n: nat)
    requires FileOk(r, log, m, n)
    ensures forall k :: k in r.content && k != [] ==> r.content[k].value.Some?
  {
    hide LastPut;
  }

  // ---------------------------------------------------------------- every step keeps it

  lemma CoversLonger(r: Sst, log: seq<LogRec>, x: LogRec, n: nat)
    requires Covers(r, log, n)
    ensures Covers(r, log + [x], n)
  {
    assert (log + [x])[..n] == log[..n];
    forall k | k in r.content && k != []
      ensures LastPut(log + [x], n, k) == LastPut(log, n, k)
    {
      LastPutStable(log, log + [x], n, k);
    }
  }

  lemma FileLonger(r: Sst, log: seq<LogRec>, x: LogRec, m: nat, n: nat)
    requires FileOk(r, log, m, n)
    ensures FileOk(r, log + [x], m, n)
  {
    CoversLonger(r, log, x, n);
  }

  lemma FilesLonger(readers: seq<Sst>, log: seq<LogRec>, x: LogRec, marks: seq<nat>)
    requires FilesOk(readers, log, marks)
    ensures FilesOk(readers, log + [x], marks)
  {
    hide FileOk;
    forall i | 0 <= i < |marks|
      ensures FileOk(readers[i], log + [x], Before(marks, i), marks[i])
    {
      FileLonger(readers[i], log, x, Before(marks, i), marks[i]);
    }
  }

  lemma PutKeepsInv(s: State, marks: seq<nat>, key: Bytes, value: Bytes, size: nat)
    requires Inv(s, marks) && size > 0
    ensures Inv(WriteStep(s, key, Some(value), size), marks)
  {
    hide FilesOk;
    var t := WriteStep(s, key, Some(value), size);
    var x := t.log[|s.log|];
    FilesLonger(s.readers + s.frozen, s.log, x, marks);
    forall k | k in t.mem && k != []
      ensures t.mem[k].value.Some? && t.mem[k].value == LastPut(t.log, |t.log|, k)
    {
      LastPutStable(s.log, t.log, |s.log|, k);
    }
  }

  lemma DetachKeepsInv(s: State, marks: seq<nat>, offset: nat)
    requires Inv(s, marks) && LastOffset(s.readers + s.frozen) <= offset <= End(s.log)
    ensures Inv(DetachStep(s, offset), marks + [|s.log|])
  {
    hide FilesOk, Covers;
    var all, file := s.readers + s.frozen, Sst(s.mem, offset);
    SameLength(all, s.log, marks);
    NewFileOk(s, marks, offset);
    OneMoreFile(all, s.log, marks, file);
    assert all + [file] == s.readers + (s.frozen + [file]);
  }

  lemma PublishKeepsInv(s: State, marks: seq<nat>)
    requires Inv(s, marks) && s.frozen != []
    ensures Inv(PublishStep(s, 0), marks)
  {
    hide FilesOk;
    assert s.readers + s.frozen == (s.readers + [s.frozen[0]]) + (s.frozen[..0] + s.frozen[1..]);
  }

  lemma NewFileOk(s: State, marks: seq<nat>, offset: nat)
    requires Inv(s, marks) && offset <= End(s.log)
    ensures FileOk(Sst(s.mem, offset), s.log, Before(marks, |marks|), |s.log|)
  {
    hide FilesOk;
    assert s.log[..|s.log|] == s.log;
  }

  lemma OneMoreFile(readers: seq<Sst>, log: seq<LogRec>, marks: seq<nat>, r: Sst)
    requires FilesOk(readers, log, marks) && LastOffset(readers) <= r.walOffset
    requires FileOk(r, log, Before(marks, |marks|), |log|)
    ensures FilesOk(readers + [r], log, marks + [|log|])
  {
    hide FileOk, Rising;
    MarksFit(readers, log, marks);
    OneMoreRises(readers, marks, r, |log|);
    var marks' := marks + [|log|];
    forall i | 0 <= i < |marks'|
      ensures FileOk((readers + [r])[i], log, Before(marks', i), marks'[i])
    {
      assert Before(marks', i) == Before(marks, i);
      if i < |marks| {
        assert FileOk(readers[i], log, Before(marks, i), marks[i]);
      }
    }
  }

  lemma MarksFit(readers: seq<Sst>, log: seq<LogRec>, marks: seq<nat>)
    requires FilesOk(readers, log, marks)
    ensures forall i :: 0 <= i < |marks| ==> marks[i] <= |log|
  {
    forall i | 0 <= i < |marks|
      ensures marks[i] <= |log|
    {
      assert FileOk(readers[i], log, Before(marks, i), marks[i]);
    }
  }

  lemma OneMoreRises(readers: seq<Sst>, marks: seq<nat>, r: Sst, n: nat)
    requires |marks| == |readers| && Rising(readers, marks) && LastOffset(readers) <= r.walOffset
    requires forall i :: 0 <= i < |marks| ==> marks[i] <= n
    ensures Rising(readers + [r], marks + [n])
  {
    forall i | 0 <= i < |readers|
      ensures readers[i].walOffset <= r.walOffset
    {
      if i < |readers| - 1 {
        assert readers[i].walOffset <= readers[|readers| - 1].walOffset;
      }
    }
  }

  ghost predicate SortedReaders(readers: seq<Sst>)
  {
    forall i, j :: 0 <= i < j < |readers| ==> readers[i].walOffset <= readers[j].walOffset
  }

  lemma {:induction false} SortKeepsSorted(readers: seq<Sst>)
    requires SortedReaders(readers)
    ensures SortReaders(readers) == readers
    ensures readers != [] ==> MinOffset(readers) == readers[0].walOffset
  {
    if readers != [] {
      SortKeepsSorted(readers[1..]);
      assert readers == [readers[0]] + readers[1..];
    }
  }

  /** What replay has put into the memtable after the first `i` records. */
  ghost predicate ReplayedTo(m: Mem, log: seq<LogRec>, i: nat, min: nat)
    requires i <= |log|
  {
    && [] !in m
    && (forall k :: k in m ==> m[k].value.Some? && m[k].value == LastPut(log, i, k))
    && (forall j :: 0 <= j < i && log[j].end > min && log[j].op.key != [] ==> log[j].op.key in m)
    && (m != map[] ==> i > 0 && log[i - 1].end > min)
  }

  lemma ReplayOne(log: seq<LogRec>, i: nat, min: nat, r: Replayed)
    requires GoodLog(log) && i < |log| && ReplayedTo(r.mem, log, i, min)
    ensures ReplayedTo((if log[i].end > min then ReplayOp(r, log[i].op) else r).mem, log, i + 1, min)
  {
    hide LastPut;
    var next := if log[i].end > min then ReplayOp(r, log[i].op) else r;
    assert i > 0 ==> log[i - 1].end < log[i].end;
    forall k | k in next.mem
      ensures next.mem[k].value.Some? && next.mem[k].value == LastPut(log, i + 1, k)
    {
      LastPutStep(log, i, k);
    }
  }

  lemma LastPutStep(log: seq<LogRec>, i: nat, key: Bytes)
    requires i < |log|
    ensures LastPut(log, i + 1, key) == if log[i].op.key == key then log[i].op.value else LastPut(log, i, key)
  {
  }

  /** Replay from the smallest recorded offset keeps that up to the end of the log. */
  lemma {:induction false} ReplayGives(log: seq<LogRec>, i: nat, min: nat, r: Replayed)
    requires GoodLog(log) && i <= |log| && ReplayedTo(r.mem, log, i, min)
    ensures ReplayedTo(ReplayAfter(log[i..], min, r).mem, log, |log|, min)
    decreases |log| - i
  {
    hide ReplayedTo, ReplayOp, GoodLog;
    if i < |log| {
      assert log[i..][0] == log[i] && log[i..][1..] == log[i + 1..];
      ReplayOne(log, i, min, r);
      ReplayGives(log, i + 1, min, if log[i].end > min then ReplayOp(r, log[i].op) else r);
    } else {
      assert log[i..] == [];
    }
  }

  lemma ReopenKeepsInv(s: State, marks: seq<nat>)
    requires GoodLog(s.log) && FilesOk(s.readers, s.log, marks)
    ensures Inv(ReopenStep(s), marks) && ReopenStep(s).readers == s.readers && ReopenStep(s).log == s.log
  {
    hide ReplayAfter, SortReaders, MinOffset, FilesOk, LastPut;
    FilesAreSorted(s.readers, s.log, marks);
    SortKeepsSorted(s.readers);
    var t := ReopenStep(s);
    assert t.readers + t.frozen == s.readers && t.log == s.log;
    assert s.log[0..] == s.log;
    ReplayGives(s.log, 0, MinOffset(s.readers), Replayed(map[], 0));
    forall i | Before(marks, |marks|) <= i < |s.log|
      ensures s.log[i].end > MinOffset(s.readers)
    {
      BeyondFiles(s.readers, s.log, marks, i);
    }
    assert t.mem == ReplayAfter(s.log[0..], MinOffset(s.readers), Replayed(map[], 0)).mem;
    assert HasNew(t.mem, t.log, Before(marks, |marks|), |t.log|);
    assert forall k :: k in t.mem ==> t.mem[k].value == LastPut(t.log, |t.log|, k);
  }

  /** Files in the making are lost, but what they were to cover is replayed. */
  lemma CrashKeepsInv(s: State, marks: seq<nat>)
    requires Inv(s, marks)
    ensures |s.readers| <= |marks| && Inv(ReopenStep(s), marks[..|s.readers|])
  {
    hide FilesOk;
    var all := s.readers + s.frozen;
    SameLength(all, s.log, marks);
    FilesTake(all, s.log, marks, |s.readers|);
    assert all[..|s.readers|] == s.readers;
    ReopenKeepsInv(s, marks[..|s.readers|]);
  }

  lemma FilesAreSorted(readers: seq<Sst>, log: seq<LogRec>, marks: seq<nat>)
    requires FilesOk(readers, log, marks)
    ensures SortedReaders(readers)
  {
    hide FileOk;
  }

  /** What no file covers ends after every recorded offset. */
  lemma BeyondFiles(readers: seq<Sst>, log: seq<LogRec>, marks: seq<nat>, i: nat)
    requires GoodLog(log) && FilesOk(readers, log, marks) && Before(marks, |marks|) <= i < |log|
    ensures log[i].end > MinOffset(readers)
  {
    hide MinOffset;
    FilesAreSorted(readers, log, marks);
    SortKeepsSorted(readers);
    NoFilesNoBound(readers);
    if readers != [] {
      assert FileOk(readers[0], log, Before(marks, 0), marks[0]);
      assert marks[0] <= marks[|marks| - 1];
      UncoveredIsPast(readers[0], log, marks[0], i);
    }
  }

  lemma NoFilesNoBound(readers: seq<Sst>)
    ensures readers == [] ==> MinOffset(readers) == 0
  {
  }

  lemma UncoveredIsPast(r: Sst, log: seq<LogRec>, n: nat, i: nat)
    requires GoodLog(log) && Covers(r, log, n) && n <= i < |log|
    ensures log[i].end > r.walOffset
  {
    if n > 0 {
      assert log[..n][n - 1] == log[n - 1];
    }
  }

  // ---------------------------------------------------------------- main results

  lemma {:induction false} RunKeepsInv(s: State, marks: seq<nat>, es: seq<Event>) returns (marks': seq<nat>)
    requires Inv(s, marks) && AllLegal(s, es) && InOrder(es)
    ensures Inv(Run(s, es), marks')
    decreases |es|
  {
    hide Inv, WriteStep, DetachStep, PublishStep, ReopenStep;
    if es == [] {
      marks' := marks;
    } else {
      var next := marks;
      match es[0] {
        case Put(k, v, size) => PutKeepsInv(s, marks, k, v, size);
        case Detach(offset) =>
          DetachKeepsInv(s, marks, offset);
          next := marks + [|s.log|];
        case Publish(i) =>
          assert es[0] in es;
          PublishKeepsInv(s, marks);
        case Reopen =>
          CrashKeepsInv(s, marks);
          next := marks[..|s.readers|];
      }
      assert forall e :: e in es[1..] ==> e in es;
      marks' := RunKeepsInv(Step(s, es[0]), next, es[1..]);
    }
  }

  /** The last value that a history puts under a key. */
  function LastValue(es: seq<Event>, key: Bytes): Option<Bytes>
  {
    if es == [] then None
    else
      var later := LastValue(es[1..], key);
      if later.Some? then later
      else if es[0].Put? && es[0].key == key then Some(es[0].value)
      else None
  }

  lemma {:induction false} LogHoldsLastValue(s: State, es: seq<Event>, key: Bytes)
    ensures LastPut(Run(s, es).log, |Run(s, es).log|, key) ==
            if LastValue(es, key).Some? then LastValue(es, key) else LastPut(s.log, |s.log|, key)
    decreases |es|
  {
    hide ReplayAfter, SortReaders, MinOffset;
    if es != [] {
      var t := Step(s, es[0]);
      LogHoldsLastValue(t, es[1..], key);
      if es[0].Put? {
        LastPutStable(s.log, t.log, |s.log|, key);
      }
    }
  }

  /** After any history of puts, flushes and restarts, with reads, writes and crashes in the
      middle of a flush: `get` returns the last value put, for every key but the empty one, if
      and only if the key is not hidden by a flush in progress or the files happen to have the
      same value. Replay starts at the smallest recorded offset and so applies again what the
      files already hold. */
  lemma GetReturnsLastPutIff(es: seq<Event>, key: Bytes)
    requires AllLegal(EMPTY, es) && InOrder(es) && key != []
    ensures var s := Run(EMPTY, es);
            Get(s, key) == LastValue(es, key) <==>
            !Hidden(s, key) || GetFromSsts(s.frozen, key) == GetFromSsts(s.readers, key)
  {
    hide GetFromSsts, Get, Run, Inv, AllLegal, InOrder, LastPut, LastValue, Hidden;
    EmptyInv(key);
    var marks := RunKeepsInv(EMPTY, [], es);
    GetIsLastPut(Run(EMPTY, es), marks, key);
    LogHoldsLastValue(EMPTY, es, key);
  }

  lemma EmptyInv(key: Bytes)
    ensures Inv(EMPTY, []) && LastPut(EMPTY.log, 0, key) == None
  {
  }

  /** So it does whenever no flush is in progress. */
  lemma GetReturnsLastPut(es: seq<Event>, key: Bytes)
    requires AllLegal(EMPTY, es) && InOrder(es) && key != []
    requires Run(EMPTY, es).frozen == []
    ensures Get(Run(EMPTY, es), key) == LastValue(es, key)
  {
    hide Get, Run;
    GetReturnsLastPutIff(es, key);
  }

  // ---------------------------------------------------------------- flushes in progress

  /** The value that one file has for a key. */
  function Held(r: Sst, key: Bytes): Option<Bytes>
  {
    if key in r.content then r.content[key].value else None
  }

  lemma HeldByOne(r: Sst, key: Bytes)
    ensures GetFromSsts([r], key) == Held(r, key)
  {
    assert [r][..0] == [];
    assert GetFromSsts([], key) == None;
  }

  lemma {:induction false} GetConcat(a: seq<Sst>, b: seq<Sst>, key: Bytes)
    ensures GetFromSsts(a + b, key) ==
            if GetFromSsts(b, key).Some? then GetFromSsts(b, key) else GetFromSsts(a, key)
    decreases |b|
  {
    if b == [] {
      assert a + b == a;
    } else {
      assert (a + b)[..|a + b| - 1] == a + b[..|b| - 1];
      GetConcat(a, b[..|b| - 1], key);
    }
  }

  /** The start of a flush is visible to a read exactly if the memtable had a value that the
      files do not have. */
  lemma DetachIsInvisibleIff(s: State, offset: nat, key: Bytes)
    ensures Get(DetachStep(s, offset), key) == Get(s, key) <==>
            var v := Held(Sst(s.mem, offset), key); v == None || v == GetFromSsts(s.readers, key)
  {
    hide GetFromSsts;
  }

  /** A flush that nothing interrupts is not visible at all. */
  lemma FlushIsInvisible(s: State, offset: nat, key: Bytes)
    ensures Get(PublishStep(DetachStep(s, offset), |s.frozen|), key) == Get(s, key)
  {
    hide GetFromSsts;
    FlushIsTwoSteps(s, offset);
    GetConcat(s.readers, [Sst(s.mem, offset)], key);
    HeldByOne(Sst(s.mem, offset), key);
  }

  /** Two overlapping flushes that end in the wrong order: the readers stand in the order of
      their ends, and a read notices exactly if both files have a value for the key and they
      differ. */
  lemma EndOrderIsInvisibleIff(s: State, i: nat, key: Bytes)
    requires i + 1 < |s.frozen|
    ensures var inOrder := PublishStep(PublishStep(s, i), i);
            var swapped := PublishStep(PublishStep(s, i + 1), i);
            var a, b := Held(s.frozen[i], key), Held(s.frozen[i + 1], key);
            && inOrder.frozen == swapped.frozen
            && (Get(swapped, key) == Get(inOrder, key) <==>
                (key in s.mem && s.mem[key].value.Some?) || a == None || b == None || a == b)
  {
    hide GetFromSsts;
    var x, y := s.frozen[i], s.frozen[i + 1];
    GetConcat(s.readers + [x], [y], key);
    GetConcat(s.readers + [y], [x], key);
    GetConcat(s.readers, [x], key);
    GetConcat(s.readers, [y], key);
    HeldByOne(x, key);
    HeldByOne(y, key);
  }

  // ---------------------------------------------------------------- overtaken, and then a crash

  /** A record of the key ends after `min`. */
  ghost predicate PutAfter(log: seq<LogRec>, min: nat, key: Bytes)
  {
    exists j :: 0 <= j < |log| && log[j].op.key == key && log[j].end > min
  }

  lemma PutAfterCons(log: seq<LogRec>, min: nat, key: Bytes)
    requires log != []
    ensures PutAfter(log, min, key) <==> (log[0].op.key == key && log[0].end > min) || PutAfter(log[1..], min, key)
  {
    if PutAfter(log[1..], min, key) {
      var j :| 0 <= j < |log[1..]| && log[1..][j].op.key == key && log[1..][j].end > min;
      assert log[j + 1].op.key == key && log[j + 1].end > min;
    }
    if PutAfter(log, min, key) {
      var j :| 0 <= j < |log| && log[j].op.key == key && log[j].end > min;
      assert j > 0 ==> log[1..][j - 1] == log[j];
    }
  }

  lemma {:induction false} ReplayedIff(log: seq<LogRec>, min: nat, r: Replayed, key: Bytes)
    requires key != [] && forall i :: 0 <= i < |log| ==> log[i].op.value.Some?
    ensures key in ReplayAfter(log, min, r).mem <==> key in r.mem || PutAfter(log, min, key)
    decreases |log|
  {
    hide PutAfter;
    if log == [] {
      assert !PutAfter(log, min, key) by { NoPutAfter(min, key); }
    } else {
      PutAfterCons(log, min, key);
      ReplayedIff(log[1..], min, if log[0].end > min then ReplayOp(r, log[0].op) else r, key);
    }
  }

  lemma NoPutAfter(min: nat, key: Bytes)
    ensures !PutAfter([], min, key)
  {
  }

  /** A restart on these files: what was put after the smallest offset is in the memtable, and
      the rest is for the files to know. */
  lemma RestartReads(s: State, files: seq<Sst>, key: Bytes)
    requires GoodLog(s.log) && SortedReaders(files) && key != []
    ensures var t := ReopenStep(s.(readers := files));
            Get(t, key) == if PutAfter(s.log, MinOffset(files), key) then LastPut(s.log, |s.log|, key)
                           else GetFromSsts(files, key)
  {
    hide ReplayAfter, GetFromSsts, PutAfter, LastPut, SortReaders, MinOffset, SortedReaders, GoodLog;
    SortKeepsSorted(files);
    AllArePuts(s.log);
    var min := MinOffset(files);
    assert s.log[0..] == s.log;
    assert ReplayedTo(map[], s.log, 0, min);
    ReplayGives(s.log, 0, min, Replayed(map[], 0));
    ReplayedIff(s.log, min, Replayed(map[], 0), key);
  }

  lemma AllArePuts(log: seq<LogRec>)
    requires GoodLog(log)
    ensures forall i :: 0 <= i < |log| ==> log[i].op.value.Some?
  {
  }

  /** No record of the key behind place `m` whose end is behind that of the m-th record. */
  lemma UnputIsUnchanged(log: seq<LogRec>, min: nat, m: nat, n: nat, key: Bytes)
    requires GoodLog(log) && m <= n <= |log| && min <= End(log[..m]) && !PutAfter(log, min, key)
    ensures LastPut(log, n, key) == LastPut(log, m, key)
  {
    hide LastPut;
    forall i | m <= i < n
      ensures log[i].op.key != key
    {
      if m > 0 {
        assert log[..m][m - 1] == log[m - 1];
      }
    }
    LastPutUnchanged(log, m, n, key);
  }

  lemma {:induction false} LastPutSome(log: seq<LogRec>, n: nat, key: Bytes)
    requires GoodLog(log) && n <= |log|
    ensures LastPut(log, n, key) == None <==> forall i :: 0 <= i < n ==> log[i].op.key != key
  {
    if n > 0 {
      LastPutSome(log, n - 1, key);
    }
  }

  /** A flush may overtake the ones in progress before it. When it has published its file and
      the process then crashes, the memtables of the others are gone, and replay starts behind
      their records. The last put of a key survives exactly if an older file keeps the start of
      the replay before it, or the new file has the key, or a record of it is replayed, or it
      was never put. */
  lemma OvertakenFlushSurvivesIff(s: State, marks: seq<nat>, i: nat, key: Bytes)
    requires Inv(s, marks) && i < |s.frozen| && key != []
    ensures var file := s.frozen[i];
            Get(ReopenStep(PublishStep(s, i)), key) == LastPut(s.log, |s.log|, key) <==>
            s.readers != [] || key in file.content || PutAfter(s.log, file.walOffset, key) ||
            LastPut(s.log, |s.log|, key) == None
  {
    hide ReplayAfter, GetFromSsts, PutAfter, LastPut, SortReaders, MinOffset, SortedReaders, GoodLog, FilesOk;
    var file, all, p := s.frozen[i], s.readers + s.frozen, |s.readers|;
    var files := s.readers + [file];
    OvertakingIsSorted(s, marks, i);
    SortKeepsSorted(files);
    RestartReads(s, files, key);
    assert ReopenStep(s.(readers := files)) == ReopenStep(PublishStep(s, i));
    GetConcat(s.readers, [file], key);
    HeldByOne(file, key);
    if !PutAfter(s.log, files[0].walOffset, key) {
      OvertakingKnows(s, marks, i, key);
      if s.readers == [] {
        assert GetFromSsts([], key) == None by { NoFileNoValue(key); }
      } else {
        FirstFileKnows(s, marks, key);
      }
    }
  }

  lemma NoFileNoValue(key: Bytes)
    ensures GetFromSsts([], key) == None
  {
  }

  lemma OvertakingIsSorted(s: State, marks: seq<nat>, i: nat)
    requires Inv(s, marks) && i < |s.frozen|
    ensures SortedReaders(s.readers + [s.frozen[i]])
  {
    hide FilesOk, GoodLog, HasNew, SortedReaders;
    FilesAreSorted(s.readers + s.frozen, s.log, marks);
    OneOfTail(s.readers, s.frozen, i);
  }

  lemma OneOfTail(a: seq<Sst>, b: seq<Sst>, i: nat)
    requires SortedReaders(a + b) && i < |b|
    ensures SortedReaders(a + [b[i]])
  {
    var all, some := a + b, a + [b[i]];
    assert all[|a| + i] == b[i] && forall x :: 0 <= x < |a| ==> all[x] == some[x];
  }

  /** If nothing of the key is replayed, the overtaking file has its last put or nothing. */
  lemma OvertakingKnows(s: State, marks: seq<nat>, i: nat, key: Bytes)
    requires Inv(s, marks) && i < |s.frozen| && key != []
    requires var files := s.readers + [s.frozen[i]]; !PutAfter(s.log, files[0].walOffset, key)
    ensures Held(s.frozen[i], key) == if key in s.frozen[i].content then LastPut(s.log, |s.log|, key) else None
    ensures key in s.frozen[i].content ==> LastPut(s.log, |s.log|, key).Some?
  {
    hide GoodLog, HasNew, LastPut, PutAfter, FileOk;
    var all, j := s.readers + s.frozen, |s.readers| + i;
    assert all[j] == s.frozen[i];
    FilesAreSorted(all, s.log, marks);
    assert FileOk(all[j], s.log, Before(marks, j), marks[j]);
    CoversKey(all[j], s.log, Before(marks, j), marks[j], key);
    assert s.readers != [] ==> all[0] == s.readers[0] && all[0].walOffset <= all[j].walOffset;
    PutAfterLess(s.log, (s.readers + [s.frozen[i]])[0].walOffset, s.frozen[i].walOffset, key);
    UnputIsUnchanged(s.log, s.frozen[i].walOffset, marks[j], |s.log|, key);
  }

  lemma CoversKey(r: Sst, log: seq<LogRec>, m: nat, n: nat, key: Bytes)
    requires FileOk(r, log, m, n) && key != []
    ensures n <= |log| && r.walOffset <= End(log[..n])
    ensures key in r.content ==> r.content[key].value.Some? && r.content[key].value == LastPut(log, n, key)
  {
    hide LastPut;
  }

  lemma PutAfterLess(log: seq<LogRec>, a: nat, b: nat, key: Bytes)
    requires a <= b && !PutAfter(log, a, key)
    ensures !PutAfter(log, b, key)
  {
  }

  /** With an older file: the published ones know the last put of a key that is not replayed. */
  lemma FirstFileKnows(s: State, marks: seq<nat>, key: Bytes)
    requires Inv(s, marks) && s.readers != [] && key != [] && !PutAfter(s.log, s.readers[0].walOffset, key)
    ensures GetFromSsts(s.readers, key) == LastPut(s.log, |s.log|, key)
  {
    hide GoodLog, HasNew, LastPut, PutAfter, FileOk, GetFromSsts;
    var all, p := s.readers + s.frozen, |s.readers|;
    SameLength(all, s.log, marks);
    FilesTake(all, s.log, marks, p);
    assert all[..p] == s.readers;
    SstsKnow(s.readers, s.log, marks[..p], key);
    FilesAreSorted(all, s.log, marks);
    assert FileOk(all[p - 1], s.log, Before(marks, p - 1), marks[p - 1]);
    CoversKey(all[p - 1], s.log, Before(marks, p - 1), marks[p - 1], key);
    assert all[0].walOffset <= all[p - 1].walOffset;
    PutAfterLess(s.log, s.readers[0].walOffset, all[p - 1].walOffset, key);
    UnputIsUnchanged(s.log, all[p - 1].walOffset, marks[p - 1], |s.log|, key);
  }

  // ---------------------------------------------------------------- deletions

  /** A deletion hides the key from `get` exactly if no file holds a value for it: with or
      without a tombstone in the memtable, the read falls through to the files. */
  lemma DeleteHidesIff(s: State, key: Bytes, size: nat)
    ensures Get(WriteStep(s, key, None, size), key) == None <==>
            forall i :: 0 <= i < |s.readers| ==>
              !(key in s.readers[i].content && s.readers[i].content[key].value.Some?)
  {
    SstsSilentIff(s.readers, key);
  }

  lemma {:induction false} SstsSilentIff(readers: seq<Sst>, key: Bytes)
    ensures GetFromSsts(readers, key) == None <==>
            forall i :: 0 <= i < |readers| ==> !(key in readers[i].content && readers[i].content[key].value.Some?)
    decreases |readers|
  {
    if readers != [] {
      var init := readers[..|readers| - 1];
      SstsSilentIff(init, key);
      assert forall i :: 0 <= i < |init| ==> init[i] == readers[i];
    }
  }

  /** So a value that was flushed comes back after its deletion. */
  lemma DeletedComesBack(s: State, key: Bytes, value: Bytes, size: nat)
    requires key !in s.mem && size > 0
    ensures var flushed := FlushStep(WriteStep(s, key, Some(value), size), End(s.log) + size);
            Get(WriteStep(flushed, key, None, size), key) == Some(value)
  {
    var put := WriteStep(s, key, Some(value), size);
    var flushed := FlushStep(put, End(s.log) + size);
    assert flushed.readers[|s.readers|] == Sst(put.mem, End(s.log) + size);
  }

  // ---------------------------------------------------------------- restarts and revisions

  /** The guard: something was logged after the smallest offset that a file records. */
  predicate LogGoesOn(s: State)
  {
    s.log == [] || End(s.log) > MinOffset(SortReaders(s.readers))
  }

  ghost predicate RevsIncrease(log: seq<LogRec>)
  {
    && (forall i :: 0 <= i < |log| ==> log[i].op.rev > 0 && log[i].op.key != [])
    && forall i, j :: 0 <= i < j < |log| ==> log[i].op.rev < log[j].op.rev
  }

  lemma {:induction false} ReplayedCounter(log: seq<LogRec>, min: nat, r: Replayed)
    requires EndsRise(log) && RevsIncrease(log)
    requires log != [] ==> r.revCounter < log[0].op.rev
    ensures var c := ReplayAfter(log, min, r).revCounter;
            c == if log != [] && End(log) > min then log[|log| - 1].op.rev else r.revCounter
    decreases |log|
  {
    if log != [] {
      var next := if log[0].end > min then ReplayOp(r, log[0].op) else r;
      if |log| > 1 {
        assert log[1..][|log| - 2] == log[|log| - 1];
        assert log[0].op.rev < log[1].op.rev;
      }
      ReplayedCounter(log[1..], min, next);
      if |log| > 1 && End(log) <= min {
        assert log[0].end < log[|log| - 1].end;
      }
    }
  }

  /** A restart keeps the revision counter above every logged revision exactly under the guard:
      the counter is rebuilt from the replayed records alone, not from the files. */
  lemma RestartKeepsCounterIff(s: State)
    requires EndsRise(s.log) && RevsIncrease(s.log)
    ensures (forall i :: 0 <= i < |s.log| ==> s.log[i].op.rev <= ReopenStep(s).revCounter) <==> LogGoesOn(s)
  {
    hide SortReaders, MinOffset, ReplayAfter;
    ReplayedCounter(s.log, MinOffset(SortReaders(s.readers)), Replayed(map[], 0));
    if s.log != [] {
      var last := |s.log| - 1;
      assert forall i :: 0 <= i < last ==> s.log[i].op.rev < s.log[last].op.rev;
    }
  }

  /** Two puts, a flush, a restart and one more put: the new version of the key gets revision 1,
      below the revision 2 that the file has for the old one. */
  lemma RevisionsStartAgain(key: Bytes, a: Bytes, b: Bytes, c: Bytes, size: nat)
    requires key != [] && size > 0
    ensures var run := [Event.Put(key, a, size), Event.Put(key, b, size), Detach(2 * size), Publish(0), Reopen,
                        Event.Put(key, c, size)];
            var s := Run(EMPTY, run);
            && AllLegal(EMPTY, run)
            && key in s.mem && s.mem[key] == MemValue(Some(c), 1)
            && |s.readers| == 1 && key in s.readers[0].content
            && s.readers[0].content[key] == MemValue(Some(b), 2)
  {
    hide Run, AllLegal, SortReaders, ReplayAfter;
    var s1 := WriteStep(EMPTY, key, Some(a), size);
    var s2 := WriteStep(s1, key, Some(b), size);
    var s3 := FlushStep(s2, 2 * size);
    assert s2.log == [LogRec(Logged(key, Some(a), 1), size), LogRec(Logged(key, Some(b), 2), 2 * size)];
    assert s3.readers == [Sst(s2.mem, 2 * size)];
    SortKeepsSorted(s3.readers);
    TwoSkipped(s2.log, 2 * size, Replayed(map[], 0));
    var s4 := ReopenStep(s3);
    assert s4 == Engine(map[], s2.log, s3.readers, [], 0);
    var s5 := WriteStep(s4, key, Some(c), size);
    var es := [Event.Put(key, a, size), Event.Put(key, b, size), Detach(2 * size), Publish(0), Reopen,
               Event.Put(key, c, size)];
    SixSteps([EMPTY, s1, s2, DetachStep(s2, 2 * size), s3, s4, s5], es);
  }

  lemma TwoSkipped(log: seq<LogRec>, min: nat, r: Replayed)
    requires |log| == 2 && log[0].end <= min && log[1].end <= min
    ensures ReplayAfter(log, min, r) == r
  {
    assert log[1..][1..] == [];
    assert ReplayAfter(log[1..], min, r) == ReplayAfter(log[1..][1..], min, r);
  }

  lemma SixSteps(s: seq<State>, es: seq<Event>)
    requires |s| == 7 && |es| == 6
    requires forall i :: 0 <= i < 6 ==> Legal(s[i], es[i]) && Step(s[i], es[i]) == s[i + 1]
    ensures Run(s[0], es) == s[6] && AllLegal(s[0], es)
  {
    hide Step, Legal;
    assert es[6..] == [] && es[0..] == es;
    RunFrom(s, es, 0);
  }

  lemma {:induction false} RunFrom(s: seq<State>, es: seq<Event>, i: nat)
    requires |s| == |es| + 1 && i <= |es|
    requires forall i :: 0 <= i < |es| ==> Legal(s[i], es[i]) && Step(s[i], es[i]) == s[i + 1]
    ensures Run(s[i], es[i..]) == s[|es|] && AllLegal(s[i], es[i..])
    decreases |es| - i
  {
    hide Step, Legal;
    if i < |es| {
      assert es[i..][1..] == es[i + 1..];
      RunFrom(s, es, i + 1);
    }
  }

  // ---------------------------------------------------------------- where the claim ends

  /** A put has appended its record but not yet updated the memtable when a flush takes its
      snapshot and the log's end. After a crash the write is there exactly if an older file
      keeps the start of the replay before it, or the key had that value before. */
  lemma InFlightWriteSurvivesIff(s: State, key: Bytes, value: Bytes, size: nat)
    requires key != [] && size > 0
    requires SortedReaders(s.readers) && LastOffset(s.readers) <= End(s.log)
    requires LastOffset(s.readers + s.frozen) <= End(s.log)
    requires forall i :: 0 <= i < |s.log| ==> s.log[i].end <= End(s.log)
    ensures var end := End(s.log) + size;
            var appended := s.(log := s.log + [LogRec(Logged(key, Some(value), s.revCounter + 1), end)],
                               revCounter := s.revCounter + 1);
            && Legal(appended, Detach(end))
            && (Get(ReopenStep(FlushStep(appended, end)), key) == Some(value) <==>
                s.readers != [] || (key in s.mem && s.mem[key].value == Some(value)))
  {
    hide SortReaders, GetFromSsts, ReplayAfter, MinOffset, SortedReaders;
    var end := End(s.log) + size;
    var rec := LogRec(Logged(key, Some(value), s.revCounter + 1), end);
    var file := Sst(s.mem, end);
    var readers := s.readers + [file];
    var start := Replayed(map[], 0);
    NoneAboveLast(s.readers);
    OneMoreSorted(s.readers, file);
    SortKeepsSorted(readers);
    if s.readers == [] {
      assert readers == [file];
      NothingAfter(s.log + [rec], end, start);
      HeldByOne(file, key);
    } else {
      assert readers[0] == s.readers[0];
      ReplaySnoc(s.log, rec, readers[0].walOffset, start);
    }
  }

  lemma NoneAboveLast(readers: seq<Sst>)
    requires SortedReaders(readers)
    ensures forall i :: 0 <= i < |readers| ==> readers[i].walOffset <= LastOffset(readers)
  {
    forall i | 0 <= i < |readers|
      ensures readers[i].walOffset <= LastOffset(readers)
    {
      assert i == |readers| - 1 || readers[i].walOffset <= readers[|readers| - 1].walOffset;
    }
  }

  lemma {:induction false} ReplaySnoc(log: seq<LogRec>, x: LogRec, min: nat, r: Replayed)
    ensures ReplayAfter(log + [x], min, r) ==
            if x.end > min then ReplayOp(ReplayAfter(log, min, r), x.op) else ReplayAfter(log, min, r)
    decreases |log|
  {
    hide ReplayOp;
    if log == [] {
      assert (log + [x])[1..] == [];
    } else {
      assert (log + [x])[1..] == log[1..] + [x];
      ReplaySnoc(log[1..], x, min, if log[0].end > min then ReplayOp(r, log[0].op) else r);
    }
  }

  lemma {:induction false} NothingAfter(log: seq<LogRec>, min: nat, r: Replayed)
    requires forall i :: 0 <= i < |log| ==> log[i].end <= min
    ensures ReplayAfter(log, min, r) == r
    decreases |log|
  {
    if log != [] {
      NothingAfter(log[1..], min, r);
    }
  }

  /** The newest cell that the files have for a key, be it a tombstone. */
  function NewestCell(readers: seq<Sst>, key: Bytes): Option<MemValue>
  {
    if readers == [] then None
    else
      var r := readers[|readers| - 1];
      if key in r.content then Some(r.content[key]) else NewestCell(readers[..|readers| - 1], key)
  }

  /** What `cas` compares with. */
  function LatestRev(mem: Mem, readers: seq<Sst>, key: Bytes): Option<nat>
  {
    if key in mem then Some(mem[key].rev)
    else
      var c := NewestCell(readers, key);
      if c == None then None else Some(c.value.rev)
  }

  // ---------------------------------------------------------------- partial compaction

  /** The readers whose mark is `which`, in their order. */
  function Picked(readers: seq<Sst>, marks: seq<bool>, which: bool): (r: seq<Sst>)
    requires |marks| == |readers|
    ensures forall x :: x in r ==> x in readers
    decreases |readers|
  {
    if readers == [] then []
    else
      var n := |readers| - 1;
      Picked(readers[..n], marks[..n], which) + if marks[n] == which then [readers[n]] else []
  }

  /** The newest file with a value for the key is marked. */
  predicate NewestInGroup(readers: seq<Sst>, group: seq<bool>, key: Bytes)
    requires |group| == |readers|
    decreases |readers|
  {
    readers != [] &&
    var n := |readers| - 1;
    if Held(readers[n], key).Some? then group[n] else NewestInGroup(readers[..n], group[..n], key)
  }

  /** A read of all files is a read of the group, or of the rest. */
  lemma {:induction false} GetSplits(readers: seq<Sst>, group: seq<bool>, key: Bytes)
    requires |group| == |readers|
    ensures var inner := GetFromSsts(Picked(readers, group, true), key);
            var outer := GetFromSsts(Picked(readers, group, false), key);
            && GetFromSsts(readers, key) == (if NewestInGroup(readers, group, key) then inner else outer)
            && (NewestInGroup(readers, group, key) ==> inner.Some?)
    decreases |readers|
  {
    if readers != [] {
      var n := |readers| - 1;
      GetSplits(readers[..n], group[..n], key);
      HeldByOne(readers[n], key);
      GetConcat(Picked(readers[..n], group[..n], group[n]), [readers[n]], key);
      assert Picked(readers[..n], group[..n], !group[n]) + [] == Picked(readers[..n], group[..n], !group[n]);
      assert Picked(readers, group, !group[n]) == Picked(readers[..n], group[..n], !group[n]);
    }
  }

  lemma {:induction false} PickedSorted(readers: seq<Sst>, marks: seq<bool>, which: bool)
    requires |marks| == |readers| && SortedReaders(readers)
    ensures SortedReaders(Picked(readers, marks, which))
    decreases |readers|
  {
    if readers != [] {
      var n := |readers| - 1;
      PickedSorted(readers[..n], marks[..n], which);
      var rest := Picked(readers[..n], marks[..n], which);
      forall i | 0 <= i < |rest|
        ensures rest[i].walOffset <= readers[n].walOffset
      {
        assert rest[i] in readers[..n];
      }
    }
  }

  lemma SortedTail(readers: seq<Sst>, outputs: seq<Sst>, offset: nat)
    requires SortedReaders(readers)
    requires (forall r :: r in readers ==> r.walOffset <= offset) && forall r :: r in outputs ==> r.walOffset == offset
    ensures SortedReaders(readers + outputs)
  {
    var s := readers + outputs;
    forall i, j | 0 <= i < j < |s|
      ensures s[i].walOffset <= s[j].walOffset
    {
      assert i < |readers| ==> s[i] in readers;
      assert i >= |readers| ==> s[i] in outputs;
      assert j >= |readers| ==> s[j] in outputs;
    }
  }

  /** Compacting any group of files: the outputs take over the newest offset and so stand last.
      With the outputs giving what the files of the group gave together, a read of a key stays
      the same exactly if they have no value for it, or the newest file with one was in the
      group, or the files outside have the same value. */
  lemma PartialCompactionKeepsGetIff(readers: seq<Sst>, group: seq<bool>, outputs: seq<Sst>, offset: nat, key: Bytes)
    requires |group| == |readers| && SortedReaders(readers)
    requires (forall r :: r in readers ==> r.walOffset <= offset) && forall r :: r in outputs ==> r.walOffset == offset
    requires GetFromSsts(outputs, key) == GetFromSsts(Picked(readers, group, true), key)
    ensures var outside := Picked(readers, group, false);
            GetFromSsts(SortReaders(outside + outputs), key) == GetFromSsts(SortReaders(readers), key) <==>
            GetFromSsts(outputs, key) == None || NewestInGroup(readers, group, key) ||
            GetFromSsts(outside, key) == GetFromSsts(outputs, key)
  {
    hide SortReaders, GetFromSsts, Picked, NewestInGroup, SortedReaders;
    var outside := Picked(readers, group, false);
    PickedSorted(readers, group, false);
    SortedTail(outside, outputs, offset);
    SortKeepsSorted(readers);
    SortKeepsSorted(outside + outputs);
    GetConcat(outside, outputs, key);
    GetSplits(readers, group, key);
  }

  /** The cell that a merge of the files chooses: the highest revision, of two equal ones the
      later. */
  function Chosen(readers: seq<Sst>, key: Bytes): Option<MemValue>
  {
    if readers == [] then None
    else
      var r, older := readers[|readers| - 1], Chosen(readers[..|readers| - 1], key);
      if key in r.content && (older == None || older.value.rev <= r.content[key].rev) then Some(r.content[key])
      else older
  }

  /** Newer files have newer revisions of the key. */
  ghost predicate RevsFollow(readers: seq<Sst>, key: Bytes)
  {
    forall i, j :: 0 <= i < j < |readers| && key in readers[i].content && key in readers[j].content ==>
      readers[i].content[key].rev <= readers[j].content[key].rev
  }

  /** When an output file gives what the group gave: a merge chooses the newest cell, while a
      read of the group passes over tombstones. */
  lemma {:induction false} MergeGivesGroupValueIff(readers: seq<Sst>, key: Bytes)
    requires RevsFollow(readers, key)
    ensures Chosen(readers, key) == NewestCell(readers, key)
    ensures var c := Chosen(readers, key);
            (if c == None then None else c.value.value) == GetFromSsts(readers, key) <==>
            c == None || c.value.value.Some? || GetFromSsts(readers, key) == None
    decreases |readers|
  {
    if readers != [] {
      var n := |readers| - 1;
      MergeGivesGroupValueIff(readers[..n], key);
      NewestIsOne(readers[..n], key);
    }
  }

  lemma {:induction false} NewestIsOne(readers: seq<Sst>, key: Bytes)
    ensures var c := NewestCell(readers, key);
            c.Some? ==>
              exists i :: 0 <= i < |readers| && key in readers[i].content && readers[i].content[key] == c.value
    ensures NewestCell(readers, key) == None ==> GetFromSsts(readers, key) == None
    decreases |readers|
  {
    if readers != [] {
      var n := |readers| - 1;
      NewestIsOne(readers[..n], key);
      assert forall i :: 0 <= i < n ==> readers[..n][i] == readers[i];
    }
  }

  lemma {:induction false} PickedUniform(readers: seq<Sst>, marks: seq<bool>, mark: bool)
    requires |marks| == |readers| && forall i :: 0 <= i < |marks| ==> marks[i] == mark
    ensures Picked(readers, marks, mark) == readers && Picked(readers, marks, !mark) == []
    decreases |readers|
  {
    if readers != [] {
      var n := |readers| - 1;
      PickedUniform(readers[..n], marks[..n], mark);
      assert readers[..n] + [readers[n]] == readers;
    }
  }

  lemma PickedSnoc(readers: seq<Sst>, x: Sst, marks: seq<bool>, mark: bool, which: bool)
    requires |marks| == |readers|
    ensures Picked(readers + [x], marks + [mark], which) ==
            Picked(readers, marks, which) + if mark == which then [x] else []
  {
    var all, n := readers + [x], |readers|;
    assert all[..n] == readers && (marks + [mark])[..n] == marks && all[n] == x && (marks + [mark])[n] == mark;
  }

  lemma {:induction false} PickedConcat(a: seq<Sst>, b: seq<Sst>, ma: seq<bool>, mb: seq<bool>, which: bool)
    requires |ma| == |a| && |mb| == |b|
    ensures Picked(a + b, ma + mb, which) == Picked(a, ma, which) + Picked(b, mb, which)
    decreases |b|
  {
    if b == [] {
      assert a + b == a && ma + mb == ma;
      assert Picked([], [], which) == [];
    } else {
      hide Picked;
      var n := |b| - 1;
      var b0, m0 := b[..n], mb[..n];
      assert b == b0 + [b[n]] && mb == m0 + [mb[n]];
      assert a + b == (a + b0) + [b[n]] && ma + mb == (ma + m0) + [mb[n]];
      PickedConcat(a, b0, ma, m0, which);
      PickedSnoc(a + b0, b[n], ma + m0, mb[n], which);
      PickedSnoc(b0, b[n], m0, mb[n], which);
    }
  }

  /** The group of one file: a read stays the same exactly if no newer file has another value. */
  lemma OneFileCompactionKeepsGetIff(older: seq<Sst>, f: Sst, newer: seq<Sst>, offset: nat, key: Bytes)
    requires SortedReaders(older + [f] + newer)
    requires forall r :: r in older + [f] + newer ==> r.walOffset <= offset
    ensures var before := SortReaders(older + [f] + newer);
            var after := SortReaders(older + newer + [f.(walOffset := offset)]);
            GetFromSsts(after, key) == GetFromSsts(before, key) <==>
            Held(f, key) == None || GetFromSsts(newer, key) == None || GetFromSsts(newer, key) == Held(f, key)
  {
    hide SortReaders, GetFromSsts, Picked, NewestInGroup, SortedReaders;
    var output := f.(walOffset := offset);
    var readers := older + [f] + newer;
    var no, no' := seq(|older|, _ => false), seq(|newer|, _ => false);
    var group := no + [true] + no';
    PickedUniform(older, no, false);
    PickedUniform([f], [true], true);
    PickedUniform(newer, no', false);
    forall which: bool
      ensures Picked(readers, group, which) == Picked(older, no, which) + Picked([f], [true], which) +
                                               Picked(newer, no', which)
    {
      PickedConcat(older + [f], newer, no + [true], no', which);
      PickedConcat(older, [f], no, [true], which);
    }
    assert Picked(readers, group, true) == [f] && Picked(readers, group, false) == older + newer;
    HeldByOne(f, key);
    HeldByOne(output, key);
    PartialCompactionKeepsGetIff(readers, group, [output], offset, key);
    GetConcat(older + [f], newer, key);
    GetConcat(older, [f], key);
    GetConcat(older, newer, key);
    GetSplits(readers, group, key);
  }

  /** Two files compacted, a third and newer one left out: its value is no longer read. */
  lemma OldValueComesBack(key: Bytes, a: MemValue, b: MemValue)
    requires a.value.Some? && b.value.Some? && a.value != b.value
    ensures var file := (v, offset) => Sst(map[key := v], offset);
            var readers := [file(a, 1), Sst(map[], 2), file(b, 3)];
            && GetFromSsts(SortReaders(readers), key) == b.value
            && GetFromSsts(SortReaders([file(b, 3)] + [file(a, 3)]), key) == a.value
  {
    var x, e, y, z := Sst(map[key := a], 1), Sst(map[], 2), Sst(map[key := b], 3), Sst(map[key := a], 3);
    SortKeepsSorted([x, e, y]);
    SortKeepsSorted([y, z]);
    assert [y] + [z] == [y, z];
  }

  lemma OneMoreSorted(readers: seq<Sst>, x: Sst)
    requires SortedReaders(readers)
    requires forall i :: 0 <= i < |readers| ==> readers[i].walOffset <= x.walOffset
    ensures SortedReaders(readers + [x])
  {
  }

  // ---------------------------------------------------------------- the class

  /** The engine between its calls; each method is one of the calls above. */
  class Engine {
    var mem: Mem
    var wal: seq<LogRec>
    var sstReaders: seq<Sst>
    var frozen: seq<Sst>
    var revCounter: nat

    ghost function View(): State
      reads this
    {
      State.Engine(mem, wal, sstReaders, frozen, revCounter)
    }

    constructor ()
      ensures View() == EMPTY
    {
      mem, wal, sstReaders, frozen, revCounter := map[], [], [], [], 0;
    }

    /** `put`, or `del` for no value: a value put is what the next read of its key returns, and
        no other key is affected. */
    method Write(key: Bytes, value: Option<Bytes>, size: nat)
      modifies this
      ensures View() == WriteStep(old(View()), key, value, size)
      ensures value.Some? ==> Get(View(), key) == value
      ensures forall k :: k != key ==> Get(View(), k) == old(Get(View(), k))
    {
      revCounter := revCounter + 1;
      var op := Logged(key, value, revCounter);
      wal := wal + [LogRec(op, End(wal) + size)];
      mem := ApplyOne(mem, op);
    }

    /** `get`: the readers from the newest to the oldest. */
    method Read(key: Bytes) returns (r: Option<Bytes>)
      ensures r == Get(View(), key)
    {
      if key in mem && mem[key].value.Some? {
        return mem[key].value;
      }
      var i := |sstReaders| - 1;
      assert sstReaders[..i + 1] == sstReaders;
      while i >= 0
        invariant -1 <= i < |sstReaders|
        invariant GetFromSsts(sstReaders[..i + 1], key) == GetFromSsts(sstReaders, key)
      {
        var content := sstReaders[i].content;
        if key in content && content[key].value.Some? {
          return content[key].value;
        }
        assert sstReaders[..i + 1][..i] == sstReaders[..i];
        i := i - 1;
      }
      return None;
    }

    /** The revision lookup of `cas`: the memtable, then the readers from the newest; here a
        tombstone counts. */
    method LatestRevision(key: Bytes) returns (r: Option<nat>)
      ensures r == LatestRev(mem, sstReaders, key)
    {
      if key in mem {
        return Some(mem[key].rev);
      }
      var i := |sstReaders| - 1;
      assert sstReaders[..i + 1] == sstReaders;
      while i >= 0
        invariant -1 <= i < |sstReaders|
        invariant NewestCell(sstReaders[..i + 1], key) == NewestCell(sstReaders, key)
      {
        var content := sstReaders[i].content;
        if key in content {
          return Some(content[key].rev);
        }
        assert sstReaders[..i + 1][..i] == sstReaders[..i];
        i := i - 1;
      }
      return None;
    }

    /** `flush` up to its first await. Until the file is published, a read misses what the
        memtable had and the files have not. */
    method BeginFlush(offset: nat)
      modifies this`mem, this`frozen
      ensures View() == DetachStep(old(View()), offset)
      ensures forall k :: Get(View(), k) == old(Get(View(), k)) <==>
                var v := Held(Sst(old(mem), offset), k); v == None || v == GetFromSsts(sstReaders, k)
    {
      hide GetFromSsts;
      var snap := mem;
      mem := map[];
      frozen := frozen + [Sst(snap, offset)];
    }

    /** The end of the i-th flush in progress: its values are read from now on, behind those of
        the memtable. */
    method EndFlush(i: nat)
      requires i < |frozen|
      modifies this`sstReaders, this`frozen
      ensures View() == PublishStep(old(View()), i)
      ensures forall k :: Get(View(), k) ==
                if (k in mem && mem[k].value.Some?) || Held(old(frozen[i]), k) == None then old(Get(View(), k))
                else Held(old(frozen[i]), k)
    {
      hide GetFromSsts;
      ghost var before := sstReaders;
      var file := frozen[i];
      forall k
        ensures GetFromSsts(before + [file], k) ==
                if Held(file, k).Some? then Held(file, k) else GetFromSsts(before, k)
      {
        GetConcat(before, [file], k);
        HeldByOne(file, k);
      }
      sstReaders := sstReaders + [file];
      frozen := frozen[..i] + frozen[i + 1..];
    }

    /** `open` on what another engine has left. */
    method Open()
      modifies this`mem, this`sstReaders, this`frozen, this`revCounter
      ensures View() == ReopenStep(old(View()))
    {
      hide SortReaders, MinOffset, ReplayOp;
      sstReaders := SortReaders(sstReaders);
      var min := MinOffset(sstReaders);
      mem, frozen, revCounter := map[], [], 0;
      var i := 0;
      while i < |wal|
        invariant 0 <= i <= |wal| && sstReaders == SortReaders(old(sstReaders)) && frozen == []
        invariant ReplayAfter(wal[i..], min, Replayed(mem, revCounter)) == ReplayAfter(wal, min, Replayed(map[], 0))
      {
        assert wal[i..][1..] == wal[i + 1..];
        if wal[i].end > min {
          var r := ReplayOp(Replayed(mem, revCounter), wal[i].op);
          mem, revCounter := r.mem, r.revCounter;
        }
        i := i + 1;
      }
      assert wal[i..] == [];
    }
  }
}
