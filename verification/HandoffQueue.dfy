/** The bounded queue between producers and the background writer of `libs/wal/handoff_wal.ts`,
    as a state machine: a step is what one call does between two of its awaits. An entry
    stands for the encoded frame of one append. */
module HandoffQueue {
  import opened Bytes

  datatype Config = Config(maxQueue: nat, maxInFlightBytes: nat, batchMaxEntries: nat, batchMaxBytes: nat)

  /** Where the writer loop is suspended: waiting for data, writing a batch, or in the
      metadata callback after a write; or it has ended. */
  datatype Writer = Idle | Writing(batch: seq<Bytes>) | Noting | Stopped

  /** What was true when a flush or close resolved: everything pushed so far, everything on
      disk, how many entries write errors had dropped, and how many were still queued. */
  datatype Ack = Ack(returned: seq<Bytes>, durable: seq<Bytes>, dropped: nat, queued: nat, stopped: bool)

  /** `waiters` are producers blocked by backpressure, `ready` those that will push next;
      `drainers` and `closers` count suspended calls of flush and close. `pushed`, `written`,
      `dropped` and `acks` are the history. */
  datatype State = State(
    cfg: Config, running: bool, writer: Writer, processing: bool,
    queue: seq<Bytes>, queueBytes: int, waiters: seq<Bytes>, ready: seq<Bytes>,
    drainers: nat, closers: nat,
    pushed: seq<Bytes>, written: seq<Bytes>, dropped: nat, acks: seq<Ack>)

  datatype Action =
    | StartAppend(entry: Bytes)
    | Push(i: nat)
    | TakeBatch
    | WriteDone
    | WriteFailed
    | Notify
    | Flush
    | Close
    | StopWriter

  /** Limits of zero make producers or the writer loop hang. */
  predicate Sensible(cfg: Config)
  {
    cfg.maxQueue >= 1 && cfg.maxInFlightBytes >= 1 && cfg.batchMaxEntries >= 1 && cfg.batchMaxBytes >= 1
  }

  function New(cfg: Config): State
  {
    State(cfg, true, Idle, false, [], 0, [], [], 0, 0, [], [], 0, [])
  }

  // ---------------------------------------------------------------- the steps

  predicate HasSpace(s: State)
  {
    |s.queue| < s.cfg.maxQueue && s.queueBytes < s.cfg.maxInFlightBytes
  }

  /** `append` up to its wait. */
  function StartStep(s: State, entry: Bytes): State
  {
    if HasSpace(s) then s.(ready := s.ready + [entry]) else s.(waiters := s.waiters + [entry])
  }

  /** `append` after its wait; the check for space is not repeated. */
  function PushStep(s: State, i: nat): State
    requires i < |s.ready|
  {
    s.(ready := s.ready[..i] + s.ready[i + 1..], queue := s.queue + [s.ready[i]],
       queueBytes := s.queueBytes + |s.ready[i]|, pushed := s.pushed + [s.ready[i]])
  }

  /** The loop that fills a batch. */
  function Take(queue: seq<Bytes>, batch: seq<Bytes>, bytes: nat, cfg: Config): (r: (seq<Bytes>, seq<Bytes>))
    ensures r.0 + r.1 == batch + queue
    ensures |batch| <= |r.0|
    decreases |queue|
  {
    if queue == [] || |batch| >= cfg.batchMaxEntries || bytes >= cfg.batchMaxBytes then (batch, queue)
    else Take(queue[1..], batch + [queue[0]], bytes + |queue[0]|, cfg)
  }

  lemma TakeUnfold(queue: seq<Bytes>, batch: seq<Bytes>, bytes: nat, cfg: Config)
    ensures Take(queue, batch, bytes, cfg) ==
            if queue == [] || |batch| >= cfg.batchMaxEntries || bytes >= cfg.batchMaxBytes then (batch, queue)
            else Take(queue[1..], batch + [queue[0]], bytes + |queue[0]|, cfg)
  {
  }

  function TotalBytes(q: seq<Bytes>): nat
  {
    if q == [] then 0 else |q[0]| + TotalBytes(q[1..])
  }

  function TakeStep(s: State): State
  {
    var (batch, rest) := Take(s.queue, [], 0, s.cfg);
    s.(processing := true, writer := Writing(batch), queue := rest,
       queueBytes := s.queueBytes - TotalBytes(batch))
  }

  function AckNow(s: State): Ack
  {
    Ack(s.pushed, s.written, s.dropped, |s.queue|, s.writer.Stopped?)
  }

  /** `notifyDrainers`: everybody, if the writer is idle. */
  function Drain(s: State): State
  {
    if s.queue == [] && !s.processing then
      s.(drainers := 0, acks := s.acks + seq(s.drainers, _ => AckNow(s)))
    else s
  }

  /** `notifyEnqueue`: waking somebody does not change the condition, so all or none. */
  function WakeProducers(s: State): State
  {
    if HasSpace(s) then s.(ready := s.ready + s.waiters, waiters := []) else s
  }

  function NotifyStep(s: State): State
  {
    Drain(WakeProducers(s).(processing := false, writer := Idle))
  }

  function FlushStep(s: State): State
  {
    if |s.queue| > 0 || s.processing then s.(drainers := s.drainers + 1)
    else s.(acks := s.acks + [AckNow(s)])
  }

  function CloseStep(s: State): State
  {
    if s.writer.Stopped? then s.(running := false, acks := s.acks + [AckNow(s)])
    else s.(running := false, closers := s.closers + 1)
  }

  /** The `finally` of the writer loop. */
  function StopStep(s: State): State
  {
    var t := Drain(s.(processing := false));
    t.(writer := Stopped, closers := 0, acks := t.acks + seq(s.closers, _ => AckNow(t)))
  }

  predicate Enabled(s: State, a: Action)
  {
    match a
    case StartAppend(_) => true
    case Push(i) => i < |s.ready|
    case TakeBatch => s.writer.Idle? && s.queue != []
    case WriteDone => s.writer.Writing?
    case WriteFailed => s.writer.Writing?
    case Notify => s.writer.Noting?
    case Flush => true
    case Close => true
    case StopWriter => s.writer.Idle? && !s.running && s.queue == []
  }

  function Step(s: State, a: Action): State
    requires Enabled(s, a)
  {
    match a
    case StartAppend(e) => StartStep(s, e)
    case Push(i) => PushStep(s, i)
    case TakeBatch => TakeStep(s)
    case WriteDone => s.(written := s.written + s.writer.batch, writer := Noting)
    case WriteFailed => s.(dropped := s.dropped + |s.writer.batch|, writer := Noting)
    case Notify => NotifyStep(s)
    case Flush => FlushStep(s)
    case Close => CloseStep(s)
    case StopWriter => StopStep(s)
  }

  predicate Allowed(s: State, actions: seq<Action>)
    decreases |actions|
  {
    actions != [] ==> Enabled(s, actions[0]) && Allowed(Step(s, actions[0]), actions[1..])
  }

  function Run(s: State, actions: seq<Action>): State
    requires Allowed(s, actions)
    decreases |actions|
  {
    if actions == [] then s else Run(Step(s, actions[0]), actions[1..])
  }

  // ---------------------------------------------------------------- what every run keeps

  function InFlight(s: State): seq<Bytes>
  {
    if s.writer.Writing? then s.writer.batch else []
  }

  /** File, batch and queue together are what was pushed, in order. */
  ghost predicate InPushOrder(s: State)
  {
    s.written + InFlight(s) + s.queue == s.pushed
  }

  lemma PushOrder(s: State, i: nat)
    requires i < |s.ready|
    ensures InPushOrder(s) <==> InPushOrder(PushStep(s, i))
  {
    var t := PushStep(s, i);
    var before := s.written + InFlight(s) + s.queue;
    assert t.written + InFlight(t) + t.queue == before + [s.ready[i]];
    if InPushOrder(t) {
      assert before == (before + [s.ready[i]])[..|before|];
      assert |before| == |s.pushed| && s.pushed == t.pushed[..|s.pushed|];
    }
  }

  /** The promise of flush and close, and what it depends on. */
  ghost predicate AckOk(a: Ack)
  {
    && (a.durable == a.returned <==> a.dropped == 0 && a.queued == 0)
    && (a.queued > 0 ==> a.stopped)
  }

  ghost predicate Inv(s: State)
  {
    && s.queueBytes == TotalBytes(s.queue)
    && (s.processing <==> s.writer.Writing? || s.writer.Noting?)
    && |s.written| + s.dropped + |InFlight(s)| + |s.queue| == |s.pushed|
    && (s.dropped == 0 ==> s.written + InFlight(s) + s.queue == s.pushed)
    && (s.waiters != [] ==> s.queue != [] || s.processing)
    && (s.drainers > 0 ==> s.queue != [] || s.processing)
    && (s.writer.Stopped? ==> !s.running && s.closers == 0)
    && (forall a :: a in s.acks ==> AckOk(a))
  }

  lemma {:induction false} TotalBytesConcat(a: seq<Bytes>, b: seq<Bytes>)
    ensures TotalBytes(a + b) == TotalBytes(a) + TotalBytes(b)
  {
    if a == [] {
      assert a + b == b;
    } else {
      assert (a + b)[1..] == a[1..] + b;
      TotalBytesConcat(a[1..], b);
    }
  }

  lemma NoBytes(q: seq<Bytes>)
    ensures q == [] ==> TotalBytes(q) == 0
    ensures |q| == 1 ==> TotalBytes(q) == |q[0]|
  {
    if |q| == 1 {
      assert q[1..] == [];
    }
  }

  lemma AckNowOk(s: State)
    requires |s.written| + s.dropped + |s.queue| == |s.pushed|
    requires s.dropped == 0 ==> s.written + s.queue == s.pushed
    requires |s.queue| > 0 ==> s.writer.Stopped?
    ensures AckOk(AckNow(s))
  {
    if s.queue == [] {
      assert s.written + s.queue == s.written;
    }
  }

  lemma PushKeepsInv(s: State, i: nat)
    requires Inv(s) && i < |s.ready|
    ensures Inv(PushStep(s, i))
  {
    TotalBytesConcat(s.queue, [s.ready[i]]);
    NoBytes([s.ready[i]]);
    assert s.written + InFlight(s) + (s.queue + [s.ready[i]]) == (s.written + InFlight(s) + s.queue) + [s.ready[i]];
  }

  lemma TakeKeepsInv(s: State)
    requires Inv(s) && s.writer.Idle?
    ensures Inv(TakeStep(s))
  {
    hide Take, TotalBytes, AckOk;
    var (batch, rest) := Take(s.queue, [], 0, s.cfg);
    assert batch + rest == s.queue by {
      assert [] + s.queue == s.queue;
    }
    TotalBytesConcat(batch, rest);
    MoveBatch(s.written, batch, rest);
  }

  lemma MoveBatch(written: seq<Bytes>, batch: seq<Bytes>, rest: seq<Bytes>)
    ensures written + [] + (batch + rest) == written + batch + rest
  {
  }

  lemma WriteKeepsInv(s: State, a: Action)
    requires Inv(s) && s.writer.Writing? && (a.WriteDone? || a.WriteFailed?)
    ensures Inv(Step(s, a))
  {
    hide TotalBytes, AckOk;
    var batch := s.writer.batch;
    if a.WriteDone? {
      assert (s.written + batch) + [] + s.queue == s.written + batch + s.queue;
    } else if batch == [] {
      assert s.written + [] + s.queue == s.written + batch + s.queue;
    }
  }

  lemma NotifyKeepsInv(s: State)
    requires Inv(s) && Sensible(s.cfg) && s.writer.Noting?
    ensures Inv(NotifyStep(s))
  {
    NoBytes(s.queue);
    hide TotalBytes;
    var t := WakeProducers(s).(processing := false, writer := Idle);
    assert s.written + [] + s.queue == s.written + s.queue;
    if t.queue == [] {
      AckNowOk(t);
    }
    hide AckOk;
  }

  lemma CallsKeepInv(s: State, a: Action)
    requires Inv(s) && Sensible(s.cfg) && (a.StartAppend? || a.Flush? || a.Close?)
    ensures Inv(Step(s, a))
  {
    NoBytes(s.queue);
    hide TotalBytes;
    if !s.processing && (s.writer.Stopped? || s.queue == []) {
      assert s.written + [] + s.queue == s.written + s.queue;
      AckNowOk(s);
    }
    hide AckOk;
  }

  lemma StopKeepsInv(s: State)
    requires Inv(s) && Enabled(s, StopWriter)
    ensures Inv(StopStep(s))
  {
    hide TotalBytes;
    assert s.written + [] + s.queue == s.written + s.queue;
    AckNowOk(s.(processing := false));
    AckNowOk(Drain(s.(processing := false)));
    hide AckOk;
  }

  lemma StepKeepsInv(s: State, a: Action)
    requires Inv(s) && Sensible(s.cfg) && Enabled(s, a)
    ensures Inv(Step(s, a)) && Step(s, a).cfg == s.cfg
  {
    hide Inv;
    match a {
      case Push(i) => PushKeepsInv(s, i);
      case TakeBatch => TakeKeepsInv(s);
      case WriteDone => WriteKeepsInv(s, a);
      case WriteFailed => WriteKeepsInv(s, a);
      case Notify => NotifyKeepsInv(s);
      case StopWriter => StopKeepsInv(s);
      case StartAppend(_) => CallsKeepInv(s, a);
      case Flush => CallsKeepInv(s, a);
      case Close => CallsKeepInv(s, a);
    }
  }

  lemma {:induction false} RunKeepsInv(s: State, actions: seq<Action>)
    requires Inv(s) && Sensible(s.cfg) && Allowed(s, actions)
    ensures Inv(Run(s, actions)) && Run(s, actions).cfg == s.cfg
    decreases |actions|
  {
    hide Inv;
    if actions != [] {
      StepKeepsInv(s, actions[0]);
      RunKeepsInv(Step(s, actions[0]), actions[1..]);
    }
  }

  // ---------------------------------------------------------------- main results

  /** Nothing is lost, doubled or reordered on the way to the file while writes succeed, and
      the byte count is exact. */
  lemma WrittenThenQueuedIsPushOrder(cfg: Config, actions: seq<Action>)
    requires Sensible(cfg) && Allowed(New(cfg), actions)
    ensures var s := Run(New(cfg), actions);
            && s.queueBytes == TotalBytes(s.queue)
            && (s.dropped == 0 ==> s.written + InFlight(s) + s.queue == s.pushed)
            && |s.written| + s.dropped + |InFlight(s)| + |s.queue| == |s.pushed|
  {
    RunKeepsInv(New(cfg), actions);
  }

  /** When flush or close resolves, everything that had been pushed is on disk, exactly if no
      write had failed (errors are only printed) and nothing was pushed behind the back of a
      writer that had already ended. */
  lemma ResolvedMeansDurableIff(cfg: Config, actions: seq<Action>, a: Ack)
    requires Sensible(cfg) && Allowed(New(cfg), actions) && a in Run(New(cfg), actions).acks
    ensures a.durable == a.returned <==> a.dropped == 0 && a.queued == 0
    ensures !a.stopped ==> a.queued == 0
  {
    RunKeepsInv(New(cfg), actions);
  }

  /** Whoever waits, waits for a writer that has something to do. */
  lemma NoLostWakeUp(cfg: Config, actions: seq<Action>)
    requires Sensible(cfg) && Allowed(New(cfg), actions)
    ensures var s := Run(New(cfg), actions);
            (s.waiters != [] || s.drainers > 0) && !s.writer.Stopped? ==>
              Enabled(s, TakeBatch) || Enabled(s, WriteDone) || Enabled(s, Notify)
  {
    RunKeepsInv(New(cfg), actions);
  }

  /** A batch is never empty. */
  lemma TakeMakesProgress(queue: seq<Bytes>, cfg: Config)
    requires Sensible(cfg) && queue != []
    ensures |Take(queue, [], 0, cfg).1| < |queue|
  {
    var r := Take(queue[1..], [] + [queue[0]], 0 + |queue[0]|, cfg);
    assert |r.0 + r.1| == |queue|;
  }

  /** The writer's own steps, as long as there is something to do. */
  lemma {:induction false} WriterDrains(s: State) returns (actions: seq<Action>)
    requires Inv(s) && Sensible(s.cfg) && !s.writer.Stopped?
    ensures Allowed(s, actions)
    ensures forall a :: a in actions ==> a.TakeBatch? || a.WriteDone? || a.Notify?
    ensures var t := Run(s, actions);
            t.writer.Idle? && t.queue == [] && t.waiters == [] && t.drainers == 0 &&
            t.pushed == s.pushed && t.dropped == s.dropped
    decreases |s.queue|, if s.writer.Idle? then 2 else if s.writer.Writing? then 4 else 3
  {
    if s.writer.Idle? && s.queue == [] {
      actions := [];
    } else {
      var a := if s.writer.Idle? then TakeBatch else if s.writer.Writing? then WriteDone else Notify;
      if s.writer.Idle? {
        TakeMakesProgress(s.queue, s.cfg);
      }
      StepKeepsInv(s, a);
      hide Inv, Take;
      var rest := WriterDrains(Step(s, a));
      actions := [a] + rest;
      assert actions[1..] == rest;
    }
  }

  // ---------------------------------------------------------------- backpressure

  function Concurrent(s: State): nat
  {
    |s.ready| + |s.waiters|
  }

  /** At no time are more than `k` appends suspended. */
  predicate Within(s: State, actions: seq<Action>, k: nat)
    requires Allowed(s, actions)
    decreases |actions|
  {
    Concurrent(s) <= k && (actions != [] ==> Within(Step(s, actions[0]), actions[1..], k))
  }

  ghost predicate Bounded(s: State, k: nat)
  {
    |s.queue| + |s.ready| == 0 || |s.queue| + |s.ready| <= s.cfg.maxQueue - 1 + k
  }

  lemma {:induction false} BoundIsKept(s: State, actions: seq<Action>, k: nat)
    requires Allowed(s, actions) && Within(s, actions, k) && Bounded(s, k)
    ensures Bounded(Run(s, actions), k) && Run(s, actions).cfg == s.cfg
    decreases |actions|
  {
    if actions != [] {
      var t := Step(s, actions[0]);
      StepKeepsBound(s, actions[0], k);
      hide Bounded, Step;
      BoundIsKept(t, actions[1..], k);
    }
  }

  lemma StepKeepsBound(s: State, a: Action, k: nat)
    requires Enabled(s, a) && Bounded(s, k) && Concurrent(Step(s, a)) <= k
    ensures Bounded(Step(s, a), k) && Step(s, a).cfg == s.cfg
  {
    hide Take, AckNow, TotalBytes;
    match a {
      case TakeBatch =>
        var r := Take(s.queue, [], 0, s.cfg);
        assert |r.0 + r.1| == |s.queue|;
      case Push(i) => assert |PushStep(s, i).ready| + 1 == |s.ready|;
      case StartAppend(_) =>
      case Notify =>
      case _ => assert Step(s, a).queue == s.queue && Step(s, a).ready == s.ready && Step(s, a).cfg == s.cfg;
    }
  }

  /** With at most `k` concurrent appends the queue stays below the limit plus `k`: the space
      check and the push are separate steps, and one notification wakes all producers. */
  lemma QueueStaysBounded(cfg: Config, actions: seq<Action>, k: nat)
    requires cfg.maxQueue >= 1 && Allowed(New(cfg), actions) && Within(New(cfg), actions, k)
    ensures |Run(New(cfg), actions).queue| <= cfg.maxQueue - 1 + k
  {
    BoundIsKept(New(cfg), actions, k);
  }

  // No smaller bound holds: `k` appends that start while one place is left all get in.

  lemma {:induction false} PushAll(s: State, k: nat) returns (actions: seq<Action>)
    requires k <= |s.ready|
    ensures |actions| == k && Allowed(s, actions) && Within(s, actions, Concurrent(s))
    ensures |Run(s, actions).queue| == |s.queue| + k
    decreases k
  {
    if k == 0 {
      actions := [];
    } else {
      var t := PushStep(s, 0);
      var rest := PushAll(t, k - 1);
      actions := [Push(0)] + rest;
      assert actions[1..] == rest;
      WithinWeaken(t, rest, Concurrent(t), Concurrent(s));
    }
  }

  lemma {:induction false} WithinWeaken(s: State, actions: seq<Action>, k: nat, k': nat)
    requires Allowed(s, actions) && Within(s, actions, k) && k <= k'
    ensures Within(s, actions, k')
    decreases |actions|
  {
    hide Step;
    if actions != [] {
      WithinWeaken(Step(s, actions[0]), actions[1..], k, k');
    }
  }

  lemma {:induction false} StartAll(s: State, entry: Bytes, k: nat) returns (actions: seq<Action>)
    requires k >= 1 && HasSpace(s)
    ensures Allowed(s, actions) && Within(s, actions, Concurrent(s) + k)
    ensures |Run(s, actions).queue| == |s.queue| + |s.ready| + k
    decreases k
  {
    var t := StartStep(s, entry);
    var rest;
    if k == 1 {
      rest := PushAll(t, |t.ready|);
    } else {
      rest := StartAll(t, entry, k - 1);
    }
    actions := [StartAppend(entry)] + rest;
    assert actions[1..] == rest;
    WithinWeaken(t, rest, Concurrent(t) + (k - 1), Concurrent(s) + k);
  }

  lemma {:induction false} FillThenBurst(s: State, entry: Bytes, n: nat, k: nat) returns (actions: seq<Action>)
    requires k >= 1 && s.ready == [] && s.waiters == []
    requires |s.queue| + n < s.cfg.maxQueue && s.queueBytes + n * |entry| < s.cfg.maxInFlightBytes
    ensures Allowed(s, actions) && Within(s, actions, k)
    ensures |Run(s, actions).queue| == |s.queue| + n + k
    decreases n
  {
    assert s.queueBytes <= s.queueBytes + n * |entry|;
    if n == 0 {
      actions := StartAll(s, entry, k);
    } else {
      var t := StartStep(s, entry);
      var u := PushStep(t, 0);
      assert n * |entry| == |entry| + (n - 1) * |entry|;
      var rest := FillThenBurst(u, entry, n - 1, k);
      actions := [StartAppend(entry), Push(0)] + rest;
      assert actions[1..] == [Push(0)] + rest && actions[1..][1..] == rest;
    }
  }

  /** The bound is attained, whatever the limits are. */
  lemma BoundIsReached(cfg: Config, entry: Bytes, k: nat) returns (actions: seq<Action>)
    requires cfg.maxQueue >= 1 && k >= 1 && (cfg.maxQueue - 1) * |entry| < cfg.maxInFlightBytes
    ensures Allowed(New(cfg), actions) && Within(New(cfg), actions, k)
    ensures |Run(New(cfg), actions).queue| == cfg.maxQueue - 1 + k
  {
    actions := FillThenBurst(New(cfg), entry, cfg.maxQueue - 1, k);
  }

  // ---------------------------------------------------------------- after the writer has ended

  /** Once the writer has ended, later appends return but are never written, and a flush that
      finds one of them queued never resolves. */
  lemma {:induction false} NothingIsWrittenAfterStop(s: State, actions: seq<Action>)
    requires s.writer.Stopped? && !s.processing && Allowed(s, actions)
    ensures var t := Run(s, actions);
            && t.written == s.written && t.writer.Stopped?
            && s.queue <= t.queue
            && t.drainers >= s.drainers
    decreases |actions|
  {
    if actions != [] {
      var t := Step(s, actions[0]);
      StoppedStep(s, actions[0]);
      hide Step;
      NothingIsWrittenAfterStop(t, actions[1..]);
      assert s.queue <= t.queue <= Run(t, actions[1..]).queue;
    }
  }

  lemma StoppedStep(s: State, a: Action)
    requires s.writer.Stopped? && !s.processing && Enabled(s, a)
    ensures var t := Step(s, a);
            && t.writer.Stopped? && !t.processing && t.written == s.written
            && s.queue <= t.queue && t.drainers >= s.drainers
  {
  }

  lemma FirstMoves(ready: seq<Bytes>, waiters: seq<Bytes>)
    requires waiters != []
    ensures (ready + [waiters[0]]) + waiters[1..] == ready + waiters
  {
  }
}
