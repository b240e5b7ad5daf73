/** The class of `libs/wal/handoff_wal.ts`, cut at its awaits. Each method does exactly the
    step of the queue model that it names. */
module HandoffWal {
  import opened Bytes
  import opened HandoffQueue
  import WalFrames

  class HandoffWal {
    const cfg: Config
    var running: bool
    var writer: Writer
    var processing: bool
    var queue: seq<Bytes>
    var queueBytes: int
    var enqueueWaiters: seq<Bytes>
    var ready: seq<Bytes>
    var drainWaiters: nat
    var closers: nat
    /** The entries of the file, in order. */
    var written: seq<Bytes>
    ghost var pushed: seq<Bytes>
    ghost var dropped: nat
    ghost var acks: seq<Ack>

    ghost function View(): State
      reads this
    {
      State(cfg, running, writer, processing, queue, queueBytes, enqueueWaiters, ready,
            drainWaiters, closers, pushed, written, dropped, acks)
    }

    /** The constructor and `open` on an empty file. */
    constructor (config: Config)
      ensures View() == New(config)
    {
      cfg, running, writer, processing := config, true, Idle, false;
      queue, queueBytes, enqueueWaiters, ready := [], 0, [], [];
      drainWaiters, closers, written := 0, 0, [];
      pushed, dropped, acks := [], 0, [];
    }

    predicate Space()
      reads this
      ensures Space() == HasSpace(View())
    {
      |queue| < cfg.maxQueue && queueBytes < cfg.maxInFlightBytes
    }

    /** `append` up to the await of `waitForQueueSpace`. */
    method BeginAppend(payload: Bytes)
      requires WalFrames.Fits(payload)
      modifies this
      ensures View() == StartStep(old(View()), WalFrames.Frame(payload))
    {
      hide WalFrames.Frame;
      var entryBuf := WalFrames.EncodeFrame(payload);
      if Space() {
        ready := ready + [entryBuf];
      } else {
        enqueueWaiters := enqueueWaiters + [entryBuf];
      }
    }

    /** `append` after that await: the entry is queued behind all others, the byte count stays
        exact, and everything on its way stays in push order. */
    method FinishAppend(i: nat)
      requires i < |ready|
      modifies this
      ensures View() == PushStep(old(View()), i)
      ensures old(Inv(View())) ==> Inv(View())
      ensures queueBytes - TotalBytes(queue) == old(queueBytes - TotalBytes(queue))
      ensures old(InPushOrder(View())) <==> InPushOrder(View())
    {
      ghost var s := View();
      if Inv(s) {
        PushKeepsInv(s, i);
      }
      TotalBytesConcat(queue, [ready[i]]);
      NoBytes([ready[i]]);
      PushOrder(s, i);
      var entryBuf := ready[i];
      ready := ready[..i] + ready[i + 1..];
      queue := queue + [entryBuf];
      queueBytes := queueBytes + |entryBuf|;
      pushed := pushed + [entryBuf];
    }

    /** The writer loop up to its write. */
    method FillBatch()
      requires writer.Idle? && queue != []
      modifies this
      ensures View() == TakeStep(old(View()))
    {
      hide TotalBytes, Take;
      processing := true;
      var batch: seq<Bytes> := [];
      var bytes: nat := 0;
      ghost var full := Take(queue, [], 0, cfg);
      NoBytes([]);
      while |queue| > 0 && |batch| < cfg.batchMaxEntries && bytes < cfg.batchMaxBytes
        invariant Take(queue, batch, bytes, cfg) == full
        invariant queueBytes == old(queueBytes) - TotalBytes(batch)
        invariant View() == old(View()).(processing := true, queue := queue, queueBytes := queueBytes)
        decreases |queue|
      {
        var b := queue[0];
        TakeUnfold(queue, batch, bytes, cfg);
        TotalBytesConcat(batch, [b]);
        NoBytes([b]);
        queue := queue[1..];
        queueBytes := queueBytes - |b|;
        batch := batch + [b];
        bytes := bytes + |b|;
      }
      TakeUnfold(queue, batch, bytes, cfg);
      writer := Writing(batch);
    }

    /** The write and the sync have succeeded: the batch is durable, and nothing has changed its
        place between file, batch and queue. */
    method CompleteWrite()
      requires writer.Writing?
      modifies this
      ensures View() == Step(old(View()), WriteDone)
      ensures old(Inv(View())) ==> Inv(View())
      ensures InFlight(View()) == [] && written + queue == old(written + InFlight(View()) + queue)
    {
      ghost var s := View();
      if Inv(s) {
        WriteKeepsInv(s, WriteDone);
      }
      written := written + writer.batch;
      writer := Noting;
    }

    /** They have thrown: the error is printed and the batch forgotten, which is all that is
        lost. */
    method FailWrite()
      requires writer.Writing?
      modifies this
      ensures View() == Step(old(View()), WriteFailed)
      ensures old(Inv(View())) ==> Inv(View())
      ensures InFlight(View()) == [] && written == old(written) && queue == old(queue)
      ensures |written| + dropped + |queue| == old(|written| + dropped + |InFlight(View())| + |queue|)
    {
      ghost var s := View();
      if Inv(s) {
        WriteKeepsInv(s, WriteFailed);
      }
      dropped := dropped + |writer.batch|;
      writer := Noting;
    }

    method NotifyEnqueue()
      modifies this`enqueueWaiters, this`ready
      ensures View() == WakeProducers(old(View()))
    {
      while |enqueueWaiters| > 0 && Space()
        invariant ready + enqueueWaiters == old(ready + enqueueWaiters)
        invariant !Space() ==> ready == old(ready) && enqueueWaiters == old(enqueueWaiters)
        invariant View() == old(View()).(waiters := enqueueWaiters, ready := ready)
        decreases |enqueueWaiters|
      {
        var w := enqueueWaiters[0];
        FirstMoves(ready, enqueueWaiters);
        enqueueWaiters := enqueueWaiters[1..];
        ready := ready + [w];
      }
    }

    method NotifyDrainers()
      modifies this`drainWaiters, this`acks
      ensures View() == Drain(old(View()))
    {
      ghost var ack := AckNow(View());
      while drainWaiters > 0 && |queue| == 0 && !processing
        invariant drainWaiters <= old(drainWaiters)
        invariant acks == old(acks) + seq(old(drainWaiters) - drainWaiters, _ => ack)
        invariant drainWaiters < old(drainWaiters) ==> queue == [] && !processing
        decreases drainWaiters
      {
        drainWaiters := drainWaiters - 1;
        acks := acks + [ack];
      }
    }

    /** The rest of the writer loop's body. */
    method AfterWrite()
      requires writer.Noting?
      modifies this
      ensures View() == NotifyStep(old(View()))
    {
      hide AckNow;
      NotifyEnqueue();
      processing := false;
      writer := Idle;
      NotifyDrainers();
    }

    /** `flush`: `resolved` tells that it had nothing to wait for. */
    method Flush() returns (resolved: bool)
      modifies this
      ensures View() == FlushStep(old(View()))
      ensures resolved <==> |acks| > |old(acks)|
    {
      if |queue| > 0 || processing {
        drainWaiters := drainWaiters + 1;
        return false;
      }
      acks := acks + [AckNow(View())];
      return true;
    }

    /** `close` up to its wait for the writer. */
    method Close()
      modifies this
      ensures View() == CloseStep(old(View()))
    {
      ghost var ack := AckNow(View());
      running := false;
      if writer.Stopped? {
        acks := acks + [ack];
      } else {
        closers := closers + 1;
      }
    }

    /** The writer loop ends and resolves `writerDone`. */
    method EndWriter()
      requires writer.Idle? && !running && queue == []
      modifies this
      ensures View() == StopStep(old(View()))
    {
      hide AckNow;
      processing := false;
      NotifyDrainers();
      ghost var ack := AckNow(View());
      acks := acks + seq(closers, _ => ack);
      closers := 0;
      writer := Stopped;
    }
  }
}
