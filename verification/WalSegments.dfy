/** The rotating log of `libs/wal/wall.ts`, written without batching: global offsets, rotated
    segments, scans over all files, and the deletion of segments by the engine
    (`startWalGC` in `libs/storage/engine.ts`). Files are byte strings. */
module WalSegments {
  import opened Bytes
  import opened WalFrames

  /** A rotated file; its name carries a time stamp and the offset given to `truncateUpTo`. */
  datatype Segment = Segment(ts: nat, named: nat, bytes: Bytes)

  /** An entry of `segments.json`. */
  datatype Range = Range(base: nat, end: nat)

  /** The contents of `meta.json`. */
  datatype Meta = Meta(base: nat, next: nat)

  type Index = map<(nat, nat), Range>

  datatype State = State(
    active: Bytes, segments: seq<Segment>, index: Index,
    currentOffset: nat, globalBase: nat, globalNext: nat,
    sinceMeta: nat, meta: Meta)

  datatype Event = Append(payload: Bytes) | Rotate(ts: nat) | Gc(minRef: nat)

  const META_FLUSH_INTERVAL: nat := 64

  // ---------------------------------------------------------------- the steps

  /** `open` on an empty directory. */
  function New(): State
  {
    State([], [], map[], 0, 0, 0, 0, Meta(0, 0))
  }

  function AppendStep(s: State, p: Bytes): State
    requires Fits(p)
  {
    var offset := s.currentOffset + |p| + 2 * HEADER_SIZE;
    var flushMeta := s.sinceMeta + 1 >= META_FLUSH_INTERVAL;
    s.(active := s.active + Frame(p), currentOffset := offset, globalNext := s.globalBase + offset,
       sinceMeta := if flushMeta then 0 else s.sinceMeta + 1,
       meta := if flushMeta then Meta(s.globalBase, s.globalBase + offset) else s.meta)
  }

  /** `currentEndOffset`: zero counts as absent. */
  function EndOffset(s: State): nat
  {
    if s.globalNext != 0 then s.globalNext else s.globalBase + s.currentOffset
  }

  /** `truncateUpTo(offset)` at time `ts`. */
  function RotateStep(s: State, ts: nat, offset: nat): State
  {
    s.(active := [], segments := s.segments + [Segment(ts, offset, s.active)],
       index := s.index[(ts, offset) := Range(s.globalBase, offset)],
       currentOffset := 0, globalBase := offset, globalNext := offset, meta := Meta(offset, offset))
  }

  /** The segments the engine's collector leaves. */
  function Survivors(segs: seq<Segment>, minRef: nat): seq<Segment>
  {
    if segs == [] then []
    else if segs[0].named <= minRef then Survivors(segs[1..], minRef)
    else [segs[0]] + Survivors(segs[1..], minRef)
  }

  /** What rotated files hold, in the order of their rotation. */
  function StoredBytes(segs: seq<Segment>): Bytes
  {
    if segs == [] then [] else segs[0].bytes + StoredBytes(segs[1..])
  }

  lemma {:induction false} StoredSnoc(segs: seq<Segment>, f: Segment)
    ensures StoredBytes(segs + [f]) == StoredBytes(segs) + f.bytes
  {
    if segs == [] {
      assert (segs + [f])[1..] == [] && StoredBytes([]) == [];
    } else {
      assert (segs + [f])[1..] == segs[1..] + [f];
      StoredSnoc(segs[1..], f);
    }
  }

  predicate Legal(events: seq<Event>, clock: nat)
    decreases |events|
  {
    events != [] ==>
      match events[0]
      case Append(p) => Fits(p) && Legal(events[1..], clock)
      case Rotate(ts) => clock <= ts && Legal(events[1..], ts + 1)
      case Gc(_) => Legal(events[1..], clock)
  }

  function Step(s: State, e: Event): State
    requires e.Append? ==> Fits(e.payload)
  {
    match e
    case Append(p) => AppendStep(s, p)
    case Rotate(ts) => RotateStep(s, ts, EndOffset(s))
    case Gc(m) => s.(segments := Survivors(s.segments, m))
  }

  function Run(s: State, events: seq<Event>, clock: nat): State
    requires Legal(events, clock)
    decreases |events|
  {
    if events == [] then s
    else Run(Step(s, events[0]), events[1..], if events[0].Rotate? then events[0].ts + 1 else clock)
  }

  // ---------------------------------------------------------------- the scans

  function InsertByTs(x: Segment, sorted: seq<Segment>): (r: seq<Segment>)
    ensures multiset(r) == multiset(sorted) + multiset{x}
  {
    if sorted == [] then [x]
    else if x.ts <= sorted[0].ts then [x] + sorted
    else
      assert sorted == [sorted[0]] + sorted[1..];
      [sorted[0]] + InsertByTs(x, sorted[1..])
  }

  /** The `sort` of the scans, on the listing of the directory. */
  function SortByTs(listing: seq<Segment>): (r: seq<Segment>)
    ensures multiset(r) == multiset(listing)
  {
    if listing == [] then []
    else
      assert listing == [listing[0]] + listing[1..];
      InsertByTs(listing[0], SortByTs(listing[1..]))
  }

  /** The base of a rotated file: from the index, else the sizes summed so far. */
  function BaseOf(f: Segment, index: Index, acc: nat): nat
  {
    if (f.ts, f.named) in index then index[(f.ts, f.named)].base else acc
  }

  function AccAfter(f: Segment, index: Index, acc: nat): nat
  {
    if (f.ts, f.named) in index then
      var end := index[(f.ts, f.named)].end;
      if acc < end then end else acc
    else acc + |f.bytes|
  }

  function AccAfterAll(files: seq<Segment>, index: Index, acc: nat): nat
  {
    if files == [] then acc else AccAfterAll(files[1..], index, AccAfter(files[0], index, acc))
  }

  /** The records of the rotated files in this order, with global offsets. */
  function SegmentRecs(files: seq<Segment>, index: Index, acc: nat): seq<Rec>
  {
    if files == [] then []
    else Shift(Scan(files[0].bytes, 0), BaseOf(files[0], index, acc)) +
         SegmentRecs(files[1..], index, AccAfter(files[0], index, acc))
  }

  function ActiveBase(globalBase: nat, acc: nat): nat
  {
    if globalBase != 0 then globalBase else acc
  }

  /** Every record of the log, the active file last. `listing` is the order in which the
      directory names the rotated files. */
  function AllRecs(s: State, listing: seq<Segment>): seq<Rec>
  {
    var files := SortByTs(listing);
    SegmentRecs(files, s.index, 0) +
    Shift(Scan(s.active, 0), ActiveBase(s.globalBase, AccAfterAll(files, s.index, 0)))
  }

  function Payloads(rs: seq<Rec>): (r: seq<Bytes>)
    ensures |r| == |rs| && forall i :: 0 <= i < |r| ==> r[i] == rs[i].payload
  {
    if rs == [] then [] else [rs[0].payload] + Payloads(rs[1..])
  }

  lemma {:induction false} AfterConcat(a: seq<Rec>, b: seq<Rec>, m: Option<nat>)
    ensures After(a + b, m) == After(a, m) + After(b, m)
  {
    if a == [] {
      assert a + b == b;
    } else {
      assert (a + b)[1..] == a[1..] + b;
      AfterConcat(a[1..], b, m);
    }
  }

  // ---------------------------------------------------------------- the log as a class

  class Wal {
    var active: Bytes
    var segments: seq<Segment>
    var index: Index
    var currentOffset: nat
    var globalBase: nat
    var globalNext: nat
    var sinceMeta: nat
    var meta: Meta

    ghost function View(): State
      reads this
    {
      State(active, segments, index, currentOffset, globalBase, globalNext, sinceMeta, meta)
    }

    constructor ()
      ensures View() == New()
    {
      active, segments, index := [], [], map[];
      currentOffset, globalBase, globalNext, sinceMeta := 0, 0, 0, 0;
      meta := Meta(0, 0);
    }

    /** `append` with batching off. */
    method Append(payload: Bytes)
      requires Fits(payload)
      modifies this
      ensures View() == AppendStep(old(View()), payload)
    {
      hide Frame;
      var frame := EncodeFrame(payload);
      active := active + frame;
      currentOffset := currentOffset + HEADER_SIZE * 2 + |payload|;
      globalNext := globalBase + currentOffset;
      NoteAppend();
    }

    /** `noteAppend` of `libs/wal/wall_sched_helper.ts` with its `writeMetaSync`. */
    method NoteAppend()
      modifies this`sinceMeta, this`meta
      ensures sinceMeta == if old(sinceMeta) + 1 >= META_FLUSH_INTERVAL then 0 else old(sinceMeta) + 1
      ensures meta == if sinceMeta == 0 then Meta(globalBase, globalNext) else old(meta)
    {
      sinceMeta := sinceMeta + 1;
      if sinceMeta >= META_FLUSH_INTERVAL {
        sinceMeta := 0;
        meta := Meta(globalBase, globalNext);
      }
    }

    /** `currentEndOffset`: the global position behind the active file, as long as the counters
        agree with the file; a counter of zero counts as absent. */
    method CurrentEndOffset() returns (offset: nat)
      ensures offset == EndOffset(View())
      ensures currentOffset == |active| && (globalNext == 0 || globalNext == globalBase + |active|) ==>
                offset == globalBase + |active|
    {
      offset := globalNext;
      if offset == 0 {
        offset := globalBase + currentOffset;
      }
    }

    /** `truncateUpTo` cuts nothing off: all bytes of the log stay, in their order. */
    method TruncateUpTo(ts: nat, offset: nat)
      modifies this
      ensures View() == RotateStep(old(View()), ts, offset)
      ensures StoredBytes(segments) + active == old(StoredBytes(segments) + active)
    {
      StoredSnoc(segments, Segment(ts, offset, active));
      segments := segments + [Segment(ts, offset, active)];
      index := index[(ts, offset) := Range(globalBase, offset)];
      active := [];
      globalBase := offset;
      currentOffset := 0;
      globalNext := globalBase;
      meta := Meta(globalBase, globalNext);
    }

    /** `scanWithOffsets`, collecting what it yields. */
    method ScanWithOffsets(listing: seq<Segment>, minOffset: Option<nat>) returns (out: seq<Rec>)
      ensures out == After(AllRecs(View(), listing), minOffset)
    {
      hide Scan, Shift, After, SortByTs;
      var files := SortByTs(listing);
      out := [];
      var acc := 0;
      var i := 0;
      while i < |files|
        invariant 0 <= i <= |files|
        invariant AccAfterAll(files[i..], index, acc) == AccAfterAll(files, index, 0)
        invariant out + After(SegmentRecs(files[i..], index, acc), minOffset) ==
                  After(SegmentRecs(files, index, 0), minOffset)
      {
        var f := files[i];
        assert files[i..][1..] == files[i + 1..];
        AfterConcat(Shift(Scan(f.bytes, 0), BaseOf(f, index, acc)),
                    SegmentRecs(files[i + 1..], index, AccAfter(f, index, acc)), minOffset);
        var more := ScanFile(f.bytes, BaseOf(f, index, acc), minOffset);
        out := out + more;
        acc := AccAfter(f, index, acc);
        i := i + 1;
      }
      AfterNothing(minOffset);
      var fileBase := ActiveBase(globalBase, acc);
      var last := ScanFile(active, fileBase, minOffset);
      AfterConcat(SegmentRecs(files, index, 0), Shift(Scan(active, 0), fileBase), minOffset);
      out := out + last;
    }

    /** `scanBuffered` yields the same records without their offsets. */
    method ScanBuffered(listing: seq<Segment>, minOffset: Option<nat>) returns (out: seq<Bytes>)
      ensures out == Payloads(After(AllRecs(View(), listing), minOffset))
    {
      hide AllRecs, After, Payloads;
      var recs := ScanWithOffsets(listing, minOffset);
      out := [];
      for i := 0 to |recs|
        invariant |out| == i
        invariant forall j :: 0 <= j < i ==> out[j] == recs[j].payload
      {
        out := out + [recs[i].payload];
      }
    }

    /** The body of the engine's collector, for a known `minRef`. */
    method CollectSegments(minRef: nat)
      modifies this`segments
      ensures segments == Survivors(old(segments), minRef)
    {
      var kept: seq<Segment> := [];
      var i := 0;
      while i < |segments|
        invariant 0 <= i <= |segments|
        invariant kept + Survivors(segments[i..], minRef) == Survivors(segments, minRef)
      {
        if segments[i].named > minRef {
          kept := kept + [segments[i]];
        }
        i := i + 1;
      }
      segments := kept;
    }
  }

  lemma AfterNothing(m: Option<nat>)
    ensures After([], m) == []
  {
  }
}
