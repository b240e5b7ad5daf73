/** `open` of an existing log (`libs/wal/wall.ts`): what the persisted metadata gives back after
    a close or a crash; and the reverse scans over all files of both log implementations. */
module WalReopen {
  import opened Bytes
  import opened WalFrames
  import opened WalRecovery
  import opened WalSegments
  import opened WalTiling

  // ---------------------------------------------------------------- open

  /** A new object on the files of an old one. The index was written at every rotation, the
      other metadata only then and at every 64th append. */
  function Reopen(s: State): State
  {
    var active := s.active[..RecoveredSize(s.active)];
    s.(active := active, currentOffset := |active|, globalBase := s.meta.base, globalNext := s.meta.next,
       sinceMeta := 0)
  }

  method Open(file: Bytes, segments: seq<Segment>, index: Index, meta: Meta) returns (s: State)
    ensures forall t: State ::
              t.active == file && t.segments == segments && t.index == index && t.meta == meta ==> s == Reopen(t)
  {
    hide RecoveredSize;
    var kept := RecoverTail(file);
    s := State(kept, segments, index, |kept|, meta.base, meta.next, 0, meta);
  }

  /** The base in the metadata is current, and its end offset is one the log has had. */
  ghost predicate MetaInv(s: State)
  {
    s.meta.base == s.globalBase && s.globalBase <= s.meta.next <= s.globalNext
  }

  lemma {:induction false} RunKeepsMeta(s: State, events: seq<Event>, clock: nat)
    requires MetaInv(s) && s.globalNext == s.globalBase + s.currentOffset && Legal(events, clock)
    ensures MetaInv(Run(s, events, clock))
    decreases |events|
  {
    if events != [] {
      RunKeepsMeta(Step(s, events[0]), events[1..], if events[0].Rotate? then events[0].ts + 1 else clock);
    }
  }

  /** The guard: `meta.json` is as new as the file. */
  predicate MetaIsFresh(s: State)
  {
    s.meta.next == 0 || s.meta.next == s.meta.base + |s.active|
  }

  lemma RecoveryKeepsFrames(ps: seq<Bytes>)
    requires AllFit(ps) && !LooksShorter(Frames(ps))
    ensures RecoveredSize(Frames(ps)) == |Frames(ps)|
  {
    hide ParseBackward, Frame;
    if ps != [] {
      IntactFileKeptIff(ps);
    }
  }

  /** After a clean close: every scan is as before; the end offset is right exactly if the
      metadata was fresh; and the next append repairs it in any case. */
  lemma ReopenIsFaithful(s: State, h: History, clock: nat, listing: seq<Segment>, p: Bytes)
    requires Inv(s, h, clock) && MetaInv(s) && !LooksShorter(s.active)
    requires multiset(listing) == multiset(s.segments) && Fits(p)
    ensures AllRecs(Reopen(s), listing) == AllRecs(s, listing)
    ensures EndOffset(Reopen(s)) == Size(Everything(h)) <==> MetaIsFresh(s)
    ensures Inv(AppendStep(Reopen(s), p), h.(tail := h.tail + [p]), clock)
  {
    hide Frames, Scan, Tiled, Shift, AllRecs, SortByTs, Size, Flatten, RecoveredSize, ParseBackward, LooksShorter;
    RecoveryKeepsFrames(h.tail);
    assert s.active[..|s.active|] == s.active;
    SameFilesSameRecs(s, Reopen(s), listing);
    RotateKeepsInv(s, h, clock, clock);
    assert AppendStep(Reopen(s), p).active == AppendStep(s, p).active;
    AppendKeepsInv(s, h, clock, p);
  }

  lemma SameFilesSameRecs(s: State, t: State, listing: seq<Segment>)
    requires s.active == t.active && s.index == t.index && s.globalBase == t.globalBase
    ensures AllRecs(s, listing) == AllRecs(t, listing)
  {
  }

  /** A rotation right after `open`, as a flush of the replayed memtable makes it: the segments
      still tile the log exactly if the metadata was fresh. Otherwise the new segment claims
      to end before its records do. */
  lemma RotationAfterReopenIff(s: State, h: History, clock: nat, ts: nat)
    requires Inv(s, h, clock) && MetaInv(s) && !LooksShorter(s.active) && clock <= ts
    ensures Inv(Step(Reopen(s), Rotate(ts)), HistoryStep(s, h, Rotate(ts)), ts + 1) <==> MetaIsFresh(s)
    ensures !MetaIsFresh(s) ==> Step(Reopen(s), Rotate(ts)).globalBase < Size(Everything(h))
  {
    hide Frames, Scan, Tiled, AllRecs, SortByTs, Size, Flatten, RecoveredSize, ParseBackward, LooksShorter;
    RecoveryKeepsFrames(h.tail);
    assert s.active[..|s.active|] == s.active;
    RotateKeepsInv(s, h, clock, ts);
    var t := Step(Reopen(s), Rotate(ts));
    FlattenSnoc(h.parts, h.tail);
    assert h.lost + Flatten(h.parts + [h.tail]) == Everything(h);
    if MetaIsFresh(s) {
      assert t == Step(s, Rotate(ts)).(sinceMeta := 0);
    }
  }

  /** A crash inside an append leaves part of one frame. If nothing else looks like the end of
      a frame, `open` comes back with exactly the state before that append if and only if
      nothing was written, or the file had a record and at most 4096 bytes were written. */
  lemma CrashInsideAppendIff(s: State, h: History, clock: nat, p: Bytes, written: nat)
    requires Inv(s, h, clock) && Fits(p) && written < |Frame(p)|
    requires TrueEnds(h.tail, Frame(p)[..written])
    ensures Reopen(s.(active := s.active + Frame(p)[..written])) ==
            s.(globalBase := s.meta.base, globalNext := s.meta.next, sinceMeta := 0) <==>
            written == 0 || (h.tail != [] && written <= MAX_TRAILER_SEARCH)
  {
    hide ParseBackward, Frame, Frames, Tiled, Size, Flatten, FrameEnd, TrueEnds, RecoveredSize;
    RecoveryIsExactIff(h.tail, Frame(p)[..written]);
    assert (s.active + Frame(p)[..written])[..|s.active|] == s.active;
  }

  // ---------------------------------------------------------------- reverse scans over all files

  function BackScans(files: seq<Segment>): seq<Bytes>
  {
    if files == [] then [] else ScanBack(files[0].bytes, |files[0].bytes|) + BackScans(files[1..])
  }

  /** Rotated files from the newest to the oldest. */
  function NewestFirst(listing: seq<Segment>): seq<Segment>
  {
    Reverse(SortByTs(listing))
  }

  method ScanFilesBack(files: seq<Segment>) returns (out: seq<Bytes>)
    ensures out == BackScans(files)
  {
    out := [];
    var i := 0;
    while i < |files|
      invariant 0 <= i <= |files|
      invariant out + BackScans(files[i..]) == BackScans(files)
    {
      assert files[i..][1..] == files[i + 1..];
      var more := ReverseScanFile(files[i].bytes);
      out := out + more;
      i := i + 1;
    }
  }

  /** `reverseScan` of `HandoffWal`: the active file sorts as the newest. */
  method HandoffReverseScan(active: Bytes, listing: seq<Segment>) returns (out: seq<Bytes>)
    ensures out == ScanBack(active, |active|) + BackScans(NewestFirst(listing))
  {
    var files := NewestFirst(listing);
    var first := ReverseScanFile(active);
    var rest := ScanFilesBack(files);
    out := first + rest;
  }

  /** `reverseScan` of `Wal`, and `reverseScanBuffered` of both: the active file sorts as the
      oldest and is read last. */
  method WalReverseScan(active: Bytes, listing: seq<Segment>) returns (out: seq<Bytes>)
    ensures out == BackScans(NewestFirst(listing)) + ScanBack(active, |active|)
  {
    var files := NewestFirst(listing);
    var first := ScanFilesBack(files);
    var last := ReverseScanFile(active);
    out := first + last;
  }

  lemma {:induction false} ReverseConcat<T>(a: seq<T>, b: seq<T>)
    ensures Reverse(a + b) == Reverse(b) + Reverse(a)
  {
    if a == [] {
      assert a + b == b;
    } else {
      assert (a + b)[1..] == a[1..] + b;
      ReverseConcat(a[1..], b);
    }
  }

  lemma {:induction false} BackScansConcat(a: seq<Segment>, b: seq<Segment>)
    ensures BackScans(a + b) == BackScans(a) + BackScans(b)
  {
    hide ScanBack;
    if a == [] {
      assert a + b == b;
    } else {
      assert (a + b)[1..] == a[1..] + b;
      BackScansConcat(a[1..], b);
    }
  }

  lemma BackScanOfTile(f: Segment, index: Index, p: seq<Bytes>, base: nat, since: nat)
    requires Tile(f, index, p, base, since)
    ensures BackScans([f]) == Reverse(p)
  {
    hide Frames, ParseBackward, ScanBack;
    ScanBackReverses(f.bytes, p);
    assert [f][1..] == [];
    assert BackScans([f]) == ScanBack(f.bytes, |f.bytes|) + [];
  }

  /** Rotated files read backwards are the rotated records backwards. */
  lemma {:induction false} TiledBack(segs: seq<Segment>, index: Index, parts: seq<seq<Bytes>>, base: nat, since: nat)
    requires Tiled(segs, index, parts, base, since)
    ensures BackScans(Reverse(segs)) == Reverse(Flatten(parts))
    decreases |segs|
  {
    hide Tile, Tiled, Size, BackScans;
    TiledUnfold(segs, index, parts, base, since);
    if segs == [] {
      NothingBack();
    } else {
      TiledBack(segs[1..], index, parts[1..], segs[0].named, segs[0].ts + 1);
      BackScanOfTile(segs[0], index, parts[0], base, since);
      BackScansConcat(Reverse(segs[1..]), [segs[0]]);
      ReverseConcat(parts[0], Flatten(parts[1..]));
    }
  }

  lemma NothingBack()
    ensures BackScans(Reverse<Segment>([])) == [] && Reverse<Bytes>([]) == []
  {
  }

  /** What the two parts of the log yield backwards. */
  lemma BackwardParts(s: State, h: History, clock: nat, listing: seq<Segment>)
    requires Inv(s, h, clock) && multiset(listing) == multiset(s.segments)
    ensures BackScans(NewestFirst(listing)) == Reverse(Flatten(h.parts))
    ensures ScanBack(s.active, |s.active|) == Reverse(h.tail)
  {
    hide Frames, Tiled, SortByTs, BackScans, ScanBack, Size, Flatten, Reverse;
    TiledIncreasing(s.segments, s.index, h.parts, Size(h.lost), 0);
    SortRestoresOrder(s.segments, listing);
    TiledBack(s.segments, s.index, h.parts, Size(h.lost), 0);
    ScanBackReverses(s.active, h.tail);
  }

  /** `HandoffWal`: the exact reversal of the log, across all files. */
  lemma HandoffReverseIsExact(s: State, h: History, clock: nat, listing: seq<Segment>)
    requires Inv(s, h, clock) && multiset(listing) == multiset(s.segments)
    ensures ScanBack(s.active, |s.active|) + BackScans(NewestFirst(listing)) == Reverse(Flatten(h.parts) + h.tail)
  {
    hide Tiled, Inv, BackScans, ScanBack, Size, Flatten, Reverse, NewestFirst;
    BackwardParts(s, h, clock, listing);
    ReverseConcat(Flatten(h.parts), h.tail);
  }

  /** No record of the active file equals one of a rotated file; records carry revisions, so
      those of the engine never do. */
  ghost predicate NoCommonRecord(h: History)
  {
    forall p :: p in h.tail ==> p !in Flatten(h.parts)
  }

  /** `Wal`: the order is the reversal exactly if the active file or the rotated ones are empty. */
  lemma WalReverseIsExactIff(s: State, h: History, clock: nat, listing: seq<Segment>)
    requires Inv(s, h, clock) && multiset(listing) == multiset(s.segments) && NoCommonRecord(h)
    ensures BackScans(NewestFirst(listing)) + ScanBack(s.active, |s.active|) == Reverse(Flatten(h.parts) + h.tail)
            <==> (s.active == [] || Flatten(h.parts) == [])
  {
    hide Tiled, Tile, BackScans, ScanBack, Size, Flatten, Reverse, NewestFirst, Frame;
    BackwardParts(s, h, clock, listing);
    var rotated, young := Flatten(h.parts), h.tail;
    ReverseConcat(rotated, young);
    FramesSize(young);
    if rotated == [] || young == [] {
      ReverseNothing();
    } else {
      var wrong, right := Reverse(rotated) + Reverse(young), Reverse(young) + Reverse(rotated);
      assert wrong[0] == rotated[|rotated| - 1] && right[0] == young[|young| - 1];
      assert rotated[|rotated| - 1] in rotated && young[|young| - 1] in young;
      NonEmptyFrames(young);
    }
  }

  lemma ReverseNothing()
    ensures Reverse<Bytes>([]) == [] && Frames([]) == []
  {
  }

  lemma NonEmptyFrames(ps: seq<Bytes>)
    requires AllFit(ps) && ps != []
    ensures Frames(ps) != []
  {
    hide Header;
  }

  // ---------------------------------------------------------------- offsets of HandoffWal scans

  /** `scan` and `scanWithOffsets` of `HandoffWal` take the bases from the file sizes alone. */
  function HandoffRecs(files: seq<Segment>, active: Bytes, base: nat): seq<Rec>
    decreases |files|
  {
    if files == [] then Shift(Scan(active, 0), base)
    else Shift(Scan(files[0].bytes, 0), base) + HandoffRecs(files[1..], active, base + |files[0].bytes|)
  }

  method HandoffScanWithOffsets(active: Bytes, listing: seq<Segment>, minOffset: Option<nat>)
      returns (out: seq<Rec>)
    ensures out == After(HandoffRecs(SortByTs(listing), active, 0), minOffset)
  {
    hide Scan, Shift, After, SortByTs;
    var files := SortByTs(listing);
    out := [];
    var acc: nat := 0;
    var i := 0;
    while i < |files|
      invariant 0 <= i <= |files|
      invariant out + After(HandoffRecs(files[i..], active, acc), minOffset) ==
                After(HandoffRecs(files, active, 0), minOffset)
    {
      assert files[i..][1..] == files[i + 1..];
      AfterConcat(Shift(Scan(files[i].bytes, 0), acc),
                  HandoffRecs(files[i + 1..], active, acc + |files[i].bytes|), minOffset);
      var more := ScanFile(files[i].bytes, acc, minOffset);
      out := out + more;
      acc := acc + |files[i].bytes|;
      i := i + 1;
    }
    var last := ScanFile(active, acc, minOffset);
    out := out + last;
  }

  lemma {:induction false} HandoffTiles(segs: seq<Segment>, index: Index, parts: seq<seq<Bytes>>, tail: seq<Bytes>,
                                        base: nat, since: nat, from: nat)
    requires Tiled(segs, index, parts, base, since) && AllFit(tail)
    ensures HandoffRecs(segs, Frames(tail), from) == Layout(Flatten(parts) + tail, from)
    decreases |segs|
  {
    hide Tile, Tiled, Size, Frames, Scan, Shift, Layout;
    TiledUnfold(segs, index, parts, base, since);
    if segs == [] {
      ScanWholeFile(tail);
      ShiftLayout(tail, 0, from);
      assert [] + tail == tail;
    } else {
      var p := parts[0];
      TileSize(segs[0], index, p, base, since);
      ScanWholeFile(p);
      ShiftLayout(p, 0, from);
      HandoffTiles(segs[1..], index, parts[1..], tail, segs[0].named, segs[0].ts + 1, from + |segs[0].bytes|);
      LayoutAppend(p, Flatten(parts[1..]) + tail, from);
      assert Flatten(parts) + tail == p + (Flatten(parts[1..]) + tail);
    }
  }

  lemma TileSize(f: Segment, index: Index, p: seq<Bytes>, base: nat, since: nat)
    requires Tile(f, index, p, base, since)
    ensures AllFit(p) && f.bytes == Frames(p) && |f.bytes| == Size(p)
  {
    FramesSize(p);
  }

  /** These offsets are the true ones exactly as long as no record was collected; afterwards
      every record is reported too early by the size of what is gone. */
  lemma HandoffOffsetsIff(s: State, h: History, clock: nat, listing: seq<Segment>)
    requires Inv(s, h, clock) && multiset(listing) == multiset(s.segments)
    requires Flatten(h.parts) + h.tail != []
    ensures HandoffRecs(SortByTs(listing), s.active, 0) == Layout(Flatten(h.parts) + h.tail, 0)
    ensures HandoffRecs(SortByTs(listing), s.active, 0) == AllRecs(s, listing) <==> h.lost == []
  {
    hide Frames, Scan, Tiled, AllRecs, SortByTs, HandoffRecs, Flatten;
    TiledIncreasing(s.segments, s.index, h.parts, Size(h.lost), 0);
    SortRestoresOrder(s.segments, listing);
    HandoffTiles(s.segments, s.index, h.parts, h.tail, Size(h.lost), 0, 0);
    ScanIsTheLog(s, h, clock, listing);
    var ps := Flatten(h.parts) + h.tail;
    assert Layout(ps, 0)[0].start == 0 && Layout(ps, Size(h.lost))[0].start == Size(h.lost);
  }
}
