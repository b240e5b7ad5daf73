/** What every history of unbatched appends, rotations at `currentEndOffset()` and segment
    collections keeps: the segments tile the log, and the scans are the log. */
module WalTiling {
  import opened Bytes
  import opened WalFrames
  import opened WalSegments

  /** What was ever appended: records whose segments were deleted, records by segment, and
      records of the active file. */
  datatype History = History(lost: seq<Bytes>, parts: seq<seq<Bytes>>, tail: seq<Bytes>)

  function Flatten(parts: seq<seq<Bytes>>): seq<Bytes>
  {
    if parts == [] then [] else parts[0] + Flatten(parts[1..])
  }

  function Everything(h: History): seq<Bytes>
  {
    h.lost + Flatten(h.parts) + h.tail
  }

  function Size(ps: seq<Bytes>): nat
  {
    if ps == [] then 0 else |ps[0]| + 2 * HEADER_SIZE + Size(ps[1..])
  }

  lemma {:induction false} SizeAppend(a: seq<Bytes>, b: seq<Bytes>)
    ensures Size(a + b) == Size(a) + Size(b)
  {
    if a == [] {
      assert a + b == b;
    } else {
      assert (a + b)[1..] == a[1..] + b;
      SizeAppend(a[1..], b);
    }
  }

  lemma {:induction false} FramesSize(ps: seq<Bytes>)
    requires AllFit(ps)
    ensures |Frames(ps)| == Size(ps)
  {
    if ps != [] {
      FramesSize(ps[1..]);
    }
  }

  lemma {:induction false} LayoutAppend(a: seq<Bytes>, b: seq<Bytes>, pos: nat)
    ensures Layout(a + b, pos) == Layout(a, pos) + Layout(b, pos + Size(a))
    decreases |a|
  {
    if a == [] {
      assert a + b == b;
    } else {
      assert (a + b)[1..] == a[1..] + b;
      LayoutAppend(a[1..], b, pos + |a[0]| + 2 * HEADER_SIZE);
    }
  }

  lemma {:induction false} ShiftLayout(ps: seq<Bytes>, pos: nat, base: nat)
    ensures Shift(Layout(ps, pos), base) == Layout(ps, base + pos)
    decreases |ps|
  {
    if ps != [] {
      ShiftLayout(ps[1..], pos + |ps[0]| + 2 * HEADER_SIZE, base);
    }
  }

  /** Each record starts where the one before it ended. */
  lemma {:induction false} LayoutIsContiguous(ps: seq<Bytes>, pos: nat, i: nat)
    requires i < |ps|
    ensures var r := Layout(ps, pos);
            && r[i] == Rec(ps[i], pos + Size(ps[..i]), pos + Size(ps[..i]) + |ps[i]| + 2 * HEADER_SIZE)
            && (i + 1 < |ps| ==> r[i].end == r[i + 1].start)
            && (i + 1 == |ps| ==> r[i].end == pos + Size(ps))
    decreases i
  {
    var next := pos + |ps[0]| + 2 * HEADER_SIZE;
    if i == 0 {
      assert ps[..0] == [];
      if |ps| > 1 {
        assert Layout(ps[1..], next)[0].start == next;
      }
    } else {
      assert ps[..i][1..] == ps[1..][..i - 1];
      LayoutIsContiguous(ps[1..], next, i - 1);
    }
  }

  // ---------------------------------------------------------------- the invariant

  /** Content, name and index entry of one segment agree. */
  ghost predicate Tile(f: Segment, index: Index, part: seq<Bytes>, base: nat, since: nat)
  {
    && AllFit(part)
    && f.bytes == Frames(part)
    && f.named == base + Size(part)
    && (f.ts, f.named) in index && index[(f.ts, f.named)] == Range(base, f.named)
    && since <= f.ts
  }

  /** The segments cover the log from `base` on, without gap or overlap, one part each, and
      their names come in the order of time. */
  ghost predicate Tiled(segs: seq<Segment>, index: Index, parts: seq<seq<Bytes>>, base: nat, since: nat)
    decreases |segs|
  {
    if segs == [] then parts == []
    else
      && parts != []
      && Tile(segs[0], index, parts[0], base, since)
      && Tiled(segs[1..], index, parts[1..], segs[0].named, segs[0].ts + 1)
  }

  lemma SizeCons(p: seq<Bytes>, parts: seq<seq<Bytes>>)
    ensures Flatten([p] + parts) == p + Flatten(parts)
    ensures Size(Flatten([p] + parts)) == Size(p) + Size(Flatten(parts))
  {
    assert ([p] + parts)[1..] == parts;
    SizeAppend(p, Flatten(parts));
  }

  ghost predicate Before(segs: seq<Segment>, clock: nat)
  {
    forall f :: f in segs ==> f.ts < clock
  }

  ghost predicate Inv(s: State, h: History, clock: nat)
  {
    && Tiled(s.segments, s.index, h.parts, Size(h.lost), 0)
    && Before(s.segments, clock)
    && AllFit(h.tail) && s.active == Frames(h.tail)
    && s.currentOffset == |s.active|
    && s.globalBase == Size(h.lost + Flatten(h.parts))
    && s.globalNext == s.globalBase + s.currentOffset
  }

  /** Entries for other files do not matter. */
  lemma {:induction false} TiledExtend(segs: seq<Segment>, index: Index, parts: seq<seq<Bytes>>, base: nat,
                                       since: nat, ts: nat, named: nat, r: Range)
    requires Tiled(segs, index, parts, base, since) && Before(segs, ts)
    ensures Tiled(segs, index[(ts, named) := r], parts, base, since)
    decreases |segs|
  {
    hide Frames, Size;
    if segs != [] {
      assert segs[0] in segs && forall f :: f in segs[1..] ==> f in segs;
      TiledExtend(segs[1..], index, parts[1..], segs[0].named, segs[0].ts + 1, ts, named, r);
    }
  }

  lemma {:induction false} TiledSnoc(segs: seq<Segment>, index: Index, parts: seq<seq<Bytes>>, base: nat, since: nat,
                                     f: Segment, part: seq<Bytes>)
    requires Tiled(segs, index, parts, base, since) && Before(segs, f.ts)
    requires Tile(f, index, part, base + Size(Flatten(parts)), since)
    ensures Tiled(segs + [f], index, parts + [part], base, since)
    decreases |segs|
  {
    hide Frames, Size, Flatten, Tiled, Tile;
    TiledUnfold(segs, index, parts, base, since);
    TiledUnfold(segs + [f], index, parts + [part], base, since);
    if segs == [] {
      SnocFirst(f);
      SnocFirst(part);
      TiledUnfold([], index, [], f.named, f.ts + 1);
      Nothing();
    } else {
      var g := segs[0];
      assert g in segs;
      SnocRest(segs, f);
      SnocRest(parts, part);
      TileIsNewer(f, g, index, part, parts[0], base, since, parts[1..]);
      TiledSnoc(segs[1..], index, parts[1..], g.named, g.ts + 1, f, part);
    }
  }

  lemma SnocFirst<T>(x: T)
    ensures ([] + [x])[0] == x && ([] + [x])[1..] == []
  {
  }

  lemma SnocRest<T>(s: seq<T>, x: T)
    requires s != []
    ensures (s + [x])[0] == s[0] && (s + [x])[1..] == s[1..] + [x]
    ensures forall y :: y in s[1..] ==> y in s
  {
  }

  lemma TiledUnfold(segs: seq<Segment>, index: Index, parts: seq<seq<Bytes>>, base: nat, since: nat)
    ensures segs == [] ==> (Tiled(segs, index, parts, base, since) <==> parts == [])
    ensures segs != [] ==>
              (Tiled(segs, index, parts, base, since) <==>
               && parts != []
               && Tile(segs[0], index, parts[0], base, since)
               && Tiled(segs[1..], index, parts[1..], segs[0].named, segs[0].ts + 1))
    ensures parts != [] ==> Size(Flatten(parts)) == Size(parts[0]) + Size(Flatten(parts[1..]))
  {
    hide Tile, Size;
    if parts != [] {
      SizeAppend(parts[0], Flatten(parts[1..]));
    }
  }

  lemma TileIsNewer(f: Segment, g: Segment, index: Index, part: seq<Bytes>, p: seq<Bytes>, base: nat, since: nat,
                    more: seq<seq<Bytes>>)
    requires Tile(f, index, part, base + Size(p) + Size(Flatten(more)), since) && g.ts < f.ts
    requires Tile(g, index, p, base, since)
    ensures Tile(f, index, part, g.named + Size(Flatten(more)), g.ts + 1)
  {
  }

  lemma {:induction false} FlattenSnoc(parts: seq<seq<Bytes>>, part: seq<Bytes>)
    ensures Flatten(parts + [part]) == Flatten(parts) + part
  {
    if parts == [] {
      assert (parts + [part])[1..] == [];
    } else {
      assert (parts + [part])[1..] == parts[1..] + [part];
      FlattenSnoc(parts[1..], part);
    }
  }

  /** How many segments a collection removes: a prefix, since the named offsets never fall. */
  function Removed(segs: seq<Segment>, minRef: nat): (n: nat)
    ensures n <= |segs|
  {
    if segs == [] || segs[0].named > minRef then 0 else 1 + Removed(segs[1..], minRef)
  }

  lemma {:induction false} AllSurvive(segs: seq<Segment>, index: Index, parts: seq<seq<Bytes>>, base: nat, since: nat,
                                      minRef: nat)
    requires Tiled(segs, index, parts, base, since) && (segs != [] ==> minRef < segs[0].named)
    ensures Survivors(segs, minRef) == segs && |parts| == |segs|
    decreases |segs|
  {
    hide Frames, Size;
    if segs != [] {
      AllSurvive(segs[1..], index, parts[1..], segs[0].named, segs[0].ts + 1, minRef);
    }
  }

  lemma {:induction false} FlattenSplit(parts: seq<seq<Bytes>>, n: nat)
    requires n <= |parts|
    ensures Flatten(parts) == Flatten(parts[..n]) + Flatten(parts[n..])
  {
    if n == 0 {
      assert parts[..0] == [] && parts[0..] == parts;
    } else {
      assert parts[1..][n - 1..] == parts[n..] && parts[..n][1..] == parts[1..][..n - 1];
      FlattenSplit(parts[1..], n - 1);
    }
  }

  lemma TiledFirst(segs: seq<Segment>, index: Index, parts: seq<seq<Bytes>>, base: nat, since: nat)
    requires Tiled(segs, index, parts, base, since) && segs != [] && |parts| == |segs|
    ensures Tiled(segs[1..], index, parts[1..], segs[0].named, segs[0].ts + 1)
    ensures segs[0].named == base + Size(parts[0]) && since <= segs[0].ts + 1
  {
    hide Frames, Size;
    assert Tile(segs[0], index, parts[0], base, since);
  }

  /** What is left after the first `n` segments tiles the rest of the log. */
  lemma {:induction false} TiledDrop(segs: seq<Segment>, index: Index, parts: seq<seq<Bytes>>, base: nat,
                                     since: nat, n: nat)
    requires Tiled(segs, index, parts, base, since) && n <= |segs| == |parts|
    ensures Tiled(segs[n..], index, parts[n..], base + Size(Flatten(parts[..n])), since)
    ensures n > 0 ==> segs[n - 1].named == base + Size(Flatten(parts[..n]))
    decreases n
  {
    hide Frames, Size, Flatten, Tiled;
    Nothing();
    if n == 0 {
      assert segs[0..] == segs && parts[0..] == parts && parts[..0] == [];
    } else {
      var g, p, rest, more := segs[0], parts[0], segs[1..], parts[1..];
      TiledFirst(segs, index, parts, base, since);
      SizeCons(p, more[..n - 1]);
      assert [p] + more[..n - 1] == parts[..n];
      TiledDrop(rest, index, more, g.named, g.ts + 1, n - 1);
      assert rest[n - 1..] == segs[n..] && more[n - 1..] == parts[n..];
      assert n > 1 ==> rest[n - 2] == segs[n - 1];
      assert n == 1 ==> more[..0] == [];
      TiledWeaken(segs[n..], index, parts[n..], base + Size(Flatten(parts[..n])), g.ts + 1, since);
    }
  }

  lemma Nothing()
    ensures Flatten([]) == [] && Size([]) == 0 && Frames([]) == []
  {
  }

  lemma {:induction false} RemovedAreFirst(segs: seq<Segment>, index: Index, parts: seq<seq<Bytes>>, base: nat,
                                           since: nat, minRef: nat)
    requires Tiled(segs, index, parts, base, since)
    ensures |parts| == |segs|
    ensures var n := Removed(segs, minRef);
            && Survivors(segs, minRef) == segs[n..]
            && (n > 0 ==> segs[n - 1].named <= minRef)
    decreases |segs|
  {
    hide Frames, Size;
    if segs == [] || segs[0].named > minRef {
      AllSurvive(segs, index, parts, base, since, minRef);
    } else {
      RemovedAreFirst(segs[1..], index, parts[1..], segs[0].named, segs[0].ts + 1, minRef);
      var k := Removed(segs[1..], minRef);
      assert segs[1..][k..] == segs[k + 1..];
      assert k > 0 ==> segs[1..][k - 1] == segs[k];
    }
  }

  lemma SurvivorsAreTiled(segs: seq<Segment>, index: Index, parts: seq<seq<Bytes>>, base: nat, since: nat, minRef: nat)
      returns (n: nat)
    requires Tiled(segs, index, parts, base, since)
    ensures n == Removed(segs, minRef) && n <= |parts| == |segs|
    ensures Survivors(segs, minRef) == segs[n..]
    ensures Tiled(segs[n..], index, parts[n..], base + Size(Flatten(parts[..n])), since)
    ensures Flatten(parts) == Flatten(parts[..n]) + Flatten(parts[n..])
    ensures n > 0 ==> base + Size(Flatten(parts[..n])) <= minRef
  {
    hide Frames, Size, Flatten, Tiled, Survivors, Removed;
    n := Removed(segs, minRef);
    RemovedAreFirst(segs, index, parts, base, since, minRef);
    TiledDrop(segs, index, parts, base, since, n);
    FlattenSplit(parts, n);
  }

  lemma TiledWeaken(segs: seq<Segment>, index: Index, parts: seq<seq<Bytes>>, base: nat, since: nat, since': nat)
    requires Tiled(segs, index, parts, base, since) && since' <= since
    ensures Tiled(segs, index, parts, base, since')
  {
    hide Frames, Size;
  }

  // ---------------------------------------------------------------- every step keeps it

  function HistoryStep(s: State, h: History, e: Event): History
  {
    match e
    case Append(p) => h.(tail := h.tail + [p])
    case Rotate(_) => h.(parts := h.parts + [h.tail], tail := [])
    case Gc(m) =>
      var n := Removed(s.segments, m);
      if n <= |h.parts| then h.(lost := h.lost + Flatten(h.parts[..n]), parts := h.parts[n..]) else h
  }

  function HistoryRun(s: State, h: History, events: seq<Event>, clock: nat): History
    requires Legal(events, clock)
    decreases |events|
  {
    if events == [] then h
    else HistoryRun(Step(s, events[0]), HistoryStep(s, h, events[0]), events[1..],
                    if events[0].Rotate? then events[0].ts + 1 else clock)
  }

  lemma AppendKeepsInv(s: State, h: History, clock: nat, p: Bytes)
    requires Inv(s, h, clock) && Fits(p)
    ensures Inv(AppendStep(s, p), HistoryStep(s, h, Append(p)), clock)
  {
    hide Tiled, Frame;
    FramesSnoc(h.tail, p);
  }

  lemma RotateKeepsInv(s: State, h: History, clock: nat, ts: nat)
    requires Inv(s, h, clock) && clock <= ts
    ensures Inv(Step(s, Rotate(ts)), HistoryStep(s, h, Rotate(ts)), ts + 1)
    ensures EndOffset(s) == Size(Everything(h))
  {
    hide Tiled, Frames, Size, Flatten;
    FramesSize(h.tail);
    SizeAppend(h.lost, Flatten(h.parts));
    SizeAppend(h.lost + Flatten(h.parts), h.tail);
    FlattenSnoc(h.parts, h.tail);
    assert h.lost + (Flatten(h.parts) + h.tail) == Everything(h);
    var f := Segment(ts, EndOffset(s), s.active);
    TiledExtend(s.segments, s.index, h.parts, Size(h.lost), 0, ts, f.named, Range(s.globalBase, f.named));
    var index := Step(s, Rotate(ts)).index;
    TiledSnoc(s.segments, index, h.parts, Size(h.lost), 0, f, h.tail);
    Nothing();
  }

  /** `flush` hands over an offset that it took before its awaits. For whatever offset: the
      rotation keeps the tiling exactly if that is still the end of the log. */
  lemma RotateTilesIff(s: State, h: History, clock: nat, ts: nat, offset: nat)
    requires Inv(s, h, clock) && clock <= ts
    ensures Inv(RotateStep(s, ts, offset), HistoryStep(s, h, Rotate(ts)), ts + 1) <==> offset == EndOffset(s)
  {
    hide Tiled, Frames, Size, Flatten;
    RotateKeepsInv(s, h, clock, ts);
    FlattenSnoc(h.parts, h.tail);
    assert h.lost + (Flatten(h.parts) + h.tail) == Everything(h);
  }

  lemma {:induction false} SurvivesIff(segs: seq<Segment>, m: nat, f: Segment)
    ensures f in Survivors(segs, m) <==> f in segs && f.named > m
  {
    if segs != [] {
      SurvivesIff(segs[1..], m, f);
    }
  }

  lemma {:induction false} SomeAfterIff(rs: seq<Rec>, m: nat)
    ensures After(rs, Some(m)) != [] <==> exists i :: 0 <= i < |rs| && rs[i].end > m
  {
    if rs != [] {
      SomeAfterIff(rs[1..], m);
      if i :| 0 <= i < |rs| && rs[i].end > m && i > 0 {
        assert rs[1..][i - 1].end > m;
      }
      if i :| 0 <= i < |rs[1..]| && rs[1..][i].end > m {
        assert rs[i + 1].end > m;
      }
    }
  }

  /** What a stale offset costs: a collection up to `m` deletes the new segment although one of
      its records ends behind `m`, so that a scan from there should yield it, exactly if `m`
      lies between the stale offset and the true end. */
  lemma StaleRotationLosesIff(s: State, h: History, clock: nat, ts: nat, offset: nat, m: nat)
    requires Inv(s, h, clock) && clock <= ts && h.tail != []
    ensures var f := Segment(ts, offset, s.active);
            var rotated := RotateStep(s, ts, offset);
            && f in rotated.segments
            && (f !in Step(rotated, Gc(m)).segments && After(Shift(Scan(f.bytes, 0), s.globalBase), Some(m)) != [] <==>
                offset <= m < EndOffset(s))
  {
    hide Tiled, Frames, Frame, Size, Flatten, Survivors, After, Scan, Shift, Layout;
    var f := Segment(ts, offset, s.active);
    SurvivesIff(s.segments + [f], m, f);
    FramesSize(h.tail);
    ScanWholeFile(h.tail);
    ShiftLayout(h.tail, 0, s.globalBase);
    var rs := Layout(h.tail, s.globalBase);
    SomeAfterIff(rs, m);
    LastEndsLast(h.tail, s.globalBase);
    assert EndOffset(s) == s.globalBase + Size(h.tail);
  }

  /** Records end in order, the last one where the file ends. */
  lemma LastEndsLast(ps: seq<Bytes>, pos: nat)
    requires ps != []
    ensures |Layout(ps, pos)| == |ps| && Layout(ps, pos)[|ps| - 1].end == pos + Size(ps)
    ensures forall i :: 0 <= i < |ps| ==> Layout(ps, pos)[i].end <= pos + Size(ps)
  {
    hide Layout, Size;
    forall i | 0 <= i < |ps|
      ensures Layout(ps, pos)[i].end <= pos + Size(ps)
    {
      LayoutIsContiguous(ps, pos, i);
      assert ps == ps[..i] + ([ps[i]] + ps[i + 1..]);
      SizeAppend(ps[..i], [ps[i]] + ps[i + 1..]);
      SizeAppend([ps[i]], ps[i + 1..]);
      SizeOne(ps[i]);
    }
    LayoutIsContiguous(ps, pos, |ps| - 1);
  }

  lemma SizeOne(p: Bytes)
    ensures Size([p]) == |p| + 2 * HEADER_SIZE
  {
    assert [p][1..] == [] && Size([]) == 0;
  }

  lemma GcKeepsInv(s: State, h: History, clock: nat, m: nat)
    requires Inv(s, h, clock)
    ensures var h' := HistoryStep(s, h, Gc(m));
            && Inv(Step(s, Gc(m)), h', clock)
            && Everything(h') == Everything(h)
            && (h'.lost == h.lost || Size(h'.lost) <= m)
  {
    hide Tiled, Frames, Size, Flatten;
    var n := SurvivorsAreTiled(s.segments, s.index, h.parts, Size(h.lost), 0, m);
    var h' := HistoryStep(s, h, Gc(m));
    SizeAppend(h.lost, Flatten(h.parts[..n]));
    assert h'.lost + Flatten(h'.parts) == h.lost + Flatten(h.parts);
    if n == 0 {
      assert h.parts[..0] == [];
      Nothing();
      assert h'.lost == h.lost;
    }
  }

  /** The payloads that a run appends. */
  function Appended(events: seq<Event>): seq<Bytes>
  {
    if events == [] then []
    else (if events[0].Append? then [events[0].payload] else []) + Appended(events[1..])
  }

  /** A bound on everything the collections were allowed to delete. */
  ghost predicate CollectsUpTo(events: seq<Event>, m: nat)
  {
    forall e :: e in events && e.Gc? ==> e.minRef <= m
  }

  lemma CollectsLess(events: seq<Event>, m: nat)
    requires CollectsUpTo(events, m) && events != []
    ensures CollectsUpTo(events[1..], m) && (events[0].Gc? ==> events[0].minRef <= m)
  {
    assert events[0] in events && forall x :: x in events[1..] ==> x in events;
  }

  lemma AppendedStep(events: seq<Event>, before: seq<Bytes>, after: seq<Bytes>)
    requires events != [] && after == before + if events[0].Append? then [events[0].payload] else []
    ensures after + Appended(events[1..]) == before + Appended(events)
  {
  }

  lemma {:induction false} RunKeepsInv(s: State, h: History, events: seq<Event>, clock: nat, m: nat)
    returns (clock': nat)
    requires Inv(s, h, clock) && Legal(events, clock)
    requires CollectsUpTo(events, m) && Size(h.lost) <= m
    ensures var h' := HistoryRun(s, h, events, clock);
            && Inv(Run(s, events, clock), h', clock')
            && Everything(h') == Everything(h) + Appended(events)
            && Size(h'.lost) <= m
    decreases |events|
  {
    hide Tiled, Frames, Size, Flatten, Inv, CollectsUpTo, Everything;
    if events == [] {
      assert Everything(h) + [] == Everything(h);
      clock' := clock;
    } else {
      var e, rest := events[0], events[1..];
      var next := if e.Rotate? then e.ts + 1 else clock;
      CollectsLess(events, m);
      StepKeepsInv(s, h, clock, e);
      var h1 := HistoryStep(s, h, e);
      clock' := RunKeepsInv(Step(s, e), h1, rest, next, m);
      AppendedStep(events, Everything(h), Everything(h1));
    }
  }

  lemma StepKeepsInv(s: State, h: History, clock: nat, e: Event)
    requires Inv(s, h, clock) && Legal([e], clock)
    ensures var h' := HistoryStep(s, h, e);
            && Inv(Step(s, e), h', if e.Rotate? then e.ts + 1 else clock)
            && Everything(h') == Everything(h) + (if e.Append? then [e.payload] else [])
            && (h'.lost == h.lost || (e.Gc? && Size(h'.lost) <= e.minRef))
  {
    hide Tiled, Frames, Size, Flatten, Inv;
    match e {
      case Append(p) =>
        AppendKeepsInv(s, h, clock, p);
        assert Everything(h.(tail := h.tail + [p])) == Everything(h) + [p];
      case Rotate(ts) =>
        RotateKeepsInv(s, h, clock, ts);
        FlattenSnoc(h.parts, h.tail);
        assert Everything(HistoryStep(s, h, e)) == Everything(h) + [];
      case Gc(m) =>
        GcKeepsInv(s, h, clock, m);
        assert Everything(HistoryStep(s, h, e)) == Everything(h) + [];
    }
  }

  // ---------------------------------------------------------------- sorting the listing

  ghost predicate Increasing(segs: seq<Segment>, since: nat)
  {
    segs != [] ==> since <= segs[0].ts && Increasing(segs[1..], segs[0].ts + 1)
  }

  lemma {:induction false} IncreasingBounds(segs: seq<Segment>, since: nat, x: Segment)
    requires Increasing(segs, since) && x in segs
    ensures since <= x.ts
    ensures x != segs[0] ==> segs[0].ts < x.ts
  {
    if x != segs[0] {
      assert x in segs[1..];
      IncreasingBounds(segs[1..], segs[0].ts + 1, x);
    }
  }

  /** Falling out of line is impossible: the least element of a bag is where both start. */
  lemma {:induction false} IncreasingIsUnique(a: seq<Segment>, b: seq<Segment>, since: nat)
    requires Increasing(a, since) && Increasing(b, since) && multiset(a) == multiset(b)
    ensures a == b
    decreases |a|
  {
    assert |a| == |multiset(a)| == |multiset(b)| == |b|;
    if a != [] {
      SameFirst(a, b, since);
      SameRest(a, b);
      IncreasingIsUnique(a[1..], b[1..], a[0].ts + 1);
      assert a == [a[0]] + a[1..] && b == [b[0]] + b[1..];
    }
  }

  lemma SameRest(a: seq<Segment>, b: seq<Segment>)
    requires multiset(a) == multiset(b) && a != [] && b != [] && a[0] == b[0]
    ensures multiset(a[1..]) == multiset(b[1..])
  {
    assert a == [a[0]] + a[1..] && b == [b[0]] + b[1..];
    assert multiset(a[1..]) == multiset(a) - multiset{a[0]};
    assert multiset(b[1..]) == multiset(b) - multiset{b[0]};
  }

  lemma SameFirst(a: seq<Segment>, b: seq<Segment>, since: nat)
    requires Increasing(a, since) && Increasing(b, since) && multiset(a) == multiset(b) && a != [] && b != []
    ensures a[0] == b[0]
  {
    hide Increasing;
    assert a[0] in multiset(b) && a[0] in b;
    assert b[0] in multiset(a) && b[0] in a;
    IncreasingBounds(a, since, b[0]);
    IncreasingBounds(b, since, a[0]);
  }

  /** Time stamps that differ pairwise. */
  ghost predicate DistinctTs(segs: seq<Segment>)
  {
    forall x :: x in segs ==> multiset(segs)[x] == 1 && forall y :: y in segs && x != y ==> x.ts != y.ts
  }

  lemma {:induction false} InsertIncreasing(x: Segment, sorted: seq<Segment>, since: nat)
    requires Increasing(sorted, since) && since <= x.ts && forall y :: y in sorted ==> y.ts != x.ts
    ensures Increasing(InsertByTs(x, sorted), since)
  {
    hide InsertByTs;
    InsertUnfold(x, sorted);
    if sorted == [] {
      IncreasingCons(x, [], since);
    } else if x.ts <= sorted[0].ts {
      assert sorted[0] in sorted;
      IncreasingCons(x, sorted, since);
    } else {
      assert forall y :: y in sorted[1..] ==> y in sorted;
      InsertIncreasing(x, sorted[1..], sorted[0].ts + 1);
      IncreasingCons(sorted[0], InsertByTs(x, sorted[1..]), since);
    }
  }

  lemma InsertUnfold(x: Segment, sorted: seq<Segment>)
    ensures InsertByTs(x, sorted) ==
            if sorted == [] then [x] + []
            else if x.ts <= sorted[0].ts then [x] + sorted
            else [sorted[0]] + InsertByTs(x, sorted[1..])
  {
  }

  lemma IncreasingCons(x: Segment, rest: seq<Segment>, since: nat)
    requires since <= x.ts && Increasing(rest, 0) && (rest != [] ==> x.ts < rest[0].ts)
    ensures Increasing([x] + rest, since)
  {
    assert ([x] + rest)[1..] == rest;
  }

  lemma {:induction false} SortIsIncreasing(listing: seq<Segment>)
    requires DistinctTs(listing)
    ensures Increasing(SortByTs(listing), 0)
  {
    if listing != [] {
      var x, rest := listing[0], listing[1..];
      assert listing == [x] + rest;
      assert multiset(listing) == multiset{x} + multiset(rest);
      forall y | y in rest
        ensures y in listing && multiset(rest)[y] == 1 && y.ts != x.ts
      {
        assert y in multiset(rest);
        assert multiset(listing)[y] == 1;
      }
      SortIsIncreasing(rest);
      forall y | y in SortByTs(rest)
        ensures y.ts != x.ts
      {
        assert y in multiset(SortByTs(rest));
      }
      InsertIncreasing(x, SortByTs(rest), 0);
    }
  }

  lemma {:induction false} IncreasingDistinct(segs: seq<Segment>, since: nat)
    requires Increasing(segs, since)
    ensures DistinctTs(segs)
  {
    if segs != [] {
      assert segs == [segs[0]] + segs[1..];
      IncreasingDistinct(segs[1..], segs[0].ts + 1);
      forall x | x in segs[1..]
        ensures segs[0].ts < x.ts
      {
        IncreasingBounds(segs[1..], segs[0].ts + 1, x);
      }
      assert multiset(segs) == multiset{segs[0]} + multiset(segs[1..]);
      assert segs[0] !in multiset(segs[1..]);
    }
  }

  lemma DistinctOfMultiset(a: seq<Segment>, b: seq<Segment>)
    requires DistinctTs(a) && multiset(a) == multiset(b)
    ensures DistinctTs(b)
  {
    forall x | x in b
      ensures multiset(b)[x] == 1 && x in a
    {
      assert x in multiset(a);
    }
  }

  /** In whatever order the directory lists the files, the scans read them chronologically. */
  lemma SortRestoresOrder(segs: seq<Segment>, listing: seq<Segment>)
    requires Increasing(segs, 0) && multiset(listing) == multiset(segs)
    ensures SortByTs(listing) == segs
  {
    IncreasingDistinct(segs, 0);
    DistinctOfMultiset(segs, listing);
    SortIsIncreasing(listing);
    IncreasingIsUnique(SortByTs(listing), segs, 0);
  }

  lemma {:induction false} TiledIncreasing(segs: seq<Segment>, index: Index, parts: seq<seq<Bytes>>, base: nat,
                                           since: nat)
    requires Tiled(segs, index, parts, base, since)
    ensures Increasing(segs, since)
    decreases |segs|
  {
    if segs != [] {
      TiledIncreasing(segs[1..], index, parts[1..], segs[0].named, segs[0].ts + 1);
    }
  }

  // ---------------------------------------------------------------- the scans are the log

  lemma {:induction false} TiledRecs(segs: seq<Segment>, index: Index, parts: seq<seq<Bytes>>, base: nat, since: nat,
                                     acc: nat)
    requires Tiled(segs, index, parts, base, since) && acc <= base
    ensures SegmentRecs(segs, index, acc) == Layout(Flatten(parts), base)
    ensures AccAfterAll(segs, index, acc) <= base + Size(Flatten(parts))
    decreases |segs|
  {
    TiledUnfold(segs, index, parts, base, since);
    if segs != [] {
      var f, p := segs[0], parts[0];
      assert Tile(f, index, p, base, since);
      RecsOfTile(f, segs[1..], index, p, parts[1..], base, since, acc);
      assert segs == [f] + segs[1..] && parts == [p] + parts[1..];
      hide Tile, Frames, Scan, Shift, Layout, Size, Flatten, Tiled, SegmentRecs, AccAfterAll;
      TiledRecs(segs[1..], index, parts[1..], f.named, f.ts + 1, AccAfter(f, index, acc));
    }
  }

  lemma RecsOfTile(f: Segment, segs: seq<Segment>, index: Index, p: seq<Bytes>, parts: seq<seq<Bytes>>, base: nat,
                   since: nat, acc: nat)
    requires Tile(f, index, p, base, since) && acc <= base
    ensures SegmentRecs([f] + segs, index, acc) ==
            Layout(p, base) + SegmentRecs(segs, index, AccAfter(f, index, acc))
    ensures AccAfterAll([f] + segs, index, acc) == AccAfterAll(segs, index, AccAfter(f, index, acc))
    ensures AccAfter(f, index, acc) <= f.named
    ensures Layout(Flatten([p] + parts), base) == Layout(p, base) + Layout(Flatten(parts), f.named)
  {
    hide Frames, Scan, Shift, Layout, Size, Flatten, SegmentRecs, AccAfterAll, BaseOf, AccAfter;
    SegmentsUnfold(f, segs, index, acc);
    SizeCons(p, parts);
    TileBase(f, index, p, base, since, acc);
    ScanWholeFile(p);
    ShiftLayout(p, 0, base);
    LayoutAppend(p, Flatten(parts), base);
  }

  lemma TileBase(f: Segment, index: Index, p: seq<Bytes>, base: nat, since: nat, acc: nat)
    requires Tile(f, index, p, base, since) && acc <= base
    ensures BaseOf(f, index, acc) == base && AccAfter(f, index, acc) == f.named
  {
  }

  lemma SegmentsUnfold(f: Segment, segs: seq<Segment>, index: Index, acc: nat)
    ensures SegmentRecs([f] + segs, index, acc) ==
            Shift(Scan(f.bytes, 0), BaseOf(f, index, acc)) + SegmentRecs(segs, index, AccAfter(f, index, acc))
    ensures AccAfterAll([f] + segs, index, acc) == AccAfterAll(segs, index, AccAfter(f, index, acc))
  {
    hide Scan, Shift, BaseOf, AccAfter;
    assert ([f] + segs)[1..] == segs;
  }

  /** Everything that was not collected, in append order, at its true offsets. */
  lemma ScanIsTheLog(s: State, h: History, clock: nat, listing: seq<Segment>)
    requires Inv(s, h, clock) && multiset(listing) == multiset(s.segments)
    ensures AllRecs(s, listing) == Layout(Flatten(h.parts) + h.tail, Size(h.lost))
  {
    hide Frames, Scan, Tiled, Shift, SegmentRecs, AccAfterAll, Layout, Size;
    TiledIncreasing(s.segments, s.index, h.parts, Size(h.lost), 0);
    SortRestoresOrder(s.segments, listing);
    TiledRecs(s.segments, s.index, h.parts, Size(h.lost), 0, 0);
    SizeAppend(h.lost, Flatten(h.parts));
    ScanWholeFile(h.tail);
    ShiftLayout(h.tail, 0, s.globalBase);
    LayoutAppend(Flatten(h.parts), h.tail, Size(h.lost));
  }

  lemma {:induction false} AfterSkips(ps: seq<Bytes>, pos: nat, m: nat)
    requires pos + Size(ps) <= m
    ensures After(Layout(ps, pos), Some(m)) == []
    decreases |ps|
  {
    if ps != [] {
      AfterSkips(ps[1..], pos + |ps[0]| + 2 * HEADER_SIZE, m);
    }
  }

  /** Main result. After any history of appends, rotations and collections, whatever order
      the directory lists its files in: the log ends at `currentEndOffset()`, and a scan from
      `m` on yields exactly the appended records that end after `m`, in append order and
      without a gap, provided no collection was told to go beyond `m`. */
  lemma ScanAfterRun(events: seq<Event>, listing: seq<Segment>, m: nat)
    requires Legal(events, 0) && CollectsUpTo(events, m)
    requires multiset(listing) == multiset(Run(New(), events, 0).segments)
    ensures EndOffset(Run(New(), events, 0)) == Size(Appended(events))
    ensures After(AllRecs(Run(New(), events, 0), listing), Some(m)) == After(Layout(Appended(events), 0), Some(m))
  {
    hide Frames, Scan, Tiled, Shift, After, AllRecs, Layout, Size;
    var h0 := History([], [], []);
    Nothing();
    assert Tiled([], map[], [], 0, 0) by { EmptyTiled(); }
    assert [] + Flatten([]) == [];
    var clock := RunKeepsInv(New(), h0, events, 0, m);
    var s, h := Run(New(), events, 0), HistoryRun(New(), h0, events, 0);
    assert Everything(h0) + Appended(events) == Appended(events);
    ScanIsTheLog(s, h, clock, listing);
    var rest := Flatten(h.parts) + h.tail;
    assert Appended(events) == h.lost + rest;
    LayoutAppend(h.lost, rest, 0);
    AfterSkips(h.lost, 0, m);
    AfterConcat(Layout(h.lost, 0), Layout(rest, Size(h.lost)), Some(m));
    RotateKeepsInv(s, h, clock, clock);
  }

  lemma EmptyTiled()
    ensures Tiled([], map[], [], 0, 0)
  {
  }

  /** What a collection takes out of the history. */
  lemma GcParts(s: State, h: History, clock: nat, m: nat) returns (gone: seq<Bytes>)
    requires Inv(s, h, clock)
    ensures var h' := HistoryStep(s, h, Gc(m));
            && h'.lost == h.lost + gone && h'.tail == h.tail
            && Flatten(h.parts) == gone + Flatten(h'.parts)
            && (gone == [] || Size(h'.lost) <= m)
  {
    hide Frames, Tiled, Size, Flatten, Survivors, Removed;
    var n := SurvivorsAreTiled(s.segments, s.index, h.parts, Size(h.lost), 0, m);
    gone := Flatten(h.parts[..n]);
    SizeAppend(h.lost, gone);
    if n == 0 {
      assert h.parts[..0] == [];
      Nothing();
    }
  }

  /** One collection in the middle: deleting every segment named at most `m` leaves the scan
      from any `k >= m` unchanged, in any reachable state. */
  lemma CollectionIsInvisible(s: State, h: History, clock: nat, m: nat, k: nat,
                              listing: seq<Segment>, listing': seq<Segment>)
    requires Inv(s, h, clock) && m <= k
    requires multiset(listing) == multiset(s.segments)
    requires multiset(listing') == multiset(Survivors(s.segments, m))
    ensures After(AllRecs(s, listing), Some(k)) == After(AllRecs(Step(s, Gc(m)), listing'), Some(k))
  {
    hide Frames, Scan, Tiled, Shift, After, AllRecs, Layout, Size, Flatten, Inv, HistoryStep, Survivors;
    var h' := HistoryStep(s, h, Gc(m));
    GcKeepsInv(s, h, clock, m);
    ScanIsTheLog(s, h, clock, listing);
    ScanIsTheLog(Step(s, Gc(m)), h', clock, listing');
    var gone := GcParts(s, h, clock, m);
    var rest := Flatten(h'.parts) + h.tail;
    assert Flatten(h.parts) + h.tail == gone + rest;
    SizeAppend(h.lost, gone);
    if gone == [] {
      assert gone + rest == rest && h'.lost == h.lost;
    } else {
      LayoutAppend(gone, rest, Size(h.lost));
      AfterSkips(gone, Size(h.lost), k);
      AfterConcat(Layout(gone, Size(h.lost)), Layout(rest, Size(h'.lost)), Some(k));
    }
  }
}
