/** The record format of the write-ahead log (`libs/wal/wall.ts`, `libs/wal/handoff_wal.ts`)
    and the scans of one file, forward and backward, over whatever bytes the file holds. */
module WalFrames {
  import opened Bytes
  import opened Checksum

  const HEADER_SIZE: nat := 12
  const HEADER_LEN_OFFSET: nat := 4
  const HEADER_CKS_OFFSET: nat := 8

  /** A payload whose length fits the header field. */
  predicate Fits(p: Bytes)
  {
    |p| < TWO32
  }

  predicate AllFit(ps: seq<Bytes>)
  {
    forall i :: 0 <= i < |ps| ==> Fits(ps[i])
  }

  // ---------------------------------------------------------------- writing

  /** Version, type, two reserved bytes, payload length, Adler-32 of the payload. */
  function Header(p: Bytes): (r: Bytes)
    requires Fits(p)
    ensures |r| == HEADER_SIZE
  {
    [1, 0, 0, 0] + U32(|p|) + U32(Adler32(p))
  }

  /** Header, payload, and a trailer equal to the header. */
  function Frame(p: Bytes): (r: Bytes)
    requires Fits(p)
    ensures |r| == |p| + 2 * HEADER_SIZE
  {
    Header(p) + p + Header(p)
  }

  function Frames(ps: seq<Bytes>): Bytes
    requires AllFit(ps)
  {
    if ps == [] then [] else Frame(ps[0]) + Frames(ps[1..])
  }

  /** What `append` gives to the file system. */
  method EncodeFrame(payload: Bytes) returns (frame: Bytes)
    requires Fits(payload)
    ensures frame == Frame(payload)
  {
    var cks := ComputeAdler32(payload);
    var header := [1, 0, 0, 0] + U32(|payload|) + U32(cks);
    frame := header + payload + header;
  }

  // ---------------------------------------------------------------- reading one frame

  datatype Parsed = Parsed(payload: Bytes, next: nat)

  /** The two integer fields of the header or trailer at `pos`. */
  function Fields(buf: Bytes, pos: nat): (r: (int, int))
    requires pos + HEADER_SIZE <= |buf|
    ensures 0 <= r.0 < TWO32
  {
    (ReadU32(buf, pos + HEADER_LEN_OFFSET).value, ReadU32(buf, pos + HEADER_CKS_OFFSET).value)
  }

  /** One turn of the forward scan; `next` is the position after the trailer. */
  function ParseForward(buf: Bytes, cursor: nat): (r: Option<Parsed>)
    ensures r.Some? ==> cursor + 2 * HEADER_SIZE <= r.value.next <= |buf|
  {
    if cursor + 2 * HEADER_SIZE > |buf| then None
    else
      var (len, cks) := Fields(buf, cursor);
      var end := cursor + HEADER_SIZE + len + HEADER_SIZE;
      if end > |buf| then None
      else
        var data := buf[cursor + HEADER_SIZE..cursor + HEADER_SIZE + len];
        if Fields(buf, end - HEADER_SIZE) != (len, cks) || Adler32(data) != cks then None
        else Some(Parsed(data, end))
  }

  /** One turn of the backward scan; `next` is the start of the frame that ends at `cursor`. */
  function ParseBackward(buf: Bytes, cursor: nat): (r: Option<Parsed>)
    requires cursor <= |buf|
    ensures r.Some? ==> r.value.next + 2 * HEADER_SIZE <= cursor
  {
    if cursor < HEADER_SIZE then None
    else
      var tpos := cursor - HEADER_SIZE;
      var (len, cks) := Fields(buf, tpos);
      var payloadPos := tpos - len;
      if payloadPos < HEADER_SIZE then None
      else
        var data := buf[payloadPos..tpos];
        if Fields(buf, payloadPos - HEADER_SIZE) != (len, cks) || Adler32(data) != cks then None
        else Some(Parsed(data, payloadPos - HEADER_SIZE))
  }

  lemma HeaderFields(buf: Bytes, pos: nat, p: Bytes)
    requires Fits(p) && At(buf, pos, Header(p))
    ensures Fields(buf, pos) == (|p|, Adler32(p))
  {
    AtConcat(buf, pos, [1, 0, 0, 0] + U32(|p|), U32(Adler32(p)));
    AtConcat(buf, pos, [1, 0, 0, 0], U32(|p|));
    ReadU32Written(buf, pos + 4, |p|);
    ReadU32Written(buf, pos + 8, Adler32(p));
  }

  lemma FrameParts(buf: Bytes, pos: nat, p: Bytes)
    requires Fits(p) && At(buf, pos, Frame(p))
    ensures At(buf, pos, Header(p)) && At(buf, pos + HEADER_SIZE, p)
    ensures At(buf, pos + HEADER_SIZE + |p|, Header(p))
  {
    AtConcat(buf, pos, Header(p) + p, Header(p));
    AtConcat(buf, pos, Header(p), p);
  }

  /** A written frame is read back from either end. */
  lemma FrameParses(buf: Bytes, pos: nat, p: Bytes)
    requires Fits(p) && At(buf, pos, Frame(p))
    ensures ParseForward(buf, pos) == Some(Parsed(p, pos + |Frame(p)|))
    ensures ParseBackward(buf, pos + |Frame(p)|) == Some(Parsed(p, pos))
  {
    hide Adler32, Header, ReadU32, Fields;
    FrameParts(buf, pos, p);
    HeaderFields(buf, pos, p);
    HeaderFields(buf, pos + HEADER_SIZE + |p|, p);
  }

  // ---------------------------------------------------------------- forward scan of a file

  /** A record with its byte range in the file. */
  datatype Rec = Rec(payload: Bytes, start: nat, end: nat)

  function Scan(buf: Bytes, cursor: nat): seq<Rec>
    decreases |buf| - cursor
  {
    var r := ParseForward(buf, cursor);
    if r == None then []
    else [Rec(r.value.payload, cursor, r.value.next)] + Scan(buf, r.value.next)
  }

  /** The body of the scan loops: reads one frame; `None` is their `break`. */
  method ReadFrame(buf: Bytes, cursor: nat) returns (r: Option<Parsed>)
    ensures r == ParseForward(buf, cursor)
  {
    if cursor + 2 * HEADER_SIZE > |buf| {
      return None;
    }
    var (len, cks) := Fields(buf, cursor);
    var total := len + HEADER_SIZE;
    if cursor + HEADER_SIZE + total > |buf| {
      return None;
    }
    var data := buf[cursor + HEADER_SIZE..cursor + HEADER_SIZE + len];
    var (tlen, tcks) := Fields(buf, cursor + HEADER_SIZE + len);
    if tlen != len || tcks != cks {
      return None;
    }
    var sum := ComputeAdler32(data);
    if sum != cks {
      return None;
    }
    return Some(Parsed(data, cursor + HEADER_SIZE + len + HEADER_SIZE));
  }

  /** The inner loop of `scanBuffered` and `scanWithOffsets` for one file: records that end
      at or before `minOffset`, counted from the start of the log, are passed over. */
  method ScanFile(buf: Bytes, fileBase: nat, minOffset: Option<nat>) returns (out: seq<Rec>)
    ensures out == After(Shift(Scan(buf, 0), fileBase), minOffset)
  {
    hide ParseForward, Scan, Shift, After;
    out := [];
    var cursor := 0;
    while true
      invariant cursor <= |buf|
      invariant out + After(Shift(Scan(buf, cursor), fileBase), minOffset) ==
                After(Shift(Scan(buf, 0), fileBase), minOffset)
      decreases |buf| - cursor
    {
      ScanUnfold(buf, cursor);
      var r := ReadFrame(buf, cursor);
      if r == None {
        AfterShiftUnfold(Rec([], 0, 0), [], fileBase, minOffset);
        break;
      }
      AfterShiftUnfold(Rec(r.value.payload, cursor, r.value.next), Scan(buf, r.value.next), fileBase, minOffset);
      var start := cursor;
      cursor := r.value.next;
      if minOffset.Some? && fileBase + cursor <= minOffset.value {
        continue;
      }
      out := out + [Rec(r.value.payload, fileBase + start, fileBase + cursor)];
    }
  }

  function Shift(rs: seq<Rec>, base: nat): (r: seq<Rec>)
    ensures |r| == |rs|
    ensures forall i :: 0 <= i < |r| ==> r[i] == Rec(rs[i].payload, base + rs[i].start, base + rs[i].end)
  {
    if rs == [] then []
    else [Rec(rs[0].payload, base + rs[0].start, base + rs[0].end)] + Shift(rs[1..], base)
  }

  /** The records that end after `m`; all of them without a bound. */
  function After(rs: seq<Rec>, m: Option<nat>): seq<Rec>
  {
    if rs == [] then []
    else if m.Some? && rs[0].end <= m.value then After(rs[1..], m)
    else [rs[0]] + After(rs[1..], m)
  }

  lemma ScanUnfold(buf: Bytes, cursor: nat)
    ensures var r := ParseForward(buf, cursor);
            && (r == None ==> Scan(buf, cursor) == [])
            && (r.Some? ==>
                  Scan(buf, cursor) == [Rec(r.value.payload, cursor, r.value.next)] + Scan(buf, r.value.next))
  {
    hide ParseForward;
  }

  lemma AfterShiftUnfold(r: Rec, rs: seq<Rec>, base: nat, m: Option<nat>)
    ensures var rest := After(Shift(rs, base), m);
            After(Shift([r] + rs, base), m) ==
            if m.Some? && base + r.end <= m.value then rest
            else [Rec(r.payload, base + r.start, base + r.end)] + rest
    ensures After(Shift([], base), m) == []
  {
    assert ([r] + rs)[1..] == rs;
    var head := Rec(r.payload, base + r.start, base + r.end);
    assert Shift([r] + rs, base) == [head] + Shift(rs, base);
    assert ([head] + Shift(rs, base))[1..] == Shift(rs, base);
  }

  /** The records of frames written one after the other from `pos` on. */
  function Layout(ps: seq<Bytes>, pos: nat): (r: seq<Rec>)
    ensures |r| == |ps|
  {
    if ps == [] then []
    else
      var end := pos + |ps[0]| + 2 * HEADER_SIZE;
      [Rec(ps[0], pos, end)] + Layout(ps[1..], end)
  }

  lemma ScanFrame(buf: Bytes, pos: nat, p: Bytes)
    requires Fits(p) && At(buf, pos, Frame(p))
    ensures Scan(buf, pos) ==
            [Rec(p, pos, pos + |p| + 2 * HEADER_SIZE)] + Scan(buf, pos + |p| + 2 * HEADER_SIZE)
  {
    hide ParseForward, ParseBackward, Frame;
    FrameParses(buf, pos, p);
    ScanUnfold(buf, pos);
  }

  lemma {:induction false} AssocCons(r: Rec, a: seq<Rec>, b: seq<Rec>)
    ensures [r] + (a + b) == ([r] + a) + b
  {
  }

  /** Scanning passes over written frames one by one, whatever follows them. */
  lemma {:induction false} ScanWritten(buf: Bytes, pos: nat, ps: seq<Bytes>)
    requires AllFit(ps) && At(buf, pos, Frames(ps))
    ensures Scan(buf, pos) == Layout(ps, pos) + Scan(buf, pos + |Frames(ps)|)
    decreases |ps|
  {
    hide Frame, Scan;
    if ps != [] {
      var p, rest := ps[0], ps[1..];
      AtConcat(buf, pos, Frame(p), Frames(rest));
      var end := pos + |Frame(p)|;
      ScanFrame(buf, pos, p);
      ScanWritten(buf, end, rest);
      AssocCons(Rec(p, pos, end), Layout(rest, end), Scan(buf, end + |Frames(rest)|));
    }
  }

  /** At the end of a file there is nothing more to read. */
  lemma ScanAtEnd(buf: Bytes)
    ensures Scan(buf, |buf|) == []
  {
  }

  lemma ScanWholeFile(ps: seq<Bytes>)
    requires AllFit(ps)
    ensures Scan(Frames(ps), 0) == Layout(ps, 0)
  {
    hide Frames, Layout;
    ScanWritten(Frames(ps), 0, ps);
  }

  // ---------------------------------------------------------------- a file cut anywhere

  /** How many of the frames lie wholly within the first `cut` bytes. */
  function WholeBefore(ps: seq<Bytes>, cut: int): (n: nat)
    ensures n <= |ps|
    decreases |ps|
  {
    if ps == [] || |ps[0]| + 2 * HEADER_SIZE > cut then 0
    else 1 + WholeBefore(ps[1..], cut - |ps[0]| - 2 * HEADER_SIZE)
  }

  /** Less than a frame, but with its first bytes right, is not taken for a frame. */
  lemma PartialFrameStops(buf: Bytes, pos: nat, p: Bytes)
    requires Fits(p) && pos <= |buf| < pos + |Frame(p)| && buf[pos..] <= Frame(p)
    ensures Scan(buf, pos) == []
  {
    if pos + 2 * HEADER_SIZE <= |buf| {
      assert buf[pos..pos + HEADER_SIZE] == Frame(p)[..HEADER_SIZE] == Header(p);
      HeaderFields(buf, pos, p);
    }
  }

  /** Splitting the first frame off a cut sequence of frames. */
  lemma CutFirst(buf: Bytes, pos: nat, f: Bytes, rest: Bytes)
    requires pos <= |buf| && buf[pos..] <= f + rest
    ensures |buf| - pos < |f| ==> buf[pos..] <= f
    ensures |buf| - pos >= |f| ==> At(buf, pos, f) && buf[pos + |f|..] <= rest
  {
    var tail := buf[pos..];
    if |tail| >= |f| {
      assert buf[pos..pos + |f|] == tail[..|f|] == (f + rest)[..|f|];
      assert buf[pos + |f|..] == tail[|f|..];
      assert (f + rest)[|f|..] == rest;
    }
  }

  lemma {:induction false} CutScan(buf: Bytes, pos: nat, ps: seq<Bytes>)
    requires AllFit(ps) && pos <= |buf| && buf[pos..] <= Frames(ps)
    ensures Scan(buf, pos) == Layout(ps[..WholeBefore(ps, |buf| - pos)], pos)
    decreases |ps|
  {
    hide Frame, Scan;
    if ps == [] {
      assert pos == |buf|;
      ScanAtEnd(buf);
    } else {
      var p, rest := ps[0], ps[1..];
      var end := pos + |Frame(p)|;
      CutFirst(buf, pos, Frame(p), Frames(rest));
      if |buf| - pos < |Frame(p)| {
        PartialFrameStops(buf, pos, p);
      } else {
        ScanFrame(buf, pos, p);
        CutScan(buf, end, rest);
        var n := WholeBefore(ps, |buf| - pos);
        assert ps[..n][1..] == rest[..n - 1];
      }
    }
  }

  /** A file of frames cut at any byte yields exactly the frames wholly before the cut. */
  lemma CutYieldsWholeFrames(ps: seq<Bytes>, cut: nat)
    requires AllFit(ps) && cut <= |Frames(ps)|
    ensures Scan(Frames(ps)[..cut], 0) == Layout(ps[..WholeBefore(ps, cut)], 0)
  {
    CutScan(Frames(ps)[..cut], 0, ps);
  }

  lemma {:induction false} WholeBeforeIsMaximal(ps: seq<Bytes>, cut: nat)
    requires AllFit(ps)
    ensures var n := WholeBefore(ps, cut);
            && |Frames(ps[..n])| <= cut
            && (n < |ps| ==> cut < |Frames(ps[..n + 1])|)
    decreases |ps|
  {
    hide Frame;
    if ps != [] {
      var f := |ps[0]| + 2 * HEADER_SIZE;
      if f <= cut {
        WholeBeforeIsMaximal(ps[1..], cut - f);
        var n := WholeBefore(ps, cut);
        assert ps[..n][1..] == ps[1..][..n - 1];
        assert n < |ps| ==> ps[..n + 1][1..] == ps[1..][..n];
      } else {
        assert ps[..1][1..] == [];
      }
    }
  }

  // ---------------------------------------------------------------- a damaged payload

  /** The frame of `p` with one payload byte replaced. */
  function DamagedFrame(p: Bytes, j: nat, x: Byte): Bytes
    requires Fits(p) && j < |p|
  {
    Header(p) + p[j := x] + Header(p)
  }

  lemma DamagedFrameStops(buf: Bytes, pos: nat, p: Bytes, j: nat, x: Byte)
    requires Fits(p) && j < |p| && x != p[j] && At(buf, pos, DamagedFrame(p, j, x))
    ensures Scan(buf, pos) == []
  {
    hide Adler32, ReadU32, Fields, Header;
    var q := p[j := x];
    AtConcat(buf, pos, Header(p) + q, Header(p));
    AtConcat(buf, pos, Header(p), q);
    HeaderFields(buf, pos, p);
    AdlerDetectsByteChange(p, j, x);
    assert buf[pos + HEADER_SIZE..pos + HEADER_SIZE + |p|] == q;
  }

  /** One changed payload byte: the scan yields the frames before the damaged one and stops. */
  lemma DamageStopsScan(before: seq<Bytes>, p: Bytes, after: seq<Bytes>, j: nat, x: Byte)
    requires AllFit(before) && Fits(p) && AllFit(after) && j < |p| && x != p[j]
    ensures Scan(Frames(before) + DamagedFrame(p, j, x) + Frames(after), 0) == Layout(before, 0)
  {
    hide ParseForward, Frame, DamagedFrame;
    var f, d := Frames(before), DamagedFrame(p, j, x);
    var buf := f + d + Frames(after);
    assert At(buf, 0, f) && At(buf, |f|, d);
    ScanWritten(buf, 0, before);
    DamagedFrameStops(buf, |f|, p, j, x);
  }

  // ---------------------------------------------------------------- backward scan of a file

  function ScanBack(buf: Bytes, cursor: nat): seq<Bytes>
    requires cursor <= |buf|
    decreases cursor
  {
    var r := ParseBackward(buf, cursor);
    if r == None then [] else [r.value.payload] + ScanBack(buf, r.value.next)
  }

  method ReadFrameBack(buf: Bytes, cursor: nat) returns (r: Option<Parsed>)
    requires cursor <= |buf|
    ensures r == ParseBackward(buf, cursor)
  {
    if cursor < HEADER_SIZE {
      return None;
    }
    var tpos := cursor - HEADER_SIZE;
    var (len, cks) := Fields(buf, tpos);
    var payloadPos := tpos - len;
    if payloadPos < HEADER_SIZE {
      return None;
    }
    var headerPos := payloadPos - HEADER_SIZE;
    var (hlen, hcks) := Fields(buf, headerPos);
    if hlen != len || hcks != cks {
      return None;
    }
    var data := buf[payloadPos..payloadPos + len];
    var sum := ComputeAdler32(data);
    if sum != cks {
      return None;
    }
    return Some(Parsed(data, headerPos));
  }

  /** The inner loop of `reverseScan` and `reverseScanBuffered` for one file. */
  method ReverseScanFile(buf: Bytes) returns (out: seq<Bytes>)
    ensures out == ScanBack(buf, |buf|)
  {
    hide ParseBackward;
    out := [];
    var cursor := |buf|;
    while true
      invariant 0 <= cursor <= |buf|
      invariant out + ScanBack(buf, cursor) == ScanBack(buf, |buf|)
      decreases cursor
    {
      var r := ReadFrameBack(buf, cursor);
      if r == None {
        break;
      }
      cursor := r.value.next;
      out := out + [r.value.payload];
    }
  }

  function Reverse<T>(s: seq<T>): (r: seq<T>)
    ensures |r| == |s|
    ensures forall i :: 0 <= i < |s| ==> r[i] == s[|s| - 1 - i]
  {
    if s == [] then [] else Reverse(s[1..]) + [s[0]]
  }

  lemma FramesSnoc(ps: seq<Bytes>, p: Bytes)
    requires AllFit(ps) && Fits(p)
    ensures Frames(ps + [p]) == Frames(ps) + Frame(p)
    decreases |ps|
  {
    if ps == [] {
      assert (ps + [p])[1..] == [];
    } else {
      assert (ps + [p])[1..] == ps[1..] + [p];
      FramesSnoc(ps[1..], p);
    }
  }

  lemma {:induction false} ReverseSnoc<T>(s: seq<T>, x: T)
    ensures Reverse(s + [x]) == [x] + Reverse(s)
  {
    if s == [] {
      assert (s + [x])[1..] == [];
    } else {
      assert (s + [x])[1..] == s[1..] + [x];
      ReverseSnoc(s[1..], x);
    }
  }

  /** On an uncut file the backward scan is the exact reversal. */
  lemma {:induction false} ScanBackReverses(buf: Bytes, ps: seq<Bytes>)
    requires AllFit(ps) && At(buf, 0, Frames(ps))
    ensures ScanBack(buf, |Frames(ps)|) == Reverse(ps)
    decreases |ps|
  {
    hide ParseBackward, ParseForward, Frame, Reverse;
    if ps == [] {
      EmptyScans(buf);
    } else {
      var init, last := ps[..|ps| - 1], ps[|ps| - 1];
      assert ps == init + [last];
      FramesSnoc(init, last);
      AtConcat(buf, 0, Frames(init), Frame(last));
      FrameParses(buf, |Frames(init)|, last);
      ScanBackReverses(buf, init);
      ReverseSnoc(init, last);
    }
  }

  lemma EmptyScans(buf: Bytes)
    ensures ScanBack(buf, 0) == [] && Reverse<Bytes>([]) == []
  {
  }
}
