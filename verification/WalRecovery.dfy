/** `recoverTail` of `libs/wal/wall.ts` and `libs/wal/handoff_wal.ts`: where `open` cuts the
    active file after a crash. */
module WalRecovery {
  import opened Bytes
  import opened Checksum
  import opened WalFrames

  const MAX_ENTRIES_TO_CHECK: nat := 4096
  const MAX_BYTES_TO_CHECK: nat := 1024 * 1024
  const MAX_TRAILER_SEARCH: nat := 4096

  /** The bytes before `end` finish with a trailer that matches its header and checksum. */
  predicate ValidEnd(file: Bytes, end: nat)
  {
    end <= |file| && ParseBackward(file, end).Some?
  }

  // ---------------------------------------------------------------- the function

  /** The first loop: the last valid end among the positions from `low` to `end`. */
  function FindEnd(file: Bytes, end: int, low: nat): (r: Option<nat>)
    requires end <= |file|
    ensures r.Some? ==> low <= r.value <= end && ValidEnd(file, r.value)
    ensures forall e :: low <= e <= end && (r == None || r.value < e) ==> !ValidEnd(file, e)
    decreases end
  {
    if end < low then None
    else if ValidEnd(file, end) then Some(end)
    else FindEnd(file, end - 1, low)
  }

  /** The second loop. Its cursor is meant to be the start of a trailer; after the first
      loop it is the trailer's start less one more header. */
  function Walk(file: Bytes, cursor: int, lastGood: nat, entries: nat, bytes: nat): (r: nat)
    requires lastGood <= |file| && cursor + HEADER_SIZE <= |file|
    ensures r <= |file| && (r == lastGood || ValidEnd(file, r))
    decreases cursor
  {
    if cursor < HEADER_SIZE || entries >= MAX_ENTRIES_TO_CHECK || bytes >= MAX_BYTES_TO_CHECK then lastGood
    else
      var r := ParseBackward(file, cursor + HEADER_SIZE);
      if r == None then lastGood
      else Walk(file, r.value.next - HEADER_SIZE, cursor + HEADER_SIZE,
                entries + 1, bytes + 2 * HEADER_SIZE + |r.value.payload|)
  }

  /** The lowest end the first loop tries. */
  function SearchLow(size: nat): nat
  {
    if size > HEADER_SIZE + MAX_TRAILER_SEARCH then size - MAX_TRAILER_SEARCH else HEADER_SIZE
  }

  /** The length `recoverTail` leaves. */
  function RecoveredSize(file: Bytes): (r: nat)
    ensures r <= |file|
  {
    var found := FindEnd(file, |file|, SearchLow(|file|));
    if found == None then |file|
    else Walk(file, found.value - 2 * HEADER_SIZE, found.value, 0, 0)
  }

  // ---------------------------------------------------------------- the method

  method RecoverTail(file: Bytes) returns (kept: Bytes)
    ensures kept == file[..RecoveredSize(file)]
  {
    hide ParseBackward;
    var size := |file|;
    if size == 0 {
      return file;
    }
    var tailStart := if size > HEADER_SIZE + MAX_TRAILER_SEARCH then size - HEADER_SIZE - MAX_TRAILER_SEARCH else 0;
    var candidate := size - HEADER_SIZE;
    var found := false;
    while candidate >= tailStart && !found
      invariant candidate <= size - HEADER_SIZE
      invariant !found ==>
                  FindEnd(file, size, SearchLow(size)) == FindEnd(file, candidate + HEADER_SIZE, SearchLow(size))
      invariant found ==> candidate >= 0 && FindEnd(file, size, SearchLow(size)) == Some(candidate + HEADER_SIZE)
      decreases !found, candidate
    {
      var r := ReadFrameBack(file, candidate + HEADER_SIZE);
      if r.Some? {
        found := true;
      } else {
        candidate := candidate - 1;
      }
    }
    if !found {
      return file;
    }
    var cursor := candidate - HEADER_SIZE;
    var lastGood: nat := candidate + HEADER_SIZE;
    var entriesChecked: nat, bytesChecked: nat := 0, 0;
    while cursor >= HEADER_SIZE && entriesChecked < MAX_ENTRIES_TO_CHECK && bytesChecked < MAX_BYTES_TO_CHECK
      invariant lastGood <= size && cursor + HEADER_SIZE <= size
      invariant Walk(file, cursor, lastGood, entriesChecked, bytesChecked) == RecoveredSize(file)
      decreases cursor
    {
      var r := ReadFrameBack(file, cursor + HEADER_SIZE);
      if r == None {
        break;
      }
      lastGood := cursor + HEADER_SIZE;
      cursor := r.value.next - HEADER_SIZE;
      entriesChecked := entriesChecked + 1;
      bytesChecked := bytesChecked + 2 * HEADER_SIZE + |r.value.payload|;
    }
    return file[..lastGood];
  }

  // ---------------------------------------------------------------- what it guarantees

  /** Whatever the file holds: it is left alone, or cut at the end of a checksum-valid frame. */
  lemma RecoveryCutsAtValidEnd(file: Bytes)
    ensures RecoveredSize(file) == |file| || ValidEnd(file, RecoveredSize(file))
  {
  }

  /** Where the frames of a well-formed prefix end. */
  ghost predicate FrameEnd(ps: seq<Bytes>, e: nat)
    requires AllFit(ps)
  {
    exists n :: 1 <= n <= |ps| && e == |Frames(ps[..n])|
  }

  lemma {:induction false} EndsAreFarApart(ps: seq<Bytes>, n: nat)
    requires AllFit(ps) && n < |ps|
    ensures |Frames(ps[..n])| + 2 * HEADER_SIZE <= |Frames(ps)|
    decreases |ps|
  {
    if n == 0 {
      assert ps[..0] == [];
    } else {
      assert ps[..n][1..] == ps[1..][..n - 1];
      EndsAreFarApart(ps[1..], n - 1);
    }
  }

  lemma LastFrameIsValid(ps: seq<Bytes>, torn: Bytes)
    requires AllFit(ps) && ps != []
    ensures ValidEnd(Frames(ps) + torn, |Frames(ps)|)
  {
    hide ParseBackward, ParseForward, Frame;
    var init, last := ps[..|ps| - 1], ps[|ps| - 1];
    assert ps == init + [last];
    FramesSnoc(init, last);
    var file := Frames(ps) + torn;
    assert At(file, |Frames(init)|, Frame(last));
    FrameParses(file, |Frames(init)|, last);
  }

  lemma {:induction false} EndsAreAtMost(ps: seq<Bytes>, e: nat)
    requires AllFit(ps) && FrameEnd(ps, e)
    ensures e == |Frames(ps)| || e + 2 * HEADER_SIZE <= |Frames(ps)|
  {
    hide Frames;
    var n :| 1 <= n <= |ps| && e == |Frames(ps[..n])|;
    if n < |ps| {
      EndsAreFarApart(ps, n);
    } else {
      SameFrames(ps, n);
    }
  }

  lemma SameFrames(ps: seq<Bytes>, n: nat)
    requires AllFit(ps) && n == |ps|
    ensures AllFit(ps[..n]) && Frames(ps[..n]) == Frames(ps)
  {
    assert ps[..n] == ps;
  }

  /** The walk ends at once if the position it starts from is no frame end. */
  lemma WalkStops(file: Bytes, end: nat)
    requires end <= |file| && (end >= HEADER_SIZE ==> !ValidEnd(file, end - HEADER_SIZE))
    ensures Walk(file, end - 2 * HEADER_SIZE, end, 0, 0) == end
  {
    hide ParseBackward;
  }

  /** Nothing in the search window looks like the end of a frame but ends of frames, and
      neither does the place where the second loop goes on. */
  ghost predicate TrueEnds(ps: seq<Bytes>, torn: Bytes)
    requires AllFit(ps)
  {
    var file := Frames(ps) + torn;
    && (forall e: nat :: SearchLow(|file|) <= e && ValidEnd(file, e) ==> FrameEnd(ps, e))
    && (|Frames(ps)| >= HEADER_SIZE ==> !ValidEnd(file, |Frames(ps)| - HEADER_SIZE))
  }

  /** The guard: there is nothing to cut off, or there is a frame to find within the window. */
  predicate CanBeFound(ps: seq<Bytes>, torn: Bytes)
  {
    torn == [] || (ps != [] && |torn| <= MAX_TRAILER_SEARCH)
  }

  lemma NoneFound(ps: seq<Bytes>, torn: Bytes)
    requires AllFit(ps) && TrueEnds(ps, torn) && !CanBeFound(ps, torn)
    ensures RecoveredSize(Frames(ps) + torn) == |Frames(ps) + torn|
  {
    hide ParseBackward, ParseForward, Frame, Frames, Walk, FindEnd, FrameEnd;
    var file := Frames(ps) + torn;
    forall e: nat | SearchLow(|file|) <= e <= |file|
      ensures !ValidEnd(file, e)
    {
      if ValidEnd(file, e) {
        EndsAreAtMost(ps, e);
        NoFrames(ps, e);
      }
    }
    assert FindEnd(file, |file|, SearchLow(|file|)) == None;
  }

  lemma NoFrames(ps: seq<Bytes>, e: nat)
    requires AllFit(ps) && FrameEnd(ps, e)
    ensures ps != [] && e >= 2 * HEADER_SIZE
  {
    var n :| 1 <= n <= |ps| && e == |Frames(ps[..n])|;
    assert ps[..n] != [];
  }

  /** A torn write is cut off exactly under the guard, and else all of it stays. */
  lemma RecoveryIsExactIff(ps: seq<Bytes>, torn: Bytes)
    requires AllFit(ps) && TrueEnds(ps, torn)
    ensures RecoveredSize(Frames(ps) + torn) == |Frames(ps)| <==> CanBeFound(ps, torn)
    ensures !CanBeFound(ps, torn) ==> RecoveredSize(Frames(ps) + torn) == |Frames(ps) + torn|
  {
    hide ParseBackward, ParseForward, Frame, Frames, Walk, FindEnd, FrameEnd;
    var file := Frames(ps) + torn;
    var end := |Frames(ps)|;
    if !CanBeFound(ps, torn) {
      NoneFound(ps, torn);
    } else if ps == [] {
      NothingToFind(file, ps);
    } else {
      LastFrameIsValid(ps, torn);
      EndsAreFarApart(ps, 0);
      forall e: nat | SearchLow(|file|) <= e && ValidEnd(file, e)
        ensures e <= end
      {
        EndsAreAtMost(ps, e);
      }
      assert FindEnd(file, |file|, SearchLow(|file|)) == Some(end);
      WalkStops(file, end);
    }
  }

  lemma NothingToFind(file: Bytes, ps: seq<Bytes>)
    requires ps == [] && file == Frames(ps) + []
    ensures RecoveredSize(file) == |Frames(ps)|
  {
  }

  /** So under the guard a crash in the middle of an append loses nothing but that append, and
      the log goes on; otherwise the next record is written behind the torn bytes. */
  lemma AppendAfterRecovery(ps: seq<Bytes>, torn: Bytes, next: Bytes)
    requires AllFit(ps) && Fits(next) && TrueEnds(ps, torn)
    ensures var file := Frames(ps) + torn;
            var kept := file[..RecoveredSize(file)];
            && (CanBeFound(ps, torn) ==> Scan(kept + Frame(next), 0) == Layout(ps + [next], 0))
            && (!CanBeFound(ps, torn) ==> kept == Frames(ps) + torn)
  {
    hide ParseForward, ParseBackward, Frame, TrueEnds;
    RecoveryIsExactIff(ps, torn);
    var file := Frames(ps) + torn;
    assert file[..|Frames(ps)|] == Frames(ps) && file[..|file|] == file;
    FramesSnoc(ps, next);
    ScanWholeFile(ps + [next]);
  }

  /** A crash after the first byte of the first record of a file: the byte stays, and what is
      appended behind it is never read again. */
  lemma FirstAppendTorn()
    ensures var torn := Frame([])[..1];
            && TrueEnds([], torn) && !CanBeFound([], torn)
            && RecoveredSize(Frames([]) + torn) == 1
            && Scan(torn + Frame([]), 0) == []
  {
    var torn := Frame([])[..1];
    var file := torn + Frame([]);
    assert Frames([]) + torn == torn;
    assert TrueEnds([], torn);
    RecoveryIsExactIff([], torn);
    MisreadHeader(file);
  }

  /** Shifted by one byte, both fields of the header read zero, which is no checksum. */
  lemma MisreadHeader(file: Bytes)
    requires file == Frame([])[..1] + Frame([])
    ensures Scan(file, 0) == []
  {
    EmptyChecksum();
    var h := Header([]);
    assert Frame([]) == h + [] + h == h + h;
    hide Adler32, SumA, SumB;
    assert h == [1, 0, 0, 0, 0, 0, 0, 0, 0, 0, 0, 1];
    assert file[..13] == [1, 1, 0, 0, 0, 0, 0, 0, 0, 0, 0, 0, 1];
    assert Fields(file, 0) == (0, 0);
    assert ParseForward(file, 0) == None;
  }

  lemma EmptyChecksum()
    ensures Adler32([]) == 1
  {
  }

  // ---------------------------------------------------------------- what it does to a good file

  /** The guard: one header before its end, an undamaged file must not look like a frame end. */
  predicate LooksShorter(file: Bytes)
  {
    |file| >= HEADER_SIZE && ValidEnd(file, |file| - HEADER_SIZE)
  }

  /** A file that needs no recovery is left alone exactly under the guard. */
  lemma IntactFileKeptIff(ps: seq<Bytes>)
    requires AllFit(ps) && ps != []
    ensures RecoveredSize(Frames(ps)) == |Frames(ps)| <==> !LooksShorter(Frames(ps))
  {
    hide Frame, ParseForward, ParseBackward;
    var file := Frames(ps);
    LastFrameIsValid(ps, []);
    assert file + [] == file;
    EndsAreFarApart(ps, 0);
    assert FindEnd(file, |file|, SearchLow(|file|)) == Some(|file|);
    var cursor := |file| - 2 * HEADER_SIZE;
    if LooksShorter(file) {
      var r := ParseBackward(file, cursor + HEADER_SIZE).value;
      WalkGoesDown(file, r.next - HEADER_SIZE, cursor + HEADER_SIZE, 1, 2 * HEADER_SIZE + |r.payload|);
    }
  }

  lemma {:induction false} WalkGoesDown(file: Bytes, cursor: int, lastGood: nat, entries: nat, bytes: nat)
    requires cursor + HEADER_SIZE <= lastGood <= |file|
    ensures Walk(file, cursor, lastGood, entries, bytes) <= lastGood
    decreases cursor
  {
    hide ParseBackward;
    if cursor >= HEADER_SIZE && entries < MAX_ENTRIES_TO_CHECK && bytes < MAX_BYTES_TO_CHECK {
      var r := ParseBackward(file, cursor + HEADER_SIZE);
      if r.Some? {
        WalkGoesDown(file, r.value.next - HEADER_SIZE, cursor + HEADER_SIZE,
                     entries + 1, bytes + 2 * HEADER_SIZE + |r.value.payload|);
      }
    }
  }

  /** A record whose payload ends with a frame is destroyed by the next `open`: the intact
      file with this one record scans as empty afterwards. */
  lemma EmbeddedFrameIsLost(prefix: Bytes, q: Bytes)
    requires Fits(q) && Fits(prefix + Frame(q))
    ensures var file := Frame(prefix + Frame(q));
            && LooksShorter(file)
            && Scan(file, 0) == Layout([prefix + Frame(q)], 0)
            && Scan(file[..RecoveredSize(file)], 0) == []
  {
    hide ParseForward, ParseBackward;
    var p := prefix + Frame(q);
    var file := Frame(p);
    var ps: seq<Bytes> := [p];
    assert Frames(ps[1..]) == [];
    assert Frames(ps) == file + [] == file;
    assert At(file, HEADER_SIZE + |prefix|, Frame(q));
    FrameParses(file, HEADER_SIZE + |prefix|, q);
    assert ValidEnd(file, |file| - HEADER_SIZE);
    IntactFileKeptIff(ps);
    ScanWholeFile(ps);
    var n := RecoveredSize(file);
    CutYieldsWholeFrames(ps, n);
    assert WholeBefore(ps, n) == 0 && ps[..0] == [];
    assert Layout([], 0) == [];
  }
}
