/** From bytes to state: what replaying a log file gives after a crash has cut it anywhere. */
module CrashReplay {
  import opened Bytes
  import opened WalFrames
  import opened WalSegments
  import opened WriteModel
  import WritePath

  /** Records decoded one by one. `decode` stands for the MessagePack decoder. */
  function Decoded(ps: seq<Bytes>, decode: Bytes -> Record): (r: seq<Record>)
    ensures |r| == |ps| && forall i :: 0 <= i < |r| ==> r[i] == decode(ps[i])
  {
    if ps == [] then [] else [decode(ps[0])] + Decoded(ps[1..], decode)
  }

  /** The replay loop of `open`, fed by the scan of one file. */
  function ReplayFile(file: Bytes, decode: Bytes -> Record): Replayed
  {
    Replay(Decoded(Payloads(Scan(file, 0)), decode))
  }

  lemma {:induction false} PayloadsOfLayout(ps: seq<Bytes>, pos: nat)
    ensures Payloads(Layout(ps, pos)) == ps
    decreases |ps|
  {
    if ps != [] {
      PayloadsOfLayout(ps[1..], pos + |ps[0]| + 2 * HEADER_SIZE);
    }
  }

  /** Writing a log and replaying its file is replaying the log. */
  lemma ReplayOfWholeFile(ps: seq<Bytes>, decode: Bytes -> Record)
    requires AllFit(ps)
    ensures ReplayFile(Frames(ps), decode) == Replay(Decoded(ps, decode))
  {
    hide Frames, Scan, Layout, Replay;
    ScanWholeFile(ps);
    PayloadsOfLayout(ps, 0);
  }

  /** However many bytes of the file survive: the state is that of the records written wholly,
      so a put, a deletion or a whole transaction is either there or not; and replaying the
      lost records after it would give the full state. */
  lemma CrashReplaysWholeRecords(ps: seq<Bytes>, decode: Bytes -> Record, cut: nat)
    requires AllFit(ps) && cut <= |Frames(ps)|
    ensures var log := Decoded(ps, decode);
            var n := WholeBefore(ps, cut);
            && ReplayFile(Frames(ps)[..cut], decode) == Replay(log[..n])
            && ReplayOps(ReplayFile(Frames(ps)[..cut], decode), LogOps(log[n..])) == Replay(log)
  {
    hide Frames, Scan, Layout, Replay, ReplayOps, LogOps, WholeBefore;
    var log, n := Decoded(ps, decode), WholeBefore(ps, cut);
    CutYieldsWholeFrames(ps, cut);
    PayloadsOfLayout(ps[..n], 0);
    assert Decoded(ps[..n], decode) == log[..n];
    WritePath.ReplayIsRecordwise(log, n);
  }

  /** The same with a damaged byte inside one payload: everything before that record survives,
      nothing from it on is replayed. */
  lemma DamageReplaysPrefix(before: seq<Bytes>, p: Bytes, after: seq<Bytes>, j: nat, x: Byte, decode: Bytes -> Record)
    requires AllFit(before) && Fits(p) && AllFit(after) && j < |p| && x != p[j]
    ensures ReplayFile(Frames(before) + DamagedFrame(p, j, x) + Frames(after), decode) ==
            Replay(Decoded(before, decode))
  {
    hide Frames, Scan, Layout, Replay, DamagedFrame;
    DamageStopsScan(before, p, after, j, x);
    PayloadsOfLayout(before, 0);
  }
}
