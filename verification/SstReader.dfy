/** `SSTReader` of `libs/storage/sstreader.ts` for version 3 files: what each read does with
    whatever bytes the file holds. `None` stands for an exception. */
module SstReader {
  import opened Bytes
  import opened Checksum
  import opened Entries
  import opened SstFormat
  import opened SstBloom

  datatype Reader = Reader(index: seq<IndexEntry>, bloom: Option<Bytes>)

  predicate IndexOk(index: seq<IndexEntry>)
  {
    forall i :: 0 <= i < |index| ==> 0 <= index[i].blockLen < TWO32
  }

  /** What a loop has collected, before what is still to come. */
  function Then<T>(acc: seq<T>, rest: Option<seq<T>>): (r: Option<seq<T>>)
    ensures acc == [] ==> r == rest
    ensures rest == Some([]) ==> r == Some(acc)
  {
    if rest == None then None
    else
      assert acc == [] ==> acc + rest.value == rest.value;
      assert rest.value == [] ==> acc + rest.value == acc;
      Some(acc + rest.value)
  }

  lemma ThenThen<T>(a: seq<T>, b: seq<T>, rest: Option<seq<T>>)
    ensures Then(a, Then(b, rest)) == Then(a + b, rest)
  {
    if rest.Some? {
      assert a + (b + rest.value) == (a + b) + rest.value;
    }
  }

  // ---------------------------------------------------------------- open

  /** Where the index ends: at the Bloom filter, or else at the footer. */
  function IndexEnd(f: Footer, size: int): int
  {
    if f.bloomOffset != 0 && f.bloomOffset > f.indexOffset then f.bloomOffset else size - SST_FOOTER_LEN
  }

  function Open(file: Bytes): (r: Option<Reader>)
    ensures r.Some? ==> IndexOk(r.value.index)
  {
    var size := |file|;
    if size < SST_FOOTER_LEN then None
    else
      var f := ParseFooter(file[size - SST_FOOTER_LEN..]);
      if f == None then None
      else
        var indexSize := IndexEnd(f.value, size) - f.value.indexOffset;
        if indexSize <= 0 || ReadAt(file, 0, SST_HEADER_LEN) != SST_HEADER_MAGIC + [3] then None
        else
          var indexBuf := ReadAt(file, f.value.indexOffset, indexSize);
          if Crc32c(indexBuf) != f.value.indexCks then None
          else
            var index := ParseIndex(indexBuf);
            if index == None then None
            else
              var bloomSize := size - f.value.bloomOffset - SST_FOOTER_LEN;
              Some(Reader(index.value,
                          if f.value.bloomOffset > 0 && bloomSize > 0
                          then Some(ReadAt(file, f.value.bloomOffset, bloomSize))
                          else None))
  }

  method OpenFile(file: Bytes) returns (r: Option<Reader>)
    ensures r == Open(file)
  {
    hide Crc32c, ParseFooter, ParseIndexEntries, ReadAt;
    var size := |file|;
    if size < SST_FOOTER_LEN {
      return None;
    }
    var footer := ParseFooter(file[size - SST_FOOTER_LEN..]);
    if footer == None {
      return None;
    }
    var Footer(indexOffset, bloomOffset, indexCks) := footer.value;
    var indexEnd := if bloomOffset != 0 && bloomOffset > indexOffset then bloomOffset else size - SST_FOOTER_LEN;
    var indexSize := indexEnd - indexOffset;
    if indexSize <= 0 {
      return None;
    }
    var header := ReadAt(file, 0, SST_HEADER_LEN);
    if header != SST_HEADER_MAGIC + [3] {
      return None;
    }
    var indexBuf := ReadAt(file, indexOffset, indexSize);
    if Crc32c(indexBuf) != indexCks {
      return None;
    }
    var index := LoadIndex(indexBuf);
    if index == None {
      return None;
    }
    var bloom: Option<Bytes> := None;
    if bloomOffset > 0 {
      var bloomSize := size - bloomOffset - SST_FOOTER_LEN;
      if bloomSize > 0 {
        bloom := Some(ReadAt(file, bloomOffset, bloomSize));
      }
    }
    return Some(Reader(index.value, bloom));
  }

  method LoadIndex(indexBuf: Bytes) returns (r: Option<seq<IndexEntry>>)
    ensures r == ParseIndex(indexBuf)
  {
    hide ParseIndexEntry;
    var n := ReadU32(indexBuf, 0);
    if n == None {
      return None;
    }
    var idx: seq<IndexEntry> := [];
    var pos := 4;
    var i := 0;
    while i < n.value
      invariant 0 <= i <= n.value
      invariant ParseIndexEntries(indexBuf, 4, n.value) == Then(idx, ParseIndexEntries(indexBuf, pos, n.value - i))
    {
      var e := ParseIndexEntry(indexBuf, pos);
      if e == None {
        return None;
      }
      ThenThen(idx, [e.value.0], ParseIndexEntries(indexBuf, e.value.1, n.value - i - 1));
      idx := idx + [e.value.0];
      pos := e.value.1;
      i := i + 1;
    }
    return Some(idx);
  }

  // ---------------------------------------------------------------- iterator()

  /** All entries of the blocks of an index. */
  function ReadAll(file: Bytes, index: seq<IndexEntry>, codec: Codec): Option<seq<Entry>>
    requires IndexOk(index)
  {
    if index == [] then Some([])
    else
      var buf := ReadBlock(file, index[0], codec);
      var es := if buf == None then None else ParseBlock(buf.value);
      var rest := ReadAll(file, index[1..], codec);
      if es == None || rest == None then None else Some(es.value + rest.value)
  }

  /** `iterator`, collecting what it yields; `None` if it throws on the way. */
  method Iterate(file: Bytes, r: Reader, codec: Codec) returns (out: Option<seq<Entry>>)
    requires IndexOk(r.index)
    ensures out == ReadAll(file, r.index, codec)
  {
    hide ReadBlock, ParseBlock;
    var acc: seq<Entry> := [];
    var i := 0;
    while i < |r.index|
      invariant 0 <= i <= |r.index|
      invariant ReadAll(file, r.index, codec) == Then(acc, ReadAll(file, r.index[i..], codec))
    {
      assert r.index[i..][1..] == r.index[i + 1..];
      var buf := ReadBlock(file, r.index[i], codec);
      if buf == None {
        return None;
      }
      var es := ReadEntries(buf.value);
      if es == None {
        return None;
      }
      ThenThen(acc, es.value, ReadAll(file, r.index[i + 1..], codec));
      acc := acc + es.value;
      i := i + 1;
    }
    return Some(acc);
  }

  /** The inner loop. */
  method ReadEntries(buf: Bytes) returns (r: Option<seq<Entry>>)
    ensures r == ParseBlock(buf)
  {
    hide ParseEntry;
    var num := ReadU32(buf, 0);
    if num == None {
      return None;
    }
    var acc: seq<Entry> := [];
    var pos := 4;
    var i := 0;
    while i < num.value
      invariant 0 <= i <= num.value
      invariant ParseEntries(buf, 4, num.value) == Then(acc, ParseEntries(buf, pos, num.value - i))
    {
      var e := ParseEntry(buf, pos);
      if e == None {
        return None;
      }
      ThenThen(acc, [e.value.0], ParseEntries(buf, e.value.1, num.value - i - 1));
      acc := acc + [e.value.0];
      pos := e.value.1;
      i := i + 1;
    }
    return Some(acc);
  }

  // ---------------------------------------------------------------- get()

  /** The binary search over first keys, from the given bounds. */
  function Search(index: seq<IndexEntry>, key: Bytes, lo: int, hi: int, bi: nat): (r: nat)
    requires 0 <= lo && hi < |index|
    ensures bi < |index| ==> r < |index|
    decreases hi - lo + 1
  {
    if lo > hi then bi
    else
      var mid := (lo + hi) / 2;
      if Less(key, index[mid].firstKey) then Search(index, key, lo, mid - 1, bi)
      else Search(index, key, mid + 1, hi, mid)
  }

  method FindBlock(index: seq<IndexEntry>, key: Bytes) returns (bi: nat)
    requires index != []
    ensures bi == Search(index, key, 0, |index| - 1, 0) && bi < |index|
  {
    hide Less;
    var lo := 0;
    var hi := |index| - 1;
    bi := 0;
    while lo <= hi
      invariant 0 <= lo && hi < |index| && bi < |index|
      invariant Search(index, key, lo, hi, bi) == Search(index, key, 0, |index| - 1, 0)
      decreases hi - lo + 1
    {
      var mid := (lo + hi) / 2;
      if !Less(key, index[mid].firstKey) {
        bi := mid;
        lo := mid + 1;
      } else {
        hi := mid - 1;
      }
    }
  }

  /** The scan of one block for a key. */
  function FindIn(buf: Bytes, pos: nat, n: nat, key: Bytes): Option<Option<Entry>>
    decreases n
  {
    if n == 0 then Some(None)
    else
      var e := ParseEntry(buf, pos);
      if e == None then None
      else if e.value.0.key == key then Some(Some(e.value.0))
      else FindIn(buf, e.value.1, n - 1, key)
  }

  function FindInBlock(buf: Bytes, key: Bytes): Option<Option<Entry>>
  {
    var num := ReadU32(buf, 0);
    if num == None then None else FindIn(buf, 4, num.value, key)
  }

  /** The entry that `get` and `getWithRev` find. */
  function GetEntry(file: Bytes, r: Reader, codec: Codec, key: Bytes): Option<Option<Entry>>
    requires IndexOk(r.index)
  {
    var maybe := PossiblyContains(r.bloom, key);
    if maybe == None then None
    else if !maybe.value || r.index == [] then Some(None)
    else
      var buf := ReadBlock(file, r.index[Search(r.index, key, 0, |r.index| - 1, 0)], codec);
      if buf == None then None else FindInBlock(buf.value, key)
  }

  /** `getWithRev`; `Some(None)` stands for an answer without value and revision. */
  method GetWithRev(file: Bytes, r: Reader, codec: Codec, key: Bytes) returns (found: Option<Option<Entry>>)
    requires IndexOk(r.index)
    ensures found == GetEntry(file, r, codec, key)
  {
    hide ReadBlock, PossiblyContains, ParseEntry;
    var maybe := AskBloom(r.bloom, key);
    if maybe == None {
      return None;
    }
    if !maybe.value || |r.index| == 0 {
      return Some(None);
    }
    var bi := FindBlock(r.index, key);
    var buf := ReadBlock(file, r.index[bi], codec);
    if buf == None {
      return None;
    }
    var num := ReadU32(buf.value, 0);
    if num == None {
      return None;
    }
    var pos := 4;
    var i := 0;
    while i < num.value
      invariant 0 <= i <= num.value
      invariant FindIn(buf.value, 4, num.value, key) == FindIn(buf.value, pos, num.value - i, key)
    {
      var e := ParseEntry(buf.value, pos);
      if e == None {
        return None;
      }
      if e.value.0.key == key {
        return Some(Some(e.value.0));
      }
      pos := e.value.1;
      i := i + 1;
    }
    return Some(None);
  }

  /** `get`: the value; a tombstone and an absent key both give null. */
  method Get(file: Bytes, r: Reader, codec: Codec, key: Bytes) returns (value: Option<Option<Bytes>>)
    requires IndexOk(r.index)
    ensures value == match GetEntry(file, r, codec, key)
                     case None => None
                     case Some(None) => Some(None)
                     case Some(Some(e)) => Some(e.value)
  {
    var found := GetWithRev(file, r, codec, key);
    value := match found
      case None => None
      case Some(None) => Some(None)
      case Some(Some(e)) => Some(e.value);
  }

  // ---------------------------------------------------------------- iteratorRange()

  predicate AtOrAfter(key: Bytes, start: Option<Bytes>)
  {
    start == None || !Less(key, start.value)
  }

  predicate Before(key: Bytes, end: Option<Bytes>)
  {
    end == None || Less(key, end.value)
  }

  /** The entries with a key in [start, end). */
  function Range(es: seq<Entry>, start: Option<Bytes>, end: Option<Bytes>): seq<Entry>
  {
    if es == [] then []
    else (if AtOrAfter(es[0].key, start) && Before(es[0].key, end) then [es[0]] else []) + Range(es[1..], start, end)
  }

  /** The scan of one block: what it yields, and whether it met the end. */
  function RangeIn(buf: Bytes, pos: nat, n: nat, start: Option<Bytes>, end: Option<Bytes>)
      : Option<(seq<Entry>, bool)>
    decreases n
  {
    if n == 0 then Some(([], false))
    else
      var e := ParseEntry(buf, pos);
      if e == None then None
      else if !Before(e.value.0.key, end) then Some(([], true))
      else
        var rest := RangeIn(buf, e.value.1, n - 1, start, end);
        if rest == None then None
        else Some(((if AtOrAfter(e.value.0.key, start) then [e.value.0] else []) + rest.value.0, rest.value.1))
  }

  /** The block as this method reads it: the length field is not tested for the flag. */
  function ReadPlain(file: Bytes, ent: IndexEntry): Option<Bytes>
    requires 0 <= ent.blockLen
  {
    var buf := ReadAt(file, ent.offset, ent.blockLen);
    if Crc32c(buf) != ent.blockCks then None else Some(buf)
  }

  function RangeBlocks(file: Bytes, index: seq<IndexEntry>, start: Option<Bytes>, end: Option<Bytes>)
      : Option<seq<Entry>>
    requires IndexOk(index)
    decreases |index|
  {
    if index == [] then Some([])
    else
      var buf := ReadPlain(file, index[0]);
      var num := if buf == None then None else ReadU32(buf.value, 0);
      var here := if num == None then None else RangeIn(buf.value, 4, num.value, start, end);
      if here == None then None
      else if here.value.1 then Some(here.value.0)
      else
        var rest := RangeBlocks(file, index[1..], start, end);
        if rest == None then None else Some(here.value.0 + rest.value)
  }

  function RangeOf(file: Bytes, r: Reader, start: Option<Bytes>, end: Option<Bytes>): Option<seq<Entry>>
    requires IndexOk(r.index)
  {
    if r.index == [] then Some([])
    else
      var bi := if start == None then 0 else Search(r.index, start.value, 0, |r.index| - 1, 0);
      RangeBlocks(file, r.index[bi..], start, end)
  }

  method IterateRange(file: Bytes, r: Reader, start: Option<Bytes>, end: Option<Bytes>)
      returns (out: Option<seq<Entry>>)
    requires IndexOk(r.index)
    ensures out == RangeOf(file, r, start, end)
  {
    hide ReadPlain, RangeIn, RangeBlocks, Search, Then;
    if |r.index| == 0 {
      return Some([]);
    }
    var bi := 0;
    if start.Some? {
      bi := FindBlock(r.index, start.value);
    }
    var acc: seq<Entry> := [];
    var idx := bi;
    ghost var goal := RangeBlocks(file, r.index[bi..], start, end);
    while idx < |r.index|
      invariant 0 <= idx <= |r.index|
      invariant goal == Then(acc, RangeBlocks(file, r.index[idx..], start, end))
    {
      assert r.index[idx..][1..] == r.index[idx + 1..];
      BlockStep(file, r.index[idx..], start, end, acc);
      var buf := ReadPlain(file, r.index[idx]);
      if buf == None {
        return None;
      }
      var num := ReadU32(buf.value, 0);
      if num == None {
        return None;
      }
      var here := ScanRange(buf.value, num.value, start, end);
      if here == None {
        return None;
      }
      acc := acc + here.value.0;
      if here.value.1 {
        return Some(acc);
      }
      idx := idx + 1;
    }
    NoBlocks(file, start, end);
    assert r.index[idx..] == [];
    return Some(acc);
  }

  /** One turn of the outer loop. */
  lemma BlockStep(file: Bytes, index: seq<IndexEntry>, start: Option<Bytes>, end: Option<Bytes>, acc: seq<Entry>)
    requires index != [] && IndexOk(index)
    ensures var buf := ReadPlain(file, index[0]);
            var num := if buf == None then None else ReadU32(buf.value, 0);
            var here := if num == None then None else RangeIn(buf.value, 4, num.value, start, end);
            Then(acc, RangeBlocks(file, index, start, end)) ==
            if here == None then None
            else if here.value.1 then Some(acc + here.value.0)
            else Then(acc + here.value.0, RangeBlocks(file, index[1..], start, end))
  {
    hide ReadPlain, RangeIn, ReadU32;
    var buf := ReadPlain(file, index[0]);
    var num := if buf == None then None else ReadU32(buf.value, 0);
    var here := if num == None then None else RangeIn(buf.value, 4, num.value, start, end);
    if here.Some? && !here.value.1 {
      ThenThen(acc, here.value.0, RangeBlocks(file, index[1..], start, end));
    }
  }

  lemma NoBlocks(file: Bytes, start: Option<Bytes>, end: Option<Bytes>)
    ensures RangeBlocks(file, [], start, end) == Some([])
  {
  }

  function ThenEnded(acc: seq<Entry>, rest: Option<(seq<Entry>, bool)>): (r: Option<(seq<Entry>, bool)>)
    ensures acc == [] ==> r == rest
    ensures rest.Some? && rest.value.0 == [] ==> r == Some((acc, rest.value.1))
  {
    if rest == None then None
    else
      assert acc == [] ==> acc + rest.value.0 == rest.value.0;
      assert rest.value.0 == [] ==> acc + rest.value.0 == acc;
      Some((acc + rest.value.0, rest.value.1))
  }

  /** The inner loop. */
  method ScanRange(buf: Bytes, num: nat, start: Option<Bytes>, end: Option<Bytes>)
      returns (r: Option<(seq<Entry>, bool)>)
    ensures r == RangeIn(buf, 4, num, start, end)
  {
    hide ParseEntry, Before, AtOrAfter, RangeIn, ThenEnded;
    var acc: seq<Entry> := [];
    var pos := 4;
    var i := 0;
    while i < num
      invariant 0 <= i <= num
      invariant RangeIn(buf, 4, num, start, end) == ThenEnded(acc, RangeIn(buf, pos, num - i, start, end))
    {
      EntryStep(buf, pos, num - i, start, end, acc);
      var e := ParseEntry(buf, pos);
      if e == None {
        return None;
      }
      if !Before(e.value.0.key, end) {
        return Some((acc, true));
      }
      if AtOrAfter(e.value.0.key, start) {
        acc := acc + [e.value.0];
      }
      pos := e.value.1;
      i := i + 1;
    }
    NoEntries(buf, pos, start, end);
    return Some((acc, false));
  }

  /** One turn of the inner loop. */
  lemma EntryStep(buf: Bytes, pos: nat, n: nat, start: Option<Bytes>, end: Option<Bytes>, acc: seq<Entry>)
    requires n > 0
    ensures var e := ParseEntry(buf, pos);
            ThenEnded(acc, RangeIn(buf, pos, n, start, end)) ==
            if e == None then None
            else if !Before(e.value.0.key, end) then Some((acc, true))
            else ThenEnded(if AtOrAfter(e.value.0.key, start) then acc + [e.value.0] else acc,
                           RangeIn(buf, e.value.1, n - 1, start, end))
  {
    hide ParseEntry, Before, AtOrAfter;
    var e := ParseEntry(buf, pos);
    if e.Some? && Before(e.value.0.key, end) {
      var rest := RangeIn(buf, e.value.1, n - 1, start, end);
      if rest.Some? {
        assert acc + ([e.value.0] + rest.value.0) == (acc + [e.value.0]) + rest.value.0;
        assert acc + ([] + rest.value.0) == acc + rest.value.0;
      }
    }
  }

  lemma NoEntries(buf: Bytes, pos: nat, start: Option<Bytes>, end: Option<Bytes>)
    ensures RangeIn(buf, pos, 0, start, end) == Some(([], false))
  {
  }
}
