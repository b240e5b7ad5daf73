/** The class `SSTWriter`: its methods change the fields as the source does and are proved
    against the functions of the writer model. */
module SstWriting {
  import opened Bytes
  import opened Checksum
  import opened Entries
  import opened SstFormat
  import opened SstBloom
  import opened SstWriter
  import Varint

  class SSTWriter {
    const opts: Options
    const codec: Codec
    var blocks: seq<Block>
    var curEntries: seq<Bytes>
    var curLen: nat
    var totalEntries: nat
    var allKeys: seq<Bytes>
    /** Everything added so far, by block. */
    ghost var added: Grouped

    ghost function View(): State
      reads this
    {
      State(blocks, curEntries, curLen, totalEntries, allKeys)
    }

    ghost predicate Valid()
      reads this
    {
      Holds(View(), added)
    }

    constructor (opts: Options, codec: Codec)
      ensures View() == New() && Valid() && added == Grouped([], [])
      ensures this.opts == opts && this.codec == codec
    {
      this.opts, this.codec := opts, codec;
      blocks, curEntries, curLen, totalEntries, allKeys := [], [], 0, 0, [];
      added := Grouped([], []);
      new;
      NewHolds();
    }

    /** `add`; undefined numbers are passed as zero. */
    method Add(e: Entry)
      requires Valid() && Encodable(e)
      modifies this
      ensures Valid() && View() == AddStep(opts.blockSize, old(View()), e)
      ensures Flat(added.groups) + added.tail == old(Flat(added.groups) + added.tail) + [e]
    {
      hide EncodeEntry, KeyIn, Flat, Holds, MetaBytes;
      ghost var g := AddHolds(opts.blockSize, View(), added, e);
      var revBuf := Varint.VarintEncode(e.rev);
      var walBuf := Varint.VarintEncode(e.walOffset);
      var createdBuf := Varint.VarintEncode(e.createdAt);
      MetaIs(e, revBuf, walBuf, createdBuf);
      var entry := if e.value.Some? then
        U32(|e.key|) + e.key + U32(|e.value.value|) + e.value.value + (revBuf + walBuf + createdBuf)
      else
        U32(|e.key|) + e.key + U32(TOMBSTONE_LEN) + [] + (revBuf + walBuf + createdBuf);
      EntryIs(e, entry);
      if curLen + |entry| > opts.blockSize && |curEntries| > 0 {
        FlushCurrentBlock();
      }
      curEntries := curEntries + [entry];
      curLen := curLen + |entry|;
      totalEntries := totalEntries + 1;
      allKeys := allKeys + [e.key];
      added := g;
    }

    method FlushCurrentBlock()
      modifies this`blocks, this`curEntries, this`curLen
      ensures View() == FlushStep(old(View()))
    {
      if |curEntries| == 0 {
        return;
      }
      blocks := blocks + [Block(KeyIn(curEntries[0]), curEntries, curLen + 4)];
      curEntries := [];
      curLen := 0;
    }

    /** `getEstimatedSize`. */
    method GetEstimatedSize() returns (size: nat)
      requires Valid()
      ensures size == EstimatedSize(opts, View())
    {
      hide BloomSize, EncodeEntry, KeyIn;
      var blocksLen, idx := SumSizes(blocks);
      var curBlockLen := if |curEntries| > 0 then curLen + 4 else 0;
      if |curEntries| > 0 {
        CurrentFirstKey(View(), added);
        SizesSnoc(blocks, Block(KeyIn(curEntries[0]), curEntries, curLen + 4));
        var fklen := ReadU32(curEntries[0], 0).value;
        idx := idx + (4 + fklen + 8 + 4 + 4);
      }
      size := SST_HEADER_LEN + (blocksLen + curBlockLen) + (4 + idx) + BloomSize(opts, totalEntries) + 28;
    }

    /** `estimateSizeAfterAdd`. */
    method EstimateSizeAfterAdd(key: Bytes, value: Option<Bytes>, rev: Option<nat>) returns (size: nat)
      ensures size == SizeAfterAdd(opts, View(), key, value, rev)
    {
      hide BloomSize, KeyIn, BlocksSize, IndexSize;
      var blocksLen, idx := SumSizes(blocks);
      var projCurLen, projCurEntries := curLen, |curEntries|;
      var entryLen := ProjectedLen(key, value, rev);
      if projCurLen + entryLen > opts.blockSize && projCurEntries > 0 {
        SizesSnoc(blocks, Block(KeyIn(curEntries[0]), curEntries, curLen + 4));
        blocksLen := blocksLen + (projCurLen + 4);
        idx := idx + (4 + |KeyIn(curEntries[0])| + 8 + 4 + 4);
        projCurLen := 0;
      }
      projCurLen := projCurLen + entryLen;
      var curFirst := if |curEntries| > 0 then KeyIn(curEntries[0]) else key;
      blocksLen := blocksLen + (projCurLen + 4);
      idx := idx + (4 + |curFirst| + 8 + 4 + 4);
      size := SST_HEADER_LEN + blocksLen + (4 + idx) + BloomSize(opts, totalEntries + 1) + 28;
    }

    /** `simulatedSizeAfterAdd`: it tracks the first key of a new block separately, but still
        prefers the current one, so it agrees with the other estimator in every state. */
    method SimulatedSizeAfterAdd(key: Bytes, value: Option<Bytes>, rev: Option<nat>) returns (size: nat)
      ensures size == SizeAfterAdd(opts, View(), key, value, rev)
    {
      hide BloomSize, KeyIn, BlocksSize, IndexSize;
      var blocksLen, idx := SumSizes(blocks);
      var projCurLen, projCurEntries := curLen, |curEntries|;
      var entryLen := ProjectedLen(key, value, rev);
      if projCurLen + entryLen > opts.blockSize && projCurEntries > 0 {
        SizesSnoc(blocks, Block(KeyIn(curEntries[0]), curEntries, curLen + 4));
        blocksLen := blocksLen + (projCurLen + 4);
        idx := idx + (4 + |KeyIn(curEntries[0])| + 8 + 4 + 4);
        projCurLen := 0;
        projCurEntries := 0;
      }
      var newFirst: Option<Bytes> := if projCurEntries == 0 then Some(key) else None;
      projCurLen := projCurLen + entryLen;
      var fk := if |curEntries| > 0 then KeyIn(curEntries[0]) else if newFirst.Some? then newFirst.value else [];
      size := SST_HEADER_LEN + (blocksLen + (projCurLen + 4)) + (4 + (idx + (4 + |fk| + 8 + 4 + 4))) +
              BloomSize(opts, totalEntries + 1) + 28;
    }

    /** `finish`, without the file system: the bytes that it writes and the key range. */
    method Finish() returns (r: Finished)
      requires Valid() && Writable(opts, FlushStep(View()))
      modifies this`blocks, this`curEntries, this`curLen
      ensures View() == FlushStep(old(View()))
      ensures r == FinishFlushed(opts, codec, View())
    {
      hide Writable, StoredBlocks, Image, IndexOf, EncodeIndexEntries, EncodeFooter, Crc32c, FinishFlushed, PartsOf;
      hide Bloom, BloomBits, BloomSize, LastKey, IndexAllEncodable, FooterEncodable, Holds, BlocksSize, IndexSize;
      FlushCurrentBlock();
      PartsFit(opts, codec, View());
      BloomFits(opts, View());
      FinishedIs(opts, codec, View());
      var stored := StoreAll(blocks, codec, opts);
      var body, index := LayOut(blocks, stored);
      var indexBuf := EncodeAll(index);
      var bloomBuf: Bytes := [];
      var bloomOffset := 0;
      if opts.useBloom {
        bloomBuf := BuildBloom(allKeys, BloomBits(totalEntries, opts.bitsPerEntry), opts.hashes);
        bloomOffset := SST_HEADER_LEN + |body| + |indexBuf|;
      }
      var footer := EncodeFooter(Footer(SST_HEADER_LEN + |body|, bloomOffset, Crc32c(indexBuf)));
      var file := HEADER + body + indexBuf + bloomBuf + footer;
      r := Finished(file, if |blocks| == 0 then [] else blocks[0].firstKey, LastKey(blocks));
    }
  }

  // ---------------------------------------------------------------- loops of the methods

  method SumSizes(blocks: seq<Block>) returns (len: nat, idx: nat)
    ensures len == BlocksSize(blocks) && idx == IndexSize(blocks)
  {
    len, idx := 0, 0;
    var i := 0;
    while i < |blocks|
      invariant 0 <= i <= |blocks|
      invariant len + BlocksSize(blocks[i..]) == BlocksSize(blocks)
      invariant idx + IndexSize(blocks[i..]) == IndexSize(blocks)
    {
      assert blocks[i..][1..] == blocks[i + 1..];
      len := len + blocks[i].len;
      idx := idx + (4 + |blocks[i].firstKey| + 8 + 4 + 4);
      i := i + 1;
    }
  }

  method ProjectedLen(key: Bytes, value: Option<Bytes>, rev: Option<nat>) returns (len: nat)
    ensures len == AssumedLen(key, value, rev)
  {
    var revLen := 10;
    if rev.Some? {
      revLen := Varint.VarintLen(rev.value);
    }
    len := (4 + |key|) + (if value == None then 4 else 4 + |value.value|) + revLen + 1 + 1;
  }

  /** The first loop of `finish`. */
  method StoreAll(blocks: seq<Block>, codec: Codec, o: Options) returns (stored: seq<Stored>)
    requires forall i :: 0 <= i < |blocks| ==> |blocks[i].entries| < TWO32
    ensures stored == StoredBlocks(blocks, codec, o)
  {
    hide Store, RawBlock;
    stored := [];
    var i := 0;
    while i < |blocks|
      invariant 0 <= i <= |blocks| && |stored| == i
      invariant forall j :: 0 <= j < i ==>
                  stored[j] == Store(RawBlock(blocks[j].entries), codec, o.compress, o.threshold)
    {
      stored := stored + [Store(RawBlock(blocks[i].entries), codec, o.compress, o.threshold)];
      i := i + 1;
    }
  }

  /** The loop that walks the offsets. */
  method LayOut(blocks: seq<Block>, stored: seq<Stored>) returns (image: Bytes, entries: seq<IndexEntry>)
    requires |stored| == |blocks|
    ensures image == Image(stored)
    ensures entries == IndexOf(blocks, stored, SST_HEADER_LEN)
  {
    hide Image, IndexOf, Crc32c, Laid;
    image, entries := [], [];
    var pos: nat := SST_HEADER_LEN;
    var i := 0;
    LayStart(blocks, stored);
    while i < |blocks|
      invariant 0 <= i <= |blocks| && Laid(blocks, stored, i, pos, image, entries)
    {
      LayStep(blocks, stored, i, pos, image, entries);
      entries := entries + [IndexEntry(blocks[i].firstKey, pos, stored[i].lenField, Crc32c(stored[i].bytes))];
      image := image + stored[i].bytes;
      pos := pos + |stored[i].bytes|;
      i := i + 1;
    }
    LayEnd(blocks, stored, i, pos, image, entries);
  }

  /** The first `i` blocks are in the image, and the next one begins at `pos`. */
  ghost predicate Laid(blocks: seq<Block>, stored: seq<Stored>, i: nat, pos: nat, image: Bytes,
                       entries: seq<IndexEntry>)
    requires |stored| == |blocks|
  {
    && i <= |blocks|
    && image + Image(stored[i..]) == Image(stored)
    && entries + IndexOf(blocks[i..], stored[i..], pos) == IndexOf(blocks, stored, SST_HEADER_LEN)
  }

  lemma LayStart(blocks: seq<Block>, stored: seq<Stored>)
    requires |stored| == |blocks|
    ensures Laid(blocks, stored, 0, SST_HEADER_LEN, [], [])
  {
    hide Image, IndexOf;
    assert stored[0..] == stored && blocks[0..] == blocks;
  }

  lemma LayStep(blocks: seq<Block>, stored: seq<Stored>, i: nat, pos: nat, image: Bytes, entries: seq<IndexEntry>)
    requires |stored| == |blocks| && i < |blocks| && Laid(blocks, stored, i, pos, image, entries)
    ensures Laid(blocks, stored, i + 1, pos + |stored[i].bytes|, image + stored[i].bytes,
                 entries + [IndexEntry(blocks[i].firstKey, pos, stored[i].lenField, Crc32c(stored[i].bytes))])
  {
    hide Image, IndexOf, Crc32c;
    LayUnfold(blocks, stored, pos, i);
    var bytes, more := stored[i].bytes, Image(stored[i + 1..]);
    assert image + (bytes + more) == (image + bytes) + more;
    var e := IndexEntry(blocks[i].firstKey, pos, stored[i].lenField, Crc32c(bytes));
    var later := IndexOf(blocks[i + 1..], stored[i + 1..], pos + |bytes|);
    assert entries + ([e] + later) == (entries + [e]) + later;
  }

  lemma LayEnd(blocks: seq<Block>, stored: seq<Stored>, i: nat, pos: nat, image: Bytes, entries: seq<IndexEntry>)
    requires |stored| == |blocks| == i && Laid(blocks, stored, i, pos, image, entries)
    ensures image == Image(stored) && entries == IndexOf(blocks, stored, SST_HEADER_LEN)
  {
    hide IndexOf;
    assert stored[i..] == [] && Image([]) == [];
    assert image + [] == image && entries + [] == entries;
    assert IndexOf(blocks[i..], stored[i..], pos) == [];
  }

  lemma LayUnfold(blocks: seq<Block>, stored: seq<Stored>, pos: nat, i: nat)
    requires i < |blocks| == |stored|
    ensures Image(stored[i..]) == stored[i].bytes + Image(stored[i + 1..])
    ensures IndexOf(blocks[i..], stored[i..], pos) ==
            [IndexEntry(blocks[i].firstKey, pos, stored[i].lenField, Crc32c(stored[i].bytes))] +
            IndexOf(blocks[i + 1..], stored[i + 1..], pos + |stored[i].bytes|)
  {
    hide Crc32c;
    assert stored[i..][1..] == stored[i + 1..] && blocks[i..][1..] == blocks[i + 1..];
  }

  /** The loop that fills `idxParts`. */
  method EncodeAll(index: seq<IndexEntry>) returns (buf: Bytes)
    requires IndexAllEncodable(index) && |index| < TWO32
    ensures buf == EncodeIndex(index)
  {
    hide EncodeIndexEntry;
    buf := U32(|index|);
    var i := 0;
    while i < |index|
      invariant 0 <= i <= |index|
      invariant buf + EncodeIndexEntries(index[i..]) == EncodeIndex(index)
    {
      assert index[i..][1..] == index[i + 1..];
      buf := buf + EncodeIndexEntry(index[i]);
      i := i + 1;
    }
  }

  // ---------------------------------------------------------------- small facts

  lemma MetaIs(e: Entry, a: Bytes, b: Bytes, c: Bytes)
    requires a == Varint.Encode(e.rev) && b == Varint.Encode(e.walOffset) && c == Varint.Encode(e.createdAt)
    ensures a + b + c == MetaBytes(e)
  {
  }

  lemma EntryIs(e: Entry, entry: Bytes)
    requires Encodable(e)
    requires entry == if e.value.Some? then
                        U32(|e.key|) + e.key + U32(|e.value.value|) + e.value.value + MetaBytes(e)
                      else
                        U32(|e.key|) + e.key + U32(TOMBSTONE_LEN) + [] + MetaBytes(e)
    ensures entry == EncodeEntry(e)
  {
    hide MetaBytes, U32;
  }

  lemma CurrentFirstKey(s: State, g: Grouped)
    requires Holds(s, g) && s.cur != []
    ensures ReadU32(s.cur[0], 0) == Some(|KeyIn(s.cur[0])|)
  {
    hide EncodeEntry, KeyIn, U32, ReadU32;
    var e := g.tail[0];
    assert s.cur[0] == EncodeEntry(e);
    KeyInEncoded(e);
    assert At(s.cur[0], 0, s.cur[0]);
    EntryParts(s.cur[0], 0, e);
    ReadU32Written(s.cur[0], 0, |e.key|);
  }

  lemma BloomFits(o: Options, s: State)
    requires Writable(o, s)
    ensures o.useBloom ==> 0 < BloomBits(s.total, o.bitsPerEntry) < TWO32 && o.hashes < TWO32
  {
  }

  /** The file image, part by part. */
  lemma FinishedIs(o: Options, codec: Codec, t: State)
    requires t.cur == [] && Writable(o, t)
    requires forall i :: 0 <= i < |t.blocks| ==> |t.blocks[i].entries| < TWO32
    requires o.useBloom ==> 0 < BloomBits(t.total, o.bitsPerEntry) < TWO32 && o.hashes < TWO32
    ensures var p := PartsOf(o, codec, t);
            && p.body == Image(StoredBlocks(t.blocks, codec, o))
            && p.index == IndexOf(t.blocks, StoredBlocks(t.blocks, codec, o), SST_HEADER_LEN)
            && p.bloom == (if o.useBloom then Bloom(t.keys, BloomBits(t.total, o.bitsPerEntry), o.hashes) else [])
            && FooterEncodable(FooterOf(o, p))
            && FinishFlushed(o, codec, t) ==
               Finished(FileOf(o, p), if t.blocks == [] then [] else t.blocks[0].firstKey, LastKey(t.blocks))
  {
    hide StoredBlocks, Image, IndexOf, EncodeIndexEntries, EncodeFooter, Crc32c, Bloom, BloomBits, BloomSize;
    hide LastKey, IndexAllEncodable, BlocksSize, IndexSize, BlocksOk;
    PartsFit(o, codec, t);
    var p := PartsOf(o, codec, t);
  }
}
