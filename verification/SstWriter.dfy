/** `SSTWriter` of `libs/storage/sstwriter.ts`: block building, the file image that `finish`
    writes, and the size arithmetic. */
module SstWriter {
  import opened Bytes
  import opened Checksum
  import opened Entries
  import opened SstFormat
  import opened SstBloom
  import Varint

  /** `hashes` is the number of probes, which the source rounds from a logarithm; `compress`
      means an algorithm other than none. */
  datatype Options = Options(
    blockSize: nat, useBloom: bool, bitsPerEntry: nat, hashes: nat, compress: bool, threshold: nat)

  datatype Block = Block(firstKey: Bytes, entries: seq<Bytes>, len: nat)

  /** The fields of a writer. */
  datatype State = State(blocks: seq<Block>, cur: seq<Bytes>, curLen: nat, total: nat, keys: seq<Bytes>)

  function New(): State
  {
    State([], [], 0, 0, [])
  }

  // ---------------------------------------------------------------- building blocks

  /** The key of an encoded entry, as the writer digs it out again. */
  function KeyIn(entry: Bytes): Bytes
  {
    if |entry| >= 4 then Slice(entry, 4, 4 + ReadU32(entry, 0).value) else []
  }

  function FlushStep(s: State): (r: State)
    ensures r.cur == []
  {
    if s.cur == [] then s
    else s.(blocks := s.blocks + [Block(KeyIn(s.cur[0]), s.cur, s.curLen + 4)], cur := [], curLen := 0)
  }

  predicate Overflows(blockSize: nat, s: State, len: nat)
  {
    s.curLen + len > blockSize && s.cur != []
  }

  function AddStep(blockSize: nat, s: State, e: Entry): State
    requires Encodable(e)
  {
    var entry := EncodeEntry(e);
    var t := if Overflows(blockSize, s, |entry|) then FlushStep(s) else s;
    State(t.blocks, t.cur + [entry], t.curLen + |entry|, t.total + 1, t.keys + [e.key])
  }

  function AddAll(blockSize: nat, s: State, es: seq<Entry>): State
    requires AllEncodable(es)
    decreases |es|
  {
    if es == [] then s else AddAll(blockSize, AddStep(blockSize, s, es[0]), es[1..])
  }

  // ---------------------------------------------------------------- the file image

  function StoredBlocks(blocks: seq<Block>, codec: Codec, o: Options): (r: seq<Stored>)
    requires forall i :: 0 <= i < |blocks| ==> |blocks[i].entries| < TWO32
    ensures |r| == |blocks|
    ensures forall i :: 0 <= i < |r| ==> r[i] == Store(RawBlock(blocks[i].entries), codec, o.compress, o.threshold)
  {
    if blocks == [] then []
    else [Store(RawBlock(blocks[0].entries), codec, o.compress, o.threshold)] + StoredBlocks(blocks[1..], codec, o)
  }

  function Image(stored: seq<Stored>): Bytes
  {
    if stored == [] then [] else stored[0].bytes + Image(stored[1..])
  }

  /** The index of these blocks when they stand one after the other from `pos` on. */
  function IndexOf(blocks: seq<Block>, stored: seq<Stored>, pos: nat): (r: seq<IndexEntry>)
    requires |stored| == |blocks|
    ensures |r| == |blocks|
    ensures forall i :: 0 <= i < |r| ==> r[i].firstKey == blocks[i].firstKey
  {
    if blocks == [] then []
    else [IndexEntry(blocks[0].firstKey, pos, stored[0].lenField, Crc32c(stored[0].bytes))] +
         IndexOf(blocks[1..], stored[1..], pos + |stored[0].bytes|)
  }

  const HEADER: Bytes := SST_HEADER_MAGIC + [3]

  // ---------------------------------------------------------------- sizes

  /** The bytes of the index entries for blocks with these first keys. */
  function IndexSize(blocks: seq<Block>): nat
  {
    if blocks == [] then 0 else 4 + |blocks[0].firstKey| + 8 + 4 + 4 + IndexSize(blocks[1..])
  }

  function BlocksSize(blocks: seq<Block>): nat
  {
    if blocks == [] then 0 else blocks[0].len + BlocksSize(blocks[1..])
  }

  function BloomSize(o: Options, total: nat): nat
  {
    if o.useBloom then 4 + 4 + BloomBytes(total, o.bitsPerEntry) else 0
  }

  /** `getEstimatedSize`. */
  function EstimatedSize(o: Options, s: State): nat
  {
    var t := FlushStep(s);
    SST_HEADER_LEN + BlocksSize(t.blocks) + (4 + IndexSize(t.blocks)) + BloomSize(o, s.total) + SST_FOOTER_LEN
  }

  /** The encoded length that both estimators assume: one byte for each of the two offsets
      that they do not know, ten for an unknown revision. */
  function AssumedLen(key: Bytes, value: Option<Bytes>, rev: Option<nat>): nat
  {
    4 + |key| + (if value == None then 4 else 4 + |value.value|) +
    (if rev == None then 10 else |Varint.Encode(rev.value)|) + 1 + 1
  }

  /** `simulatedSizeAfterAdd`, and `estimateSizeAfterAdd` as well. When the current block would
      be flushed, the new block is still charged with the old block's first key. */
  function SizeAfterAdd(o: Options, s: State, key: Bytes, value: Option<Bytes>, rev: Option<nat>): nat
  {
    var len := AssumedLen(key, value, rev);
    var first := if s.cur != [] then KeyIn(s.cur[0]) else key;
    var t := if Overflows(o.blockSize, s, len) then FlushStep(s) else s;
    SST_HEADER_LEN + (BlocksSize(t.blocks) + t.curLen + len + 4) +
    (4 + IndexSize(t.blocks) + (4 + |first| + 8 + 4 + 4)) + BloomSize(o, s.total + 1) + SST_FOOTER_LEN
  }

  lemma {:induction false} SizesSnoc(blocks: seq<Block>, b: Block)
    ensures BlocksSize(blocks + [b]) == BlocksSize(blocks) + b.len
    ensures IndexSize(blocks + [b]) == IndexSize(blocks) + 4 + |b.firstKey| + 8 + 4 + 4
  {
    if blocks == [] {
      assert (blocks + [b])[1..] == [];
    } else {
      assert (blocks + [b])[1..] == blocks[1..] + [b];
      SizesSnoc(blocks[1..], b);
    }
  }

  lemma KeyInEncoded(e: Entry)
    requires Encodable(e)
    ensures KeyIn(EncodeEntry(e)) == e.key
  {
    hide EncodeEntry, U32, ReadU32;
    var buf := EncodeEntry(e);
    assert At(buf, 0, buf);
    EntryParts(buf, 0, e);
    ReadU32Written(buf, 0, |e.key|);
  }

  lemma EncodedLen(e: Entry)
    requires Encodable(e)
    ensures |EncodeEntry(e)| == AssumedLen(e.key, e.value, Some(e.rev)) - 2 +
                                |Varint.Encode(e.walOffset)| + |Varint.Encode(e.createdAt)|
  {
  }

  /** For an entry whose two offsets fit one byte each, the estimate is the size the writer
      then reports, except for the first key of a block that the entry opens by a flush. */
  lemma EstimateMatches(o: Options, s: State, e: Entry)
    requires Encodable(e) && e.walOffset < 0x80 && e.createdAt < 0x80
    ensures EstimatedSize(o, AddStep(o.blockSize, s, e)) ==
            SizeAfterAdd(o, s, e.key, e.value, Some(e.rev)) +
            if Overflows(o.blockSize, s, |EncodeEntry(e)|) then |e.key| - |KeyIn(s.cur[0])| else 0
  {
    hide EncodeEntry, KeyIn, BloomSize, Varint.Encode;
    var entry := EncodeEntry(e);
    Varint.EncodeLengthMonotone(e.walOffset, e.walOffset);
    Varint.EncodeLengthMonotone(e.createdAt, e.createdAt);
    EncodedLen(e);
    KeyInEncoded(e);
    var t := if Overflows(o.blockSize, s, |entry|) then FlushStep(s) else s;
    var u := AddStep(o.blockSize, s, e);
    SizesSnoc(t.blocks, Block(KeyIn(u.cur[0]), u.cur, u.curLen + 4));
  }

  /** So it is exact if and only if no flush happens or the two first keys are equally long. */
  lemma EstimateExactIff(o: Options, s: State, e: Entry)
    requires Encodable(e) && e.walOffset < 0x80 && e.createdAt < 0x80
    ensures EstimatedSize(o, AddStep(o.blockSize, s, e)) == SizeAfterAdd(o, s, e.key, e.value, Some(e.rev)) <==>
            (Overflows(o.blockSize, s, |EncodeEntry(e)|) ==> |e.key| == |KeyIn(s.cur[0])|)
  {
    hide EncodeEntry, EstimatedSize, SizeAfterAdd, KeyIn;
    EstimateMatches(o, s, e);
  }

  // ---------------------------------------------------------------- which entries are in which block

  /** The entries of the finished blocks, and those of the current one. */
  datatype Grouped = Grouped(groups: seq<seq<Entry>>, tail: seq<Entry>)

  function Flat(groups: seq<seq<Entry>>): seq<Entry>
  {
    if groups == [] then [] else groups[0] + Flat(groups[1..])
  }

  function KeysOf(es: seq<Entry>): (r: seq<Bytes>)
    ensures |r| == |es| && forall i :: 0 <= i < |r| ==> r[i] == es[i].key
  {
    if es == [] then [] else [es[0].key] + KeysOf(es[1..])
  }

  predicate GoodGroup(g: seq<Entry>)
  {
    g != [] && AllEncodable(g)
  }

  function BlockOf(g: seq<Entry>): Block
    requires GoodGroup(g)
  {
    Block(g[0].key, EncodeEntries(g), 4 + |Concat(EncodeEntries(g))|)
  }

  /** The writer holds exactly these entries, in these blocks. */
  ghost predicate Holds(s: State, g: Grouped)
  {
    && |s.blocks| == |g.groups|
    && (forall i :: 0 <= i < |g.groups| ==> GoodGroup(g.groups[i]) && s.blocks[i] == BlockOf(g.groups[i]))
    && AllEncodable(g.tail)
    && s.cur == EncodeEntries(g.tail) && s.curLen == |Concat(s.cur)|
    && s.keys == KeysOf(Flat(g.groups) + g.tail)
    && s.total == |Flat(g.groups) + g.tail|
  }

  lemma {:induction false} FlatSnoc(groups: seq<seq<Entry>>, g: seq<Entry>)
    ensures Flat(groups + [g]) == Flat(groups) + g
  {
    if groups == [] {
      assert (groups + [g])[1..] == [];
    } else {
      assert (groups + [g])[1..] == groups[1..] + [g];
      FlatSnoc(groups[1..], g);
    }
  }

  lemma {:induction false} EncodeSnoc(es: seq<Entry>, e: Entry)
    requires AllEncodable(es) && Encodable(e)
    ensures EncodeEntries(es + [e]) == EncodeEntries(es) + [EncodeEntry(e)]
    ensures |Concat(EncodeEntries(es + [e]))| == |Concat(EncodeEntries(es))| + |EncodeEntry(e)|
  {
    hide EncodeEntry;
    assert EncodeEntries(es + [e]) == EncodeEntries(es) + [EncodeEntry(e)];
    ConcatSnoc(EncodeEntries(es), EncodeEntry(e));
  }

  lemma KeysSnoc(es: seq<Entry>, e: Entry)
    ensures KeysOf(es + [e]) == KeysOf(es) + [e.key]
  {
  }

  function FlushGroups(g: Grouped): Grouped
  {
    if g.tail == [] then g else Grouped(g.groups + [g.tail], [])
  }

  lemma FlushHolds(s: State, g: Grouped)
    requires Holds(s, g)
    ensures Holds(FlushStep(s), FlushGroups(g))
    ensures Flat(FlushGroups(g).groups) + FlushGroups(g).tail == Flat(g.groups) + g.tail
  {
    hide EncodeEntry, KeyIn, Encodable;
    if g.tail != [] {
      assert s.cur[0] == EncodeEntry(g.tail[0]);
      KeyInEncoded(g.tail[0]);
      FlatSnoc(g.groups, g.tail);
      NothingEncoded();
    }
  }

  lemma NothingEncoded()
    ensures EncodeEntries([]) == [] && Concat([]) == []
  {
  }

  lemma AddHolds(blockSize: nat, s: State, g: Grouped, e: Entry) returns (g': Grouped)
    requires Holds(s, g) && Encodable(e)
    ensures Holds(AddStep(blockSize, s, e), g')
    ensures Flat(g'.groups) + g'.tail == Flat(g.groups) + g.tail + [e]
  {
    hide EncodeEntry, KeyIn, Encodable, EncodeEntries, Concat, Flat;
    var t, h := s, g;
    if Overflows(blockSize, s, |EncodeEntry(e)|) {
      t, h := FlushStep(s), FlushGroups(g);
      FlushHolds(s, g);
    }
    g' := Grouped(h.groups, h.tail + [e]);
    EncodeSnoc(h.tail, e);
    KeysSnoc(Flat(h.groups) + h.tail, e);
    assert Flat(h.groups) + (h.tail + [e]) == Flat(h.groups) + h.tail + [e];
  }

  /** Whatever was added stands, in the order of the calls, in the blocks. */
  lemma {:induction false} AddAllHolds(blockSize: nat, s: State, g: Grouped, es: seq<Entry>) returns (g': Grouped)
    requires Holds(s, g) && AllEncodable(es)
    ensures Holds(AddAll(blockSize, s, es), g')
    ensures Flat(g'.groups) + g'.tail == Flat(g.groups) + g.tail + es
    decreases |es|
  {
    hide EncodeEntry, Encodable, EncodeEntries, Concat, Flat, Holds, AddStep;
    if es == [] {
      g' := g;
    } else {
      var h := AddHolds(blockSize, s, g, es[0]);
      g' := AddAllHolds(blockSize, AddStep(blockSize, s, es[0]), h, es[1..]);
      assert es == [es[0]] + es[1..];
    }
  }

  lemma NewHolds()
    ensures Holds(New(), Grouped([], []))
  {
    NothingEncoded();
  }

  // ---------------------------------------------------------------- finish

  /** What `finish` returns, with the bytes of the file. */
  datatype Finished = Finished(file: Bytes, minKey: Bytes, maxKey: Bytes)

  /** Every block is what `add` and the flush make. */
  predicate BlocksOk(blocks: seq<Block>)
  {
    forall i :: 0 <= i < |blocks| ==>
      |blocks[i].entries| <= |Concat(blocks[i].entries)| && blocks[i].len == 4 + |Concat(blocks[i].entries)|
  }

  /** Below two gigabytes, and a filter whose size fits its header. */
  predicate Writable(o: Options, s: State)
  {
    && BlocksOk(s.blocks)
    && EstimatedSize(o, s) < BLOCK_COMPRESSED_FLAG
    && (o.useBloom ==> BloomBits(s.total, o.bitsPerEntry) < TWO32 && o.hashes < TWO32)
  }

  lemma {:induction false} SizesBound(blocks: seq<Block>, i: nat)
    requires i < |blocks|
    ensures blocks[i].len <= BlocksSize(blocks)
    ensures |blocks[i].firstKey| <= IndexSize(blocks)
    ensures |blocks| <= IndexSize(blocks)
  {
    if i > 0 {
      SizesBound(blocks[1..], i - 1);
    } else if |blocks| > 1 {
      SizesBound(blocks[1..], 0);
    }
  }

  lemma BlocksFit(blocks: seq<Block>, limit: int)
    requires BlocksOk(blocks) && BlocksSize(blocks) < limit && IndexSize(blocks) < limit <= TWO32
    ensures |blocks| < limit
    ensures forall i :: 0 <= i < |blocks| ==>
              |blocks[i].entries| < TWO32 && |RawBlock(blocks[i].entries)| < limit && |blocks[i].firstKey| < limit
  {
    if blocks == [] {
      assert 0 <= BlocksSize(blocks);
    }
    forall i | 0 <= i < |blocks|
      ensures |blocks| < limit && blocks[i].len < limit && |blocks[i].firstKey| < limit
    {
      SizesBound(blocks, i);
    }
    if blocks != [] {
      SizesBound(blocks, 0);
    }
  }

  /** The stored blocks are no longer than the raw ones, and as long without compression. */
  lemma {:induction false} ImageSize(blocks: seq<Block>, codec: Codec, o: Options)
    requires BlocksOk(blocks) && forall i :: 0 <= i < |blocks| ==> |blocks[i].entries| < TWO32
    ensures var n := |Image(StoredBlocks(blocks, codec, o))|;
            n <= BlocksSize(blocks) && (!o.compress ==> n == BlocksSize(blocks))
  {
    hide Store;
    if blocks != [] {
      ImageSize(blocks[1..], codec, o);
      assert StoredBlocks(blocks, codec, o)[1..] == StoredBlocks(blocks[1..], codec, o);
    }
  }

  lemma IndexCons(ent: IndexEntry, rest: seq<IndexEntry>)
    requires IndexEncodable(ent) && IndexAllEncodable(rest)
    ensures IndexAllEncodable([ent] + rest)
    ensures |EncodeIndexEntries([ent] + rest)| == 20 + |ent.firstKey| + |EncodeIndexEntries(rest)|
  {
    hide EncodeIndexEntry;
    assert ([ent] + rest)[1..] == rest;
  }

  lemma {:induction false} IndexFits(blocks: seq<Block>, stored: seq<Stored>, pos: nat)
    requires |stored| == |blocks| && pos + |Image(stored)| < TWO64
    requires forall i :: 0 <= i < |blocks| ==> |blocks[i].firstKey| < TWO32 && 0 <= stored[i].lenField < TWO32
    ensures IndexAllEncodable(IndexOf(blocks, stored, pos))
    ensures |EncodeIndexEntries(IndexOf(blocks, stored, pos))| == IndexSize(blocks)
  {
    hide Crc32c, EncodeIndexEntry, IndexAllEncodable;
    if blocks == [] {
      NoIndex();
    } else {
      var rest := IndexOf(blocks[1..], stored[1..], pos + |stored[0].bytes|);
      IndexFits(blocks[1..], stored[1..], pos + |stored[0].bytes|);
      IndexCons(IndexEntry(blocks[0].firstKey, pos, stored[0].lenField, Crc32c(stored[0].bytes)), rest);
    }
  }

  lemma NoIndex()
    ensures IndexAllEncodable([]) && EncodeIndexEntries([]) == []
  {
  }

  lemma LenFieldFits(raw: Bytes, codec: Codec, enabled: bool, threshold: nat)
    requires |raw| < BLOCK_COMPRESSED_FLAG
    ensures 0 <= Store(raw, codec, enabled, threshold).lenField < TWO32
  {
  }

  /** The parts of the file before the footer. */
  datatype Parts = Parts(body: Bytes, index: seq<IndexEntry>, bloom: Bytes)

  lemma PartsFit(o: Options, codec: Codec, s: State)
    requires s.cur == [] && Writable(o, s)
    ensures forall i :: 0 <= i < |s.blocks| ==>
              |s.blocks[i].entries| < TWO32 && |RawBlock(s.blocks[i].entries)| < BLOCK_COMPRESSED_FLAG
    ensures var stored := StoredBlocks(s.blocks, codec, o);
            var index := IndexOf(s.blocks, stored, SST_HEADER_LEN);
            && IndexAllEncodable(index) && |index| < BLOCK_COMPRESSED_FLAG
            && |Image(stored)| <= BlocksSize(s.blocks)
            && (!o.compress ==> |Image(stored)| == BlocksSize(s.blocks))
            && |EncodeIndex(index)| == 4 + IndexSize(s.blocks)
  {
    hide Store, RawBlock, Image, IndexOf, EncodeIndexEntries, BlocksSize, IndexSize, BloomSize, IndexAllEncodable;
    BlocksFit(s.blocks, BLOCK_COMPRESSED_FLAG);
    var stored := StoredBlocks(s.blocks, codec, o);
    ImageSize(s.blocks, codec, o);
    forall i | 0 <= i < |stored|
      ensures 0 <= stored[i].lenField < TWO32
    {
      LenFieldFits(RawBlock(s.blocks[i].entries), codec, o.compress, o.threshold);
    }
    IndexFits(s.blocks, stored, SST_HEADER_LEN);
  }

  function PartsOf(o: Options, codec: Codec, s: State): (p: Parts)
    requires s.cur == [] && Writable(o, s)
    ensures IndexAllEncodable(p.index) && |p.index| < BLOCK_COMPRESSED_FLAG
    ensures |p.body| <= BlocksSize(s.blocks) && (!o.compress ==> |p.body| == BlocksSize(s.blocks))
    ensures |EncodeIndex(p.index)| == 4 + IndexSize(s.blocks)
    ensures |p.bloom| == BloomSize(o, s.total)
  {
    hide Image, IndexOf, EncodeIndexEntries, BlocksSize, IndexSize, IndexAllEncodable, AddKeys, BlocksOk;
    PartsFit(o, codec, s);
    var stored := StoredBlocks(s.blocks, codec, o);
    Parts(Image(stored), IndexOf(s.blocks, stored, SST_HEADER_LEN),
          if o.useBloom then Bloom(s.keys, BloomBits(s.total, o.bitsPerEntry), o.hashes) else [])
  }

  function FooterOf(o: Options, p: Parts): (f: Footer)
    requires IndexAllEncodable(p.index) && |p.index| < TWO32
  {
    var index := EncodeIndex(p.index);
    Footer(SST_HEADER_LEN + |p.body|, if o.useBloom then SST_HEADER_LEN + |p.body| + |index| else 0, Crc32c(index))
  }

  function FileOf(o: Options, p: Parts): (r: Bytes)
    requires IndexAllEncodable(p.index) && |p.index| < TWO32 && FooterEncodable(FooterOf(o, p))
    ensures |r| == SST_HEADER_LEN + |p.body| + |EncodeIndex(p.index)| + |p.bloom| + SST_FOOTER_LEN
  {
    HEADER + p.body + EncodeIndex(p.index) + p.bloom + EncodeFooter(FooterOf(o, p))
  }

  function LastKey(blocks: seq<Block>): Bytes
  {
    if blocks == [] then []
    else
      var entries := blocks[|blocks| - 1].entries;
      if entries == [] then [] else KeyIn(entries[|entries| - 1])
  }

  /** `finish` on a writer whose current block has been flushed. */
  function FinishFlushed(o: Options, codec: Codec, t: State): (r: Finished)
    requires t.cur == [] && Writable(o, t)
    ensures |r.file| <= EstimatedSize(o, t)
    ensures !o.compress ==> |r.file| == EstimatedSize(o, t)
  {
    hide PartsOf, Crc32c, EncodeIndexEntries, BlocksSize, IndexSize, BloomSize, IndexAllEncodable, BlocksOk, KeyIn;
    var p := PartsOf(o, codec, t);
    Finished(FileOf(o, p), if t.blocks == [] then [] else t.blocks[0].firstKey, LastKey(t.blocks))
  }
}
