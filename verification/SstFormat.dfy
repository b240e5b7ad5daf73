/** The on-disk parts of an SST file, version 3 (`libs/storage/sstwriter.ts`,
    `libs/storage/sstreader.ts`): entries, blocks, index and footer, and how each is read back.
    `None` stands for an exception of the reader. */
module SstFormat {
  import opened Bytes
  import opened Checksum
  import opened Entries
  import Varint

  const TOMBSTONE_LEN: int := 0xffff_ffff
  const BLOCK_COMPRESSED_FLAG: int := 0x8000_0000
  const SST_HEADER_MAGIC: Bytes := [0x53, 0x53, 0x54, 0x31]
  const SST_HEADER_LEN: nat := 5
  const SST_FOOTER_LEN: nat := 28
  const FOOTER_MAGIC: int := 0x5353_5446

  /** `buf.slice(from, to)`, which clips. */
  function Slice(buf: Bytes, from: nat, to: nat): (r: Bytes)
    ensures from <= to <= |buf| ==> r == buf[from..to]
  {
    var end := if to < |buf| then to else |buf|;
    if from <= end then buf[from..end] else []
  }

  // ---------------------------------------------------------------- one entry

  /** Lengths that the format can express: the largest value marks a tombstone. */
  predicate Encodable(e: Entry)
  {
    |e.key| < TWO32 && (e.value.Some? ==> |e.value.value| < TOMBSTONE_LEN)
  }

  predicate AllEncodable(es: seq<Entry>)
  {
    forall i :: 0 <= i < |es| ==> Encodable(es[i])
  }

  function ValueLen(e: Entry): int
  {
    if e.value.Some? then |e.value.value| else TOMBSTONE_LEN
  }

  function ValueBytes(e: Entry): Bytes
  {
    if e.value.Some? then e.value.value else []
  }

  function MetaBytes(e: Entry): Bytes
  {
    Varint.Encode(e.rev) + Varint.Encode(e.walOffset) + Varint.Encode(e.createdAt)
  }

  function EncodeEntry(e: Entry): (r: Bytes)
    requires Encodable(e)
    ensures |r| >= 11
  {
    U32(|e.key|) + e.key + U32(ValueLen(e)) + ValueBytes(e) + MetaBytes(e)
  }

  /** The three varints at `pos`, and the position after them. */
  function ParseMeta(buf: Bytes, pos: nat): (nat, nat, nat, nat)
  {
    var rev := Varint.Decode(buf, pos);
    var wal := Varint.Decode(buf, pos + rev.1);
    var created := Varint.Decode(buf, pos + rev.1 + wal.1);
    (rev.0, wal.0, created.0, pos + rev.1 + wal.1 + created.1)
  }

  /** The key at `pos`, the value length, and the position after it. */
  function ParseHead(buf: Bytes, pos: nat): Option<(Bytes, int, nat)>
  {
    var klen := ReadU32(buf, pos);
    if klen == None then None
    else
      var vlen := ReadU32(buf, pos + 4 + klen.value);
      if vlen == None then None
      else Some((Slice(buf, pos + 4, pos + 4 + klen.value), vlen.value, pos + 8 + klen.value))
  }

  /** One turn of the reading loops, and the position after the entry. */
  function ParseEntry(buf: Bytes, pos: nat): (r: Option<(Entry, nat)>)
  {
    var head := ParseHead(buf, pos);
    if head == None then None
    else
      var (key, vlen, p) := head.value;
      if vlen == TOMBSTONE_LEN then
        var (rev, wal, created, next) := ParseMeta(buf, p);
        Some((Entry(key, None, rev, wal, created), next))
      else
        var (rev, wal, created, next) := ParseMeta(buf, p + vlen);
        Some((Entry(key, Some(Slice(buf, p, p + vlen)), rev, wal, created), next))
  }

  lemma ParseMetaWritten(buf: Bytes, pos: nat, e: Entry)
    requires At(buf, pos, MetaBytes(e))
    ensures ParseMeta(buf, pos) == (e.rev, e.walOffset, e.createdAt, pos + |MetaBytes(e)|)
  {
    hide Varint.Encode, Varint.Decode;
    var a, b, c := Varint.Encode(e.rev), Varint.Encode(e.walOffset), Varint.Encode(e.createdAt);
    AtConcat(buf, pos, a + b, c);
    AtConcat(buf, pos, a, b);
    Varint.DecodeEncoded(buf, pos, e.rev);
    Varint.DecodeEncoded(buf, pos + |a|, e.walOffset);
    Varint.DecodeEncoded(buf, pos + |a| + |b|, e.createdAt);
  }

  lemma EntryParts(buf: Bytes, pos: nat, e: Entry)
    requires Encodable(e) && At(buf, pos, EncodeEntry(e))
    ensures At(buf, pos, U32(|e.key|)) && At(buf, pos + 4, e.key)
    ensures At(buf, pos + 4 + |e.key|, U32(ValueLen(e)))
    ensures At(buf, pos + 8 + |e.key|, ValueBytes(e))
    ensures At(buf, pos + 8 + |e.key| + |ValueBytes(e)|, MetaBytes(e))
    ensures |EncodeEntry(e)| == 8 + |e.key| + |ValueBytes(e)| + |MetaBytes(e)|
  {
    hide MetaBytes, U32, ValueBytes;
    var a, b, c, d, f := U32(|e.key|), e.key, U32(ValueLen(e)), ValueBytes(e), MetaBytes(e);
    AtConcat(buf, pos, a + b + c + d, f);
    AtConcat(buf, pos, a + b + c, d);
    AtConcat(buf, pos, a + b, c);
    AtConcat(buf, pos, a, b);
  }

  lemma ParseHeadWritten(buf: Bytes, pos: nat, e: Entry)
    requires Encodable(e) && At(buf, pos, EncodeEntry(e))
    ensures ParseHead(buf, pos) == Some((e.key, ValueLen(e), pos + 8 + |e.key|))
  {
    hide EncodeEntry, U32, ReadU32;
    EntryParts(buf, pos, e);
    ReadU32Written(buf, pos, |e.key|);
    ReadU32Written(buf, pos + 4 + |e.key|, ValueLen(e));
  }

  /** An entry is read back exactly, wherever it stands. */
  lemma ParseEntryWritten(buf: Bytes, pos: nat, e: Entry)
    requires Encodable(e) && At(buf, pos, EncodeEntry(e))
    ensures ParseEntry(buf, pos) == Some((e, pos + |EncodeEntry(e)|))
  {
    hide EncodeEntry, ParseHead, ParseMeta, MetaBytes, U32;
    EntryParts(buf, pos, e);
    ParseHeadWritten(buf, pos, e);
    ParseMetaWritten(buf, pos + 8 + |e.key| + |ValueBytes(e)|, e);
  }

  // ---------------------------------------------------------------- one block

  function EncodeEntries(es: seq<Entry>): (r: seq<Bytes>)
    requires AllEncodable(es)
    ensures |r| == |es| && forall i :: 0 <= i < |r| ==> r[i] == EncodeEntry(es[i])
  {
    if es == [] then [] else [EncodeEntry(es[0])] + EncodeEntries(es[1..])
  }

  /** The count and the entries. */
  function RawBlock(entries: seq<Bytes>): (r: Bytes)
    requires |entries| < TWO32
    ensures |r| == 4 + |Concat(entries)|
  {
    U32(|entries|) + Concat(entries)
  }

  function ParseEntries(buf: Bytes, pos: nat, n: nat): Option<seq<Entry>>
    decreases n
  {
    if n == 0 then Some([])
    else
      var e := ParseEntry(buf, pos);
      if e == None then None
      else
        var rest := ParseEntries(buf, e.value.1, n - 1);
        if rest == None then None else Some([e.value.0] + rest.value)
  }

  function ParseBlock(buf: Bytes): Option<seq<Entry>>
  {
    var num := ReadU32(buf, 0);
    if num == None then None else ParseEntries(buf, 4, num.value)
  }

  lemma EntriesUnfold(es: seq<Entry>)
    requires AllEncodable(es)
    ensures es == [] ==> Concat(EncodeEntries(es)) == []
    ensures es != [] ==>
              Concat(EncodeEntries(es)) == EncodeEntry(es[0]) + Concat(EncodeEntries(es[1..]))
  {
    hide EncodeEntry;
    if es != [] {
      assert EncodeEntries(es)[1..] == EncodeEntries(es[1..]);
    }
  }

  lemma ParseUnfold(buf: Bytes, pos: nat, e: Entry, next: nat, rest: seq<Entry>)
    requires ParseEntry(buf, pos) == Some((e, next)) && ParseEntries(buf, next, |rest|) == Some(rest)
    ensures ParseEntries(buf, pos, |rest| + 1) == Some([e] + rest)
  {
    hide ParseEntry;
  }

  lemma ParseNothing(buf: Bytes, pos: nat)
    ensures ParseEntries(buf, pos, 0) == Some([])
  {
  }

  lemma {:induction false} ParseEntriesWritten(buf: Bytes, pos: nat, es: seq<Entry>)
    requires AllEncodable(es) && At(buf, pos, Concat(EncodeEntries(es)))
    ensures ParseEntries(buf, pos, |es|) == Some(es)
    decreases |es|
  {
    hide EncodeEntry, EncodeEntries, ParseEntry, ParseEntries, Concat, Encodable, At;
    if es == [] {
      ParseNothing(buf, pos);
    } else {
      var e, rest := es[0], es[1..];
      EntriesUnfold(es);
      AtConcat(buf, pos, EncodeEntry(e), Concat(EncodeEntries(rest)));
      ParseEntryWritten(buf, pos, e);
      ParseEntriesWritten(buf, pos + |EncodeEntry(e)|, rest);
      ParseUnfold(buf, pos, e, pos + |EncodeEntry(e)|, rest);
      assert es == [e] + rest;
    }
  }

  /** Reading the parts of a buffer that consists of two. */
  lemma TwoParts(a: Bytes, b: Bytes)
    ensures At(a + b, 0, a) && At(a + b, |a|, b)
  {
  }

  lemma ParseBlockWritten(es: seq<Entry>)
    requires AllEncodable(es) && |es| < TWO32
    ensures ParseBlock(RawBlock(EncodeEntries(es))) == Some(es)
  {
    hide EncodeEntries, ParseEntries, U32, Concat, ReadU32, At;
    var buf := RawBlock(EncodeEntries(es));
    TwoParts(U32(|es|), Concat(EncodeEntries(es)));
    ReadU32Written(buf, 0, |es|);
    ParseEntriesWritten(buf, 4, es);
  }

  // ---------------------------------------------------------------- compression

  /** The compressor that the writer was configured with, and the reader's `inflateSync`. */
  datatype Codec = Codec(compress: Bytes -> Bytes, inflate: Bytes -> Option<Bytes>)

  ghost predicate Inverse(c: Codec)
  {
    forall b :: c.inflate(c.compress(b)) == Some(b)
  }

  /** What stands on disk for a block, and the length field of its index entry. */
  datatype Stored = Stored(bytes: Bytes, lenField: int)

  /** `enabled` is the configured algorithm being other than none. */
  function Store(raw: Bytes, codec: Codec, enabled: bool, threshold: nat): (r: Stored)
    ensures |r.bytes| <= |raw|
    ensures !enabled ==> r == Stored(raw, |raw|)
  {
    var small := codec.compress(raw);
    if enabled && |raw| > threshold && |small| < |raw| then Stored(small, |small| + BLOCK_COMPRESSED_FLAG)
    else Stored(raw, |raw|)
  }

  /** An entry of the index, as the writer makes it and the reader keeps it. */
  datatype IndexEntry = IndexEntry(firstKey: Bytes, offset: nat, blockLen: int, blockCks: int)

  /** Reading a block: the stored bytes, their checksum, and decompression if flagged. */
  function ReadBlock(file: Bytes, ent: IndexEntry, codec: Codec): Option<Bytes>
    requires 0 <= ent.blockLen < TWO32
  {
    var compressed := ent.blockLen >= BLOCK_COMPRESSED_FLAG;
    var stored := ReadAt(file, ent.offset, ent.blockLen % BLOCK_COMPRESSED_FLAG);
    if Crc32c(stored) != ent.blockCks then None
    else if compressed then codec.inflate(stored)
    else Some(stored)
  }

  /** A stored block is read back, compressed or not. */
  lemma ReadBlockWritten(file: Bytes, offset: nat, raw: Bytes, firstKey: Bytes, codec: Codec, enabled: bool,
                         threshold: nat)
    requires Inverse(codec) && |raw| < BLOCK_COMPRESSED_FLAG
    requires At(file, offset, Store(raw, codec, enabled, threshold).bytes)
    ensures var s := Store(raw, codec, enabled, threshold);
            && 0 <= s.lenField < TWO32
            && ReadBlock(file, IndexEntry(firstKey, offset, s.lenField, Crc32c(s.bytes)), codec) == Some(raw)
  {
    hide Crc32c, ReadAt;
  }

  // ---------------------------------------------------------------- index

  predicate IndexEncodable(ent: IndexEntry)
  {
    |ent.firstKey| < TWO32 && ent.offset < TWO64 && 0 <= ent.blockLen < TWO32 && 0 <= ent.blockCks < TWO32
  }

  predicate IndexAllEncodable(index: seq<IndexEntry>)
  {
    forall i :: 0 <= i < |index| ==> IndexEncodable(index[i])
  }

  function EncodeIndexEntry(ent: IndexEntry): (r: Bytes)
    requires IndexEncodable(ent)
    ensures |r| == 4 + |ent.firstKey| + 8 + 4 + 4
  {
    U32(|ent.firstKey|) + ent.firstKey + U64(ent.offset) + U32(ent.blockLen) + U32(ent.blockCks)
  }

  function EncodeIndexEntries(index: seq<IndexEntry>): Bytes
    requires IndexAllEncodable(index)
  {
    if index == [] then [] else EncodeIndexEntry(index[0]) + EncodeIndexEntries(index[1..])
  }

  function EncodeIndex(index: seq<IndexEntry>): (r: Bytes)
    requires IndexAllEncodable(index) && |index| < TWO32
    ensures |r| == 4 + |EncodeIndexEntries(index)|
  {
    U32(|index|) + EncodeIndexEntries(index)
  }

  function ParseIndexEntry(buf: Bytes, pos: nat): Option<(IndexEntry, nat)>
  {
    var fklen := ReadU32(buf, pos);
    if fklen == None then None
    else
      var p := pos + 4 + fklen.value;
      var of, blen, bcks := ReadU64(buf, p), ReadU32(buf, p + 8), ReadU32(buf, p + 12);
      if of == None || blen == None || bcks == None then None
      else Some((IndexEntry(Slice(buf, pos + 4, p), of.value, blen.value, bcks.value), p + 16))
  }

  function ParseIndexEntries(buf: Bytes, pos: nat, n: nat): (r: Option<seq<IndexEntry>>)
    ensures r.Some? ==> forall i :: 0 <= i < |r.value| ==> 0 <= r.value[i].blockLen < TWO32
    decreases n
  {
    if n == 0 then Some([])
    else
      var e := ParseIndexEntry(buf, pos);
      if e == None then None
      else
        var rest := ParseIndexEntries(buf, e.value.1, n - 1);
        if rest == None then None else Some([e.value.0] + rest.value)
  }

  function ParseIndex(buf: Bytes): (r: Option<seq<IndexEntry>>)
    ensures r.Some? ==> forall i :: 0 <= i < |r.value| ==> 0 <= r.value[i].blockLen < TWO32
  {
    var n := ReadU32(buf, 0);
    if n == None then None else ParseIndexEntries(buf, 4, n.value)
  }

  lemma ParseIndexEntryWritten(buf: Bytes, pos: nat, ent: IndexEntry)
    requires IndexEncodable(ent) && At(buf, pos, EncodeIndexEntry(ent))
    ensures ParseIndexEntry(buf, pos) == Some((ent, pos + |EncodeIndexEntry(ent)|))
  {
    hide U32, U64, ReadU32, ReadU64;
    var a, b, c, d, f :=
      U32(|ent.firstKey|), ent.firstKey, U64(ent.offset), U32(ent.blockLen), U32(ent.blockCks);
    AtConcat(buf, pos, a + b + c + d, f);
    AtConcat(buf, pos, a + b + c, d);
    AtConcat(buf, pos, a + b, c);
    AtConcat(buf, pos, a, b);
    ReadU32Written(buf, pos, |b|);
    ReadU64Written(buf, pos + 4 + |b|, ent.offset);
    ReadU32Written(buf, pos + 12 + |b|, ent.blockLen);
    ReadU32Written(buf, pos + 16 + |b|, ent.blockCks);
  }

  lemma ParseIndexUnfold(buf: Bytes, pos: nat, e: IndexEntry, next: nat, rest: seq<IndexEntry>)
    requires ParseIndexEntry(buf, pos) == Some((e, next)) && ParseIndexEntries(buf, next, |rest|) == Some(rest)
    ensures ParseIndexEntries(buf, pos, |rest| + 1) == Some([e] + rest)
  {
    hide ParseIndexEntry;
  }

  lemma {:induction false} ParseIndexEntriesWritten(buf: Bytes, pos: nat, index: seq<IndexEntry>)
    requires IndexAllEncodable(index) && At(buf, pos, EncodeIndexEntries(index))
    ensures ParseIndexEntries(buf, pos, |index|) == Some(index)
    decreases |index|
  {
    hide EncodeIndexEntry, ParseIndexEntry;
    if index == [] {
    } else {
      var e, rest := index[0], index[1..];
      AtConcat(buf, pos, EncodeIndexEntry(e), EncodeIndexEntries(rest));
      ParseIndexEntryWritten(buf, pos, e);
      ParseIndexEntriesWritten(buf, pos + |EncodeIndexEntry(e)|, rest);
      ParseIndexUnfold(buf, pos, e, pos + |EncodeIndexEntry(e)|, rest);
      assert index == [e] + rest;
    }
  }

  lemma ParseIndexWritten(index: seq<IndexEntry>)
    requires IndexAllEncodable(index) && |index| < TWO32
    ensures ParseIndex(EncodeIndex(index)) == Some(index)
  {
    hide EncodeIndexEntries, ParseIndexEntries, U32, ReadU32, At;
    var buf := EncodeIndex(index);
    TwoParts(U32(|index|), EncodeIndexEntries(index));
    ReadU32Written(buf, 0, |index|);
    ParseIndexEntriesWritten(buf, 4, index);
  }

  // ---------------------------------------------------------------- footer

  datatype Footer = Footer(indexOffset: int, bloomOffset: int, indexCks: int)

  predicate FooterEncodable(f: Footer)
  {
    0 <= f.indexOffset < TWO64 && 0 <= f.bloomOffset < TWO64 && 0 <= f.indexCks < TWO32
  }

  function FooterPre(f: Footer): (r: Bytes)
    requires FooterEncodable(f)
    ensures |r| == 20
  {
    U64(f.indexOffset) + U64(f.bloomOffset) + U32(f.indexCks)
  }

  function EncodeFooter(f: Footer): (r: Bytes)
    requires FooterEncodable(f)
    ensures |r| == SST_FOOTER_LEN
  {
    FooterPre(f) + U32(Crc32c(FooterPre(f))) + U32(FOOTER_MAGIC)
  }

  /** The checks of `open` on the last 28 bytes. */
  function ParseFooter(buf: Bytes): (r: Option<Footer>)
    requires |buf| == SST_FOOTER_LEN
    ensures r.Some? ==> FooterEncodable(r.value)
  {
    var f := Footer(ReadU64(buf, 0).value, ReadU64(buf, 8).value, ReadU32(buf, 16).value);
    if ReadU32(buf, 24) != Some(FOOTER_MAGIC) then None
    else if ReadU32(buf, 20) != Some(Crc32c(FooterPre(f))) then None
    else Some(f)
  }

  lemma ParseFooterWritten(f: Footer)
    requires FooterEncodable(f)
    ensures ParseFooter(EncodeFooter(f)) == Some(f)
  {
    hide U32, U64, ReadU32, ReadU64, Crc32c;
    var buf := EncodeFooter(f);
    var pre, a, b := FooterPre(f), U32(Crc32c(FooterPre(f))), U32(FOOTER_MAGIC);
    assert [] + buf + [] == buf;
    AtMiddle([], buf, []);
    AtConcat(buf, 0, pre + a, b);
    AtConcat(buf, 0, pre, a);
    AtConcat(buf, 0, U64(f.indexOffset) + U64(f.bloomOffset), U32(f.indexCks));
    AtConcat(buf, 0, U64(f.indexOffset), U64(f.bloomOffset));
    ReadU64Written(buf, 0, f.indexOffset);
    ReadU64Written(buf, 8, f.bloomOffset);
    ReadU32Written(buf, 16, f.indexCks);
    ReadU32Written(buf, 20, Crc32c(pre));
    ReadU32Written(buf, 24, FOOTER_MAGIC);
  }
}
