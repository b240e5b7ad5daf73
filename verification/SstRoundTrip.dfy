/** Reading back what `SSTWriter` has written: `open`, `iterator`, `get` and `iteratorRange`
    on the file that `finish` makes of any added entries. */
module SstRoundTrip {
  import opened Bytes
  import opened Checksum
  import opened Entries
  import opened SstFormat
  import opened SstBloom
  import opened SstWriter
  import opened SstReader

  // ---------------------------------------------------------------- where the parts stand

  lemma FileParts(h: Bytes, body: Bytes, index: Bytes, bloom: Bytes, footer: Bytes)
    ensures var file := h + body + index + bloom + footer;
            && At(file, 0, h)
            && At(file, |h|, body)
            && At(file, |h| + |body|, index)
            && At(file, |h| + |body| + |index|, bloom)
            && At(file, |h| + |body| + |index| + |bloom|, footer)
  {
    var a, b, c := h + body, h + body + index, h + body + index + bloom;
    var file := c + footer;
    TwoParts(c, footer);
    AtConcat(file, 0, b, bloom);
    AtConcat(file, 0, a, index);
    AtConcat(file, 0, h, body);
  }

  lemma ReadAtIs(file: Bytes, pos: nat, part: Bytes)
    requires At(file, pos, part)
    ensures ReadAt(file, pos, |part|) == part
  {
  }

  /** What `open` of the written file gives. */
  function ReaderOf(o: Options, p: Parts): (r: Reader)
    requires forall i :: 0 <= i < |p.index| ==> 0 <= p.index[i].blockLen < TWO32
    ensures IndexOk(r.index)
  {
    Reader(p.index, if o.useBloom then Some(p.bloom) else None)
  }

  lemma OpenWritten(o: Options, p: Parts)
    requires IndexAllEncodable(p.index) && |p.index| < TWO32 && FooterEncodable(FooterOf(o, p))
    requires if o.useBloom then |p.bloom| > 0 else p.bloom == []
    ensures Open(FileOf(o, p)) == Some(ReaderOf(o, p))
  {
    hide EncodeIndex, EncodeFooter, ParseFooter, ParseIndex, Crc32c, ReadAt, FooterEncodable, IndexAllEncodable, At;
    var file := FileOf(o, p);
    var index := EncodeIndex(p.index);
    var footer := EncodeFooter(FooterOf(o, p));
    FileParts(HEADER, p.body, index, p.bloom, footer);
    FooterStands(file, |file| - SST_FOOTER_LEN, footer);
    ParseFooterWritten(FooterOf(o, p));
    ReadAtIs(file, 0, HEADER);
    ReadAtIs(file, SST_HEADER_LEN + |p.body|, index);
    ParseIndexWritten(p.index);
    ReadAtIs(file, SST_HEADER_LEN + |p.body| + |index|, p.bloom);
    IndexIsOk(p.index);
  }

  lemma FooterStands(file: Bytes, pos: nat, footer: Bytes)
    requires At(file, pos, footer) && pos + |footer| == |file|
    ensures file[pos..] == footer
  {
  }

  lemma IndexIsOk(index: seq<IndexEntry>)
    requires IndexAllEncodable(index)
    ensures forall i :: 0 <= i < |index| ==> 0 <= index[i].blockLen < TWO32
  {
  }

  // ---------------------------------------------------------------- blocks

  ghost predicate Blocked(blocks: seq<Block>, groups: seq<seq<Entry>>)
  {
    && |blocks| == |groups|
    && forall i :: 0 <= i < |groups| ==> GoodGroup(groups[i]) && blocks[i] == BlockOf(groups[i])
  }

  /** Each block is short enough, and its count fits. */
  ghost predicate Short(blocks: seq<Block>)
  {
    forall i :: 0 <= i < |blocks| ==>
      |blocks[i].entries| < TWO32 && |RawBlock(blocks[i].entries)| < BLOCK_COMPRESSED_FLAG
  }

  /** The index entry leads to the block, and the block holds its group. */
  ghost predicate Leads(file: Bytes, ent: IndexEntry, codec: Codec, g: seq<Entry>)
  {
    && 0 <= ent.blockLen < TWO32 && g != []
    && ent.firstKey == g[0].key
    && ReadBlock(file, ent, codec) == Some(RawBlockOf(g))
    && ReadU32(RawBlockOf(g), 0) == Some(|g|)
    && ParseBlock(RawBlockOf(g)) == Some(g)
  }

  function RawBlockOf(g: seq<Entry>): Bytes
  {
    if AllEncodable(g) && |g| < TWO32 then RawBlock(EncodeEntries(g)) else []
  }

  ghost predicate AllLead(file: Bytes, index: seq<IndexEntry>, codec: Codec, groups: seq<seq<Entry>>)
  {
    |index| == |groups| && forall i :: 0 <= i < |groups| ==> Leads(file, index[i], codec, groups[i])
  }

  lemma OneLeads(file: Bytes, pos: nat, g: seq<Entry>, codec: Codec, o: Options)
    requires GoodGroup(g) && Inverse(codec)
    requires |EncodeEntries(g)| < TWO32 && |RawBlock(EncodeEntries(g))| < BLOCK_COMPRESSED_FLAG
    requires At(file, pos, Store(RawBlock(EncodeEntries(g)), codec, o.compress, o.threshold).bytes)
    ensures var s := Store(RawBlock(EncodeEntries(g)), codec, o.compress, o.threshold);
            Leads(file, IndexEntry(g[0].key, pos, s.lenField, Crc32c(s.bytes)), codec, g)
  {
    hide EncodeEntries, Store, Crc32c, ParseBlock, U32, ReadU32, Concat, Inverse, ReadBlock;
    ReadBlockWritten(file, pos, RawBlock(EncodeEntries(g)), g[0].key, codec, o.compress, o.threshold);
    ParseBlockWritten(g);
    TwoParts(U32(|g|), Concat(EncodeEntries(g)));
    ReadU32Written(RawBlock(EncodeEntries(g)), 0, |g|);
  }

  lemma AllLeadCons(file: Bytes, ent: IndexEntry, index: seq<IndexEntry>, codec: Codec, g: seq<Entry>,
                    groups: seq<seq<Entry>>)
    requires Leads(file, ent, codec, g) && AllLead(file, index, codec, groups)
    ensures AllLead(file, [ent] + index, codec, [g] + groups)
  {
    hide Leads;
  }

  lemma {:induction false} BlocksLead(file: Bytes, pos: nat, blocks: seq<Block>, groups: seq<seq<Entry>>, codec: Codec,
                                      o: Options)
    requires Blocked(blocks, groups) && Short(blocks) && Inverse(codec)
    requires At(file, pos, Image(StoredBlocks(blocks, codec, o)))
    ensures AllLead(file, IndexOf(blocks, StoredBlocks(blocks, codec, o), pos), codec, groups)
    decreases |blocks|
  {
    hide Leads, Crc32c, Store, RawBlock, EncodeEntries, AllLead, Inverse, At, StoredBlocks, Image, IndexOf, BlockOf;
    var stored := StoredBlocks(blocks, codec, o);
    var index := IndexOf(blocks, stored, pos);
    if blocks == [] {
      NoneLeads(file, codec);
      assert index == [] && groups == [];
    } else {
      var s := stored[0];
      var rest := StoredBlocks(blocks[1..], codec, o);
      StoredUnfold(blocks, codec, o, pos);
      AtConcat(file, pos, s.bytes, Image(rest));
      FirstBlock(blocks, groups);
      OneLeads(file, pos, groups[0], codec, o);
      BlocksLead(file, pos + |s.bytes|, blocks[1..], groups[1..], codec, o);
      AllLeadCons(file, IndexEntry(blocks[0].firstKey, pos, s.lenField, Crc32c(s.bytes)),
                  IndexOf(blocks[1..], rest, pos + |s.bytes|), codec, groups[0], groups[1..]);
      assert groups == [groups[0]] + groups[1..];
    }
  }

  lemma StoredUnfold(blocks: seq<Block>, codec: Codec, o: Options, pos: nat)
    requires Short(blocks) && blocks != []
    ensures Short(blocks[1..])
    ensures var stored, rest := StoredBlocks(blocks, codec, o), StoredBlocks(blocks[1..], codec, o);
            && stored[0] == Store(RawBlock(blocks[0].entries), codec, o.compress, o.threshold)
            && Image(stored) == stored[0].bytes + Image(rest)
            && IndexOf(blocks, stored, pos) ==
               [IndexEntry(blocks[0].firstKey, pos, stored[0].lenField, Crc32c(stored[0].bytes))] +
               IndexOf(blocks[1..], rest, pos + |stored[0].bytes|)
  {
    hide Store, RawBlock, Crc32c;
    assert StoredBlocks(blocks, codec, o)[1..] == StoredBlocks(blocks[1..], codec, o);
  }

  lemma FirstBlock(blocks: seq<Block>, groups: seq<seq<Entry>>)
    requires Blocked(blocks, groups) && blocks != []
    ensures GoodGroup(groups[0]) && blocks[0].firstKey == groups[0][0].key
    ensures blocks[0].entries == EncodeEntries(groups[0])
    ensures Blocked(blocks[1..], groups[1..])
  {
    hide EncodeEntries, Concat;
  }

  lemma NoneLeads(file: Bytes, codec: Codec)
    ensures AllLead(file, [], codec, [])
  {
  }

  // ---------------------------------------------------------------- iterator()

  lemma {:induction false} ReadAllLed(file: Bytes, index: seq<IndexEntry>, codec: Codec, groups: seq<seq<Entry>>)
    requires AllLead(file, index, codec, groups) && IndexOk(index)
    ensures ReadAll(file, index, codec) == Some(Flat(groups))
  {
    hide ReadBlock, ParseBlock, RawBlockOf;
    if index != [] {
      assert Leads(file, index[0], codec, groups[0]);
      assert AllLead(file, index[1..], codec, groups[1..]);
      ReadAllLed(file, index[1..], codec, groups[1..]);
    }
  }

  // ---------------------------------------------------------------- binary search

  ghost predicate SortedIndex(index: seq<IndexEntry>)
  {
    forall i, j :: 0 <= i < j < |index| ==> Less(index[i].firstKey, index[j].firstKey)
  }

  /** The last block whose first key is not above the key, or the first block. */
  ghost predicate RightBlock(index: seq<IndexEntry>, key: Bytes, b: nat)
  {
    && b < |index|
    && (b == 0 || !Less(key, index[b].firstKey))
    && forall j :: b < j < |index| ==> Less(key, index[j].firstKey)
  }

  lemma {:induction false} SearchFinds(index: seq<IndexEntry>, key: Bytes, lo: int, hi: int, bi: nat)
    requires SortedIndex(index) && 0 <= lo <= hi + 1 <= |index| && bi < |index|
    requires bi == 0 || !Less(key, index[bi].firstKey)
    requires lo == 0 || bi == lo - 1
    requires forall j :: hi < j < |index| ==> Less(key, index[j].firstKey)
    ensures RightBlock(index, key, Search(index, key, lo, hi, bi))
    decreases hi - lo + 1
  {
    hide Less, Search, SortedIndex, RightBlock;
    if lo <= hi {
      var mid := (lo + hi) / 2;
      SearchStep(index, key, lo, hi, bi);
      if Less(key, index[mid].firstKey) {
        AllAbove(index, key, mid);
        SearchFinds(index, key, lo, mid - 1, bi);
      } else {
        SearchFinds(index, key, mid + 1, hi, mid);
      }
    } else {
      SearchEnds(index, key, lo, hi, bi);
    }
  }

  lemma SearchStep(index: seq<IndexEntry>, key: Bytes, lo: int, hi: int, bi: nat)
    requires 0 <= lo <= hi < |index|
    ensures var mid := (lo + hi) / 2;
            Search(index, key, lo, hi, bi) ==
            if Less(key, index[mid].firstKey) then Search(index, key, lo, mid - 1, bi)
            else Search(index, key, mid + 1, hi, mid)
  {
  }

  lemma SearchEnds(index: seq<IndexEntry>, key: Bytes, lo: int, hi: int, bi: nat)
    requires 0 <= lo == hi + 1 <= |index| && bi < |index|
    requires bi == 0 || !Less(key, index[bi].firstKey)
    requires lo == 0 || bi == lo - 1
    requires forall j :: hi < j < |index| ==> Less(key, index[j].firstKey)
    ensures RightBlock(index, key, Search(index, key, lo, hi, bi))
  {
  }

  lemma AllAbove(index: seq<IndexEntry>, key: Bytes, mid: nat)
    requires SortedIndex(index) && mid < |index| && Less(key, index[mid].firstKey)
    ensures forall j :: mid <= j < |index| ==> Less(key, index[j].firstKey)
  {
    hide Less;
    forall j | mid <= j < |index|
      ensures Less(key, index[j].firstKey)
    {
      if mid < j {
        LessTransitive(key, index[mid].firstKey, index[j].firstKey);
      }
    }
  }

  // ---------------------------------------------------------------- sorted groups

  lemma {:induction false} FlatSplit(groups: seq<seq<Entry>>, b: nat)
    requires b < |groups|
    ensures Flat(groups) == Flat(groups[..b]) + groups[b] + Flat(groups[b + 1..])
  {
    if b == 0 {
      assert groups[..0] == [];
      assert [] + groups[0] + Flat(groups[1..]) == groups[0] + Flat(groups[1..]);
    } else {
      FlatSplit(groups[1..], b - 1);
      assert groups[..b][1..] == groups[1..][..b - 1] && groups[1..][b..] == groups[b + 1..];
      var x, y, z := Flat(groups[1..][..b - 1]), groups[b], Flat(groups[b + 1..]);
      assert groups[0] + (x + y + z) == (groups[0] + x) + y + z;
    }
  }

  /** Every entry of these groups has a key at least `key`. */
  lemma {:induction false} FlatMember(groups: seq<seq<Entry>>, e: Entry) returns (i: nat)
    requires e in Flat(groups)
    ensures i < |groups| && e in groups[i]
  {
    if e in groups[0] {
      i := 0;
    } else {
      var j := FlatMember(groups[1..], e);
      i := j + 1;
    }
  }

  ghost predicate GroupsBelow(a: seq<Entry>, b: seq<Entry>)
  {
    forall x, y :: x in a && y in b ==> Less(x.key, y.key)
  }

  lemma SortedConcat(a: seq<Entry>, b: seq<Entry>)
    requires StrictlySorted(a + b)
    ensures StrictlySorted(a) && StrictlySorted(b) && GroupsBelow(a, b)
  {
    var s := a + b;
    assert forall i :: 0 <= i < |a| ==> s[i] == a[i];
    assert forall i :: 0 <= i < |b| ==> s[|a| + i] == b[i];
    forall i, j | 0 <= i < j < |b|
      ensures Less(b[i].key, b[j].key)
    {
      assert Less(s[|a| + i].key, s[|a| + j].key);
    }
    forall i, j | 0 <= i < |a| && 0 <= j < |b|
      ensures Less(a[i].key, b[j].key)
    {
      assert Less(s[i].key, s[|a| + j].key);
    }
  }

  lemma FirstOfGroups(groups: seq<seq<Entry>>, i: nat, j: nat)
    requires StrictlySorted(Flat(groups)) && i < j < |groups| && groups[i] != [] && groups[j] != []
    ensures Less(groups[i][0].key, groups[j][0].key)
  {
    FlatSplit(groups, j);
    var before := Flat(groups[..j]);
    SortedConcat(before + groups[j], Flat(groups[j + 1..]));
    SortedConcat(before, groups[j]);
    FlatSplit(groups[..j], i);
    assert groups[..j][i] == groups[i] && groups[i][0] in before;
  }

  lemma LedIndexSorted(file: Bytes, index: seq<IndexEntry>, codec: Codec, groups: seq<seq<Entry>>)
    requires AllLead(file, index, codec, groups) && StrictlySorted(Flat(groups))
    ensures SortedIndex(index)
  {
    hide ReadBlock, ParseBlock, RawBlockOf, Flat, Less;
    forall i, j | 0 <= i < j < |index|
      ensures Less(index[i].firstKey, index[j].firstKey)
    {
      assert Leads(file, index[i], codec, groups[i]) && Leads(file, index[j], codec, groups[j]);
      FirstOfGroups(groups, i, j);
    }
  }

  /** No entry of an earlier group has the key, none of a later one either. */
  lemma OnlyInBlock(groups: seq<seq<Entry>>, b: nat, key: Bytes)
    requires StrictlySorted(Flat(groups)) && b < |groups| && groups[b] != []
    requires b > 0 ==> !Less(key, groups[b][0].key)
    requires forall j :: b < j < |groups| ==> groups[j] != [] && Less(key, groups[j][0].key)
    ensures Lookup(Flat(groups), key) == Lookup(groups[b], key)
  {
    hide Flat, Less, Lookup;
    LessIrreflexive(key);
    var before, g, after := Flat(groups[..b]), groups[b], Flat(groups[b + 1..]);
    FlatSplit(groups, b);
    SortedConcat(before + g, after);
    SortedConcat(before, g);
    LookupConcat(before + g, after, key);
    LookupConcat(before, g, key);
    if b > 0 {
      NotBelow(before, g, key);
    }
    if b == 0 {
      assert groups[..0] == [];
      NoneFlat(key);
    }
    if Lookup(after, key).Some? {
      AfterIsAbove(groups, b, key, Lookup(after, key).value);
    }
  }

  lemma NotBelow(before: seq<Entry>, g: seq<Entry>, key: Bytes)
    requires GroupsBelow(before, g) && g != [] && !Less(key, g[0].key)
    ensures Lookup(before, key) == None
  {
    forall e | e in before
      ensures e.key != key
    {
      assert g[0] in g && Less(e.key, g[0].key);
    }
  }

  lemma NoneFlat(key: Bytes)
    ensures Lookup(Flat([]), key) == None
  {
  }

  lemma AfterIsAbove(groups: seq<seq<Entry>>, b: nat, key: Bytes, e: Entry)
    requires StrictlySorted(Flat(groups)) && b < |groups| && e in Flat(groups[b + 1..])
    requires forall j :: b < j < |groups| ==> groups[j] != [] && Less(key, groups[j][0].key)
    ensures Less(key, e.key)
  {
    hide Flat, Less, StrictlySorted;
    var i := FlatMember(groups[b + 1..], e);
    var j := b + 1 + i;
    assert groups[b + 1..][i] == groups[j];
    GroupIsSorted(groups, j);
    AboveFirst(groups[j], key, e);
  }

  lemma GroupIsSorted(groups: seq<seq<Entry>>, j: nat)
    requires StrictlySorted(Flat(groups)) && j < |groups|
    ensures StrictlySorted(groups[j])
  {
    hide Flat, Less, StrictlySorted;
    FlatSplit(groups, j);
    SortedConcat(Flat(groups[..j]) + groups[j], Flat(groups[j + 1..]));
    SortedConcat(Flat(groups[..j]), groups[j]);
  }

  lemma AboveFirst(g: seq<Entry>, key: Bytes, e: Entry)
    requires StrictlySorted(g) && e in g && Less(key, g[0].key)
    ensures Less(key, e.key)
  {
    var k :| 0 <= k < |g| && g[k] == e;
    if k > 0 {
      LessTransitive(key, g[0].key, e.key);
    }
  }

  // ---------------------------------------------------------------- get()

  lemma {:induction false} FindIsLookup(buf: Bytes, pos: nat, es: seq<Entry>, key: Bytes)
    requires ParseEntries(buf, pos, |es|) == Some(es)
    ensures FindIn(buf, pos, |es|, key) == Some(Lookup(es, key))
    decreases |es|
  {
    hide ParseEntry;
    if es != [] {
      var e := ParseEntry(buf, pos).value;
      var rest := ParseEntries(buf, e.1, |es| - 1);
      assert es == [e.0] + rest.value;
      assert es[1..] == rest.value;
      FindIsLookup(buf, e.1, es[1..], key);
    }
  }

  /** The filter lets every key of the file pass. */
  ghost predicate Admits(bloom: Option<Bytes>, es: seq<Entry>)
  {
    && (forall e :: e in es ==> PossiblyContains(bloom, e.key) == Some(true))
    && forall key :: PossiblyContains(bloom, key).Some?
  }

  lemma GetLed(file: Bytes, r: Reader, codec: Codec, groups: seq<seq<Entry>>, key: Bytes)
    requires IndexOk(r.index) && AllLead(file, r.index, codec, groups) && StrictlySorted(Flat(groups))
    requires Admits(r.bloom, Flat(groups))
    ensures GetEntry(file, r, codec, key) == Some(Lookup(Flat(groups), key))
  {
    hide PossiblyContains, ReadBlock, ParseEntries, FindIn, Flat, Lookup, RawBlockOf, ReadU32, Search, Less;
    var all := Flat(groups);
    assert PossiblyContains(r.bloom, key).Some?;
    if r.index == [] {
      assert groups == [];
      NoneFlat(key);
    } else if PossiblyContains(r.bloom, key).value {
      LedIndexSorted(file, r.index, codec, groups);
      SearchFinds(r.index, key, 0, |r.index| - 1, 0);
      var b := Search(r.index, key, 0, |r.index| - 1, 0);
      assert forall j :: 0 <= j < |groups| ==> Leads(file, r.index[j], codec, groups[j]);
      OnlyInBlock(groups, b, key);
      FindIsLookup(RawBlockOf(groups[b]), 4, groups[b], key);
    } else {
      RejectedIsAbsent(r.bloom, all, key);
    }
  }

  lemma RejectedIsAbsent(bloom: Option<Bytes>, es: seq<Entry>, key: Bytes)
    requires Admits(bloom, es) && PossiblyContains(bloom, key) == Some(false)
    ensures Lookup(es, key) == None
  {
    hide PossiblyContains;
    assert forall e :: e in es ==> e.key != key;
  }

  lemma WrittenBloomAdmits(o: Options, s: State, es: seq<Entry>)
    requires o.useBloom ==> 0 < BloomBits(s.total, o.bitsPerEntry) < TWO32 && o.hashes < TWO32
    requires s.keys == KeysOf(es)
    ensures Admits(if o.useBloom then Some(Bloom(s.keys, BloomBits(s.total, o.bitsPerEntry), o.hashes)) else None, es)
  {
    if o.useBloom {
      var bits, k := BloomBits(s.total, o.bitsPerEntry), o.hashes;
      var bloom := Bloom(s.keys, bits, k);
      forall e | e in es
        ensures PossiblyContains(Some(bloom), e.key) == Some(true)
      {
        var i :| 0 <= i < |es| && es[i] == e;
        assert s.keys[i] == e.key;
        BloomNeverRejects(s.keys, bits, k, i);
      }
      BloomHeader(s.keys, bits, k);
    }
  }

  lemma BloomHeader(keys: seq<Bytes>, bits: nat, k: nat)
    requires 0 < bits < TWO32 && k < TWO32
    ensures forall key :: PossiblyContains(Some(Bloom(keys, bits, k)), key).Some?
  {
    hide U32, ReadU32, AddKeys, Asked, At;
    var filled := AddKeys(Zeros((bits + 7) / 8), keys, bits, k);
    var bloom := Bloom(keys, bits, k);
    TwoParts(U32(bits) + U32(k), filled);
    AtConcat(bloom, 0, U32(bits), U32(k));
    ReadU32Written(bloom, 0, bits);
    ReadU32Written(bloom, 4, k);
  }

  // ---------------------------------------------------------------- iteratorRange()

  lemma {:induction false} RangeConcat(a: seq<Entry>, b: seq<Entry>, start: Option<Bytes>, end: Option<Bytes>)
    ensures Range(a + b, start, end) == Range(a, start, end) + Range(b, start, end)
  {
    hide AtOrAfter, Before;
    if a == [] {
      assert a + b == b;
    } else {
      assert (a + b)[1..] == a[1..] + b;
      RangeConcat(a[1..], b, start, end);
    }
  }

  /** Nothing of these is in the range. */
  ghost predicate Outside(es: seq<Entry>, start: Option<Bytes>, end: Option<Bytes>)
  {
    forall e :: e in es ==> !AtOrAfter(e.key, start) || !Before(e.key, end)
  }

  lemma {:induction false} RangeOutside(es: seq<Entry>, start: Option<Bytes>, end: Option<Bytes>)
    requires Outside(es, start, end)
    ensures Range(es, start, end) == []
  {
    if es != [] {
      assert es[0] in es && forall e :: e in es[1..] ==> e in es;
      RangeOutside(es[1..], start, end);
    }
  }

  /** Past one entry at or after the end, everything is outside. */
  lemma PastEnd(x: Entry, es: seq<Entry>, start: Option<Bytes>, end: Option<Bytes>)
    requires !Before(x.key, end) && forall e :: e in es ==> Less(x.key, e.key)
    ensures Outside(es, start, end)
  {
    forall e | e in es
      ensures !Before(e.key, end)
    {
      if Less(e.key, end.value) {
        LessTransitive(x.key, e.key, end.value);
      }
    }
  }

  /** Before one entry at or below the start, everything is outside. */
  lemma BeforeStart(x: Entry, es: seq<Entry>, start: Option<Bytes>, end: Option<Bytes>)
    requires start.Some? && !Less(start.value, x.key) && forall e :: e in es ==> Less(e.key, x.key)
    ensures Outside(es, start, end)
  {
    forall e | e in es
      ensures !AtOrAfter(e.key, start)
    {
      LessConnected(e.key, start.value);
      if Less(start.value, e.key) {
        LessTransitive(start.value, e.key, x.key);
      }
    }
  }

  /** The scan of one block yields its part of the range, and stops only past the end. */
  lemma {:induction false} RangeInIsRange(buf: Bytes, pos: nat, es: seq<Entry>, start: Option<Bytes>,
                                          end: Option<Bytes>)
    requires ParseEntries(buf, pos, |es|) == Some(es) && StrictlySorted(es)
    ensures var r := RangeIn(buf, pos, |es|, start, end);
            && r.Some? && r.value.0 == Range(es, start, end)
            && (r.value.1 ==> exists x :: x in es && !Before(x.key, end))
    decreases |es|
  {
    hide ParseEntry, AtOrAfter, Before, Less, ParseEntries, RangeIn, Range;
    if es == [] {
      NoEntries(buf, pos, start, end);
      EmptyRange(start, end);
    } else {
      ParseStep(buf, pos, es);
      RangeStep(buf, pos, es, start, end);
      var next := ParseEntry(buf, pos).value.1;
      assert es[0] in es && forall x :: x in es[1..] ==> x in es;
      if Before(es[0].key, end) {
        RangeInIsRange(buf, next, es[1..], start, end);
      } else {
        PastEnd(es[0], es[1..], start, end);
        RangeOutside(es[1..], start, end);
      }
    }
  }

  lemma ParseStep(buf: Bytes, pos: nat, es: seq<Entry>)
    requires es != [] && ParseEntries(buf, pos, |es|) == Some(es)
    ensures ParseEntry(buf, pos).Some? && ParseEntry(buf, pos).value.0 == es[0]
    ensures ParseEntries(buf, ParseEntry(buf, pos).value.1, |es| - 1) == Some(es[1..])
  {
    hide ParseEntry;
    var e := ParseEntry(buf, pos).value;
    var rest := ParseEntries(buf, e.1, |es| - 1);
    assert es == [e.0] + rest.value;
  }

  /** The scan and the filter take the same step. */
  lemma RangeStep(buf: Bytes, pos: nat, es: seq<Entry>, start: Option<Bytes>, end: Option<Bytes>)
    requires es != [] && ParseEntry(buf, pos).Some? && ParseEntry(buf, pos).value.0 == es[0]
    ensures var now := if AtOrAfter(es[0].key, start) then [es[0]] else [];
            var rest := RangeIn(buf, ParseEntry(buf, pos).value.1, |es| - 1, start, end);
            && (!Before(es[0].key, end) ==>
                  RangeIn(buf, pos, |es|, start, end) == Some(([], true)) &&
                  Range(es, start, end) == [] + Range(es[1..], start, end))
            && (Before(es[0].key, end) ==>
                  (rest.Some? ==> RangeIn(buf, pos, |es|, start, end) == Some((now + rest.value.0, rest.value.1))) &&
                  Range(es, start, end) == now + Range(es[1..], start, end))
  {
    hide ParseEntry, AtOrAfter, Before;
  }

  /** No block is flagged as compressed. */
  ghost predicate Plain(index: seq<IndexEntry>)
  {
    forall i :: 0 <= i < |index| ==> index[i].blockLen < BLOCK_COMPRESSED_FLAG
  }

  lemma PlainBlock(file: Bytes, ent: IndexEntry, codec: Codec, g: seq<Entry>)
    requires Leads(file, ent, codec, g) && ent.blockLen < BLOCK_COMPRESSED_FLAG
    ensures ReadPlain(file, ent) == Some(RawBlockOf(g))
    ensures ReadU32(RawBlockOf(g), 0) == Some(|g|) && ParseEntries(RawBlockOf(g), 4, |g|) == Some(g)
  {
    hide Crc32c, ReadAt, ParseEntries, RawBlockOf, ReadU32;
    NoFlag(ent.blockLen);
  }

  lemma NoFlag(len: int)
    requires 0 <= len < BLOCK_COMPRESSED_FLAG
    ensures len % BLOCK_COMPRESSED_FLAG == len
  {
  }

  lemma {:induction false} RangeBlocksLed(file: Bytes, index: seq<IndexEntry>, codec: Codec, groups: seq<seq<Entry>>,
                                          start: Option<Bytes>, end: Option<Bytes>)
    requires IndexOk(index) && AllLead(file, index, codec, groups) && Plain(index) && StrictlySorted(Flat(groups))
    ensures RangeBlocks(file, index, start, end) == Some(Range(Flat(groups), start, end))
    decreases |index|
  {
    hide Leads, ReadPlain, RangeIn, Range, RawBlockOf, ReadU32, Before, ParseEntries;
    if index == [] {
      EmptyRange(start, end);
    } else {
      var g, rest := groups[0], groups[1..];
      assert Leads(file, index[0], codec, g) && AllLead(file, index[1..], codec, rest);
      PlainBlock(file, index[0], codec, g);
      SortedConcat(g, Flat(rest));
      RangeInIsRange(RawBlockOf(g), 4, g, start, end);
      RangeConcat(g, Flat(rest), start, end);
      if RangeIn(RawBlockOf(g), 4, |g|, start, end).value.1 {
        var x :| x in g && !Before(x.key, end);
        PastEnd(x, Flat(rest), start, end);
        RangeOutside(Flat(rest), start, end);
        assert Range(g, start, end) + [] == Range(g, start, end);
      } else {
        RangeBlocksLed(file, index[1..], codec, rest, start, end);
      }
    }
  }

  lemma EmptyRange(start: Option<Bytes>, end: Option<Bytes>)
    ensures Range(Flat([]), start, end) == []
  {
  }

  /** On a file without compressed blocks, exactly the entries of the range. */
  lemma RangeLed(file: Bytes, r: Reader, codec: Codec, groups: seq<seq<Entry>>, start: Option<Bytes>,
                 end: Option<Bytes>)
    requires IndexOk(r.index) && AllLead(file, r.index, codec, groups) && Plain(r.index)
    requires StrictlySorted(Flat(groups))
    ensures RangeOf(file, r, start, end) == Some(Range(Flat(groups), start, end))
  {
    hide Leads, RangeBlocks, Range, Flat, Search, Less, StrictlySorted;
    if r.index == [] {
      assert groups == [];
      EmptyRange(start, end);
    } else if start == None {
      assert r.index[0..] == r.index;
      RangeBlocksLed(file, r.index, codec, groups, start, end);
    } else {
      LedIndexSorted(file, r.index, codec, groups);
      SearchFinds(r.index, start.value, 0, |r.index| - 1, 0);
      var b := Search(r.index, start.value, 0, |r.index| - 1, 0);
      SkipBlocks(file, r.index, codec, groups, start, end, b);
      RangeBlocksLed(file, r.index[b..], codec, groups[b..], start, end);
    }
  }

  lemma {:induction false} FlatFrom(groups: seq<seq<Entry>>, b: nat)
    requires b <= |groups|
    ensures Flat(groups) == Flat(groups[..b]) + Flat(groups[b..])
  {
    if b == 0 {
      assert groups[..0] == [] && groups[0..] == groups;
    } else {
      assert groups[..b][1..] == groups[1..][..b - 1] && groups[1..][b - 1..] == groups[b..];
      FlatFrom(groups[1..], b - 1);
    }
  }

  /** The blocks before the one the search found hold nothing of the range. */
  lemma SkipBlocks(file: Bytes, index: seq<IndexEntry>, codec: Codec, groups: seq<seq<Entry>>, start: Option<Bytes>,
                   end: Option<Bytes>, b: nat)
    requires AllLead(file, index, codec, groups) && StrictlySorted(Flat(groups))
    requires start.Some? && RightBlock(index, start.value, b)
    ensures AllLead(file, index[b..], codec, groups[b..]) && StrictlySorted(Flat(groups[b..]))
    ensures Range(Flat(groups), start, end) == Range(Flat(groups[b..]), start, end)
  {
    hide Flat, Less, Range, ReadBlock, ParseBlock, RawBlockOf, ReadU32, StrictlySorted;
    FlatFrom(groups, b);
    SortedConcat(Flat(groups[..b]), Flat(groups[b..]));
    assert forall i :: 0 <= i < |groups| ==> Leads(file, index[i], codec, groups[i]);
    RangeConcat(Flat(groups[..b]), Flat(groups[b..]), start, end);
    if b == 0 {
      assert groups[..0] == [];
      EmptyRange(start, end);
    } else {
      FirstIsIn(groups[b..]);
      BeforeStart(groups[b][0], Flat(groups[..b]), start, end);
      RangeOutside(Flat(groups[..b]), start, end);
    }
  }

  lemma FirstIsIn(groups: seq<seq<Entry>>)
    requires groups != [] && groups[0] != []
    ensures groups[0][0] in Flat(groups)
  {
  }

  // ---------------------------------------------------------------- the whole way

  /** The state in which `finish` writes the file, after these calls of `add`. */
  function Filled(o: Options, es: seq<Entry>): (s: State)
    requires AllEncodable(es)
    ensures s.cur == []
  {
    FlushStep(AddAll(o.blockSize, New(), es))
  }

  lemma FilledHolds(o: Options, es: seq<Entry>) returns (groups: seq<seq<Entry>>)
    requires AllEncodable(es)
    ensures Holds(Filled(o, es), Grouped(groups, [])) && Flat(groups) == es
  {
    hide Holds, AddAll, Flat;
    NewHolds();
    var g := AddAllHolds(o.blockSize, New(), Grouped([], []), es);
    NothingFlat(es);
    FlushHolds(AddAll(o.blockSize, New(), es), g);
    var h := FlushGroups(g);
    groups := h.groups;
    assert Flat(groups) + [] == Flat(groups);
    assert h.tail == [];
  }

  lemma NothingFlat(es: seq<Entry>)
    ensures Flat([]) + [] + es == es
  {
  }

  /** The file of `finish`, with the groups that its blocks hold. */
  function WrittenFile(o: Options, codec: Codec, es: seq<Entry>): Bytes
    requires AllEncodable(es) && Writable(o, Filled(o, es))
  {
    FinishFlushed(o, codec, Filled(o, es)).file
  }

  lemma PlainStored(blocks: seq<Block>, codec: Codec, o: Options, pos: nat)
    requires Short(blocks) && !o.compress
    ensures Plain(IndexOf(blocks, StoredBlocks(blocks, codec, o), pos))
    decreases |blocks|
  {
    hide RawBlock, Crc32c, Store, StoredBlocks, IndexOf, Image;
    if blocks == [] {
      assert IndexOf(blocks, StoredBlocks(blocks, codec, o), pos) == [];
    } else {
      StoredUnfold(blocks, codec, o, pos);
      var s := StoredBlocks(blocks, codec, o)[0];
      PlainStored(blocks[1..], codec, o, pos + |s.bytes|);
    }
  }

  lemma HoldsBlocked(s: State, groups: seq<seq<Entry>>)
    requires Holds(s, Grouped(groups, []))
    ensures Blocked(s.blocks, groups) && s.keys == KeysOf(Flat(groups))
  {
    assert Flat(groups) + [] == Flat(groups);
  }

  lemma BodyStands(o: Options, p: Parts)
    requires IndexAllEncodable(p.index) && |p.index| < TWO32 && FooterEncodable(FooterOf(o, p))
    ensures At(FileOf(o, p), SST_HEADER_LEN, p.body)
  {
    hide EncodeIndex, EncodeFooter, At, FooterOf;
    FileParts(HEADER, p.body, EncodeIndex(p.index), p.bloom, EncodeFooter(FooterOf(o, p)));
  }

  lemma FileIs(o: Options, codec: Codec, t: State)
    requires t.cur == [] && Writable(o, t)
    ensures var p := PartsOf(o, codec, t);
            && FooterEncodable(FooterOf(o, p))
            && FinishFlushed(o, codec, t).file == FileOf(o, p)
            && Short(t.blocks)
            && (o.useBloom ==> 0 < BloomBits(t.total, o.bitsPerEntry) < TWO32 && o.hashes < TWO32)
            && p.bloom == (if o.useBloom then Bloom(t.keys, BloomBits(t.total, o.bitsPerEntry), o.hashes) else [])
  {
    hide StoredBlocks, Image, IndexOf, EncodeIndexEntries, Crc32c, Bloom, BloomBits, BloomSize, RawBlock;
    hide LastKey, IndexAllEncodable, BlocksSize, IndexSize, BlocksOk, FileOf, EncodeFooter;
    PartsFit(o, codec, t);
    BloomGuard(o, t);
    var p := PartsOf(o, codec, t);
  }

  lemma BloomGuard(o: Options, t: State)
    requires Writable(o, t)
    ensures o.useBloom ==> 0 < BloomBits(t.total, o.bitsPerEntry) < TWO32 && o.hashes < TWO32
  {
  }

  lemma PartsAre(o: Options, codec: Codec, t: State)
    requires t.cur == [] && Writable(o, t) && Short(t.blocks)
    ensures var p := PartsOf(o, codec, t);
            && p.body == Image(StoredBlocks(t.blocks, codec, o))
            && p.index == IndexOf(t.blocks, StoredBlocks(t.blocks, codec, o), SST_HEADER_LEN)
  {
    hide StoredBlocks, Image, IndexOf, Bloom, BloomBits, Writable, RawBlock;
  }

  lemma WrittenParts(o: Options, codec: Codec, es: seq<Entry>) returns (r: Reader, groups: seq<seq<Entry>>)
    requires AllEncodable(es) && Inverse(codec) && Writable(o, Filled(o, es))
    ensures Flat(groups) == es && IndexOk(r.index)
    ensures Open(WrittenFile(o, codec, es)) == Some(r)
    ensures AllLead(WrittenFile(o, codec, es), r.index, codec, groups) && Admits(r.bloom, es)
    ensures !o.compress ==> Plain(r.index)
  {
    hide Filled, Writable, FileOf, Open, FinishFlushed, PartsOf, Image, IndexOf, AllLead, Inverse, At, Holds, Flat;
    hide StoredBlocks, Bloom, BloomBits, EncodeIndex, EncodeFooter, Crc32c, Plain, Admits, Short, Blocked, FooterOf;
    var t := Filled(o, es);
    groups := FilledHolds(o, es);
    HoldsBlocked(t, groups);
    FileIs(o, codec, t);
    PartsAre(o, codec, t);
    var p := PartsOf(o, codec, t);
    IndexIsOk(p.index);
    OpenWritten(o, p);
    r := ReaderOf(o, p);
    BodyStands(o, p);
    BlocksLead(FileOf(o, p), SST_HEADER_LEN, t.blocks, groups, codec, o);
    WrittenBloomAdmits(o, t, es);
    if !o.compress {
      PlainStored(t.blocks, codec, o, SST_HEADER_LEN);
    }
  }

  /** Main result. After any calls of `add`, the file that `finish` writes opens without a
      complaint; `iterator` yields exactly the added entries with all their fields, compressed
      or not; for increasing keys `get` finds exactly the entry of a key; and if no block was stored
      compressed, switched on or not, `iteratorRange` yields exactly the entries of the range. */
  lemma WrittenFileReadsBack(o: Options, codec: Codec, es: seq<Entry>) returns (r: Reader)
    requires AllEncodable(es) && Inverse(codec) && Writable(o, Filled(o, es))
    ensures IndexOk(r.index) && Open(WrittenFile(o, codec, es)) == Some(r)
    ensures ReadAll(WrittenFile(o, codec, es), r.index, codec) == Some(es)
    ensures StrictlySorted(es) ==>
              forall key :: GetEntry(WrittenFile(o, codec, es), r, codec, key) == Some(Lookup(es, key))
    ensures !o.compress ==> Plain(r.index)
    ensures StrictlySorted(es) && Plain(r.index) ==>
              forall start, end :: RangeOf(WrittenFile(o, codec, es), r, start, end) == Some(Range(es, start, end))
  {
    hide Filled, Writable, Open, ReadAll, GetEntry, RangeOf, AllLead, WrittenFile, Inverse;
    hide Lookup, Range, Flat, StrictlySorted, Plain, Admits;
    var groups;
    r, groups := WrittenParts(o, codec, es);
    var file := WrittenFile(o, codec, es);
    ReadAllLed(file, r.index, codec, groups);
    if StrictlySorted(es) {
      forall key
        ensures GetEntry(file, r, codec, key) == Some(Lookup(es, key))
      {
        GetLed(file, r, codec, groups, key);
      }
      if Plain(r.index) {
        forall start, end
          ensures RangeOf(file, r, start, end) == Some(Range(es, start, end))
        {
          RangeLed(file, r, codec, groups, start, end);
        }
      }
    }
  }
}
