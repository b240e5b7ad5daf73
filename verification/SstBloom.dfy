/** The Bloom filter of an SST file: how `SSTWriter.finish` fills it and how
    `SSTReader.possiblyContains` asks it. */
module SstBloom {
  import opened Bytes
  import opened Checksum
  import opened SstFormat

  // ---------------------------------------------------------------- hashes and probes

  function FnvStep(h: bv32, b: Byte): bv32
  {
    (h ^ (b as bv32)) * 0x0100_0193
  }

  function FnvFold(data: Bytes, h: bv32): bv32
  {
    if data == [] then h else FnvFold(data[1..], FnvStep(h, data[0]))
  }

  const FNV_OFFSET: bv32 := 0x811c_9dc5

  /** `fnv1a`: 32 bits with wrap-around. */
  function Fnv1a(data: Bytes): (r: int)
    ensures 0 <= r < TWO32
  {
    FnvFold(data, FNV_OFFSET) as int
  }

  method ComputeFnv1a(data: Bytes) returns (r: int)
    ensures r == Fnv1a(data)
  {
    hide FnvStep;
    var h := FNV_OFFSET;
    var i := 0;
    while i < |data|
      invariant 0 <= i <= |data|
      invariant FnvFold(data[i..], h) == FnvFold(data, FNV_OFFSET)
    {
      assert data[i..][1..] == data[i + 1..];
      h := FnvStep(h, data[i]);
      i := i + 1;
    }
    return h as int;
  }

  /** The j-th bit position of a key. */
  function Probe(key: Bytes, j: nat, bits: nat): (p: nat)
    requires bits > 0
    ensures p < bits
  {
    (Fnv1a(key) + j * Crc32c(key)) % bits
  }

  // ---------------------------------------------------------------- single bits

  /** `(b & (1 << bit)) !== 0`. */
  predicate TestBit(b: nat, bit: nat)
  {
    if bit == 0 then b % 2 == 1 else TestBit(b / 2, bit - 1)
  }

  /** `b | (1 << bit)`. */
  function SetBit(b: nat, bit: nat): nat
  {
    if bit == 0 then b / 2 * 2 + 1 else SetBit(b / 2, bit - 1) * 2 + b % 2
  }

  function Pow2(n: nat): (r: nat)
    ensures r > 0
  {
    if n == 0 then 1 else 2 * Pow2(n - 1)
  }

  lemma {:induction false} SetBitFits(b: nat, bit: nat, n: nat)
    requires b < Pow2(n) && bit < n
    ensures SetBit(b, bit) < Pow2(n)
  {
    if bit > 0 {
      SetBitFits(b / 2, bit - 1, n - 1);
    }
  }

  /** Setting one bit makes it one and leaves all others alone. */
  lemma {:induction false} SetBitEffect(b: nat, bit: nat, other: nat)
    ensures TestBit(SetBit(b, bit), other) <==> other == bit || TestBit(b, other)
  {
    if bit == 0 {
      assert SetBit(b, 0) / 2 == b / 2 && SetBit(b, 0) % 2 == 1;
    } else {
      assert SetBit(b, bit) / 2 == SetBit(b / 2, bit - 1) && SetBit(b, bit) % 2 == b % 2;
      if other > 0 {
        SetBitEffect(b / 2, bit - 1, other - 1);
      }
    }
  }

  function SetInByte(b: Byte, bit: nat): Byte
    requires bit < 8
  {
    assert Pow2(8) == 256 by {
      assert Pow2(4) == 16;
    }
    SetBitFits(b, bit, 8);
    SetBit(b, bit)
  }

  // ---------------------------------------------------------------- the bit set

  predicate HasBit(bitset: Bytes, p: nat)
  {
    p / 8 < |bitset| && TestBit(bitset[p / 8], p % 8)
  }

  function SetProbe(bitset: Bytes, p: nat): (r: Bytes)
    requires p / 8 < |bitset|
    ensures |r| == |bitset|
  {
    bitset[p / 8 := SetInByte(bitset[p / 8], p % 8)]
  }

  lemma SetProbeEffect(bitset: Bytes, p: nat, q: nat)
    requires p / 8 < |bitset|
    ensures HasBit(SetProbe(bitset, p), q) <==> q == p || HasBit(bitset, q)
  {
    hide TestBit, SetBit;
    if q / 8 == p / 8 {
      SetBitEffect(bitset[p / 8], p % 8, q % 8);
    }
  }

  /** Room for every position below `bits`. */
  predicate Roomy(bitset: Bytes, bits: nat)
  {
    0 < bits <= |bitset| * 8
  }

  function AddKey(bitset: Bytes, key: Bytes, bits: nat, k: nat): (r: Bytes)
    requires Roomy(bitset, bits)
    ensures |r| == |bitset|
    decreases k
  {
    if k == 0 then bitset else SetProbe(AddKey(bitset, key, bits, k - 1), Probe(key, k - 1, bits))
  }

  function AddKeys(bitset: Bytes, keys: seq<Bytes>, bits: nat, k: nat): (r: Bytes)
    requires Roomy(bitset, bits)
    ensures |r| == |bitset|
    decreases |keys|
  {
    if keys == [] then bitset else AddKeys(AddKey(bitset, keys[0], bits, k), keys[1..], bits, k)
  }

  /** The size of the filter for a number of entries; `bitsPerEntry` is taken as an integer. */
  function BloomBits(entries: nat, bitsPerEntry: nat): (bits: nat)
    ensures bits >= 64
  {
    var n := (if entries > 1 then entries else 1) * bitsPerEntry;
    if n > 64 then n else 64
  }

  function BloomBytes(entries: nat, bitsPerEntry: nat): nat
  {
    (BloomBits(entries, bitsPerEntry) + 7) / 8
  }

  function Zeros(n: nat): (r: Bytes)
    ensures |r| == n
  {
    seq(n, _ => 0)
  }

  /** What is written: the number of bits, the number of probes, the bit set. */
  function Bloom(keys: seq<Bytes>, bits: nat, k: nat): (r: Bytes)
    requires 0 < bits < TWO32 && k < TWO32
    ensures |r| == 8 + (bits + 7) / 8
  {
    U32(bits) + U32(k) + AddKeys(Zeros((bits + 7) / 8), keys, bits, k)
  }

  /** The two nested loops of `finish`. */
  method BuildBloom(keys: seq<Bytes>, bits: nat, k: nat) returns (bloom: Bytes)
    requires 0 < bits < TWO32 && k < TWO32
    ensures bloom == Bloom(keys, bits, k)
  {
    hide Fnv1a, Crc32c, SetInByte, AddKey;
    var bitset := Zeros((bits + 7) / 8);
    ghost var empty := bitset;
    var i := 0;
    while i < |keys|
      invariant 0 <= i <= |keys| && |bitset| == (bits + 7) / 8
      invariant AddKeys(bitset, keys[i..], bits, k) == AddKeys(empty, keys, bits, k)
    {
      assert keys[i..][1..] == keys[i + 1..];
      bitset := AddProbes(bitset, keys[i], bits, k);
      i := i + 1;
    }
    bloom := U32(bits) + U32(k) + bitset;
  }

  method AddProbes(bitset: Bytes, key: Bytes, bits: nat, k: nat) returns (r: Bytes)
    requires Roomy(bitset, bits)
    ensures r == AddKey(bitset, key, bits, k)
  {
    hide Fnv1a, Crc32c, SetInByte;
    var h1 := ComputeFnv1a(key);
    var h2 := Crc32c(key);
    r := bitset;
    var j := 0;
    while j < k
      invariant 0 <= j <= k && r == AddKey(bitset, key, bits, j)
    {
      var p := (h1 + j * h2) % bits;
      var byteIdx := p / 8;
      var bit := p % 8;
      r := r[byteIdx := SetInByte(r[byteIdx], bit)];
      j := j + 1;
    }
  }

  // ---------------------------------------------------------------- asking

  /** The rest of the probe loop, from probe `j` on; a position outside the bit set answers
      with yes. */
  function Asked(bitset: Bytes, key: Bytes, bits: nat, k: nat, j: nat): bool
    requires bits > 0
    decreases k - j
  {
    if j >= k then true
    else if Probe(key, j, bits) / 8 >= |bitset| then true
    else HasBit(bitset, Probe(key, j, bits)) && Asked(bitset, key, bits, k, j + 1)
  }

  /** `possiblyContains`; `None` is the division by zero of a damaged header. */
  function PossiblyContains(bloom: Option<Bytes>, key: Bytes): Option<bool>
  {
    if bloom == None || |bloom.value| < 8 then Some(true)
    else
      var bits, k := ReadU32(bloom.value, 0).value, ReadU32(bloom.value, 4).value;
      if bits == 0 then if k == 0 then Some(true) else None
      else Some(Asked(bloom.value[8..], key, bits, k, 0))
  }

  method AskBloom(bloom: Option<Bytes>, key: Bytes) returns (r: Option<bool>)
    ensures r == PossiblyContains(bloom, key)
  {
    if bloom == None || |bloom.value| < 8 {
      return Some(true);
    }
    hide Fnv1a, Crc32c, TestBit;
    var bits, k := ReadU32(bloom.value, 0).value, ReadU32(bloom.value, 4).value;
    var bitset := bloom.value[8..];
    var h1 := ComputeFnv1a(key);
    var h2 := Crc32c(key);
    var j := 0;
    while j < k
      invariant 0 <= j <= k
      invariant bits > 0 ==> Asked(bitset, key, bits, k, j) == Asked(bitset, key, bits, k, 0)
      invariant bits == 0 ==> j == 0
    {
      if bits == 0 {
        return None;
      }
      var probe := (h1 + j * h2) % bits;
      if probe / 8 >= |bitset| {
        return Some(true);
      }
      if !TestBit(bitset[probe / 8], probe % 8) {
        return Some(false);
      }
      j := j + 1;
    }
    return Some(true);
  }

  // ---------------------------------------------------------------- no false negatives

  lemma {:induction false} AddKeyKeeps(bitset: Bytes, key: Bytes, bits: nat, k: nat, q: nat)
    requires Roomy(bitset, bits) && HasBit(bitset, q)
    ensures HasBit(AddKey(bitset, key, bits, k), q)
    decreases k
  {
    hide Probe, SetProbe, HasBit;
    if k > 0 {
      AddKeyKeeps(bitset, key, bits, k - 1, q);
      SetProbeEffect(AddKey(bitset, key, bits, k - 1), Probe(key, k - 1, bits), q);
    }
  }

  lemma {:induction false} AddKeySets(bitset: Bytes, key: Bytes, bits: nat, k: nat, j: nat)
    requires Roomy(bitset, bits) && j < k
    ensures HasBit(AddKey(bitset, key, bits, k), Probe(key, j, bits))
    decreases k
  {
    hide Probe, SetProbe, HasBit;
    if j < k - 1 {
      AddKeySets(bitset, key, bits, k - 1, j);
    }
    SetProbeEffect(AddKey(bitset, key, bits, k - 1), Probe(key, k - 1, bits), Probe(key, j, bits));
  }

  lemma {:induction false} AddKeysKeeps(bitset: Bytes, keys: seq<Bytes>, bits: nat, k: nat, q: nat)
    requires Roomy(bitset, bits) && HasBit(bitset, q)
    ensures HasBit(AddKeys(bitset, keys, bits, k), q)
    decreases |keys|
  {
    hide HasBit, AddKey;
    if keys != [] {
      AddKeyKeeps(bitset, keys[0], bits, k, q);
      AddKeysKeeps(AddKey(bitset, keys[0], bits, k), keys[1..], bits, k, q);
    }
  }

  lemma {:induction false} AddKeysSets(bitset: Bytes, keys: seq<Bytes>, bits: nat, k: nat, i: nat, j: nat)
    requires Roomy(bitset, bits) && i < |keys| && j < k
    ensures HasBit(AddKeys(bitset, keys, bits, k), Probe(keys[i], j, bits))
    decreases i
  {
    hide HasBit, AddKey, Probe;
    var first := AddKey(bitset, keys[0], bits, k);
    if i == 0 {
      AddKeySets(bitset, keys[0], bits, k, j);
      AddKeysKeeps(first, keys[1..], bits, k, Probe(keys[0], j, bits));
    } else {
      AddKeysSets(first, keys[1..], bits, k, i - 1, j);
    }
  }

  lemma {:induction false} AllProbesSet(bitset: Bytes, key: Bytes, bits: nat, k: nat, j: nat)
    requires bits > 0 && forall l :: 0 <= l < k ==> HasBit(bitset, Probe(key, l, bits))
    ensures Asked(bitset, key, bits, k, j)
    decreases k - j
  {
    hide Probe, HasBit;
    if j < k {
      assert HasBit(bitset, Probe(key, j, bits));
      AllProbesSet(bitset, key, bits, k, j + 1);
    }
  }

  /** The filter never rejects a key that was added, for any number of bits and probes. */
  lemma BloomNeverRejects(keys: seq<Bytes>, bits: nat, k: nat, i: nat)
    requires 0 < bits < TWO32 && k < TWO32 && i < |keys|
    ensures PossiblyContains(Some(Bloom(keys, bits, k)), keys[i]) == Some(true)
  {
    hide U32, ReadU32, AddKeys, Asked, Probe, HasBit;
    var filled := AddKeys(Zeros((bits + 7) / 8), keys, bits, k);
    var bloom := Bloom(keys, bits, k);
    TwoParts(U32(bits) + U32(k), filled);
    AtConcat(bloom, 0, U32(bits), U32(k));
    ReadU32Written(bloom, 0, bits);
    ReadU32Written(bloom, 4, k);
    assert bloom[8..] == filled;
    forall j | 0 <= j < k
      ensures HasBit(filled, Probe(keys[i], j, bits))
    {
      AddKeysSets(Zeros((bits + 7) / 8), keys, bits, k, i, j);
    }
    AllProbesSet(filled, keys[i], bits, k, 0);
  }
}
