/** `libs/utils/checksum.ts`: Adler-32 (section 8.2 of RFC 1950) with its error detection,
    and the table-driven CRC, of which only the determinism is used. */
module Checksum {
  import opened Bytes

  const MOD_ADLER: int := 65521

  // ---------------------------------------------------------------- Adler-32

  /** One plus the sum of the bytes, without any reduction. */
  function SumA(data: Bytes): (r: int)
    ensures r >= 1
  {
    if data == [] then 1 else SumA(data[..|data| - 1]) + data[|data| - 1]
  }

  /** The sum of the running values of `SumA`, without any reduction. */
  function SumB(data: Bytes): (r: int)
    ensures r >= 0
  {
    if data == [] then 0 else SumB(data[..|data| - 1]) + SumA(data)
  }

  /** The definition of the RFC: both sums modulo 65521, packed into 32 bits. */
  function Adler32(data: Bytes): (r: int)
    ensures 0 <= r < TWO32
  {
    SumB(data) % MOD_ADLER * 0x1_0000 + SumA(data) % MOD_ADLER
  }

  lemma ReduceEarly(x: int, y: int)
    ensures (x % MOD_ADLER + y) % MOD_ADLER == (x + y) % MOD_ADLER
  {
  }

  lemma ReduceOnce(x: int, y: int, d: int)
    ensures (x % MOD_ADLER + d) % MOD_ADLER == (x + d) % MOD_ADLER
    ensures (y % MOD_ADLER + (x + d) % MOD_ADLER) % MOD_ADLER == (y + (x + d)) % MOD_ADLER
  {
    ReduceEarly(x, d);
    ReduceEarly(y, (x + d) % MOD_ADLER);
    ReduceEarly(x + d, y);
  }

  lemma SumsStep(data: Bytes, i: nat)
    requires i < |data|
    ensures SumA(data[..i + 1]) == SumA(data[..i]) + data[i]
    ensures SumB(data[..i + 1]) == SumB(data[..i]) + SumA(data[..i + 1])
  {
    assert data[..i + 1][..i] == data[..i];
  }

  lemma NoSums()
    ensures SumA([]) == 1 && SumB([]) == 0
  {
  }

  /** The loop reduces at every byte; `((b << 16) | a) >>> 0` is the unsigned packing. */
  method ComputeAdler32(data: Bytes) returns (r: int)
    ensures r == Adler32(data)
  {
    hide SumA, SumB;
    NoSums();
    assert data[..0] == [];
    var a := 1;
    var b := 0;
    var i := 0;
    while i < |data|
      invariant 0 <= i <= |data|
      invariant a == SumA(data[..i]) % MOD_ADLER
      invariant b == SumB(data[..i]) % MOD_ADLER
    {
      SumsStep(data, i);
      ReduceOnce(SumA(data[..i]), SumB(data[..i]), data[i]);
      a := (a + data[i]) % MOD_ADLER;
      b := (b + a) % MOD_ADLER;
      i := i + 1;
    }
    assert data[..i] == data;
    r := b * 0x1_0000 + a;
  }

  lemma {:induction false} SumAAppend(x: Bytes, y: Bytes)
    ensures SumA(x + y) == SumA(x) + SumA(y) - 1
  {
    if y == [] {
      assert x + y == x;
    } else {
      assert (x + y)[..|x + y| - 1] == x + y[..|y| - 1];
      SumAAppend(x, y[..|y| - 1]);
    }
  }

  lemma SumASnoc(x: Bytes, b: Byte)
    ensures SumA(x + [b]) == SumA(x) + b
  {
    assert (x + [b])[..|x|] == x;
  }

  lemma AdlerLowHalf(data: Bytes)
    ensures Adler32(data) % 0x1_0000 == SumA(data) % MOD_ADLER
  {
    hide SumA, SumB;
    var hi, lo := SumB(data) % MOD_ADLER, SumA(data) % MOD_ADLER;
    assert (hi * 0x1_0000 + lo) % 0x1_0000 == lo;
  }

  lemma ShiftShows(a: int, d: int)
    requires d != 0 && -MOD_ADLER < d < MOD_ADLER
    ensures (a + d) % MOD_ADLER != a % MOD_ADLER
  {
    var q, r := a / MOD_ADLER, a % MOD_ADLER;
    assert a + d == q * MOD_ADLER + (r + d);
  }

  lemma SumAReplaced(data: Bytes, i: nat, x: Byte)
    requires i < |data|
    ensures SumA(data[i := x]) == SumA(data) + (x - data[i])
  {
    hide SumA;
    var pre, post := data[..i], data[i + 1..];
    assert data == (pre + [data[i]]) + post && data[i := x] == (pre + [x]) + post;
    SumAAppend(pre + [data[i]], post);
    SumAAppend(pre + [x], post);
    SumASnoc(pre, data[i]);
    SumASnoc(pre, x);
  }

  /** Replacing one byte shifts the low half by less than the modulus, so it always shows. */
  lemma AdlerDetectsByteChange(data: Bytes, i: nat, x: Byte)
    requires i < |data| && x != data[i]
    ensures Adler32(data[i := x]) != Adler32(data)
  {
    hide Adler32, SumA;
    AdlerLowHalf(data);
    AdlerLowHalf(data[i := x]);
    SumAReplaced(data, i, x);
    ShiftShows(SumA(data), x - data[i]);
  }

  // ---------------------------------------------------------------- CRC

  const POLY: bv32 := 0x1edc6f41

  function TableStep(c: bv32, steps: nat): bv32
    decreases steps
  {
    if steps == 0 then c
    else TableStep(if c & 1 != 0 then (c >> 1) ^ POLY else c >> 1, steps - 1)
  }

  function CrcFold(data: Bytes, crc: bv32): bv32
  {
    if data == [] then crc
    else CrcFold(data[1..], (crc >> 8) ^ TableStep((crc ^ (data[0] as bv32)) & 0xff, 8))
  }

  /** The checksum of SST blocks, index and footer, and the second Bloom hash. */
  function Crc32c(data: Bytes): (r: int)
    ensures 0 <= r < TWO32
  {
    (CrcFold(data, 0) ^ 0xffff_ffff) as int
  }
}
