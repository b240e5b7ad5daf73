/** Byte strings, their lexicographic order (`bufCmp`), positions inside a buffer and
    the big-endian integers that every on-disk structure of the store is built from. */
module Bytes {

  type Byte = b: int | 0 <= b < 256

  type Bytes = seq<Byte>

  datatype Option<+T> = None | Some(value: T)

  // ---------------------------------------------------------------- order on keys

  /** `bufCmp(a, b) < 0`: the first differing byte decides, a proper prefix comes first. */
  predicate Less(a: Bytes, b: Bytes)
  {
    b != [] && (a == [] || a[0] < b[0] || (a[0] == b[0] && Less(a[1..], b[1..])))
  }

  lemma {:induction false} LessIrreflexive(a: Bytes)
    ensures !Less(a, a)
  {
    if a != [] {
      LessIrreflexive(a[1..]);
    }
  }

  lemma {:induction false} LessTransitive(a: Bytes, b: Bytes, c: Bytes)
    requires Less(a, b) && Less(b, c)
    ensures Less(a, c)
  {
    if a != [] && a[0] == b[0] && b[0] == c[0] {
      LessTransitive(a[1..], b[1..], c[1..]);
    }
  }

  lemma {:induction false} LessConnected(a: Bytes, b: Bytes)
    ensures Less(a, b) || a == b || Less(b, a)
  {
    if a != [] && b != [] && a[0] == b[0] {
      LessConnected(a[1..], b[1..]);
      assert a == [a[0]] + a[1..] && b == [b[0]] + b[1..];
    }
  }

  lemma LessAsymmetric(a: Bytes, b: Bytes)
    requires Less(a, b)
    ensures !Less(b, a) && a != b
  {
    LessIrreflexive(a);
    if Less(b, a) {
      LessTransitive(a, b, a);
    }
  }

  /** A common prefix does not take part in a comparison. */
  lemma {:induction false} LessCommonPrefix(p: Bytes, a: Bytes, b: Bytes)
    ensures Less(p + a, p + b) <==> Less(a, b)
  {
    if p == [] {
      assert p + a == a && p + b == b;
    } else {
      assert (p + a)[1..] == p[1..] + a && (p + b)[1..] == p[1..] + b;
      LessCommonPrefix(p[1..], a, b);
    }
  }

  // ---------------------------------------------------------------- positions in a buffer

  /** The bytes `s` stand in `buf` at position `pos`. */
  ghost predicate At(buf: Bytes, pos: int, s: Bytes)
  {
    0 <= pos && pos + |s| <= |buf| && buf[pos..pos + |s|] == s
  }

  lemma AtConcat(buf: Bytes, pos: int, s: Bytes, t: Bytes)
    ensures At(buf, pos, s + t) <==> At(buf, pos, s) && At(buf, pos + |s|, t)
  {
    if At(buf, pos, s + t) {
      assert buf[pos..pos + |s|] == (s + t)[..|s|];
      assert buf[pos + |s|..pos + |s| + |t|] == (s + t)[|s|..];
    }
    if At(buf, pos, s) && At(buf, pos + |s|, t) {
      assert buf[pos..pos + |s + t|] == buf[pos..pos + |s|] + buf[pos + |s|..pos + |s| + |t|];
    }
  }

  lemma AtMiddle(pre: Bytes, s: Bytes, post: Bytes)
    ensures At(pre + s + post, |pre|, s)
  {
  }

  /** `readSync` into a zeroed buffer: what lies past the end of the file stays zero. */
  function ReadAt(file: Bytes, pos: nat, len: nat): (r: Bytes)
    ensures |r| == len
    ensures pos + len <= |file| ==> r == file[pos..pos + len]
  {
    seq(len, i requires 0 <= i < len => if pos + i < |file| then file[pos + i] else 0)
  }

  // ---------------------------------------------------------------- fixed-width integers

  const TWO32: int := 0x1_0000_0000
  const TWO64: int := 0x1_0000_0000_0000_0000

  /** `writeUint32`: four bytes, most significant first. */
  function U32(v: int): (r: Bytes)
    requires 0 <= v < TWO32
    ensures |r| == 4
  {
    [v / 0x100_0000, v / 0x1_0000 % 256, v / 0x100 % 256, v % 256]
  }

  /** `readUInt32BE`; `None` stands for the RangeError of a read past the end. */
  function ReadU32(buf: Bytes, pos: int): (r: Option<int>)
    ensures r.Some? ==> 0 <= r.value < TWO32
  {
    if 0 <= pos && pos + 4 <= |buf| then
      Some((buf[pos] as int) * 0x100_0000 + (buf[pos + 1] as int) * 0x1_0000 +
           (buf[pos + 2] as int) * 0x100 + (buf[pos + 3] as int))
    else
      None
  }

  lemma U32Digits(v: int)
    requires 0 <= v < TWO32
    ensures v == v / 0x100_0000 * 0x100_0000 + v / 0x1_0000 % 256 * 0x1_0000 + v / 0x100 % 256 * 0x100 + v % 256
  {
    TwoBytesOff(v);
    TwoBytesOff(v / 0x100);
    var a, b, c := v / 0x100, v / 0x1_0000, v / 0x100_0000;
    assert v == a * 0x100 + v % 256 && a == b * 0x100 + a % 256 && b == c * 0x100 + b % 256;
  }

  lemma TwoBytesOff(v: int)
    requires 0 <= v
    ensures v / 0x1_0000 == v / 0x100 / 0x100
  {
  }

  lemma ReadU32Written(buf: Bytes, pos: int, v: int)
    requires 0 <= v < TWO32 && At(buf, pos, U32(v))
    ensures ReadU32(buf, pos) == Some(v)
  {
    U32Digits(v);
    var s := U32(v);
    assert buf[pos..pos + 4] == s;
    assert buf[pos] == s[0] && buf[pos + 1] == s[1] && buf[pos + 2] == s[2] && buf[pos + 3] == s[3];
  }

  /** `writeUint64`. */
  function U64(v: int): (r: Bytes)
    requires 0 <= v < TWO64
    ensures |r| == 8
  {
    U32(v / TWO32) + U32(v % TWO32)
  }

  /** `readBigUInt64BE`. */
  function ReadU64(buf: Bytes, pos: int): (r: Option<int>)
    ensures r.Some? ==> 0 <= r.value < TWO64
  {
    var hi := ReadU32(buf, pos);
    var lo := ReadU32(buf, pos + 4);
    if hi.Some? && lo.Some? then Some(hi.value * TWO32 + lo.value) else None
  }

  lemma ReadU64Written(buf: Bytes, pos: int, v: int)
    requires 0 <= v < TWO64 && At(buf, pos, U64(v))
    ensures ReadU64(buf, pos) == Some(v)
  {
    AtConcat(buf, pos, U32(v / TWO32), U32(v % TWO32));
    ReadU32Written(buf, pos, v / TWO32);
    ReadU32Written(buf, pos + 4, v % TWO32);
  }

  // ---------------------------------------------------------------- concatenation

  /** `Buffer.concat`. */
  function Concat(parts: seq<Bytes>): (r: Bytes)
  {
    if parts == [] then [] else parts[0] + Concat(parts[1..])
  }

  lemma {:induction false} ConcatAppend(a: seq<Bytes>, b: seq<Bytes>)
    ensures Concat(a + b) == Concat(a) + Concat(b)
  {
    if a == [] {
      assert a + b == b;
    } else {
      assert (a + b)[1..] == a[1..] + b;
      ConcatAppend(a[1..], b);
    }
  }

  lemma ConcatSnoc(a: seq<Bytes>, x: Bytes)
    ensures Concat(a + [x]) == Concat(a) + x
  {
    ConcatAppend(a, [x]);
    assert [x][1..] == [];
    assert Concat([x]) == x + Concat([]);
  }
}
