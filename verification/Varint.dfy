/** The unsigned LEB128 integers of `libs/storage/helper.ts` (section 7.6 of DWARF 5). */
module Varint {
  import opened Bytes

  /** The encoding as a function: seven-bit groups, least significant first. */
  function Encode(n: nat): (r: Bytes)
    ensures |r| >= 1
  {
    if n < 0x80 then [n] else [n % 0x80 + 0x80] + Encode(n / 0x80)
  }

  method VarintEncode(n: nat) returns (parts: Bytes)
    ensures parts == Encode(n)
  {
    var v := n;
    parts := [];
    while v >= 0x80
      invariant parts + Encode(v) == Encode(n)
    {
      parts := parts + [v % 0x80 + 0x80];
      v := v / 0x80;
    }
    parts := parts + [v];
  }

  /** What `varintDecode` reads at `pos`: the value, and how many bytes it consumed.
      A buffer that ends inside the number yields what was read so far. */
  function Decode(buf: Bytes, pos: nat): (r: (nat, nat))
    ensures pos <= |buf| ==> pos + r.1 <= |buf|
    decreases |buf| - pos
  {
    if pos >= |buf| then (0, 0)
    else if buf[pos] < 0x80 then (buf[pos], 1)
    else
      var rest := Decode(buf, pos + 1);
      (buf[pos] - 0x80 + 0x80 * rest.0, rest.1 + 1)
  }

  /** `digit << shift`, where `unit` is two to the power of `shift`. */
  function ShiftLeft(digit: nat, unit: nat): nat
  {
    digit * unit
  }

  /** One group more, and the rest one unit higher. */
  lemma DecodeGroup(buf: Bytes, i: nat, unit: nat)
    requires i < |buf|
    ensures buf[i] < 0x80 ==> Decode(buf, i) == (buf[i], 1)
    ensures buf[i] >= 0x80 ==>
              && ShiftLeft(Decode(buf, i).0, unit) ==
                 ShiftLeft(buf[i] - 0x80, unit) + ShiftLeft(Decode(buf, i + 1).0, unit * 0x80)
              && Decode(buf, i).1 == 1 + Decode(buf, i + 1).1
  {
  }

  lemma DecodePastEnd(buf: Bytes, i: nat, unit: nat)
    requires i >= |buf|
    ensures Decode(buf, i) == (0, 0) && ShiftLeft(Decode(buf, i).0, unit) == 0
  {
  }

  /** `result |= (b & 0x7f) << shift`: the groups do not overlap, so the bitwise or is a sum. */
  method VarintDecode(buf: Bytes, pos: nat) returns (value: nat, length: nat)
    ensures (value, length) == Decode(buf, pos)
  {
    if pos >= |buf| {
      return 0, 0;
    }
    ghost var full := Decode(buf, pos);
    assert ShiftLeft(full.0, 1) == full.0;
    hide Decode, ShiftLeft;
    var unit: nat := 1;
    value := 0;
    var i := pos;
    while i < |buf|
      invariant pos <= i <= |buf|
      invariant full.0 == value + ShiftLeft(Decode(buf, i).0, unit)
      invariant full.1 == i - pos + Decode(buf, i).1
    {
      var b := buf[i];
      DecodeGroup(buf, i, unit);
      if b < 0x80 {
        return value + ShiftLeft(b, unit), i + 1 - pos;
      }
      value := value + ShiftLeft(b - 0x80, unit);
      unit := unit * 0x80;
      i := i + 1;
    }
    DecodePastEnd(buf, i, unit);
    return value, i - pos;
  }

  method VarintLen(n: nat) returns (l: nat)
    ensures l == |Encode(n)|
  {
    var v := n;
    l := 1;
    while v >= 0x80
      invariant l - 1 + |Encode(v)| == |Encode(n)|
    {
      l := l + 1;
      v := v / 0x80;
    }
  }

  /** Reading back what was written, wherever it stands and whatever follows it. */
  lemma {:induction false} DecodeEncoded(buf: Bytes, pos: nat, n: nat)
    requires At(buf, pos, Encode(n))
    ensures Decode(buf, pos) == (n, |Encode(n)|)
    decreases n
  {
    assert buf[pos] == buf[pos..pos + |Encode(n)|][0];
    if n >= 0x80 {
      AtConcat(buf, pos, [n % 0x80 + 0x80], Encode(n / 0x80));
      DecodeEncoded(buf, pos + 1, n / 0x80);
    }
  }

  /** No other number is a prefix of an encoding: two encodings at one place are one number. */
  lemma EncodePrefixFree(buf: Bytes, pos: nat, m: nat, n: nat)
    requires At(buf, pos, Encode(m)) && At(buf, pos, Encode(n))
    ensures m == n
  {
    DecodeEncoded(buf, pos, m);
    DecodeEncoded(buf, pos, n);
  }

  /** The length grows with the number and is one byte exactly below 128. */
  lemma {:induction false} EncodeLengthMonotone(m: nat, n: nat)
    requires m <= n
    ensures |Encode(m)| <= |Encode(n)|
    ensures |Encode(m)| == 1 <==> m < 0x80
  {
    if m >= 0x80 {
      EncodeLengthMonotone(m / 0x80, n / 0x80);
    }
  }
}
