/** `prefixEndExclusive` of `libs/utils/indexing.ts`: the upper bound of a prefix scan. */
module Indexing {
  import opened Bytes

  const MAX_BYTE: Byte := 0xff

  predicate HasPrefix(key: Bytes, prefix: Bytes)
  {
    prefix <= key
  }

  /** The bound as a function: the last byte below 0xff is incremented, and what follows
      it is kept as it is. */
  function PrefixEnd(prefix: Bytes): (r: Option<Bytes>)
    ensures r.Some? ==> |r.value| == |prefix|
  {
    if prefix == [] then None
    else
      var rest := PrefixEnd(prefix[1..]);
      if rest.Some? then Some([prefix[0]] + rest.value)
      else if prefix[0] != MAX_BYTE then Some([prefix[0] + 1] + prefix[1..])
      else None
  }

  lemma {:induction false} PrefixEndAllMax(prefix: Bytes)
    requires forall j :: 0 <= j < |prefix| ==> prefix[j] == MAX_BYTE
    ensures PrefixEnd(prefix) == None
  {
    if prefix != [] {
      PrefixEndAllMax(prefix[1..]);
    }
  }

  lemma {:induction false} PrefixEndAt(prefix: Bytes, i: nat)
    requires i < |prefix| && prefix[i] != MAX_BYTE
    requires forall j :: i < j < |prefix| ==> prefix[j] == MAX_BYTE
    ensures PrefixEnd(prefix) == Some(prefix[i := prefix[i] + 1])
  {
    if i == 0 {
      PrefixEndAllMax(prefix[1..]);
      assert [prefix[0] + 1] + prefix[1..] == prefix[0 := prefix[0] + 1];
    } else {
      PrefixEndAt(prefix[1..], i - 1);
      assert [prefix[0]] + prefix[1..][i - 1 := prefix[i] + 1] == prefix[i := prefix[i] + 1];
    }
  }

  method PrefixEndExclusive(prefix: Bytes) returns (r: Option<Bytes>)
    ensures r == PrefixEnd(prefix)
  {
    if |prefix| == 0 {
      return None;
    }
    var out := prefix;
    var i := |out| - 1;
    while i >= 0
      invariant -1 <= i < |prefix| && out == prefix
      invariant forall j :: i < j < |prefix| ==> prefix[j] == MAX_BYTE
    {
      if out[i] != MAX_BYTE {
        PrefixEndAt(prefix, i);
        return Some(out[i := out[i] + 1]);
      }
      i := i - 1;
    }
    PrefixEndAllMax(prefix);
    return None;
  }

  // ---------------------------------------------------------------- which keys the bound admits

  /** The keys a scan from `prefix` up to its bound visits. */
  predicate InScan(key: Bytes, prefix: Bytes)
  {
    !Less(key, prefix) && (PrefixEnd(prefix).Some? ==> Less(key, PrefixEnd(prefix).value))
  }

  /** No key with the prefix is ever missed. */
  lemma {:induction false} ScanCoversPrefix(key: Bytes, prefix: Bytes)
    requires HasPrefix(key, prefix)
    ensures InScan(key, prefix)
  {
    if prefix != [] {
      assert key[0] == prefix[0] && prefix[1..] <= key[1..];
      ScanCoversPrefix(key[1..], prefix[1..]);
    }
  }

  /** The guard under which the bound is exact: the last byte can be incremented, or none can. */
  predicate ExactBound(prefix: Bytes)
  {
    prefix == [] || prefix[|prefix| - 1] != MAX_BYTE || PrefixEnd(prefix) == None
  }

  lemma {:induction false} ExactScanHasPrefix(key: Bytes, prefix: Bytes)
    requires ExactBound(prefix) && InScan(key, prefix)
    ensures HasPrefix(key, prefix)
  {
    if prefix != [] {
      var rest := prefix[1..];
      if rest != [] {
        assert rest[|rest| - 1] == prefix[|prefix| - 1];
        if PrefixEnd(rest) == None && PrefixEnd(prefix).Some? {
          NoneIsAllMax(rest);
        }
      }
      assert key != [] && prefix[0] <= key[0];
      if PrefixEnd(prefix).Some? && PrefixEnd(rest) == None {
        assert PrefixEnd(prefix).value == [prefix[0] + 1] + rest;
        assert rest == [] && !Less(key[1..], []);
      }
      assert key[0] == prefix[0];
      assert PrefixEnd(rest).Some? ==> PrefixEnd(prefix).value[1..] == PrefixEnd(rest).value;
      ExactScanHasPrefix(key[1..], rest);
      assert prefix == [prefix[0]] + rest && key == [key[0]] + key[1..];
    }
  }

  lemma {:induction false} NoneIsAllMax(prefix: Bytes)
    requires PrefixEnd(prefix) == None
    ensures forall j :: 0 <= j < |prefix| ==> prefix[j] == MAX_BYTE
  {
    if prefix != [] {
      NoneIsAllMax(prefix[1..]);
      assert forall j :: 0 < j < |prefix| ==> prefix[j] == prefix[1..][j - 1];
    }
  }

  /** A key the scan visits although it lacks the prefix: the bound cut after its changed byte. */
  lemma {:induction false} InexactWitness(prefix: Bytes) returns (key: Bytes)
    requires !ExactBound(prefix)
    ensures InScan(key, prefix) && !HasPrefix(key, prefix)
  {
    var rest := prefix[1..];
    if PrefixEnd(rest).Some? {
      assert rest[|rest| - 1] == prefix[|prefix| - 1];
      var k := InexactWitness(rest);
      key := [prefix[0]] + k;
      assert key[1..] == k;
    } else {
      assert |prefix| > 1;
      key := [prefix[0] + 1];
    }
  }

  /** The documented promise (the least key above every key with the prefix) holds exactly
      when the last byte is below 0xff or every byte is 0xff. */
  lemma PrefixScanExactIff(prefix: Bytes)
    ensures (forall key :: HasPrefix(key, prefix) <==> InScan(key, prefix)) <==> ExactBound(prefix)
  {
    if ExactBound(prefix) {
      forall key
        ensures HasPrefix(key, prefix) <==> InScan(key, prefix)
      {
        if HasPrefix(key, prefix) {
          ScanCoversPrefix(key, prefix);
        } else if InScan(key, prefix) {
          ExactScanHasPrefix(key, prefix);
        }
      }
    } else {
      var key := InexactWitness(prefix);
      assert HasPrefix(key, prefix) != InScan(key, prefix);
    }
  }

  /** A concrete miss: a scan of the prefix `a\xff` also visits the key `b`. */
  lemma PrefixScanOvershoots()
    ensures InScan([0x62], [0x61, 0xff]) && !HasPrefix([0x62], [0x61, 0xff])
  {
    PrefixEndAt([0x61, 0xff], 0);
    assert [0x61, 0xff][0 := 0x62] == [0x62, 0xff];
  }
}
