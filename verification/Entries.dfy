/** The records that memtable, SST files, merge and compaction exchange, and sorted runs of them. */
module Entries {
  import opened Bytes

  /** One version of a key; `value == None` is a tombstone. */
  datatype Entry = Entry(key: Bytes, value: Option<Bytes>, rev: nat, walOffset: nat, createdAt: nat)

  /** Strictly increasing keys, the order of every file and of the memtable. */
  ghost predicate StrictlySorted(es: seq<Entry>)
  {
    forall i, j :: 0 <= i < j < |es| ==> Less(es[i].key, es[j].key)
  }

  /** Looking a key up in a run of entries. */
  function Lookup(es: seq<Entry>, key: Bytes): (r: Option<Entry>)
    ensures r.Some? ==> r.value in es && r.value.key == key
    ensures r == None ==> forall e :: e in es ==> e.key != key
  {
    if es == [] then None
    else if es[0].key == key then Some(es[0])
    else Lookup(es[1..], key)
  }

  lemma {:induction false} LookupAt(es: seq<Entry>, i: nat)
    requires StrictlySorted(es) && i < |es|
    ensures Lookup(es, es[i].key) == Some(es[i])
  {
    if i > 0 {
      LessIrreflexive(es[i].key);
      assert Less(es[0].key, es[i].key);
      assert es[1..][i - 1] == es[i];
      LookupAt(es[1..], i - 1);
    }
  }

  lemma {:induction false} LookupConcat(a: seq<Entry>, b: seq<Entry>, key: Bytes)
    ensures Lookup(a + b, key) == if Lookup(a, key).Some? then Lookup(a, key) else Lookup(b, key)
  {
    if a == [] {
      assert a + b == b;
    } else {
      assert (a + b)[1..] == a[1..] + b;
      LookupConcat(a[1..], b, key);
    }
  }
}
