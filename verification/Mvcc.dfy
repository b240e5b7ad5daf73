/** Point-in-time reads of `libs/storage/engine.ts`: `getAtRevision` scans the memtable and
    every SST file for one key, `snapshotAtRevision` merges them all. Sources are sorted runs
    of entries, the memtable first, files without compressed blocks. */
module Mvcc {
  import opened Bytes
  import opened Entries
  import opened MinHeap
  import opened MergeIterator
  import opened MergeLimits
  import opened Compaction

  /** What `snapshotAtRevision` yields for a key. */
  datatype Row = Row(key: Bytes, value: Option<Bytes>)

  // ---------------------------------------------------------------- the better of two

  /** An entry replaces the best one so far if it is visible and strictly newer. */
  function Improve(best: Option<Entry>, e: Entry, rev: nat): Option<Entry>
  {
    if e.rev <= rev && (best == None || e.rev > best.value.rev) then Some(e) else best
  }

  /** The best entry of a key in a run. */
  function BestOf(best: Option<Entry>, es: seq<Entry>, key: Bytes, rev: nat): Option<Entry>
    decreases |es|
  {
    if es == [] then best
    else BestOf(if es[0].key == key then Improve(best, es[0], rev) else best, es[1..], key, rev)
  }

  /** The readers from the last one to the first. */
  function BestInSsts(best: Option<Entry>, ssts: seq<seq<Entry>>, key: Bytes, rev: nat): Option<Entry>
    decreases |ssts|
  {
    if ssts == [] then best
    else BestInSsts(BestOf(best, ssts[|ssts| - 1], key, rev), ssts[..|ssts| - 1], key, rev)
  }

  /** The version that `getAtRevision` settles on. */
  function VersionAt(mem: seq<Entry>, ssts: seq<seq<Entry>>, key: Bytes, rev: nat): Option<Entry>
  {
    var m := Lookup(mem, key);
    BestInSsts(if m.Some? && m.value.rev <= rev then m else None, ssts, key, rev)
  }

  /** `getAtRevision`: null for a tombstone and for nothing. */
  method GetAtRevision(mem: seq<Entry>, ssts: seq<seq<Entry>>, key: Bytes, rev: nat) returns (value: Option<Bytes>)
    ensures value == var v := VersionAt(mem, ssts, key, rev); if v == None then None else v.value.value
  {
    var best: Option<Entry> := None;
    var m := Lookup(mem, key);
    if m.Some? {
      if m.value.rev <= rev {
        best := m;
      }
    }
    ghost var first := best;
    var i := |ssts| - 1;
    assert ssts[..i + 1] == ssts;
    while i >= 0
      invariant -1 <= i < |ssts|
      invariant BestInSsts(best, ssts[..i + 1], key, rev) == BestInSsts(first, ssts, key, rev)
    {
      ghost var before := best;
      var j := 0;
      while j < |ssts[i]|
        invariant 0 <= j <= |ssts[i]|
        invariant BestOf(best, ssts[i][j..], key, rev) == BestOf(before, ssts[i], key, rev)
      {
        var e := ssts[i][j];
        assert ssts[i][j..][1..] == ssts[i][j + 1..];
        if e.key == key && e.rev <= rev && (best == None || e.rev > best.value.rev) {
          best := Some(e);
        }
        j := j + 1;
      }
      assert ssts[i][j..] == [];
      assert ssts[..i + 1][..i] == ssts[..i];
      i := i - 1;
    }
    value := if best == None then None else best.value.value;
  }

  // ---------------------------------------------------------------- the snapshot

  function BestItem(best: Option<Entry>, items: seq<Item>, rev: nat): Option<Entry>
    decreases |items|
  {
    if items == [] then best else BestItem(Improve(best, items[0].entry, rev), items[1..], rev)
  }

  /** What a merged item shows at a revision: the candidates, or else the item itself. */
  function VisibleIn(m: Merged, rev: nat): Option<Entry>
  {
    if |m.candidates| > 0 then BestItem(None, m.candidates, rev) else Improve(None, m.chosen.entry, rev)
  }

  /** The rows from here on; a key is decided when it is met first. */
  function Rows(ms: seq<Merged>, rev: nat, seen: set<Bytes>): seq<Row>
    decreases |ms|
  {
    if ms == [] then []
    else
      var key := ms[0].chosen.entry.key;
      if key in seen then Rows(ms[1..], rev, seen)
      else
        var v := VisibleIn(ms[0], rev);
        (if v.Some? then [Row(key, v.value.value)] else []) + Rows(ms[1..], rev, seen + {key})
  }

  function Snapshot(sources: seq<seq<Entry>>, rev: nat): seq<Row>
  {
    Rows(Merge(sources), rev, {})
  }

  /** `snapshotAtRevision` without a prefix, collecting what it yields. */
  method SnapshotAtRevision(sources: seq<seq<Entry>>, rev: nat) returns (rows: seq<Row>)
    ensures rows == Snapshot(sources, rev)
  {
    hide Merge, VisibleIn, Rows;
    var merged := KWayMerge(sources);
    rows := [];
    var seen: set<Bytes> := {};
    var i := 0;
    assert merged[0..] == merged;
    while i < |merged|
      invariant 0 <= i <= |merged|
      invariant rows + Rows(merged[i..], rev, seen) == Rows(merged, rev, {})
    {
      assert merged[i..][1..] == merged[i + 1..];
      RowsUnfold(merged[i..], rev, seen);
      var key := merged[i].chosen.entry.key;
      if key !in seen {
        seen := seen + {key};
        var v := VisibleOf(merged[i], rev);
        if v.Some? {
          rows := rows + [Row(key, v.value.value)];
        }
      }
      i := i + 1;
    }
    assert merged[i..] == [];
    RowsUnfold(merged[i..], rev, seen);
  }

  lemma RowsUnfold(ms: seq<Merged>, rev: nat, seen: set<Bytes>)
    ensures ms == [] ==> Rows(ms, rev, seen) == []
    ensures ms != [] ==>
              var key, v := ms[0].chosen.entry.key, VisibleIn(ms[0], rev);
              Rows(ms, rev, seen) ==
              if key in seen then Rows(ms[1..], rev, seen)
              else (if v.Some? then [Row(key, v.value.value)] else []) + Rows(ms[1..], rev, seen + {key})
  {
    hide VisibleIn;
  }

  method VisibleOf(m: Merged, rev: nat) returns (v: Option<Entry>)
    ensures v == VisibleIn(m, rev)
  {
    v := None;
    if |m.candidates| > 0 {
      var i := 0;
      while i < |m.candidates|
        invariant 0 <= i <= |m.candidates|
        invariant BestItem(v, m.candidates[i..], rev) == BestItem(None, m.candidates, rev)
      {
        assert m.candidates[i..][1..] == m.candidates[i + 1..];
        var cand := m.candidates[i].entry;
        if cand.rev <= rev && (v == None || cand.rev > v.value.rev) {
          v := Some(cand);
        }
        i := i + 1;
      }
    } else if m.chosen.entry.rev <= rev {
      v := Some(m.chosen.entry);
    }
  }

  // ---------------------------------------------------------------- what both look for

  /** `e` is a version of the key, at most `rev`, and none of those is newer. */
  ghost predicate Shows(all: set<Version>, key: Bytes, rev: nat, e: Option<Entry>)
  {
    match e
    case None => forall v :: v in all && v.key == key ==> v.rev > rev
    case Some(x) =>
      && x.key == key && x.rev <= rev && V(x) in all
      && forall v :: v in all && v.key == key && v.rev <= rev ==> v.rev <= x.rev
  }

  /** The answer is unique if a revision names one version. */
  lemma ShowsOnce(all: set<Version>, key: Bytes, rev: nat, a: Option<Entry>, b: Option<Entry>)
    requires OneVersion(all) && Shows(all, key, rev, a) && Shows(all, key, rev, b)
    ensures a.Some? <==> b.Some?
    ensures a.Some? ==> V(a.value) == V(b.value)
  {
    if a.Some? {
      assert V(a.value).key == key;
    }
    if b.Some? {
      assert V(b.value).key == key;
    }
  }

  function KeyVersions(es: seq<Entry>, key: Bytes): set<Version>
  {
    set e | e in es && e.key == key :: V(e)
  }

  /** Looking at one more run. */
  lemma {:induction false} BestOfShows(all: set<Version>, best: Option<Entry>, es: seq<Entry>, key: Bytes, rev: nat)
    requires Shows(all, key, rev, best)
    ensures Shows(all + KeyVersions(es, key), key, rev, BestOf(best, es, key, rev))
    decreases |es|
  {
    if es == [] {
      assert all + KeyVersions(es, key) == all;
    } else {
      var next := if es[0].key == key then Improve(best, es[0], rev) else best;
      var more := if es[0].key == key then all + {V(es[0])} else all;
      ImproveShows(all, best, es[0], key, rev);
      BestOfShows(more, next, es[1..], key, rev);
      assert es == [es[0]] + es[1..];
      assert more + KeyVersions(es[1..], key) == all + KeyVersions(es, key);
    }
  }

  lemma ImproveShows(all: set<Version>, best: Option<Entry>, e: Entry, key: Bytes, rev: nat)
    requires Shows(all, key, rev, best)
    ensures e.key == key ==> Shows(all + {V(e)}, key, rev, Improve(best, e, rev))
  {
  }

  function KeyVersionsOfAll(sources: seq<seq<Entry>>, key: Bytes): set<Version>
  {
    set v | v in VersionsOfAll(sources) && v.key == key
  }

  lemma {:induction false} BestInSstsShows(all: set<Version>, best: Option<Entry>, ssts: seq<seq<Entry>>, key: Bytes,
                                           rev: nat)
    requires Shows(all, key, rev, best)
    ensures Shows(all + KeyVersionsOfAll(ssts, key), key, rev, BestInSsts(best, ssts, key, rev))
    decreases |ssts|
  {
    hide Shows, BestOf;
    if ssts == [] {
      assert all + KeyVersionsOfAll(ssts, key) == all;
    } else {
      var init, last := ssts[..|ssts| - 1], ssts[|ssts| - 1];
      BestOfShows(all, best, last, key, rev);
      BestInSstsShows(all + KeyVersions(last, key), BestOf(best, last, key, rev), init, key, rev);
      SplitLast(ssts, key);
      assert all + KeyVersions(last, key) + KeyVersionsOfAll(init, key) == all + KeyVersionsOfAll(ssts, key);
    }
  }

  lemma SplitLast(ssts: seq<seq<Entry>>, key: Bytes)
    requires ssts != []
    ensures KeyVersionsOfAll(ssts, key) ==
            KeyVersions(ssts[|ssts| - 1], key) + KeyVersionsOfAll(ssts[..|ssts| - 1], key)
  {
    hide KeyVersionsOfAll, KeyVersions, VersionsOfAll;
    var init, last := ssts[..|ssts| - 1], ssts[|ssts| - 1];
    assert ssts == init + [last];
    VersionsConcat(init, [last]);
    OneRun(last, key);
    KeyVersionsSplit(init, [last], key);
  }

  lemma OneRun(es: seq<Entry>, key: Bytes)
    ensures KeyVersionsOfAll([es], key) == KeyVersions(es, key)
  {
    forall v | v in KeyVersions(es, key)
      ensures v in KeyVersionsOfAll([es], key)
    {
      var e :| e in es && e.key == key && V(e) == v;
      assert [es][0] == es;
    }
  }

  lemma KeyVersionsSplit(a: seq<seq<Entry>>, b: seq<seq<Entry>>, key: Bytes)
    requires VersionsOfAll(a + b) == VersionsOfAll(a) + VersionsOfAll(b)
    ensures KeyVersionsOfAll(a + b, key) == KeyVersionsOfAll(a, key) + KeyVersionsOfAll(b, key)
  {
    hide VersionsOfAll;
  }

  /** `getAtRevision` shows the newest version at most the revision, over memtable and files. */
  lemma VersionAtShows(mem: seq<Entry>, ssts: seq<seq<Entry>>, key: Bytes, rev: nat)
    requires StrictlySorted(mem)
    ensures Shows(VersionsOfAll([mem] + ssts), key, rev, VersionAt(mem, ssts, key, rev))
  {
    hide BestInSsts, VersionsOfAll, KeyVersionsOfAll;
    var m := Lookup(mem, key);
    var best := if m.Some? && m.value.rev <= rev then m else None;
    MemShows(mem, key, rev);
    BestInSstsShows(KeyVersions(mem, key), best, ssts, key, rev);
    VersionsConcat([mem], ssts);
    OneRun(mem, key);
    KeyVersionsSplit([mem], ssts, key);
    OnlyTheKey(VersionsOfAll([mem] + ssts), KeyVersionsOfAll([mem] + ssts, key), key, rev,
               VersionAt(mem, ssts, key, rev), [mem] + ssts);
  }

  lemma MemShows(mem: seq<Entry>, key: Bytes, rev: nat)
    requires StrictlySorted(mem)
    ensures var m := Lookup(mem, key);
            Shows(KeyVersions(mem, key), key, rev, if m.Some? && m.value.rev <= rev then m else None)
  {
    var m := Lookup(mem, key);
    forall e | e in mem && e.key == key
      ensures m == Some(e)
    {
      var i :| 0 <= i < |mem| && mem[i] == e;
      LookupAt(mem, i);
    }
  }

  lemma OnlyTheKey(all: set<Version>, some: set<Version>, key: Bytes, rev: nat, e: Option<Entry>,
                   sources: seq<seq<Entry>>)
    requires all == VersionsOfAll(sources) && some == KeyVersionsOfAll(sources, key) && Shows(some, key, rev, e)
    ensures Shows(all, key, rev, e)
  {
    hide VersionsOfAll;
    assert forall v :: v in some <==> v in all && v.key == key;
  }

  // ---------------------------------------------------------------- the snapshot shows the same

  lemma {:induction false} BestItemShows(all: set<Version>, best: Option<Entry>, items: seq<Item>, key: Bytes, rev: nat)
    requires Shows(all, key, rev, best) && forall it: Item :: it in items ==> it.entry.key == key
    ensures Shows(all + ItemVersions(items), key, rev, BestItem(best, items, rev))
    decreases |items|
  {
    if items == [] {
      assert all + ItemVersions(items) == all;
    } else {
      assert items[0] in items && forall it: Item :: it in items[1..] ==> it in items;
      ImproveShows(all, best, items[0].entry, key, rev);
      BestItemShows(all + {V(items[0].entry)}, Improve(best, items[0].entry, rev), items[1..], key, rev);
      assert items == [items[0]] + items[1..];
      assert all + {V(items[0].entry)} + ItemVersions(items[1..]) == all + ItemVersions(items);
    }
  }

  function ItemVersions(items: seq<Item>): set<Version>
  {
    set it: Item | it in items :: V(it.entry)
  }

  /** One group of the merge, with or without candidates. */
  lemma VisibleIsBest(g: seq<Item>, rev: nat)
    requires g != []
    ensures VisibleIn(Emit(g), rev) == BestItem(None, g, rev)
  {
    if |g| == 1 {
      assert g[1..] == [];
      assert BestItem(Improve(None, g[0].entry, rev), g[1..], rev) == Improve(None, g[0].entry, rev);
    }
  }

  /** A group that holds all versions of its key. */
  ghost predicate Complete(g: seq<Item>, sources: seq<seq<Entry>>)
  {
    g != [] && forall it: Item :: it in g <==> FromSource(sources, it) && it.entry.key == KeyOf(g)
  }

  lemma CompleteShows(g: seq<Item>, sources: seq<seq<Entry>>, rev: nat)
    requires Complete(g, sources)
    ensures Shows(VersionsOfAll(sources), KeyOf(g), rev, VisibleIn(Emit(g), rev))
    ensures Emit(g).chosen.entry.key == KeyOf(g)
  {
    hide VisibleIn, BestItem, Choose;
    VisibleIsBest(g, rev);
    ChooseIsBest(g);
    BestItemShows({}, None, g, KeyOf(g), rev);
    assert {} + ItemVersions(g) == ItemVersions(g);
    assert ItemVersions(g) == KeyVersionsOfAll(sources, KeyOf(g)) by {
      forall v | v in KeyVersionsOfAll(sources, KeyOf(g))
        ensures v in ItemVersions(g)
      {
        var i, e :| 0 <= i < |sources| && e in sources[i] && V(e) == v;
        assert FromSource(sources, Item(e, i)) && Item(e, i) in g;
      }
      forall it: Item | it in g
        ensures V(it.entry) in VersionsOfAll(sources)
      {
        assert FromSource(sources, it);
      }
    }
    OnlyTheKey(VersionsOfAll(sources), KeyVersionsOfAll(sources, KeyOf(g)), KeyOf(g), rev, BestItem(None, g, rev),
               sources);
  }

  /** The rows of a list of complete groups with increasing keys. */
  ghost predicate RowsShow(rows: seq<Row>, all: set<Version>, rev: nat, keys: set<Bytes>)
  {
    && (forall r :: r in rows ==>
          r.key in keys && exists e: Entry :: Shows(all, r.key, rev, Some(e)) && r.value == e.value)
    && (forall k, e: Entry :: k in keys && Shows(all, k, rev, Some(e)) ==> exists r :: r in rows && r.key == k)
    && forall i, j :: 0 <= i < j < |rows| ==> Less(rows[i].key, rows[j].key)
  }

  function KeysIn(groups: seq<seq<Item>>): set<Bytes>
    requires forall i :: 0 <= i < |groups| ==> groups[i] != []
  {
    set i | 0 <= i < |groups| :: KeyOf(groups[i])
  }

  lemma {:induction false} RowsOfGroups(groups: seq<seq<Item>>, sources: seq<seq<Entry>>, rev: nat, seen: set<Bytes>)
    requires forall i :: 0 <= i < |groups| ==> groups[i] != []
    requires forall i :: 0 <= i < |groups| ==> Complete(groups[i], sources)
    requires KeysIncrease(groups) && OneVersion(VersionsOfAll(sources))
    requires forall i :: 0 <= i < |groups| ==> KeyOf(groups[i]) !in seen
    ensures RowsShow(Rows(EmitAll(groups), rev, seen), VersionsOfAll(sources), rev, KeysIn(groups))
    decreases |groups|
  {
    hide VisibleIn, VersionsOfAll, Shows, OneVersion, Emit, Less, Complete;
    if groups != [] {
      var g, rest := groups[0], groups[1..];
      CompleteShows(g, sources, rev);
      forall i | 0 <= i < |rest|
        ensures rest[i] != [] && Complete(rest[i], sources) && KeyOf(rest[i]) !in seen + {KeyOf(g)}
      {
        assert rest[i] == groups[i + 1];
        LessIrreflexive(KeyOf(g));
        assert Less(KeyOf(g), KeyOf(groups[i + 1]));
      }
      RowsOfGroups(rest, sources, rev, seen + {KeyOf(g)});
      RowsCons(groups, sources, rev, seen);
    }
  }

  lemma RowsCons(groups: seq<seq<Item>>, sources: seq<seq<Entry>>, rev: nat, seen: set<Bytes>)
    requires groups != [] && (forall i :: 0 <= i < |groups| ==> groups[i] != []) && KeysIncrease(groups)
    requires OneVersion(VersionsOfAll(sources)) && KeyOf(groups[0]) !in seen
    requires Emit(groups[0]).chosen.entry.key == KeyOf(groups[0])
    requires Shows(VersionsOfAll(sources), KeyOf(groups[0]), rev, VisibleIn(Emit(groups[0]), rev))
    requires RowsShow(Rows(EmitAll(groups[1..]), rev, seen + {KeyOf(groups[0])}), VersionsOfAll(sources), rev,
                      KeysIn(groups[1..]))
    ensures RowsShow(Rows(EmitAll(groups), rev, seen), VersionsOfAll(sources), rev, KeysIn(groups))
  {
    hide VisibleIn, VersionsOfAll, Emit, Less, OneVersion, Shows, RowsShow, KeysIn;
    var key := KeyOf(groups[0]);
    var v := VisibleIn(Emit(groups[0]), rev);
    var later := Rows(EmitAll(groups[1..]), rev, seen + {key});
    assert EmitAll(groups)[1..] == EmitAll(groups[1..]);
    KeysInCons(groups);
    forall k | k in KeysIn(groups[1..])
      ensures Less(key, k)
    {
      LaterKeyIsLess(groups, k);
    }
    RowThenRows(v, key, later, VersionsOfAll(sources), rev, KeysIn(groups[1..]));
  }

  lemma LaterKeyIsLess(groups: seq<seq<Item>>, k: Bytes)
    requires groups != [] && (forall i :: 0 <= i < |groups| ==> groups[i] != []) && KeysIncrease(groups)
    requires k in KeysIn(groups[1..])
    ensures Less(KeyOf(groups[0]), k)
  {
    hide Less;
    var i :| 0 <= i < |groups[1..]| && KeyOf(groups[1..][i]) == k;
    assert Less(KeyOf(groups[0]), KeyOf(groups[i + 1]));
  }

  lemma RowThenRows(v: Option<Entry>, key: Bytes, later: seq<Row>, all: set<Version>, rev: nat, keys: set<Bytes>)
    requires OneVersion(all) && Shows(all, key, rev, v) && RowsShow(later, all, rev, keys)
    requires forall k :: k in keys ==> Less(key, k)
    ensures RowsShow((if v.Some? then [Row(key, v.value.value)] else []) + later, all, rev, {key} + keys)
  {
    hide Less, OneVersion, Shows;
    var rows := (if v.Some? then [Row(key, v.value.value)] else []) + later;
    forall k, e: Entry | k in {key} + keys && Shows(all, k, rev, Some(e))
      ensures exists r :: r in rows && r.key == k
    {
      if k == key {
        ShowsOnce(all, key, rev, v, Some(e));
        assert rows[0].key == key;
      } else {
        var r :| r in later && r.key == k;
        assert r in rows;
      }
    }
    assert v.Some? ==> Shows(all, key, rev, Some(v.value));
    RowsIncrease(v, key, later, rows);
  }

  lemma KeysInCons(groups: seq<seq<Item>>)
    requires groups != [] && forall i :: 0 <= i < |groups| ==> groups[i] != []
    ensures KeysIn(groups) == {KeyOf(groups[0])} + KeysIn(groups[1..])
  {
    forall k | k in KeysIn(groups[1..])
      ensures k in KeysIn(groups)
    {
      var i :| 0 <= i < |groups[1..]| && KeyOf(groups[1..][i]) == k;
      assert groups[i + 1] == groups[1..][i];
    }
    forall k | k in KeysIn(groups)
      ensures k == KeyOf(groups[0]) || k in KeysIn(groups[1..])
    {
      var i :| 0 <= i < |groups| && KeyOf(groups[i]) == k;
      if i > 0 {
        assert groups[1..][i - 1] == groups[i];
      }
    }
  }

  lemma RowsIncrease(v: Option<Entry>, key: Bytes, later: seq<Row>, rows: seq<Row>)
    requires rows == (if v.Some? then [Row(key, v.value.value)] else []) + later
    requires forall r :: r in later ==> Less(key, r.key)
    requires forall i, j :: 0 <= i < j < |later| ==> Less(later[i].key, later[j].key)
    ensures forall i, j :: 0 <= i < j < |rows| ==> Less(rows[i].key, rows[j].key)
  {
    hide Less;
  }

  // ---------------------------------------------------------------- main results

  /** Memtable and at most three files, each sorted, a revision naming one version: the
      snapshot has a row for a key exactly if `getAtRevision` finds a version of it, with the
      same value; the rows come in key order. */
  lemma SnapshotAgreesWithGet(mem: seq<Entry>, ssts: seq<seq<Entry>>, rev: nat, key: Bytes)
    requires SortedSources([mem] + ssts) && |ssts| <= 3 && OneVersion(VersionsOfAll([mem] + ssts))
    ensures var rows := Snapshot([mem] + ssts, rev);
            var v := VersionAt(mem, ssts, key, rev);
            && (v.Some? <==> exists r :: r in rows && r.key == key)
            && (forall r :: r in rows && r.key == key ==> v.Some? && r.value == v.value.value)
            && forall i, j :: 0 <= i < j < |rows| ==> Less(rows[i].key, rows[j].key)
  {
    hide Groups, Start, Rows, EmitAll, VersionsOfAll, VersionAt, Shows, OneVersion, Less, KeysIncrease;
    var sources := [mem] + ssts;
    var all := VersionsOfAll(sources);
    var groups := Groups(Start(sources));
    assert StrictlySorted(sources[0]);
    VersionAtShows(mem, ssts, key, rev);
    MergeOfFourIsCorrect(sources);
    forall i | 0 <= i < |groups|
      ensures Complete(groups[i], sources)
    {
    }
    RowsOfGroups(groups, sources, rev, {});
    var rows := Snapshot(sources, rev);
    var v := VersionAt(mem, ssts, key, rev);
    if v.Some? {
      KeyIsGrouped(sources, key, rev, v.value);
      assert Shows(all, key, rev, Some(v.value));
    }
    forall r | r in rows && r.key == key
      ensures v.Some? && r.value == v.value.value
    {
      var e: Entry :| Shows(all, key, rev, Some(e)) && r.value == e.value;
      ShowsOnce(all, key, rev, v, Some(e));
    }
  }

  lemma KeyIsGrouped(sources: seq<seq<Entry>>, key: Bytes, rev: nat, e: Entry)
    requires Shows(VersionsOfAll(sources), key, rev, Some(e))
    ensures key in KeysIn(Groups(Start(sources)))
  {
    hide Groups, Start;
    MergeLosesNothing(sources);
    var groups := Groups(Start(sources));
    var i, x :| 0 <= i < |sources| && x in sources[i] && V(x) == V(e);
    assert FromSource(sources, Item(x, i));
    var j :| 0 <= j < |groups| && Item(x, i) in groups[j];
    assert groups[j][0] in groups[j] && OneKey(groups[j]);
    assert KeyOf(groups[j]) == key;
  }

  // ---------------------------------------------------------------- five sources

  /** The second version of the key 5, which the fourth source holds behind the key 3. */
  function Newer(): Entry
  {
    Entry([5], Some([7]), 1, 0, 0)
  }

  /** The five sources, padded with empty ones. */
  function Split(n: nat): (r: seq<seq<Entry>>)
    requires 5 <= n
    ensures |r| == n && SortedSources(r)
  {
    OneByteOrder(1, 10, 0, 0);
    OneByteOrder(3, 5, 0, 0);
    [[E(1), E(10)], [E(2)], [E(5)], [E(3), Newer()], [E(9)]] + Empties(n - 5)
  }

  lemma SplitHasOneVersion(n: nat)
    requires 5 <= n
    ensures OneVersion(VersionsOfAll(Split(n))) && V(Newer()) in VersionsOfAll(Split(n))
  {
    var s := Split(n);
    assert forall j :: 5 <= j < |s| ==> s[j] == [];
    forall v | v in VersionsOfAll(s)
      ensures v == V(Newer()) || (v.rev == 0 && v.value == None)
    {
      var i, e :| 0 <= i < |s| && e in s[i] && V(e) == v;
      assert i < 5;
    }
    assert Newer() in s[3];
  }

  lemma SplitStart(n: nat)
    requires 5 <= n
    ensures Start(Split(n)) ==
            Cursor([[E(10)], [], [], [Newer()], []] + Empties(n - 5),
                   [I(1, 0), I(2, 1), I(5, 2), I(3, 3), I(9, 4)])
  {
    hide Push, Less;
    WitnessPushes();
    var w := Split(n);
    var pad := Empties(n - 5);
    var c0 := Cursor(w, []);
    assert c0.rest[0][1..] == [E(10)];
    assert c0.rest[0 := [E(10)]] == [[E(10)], [E(2)], [E(5)], [E(3), Newer()], [E(9)]] + pad;
    var c1 := Advance(c0, 0);
    assert c1 == Cursor([[E(10)], [E(2)], [E(5)], [E(3), Newer()], [E(9)]] + pad, [I(1, 0)]);
    assert c1.rest[1][1..] == [] && c1.rest[1 := []] == [[E(10)], [], [E(5)], [E(3), Newer()], [E(9)]] + pad;
    var c2 := Advance(c1, 1);
    assert c2 == Cursor([[E(10)], [], [E(5)], [E(3), Newer()], [E(9)]] + pad, [I(1, 0), I(2, 1)]);
    assert c2.rest[2][1..] == [] && c2.rest[2 := []] == [[E(10)], [], [], [E(3), Newer()], [E(9)]] + pad;
    var c3 := Advance(c2, 2);
    assert c3 == Cursor([[E(10)], [], [], [E(3), Newer()], [E(9)]] + pad, [I(1, 0), I(2, 1), I(5, 2)]);
    assert c3.rest[3][1..] == [Newer()] && c3.rest[3 := [Newer()]] == [[E(10)], [], [], [Newer()], [E(9)]] + pad;
    var c4 := Advance(c3, 3);
    assert c4 == Cursor([[E(10)], [], [], [Newer()], [E(9)]] + pad, [I(1, 0), I(2, 1), I(5, 2), I(3, 3)]);
    assert c4.rest[4][1..] == [] && c4.rest[4 := []] == [[E(10)], [], [], [Newer()], []] + pad;
    var c5 := Advance(c4, 4);
    assert c5 == Cursor([[E(10)], [], [], [Newer()], []] + pad, [I(1, 0), I(2, 1), I(5, 2), I(3, 3), I(9, 4)]);
    StartSkipsEmpty(c5, 5);
    assert Start(w) == StartFrom(c1, 1) == StartFrom(c2, 2) == StartFrom(c3, 3) == StartFrom(c4, 4) == StartFrom(c5, 5);
  }

  /** The key 5 is drained alone, before its newer version has entered the heap. */
  lemma SplitRounds(n: nat) returns (c: Cursor)
    requires 5 <= n
    ensures Groups(Start(Split(n))) == [[I(1, 0)], [I(2, 1)], [I(5, 2)]] + Groups(c)
  {
    hide Round, Groups, Pop, Push, Less, Split, Start;
    SplitStart(n);
    WitnessPops();
    var some := [[], [], [], [Newer()], []] + Empties(n - 5);
    var c0 := Start(Split(n));
    SingleRound(c0);
    assert c0.rest[0][1..] == [] && c0.rest[0 := []] == some;
    var c1 := Cursor(some, [I(2, 1), I(9, 4), I(5, 2), I(3, 3), I(10, 0)]);
    assert Round(c0).1 == c1;
    SingleRound(c1);
    var c2 := Cursor(some, [I(5, 2), I(9, 4), I(10, 0), I(3, 3)]);
    assert Round(c1).1 == c2;
    SingleRound(c2);
    c := Cursor(some, [I(3, 3), I(9, 4), I(10, 0)]);
    assert Round(c2).1 == c;
  }

  /** What the two reads owe each other. */
  ghost predicate Agree(sources: seq<seq<Entry>>, rev: nat, key: Bytes)
    requires sources != []
  {
    var rows := Snapshot(sources, rev);
    var v := VersionAt(sources[0], sources[1..], key, rev);
    && (v.Some? <==> exists r :: r in rows && r.key == key)
    && forall r :: r in rows && r.key == key ==> v.Some? && r.value == v.value.value
  }

  lemma SplitDisagrees(n: nat)
    requires 5 <= n
    ensures !Agree(Split(n), 1, [5])
  {
    hide Groups, Start, Rows, VersionsOfAll, VersionAt, OneVersion, Split, Shows;
    var s := Split(n);
    SplitHasOneVersion(n);
    var c := SplitRounds(n);
    RowOfFive(Groups(Start(s)), Groups(c));
    assert Row([5], None) in Snapshot(s, 1);
    assert [s[0]] + s[1..] == s && StrictlySorted(s[0]);
    VersionAtShows(s[0], s[1..], [5], 1);
    NewerWins(VersionsOfAll(s), VersionAt(s[0], s[1..], [5], 1));
  }

  lemma NewerWins(all: set<Version>, v: Option<Entry>)
    requires OneVersion(all) && V(Newer()) in all && Shows(all, [5], 1, v)
    ensures v.Some? && v.value.value == Some([7])
  {
    ShowsOnce(all, [5], 1, v, if v.Some? && v.value.rev == 1 then v else Some(Newer()));
  }

  lemma RowOfFive(groups: seq<seq<Item>>, more: seq<seq<Item>>)
    requires forall i :: 0 <= i < |groups| ==> groups[i] != []
    requires groups == [[I(1, 0)], [I(2, 1)], [I(5, 2)]] + more
    ensures Row([5], None) in Rows(EmitAll(groups), 1, {})
  {
    var ms := EmitAll(groups);
    SingleRow(ms, {}, 1, 0);
    SingleRow(ms[1..], {[1]}, 2, 1);
    assert ms[1..][1..] == ms[2..];
    SingleRow(ms[2..], {[1], [2]}, 5, 2);
    assert {[1]} + {[2]} == {[1], [2]};
  }

  lemma SingleRow(ms: seq<Merged>, seen: set<Bytes>, b: Byte, idx: nat)
    requires ms != [] && ms[0] == Emit([I(b, idx)]) && [b] !in seen
    ensures Rows(ms, 1, seen) == [Row([b], None)] + Rows(ms[1..], 1, seen + {[b]})
  {
  }

  /** The guarantee in full: the two reads agree on all sorted sources that name one version a
      revision exactly if there are at most four of them, the memtable and three files. */
  lemma ReadsAgreeIffAtMostFour(n: nat)
    requires 1 <= n
    ensures (forall sources, rev, key ::
               |sources| == n && SortedSources(sources) && OneVersion(VersionsOfAll(sources)) ==>
                 Agree(sources, rev, key)) <==> n <= 4
  {
    if n <= 4 {
      forall sources, rev, key | |sources| == n && SortedSources(sources) && OneVersion(VersionsOfAll(sources))
        ensures Agree(sources, rev, key)
      {
        assert [sources[0]] + sources[1..] == sources;
        SnapshotAgreesWithGet(sources[0], sources[1..], rev, key);
      }
    } else {
      SplitDisagrees(n);
      SplitHasOneVersion(n);
      var w := Split(n);
      assert |w| == n && SortedSources(w) && OneVersion(VersionsOfAll(w)) && !Agree(w, 1, [5]);
    }
  }
}
