/** Deletions under tombstone retention (`libs/storage/compactor.ts`): when a key that reads
    deleted still does after a group has been compacted, and what a lookup in the output finds. */
module Tombstones {
  import opened Bytes
  import opened Entries
  import opened MinHeap
  import opened MergeIterator
  import opened Compaction

  /** The newest version of the key, if there is one, is a tombstone. */
  ghost predicate ReadsDeleted(vs: set<Version>, key: Bytes)
  {
    forall v :: IsNewest(vs, v) && v.key == key ==> v.value == None
  }

  /** Why a tombstone is written: a snapshot protects it, it is young, or, in level 0 only,
      a live candidate is brought back in front of it. */
  predicate Kept(m: Merged, group: seq<Meta>, rules: Rules, promote: bool)
  {
    Protected(m.chosen, rules) || !Expired(m.chosen, group, rules) || (promote && BestLive(m.candidates).Some?)
  }

  lemma TombstoneOutcome(m: Merged, group: seq<Meta>, rules: Rules, promote: bool)
    requires m.chosen.entry.value == None
    ensures var out := Outcome(m, group, rules, promote);
            if Kept(m, group, rules, promote) then Rewrite(m.chosen, group, rules) in out else out == []
  {
    hide Protected, Expired, Rewrite, BestLive;
    var out := Outcome(m, group, rules, promote);
    assert Kept(m, group, rules, promote) ==> out != [] && out[|out| - 1] == Rewrite(m.chosen, group, rules);
  }

  // ---------------------------------------------------------------- one group

  /** The merge yields the tombstone in an item that writes it. */
  ghost predicate Survives(ms: seq<Merged>, group: seq<Meta>, rules: Rules, promote: bool, dead: Version)
  {
    exists i :: 0 <= i < |ms| && V(ms[i].chosen.entry) == dead && Kept(ms[i], group, rules, promote)
  }

  /** What else is written for its key. Only a merge of more than four files, or of unsorted
      ones, yields a key more than once. */
  function Leftovers(ms: seq<Merged>, group: seq<Meta>, rules: Rules, promote: bool, dead: Version): set<Version>
  {
    set i, e | 0 <= i < |ms| && ms[i].chosen.entry.key == dead.key && V(ms[i].chosen.entry) != dead &&
               e in Outcome(ms[i], group, rules, promote) :: V(e)
  }

  lemma OutcomeKey(sources: seq<seq<Entry>>, i: nat, group: seq<Meta>, rules: Rules, promote: bool, e: Entry)
    requires i < |Merge(sources)| && e in Outcome(Merge(sources)[i], group, rules, promote)
    ensures e.key == Merge(sources)[i].chosen.entry.key
  {
    hide Outcome, Groups, Start, Choose;
    MergeLosesNothing(sources);
    var g := Groups(Start(sources))[i];
    assert Merge(sources)[i] == Emit(g) && OneKey(g);
    OutcomeOfGroup(g, group, rules, promote);
    ChooseIsBest(g);
    var it: Item :| it in g && V(e) == V(it.entry);
  }

  lemma SurvivorIsWritten(ms: seq<Merged>, group: seq<Meta>, rules: Rules, promote: bool, dead: Version)
    requires dead.value == None && Survives(ms, group, rules, promote, dead)
    ensures dead in VersionsIn(Outcomes(ms, group, rules, promote))
  {
    hide Outcome, Outcomes, Kept;
    var i :| 0 <= i < |ms| && V(ms[i].chosen.entry) == dead && Kept(ms[i], group, rules, promote);
    TombstoneOutcome(ms[i], group, rules, promote);
    OutcomesMember(ms, i, group, rules, promote, Rewrite(ms[i].chosen, group, rules));
  }

  lemma WithoutSurvivor(sources: seq<seq<Entry>>, group: seq<Meta>, rules: Rules, promote: bool, dead: Version,
                        v: Version)
    requires dead.value == None && !Survives(Merge(sources), group, rules, promote, dead) && v.key == dead.key
    ensures v in VersionsIn(Outcomes(Merge(sources), group, rules, promote)) <==>
            v in Leftovers(Merge(sources), group, rules, promote, dead)
  {
    hide Outcome, Outcomes, Kept, Merge;
    var ms := Merge(sources);
    if v in VersionsIn(Outcomes(ms, group, rules, promote)) {
      var e :| e in Outcomes(ms, group, rules, promote) && V(e) == v;
      var i := OutcomesOrigin(ms, group, rules, promote, e);
      OutcomeKey(sources, i, group, rules, promote, e);
      if V(ms[i].chosen.entry) == dead {
        TombstoneOutcome(ms[i], group, rules, promote);
      }
    }
    if v in Leftovers(ms, group, rules, promote, dead) {
      var i, e :| 0 <= i < |ms| && e in Outcome(ms[i], group, rules, promote) && V(e) == v;
      OutcomesMember(ms, i, group, rules, promote, e);
    }
  }

  lemma DeletedIff(rest: set<Version>, old': set<Version>, written: set<Version>, left: set<Version>, dead: Version,
                   survives: bool)
    requires OneVersion(rest + old') && written <= old' && IsNewest(rest + old', dead) && dead.value == None
    requires survives ==> dead in written
    requires !survives ==> forall v: Version :: v.key == dead.key ==> (v in written <==> v in left)
    ensures ReadsDeleted(rest + written, dead.key) <==> survives || ReadsDeleted(rest + left, dead.key)
  {
    if survives {
      forall v | IsNewest(rest + written, v) && v.key == dead.key
        ensures v == dead
      {
        assert dead in rest + written && v in rest + old';
      }
    } else {
      forall v: Version | v.key == dead.key
        ensures IsNewest(rest + written, v) <==> IsNewest(rest + left, v)
      {
      }
    }
  }

  /** The exact condition, for any group, any number of sources, and any way to store what the
      merge writes: a key whose newest version in the manifest is a tombstone reads deleted
      afterwards exactly if the tombstone is written, or nothing live is newest among the
      other files and what else the group writes for the key. */
  lemma StaysDeletedIff(files: seq<Meta>, disk: Disk, group: seq<Meta>, metas: seq<Meta>, disk': Disk, rules: Rules,
                        promote: bool, dead: Version)
    requires forall m :: m in group ==> m in files
    requires OneVersion(AllVersions(files, disk))
    requires forall m :: m in files && m.file !in Names(group) ==>
               (m.file in disk' <==> m.file in disk) && (m.file in disk ==> disk'[m.file] == disk[m.file])
    requires AllVersions(metas, disk') == VersionsIn(Written(group, disk, rules, promote))
    requires IsNewest(AllVersions(files, disk), dead) && dead.value == None
    ensures var ms := Merge(Sources(group, disk));
            var rest := AllVersions(Others(files, Names(group)), disk);
            ReadsDeleted(AllVersions(Replace(files, Names(group), metas), disk'), dead.key) <==>
            Survives(ms, group, rules, promote, dead) ||
            ReadsDeleted(rest + Leftovers(ms, group, rules, promote, dead), dead.key)
  {
    hide Outcomes, Merge, Sources, IsNewest, Survives, Leftovers, ReadsDeleted, VersionsIn, OneVersion;
    var sources := Sources(group, disk);
    var ms := Merge(sources);
    var written := VersionsIn(Outcomes(ms, group, rules, promote));
    AfterReplacing(files, disk, group, metas, disk', rules, promote);
    SourcesAreStored(group, disk);
    NothingInvented(sources, group, rules, promote);
    StoredSplit(files, disk, group);
    var survives := Survives(ms, group, rules, promote, dead);
    if survives {
      SurvivorIsWritten(ms, group, rules, promote, dead);
    } else {
      forall v: Version | v.key == dead.key
        ensures v in written <==> v in Leftovers(ms, group, rules, promote, dead)
      {
        WithoutSurvivor(sources, group, rules, promote, dead, v);
      }
    }
    DeletedIff(AllVersions(Others(files, Names(group)), disk), AllVersions(group, disk), written,
               Leftovers(ms, group, rules, promote, dead), dead, survives);
  }

  lemma AfterReplacing(files: seq<Meta>, disk: Disk, group: seq<Meta>, metas: seq<Meta>, disk': Disk, rules: Rules,
                       promote: bool)
    requires forall m :: m in files && m.file !in Names(group) ==>
               (m.file in disk' <==> m.file in disk) && (m.file in disk ==> disk'[m.file] == disk[m.file])
    requires AllVersions(metas, disk') == VersionsIn(Written(group, disk, rules, promote))
    ensures AllVersions(Replace(files, Names(group), metas), disk') ==
            AllVersions(Others(files, Names(group)), disk) +
            VersionsIn(Outcomes(Merge(Sources(group, disk)), group, rules, promote))
  {
    hide Outcomes, Merge, Sources, VersionsIn;
    StoredConcat(Others(files, Names(group)), metas, disk');
    assert AllVersions(Others(files, Names(group)), disk') == AllVersions(Others(files, Names(group)), disk);
  }

  /** Up to four sorted files, the tombstone in one of them: nothing else is written for its
      key, so it is the guards of its item that count, and the files outside the group. */
  lemma StaysDeletedIffOfFour(files: seq<Meta>, disk: Disk, group: seq<Meta>, metas: seq<Meta>, disk': Disk,
                              rules: Rules, promote: bool, dead: Version, i: nat)
    requires forall m :: m in group ==> m in files
    requires OneVersion(AllVersions(files, disk))
    requires forall m :: m in files && m.file !in Names(group) ==>
               (m.file in disk' <==> m.file in disk) && (m.file in disk ==> disk'[m.file] == disk[m.file])
    requires AllVersions(metas, disk') == VersionsIn(Written(group, disk, rules, promote))
    requires IsNewest(AllVersions(files, disk), dead) && dead.value == None && dead in AllVersions(group, disk)
    requires var sources := Sources(group, disk);
             && SortedSources(sources) && |sources| <= 4
             && i < |Merge(sources)| && Merge(sources)[i].chosen.entry.key == dead.key
    ensures ReadsDeleted(AllVersions(Replace(files, Names(group), metas), disk'), dead.key) <==>
            Kept(Merge(Sources(group, disk))[i], group, rules, promote) ||
            ReadsDeleted(AllVersions(Others(files, Names(group)), disk), dead.key)
  {
    hide Written, Merge, Sources, IsNewest, ReadsDeleted, VersionsIn, OneVersion, Kept, Replace, AllVersions, Outcome;
    hide SortedSources;
    var sources := Sources(group, disk);
    var ms := Merge(sources);
    StaysDeletedIff(files, disk, group, metas, disk', rules, promote, dead);
    SourcesAreStored(group, disk);
    StoredSplit(files, disk, group);
    TheItem(sources, AllVersions(files, disk), dead, i);
    OnlyItem(ms, group, rules, promote, dead, i);
    var rest := AllVersions(Others(files, Names(group)), disk);
    assert rest + {} == rest;
  }

  /** The item of the key is the tombstone itself, and the key comes once. */
  lemma TheItem(sources: seq<seq<Entry>>, all: set<Version>, dead: Version, i: nat)
    requires SortedSources(sources) && |sources| <= 4 && i < |Merge(sources)|
    requires Merge(sources)[i].chosen.entry.key == dead.key
    requires VersionsOfAll(sources) <= all && dead in VersionsOfAll(sources) && IsNewest(all, dead) && OneVersion(all)
    ensures V(Merge(sources)[i].chosen.entry) == dead
    ensures forall j :: 0 <= j < |Merge(sources)| && j != i ==> Merge(sources)[j].chosen.entry.key != dead.key
  {
    hide Merge, SortedSources, Less;
    MergeYieldsNewestOnce(sources);
    var ms := Merge(sources);
    var c := ms[i].chosen;
    assert ms[i] in ms && IsWinner(c, sources);
    var s, e :| 0 <= s < |sources| && e in sources[s] && V(e) == dead;
    assert FromSource(sources, Item(e, s));
    assert V(c.entry) in VersionsOfAll(sources);
    LessIrreflexive(dead.key);
  }

  lemma OnlyItem(ms: seq<Merged>, group: seq<Meta>, rules: Rules, promote: bool, dead: Version, i: nat)
    requires i < |ms| && V(ms[i].chosen.entry) == dead
    requires forall j :: 0 <= j < |ms| && j != i ==> ms[j].chosen.entry.key != dead.key
    ensures Survives(ms, group, rules, promote, dead) <==> Kept(ms[i], group, rules, promote)
    ensures Leftovers(ms, group, rules, promote, dead) == {}
  {
    hide Kept, Outcome;
  }

  // ---------------------------------------------------------------- what retention costs

  /** Every entry of the group is a tombstone that has expired and that no snapshot protects. */
  ghost predicate OnlyExpired(group: seq<Meta>, disk: Disk, rules: Rules)
  {
    forall it: Item :: FromSource(Sources(group, disk), it) ==>
      it.entry.value == None && !Protected(it, rules) && Expired(it, group, rules)
  }

  lemma {:induction false} NoOutcomes(ms: seq<Merged>, group: seq<Meta>, rules: Rules, promote: bool)
    requires forall i :: 0 <= i < |ms| ==> Outcome(ms[i], group, rules, promote) == []
    ensures Outcomes(ms, group, rules, promote) == []
  {
    hide Outcome;
    if ms != [] {
      NoOutcomes(ms[1..], group, rules, promote);
    }
  }

  lemma ExpiredGroupVanishes(group: seq<Meta>, disk: Disk, rules: Rules, promote: bool)
    requires OnlyExpired(group, disk, rules)
    ensures Written(group, disk, rules, promote) == []
  {
    hide Groups, Start, Choose, Outcomes, Protected, Expired;
    var sources := Sources(group, disk);
    var groups := Groups(Start(sources));
    MergeLosesNothing(sources);
    forall i | 0 <= i < |groups|
      ensures Outcome(Emit(groups[i]), group, rules, promote) == []
    {
      ChooseIsBest(groups[i]);
      forall it: Item | it in groups[i]
        ensures it.entry.value == None && !Protected(it, rules) && Expired(it, group, rules)
      {
        assert InSome(groups, it) && FromSource(sources, it);
      }
      assert BestLive(Emit(groups[i]).candidates) == None;
    }
    NoOutcomes(Merge(sources), group, rules, promote);
  }

  /** With retention a deletion is undone: the newest version of a key is an expired tombstone
      of the group, an older live one stands in a file outside it, and afterwards that one is
      the newest. So the claim about newest versions has to be restricted to live ones. */
  lemma ExpiredTombstoneResurrects(files: seq<Meta>, disk: Disk, group: seq<Meta>, rules: Rules, promote: bool,
                                   dead: Version, old': Version)
    requires OnlyExpired(group, disk, rules) && forall m :: m in group ==> m in files
    requires IsNewest(AllVersions(files, disk), dead) && dead.value == None
    requires old'.key == dead.key && old' != dead
    requires IsNewest(AllVersions(Others(files, Names(group)), disk), old')
    requires OneVersion(AllVersions(files, disk))
    ensures Written(group, disk, rules, promote) == []
    ensures IsNewest(AllVersions(Replace(files, Names(group), []), disk), old')
    ensures !IsNewest(AllVersions(files, disk), old')
  {
    hide Written, AllVersions, Sources;
    ExpiredGroupVanishes(group, disk, rules, promote);
    StoredSplit(files, disk, group);
    assert Others(files, Names(group)) + [] == Others(files, Names(group));
  }

  // ---------------------------------------------------------------- lookups in the output

  lemma {:induction false} LookupOutside(ms: seq<Merged>, group: seq<Meta>, rules: Rules, promote: bool, key: Bytes)
    requires forall j, e :: 0 <= j < |ms| && e in Outcome(ms[j], group, rules, promote) ==> e.key != key
    ensures Lookup(Outcomes(ms, group, rules, promote), key) == None
  {
    hide Outcome, Lookup;
    if ms != [] {
      LookupConcat(Outcome(ms[0], group, rules, promote), Outcomes(ms[1..], group, rules, promote), key);
      assert forall e :: e in Outcome(ms[0], group, rules, promote) ==> e.key != key;
      LookupOutside(ms[1..], group, rules, promote, key);
    } else {
      assert Outcomes(ms, group, rules, promote) == [];
      NothingThere(key);
    }
  }

  lemma NothingThere(key: Bytes)
    ensures Lookup([], key) == None
  {
  }

  /** A key that the merge yields once is looked up in what its item writes. */
  lemma {:induction false} LookupOfItem(ms: seq<Merged>, group: seq<Meta>, rules: Rules, promote: bool, i: nat,
                                        key: Bytes)
    requires i < |ms|
    requires forall j, e :: 0 <= j < |ms| && j != i && e in Outcome(ms[j], group, rules, promote) ==> e.key != key
    ensures Lookup(Outcomes(ms, group, rules, promote), key) == Lookup(Outcome(ms[i], group, rules, promote), key)
    decreases i
  {
    hide Outcome, Lookup;
    var here, rest := Outcome(ms[0], group, rules, promote), Outcomes(ms[1..], group, rules, promote);
    LookupConcat(here, rest, key);
    if i == 0 {
      LookupOutside(ms[1..], group, rules, promote, key);
    } else {
      assert forall e :: e in here ==> e.key != key;
      LookupOfItem(ms[1..], group, rules, promote, i - 1, key);
    }
  }

  /** What one item shows to a lookup: a promoted candidate hides its tombstone. */
  function Shown(m: Merged, group: seq<Meta>, rules: Rules, promote: bool): Option<Entry>
  {
    if Promotes(m, group, rules, promote) then Some(Rewrite(BestLive(m.candidates).value, group, rules))
    else if m.chosen.entry.value == None && !Kept(m, group, rules, promote) then None
    else Some(Rewrite(m.chosen, group, rules))
  }

  lemma LookupOutcome(m: Merged, group: seq<Meta>, rules: Rules, promote: bool)
    requires forall c :: c in m.candidates ==> c.entry.key == m.chosen.entry.key
    ensures Lookup(Outcome(m, group, rules, promote), m.chosen.entry.key) == Shown(m, group, rules, promote)
  {
    hide Protected, Expired;
    var out := Outcome(m, group, rules, promote);
    assert out != [] ==> out[0].key == m.chosen.entry.key;
  }

  /** Over the whole output of up to four sorted files: a lookup finds what the item of the key
      shows. Where a tombstone is written it finds the tombstone exactly if no candidate has
      been promoted for that key. */
  lemma LookupInOutput(group: seq<Meta>, disk: Disk, rules: Rules, promote: bool, i: nat)
    requires var sources := Sources(group, disk);
             SortedSources(sources) && |sources| <= 4 && i < |Merge(sources)|
    ensures var m := Merge(Sources(group, disk))[i];
            var found := Lookup(Written(group, disk, rules, promote), m.chosen.entry.key);
            && found == Shown(m, group, rules, promote)
            && (m.chosen.entry.value == None && Kept(m, group, rules, promote) ==>
                  (found == Some(Rewrite(m.chosen, group, rules)) <==> !Promotes(m, group, rules, promote)))
  {
    hide Merge, Outcomes, Outcome, Sources, SortedSources, Lookup, Less, BestLive, Protected, Expired;
    var sources := Sources(group, disk);
    var ms := Merge(sources);
    MergeYieldsNewestOnce(sources);
    var key := ms[i].chosen.entry.key;
    forall j, e | 0 <= j < |ms| && j != i && e in Outcome(ms[j], group, rules, promote)
      ensures e.key != key
    {
      OutcomeKey(sources, j, group, rules, promote, e);
      LessIrreflexive(key);
    }
    LookupOfItem(ms, group, rules, promote, i, key);
    assert ms[i] in ms && AreRivals(ms[i], sources);
    LookupOutcome(ms[i], group, rules, promote);
    assert Promotes(ms[i], group, rules, promote) ==> BestLive(ms[i].candidates).value.entry.value.Some?;
  }
}
