/** What one group compaction of `libs/storage/compactor.ts` does to the stored versions: the
    merged entries, the tombstone rules, the split into output files and the manifest update
    (`replaceFiles` of `libs/storage/manifest.ts`). */
module Compaction {
  import opened Bytes
  import opened Entries
  import opened MinHeap
  import opened MergeIterator

  /** `PersistedFileMeta`; a file is known by a number. */
  datatype Meta = Meta(file: nat, minKey: Bytes, maxKey: Bytes, size: nat, level: nat, walOffset: Option<nat>,
                       createdAt: Option<nat>)

  /** The entries of every file that exists and can be read. */
  type Disk = map<nat, seq<Entry>>

  /** The settings that decide about tombstones; `created` is the time stamp of new entries. */
  datatype Rules = Rules(maxActiveRev: Option<nat>, retentionMs: Option<nat>, now: int, created: nat)

  // ---------------------------------------------------------------- what is written

  /** The readable files of a group, in order. */
  function Sources(group: seq<Meta>, disk: Disk): seq<seq<Entry>>
  {
    if group == [] then []
    else (if group[0].file in disk then [disk[group[0].file]] else []) + Sources(group[1..], disk)
  }

  /** The time stamp and offset attached to an entry: those of the group member at the
      reader's position. */
  function SourceOf(group: seq<Meta>, idx: nat): Option<Meta>
  {
    if idx < |group| then Some(group[idx]) else None
  }

  /** What `add` is given for an item. */
  function Rewrite(it: Item, group: seq<Meta>, rules: Rules): (r: Entry)
    ensures r.key == it.entry.key && r.value == it.entry.value && r.rev == it.entry.rev
  {
    var src := SourceOf(group, it.idx);
    Entry(it.entry.key, it.entry.value, it.entry.rev,
          if src.Some? && src.value.walOffset.Some? then src.value.walOffset.value else 0, rules.created)
  }

  predicate Protected(it: Item, rules: Rules)
  {
    rules.maxActiveRev.Some? && it.entry.rev <= rules.maxActiveRev.value
  }

  predicate Expired(it: Item, group: seq<Meta>, rules: Rules)
  {
    var src := SourceOf(group, it.idx);
    rules.retentionMs.Some? && src.Some? && src.value.createdAt.Some? &&
    rules.now - src.value.createdAt.value > rules.retentionMs.value
  }

  /** The live candidate of highest revision, the first of several. */
  function BestLive(cands: seq<Item>): (r: Option<Item>)
    ensures r.Some? ==> r.value in cands && r.value.entry.value.Some?
    ensures r == None ==> forall c :: c in cands ==> c.entry.value == None
  {
    if cands == [] then None
    else
      var init := BestLive(cands[..|cands| - 1]);
      var last := cands[|cands| - 1];
      assert cands == cands[..|cands| - 1] + [last];
      if last.entry.value == None then init
      else if init == None || last.entry.rev > init.value.entry.rev then Some(last)
      else init
  }

  /** The calls of `add` for one merged item. Only level 0 promotes a candidate, and then it
      writes the tombstone after it all the same. */
  function Outcome(m: Merged, group: seq<Meta>, rules: Rules, promote: bool): seq<Entry>
  {
    var e := m.chosen.entry;
    if e.value.Some? || Protected(m.chosen, rules) || !Expired(m.chosen, group, rules) then
      [Rewrite(m.chosen, group, rules)]
    else
      var best := if promote then BestLive(m.candidates) else None;
      if best == None then [] else [Rewrite(best.value, group, rules), Rewrite(m.chosen, group, rules)]
  }

  function Outcomes(ms: seq<Merged>, group: seq<Meta>, rules: Rules, promote: bool): seq<Entry>
  {
    if ms == [] then [] else Outcome(ms[0], group, rules, promote) + Outcomes(ms[1..], group, rules, promote)
  }

  /** Everything that compacting the group writes, over all output files. */
  function Written(group: seq<Meta>, disk: Disk, rules: Rules, promote: bool): seq<Entry>
  {
    Outcomes(Merge(Sources(group, disk)), group, rules, promote)
  }

  // ---------------------------------------------------------------- versions

  /** What a reader can tell apart: the rest of an entry is bookkeeping. */
  datatype Version = Version(key: Bytes, value: Option<Bytes>, rev: nat)

  function V(e: Entry): Version
  {
    Version(e.key, e.value, e.rev)
  }

  function VersionsIn(es: seq<Entry>): set<Version>
  {
    set e | e in es :: V(e)
  }

  function VersionsOfAll(sources: seq<seq<Entry>>): set<Version>
  {
    set i, e | 0 <= i < |sources| && e in sources[i] :: V(e)
  }

  /** All versions that the files of a manifest hold. */
  function AllVersions(files: seq<Meta>, disk: Disk): set<Version>
  {
    set m, e | m in files && m.file in disk && e in disk[m.file] :: V(e)
  }

  ghost predicate IsNewest(vs: set<Version>, v: Version)
  {
    v in vs && forall w :: w in vs && w.key == v.key ==> w.rev <= v.rev
  }

  /** A revision names one version of a key. */
  ghost predicate OneVersion(vs: set<Version>)
  {
    forall v, w :: v in vs && w in vs && v.key == w.key && v.rev == w.rev ==> v == w
  }

  // ---------------------------------------------------------------- the merge keeps the newest

  lemma {:induction false} OutcomesMember(ms: seq<Merged>, i: nat, group: seq<Meta>, rules: Rules, promote: bool,
                                          e: Entry)
    requires i < |ms| && e in Outcome(ms[i], group, rules, promote)
    ensures e in Outcomes(ms, group, rules, promote)
    decreases i
  {
    hide Outcome;
    if i > 0 {
      OutcomesMember(ms[1..], i - 1, group, rules, promote, e);
    }
  }

  lemma {:induction false} OutcomesOrigin(ms: seq<Merged>, group: seq<Meta>, rules: Rules, promote: bool, e: Entry)
      returns (i: nat)
    requires e in Outcomes(ms, group, rules, promote)
    ensures i < |ms| && e in Outcome(ms[i], group, rules, promote)
  {
    hide Outcome;
    if e in Outcome(ms[0], group, rules, promote) {
      i := 0;
    } else {
      var j := OutcomesOrigin(ms[1..], group, rules, promote, e);
      i := j + 1;
    }
  }

  /** What one group of the merge leads to. */
  lemma OutcomeOfGroup(g: seq<Item>, group: seq<Meta>, rules: Rules, promote: bool)
    requires g != []
    ensures forall e :: e in Outcome(Emit(g), group, rules, promote) ==>
              exists it: Item :: it in g && V(e) == V(it.entry)
    ensures Choose(g).entry.value.Some? || rules.retentionMs == None ==>
              exists e :: e in Outcome(Emit(g), group, rules, promote) && V(e) == V(Choose(g).entry)
  {
    ChooseIsBest(g);
    var m := Emit(g);
    var out := Outcome(m, group, rules, promote);
    forall e | e in out
      ensures exists it: Item :: it in g && V(e) == V(it.entry)
    {
      if V(e) == V(m.chosen.entry) {
        assert m.chosen in g;
      } else {
        assert BestLive(m.candidates).value in g;
      }
    }
    if Choose(g).entry.value.Some? || rules.retentionMs == None {
      assert Rewrite(m.chosen, group, rules) in out;
    }
  }

  /** Nothing is invented. */
  lemma NothingInvented(sources: seq<seq<Entry>>, group: seq<Meta>, rules: Rules, promote: bool)
    ensures VersionsIn(Outcomes(Merge(sources), group, rules, promote)) <= VersionsOfAll(sources)
  {
    hide Outcome, Emit, Groups, Start, Outcomes;
    MergeLosesNothing(sources);
    var groups := Groups(Start(sources));
    forall e | e in Outcomes(Merge(sources), group, rules, promote)
      ensures V(e) in VersionsOfAll(sources)
    {
      var i := OutcomesOrigin(Merge(sources), group, rules, promote, e);
      OutcomeOfGroup(groups[i], group, rules, promote);
      var it: Item :| it in groups[i] && V(e) == V(it.entry);
      assert InSome(groups, it) && FromSource(sources, it);
    }
  }

  /** The group that holds an entry yields one at least as new. */
  lemma GroupOf(sources: seq<seq<Entry>>, v: Version) returns (i: nat)
    requires v in VersionsOfAll(sources)
    ensures i < |Groups(Start(sources))|
    ensures var c := Choose(Groups(Start(sources))[i]).entry;
            c.key == v.key && v.rev <= c.rev && V(c) in VersionsOfAll(sources)
  {
    hide Groups, Start, Choose;
    MergeLosesNothing(sources);
    var groups := Groups(Start(sources));
    var s, e :| 0 <= s < |sources| && e in sources[s] && V(e) == v;
    var it := Item(e, s);
    assert FromSource(sources, it);
    i :| 0 <= i < |groups| && it in groups[i];
    ChooseIsBest(groups[i]);
    var c := Choose(groups[i]);
    assert OneKey(groups[i]);
    assert InSome(groups, c) && FromSource(sources, c);
  }

  /** Without retention every key keeps a newest version; with any retention a newest version
      that is live is kept. Sorted or not, and for any number of sources. */
  lemma NewestIsWritten(sources: seq<seq<Entry>>, group: seq<Meta>, rules: Rules, promote: bool, v: Version)
    requires IsNewest(VersionsOfAll(sources), v) && OneVersion(VersionsOfAll(sources))
    requires rules.retentionMs == None || v.value.Some?
    ensures v in VersionsIn(Outcomes(Merge(sources), group, rules, promote))
  {
    hide Outcome, Outcomes, Groups, Start, Choose;
    var i := GroupOf(sources, v);
    var groups := Groups(Start(sources));
    var c := Choose(groups[i]).entry;
    assert V(c) == v;
    OutcomeOfGroup(groups[i], group, rules, promote);
    var e :| e in Outcome(Emit(groups[i]), group, rules, promote) && V(e) == V(c);
    assert Merge(sources)[i] == Emit(groups[i]);
    OutcomesMember(Merge(sources), i, group, rules, promote, e);
  }

  // ---------------------------------------------------------------- the manifest update

  /** The files of a list that are not among these names. */
  function Others(files: seq<Meta>, names: seq<nat>): (r: seq<Meta>)
    ensures forall m :: m in r <==> m in files && m.file !in names
  {
    if files == [] then []
    else (if files[0].file in names then [] else [files[0]]) + Others(files[1..], names)
  }

  function Names(files: seq<Meta>): (r: seq<nat>)
    ensures |r| == |files| && forall i :: 0 <= i < |r| ==> r[i] == files[i].file
  {
    if files == [] then [] else [files[0].file] + Names(files[1..])
  }

  /** `replaceFiles`. */
  function Replace(files: seq<Meta>, old': seq<nat>, metas: seq<Meta>): seq<Meta>
  {
    Others(files, old') + metas
  }

  /** The replaced files are deleted from disk. */
  function Dropped(disk: Disk, names: seq<nat>): Disk
  {
    map f | f in disk && f !in names :: disk[f]
  }

  /** What the rest of a run relies on: nothing invented, and the newest versions stay. */
  ghost predicate Keeps(rules: Rules, before: set<Version>, after: set<Version>)
  {
    && after <= before
    && (forall v :: IsNewest(before, v) && (rules.retentionMs == None || v.value.Some?) ==> IsNewest(after, v))
    && (rules.retentionMs == None ==> forall v :: IsNewest(after, v) ==> IsNewest(before, v))
  }

  lemma KeepsTransitive(rules: Rules, a: set<Version>, b: set<Version>, c: set<Version>)
    requires Keeps(rules, a, b) && Keeps(rules, b, c)
    ensures Keeps(rules, a, c)
  {
    hide IsNewest;
  }

  lemma KeepsNothing(rules: Rules, a: set<Version>)
    ensures Keeps(rules, a, a)
  {
  }

  /** Replacing the versions `old'` by a part of them that holds their newest ones. */
  lemma SwapKeeps(rules: Rules, rest: set<Version>, old': set<Version>, new': set<Version>)
    requires OneVersion(rest + old') && new' <= old'
    requires forall v :: IsNewest(old', v) && (rules.retentionMs == None || v.value.Some?) ==> v in new'
    ensures Keeps(rules, rest + old', rest + new')
  {
    var before, after := rest + old', rest + new';
    forall v | IsNewest(before, v) && (rules.retentionMs == None || v.value.Some?)
      ensures IsNewest(after, v)
    {
      if v in old' {
        assert IsNewest(old', v);
      }
    }
    if rules.retentionMs == None {
      forall v | IsNewest(after, v)
        ensures IsNewest(before, v)
      {
        forall w | w in before && w.key == v.key
          ensures w.rev <= v.rev
        {
          if w in old' {
            var n := NewestOf(old', w);
            assert n in new' && n in after;
          }
        }
      }
    }
  }

  /** Some version of the same key is a newest one. */
  lemma {:induction false} NewestOf(vs: set<Version>, v: Version) returns (n: Version)
    requires v in vs
    ensures IsNewest(vs, n) && n.key == v.key && v.rev <= n.rev
    decreases |vs|
  {
    if IsNewest(vs, v) {
      n := v;
    } else {
      var w :| w in vs && w.key == v.key && w.rev > v.rev;
      n := NewestOf(vs - {v}, w);
      assert IsNewest(vs, n);
    }
  }

  lemma VersionsConcat(a: seq<seq<Entry>>, b: seq<seq<Entry>>)
    ensures VersionsOfAll(a + b) == VersionsOfAll(a) + VersionsOfAll(b)
  {
    forall v | v in VersionsOfAll(a) + VersionsOfAll(b)
      ensures v in VersionsOfAll(a + b)
    {
      if v in VersionsOfAll(a) {
        var i, e :| 0 <= i < |a| && e in a[i] && V(e) == v;
        assert (a + b)[i] == a[i];
      } else {
        var i, e :| 0 <= i < |b| && e in b[i] && V(e) == v;
        assert (a + b)[|a| + i] == b[i];
      }
    }
  }

  lemma OneSource(m: Meta, disk: Disk)
    ensures VersionsOfAll(if m.file in disk then [disk[m.file]] else []) == AllVersions([m], disk)
  {
    var first := if m.file in disk then [disk[m.file]] else [];
    forall v | v in AllVersions([m], disk)
      ensures v in VersionsOfAll(first)
    {
      var e :| e in disk[m.file] && V(e) == v;
      assert first[0] == disk[m.file];
    }
  }

  lemma {:induction false} SourcesAreStored(group: seq<Meta>, disk: Disk)
    ensures VersionsOfAll(Sources(group, disk)) == AllVersions(group, disk)
  {
    hide VersionsOfAll, AllVersions;
    if group == [] {
      NoSources(disk);
    } else {
      SourcesAreStored(group[1..], disk);
      OneSource(group[0], disk);
      VersionsConcat(if group[0].file in disk then [disk[group[0].file]] else [], Sources(group[1..], disk));
      StoredConcat([group[0]], group[1..], disk);
      assert group == [group[0]] + group[1..];
    }
  }

  lemma NoSources(disk: Disk)
    ensures VersionsOfAll([]) == AllVersions([], disk)
  {
  }

  // ---------------------------------------------------------------- files one after the other

  /** The entries of these files, file by file. */
  function Contents(files: seq<Meta>, disk: Disk): seq<Entry>
  {
    if files == [] then []
    else (if files[0].file in disk then disk[files[0].file] else []) + Contents(files[1..], disk)
  }

  lemma {:induction false} ContentsSnoc(files: seq<Meta>, m: Meta, disk: Disk)
    requires m.file in disk
    ensures Contents(files + [m], disk) == Contents(files, disk) + disk[m.file]
  {
    if files == [] {
      assert (files + [m])[1..] == [];
      assert Contents([], disk) == [];
    } else {
      assert (files + [m])[1..] == files[1..] + [m];
      ContentsSnoc(files[1..], m, disk);
    }
  }

  lemma {:induction false} SameContents(files: seq<Meta>, disk: Disk, disk': Disk)
    requires forall m :: m in files ==> m.file in disk && m.file in disk' && disk'[m.file] == disk[m.file]
    ensures Contents(files, disk') == Contents(files, disk)
  {
    if files != [] {
      SameContents(files[1..], disk, disk');
    }
  }

  lemma {:induction false} ContentsVersions(files: seq<Meta>, disk: Disk)
    ensures AllVersions(files, disk) == VersionsIn(Contents(files, disk))
  {
    if files == [] {
      assert AllVersions(files, disk) == {};
    } else {
      hide AllVersions, VersionsIn;
      ContentsVersions(files[1..], disk);
      var first := if files[0].file in disk then disk[files[0].file] else [];
      OneStored(files[0], disk);
      StoredConcat([files[0]], files[1..], disk);
      VersionsInConcat(first, Contents(files[1..], disk));
      assert files == [files[0]] + files[1..];
    }
  }

  lemma VersionsInConcat(a: seq<Entry>, b: seq<Entry>)
    ensures VersionsIn(a + b) == VersionsIn(a) + VersionsIn(b)
  {
  }

  lemma OneStored(m: Meta, disk: Disk)
    ensures AllVersions([m], disk) == VersionsIn(if m.file in disk then disk[m.file] else [])
  {
  }

  // ---------------------------------------------------------------- the order of what is written

  /** Files of a sorted sequence are sorted, and their key ranges lie one behind the other. */
  lemma {:induction false} SortedFiles(files: seq<Meta>, disk: Disk, i: nat)
    requires StrictlySorted(Contents(files, disk)) && i < |files| && files[i].file in disk
    ensures StrictlySorted(disk[files[i].file])
    ensures forall j, x, y ::
              i < j < |files| && files[j].file in disk && x in disk[files[i].file] && y in disk[files[j].file] ==>
                Less(x.key, y.key)
    decreases i
  {
    var first := if files[0].file in disk then disk[files[0].file] else [];
    var rest := Contents(files[1..], disk);
    SortedParts(first, rest);
    if i > 0 {
      SortedFiles(files[1..], disk, i - 1);
    }
    forall j, x, y | i < j < |files| && files[j].file in disk && x in disk[files[i].file] && y in disk[files[j].file]
      ensures Less(x.key, y.key)
    {
      if i == 0 {
        InContents(files[1..], disk, j - 1, y);
      } else {
        assert files[1..][j - 1] == files[j];
      }
    }
  }

  lemma SortedParts(a: seq<Entry>, b: seq<Entry>)
    requires StrictlySorted(a + b)
    ensures StrictlySorted(a) && StrictlySorted(b)
    ensures forall x, y :: x in a && y in b ==> Less(x.key, y.key)
  {
    hide Less;
    var s := a + b;
    assert forall i :: 0 <= i < |a| ==> s[i] == a[i];
    assert forall i :: 0 <= i < |b| ==> s[|a| + i] == b[i];
  }

  lemma {:induction false} InContents(files: seq<Meta>, disk: Disk, j: nat, y: Entry)
    requires j < |files| && files[j].file in disk && y in disk[files[j].file]
    ensures y in Contents(files, disk)
    decreases j
  {
    if j > 0 {
      InContents(files[1..], disk, j - 1, y);
    }
  }

  /** Merged items with increasing keys of which none promotes a candidate. */
  lemma {:induction false} OutcomesSortedIff(ms: seq<Merged>, group: seq<Meta>, rules: Rules, promote: bool)
    requires forall i, j :: 0 <= i < j < |ms| ==> Less(ms[i].chosen.entry.key, ms[j].chosen.entry.key)
    requires forall i, c :: 0 <= i < |ms| && c in ms[i].candidates ==> c.entry.key == ms[i].chosen.entry.key
    ensures StrictlySorted(Outcomes(ms, group, rules, promote)) <==>
            forall i :: 0 <= i < |ms| ==> !Promotes(ms[i], group, rules, promote)
    ensures forall e :: e in Outcomes(ms, group, rules, promote) ==>
              exists i :: 0 <= i < |ms| && e.key == ms[i].chosen.entry.key
    decreases |ms|
  {
    hide Less, Protected, Expired;
    if ms != [] {
      var here, rest := Outcome(ms[0], group, rules, promote), Outcomes(ms[1..], group, rules, promote);
      OutcomesSortedIff(ms[1..], group, rules, promote);
      forall e | e in rest
        ensures Less(ms[0].chosen.entry.key, e.key)
        ensures exists i :: 0 <= i < |ms| && e.key == ms[i].chosen.entry.key
      {
        var i :| 0 <= i < |ms[1..]| && e.key == ms[1..][i].chosen.entry.key;
        assert ms[i + 1] == ms[1..][i];
      }
      OneKeyOutcome(ms[0], group, rules, promote);
      SortedConsIff(ms[0].chosen.entry.key, here, rest);
      assert (forall i :: 0 <= i < |ms| ==> !Promotes(ms[i], group, rules, promote)) <==>
             !Promotes(ms[0], group, rules, promote) &&
             forall i :: 0 <= i < |ms[1..]| ==> !Promotes(ms[1..][i], group, rules, promote) by {
        assert forall i :: 0 < i < |ms| ==> ms[i] == ms[1..][i - 1];
      }
    }
  }

  /** The item is an expired tombstone with a live candidate, which level 0 brings back. */
  predicate Promotes(m: Merged, group: seq<Meta>, rules: Rules, promote: bool)
  {
    promote && m.chosen.entry.value == None && !Protected(m.chosen, rules) && Expired(m.chosen, group, rules) &&
    BestLive(m.candidates).Some?
  }

  lemma OneKeyOutcome(m: Merged, group: seq<Meta>, rules: Rules, promote: bool)
    requires forall c :: c in m.candidates ==> c.entry.key == m.chosen.entry.key
    ensures var out := Outcome(m, group, rules, promote);
            && (forall e :: e in out ==> e.key == m.chosen.entry.key)
            && (|out| <= 1 <==> !Promotes(m, group, rules, promote))
  {
  }

  lemma SortedConsIff(key: Bytes, here: seq<Entry>, rest: seq<Entry>)
    requires forall e :: e in here ==> e.key == key
    requires forall e :: e in rest ==> Less(key, e.key)
    ensures StrictlySorted(here + rest) <==> |here| <= 1 && StrictlySorted(rest)
  {
    hide Less;
    LessIrreflexive(key);
    var s := here + rest;
    assert forall i :: 0 <= i < |rest| ==> s[|here| + i] == rest[i];
    if |here| >= 2 {
      assert s[0] == here[0] && s[1] == here[1] && s[0] in here && s[1] in here;
    } else if StrictlySorted(s) {
      SortedParts(here, rest);
    }
  }

  /** At most four sorted files: what is written is sorted again, exactly if no candidate is
      promoted. Levels above 0 never promote. */
  lemma WrittenIsSortedIff(group: seq<Meta>, disk: Disk, rules: Rules, promote: bool)
    requires var sources := Sources(group, disk); |sources| <= 4 && SortedSources(sources)
    ensures var ms := Merge(Sources(group, disk));
            StrictlySorted(Written(group, disk, rules, promote)) <==>
            forall i :: 0 <= i < |ms| ==> !Promotes(ms[i], group, rules, promote)
  {
    hide Merge, Outcomes, Sources, StrictlySorted, Promotes;
    var sources := Sources(group, disk);
    MergeYieldsNewestOnce(sources);
    OutcomesSortedIff(Merge(sources), group, rules, promote);
  }

  // ---------------------------------------------------------------- one group

  /** One group compaction: the group's files are replaced by files that together hold what
      the merge wrote. Files of the group that cannot be read held no versions. */
  lemma GroupKeeps(files: seq<Meta>, disk: Disk, group: seq<Meta>, metas: seq<Meta>, disk': Disk, rules: Rules,
                   promote: bool)
    requires forall m :: m in group ==> m in files
    requires OneVersion(AllVersions(files, disk))
    requires forall m :: m in files && m.file !in Names(group) ==>
               (m.file in disk' <==> m.file in disk) && (m.file in disk ==> disk'[m.file] == disk[m.file])
    requires AllVersions(metas, disk') == VersionsIn(Written(group, disk, rules, promote))
    ensures Keeps(rules, AllVersions(files, disk), AllVersions(Replace(files, Names(group), metas), disk'))
  {
    hide Outcomes, Merge, Keeps, Sources, IsNewest;
    var names := Names(group);
    var rest := AllVersions(Others(files, names), disk);
    var old' := AllVersions(group, disk);
    var sources := Sources(group, disk);
    SourcesAreStored(group, disk);
    StoredSplit(files, disk, group);
    assert AllVersions(Others(files, names), disk') == rest;
    StoredConcat(Others(files, names), metas, disk');
    NothingInvented(sources, group, rules, promote);
    var new' := AllVersions(metas, disk');
    SubsetHasOneVersion(rest + old', old');
    forall v | IsNewest(old', v) && (rules.retentionMs == None || v.value.Some?)
      ensures v in new'
    {
      NewestIsWritten(sources, group, rules, promote, v);
    }
    SwapKeeps(rules, rest, old', new');
  }

  lemma SubsetHasOneVersion(a: set<Version>, b: set<Version>)
    requires OneVersion(a) && b <= a
    ensures OneVersion(b)
  {
  }

  lemma StoredConcat(a: seq<Meta>, b: seq<Meta>, disk: Disk)
    ensures AllVersions(a + b, disk) == AllVersions(a, disk) + AllVersions(b, disk)
  {
  }

  /** Two entries of the manifest with one name are one file. */
  lemma StoredSplit(files: seq<Meta>, disk: Disk, group: seq<Meta>)
    requires forall m :: m in group ==> m in files
    ensures AllVersions(files, disk) == AllVersions(Others(files, Names(group)), disk) + AllVersions(group, disk)
  {
    forall v | v in AllVersions(files, disk)
      ensures v in AllVersions(Others(files, Names(group)), disk) + AllVersions(group, disk)
    {
      var m, e :| m in files && m.file in disk && e in disk[m.file] && V(e) == v;
      if m.file in Names(group) {
        var i :| 0 <= i < |group| && Names(group)[i] == m.file;
        assert group[i] in group && e in disk[group[i].file];
      } else {
        assert m in Others(files, Names(group));
      }
    }
  }
}
