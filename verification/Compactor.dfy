/** `Compactor.compact` of `libs/storage/compactor.ts` over a manifest (`manifest.ts`) and the
    files it names: one whole run over levels 0 to 5. Output sizes are those of uncompressed
    files. */
module Compactor {
  import opened Bytes
  import opened Entries
  import opened SstFormat
  import opened MinHeap
  import opened MergeIterator
  import opened Compaction
  import opened Selection
  import W = SstWriter

  const MAX_LEVELS: nat := 6

  datatype Settings = Settings(maxFiles: nat, maxSstSize: nat, perLevelMax: Option<seq<nat>>, writer: W.Options)

  // ---------------------------------------------------------------- lists of files

  /** `listFilesByLevel`, without the files made in this run. */
  function FilesAt(files: seq<Meta>, level: nat, created: set<nat>): (r: seq<Meta>)
    ensures forall m :: m in r <==> m in files && m.level == level && m.file !in created
  {
    if files == [] then []
    else (if files[0].level == level && files[0].file !in created then [files[0]] else []) +
         FilesAt(files[1..], level, created)
  }

  /** The files of a list that overlap one of the others and are not yet used. */
  function Touched(next: seq<Meta>, files: seq<Meta>, used: set<nat>): (r: seq<Meta>)
    ensures forall m :: m in r ==> m in next && m.file !in used
  {
    if next == [] then []
    else (if next[0].file !in used && exists f :: f in files && Overlaps(f, next[0]) then [next[0]] else []) +
         Touched(next[1..], files, used)
  }

  predicate AnyReadable(group: seq<Meta>, disk: Disk)
  {
    exists m :: m in group && m.file in disk
  }

  /** One name is one file. */
  ghost predicate Named(files: seq<Meta>)
  {
    forall m, n :: m in files && n in files && m.file == n.file ==> m == n
  }

  ghost predicate EncodableDisk(disk: Disk)
  {
    forall f :: f in disk ==> AllEncodable(disk[f])
  }

  /** Every file of the manifest is there to be read. */
  ghost predicate Present(files: seq<Meta>, disk: Disk)
  {
    forall m :: m in files ==> m.file in disk
  }

  /** The key range of a manifest entry is that of its file. */
  ghost predicate Describes(m: Meta, disk: Disk)
  {
    && m.file in disk
    && m.minKey == FirstKey(disk[m.file])
    && m.maxKey == LastKey(disk[m.file])
  }

  function FirstKey(es: seq<Entry>): Bytes
  {
    if es == [] then [] else es[0].key
  }

  function LastKey(es: seq<Entry>): Bytes
  {
    if es == [] then [] else es[|es| - 1].key
  }

  /** Files below a name stay as they are, except for those in `gone`. */
  ghost predicate OthersStay(disk: Disk, disk': Disk, below: nat, gone: seq<nat>)
  {
    forall f :: f < below && f !in gone ==> (f in disk' <==> f in disk) && (f in disk ==> disk'[f] == disk[f])
  }

  // ---------------------------------------------------------------- the writer in use

  /** The output file being filled. */
  datatype Output = Output(state: W.State, entries: seq<Entry>)

  predicate WillExceed(cur: Output, o: W.Options, e: Entry, max: nat)
  {
    W.SizeAfterAdd(o, cur.state, e.key, e.value, Some(e.rev)) > max
  }

  function MetaOf(cur: Output, o: W.Options, name: nat, level: nat, walOffset: nat, now: nat): (m: Meta)
    ensures m.file == name && m.level == level
    ensures m.minKey == FirstKey(cur.entries) && m.maxKey == LastKey(cur.entries)
  {
    Meta(name, FirstKey(cur.entries), LastKey(cur.entries), W.EstimatedSize(o, cur.state), level, Some(walOffset),
         Some(now))
  }

  class Compactor {
    const settings: Settings
    const rules: Rules
    const wallClock: nat
    var files: seq<Meta>
    var walOffset: nat
    var disk: Disk
    var nextName: nat

    ghost predicate Valid()
      reads this
    {
      && Named(files) && EncodableDisk(disk) && OneVersion(AllVersions(files, disk))
      && (forall m :: m in files ==> m.file < nextName)
      && (forall f :: f in disk ==> f < nextName)
    }

    constructor (settings: Settings, rules: Rules, wallClock: nat, files: seq<Meta>, walOffset: nat, disk: Disk,
                 nextName: nat)
      ensures this.settings == settings && this.rules == rules && this.wallClock == wallClock
      ensures this.files == files && this.walOffset == walOffset && this.disk == disk && this.nextName == nextName
    {
      this.settings, this.rules, this.wallClock := settings, rules, wallClock;
      this.files, this.walOffset, this.disk, this.nextName := files, walOffset, disk, nextName;
    }

    /** `rotateWriter`: the current output becomes a file. */
    method RotateWriter(cur: Option<Output>, level: nat, metas: seq<Meta>) returns (r: seq<Meta>)
      requires cur.Some? ==> AllEncodable(cur.value.entries)
      modifies this`disk, this`nextName
      ensures cur == None ==> r == metas && disk == old(disk) && nextName == old(nextName)
      ensures cur.Some? ==>
                && nextName == old(nextName) + 1
                && r == metas + [MetaOf(cur.value, settings.writer, old(nextName), level, walOffset, wallClock)]
                && disk == old(disk)[old(nextName) := cur.value.entries]
    {
      r := metas;
      if cur.Some? {
        r := metas + [MetaOf(cur.value, settings.writer, nextName, level, walOffset, wallClock)];
        disk := disk[nextName := cur.value.entries];
        nextName := nextName + 1;
      }
    }

    /** The merge loop: reads the group, and writes output files of about `max` bytes. One
        after the other they hold exactly what the merge yields, in its order. */
    method MergeGroup(group: seq<Meta>, level: nat, max: nat, promote: bool) returns (metas: seq<Meta>)
      requires EncodableDisk(disk) && forall f :: f in disk ==> f < nextName
      modifies this`disk, this`nextName
      ensures EncodableDisk(disk) && nextName >= old(nextName)
      ensures forall f :: f in disk ==> f < nextName
      ensures OthersStay(old(disk), disk, old(nextName), [])
      ensures forall m :: m in metas ==> m.level == level && old(nextName) <= m.file < nextName
      ensures Named(metas) && forall m :: m in metas ==> Describes(m, disk)
      ensures Contents(metas, disk) == Written(group, old(disk), rules, promote)
    {
      hide Merge, Outcome, Outcomes, Contents, W.AddStep, W.SizeAfterAdd, Sources, Encodable, MetaOf, OutputsOk;
      var merged := Merge(Sources(group, disk));
      metas := [];
      var cur: Option<Output> := None;
      var i := 0;
      ghost var first := nextName;
      ghost var was := disk;
      NothingYet(disk, nextName, level, group, rules, promote);
      assert merged[..0] == [];
      while i < |merged|
        invariant 0 <= i <= |merged|
        invariant OutputsOk(was, first, disk, nextName, metas, level)
        invariant cur.Some? ==> AllEncodable(cur.value.entries)
        invariant Contents(metas, disk) + CurrentEntries(cur) == Outcomes(merged[..i], group, rules, promote)
      {
        var m := merged[i];
        if cur == None || WillExceed(cur.value, settings.writer, m.chosen.entry, max) {
          ghost var done, before, name := metas, disk, nextName;
          metas := RotateWriter(cur, level, metas);
          RotateStored(was, first, before, name, done, level, metas, disk, nextName, cur, settings.writer, walOffset,
                       wallClock);
          cur := Some(Output(W.New(), []));
        }
        OutcomeEncodable(group, was, i, rules, promote);
        assert merged[..i + 1] == merged[..i] + [m];
        OutcomesConcat(merged[..i], m, group, rules, promote);
        cur := AddOutcome(cur.value, Outcome(m, group, rules, promote));
        i := i + 1;
      }
      ghost var done, before, name := metas, disk, nextName;
      metas := RotateWriter(cur, level, metas);
      RotateStored(was, first, before, name, done, level, metas, disk, nextName, cur, settings.writer, walOffset,
                   wallClock);
      assert merged[..i] == merged;
      OutputsMean(was, first, disk, nextName, metas, level);
    }

    /** The calls of `add` for one merged item. */
    method AddOutcome(cur: Output, es: seq<Entry>) returns (r: Option<Output>)
      requires AllEncodable(cur.entries) && AllEncodable(es)
      ensures r.Some? && r.value.entries == cur.entries + es && AllEncodable(r.value.entries)
    {
      hide W.AddStep, Encodable;
      var state, entries := cur.state, cur.entries;
      for j := 0 to |es|
        invariant entries == cur.entries + es[..j] && AllEncodable(entries)
      {
        state := W.AddStep(settings.writer.blockSize, state, es[j]);
        entries := entries + [es[j]];
      }
      r := Some(Output(state, entries));
    }

    /** Merges a group into the next level, replaces its files in the manifest and deletes them. */
    method CompactGroup(group: seq<Meta>, level: nat, max: nat, promote: bool, created: set<nat>)
        returns (metas: seq<Meta>, made: set<nat>)
      requires Valid() && forall m :: m in group ==> m in files
      modifies this`files, this`disk, this`nextName
      ensures Valid() && Keeps(rules, old(AllVersions(files, disk)), AllVersions(files, disk))
      ensures files == Replace(old(files), Names(group), metas)
      ensures OthersStay(old(disk), disk, old(nextName), Names(group)) && nextName >= old(nextName)
      ensures Contents(metas, disk) == Written(group, old(disk), rules, promote)
      ensures forall m :: m in metas ==> m.level == level && m.file >= old(nextName) && Describes(m, disk)
      ensures made == created + set m | m in metas :: m.file
    {
      hide AllVersions, Written, Keeps, VersionsIn, OneVersion, EncodableDisk, Named, Names, Replace, Dropped, Contents;
      hide FirstKey, LastKey, OthersStay;
      ghost var files0, disk0, name0 := files, disk, nextName;
      metas := MergeGroup(group, level, max, promote);
      ghost var disk1 := disk;
      var oldPaths := Names(group);
      made := created + set m | m in metas :: m.file;
      files := Replace(files, oldPaths, metas);
      disk := Dropped(disk, oldPaths);
      ReplacedIsNamed(files0, group, metas, name0, nextName);
      DropKeeps(disk0, disk1, files0, group, metas, name0);
      SameContents(metas, disk1, disk);
      ContentsVersions(metas, disk);
      GroupKeeps(files0, disk0, group, metas, disk, rules, promote);
      KeepsOneVersion(rules, AllVersions(files0, disk0), AllVersions(files, disk));
    }

    function OutputLimit(level: nat): nat
    {
      if settings.perLevelMax.Some? && level + 1 < |settings.perLevelMax.value|
      then settings.perLevelMax.value[level + 1]
      else settings.maxSstSize
    }

    function LevelTarget(level: nat): Option<nat>
    {
      if settings.perLevelMax.Some? && level < |settings.perLevelMax.value|
      then Some(settings.perLevelMax.value[level])
      else None
    }

    /** What level 0 compacts: its first files together with everything they may overlap in
        level 1, unless the level is within its target. */
    function Level0Group(created: set<nat>): seq<Meta>
      reads this
    {
      var here := FilesAt(files, 0, created);
      if here == [] || (LevelTarget(0).Some? && Total(here) <= LevelTarget(0).value) then []
      else
        here[..if |here| < settings.maxFiles then |here| else settings.maxFiles] +
        Touched(FilesAt(files, 1, created), here, {})
    }

    /** Level 0 is compacted once. If any file of the group can be read, all of them are replaced. */
    method CompactLevel0(created: set<nat>) returns (made: set<nat>)
      requires Valid()
      modifies this`files, this`disk, this`nextName
      ensures Valid() && Keeps(rules, old(AllVersions(files, disk)), AllVersions(files, disk))
      ensures Moved(old(files), old(nextName), created, files, nextName, made, 0)
      ensures old(Present(files, disk)) ==> Present(files, disk)
      ensures var group := old(Level0Group(created));
              if AnyReadable(group, old(disk)) then forall m :: m in group ==> m !in files
              else files == old(files) && disk == old(disk) && made == created
    {
      hide AllVersions, Keeps, OneVersion, EncodableDisk, Replace, FilesAt, Moved, Present, Contents, Written;
      hide Describes;
      made := created;
      KeepsNothing(rules, AllVersions(files, disk));
      MovedNothing(files, nextName, created, 0);
      var filesAtLevel := FilesAt(files, 0, created);
      if |filesAtLevel| == 0 {
        return;
      }
      var filesNext := FilesAt(files, 1, created);
      var target := LevelTarget(0);
      if target.Some? && Total(filesAtLevel) <= target.value {
        return;
      }
      var n := if |filesAtLevel| < settings.maxFiles then |filesAtLevel| else settings.maxFiles;
      var group := filesAtLevel[..n] + Touched(filesNext, filesAtLevel, {});
      if !AnyReadable(group, disk) {
        return;
      }
      ghost var files0, disk0, name0 := files, disk, nextName;
      var metas;
      metas, made := CompactGroup(group, 1, OutputLimit(0), true, created);
      MovedByGroup(files0, group, metas, name0, nextName, created, made, 0);
      StillPresent(files0, disk0, group, metas, disk, name0);
      GroupIsGone(files0, group, metas, name0);
    }

    /** A level with a size target: select and compact until the level is small enough, which
        only an unreadable file can prevent. */
    method CompactToTarget(level: nat, target: nat, created: set<nat>) returns (made: set<nat>)
      requires Valid() && settings.maxFiles >= 1
      modifies this`files, this`disk, this`nextName
      ensures Valid() && Keeps(rules, old(AllVersions(files, disk)), AllVersions(files, disk))
      ensures Moved(old(files), old(nextName), created, files, nextName, made, level)
      ensures old(Present(files, disk)) ==> Present(files, disk) && Total(FilesAt(files, level, made)) <= target
    {
      hide AllVersions, Keeps, OneVersion, EncodableDisk, Named, Select, Total, Replace, Names, Available, FilesAt;
      hide Touched, Moved, Present, Contents, Written, Describes, AnyReadable;
      made := created;
      ghost var before, was, first := AllVersions(files, disk), files, nextName;
      ghost var present := Present(files, disk);
      KeepsNothing(rules, before);
      MovedNothing(files, nextName, created, level);
      AllAvailable(FilesAt(files, level + 1, created), files);
      var filesNext := FilesAt(files, level + 1, created);
      var compactedNext: set<nat> := {};
      var levelFiles := FilesAt(files, level, made);
      NoFilesNoSize(levelFiles);
      while |levelFiles| > 0 && Total(levelFiles) > target
        invariant Valid() && Keeps(rules, before, AllVersions(files, disk))
        invariant Moved(was, first, created, files, nextName, made, level)
        invariant levelFiles == FilesAt(files, level, made) && (levelFiles == [] ==> Total(levelFiles) == 0)
        invariant Available(filesNext, compactedNext, files)
        invariant present ==> Present(files, disk)
        decreases |levelFiles|
      {
        var need := Total(levelFiles) - target;
        var selected := SelectFiles(levelFiles, filesNext, need, settings.maxFiles);
        SelectionIsSound(levelFiles, filesNext, need, settings.maxFiles);
        var group := selected + Touched(filesNext, selected, compactedNext);
        GroupAvailable(filesNext, compactedNext, files, selected, group);
        assert group[0] == selected[0] && selected[0] in selected;
        if !AnyReadable(group, disk) {
          NothingReadable(files, disk, group);
          break;
        }
        ghost var then_, files0, disk0, made0, name0 := AllVersions(files, disk), files, disk, made, nextName;
        SelectedLevels(files, level, made, filesNext, selected, compactedNext, group);
        var metas;
        metas, made := CompactGroup(group, level + 1, OutputLimit(level), false, made);
        KeepsTransitive(rules, before, then_, AllVersions(files, disk));
        MovedByGroup(files0, group, metas, name0, nextName, made0, made, level);
        MovedTransitive(was, first, created, files0, name0, made0, files, nextName, made, level);
        StillPresent(files0, disk0, group, metas, disk, name0);
        StillAvailable(filesNext, compactedNext, files0, group, metas);
        compactedNext := compactedNext + set m | m in group :: m.file;
        LevelShrinks(files0, group, metas, level, made0, made);
        levelFiles := FilesAt(files, level, made);
        NoFilesNoSize(levelFiles);
      }
    }

    /** A level without a target: one file at a time, promoted if nothing overlaps it. If all
        files are there, none of the level's own stays behind. */
    method CompactOneByOne(level: nat, created: set<nat>) returns (made: set<nat>)
      requires Valid()
      modifies this`files, this`disk, this`nextName
      ensures Valid() && Keeps(rules, old(AllVersions(files, disk)), AllVersions(files, disk))
      ensures Moved(old(files), old(nextName), created, files, nextName, made, level)
      ensures old(Present(files, disk)) ==> Present(files, disk) && FilesAt(files, level, made) == []
    {
      hide AllVersions, Keeps, OneVersion, EncodableDisk, Named, Replace, Names, Available, FilesAt, Touched;
      hide Moved, Present, Contents, Written, Describes, AnyReadable, Remaining;
      made := created;
      ghost var before, was, first := AllVersions(files, disk), files, nextName;
      ghost var present := Present(files, disk);
      KeepsNothing(rules, before);
      MovedNothing(files, nextName, created, level);
      var filesAtLevel := FilesAt(files, level, created);
      var filesNext := FilesAt(files, level + 1, created);
      AllAvailable(filesAtLevel, files);
      AllAvailable(filesNext, files);
      AllRemain(files, level, created);
      assert filesAtLevel[0..] == filesAtLevel;
      var processed: set<nat>, compactedNext: set<nat> := {}, {};
      var i := 0;
      while i < |filesAtLevel|
        invariant 0 <= i <= |filesAtLevel|
        invariant Valid() && Keeps(rules, before, AllVersions(files, disk))
        invariant Moved(was, first, created, files, nextName, made, level)
        invariant Available(filesAtLevel, processed, files) && Available(filesNext, compactedNext, files)
        invariant forall m :: m in filesAtLevel ==> m.level == level
        invariant forall m :: m in filesNext ==> m.level == level + 1
        invariant present ==> Present(files, disk) && Remaining(files, level, made, filesAtLevel[i..], processed)
        decreases |filesAtLevel| - i
      {
        var f := filesAtLevel[i];
        assert filesAtLevel[i..][0] == f && filesAtLevel[i..][1..] == filesAtLevel[i + 1..];
        ghost var rest := filesAtLevel[i..];
        i := i + 1;
        if f.file in processed {
          if present {
            RemainSkip(files, level, made, rest, processed);
          }
          continue;
        }
        ItsAvailable(filesAtLevel, processed, files, f);
        var overlapsNext := Touched(filesNext, [f], compactedNext);
        var group := [f] + overlapsNext;
        GroupAvailable(filesNext, compactedNext, files, [f], group);
        ghost var files0, disk0, made0, name0 := files, disk, made, nextName;
        if |overlapsNext| == 0 {
          PromoteFile(f, level + 1);
          PromotedAvailable(filesAtLevel, filesNext, processed, compactedNext, files0, files, f, level);
          MovedByPromotion(files0, f, files, nextName, made, level);
          MovedTransitive(was, first, created, files0, name0, made0, files, nextName, made, level);
          if present {
            PromotedPresent(files0, disk, files, f);
            RemainAfter(files0, files, level, made, made, rest, processed, {f.file});
          }
          processed := processed + {f.file};
          continue;
        }
        if !AnyReadable(group, disk) {
          FewerAvailable(filesAtLevel, processed, files, set m | m in group :: m.file);
          if present {
            NothingReadable(files, disk, group);
          }
          processed := processed + set m | m in group :: m.file;
          continue;
        }
        ghost var then_ := AllVersions(files, disk);
        GroupLevels(filesNext, compactedNext, f, level, group);
        var metas;
        metas, made := CompactGroup(group, level + 1, OutputLimit(level), false, made);
        KeepsTransitive(rules, before, then_, AllVersions(files, disk));
        MovedByGroup(files0, group, metas, name0, nextName, made0, made, level);
        MovedTransitive(was, first, created, files0, name0, made0, files, nextName, made, level);
        StillPresent(files0, disk0, group, metas, disk, name0);
        StillAvailable(filesAtLevel, processed, files0, group, metas);
        StillAvailable(filesNext, compactedNext, files0, group, metas);
        if present {
          ReplacedRemain(files0, group, metas, files, level, made0, made, rest, processed);
        }
        processed := processed + set m | m in group :: m.file;
        compactedNext := compactedNext + set m | m in group :: m.file;
      }
      assert filesAtLevel[i..] == [];
      if present {
        NoneRemain(files, level, made, processed);
      }
    }

    /** The manifest entry moves to the next level; its time stamp is set anew. */
    method PromoteFile(f: Meta, level: nat)
      requires Valid() && f in files
      modifies this`files
      ensures Valid() && AllVersions(files, disk) == old(AllVersions(files, disk))
      ensures files == Others(old(files), [f.file]) + [f.(level := level, createdAt := Some(wallClock))]
    {
      hide OneVersion, EncodableDisk;
      var g := f.(level := level, createdAt := Some(wallClock));
      PromotedVersions(files, f, g, disk);
      files := Replace(files, [f.file], [g]);
    }

    /** What a run leaves of a level above 0, apart from the files `made` in it. */
    ghost predicate LevelDone(files: seq<Meta>, level: nat, made: set<nat>)
    {
      if LevelTarget(level).Some? then Total(FilesAt(files, level, made)) <= LevelTarget(level).value
      else FilesAt(files, level, made) == []
    }

    /** `compact`. Whatever is selected, promoted, merged and split on the way: no version is
        invented; a newest version that is live stays the newest; and without tombstone
        retention the newest versions before and after are the same. If every file can be read,
        then each level above 0 ends within its target, or empty if it has none, not counting
        the files `made` in this run. */
    method Compact() returns (ghost made: set<nat>)
      requires Valid() && settings.maxFiles >= 1
      modifies this`files, this`disk, this`nextName
      ensures Valid() && Keeps(rules, old(AllVersions(files, disk)), AllVersions(files, disk))
      ensures forall n :: n in made ==> n >= old(nextName)
      ensures old(Present(files, disk)) ==>
                Present(files, disk) && forall l :: 1 <= l < MAX_LEVELS ==> LevelDone(files, l, made)
    {
      hide AllVersions, Keeps, OneVersion, EncodableDisk, Named, Present, Moved, LevelDone, FilesAt, Level0Group;
      ghost var before, first := AllVersions(files, disk), nextName;
      ghost var present := Present(files, disk);
      KeepsNothing(rules, before);
      var created: set<nat> := {};
      for level := 0 to MAX_LEVELS
        invariant Valid() && Keeps(rules, before, AllVersions(files, disk))
        invariant first <= nextName && forall n :: n in created ==> n >= first
        invariant present ==> Present(files, disk) && forall l :: 1 <= l < level ==> LevelDone(files, l, created)
      {
        ghost var then_, files0, name0, created0 := AllVersions(files, disk), files, nextName, created;
        var target := LevelTarget(level);
        if level == 0 {
          created := CompactLevel0(created);
        } else if target.Some? {
          created := CompactToTarget(level, target.value, created);
        } else {
          created := CompactOneByOne(level, created);
        }
        KeepsTransitive(rules, before, then_, AllVersions(files, disk));
        MovedMeans(files0, name0, created0, files, nextName, created, level);
        if present {
          forall l | 1 <= l < level + 1
            ensures LevelDone(files, l, created)
          {
            IsDone(l, level, files0, created0, files, created);
          }
        }
      }
      made := created;
    }

    lemma IsDone(l: nat, level: nat, files0: seq<Meta>, created: set<nat>, files: seq<Meta>, made: set<nat>)
      requires l < level ==> LevelDone(files0, l, created) && FilesAt(files, l, made) == FilesAt(files0, l, created)
      requires l <= level && (l == level ==>
                 if LevelTarget(level).Some? then Total(FilesAt(files, level, made)) <= LevelTarget(level).value
                 else FilesAt(files, level, made) == [])
      ensures LevelDone(files, l, made)
    {
    }
  }

  // ---------------------------------------------------------------- facts about the manifest

  lemma ReplacedIsNamed(files: seq<Meta>, group: seq<Meta>, metas: seq<Meta>, first: nat, next: nat)
    requires Named(files) && Named(metas) && first <= next
    requires (forall m :: m in files ==> m.file < first) && (forall m :: m in metas ==> first <= m.file < next)
    ensures Named(Replace(files, Names(group), metas))
    ensures forall m :: m in Replace(files, Names(group), metas) ==> m.file < next
  {
  }

  /** Deleting the group's files touches neither the other files nor the new ones. */
  lemma DropKeeps(disk: Disk, disk': Disk, files: seq<Meta>, group: seq<Meta>, metas: seq<Meta>, first: nat)
    requires EncodableDisk(disk') && forall m :: m in group ==> m in files
    requires forall m :: m in files ==> m.file < first
    requires OthersStay(disk, disk', first, [])
    requires forall m :: m in metas ==> first <= m.file && m.file in disk'
    ensures var d := Dropped(disk', Names(group));
            && EncodableDisk(d) && d.Keys <= disk'.Keys
            && OthersStay(disk, d, first, Names(group))
            && (forall m :: m in metas ==> m.file in d && d[m.file] == disk'[m.file])
            && (forall m :: m in files && m.file !in Names(group) ==>
                  (m.file in d <==> m.file in disk) && (m.file in disk ==> d[m.file] == disk[m.file]))
  {
    hide Names;
    NamesAreFiles(group);
    hide AllEncodable;
  }

  lemma KeepsOneVersion(rules: Rules, a: set<Version>, b: set<Version>)
    requires Keeps(rules, a, b) && OneVersion(a)
    ensures OneVersion(b)
  {
    hide IsNewest;
  }

  lemma PromotedVersions(files: seq<Meta>, f: Meta, g: Meta, disk: Disk)
    requires Named(files) && f in files && g.file == f.file
    ensures AllVersions(Replace(files, [f.file], [g]), disk) == AllVersions(files, disk)
  {
    var now := Replace(files, [f.file], [g]);
    forall v | v in AllVersions(files, disk)
      ensures v in AllVersions(now, disk)
    {
      var m, e :| m in files && m.file in disk && e in disk[m.file] && V(e) == v;
      assert m == f || m in now;
      assert g in now;
    }
  }

  lemma FilesStep(files: seq<Meta>, names: seq<nat>, level: nat, created: set<nat>)
    requires files != []
    ensures var rest := files[1..];
            var here := if files[0].level == level && files[0].file !in created then [files[0]] else [];
            && FilesAt(files, level, created) == here + FilesAt(rest, level, created)
            && FilesAt(Others(files, names), level, created) ==
               (if files[0].file in names then [] else here) + FilesAt(Others(rest, names), level, created)
  {
    var rest := Others(files[1..], names);
    if files[0].file !in names {
      assert ([files[0]] + rest)[1..] == rest;
    } else {
      assert [] + rest == rest;
    }
  }

  lemma {:induction false} FilesAtOthers(files: seq<Meta>, names: seq<nat>, level: nat, created: set<nat>, x: Meta)
    ensures |FilesAt(Others(files, names), level, created)| <= |FilesAt(files, level, created)|
    ensures x in FilesAt(files, level, created) && x.file in names ==>
              |FilesAt(Others(files, names), level, created)| < |FilesAt(files, level, created)|
  {
    if files != [] {
      FilesStep(files, names, level, created);
      hide FilesAt, Others;
      FilesAtOthers(files[1..], names, level, created, x);
    }
  }

  lemma {:induction false} NoneAt(b: seq<Meta>, level: nat, created: set<nat>)
    requires forall m :: m in b ==> m.level != level
    ensures FilesAt(b, level, created) == []
  {
    if b != [] {
      NoneAt(b[1..], level, created);
    }
  }

  lemma {:induction false} FilesAtConcat(a: seq<Meta>, b: seq<Meta>, level: nat, created: set<nat>)
    requires forall m :: m in b ==> m.level != level
    ensures FilesAt(a + b, level, created) == FilesAt(a, level, created)
  {
    if a == [] {
      assert a + b == b;
      NoneAt(b, level, created);
    } else {
      assert (a + b)[1..] == a[1..] + b;
      FilesAtConcat(a[1..], b, level, created);
    }
  }

  lemma {:induction false} FilesAtCreated(files: seq<Meta>, level: nat, created: set<nat>, made: set<nat>)
    requires created <= made && forall m :: m in files ==> m.file !in made - created
    ensures FilesAt(files, level, made) == FilesAt(files, level, created)
  {
    if files != [] {
      FilesAtCreated(files[1..], level, created, made);
    }
  }

  /** Each round takes at least one file out of the level, so the loop ends. */
  lemma LevelShrinks(files: seq<Meta>, group: seq<Meta>, metas: seq<Meta>, level: nat, created: set<nat>,
                     made: set<nat>)
    requires forall m :: m in metas ==> m.level != level
    requires made == created + set m | m in metas :: m.file
    requires forall m, n :: m in files && n in metas ==> m.file != n.file
    requires group != [] && group[0] in FilesAt(files, level, created)
    ensures |FilesAt(Replace(files, Names(group), metas), level, made)| < |FilesAt(files, level, created)|
  {
    FilesAtConcat(Others(files, Names(group)), metas, level, made);
    FilesAtCreated(Others(files, Names(group)), level, created, made);
    assert Names(group)[0] == group[0].file;
    FilesAtOthers(files, Names(group), level, created, group[0]);
  }

  /** What was listed and not yet used is still in the manifest. */
  ghost predicate Available(listed: seq<Meta>, used: set<nat>, files: seq<Meta>)
  {
    forall m :: m in listed && m.file !in used ==> m in files
  }

  lemma AllAvailable(listed: seq<Meta>, files: seq<Meta>)
    requires forall m :: m in listed ==> m in files
    ensures Available(listed, {}, files)
  {
  }

  lemma ItsAvailable(listed: seq<Meta>, used: set<nat>, files: seq<Meta>, f: Meta)
    requires Available(listed, used, files) && f in listed && f.file !in used
    ensures f in files
  {
  }

  lemma FewerAvailable(listed: seq<Meta>, used: set<nat>, files: seq<Meta>, more: set<nat>)
    requires Available(listed, used, files)
    ensures Available(listed, used + more, files)
  {
  }

  lemma GroupAvailable(next: seq<Meta>, used: set<nat>, files: seq<Meta>, chosen: seq<Meta>, group: seq<Meta>)
    requires Available(next, used, files) && group == chosen + Touched(next, chosen, used)
    requires forall m :: m in chosen ==> m in files
    ensures forall m :: m in group ==> m in files
  {
  }

  lemma StillAvailable(listed: seq<Meta>, used: set<nat>, files: seq<Meta>, group: seq<Meta>, metas: seq<Meta>)
    requires Available(listed, used, files)
    ensures Available(listed, used + (set m | m in group :: m.file), Replace(files, Names(group), metas))
  {
    NamesAreFiles(group);
  }

  lemma NamesAreFiles(group: seq<Meta>)
    ensures forall n :: n in Names(group) ==> n in set m | m in group :: m.file
  {
    forall n | n in Names(group)
      ensures n in set m | m in group :: m.file
    {
      var i :| 0 <= i < |group| && Names(group)[i] == n;
      assert group[i] in group;
    }
  }

  lemma PromotedAvailable(here: seq<Meta>, next: seq<Meta>, processed: set<nat>, used: set<nat>, files: seq<Meta>,
                          files': seq<Meta>, f: Meta, level: nat)
    requires Available(here, processed, files) && Available(next, used, files)
    requires Named(files) && f in files && f.level == level && forall m :: m in next ==> m.level == level + 1
    requires forall m :: m in files && m.file != f.file ==> m in files'
    ensures Available(here, processed + {f.file}, files') && Available(next, used, files')
  {
  }

  // ---------------------------------------------------------------- progress

  /** A step of level `level` only adds new names and leaves all levels but two alone. */
  ghost predicate Moved(files: seq<Meta>, next: nat, created: set<nat>, files': seq<Meta>, next': nat, made: set<nat>,
                        level: nat)
  {
    && created <= made && next <= next' && (forall n :: n in made ==> n in created || n >= next)
    && forall l: nat :: l != level && l != level + 1 ==> FilesAt(files', l, made) == FilesAt(files, l, created)
  }

  lemma MovedNothing(files: seq<Meta>, next: nat, created: set<nat>, level: nat)
    ensures Moved(files, next, created, files, next, created, level)
  {
  }

  lemma MovedMeans(files: seq<Meta>, next: nat, created: set<nat>, files': seq<Meta>, next': nat, made: set<nat>,
                   level: nat)
    requires Moved(files, next, created, files', next', made, level)
    ensures next <= next' && forall n :: n in made ==> n in created || n >= next
    ensures forall l: nat :: l < level ==> FilesAt(files', l, made) == FilesAt(files, l, created)
  {
  }

  lemma MovedTransitive(a: seq<Meta>, n: nat, x: set<nat>, b: seq<Meta>, n': nat, y: set<nat>, c: seq<Meta>, n'': nat,
                        z: set<nat>, level: nat)
    requires Moved(a, n, x, b, n', y, level) && Moved(b, n', y, c, n'', z, level)
    ensures Moved(a, n, x, c, n'', z, level)
  {
    hide FilesAt;
  }

  /** Replacing a group of two neighbouring levels. */
  lemma MovedByGroup(files: seq<Meta>, group: seq<Meta>, metas: seq<Meta>, next: nat, next': nat, created: set<nat>,
                     made: set<nat>, level: nat)
    requires Named(files) && next <= next'
    requires forall m :: m in group ==> m in files && (m.level == level || m.level == level + 1)
    requires forall m :: m in metas ==> m.level == level + 1 && m.file >= next
    requires forall m :: m in files ==> m.file < next
    requires made == created + set m | m in metas :: m.file
    ensures Moved(files, next, created, Replace(files, Names(group), metas), next', made, level)
  {
    hide FilesAt, Names;
    NamesAreFiles(group);
    forall l: nat | l != level && l != level + 1
      ensures FilesAt(Replace(files, Names(group), metas), l, made) == FilesAt(files, l, created)
    {
      FilesAtConcat(Others(files, Names(group)), metas, l, made);
      FilesAtCreated(Others(files, Names(group)), l, created, made);
      OthersElsewhere(files, Names(group), l, created);
    }
  }

  lemma {:induction false} OthersElsewhere(files: seq<Meta>, names: seq<nat>, level: nat, created: set<nat>)
    requires forall m :: m in files && m.file in names ==> m.level != level
    ensures FilesAt(Others(files, names), level, created) == FilesAt(files, level, created)
  {
    if files != [] {
      FilesStep(files, names, level, created);
      hide FilesAt, Others;
      OthersElsewhere(files[1..], names, level, created);
    }
  }

  lemma MovedByPromotion(files: seq<Meta>, f: Meta, files': seq<Meta>, next: nat, created: set<nat>, level: nat)
    requires Named(files) && f in files && f.level == level && |files'| > 0
    requires files' == Others(files, [f.file]) + [files'[|files'| - 1]] && files'[|files'| - 1].level == level + 1
    ensures Moved(files, next, created, files', next, created, level)
  {
    hide FilesAt;
    var g := files'[|files'| - 1];
    forall l: nat | l != level && l != level + 1
      ensures FilesAt(files', l, created) == FilesAt(files, l, created)
    {
      FilesAtConcat(Others(files, [f.file]), [g], l, created);
      OthersElsewhere(files, [f.file], l, created);
    }
  }

  lemma StillPresent(files: seq<Meta>, disk: Disk, group: seq<Meta>, metas: seq<Meta>, disk': Disk, next: nat)
    requires forall m :: m in files ==> m.file < next
    requires OthersStay(disk, disk', next, Names(group)) && forall m :: m in metas ==> Describes(m, disk')
    ensures Present(files, disk) ==> Present(Replace(files, Names(group), metas), disk')
  {
  }

  lemma PromotedPresent(files: seq<Meta>, disk: Disk, files': seq<Meta>, f: Meta)
    requires Present(files, disk) && f in files && |files'| > 0
    requires files' == Others(files, [f.file]) + [files'[|files'| - 1]] && files'[|files'| - 1].file == f.file
    ensures Present(files', disk)
  {
  }

  lemma GroupIsGone(files: seq<Meta>, group: seq<Meta>, metas: seq<Meta>, next: nat)
    requires forall m :: m in group ==> m in files
    requires (forall m :: m in files ==> m.file < next) && forall m :: m in metas ==> m.file >= next
    ensures forall m :: m in group ==> m !in Replace(files, Names(group), metas)
  {
    forall m | m in group
      ensures m.file in Names(group)
    {
      var i :| 0 <= i < |group| && group[i] == m;
      assert Names(group)[i] == m.file;
    }
  }

  lemma NothingReadable(files: seq<Meta>, disk: Disk, group: seq<Meta>)
    requires group != [] && (forall m :: m in group ==> m in files) && !AnyReadable(group, disk)
    ensures !Present(files, disk)
  {
    assert group[0] in group;
  }

  lemma NoFilesNoSize(files: seq<Meta>)
    ensures files == [] ==> Total(files) == 0
  {
  }

  lemma SelectedLevels(files: seq<Meta>, level: nat, made: set<nat>, filesNext: seq<Meta>, selected: seq<Meta>,
                       used: set<nat>, group: seq<Meta>)
    requires group == selected + Touched(filesNext, selected, used)
    requires forall m :: m in selected ==> m in FilesAt(files, level, made)
    requires forall m :: m in filesNext ==> m.level == level + 1
    ensures forall m :: m in group ==> m.level == level || m.level == level + 1
    ensures selected != [] ==> group[0] in FilesAt(files, level, made)
  {
  }

  lemma GroupLevels(filesNext: seq<Meta>, used: set<nat>, f: Meta, level: nat, group: seq<Meta>)
    requires group == [f] + Touched(filesNext, [f], used) && f.level == level
    requires forall m :: m in filesNext ==> m.level == level + 1
    ensures forall m :: m in group ==> m.level == level || m.level == level + 1
  {
  }

  /** What is left of a level is still to come. */
  ghost predicate Remaining(files: seq<Meta>, level: nat, made: set<nat>, rest: seq<Meta>, processed: set<nat>)
  {
    forall m :: m in FilesAt(files, level, made) ==> m in rest && m.file !in processed
  }

  lemma AllRemain(files: seq<Meta>, level: nat, created: set<nat>)
    ensures Remaining(files, level, created, FilesAt(files, level, created), {})
  {
  }

  lemma RemainSkip(files: seq<Meta>, level: nat, made: set<nat>, rest: seq<Meta>, processed: set<nat>)
    requires Remaining(files, level, made, rest, processed) && rest != [] && rest[0].file in processed
    ensures Remaining(files, level, made, rest[1..], processed)
  {
    hide FilesAt;
    assert rest == [rest[0]] + rest[1..];
  }

  lemma RemainAfter(files: seq<Meta>, files': seq<Meta>, level: nat, made: set<nat>, made': set<nat>, rest: seq<Meta>,
                    processed: set<nat>, more: set<nat>)
    requires Remaining(files, level, made, rest, processed) && rest != [] && rest[0].file in more
    requires forall m :: m in FilesAt(files', level, made') ==> m in FilesAt(files, level, made) && m.file !in more
    ensures Remaining(files', level, made', rest[1..], processed + more)
  {
    hide FilesAt;
    assert rest == [rest[0]] + rest[1..];
  }

  lemma ReplacedRemain(files: seq<Meta>, group: seq<Meta>, metas: seq<Meta>, files': seq<Meta>, level: nat,
                       made: set<nat>, made': set<nat>, rest: seq<Meta>, processed: set<nat>)
    requires Remaining(files, level, made, rest, processed) && rest != [] && rest[0] in group
    requires files' == Replace(files, Names(group), metas) && made <= made'
    requires forall m :: m in metas ==> m.level == level + 1
    ensures Remaining(files', level, made', rest[1..], processed + set m | m in group :: m.file)
  {
    forall m | m in group
      ensures m.file in Names(group)
    {
      var i :| 0 <= i < |group| && group[i] == m;
      assert Names(group)[i] == m.file;
    }
    RemainAfter(files, files', level, made, made', rest, processed, set m | m in group :: m.file);
  }

  lemma NoneRemain(files: seq<Meta>, level: nat, made: set<nat>, processed: set<nat>)
    requires Remaining(files, level, made, [], processed)
    ensures FilesAt(files, level, made) == []
  {
    if FilesAt(files, level, made) != [] {
      assert FilesAt(files, level, made)[0] in FilesAt(files, level, made);
    }
  }

  // ---------------------------------------------------------------- facts for the loop

  function CurrentEntries(cur: Option<Output>): seq<Entry>
  {
    if cur == None then [] else cur.value.entries
  }

  /** The output files so far, and what else is on disk. */
  ghost predicate OutputsOk(was: Disk, first: nat, disk: Disk, next: nat, metas: seq<Meta>, level: nat)
  {
    && EncodableDisk(disk) && first <= next && (forall f :: f in disk ==> f < next)
    && OthersStay(was, disk, first, [])
    && (forall m :: m in metas ==> m.level == level && first <= m.file < next)
    && Named(metas) && (forall m :: m in metas ==> Describes(m, disk))
  }

  lemma OutputsMean(was: Disk, first: nat, disk: Disk, next: nat, metas: seq<Meta>, level: nat)
    requires OutputsOk(was, first, disk, next, metas, level)
    ensures EncodableDisk(disk) && first <= next && (forall f :: f in disk ==> f < next)
    ensures OthersStay(was, disk, first, [])
    ensures forall m :: m in metas ==> m.level == level && first <= m.file < next
    ensures Named(metas) && (forall m :: m in metas ==> Describes(m, disk))
  {
  }

  lemma NothingYet(disk: Disk, next: nat, level: nat, group: seq<Meta>, rules: Rules, promote: bool)
    requires EncodableDisk(disk) && forall f :: f in disk ==> f < next
    ensures Contents([], disk) + CurrentEntries(None) == Outcomes([], group, rules, promote)
    ensures OutputsOk(disk, next, disk, next, [], level)
  {
  }

  /** A rotation moves the current entries into a file. */
  lemma RotateStored(was: Disk, first: nat, disk: Disk, next: nat, metas: seq<Meta>, level: nat, r: seq<Meta>,
                     disk': Disk, next': nat, cur: Option<Output>, o: W.Options, walOffset: nat, now: nat)
    requires OutputsOk(was, first, disk, next, metas, level)
    requires cur == None ==> r == metas && disk' == disk && next' == next
    requires cur.Some? ==>
               && AllEncodable(cur.value.entries) && next' == next + 1
               && r == metas + [MetaOf(cur.value, o, next, level, walOffset, now)]
               && disk' == disk[next := cur.value.entries]
    ensures OutputsOk(was, first, disk', next', r, level)
    ensures Contents(r, disk') == Contents(metas, disk) + CurrentEntries(cur)
  {
    hide Contents, AllEncodable, FirstKey, LastKey;
    if cur.Some? {
      var m := MetaOf(cur.value, o, next, level, walOffset, now);
      hide MetaOf;
      SameContents(metas, disk, disk');
      ContentsSnoc(metas, m, disk');
    }
  }

  lemma {:induction false} OutcomesConcat(a: seq<Merged>, m: Merged, group: seq<Meta>, rules: Rules, promote: bool)
    ensures Outcomes(a + [m], group, rules, promote) ==
            Outcomes(a, group, rules, promote) + Outcome(m, group, rules, promote)
  {
    hide Outcome;
    if a == [] {
      assert (a + [m])[1..] == [];
    } else {
      assert (a + [m])[1..] == a[1..] + [m];
      OutcomesConcat(a[1..], m, group, rules, promote);
    }
  }

  lemma {:induction false} SourcesEncodable(group: seq<Meta>, disk: Disk)
    requires EncodableDisk(disk)
    ensures forall s, e :: s in Sources(group, disk) && e in s ==> Encodable(e)
  {
    hide Encodable;
    if group != [] {
      SourcesEncodable(group[1..], disk);
    }
  }

  /** Whatever is written has the key and value of something that was read. */
  lemma OutcomeEncodable(group: seq<Meta>, disk: Disk, i: nat, rules: Rules, promote: bool)
    requires EncodableDisk(disk) && i < |Merge(Sources(group, disk))|
    ensures AllEncodable(Outcome(Merge(Sources(group, disk))[i], group, rules, promote))
  {
    hide Outcome, Groups, Start, Emit;
    var sources := Sources(group, disk);
    var groups := Groups(Start(sources));
    SourcesEncodable(group, disk);
    MergeLosesNothing(sources);
    OutcomeOfGroup(groups[i], group, rules, promote);
    var out := Outcome(Emit(groups[i]), group, rules, promote);
    forall e | e in out
      ensures Encodable(e)
    {
      var it: Item :| it in groups[i] && V(e) == V(it.entry);
      assert InSome(groups, it) && FromSource(sources, it);
      assert sources[it.idx] in sources && Encodable(it.entry);
      SameVersionEncodable(e, it.entry);
    }
    assert Merge(sources)[i] == Emit(groups[i]);
  }

  lemma SameVersionEncodable(a: Entry, b: Entry)
    requires V(a) == V(b) && Encodable(b)
    ensures Encodable(a)
  {
  }
}
