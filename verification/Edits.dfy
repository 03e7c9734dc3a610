/** Turning flushes, moves and compactions into version edits, and applying them:
    VersionSet::LogAndApply, Compaction::AddInputDeletions, Version::PickLevelForMemTableOutput. */
module Edits {
  import opened Keys
  import opened Versions
  import opened CompactionInputs
  import opened CompactionPick
  import opened Install
  import B = Builder

  ghost predicate AllAscending(levels: seq<seq<File>>) {
    |levels| == kNumLevels && forall l :: 0 <= l < kNumLevels ==> B.Ascending(levels[l])
  }

  // File numbers are below the next one to hand out, and no two files share one.
  ghost predicate Numbering(levels: seq<seq<File>>, next: nat) {
    && (forall l, f :: 0 <= l < |levels| && f in levels[l] ==> f.number < next)
    && (forall l, m, f, g ::
          0 <= l < |levels| && 0 <= m < |levels| && f in levels[l] && g in levels[m] && f.number == g.number
          ==> l == m && f == g)
  }

  // The version after an edit, as LogAndApply computes it.
  ghost predicate Applied(levels: seq<seq<File>>, edit: B.VersionEdit, v: seq<seq<File>>)
    requires |levels| == kNumLevels
  {
    && |v| == kNumLevels
    && forall l :: 0 <= l < kNumLevels ==>
         B.FileSet(v[l]) == (set f | f in B.FileSet(levels[l]) && f.number !in edit.DeletedAt(l)) + edit.AddedAt(l)
  }

  // One edit through one Builder: the new version.
  method LogAndApply(levels: seq<seq<File>>, edit: B.VersionEdit) returns (v: seq<seq<File>>)
    requires AllAscending(levels) && edit.Valid()
    requires forall l :: 0 <= l < kNumLevels ==> B.FreshNumbers(B.FileSet(levels[l]), l, edit.added)
    ensures AllAscending(v) && Applied(levels, edit, v)
  {
    var builder := new B.Builder(levels);
    builder.Apply(edit);
    forall l | 0 <= l < kNumLevels
      ensures B.DisjointNumbers(levels[l], builder.levels[l].added)
      ensures B.Live(B.FileSet(levels[l]), builder.levels[l])
           == (set f | f in B.FileSet(levels[l]) && f.number !in edit.DeletedAt(l)) + edit.AddedAt(l)
    {
      OneLevel(levels[l], l, edit);
    }
    v := builder.SaveTo();
  }

  lemma OneLevel(files: seq<File>, l: nat, edit: B.VersionEdit)
    requires B.Ascending(files) && edit.Valid() && B.FreshNumbers(B.FileSet(files), l, edit.added)
    ensures B.DisjointNumbers(files, B.ApplyLevel(B.LevelState({}, []), l, edit).added)
    ensures B.Live(B.FileSet(files), B.ApplyLevel(B.LevelState({}, []), l, edit))
         == (set f | f in B.FileSet(files) && f.number !in edit.DeletedAt(l)) + edit.AddedAt(l)
  {
    var empty := B.LevelState({}, []);
    assert B.FileSet(files) + B.FileSet(empty.added) == B.FileSet(files);
    B.ApplyEffect(B.FileSet(files), empty, l, edit);
    assert B.Live(B.FileSet(files), empty) == B.FileSet(files);
    B.AddAllEffect(B.FileSet(files), B.LevelState(empty.deleted + edit.DeletedAt(l), []), l, edit.added);
    var added := B.ApplyLevel(empty, l, edit).added;
    forall i, j | 0 <= i < |files| && 0 <= j < |added| ensures files[i].number != added[j].number {
      assert files[i] in B.FileSet(files) && added[j] in B.FileSet(added);
      var k :| 0 <= k < |edit.added| && edit.added[k].0 == l && edit.added[k].1 == added[j];
    }
  }

  // The check of a debug build at the end of Builder::SaveTo: neighbours on a level above 0 that are not apart.
  method OverlapFound(levels: seq<seq<File>>) returns (found: bool)
    requires |levels| == kNumLevels && forall l :: 0 <= l < kNumLevels ==> ValidFiles(levels[l])
    ensures !found <==> forall l :: 1 <= l < kNumLevels ==> SortedLevel(levels[l])
  {
    for l := 1 to kNumLevels
      invariant forall k :: 1 <= k < l ==> SortedLevel(levels[k])
    {
      var files := levels[l];
      var i := 1;
      while i < |files|
        invariant 1 <= i && forall k :: 1 <= k < i && k < |files| ==> files[k - 1].Largest().Before(files[k].Smallest())
      {
        if !files[i - 1].Largest().Before(files[i].Smallest()) { return true; }
        i := i + 1;
      }
      NeighboursSorted(files);
    }
    found := false;
  }

  lemma {:induction false} NeighboursSorted(files: seq<File>)
    requires ValidFiles(files) && forall k :: 1 <= k < |files| ==> files[k - 1].Largest().Before(files[k].Smallest())
    ensures SortedLevel(files)
  {
    if |files| > 1 {
      var n := |files| - 1;
      var init := files[..n];
      NeighboursSorted(init);
      forall i | 0 <= i < n ensures files[i].Largest().Before(files[n].Smallest()) {
        if i < n - 1 {
          assert init[i].Largest().Before(init[n - 1].Smallest());
          SmallestAtMostLargest(files[n - 1]);
        }
      }
    }
  }

  // ----- the edit of a compaction or trivial move -----

  ghost function NumbersOf(files: seq<File>): set<nat> { set f | f in files :: f.number }

  function CompactionEdit(l: nat, in0: seq<File>, in1: seq<File>, outputs: seq<File>): B.VersionEdit {
    B.VersionEdit((set f | f in in0 :: (l, f.number)) + (set f | f in in1 :: (l + 1, f.number)),
                  seq(|outputs|, i requires 0 <= i < |outputs| => (l + 1, outputs[i])))
  }

  lemma CompactionEditParts(l: nat, in0: seq<File>, in1: seq<File>, outputs: seq<File>)
    ensures var e := CompactionEdit(l, in0, in1, outputs);
            && e.DeletedAt(l) == NumbersOf(in0) && e.DeletedAt(l + 1) == NumbersOf(in1)
            && (forall m :: m != l && m != l + 1 ==> e.DeletedAt(m) == {})
            && e.AddedAt(l + 1) == B.FileSet(outputs)
            && (forall m :: m != l + 1 ==> e.AddedAt(m) == {})
  {
    var e := CompactionEdit(l, in0, in1, outputs);
    forall f | f in in0 ensures f.number in e.DeletedAt(l) { assert (l, f.number) in e.deleted; }
    forall f | f in in1 ensures f.number in e.DeletedAt(l + 1) { assert (l + 1, f.number) in e.deleted; }
    assert e.DeletedAt(l) == NumbersOf(in0);
    assert e.DeletedAt(l + 1) == NumbersOf(in1);
    forall f | f in outputs ensures f in e.AddedAt(l + 1) {
      var i :| 0 <= i < |outputs| && outputs[i] == f;
      assert e.added[i] == (l + 1, f);
    }
    assert e.AddedAt(l + 1) == B.FileSet(outputs);
  }

  // Outputs carry numbers not in use on the output level, all different.
  ghost predicate FreshOutputs(files: seq<File>, outputs: seq<File>) {
    && (forall i, g :: 0 <= i < |outputs| && g in files ==> outputs[i].number != g.number)
    && (forall i, j :: 0 <= i < j < |outputs| ==> outputs[i].number != outputs[j].number)
    && (forall i :: 0 <= i < |outputs| ==> outputs[i].entries != [])
  }

  lemma SurvivorsByNumber(levels: seq<seq<File>>, next: nat, l: nat, chosen: seq<File>)
    requires Numbering(levels, next) && l < |levels| && forall f :: f in chosen ==> f in levels[l]
    ensures (set f | f in B.FileSet(levels[l]) && f.number !in NumbersOf(chosen)) == B.FileSet(levels[l]) - B.FileSet(chosen)
  {
    forall f, g | f in B.FileSet(levels[l]) && g in chosen && f.number == g.number ensures f in B.FileSet(chosen) {
      assert f in levels[l] && g in levels[l];
    }
  }

  method InstallCompaction(levels: seq<seq<File>>, l: nat, in0: seq<File>, in1: seq<File>, outputs: seq<File>, ghost next: nat)
    returns (v: seq<seq<File>>)
    requires AllAscending(levels) && Numbering(levels, next) && l + 1 < kNumLevels
    requires forall f :: f in in0 ==> f in levels[l]
    requires forall f :: f in in1 ==> f in levels[l + 1]
    requires FreshOutputs(levels[l + 1], outputs)
    ensures Installed(levels, v, l, in0, in1, outputs) && Applied(levels, CompactionEdit(l, in0, in1, outputs), v)
  {
    var edit := CompactionEdit(l, in0, in1, outputs);
    CompactionEditParts(l, in0, in1, outputs);
    v := LogAndApply(levels, edit);
    SurvivorsByNumber(levels, next, l, in0);
    SurvivorsByNumber(levels, next, l + 1, in1);
    forall m | 0 <= m < kNumLevels && m != l && m != l + 1 ensures v[m] == levels[m] {
      assert B.FileSet(v[m]) == B.FileSet(levels[m]);
      B.AscendingUnique(v[m], levels[m]);
    }
  }

  lemma InstalledNumbering(levels: seq<seq<File>>, v: seq<seq<File>>, l: nat, in0: seq<File>, in1: seq<File>,
                           outputs: seq<File>, next: nat, next': nat)
    requires |levels| == kNumLevels && Numbering(levels, next) && next <= next' && l + 1 < kNumLevels
    requires Installed(levels, v, l, in0, in1, outputs) && FreshOutputs(levels[l + 1], outputs)
    requires forall f :: f in outputs ==> f.number < next' && (f.number >= next || f in in0)
    requires forall f :: f in in0 ==> f in levels[l]
    ensures Numbering(v, next')
  {
    forall m, f | 0 <= m < kNumLevels && f in v[m]
      ensures f.number < next'
      ensures (m == l + 1 && f in outputs) || (f in levels[m] && !(m == l && f in in0))
    {
      assert f in B.FileSet(v[m]);
    }
    hide Installed;
    forall f, g | f in outputs && g in outputs && f.number == g.number ensures f == g {
      var i :| 0 <= i < |outputs| && outputs[i] == f;
      var j :| 0 <= j < |outputs| && outputs[j] == g;
    }
  }

  // ----- the edit of a flush -----

  method InstallFlush(levels: seq<seq<File>>, l: nat, f: File) returns (v: seq<seq<File>>)
    requires AllAscending(levels) && Numbering(levels, f.number) && l < kNumLevels && f.entries != []
    ensures Flushed(levels, v, l, f) && Numbering(v, f.number + 1) && Applied(levels, B.VersionEdit({}, [(l, f)]), v)
  {
    var edit := B.VersionEdit({}, [(l, f)]);
    FlushEditParts(l, f);
    v := LogAndApply(levels, edit);
    forall m | 0 <= m < kNumLevels && m != l ensures v[m] == levels[m] {
      assert B.FileSet(v[m]) == B.FileSet(levels[m]);
      B.AscendingUnique(v[m], levels[m]);
    }
    assert B.FileSet(v[l]) == B.FileSet(levels[l]) + {f};
    FlushedNumbering(levels, v, l, f);
  }

  lemma FlushEditParts(l: nat, f: File)
    ensures var e := B.VersionEdit({}, [(l, f)]);
            && e.AddedAt(l) == {f} && (forall m :: m != l ==> e.AddedAt(m) == {}) && forall m :: e.DeletedAt(m) == {}
  {
    var e := B.VersionEdit({}, [(l, f)]);
    assert (l, f) in e.added;
  }

  lemma FlushedNumbering(levels: seq<seq<File>>, v: seq<seq<File>>, l: nat, f: File)
    requires |levels| == kNumLevels && l < kNumLevels && Numbering(levels, f.number) && Flushed(levels, v, l, f)
    ensures Numbering(v, f.number + 1)
  {
    forall m, g | 0 <= m < kNumLevels && g in v[m] ensures g in levels[m] || (m == l && g == f) {
      assert g in B.FileSet(v[m]);
    }
    hide Flushed;
  }

  // SomeFileOverlapsRange
  method SomeFileOverlapsRange(files: seq<File>, disjointSorted: bool, f: File) returns (overlap: bool)
    requires ValidFiles(files) && f.Valid() && (disjointSorted ==> SortedLevel(files))
    requires forall i :: 0 <= i < |files| ==> files[i].Largest().sequence <= kMaxSequenceNumber
    ensures !overlap <==> NoOverlap(files, f)
  {
    var small, large := f.Smallest().user, f.Largest().user;
    if !disjointSorted {
      for i := 0 to |files|
        invariant forall j :: 0 <= j < i ==> large < files[j].Smallest().user || files[j].Largest().user < small
      {
        if !(small > files[i].Largest().user || large < files[i].Smallest().user) { return true; }
      }
      return false;
    }
    var index := FindFile(files, InternalKey(small, kMaxSequenceNumber, kValueTypeForSeek));
    SearchStart(files, small, index);
    if index >= |files| { return false; }
    overlap := !(large < files[index].Smallest().user);
    forall j | 0 <= j < |files| ensures index <= j ==> files[index].Smallest().user <= files[j].Smallest().user {
      if index <= j { FilesInOrder(files, index, j); }
    }
  }

  // The earliest key for `small` separates the files ending before it from the others, except
  // for entries with a sequence number above the maximum, which no table holds.
  lemma SearchStart(files: seq<File>, small: UserKey, index: nat)
    requires ValidFiles(files) && index <= |files|
    requires forall i :: 0 <= i < index ==> files[i].Largest().Before(InternalKey(small, kMaxSequenceNumber, kValueTypeForSeek))
    requires forall i :: index <= i < |files| ==> !files[i].Largest().Before(InternalKey(small, kMaxSequenceNumber, kValueTypeForSeek))
    requires forall i :: 0 <= i < |files| ==> files[i].Largest().sequence <= kMaxSequenceNumber
    ensures forall i :: 0 <= i < |files| ==> (i < index <==> files[i].Largest().user < small)
  {
    forall i | 0 <= i < |files| ensures i < index <==> files[i].Largest().user < small {
      var e := files[i].entries[|files[i].entries| - 1];
      assert files[i].Valid() && e.Parses();
    }
  }

  ghost predicate SequencesFit(levels: seq<seq<File>>)
    requires Ordered(levels)
  {
    forall l, i :: 0 <= l < kNumLevels && 0 <= i < |levels[l]| ==> levels[l][i].Largest().sequence <= kMaxSequenceNumber
  }

  // Nothing overlaps f on the next level, and not too much on the one after it.
  ghost predicate MayDescend(levels: seq<seq<File>>, f: File, l: nat, maxGrandparentOverlap: nat)
    requires Ordered(levels) && f.Valid() && l + 2 < kNumLevels
  {
    && NoOverlap(levels[l + 1], f)
    && TotalFileSize(Overlapping(levels[l + 2], Some(f.Smallest().user), Some(f.Largest().user))) <= maxGrandparentOverlap
  }

  // Level l is where the table belongs: as deep as it may go.
  ghost predicate PlacedAt(levels: seq<seq<File>>, f: File, l: nat, maxGrandparentOverlap: nat)
    requires Ordered(levels) && f.Valid() && l <= kMaxMemCompactLevel
  {
    && (l > 0 ==> forall m :: 0 <= m <= l ==> NoOverlap(levels[m], f))
    && (forall m :: 0 <= m < l ==> MayDescend(levels, f, m, maxGrandparentOverlap))
    && (NoOverlap(levels[0], f) && l < kMaxMemCompactLevel ==> !MayDescend(levels, f, l, maxGrandparentOverlap))
  }

  // Version::PickLevelForMemTableOutput: as deep as level 2 while nothing overlaps and the
  // grandparents are small.
  method PickLevelForMemTableOutput(levels: seq<seq<File>>, f: File, maxGrandparentOverlap: nat) returns (level: nat)
    requires Ordered(levels) && SequencesFit(levels) && f.Valid()
    ensures level <= kMaxMemCompactLevel && PlacedAt(levels, f, level, maxGrandparentOverlap)
  {
    hide Ordered, NoOverlap, MayDescend, SequencesFit, ValidFiles, File.Valid, SortedLevel;
    AllFilesValid(levels);
    level := 0;
    LevelFits(levels, 0);
    var overlap := SomeFileOverlapsRange(levels[0], false, f);
    if overlap { return; }
    var descends := true;
    while level < kMaxMemCompactLevel && descends
      invariant level <= kMaxMemCompactLevel
      invariant forall m :: 0 <= m <= level ==> NoOverlap(levels[m], f)
      invariant forall m :: 0 <= m < level ==> MayDescend(levels, f, m, maxGrandparentOverlap)
      invariant !descends ==> level < kMaxMemCompactLevel && !MayDescend(levels, f, level, maxGrandparentOverlap)
      decreases kMaxMemCompactLevel - level, descends
    {
      descends := Descend(levels, f, level, maxGrandparentOverlap);
      if descends { level := level + 1; }
    }
  }

  // One turn of its loop.
  method Descend(levels: seq<seq<File>>, f: File, level: nat, maxGrandparentOverlap: nat) returns (descends: bool)
    requires Ordered(levels) && SequencesFit(levels) && f.Valid() && level + 2 < kNumLevels
    ensures descends <==> MayDescend(levels, f, level, maxGrandparentOverlap)
    ensures ValidFiles(levels[level + 1]) && (descends ==> NoOverlap(levels[level + 1], f))
  {
    LevelFits(levels, level + 1);
    LevelFits(levels, level + 2);
    hide Ordered, NoOverlap, SequencesFit, Overlapping, TotalFileSize;
    var overlap := SomeFileOverlapsRange(levels[level + 1], true, f);
    if overlap { return false; }
    var overlaps;
    ghost var b, e;
    overlaps, b, e := GetOverlappingInputs(levels[level + 2], level + 2, Some(f.Smallest().user), Some(f.Largest().user));
    descends := TotalFileSize(overlaps) <= maxGrandparentOverlap;
  }

  lemma AllFilesValid(levels: seq<seq<File>>)
    requires Ordered(levels)
    ensures |levels| == kNumLevels && forall l :: 0 <= l < kNumLevels ==> ValidFiles(levels[l])
  {
  }

  lemma LevelFits(levels: seq<seq<File>>, l: nat)
    requires Ordered(levels) && SequencesFit(levels) && l < kNumLevels
    ensures |levels| == kNumLevels && ValidFiles(levels[l]) && (l > 0 ==> SortedLevel(levels[l]))
    ensures forall i :: 0 <= i < |levels[l]| ==> levels[l][i].Largest().sequence <= kMaxSequenceNumber
  {
  }
}
