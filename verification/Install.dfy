/** Installing the result of a flush, move or compaction keeps the search-order invariant. */
module Install {
  import opened Keys
  import opened Versions
  import opened CompactionInputs
  import opened CompactionPick
  import opened CompactionReads
  import B = Builder

  // Two files of a sorted level: one ends before the other starts.
  ghost predicate Disjoint(f: File, g: File)
    requires f.entries != [] && g.entries != []
  {
    f.Largest().Before(g.Smallest()) || g.Largest().Before(f.Smallest())
  }

  ghost predicate PairwiseDisjoint(files: set<File>)
    requires forall f :: f in files ==> f.entries != []
  {
    forall f, g :: f in files && g in files && f != g ==> Disjoint(f, g)
  }

  lemma AscendingDisjoint(files: seq<File>)
    requires B.Ascending(files) && ValidFiles(files) && PairwiseDisjoint(B.FileSet(files))
    ensures SortedLevel(files)
  {
    forall i, j | 0 <= i < j < |files| ensures files[i].Largest().Before(files[j].Smallest()) {
      assert B.Less(files[i], files[j]);
      assert files[i] in B.FileSet(files) && files[j] in B.FileSet(files);
      EntryInRange(files[i], files[i].entries[0]);
      EntryInRange(files[j], files[j].entries[0]);
    }
  }

  lemma SortedLevelDisjoint(files: seq<File>, f: File, g: File)
    requires ValidFiles(files) && SortedLevel(files) && f in files && g in files && f != g
    ensures Disjoint(f, g)
  {
    var i :| 0 <= i < |files| && files[i] == f;
    var j :| 0 <= j < |files| && files[j] == g;
  }

  // An output made of input entries only.
  ghost predicate MadeOf(f: File, in0: seq<File>, in1: seq<File>) {
    f.Valid() && forall e :: e in f.entries ==> e in Stored(in0) + Stored(in1)
  }

  // A file clear of the inputs is disjoint from everything made of them.
  lemma ClearOfOutputs(f: File, in0: seq<File>, in1: seq<File>, g: File)
    requires f.Valid() && ValidFiles(in0) && ValidFiles(in1) && ClearOf(f, in0, in1) && MadeOf(g, in0, in1)
    ensures Disjoint(f, g)
  {
    forall e | e in g.entries
      ensures BeforeAll(f, in0) && (forall j :: 0 <= j < |in1| ==> f.Largest().Before(in1[j].Smallest())) ==> f.Largest().Before(e.key)
      ensures AfterAll(f, in0) && (forall j :: 0 <= j < |in1| ==> in1[j].Largest().Before(f.Smallest())) ==> e.key.Before(f.Smallest())
    {
      EntryBeyond(f, in0, in1, e);
    }
    assert g.entries[0] in g.entries && g.entries[|g.entries| - 1] in g.entries;
  }

  lemma EntryBeyond(f: File, in0: seq<File>, in1: seq<File>, e: Entry)
    requires f.Valid() && ValidFiles(in0) && ValidFiles(in1) && e in Stored(in0) + Stored(in1)
    ensures BeforeAll(f, in0) && (forall j :: 0 <= j < |in1| ==> f.Largest().Before(in1[j].Smallest())) ==> f.Largest().Before(e.key)
    ensures AfterAll(f, in0) && (forall j :: 0 <= j < |in1| ==> in1[j].Largest().Before(f.Smallest())) ==> e.key.Before(f.Smallest())
  {
    if e in Stored(in0) {
      var i :| 0 <= i < |in0| && e in in0[i].entries;
      EntryInRange(in0[i], e);
    } else {
      var i :| 0 <= i < |in1| && e in in1[i].entries;
      EntryInRange(in1[i], e);
    }
  }

  lemma ApartFile(files: seq<File>, in0: seq<File>, in1: seq<File>, f: File)
    requires ValidFiles(files) && ValidFiles(in0) && ValidFiles(in1) && Apart(files, in0, in1)
    requires f in files && f !in in1
    ensures f.Valid() && ClearOf(f, in0, in1)
  {
    var i :| 0 <= i < |files| && files[i] == f;
  }

  ghost predicate AllMadeOf(outputs: seq<File>, in0: seq<File>, in1: seq<File>) {
    forall i :: 0 <= i < |outputs| ==> MadeOf(outputs[i], in0, in1)
  }

  // The output level after a compaction.
  lemma OutputLevelSorted(files: seq<File>, in0: seq<File>, in1: seq<File>, outputs: seq<File>, files': seq<File>)
    requires ValidFiles(files) && SortedLevel(files) && ValidFiles(in0) && ValidFiles(in1) && Apart(files, in0, in1)
    requires AllMadeOf(outputs, in0, in1) && ValidFiles(outputs) && SortedLevel(outputs)
    requires B.Ascending(files')
    requires B.FileSet(files') == (B.FileSet(files) - B.FileSet(in1)) + B.FileSet(outputs)
    ensures ValidFiles(files') && SortedLevel(files')
  {
    forall f | f in B.FileSet(files') ensures f.Valid() && f.entries != [] {
      OldOrNew(files, in1, outputs, f);
    }
    forall i | 0 <= i < |files'| ensures files'[i].Valid() { assert files'[i] in B.FileSet(files'); }
    forall f, g | f in B.FileSet(files') && g in B.FileSet(files') && f != g ensures Disjoint(f, g) {
      OldOrNew(files, in1, outputs, f);
      OldOrNew(files, in1, outputs, g);
      if f in outputs && g in outputs {
        SortedLevelDisjoint(outputs, f, g);
      } else if f in outputs {
        ApartFile(files, in0, in1, g);
        ClearOfOutputs(g, in0, in1, f);
      } else if g in outputs {
        ApartFile(files, in0, in1, f);
        ClearOfOutputs(f, in0, in1, g);
      } else {
        SortedLevelDisjoint(files, f, g);
      }
    }
    AscendingDisjoint(files');
  }

  lemma OldOrNew(files: seq<File>, in1: seq<File>, outputs: seq<File>, f: File)
    requires ValidFiles(files) && ValidFiles(outputs)
    requires f in (B.FileSet(files) - B.FileSet(in1)) + B.FileSet(outputs)
    ensures f.Valid() && (f in outputs || (f in files && f !in in1))
  {
    if f in outputs {
      var i :| 0 <= i < |outputs| && outputs[i] == f;
    } else {
      var i :| 0 <= i < |files| && files[i] == f;
    }
  }

  // A level that only loses files.
  lemma ShrunkLevel(files: seq<File>, files': seq<File>)
    requires ValidFiles(files) && B.Ascending(files') && B.FileSet(files') <= B.FileSet(files)
    ensures ValidFiles(files')
    ensures SortedLevel(files) ==> SortedLevel(files')
    ensures NewestByNumber(files) && B.Ascending(files') ==> NewestByNumber(files')
    ensures Stored(files') <= Stored(files)
  {
    forall i | 0 <= i < |files'| ensures files'[i] in files && files'[i].Valid() {
      assert files'[i] in B.FileSet(files');
    }
    if SortedLevel(files) {
      forall f, g | f in B.FileSet(files') && g in B.FileSet(files') && f != g ensures Disjoint(f, g) {
        SortedLevelDisjoint(files, f, g);
      }
      AscendingDisjoint(files');
    }
    if NewestByNumber(files) { SubsetNewest(files, files'); }
  }

  lemma SubsetNewest(files: seq<File>, files': seq<File>)
    requires NewestByNumber(files) && B.Ascending(files') && B.FileSet(files') <= B.FileSet(files)
    ensures NewestByNumber(files')
  {
    forall i, j | 0 <= i < |files'| && 0 <= j < |files'| && i != j
      ensures files'[i].number != files'[j].number
      ensures files'[i].number > files'[j].number ==> Newer(Elements(files'[i].entries), Elements(files'[j].entries))
    {
      assert files'[i] in B.FileSet(files') && files'[j] in B.FileSet(files');
      var p :| 0 <= p < |files| && files[p] == files'[i];
      var q :| 0 <= q < |files| && files[q] == files'[j];
      assert B.Less(files'[i], files'[j]) || B.Less(files'[j], files'[i]);
      assert p != q;
    }
  }

  lemma NewerSubset(a: set<Entry>, b: set<Entry>, a': set<Entry>, b': set<Entry>)
    requires Newer(a, b) && a' <= a && b' <= b
    ensures Newer(a', b')
  {
  }

  // The levels after a compaction of level l (a trivial move has in1 == [] and outputs == in0).
  ghost predicate Installed(levels: seq<seq<File>>, levels': seq<seq<File>>, l: nat,
                            in0: seq<File>, in1: seq<File>, outputs: seq<File>)
    requires |levels| == kNumLevels && l + 1 < kNumLevels
  {
    && |levels'| == kNumLevels
    && (forall m :: 0 <= m < kNumLevels ==> B.Ascending(levels'[m]))
    && (forall m :: 0 <= m < kNumLevels && m != l && m != l + 1 ==> levels'[m] == levels[m])
    && B.FileSet(levels'[l]) == B.FileSet(levels[l]) - B.FileSet(in0)
    && B.FileSet(levels'[l + 1]) == (B.FileSet(levels[l + 1]) - B.FileSet(in1)) + B.FileSet(outputs)
  }

  lemma StoredSplit(files: seq<File>, gone: seq<File>, added: seq<File>, files': seq<File>)
    requires B.FileSet(files') == (B.FileSet(files) - B.FileSet(gone)) + B.FileSet(added)
    ensures forall e :: e in Stored(files') ==> e in Stored(added) || exists f :: f in files && f !in gone && e in f.entries
    ensures forall f, e :: f in files && f !in gone && e in f.entries ==> e in Stored(files')
    ensures Stored(added) <= Stored(files')
  {
    forall e | e in Stored(files')
      ensures e in Stored(added) || exists f :: f in files && f !in gone && e in f.entries
    {
      var f :| f in files' && e in f.entries;
      assert f in B.FileSet(files');
    }
    forall f, e | f in files && f !in gone && e in f.entries ensures e in Stored(files') {
      assert f in B.FileSet(files');
    }
    forall e | e in Stored(added) ensures e in Stored(files') {
      var f :| f in added && e in f.entries;
      assert f in B.FileSet(files');
    }
  }

  // Order between the two levels of a compaction afterwards.
  lemma LevelsStayOrdered(levels: seq<seq<File>>, levels': seq<seq<File>>, l: nat,
                          in0: seq<File>, in1: seq<File>, outputs: seq<File>)
    requires Ordered(levels) && l + 1 < kNumLevels && GoodInputs(levels, l, in0, in1)
    requires Installed(levels, levels', l, in0, in1, outputs)
    requires Stored(outputs) <= Stored(in0) + Stored(in1)
    ensures Newer(Stored(levels'[l]), Stored(levels'[l + 1]))
    ensures Stored(levels'[l]) <= Stored(levels[l])
    ensures Stored(levels'[l + 1]) <= Stored(levels[l]) + Stored(levels[l + 1])
  {
    ShrunkEntries(levels, levels', l, in0, in1, outputs);
    hide Ordered, GoodInputs, Installed;
    forall x, y | x in Stored(levels'[l]) && y in Stored(levels'[l + 1]) && x.key.user == y.key.user
      ensures x.key.Tag() > y.key.Tag()
    {
      if y in Stored(in0) {
        var f :| f in levels[l] && f !in in0 && x in f.entries;
        LeftBehindIsNewer(levels, l, in0, in1, f);
        assert x in Elements(f.entries);
      } else {
        ShallowerIsNewer(levels, l, l + 1, x, y);
      }
    }
  }

  lemma LeftBehindIsNewer(levels: seq<seq<File>>, l: nat, in0: seq<File>, in1: seq<File>, f: File)
    requires Ordered(levels) && l + 1 < kNumLevels && GoodInputs(levels, l, in0, in1) && f in levels[l] && f !in in0
    ensures Newer(Elements(f.entries), Stored(in0))
  {
  }

  // Which entries the two levels hold afterwards.
  lemma ShrunkEntries(levels: seq<seq<File>>, levels': seq<seq<File>>, l: nat,
                      in0: seq<File>, in1: seq<File>, outputs: seq<File>)
    requires Ordered(levels) && l + 1 < kNumLevels && GoodInputs(levels, l, in0, in1)
    requires Installed(levels, levels', l, in0, in1, outputs)
    requires Stored(outputs) <= Stored(in0) + Stored(in1)
    ensures forall x :: x in Stored(levels'[l]) ==> exists f :: f in levels[l] && f !in in0 && x in f.entries
    ensures Stored(levels'[l]) <= Stored(levels[l])
    ensures Stored(levels'[l + 1]) <= Stored(in0) + Stored(levels[l + 1])
    ensures Stored(in0) <= Stored(levels[l])
  {
    hide SortedLevel, ValidFiles, NewestByNumber, Newer, B.Ascending;
    StoredSplit(levels[l], in0, [], levels'[l]);
    StoredSplit(levels[l + 1], in1, outputs, levels'[l + 1]);
    InputsStored(levels, l, in0, in1);
  }

  lemma InstallKeepsOrder(levels: seq<seq<File>>, levels': seq<seq<File>>, l: nat,
                          in0: seq<File>, in1: seq<File>, outputs: seq<File>)
    requires Ordered(levels) && l + 1 < kNumLevels && GoodInputs(levels, l, in0, in1)
    requires Installed(levels, levels', l, in0, in1, outputs)
    requires AllMadeOf(outputs, in0, in1) && ValidFiles(outputs) && SortedLevel(outputs)
    ensures Ordered(levels')
  {
    hide GoodInputs, ValidFiles, SortedLevel, NewestByNumber, Newer, AllMadeOf;
    OutputsStored(outputs, in0, in1);
    LevelsStayOrdered(levels, levels', l, in0, in1, outputs);
    InputLevelsSorted(levels, levels', l, in0, in1, outputs);
    forall a, b | 0 <= a < b < kNumLevels ensures Newer(Stored(levels'[a]), Stored(levels'[b])) {
      PairStaysOrdered(levels, levels', l, a, b);
    }
  }

  lemma InputLevelsSorted(levels: seq<seq<File>>, levels': seq<seq<File>>, l: nat,
                          in0: seq<File>, in1: seq<File>, outputs: seq<File>)
    requires Ordered(levels) && l + 1 < kNumLevels && GoodInputs(levels, l, in0, in1)
    requires Installed(levels, levels', l, in0, in1, outputs)
    requires AllMadeOf(outputs, in0, in1) && ValidFiles(outputs) && SortedLevel(outputs)
    ensures ValidFiles(levels'[l]) && ValidFiles(levels'[l + 1]) && SortedLevel(levels'[l + 1])
    ensures if l == 0 then NewestByNumber(levels'[0]) else SortedLevel(levels'[l])
  {
    hide SortedLevel, NewestByNumber, Newer, AllMadeOf;
    ShrunkLevel(levels[l], levels'[l]);
    OutputLevelSorted(levels[l + 1], in0, in1, outputs, levels'[l + 1]);
  }

  lemma OutputsStored(outputs: seq<File>, in0: seq<File>, in1: seq<File>)
    requires AllMadeOf(outputs, in0, in1)
    ensures Stored(outputs) <= Stored(in0) + Stored(in1)
  {
    forall e | e in Stored(outputs) ensures e in Stored(in0) + Stored(in1) {
      var i :| 0 <= i < |outputs| && e in outputs[i].entries;
    }
  }

  lemma PairStaysOrdered(levels: seq<seq<File>>, levels': seq<seq<File>>, l: nat, a: nat, b: nat)
    requires Ordered(levels) && |levels'| == kNumLevels && l + 1 < kNumLevels && a < b < kNumLevels
    requires forall m :: 0 <= m < kNumLevels && m != l && m != l + 1 ==> levels'[m] == levels[m]
    requires Newer(Stored(levels'[l]), Stored(levels'[l + 1]))
    requires Stored(levels'[l]) <= Stored(levels[l])
    requires Stored(levels'[l + 1]) <= Stored(levels[l]) + Stored(levels[l + 1])
    ensures Newer(Stored(levels'[a]), Stored(levels'[b]))
  {
    assert Newer(Stored(levels[a]), Stored(levels[b]));
    if b == l + 1 && a < l {
      assert Newer(Stored(levels[a]), Stored(levels[l]));
      NewerSubset(Stored(levels[a]), Stored(levels[l]) + Stored(levels[l + 1]), Stored(levels'[a]), Stored(levels'[b]));
    } else if a == l + 1 {
      assert Newer(Stored(levels[l]), Stored(levels[b]));
      NewerSubset(Stored(levels[l]) + Stored(levels[l + 1]), Stored(levels[b]), Stored(levels'[a]), Stored(levels'[b]));
    }
  }

  // ----- flushing a memtable -----

  ghost predicate NoOverlap(files: seq<File>, f: File)
    requires ValidFiles(files) && f.Valid()
  {
    forall i :: 0 <= i < |files| ==> f.Largest().user < files[i].Smallest().user || files[i].Largest().user < f.Smallest().user
  }

  ghost predicate Flushed(levels: seq<seq<File>>, levels': seq<seq<File>>, l: nat, f: File)
    requires |levels| == kNumLevels && l < kNumLevels
  {
    && |levels'| == kNumLevels
    && (forall m :: 0 <= m < kNumLevels ==> B.Ascending(levels'[m]))
    && (forall m :: 0 <= m < kNumLevels && m != l ==> levels'[m] == levels[m])
    && B.FileSet(levels'[l]) == B.FileSet(levels[l]) + {f}
  }

  lemma NoOverlapApart(files: seq<File>, f: File, x: Entry, y: Entry)
    requires ValidFiles(files) && f.Valid() && NoOverlap(files, f) && x in f.entries && y in Stored(files)
    ensures x.key.user != y.key.user
  {
    var g :| g in files && y in g.entries;
    var i :| 0 <= i < |files| && files[i] == g;
    EntryInRange(f, x);
    EntryInRange(files[i], y);
  }

  // A table newer than the whole version may be placed at level 0, or below levels it does not
  // overlap.
  lemma FlushKeepsOrder(levels: seq<seq<File>>, levels': seq<seq<File>>, l: nat, f: File)
    requires Ordered(levels) && l < kNumLevels && Flushed(levels, levels', l, f) && f.Valid()
    requires Newer(Elements(f.entries), StoredIn(levels))
    requires l > 0 ==> forall m :: 0 <= m <= l ==> NoOverlap(levels[m], f)
    requires l == 0 ==> forall g :: g in levels[0] ==> g.number < f.number
    ensures Ordered(levels')
  {
    FlushedStored(levels[l], f, levels'[l]);
    forall m | 0 <= m < kNumLevels ensures Newer(Elements(f.entries), Stored(levels[m])) {
      assert forall e :: e in Stored(levels[m]) ==> e in StoredIn(levels);
    }
    if l == 0 { FlushToLevel0(levels[0], f, levels'[0]); } else { FlushBelow(levels[l], f, levels'[l]); }
    forall a, b | 0 <= a < b < kNumLevels ensures Newer(Stored(levels'[a]), Stored(levels'[b])) {
      assert Newer(Stored(levels[a]), Stored(levels[b]));
      if b == l {
        forall x, y | x in Stored(levels[a]) && y in Elements(f.entries) ensures x.key.user != y.key.user {
          NoOverlapApart(levels[a], f, y, x);
        }
      }
    }
  }

  lemma FlushedStored(files: seq<File>, f: File, files': seq<File>)
    requires B.FileSet(files') == B.FileSet(files) + {f}
    ensures Stored(files') == Stored(files) + Elements(f.entries)
  {
    StoredSplit(files, [], [f], files');
    forall e | e in Stored([f]) ensures e in Elements(f.entries) {}
    forall e | e in f.entries ensures e in Stored([f]) { assert f in [f]; }
  }

  lemma FlushBelow(files: seq<File>, f: File, files': seq<File>)
    requires ValidFiles(files) && SortedLevel(files) && f.Valid() && NoOverlap(files, f)
    requires B.Ascending(files') && B.FileSet(files') == B.FileSet(files) + {f}
    ensures ValidFiles(files') && SortedLevel(files')
  {
    forall g | g in B.FileSet(files') ensures g.Valid() && g.entries != [] {
      if g != f { var i :| 0 <= i < |files| && files[i] == g; }
    }
    forall i | 0 <= i < |files'| ensures files'[i].Valid() { assert files'[i] in B.FileSet(files'); }
    forall g, h | g in B.FileSet(files') && h in B.FileSet(files') && g != h ensures Disjoint(g, h) {
      if g == f {
        var i :| 0 <= i < |files| && files[i] == h;
      } else if h == f {
        var i :| 0 <= i < |files| && files[i] == g;
      } else {
        SortedLevelDisjoint(files, g, h);
      }
    }
    AscendingDisjoint(files');
  }

  lemma FlushToLevel0(files: seq<File>, f: File, files': seq<File>)
    requires ValidFiles(files) && NewestByNumber(files) && f.Valid()
    requires Newer(Elements(f.entries), Stored(files)) && forall g :: g in files ==> g.number < f.number
    requires B.Ascending(files') && B.FileSet(files') == B.FileSet(files) + {f}
    ensures ValidFiles(files') && NewestByNumber(files')
  {
    forall i | 0 <= i < |files'| ensures files'[i].Valid() {
      assert files'[i] in B.FileSet(files');
    }
    forall i, j | 0 <= i < |files'| && 0 <= j < |files'| && i != j
      ensures files'[i].number != files'[j].number
      ensures files'[i].number > files'[j].number ==> Newer(Elements(files'[i].entries), Elements(files'[j].entries))
    {
      NumbersAfterFlush(files, f, files', i, j);
    }
  }

  lemma NumbersAfterFlush(files: seq<File>, f: File, files': seq<File>, i: nat, j: nat)
    requires NewestByNumber(files) && i < |files'| && j < |files'| && i != j
    requires Newer(Elements(f.entries), Stored(files)) && forall g :: g in files ==> g.number < f.number
    requires B.Ascending(files') && B.FileSet(files') == B.FileSet(files) + {f}
    ensures files'[i].number != files'[j].number
    ensures files'[i].number > files'[j].number ==> Newer(Elements(files'[i].entries), Elements(files'[j].entries))
  {
    assert files'[i] in B.FileSet(files') && files'[j] in B.FileSet(files');
    assert B.Less(files'[i], files'[j]) || B.Less(files'[j], files'[i]);
    if files'[i] != f && files'[j] != f {
      var p :| 0 <= p < |files| && files[p] == files'[i];
      var q :| 0 <= q < |files| && files[q] == files'[j];
      assert p != q;
    } else if files'[i] == f {
      assert files'[j] in files;
      assert forall y :: y in files'[j].entries ==> y in Stored(files);
    }
  }
}
