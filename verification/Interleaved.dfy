/** A compaction under way while memtables are flushed (db/db_impl.cc, DoCompactionWork).

    The inputs and the version they were taken from stay; flushes add files to the current version.
    A flushed file meets no input, but may lie in a gap between two of them, on the output level.
    The outputs fit into the current version if and only if none of them straddles such a file;
    compactions whose inputs leave no gap always fit. */
module Interleaved {
  import opened Keys
  import opened Versions
  import opened CompactionInputs
  import opened CompactionPick
  import opened CompactionReads
  import opened Install
  import B = Builder

  // A compaction between its choice and its installation: the version it was chosen from, its level, the
  // inputs, the grandparents, smallest_snapshot, and the key the level's compaction pointer is set to.
  datatype Running = Running(base: seq<seq<File>>, l: nat, in0: seq<File>, in1: seq<File>, grandparents: seq<File>,
                             smallest: nat, manual: bool, pointer: InternalKey) {
    ghost predicate Placed() {
      Ordered(base) && l + 1 < kNumLevels && GoodInputs(base, l, in0, in1)
    }

    // What a file on level m of the current version that was not in the old one is like.
    ghost predicate NewFile(m: nat, f: File)
      requires Placed()
    {
      && f.Valid() && Newer(Elements(f.entries), StoredIn(base))
      && (m > l ==> NoOverlap(in0, f) && NoOverlap(in1, f))
    }

    ghost predicate OldStays(now: seq<seq<File>>)
      requires Placed() && |now| == kNumLevels
    {
      forall m, f :: 0 <= m < kNumLevels && f in base[m] ==> f in now[m]
    }

    ghost predicate OthersAreNew(now: seq<seq<File>>)
      requires Placed() && |now| == kNumLevels
    {
      forall m, f :: 0 <= m < kNumLevels && f in now[m] && f !in base[m] ==> NewFile(m, f)
    }

    // Flushes, and nothing else, lie between the old version and the current one.
    ghost predicate StillFits(now: seq<seq<File>>) {
      && Placed() && |now| == kNumLevels && OldStays(now) && OthersAreNew(now)
      && (!manual ==> NoGap(in0, in1))
    }

    // No output reaches over a file flushed to its level meanwhile.
    ghost predicate Clear(now: seq<seq<File>>, outputs: seq<File>)
      requires Placed() && |now| == kNumLevels && ValidFiles(outputs)
    {
      forall f, i :: f in now[l + 1] && f !in base[l + 1] && f.Valid() && 0 <= i < |outputs| ==> !Straddles(outputs[i], f)
    }
  }

  // o begins before f and ends after it.
  predicate Straddles(o: File, f: File)
    requires o.entries != [] && f.entries != []
  {
    o.Smallest().user < f.Smallest().user && f.Largest().user < o.Largest().user
  }

  // ----- flushes keep a compaction fit -----

  lemma StartsFit(r: Running)
    requires r.Placed() && (!r.manual ==> NoGap(r.in0, r.in1))
    ensures r.StillFits(r.base)
  {
    hide GoodInputs, Gapless, NoGap;
  }

  lemma FlushFits(r: Running, now: seq<seq<File>>, v: seq<seq<File>>, m: nat, f: File)
    requires r.StillFits(now) && Ordered(now) && m < kNumLevels && f.Valid() && Flushed(now, v, m, f)
    requires Newer(Elements(f.entries), StoredIn(now))
    requires m > 0 ==> forall k :: 0 <= k <= m ==> NoOverlap(now[k], f)
    ensures r.StillFits(v)
  {
    hide Ordered, GoodInputs, Newer, NoOverlap, Gapless, NoGap, Running.OthersAreNew;
    BaseLevels(r);
    LevelsAfterFlush(now, v, m, f);
    OldStored(r, now);
    NewerSubset(Elements(f.entries), StoredIn(now), Elements(f.entries), StoredIn(r.base));
    if m > r.l { BesideInputs(r, now, f); }
    forall k, g | 0 <= k < kNumLevels && g in v[k] && g !in r.base[k] ensures r.NewFile(k, g) {
      if k != m || g != f { AlreadyNew(r, now, k, g); }
    }
    NewOnes(r, v);
  }

  lemma BaseLevels(r: Running)
    requires r.Placed()
    ensures |r.base| == kNumLevels && r.in0 != [] && ValidFiles(r.in0) && ValidFiles(r.in1)
    ensures forall m :: 0 <= m < kNumLevels ==> ValidFiles(r.base[m])
  {
  }

  lemma LevelsAfterFlush(now: seq<seq<File>>, v: seq<seq<File>>, m: nat, f: File)
    requires |now| == kNumLevels && m < kNumLevels && Flushed(now, v, m, f)
    ensures |v| == kNumLevels
    ensures forall k, g :: 0 <= k < kNumLevels && g in now[k] ==> g in v[k]
    ensures forall k, g :: 0 <= k < kNumLevels && g in v[k] ==> g in now[k] || (k == m && g == f)
  {
    forall g | g in v[m] ensures g in now[m] || g == f { assert g in B.FileSet(v[m]); }
    forall g | g in now[m] ensures g in v[m] { assert g in B.FileSet(v[m]); }
  }

  lemma AlreadyNew(r: Running, now: seq<seq<File>>, k: nat, g: File)
    requires r.StillFits(now) && k < kNumLevels && g in now[k] && g !in r.base[k]
    ensures r.NewFile(k, g)
  {
    hide Ordered, GoodInputs, Gapless, NoGap, Running.NewFile;
  }

  lemma NewOnes(r: Running, v: seq<seq<File>>)
    requires r.Placed() && |v| == kNumLevels && forall k, g :: 0 <= k < kNumLevels && g in v[k] && g !in r.base[k] ==> r.NewFile(k, g)
    ensures r.OthersAreNew(v)
  {
    hide Ordered, GoodInputs, Running.NewFile;
  }

  lemma OldStored(r: Running, now: seq<seq<File>>)
    requires r.Placed() && |now| == kNumLevels && r.OldStays(now)
    ensures StoredIn(r.base) <= StoredIn(now)
  {
    hide GoodInputs;
    forall e | e in StoredIn(r.base) ensures e in StoredIn(now) {
      var m :| 0 <= m < |r.base| && e in Stored(r.base[m]);
      var f :| f in r.base[m] && e in f.entries;
      assert e in Stored(now[m]);
    }
  }

  // The inputs are files of the current version.
  lemma InputsStay(r: Running, now: seq<seq<File>>)
    requires r.Placed() && |now| == kNumLevels && r.OldStays(now)
    ensures ValidFiles(r.in0) && ValidFiles(r.in1)
    ensures forall f :: f in r.in0 ==> f in r.base[r.l] && f in now[r.l]
    ensures forall f :: f in r.in1 ==> f in r.base[r.l + 1] && f in now[r.l + 1]
  {
    hide Ordered, SortedLevel, NewerStays, Apart, Separated, NoRepeats;
    InputsStored(r.base, r.l, r.in0, r.in1);
  }

  lemma BesideInputs(r: Running, now: seq<seq<File>>, f: File)
    requires r.StillFits(now) && Ordered(now) && f.Valid()
    requires NoOverlap(now[r.l], f) && NoOverlap(now[r.l + 1], f)
    ensures NoOverlap(r.in0, f) && NoOverlap(r.in1, f)
  {
    InputsStay(r, now);
    hide GoodInputs, Gapless, NoGap, Running.OthersAreNew, Running.OldStays, SortedLevel, NewestByNumber, Newer;
    BesideSome(now[r.l], r.in0, f);
    BesideSome(now[r.l + 1], r.in1, f);
  }

  lemma BesideSome(files: seq<File>, some: seq<File>, f: File)
    requires ValidFiles(files) && ValidFiles(some) && f.Valid() && NoOverlap(files, f) && forall g :: g in some ==> g in files
    ensures NoOverlap(some, f)
  {
    forall i | 0 <= i < |some| ensures f.Largest().user < some[i].Smallest().user || some[i].Largest().user < f.Smallest().user {
      assert some[i] in files;
      var k :| 0 <= k < |files| && files[k] == some[i];
    }
  }

  // ----- installing the outputs -----

  // Every entry of an output lies beside a file that meets no input.
  lemma OutputBeside(r: Running, o: File, f: File, e: Entry)
    requires r.Placed() && f.Valid() && NoOverlap(r.in0, f) && NoOverlap(r.in1, f) && MadeOf(o, r.in0, r.in1) && e in o.entries
    ensures e.key.user < f.Smallest().user || f.Largest().user < e.key.user
  {
    BaseLevels(r);
    hide Running.Placed;
    if e in Stored(r.in0) { EntryBeside(r.in0, f, e); } else { EntryBeside(r.in1, f, e); }
  }

  lemma EntryBeside(files: seq<File>, f: File, e: Entry)
    requires ValidFiles(files) && f.Valid() && NoOverlap(files, f) && e in Stored(files)
    ensures e.key.user < f.Smallest().user || f.Largest().user < e.key.user
  {
    var g :| g in files && e in g.entries;
    var i :| 0 <= i < |files| && files[i] == g;
    EntryInRange(g, e);
  }

  // An output and a flushed file are apart exactly when the output does not straddle it.
  lemma ApartOrStraddles(r: Running, o: File, f: File)
    requires r.Placed() && f.Valid() && NoOverlap(r.in0, f) && NoOverlap(r.in1, f) && MadeOf(o, r.in0, r.in1)
    ensures Disjoint(o, f) <==> !Straddles(o, f)
  {
    hide Running.Placed, NoOverlap, Sorted, AllParse, InternalKey.Before, InternalKey.AtMost;
    OutputBeside(r, o, f, o.entries[0]);
    OutputBeside(r, o, f, o.entries[|o.entries| - 1]);
    SmallestAtMostLargest(o);
    SmallestAtMostLargest(f);
    KeysApart(o.Smallest(), o.Largest(), f.Smallest(), f.Largest());
  }

  lemma KeysApart(os: InternalKey, ol: InternalKey, fs: InternalKey, fl: InternalKey)
    requires os.AtMost(ol) && fs.AtMost(fl)
    requires (os.user < fs.user || fl.user < os.user) && (ol.user < fs.user || fl.user < ol.user)
    ensures ol.Before(fs) || fl.Before(os) <==> !(os.user < fs.user && fl.user < ol.user)
  {
  }

  // Where a file of the new version comes from.
  ghost predicate Output(r: Running, outputs: seq<File>, m: nat, f: File) { m == r.l + 1 && f in outputs }

  ghost predicate Left(r: Running, now: seq<seq<File>>, m: nat, f: File)
    requires |now| == kNumLevels && m < kNumLevels
  {
    f in now[m] && !(m == r.l && f in r.in0) && !(m == r.l + 1 && f in r.in1)
  }

  lemma WhereFrom(r: Running, now: seq<seq<File>>, v: seq<seq<File>>, outputs: seq<File>)
    requires |now| == kNumLevels && r.l + 1 < kNumLevels && Installed(now, v, r.l, r.in0, r.in1, outputs)
    ensures forall m, f :: 0 <= m < kNumLevels && f in v[m] ==> Output(r, outputs, m, f) || Left(r, now, m, f)
    ensures forall m, f :: 0 <= m < kNumLevels && (Output(r, outputs, m, f) || Left(r, now, m, f)) ==> f in v[m]
  {
    forall m, f | 0 <= m < kNumLevels && f in v[m] ensures Output(r, outputs, m, f) || Left(r, now, m, f) {
      assert f in B.FileSet(v[m]);
    }
    forall m, f | 0 <= m < kNumLevels && (Output(r, outputs, m, f) || Left(r, now, m, f)) ensures f in v[m] {
      assert f in B.FileSet(v[m]);
    }
  }

  // An entry left on level m, older than an output's entry for the same user key, is on a deeper level than the output.
  lemma OutputBeforeLeft(r: Running, now: seq<seq<File>>, m: nat, f: File, x: Entry, y: Entry)
    requires r.StillFits(now) && Ordered(now) && r.l + 1 < m < kNumLevels && f in now[m] && y in f.entries
    requires x in Stored(r.in0) + Stored(r.in1) && x.key.user == y.key.user
    ensures x.key.Tag() > y.key.Tag()
  {
    hide GoodInputs, Gapless, NoGap, Running.OthersAreNew, SortedLevel, NewestByNumber, Newer, NoOverlap;
    BaseLevels(r);
    if f in r.base[m] {
      assert y in Stored(r.base[m]);
      InputsStored(r.base, r.l, r.in0, r.in1);
      ShallowerIsNewer(r.base, if x in Stored(r.in0) then r.l else r.l + 1, m, x, y);
    } else {
      AlreadyNew(r, now, m, f);
      EntryInRange(f, y);
      if x in Stored(r.in0) { EntryBeside(r.in0, f, x); } else { EntryBeside(r.in1, f, x); }
    }
  }

  // An entry left on a level not below the inputs' is newer than an input's for the same user key.
  lemma LeftBeforeOutput(r: Running, now: seq<seq<File>>, m: nat, f: File, x: Entry, y: Entry)
    requires r.StillFits(now) && m <= r.l && Left(r, now, m, f) && x in f.entries
    requires y in Stored(r.in0) + Stored(r.in1) && x.key.user == y.key.user
    ensures x.key.Tag() > y.key.Tag()
  {
    hide Ordered, GoodInputs, Gapless, NoGap, Running.OldStays, Running.OthersAreNew;
    BaseLevels(r);
    if f in r.base[m] { OldBeforeInput(r, m, f, x, y); } else { NewBeforeInput(r, now, m, f, x, y); }
  }

  lemma OldBeforeInput(r: Running, m: nat, f: File, x: Entry, y: Entry)
    requires r.Placed() && m <= r.l && |r.base| == kNumLevels && f in r.base[m] && !(m == r.l && f in r.in0) && x in f.entries
    requires y in Stored(r.in0) + Stored(r.in1) && x.key.user == y.key.user
    ensures x.key.Tag() > y.key.Tag()
  {
    hide Ordered, GoodInputs;
    InputsStored(r.base, r.l, r.in0, r.in1);
    assert x in Stored(r.base[m]);
    if m == r.l && y in Stored(r.in0) {
      LeftBehindIsNewer(r.base, r.l, r.in0, r.in1, f);
      NewerThan(Elements(f.entries), Stored(r.in0), x, y);
    } else {
      ShallowerIsNewer(r.base, m, if y in Stored(r.in0) then r.l else r.l + 1, x, y);
    }
  }

  lemma NewBeforeInput(r: Running, now: seq<seq<File>>, m: nat, f: File, x: Entry, y: Entry)
    requires r.StillFits(now) && m < kNumLevels && f in now[m] && f !in r.base[m] && x in f.entries
    requires y in Stored(r.in0) + Stored(r.in1) && x.key.user == y.key.user
    ensures x.key.Tag() > y.key.Tag()
  {
    hide Ordered, GoodInputs, Gapless, NoGap, Running.OldStays, Running.OthersAreNew, Newer, NoOverlap;
    BaseLevels(r);
    InputsStored(r.base, r.l, r.in0, r.in1);
    AlreadyNew(r, now, m, f);
    assert y in StoredIn(r.base) by {
      if y in Stored(r.in0) { assert y in Stored(r.base[r.l]); } else { assert y in Stored(r.base[r.l + 1]); }
    }
    NewerThan(Elements(f.entries), StoredIn(r.base), x, y);
  }

  lemma NewerThan(a: set<Entry>, b: set<Entry>, x: Entry, y: Entry)
    requires Newer(a, b) && x in a && y in b && x.key.user == y.key.user
    ensures x.key.Tag() > y.key.Tag()
  {
  }

  lemma OutputsOfInputs(r: Running, outputs: seq<File>, o: File, e: Entry)
    requires AllMadeOf(outputs, r.in0, r.in1) && o in outputs && e in o.entries
    ensures e in Stored(r.in0) + Stored(r.in1)
  {
    var i :| 0 <= i < |outputs| && outputs[i] == o;
    assert MadeOf(outputs[i], r.in0, r.in1);
  }

  // Order between two levels of the new version.
  lemma LevelsOrdered(r: Running, now: seq<seq<File>>, v: seq<seq<File>>, outputs: seq<File>, a: nat, b: nat)
    requires r.StillFits(now) && Ordered(now) && Installed(now, v, r.l, r.in0, r.in1, outputs) && AllMadeOf(outputs, r.in0, r.in1)
    requires a < b < kNumLevels
    ensures Newer(Stored(v[a]), Stored(v[b]))
  {
    WhereFrom(r, now, v, outputs);
    hide Ordered, Running.StillFits, Installed, AllMadeOf, Newer;
    forall x, y | x in Stored(v[a]) && y in Stored(v[b]) && x.key.user == y.key.user ensures x.key.Tag() > y.key.Tag() {
      var f :| f in v[a] && x in f.entries;
      var g :| g in v[b] && y in g.entries;
      if Output(r, outputs, a, f) {
        OutputsOfInputs(r, outputs, f, x);
        OutputBeforeLeft(r, now, b, g, x, y);
      } else if Output(r, outputs, b, g) {
        OutputsOfInputs(r, outputs, g, y);
        LeftBeforeOutput(r, now, a, f, x, y);
      } else {
        assert x in Stored(now[a]) && y in Stored(now[b]);
        ShallowerIsNewer(now, a, b, x, y);
      }
    }
    AllNewer(Stored(v[a]), Stored(v[b]));
  }

  lemma AllNewer(a: set<Entry>, b: set<Entry>)
    requires forall x, y :: x in a && y in b && x.key.user == y.key.user ==> x.key.Tag() > y.key.Tag()
    ensures Newer(a, b)
  {
  }

  // Two files of the new output level, one an output.
  lemma OutputAndLeft(r: Running, now: seq<seq<File>>, outputs: seq<File>, o: File, f: File)
    requires r.StillFits(now) && AllMadeOf(outputs, r.in0, r.in1) && ValidFiles(outputs) && o in outputs && o.Valid()
    requires Left(r, now, r.l + 1, f) && f.Valid()
    ensures f in r.base[r.l + 1] ==> Disjoint(o, f)
    ensures f !in r.base[r.l + 1] ==> (Disjoint(o, f) <==> !Straddles(o, f))
  {
    hide Ordered, GoodInputs, NoGap, Running.OldStays, Running.OthersAreNew, Disjoint, Straddles, NoOverlap, MadeOf, File.Valid;
    BaseLevels(r);
    OneMadeOf(outputs, r.in0, r.in1, o);
    if f in r.base[r.l + 1] {
      OutputAndOld(r, o, f);
    } else {
      AlreadyNew(r, now, r.l + 1, f);
      ApartOrStraddles(r, o, f);
    }
  }

  lemma OneMadeOf(outputs: seq<File>, in0: seq<File>, in1: seq<File>, o: File)
    requires AllMadeOf(outputs, in0, in1) && o in outputs
    ensures MadeOf(o, in0, in1)
  {
  }

  lemma OutputAndOld(r: Running, o: File, f: File)
    requires r.Placed() && MadeOf(o, r.in0, r.in1) && f.Valid() && o.Valid() && |r.base| == kNumLevels && f in r.base[r.l + 1] && f !in r.in1
    ensures Disjoint(o, f)
  {
    hide MadeOf, Disjoint, ClearOf, SortedLevel, Newer, NewestByNumber, IsRun, NewerStays, Separated;
    ApartFile(r.base[r.l + 1], r.in0, r.in1, f);
    ClearOfOutputs(f, r.in0, r.in1, o);
    DisjointBoth(f, o);
  }

  lemma DisjointBoth(f: File, g: File)
    requires f.entries != [] && g.entries != []
    ensures Disjoint(f, g) <==> Disjoint(g, f)
  {
  }

  lemma NewFilesValid(r: Running, now: seq<seq<File>>, v: seq<seq<File>>, outputs: seq<File>)
    requires Ordered(now) && r.l + 1 < kNumLevels && Installed(now, v, r.l, r.in0, r.in1, outputs) && ValidFiles(outputs)
    ensures |v| == kNumLevels && ValidFiles(v[r.l + 1]) && B.Ascending(v[r.l + 1])
    ensures forall f :: f in v[r.l + 1] ==> f.Valid()
  {
    WhereFrom(r, now, v, outputs);
    var files := v[r.l + 1];
    forall f | f in files ensures f.Valid() {
      if f in outputs {
        var i :| 0 <= i < |outputs| && outputs[i] == f;
      } else {
        var i :| 0 <= i < |now[r.l + 1]| && now[r.l + 1][i] == f;
      }
    }
    assert forall i :: 0 <= i < |files| ==> files[i] in files;
  }

  lemma OutputLevelSorted(r: Running, now: seq<seq<File>>, v: seq<seq<File>>, outputs: seq<File>)
    requires r.StillFits(now) && Ordered(now) && Installed(now, v, r.l, r.in0, r.in1, outputs)
    requires AllMadeOf(outputs, r.in0, r.in1) && ValidFiles(outputs) && SortedLevel(outputs) && r.Clear(now, outputs)
    ensures ValidFiles(v[r.l + 1]) && SortedLevel(v[r.l + 1])
  {
    BaseLevels(r);
    NewFilesValid(r, now, v, outputs);
    WhereFrom(r, now, v, outputs);
    OneLevelSorted(now, r.l);
    var files := v[r.l + 1];
    hide Running.StillFits, Running.Placed, Ordered, Installed, AllMadeOf, Disjoint, Straddles, SortedLevel, ValidFiles, File.Valid, B.Ascending;
    FilesNonEmpty(files);
    forall f, g | f in B.FileSet(files) && g in B.FileSet(files) && f != g ensures Disjoint(f, g) {
      if f in outputs && g in outputs {
        SortedLevelDisjoint(outputs, f, g);
      } else if f in outputs {
        OutputAndLeft(r, now, outputs, f, g);
        NotStraddled(r, now, outputs, f, g);
      } else if g in outputs {
        OutputAndLeft(r, now, outputs, g, f);
        NotStraddled(r, now, outputs, g, f);
        DisjointBoth(f, g);
      } else {
        SortedLevelDisjoint(now[r.l + 1], f, g);
      }
    }
    AscendingDisjoint(files);
  }

  lemma FilesNonEmpty(files: seq<File>)
    requires forall f :: f in files ==> f.Valid()
    ensures forall f :: f in files ==> f.entries != []
  {
  }

  lemma OneLevelSorted(now: seq<seq<File>>, l: nat)
    requires Ordered(now) && l + 1 < kNumLevels
    ensures |now| == kNumLevels && ValidFiles(now[l]) && ValidFiles(now[l + 1]) && SortedLevel(now[l + 1])
    ensures if l == 0 then NewestByNumber(now[0]) else SortedLevel(now[l])
  {
  }

  lemma NotStraddled(r: Running, now: seq<seq<File>>, outputs: seq<File>, o: File, f: File)
    requires r.Placed() && |now| == kNumLevels && ValidFiles(outputs) && r.Clear(now, outputs)
    requires o in outputs && o.entries != [] && f.Valid() && f in now[r.l + 1]
    ensures f !in r.base[r.l + 1] ==> !Straddles(o, f)
  {
    hide Ordered, GoodInputs, Straddles;
    var i :| 0 <= i < |outputs| && outputs[i] == o;
  }

  // The outputs of a compaction that was under way while memtables were flushed may be installed into the
  // current version if and only if none of them straddles a file flushed to their level meanwhile.
  lemma FitsExactlyWhenClear(r: Running, now: seq<seq<File>>, v: seq<seq<File>>, outputs: seq<File>)
    requires r.StillFits(now) && Ordered(now) && Installed(now, v, r.l, r.in0, r.in1, outputs)
    requires AllMadeOf(outputs, r.in0, r.in1) && ValidFiles(outputs) && SortedLevel(outputs)
    ensures Ordered(v) <==> r.Clear(now, outputs)
  {
    hide Newer, SortedLevel, NewestByNumber, ValidFiles, Running.OldStays, Running.OthersAreNew, GoodInputs, NoGap, Running.Clear, AllMadeOf, Installed;
    BaseLevels(r);
    AllLevelsValid(r, now, v, outputs);
    OthersSame(now, v, r, outputs);
    if r.Clear(now, outputs) {
      OutputLevelSorted(r, now, v, outputs);
      InputLevelShrinks(r, now, v, outputs);
      forall a, b | 0 <= a < b < kNumLevels ensures Newer(Stored(v[a]), Stored(v[b])) {
        LevelsOrdered(r, now, v, outputs, a, b);
      }
    } else {
      StraddledIsUnsorted(r, now, v, outputs);
    }
  }

  lemma OthersSame(now: seq<seq<File>>, v: seq<seq<File>>, r: Running, outputs: seq<File>)
    requires |now| == kNumLevels && r.l + 1 < kNumLevels && Installed(now, v, r.l, r.in0, r.in1, outputs)
    ensures |v| == kNumLevels && forall m :: 0 <= m < kNumLevels && m != r.l && m != r.l + 1 ==> v[m] == now[m]
  {
  }

  lemma InputLevelShrinks(r: Running, now: seq<seq<File>>, v: seq<seq<File>>, outputs: seq<File>)
    requires Ordered(now) && r.l + 1 < kNumLevels && Installed(now, v, r.l, r.in0, r.in1, outputs)
    ensures ValidFiles(v[r.l]) && if r.l == 0 then NewestByNumber(v[0]) else SortedLevel(v[r.l])
  {
    OneLevelSorted(now, r.l);
    hide Ordered;
    ShrunkLevel(now[r.l], v[r.l]);
  }

  lemma StraddledIsUnsorted(r: Running, now: seq<seq<File>>, v: seq<seq<File>>, outputs: seq<File>)
    requires r.StillFits(now) && Ordered(now) && Installed(now, v, r.l, r.in0, r.in1, outputs)
    requires AllMadeOf(outputs, r.in0, r.in1) && ValidFiles(outputs) && !r.Clear(now, outputs)
    ensures |v| == kNumLevels && !(ValidFiles(v[r.l + 1]) && SortedLevel(v[r.l + 1]))
  {
    BaseLevels(r);
    NewFilesValid(r, now, v, outputs);
    WhereFrom(r, now, v, outputs);
    InputsStay(r, now);
    var f, i :| f in now[r.l + 1] && f !in r.base[r.l + 1] && f.Valid() && 0 <= i < |outputs| && Straddles(outputs[i], f);
    var o := outputs[i];
    assert Left(r, now, r.l + 1, f) && Output(r, outputs, r.l + 1, o);
    OutputAndLeft(r, now, outputs, o, f);
    hide Running.StillFits, Running.Placed, Ordered, Installed, AllMadeOf;
    assert o != f;
    if ValidFiles(v[r.l + 1]) && SortedLevel(v[r.l + 1]) {
      hide SortedLevel, ValidFiles, Disjoint, Straddles;
      SortedLevelDisjoint(v[r.l + 1], o, f);
      assert false;
    }
  }

  // Inputs without a gap leave no room for a flushed file between them.
  lemma GaplessIsClear(r: Running, now: seq<seq<File>>, outputs: seq<File>)
    requires r.StillFits(now) && AllMadeOf(outputs, r.in0, r.in1) && ValidFiles(outputs) && NoGap(r.in0, r.in1)
    ensures r.Clear(now, outputs)
  {
    BaseLevels(r);
    hide Ordered, GoodInputs, Running.OldStays, Gapless, NoGap, Running.OthersAreNew;
    forall f, i | f in now[r.l + 1] && f !in r.base[r.l + 1] && f.Valid() && 0 <= i < |outputs| ensures !Straddles(outputs[i], f) {
      AlreadyNew(r, now, r.l + 1, f);
      assert MadeOf(outputs[i], r.in0, r.in1);
      SideOfAll(r.in0, r.in1, f);
      SameSide(r.in0 + r.in1, r.in0, r.in1, outputs[i], f);
    }
  }

  lemma SideOfAll(in0: seq<File>, in1: seq<File>, f: File)
    requires ValidFiles(in0) && ValidFiles(in1) && NoGap(in0, in1) && f.Valid() && NoOverlap(in0, f) && NoOverlap(in1, f)
    ensures OneSide(in0 + in1, f.Smallest().user, f.Largest().user)
  {
    SmallestAtMostLargest(f);
    var all := in0 + in1;
    forall i | 0 <= i < |all| ensures Misses(all[i], f.Smallest().user, f.Largest().user) {
      assert all[i] == if i < |in0| then in0[i] else in1[i - |in0|];
    }
    assert AllMiss(all, f.Smallest().user, f.Largest().user);
  }

  lemma SameSide(all: seq<File>, in0: seq<File>, in1: seq<File>, o: File, f: File)
    requires ValidFiles(in0) && ValidFiles(in1) && all == in0 + in1 && f.Valid() && MadeOf(o, in0, in1)
    requires OneSide(all, f.Smallest().user, f.Largest().user)
    ensures !Straddles(o, f)
  {
    InputOf(all, in0, in1, o.entries[0]);
    InputOf(all, in0, in1, o.entries[|o.entries| - 1]);
  }

  lemma InputOf(all: seq<File>, in0: seq<File>, in1: seq<File>, e: Entry)
    requires ValidFiles(in0) && ValidFiles(in1) && all == in0 + in1 && e in Stored(in0) + Stored(in1)
    ensures exists i :: 0 <= i < |all| && all[i].Smallest().user <= e.key.user <= all[i].Largest().user
  {
    var i: nat;
    if e in Stored(in0) {
      i :| 0 <= i < |in0| && e in in0[i].entries;
    } else {
      var k :| 0 <= k < |in1| && e in in1[k].entries;
      i := |in0| + k;
    }
    EntryInRange(all[i], e);
  }

  lemma AllLevelsValid(r: Running, now: seq<seq<File>>, v: seq<seq<File>>, outputs: seq<File>)
    requires Ordered(now) && r.l + 1 < kNumLevels && Installed(now, v, r.l, r.in0, r.in1, outputs) && ValidFiles(outputs)
    ensures |v| == kNumLevels && forall m :: 0 <= m < kNumLevels ==> ValidFiles(v[m])
  {
    NewFilesValid(r, now, v, outputs);
    InputLevelShrinks(r, now, v, outputs);
    assert forall m :: 0 <= m < kNumLevels && m != r.l && m != r.l + 1 ==> v[m] == now[m] && ValidFiles(now[m]);
  }

  // Whether all levels above 0 are sorted decides whether the version is in order.
  lemma SortedExactlyWhenClear(r: Running, now: seq<seq<File>>, v: seq<seq<File>>, outputs: seq<File>)
    requires r.StillFits(now) && Ordered(now) && Installed(now, v, r.l, r.in0, r.in1, outputs)
    requires AllMadeOf(outputs, r.in0, r.in1) && ValidFiles(outputs) && SortedLevel(outputs)
    requires |v| == kNumLevels && forall m :: 0 <= m < kNumLevels ==> ValidFiles(v[m])
    ensures (forall m :: 1 <= m < kNumLevels ==> SortedLevel(v[m])) <==> r.Clear(now, outputs)
  {
    hide ValidFiles, SortedLevel, NewestByNumber, Newer, AllMadeOf, Installed, NoGap, Running.OldStays, Running.OthersAreNew, Running.Clear, GoodInputs;
    if r.Clear(now, outputs) {
      FitsExactlyWhenClear(r, now, v, outputs);
    } else {
      StraddledIsUnsorted(r, now, v, outputs);
    }
  }
}
