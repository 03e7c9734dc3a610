/** A list of commands whose run loses a tombstone.

    One user key's entries are split over two files of the output level, the deletion marker last
    in the first file and an older value first in the second: a compaction under a held snapshot
    keeps both and closes its output between them.  Compacting a file whose range ends before that
    user key then takes only the first of the two, finds no deeper file, drops the marker, and the
    old value comes back. */
module LostTombstone {
  import opened Keys
  import opened Reads
  import opened Versions
  import opened CompactionInputs
  import opened CompactionPick
  import opened CompactionWork
  import opened CompactionReads
  import opened Install
  import opened StoreState
  import opened Disk
  import opened Db
  import opened Runs
  import opened Scenario
  import B = Builder

  // Tables take one byte an entry and are full with two.
  const OPTIONS := Options(es => |es|, 2, es => 0, 0)

  const FIRST_BATCH := [Op(0.0, kTypeValue, [2]), Op(1.0, kTypeValue, [3])]
  const HISTORY := [Op(0.0, kTypeValue, [2]), Op(1.0, kTypeValue, [3]), Op(1.0, kTypeDeletion, []), Op(0.0, kTypeValue, [1])]

  const COMMANDS := [
    Write(FIRST_BATCH), TakeSnapshot, Write([Op(1.0, kTypeDeletion, [])]), SwitchMemtable, CompactMemTable,
    StartRange(2, None, None), FinishCompaction, DropSnapshot(0),
    Write([Op(0.0, kTypeValue, [1])]), SwitchMemtable, CompactMemTable,
    StartRange(2, Some(0.0), Some(0.0)), FinishCompaction,
    Read(1.0, None)]

  const STALE := Entry(InternalKey(0.0, 1, kTypeValue), [2])
  const OLD := Entry(InternalKey(1.0, 2, kTypeValue), [3])
  const MARKER := Entry(InternalKey(1.0, 3, kTypeDeletion), [])
  const FRESH := Entry(InternalKey(0.0, 4, kTypeValue), [1])

  // ----- the reference -----

  lemma Listed()
    ensures |COMMANDS| == 14 && COMMANDS[0] == Write(FIRST_BATCH) && COMMANDS[1] == TakeSnapshot
    ensures COMMANDS[2] == Write([Op(1.0, kTypeDeletion, [])]) && COMMANDS[3] == SwitchMemtable && COMMANDS[4] == CompactMemTable
    ensures COMMANDS[5] == StartRange(2, None, None) && COMMANDS[6] == FinishCompaction && COMMANDS[7] == DropSnapshot(0)
    ensures COMMANDS[8] == Write([Op(0.0, kTypeValue, [1])]) && COMMANDS[9] == SwitchMemtable && COMMANDS[10] == CompactMemTable
    ensures COMMANDS[11] == StartRange(2, Some(0.0), Some(0.0)) && COMMANDS[12] == FinishCompaction && COMMANDS[13] == Read(1.0, None)
  {
  }

  lemma Histories()
    ensures [] + FIRST_BATCH == FIRST_BATCH == HISTORY[..2] && FIRST_BATCH + [Op(1.0, kTypeDeletion, [])] == HISTORY[..3]
    ensures HISTORY[..3] + [Op(0.0, kTypeValue, [1])] == HISTORY && |HISTORY| == 4
    ensures Fits(0, FIRST_BATCH) && Fits(2, [Op(1.0, kTypeDeletion, [])]) && Fits(3, [Op(0.0, kTypeValue, [1])])
  {
  }

  lemma EarlyReferences()
    ensures ReferenceAfter(COMMANDS[..3]) == ReferenceAfter(COMMANDS[..5]) == Reference(HISTORY[..3], [2])
  {
    Listed();
    Histories();
    hide COMMANDS, HISTORY, FIRST_BATCH, Fits;
    assert COMMANDS[..0] == [];
    NextReference(COMMANDS, 0);
    NextReference(COMMANDS, 1);
    NextReference(COMMANDS, 2);
    NextInternal(COMMANDS, 3);
    NextInternal(COMMANDS, 4);
  }

  lemma SnapshotReferences()
    ensures ReferenceAfter(COMMANDS[..9]) == Reference(HISTORY, [])
  {
    hide COMMANDS, HISTORY, ReferenceAfter, Fits;
    EarlyReferences();
    Listed();
    Histories();
    NextInternal(COMMANDS, 5);
    NextInternal(COMMANDS, 6);
    NextReference(COMMANDS, 7);
    assert [2][..0] + [2][1..] == [];
    NextReference(COMMANDS, 8);
  }

  lemma LateReferences()
    ensures ReferenceAfter(COMMANDS[..9]) == ReferenceAfter(COMMANDS[..11]) == ReferenceAfter(COMMANDS[..12]) == Reference(HISTORY, [])
    ensures ReferenceAfter(COMMANDS[..13]) == Reference(HISTORY, [])
  {
    hide COMMANDS, HISTORY, ReferenceAfter;
    SnapshotReferences();
    Listed();
    NextInternal(COMMANDS, 9);
    NextInternal(COMMANDS, 10);
    NextInternal(COMMANDS, 11);
    NextInternal(COMMANDS, 12);
  }

  // ----- the moments -----

  ghost predicate Follows(cs: seq<Command>, replies: seq<Reply>, moments: seq<Moment>, jobs: seq<Option<Job>>) {
    |cs| <= |COMMANDS| && cs == COMMANDS[..|cs|] && Happened(OPTIONS, cs, replies, moments, jobs)
  }

  lemma FollowsAt(cs: seq<Command>, replies: seq<Reply>, moments: seq<Moment>, jobs: seq<Option<Job>>, i: nat)
    requires Follows(cs, replies, moments, jobs) && i < |cs|
    ensures |COMMANDS| == 14 && |moments| == |cs| + 1 && |jobs| == |replies| == |cs| && Happened(OPTIONS, cs, replies, moments, jobs)
    ensures cs[i] == COMMANDS[i] && cs[..i] == COMMANDS[..i] && moments[i].Moves(OPTIONS, COMMANDS[i], moments[i + 1], jobs[i])
    ensures Stands(moments[i], ReferenceAfter(COMMANDS[..i])) && Stands(moments[i + 1], ReferenceAfter(COMMANDS[..i + 1]))
  {
    Listed();
    hide COMMANDS, Happened, ReferenceAfter, Stands, Moment.Moves;
    assert cs[..i + 1] == COMMANDS[..i + 1];
    StepAt(OPTIONS, cs, replies, moments, jobs, i);
    MoveAt(OPTIONS, cs, replies, moments, jobs, i);
  }

  function Whole(n: nat): File { File(n, 3, [STALE, MARKER, OLD]) }
  function First(n: nat): File { File(n, 2, [STALE, MARKER]) }
  function Second(n: nat): File { File(n, 1, [OLD]) }
  function Upper(n: nat): File { File(n, 1, [FRESH]) }

  ghost predicate Settled(m: Moment, at: nat) {
    m.s.st.imm.None? && m.s.base == m.s.memBase == at && m.running.None?
  }

  lemma FirstEntries()
    ensures Sorted([STALE, MARKER, OLD]) && Elements([STALE, MARKER, OLD]) == EntriesBetween(HISTORY[..3], 0, 3)
  {
    var h := HISTORY[..3];
    assert EntryOf(h, 1) == STALE && EntryOf(h, 2) == OLD && EntryOf(h, 3) == MARKER;
    var es := [STALE, MARKER, OLD];
    assert es[0] == STALE && es[1] == MARKER && es[2] == OLD;
    forall e | e in EntriesBetween(h, 0, 3) ensures e in Elements(es) {
      var i :| 0 < i <= 3 && e == EntryOf(h, i);
    }
    forall e | e in Elements(es) ensures e in EntriesBetween(h, 0, 3) {
      assert e == EntryOf(h, 1) || e == EntryOf(h, 2) || e == EntryOf(h, 3);
    }
  }

  lemma FirstWrites(cs: seq<Command>, replies: seq<Reply>, moments: seq<Moment>, jobs: seq<Option<Job>>)
    requires Follows(cs, replies, moments, jobs) && |cs| >= 5
    ensures |moments| == |cs| + 1 && Settled(moments[3], 0) && moments[3].s.st.levels == NoFiles()
  {
    hide Follows, Stands, ReferenceAfter, COMMANDS, Happened;
    Listed();
    Begins(cs, replies, moments, jobs);
    FollowsAt(cs, replies, moments, jobs, 0);
    FollowsAt(cs, replies, moments, jobs, 1);
    FollowsAt(cs, replies, moments, jobs, 2);
  }

  // The first memtable goes to level 2.
  lemma FirstFlush(cs: seq<Command>, replies: seq<Reply>, moments: seq<Moment>, jobs: seq<Option<Job>>) returns (n: nat)
    requires Follows(cs, replies, moments, jobs) && |cs| >= 5
    ensures |moments| == |cs| + 1 && Settled(moments[5], 3) && moments[5].s.st.levels == NoFiles()[2 := [Whole(n)]]
  {
    hide Follows, Stands, ReferenceAfter, COMMANDS, Happened, FlushedAs, Ordered, EntriesBetween, HISTORY, Moment.Moves, Sorted;
    Listed();
    Histories();
    EarlyReferences();
    FirstEntries();
    FirstWrites(cs, replies, moments, jobs);
    FollowsAt(cs, replies, moments, jobs, 3);
    FollowsAt(cs, replies, moments, jobs, 4);
    SwitchedAndFlushed(OPTIONS, cs, replies, moments, jobs, 3, [STALE, MARKER, OLD]);
    n := moments[4].s.next;
    EmptyLevels(NoFiles());
    NothingBelow(NoFiles()[3]);
    FlushedToLevel2(OPTIONS, NoFiles(), moments[5].s.st.levels, [STALE, MARKER, OLD], n);
  }

  lemma NothingBelow(files: seq<File>)
    requires files == []
    ensures forall b, e :: TotalFileSize(Overlapping(files, b, e)) == 0
  {
  }

  lemma Begins(cs: seq<Command>, replies: seq<Reply>, moments: seq<Moment>, jobs: seq<Option<Job>>)
    requires Follows(cs, replies, moments, jobs)
    ensures |moments| == |cs| + 1 && Settled(moments[0], 0) && moments[0].s.st.levels == NoFiles()
  {
    hide COMMANDS, Step, Stands, ReferenceAfter;
  }

  // ----- the first compaction: two outputs, the user key 1 in both -----

  lemma AtMostTwo(f: File)
    requires Sized(f, OPTIONS.tableSize, 2)
    ensures f.size == |f.entries| <= 2
  {
    PrefixSize(f.entries, 2);
  }

  lemma PrefixSize(es: seq<Entry>, n: nat)
    ensures n <= |es| ==> OPTIONS.tableSize(es[..n]) == n
  {
  }

  lemma {:induction false} FullOnes(files: seq<File>)
    requires (forall i :: 0 <= i < |files| ==> Sized(files[i], OPTIONS.tableSize, 2)) && forall i :: 0 <= i < |files| ==> files[i].size >= 2
    ensures |Flatten(files)| == 2 * |files|
  {
    if files != [] {
      AtMostTwo(files[|files| - 1]);
      FullOnes(files[..|files| - 1]);
    }
  }

  lemma {:induction false} CutAfterTwo(outputs: seq<File>, next: nat)
    requires Flatten(outputs) == [STALE, MARKER, OLD] && Numbered(outputs, next)
    requires forall i :: 0 <= i < |outputs| ==> Sized(outputs[i], OPTIONS.tableSize, 2)
    requires forall i :: 0 <= i < |outputs| - 1 ==> outputs[i].size >= 2
    ensures outputs == [First(next), Second(next + 1)]
  {
    var n := |outputs| - 1;
    var init, last := outputs[..n], outputs[n];
    FullOnes(init);
    AtMostTwo(last);
    assert |Flatten(init)| + |last.entries| == 3;
    assert n == 1 && init == [outputs[0]];
    AtMostTwo(outputs[0]);
    assert Flatten([outputs[0]]) == Flatten([]) + outputs[0].entries == outputs[0].entries;
    TwoAndOne(outputs[0].entries, last.entries);
  }

  lemma TwoAndOne(a: seq<Entry>, b: seq<Entry>)
    requires |a| == 2 && a + b == [STALE, MARKER, OLD]
    ensures a == [STALE, MARKER] && b == [OLD]
  {
    assert a == (a + b)[..2] && b == (a + b)[2..];
  }

  // Under the snapshot every entry stays.
  lemma AllKept(levels: seq<seq<File>>)
    requires Ordered(levels)
    ensures Kept(levels, 2, [STALE, MARKER, OLD], 3, 2) == [STALE, MARKER, OLD]
  {
    var input := [STALE, MARKER, OLD];
    hide Ordered, BaseLevel;
    assert !Drops(levels, 2, input, 0, 2) && !Drops(levels, 2, input, 1, 2) && !Drops(levels, 2, input, 2, 2);
    assert Kept(levels, 2, input, 0, 2) == [];
    assert Kept(levels, 2, input, 1, 2) == [STALE];
    assert Kept(levels, 2, input, 2, 2) == [STALE, MARKER];
  }

  lemma WholeFits(n: nat)
    ensures Whole(n).Valid() && Overlaps(Whole(n), None, None)
    ensures Overlapping([], Some(0.0), Some(1.0)) == [] && Stored([]) == {} && Stored([Whole(n)]) + Stored([]) == Elements([STALE, MARKER, OLD])
  {
    StoredOne(Whole(n));
  }

  lemma FirstStart(cs: seq<Command>, replies: seq<Reply>, moments: seq<Moment>, jobs: seq<Option<Job>>) returns (n: nat)
    requires Follows(cs, replies, moments, jobs) && |cs| >= 6
    ensures |moments| == |cs| + 1 && moments[6].s.st.levels == NoFiles()[2 := [Whole(n)]]
    ensures moments[6].s.st.imm.None? && moments[6].s.base == moments[6].s.memBase == 3 && moments[6].running.Some?
    ensures var r := moments[6].running.value;
            && r.base == moments[6].s.st.levels && Ordered(r.base) && r.l == 2 && r.in0 == [Whole(n)] && r.in1 == [] && r.grandparents == []
            && r.smallest == 2
  {
    hide Follows, Stands, ReferenceAfter, COMMANDS, Happened, Ordered, HISTORY, Moment.Starts, Overlapping;
    Listed();
    EarlyReferences();
    n := FirstFlush(cs, replies, moments, jobs);
    FollowsAt(cs, replies, moments, jobs, 5);
    StandsLength(moments[5], ReferenceAfter(COMMANDS[..5]));
    WholeFits(n);
    StartsWithOne(OPTIONS, moments[5], 2, None, None, moments[6], Whole(n));
  }

  function Split(n: nat): seq<seq<File>> { NoFiles()[3 := [First(n), Second(n + 1)]] }

  lemma SplitInstalled(n: nat, v: seq<seq<File>>, next: nat)
    requires Installed(NoFiles()[2 := [Whole(n)]], v, 2, [Whole(n)], [], [First(next), Second(next + 1)])
    ensures v == Split(next)
  {
    var levels := NoFiles()[2 := [Whole(n)]];
    assert B.FileSet(levels[2]) == B.FileSet([Whole(n)]) && B.FileSet(levels[3]) == {} == B.FileSet([]);
    B.EmptyList(v[2]);
    var outputs := [First(next), Second(next + 1)];
    assert B.Ascending(outputs);
    B.AscendingUnique(v[3], outputs);
    assert v == Split(next);
  }

  lemma FirstFinish(cs: seq<Command>, replies: seq<Reply>, moments: seq<Moment>, jobs: seq<Option<Job>>) returns (next: nat)
    requires Follows(cs, replies, moments, jobs) && |cs| >= 7
    ensures |moments| == |cs| + 1 && Settled(moments[7], 3) && moments[7].s.st.levels == Split(next)
  {
    hide Follows, Stands, ReferenceAfter, COMMANDS, Happened, Ordered, HISTORY, Moment.Finishes, Installed, Flatten, Kept, Sized, Numbered, Stored,
         Sorted, EntriesBetween, Job.Valid;
    Listed();
    var n := FirstStart(cs, replies, moments, jobs);
    FollowsAt(cs, replies, moments, jobs, 6);
    FirstEntries();
    WholeFits(n);
    var outputs := FinishedWith(OPTIONS, moments[6], moments[7], jobs[6], [STALE, MARKER, OLD]);
    next := moments[6].s.next;
    AllKept(moments[6].running.value.base);
    CutAfterTwo(outputs, next);
    SplitInstalled(n, moments[7].s.st.levels, next);
  }

  // ----- the second memtable -----

  lemma FreshEntry()
    ensures Sorted([FRESH]) && Elements([FRESH]) == EntriesBetween(HISTORY, 3, 4)
  {
    assert EntryOf(HISTORY, 4) == FRESH;
  }

  lemma FirstMeetsZero(n: nat)
    ensures ValidFiles([First(n), Second(n + 1)]) && Overlapping([First(n), Second(n + 1)], Some(0.0), Some(0.0)) == [First(n)]
    ensures TotalFileSize([First(n)]) == 2 && Upper(n).Valid() && Overlaps(Upper(n), Some(0.0), Some(0.0))
  {
    var files := [First(n), Second(n + 1)];
    assert files[..1] == [First(n)] && [First(n)][..0] == [];
    assert Overlapping([], Some(0.0), Some(0.0)) == [];
    assert TotalFileSize([]) == 0;
  }

  lemma SecondWrites(cs: seq<Command>, replies: seq<Reply>, moments: seq<Moment>, jobs: seq<Option<Job>>) returns (next: nat)
    requires Follows(cs, replies, moments, jobs) && |cs| >= 11
    ensures |moments| == |cs| + 1 && Settled(moments[9], 3) && moments[9].s.st.levels == Split(next)
  {
    hide Follows, Stands, ReferenceAfter, COMMANDS, Happened;
    Listed();
    next := FirstFinish(cs, replies, moments, jobs);
    FollowsAt(cs, replies, moments, jobs, 7);
    FollowsAt(cs, replies, moments, jobs, 8);
  }

  function Above(next: nat, u: nat): seq<seq<File>> { Split(next)[2 := [Upper(u)]] }

  lemma SecondFlush(cs: seq<Command>, replies: seq<Reply>, moments: seq<Moment>, jobs: seq<Option<Job>>) returns (next: nat, u: nat)
    requires Follows(cs, replies, moments, jobs) && |cs| >= 11
    ensures |moments| == |cs| + 1 && Settled(moments[11], 4) && moments[11].s.st.levels == Above(next, u)
  {
    hide Follows, Stands, ReferenceAfter, COMMANDS, Happened, FlushedAs, Ordered, EntriesBetween, HISTORY, Moment.Moves, Sorted, Overlapping, TotalFileSize;
    Listed();
    Histories();
    LateReferences();
    FreshEntry();
    next := SecondWrites(cs, replies, moments, jobs);
    FollowsAt(cs, replies, moments, jobs, 9);
    FollowsAt(cs, replies, moments, jobs, 10);
    SwitchedAndFlushed(OPTIONS, cs, replies, moments, jobs, 9, [FRESH]);
    u := moments[10].s.next;
    StandsLength(moments[9], ReferenceAfter(COMMANDS[..9]));
    FirstMeetsZero(next);
    FlushedToLevel2(OPTIONS, Split(next), moments[11].s.st.levels, [FRESH], u);
  }

  // ----- the second compaction -----

  lemma SecondStart(cs: seq<Command>, replies: seq<Reply>, moments: seq<Moment>, jobs: seq<Option<Job>>) returns (next: nat, u: nat)
    requires Follows(cs, replies, moments, jobs) && |cs| >= 12
    ensures |moments| == |cs| + 1 && moments[12].s.st.levels == Above(next, u) && Ordered(Above(next, u))
    ensures moments[12].s.st.imm.None? && moments[12].s.memBase == 4 && moments[12].running.Some?
    ensures var r := moments[12].running.value;
            r.base == Above(next, u) && r.l == 2 && r.in0 == [Upper(u)] && r.in1 == [First(next)] && r.smallest == 4
  {
    hide Follows, Stands, ReferenceAfter, COMMANDS, Happened, Ordered, HISTORY, Moment.Starts, Overlapping;
    Listed();
    Histories();
    LateReferences();
    next, u := SecondFlush(cs, replies, moments, jobs);
    FollowsAt(cs, replies, moments, jobs, 11);
    StandsLength(moments[11], ReferenceAfter(COMMANDS[..11]));
    FirstMeetsZero(next);
    FirstMeetsZero(u);
    StartsWithOne(OPTIONS, moments[11], 2, Some(0.0), Some(0.0), moments[12], Upper(u));
  }

  lemma WhatIsStored(next: nat, u: nat)
    ensures Stored([Upper(u)]) == {FRESH} && Stored([First(next)]) == {STALE, MARKER}
    ensures Stored([First(next), Second(next + 1)]) == {STALE, MARKER, OLD} && Stored([]) == {}
  {
    StoredOne(Upper(u));
    StoredOne(First(next));
    StoredOne(Second(next + 1));
    var both := [First(next), Second(next + 1)];
    assert both[0] in both && both[1] in both;
    assert Stored(both) == Stored([First(next)]) + Stored([Second(next + 1)]);
  }

  lemma FourEntries(next: nat, u: nat)
    ensures StoredIn(Above(next, u)) == {STALE, OLD, MARKER, FRESH}
  {
    WhatIsStored(next, u);
    var levels := Above(next, u);
    hide Stored;
    assert levels[2] == [Upper(u)] && levels[3] == [First(next), Second(next + 1)];
    assert forall l :: 0 <= l < kNumLevels && l != 2 && l != 3 ==> levels[l] == [];
    assert forall e :: e in {FRESH} ==> e in Stored(levels[2]);
    assert forall e :: e in {STALE, MARKER, OLD} ==> e in Stored(levels[3]);
  }

  // The memtable is empty by then.
  lemma AllStored(cs: seq<Command>, replies: seq<Reply>, moments: seq<Moment>, jobs: seq<Option<Job>>, next: nat, u: nat)
    requires Follows(cs, replies, moments, jobs) && |cs| >= 13
    requires |moments| == |cs| + 1 && moments[12].s.st.levels == Above(next, u) && moments[12].s.st.imm.None? && moments[12].s.memBase == 4
    ensures moments[12].All() == {STALE, OLD, MARKER, FRESH} && moments[12].Floor() == 4
  {
    hide Follows, Stands, ReferenceAfter, COMMANDS, Happened, HISTORY, Moment.Moves, EntriesBetween, StoredIn;
    LateReferences();
    Histories();
    FollowsAt(cs, replies, moments, jobs, 12);
    StandsLength(moments[12], ReferenceAfter(COMMANDS[..12]));
    NoneSince(HISTORY);
    MemtableIs(moments[12], ReferenceAfter(COMMANDS[..12]), []);
    FourEntries(next, u);
    assert Elements([]) == {};
  }

  lemma NoneSince(h: seq<Op>)
    ensures Sorted([]) && Elements([]) == EntriesBetween(h, |h|, |h|) == {}
  {
  }

  lemma NewestOfEach(all: set<Entry>)
    requires all == {STALE, OLD, MARKER, FRESH}
    ensures IsNewest(all, 1.0, 4, Some(MARKER))
  {
  }

  lemma UnderMarker(next: nat, levels: seq<seq<File>>)
    requires Ordered(levels) && levels[3] == [First(next), Second(next + 1)]
    ensures ValidFiles(levels[3]) && ValidFiles([First(next)]) && IsRun(levels[3], [First(next)])
    ensures ContinuationFor(levels[3], [First(next)], MARKER) == Some(OLD)
  {
    var files, first := levels[3], First(next);
    StoredOne(first);
    assert files[0..1] == [first];
    assert RunAt(files, 0, [first]);
    var lo := RunStart(files, [first]);
    assert files[lo..lo + 1][0] == first;
    assert first != Second(next + 1);
    assert lo == 0;
  }

  lemma MarkerIsObsolete(levels: seq<seq<File>>)
    requires Ordered(levels) && forall m :: 4 <= m < kNumLevels ==> levels[m] == []
    ensures ObsoleteMarker(levels, 2, MARKER, 4)
  {
    hide Ordered;
  }

  lemma AboveLevels(next: nat, u: nat)
    ensures |Above(next, u)| == kNumLevels && Above(next, u)[3] == [First(next), Second(next + 1)]
    ensures forall m :: 4 <= m < kNumLevels ==> Above(next, u)[m] == []
  {
  }

  lemma MarkerIsLost(j: Job, next: nat, u: nat)
    requires j.Valid() && j.levels == Above(next, u) && j.l == 2 && j.in0 == [Upper(u)] && j.in1 == [First(next)] && j.smallest == j.floor == 4
    requires j.Before() == {STALE, OLD, MARKER, FRESH}
    ensures j.Placed() && j.LosesTombstone(MARKER) && j.Loses(1.0)
    ensures IsNewest(j.After(), 1.0, 4, Some(OLD))
  {
    hide Ordered, GoodInputs, ContinuationFor, IsNewest, ObsoleteMarker, Stored, Job.Before, Job.After, ValidFiles, IsRun, Job.Valid, Above;
    ValidIsPlaced(j);
    AboveLevels(next, u);
    UnderMarker(next, j.levels);
    MarkerIsObsolete(j.levels);
    WhatIsStored(next, u);
    NewestOfEach(j.Before());
    MarkerRead(j, 1.0, 4, MARKER);
  }

  lemma SecondFinish(cs: seq<Command>, replies: seq<Reply>, moments: seq<Moment>, jobs: seq<Option<Job>>)
    requires Follows(cs, replies, moments, jobs) && |cs| >= 13
    ensures |moments| == |cs| + 1 && |jobs| == |cs| && jobs[12].Some? && jobs[12].value.Placed() && jobs[12].value.Loses(1.0)
    ensures IsNewest(moments[13].All(), 1.0, 4, Some(OLD))
  {
    hide Follows, Stands, ReferenceAfter, COMMANDS, Happened, Ordered, HISTORY, Job.Valid, Job.Before, Job.After, Job.Loses, Job.LosesTombstone,
         Installed, IsNewest, Above, Moment.All, Moment.Floor, Moment.Answers;
    Listed();
    var next, u := SecondStart(cs, replies, moments, jobs);
    AllStored(cs, replies, moments, jobs, next, u);
    FollowsAt(cs, replies, moments, jobs, 12);
    StepAt(OPTIONS, cs, replies, moments, jobs, 12);
    FinishedJob(OPTIONS, moments[12], moments[13], jobs[12]);
    MarkerIsLost(jobs[12].value, next, u);
  }

  lemma OldIsRead(h: seq<Op>, all: set<Entry>, v: Option<Bytes>)
    requires h == HISTORY && AllRecorded(h, all) && IsNewest(all, 1.0, 4, Some(OLD)) && ReadsAs(all, 1.0, 4, v)
    ensures v == Some([3])
  {
    var r :| IsNewest(all, 1.0, 4, r) && Outcome(r) == v;
    NewestAgree(all, 1.0, 4, r, Some(OLD));
    assert Recorded(h, r.value);
  }

  lemma DeletedKeyIsRead(replies: seq<Reply>, moments: seq<Moment>, jobs: seq<Option<Job>>)
    requires Follows(COMMANDS, replies, moments, jobs)
    ensures |replies| == |jobs| == 14 && replies[13] == Got(Some([3])) && !Lossless(jobs, 1.0)
  {
    Listed();
    hide Follows, Stands, ReferenceAfter, COMMANDS, Happened, HISTORY, IsNewest, Moment.All, Moment.Moves, Job.Loses, Job.Placed, ReadsAs, AllRecorded, Did;
    Histories();
    LateReferences();
    FollowsAt(COMMANDS, replies, moments, jobs, 13);
    StepAt(OPTIONS, COMMANDS, replies, moments, jobs, 13);
    SecondFinish(COMMANDS, replies, moments, jobs);
    StandsLength(moments[13], ReferenceAfter(COMMANDS[..13]));
    OldIsRead(HISTORY, moments[13].All(), replies[13].value);
    assert !Keeps(jobs[12], 1.0);
  }

  lemma TwoFinishes(n: nat)
    requires n < |COMMANDS| && COMMANDS[n].FinishCompaction?
    ensures n == 6 || n == 12
  {
    Listed();
    assert n == 0 || n == 1 || n == 2 || n == 3 || n == 4 || n == 5 || n == 6 || n == 7 || n == 8 || n == 9 || n == 10 || n == 11 || n == 12 || n == 13;
  }

  lemma NothingStops(replies: seq<Reply>, moments: seq<Moment>, jobs: seq<Option<Job>>, clash: Clash, n: nat)
    requires n < 14 && COMMANDS[n].FinishCompaction? && Follows(COMMANDS[..n], replies, moments, jobs) && |moments| == n + 1
    requires clash.Of(OPTIONS, moments[n])
    ensures !clash.Real()
  {
    hide Follows, COMMANDS, Clash.Of, Clash.Real;
    Listed();
    TwoFinishes(n);
    if n == 6 {
      var w := FirstStart(COMMANDS[..n], replies, moments, jobs);
    } else {
      var next, u := SecondStart(COMMANDS[..n], replies, moments, jobs);
    }
    NoClash(OPTIONS, moments[n], clash);
  }

  lemma DeletedInHistory()
    ensures ReferenceAfter(COMMANDS[..13]).Accepts(Read(1.0, None), Got(None), 1.0)
  {
    Histories();
    LateReferences();
    hide ReferenceAfter, COMMANDS;
    var h := HISTORY;
    assert HistoryRead(h, 1.0, 4) == HistoryRead(h, 1.0, 3) == None;
  }

  // The run of these commands reads a deleted key: the reference has no value for it.
  method TombstoneLost() returns (replies: seq<Reply>, ghost jobs: seq<Option<Job>>)
    ensures |replies| == |COMMANDS| && COMMANDS[13] == Read(1.0, None)
    ensures replies[13] == Got(Some([3])) && ReferenceAfter(COMMANDS[..13]).Accepts(COMMANDS[13], Got(None), 1.0)
    ensures !Lossless(jobs, 1.0)
  {
    Listed();
    hide COMMANDS, Happened, Lossless, Clash.Of, Clash.Real, Answered, ReferenceAfter, ReadsHistory, AllRecorded;
    ghost var moments, clash;
    replies, moments, jobs, clash := Run(OPTIONS, COMMANDS);
    ghost var ran := COMMANDS[..|replies|];
    RunFollows(ran, replies, moments, jobs);
    if clash.Some? {
      NothingStops(replies, moments, jobs, clash.value, |replies|);
    }
    assert ran == COMMANDS;
    DeletedKeyIsRead(replies, moments, jobs);
    DeletedInHistory();
  }

  lemma RunFollows(ran: seq<Command>, replies: seq<Reply>, moments: seq<Moment>, jobs: seq<Option<Job>>)
    requires |ran| <= |COMMANDS| && ran == COMMANDS[..|ran|] && Happened(OPTIONS, ran, replies, moments, jobs)
    ensures Follows(ran, replies, moments, jobs) && |moments| == |ran| + 1
  {
    hide COMMANDS, Step, Stands, ReferenceAfter;
  }
}
