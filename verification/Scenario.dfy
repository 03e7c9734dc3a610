/** What the moments of a run (module Runs) must be like: facts for following a given list of commands. */
module Scenario {
  import opened Keys
  import opened Reads
  import opened Versions
  import opened CompactionInputs
  import opened CompactionPick
  import opened CompactionWork
  import opened CompactionReads
  import opened Install
  import opened Interleaved
  import opened Edits
  import opened StoreState
  import opened Disk
  import opened Durability
  import opened Db
  import opened Runs
  import B = Builder

  // ----- moments -----

  lemma NextReference(cs: seq<Command>, i: nat)
    requires i < |cs|
    ensures ReferenceAfter(cs[..i + 1]) == ReferenceAfter(cs[..i]).Next(cs[i])
  {
    assert cs[..i + 1][..i] == cs[..i];
  }

  lemma NextInternal(cs: seq<Command>, i: nat)
    requires i < |cs| && (cs[i].SwitchMemtable? || cs[i].CompactMemTable? || cs[i].StartRange? || cs[i].FinishCompaction? || cs[i].Read?)
    ensures ReferenceAfter(cs[..i + 1]) == ReferenceAfter(cs[..i])
  {
    hide ReferenceAfter;
    NextReference(cs, i);
  }

  // One command of a run.
  lemma StepAt(o: Options, cs: seq<Command>, replies: seq<Reply>, moments: seq<Moment>, jobs: seq<Option<Job>>, i: nat)
    requires Happened(o, cs, replies, moments, jobs) && i < |cs|
    ensures |moments| == |cs| + 1 && |jobs| == |replies| == |cs| && Step(o, moments[i], cs[i], replies[i], moments[i + 1], jobs[i])
    ensures Stands(moments[i], ReferenceAfter(cs[..i])) && Stands(moments[i + 1], ReferenceAfter(cs[..i + 1]))
  {
    hide Step, Stands, Beginning, ReferenceAfter;
  }

  lemma MoveAt(o: Options, cs: seq<Command>, replies: seq<Reply>, moments: seq<Moment>, jobs: seq<Option<Job>>, i: nat)
    requires Happened(o, cs, replies, moments, jobs) && i < |cs|
    ensures |moments| == |cs| + 1 && |jobs| == |replies| == |cs| && moments[i].Moves(o, cs[i], moments[i + 1], jobs[i])
  {
    StepAt(o, cs, replies, moments, jobs, i);
    hide Happened, Stands, Did, Moment.Moves, Moment.Answers;
  }

  // The memtable holds the operations since memBase.
  lemma MemtableIs(m: Moment, r: Reference, es: seq<Entry>)
    requires Stands(m, r) && m.s.memBase <= |r.h| && Sorted(es) && Elements(es) == EntriesBetween(r.h, m.s.memBase, |r.h|)
    ensures m.s.st.mem == es
  {
    hide Durable, Ordered, Newer, AllAscending, AllRecorded, ValidHistory, DbState.LogsFit, EntriesBetween;
    SortedUnique(m.s.st.mem, es);
  }

  // A memtable is switched and flushed.
  lemma SwitchedAndFlushed(o: Options, cs: seq<Command>, replies: seq<Reply>, moments: seq<Moment>, jobs: seq<Option<Job>>, i: nat, es: seq<Entry>)
    requires Happened(o, cs, replies, moments, jobs) && i + 1 < |cs| && cs[i].SwitchMemtable? && cs[i + 1].CompactMemTable?
    requires |moments| == |cs| + 1 && moments[i].s.st.imm.None?
    requires var h := ReferenceAfter(cs[..i]).h;
             moments[i].s.memBase <= |h| && Sorted(es) && Elements(es) == EntriesBetween(h, moments[i].s.memBase, |h|)
    ensures FlushedAs(o, moments[i].s.st.levels, moments[i + 2].s.st.levels, es, moments[i + 1].s.next)
    ensures moments[i + 2].s.st.imm.None? && moments[i + 2].running == moments[i].running
    ensures moments[i + 2].s.base == moments[i + 2].s.memBase == |ReferenceAfter(cs[..i]).h|
  {
    hide Happened, ReferenceAfter, Did, FlushedAs, Sorted, Stands, Step, Moment.Moves, EntriesBetween;
    StepAt(o, cs, replies, moments, jobs, i);
    MoveAt(o, cs, replies, moments, jobs, i);
    MoveAt(o, cs, replies, moments, jobs, i + 1);
    MemtableIs(moments[i], ReferenceAfter(cs[..i]), es);
    StandsHistory(moments[i], ReferenceAfter(cs[..i]));
    SwitchThenFlush(o, moments[i], cs[i], moments[i + 1], jobs[i], cs[i + 1], moments[i + 2], jobs[i + 1]);
  }

  lemma StandsHistory(m: Moment, r: Reference)
    requires Stands(m, r)
    ensures m.s.h == r.h
  {
  }

  lemma SwitchThenFlush(o: Options, a: Moment, c: Command, b: Moment, job: Option<Job>, c': Command, b': Moment, job': Option<Job>)
    requires c.SwitchMemtable? && c'.CompactMemTable? && a.s.st.imm.None? && a.Moves(o, c, b, job) && b.Moves(o, c', b', job')
    ensures FlushedAs(o, a.s.st.levels, b'.s.st.levels, a.s.st.mem, b.s.next) && b'.s.st.imm.None? && b'.running == a.running
    ensures b'.s.base == b'.s.memBase == |a.s.h|
  {
    hide FlushedAs;
  }

  // One operation is written, the memtable switched and flushed.
  lemma WrittenAndFlushed(o: Options, cs: seq<Command>, replies: seq<Reply>, moments: seq<Moment>, jobs: seq<Option<Job>>, i: nat,
                          h: seq<Op>, op: Op)
    requires Happened(o, cs, replies, moments, jobs) && i + 2 < |cs|
    requires cs[i] == Write([op]) && cs[i + 1].SwitchMemtable? && cs[i + 2].CompactMemTable?
    requires ReferenceAfter(cs[..i]) == Reference(h, []) && Fits(|h|, [op])
    requires |moments| == |cs| + 1 && moments[i].s.st.imm.None? && moments[i].s.memBase == |h|
    ensures ReferenceAfter(cs[..i + 3]) == Reference(h + [op], [])
    ensures var e := Entry(InternalKey(op.user, |h| + 1, op.kind), op.value);
            FlushedAs(o, moments[i].s.st.levels, moments[i + 3].s.st.levels, [e], moments[i + 2].s.next)
    ensures moments[i + 3].s.st.imm.None? && moments[i + 3].running == moments[i].running && moments[i + 3].s.memBase == |h| + 1
    ensures Ordered(moments[i].s.st.levels) && AllAscending(moments[i].s.st.levels) && |moments[i + 3].s.st.levels| == kNumLevels
    ensures Ordered(moments[i + 3].s.st.levels) && AllAscending(moments[i + 3].s.st.levels)
  {
    hide Happened, ReferenceAfter, Stands, FlushedAs, Ordered, AllAscending, Sorted, EntriesBetween, Fits;
    NextReference(cs, i);
    NextInternal(cs, i + 1);
    NextInternal(cs, i + 2);
    MoveAt(o, cs, replies, moments, jobs, i);
    StepAt(o, cs, replies, moments, jobs, i);
    StepAt(o, cs, replies, moments, jobs, i + 2);
    StandsLength(moments[i], ReferenceAfter(cs[..i]));
    StandsLength(moments[i + 3], ReferenceAfter(cs[..i + 3]));
    LastEntry(h, op);
    SwitchedAndFlushed(o, cs, replies, moments, jobs, i + 1, [Entry(InternalKey(op.user, |h| + 1, op.kind), op.value)]);
  }

  lemma LastEntry(h: seq<Op>, op: Op)
    ensures var e := Entry(InternalKey(op.user, |h| + 1, op.kind), op.value);
            Sorted([e]) && Elements([e]) == EntriesBetween(h + [op], |h|, |h| + 1)
  {
    var e := Entry(InternalKey(op.user, |h| + 1, op.kind), op.value);
    assert EntryOf(h + [op], |h| + 1) == e;
  }

  lemma StandsLength(m: Moment, r: Reference)
    requires Stands(m, r)
    ensures m.s.h == r.h && m.s.memBase <= |r.h| && |m.s.st.levels| == kNumLevels && Ordered(m.s.st.levels) && AllAscending(m.s.st.levels)
    ensures AllRecorded(r.h, m.All()) && m.snapshots == r.snapshots
  {
    hide Ordered, Newer, AllAscending, DbState.LogsFit, ManifestFits, TablesPresent, LiveOrder, Chain, Concat;
    SoundOrdered(m.s.st, m.s.h);
  }

  // ----- levels -----

  lemma OneFile(files: seq<File>, f: File)
    requires B.Ascending(files) && B.FileSet(files) == {f} && f.entries != []
    ensures files == [f]
  {
    B.AscendingUnique(files, [f]);
  }

  // A table flushed to an empty level.
  lemma FlushedAlone(levels: seq<seq<File>>, v: seq<seq<File>>, l: nat, f: File)
    requires |levels| == kNumLevels && l < kNumLevels && Flushed(levels, v, l, f) && levels[l] == [] && f.Valid()
    ensures v == levels[l := [f]]
  {
    assert B.FileSet(levels[l]) == {};
    OneFile(v[l], f);
  }

  // With nothing on the first three levels and little on the fourth, a flushed table goes to level 2.
  lemma FlushedToLevel2(o: Options, levels: seq<seq<File>>, v: seq<seq<File>>, es: seq<Entry>, number: nat)
    requires FlushedAs(o, levels, v, es, number) && es != [] && |levels| == kNumLevels
    requires levels[0] == levels[1] == levels[2] == []
    requires Ordered(levels) && TotalFileSize(Overlapping(levels[3], Some(es[0].key.user), Some(es[|es| - 1].key.user))) <= 10 * o.maxFileSize
    ensures v == levels[2 := [File(number, o.tableSize(es), es)]]
  {
    hide Ordered, Overlapping, Flushed;
    var f := File(number, o.tableSize(es), es);
    var l: nat :| l <= kMaxMemCompactLevel && PlacedAt(levels, f, l, 10 * o.maxFileSize) && Flushed(levels, v, l, f);
    NothingOverlaps(levels[2], f);
    NothingOverlaps(levels[1], f);
    NothingOverlaps(levels[0], f);
    FlushedAlone(levels, v, l, f);
  }

  // Where a table goes on levels without much in them.
  lemma GoesTo(levels: seq<seq<File>>, f: File, l: nat, max: nat, to: nat)
    requires Ordered(levels) && f.Valid() && l <= kMaxMemCompactLevel && PlacedAt(levels, f, l, max) && to <= kMaxMemCompactLevel
    requires NoOverlap(levels[0], f) && forall m :: 1 <= m <= to ==> NoOverlap(levels[m], f)
    requires to < kMaxMemCompactLevel ==> !NoOverlap(levels[to + 1], f)
    requires forall m :: 2 <= m < kNumLevels ==> TotalFileSize(levels[m]) <= max
    ensures l == to
  {
    hide Ordered, NoOverlap, Overlapping, TotalFileSize;
    if l < to { MayGoOn(levels, f, l, max); }
  }

  lemma MayGoOn(levels: seq<seq<File>>, f: File, l: nat, max: nat)
    requires Ordered(levels) && f.Valid() && l + 2 < kNumLevels && NoOverlap(levels[l + 1], f) && TotalFileSize(levels[l + 2]) <= max
    ensures MayDescend(levels, f, l, max)
  {
    OverlappingSize(levels[l + 2], Some(f.Smallest().user), Some(f.Largest().user));
  }

  lemma {:induction false} OverlappingSize(files: seq<File>, b: Bound, e: Bound)
    requires ValidFiles(files)
    ensures TotalFileSize(Overlapping(files, b, e)) <= TotalFileSize(files)
  {
    if files != [] {
      var init, last := files[..|files| - 1], files[|files| - 1];
      OverlappingSize(init, b, e);
      var part := Overlapping(init, b, e);
      assert (part + [last])[..|part|] == part && part + [] == part;
      assert Overlapping(files, b, e) == if Overlaps(last, b, e) then part + [last] else part;
    }
  }

  lemma NothingOverlaps(files: seq<File>, f: File)
    requires files == [] && f.Valid()
    ensures NoOverlap(files, f) && forall b, e :: TotalFileSize(Overlapping(files, b, e)) == 0
  {
  }

  // The one file of a level is what a compaction of it takes.
  lemma TheOnlyInput(levels: seq<seq<File>>, r: Running, f: File)
    requires r.Placed() && r.base == levels && r.l > 0 && levels[r.l] == [f]
    ensures r.in0 == [f]
  {
    var lo: nat :| RunAt(levels[r.l], lo, r.in0);
    assert lo == 0 && |r.in0| == 1;
    assert [f][0..1] == [f];
  }

  lemma StoredOne(f: File)
    ensures Stored([f]) == Elements(f.entries)
  {
    assert f in [f];
  }

  // A compaction by hand of a level's one file: what it takes from the next level, and nothing from an empty one.
  lemma StartsWithOne(o: Options, a: Moment, l: nat, begin: Bound, end: Bound, b: Moment, f: File)
    requires 0 < l && l + 2 < kNumLevels && a.Starts(o, l, begin, end, b) && a.running.None?
    requires |a.s.st.levels| == kNumLevels && a.s.st.levels[l] == [f] && f.Valid() && Overlaps(f, begin, end)
    ensures b.s == a.s && b.running.Some? && Ordered(a.s.st.levels)
    ensures var r := b.running.value;
            && r.Placed() && r.base == a.s.st.levels && r.l == l && r.in0 == [f] && r.smallest == a.Floor() && r.manual
            && r.in1 == Overlapping(a.s.st.levels[l + 1], Some(f.Smallest().user), Some(f.Largest().user))
            && (a.s.st.levels[l + 2] == [] ==> r.grandparents == [])
  {
    hide Ordered, RangePicked, Overlapping, GoodInputs, Overlaps, MeetsRange, File.Valid, Moment.Floor, Moment.Begun, SetUp, GrandparentsAre;
    var levels := a.s.st.levels;
    var picked :| && RangePicked(levels, l, begin, end, o.maxFileSize, picked)
                  && if picked == [] then a.Stays(b) && b.s == a.s else a.Begun(o, l, picked, true, b);
    SomethingPicked(levels, l, begin, end, o.maxFileSize, picked, f);
    BegunByHand(o, a, l, picked, b);
    var r := b.running.value;
    TheOnlyInput(levels, r, f);
    RangeOfOne(levels, l, f, r.in1);
    if levels[l + 2] == [] { NothingMet(levels, l, r.in0, r.in1, r.grandparents); }
  }

  lemma SomethingPicked(levels: seq<seq<File>>, l: nat, begin: Bound, end: Bound, limit: nat, picked: seq<File>, f: File)
    requires Ordered(levels) && l + 1 < kNumLevels && RangePicked(levels, l, begin, end, limit, picked)
    requires f in levels[l] && f.Valid() && Overlaps(f, begin, end)
    ensures picked != []
  {
    hide Ordered, Overlapping;
  }

  lemma RangeOfOne(levels: seq<seq<File>>, l: nat, f: File, in1: seq<File>)
    requires Ordered(levels) && l + 1 < kNumLevels && f.Valid() && MeetsRange(levels, l, [f], in1)
    ensures in1 == Overlapping(levels[l + 1], Some(f.Smallest().user), Some(f.Largest().user))
  {
    hide Ordered, Overlapping;
  }

  lemma NothingMet(levels: seq<seq<File>>, l: nat, in0: seq<File>, in1: seq<File>, found: seq<File>)
    requires Ordered(levels) && l + 2 < kNumLevels && GrandparentsAre(levels, l, in0, in1, found) && levels[l + 2] == []
    ensures found == []
  {
    hide Ordered;
  }

  // The input of a finished compaction, and its outputs, closed no earlier than they were full.
  lemma FinishedWith(o: Options, a: Moment, b: Moment, job: Option<Job>, input: seq<Entry>) returns (outputs: seq<File>)
    requires a.running.Some? && a.Finishes(o, b, job) && a.running.value.grandparents == []
    requires Sorted(input) && Elements(input) == Stored(a.running.value.in0) + Stored(a.running.value.in1)
    ensures var r := a.running.value;
            && |a.s.st.levels| == kNumLevels && r.l + 1 < kNumLevels && Installed(a.s.st.levels, b.s.st.levels, r.l, r.in0, r.in1, outputs)
            && job.Some? && Ordered(r.base) && job.value.Valid() && job.value.levels == r.base && job.value.l == r.l && job.value.in0 == r.in0 && job.value.in1 == r.in1
            && job.value.smallest == r.smallest && job.value.floor == a.Floor()
            && Flatten(outputs) == Kept(r.base, r.l, input, |input|, r.smallest)
            && Numbered(outputs, a.s.next) && (forall i :: 0 <= i < |outputs| ==> Sized(outputs[i], o.tableSize, o.maxFileSize))
            && (forall i :: 0 <= i < |outputs| - 1 ==> outputs[i].size >= o.maxFileSize)
            && b.s.st.imm == a.s.st.imm && b.s.base == a.s.base && b.s.memBase == a.s.memBase && b.running == None
  {
    var r, j := a.running.value, job.value;
    outputs :| Merged(o, r, j, outputs, a.s.next) && Installed(a.s.st.levels, b.s.st.levels, r.l, r.in0, r.in1, outputs);
    hide Installed, Ordered, GoodInputs, Newer, Sized, Numbered, Flatten, Kept, Stored, Work.Outputs;
    SortedUnique(j.input, input);
    NeverStops(MergeWork(o, r, j), outputs);
  }

  lemma FinishedJob(o: Options, a: Moment, b: Moment, job: Option<Job>)
    requires a.running.Some? && a.Finishes(o, b, job)
    ensures job.Some? && job.value.Valid() && job.value.floor == a.Floor()
    ensures var r, j := a.running.value, job.value;
            j.levels == r.base && j.l == r.l && j.in0 == r.in0 && j.in1 == r.in1 && j.smallest == r.smallest
  {
    hide Job.Valid, Installed, Flatten, Kept, Numbered, Sized, Work.Outputs, Moment.Floor;
  }

  // Without grandparents an output is closed when it is full.
  lemma NeverStops(w: Work, outputs: seq<File>)
    requires w.Valid() && w.grandparents == [] && w.Outputs(outputs)
    ensures forall i :: 0 <= i < |outputs| - 1 ==> outputs[i].size >= w.maxSize
  {
    var ends :| w.OutputsAt(outputs, ends);
    forall i | 0 <= i < |outputs| - 1 ensures outputs[i].size >= w.maxSize {
      assert w.ClosedAt(ends[i + 1], outputs[i]);
      if ends[i + 1] < |w.input| { NoStop(w, ends[i + 1]); }
    }
  }

  lemma NoStop(w: Work, n: nat)
    requires w.Valid() && w.grandparents == [] && n < |w.input|
    ensures !w.Stops(n)
  {
    hide Work.CountedFrom, Work.EndedBy;
  }

  // A compaction that begins and ends with nothing between meets nothing.
  lemma NoClash(o: Options, m: Moment, c: Clash)
    requires c.Of(o, m) && m.running.Some? && m.running.value.base == m.s.st.levels
    ensures !c.Real()
  {
    hide Ordered, GoodInputs, NoGap, AllMadeOf, Merged;
  }
}
