/** A list of commands whose run is stopped: a memtable is flushed into the gap between the inputs of a
    compaction under way by hand, and the one output reaches over it.

    The check that stops is compiled out of a release build.  The level it goes on with holds the two
    files one around the other, and the search by largest keys misses the inner one. */
module GapFlush {
  import opened Keys
  import opened Reads
  import opened Versions
  import opened CompactionInputs
  import opened CompactionPick
  import opened CompactionWork
  import opened CompactionReads
  import opened Install
  import opened Interleaved
  import opened Edits
  import opened StoreState
  import opened Db
  import opened Runs
  import opened Scenario
  import B = Builder

  // Tables take one byte each, far from full.
  const OPTIONS := Options(es => 1, 100, es => 0, 0)

  function Put(user: UserKey): Op { Op(user, kTypeValue, [1]) }

  const COMMANDS := [
    Write([Put(1.0)]), SwitchMemtable, CompactMemTable,       // to level 2
    Write([Put(1.0)]), SwitchMemtable, CompactMemTable,       // to level 1
    Write([Put(5.0)]), SwitchMemtable, CompactMemTable,       // to level 2
    Write([Put(5.0)]), SwitchMemtable, CompactMemTable,       // to level 1
    StartRange(1, None, None),
    Write([Put(3.0)]), SwitchMemtable, CompactMemTable,       // to level 2, between the others
    FinishCompaction]

  function Table(n: nat, user: UserKey, s: nat): File { File(n, 1, [Entry(InternalKey(user, s, kTypeValue), [1])]) }

  lemma Listed()
    ensures |COMMANDS| == 17 && COMMANDS[12] == StartRange(1, None, None) && COMMANDS[16] == FinishCompaction
    ensures COMMANDS[0] == COMMANDS[3] == Write([Put(1.0)]) && COMMANDS[6] == COMMANDS[9] == Write([Put(5.0)]) && COMMANDS[13] == Write([Put(3.0)])
    ensures COMMANDS[1] == COMMANDS[4] == COMMANDS[7] == COMMANDS[10] == COMMANDS[14] == SwitchMemtable
    ensures COMMANDS[2] == COMMANDS[5] == COMMANDS[8] == COMMANDS[11] == COMMANDS[15] == CompactMemTable
  {
  }

  ghost predicate Follows(cs: seq<Command>, replies: seq<Reply>, moments: seq<Moment>, jobs: seq<Option<Job>>) {
    |cs| <= |COMMANDS| && cs == COMMANDS[..|cs|] && Happened(OPTIONS, cs, replies, moments, jobs)
  }

  // A single entry, flushed.
  lemma FlushOne(levels: seq<seq<File>>, v: seq<seq<File>>, user: UserKey, s: nat, n: nat, to: nat)
    requires FlushedAs(OPTIONS, levels, v, [Entry(InternalKey(user, s, kTypeValue), [1])], n) && |levels| == kNumLevels && Ordered(levels)
    requires var f := Table(n, user, s);
             && to <= kMaxMemCompactLevel && levels[0] == [] && f.Valid() && (forall m :: 1 <= m <= to ==> NoOverlap(levels[m], f))
             && (to < kMaxMemCompactLevel ==> !NoOverlap(levels[to + 1], f))
    requires forall m :: 2 <= m < kNumLevels ==> TotalFileSize(levels[m]) <= 1000
    ensures Flushed(levels, v, to, Table(n, user, s))
  {
    hide Ordered, NoOverlap, Flushed, TotalFileSize;
    var es := [Entry(InternalKey(user, s, kTypeValue), [1])];
    var f := Table(n, user, s);
    assert f == File(n, OPTIONS.tableSize(es), es);
    var l: nat :| l <= kMaxMemCompactLevel && PlacedAt(levels, f, l, 10 * OPTIONS.maxFileSize) && Flushed(levels, v, l, f);
    NothingOverlaps(levels[0], f);
    GoesTo(levels, f, l, 1000, to);
  }

  // The levels with these files on levels 1 and 2.
  function On(one: seq<File>, two: seq<File>): seq<seq<File>> { [[], one, two, [], [], [], []] }

  lemma FlushedOn(one: seq<File>, two: seq<File>, v: seq<seq<File>>, l: nat, f: File, files: seq<File>)
    requires 1 <= l <= 2 && Flushed(On(one, two), v, l, f)
    requires B.Ascending(files) && B.FileSet(files) == B.FileSet(if l == 1 then one else two) + {f}
    ensures v == if l == 1 then On(files, two) else On(one, files)
  {
    B.AscendingUnique(v[l], files);
    assert On(one, two)[1] == one && On(one, two)[2] == two;
    var w := if l == 1 then On(files, two) else On(one, files);
    assert forall m :: 0 <= m < kNumLevels ==> v[m] == w[m];
  }

  // Where the table for one key goes.
  ghost predicate Goes(one: seq<File>, two: seq<File>, user: UserKey, s: nat, to: nat) {
    && 1 <= to <= 2 && ValidFiles(one) && ValidFiles(two) && Table(0, user, s).Valid()
    && NoOverlap(one, Table(0, user, s)) && (to == 2 <==> NoOverlap(two, Table(0, user, s)))
  }

  lemma GoesAnyNumber(one: seq<File>, two: seq<File>, user: UserKey, s: nat, to: nat, n: nat)
    requires Goes(one, two, user, s, to)
    ensures 1 <= to <= 2 && ValidFiles(one) && ValidFiles(two)
    ensures Table(n, user, s).Valid() && NoOverlap(one, Table(n, user, s)) && (to == 2 <==> NoOverlap(two, Table(n, user, s)))
  {
    hide ValidFiles;
  }

  lemma Three(cs: seq<Command>, replies: seq<Reply>, moments: seq<Moment>, jobs: seq<Option<Job>>, i: nat)
    requires Follows(cs, replies, moments, jobs) && i + 2 < |cs|
    ensures |cs| <= |COMMANDS| && Happened(OPTIONS, cs, replies, moments, jobs) && cs[..i] == COMMANDS[..i] && cs[..i + 3] == COMMANDS[..i + 3]
    ensures cs[i] == COMMANDS[i] && cs[i + 1] == COMMANDS[i + 1] && cs[i + 2] == COMMANDS[i + 2]
  {
    hide COMMANDS, Happened;
  }

  lemma FitsOne(n: nat, user: UserKey)
    requires n < 10
    ensures Fits(n, [Put(user)])
  {
  }

  // Three commands: the operation's table is on the level it goes to.
  lemma Stage(cs: seq<Command>, replies: seq<Reply>, moments: seq<Moment>, jobs: seq<Option<Job>>, i: nat, h: seq<Op>, user: UserKey,
              one: seq<File>, two: seq<File>, to: nat) returns (n: nat)
    requires Follows(cs, replies, moments, jobs) && i + 2 < |cs| && |moments| == |cs| + 1
    requires COMMANDS[i] == Write([Put(user)]) && COMMANDS[i + 1].SwitchMemtable? && COMMANDS[i + 2].CompactMemTable?
    requires ReferenceAfter(COMMANDS[..i]) == Reference(h, []) && |h| < 10
    requires moments[i].s.st.imm.None? && moments[i].s.memBase == |h| && moments[i].s.st.levels == On(one, two)
    requires Goes(one, two, user, |h| + 1, to) && TotalFileSize(two) <= 1000
    ensures ReferenceAfter(COMMANDS[..i + 3]) == Reference(h + [Put(user)], [])
    ensures moments[i + 3].s.st.imm.None? && moments[i + 3].s.memBase == |h| + 1 && moments[i + 3].running == moments[i].running
    ensures Flushed(On(one, two), moments[i + 3].s.st.levels, to, Table(n, user, |h| + 1))
  {
    hide COMMANDS, Happened, ReferenceAfter, FlushedAs, Flushed, Ordered, Goes, NoOverlap, TotalFileSize, AllAscending, Fits, Follows;
    Three(cs, replies, moments, jobs, i);
    FitsOne(|h|, user);
    WrittenAndFlushed(OPTIONS, cs, replies, moments, jobs, i, h, Put(user));
    n := moments[i + 2].s.next;
    GoesAnyNumber(one, two, user, |h| + 1, to, n);
    NothingIn([]);
    FlushOne(On(one, two), moments[i + 3].s.st.levels, user, |h| + 1, n, to);
  }

  lemma NothingIn(files: seq<File>)
    requires files == []
    ensures TotalFileSize(files) == 0
  {
  }

  ghost predicate Stand(m: Moment, count: nat, one: seq<File>, two: seq<File>) {
    m.s.st.imm.None? && m.s.memBase == count && m.running.None? && m.s.st.levels == On(one, two)
  }

  // Four tables on levels 1 and 2.
  lemma Begin(cs: seq<Command>, replies: seq<Reply>, moments: seq<Moment>, jobs: seq<Option<Job>>) returns (x: nat)
    requires Follows(cs, replies, moments, jobs) && |cs| >= 3
    ensures |moments| == |cs| + 1 && Stand(moments[3], 1, [], [Table(x, 1.0, 1)])
    ensures ReferenceAfter(COMMANDS[..3]) == Reference([Put(1.0)], [])
  {
    hide COMMANDS, Happened, Flushed, Follows;
    Listed();
    First(cs, replies, moments, jobs);
    assert COMMANDS[..0] == [] && [] + [Put(1.0)] == [Put(1.0)];
    NothingIn([]);
    x := Stage(cs, replies, moments, jobs, 0, [], 1.0, [], [], 2);
    FlushedOn([], [], moments[3].s.st.levels, 2, Table(x, 1.0, 1), [Table(x, 1.0, 1)]);
  }

  lemma First(cs: seq<Command>, replies: seq<Reply>, moments: seq<Moment>, jobs: seq<Option<Job>>)
    requires Follows(cs, replies, moments, jobs)
    ensures |moments| == |cs| + 1 && Stand(moments[0], 0, [], [])
  {
    hide COMMANDS, Step, Stands, ReferenceAfter;
    assert NoFiles() == On([], []);
  }

  lemma Second(cs: seq<Command>, replies: seq<Reply>, moments: seq<Moment>, jobs: seq<Option<Job>>) returns (x: nat, a: nat)
    requires Follows(cs, replies, moments, jobs) && |cs| >= 6
    ensures |moments| == |cs| + 1 && Stand(moments[6], 2, [Table(a, 1.0, 2)], [Table(x, 1.0, 1)])
    ensures ReferenceAfter(COMMANDS[..6]) == Reference([Put(1.0), Put(1.0)], [])
  {
    hide COMMANDS, Happened, Flushed, Follows, ReferenceAfter;
    Listed();
    x := Begin(cs, replies, moments, jobs);
    Sizes([Table(x, 1.0, 1)]);
    a := Stage(cs, replies, moments, jobs, 3, [Put(1.0)], 1.0, [], [Table(x, 1.0, 1)], 1);
    FlushedOn([], [Table(x, 1.0, 1)], moments[6].s.st.levels, 1, Table(a, 1.0, 2), [Table(a, 1.0, 2)]);
    assert [Put(1.0)] + [Put(1.0)] == [Put(1.0), Put(1.0)];
  }

  lemma {:induction false} Sizes(files: seq<File>)
    requires forall f :: f in files ==> f.size == 1
    ensures TotalFileSize(files) == |files|
  {
    if files != [] { Sizes(files[..|files| - 1]); }
  }

  lemma Third(cs: seq<Command>, replies: seq<Reply>, moments: seq<Moment>, jobs: seq<Option<Job>>) returns (x: nat, a: nat, y: nat)
    requires Follows(cs, replies, moments, jobs) && |cs| >= 9
    ensures |moments| == |cs| + 1 && Stand(moments[9], 3, [Table(a, 1.0, 2)], [Table(x, 1.0, 1), Table(y, 5.0, 3)])
    ensures ReferenceAfter(COMMANDS[..9]) == Reference([Put(1.0), Put(1.0), Put(5.0)], [])
  {
    hide COMMANDS, Happened, Flushed, Follows, ReferenceAfter;
    Listed();
    x, a := Second(cs, replies, moments, jobs);
    Sizes([Table(x, 1.0, 1)]);
    y := Stage(cs, replies, moments, jobs, 6, [Put(1.0), Put(1.0)], 5.0, [Table(a, 1.0, 2)], [Table(x, 1.0, 1)], 2);
    FlushedOn([Table(a, 1.0, 2)], [Table(x, 1.0, 1)], moments[9].s.st.levels, 2, Table(y, 5.0, 3), [Table(x, 1.0, 1), Table(y, 5.0, 3)]);
    assert [Put(1.0), Put(1.0)] + [Put(5.0)] == [Put(1.0), Put(1.0), Put(5.0)];
  }

  lemma Fourth(cs: seq<Command>, replies: seq<Reply>, moments: seq<Moment>, jobs: seq<Option<Job>>) returns (x: nat, a: nat, y: nat, b: nat)
    requires Follows(cs, replies, moments, jobs) && |cs| >= 12
    ensures |moments| == |cs| + 1
    ensures Stand(moments[12], 4, [Table(a, 1.0, 2), Table(b, 5.0, 4)], [Table(x, 1.0, 1), Table(y, 5.0, 3)])
    ensures ReferenceAfter(COMMANDS[..12]) == Reference([Put(1.0), Put(1.0), Put(5.0), Put(5.0)], [])
  {
    hide COMMANDS, Happened, Flushed, Follows, ReferenceAfter;
    Listed();
    x, a, y := Third(cs, replies, moments, jobs);
    var one, two := [Table(a, 1.0, 2)], [Table(x, 1.0, 1), Table(y, 5.0, 3)];
    Sizes(two);
    Meets(two, x, y);
    b := Stage(cs, replies, moments, jobs, 9, [Put(1.0), Put(1.0), Put(5.0)], 5.0, one, two, 1);
    FlushedOn(one, two, moments[12].s.st.levels, 1, Table(b, 5.0, 4), [Table(a, 1.0, 2), Table(b, 5.0, 4)]);
    assert [Put(1.0), Put(1.0), Put(5.0)] + [Put(5.0)] == [Put(1.0), Put(1.0), Put(5.0), Put(5.0)];
  }

  lemma Meets(two: seq<File>, x: nat, y: nat)
    requires two == [Table(x, 1.0, 1), Table(y, 5.0, 3)]
    ensures ValidFiles(two) && Table(0, 5.0, 4).Valid() && !NoOverlap(two, Table(0, 5.0, 4))
  {
    assert two[1] == Table(y, 5.0, 3);
  }

  // ----- the compaction -----

  function A(a: nat, b: nat): seq<File> { [Table(a, 1.0, 2), Table(b, 5.0, 4)] }
  function X(x: nat, y: nat): seq<File> { [Table(x, 1.0, 1), Table(y, 5.0, 3)] }

  lemma BothPicked(levels: seq<seq<File>>, a: nat, b: nat, picked: seq<File>)
    requires Ordered(levels) && levels[1] == A(a, b) && RangePicked(levels, 1, None, None, 100, picked)
    ensures picked == A(a, b)
  {
    var files := A(a, b);
    assert files[..1] == [files[0]] && files[..1][..0] == [];
    assert Overlapping([], None, None) == [] && Overlapping(files, None, None) == files;
    Sizes(picked);
  }

  lemma BothTaken(r: Running, a: nat, b: nat, x: nat, y: nat)
    requires r.Placed() && r.l == 1 && r.base[1] == A(a, b) && r.base[2] == X(x, y) && (forall f :: f in A(a, b) ==> f in r.in0)
    requires ValidFiles(r.in0) && MeetsRange(r.base, 1, r.in0, r.in1)
    ensures r.in0 == A(a, b) && r.in1 == X(x, y)
  {
    WholeRun(r.base[1], r.in0, a, b);
    hide GoodInputs, Ordered;
    RangeIsAll(r.base, r.in0, r.in1, a, b, x, y);
  }

  lemma WholeRun(files: seq<File>, in0: seq<File>, a: nat, b: nat)
    requires files == A(a, b) && IsRun(files, in0) && forall f :: f in A(a, b) ==> f in in0
    ensures in0 == files
  {
    var lo: nat :| RunAt(files, lo, in0);
    assert files[0] in in0 && files[1] in in0;
    assert files[0] != files[1];
    assert files[0..2] == files;
  }

  lemma RangeIsAll(levels: seq<seq<File>>, in0: seq<File>, in1: seq<File>, a: nat, b: nat, x: nat, y: nat)
    requires Ordered(levels) && ValidFiles(in0) && in0 == A(a, b) && MeetsRange(levels, 1, in0, in1) && levels[2] == X(x, y)
    ensures in1 == X(x, y)
  {
    var p, q :| IsSmallestKey(in0, p) && IsLargestKey(in0, q) && in1 == Overlapping(levels[2], Some(p.user), Some(q.user));
    hide Ordered, Overlapping, IsSmallestKey, IsLargestKey;
    KeysOfA(in0, a, b, p, q);
    AllMeet(x, y);
  }

  lemma KeysOfA(in0: seq<File>, a: nat, b: nat, p: InternalKey, q: InternalKey)
    requires in0 == A(a, b) && ValidFiles(in0) && IsSmallestKey(in0, p) && IsLargestKey(in0, q)
    ensures p.user == 1.0 && q.user == 5.0
  {
    assert in0[0].Smallest().user == 1.0 && in0[1].Largest().user == 5.0;
  }

  lemma AllMeet(x: nat, y: nat)
    ensures ValidFiles(X(x, y)) && Overlapping(X(x, y), Some(1.0), Some(5.0)) == X(x, y)
  {
    var files := X(x, y);
    assert files[..1] == [files[0]] && files[..1][..0] == [];
    assert Overlapping([], Some(1.0), Some(5.0)) == [];
  }

  ghost predicate Under(m: Moment, a: nat, b: nat, x: nat, y: nat) {
    && m.running.Some? && m.s.st.imm.None?
    && var r := m.running.value;
       && r.Placed() && r.base == On(A(a, b), X(x, y)) && r.l == 1 && r.in0 == A(a, b) && r.in1 == X(x, y) && r.grandparents == [] && r.smallest == 4
  }

  lemma Starting(m: Moment, m': Moment, a: nat, b: nat, x: nat, y: nat)
    requires m.Starts(OPTIONS, 1, None, None, m') && Stand(m, 4, A(a, b), X(x, y)) && m.Floor() == 4
    ensures Under(m', a, b, x, y) && m'.s == m.s
  {
    hide RangePicked, Ordered, GoodInputs, MeetsRange, Moment.Floor, Moment.Begun, SetUp, GrandparentsAre, A, X;
    var levels := m.s.st.levels;
    assert levels[1] == A(a, b) && levels[2] == X(x, y) && levels[3] == [];
    var picked :| && RangePicked(levels, 1, None, None, OPTIONS.maxFileSize, picked)
                  && if picked == [] then m.Stays(m') && m'.s == m.s else m.Begun(OPTIONS, 1, picked, true, m');
    BothPicked(levels, a, b, picked);
    NotNone(a, b);
    BegunByHand(OPTIONS, m, 1, picked, m');
    var r := m'.running.value;
    BothTaken(r, a, b, x, y);
    NothingMet(levels, 1, r.in0, r.in1, r.grandparents);
  }

  lemma NotNone(a: nat, b: nat)
    ensures A(a, b) != []
  {
  }

  lemma Started(cs: seq<Command>, replies: seq<Reply>, moments: seq<Moment>, jobs: seq<Option<Job>>) returns (x: nat, a: nat, y: nat, b: nat)
    requires Follows(cs, replies, moments, jobs) && |cs| >= 13
    ensures |moments| == |cs| + 1 && Under(moments[13], a, b, x, y)
    ensures moments[13].s.memBase == 4 && moments[13].s.st.levels == On(A(a, b), X(x, y))
    ensures ReferenceAfter(COMMANDS[..13]) == Reference([Put(1.0), Put(1.0), Put(5.0), Put(5.0)], [])
  {
    hide COMMANDS, Happened, ReferenceAfter, Moment.Starts, Stands, Follows, Ordered, A, X, Under, AllRecorded, Moment.All;
    Listed();
    x, a, y, b := Fourth(cs, replies, moments, jobs);
    AreTables(a, b, x, y);
    Twelfth(cs, replies, moments, jobs);
    NextInternal(COMMANDS, 12);
    StandsLength(moments[12], ReferenceAfter(COMMANDS[..12]));
    Starting(moments[12], moments[13], a, b, x, y);
  }

  lemma AreTables(a: nat, b: nat, x: nat, y: nat)
    ensures A(a, b) == [Table(a, 1.0, 2), Table(b, 5.0, 4)] && X(x, y) == [Table(x, 1.0, 1), Table(y, 5.0, 3)]
  {
  }

  lemma Twelfth(cs: seq<Command>, replies: seq<Reply>, moments: seq<Moment>, jobs: seq<Option<Job>>)
    requires Follows(cs, replies, moments, jobs) && |cs| >= 13
    ensures |moments| == |cs| + 1 && Stands(moments[12], ReferenceAfter(COMMANDS[..12]))
    ensures moments[12].running.None? ==> moments[12].Starts(OPTIONS, 1, None, None, moments[13])
  {
    hide COMMANDS, Happened, ReferenceAfter, Moment.Starts, Stands, Did, Moment.Answers;
    Listed();
    assert cs[12] == COMMANDS[12] && cs[..12] == COMMANDS[..12];
    StepAt(OPTIONS, cs, replies, moments, jobs, 12);
  }

  lemma Beside(a: nat, b: nat, x: nat, y: nat)
    ensures Goes(A(a, b), X(x, y), 3.0, 5, 2) && TotalFileSize(X(x, y)) == 2
  {
    Sizes(X(x, y));
  }

  // The new table goes between the inputs of the output level.
  lemma IntoTheGap(cs: seq<Command>, replies: seq<Reply>, moments: seq<Moment>, jobs: seq<Option<Job>>)
    returns (x: nat, a: nat, y: nat, b: nat, f: nat)
    requires Follows(cs, replies, moments, jobs) && |cs| >= 16
    ensures |moments| == |cs| + 1 && Under(moments[16], a, b, x, y)
    ensures moments[16].s.st.levels == On(A(a, b), [Table(x, 1.0, 1), Table(f, 3.0, 5), Table(y, 5.0, 3)])
  {
    hide COMMANDS, Happened, Flushed, Follows, ReferenceAfter, Goes, TotalFileSize, Running.Placed;
    Listed();
    x, a, y, b := Started(cs, replies, moments, jobs);
    Beside(a, b, x, y);
    f := Stage(cs, replies, moments, jobs, 13, [Put(1.0), Put(1.0), Put(5.0), Put(5.0)], 3.0, A(a, b), X(x, y), 2);
    var files := [Table(x, 1.0, 1), Table(f, 3.0, 5), Table(y, 5.0, 3)];
    assert B.FileSet(files) == B.FileSet(X(x, y)) + {Table(f, 3.0, 5)};
    FlushedOn(A(a, b), X(x, y), moments[16].s.st.levels, 2, Table(f, 3.0, 5), files);
  }

  // ----- the end of the merge -----

  const LATER_ONE := Entry(InternalKey(1.0, 2, kTypeValue), [1])
  const EARLIER_ONE := Entry(InternalKey(1.0, 1, kTypeValue), [1])
  const LATER_FIVE := Entry(InternalKey(5.0, 4, kTypeValue), [1])
  const EARLIER_FIVE := Entry(InternalKey(5.0, 3, kTypeValue), [1])
  const INPUT := [LATER_ONE, EARLIER_ONE, LATER_FIVE, EARLIER_FIVE]

  lemma MergedInput(a: nat, b: nat, x: nat, y: nat)
    ensures Sorted(INPUT) && Elements(INPUT) == Stored(A(a, b)) + Stored(X(x, y))
  {
    var one, two := A(a, b), X(x, y);
    StoredOne(one[0]);
    StoredOne(one[1]);
    StoredOne(two[0]);
    StoredOne(two[1]);
    assert Stored(one) == Stored([one[0]]) + Stored([one[1]]);
    assert Stored(two) == Stored([two[0]]) + Stored([two[1]]);
    assert INPUT[0] == LATER_ONE && INPUT[1] == EARLIER_ONE && INPUT[2] == LATER_FIVE && INPUT[3] == EARLIER_FIVE;
  }

  lemma WhatIsKept(levels: seq<seq<File>>)
    requires Ordered(levels)
    ensures Kept(levels, 1, INPUT, 4, 4) == [LATER_ONE, LATER_FIVE]
  {
    hide Ordered, BaseLevel;
    assert !Drops(levels, 1, INPUT, 0, 4) && Drops(levels, 1, INPUT, 1, 4) && !Drops(levels, 1, INPUT, 2, 4) && Drops(levels, 1, INPUT, 3, 4);
    assert Kept(levels, 1, INPUT, 0, 4) == [];
    assert Kept(levels, 1, INPUT, 1, 4) == [LATER_ONE];
    assert Kept(levels, 1, INPUT, 2, 4) == [LATER_ONE];
    assert Kept(levels, 1, INPUT, 3, 4) == [LATER_ONE, LATER_FIVE];
  }

  lemma {:induction false} OneOutput(outputs: seq<File>)
    requires Flatten(outputs) == [LATER_ONE, LATER_FIVE] && forall i :: 0 <= i < |outputs| ==> Sized(outputs[i], OPTIONS.tableSize, 100)
    requires forall i :: 0 <= i < |outputs| - 1 ==> outputs[i].size >= 100
    ensures |outputs| == 1 && outputs[0].entries == [LATER_ONE, LATER_FIVE]
  {
    var n := |outputs| - 1;
    if n > 0 { assert outputs[0].size == OPTIONS.tableSize(outputs[0].entries) < 100; }
    assert Flatten(outputs[..0]) == [];
  }

  lemma Around(o: File, f: nat, files: seq<File>)
    requires o.entries == [LATER_ONE, LATER_FIVE] && o in files && Table(f, 3.0, 5) in files && ValidFiles(files)
    ensures !SortedLevel(files)
  {
    if SortedLevel(files) {
      SortedLevelDisjoint(files, o, Table(f, 3.0, 5));
    }
  }

  // Had the outputs been installed, level 2 would be out of order.
  lemma NotFinished(m: Moment, m': Moment, job: Option<Job>, a: nat, b: nat, x: nat, y: nat, f: nat)
    requires Under(m, a, b, x, y) && m.s.st.levels == On(A(a, b), [Table(x, 1.0, 1), Table(f, 3.0, 5), Table(y, 5.0, 3)])
    requires m.Finishes(OPTIONS, m', job)
    ensures |m'.s.st.levels| == kNumLevels && !Ordered(m'.s.st.levels)
  {
    hide Moment.Finishes, Ordered, GoodInputs, Flatten, Kept, Sized, Numbered, Stored, Sorted, Job.Valid, Moment.Floor, SortedLevel;
    var r := m.running.value;
    BaseLevels(r);
    MergedInput(a, b, x, y);
    var outputs := FinishedWith(OPTIONS, m, m', job, INPUT);
    WhatIsKept(r.base);
    OneOutput(outputs);
    var v := m'.s.st.levels;
    var between := Table(f, 3.0, 5);
    assert outputs[0] in B.FileSet(outputs) && outputs[0] in B.FileSet(v[2]);
    assert between in B.FileSet(m.s.st.levels[2]) && between !in B.FileSet(X(x, y)) && between in B.FileSet(v[2]);
    if Ordered(v) {
      LevelTwo(v);
      Around(outputs[0], f, v[2]);
    }
  }

  lemma LevelTwo(v: seq<seq<File>>)
    requires Ordered(v)
    ensures |v| == kNumLevels && ValidFiles(v[2]) && SortedLevel(v[2])
  {
  }

  lemma CannotEnd(replies: seq<Reply>, moments: seq<Moment>, jobs: seq<Option<Job>>)
    ensures !Follows(COMMANDS, replies, moments, jobs)
  {
    if Follows(COMMANDS, replies, moments, jobs) {
      hide COMMANDS, Happened, ReferenceAfter, Follows, Stands, Moment.Finishes, Ordered, Running.Placed, A, X;
      Listed();
      var x, a, y, b, f := IntoTheGap(COMMANDS, replies, moments, jobs);
      Last(replies, moments, jobs);
      NotFinished(moments[16], moments[17], jobs[16], a, b, x, y, f);
    }
  }

  lemma Last(replies: seq<Reply>, moments: seq<Moment>, jobs: seq<Option<Job>>)
    requires Follows(COMMANDS, replies, moments, jobs) && |moments| == 18 && moments[16].running.Some?
    ensures |jobs| == 17 && moments[16].Finishes(OPTIONS, moments[17], jobs[16]) && Ordered(moments[17].s.st.levels)
  {
    hide COMMANDS, Happened, ReferenceAfter, Stands, Moment.Finishes, Ordered, Moment.All, Moment.Answers, Did, AllAscending;
    Listed();
    MoveAt(OPTIONS, COMMANDS, replies, moments, jobs, 16);
    StepAt(OPTIONS, COMMANDS, replies, moments, jobs, 16);
    StandsLength(moments[17], ReferenceAfter(COMMANDS[..17]));
  }

  // The run of these commands is stopped at its last one.
  method CompactionStopped() returns (replies: seq<Reply>, ghost clash: Option<Clash>)
    ensures |COMMANDS| == 17 && |replies| == 16 && clash.Some? && clash.value.Real()
  {
    hide COMMANDS, Happened, Lossless, Clash.Of, Clash.Real, Answered, ReferenceAfter, ReadsHistory, AllRecorded;
    Listed();
    OnlyFinish();
    ghost var moments, jobs;
    replies, moments, jobs, clash := Run(OPTIONS, COMMANDS);
    if clash.None? {
      assert COMMANDS[..|replies|] == COMMANDS;
      Ended(replies, moments, jobs);
    }
  }

  lemma OnlyFinish()
    ensures forall n :: 0 <= n < |COMMANDS| && COMMANDS[n].FinishCompaction? ==> n == 16
  {
  }

  lemma Ended(replies: seq<Reply>, moments: seq<Moment>, jobs: seq<Option<Job>>)
    ensures !Happened(OPTIONS, COMMANDS, replies, moments, jobs)
  {
    hide COMMANDS, Happened;
    assert COMMANDS[..|COMMANDS|] == COMMANDS;
    CannotEnd(replies, moments, jobs);
  }

  // What the search makes of such a level: the outer file is found first, and does not hold the key.
  lemma InnerIsMissed(o: File, f: nat, s: nat)
    requires o.entries == [LATER_ONE, LATER_FIVE] && 5 <= s
    ensures var files := [o, Table(f, 3.0, 5)];
            && ValidFiles(files) && Bisected(files, SeekKey(3.0, s), 0, 2) == 0
            && Matching(o.entries, LowerBoundOf(o.entries, SeekKey(3.0, s)), 3.0) == None
            && IsNewest(Stored(files), 3.0, s, Some(Entry(InternalKey(3.0, 5, kTypeValue), [1])))
  {
    var inner := Table(f, 3.0, 5);
    var files := [o, inner];
    assert files[0] == o && files[1] == inner;
    assert Stored(files) == Elements(o.entries) + Elements(inner.entries) by {
      StoredOne(o);
      StoredOne(inner);
      assert Stored(files) == Stored([o]) + Stored([inner]);
    }
    assert Bisected(files, SeekKey(3.0, s), 0, 1) == 0;
  }
}
