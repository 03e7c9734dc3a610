/** DBImpl (db/db_impl.cc): opening, writes, reads, snapshots, memtable switches, flushes, trivial
    moves, compactions and file removal over one store and its disk, against the plain history of
    everything ever written.

    `Structure` is kept by every operation, and implies that a crash at any point leaves a disk from
    which `Open` rebuilds the history.  `Faithful` says that each snapshot the store must serve reads
    like the history; every operation keeps it, except a compaction that loses a tombstone. */
module Db {
  import opened Keys
  import opened Reads
  import opened Versions
  import opened CompactionPick
  import opened CompactionWork
  import opened CompactionReads
  import opened CompactionMerge
  import opened Install
  import opened CompactionInputs
  import opened Interleaved
  import opened Edits
  import opened Manifest
  import opened Disk
  import opened StoreState
  import opened StoreScan
  import opened Durability
  import opened Recovery
  import B = Builder

  ghost predicate SnapshotsSorted(snapshots: seq<nat>, last: nat) {
    && (forall i, j :: 0 <= i < j < |snapshots| ==> snapshots[i] <= snapshots[j])
    && (forall i :: 0 <= i < |snapshots| ==> snapshots[i] <= last)
  }

  // Versions that readers still use: their tables are present, under numbers already handed out.
  ghost predicate HeldFit(held: seq<seq<seq<File>>>, tables: map<nat, seq<Entry>>, next: nat) {
    forall i, l, f :: 0 <= i < |held| && 0 <= l < |held[i]| && f in held[i][l] ==>
      f.number < next && f.number in tables && tables[f.number] == f.entries
  }

  lemma HeldStay(held: seq<seq<seq<File>>>, tables: map<nat, seq<Entry>>, next: nat, tables': map<nat, seq<Entry>>, next': nat)
    requires HeldFit(held, tables, next) && next <= next'
    requires forall n :: n in tables && n < next ==> n in tables' && tables'[n] == tables[n]
    ensures HeldFit(held, tables', next')
  {
  }

  // The file numbers of some versions.
  function NumbersIn(versions: seq<seq<seq<File>>>): set<nat> {
    set v, level, f | v in versions && level in v && f in level :: f.number
  }

  // NewDB: version edit with log number 0, next file 2, last sequence 0.
  function NewDB(): Files {
    Files(map[], [Record(B.VersionEdit({}, []), Some(Numbers(0, 2, 0)))], map[])
  }

  function NoFiles(): seq<seq<File>> { seq(kNumLevels, _ => []) }

  lemma NewDBIsDurable()
    ensures Durable(NewDB(), NoFiles(), [], 0, [])
    ensures forall user :: ReadsHistory(OnDisk(NoFiles(), [], 0), [], 0, user)
  {
    hide Ordered, AllAscending, Numbering, Replays, ValidHistory, Rebuilt;
    NewDBManifest();
    var none := NoFiles();
    EmptyStore(Store([], None, none));
    SoundOrdered(Store([], None, none), []);
    NothingOnDisk(none);
    assert Concat(map[], []) == [];
    assert ValidHistory([]) by { SoundHistory(Store([], None, none), []); }
  }

  lemma SoundHistory(st: Store, h: seq<Op>)
    requires Sound(st, h)
    ensures ValidHistory(h)
  {
  }

  lemma NothingOnDisk(levels: seq<seq<File>>)
    requires levels == NoFiles()
    ensures StoredIn(levels) == {} && TablesPresent(map[], levels)
    ensures OnDisk(levels, [], 0) == {} == Store([], None, levels).All()
  {
    assert forall l :: 0 <= l < kNumLevels ==> levels[l] == [] && Stored(levels[l]) == {};
    assert StoredIn(levels) == {};
    assert Elements([]) == {};
    assert EntriesBetween([], 0, 0) == {};
  }

  lemma NewDBManifest()
    ensures Replays(NewDB().manifest, NoFiles(), 2)
  {
    var m := NewDB().manifest;
    forall l | 0 <= l < kNumLevels
      ensures ValidEdits(EditsOf(m))
      ensures B.Live({}, Replay(EMPTY, l, EditsOf(m))) == {} && EverAdded(m, l) == {}
    {
      NewDBLevel(m, l);
    }
    hide B.Live, Replay, EverAdded;
    ReplaysWhen(m, NoFiles(), 2);
  }

  lemma NewDBLevel(m: seq<Record>, l: nat)
    requires m == NewDB().manifest && l < kNumLevels
    ensures ValidEdits(EditsOf(m))
    ensures B.Live({}, Replay(EMPTY, l, EditsOf(m))) == {} && EverAdded(m, l) == {}
  {
    assert [] + m == m && EditsOf([]) == [];
    assert m[0].edit.AddedAt(l) == {};
    LevelAppended([], m[0], l, {});
  }

  // What a crash leaves behind reads like the history, the batch in flight included.
  lemma {:induction false} LoggedReads(all: set<Entry>, h: seq<Op>, logged: seq<Op>, floor: nat, user: UserKey)
    requires ReadsHistory(all, h, floor, user) && AllRecorded(h, all) && floor <= |h| && ValidHistory(h + logged)
    ensures ReadsHistory(all + EntriesBetween(h + logged, |h|, |h + logged|), h + logged, floor, user)
    decreases |logged|
  {
    if logged == [] {
      assert h + logged == h && all + EntriesBetween(h, |h|, |h|) == all;
    } else {
      var op, h' := logged[0], h + [logged[0]];
      assert (h + logged)[|h|] == op;
      var e := EntryOf(h', |h| + 1);
      WriteReads(h, op, all, floor, user);
      RecordedStable(h, op, all);
      assert h' + logged[1..] == h + logged;
      LoggedReads(all + {e}, h', logged[1..], floor, user);
      BetweenJoins(h + logged, |h|, |h| + 1, |h + logged|);
      assert EntriesBetween(h + logged, |h|, |h| + 1) == {EntryOf(h + logged, |h| + 1)};
      assert EntryOf(h + logged, |h| + 1) == e;
      assert all + EntriesBetween(h + logged, |h|, |h + logged|)
          == all + {e} + EntriesBetween(h + logged, |h'|, |h + logged|);
    }
  }

  // A crash at any moment of a faithful store leaves a disk whose reopening (`DBImpl.Open`) reads
  // like the history, the logged batch included.
  lemma CrashIsHarmless(s: DbState, floor: nat, user: UserKey)
    requires s.Good() && ReadsHistory(s.st.All(), s.h, floor, user) && floor <= |s.h|
    ensures Durable(s.disk, s.st.levels, s.h + s.logged, s.base, s.Order())
    ensures ReadsHistory(OnDisk(s.st.levels, s.h + s.logged, s.base), s.h + s.logged, |s.h + s.logged|, user)
  {
    DiskHoldsStore(s);
    RecordedNow(s);
    DiskHistoryValid(s);
    hide DbState.Good, ReadsHistory;
    LoggedReads(s.st.All(), s.h, s.logged, floor, user);
    FloorRises(OnDisk(s.st.levels, s.h + s.logged, s.base), s.h + s.logged, floor, |s.h + s.logged|, user);
  }

  lemma DiskHistoryValid(s: DbState)
    requires s.Good()
    ensures ValidHistory(s.h + s.logged)
  {
  }

  datatype Options = Options(
    tableSize: seq<Entry> -> nat,                // bytes written for a table of these entries
    maxFileSize: nat,                            // options.max_file_size
    memUsage: seq<Entry> -> nat,                 // MemTable::ApproximateMemoryUsage
    writeBufferSize: nat)

  // The compaction under way, if there is one, against the current version and the oldest snapshot.
  ghost predicate RunningFits(running: Option<Running>, levels: seq<seq<File>>, floor: nat) {
    running.None? || (running.value.StillFits(levels) && running.value.smallest <= floor && GrandparentsFit(running.value))
  }

  ghost predicate GrandparentsFit(r: Running) {
    && |r.base| == kNumLevels && r.l + 1 < kNumLevels
    && (r.l + 2 < kNumLevels ==> IsRun(r.base[r.l + 2], r.grandparents)) && (r.l + 2 == kNumLevels ==> r.grandparents == [])
  }

  // Where the table of a flushed memtable goes, and what the version is then; an empty one is not kept.
  ghost predicate FlushedAs(o: Options, levels: seq<seq<File>>, v: seq<seq<File>>, es: seq<Entry>, number: nat) {
    var f := File(number, o.tableSize(es), es);
    if es == [] then v == levels
    else
      && f.Valid() && Ordered(levels)
      && exists l: nat :: l <= kMaxMemCompactLevel && PlacedAt(levels, f, l, 10 * o.maxFileSize) && Flushed(levels, v, l, f)
  }

  // What the picked files become: the inputs of both levels, the grandparents, and the key after which the next
  // compaction of the level goes on.
  ghost predicate InputsOf(o: Options, levels: seq<seq<File>>, l: nat, picked: seq<File>, in0: seq<File>, in1: seq<File>,
                           grandparents: seq<File>, pointer: InternalKey) {
    && Ordered(levels) && l + 1 < kNumLevels && GoodInputs(levels, l, in0, in1) && MeetsRange(levels, l, in0, in1)
    && (forall f :: f in picked ==> f in in0) && SetUp(levels, l, picked, 25 * o.maxFileSize, in0, in1)
    && GrandparentsAre(levels, l, in0, in1, grandparents) && IsLargestKey(in0, pointer)
  }

  // One file that meets nothing on the next level and little on the one after that.
  predicate MovesDown(o: Options, manual: bool, in0: seq<File>, in1: seq<File>, grandparents: seq<File>) {
    !manual && |in0| == 1 && in1 == [] && TotalFileSize(grandparents) <= 10 * o.maxFileSize
  }

  // Such a file moves down in version v, and the pointer is recorded; any other compaction is under way, and the version stays.
  ghost predicate Begins(o: Options, levels: seq<seq<File>>, l: nat, picked: seq<File>, manual: bool, smallest: nat,
                         pointers: Pointers, recorded: Pointers, running: Option<Running>, v: seq<seq<File>>,
                         pointers': Pointers, recorded': Pointers) {
    exists in0, in1, grandparents, pointer :: InputsOf(o, levels, l, picked, in0, in1, grandparents, pointer)
      && BeginsWith(o, levels, l, in0, in1, grandparents, pointer, manual, smallest, running, v)
      && l < |pointers| && pointers' == pointers[l := Some(pointer)]
      && l < |recorded| && recorded' == if running.None? then recorded[l := Some(pointer)] else recorded
  }

  ghost predicate BeginsWith(o: Options, levels: seq<seq<File>>, l: nat, in0: seq<File>, in1: seq<File>, grandparents: seq<File>,
                             pointer: InternalKey, manual: bool, smallest: nat, running: Option<Running>, v: seq<seq<File>>) {
    if MovesDown(o, manual, in0, in1, grandparents)
      then running == None && |levels| == kNumLevels && l + 1 < kNumLevels && Installed(levels, v, l, in0, [], in0)
      else running == Some(Running(levels, l, in0, in1, grandparents, smallest, manual, pointer)) && v == levels
  }

  lemma AreInputs(o: Options, levels: seq<seq<File>>, l: nat, picked: seq<File>, in0: seq<File>, in1: seq<File>,
                  grandparents: seq<File>, pointer: InternalKey)
    requires Ordered(levels) && l + 1 < kNumLevels && GoodInputs(levels, l, in0, in1) && MeetsRange(levels, l, in0, in1)
    requires (forall f :: f in picked ==> f in in0) && SetUp(levels, l, picked, 25 * o.maxFileSize, in0, in1)
    requires GrandparentsAre(levels, l, in0, in1, grandparents) && IsLargestKey(in0, pointer)
    ensures InputsOf(o, levels, l, picked, in0, in1, grandparents, pointer)
  {
  }

  lemma IsBegun(o: Options, levels: seq<seq<File>>, l: nat, in0: seq<File>, in1: seq<File>, grandparents: seq<File>,
                pointer: InternalKey, manual: bool, smallest: nat, running: Option<Running>, v: seq<seq<File>>)
    requires |levels| == kNumLevels && l + 1 < kNumLevels
    requires if MovesDown(o, manual, in0, in1, grandparents) then running == None && Installed(levels, v, l, in0, [], in0)
             else running == Some(Running(levels, l, in0, in1, grandparents, smallest, manual, pointer)) && v == levels
    ensures BeginsWith(o, levels, l, in0, in1, grandparents, pointer, manual, smallest, running, v)
  {
  }

  lemma HasBegun(o: Options, levels: seq<seq<File>>, l: nat, picked: seq<File>, in0: seq<File>, in1: seq<File>, grandparents: seq<File>,
                 pointer: InternalKey, manual: bool, smallest: nat, pointers: Pointers, recorded: Pointers, running: Option<Running>,
                 v: seq<seq<File>>, pointers': Pointers, recorded': Pointers)
    requires InputsOf(o, levels, l, picked, in0, in1, grandparents, pointer)
    requires BeginsWith(o, levels, l, in0, in1, grandparents, pointer, manual, smallest, running, v)
    requires l < |pointers| && pointers' == pointers[l := Some(pointer)]
    requires l < |recorded| && recorded' == if running.None? then recorded[l := Some(pointer)] else recorded
    ensures Begins(o, levels, l, picked, manual, smallest, pointers, recorded, running, v, pointers', recorded')
  {
    hide InputsOf, BeginsWith;
  }

  // What the merge loop has made of its input.
  ghost predicate Merged(o: Options, r: Running, j: Job, outputs: seq<File>, next: nat) {
    && j.Valid() && j.levels == r.base && j.l == r.l && j.in0 == r.in0 && j.in1 == r.in1 && j.smallest == r.smallest
    && Flatten(outputs) == Kept(r.base, r.l, j.input, |j.input|, r.smallest)
    && Numbered(outputs, next) && (forall i :: 0 <= i < |outputs| ==> Sized(outputs[i], o.tableSize, o.maxFileSize))
    && MergeWork(o, r, j).Valid() && MergeWork(o, r, j).Outputs(outputs)
  }

  // What its merge loop is given.
  ghost function MergeWork(o: Options, r: Running, j: Job): Work {
    Work(r.base, r.l, j.input, r.smallest, r.grandparents, 10 * o.maxFileSize, o.tableSize, o.maxFileSize)
  }

  lemma ReadIsThis(all: set<Entry>, h: seq<Op>, floor: nat, user: UserKey, s: nat, v: Bytes)
    requires ReadsHistory(all, h, floor, user) && floor <= s <= |h| && AllRecorded(h, all)
    ensures ReadsAs(all, user, s, Some(v)) <==> HistoryRead(h, user, s) == Some(v)
  {
    if ReadsAs(all, user, s, Some(v)) {
      var r :| IsNewest(all, user, s, r) && Outcome(r) == Some(v);
      ReadIsHistory(all, h, floor, user, s, r);
    }
  }

  lemma NowRunning(r: Running, levels: seq<seq<File>>)
    requires r.base == levels && Ordered(levels) && r.l + 1 < kNumLevels && GoodInputs(levels, r.l, r.in0, r.in1)
    requires (!r.manual ==> NoGap(r.in0, r.in1)) && GrandparentsFit(r)
    ensures RunningFits(Some(r), levels, r.smallest)
  {
    hide Ordered, GoodInputs, Gapless, NoGap, GrandparentsFit;
    StartsFit(r);
  }

  lemma RunningThroughFlush(running: Option<Running>, st: Store, h: seq<Op>, v: seq<seq<File>>, l: nat, f: File, floor: nat)
    requires Sound(st, h) && RunningFits(running, st.levels, floor) && st.imm == Some(f.entries) && f.Valid()
    requires l < kNumLevels && Flushed(st.levels, v, l, f)
    requires l > 0 ==> forall m :: 0 <= m <= l ==> NoOverlap(st.levels[m], f)
    ensures RunningFits(running, v, floor)
  {
    if running.Some? {
      hide Ordered, Newer, NoOverlap, Running.StillFits, Flushed, GrandparentsFit;
      NewerSubset(st.Above(), StoredIn(st.levels), Elements(f.entries), StoredIn(st.levels));
      FlushFits(running.value, st.levels, v, l, f);
    }
  }

  lemma RunningFacts(running: Option<Running>, levels: seq<seq<File>>, floor: nat)
    requires RunningFits(running, levels, floor) && running.Some?
    ensures running.value.Placed() && |running.value.base| == kNumLevels && |levels| == kNumLevels && running.value.StillFits(levels)
    ensures ValidFiles(running.value.in0) && ValidFiles(running.value.in1) && running.value.in0 != []
  {
    BaseLevels(running.value);
  }

  class DBImpl {
    const options: Options
    var mem: seq<Entry>                          // mem_, in key order
    var imm: Option<seq<Entry>>                  // imm_
    var levels: seq<seq<File>>                   // versions_->current()->files_
    var held: seq<seq<seq<File>>>                // older versions still referenced
    var disk: Files                              // log files, manifest, tables
    var logfileNumber: nat                       // logfile_number_
    var nextFile: nat                            // versions_->next_file_number_
    var lastSequence: nat                        // versions_->last_sequence_
    var pendingOutputs: set<nat>                 // pending_outputs_
    var snapshots: seq<nat>                      // snapshots_, oldest first
    var compactPointer: Pointers
    var running: Option<Running>                 // what DoCompactionWork is at
    ghost var history: seq<Op>                   // every operation applied
    ghost var logged: seq<Op>                    // the batch in the log but not yet in the memtable
    ghost var immLog: nat                        // number of the log of imm_
    ghost var base: nat                          // where imm_ begins in the history
    ghost var memBase: nat                       // where mem_ begins in the history

    constructor (options: Options)
      ensures this.options == options
    {
      this.options := options;
      mem, imm, levels, held := [], None, NoFiles(), [];
      disk, logfileNumber, nextFile, lastSequence := NewDB(), 0, 2, 0;
      pendingOutputs, snapshots, compactPointer, running := {}, [], [], None;
    }

    ghost function View(): DbState
      reads this
    {
      DbState(Store(mem, imm, levels), disk, logfileNumber, immLog, nextFile, history, logged, base, memBase)
    }

    // The compaction pointers in the manifest.
    function Recorded(): Pointers
      reads this`disk
    {
      PointersOf(disk.manifest)
    }

    function St(): Store
      reads this
    {
      Store(mem, imm, levels)
    }

    // The oldest sequence number a read may still ask for.
    function Floor(): nat
      reads this
    {
      if snapshots == [] then lastSequence else snapshots[0]
    }

    ghost predicate Structure()
      reads this
    {
      && View().Good() && lastSequence == |history|
      && |compactPointer| == kNumLevels && SnapshotsSorted(snapshots, lastSequence)
      && HeldFit(held, disk.tables, nextFile)
      && RunningFits(running, levels, Floor())
    }

    // Every read of the user key that may still be asked for gets what the history says.
    ghost predicate Faithful(user: UserKey)
      reads this
    {
      ReadsHistory(St().All(), history, Floor(), user)
    }

    // DB::Open on whatever disk a run of the store left behind: the history is back, entry for entry.
    method Open(d: Files, ghost levels0: seq<seq<File>>, ghost h: seq<Op>, ghost base0: nat, ghost order0: seq<nat>)
      returns (ok: bool)
      requires Durable(d, levels0, h, base0, order0)
      modifies this
      ensures ok && Structure() && Tidy() && history == h && logged == [] && snapshots == [] && held == [] && running == None
      ensures St().All() == OnDisk(levels0, h, base0)
      ensures order0 == [] ==> levels == levels0     // no log to replay: the same version
      ensures mem == [] && imm == None && base == memBase == |h| && compactPointer == PointersOf(d.manifest) == Recorded()
      ensures forall u :: ReadsHistory(OnDisk(levels0, h, base0), h, |h|, u) <==> Faithful(u)
    {
      hide Ordered, AllAscending, Numbering, Replays, LiveOrder, Chain, Concat, ValidHistory, TablesPresent, Rebuilt, Caught,
           TablesWritten, AllRecorded, UpTo, ReadsHistory, Applied, StoredIn, EntriesBetween, Sound, DbState.Good, NumbersIn;
      var numbers, recovered, pointers := ReplayVersion(d, levels0, h, base0, order0);
      if numbers.None? { return false; }           // no meta-lognumber entry in descriptor
      levels, compactPointer := recovered, pointers;
      var first := numbers.value.nextFile + 1;     // the recovered next number goes to the new manifest
      if exists level | level in levels :: exists f | f in level :: f.number !in d.tables && f.number !in d.logs {
        NothingMissing(d.tables, levels);
        return false;                              // missing files
      }
      var order := LogsToRecover(d.logs, numbers.value.logNumber);
      SameOrder(d.logs, numbers.value.logNumber, order, order0);
      NextFits(d.manifest, levels, h, base0);
      var edit, next, tables, maxSequence;
      ghost var v;
      edit, next, tables, maxSequence, v :=
        RecoverLogs(d.logs, order, options.memUsage, options.writeBufferSize, options.tableSize, first, d.tables, levels, h, base0);
      lastSequence := if numbers.value.lastSequence < maxSequence then maxSequence else numbers.value.lastSequence;
      OpenedFits(d, levels0, edit, v, tables, first, next, h, base0, order0, PointersSet(pointers));
      FinishOpen(d, edit, next, tables, v, h);
      RemoveObsoleteFiles();
      ok := true;
    }

    // The rest of DB::Open: a new log, a new manifest that starts from a snapshot, and the edit.
    method FinishOpen(d: Files, edit: B.VersionEdit, next: nat, tables: map<nat, seq<Entry>>, ghost v: seq<seq<File>>, ghost h: seq<Op>)
      requires edit.Valid() && |levels| == kNumLevels && AllAscending(levels) && AllAscending(v) && Applied(levels, edit, v)
      requires forall l :: 0 <= l < kNumLevels ==> B.FreshNumbers(B.FileSet(levels[l]), l, edit.added)
      requires |compactPointer| == kNumLevels && Opened(d, levels, edit, v, tables, next, h, PointersSet(compactPointer)).Good() && lastSequence == |h|
      requires HeldFit([], tables, next + 1) && SnapshotsSorted([], |h|)
      modifies this
      ensures Structure() && history == h && logged == [] && snapshots == [] && held == [] && pendingOutputs == {} && running == None
      ensures compactPointer == old(compactPointer) == Recorded()
      ensures St() == Store([], None, v) && base == memBase == |h|
    {
      hide AllAscending, Applied, B.FreshNumbers, B.VersionEdit.Valid, DbState.Good, HeldFit, SnapshotsSorted, NewManifest, Opened, NoPointers, PointersOf;
      var manifest, recovered := LogAndApplyFirst(levels, edit, Numbers(next, next + 1, lastSequence), compactPointer, v);
      ghost var goal := OpenedShape(d, levels, edit, v, tables, next, h, manifest, PointersSet(compactPointer));
      Reset(recovered, Files(d.logs[next := []], manifest, tables), next, next + 1, h);
      assert View() == goal;
    }

    // The fields of a store just opened.
    method Reset(v: seq<seq<File>>, d: Files, log: nat, next: nat, ghost h: seq<Op>)
      modifies this
      ensures View() == DbState(Store([], None, v), d, log, 0, next, h, [], |h|, |h|)
      ensures lastSequence == old(lastSequence) && snapshots == [] && held == [] && pendingOutputs == {}
      ensures compactPointer == old(compactPointer) && running == None
    {
      Forget();
      mem, imm, levels := [], None, v;
      ghost var st := St();
      disk, logfileNumber, nextFile := d, log, next;
      history, logged, immLog, base, memBase := h, [], 0, |h|, |h|;
      assert St() == st;
    }

    // What no store keeps over a restart.
    method Forget()
      modifies this`held, this`pendingOutputs, this`snapshots, this`running
      ensures snapshots == [] && held == [] && pendingOutputs == {} && running == None
    {
      held, pendingOutputs, snapshots, running := [], {}, [], None;
    }

    // DBImpl::Get at a held snapshot, or at the latest sequence number.
    method Get(user: UserKey, snapshot: Option<nat>) returns (v: Option<Bytes>)
      requires Structure()
      requires snapshot.Some? ==> snapshot.value in snapshots
      ensures ReadsAs(St().All(), user, if snapshot.Some? then snapshot.value else |history|, v)
      ensures Faithful(user) ==> v == HistoryRead(history, user, if snapshot.Some? then snapshot.value else |history|)
    {
      SoundOrdered(St(), history);
      hide DbState.Good, Sound, Ordered, ReadsHistory;
      var s := if snapshot.Some? then snapshot.value else lastSequence;
      var r := Lookup(St(), user, s);
      v := Outcome(r);
      if Faithful(user) { ReadIsHistory(St().All(), history, Floor(), user, s, r); }
    }

    // An iterator of DBImpl::NewIterator run from the first key to the last.
    method Scan(snapshot: Option<nat>) returns (pairs: seq<(UserKey, Bytes)>)
      requires Structure()
      requires snapshot.Some? ==> snapshot.value in snapshots
      ensures KeysAscend(pairs)
      ensures var s := if snapshot.Some? then snapshot.value else |history|;
              && s <= |history|
              && (forall u, v :: (u, v) in pairs <==> ReadsAs(St().All(), u, s, Some(v)))
              && (forall u, v :: Faithful(u) ==> ((u, v) in pairs <==> HistoryRead(history, u, s) == Some(v)))
    {
      SoundOrdered(St(), history);
      hide DbState.Good, Sound, Ordered, ReadsHistory, Sorted, ReadsAs, KeysAscend;
      var s := if snapshot.Some? then snapshot.value else lastSequence;
      var es := AllEntries(St());
      pairs := ListAll(es, s);
      ListedAscend(pairs, es, s);
      forall u, v ensures (u, v) in pairs <==> ReadsAs(St().All(), u, s, Some(v)) { ListedIsRead(pairs, es, s, u, v); }
      forall u, v | Faithful(u) ensures ReadsAs(St().All(), u, s, Some(v)) <==> HistoryRead(history, u, s) == Some(v) {
        ReadIsThis(St().All(), history, Floor(), u, s, v);
      }
    }

    method GetSnapshot() returns (s: nat)
      requires Structure()
      modifies this`snapshots
      ensures Structure() && s == |history| && snapshots == old(snapshots) + [s]
      ensures forall u :: old(Faithful(u)) ==> Faithful(u)
    {
      hide DbState.Good, ReadsHistory;
      s := lastSequence;
      snapshots := snapshots + [s];
    }

    method ReleaseSnapshot(i: nat)
      requires Structure() && i < |snapshots|
      modifies this`snapshots
      ensures Structure() && snapshots == old(snapshots)[..i] + old(snapshots)[i + 1..]
      ensures forall u :: old(Faithful(u)) ==> Faithful(u)
    {
      hide DbState.Good;
      snapshots := snapshots[..i] + snapshots[i + 1..];
    }

    // Version::Ref by an iterator or a read, and the matching Unref.
    method HoldVersion()
      requires Structure()
      modifies this`held
      ensures Structure() && held == old(held) + [levels]
      ensures forall u :: old(Faithful(u)) ==> Faithful(u)
    {
      CurrentFits(View());
      hide DbState.Good;
      held := held + [levels];
    }

    method ReleaseVersion(i: nat)
      requires Structure() && i < |held|
      modifies this`held
      ensures Structure() && held == old(held)[..i] + old(held)[i + 1..]
      ensures forall u :: old(Faithful(u)) ==> Faithful(u)
    {
      hide DbState.Good;
      held := held[..i] + held[i + 1..];
    }

    // The first half of Write: the batch goes to the log.
    method AddRecord(batch: seq<Op>)
      requires Structure() && logged == [] && |history| + |batch| < kMaxSequenceNumber
      requires forall i :: 0 <= i < |batch| ==> batch[i].kind <= kTypeValue
      modifies this`disk, this`logged
      ensures Structure() && logged == batch && disk.tables == old(disk.tables) && disk.manifest == old(disk.manifest)
      ensures forall u :: old(Faithful(u)) ==> Faithful(u)
    {
      hide DbState.Good, HeldFit, SnapshotsSorted, ValidHistory;
      BatchFits(View(), batch);
      AppendKeeps(View(), batch);
      LogPresent(View());
      disk := disk.(logs := disk.logs[logfileNumber := disk.logs[logfileNumber] + [Batch(lastSequence + 1, batch)]]);
      logged := batch;
    }

    // The second half: WriteBatchInternal::InsertInto the memtable, then SetLastSequence.
    method ApplyLogged(batch: seq<Op>)
      requires Structure() && logged == batch
      modifies this`mem, this`lastSequence, this`history, this`logged
      ensures Structure() && history == old(history) + batch && logged == []
      ensures forall u :: old(Faithful(u)) ==> Faithful(u)
    {
      ghost var floor := Floor();
      hide DbState.Good, ReadsHistory, HeldFit;
      for i := 0 to |batch|
        invariant View().Good() && HeldFit(held, disk.tables, nextFile)
        invariant history == old(history) + batch[..i] && logged == batch[i..]
        invariant lastSequence == old(lastSequence)
        invariant forall u :: old(Faithful(u)) ==> ReadsHistory(St().All(), history, floor, u)
      {
        assert batch[i..][1..] == batch[i + 1..] && batch[..i + 1] == batch[..i] + [batch[i]];
        ApplyOne(batch[i], lastSequence + 1 + i, floor);
      }
      lastSequence := lastSequence + |batch|;
      forall u | old(Faithful(u)) ensures Faithful(u) { FloorRises(St().All(), history, floor, Floor(), u); }
    }

    // MemTableInserter::Put and ::Delete
    method ApplyOne(op: Op, sequence: nat, ghost floor: nat)
      requires View().Good() && logged != [] && logged[0] == op && sequence == |history| + 1 && floor <= |history|
      modifies this`mem, this`history, this`logged
      ensures View().Good() && history == old(history) + [op] && logged == old(logged)[1..]
      ensures forall u :: old(ReadsHistory(St().All(), history, floor, u)) ==> ReadsHistory(St().All(), history, floor, u)
    {
      hide DbState.Good, ReadsHistory, NewKey, Sorted, Sound, Elements, StoredIn, ValidHistory, AllRecorded;
      CanInsert(View());
      InsertKeeps(View());
      RecordedNow(View());
      OpIsValid(View());
      forall u | ReadsHistory(St().All(), history, floor, u)
        ensures ReadsHistory(St().All() + {EntryOf(history + [op], |history| + 1)}, history + [op], floor, u)
      {
        WriteReads(history, op, St().All(), floor, u);
      }
      mem := Inserted(mem, Entry(InternalKey(op.user, sequence, op.kind), op.value));
      history, logged := history + [op], logged[1..];
    }

    // DBImpl::Write of a batch, once there is room.
    method Write(batch: seq<Op>)
      requires Structure() && logged == [] && |history| + |batch| < kMaxSequenceNumber
      requires forall i :: 0 <= i < |batch| ==> batch[i].kind <= kTypeValue
      modifies this`mem, this`disk, this`lastSequence, this`history, this`logged
      ensures Structure() && history == old(history) + batch && logged == [] && disk.manifest == old(disk.manifest)
      ensures forall u :: old(Faithful(u)) ==> Faithful(u)
    {
      hide DbState.Good, ReadsHistory, HeldFit;
      AddRecord(batch);
      ApplyLogged(batch);
    }

    // The last branch of MakeRoomForWrite: a new log and memtable take over.
    method SwitchMemtable()
      requires Structure() && imm.None? && logged == []
      modifies this`mem, this`imm, this`disk, this`logfileNumber, this`nextFile, this`immLog, this`memBase
      ensures Structure() && imm == Some(old(mem)) && mem == [] && memBase == |history| && St().All() == old(St().All())
      ensures disk.manifest == old(disk.manifest)
      ensures forall u :: old(Faithful(u)) ==> Faithful(u)
    {
      hide DbState.Good, ReadsHistory, HeldFit, SnapshotsSorted, Store.All;
      SwitchKeeps(View());
      HeldStay(held, disk.tables, nextFile, disk.tables, nextFile + 1);
      immLog, memBase := logfileNumber, |history|;
      logfileNumber, nextFile := nextFile, nextFile + 1;
      disk := disk.(logs := disk.logs[logfileNumber := []]);
      imm, mem := Some(mem), [];
    }

    // Nothing is left of tables that no version in use has and no job writes, nor of logs the manifest no longer counts.
    ghost predicate Tidy()
      reads this
    {
      && (forall n :: n in disk.tables ==> n in pendingOutputs + NumbersIn([levels] + held))
      && LastNumbers(disk.manifest).Some? && forall n :: n in disk.logs ==> n >= LastNumbers(disk.manifest).value.logNumber
    }

    // RemoveObsoleteFiles: whatever recovery, a version in use or a running job may need stays.
    method RemoveObsoleteFiles()
      requires Structure()
      modifies this`disk
      ensures Structure() && Tidy()
      ensures forall n :: n in pendingOutputs && n in old(disk.tables) ==> n in disk.tables && disk.tables[n] == old(disk.tables[n])
      ensures disk.manifest == old(disk.manifest)
    {
      hide DbState.Good, SnapshotsSorted, HeldFit, NumbersIn;
      var live := pendingOutputs + NumbersIn([levels] + held);
      CurrentLive(View(), held, live);
      CleanKeeps(View(), live);
      var from := LastNumbers(disk.manifest).value.logNumber;
      disk := disk.(logs := map n | n in disk.logs && n >= from :: disk.logs[n],
                    tables := map n | n in disk.tables && n in live :: disk.tables[n]);
      assert View() == Cleaned(old(View()), live);
      HeldLive(held, old(disk.tables), disk.tables, nextFile, live, levels);
    }

    // CompactMemTable: write the immutable memtable as a table and record it, with the number of
    // the current log: earlier logs are no longer needed.
    method CompactMemTable()
      requires Structure() && imm.Some?
      modifies this`imm, this`levels, this`nextFile, this`disk, this`base
      ensures Structure() && Tidy() && imm.None? && base == memBase && St().All() == old(St().All()) && Recorded() == old(Recorded())
      ensures FlushedAs(options, old(levels), levels, old(imm.value), old(nextFile))
      ensures forall u :: old(Faithful(u)) ==> Faithful(u)
    {
      hide DbState.Good, ReadsHistory, HeldFit, SnapshotsSorted, Commits, StoredIn, FlushedAs, NumbersIn;
      var number := nextFile;
      var edit, v, tables := FlushImm(imm.value, number);
      RecordFlush(edit, v, tables, number + 1);
      RemoveObsoleteFiles();
    }

    // LogAndApply for a flush: the record carries the number of the current log.
    method RecordFlush(edit: B.VersionEdit, v: seq<seq<File>>, tables: map<nat, seq<Entry>>, next: nat)
      requires Structure() && imm.Some? && |levels| == kNumLevels && Commits(View(), edit, v, tables, next) && nextFile < next
      requires StoredIn(v) == StoredIn(levels) + Elements(imm.value)
      requires Sound(Store(mem, None, v), history) && RunningFits(running, v, Floor())
      modifies this`imm, this`levels, this`nextFile, this`disk, this`base
      ensures Structure() && St() == Store(mem, None, v) && base == memBase && Recorded() == old(Recorded())
    {
      hide DbState.Good, HeldFit, SnapshotsSorted, Commits, StoredIn, Sound, PointersOf, RunningFits;
      FlushKeeps(View(), edit, v, tables, next);
      CommitParts(View(), edit, v, tables, next);
      HeldStay(held, disk.tables, nextFile, tables, next);
      nextFile := next;
      NoPointer(disk.manifest, Record(edit, Some(Numbers(logfileNumber, nextFile, lastSequence))));
      disk := disk.(tables := tables, manifest := disk.manifest + [Record(edit, Some(Numbers(logfileNumber, nextFile, lastSequence)))]);
      levels, imm, base := v, None, memBase;
    }

    // WriteLevel0Table and LogAndApply for a flush; an empty table is not kept.
    method FlushImm(es: seq<Entry>, number: nat) returns (edit: B.VersionEdit, v: seq<seq<File>>, tables: map<nat, seq<Entry>>)
      requires View().Good() && imm == Some(es) && number == nextFile
      ensures |levels| == kNumLevels && Commits(View(), edit, v, tables, number + 1)
      ensures StoredIn(v) == StoredIn(levels) + Elements(es)
      ensures Sound(Store(mem, None, v), history) && Store(mem, None, v).All() == St().All()
      ensures RunningFits(running, levels, Floor()) ==> RunningFits(running, v, Floor())
      ensures FlushedAs(options, levels, v, es, number)
    {
      hide DbState.Good, Ordered, Newer, AllAscending, Sound, Numbering, Applied, Commits, Store.All, StoredIn, PlacedAt, Flushed;
      GoodParts(View());
      if es == [] {
        SoundOrdered(St(), history);
        edit := B.VersionEdit({}, []);
        v := LogAndApply(levels, edit);
        NoChange(levels, edit, v, number);
        tables := disk.tables;
        EmptyFlush(View(), edit, tables);
      } else {
        edit, v, tables := FlushTable(es, number);
      }
    }

    method FlushTable(es: seq<Entry>, number: nat) returns (edit: B.VersionEdit, v: seq<seq<File>>, tables: map<nat, seq<Entry>>)
      requires View().Good() && imm == Some(es) && number == nextFile && es != []
      ensures |levels| == kNumLevels && Commits(View(), edit, v, tables, number + 1)
      ensures StoredIn(v) == StoredIn(levels) + Elements(es)
      ensures Sound(Store(mem, None, v), history) && Store(mem, None, v).All() == St().All()
      ensures RunningFits(running, levels, Floor()) ==> RunningFits(running, v, Floor())
      ensures FlushedAs(options, levels, v, es, number)
    {
      hide DbState.Good, Ordered, Newer, AllAscending, Sound, Numbering, Applied, Commits, Store.All, StoredIn, Flushed, PlacedAt;
      GoodParts(View());
      SoundOrdered(St(), history);
      var level, f := PlaceFlush(es, number);
      edit, tables := B.VersionEdit({}, [(level, f)]), disk.tables[number := es];
      v := InstallFlush(levels, level, f);
      FlushSound(St(), history, v, level, f);
      FlushedParts(levels, v, level, f);
      if RunningFits(running, levels, Floor()) { RunningThroughFlush(running, St(), history, v, level, f, Floor()); }
      FlushCommits(View(), level, f, v);
    }

    // The level for the table of a flushed memtable.
    method PlaceFlush(es: seq<Entry>, number: nat) returns (level: nat, f: File)
      requires Sound(St(), history) && imm == Some(es) && es != []
      ensures f == File(number, options.tableSize(es), es) && f.Valid() && level <= kMaxMemCompactLevel
      ensures Ordered(levels) && (level > 0 ==> forall m :: 0 <= m <= level ==> NoOverlap(levels[m], f))
      ensures PlacedAt(levels, f, level, 10 * options.maxFileSize)
    {
      f := File(number, options.tableSize(es), es);
      SoundFits(St(), history);
      hide Newer, AllAscending, SortedLevel, NewestByNumber, SequencesFit, NoOverlap;
      level := PickLevelForMemTableOutput(levels, f, 10 * options.maxFileSize);
    }

    // Tables written for a version not recorded yet: a crash now leaves them behind.
    method StrayTables(tables: map<nat, seq<Entry>>)
      requires Structure() && forall n :: n in disk.tables && n < nextFile ==> n in tables && tables[n] == disk.tables[n]
      modifies this`disk
      ensures forall u :: old(Faithful(u)) ==> Faithful(u)
      ensures Structure() && disk == old(disk).(tables := tables)
    {
      hide DbState.Good, SnapshotsSorted, HeldFit;
      StrayTablesKeep(View(), tables);
      HeldStay(held, disk.tables, nextFile, tables, nextFile);
      disk := disk.(tables := tables);
    }

    // CompactMemTable up to LogAndApply.
    method FlushUnrecorded()
      requires Structure() && imm.Some?
      modifies this`disk
      ensures forall u :: old(Faithful(u)) ==> Faithful(u)
      ensures Structure()
      ensures disk == old(disk).(tables := if imm.value == [] then old(disk.tables) else old(disk.tables)[nextFile := imm.value])
    {
      hide DbState.Good, SnapshotsSorted, HeldFit;
      StrayTables(if imm.value == [] then disk.tables else disk.tables[nextFile := imm.value]);
    }

    // DoCompactionWork up to InstallCompactionResults.
    method CompactUnrecorded() returns (ghost j: Job, ghost outputs: seq<File>)
      requires Structure() && running.Some?
      modifies this`disk
      ensures forall u :: old(Faithful(u)) ==> Faithful(u)
      ensures Structure() && disk == old(disk).(tables := disk.tables) && Merged(options, running.value, j, outputs, nextFile)
      ensures forall i :: 0 <= i < |outputs| ==> outputs[i].number in disk.tables && disk.tables[outputs[i].number] == outputs[i].entries
    {
      hide DbState.Good, HeldFit, SnapshotsSorted, Running.StillFits, GrandparentsFit, Sound, Numbered, Job.Valid, Job.Before, Job.Survivors,
           ValidFiles, SortedLevel, AllMadeOf, Stored, Merged;
      GoodParts(View());
      FloorFits(snapshots, lastSequence);
      var files;
      files, j := MergeInputs(running.value);
      outputs := files;
      var tables := WriteTables(disk.tables, files, nextFile);
      StrayTables(tables);
    }

    // BackgroundCompaction with the starting files already picked: a trivial move, or a compaction whose
    // merge loop now begins; smallest_snapshot is taken here.
    method StartCompaction(l: nat, picked: seq<File>, manual: bool)
      requires Structure() && running.None? && l + 1 < kNumLevels && Ordered(levels) && Picked(levels, l, picked)
      requires !manual ==> Gapless(picked)
      modifies this`levels, this`nextFile, this`disk, this`compactPointer, this`running
      ensures Structure() && St().All() == old(St().All())
      ensures forall u :: Faithful(u) <==> old(Faithful(u))
      ensures Begins(options, old(levels), l, picked, manual, old(Floor()), old(compactPointer), old(Recorded()), running, levels,
                     compactPointer, Recorded())
      ensures running.Some? ==> View() == old(View())
      ensures running.None? ==> St() == old(St()).(levels := levels)
    {
      hide DbState.Good, Ordered, GoodInputs, Picked, HeldFit, SnapshotsSorted, ReadsHistory, MeetsRange, Gapless, NoGap, Store.All, Running.StillFits,
           SetUp, GrandparentsAre, Begins, BeginsWith, InputsOf, IsLargestKey;
      PickedValid(levels, l, picked);
      var in0, in1, pointer := SetupOtherInputs(levels, l, picked, 25 * options.maxFileSize);
      InputsValid(levels, l, in0, in1);
      var grandparents := Grandparents(levels, l, in0, in1);
      ghost var before, pointers, recorded := levels, compactPointer, Recorded();
      AreInputs(options, levels, l, picked, in0, in1, grandparents, pointer);
      compactPointer := compactPointer[l := Some(pointer)];
      if !manual && |in0| == 1 && in1 == [] && TotalFileSize(grandparents) <= 10 * options.maxFileSize {
        TrivialMove(l, in0, pointer);
      } else {
        var r := Running(levels, l, in0, in1, grandparents, Floor(), manual, pointer);
        NowRunning(r, levels);
        running := Some(r);
      }
      IsBegun(options, before, l, in0, in1, grandparents, pointer, manual, Floor(), running, levels);
      HasBegun(options, before, l, picked, in0, in1, grandparents, pointer, manual, Floor(), pointers, recorded, running, levels,
               compactPointer, Recorded());
    }

    method TrivialMove(l: nat, in0: seq<File>, pointer: InternalKey)
      requires Structure() && running.None? && l + 1 < kNumLevels && Ordered(levels) && GoodInputs(levels, l, in0, []) && |in0| == 1
      modifies this`levels, this`nextFile, this`disk
      ensures Structure() && St().All() == old(St().All()) && nextFile == old(nextFile)
      ensures |old(levels)| == kNumLevels && Installed(old(levels), levels, l, in0, [], in0)
      ensures Recorded() == old(Recorded())[l := Some(pointer)]
    {
      hide DbState.Good, Ordered, GoodInputs, Sound, AllAscending, Numbering, HeldFit, SnapshotsSorted, Applied, Installed, Commits;
      GoodParts(View());
      SoundOrdered(St(), history);
      InputsAreFiles(levels, l, in0, []);
      MovedIsValid(levels, l, in0);
      MovedIsFresh(levels, nextFile, l, in0);
      NumberBelow(levels, nextFile, l, in0[0]);
      ghost var next := nextFile;
      var v := InstallCompaction(levels, l, in0, [], in0, next);
      MoveSound(St(), history, v, l, in0);
      InstalledNumbering(levels, v, l, in0, [], in0, nextFile, nextFile);
      InstalledAscending(levels, v, l, in0, [], in0);
      MoveCommits(View(), l, in0, v);
      RecordInstalled(CompactionEdit(l, in0, [], in0), v, disk.tables, nextFile, l, pointer);
    }

    // LogAndApply's manifest record and version switch, the log number unchanged.
    method RecordInstalled(edit: B.VersionEdit, v: seq<seq<File>>, tables: map<nat, seq<Entry>>, next: nat, l: nat, pointer: InternalKey)
      requires Structure() && running.None? && |levels| == kNumLevels && Commits(View(), edit, v, tables, next)
      requires StoredIn(v) <= StoredIn(levels) && Sound(St().(levels := v), history) && l < kNumLevels
      modifies this`levels, this`nextFile, this`disk
      ensures Structure() && levels == v && nextFile == next && Recorded() == old(Recorded())[l := Some(pointer)]
    {
      hide DbState.Good, HeldFit, SnapshotsSorted, Commits, Sound;
      InstallKeeps(View(), edit, v, tables, next, [(l, pointer)]);
      GoodParts(View());
      CommitParts(View(), edit, v, tables, next);
      HeldStay(held, disk.tables, nextFile, tables, next);
      var from := LastNumbers(disk.manifest).value.logNumber;
      OnePointer(disk.manifest, Record(edit, Some(Numbers(from, next, lastSequence)), [(l, pointer)]), l, pointer);
      disk := disk.(tables := tables, manifest := disk.manifest + [Record(edit, Some(Numbers(from, next, lastSequence)), [(l, pointer)])]);
      levels, nextFile := v, next;
    }

    // DoCompactionWork: the output tables, not yet installed.
    method MergeInputs(r: Running) returns (outputs: seq<File>, ghost j: Job)
      requires Sound(St(), history) && RunningFits(Some(r), levels, Floor()) && Floor() <= |history|
      ensures j.Valid() && j.levels == r.base && j.l == r.l && j.in0 == r.in0 && j.in1 == r.in1
      ensures j.smallest == r.smallest && j.floor == Floor() && j.Before() == St().All()
      ensures j.above == St().Above() + FlushedSince(r.base, levels)
      ensures Numbered(outputs, nextFile) && ValidFiles(outputs) && SortedLevel(outputs)
      ensures AllMadeOf(outputs, r.in0, r.in1) && Stored(outputs) == j.Survivors() && Merged(options, r, j, outputs, nextFile)
    {
      hide Ordered, Newer, AllAscending, GoodInputs, AllRecorded, Sound, Numbered, AllMadeOf, Job.Loses, FlushedSince, Running.OldStays,
           Running.OthersAreNew, Gapless, NoGap;
      SoundOrdered(St(), history);
      var input := CompactionInput(r.base, r.l, r.in0, r.in1);
      GrandparentsValid(r.base, r.l, r.grandparents);
      var c := new Compaction(r.l, r.base, r.grandparents, 10 * options.maxFileSize, options.maxFileSize, options.tableSize);
      outputs := DoCompactionWork(c, input, r.smallest, nextFile);
      j := Job(r.base, r.l, r.in0, r.in1, input, St().Above() + FlushedSince(r.base, levels), r.smallest, Floor());
      JobCoversStore(St(), r, j);
      OutputsFit(j, outputs, nextFile);
    }

    // The end of DoCompactionWork: InstallCompactionResults.  If an output straddles a table flushed to its
    // level meanwhile, the check in Builder::SaveTo stops a debug build, and nothing is installed.
    method FinishCompaction() returns (clash: bool, ghost j: Job, ghost outputs: seq<File>)
      requires Structure() && running.Some?
      modifies this`levels, this`nextFile, this`disk, this`running
      ensures Structure() && running.None?
      ensures var r := old(running.value);
              && j.Valid() && j.levels == r.base && j.l == r.l && j.in0 == r.in0 && j.in1 == r.in1
              && j.smallest == r.smallest && j.floor == Floor() && j.Before() == old(St().All())
              && r.Placed() && |old(levels)| == kNumLevels && ValidFiles(outputs) && AllMadeOf(outputs, r.in0, r.in1)
              && Stored(outputs) == j.Survivors()
              && (clash <==> !r.Clear(old(levels), outputs)) && Merged(options, r, j, outputs, old(nextFile))
              && (!clash ==> Installed(old(levels), levels, r.l, r.in0, r.in1, outputs))
              && Recorded() == if clash then old(Recorded()) else old(Recorded())[r.l := Some(r.pointer)]
      ensures clash ==> old(running.value.manual) && St() == old(St())
      ensures !clash ==> Tidy() && St().All() == j.After()
      ensures forall u :: old(Faithful(u)) ==> (Faithful(u) <==> clash || !j.Loses(u))
    {
      hide DbState.Good, HeldFit, SnapshotsSorted, Ordered, Newer, Numbering, AllAscending, GoodInputs, AllRecorded, Installed, Sound, Numbered,
           FreshOutputs, ReadsHistory, AllMadeOf, Job.Valid, Job.Loses, Job.Before, Job.After, Job.Survivors, Stored,
           ValidFiles, SortedLevel, IsRun, Store.All, Store.Above, Applied, Commits, Running.OldStays, Running.OthersAreNew, Gapless, NoGap, Running.Clear,
           FlushedSince, Merged, NumbersIn;
      FloorFits(snapshots, lastSequence);
      GoodParts(View());
      SoundOrdered(St(), history);
      var r := running.value;
      var merged;
      merged, j := MergeInputs(r);
      outputs := merged;
      var v, tables := BuildOutputs(r, merged);
      AllLevelsValid(r, levels, v, merged);
      SortedExactlyWhenClear(r, levels, v, merged);
      if !r.manual { GaplessIsClear(r, levels, merged); }
      clash := OverlapFound(v);
      running := None;
      if !clash { InstallOutputs(r, j, merged, v, tables); }
    }

    // The outputs as tables, and LogAndApply of their edit.
    method BuildOutputs(r: Running, outputs: seq<File>) returns (v: seq<seq<File>>, tables: map<nat, seq<Entry>>)
      requires Structure() && RunningFits(Some(r), levels, Floor()) && Numbered(outputs, nextFile)
      ensures |levels| == kNumLevels && r.l + 1 < kNumLevels && Installed(levels, v, r.l, r.in0, r.in1, outputs)
      ensures Commits(View(), CompactionEdit(r.l, r.in0, r.in1, outputs), v, tables, nextFile + |outputs|)
    {
      hide DbState.Good, HeldFit, SnapshotsSorted, Ordered, Numbering, AllAscending, GoodInputs, Installed, Sound, Numbered, FreshOutputs, Applied,
           Commits, Running.OthersAreNew, Running.OldStays, Gapless, NoGap, GrandparentsFit;
      GoodParts(View());
      SoundOrdered(St(), history);
      tables := WriteTables(disk.tables, outputs, nextFile);
      InputsStay(r, levels);
      OutputsFresh(levels, nextFile, r.l, outputs);
      v := InstallCompaction(levels, r.l, r.in0, r.in1, outputs, nextFile);
      OutputCommits(View(), r.l, r.in0, r.in1, outputs, v, tables);
    }

    method InstallOutputs(r: Running, ghost j: Job, outputs: seq<File>, v: seq<seq<File>>, tables: map<nat, seq<Entry>>)
      requires Structure() && running.None? && r.StillFits(levels) && ValidFiles(outputs) && r.Clear(levels, outputs)
      requires j.Valid() && j.levels == r.base && j.l == r.l && j.in0 == r.in0 && j.in1 == r.in1 && j.floor == Floor()
      requires j.Before() == St().All() && j.above == St().Above() + FlushedSince(r.base, levels)
      requires Installed(levels, v, r.l, r.in0, r.in1, outputs)
      requires SortedLevel(outputs) && AllMadeOf(outputs, r.in0, r.in1) && Stored(outputs) == j.Survivors()
      requires Commits(View(), CompactionEdit(r.l, r.in0, r.in1, outputs), v, tables, nextFile + |outputs|)
      modifies this`levels, this`nextFile, this`disk
      ensures Structure() && Tidy() && running.None? && St().All() == j.After() && levels == v
      ensures r.l < kNumLevels && Recorded() == old(Recorded())[r.l := Some(r.pointer)]
      ensures forall u :: old(Faithful(u)) ==> (Faithful(u) <==> !j.Loses(u))
    {
      hide DbState.Good, HeldFit, SnapshotsSorted, Ordered, AllAscending, GoodInputs, AllRecorded, Installed, Sound, ReadsHistory, AllMadeOf,
           Job.Valid, Job.Loses, Job.Before, Job.After, Job.Survivors, Stored, ValidFiles, SortedLevel, Store.All, Store.Above, Commits,
           Running.StillFits, Running.Clear, FlushedSince, NumbersIn;
      GoodParts(View());
      FloorFits(snapshots, lastSequence);
      RecordedNow(View());
      ValidIsPlaced(j);
      CompactionSound(St(), history, r, j, v, outputs);
      forall u | ReadsHistory(St().All(), history, j.floor, u)
        ensures ReadsHistory(j.After(), history, j.floor, u) <==> !j.Loses(u)
      {
        FaithfulAfter(j, history, u);
      }
      RecordInstalled(CompactionEdit(r.l, r.in0, r.in1, outputs), v, tables, nextFile + |outputs|, r.l, r.pointer);
      RemoveObsoleteFiles();
    }
  }

  // DB::Open cut short, after the tables of the replayed logs are written and perhaps the new log is there:
  // the disk is as good as before.
  method OpenUnfinished(options: Options, d: Files, newLog: bool,
                        ghost levels: seq<seq<File>>, ghost h: seq<Op>, ghost base: nat, ghost order0: seq<nat>)
    returns (d': Files, ghost order': seq<nat>, ghost edit: B.VersionEdit, ghost next: nat, ghost v: seq<seq<File>>)
    requires Durable(d, levels, h, base, order0)
    ensures Durable(d', levels, h, base, order')
    ensures LastNumbers(d.manifest).Some? && d'.manifest == d.manifest && d'.logs == if newLog then d.logs[next := []] else d.logs
    ensures var first := LastNumbers(d.manifest).value.nextFile + 1;
            Rebuilt(levels, edit, v, first, next) && Caught(levels, v, h, base, |h|) && TablesWritten(d.tables, d'.tables, edit, first)
  {
    hide Ordered, AllAscending, Numbering, Replays, LiveOrder, Chain, Concat, ValidHistory, TablesPresent, Rebuilt, Caught,
         AllRecorded, UpTo, StoredIn, TablesWritten;
    d', order' := d, order0;
    var numbers, recovered, pointers := ReplayVersion(d, levels, h, base, order0);
    var first := numbers.value.nextFile + 1;
    var order := LogsToRecover(d.logs, numbers.value.logNumber);
    SameOrder(d.logs, numbers.value.logNumber, order, order0);
    NextFits(d.manifest, levels, h, base);
    var adds, later, tables, maxSequence;
    adds, later, tables, maxSequence, v :=
      RecoverLogs(d.logs, order, options.memUsage, options.writeBufferSize, options.tableSize, first, d.tables, levels, h, base);
    edit, next := adds, later;
    OldTables(d.tables, tables, adds, first);
    StrayTablesDurable(d, levels, h, base, order0, tables);
    d' := d.(tables := tables);
    if newLog {
      NewLogDurable(d', levels, h, base, order0, later);
      d', order' := d'.(logs := d'.logs[later := []]), order0 + [later];
    }
  }

  lemma OldTables(before: map<nat, seq<Entry>>, tables: map<nat, seq<Entry>>, edit: B.VersionEdit, first: nat)
    requires TablesWritten(before, tables, edit, first)
    ensures forall n :: n in before && n < first ==> n in tables && tables[n] == before[n]
  {
  }

  // ----- facts for the operations -----

  // The first LogAndApply after opening starts a new manifest.
  method LogAndApplyFirst(levels: seq<seq<File>>, edit: B.VersionEdit, numbers: Numbers, pointers: Pointers, ghost v: seq<seq<File>>)
    returns (manifest: seq<Record>, w: seq<seq<File>>)
    requires |pointers| == kNumLevels
    requires AllAscending(levels) && edit.Valid() && Applied(levels, edit, v) && AllAscending(v)
    requires forall l :: 0 <= l < kNumLevels ==> B.FreshNumbers(B.FileSet(levels[l]), l, edit.added)
    ensures manifest == NewManifest(levels, edit, numbers, PointersSet(pointers)) && w == v && PointersOf(manifest) == pointers
  {
    w := LogAndApply(levels, edit);
    var snapshot, given := WriteSnapshot(levels, pointers);
    manifest := [Record(snapshot, None, given), Record(edit, Some(numbers))];
    PointersStay(levels, edit, numbers, pointers);
    AppliedOnce(levels, edit, v, w);
  }

  method ReplayVersion(d: Files, ghost levels: seq<seq<File>>, ghost h: seq<Op>, ghost base: nat, ghost order: seq<nat>)
    returns (numbers: Option<Numbers>, recovered: seq<seq<File>>, pointers: Pointers)
    requires Durable(d, levels, h, base, order)
    ensures numbers == LastNumbers(d.manifest) && numbers.Some? && recovered == levels && pointers == PointersOf(d.manifest)
  {
    numbers, recovered, pointers := ReplayManifest(d.manifest);
    RecoversVersion(d.manifest, levels, numbers.value.nextFile, recovered);
  }

  method WriteTables(tables: map<nat, seq<Entry>>, outputs: seq<File>, next: nat) returns (r: map<nat, seq<Entry>>)
    requires Numbered(outputs, next)
    ensures forall n :: n in tables && n < next ==> n in r && r[n] == tables[n]
    ensures forall i :: 0 <= i < |outputs| ==> outputs[i].number in r && r[outputs[i].number] == outputs[i].entries
  {
    r := tables;
    for i := 0 to |outputs|
      invariant forall n :: n in tables && n < next ==> n in r && r[n] == tables[n]
      invariant forall k :: 0 <= k < i ==> outputs[k].number in r && r[outputs[k].number] == outputs[k].entries
    {
      r := r[outputs[i].number := outputs[i].entries];
    }
  }

  lemma GoodParts(s: DbState)
    requires s.Good()
    ensures Sound(s.st, s.h) && |s.st.levels| == kNumLevels && Numbering(s.st.levels, s.next)
    ensures LastNumbers(s.disk.manifest).Some? && |s.h| < kMaxSequenceNumber
  {
    hide Ordered, Replays;
    NextLater(s.disk.manifest, s.st.levels, LastNumbers(s.disk.manifest).value.nextFile, s.next);
  }

  lemma NoPointer(manifest: seq<Record>, r: Record)
    requires r.pointers == []
    ensures PointersOf(manifest + [r]) == PointersOf(manifest)
  {
    PointersAppended(manifest, r);
  }

  lemma OnePointer(manifest: seq<Record>, r: Record, l: nat, pointer: InternalKey)
    requires r.pointers == [(l, pointer)] && l < kNumLevels
    ensures PointersOf(manifest + [r]) == PointersOf(manifest)[l := Some(pointer)]
  {
    PointersAppended(manifest, r);
    assert [(l, pointer)][..0] == [];
  }

  lemma CommitParts(s: DbState, edit: B.VersionEdit, v: seq<seq<File>>, tables: map<nat, seq<Entry>>, next: nat)
    requires |s.st.levels| == kNumLevels && Commits(s, edit, v, tables, next)
    ensures s.next <= next
    ensures forall n :: n in s.disk.tables && n < s.next ==> n in tables && tables[n] == s.disk.tables[n]
  {
  }

  lemma NoChange(levels: seq<seq<File>>, edit: B.VersionEdit, v: seq<seq<File>>, next: nat)
    requires AllAscending(levels) && AllAscending(v) && edit == B.VersionEdit({}, []) && Applied(levels, edit, v)
    requires Numbering(levels, next)
    ensures v == levels && Numbering(v, next + 1)
  {
    forall l | 0 <= l < kNumLevels ensures v[l] == levels[l] {
      assert edit.AddedAt(l) == {} && edit.DeletedAt(l) == {};
      assert B.FileSet(v[l]) == B.FileSet(levels[l]);
      B.AscendingUnique(v[l], levels[l]);
    }
  }

  lemma EmptyFlush(s: DbState, edit: B.VersionEdit, tables: map<nat, seq<Entry>>)
    requires s.Good() && s.st.imm == Some([]) && edit == B.VersionEdit({}, []) && tables == s.disk.tables
    requires |s.st.levels| == kNumLevels && AllAscending(s.st.levels) && Applied(s.st.levels, edit, s.st.levels)
    requires Numbering(s.st.levels, s.next + 1)
    ensures Commits(s, edit, s.st.levels, tables, s.next + 1)
    ensures Sound(Store(s.st.mem, None, s.st.levels), s.h) && Store(s.st.mem, None, s.st.levels).All() == s.st.All()
    ensures StoredIn(s.st.levels) == StoredIn(s.st.levels) + Elements([])
  {
    DropEmptyImm(s.st, s.h);
    assert Elements([]) == {};
    assert s.st.(imm := None) == Store(s.st.mem, None, s.st.levels);
  }

  lemma FlushedParts(levels: seq<seq<File>>, v: seq<seq<File>>, l: nat, f: File)
    requires |levels| == kNumLevels && l < kNumLevels && Flushed(levels, v, l, f)
    ensures StoredIn(v) == StoredIn(levels) + Elements(f.entries) && AllAscending(v)
  {
    FlushedStored(levels[l], f, v[l]);
    FlushedEntries(levels, v, l, f);
  }

  lemma FlushCommits(s: DbState, l: nat, f: File, v: seq<seq<File>>)
    requires |s.st.levels| == kNumLevels && l < kNumLevels && f.number == s.next && f.entries != []
    requires AllAscending(v) && Applied(s.st.levels, B.VersionEdit({}, [(l, f)]), v) && Numbering(v, s.next + 1)
    ensures Commits(s, B.VersionEdit({}, [(l, f)]), v, s.disk.tables[f.number := f.entries], s.next + 1)
  {
    hide AllAscending, Applied, Numbering;
  }

  lemma MovedIsValid(levels: seq<seq<File>>, l: nat, in0: seq<File>)
    requires Ordered(levels) && l + 1 < kNumLevels && GoodInputs(levels, l, in0, []) && |in0| == 1
    ensures in0[0] in levels[l] && in0[0].entries != []
  {
    assert in0[0] in in0;
  }

  lemma MoveCommits(s: DbState, l: nat, in0: seq<File>, v: seq<seq<File>>)
    requires s.Good() && |s.st.levels| == kNumLevels && l + 1 < kNumLevels && |in0| == 1 && in0[0] in s.st.levels[l] && in0[0].entries != []
    requires Applied(s.st.levels, CompactionEdit(l, in0, [], in0), v) && AllAscending(v) && Numbering(v, s.next)
    ensures Commits(s, CompactionEdit(l, in0, [], in0), v, s.disk.tables, s.next)
  {
    hide DbState.Good, Applied, AllAscending, Numbering;
    var edit, f := CompactionEdit(l, in0, [], in0), in0[0];
    assert edit == B.VersionEdit({(l, f.number)}, [(l + 1, f)]) by {
      assert edit.deleted == {(l, f.number)};
    }
    assert Moves(s.st.levels, edit, l, f);
    MovedTable(s, l, f);
  }

  lemma MovedTable(s: DbState, l: nat, f: File)
    requires s.Good() && |s.st.levels| == kNumLevels && l < kNumLevels && f in s.st.levels[l]
    ensures f.number in s.disk.tables && s.disk.tables[f.number] == f.entries
  {
  }

  lemma OutputCommits(s: DbState, l: nat, in0: seq<File>, in1: seq<File>, outputs: seq<File>, v: seq<seq<File>>, tables: map<nat, seq<Entry>>)
    requires |s.st.levels| == kNumLevels && Numbering(s.st.levels, s.next) && l + 1 < kNumLevels && Numbered(outputs, s.next)
    requires Installed(s.st.levels, v, l, in0, in1, outputs) && Applied(s.st.levels, CompactionEdit(l, in0, in1, outputs), v)
    requires FreshOutputs(s.st.levels[l + 1], outputs) && forall f :: f in in0 ==> f in s.st.levels[l]
    requires forall n :: n in s.disk.tables && n < s.next ==> n in tables && tables[n] == s.disk.tables[n]
    requires forall i :: 0 <= i < |outputs| ==> outputs[i].number in tables && tables[outputs[i].number] == outputs[i].entries
    ensures Commits(s, CompactionEdit(l, in0, in1, outputs), v, tables, s.next + |outputs|)
  {
    hide Installed, Applied, AllAscending, Numbering, FreshOutputs;
    InstalledNumbering(s.st.levels, v, l, in0, in1, outputs, s.next, s.next + |outputs|);
    InstalledAscending(s.st.levels, v, l, in0, in1, outputs);
  }

  lemma NothingMissing(tables: map<nat, seq<Entry>>, levels: seq<seq<File>>)
    requires TablesPresent(tables, levels)
    ensures forall level, f :: level in levels && f in level ==> f.number in tables
  {
  }

  lemma SameOrder(logs: map<nat, seq<Batch>>, from: nat, a: seq<nat>, b: seq<nat>)
    requires LiveOrder(logs, from, a) && LiveOrder(logs, from, b)
    ensures a == b && forall n :: n in a ==> n in logs
  {
    IncreasingUnique(a, b);
  }

  lemma NextFits(manifest: seq<Record>, levels: seq<seq<File>>, h: seq<Op>, base: nat)
    requires ManifestFits(manifest, levels, h, base)
    ensures Numbering(levels, LastNumbers(manifest).value.nextFile + 1)
  {
    NextLater(manifest, levels, LastNumbers(manifest).value.nextFile, LastNumbers(manifest).value.nextFile + 1);
  }

  lemma OpenedShape(d: Files, levels: seq<seq<File>>, edit: B.VersionEdit, v: seq<seq<File>>, tables: map<nat, seq<Entry>>,
                    next: nat, h: seq<Op>, manifest: seq<Record>, given: seq<(nat, InternalKey)>) returns (s: DbState)
    requires |levels| == kNumLevels && manifest == NewManifest(levels, edit, Numbers(next, next + 1, |h|), given)
    ensures s == Opened(d, levels, edit, v, tables, next, h, given)
    ensures s == DbState(Store([], None, v), Files(d.logs[next := []], manifest, tables), next, 0, next + 1, h, [], |h|, |h|)
  {
    s := Opened(d, levels, edit, v, tables, next, h, given);
  }

  // The state at the end of DB::Open, and what its LogAndApply asks for.
  lemma OpenedFits(d: Files, levels: seq<seq<File>>, edit: B.VersionEdit, v: seq<seq<File>>, tables: map<nat, seq<Entry>>,
                   first: nat, next: nat, h: seq<Op>, base: nat, order: seq<nat>, given: seq<(nat, InternalKey)>)
    requires Durable(d, levels, h, base, order) && first == LastNumbers(d.manifest).value.nextFile + 1
    requires Rebuilt(levels, edit, v, first, next) && Caught(levels, v, h, base, |h|) && TablesWritten(d.tables, tables, edit, first)
    requires forall n :: n in order ==> n < next
    ensures edit.Valid() && |levels| == kNumLevels && AllAscending(levels) && AllAscending(v) && Applied(levels, edit, v)
    ensures forall l :: 0 <= l < kNumLevels ==> B.FreshNumbers(B.FileSet(levels[l]), l, edit.added)
    ensures Opened(d, levels, edit, v, tables, next, h, given).Good()
    ensures Opened(d, levels, edit, v, tables, next, h, given).st.All() == OnDisk(levels, h, base)
    ensures HeldFit([], tables, next + 1) && SnapshotsSorted([], |h|)
  {
    EditFits(d, levels, edit, v, first, next, h, base, order);
    OpenedIsGood(d, levels, edit, v, tables, first, next, h, base, order, given);
  }

  lemma EditFits(d: Files, levels: seq<seq<File>>, edit: B.VersionEdit, v: seq<seq<File>>, first: nat, next: nat,
                 h: seq<Op>, base: nat, order: seq<nat>)
    requires Durable(d, levels, h, base, order) && first == LastNumbers(d.manifest).value.nextFile + 1
    requires Rebuilt(levels, edit, v, first, next)
    ensures edit.Valid() && forall l :: 0 <= l < kNumLevels ==> B.FreshNumbers(B.FileSet(levels[l]), l, edit.added)
    ensures |levels| == kNumLevels && AllAscending(levels) && AllAscending(v) && Applied(levels, edit, v)
  {
    hide Ordered, Replays;
    NextFits(d.manifest, levels, h, base);
  }

  lemma AppliedOnce(levels: seq<seq<File>>, edit: B.VersionEdit, v: seq<seq<File>>, w: seq<seq<File>>)
    requires |levels| == kNumLevels && Applied(levels, edit, v) && Applied(levels, edit, w) && AllAscending(v) && AllAscending(w)
    ensures v == w
  {
    forall l | 0 <= l < kNumLevels ensures v[l] == w[l] { B.AscendingUnique(v[l], w[l]); }
  }

  lemma FloorFits(snapshots: seq<nat>, last: nat)
    requires SnapshotsSorted(snapshots, last)
    ensures snapshots != [] ==> snapshots[0] <= last
  {
  }

  lemma CurrentFits(s: DbState)
    requires s.Good()
    ensures HeldFit([s.st.levels], s.disk.tables, s.next)
  {
  }

  lemma BatchFits(s: DbState, batch: seq<Op>)
    requires s.Good() && |s.h| + |batch| < kMaxSequenceNumber
    requires forall i :: 0 <= i < |batch| ==> batch[i].kind <= kTypeValue
    ensures ValidHistory(s.h + batch)
  {
  }

  lemma LogPresent(s: DbState)
    requires s.Good()
    ensures s.log in s.disk.logs
  {
  }

  lemma RecordedNow(s: DbState)
    requires s.Good()
    ensures AllRecorded(s.h, s.st.All()) && ValidHistory(s.h)
  {
  }

  lemma OpIsValid(s: DbState)
    requires s.Good() && s.logged != []
    ensures s.logged[0].kind <= kTypeValue
  {
    LoggedIsValid(s);
  }

  lemma CurrentLive(s: DbState, held: seq<seq<seq<File>>>, live: set<nat>)
    requires s.Good() && NumbersIn([s.st.levels] + held) <= live
    ensures forall l, f :: 0 <= l < kNumLevels && f in s.st.levels[l] ==> f.number in live
    ensures LastNumbers(s.disk.manifest).Some?
  {
    assert s.st.levels in [s.st.levels] + held;
  }

  lemma HeldLive(held: seq<seq<seq<File>>>, tables: map<nat, seq<Entry>>, tables': map<nat, seq<Entry>>, next: nat,
                 live: set<nat>, levels: seq<seq<File>>)
    requires HeldFit(held, tables, next) && NumbersIn([levels] + held) <= live
    requires forall n :: n in tables && n in live ==> n in tables' && tables'[n] == tables[n]
    ensures HeldFit(held, tables', next)
  {
    forall i, l, f | 0 <= i < |held| && 0 <= l < |held[i]| && f in held[i][l]
      ensures f.number < next && f.number in tables' && tables'[f.number] == f.entries
    {
      assert held[i] in [levels] + held && held[i][l] in held[i];
    }
  }
}
