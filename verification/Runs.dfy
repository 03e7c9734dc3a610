/** Whole runs of the store: any sequence of writes, reads, snapshots, memtable switches, flushes,
    compactions, and crashes followed by reopening.

    `Run` refines `Reference`, a plain list of operations with a list of snapshot positions: a read
    gets the reference's reply unless some compaction before it lost a tombstone of the same user key. */
module Runs {
  import opened Keys
  import opened Reads
  import opened Versions
  import opened CompactionInputs
  import opened CompactionPick
  import opened CompactionReads
  import opened StoreState
  import opened StoreScan
  import opened Disk
  import opened Durability
  import opened Install
  import opened Interleaved
  import opened Db

  datatype Command =
    | Write(batch: seq<Op>)
    | CrashWhileWriting(batch: seq<Op>)          // after AddRecord, before the memtable
    | Crash
    | CrashWhileFlushing                         // the table is written, the manifest is not
    | CrashWhileCompacting                       // the outputs are written, the manifest is not
    | CrashWhileOpening(newLog: bool)            // a crash, and another one before recovery is recorded
    | TakeSnapshot
    | DropSnapshot(i: nat)
    | Read(user: UserKey, snapshot: Option<nat>) // at the i-th held snapshot, or now
    | Scan(snapshot: Option<nat>)                // every key from the first to the last
    | HoldVersion
    | DropVersion(i: nat)
    | SwitchMemtable
    | CompactMemTable
    | StartCompaction(l: nat)                    // the scores decided for level l
    | StartSeek(l: nat, i: nat)                  // seeks decided for the i-th file of level l
    | StartRange(l: nat, begin: Bound, end: Bound)
    | FinishCompaction                           // flushes and anything else may lie between

  datatype Reply = Silent | Got(value: Option<Bytes>) | Listed(pairs: seq<(UserKey, Bytes)>)

  // ----- the reference -----

  predicate Fits(n: nat, batch: seq<Op>) {
    n + |batch| < kMaxSequenceNumber && forall i :: 0 <= i < |batch| ==> batch[i].kind <= kTypeValue
  }

  datatype Reference = Reference(h: seq<Op>, snapshots: seq<nat>) {
    ghost predicate Valid() { forall i :: 0 <= i < |snapshots| ==> snapshots[i] <= |h| }

    // Flushes, compactions and everything else internal change nothing.
    ghost function Next(c: Command): (r: Reference)
      requires Valid()
      ensures r.Valid()
    {
      match c
      case Write(batch) => if Fits(|h|, batch) then Reference(h + batch, snapshots) else this
      case CrashWhileWriting(batch) => if Fits(|h|, batch) then Reference(h + batch, []) else this
      case Crash | CrashWhileFlushing | CrashWhileCompacting | CrashWhileOpening(_) => Reference(h, [])
      case TakeSnapshot => Reference(h, snapshots + [|h|])
      case DropSnapshot(i) => if i < |snapshots| then Reference(h, snapshots[..i] + snapshots[i + 1..]) else this
      case _ => this
    }

    predicate Holds(snapshot: Option<nat>) { snapshot.Some? ==> snapshot.value < |snapshots| }

    ghost function At(snapshot: Option<nat>): (s: nat)
      requires Valid() && Holds(snapshot)
      ensures s <= |h|
    {
      if snapshot.Some? then snapshots[snapshot.value] else |h|
    }

    // The kind of reply the command gets.
    ghost predicate Expects(c: Command, reply: Reply) {
      match c
      case Read(_, snapshot) => if Holds(snapshot) then reply.Got? else reply.Silent?
      case Scan(snapshot) => if Holds(snapshot) then reply.Listed? && KeysAscend(reply.pairs) else reply.Silent?
      case _ => reply.Silent?
    }

    // What the reply says about this user key is what the history says.
    ghost predicate Accepts(c: Command, reply: Reply, user: UserKey)
      requires Valid()
    {
      match c
      case Read(u, snapshot) => u == user && Holds(snapshot) ==> reply == Got(HistoryRead(h, user, At(snapshot)))
      case Scan(snapshot) =>
        Holds(snapshot) ==> reply.Listed? && forall v :: (user, v) in reply.pairs <==> HistoryRead(h, user, At(snapshot)) == Some(v)
      case _ => true
    }
  }

  ghost function ReferenceAfter(cs: seq<Command>): (r: Reference)
    ensures r.Valid()
  {
    if cs == [] then Reference([], []) else ReferenceAfter(cs[..|cs| - 1]).Next(cs[|cs| - 1])
  }

  // ----- compactions of the run -----

  ghost predicate Keeps(job: Option<Job>, user: UserKey) {
    job.Some? && job.value.Placed() ==> !job.value.Loses(user)
  }

  // No compaction of the run lost a tombstone of this user key.
  ghost predicate Lossless(jobs: seq<Option<Job>>, user: UserKey) {
    forall i :: 0 <= i < |jobs| ==> Keeps(jobs[i], user)
  }

  // The job describes what command c did to the store's entries.
  ghost predicate Did(c: Command, before: set<Entry>, job: Option<Job>, after: set<Entry>) {
    job.Some? ==>
      && c.FinishCompaction?
      && job.value.Valid() && job.value.Before() == before && job.value.After() == after
  }

  // ----- what a command does to the store -----

  datatype Moment = Moment(s: DbState, snapshots: seq<nat>, running: Option<Running>, pointers: Pointers) {
    ghost function All(): set<Entry> { s.st.All() }

    function Floor(): nat { if snapshots == [] then |s.h| else snapshots[0] }

    // The compaction pointers on disk.
    function Recorded(): Pointers { PointersOf(s.disk.manifest) }

    // The pointers stay, in memory and on disk.
    predicate SamePointers(b: Moment) { b.pointers == pointers && b.Recorded() == Recorded() }

    // Memtables, version, compaction and pointers stay but for more entries in the memtable.
    predicate Stays(b: Moment) {
      && b.s.st.levels == s.st.levels && b.s.st.imm == s.st.imm && b.s.base == s.base && b.s.memBase == s.memBase
      && b.running == running && SamePointers(b)
    }

    predicate Switches(b: Moment) {
      && b.s.st.levels == s.st.levels && b.s.st.imm == Some(s.st.mem) && b.s.base == s.base && b.s.memBase == |s.h|
      && b.running == running && SamePointers(b)
    }

    ghost predicate Flushes(o: Options, b: Moment)
      requires s.st.imm.Some?
    {
      && FlushedAs(o, s.st.levels, b.s.st.levels, s.st.imm.value, s.next) && b.s.st.imm.None?
      && b.s.base == b.s.memBase == s.memBase && b.running == running && SamePointers(b)
    }

    // By score: from the level's pointer on.
    ghost predicate StartsAtPointer(o: Options, l: nat, b: Moment) {
      && Ordered(s.st.levels) && l + 1 < kNumLevels && l < |pointers|
      && exists i: nat, picked :: && StartsAt(s.st.levels[l], pointers[l], i) && FilePicked(s.st.levels, l, i, picked)
                                  && Begun(o, l, picked, false, b)
    }

    ghost predicate StartsAtFile(o: Options, l: nat, i: nat, b: Moment) {
      && Ordered(s.st.levels) && l + 1 < kNumLevels && i < |s.st.levels[l]|
      && exists picked :: FilePicked(s.st.levels, l, i, picked) && Begun(o, l, picked, false, b)
    }

    ghost predicate Starts(o: Options, l: nat, begin: Bound, end: Bound, b: Moment)
      requires l + 1 < kNumLevels
    {
      && Ordered(s.st.levels)
      && exists picked :: && RangePicked(s.st.levels, l, begin, end, o.maxFileSize, picked)
                          && if picked == [] then Stays(b) && b.s == s else Begun(o, l, picked, true, b)
    }

    // The compaction of the picked files is under way, or their one file has moved down.
    ghost predicate Begun(o: Options, l: nat, picked: seq<File>, manual: bool, b: Moment) {
      && Begins(o, s.st.levels, l, picked, manual, Floor(), pointers, Recorded(), b.running, b.s.st.levels, b.pointers, b.Recorded())
      && b.s.st == s.st.(levels := b.s.st.levels) && b.s.base == s.base && b.s.memBase == s.memBase
      && (b.running.Some? ==> b.s == s)
    }

    ghost predicate Finishes(o: Options, b: Moment, job: Option<Job>)
      requires running.Some?
    {
      var r := running.value;
      && |s.st.levels| == kNumLevels && r.l + 1 < kNumLevels && job.Some? && job.value.floor == Floor()
      && (exists outputs :: Merged(o, r, job.value, outputs, s.next) && Installed(s.st.levels, b.s.st.levels, r.l, r.in0, r.in1, outputs))
      && b.s.st.imm == s.st.imm && b.s.base == s.base && b.s.memBase == s.memBase && b.running == None
      && b.pointers == pointers && b.Recorded() == Recorded()[r.l := Some(r.pointer)]
    }

    // The store was opened again, without memtables, and nothing is under way; the pointers are those recorded.
    predicate Restarts(b: Moment) {
      && b.s.st.mem == [] && b.s.st.imm.None? && b.s.base == b.s.memBase == |b.s.h|
      && b.running.None? && b.pointers == b.Recorded() == Recorded()
    }

    ghost predicate Moves(o: Options, c: Command, b: Moment, job: Option<Job>) {
      match c
      case Write(_) | TakeSnapshot | DropSnapshot(_) | Read(_, _) | Scan(_) | HoldVersion | DropVersion(_) => Stays(b)
      case SwitchMemtable => if s.st.imm.None? then Switches(b) else Stays(b)
      case CompactMemTable => if s.st.imm.Some? then Flushes(o, b) else Stays(b)
      case StartCompaction(l) =>
        if running.None? && l + 1 < kNumLevels && l < |s.st.levels| && s.st.levels[l] != [] then StartsAtPointer(o, l, b) else Stays(b)
      case StartSeek(l, i) =>
        if running.None? && l + 1 < kNumLevels && l < |s.st.levels| && i < |s.st.levels[l]| then StartsAtFile(o, l, i, b) else Stays(b)
      case StartRange(l, begin, end) => if running.None? && l + 1 < kNumLevels then Starts(o, l, begin, end, b) else Stays(b)
      case FinishCompaction => if running.Some? then Finishes(o, b, job) else Stays(b)
      case CrashWhileWriting(batch) => if Fits(|s.h|, batch) then Restarts(b) else Stays(b)
      case Crash | CrashWhileFlushing | CrashWhileCompacting | CrashWhileOpening(_) => Restarts(b)
    }

    // A read of the newest state answers with the newest entry of all.
    ghost predicate Answers(c: Command, reply: Reply) {
      c.Read? && c.snapshot.None? ==> reply.Got? && ReadsAs(All(), c.user, |s.h|, reply.value)
    }
  }

  ghost function MomentOf(db: DBImpl): Moment
    reads db
  {
    Moment(db.View(), db.snapshots, db.running, db.compactPointer)
  }

  ghost predicate Step(o: Options, a: Moment, c: Command, reply: Reply, b: Moment, job: Option<Job>) {
    Did(c, a.All(), job, b.All()) && a.Moves(o, c, b, job) && a.Answers(c, reply)
  }

  // The moment stands where the reference does.
  ghost predicate Stands(m: Moment, r: Reference) {
    m.s.Good() && m.s.logged == [] && m.s.h == r.h && m.snapshots == r.snapshots
  }

  ghost predicate Beginning(m: Moment) {
    m.s.st == Store([], None, NoFiles()) && m.s.base == m.s.memBase == 0 && m.running.None?
  }

  // The moments between the commands, and the compactions of those that were one.
  ghost predicate Happened(o: Options, cs: seq<Command>, replies: seq<Reply>, moments: seq<Moment>, jobs: seq<Option<Job>>) {
    && |moments| == |cs| + 1 && |jobs| == |replies| == |cs| && Beginning(moments[0])
    && (forall i :: 0 <= i < |cs| ==> Step(o, moments[i], cs[i], replies[i], moments[i + 1], jobs[i]))
    && (forall i :: 0 <= i <= |cs| ==> Stands(moments[i], ReferenceAfter(cs[..i])))
  }

  lemma HappenedNext(o: Options, cs: seq<Command>, replies: seq<Reply>, moments: seq<Moment>, jobs: seq<Option<Job>>,
                     c: Command, reply: Reply, m: Moment, job: Option<Job>)
    requires Happened(o, cs, replies, moments, jobs) && Step(o, moments[|cs|], c, reply, m, job) && Stands(m, ReferenceAfter(cs + [c]))
    ensures Happened(o, cs + [c], replies + [reply], moments + [m], jobs + [job])
  {
    hide Step, Stands, Beginning, ReferenceAfter;
    var all := cs + [c];
    assert all[..|all|] == all;
    forall i | 0 <= i <= |cs| ensures all[..i] == cs[..i] {}
  }

  lemma LosslessNext(jobs: seq<Option<Job>>, job: Option<Job>)
    ensures forall u :: Lossless(jobs + [job], u) <==> Lossless(jobs, u) && Keeps(job, u)
  {
    hide Keeps;
    var jobs' := jobs + [job];
    assert jobs'[|jobs|] == job && forall i :: 0 <= i < |jobs| ==> jobs'[i] == jobs[i];
  }

  // ----- one command -----

  // The store stands where the reference does.
  ghost predicate At(db: DBImpl, r: Reference)
    reads db
  {
    db.Structure() && db.logged == [] && db.history == r.h && db.snapshots == r.snapshots
  }

  lemma AtFacts(db: DBImpl, r: Reference)
    requires At(db, r)
    ensures db.Structure() && db.logged == [] && db.lastSequence == |r.h| && db.snapshots == r.snapshots
    ensures r.Valid() && Ordered(db.levels) && |db.compactPointer| == kNumLevels
  {
  }

  // Nothing is in a memtable or under way.
  ghost predicate Reopened(db: DBImpl)
    reads db
  {
    db.base == db.memBase == |db.history| && db.mem == [] && db.imm.None? && db.running.None? && db.compactPointer == db.Recorded()
  }

  // A crash loses the memtables and the snapshots; the disk is opened again.
  method Reopen(db: DBImpl) returns (db': DBImpl)
    requires db.Structure()
    ensures fresh(db') && At(db', Reference(db.history + db.logged, [])) && Reopened(db') && db'.compactPointer == old(db.Recorded()) && db'.options == db.options
    ensures forall u :: db.Faithful(u) ==> db'.Faithful(u)
  {
    DurableNow(db.View());
    hide DBImpl.Structure, DBImpl.Faithful, Durable;
    db' := OpenOn(db, db.disk, db.View().Order());
  }

  // ... twice, the first time with no success.
  method ReopenTwice(db: DBImpl, newLog: bool) returns (db': DBImpl)
    requires db.Structure()
    ensures fresh(db') && At(db', Reference(db.history + db.logged, [])) && Reopened(db') && db'.compactPointer == old(db.Recorded()) && db'.options == db.options
    ensures forall u :: db.Faithful(u) ==> db'.Faithful(u)
  {
    ghost var s := db.View();
    DurableNow(s);
    hide DBImpl.Structure, DBImpl.Faithful, Durable;
    var d;
    ghost var order;
    ghost var edit, next, v;
    d, order, edit, next, v := OpenUnfinished(db.options, db.disk, newLog, s.st.levels, s.h + s.logged, s.base, s.Order());
    db' := OpenOn(db, d, order);
  }

  method OpenOn(db: DBImpl, d: Files, ghost order: seq<nat>) returns (db': DBImpl)
    requires db.Structure() && Durable(d, db.levels, db.history + db.logged, db.base, order) && d.manifest == db.disk.manifest
    ensures fresh(db') && At(db', Reference(db.history + db.logged, [])) && Reopened(db') && db'.compactPointer == old(db.Recorded()) && db'.options == db.options
    ensures forall u :: db.Faithful(u) ==> db'.Faithful(u)
  {
    ghost var s := db.View();
    FloorIsValid(db);
    forall u | db.Faithful(u)
      ensures ReadsHistory(OnDisk(s.st.levels, s.h + s.logged, s.base), s.h + s.logged, |s.h + s.logged|, u)
    {
      CrashIsHarmless(s, db.Floor(), u);
    }
    hide ReadsHistory, Durable, OnDisk, DbState.Good, SnapshotsSorted, HeldFit, PointersOf, NumbersIn;
    db' := new DBImpl(db.options);
    var ok := db'.Open(d, s.st.levels, s.h + s.logged, s.base, order);
  }

  lemma DurableNow(s: DbState)
    requires s.Good()
    ensures Durable(s.disk, s.st.levels, s.h + s.logged, s.base, s.Order())
  {
  }

  lemma FloorIsValid(db: DBImpl)
    requires db.Structure()
    ensures db.Floor() <= |db.history|
  {
  }

  // A compaction chosen by hand is under way.
  ghost predicate ByHand(db: DBImpl)
    reads db
  {
    db.running.Some? && db.running.value.manual
  }

  // A compaction of the picked files of level l begins; those picked by score or seeks leave no gap.
  method Start(db: DBImpl, l: nat, picked: seq<File>, manual: bool, ghost r: Reference)
    requires At(db, r) && db.running.None? && l + 1 < kNumLevels && Ordered(db.levels) && Picked(db.levels, l, picked)
    requires !manual ==> ValidFiles(picked) && Gapless(picked)
    modifies db
    ensures At(db, r) && db.St().All() == old(db.St().All())
    ensures forall u :: old(db.Faithful(u)) ==> db.Faithful(u)
    ensures old(MomentOf(db)).Begun(db.options, l, picked, manual, MomentOf(db))
    ensures ByHand(db) ==> manual
  {
    hide DBImpl.Structure, DBImpl.Faithful, Ordered, Picked, Gapless, Store.All, Running.StillFits, Begins, Moment.Begun, InputsOf, BeginsWith, Moment.Floor,
         DBImpl.Floor;
    AtFloor(db, r);
    ghost var before := MomentOf(db);
    db.StartCompaction(l, picked, manual);
    HasBegunAt(before, db.options, l, picked, manual, MomentOf(db));
  }

  lemma HasBegunAt(a: Moment, o: Options, l: nat, picked: seq<File>, manual: bool, b: Moment)
    requires Begins(o, a.s.st.levels, l, picked, manual, a.Floor(), a.pointers, a.Recorded(), b.running, b.s.st.levels, b.pointers, b.Recorded())
    requires b.s.st == a.s.st.(levels := b.s.st.levels) && b.s.base == a.s.base && b.s.memBase == a.s.memBase
    requires b.running.Some? ==> b.s == a.s
    ensures a.Begun(o, l, picked, manual, b) && (b.running.Some? && b.running.value.manual ==> manual)
  {
    hide Begins, Moment.Floor;
    BegunIs(o, a.s.st.levels, l, picked, manual, a.Floor(), a.pointers, a.Recorded(), b.running, b.s.st.levels, b.pointers, b.Recorded());
  }

  lemma BegunIs(o: Options, levels: seq<seq<File>>, l: nat, picked: seq<File>, manual: bool, smallest: nat,
                pointers: Pointers, recorded: Pointers, running: Option<Running>, v: seq<seq<File>>, pointers': Pointers, recorded': Pointers)
    requires Begins(o, levels, l, picked, manual, smallest, pointers, recorded, running, v, pointers', recorded')
    ensures running.Some? ==> running.value.manual == manual
  {
    hide InputsOf, Installed;
  }

  // What a compaction by hand has begun with.
  lemma BegunByHand(o: Options, m: Moment, l: nat, picked: seq<File>, b: Moment)
    requires m.Begun(o, l, picked, true, b)
    ensures b.s == m.s && b.running.Some?
    ensures var r := b.running.value;
            && r.l == l && r.smallest == m.Floor() && r.manual && r.base == m.s.st.levels && r.Placed() && ValidFiles(r.in0) && (forall f :: f in picked ==> f in r.in0)
            && SetUp(r.base, l, picked, 25 * o.maxFileSize, r.in0, r.in1) && MeetsRange(r.base, l, r.in0, r.in1)
            && GrandparentsAre(r.base, l, r.in0, r.in1, r.grandparents)
  {
    var in0, in1, g, k :| InputsOf(o, m.s.st.levels, l, picked, in0, in1, g, k)
                          && BeginsWith(o, m.s.st.levels, l, in0, in1, g, k, true, m.Floor(), b.running, b.s.st.levels);
    InputsValid(m.s.st.levels, l, in0, in1);
    hide Ordered, GoodInputs, SetUp, MeetsRange, GrandparentsAre, IsLargestKey, Moment.Floor;
  }

  // The files that stop a compaction: an output straddles one that was flushed meanwhile.
  datatype Clash = Clash(running: Running, levels: seq<seq<File>>, outputs: seq<File>) {
    ghost predicate Real() {
      && running.StillFits(levels) && ValidFiles(outputs) && AllMadeOf(outputs, running.in0, running.in1)
      && running.manual && !running.Clear(levels, outputs)
    }

    // It is what the merge loop made of the compaction under way, and the version at that moment.
    ghost predicate Of(o: Options, m: Moment) {
      m.running == Some(running) && levels == m.s.st.levels && exists j :: Merged(o, running, j, outputs, m.s.next)
    }
  }

  method Finish(db: DBImpl, ghost r: Reference) returns (stop: bool, ghost job: Option<Job>, ghost clash: Clash)
    requires At(db, r) && db.running.Some?
    modifies db
    ensures At(db, r) && db.running.None?
    ensures forall u :: old(db.Faithful(u)) && Keeps(job, u) ==> db.Faithful(u)
    ensures Did(FinishCompaction, old(db.St().All()), job, db.St().All())
    ensures if stop then clash.Real() && old(ByHand(db)) && clash.Of(db.options, old(MomentOf(db)))
            else old(MomentOf(db)).Finishes(db.options, MomentOf(db), job)
  {
    hide Job.Valid, Job.Loses, Job.Before, Job.After, Job.Survivors, Ordered, GoodInputs, Store.All, Running.Clear, AllMadeOf, ValidFiles, Merged,
         Installed;
    RunningFacts(db.running, db.levels, db.Floor());
    hide DBImpl.Structure, DBImpl.Faithful, Running.StillFits, Running.Placed, DBImpl.Floor, Moment.Floor, PointersOf, Moment.Finishes;
    ghost var before := MomentOf(db);
    AtFloor(db, r);
    ghost var j, outputs;
    stop, j, outputs := db.FinishCompaction();
    clash := Clash(before.running.value, before.s.st.levels, outputs);
    job := if stop then None else Some(j);
    ValidIsPlaced(j);
    if stop {
      assert Merged(db.options, before.running.value, j, outputs, before.s.next);
    } else {
      Finished(db.options, before, MomentOf(db), j, outputs);
    }
  }

  lemma AtFloor(db: DBImpl, r: Reference)
    requires At(db, r)
    ensures db.Floor() == MomentOf(db).Floor()
  {
  }

  lemma Finished(o: Options, a: Moment, b: Moment, j: Job, outputs: seq<File>)
    requires a.running.Some? && |a.s.st.levels| == kNumLevels && a.running.value.l + 1 < kNumLevels && j.floor == a.Floor()
    requires Merged(o, a.running.value, j, outputs, a.s.next)
    requires Installed(a.s.st.levels, b.s.st.levels, a.running.value.l, a.running.value.in0, a.running.value.in1, outputs)
    requires b.s.st.imm == a.s.st.imm && b.s.base == a.s.base && b.s.memBase == a.s.memBase && b.running == None
    requires b.pointers == a.pointers && b.Recorded() == a.Recorded()[a.running.value.l := Some(a.running.value.pointer)]
    ensures a.Finishes(o, b, Some(j))
  {
    hide Merged, Installed;
  }

  // Whether the command meets what the store asks of its callers; it is skipped otherwise.
  predicate Enabled(db: DBImpl, c: Command)
    reads db
  {
    match c
    case Write(batch) => Fits(db.lastSequence, batch)
    case CrashWhileWriting(batch) => Fits(db.lastSequence, batch)
    case DropSnapshot(i) => i < |db.snapshots|
    case Read(user, snapshot) => snapshot.Some? ==> snapshot.value < |db.snapshots|
    case Scan(snapshot) => snapshot.Some? ==> snapshot.value < |db.snapshots|
    case DropVersion(i) => i < |db.held|
    case SwitchMemtable => db.imm.None?
    case CompactMemTable => db.imm.Some?
    case StartCompaction(l) => db.running.None? && l + 1 < kNumLevels && l < |db.levels| && db.levels[l] != []
    case StartSeek(l, i) => db.running.None? && l + 1 < kNumLevels && l < |db.levels| && i < |db.levels[l]|
    case StartRange(l, begin, end) => db.running.None? && l + 1 < kNumLevels
    case FinishCompaction => db.running.Some?
    case _ => true
  }

  method Background(db: DBImpl, c: Command, ghost r: Reference) returns (stop: bool, ghost job: Option<Job>, ghost clash: Option<Clash>)
    requires At(db, r) && Enabled(db, c)
    requires c.SwitchMemtable? || c.CompactMemTable? || c.StartCompaction? || c.StartSeek? || c.StartRange? || c.FinishCompaction?
    modifies db
    ensures At(db, r)
    ensures forall u :: old(db.Faithful(u)) && Keeps(job, u) ==> db.Faithful(u)
    ensures Did(c, old(db.St().All()), job, db.St().All())
    ensures ByHand(db) ==> old(ByHand(db)) || c.StartRange?
    ensures stop == clash.Some?
    ensures if stop then c.FinishCompaction? && clash.value.Real() && old(ByHand(db)) && clash.value.Of(db.options, old(MomentOf(db)))
            else old(MomentOf(db)).Moves(db.options, c, MomentOf(db), job)
  {
    hide DBImpl.Structure, DBImpl.Faithful, At, Keeps, Ordered, Picked, Job.Valid, Job.Before, Job.After, Store.All, Reference.Valid, Clash.Real,
         Clash.Of, RangePicked, Moment.Begun, Moment.Finishes, Moment.Flushes, Moment.Switches;
    AtFacts(db, r);
    stop, job, clash := false, None, None;
    match c {
      case SwitchMemtable | CompactMemTable => Memtables(db, c, r);
      case StartCompaction(l) =>
        var picked := PickCompaction(db.levels, l, db.compactPointer[l]);
        PickedValid(db.levels, l, picked);
        Start(db, l, picked, false, r);
      case StartSeek(l, i) =>
        var picked := PickFile(db.levels, l, i);
        PickedValid(db.levels, l, picked);
        Start(db, l, picked, false, r);
      case StartRange(l, begin, end) =>
        var picked := CompactionPick.CompactRange(db.levels, l, begin, end, db.options.maxFileSize);
        if picked != [] { Start(db, l, picked, true, r); }
      case FinishCompaction =>
        ghost var found;
        stop, job, found := Finish(db, r);
        clash := if stop then Some(found) else None;
    }
  }

  method Memtables(db: DBImpl, c: Command, ghost r: Reference)
    requires At(db, r) && Enabled(db, c) && (c.SwitchMemtable? || c.CompactMemTable?)
    modifies db
    ensures At(db, r) && db.running == old(db.running) && db.St().All() == old(db.St().All())
    ensures forall u :: old(db.Faithful(u)) ==> db.Faithful(u)
    ensures old(MomentOf(db)).Moves(db.options, c, MomentOf(db), None)
  {
    hide DBImpl.Structure, DBImpl.Faithful, FlushedAs, Moment.Moves, PointersOf;
    ghost var before := MomentOf(db);
    if c.SwitchMemtable? {
      db.SwitchMemtable();
      SwitchMoves(db.options, before, c, MomentOf(db));
    } else {
      db.CompactMemTable();
      FlushMoves(db.options, before, c, MomentOf(db));
    }
  }

  lemma SwitchMoves(o: Options, a: Moment, c: Command, b: Moment)
    requires c.SwitchMemtable? && a.s.st.imm.None? && a.Switches(b)
    ensures a.Moves(o, c, b, None)
  {
  }

  lemma FlushMoves(o: Options, a: Moment, c: Command, b: Moment)
    requires c.CompactMemTable? && a.s.st.imm.Some? && a.Flushes(o, b)
    ensures a.Moves(o, c, b, None)
  {
  }

  method ReadAt(db: DBImpl, user: UserKey, snapshot: Option<nat>, ghost r: Reference) returns (reply: Reply)
    requires At(db, r) && r.Valid() && Enabled(db, Read(user, snapshot))
    ensures r.Expects(Read(user, snapshot), reply)
    ensures forall u :: db.Faithful(u) ==> r.Accepts(Read(user, snapshot), reply, u)
    ensures MomentOf(db).Answers(Read(user, snapshot), reply)
  {
    hide DBImpl.Structure, DBImpl.Faithful, ReadsAs;
    var at := if snapshot.Some? then Some(db.snapshots[snapshot.value]) else None;
    var v := db.Get(user, at);
    reply := Got(v);
  }

  method ScanAt(db: DBImpl, snapshot: Option<nat>, ghost r: Reference) returns (reply: Reply)
    requires At(db, r) && r.Valid() && Enabled(db, Scan(snapshot))
    ensures r.Expects(Scan(snapshot), reply)
    ensures forall u :: db.Faithful(u) ==> r.Accepts(Scan(snapshot), reply, u)
  {
    hide DBImpl.Structure, DBImpl.Faithful, ReadsAs, KeysAscend;
    var at := if snapshot.Some? then Some(db.snapshots[snapshot.value]) else None;
    var pairs := db.Scan(at);
    reply := Listed(pairs);
  }

  predicate Crashing(c: Command) { c.Crash? || c.CrashWhileFlushing? || c.CrashWhileCompacting? || c.CrashWhileOpening? }

  // The tables with that of a flushed memtable; an empty one has none.
  function WithFlushed(tables: map<nat, seq<Entry>>, imm: Option<seq<Entry>>, number: nat): map<nat, seq<Entry>> {
    if imm.Some? && imm.value != [] then tables[number := imm.value] else tables
  }

  ghost predicate Written(outputs: seq<File>, tables: map<nat, seq<Entry>>) {
    forall i :: 0 <= i < |outputs| ==> outputs[i].number in tables && tables[outputs[i].number] == outputs[i].entries
  }

  // A crash when nothing is half written, or while tables of a flush, a compaction or a recovery are on
  // disk that the manifest does not mention.
  method Crashes(db: DBImpl, c: Command, ghost r: Reference) returns (db': DBImpl)
    requires At(db, r) && Enabled(db, c) && Crashing(c) && r.Valid()
    modifies db
    ensures fresh(db') && At(db', Reference(r.h, [])) && Reopened(db') && db'.compactPointer == old(db.Recorded()) && db'.options == db.options
    ensures forall u :: old(db.Faithful(u)) ==> db'.Faithful(u)
    ensures c.CrashWhileFlushing? ==> db.disk == old(db.disk).(tables := WithFlushed(old(db.disk.tables), old(db.imm), old(db.nextFile)))
    ensures c.CrashWhileCompacting? && old(db.running).Some? ==>
              exists j, outputs :: Merged(db.options, old(db.running).value, j, outputs, old(db.nextFile)) && Written(outputs, db.disk.tables)
  {
    hide DBImpl.Structure, DBImpl.Faithful, Picked, Ordered, Merged;
    AtFacts(db, r);
    if c.CrashWhileFlushing? {
      if db.imm.Some? { db.FlushUnrecorded(); }
    } else if c.CrashWhileCompacting? {
      if db.running.Some? {
        ghost var j, outputs;
        j, outputs := db.CompactUnrecorded();
      }
    }
    assert db.history + db.logged == r.h;
    if c.CrashWhileOpening? { db' := ReopenTwice(db, c.newLog); } else { db' := Reopen(db); }
  }

  // Writes and crashes.
  method Foreground(db: DBImpl, c: Command, ghost r: Reference) returns (db': DBImpl)
    requires At(db, r) && Enabled(db, c) && (c.Write? || c.CrashWhileWriting? || Crashing(c)) && r.Valid()
    modifies db
    ensures ByHand(db') ==> old(ByHand(db))
    ensures db'.options == db.options && old(MomentOf(db)).Moves(db.options, c, MomentOf(db'), None)
    ensures db' == db || fresh(db')
    ensures At(db', r.Next(c))
    ensures forall u :: old(db.Faithful(u)) ==> db'.Faithful(u)
  {
    hide DBImpl.Structure, DBImpl.Faithful, Moment.Moves, Reopened;
    AtFacts(db, r);
    db' := db;
    ghost var before := MomentOf(db);
    if c.Write? {
      db.Write(c.batch);
      WriteMoves(db.options, before, c, MomentOf(db));
    } else if c.CrashWhileWriting? {
      db.AddRecord(c.batch);
      db' := Reopen(db);
      CrashMoves(db.options, before, c, db');
    } else {
      db' := Crashes(db, c, r);
      CrashMoves(db.options, before, c, db');
    }
  }

  lemma CrashMoves(o: Options, a: Moment, c: Command, db: DBImpl)
    requires Reopened(db) && db.compactPointer == a.Recorded() && (Crashing(c) || (c.CrashWhileWriting? && Fits(|a.s.h|, c.batch)))
    ensures a.Moves(o, c, MomentOf(db), None) && !ByHand(db)
  {
  }

  lemma WriteMoves(o: Options, a: Moment, c: Command, b: Moment)
    requires c.Write? && a.Stays(b)
    ensures a.Moves(o, c, b, None)
  {
  }

  // Snapshots and versions in use.
  method References(db: DBImpl, c: Command, ghost r: Reference)
    requires At(db, r) && r.Valid() && Enabled(db, c)
    requires c.TakeSnapshot? || c.DropSnapshot? || c.HoldVersion? || c.DropVersion?
    modifies db`snapshots, db`held
    ensures At(db, r.Next(c)) && (ByHand(db) <==> old(ByHand(db)))
    ensures old(MomentOf(db)).Moves(db.options, c, MomentOf(db), None)
    ensures forall u :: old(db.Faithful(u)) ==> db.Faithful(u)
  {
    hide DBImpl.Structure, DBImpl.Faithful, At;
    if c.TakeSnapshot? || c.DropSnapshot? { Snapshots(db, c, r); } else { Holds(db, c, r); }
  }

  method Snapshots(db: DBImpl, c: Command, ghost r: Reference)
    requires At(db, r) && r.Valid() && Enabled(db, c) && (c.TakeSnapshot? || c.DropSnapshot?)
    modifies db`snapshots
    ensures At(db, r.Next(c))
    ensures forall u :: old(db.Faithful(u)) ==> db.Faithful(u)
  {
    hide DBImpl.Structure, DBImpl.Faithful;
    AtFacts(db, r);
    if c.TakeSnapshot? { var s := db.GetSnapshot(); } else { db.ReleaseSnapshot(c.i); }
  }

  function Without<T>(s: seq<T>, i: nat): seq<T> { if i < |s| then s[..i] + s[i + 1..] else s }

  method Holds(db: DBImpl, c: Command, ghost r: Reference)
    requires At(db, r) && Enabled(db, c) && (c.HoldVersion? || c.DropVersion?)
    modifies db`held
    ensures At(db, r) && db.held == if c.HoldVersion? then old(db.held) + [db.levels] else Without(old(db.held), c.i)
    ensures forall u :: old(db.Faithful(u)) ==> db.Faithful(u)
  {
    hide DBImpl.Structure, DBImpl.Faithful;
    if c.HoldVersion? { db.HoldVersion(); } else { db.ReleaseVersion(c.i); }
  }

  lemma SkippedIsNothing(db: DBImpl, c: Command, r: Reference)
    requires At(db, r) && !Enabled(db, c)
    ensures r.Valid() && r.Next(c) == r && r.Expects(c, Silent) && forall u :: r.Accepts(c, Silent, u)
    ensures forall job :: MomentOf(db).Moves(db.options, c, MomentOf(db), job)
    ensures c.Read? ==> c.snapshot.Some?
  {
    SkippedStays(db, c, r);
    hide DBImpl.Structure, At, Moment.Moves;
    AtFacts(db, r);
  }

  lemma SkippedStays(db: DBImpl, c: Command, r: Reference)
    requires At(db, r) && !Enabled(db, c)
    ensures forall job :: MomentOf(db).Moves(db.options, c, MomentOf(db), job)
  {
    hide DbState.Good, Moment.Finishes, Moment.Starts, Moment.StartsAtFile, Moment.StartsAtPointer, Moment.Flushes;
  }

  lemma NothingDone(c: Command, all: set<Entry>)
    ensures forall after :: Did(c, all, None, after)
  {
  }

  lemma InternalIsNothing(c: Command, r: Reference)
    requires r.Valid()
    ensures !(c.Write? || c.CrashWhileWriting? || Crashing(c) || c.TakeSnapshot? || c.DropSnapshot?) ==> r.Next(c) == r
    ensures !c.Read? && !c.Scan? ==> r.Expects(c, Silent) && forall u :: r.Accepts(c, Silent, u)
  {
  }

  // stop: the check in Builder::SaveTo has stopped the program.
  method Execute(db: DBImpl, c: Command, ghost r: Reference)
    returns (db': DBImpl, reply: Reply, stop: bool, ghost job: Option<Job>, ghost clash: Option<Clash>)
    requires At(db, r) && r.Valid()
    modifies db
    ensures (db' == db || fresh(db')) && db'.options == db.options
    ensures At(db', r.Next(c))
    ensures forall u :: old(db.Faithful(u)) && Keeps(job, u) ==> db'.Faithful(u)
    ensures r.Expects(c, reply) && forall u :: old(db.Faithful(u)) ==> r.Accepts(c, reply, u)
    ensures ByHand(db') ==> old(ByHand(db)) || c.StartRange?
    ensures stop == clash.Some?
    ensures if stop then c.FinishCompaction? && clash.value.Real() && old(ByHand(db)) && clash.value.Of(db.options, old(MomentOf(db)))
            else Step(db.options, old(MomentOf(db)), c, reply, MomentOf(db'), job)
  {
    hide DBImpl.Structure, DBImpl.Faithful, At, Keeps, Did, ByHand, Store.All, Reference.Next, Reference.Expects, Reference.Accepts, Reference.Valid, Clash.Real, Enabled,
         Clash.Of, Moment.Moves, ReadsAs;
    db', reply, stop, job, clash := db, Silent, false, None, None;
    NothingDone(c, db.St().All());
    InternalIsNothing(c, r);
    if !Enabled(db, c) {
      SkippedIsNothing(db, c, r);
      return;
    }
    match c {
      case Write(_) | CrashWhileWriting(_) | Crash | CrashWhileFlushing | CrashWhileCompacting | CrashWhileOpening(_) => db' := Foreground(db, c, r);
      case TakeSnapshot | DropSnapshot(_) | HoldVersion | DropVersion(_) => References(db, c, r);
      case Read(user, snapshot) =>
        reply := ReadAt(db, user, snapshot, r);
        ReadMovesNothing(MomentOf(db), db.options, c);
      case Scan(snapshot) =>
        reply := ScanAt(db, snapshot, r);
        ReadMovesNothing(MomentOf(db), db.options, c);
      case _ => stop, job, clash := Background(db, c, r);
    }
  }

  lemma ReadMovesNothing(m: Moment, o: Options, c: Command)
    requires c.Read? || c.Scan?
    ensures m.Moves(o, c, m, None)
  {
  }

  // ----- the theorem -----

  // For every sequence of commands, as far as it gets: the store keeps accepted operations only; every command
  // gets the reply of the reference, reads as long as no compaction before them lost a tombstone of their user
  // key; and the store left at the end reads such keys like the reference's history at its newest state.
  // It gets to the end unless a compaction by hand finishes with an output around a table flushed meanwhile.
  method Run(options: Options, cs: seq<Command>)
    returns (replies: seq<Reply>, ghost moments: seq<Moment>, ghost jobs: seq<Option<Job>>, ghost clash: Option<Clash>)
    ensures |replies| <= |cs|
    ensures var ran := cs[..|replies|];
            && Happened(options, ran, replies, moments, jobs) && AllRecorded(ReferenceAfter(ran).h, moments[|ran|].All())
            && (forall u :: Lossless(jobs, u) ==> ReadsHistory(moments[|ran|].All(), ReferenceAfter(ran).h, |ReferenceAfter(ran).h|, u))
    ensures forall i :: 0 <= i < |replies| ==> Answered(cs, replies, jobs, i)
    ensures |replies| < |cs| <==> clash.Some?
    ensures clash.Some? ==> clash.value.Real() && clash.value.Of(options, moments[|replies|]) && cs[|replies|].FinishCompaction?
                            && exists k :: 0 <= k < |replies| && cs[k].StartRange?
  {
    hide DBImpl.Structure, DBImpl.Faithful, Lossless, Durable, ReadsHistory, OnDisk, Did, Store.All, AllRecorded, Happened, Keeps,
         Reference.Valid, Reference.Next, Reference.Expects, Reference.Accepts, Clash.Real, Clash.Of, ByHand, Answered, Step, Stands;
    NewDBIsDurable();
    var db := new DBImpl(options);
    var ok := db.Open(NewDB(), NoFiles(), [], 0, []);
    replies, jobs, moments, clash := [], [], [MomentOf(db)], None;
    NothingHappened(db, moments[0]);
    NotByHand(db);
    for i := 0 to |cs|
      invariant fresh(db) && db.options == options && At(db, ReferenceAfter(cs[..i])) && |replies| == i == |jobs| && clash == None
      invariant |moments| == i + 1 && Happened(options, cs[..i], replies, moments, jobs) && moments[i] == MomentOf(db)
      invariant forall u :: Lossless(jobs, u) ==> db.Faithful(u)
      invariant forall k :: 0 <= k < i ==> Answered(cs, replies, jobs, k)
      invariant ByHand(db) ==> exists k :: 0 <= k < i && cs[k].StartRange?
    {
      assert cs[..i + 1][..i] == cs[..i] && cs[..i + 1] == cs[..i] + [cs[i]];
      var reply, stop;
      ghost var job, found;
      EndOfRun(db, ReferenceAfter(cs[..i]));
      db, reply, stop, job, found := Execute(db, cs[i], ReferenceAfter(cs[..i]));
      if stop {
        clash := found;
        return;
      }
      StandsNow(db, ReferenceAfter(cs[..i + 1]));
      HappenedNext(options, cs[..i], replies, moments, jobs, cs[i], reply, MomentOf(db), job);
      LosslessNext(jobs, job);
      ghost var before := jobs;
      replies, jobs, moments := replies + [reply], jobs + [job], moments + [MomentOf(db)];
      assert jobs[..i] == before;
      AnswerGiven(cs, replies, jobs, i, ReferenceAfter(cs[..i]));
      forall k | 0 <= k < i ensures Answered(cs, replies, jobs, k) { AnsweredStill(cs, replies[..i], reply, before, job, k); }
    }
    assert cs[..|cs|] == cs;
    EndOfRun(db, ReferenceAfter(cs));
  }

  lemma StandsNow(db: DBImpl, r: Reference)
    requires At(db, r)
    ensures Stands(MomentOf(db), r)
  {
  }

  lemma NotByHand(db: DBImpl)
    requires db.running.None?
    ensures !ByHand(db)
  {
  }

  lemma AnswerGiven(cs: seq<Command>, replies: seq<Reply>, jobs: seq<Option<Job>>, i: nat, r: Reference)
    requires i < |cs| && |replies| == |jobs| == i + 1 && r == ReferenceAfter(cs[..i])
    requires r.Valid() && r.Expects(cs[i], replies[i]) && forall u :: Lossless(jobs[..i], u) ==> r.Accepts(cs[i], replies[i], u)
    ensures Answered(cs, replies, jobs, i)
  {
    hide Lossless, ReferenceAfter, Reference.Expects, Reference.Accepts;
  }

  // Command i got a reply that is right about every user key no tombstone of which was lost before.
  ghost predicate Answered(cs: seq<Command>, replies: seq<Reply>, jobs: seq<Option<Job>>, i: nat) {
    && i < |cs| && i < |replies| && i <= |jobs|
    && ReferenceAfter(cs[..i]).Expects(cs[i], replies[i])
    && forall u :: Lossless(jobs[..i], u) ==> ReferenceAfter(cs[..i]).Accepts(cs[i], replies[i], u)
  }

  lemma AnsweredStill(cs: seq<Command>, replies: seq<Reply>, reply: Reply, jobs: seq<Option<Job>>, job: Option<Job>, k: nat)
    requires Answered(cs, replies, jobs, k)
    ensures Answered(cs, replies + [reply], jobs + [job], k)
  {
    hide Lossless, ReferenceAfter, Reference.Expects, Reference.Accepts;
    assert (jobs + [job])[..k] == jobs[..k];
  }

  lemma NothingHappened(db: DBImpl, m: Moment)
    requires At(db, ReferenceAfter([])) && m == MomentOf(db) && Beginning(m)
    ensures Happened(db.options, [], [], [m], [])
  {
    hide At, MomentOf, Stands, Beginning, Step;
    StandsNow(db, ReferenceAfter([]));
    var none: seq<Command> := [];
    assert none[..0] == none;
  }

  lemma EndOfRun(db: DBImpl, r: Reference)
    requires At(db, r)
    ensures AllRecorded(r.h, MomentOf(db).All())
    ensures forall u :: db.Faithful(u) ==> ReadsHistory(MomentOf(db).All(), r.h, |r.h|, u)
  {
    RecordedNow(db.View());
    FloorIsValid(db);
    forall u | db.Faithful(u) ensures ReadsHistory(db.St().All(), db.history, |db.history|, u) {
      FloorRises(db.St().All(), db.history, db.Floor(), |db.history|, u);
    }
  }

  // A snapshot's reads never change: later operations and crashes only lengthen the history.
  lemma {:induction false} HistoryOnlyGrows(cs: seq<Command>, more: seq<Command>)
    ensures ReferenceAfter(cs).h <= ReferenceAfter(cs + more).h
    decreases |more|
  {
    if more == [] {
      assert cs + more == cs;
    } else {
      var init, c := more[..|more| - 1], more[|more| - 1];
      HistoryOnlyGrows(cs, init);
      assert (cs + more)[..|cs + more| - 1] == cs + init;
    }
  }

  lemma SnapshotReadsAreStable(cs: seq<Command>, more: seq<Command>, user: UserKey, s: nat)
    requires s <= |ReferenceAfter(cs).h|
    ensures s <= |ReferenceAfter(cs + more).h|
    ensures HistoryRead(ReferenceAfter(cs + more).h, user, s) == HistoryRead(ReferenceAfter(cs).h, user, s)
  {
    HistoryOnlyGrows(cs, more);
    var h, h' := ReferenceAfter(cs).h, ReferenceAfter(cs + more).h;
    assert h' == h + h'[|h|..];
    HistoryStable(h, h'[|h|..], user, s);
  }
}
