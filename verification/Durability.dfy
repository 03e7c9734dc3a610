/** The running store together with its disk.

    `Good` relates memtables, version, logs, manifest and tables; each step of the store keeps it.
    `Durable` is its disk half: what a crash leaves behind and recovery starts from. */
module Durability {
  import opened Keys
  import opened Reads
  import opened Versions
  import opened Edits
  import opened Disk
  import opened StoreState
  import opened CompactionMerge
  import B = Builder

  ghost predicate TablesPresent(tables: map<nat, seq<Entry>>, levels: seq<seq<File>>) {
    forall l, f :: 0 <= l < |levels| && f in levels[l] ==> f.number in tables && tables[f.number] == f.entries
  }

  ghost predicate UpTo(all: set<Entry>, s: nat) {
    forall e :: e in all ==> e.key.sequence <= s
  }

  // The manifest's numbers against the version and the history.
  ghost predicate ManifestFits(manifest: seq<Record>, levels: seq<seq<File>>, h: seq<Op>, base: nat) {
    && LastNumbers(manifest).Some?
    && var n := LastNumbers(manifest).value;
       && Replays(manifest, levels, n.nextFile) && Numbering(levels, n.nextFile)
       && n.logNumber < n.nextFile && base <= n.lastSequence <= |h|
  }

  // The version holds operations up to number `base` only; the live logs hold the rest.
  ghost predicate Durable(d: Files, levels: seq<seq<File>>, h: seq<Op>, base: nat, order: seq<nat>) {
    && ValidHistory(h) && Ordered(levels) && AllAscending(levels)
    && ManifestFits(d.manifest, levels, h, base)
    && TablesPresent(d.tables, levels)
    && AllRecorded(h, StoredIn(levels)) && UpTo(StoredIn(levels), base)
    && LiveOrder(d.logs, LastNumbers(d.manifest).value.logNumber, order)
    && Chain(Concat(d.logs, order), h, base, |h|)
  }

  // Everything recovery finds.
  ghost function OnDisk(levels: seq<seq<File>>, h: seq<Op>, base: nat): set<Entry> {
    StoredIn(levels) + EntriesBetween(h, base, |h|)
  }

  // h: operations applied to the memtable; logged: the batch already in the log but not yet
  // applied; base and memBase: where the immutable memtable and the memtable begin in h.
  datatype DbState = DbState(st: Store, disk: Files, log: nat, immLog: nat, next: nat,
                             h: seq<Op>, logged: seq<Op>, base: nat, memBase: nat) {
    function Order(): seq<nat> { if st.imm.Some? then [immLog, log] else [log] }

    ghost predicate MemtablesFit() {
      && base <= memBase <= |h| && (st.imm.None? ==> base == memBase)
      && Elements(st.Imm()) == EntriesBetween(h, base, memBase)
      && Elements(st.mem) == EntriesBetween(h, memBase, |h|)
    }

    ghost predicate LogsFit() {
      && log in disk.logs && Chain(disk.logs[log], h + logged, memBase, |h + logged|)
      && (st.imm.Some? ==> immLog in disk.logs && Chain(disk.logs[immLog], h + logged, base, memBase))
      && AllBelow(disk.logs, next)
      && (LastNumbers(disk.manifest).Some? ==> LastNumbers(disk.manifest).value.nextFile <= next)
    }

    ghost predicate Good() {
      && Sound(st, h) && Durable(disk, st.levels, h + logged, base, Order())
      && MemtablesFit() && LogsFit()
    }
  }

  // The running store is exactly what its disk would recover to, but for the batch in flight.
  lemma DiskHoldsStore(s: DbState)
    requires s.Good()
    ensures OnDisk(s.st.levels, s.h + s.logged, s.base) == s.st.All() + EntriesBetween(s.h + s.logged, |s.h|, |s.h + s.logged|)
  {
    BetweenStable(s.h, s.logged, s.base, s.memBase);
    BetweenStable(s.h, s.logged, s.memBase, |s.h|);
    BetweenJoins(s.h + s.logged, s.base, s.memBase, |s.h|);
    BetweenJoins(s.h + s.logged, s.base, |s.h|, |s.h + s.logged|);
  }

  lemma BetweenStable(h: seq<Op>, more: seq<Op>, lo: nat, hi: nat)
    requires hi <= |h|
    ensures EntriesBetween(h + more, lo, hi) == EntriesBetween(h, lo, hi)
  {
    forall i | lo < i <= hi ensures EntryOf(h + more, i) == EntryOf(h, i) {}
  }

  lemma BetweenJoins(h: seq<Op>, lo: nat, mid: nat, hi: nat)
    requires lo <= mid <= hi <= |h|
    ensures EntriesBetween(h, lo, mid) + EntriesBetween(h, mid, hi) == EntriesBetween(h, lo, hi)
  {
  }

  // ----- the steps -----

  // log::Writer::AddRecord of the next batch.
  function Appended(s: DbState, ops: seq<Op>): DbState
    requires s.log in s.disk.logs
  {
    s.(disk := s.disk.(logs := s.disk.logs[s.log := s.disk.logs[s.log] + [Batch(|s.h| + 1, ops)]]), logged := ops)
  }

  lemma AppendKeeps(s: DbState, ops: seq<Op>)
    requires s.Good() && s.logged == [] && ValidHistory(s.h + ops)
    ensures Appended(s, ops).Good()
  {
    hide Sound, Ordered, AllAscending, ManifestFits, ValidHistory, TablesPresent, AllRecorded;
    var s' := Appended(s, ops);
    assert s.h + s.logged == s.h;
    ChainGrows(s.disk.logs[s.log], s.h, ops, s.memBase);
    if s.st.imm.Some? { ChainStable(s.disk.logs[s.immLog], s.h, ops, s.base, s.memBase); }
    OrderChain(s');
    RecordedInLonger(s.h, ops, StoredIn(s.st.levels));
    ManifestStable(s.disk.manifest, s.st.levels, s.h, ops, s.base);
  }

  lemma ManifestStable(manifest: seq<Record>, levels: seq<seq<File>>, h: seq<Op>, more: seq<Op>, base: nat)
    requires ManifestFits(manifest, levels, h, base)
    ensures ManifestFits(manifest, levels, h + more, base)
  {
  }

  lemma RecordedInLonger(h: seq<Op>, more: seq<Op>, all: set<Entry>)
    requires AllRecorded(h, all)
    ensures AllRecorded(h + more, all)
  {
  }

  // The logs of the two memtables in order chain up to the end of the history.
  lemma OrderChain(s: DbState)
    requires s.base <= s.memBase && (s.st.imm.None? ==> s.base == s.memBase)
    requires s.log in s.disk.logs && Chain(s.disk.logs[s.log], s.h + s.logged, s.memBase, |s.h + s.logged|)
    requires s.st.imm.Some? ==> s.immLog in s.disk.logs && Chain(s.disk.logs[s.immLog], s.h + s.logged, s.base, s.memBase)
    ensures forall n :: n in s.Order() ==> n in s.disk.logs
    ensures Chain(Concat(s.disk.logs, s.Order()), s.h + s.logged, s.base, |s.h + s.logged|)
  {
    var logs := s.disk.logs;
    assert Concat(logs, [s.log]) == logs[s.log] + Concat(logs, []) == logs[s.log];
    if s.st.imm.Some? {
      assert [s.immLog, s.log][1..] == [s.log];
      ChainEnds(logs[s.immLog], s.h + s.logged, s.base, s.memBase);
      ChainSplit(logs[s.immLog], logs[s.log], s.h + s.logged, s.base, |s.h + s.logged|);
    }
  }

  // MemTableInserter: one operation of the logged batch.
  function InsertedOne(s: DbState): DbState
    requires s.logged != [] && Sorted(s.st.mem) && NewKey(s.st.mem, EntryOf(s.h + [s.logged[0]], |s.h| + 1))
  {
    s.(st := s.st.(mem := Inserted(s.st.mem, EntryOf(s.h + [s.logged[0]], |s.h| + 1))),
       h := s.h + [s.logged[0]], logged := s.logged[1..])
  }

  lemma CanInsert(s: DbState)
    requires s.Good() && s.logged != []
    ensures Sorted(s.st.mem) && NewKey(s.st.mem, EntryOf(s.h + [s.logged[0]], |s.h| + 1))
    ensures InsertedOne(s).st.All() == s.st.All() + {EntryOf(s.h + [s.logged[0]], |s.h| + 1)}
    ensures Sound(InsertedOne(s).st, InsertedOne(s).h)
  {
    hide Durable, DbState.MemtablesFit, DbState.LogsFit;
    LoggedIsValid(s);
    InsertOne(s.st, s.h, s.logged[0]);
  }

  lemma InsertKeeps(s: DbState)
    requires s.Good() && s.logged != []
    requires Sorted(s.st.mem) && NewKey(s.st.mem, EntryOf(s.h + [s.logged[0]], |s.h| + 1))
    ensures InsertedOne(s).Good()
  {
    hide Sorted, NewKey, Sound, Durable, DbState.MemtablesFit, DbState.LogsFit;
    CanInsert(s);
    var s' := InsertedOne(s);
    assert s.h + s.logged == s'.h + s'.logged;
    MemtableGrows(s, s.logged[0], s'.st.mem);
    SameLogs(s, s');
  }

  lemma SameLogs(s: DbState, s': DbState)
    requires s.LogsFit() && s.disk == s'.disk && s.log == s'.log && s.immLog == s'.immLog && s.next <= s'.next
    requires s.st.imm == s'.st.imm && s.base == s'.base && s.memBase == s'.memBase && s.h + s.logged == s'.h + s'.logged
    ensures s'.LogsFit()
  {
  }

  lemma MemtableGrows(s: DbState, op: Op, mem: seq<Entry>)
    requires s.MemtablesFit() && Elements(mem) == Elements(s.st.mem) + {EntryOf(s.h + [op], |s.h| + 1)}
    ensures forall logged :: s.(st := s.st.(mem := mem), h := s.h + [op], logged := logged).MemtablesFit()
  {
    BetweenStable(s.h, [op], s.base, s.memBase);
    BetweenStable(s.h, [op], s.memBase, |s.h|);
    BetweenJoins(s.h + [op], s.memBase, |s.h|, |s.h| + 1);
    var h := s.h + [op];
    assert EntriesBetween(h, |s.h|, |s.h| + 1) == {EntryOf(h, |s.h| + 1)};
  }

  lemma LoggedIsValid(s: DbState)
    requires s.Good() && s.logged != []
    ensures s.logged[0].kind <= kTypeValue && |s.h| + 1 < kMaxSequenceNumber
  {
    assert (s.h + s.logged)[|s.h|] == s.logged[0];
  }

  // MakeRoomForWrite: a new log and memtable take over.
  function Switched(s: DbState): DbState {
    s.(st := s.st.(imm := Some(s.st.mem), mem := []), disk := s.disk.(logs := s.disk.logs[s.next := []]),
       log := s.next, immLog := s.log, next := s.next + 1, memBase := |s.h|)
  }

  lemma SwitchKeeps(s: DbState)
    requires s.Good() && s.logged == [] && s.st.imm.None?
    ensures Switched(s).Good() && Switched(s).st.All() == s.st.All()
  {
    var s' := Switched(s);
    assert s.h + [] == s.h;
    SwitchSound(s.st, s.h);
    hide Sound, Ordered, AllAscending, ManifestFits, ValidHistory, TablesPresent, Store.All, Chain, LiveOrder, AllBelow, EntriesBetween;
    SwitchLogs(s);
    OrderChain(s');
    assert Elements([]) == {};
    NothingBetween(s.h);
  }

  lemma NothingBetween(h: seq<Op>)
    ensures EntriesBetween(h, |h|, |h|) == {}
  {
  }

  lemma SwitchLogs(s: DbState)
    requires s.Good() && s.logged == [] && s.st.imm.None?
    ensures Switched(s).LogsFit() && LiveOrder(Switched(s).disk.logs, LastNumbers(s.disk.manifest).value.logNumber, [s.log, s.next])
  {
    assert s.h + [] == s.h;
    hide Sound, Ordered, AllAscending, ManifestFits, ValidHistory, TablesPresent, Store.All, Concat;
    ChainEmpty(s.h);
    LogAdded(s.disk.logs, LastNumbers(s.disk.manifest).value.logNumber, s.log, s.next);
  }

  lemma SwitchSound(st: Store, h: seq<Op>)
    requires Sound(st, h) && st.imm.None?
    ensures var st' := st.(imm := Some(st.mem), mem := []); Sound(st', h) && st'.All() == st.All()
  {
    var st' := st.(imm := Some(st.mem), mem := []);
    assert Elements(st.Imm()) == {} && Elements(st'.mem) == {};
    assert st'.All() == st.All();
  }

  lemma ChainEmpty(h: seq<Op>)
    ensures Chain([], h, |h|, |h|)
  {
  }

  lemma LogAdded(logs: map<nat, seq<Batch>>, from: nat, log: nat, next: nat)
    requires LiveOrder(logs, from, [log]) && AllBelow(logs, next)
    ensures LiveOrder(logs[next := []], from, [log, next])
  {
    assert log in [log];
    var order := [log, next];
    forall n ensures n in order <==> n in logs[next := []] && n >= from {
      assert n in logs && n >= from <==> n in [log];
    }
  }

  // ----- recording a new version -----

  lemma NextLater(manifest: seq<Record>, levels: seq<seq<File>>, next: nat, later: nat)
    requires Replays(manifest, levels, next) && Numbering(levels, next) && next <= later
    ensures Replays(manifest, levels, later) && Numbering(levels, later)
  {
  }

  lemma LastAppended(manifest: seq<Record>, r: Record)
    requires r.numbers.Some?
    ensures LastNumbers(manifest + [r]) == r.numbers
  {
  }

  // The edit adds only new files, or moves one file down.
  ghost predicate Recordable(levels: seq<seq<File>>, edit: B.VersionEdit, next: nat, next': nat) {
    || AddsNew(edit, next, next')
    || (next == next' && exists l, f :: Moves(levels, edit, l, f))
  }

  lemma RecordFits(manifest: seq<Record>, levels: seq<seq<File>>, h: seq<Op>, base: nat,
                   r: Record, v: seq<seq<File>>, next: nat, base': nat)
    requires ManifestFits(manifest, levels, h, base) && LastNumbers(manifest).value.nextFile <= next
    requires r.edit.Valid() && r.numbers.Some? && next <= r.numbers.value.nextFile
    requires Recordable(levels, r.edit, next, r.numbers.value.nextFile)
    requires Applied(levels, r.edit, v) && Numbering(v, r.numbers.value.nextFile)
    requires r.numbers.value.logNumber < r.numbers.value.nextFile && base' <= r.numbers.value.lastSequence <= |h|
    ensures ManifestFits(manifest + [r], v, h, base')
  {
    AppliedLength(levels, r.edit, v);
    hide Replays, Numbering, Applied, AddsNew, Moves, B.VersionEdit.Valid;
    var n := LastNumbers(manifest).value;
    NextLater(manifest, levels, n.nextFile, next);
    LastAppended(manifest, r);
    if AddsNew(r.edit, next, r.numbers.value.nextFile) {
      NewFilesRecorded(manifest, levels, r, v, next, r.numbers.value.nextFile);
    } else {
      var l, f :| Moves(levels, r.edit, l, f);
      MoveRecorded(manifest, levels, r, v, next, l, f);
    }
  }

  // Every table of the new version is an old one or newly written under a new number.
  lemma TablesStay(tables: map<nat, seq<Entry>>, tables': map<nat, seq<Entry>>, levels: seq<seq<File>>,
                   edit: B.VersionEdit, v: seq<seq<File>>, next: nat)
    requires TablesPresent(tables, levels) && Numbering(levels, next) && |levels| == kNumLevels && Applied(levels, edit, v)
    requires forall n :: n in tables && n < next ==> n in tables' && tables'[n] == tables[n]
    requires forall i :: 0 <= i < |edit.added| ==>
               var f := edit.added[i].1; f.number in tables' && tables'[f.number] == f.entries
    ensures TablesPresent(tables', v)
  {
    forall l, f | 0 <= l < |v| && f in v[l] ensures f.number in tables' && tables'[f.number] == f.entries {
      assert f in B.FileSet(v[l]);
      if f in edit.AddedAt(l) {
        AddedNumber(edit, l, f);
      } else {
        assert f in levels[l];
      }
    }
  }

  // LogAndApply's record and the tables written for it.
  function Committed(s: DbState, edit: B.VersionEdit, v: seq<seq<File>>, tables: map<nat, seq<Entry>>, logNumber: nat, next: nat,
                     pointers: seq<(nat, InternalKey)> := []): DbState {
    s.(st := s.st.(levels := v), next := next,
       disk := s.disk.(tables := tables,
                       manifest := s.disk.manifest + [Record(edit, Some(Numbers(logNumber, next, |s.h|)), pointers)]))
  }

  // What the caller of LogAndApply has to provide.
  ghost predicate Commits(s: DbState, edit: B.VersionEdit, v: seq<seq<File>>, tables: map<nat, seq<Entry>>, next: nat)
    requires |s.st.levels| == kNumLevels
  {
    && edit.Valid() && s.next <= next && Recordable(s.st.levels, edit, s.next, next)
    && Applied(s.st.levels, edit, v) && AllAscending(v) && Numbering(v, next)
    && (forall n :: n in s.disk.tables && n < s.next ==> n in tables && tables[n] == s.disk.tables[n])
    && (forall i :: 0 <= i < |edit.added| ==> edit.added[i].1.number in tables && tables[edit.added[i].1.number] == edit.added[i].1.entries)
  }

  // The disk after a commit.
  lemma CommitDurable(s: DbState, edit: B.VersionEdit, v: seq<seq<File>>, tables: map<nat, seq<Entry>>, logNumber: nat, next: nat,
                      base': nat, order': seq<nat>, pointers: seq<(nat, InternalKey)>)
    requires Durable(s.disk, s.st.levels, s.h + s.logged, s.base, s.Order())
    requires LastNumbers(s.disk.manifest).value.nextFile <= s.next && Commits(s, edit, v, tables, next)
    requires Ordered(v) && AllRecorded(s.h + s.logged, StoredIn(v)) && UpTo(StoredIn(v), base')
    requires logNumber < next && base' <= |s.h|
    requires LiveOrder(s.disk.logs, logNumber, order') && Chain(Concat(s.disk.logs, order'), s.h + s.logged, base', |s.h + s.logged|)
    ensures Durable(Committed(s, edit, v, tables, logNumber, next, pointers).disk, v, s.h + s.logged, base', order')
  {
    hide Ordered, AllAscending, Applied, Recordable, Numbering, Replays, AllRecorded, UpTo, LiveOrder, Chain, Concat, ValidHistory;
    var r := Record(edit, Some(Numbers(logNumber, next, |s.h|)), pointers);
    RecordFits(s.disk.manifest, s.st.levels, s.h + s.logged, s.base, r, v, s.next, base');
    LastAppended(s.disk.manifest, r);
    NextLater(s.disk.manifest, s.st.levels, LastNumbers(s.disk.manifest).value.nextFile, s.next);
    TablesStay(s.disk.tables, tables, s.st.levels, edit, v, s.next);
  }

  lemma InLonger(s: DbState, all: set<Entry>)
    requires AllRecorded(s.h, all)
    ensures AllRecorded(s.h + s.logged, all)
  {
    RecordedInLonger(s.h, s.logged, all);
  }

  // CompactMemTable: the flushed version is recorded together with the number of the current log.
  function Flushed1(s: DbState, edit: B.VersionEdit, v: seq<seq<File>>, tables: map<nat, seq<Entry>>, next: nat): DbState {
    var t := Committed(s, edit, v, tables, s.log, next);
    t.(st := t.st.(imm := None), base := s.memBase)
  }

  lemma FlushKeeps(s: DbState, edit: B.VersionEdit, v: seq<seq<File>>, tables: map<nat, seq<Entry>>, next: nat)
    requires s.Good() && s.st.imm.Some? && Commits(s, edit, v, tables, next) && s.next < next
    requires StoredIn(v) == StoredIn(s.st.levels) + Elements(s.st.Imm())
    requires Sound(Store(s.st.mem, None, v), s.h)
    ensures Flushed1(s, edit, v, tables, next).Good()
  {
    assert LastNumbers(s.disk.manifest).Some?;
    hide Sound, Ordered, Commits, AllAscending, ManifestFits, ValidHistory, TablesPresent, AllRecorded;
    var s' := Flushed1(s, edit, v, tables, next);
    SoundOrdered(s'.st, s.h);
    assert Elements(s'.st.Imm()) == {} == EntriesBetween(s.h, s.memBase, s.memBase);
    FlushedUpTo(s, v);
    RecordedSubset(s.h, s'.st.All(), StoredIn(v));
    InLonger(s, StoredIn(v));
    OrderChain(s');
    LogDropped(s.disk.logs, LastNumbers(s.disk.manifest).value.logNumber, s.immLog, s.log);
    CommitDurable(s, edit, v, tables, s.log, next, s.memBase, [s.log], []);
    LastAppended(s.disk.manifest, Record(edit, Some(Numbers(s.log, next, |s.h|))));
  }

  lemma RecordedSubset(h: seq<Op>, all: set<Entry>, some: set<Entry>)
    requires AllRecorded(h, all) && some <= all
    ensures AllRecorded(h, some)
  {
  }

  lemma FlushedUpTo(s: DbState, v: seq<seq<File>>)
    requires UpTo(StoredIn(s.st.levels), s.base) && s.MemtablesFit()
    requires StoredIn(v) == StoredIn(s.st.levels) + Elements(s.st.Imm())
    ensures UpTo(StoredIn(v), s.memBase)
  {
  }

  // Raising the log number to the current log leaves that log alone to be read.
  lemma LogDropped(logs: map<nat, seq<Batch>>, from: nat, immLog: nat, log: nat)
    requires LiveOrder(logs, from, [immLog, log])
    ensures LiveOrder(logs, log, [log])
  {
    var order := [immLog, log];
    assert order[0] < order[1];
    assert log in order;
    forall n ensures n in [log] <==> n in logs && n >= log {
      assert n in logs && n >= from <==> n in order;
    }
  }

  // InstallCompactionResults and trivial moves: the log number stays.
  function InstalledState(s: DbState, edit: B.VersionEdit, v: seq<seq<File>>, tables: map<nat, seq<Entry>>, next: nat,
                          pointers: seq<(nat, InternalKey)>): DbState
    requires LastNumbers(s.disk.manifest).Some?
  {
    Committed(s, edit, v, tables, LastNumbers(s.disk.manifest).value.logNumber, next, pointers)
  }

  lemma InstallKeeps(s: DbState, edit: B.VersionEdit, v: seq<seq<File>>, tables: map<nat, seq<Entry>>, next: nat,
                     pointers: seq<(nat, InternalKey)>)
    requires s.Good() && Commits(s, edit, v, tables, next)
    requires StoredIn(v) <= StoredIn(s.st.levels) && Sound(s.st.(levels := v), s.h)
    ensures InstalledState(s, edit, v, tables, next, pointers).Good()
  {
    var n := LastNumbers(s.disk.manifest).value;
    SoundOrdered(s.st.(levels := v), s.h);
    hide Sound, Ordered, Commits, AllAscending, ValidHistory, TablesPresent, AllRecorded, Replays, Numbering, LiveOrder, Chain;
    CommitGrows(s, edit, v, tables, next);
    RecordedSubset(s.h, s.st.(levels := v).All(), StoredIn(v));
    InLonger(s, StoredIn(v));
    CommitDurable(s, edit, v, tables, n.logNumber, next, s.base, s.Order(), pointers);
    LastAppended(s.disk.manifest, Record(edit, Some(Numbers(n.logNumber, next, |s.h|)), pointers));
  }

  lemma CommitGrows(s: DbState, edit: B.VersionEdit, v: seq<seq<File>>, tables: map<nat, seq<Entry>>, next: nat)
    requires |s.st.levels| == kNumLevels && Commits(s, edit, v, tables, next)
    ensures s.next <= next
  {
  }

  // RemoveObsoleteFiles: keep the tables in `live` and the logs from the log number on.
  function Cleaned(s: DbState, live: set<nat>): DbState
    requires LastNumbers(s.disk.manifest).Some?
  {
    var from := LastNumbers(s.disk.manifest).value.logNumber;
    s.(disk := s.disk.(logs := map n | n in s.disk.logs && n >= from :: s.disk.logs[n],
                       tables := map n | n in s.disk.tables && n in live :: s.disk.tables[n]))
  }

  lemma CleanKeeps(s: DbState, live: set<nat>)
    requires s.Good() && forall l, f :: 0 <= l < kNumLevels && f in s.st.levels[l] ==> f.number in live
    ensures Cleaned(s, live).Good()
  {
    hide Sound, Ordered, Replays, Numbering, ValidHistory, AllRecorded, Chain;
    var s', order := Cleaned(s, live), s.Order();
    CleanedLogs(s, live);
    assert s.log in order && (s.st.imm.Some? ==> s.immLog in order);
    ConcatSame(s.disk.logs, s'.disk.logs, order);
  }

  lemma CleanedLogs(s: DbState, live: set<nat>)
    requires LastNumbers(s.disk.manifest).Some?
    requires LiveOrder(s.disk.logs, LastNumbers(s.disk.manifest).value.logNumber, s.Order())
    ensures LiveOrder(Cleaned(s, live).disk.logs, LastNumbers(s.disk.manifest).value.logNumber, s.Order())
    ensures forall n :: n in s.Order() ==> n in Cleaned(s, live).disk.logs && Cleaned(s, live).disk.logs[n] == s.disk.logs[n]
  {
  }

  // Tables beyond the recorded ones are never looked at.
  lemma StrayTablesKeep(s: DbState, tables: map<nat, seq<Entry>>)
    requires s.Good() && forall n :: n in s.disk.tables && n < s.next ==> n in tables && tables[n] == s.disk.tables[n]
    ensures s.(disk := s.disk.(tables := tables)).Good()
  {
    hide Sound, Ordered, AllAscending, Replays, Chain, Concat, AllRecorded, UpTo, LiveOrder, ValidHistory;
    StrayTablesDurable(s.disk, s.st.levels, s.h + s.logged, s.base, s.Order(), tables);
  }

  lemma StrayTablesDurable(d: Files, levels: seq<seq<File>>, h: seq<Op>, base: nat, order: seq<nat>, tables: map<nat, seq<Entry>>)
    requires Durable(d, levels, h, base, order)
    requires forall n :: n in d.tables && n < LastNumbers(d.manifest).value.nextFile ==> n in tables && tables[n] == d.tables[n]
    ensures Durable(d.(tables := tables), levels, h, base, order)
  {
    hide Ordered, AllAscending, Replays, Chain, Concat, AllRecorded, UpTo, LiveOrder, ValidHistory;
  }

  // A new, empty log at the end of those to replay changes nothing.
  lemma NewLogDurable(d: Files, levels: seq<seq<File>>, h: seq<Op>, base: nat, order: seq<nat>, next: nat)
    requires Durable(d, levels, h, base, order) && next >= LastNumbers(d.manifest).value.logNumber && forall n :: n in order ==> n < next
    ensures Durable(d.(logs := d.logs[next := []]), levels, h, base, order + [next])
  {
    hide Ordered, AllAscending, Replays, Chain, AllRecorded, UpTo, ValidHistory, TablesPresent, ManifestFits;
    var logs := d.logs[next := []];
    forall i, j | 0 <= i < j < |order + [next]| ensures (order + [next])[i] < (order + [next])[j] {
      if j == |order| { assert order[i] in order; }
    }
    ConcatSame(d.logs, logs, order);
    ConcatSplit(logs, order, [next]);
    assert [next][1..] == [] && Concat(logs, [next]) == [];
    assert Concat(logs, order) + [] == Concat(logs, order);
  }
}
