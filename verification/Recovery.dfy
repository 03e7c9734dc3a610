/** Recovery: VersionSet::Recover, DBImpl::Recover and DBImpl::RecoverLogFile.

    From a durable disk, replaying the manifest and then the logs in order rebuilds a version that
    holds exactly the history. */
module Recovery {
  import opened Keys
  import opened Reads
  import opened Versions
  import opened Install
  import opened Edits
  import opened Manifest
  import opened Disk
  import opened StoreState
  import opened Durability
  import opened CompactionMerge
  import B = Builder

  // ----- the manifest -----

  // VersionSet::Recover: one Builder over all records; the last numbers win.
  method ReplayManifest(manifest: seq<Record>) returns (numbers: Option<Numbers>, levels: seq<seq<File>>, pointers: Pointers)
    requires ValidEdits(EditsOf(manifest))
    ensures pointers == PointersOf(manifest)
    ensures numbers == LastNumbers(manifest)       // None: "no meta-... entry in descriptor"
    ensures AllAscending(levels)
    ensures forall l :: 0 <= l < kNumLevels ==> B.FileSet(levels[l]) == B.Live({}, Replay(EMPTY, l, EditsOf(manifest)))
  {
    numbers, pointers := None, NoPointers();
    var none := seq(kNumLevels, _ => []);
    var builder := new B.Builder(none);
    for i := 0 to |manifest|
      invariant builder.Valid() && builder.base == none && fresh(builder)
      invariant ValidEdits(EditsOf(manifest[..i])) && numbers == LastNumbers(manifest[..i]) && pointers == PointersOf(manifest[..i])
      invariant forall l :: 0 <= l < kNumLevels ==> builder.levels[l] == Replay(EMPTY, l, EditsOf(manifest[..i]))
    {
      hide Replay;
      var r := manifest[i];
      assert manifest[..i + 1] == manifest[..i] + [r] && EditsOf(manifest)[i] == r.edit;
      forall l | 0 <= l < kNumLevels
        ensures ValidEdits(EditsOf(manifest[..i + 1]))
        ensures Replay(EMPTY, l, EditsOf(manifest[..i + 1])) == B.ApplyLevel(builder.levels[l], l, r.edit)
      {
        RecordAppended(manifest[..i], r, l);
      }
      pointers := SetPointers(pointers, r.pointers);
      PointersAppended(manifest[..i], r);
      builder.Apply(r.edit);
      if r.numbers.Some? { numbers := r.numbers; }
      NumbersStep(manifest[..i], r);
    }
    assert manifest[..|manifest|] == manifest;
    levels := builder.SaveTo();
  }

  // Builder::Apply: the compaction pointers of the edit.
  method SetPointers(now: Pointers, given: seq<(nat, InternalKey)>) returns (r: Pointers)
    ensures r == WithPointers(now, given)
  {
    r := now;
    for i := 0 to |given|
      invariant r == WithPointers(now, given[..i])
    {
      assert given[..i + 1][..i] == given[..i];
      if given[i].0 < |r| { r := r[given[i].0 := Some(given[i].1)]; }
    }
    assert given[..|given|] == given;
  }

  lemma NumbersStep(manifest: seq<Record>, r: Record)
    ensures LastNumbers(manifest + [r]) == if r.numbers.Some? then r.numbers else LastNumbers(manifest)
  {
    assert (manifest + [r])[..|manifest|] == manifest;
  }

  // The version the store was running is the one recovered, file for file and in the same order.
  lemma RecoversVersion(manifest: seq<Record>, levels: seq<seq<File>>, next: nat, recovered: seq<seq<File>>)
    requires Replays(manifest, levels, next) && AllAscending(levels) && AllAscending(recovered)
    requires forall l :: 0 <= l < kNumLevels ==> B.FileSet(recovered[l]) == B.Live({}, Replay(EMPTY, l, EditsOf(manifest)))
    ensures recovered == levels
  {
    forall l | 0 <= l < kNumLevels ensures recovered[l] == levels[l] {
      B.AscendingUnique(recovered[l], levels[l]);
    }
  }

  // ----- the logs -----

  // The log files not older than `from`, sorted by number.
  method LogsToRecover(logs: map<nat, seq<Batch>>, from: nat) returns (order: seq<nat>)
    ensures LiveOrder(logs, from, order)
  {
    var left := set n | n in logs && n >= from;
    order := [];
    while left != {}
      invariant forall n :: n in order || n in left <==> n in logs && n >= from
      invariant Increasing(order) && forall a, b :: a in order && b in left ==> a < b
      decreases |left|
    {
      ghost var least := Least(left);
      var n :| n in left && forall m :: m in left ==> n <= m;
      forall i | 0 <= i < |order| ensures order[i] < n { assert order[i] in order; }
      order := order + [n];
      left := left - {n};
    }
  }

  lemma {:induction false} Least(s: set<nat>) returns (n: nat)
    requires s != {}
    ensures n in s && forall m :: m in s ==> n <= m
    decreases |s|
  {
    var some :| some in s;
    n := some;
    if s != {some} {
      assert s - {some} != {};
      var rest := Least(s - {some});
      if rest < some { n := rest; }
      assert forall m :: m in s ==> m == some || m in s - {some};
    }
  }

  // While logs are replayed: `v` is the recovered version with the level-0 tables written so far.
  ghost predicate Rebuilt(levels: seq<seq<File>>, edit: B.VersionEdit, v: seq<seq<File>>, next0: nat, next: nat) {
    && |levels| == kNumLevels && Ordered(v) && AllAscending(v)
    && edit.Valid() && Applied(levels, edit, v) && AddsNew(edit, next0, next)
    && next0 <= next && Numbering(v, next)
  }

  // Those tables hold the operations up to number `done`.
  ghost predicate Caught(levels: seq<seq<File>>, v: seq<seq<File>>, h: seq<Op>, base: nat, done: nat) {
    && base <= done <= |h|
    && StoredIn(v) == StoredIn(levels) + EntriesBetween(h, base, done)
    && AllRecorded(h, StoredIn(v)) && UpTo(StoredIn(v), done)
  }

  ghost predicate TablesWritten(before: map<nat, seq<Entry>>, tables: map<nat, seq<Entry>>, edit: B.VersionEdit, next0: nat) {
    && (forall n :: n in before && n < next0 ==> n in tables && tables[n] == before[n])
    && (forall i :: 0 <= i < |edit.added| ==> edit.added[i].1.number in tables && tables[edit.added[i].1.number] == edit.added[i].1.entries)
  }

  // A memtable holding operations done+1 .. at.
  ghost predicate Holds(mem: seq<Entry>, h: seq<Op>, done: nat, at: nat) {
    done <= at <= |h| && Sorted(mem) && AllParse(mem) && Elements(mem) == EntriesBetween(h, done, at)
  }

  lemma MemHolds(mem: seq<Entry>, h: seq<Op>, done: nat, at: nat)
    requires ValidHistory(h) && Holds(mem, h, done, at) && at < |h|
    ensures var e := EntryOf(h, at + 1); NewKey(mem, e) && Holds(Inserted(mem, e), h, done, at + 1)
  {
    var e := EntryOf(h, at + 1);
    forall i | 0 <= i < |mem| ensures mem[i].key.Tag() != e.key.Tag() {
      assert mem[i] in Elements(mem);
    }
    InsertedParses(mem, e);
    BetweenJoins(h, done, at, at + 1);
    assert EntriesBetween(h, at, at + 1) == {e};
  }

  // WriteLevel0Table during recovery: the table goes to level 0.
  method WriteLevel0Table(mem: seq<Entry>, size: nat, edit: B.VersionEdit, next: nat, tables: map<nat, seq<Entry>>,
                          ghost levels: seq<seq<File>>, ghost v: seq<seq<File>>, ghost next0: nat, ghost before: map<nat, seq<Entry>>,
                          ghost h: seq<Op>, ghost base: nat, ghost done: nat, ghost at: nat)
    returns (edit': B.VersionEdit, next': nat, tables': map<nat, seq<Entry>>, ghost v': seq<seq<File>>)
    requires Rebuilt(levels, edit, v, next0, next) && Caught(levels, v, h, base, done) && TablesWritten(before, tables, edit, next0)
    requires Holds(mem, h, done, at)
    ensures Rebuilt(levels, edit', v', next0, next') && Caught(levels, v', h, base, at) && TablesWritten(before, tables', edit', next0)
    ensures next' == next + 1 && edit' == if mem == [] then edit else edit.(added := edit.added + [(0, File(next, size, mem))])
  {
    hide Ordered, Newer, Numbering, Applied, Flushed, B.Insert, AllRecorded, UpTo;
    next' := next + 1;
    if mem == [] {                                 // an empty table is not kept
      edit', tables', v' := edit, tables, v;
      NextGrows(levels, edit, v, next0, next, next + 1);
      EmptyTable(levels, v, h, base, done, at, mem);
    } else {
      var f := File(next, size, mem);
      edit' := edit.(added := edit.added + [(0, f)]);
      tables' := tables[next := mem];
      v' := v[0 := B.Insert(v[0], f)];
      LaterIsNewer(h, done, at, StoredIn(v));
      Level0Rebuilt(levels, edit, v, next0, next, f, v');
      Level0Caught(levels, v, h, base, done, at, f, v');
    }
  }

  lemma EmptyTable(levels: seq<seq<File>>, v: seq<seq<File>>, h: seq<Op>, base: nat, done: nat, at: nat, mem: seq<Entry>)
    requires Caught(levels, v, h, base, done) && Holds(mem, h, done, at) && mem == []
    ensures Caught(levels, v, h, base, at)
  {
    assert Elements(mem) == {};
    if done < at { SomeBetween(h, done, at); }
  }

  lemma SomeBetween(h: seq<Op>, lo: nat, hi: nat)
    requires lo < hi <= |h|
    ensures EntriesBetween(h, lo, hi) != {}
  {
    assert EntryOf(h, hi) in EntriesBetween(h, lo, hi);
  }

  lemma NextGrows(levels: seq<seq<File>>, edit: B.VersionEdit, v: seq<seq<File>>, next0: nat, next: nat, later: nat)
    requires Rebuilt(levels, edit, v, next0, next) && next <= later
    ensures Rebuilt(levels, edit, v, next0, later)
  {
  }

  lemma Level0Rebuilt(levels: seq<seq<File>>, edit: B.VersionEdit, v: seq<seq<File>>, next0: nat, next: nat, f: File, v': seq<seq<File>>)
    requires Rebuilt(levels, edit, v, next0, next) && f.Valid() && Newer(Elements(f.entries), StoredIn(v))
    requires f.number == next && v' == v[0 := B.Insert(v[0], f)]
    ensures Flushed(v, v', 0, f)
    ensures Rebuilt(levels, edit.(added := edit.added + [(0, f)]), v', next0, next + 1)
  {
    hide Ordered, Newer, Numbering, B.Ascending, Applied, Flushed, B.Insert;
    Level0Flushed(v, v', next, f);
    FlushedNumbering(v, v', 0, f);
    Level0Order(v, v', next, f);
    Level0Edit(levels, edit, v, v', f);
  }

  lemma Level0Caught(levels: seq<seq<File>>, v: seq<seq<File>>, h: seq<Op>, base: nat, done: nat, at: nat, f: File, v': seq<seq<File>>)
    requires Caught(levels, v, h, base, done) && Holds(f.entries, h, done, at)
    requires |v| == kNumLevels && Flushed(v, v', 0, f)
    ensures Caught(levels, v', h, base, at)
  {
    FlushedStored(v[0], f, v'[0]);
    FlushedEntries(v, v', 0, f);
    hide Flushed;
    BetweenJoins(h, base, done, at);
    RecordedBetween(h, done, at);
  }

  lemma Level0Flushed(v: seq<seq<File>>, v': seq<seq<File>>, next: nat, f: File)
    requires AllAscending(v) && Numbering(v, next) && f.entries != [] && f.number == next && v' == v[0 := B.Insert(v[0], f)]
    ensures Flushed(v, v', 0, f) && AllAscending(v')
  {
    hide B.Insert;
  }

  lemma Level0Order(v: seq<seq<File>>, v': seq<seq<File>>, next: nat, f: File)
    requires Ordered(v) && Flushed(v, v', 0, f) && Numbering(v, next) && f.number == next && f.Valid()
    requires Newer(Elements(f.entries), StoredIn(v))
    ensures Ordered(v')
  {
    FlushKeepsOrder(v, v', 0, f);
  }

  lemma Level0Edit(levels: seq<seq<File>>, edit: B.VersionEdit, v: seq<seq<File>>, v': seq<seq<File>>, f: File)
    requires |levels| == kNumLevels == |v| && Applied(levels, edit, v) && Flushed(v, v', 0, f)
    ensures Applied(levels, edit.(added := edit.added + [(0, f)]), v')
  {
    var edit' := edit.(added := edit.added + [(0, f)]);
    forall l | 0 <= l < kNumLevels
      ensures edit'.AddedAt(l) == edit.AddedAt(l) + (if l == 0 then {f} else {}) && edit'.DeletedAt(l) == edit.DeletedAt(l)
    {
      B.AddedGrows(l, edit.added, (0, f));
      assert edit.AddedAt(l) == B.VersionEdit({}, edit.added).AddedAt(l);
      assert edit'.AddedAt(l) == B.VersionEdit({}, edit.added + [(0, f)]).AddedAt(l);
    }
  }

  lemma LaterIsNewer(h: seq<Op>, done: nat, at: nat, all: set<Entry>)
    requires done <= at <= |h| && UpTo(all, done)
    ensures Newer(EntriesBetween(h, done, at), all)
  {
  }

  lemma RecordedBetween(h: seq<Op>, lo: nat, hi: nat)
    requires hi <= |h|
    ensures AllRecorded(h, EntriesBetween(h, lo, hi)) && UpTo(EntriesBetween(h, lo, hi), hi)
  {
  }

  // WriteBatchInternal::InsertInto
  method InsertInto(b: Batch, mem: seq<Entry>, ghost h: seq<Op>, ghost done: nat, ghost at: nat) returns (mem': seq<Entry>)
    requires ValidHistory(h) && Holds(mem, h, done, at)
    requires b.first == at + 1 && at + |b.ops| <= |h| && b.ops == h[at..at + |b.ops|]
    ensures Holds(mem', h, done, at + |b.ops|)
  {
    mem' := mem;
    for i := 0 to |b.ops|
      invariant Holds(mem', h, done, at + i)
    {
      MemHolds(mem', h, done, at + i);
      assert b.ops[i] == h[at + i];
      mem' := Inserted(mem', BatchEntry(b, i));
    }
  }

  // The highest sequence number met so far.
  ghost predicate Seen(maxSequence: nat, base: nat, at: nat) {
    maxSequence <= at && (maxSequence == at || at == base)
  }

  // A memtable of the records lo .. hi of a log: full with the last of them, unless the log ends there, and not before.
  ghost predicate Piece(log: seq<Batch>, h: seq<Op>, at: nat, memUsage: seq<Entry> -> nat, writeBufferSize: nat, lo: nat, hi: nat, mem: seq<Entry>)
  {
    && lo < hi <= |log| && Holds(mem, h, End(log[..lo], at), End(log[..hi], at)) && (hi < |log| ==> memUsage(mem) > writeBufferSize)
    && forall mid, part :: lo < mid < hi && Holds(part, h, End(log[..lo], at), End(log[..mid], at)) ==> memUsage(part) <= writeBufferSize
  }

  // The memtables a log is replayed into, one after the other.
  ghost predicate Pieces(log: seq<Batch>, h: seq<Op>, at: nat, memUsage: seq<Entry> -> nat, writeBufferSize: nat, ends: seq<nat>, mems: seq<seq<Entry>>) {
    && |ends| == |mems| + 1 && ends[0] == 0 && ends[|mems|] <= |log|
    && forall i :: 0 <= i < |mems| ==> Piece(log, h, at, memUsage, writeBufferSize, ends[i], ends[i + 1], mems[i])
  }

  // Their tables on level 0, under the next numbers; an empty one has none.
  function Level0Tables(mems: seq<seq<Entry>>, tableSize: seq<Entry> -> nat, next: nat): seq<(nat, File)> {
    if mems == [] then []
    else
      var n := |mems| - 1;
      Level0Tables(mems[..n], tableSize, next) + if mems[n] == [] then [] else [(0, File(next + n, tableSize(mems[n]), mems[n]))]
  }

  lemma {:induction false} EndStep(log: seq<Batch>, i: nat, at: nat)
    requires i < |log|
    ensures End(log[..i + 1], at) == End(log[..i], at) + |log[i].ops|
    decreases i
  {
    if i > 0 {
      EndStep(log[1..], i - 1, at + |log[0].ops|);
      assert log[1..][..i] == log[..i + 1][1..] && log[1..][..i - 1] == log[..i][1..];
    } else {
      assert log[..1][1..] == [] && log[..0] == [];
    }
  }

  // The records `lo` .. `hi` are in the memtable, which is not full yet.
  ghost predicate Filling(log: seq<Batch>, h: seq<Op>, at: nat, memUsage: seq<Entry> -> nat, writeBufferSize: nat, lo: nat, hi: nat) {
    lo <= hi <= |log| && forall mid, part :: lo < mid <= hi && Holds(part, h, End(log[..lo], at), End(log[..mid], at)) ==> memUsage(part) <= writeBufferSize
  }

  lemma StillFilling(log: seq<Batch>, h: seq<Op>, at: nat, memUsage: seq<Entry> -> nat, writeBufferSize: nat, lo: nat, hi: nat, mem: seq<Entry>)
    requires lo <= hi < |log| && Filling(log, h, at, memUsage, writeBufferSize, lo, hi)
    requires Holds(mem, h, End(log[..lo], at), End(log[..hi + 1], at))
    ensures memUsage(mem) <= writeBufferSize ==> Filling(log, h, at, memUsage, writeBufferSize, lo, hi + 1)
    ensures memUsage(mem) > writeBufferSize ==> Piece(log, h, at, memUsage, writeBufferSize, lo, hi + 1, mem)
  {
    if memUsage(mem) <= writeBufferSize {
      forall mid, part | lo < mid <= hi + 1 && Holds(part, h, End(log[..lo], at), End(log[..mid], at))
        ensures memUsage(part) <= writeBufferSize
      {
        if mid == hi + 1 { SortedUnique(part, mem); }
      }
    }
  }

  lemma OneMorePiece(log: seq<Batch>, h: seq<Op>, at: nat, memUsage: seq<Entry> -> nat, writeBufferSize: nat, ends: seq<nat>, mems: seq<seq<Entry>>,
                     hi: nat, mem: seq<Entry>)
    requires Pieces(log, h, at, memUsage, writeBufferSize, ends, mems)
    requires Piece(log, h, at, memUsage, writeBufferSize, ends[|mems|], hi, mem)
    ensures Pieces(log, h, at, memUsage, writeBufferSize, ends + [hi], mems + [mem])
  {
    var ends', mems' := ends + [hi], mems + [mem];
    forall i | 0 <= i < |mems'| ensures Piece(log, h, at, memUsage, writeBufferSize, ends'[i], ends'[i + 1], mems'[i]) {
      hide Piece;
    }
  }

  lemma OneMoreTable(mems: seq<seq<Entry>>, mem: seq<Entry>, tableSize: seq<Entry> -> nat, next: nat)
    ensures Level0Tables(mems + [mem], tableSize, next)
         == Level0Tables(mems, tableSize, next) + if mem == [] then [] else [(0, File(next + |mems|, tableSize(mem), mem))]
  {
    assert (mems + [mem])[..|mems|] == mems;
  }

  lemma NoTables(tableSize: seq<Entry> -> nat, next: nat)
    ensures Level0Tables([], tableSize, next) == []
  {
  }

  lemma NextRecord(log: seq<Batch>, i: nat, h: seq<Op>, now: nat, hi: nat)
    requires i < |log| && Chain(log[i..], h, now, hi)
    ensures var b := log[i];
            && b.first == now + 1 && now + |b.ops| <= |h| && b.ops == h[now..now + |b.ops|]
            && Chain(log[i + 1..], h, now + |b.ops|, hi) && End(log[i..], now) == End(log[i + 1..], now + |b.ops|)
  {
    assert log[i..][1..] == log[i + 1..];
  }

  lemma ChainOut(h: seq<Op>, at: nat, hi: nat)
    ensures (Chain([], h, at, hi) <==> at == hi) && End([], at) == at
  {
  }

  // The first i records are replayed, the last of them into a memtable that is `open`.
  ghost predicate Split(log: seq<Batch>, h: seq<Op>, at: nat, memUsage: seq<Entry> -> nat, writeBufferSize: nat, i: nat, open: bool,
                        done: nat, now: nat, ends: seq<nat>, mems: seq<seq<Entry>>) {
    && Pieces(log, h, at, memUsage, writeBufferSize, ends, mems) && ends[|mems|] <= i <= |log| && (open <==> ends[|mems|] < i)
    && done == End(log[..ends[|mems|]], at) && now == End(log[..i], at) && Filling(log, h, at, memUsage, writeBufferSize, ends[|mems|], i)
  }

  lemma SplitStarts(log: seq<Batch>, h: seq<Op>, at: nat, memUsage: seq<Entry> -> nat, writeBufferSize: nat)
    ensures Split(log, h, at, memUsage, writeBufferSize, 0, false, at, at, [0], [])
  {
  }

  lemma SplitGrows(log: seq<Batch>, h: seq<Op>, at: nat, memUsage: seq<Entry> -> nat, writeBufferSize: nat, i: nat, open: bool,
                   done: nat, now: nat, ends: seq<nat>, mems: seq<seq<Entry>>, mem: seq<Entry>)
    requires i < |log| && Split(log, h, at, memUsage, writeBufferSize, i, open, done, now, ends, mems) && Holds(mem, h, done, now + |log[i].ops|)
    ensures var now' := now + |log[i].ops|;
            if memUsage(mem) > writeBufferSize then Split(log, h, at, memUsage, writeBufferSize, i + 1, false, now', now', ends + [i + 1], mems + [mem])
            else Split(log, h, at, memUsage, writeBufferSize, i + 1, true, done, now', ends, mems)
  {
    hide Pieces, Piece, Holds;
    EndStep(log, i, at);
    PiecesEnd(log, h, at, memUsage, writeBufferSize, ends, mems);
    StillFilling(log, h, at, memUsage, writeBufferSize, ends[|mems|], i, mem);
    if memUsage(mem) > writeBufferSize { OneMorePiece(log, h, at, memUsage, writeBufferSize, ends, mems, i + 1, mem); }
  }

  lemma PiecesEnd(log: seq<Batch>, h: seq<Op>, at: nat, memUsage: seq<Entry> -> nat, writeBufferSize: nat, ends: seq<nat>, mems: seq<seq<Entry>>)
    requires Pieces(log, h, at, memUsage, writeBufferSize, ends, mems)
    ensures |ends| == |mems| + 1 && ends[|mems|] <= |log|
  {
  }

  lemma SplitEnds(log: seq<Batch>, h: seq<Op>, at: nat, memUsage: seq<Entry> -> nat, writeBufferSize: nat, done: nat, now: nat,
                  ends: seq<nat>, mems: seq<seq<Entry>>, mem: seq<Entry>)
    requires Split(log, h, at, memUsage, writeBufferSize, |log|, true, done, now, ends, mems) && Holds(mem, h, done, now)
    ensures |ends| == |mems| + 1 && Pieces(log, h, at, memUsage, writeBufferSize, ends + [|log|], mems + [mem])
  {
    hide Pieces, Holds;
    PiecesEnd(log, h, at, memUsage, writeBufferSize, ends, mems);
    LastPiece(log, h, at, memUsage, writeBufferSize, ends[|mems|], mem);
    hide Piece;
    OneMorePiece(log, h, at, memUsage, writeBufferSize, ends, mems, |log|, mem);
  }

  // RecoverLogFile: replay one log into memtables, writing each full one, and the last one, to level 0.
  method RecoverLogFile(log: seq<Batch>, memUsage: seq<Entry> -> nat, writeBufferSize: nat, tableSize: seq<Entry> -> nat,
                        edit: B.VersionEdit, next: nat, tables: map<nat, seq<Entry>>, maxSequence: nat,
                        ghost levels: seq<seq<File>>, ghost v: seq<seq<File>>, ghost next0: nat, ghost before: map<nat, seq<Entry>>,
                        ghost h: seq<Op>, ghost base: nat, ghost at: nat)
    returns (edit': B.VersionEdit, next': nat, tables': map<nat, seq<Entry>>, maxSequence': nat, ghost v': seq<seq<File>>,
             ghost ends: seq<nat>, ghost mems: seq<seq<Entry>>)
    requires ValidHistory(h) && Rebuilt(levels, edit, v, next0, next) && Caught(levels, v, h, base, at)
    requires TablesWritten(before, tables, edit, next0) && Seen(maxSequence, base, at)
    requires Chain(log, h, at, End(log, at))
    ensures Rebuilt(levels, edit', v', next0, next') && Caught(levels, v', h, base, End(log, at))
    ensures TablesWritten(before, tables', edit', next0) && Seen(maxSequence', base, End(log, at)) && next <= next'
    ensures Pieces(log, h, at, memUsage, writeBufferSize, ends, mems) && |ends| == |mems| + 1 && ends[|mems|] == |log|
    ensures edit' == edit.(added := edit.added + Level0Tables(mems, tableSize, next)) && next' == next + |mems|
  {
    hide Rebuilt, Caught, TablesWritten, Holds, Pieces, Split, ValidHistory, Level0Tables, Inserted, Chain, End;
    NoTables(tableSize, next);
    edit', next', tables', maxSequence', v' := edit, next, tables, maxSequence, v;
    ends, mems := [0], [];
    var mem: Option<seq<Entry>> := None;
    ghost var done: nat, now: nat := at, at;
    StartsEmpty(levels, v, h, base, at);
    SplitStarts(log, h, at, memUsage, writeBufferSize);
    for i := 0 to |log|
      invariant Rebuilt(levels, edit', v', next0, next') && Caught(levels, v', h, base, done)
      invariant TablesWritten(before, tables', edit', next0) && Seen(maxSequence', base, now) && next <= next'
      invariant Holds(if mem.Some? then mem.value else [], h, done, now) && (mem.None? ==> done == now)
      invariant Chain(log[i..], h, now, End(log, at)) && End(log[i..], now) == End(log, at)
      invariant Split(log, h, at, memUsage, writeBufferSize, i, mem.Some?, done, now, ends, mems)
      invariant edit' == edit.(added := edit.added + Level0Tables(mems, tableSize, next)) && next' == next + |mems|
    {
      var b := log[i];
      NextRecord(log, i, h, now, End(log, at));
      ghost var open, before' := mem.Some?, now;
      if mem.None? { mem := Some([]); }
      var inserted := InsertInto(b, mem.value, h, done, now);
      mem := Some(inserted);
      now := now + |b.ops|;
      var last := b.first + |b.ops| - 1;
      if last > maxSequence' { maxSequence' := last; }
      SplitGrows(log, h, at, memUsage, writeBufferSize, i, open, done, before', ends, mems, inserted);
      if memUsage(inserted) > writeBufferSize {
        OneMoreTable(mems, inserted, tableSize, next);
        edit', next', tables', v' := WriteLevel0Table(inserted, tableSize(inserted), edit', next', tables',
                                                      levels, v', next0, before, h, base, done, now);
        mem, done, ends, mems := None, now, ends + [i + 1], mems + [inserted];
        StartsEmpty(levels, v', h, base, now);
      }
    }
    assert log[|log|..] == [];
    ChainOut(h, now, End(log, at));
    if mem.Some? {
      SplitEnds(log, h, at, memUsage, writeBufferSize, done, now, ends, mems, mem.value);
      OneMoreTable(mems, mem.value, tableSize, next);
      edit', next', tables', v' := WriteLevel0Table(mem.value, tableSize(mem.value), edit', next', tables',
                                                    levels, v', next0, before, h, base, done, now);
      ends, mems := ends + [|log|], mems + [mem.value];
    } else {
      SplitDone(log, h, at, memUsage, writeBufferSize, done, now, ends, mems);
    }
  }

  lemma SplitDone(log: seq<Batch>, h: seq<Op>, at: nat, memUsage: seq<Entry> -> nat, writeBufferSize: nat, done: nat, now: nat,
                  ends: seq<nat>, mems: seq<seq<Entry>>)
    requires Split(log, h, at, memUsage, writeBufferSize, |log|, false, done, now, ends, mems)
    ensures Pieces(log, h, at, memUsage, writeBufferSize, ends, mems) && |ends| == |mems| + 1 && ends[|mems|] == |log|
  {
    hide Piece, Filling;
  }

  lemma LastPiece(log: seq<Batch>, h: seq<Op>, at: nat, memUsage: seq<Entry> -> nat, writeBufferSize: nat, lo: nat, mem: seq<Entry>)
    requires lo < |log| && Filling(log, h, at, memUsage, writeBufferSize, lo, |log|)
    requires Holds(mem, h, End(log[..lo], at), End(log[..|log|], at))
    ensures Piece(log, h, at, memUsage, writeBufferSize, lo, |log|, mem)
  {
    hide Holds;
  }

  lemma StartsEmpty(levels: seq<seq<File>>, v: seq<seq<File>>, h: seq<Op>, base: nat, at: nat)
    requires Caught(levels, v, h, base, at)
    ensures Holds([], h, at, at)
  {
    assert Elements([]) == {} == EntriesBetween(h, at, at);
  }

  // DBImpl::Recover: all logs in order, marking their numbers used.
  method RecoverLogs(logs: map<nat, seq<Batch>>, order: seq<nat>, memUsage: seq<Entry> -> nat, writeBufferSize: nat, tableSize: seq<Entry> -> nat,
                     first: nat, tables: map<nat, seq<Entry>>, ghost levels: seq<seq<File>>, ghost h: seq<Op>, ghost base: nat)
    returns (edit: B.VersionEdit, next: nat, tables': map<nat, seq<Entry>>, maxSequence: nat, ghost v: seq<seq<File>>)
    requires ValidHistory(h) && (forall n :: n in order ==> n in logs) && Chain(Concat(logs, order), h, base, |h|)
    requires Ordered(levels) && AllAscending(levels) && Numbering(levels, first)
    requires AllRecorded(h, StoredIn(levels)) && UpTo(StoredIn(levels), base) && base <= |h|
    ensures Rebuilt(levels, edit, v, first, next) && Caught(levels, v, h, base, |h|)
    ensures TablesWritten(tables, tables', edit, first) && Seen(maxSequence, base, |h|) && first <= next
    ensures (forall n :: n in order ==> n < next) && (order == [] ==> v == levels)
  {
    hide Rebuilt, Caught, TablesWritten, Chain, Ordered, AllAscending, Numbering, AllRecorded, UpTo, Seen, ValidHistory;
    edit, next, tables', maxSequence, v := B.VersionEdit({}, []), first, tables, 0, levels;
    ghost var at := base;
    NothingReplayed(levels, first, h, base);
    for i := 0 to |order|
      invariant Rebuilt(levels, edit, v, first, next) && Caught(levels, v, h, base, at)
      invariant TablesWritten(tables, tables', edit, first) && Seen(maxSequence, base, at) && first <= next
      invariant (forall n :: n in order[..i] ==> n < next) && (i == 0 ==> v == levels)
      invariant (forall n :: n in order[i..] ==> n in logs) && Chain(Concat(logs, order[i..]), h, at, |h|)
    {
      var n := order[i];
      assert n in order && order[i..][0] == n && order[i..][1..] == order[i + 1..];
      assert order[..i + 1] == order[..i] + [n];
      ChainSplit(logs[n], Concat(logs, order[i + 1..]), h, at, |h|);
      ghost var ends, mems;
      edit, next, tables', maxSequence, v, ends, mems :=
        RecoverLogFile(logs[n], memUsage, writeBufferSize, tableSize, edit, next, tables', maxSequence, levels, v, first, tables, h, base, at);
      at := End(logs[n], at);
      if next <= n {                               // MarkFileNumberUsed
        NextGrows(levels, edit, v, first, next, n + 1);
        next := n + 1;
      }
    }
    ChainOver(h, at);
    assert order[..|order|] == order;
  }

  lemma ChainOver(h: seq<Op>, at: nat)
    ensures Chain([], h, at, |h|) ==> at == |h|
  {
  }

  lemma NothingReplayed(levels: seq<seq<File>>, next: nat, h: seq<Op>, base: nat)
    requires Ordered(levels) && AllAscending(levels) && Numbering(levels, next)
    requires AllRecorded(h, StoredIn(levels)) && UpTo(StoredIn(levels), base) && base <= |h|
    ensures Rebuilt(levels, B.VersionEdit({}, []), levels, next, next) && Caught(levels, levels, h, base, base)
    ensures forall tables: map<nat, seq<Entry>> :: TablesWritten(tables, tables, B.VersionEdit({}, []), next)
    ensures Seen(0, base, base)
  {
    var none := B.VersionEdit({}, []);
    hide Ordered, Numbering, AllRecorded, UpTo;
    forall l | 0 <= l < kNumLevels
      ensures B.FileSet(levels[l]) == (set f | f in B.FileSet(levels[l]) && f.number !in none.DeletedAt(l)) + none.AddedAt(l)
    {
      assert none.DeletedAt(l) == {} && none.AddedAt(l) == {};
    }
    assert EntriesBetween(h, base, base) == {};
  }

  // ----- the new manifest -----

  // WriteSnapshot: one record with every compaction pointer, naming every file of the version.
  method WriteSnapshot(levels: seq<seq<File>>, pointers: Pointers) returns (edit: B.VersionEdit, given: seq<(nat, InternalKey)>)
    requires |levels| == |pointers| == kNumLevels
    ensures edit == B.VersionEdit({}, SnapshotAdds(levels, kNumLevels)) && given == PointersSet(pointers)
  {
    given := [];
    for l := 0 to kNumLevels
      invariant given == PointersSet(pointers[..l])
    {
      assert pointers[..l + 1][..l] == pointers[..l];
      if pointers[l].Some? { given := given + [(l, pointers[l].value)]; }
    }
    assert pointers[..kNumLevels] == pointers;
    var added := [];
    for l := 0 to kNumLevels
      invariant added == SnapshotAdds(levels, l)
    {
      var before := added;
      for i := 0 to |levels[l]|
        invariant added == before + LevelAdds(l, levels[l])[..i]
      {
        assert LevelAdds(l, levels[l])[..i + 1] == LevelAdds(l, levels[l])[..i] + [(l, levels[l][i])];
        added := added + [(l, levels[l][i])];
      }
      assert LevelAdds(l, levels[l])[..|levels[l]|] == LevelAdds(l, levels[l]);
    }
    edit := B.VersionEdit({}, added);
  }

  lemma SnapshotReplays(levels: seq<seq<File>>, next: nat, given: seq<(nat, InternalKey)>)
    requires AllAscending(levels) && Numbering(levels, next)
    ensures var snapshot := B.VersionEdit({}, SnapshotAdds(levels, kNumLevels));
            snapshot.Valid() && Replays([Record(snapshot, None, given)], levels, next)
  {
    var snapshot := B.VersionEdit({}, SnapshotAdds(levels, kNumLevels));
    var r := Record(snapshot, None, given);
    SnapshotAddsFrom(levels, kNumLevels);
    assert [] + [r] == [r] && EditsOf([]) == [];
    forall l | 0 <= l < kNumLevels
      ensures ValidEdits(EditsOf([r]))
      ensures B.FileSet(levels[l]) == B.Live({}, Replay(EMPTY, l, EditsOf([r])))
      ensures EverAdded([r], l) == B.FileSet(levels[l])
    {
      SnapshotLevel(levels, next, r, l);
    }
    hide B.Live, Replay, EverAdded, B.Ascending;
    forall m, l, f | 0 <= m < l < kNumLevels && f in levels[m] ensures NumberNotIn(f, EverAdded([r], l)) {
      assert forall g :: g in B.FileSet(levels[l]) ==> g in levels[l];
    }
  }

  lemma SnapshotLevel(levels: seq<seq<File>>, next: nat, r: Record, l: nat)
    requires AllAscending(levels) && Numbering(levels, next) && l < kNumLevels
    requires r.edit == B.VersionEdit({}, SnapshotAdds(levels, kNumLevels)) && r.edit.Valid()
    ensures ValidEdits(EditsOf([r]))
    ensures B.FileSet(levels[l]) == B.Live({}, Replay(EMPTY, l, EditsOf([r])))
    ensures EverAdded([r], l) == B.FileSet(levels[l])
  {
    assert [] + [r] == [r] && EditsOf([]) == [];
    DistinctOnLevel(levels, next, l);
    SnapshotAddsFresh(levels, kNumLevels, l);
    SnapshotAddsAll(levels, kNumLevels, l);
    assert EverAdded([], l) == {};
    LevelAppended([], r, l, {});
    assert r.edit.DeletedAt(l) == {};
  }

  lemma DistinctOnLevel(levels: seq<seq<File>>, next: nat, l: nat)
    requires AllAscending(levels) && Numbering(levels, next) && l < kNumLevels
    ensures forall i, j :: 0 <= i < j < |levels[l]| ==> levels[l][i].number != levels[l][j].number
  {
    forall i, j | 0 <= i < j < |levels[l]| ensures levels[l][i].number != levels[l][j].number {
      assert B.Less(levels[l][i], levels[l][j]);
      assert levels[l][i] in levels[l] && levels[l][j] in levels[l];
    }
  }

  // The manifest of the reopened store.
  function NewManifest(levels: seq<seq<File>>, edit: B.VersionEdit, numbers: Numbers, given: seq<(nat, InternalKey)>): seq<Record>
    requires |levels| == kNumLevels
  {
    [Record(B.VersionEdit({}, SnapshotAdds(levels, kNumLevels)), None, given), Record(edit, Some(numbers))]
  }

  // It records the pointers that were read.
  lemma PointersStay(levels: seq<seq<File>>, edit: B.VersionEdit, numbers: Numbers, now: Pointers)
    requires |levels| == |now| == kNumLevels
    ensures PointersOf(NewManifest(levels, edit, numbers, PointersSet(now))) == now
  {
    var m := NewManifest(levels, edit, numbers, PointersSet(now));
    assert m == [] + [m[0]] + [m[1]];
    PointersAppended([], m[0]);
    PointersAppended([] + [m[0]], m[1]);
    PointersRecorded(now, NoPointers());
    assert now + NoPointers()[|now|..] == now;
  }

  // DB::Open: the state after recovery, with an empty memtable and a new log.
  function Opened(d: Files, levels: seq<seq<File>>, edit: B.VersionEdit, v: seq<seq<File>>, tables: map<nat, seq<Entry>>,
                  next: nat, h: seq<Op>, given: seq<(nat, InternalKey)>): DbState
    requires |levels| == kNumLevels
  {
    DbState(Store([], None, v), Files(d.logs[next := []], NewManifest(levels, edit, Numbers(next, next + 1, |h|), given), tables),
            next, 0, next + 1, h, [], |h|, |h|)
  }

  lemma OpenedIsGood(d: Files, levels: seq<seq<File>>, edit: B.VersionEdit, v: seq<seq<File>>, tables: map<nat, seq<Entry>>,
                     first: nat, next: nat, h: seq<Op>, base: nat, order: seq<nat>, given: seq<(nat, InternalKey)>)
    requires Durable(d, levels, h, base, order) && first == LastNumbers(d.manifest).value.nextFile + 1
    requires Rebuilt(levels, edit, v, first, next) && Caught(levels, v, h, base, |h|) && TablesWritten(d.tables, tables, edit, first)
    requires forall n :: n in order ==> n < next
    ensures Opened(d, levels, edit, v, tables, next, h, given).Good()
    ensures Opened(d, levels, edit, v, tables, next, h, given).st.All() == OnDisk(levels, h, base)
  {
    var s := Opened(d, levels, edit, v, tables, next, h, given);
    NewLogAlone(d.logs, LastNumbers(d.manifest).value.logNumber, order, next);
    OpenedManifest(d.manifest, levels, edit, v, first, next, h, base, given);
    OpenedTables(d, levels, edit, v, tables, first, next, h, base);
    ChainEmpty(h);
    hide Ordered, Replays, Numbering, Chain, AllRecorded, LiveOrder, UpTo, Applied, TablesPresent, AddsNew, ManifestFits,
         AllAscending, TablesWritten, NewManifest, Newer, Concat;
    assert h + [] == h && EntriesBetween(h, |h|, |h|) == {};
    OpenedStore(v, h);
    OrderChain(s);
  }

  lemma OpenedStore(v: seq<seq<File>>, h: seq<Op>)
    requires Ordered(v) && AllAscending(v) && AllRecorded(h, StoredIn(v)) && ValidHistory(h)
    ensures var st := Store([], None, v);
            && Sound(st, h) && st.All() == StoredIn(v)
            && Elements(st.mem) == {} && Elements(st.Imm()) == {}
  {
    hide Ordered, AllAscending, ValidHistory;
    var st := Store([], None, v);
    assert Elements(st.mem) == {} && Elements(st.Imm()) == {};
    assert st.All() == StoredIn(v);
  }

  lemma OpenedManifest(manifest: seq<Record>, levels: seq<seq<File>>, edit: B.VersionEdit, v: seq<seq<File>>,
                       first: nat, next: nat, h: seq<Op>, base: nat, given: seq<(nat, InternalKey)>)
    requires AllAscending(levels) && ManifestFits(manifest, levels, h, base) && first == LastNumbers(manifest).value.nextFile + 1
    requires Rebuilt(levels, edit, v, first, next)
    ensures LastNumbers(NewManifest(levels, edit, Numbers(next, next + 1, |h|), given)) == Some(Numbers(next, next + 1, |h|))
    ensures ManifestFits(NewManifest(levels, edit, Numbers(next, next + 1, |h|), given), v, h, |h|)
  {
    hide Ordered, Applied, AllAscending, Replays, Numbering, AddsNew, NewManifest;
    NextLater(manifest, levels, first - 1, first);
    NewManifestReplays(levels, edit, v, first, next, Numbers(next, next + 1, |h|), given);
  }

  lemma NewManifestReplays(levels: seq<seq<File>>, edit: B.VersionEdit, v: seq<seq<File>>, first: nat, next: nat, n: Numbers,
                           given: seq<(nat, InternalKey)>)
    requires AllAscending(levels) && Numbering(levels, first) && Rebuilt(levels, edit, v, first, next) && next <= n.nextFile
    ensures Replays(NewManifest(levels, edit, n, given), v, n.nextFile) && Numbering(v, n.nextFile)
    ensures LastNumbers(NewManifest(levels, edit, n, given)) == Some(n)
  {
    var snapshot := Record(B.VersionEdit({}, SnapshotAdds(levels, kNumLevels)), None, given);
    var r := Record(edit, Some(n));
    assert NewManifest(levels, edit, n, given) == [snapshot] + [r];
    LastAppended([snapshot], r);
    hide Ordered, Applied, AllAscending, Replays, Numbering, AddsNew, SnapshotAdds, NewManifest, LastNumbers;
    SnapshotReplays(levels, first, given);
    NewFilesRecorded([snapshot], levels, r, v, first, next);
    NextLater([snapshot] + [r], v, next, n.nextFile);
  }

  lemma OpenedTables(d: Files, levels: seq<seq<File>>, edit: B.VersionEdit, v: seq<seq<File>>, tables: map<nat, seq<Entry>>,
                     first: nat, next: nat, h: seq<Op>, base: nat)
    requires TablesPresent(d.tables, levels) && ManifestFits(d.manifest, levels, h, base)
    requires first == LastNumbers(d.manifest).value.nextFile + 1
    requires Rebuilt(levels, edit, v, first, next) && TablesWritten(d.tables, tables, edit, first)
    ensures TablesPresent(tables, v)
  {
    hide Ordered, Applied, AllAscending, Replays, Numbering, AddsNew;
    NextLater(d.manifest, levels, first - 1, first);
    TablesStay(d.tables, tables, levels, edit, v, first);
  }

  // Only the new log is not older than itself.
  lemma NewLogAlone(logs: map<nat, seq<Batch>>, from: nat, order: seq<nat>, next: nat)
    requires LiveOrder(logs, from, order) && from < next && forall n :: n in order ==> n < next
    ensures LiveOrder(logs[next := []], next, [next])
    ensures AllBelow(logs[next := []], next + 1)
  {
    forall n | n in logs ensures n < next {
      assert n in order <==> n >= from;
    }
  }
}
