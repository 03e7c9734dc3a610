/** The store as a value: memtable, immutable memtable and version; what each structural step keeps.

    `Sound` is the invariant of every run: memtables sorted, the version in search order, every
    entry newer than those searched after it, and every entry a recorded operation. */
module StoreState {
  import opened Keys
  import opened Reads
  import opened Versions
  import opened VersionGet
  import opened CompactionInputs
  import opened CompactionPick
  import opened CompactionWork
  import opened CompactionReads
  import opened CompactionMerge
  import opened Install
  import opened Interleaved
  import opened Edits
  import B = Builder

  datatype Store = Store(mem: seq<Entry>, imm: Option<seq<Entry>>, levels: seq<seq<File>>) {
    function Imm(): seq<Entry> { if imm.Some? then imm.value else [] }

    ghost function Above(): set<Entry> { Elements(mem) + Elements(Imm()) }
    ghost function All(): set<Entry> { Above() + StoredIn(levels) }

    // Memtables sorted; newest first along memtable, immutable memtable, levels.
    ghost predicate Ranked() {
      && Sorted(mem) && AllParse(mem) && Sorted(Imm()) && AllParse(Imm())
      && Ordered(levels) && AllAscending(levels)
      && Newer(Elements(mem), Elements(Imm())) && Newer(Above(), StoredIn(levels))
    }
  }

  ghost predicate ValidHistory(h: seq<Op>) {
    |h| < kMaxSequenceNumber && forall i :: 0 <= i < |h| ==> h[i].kind <= kTypeValue
  }

  // Every snapshot from `floor` up reads this user key like the history.
  ghost predicate ReadsHistory(all: set<Entry>, h: seq<Op>, floor: nat, user: UserKey) {
    forall s :: floor <= s <= |h| ==> ReadsAs(all, user, s, HistoryRead(h, user, s))
  }

  // ----- reads -----

  // MemTable::Get
  method MemGet(es: seq<Entry>, user: UserKey, s: nat) returns (r: Option<Entry>)
    requires Sorted(es) && AllParse(es)
    ensures IsNewest(Elements(es), user, s, r)
  {
    var i := TableSeek(es, SeekKey(user, s));
    SeekFindsNewest(es, user, s, i);
    r := Matching(es, i, user);
  }

  lemma MissThenHit(a: set<Entry>, b: set<Entry>, user: UserKey, s: nat, r: Option<Entry>)
    requires IsNewest(a, user, s, None) && IsNewest(b, user, s, r)
    ensures IsNewest(a + b, user, s, r)
  {
  }

  lemma HitHides(a: set<Entry>, b: set<Entry>, user: UserKey, s: nat, r: Entry)
    requires IsNewest(a, user, s, Some(r)) && Newer(a, b)
    ensures IsNewest(a + b, user, s, Some(r))
  {
  }

  // DBImpl::Get: memtable, immutable memtable, current version.
  method Lookup(st: Store, user: UserKey, s: nat) returns (r: Option<Entry>)
    requires st.Ranked()
    ensures IsNewest(st.All(), user, s, r)
  {
    r := MemGet(st.mem, user, s);
    if r.Some? {
      HitHides(Elements(st.mem), Elements(st.Imm()), user, s, r.value);
      HitHides(st.Above(), StoredIn(st.levels), user, s, r.value);
      return;
    }
    r := MemGet(st.Imm(), user, s);
    MissThenHit(Elements(st.mem), Elements(st.Imm()), user, s, r);
    if r.Some? {
      HitHides(st.Above(), StoredIn(st.levels), user, s, r.value);
      return;
    }
    r := VersionGet.Get(st.levels, user, s);
    MissThenHit(st.Above(), StoredIn(st.levels), user, s, r);
  }

  lemma ReadIsHistory(all: set<Entry>, h: seq<Op>, floor: nat, user: UserKey, s: nat, r: Option<Entry>)
    requires ReadsHistory(all, h, floor, user) && floor <= s <= |h| && IsNewest(all, user, s, r)
    requires AllRecorded(h, all)
    ensures Outcome(r) == HistoryRead(h, user, s)
  {
    var r' :| IsNewest(all, user, s, r') && Outcome(r') == HistoryRead(h, user, s);
    NewestAgree(all, user, s, r, r');
    if r.Some? { SameRecord(h, r.value, r'.value); }
  }

  lemma SameRecord(h: seq<Op>, a: Entry, b: Entry)
    requires Recorded(h, a) && Recorded(h, b) && a.key == b.key
    ensures a == b
  {
  }

  // ----- writes -----

  lemma HistoryStable(h: seq<Op>, more: seq<Op>, user: UserKey, s: nat)
    requires s <= |h|
    ensures HistoryRead(h + more, user, s) == HistoryRead(h, user, s)
    ensures LastOp(h + more, user, s) == LastOp(h, user, s)
  {
  }

  lemma RecordedStable(h: seq<Op>, op: Op, all: set<Entry>)
    requires AllRecorded(h, all)
    ensures AllRecorded(h + [op], all + {EntryOf(h + [op], |h| + 1)})
  {
  }

  // Appending one operation and its entry keeps every read right.
  lemma WriteReads(h: seq<Op>, op: Op, all: set<Entry>, floor: nat, user: UserKey)
    requires ReadsHistory(all, h, floor, user) && AllRecorded(h, all) && op.kind <= kTypeValue && floor <= |h|
    ensures ReadsHistory(all + {EntryOf(h + [op], |h| + 1)}, h + [op], floor, user)
  {
    var h', e := h + [op], EntryOf(h + [op], |h| + 1);
    forall s | floor <= s <= |h'| ensures ReadsAs(all + {e}, user, s, HistoryRead(h', user, s)) {
      var s0 := if s <= |h| then s else |h|;
      HistoryStable(h, [op], user, s0);
      var r :| IsNewest(all, user, s0, r) && Outcome(r) == HistoryRead(h, user, s0);
      if s == |h'| && op.user == user {
        assert IsNewest(all + {e}, user, s, Some(e)) by { NewestIsLast(h, all, e, user, s); }
      } else {
        OtherKeyUnchanged(h, all, e, user, s0, s, r);
      }
    }
  }

  lemma NewestIsLast(h: seq<Op>, all: set<Entry>, e: Entry, user: UserKey, s: nat)
    requires AllRecorded(h, all) && e.key.sequence == |h| + 1 == s && e.key.user == user && e.Parses()
    ensures IsNewest(all + {e}, user, s, Some(e))
  {
    forall x | x in all + {e} && Candidate(x, user, s) ensures x.key.Tag() <= e.key.Tag() {
      if x in all { assert Recorded(h, x); }
    }
  }

  lemma OtherKeyUnchanged(h: seq<Op>, all: set<Entry>, e: Entry, user: UserKey, s0: nat, s: nat, r: Option<Entry>)
    requires AllRecorded(h, all) && e.key.sequence == |h| + 1
    requires s0 == (if s <= |h| then s else |h|) && s <= |h| + 1 && (s <= |h| || e.key.user != user)
    requires IsNewest(all, user, s0, r)
    ensures IsNewest(all + {e}, user, s, r)
  {
    forall x | x in all ensures Candidate(x, user, s) <==> Candidate(x, user, s0) { assert Recorded(h, x); }
  }

  // A new entry is newer than everything recorded.
  lemma NewestOfAll(h: seq<Op>, e: Entry, all: set<Entry>)
    requires AllRecorded(h, all) && e.key.sequence > |h|
    ensures Newer({e}, all)
  {
    forall y | y in all ensures e.key.Tag() > y.key.Tag() { assert Recorded(h, y); }
  }

  // ----- invariants of the whole store -----

  // The store is ranked and every entry is a recorded operation.
  ghost predicate Sound(st: Store, h: seq<Op>) {
    st.Ranked() && AllRecorded(h, st.All()) && ValidHistory(h)
  }

  lemma SoundOrdered(st: Store, h: seq<Op>)
    requires Sound(st, h)
    ensures st.Ranked() && Ordered(st.levels) && AllAscending(st.levels) && |st.levels| == kNumLevels
    ensures |h| < kMaxSequenceNumber && AllRecorded(h, st.All())
  {
  }

  lemma FloorRises(all: set<Entry>, h: seq<Op>, floor: nat, higher: nat, user: UserKey)
    requires ReadsHistory(all, h, floor, user) && floor <= higher
    ensures ReadsHistory(all, h, higher, user)
  {
  }

  // The store of a new database.
  lemma EmptyStore(st: Store)
    requires st == Store([], None, seq(kNumLevels, _ => []))
    ensures Sound(st, []) && Numbering(st.levels, 2) && forall user :: ReadsHistory(st.All(), [], 0, user)
  {
    assert forall l :: 0 <= l < kNumLevels ==> st.levels[l] == [] && Stored(st.levels[l]) == {};
    assert StoredIn(st.levels) == {} && Elements(st.mem) == {} && Elements(st.Imm()) == {};
    assert st.All() == {} && st.Above() == {};
    hide Stored, StoredIn, Store.All, Store.Above, ReadsHistory, Elements;
    EmptyLevels(st.levels);
    NothingToRead(st.All());
  }

  lemma EmptyLevels(levels: seq<seq<File>>)
    requires levels == seq(kNumLevels, _ => [])
    ensures Ordered(levels) && AllAscending(levels) && Numbering(levels, 2)
  {
    assert forall l :: 0 <= l < kNumLevels ==> levels[l] == [];
    NothingStored();
    hide Stored, StoredIn, File.Valid;
    assert forall l :: 0 <= l < kNumLevels ==> Stored(levels[l]) == {};
    assert forall l, m :: 0 <= l < m < kNumLevels ==> Newer(Stored(levels[l]), Stored(levels[m]));
    hide Newer;
  }

  lemma NothingStored()
    ensures Stored([]) == {}
  {
  }

  lemma NothingToRead(all: set<Entry>)
    requires all == {}
    ensures forall user :: ReadsHistory(all, [], 0, user)
  {
    forall user, s | 0 <= s <= 0 ensures ReadsAs(all, user, s, HistoryRead([], user, s)) {
      assert IsNewest(all, user, s, None);
    }
  }

  lemma InputsAreFiles(levels: seq<seq<File>>, l: nat, in0: seq<File>, in1: seq<File>)
    requires Ordered(levels) && l + 1 < kNumLevels && GoodInputs(levels, l, in0, in1)
    ensures forall f :: f in in0 ==> f in levels[l]
    ensures forall f :: f in in1 ==> f in levels[l + 1]
  {
  }

  lemma InsertOne(st: Store, h: seq<Op>, op: Op)
    requires Sound(st, h) && op.kind <= kTypeValue && |h| + 1 < kMaxSequenceNumber
    ensures var e := EntryOf(h + [op], |h| + 1);
            && NewKey(st.mem, e)
            && var st' := st.(mem := Inserted(st.mem, e)); Sound(st', h + [op]) && st'.All() == st.All() + {e}
  {
    var e := EntryOf(h + [op], |h| + 1);
    NewestOfAll(h, e, st.All());
    InsertedKeyIsNew(st.mem, e, st.All());
    var st' := st.(mem := Inserted(st.mem, e));
    assert st'.All() == st.All() + {e};
    RecordedStable(h, op, st.All());
    InsertedParses(st.mem, e);
    InsertedRanked(Elements(st.mem), Elements(st.Imm()), StoredIn(st.levels), e);
  }

  lemma InsertedKeyIsNew(es: seq<Entry>, e: Entry, all: set<Entry>)
    requires Newer({e}, all) && Elements(es) <= all
    ensures NewKey(es, e)
  {
    forall i | 0 <= i < |es| ensures es[i].key.user != e.key.user || es[i].key.Tag() != e.key.Tag() {
      assert es[i] in Elements(es) && e in {e};
    }
  }

  lemma InsertedParses(es: seq<Entry>, e: Entry)
    requires Sorted(es) && NewKey(es, e) && AllParse(es) && e.Parses()
    ensures AllParse(Inserted(es, e))
  {
    var r := Inserted(es, e);
    forall i | 0 <= i < |r| ensures r[i].Parses() { assert r[i] in Elements(r); }
  }

  lemma InsertedRanked(mem: set<Entry>, imm: set<Entry>, lower: set<Entry>, e: Entry)
    requires Newer(mem, imm) && Newer(mem + imm, lower) && Newer({e}, mem + imm + lower)
    ensures Newer(mem + {e}, imm) && Newer(mem + {e} + imm, lower)
  {
  }

  lemma RestAndInputs(j: Job)
    requires j.Placed()
    ensures Rest(j.levels, j.l, j.in0, j.in1) + j.Inputs() == StoredIn(j.levels)
  {
    InputsStored(j.levels, j.l, j.in0, j.in1);
    var rest := Rest(j.levels, j.l, j.in0, j.in1);
    forall e | e in j.Inputs() ensures e in StoredIn(j.levels) {
      if e in Stored(j.in0) { assert e in Stored(j.levels[j.l]); } else { assert e in Stored(j.levels[j.l + 1]); }
    }
    forall e | e in StoredIn(j.levels) && e !in j.Inputs() ensures e in rest {
      NotInputIsRest(j, e);
    }
  }

  // What was flushed while a compaction of the version `base` went on.
  ghost function FlushedSince(base: seq<seq<File>>, now: seq<seq<File>>): set<Entry> { StoredIn(now) - StoredIn(base) }

  lemma FlushedIsNew(r: Running, now: seq<seq<File>>, m: nat, f: File, e: Entry)
    requires r.StillFits(now) && m < kNumLevels && f in now[m] && e in f.entries
    ensures f in r.base[m] ==> e in StoredIn(r.base)
    ensures f !in r.base[m] ==> e in FlushedSince(r.base, now)
  {
    BaseLevels(r);
    hide Ordered, GoodInputs, Newer, NoOverlap, Gapless, NoGap, Running.OldStays, Running.OthersAreNew;
    if f in r.base[m] {
      assert e in Stored(r.base[m]);
    } else {
      AlreadyNew(r, now, m, f);
      assert e in Stored(now[m]);
      if e in StoredIn(r.base) { NewerThan(Elements(f.entries), StoredIn(r.base), e, e); }
    }
  }

  // The entries of the store before a compaction is installed, as its job sees them.
  lemma JobCoversStore(st: Store, r: Running, j: Job)
    requires st.Ranked() && r.StillFits(st.levels) && j.levels == r.base && j.l == r.l && j.in0 == r.in0 && j.in1 == r.in1
    requires j.above == st.Above() + FlushedSince(r.base, st.levels)
    ensures j.Placed() && j.Before() == st.All() && Newer(j.above, j.Inputs())
  {
    hide Ordered, GoodInputs, Newer, Gapless, NoGap, Running.OthersAreNew, AllAscending, Rest, Job.Inputs;
    RestAndInputs(j);
    OldStored(r, st.levels);
    NewerSubset(st.Above(), StoredIn(st.levels), st.Above(), j.Inputs());
    forall x, y | x in j.above && y in j.Inputs() && x.key.user == y.key.user ensures x.key.Tag() > y.key.Tag() {
      if x in st.Above() { NewerThan(st.Above(), j.Inputs(), x, y); } else { FlushedIsNewer(r, st.levels, x, y); }
    }
    AllNewer(j.above, j.Inputs());
  }

  lemma FlushedIsNewer(r: Running, now: seq<seq<File>>, x: Entry, y: Entry)
    requires r.StillFits(now) && x in FlushedSince(r.base, now) && y in StoredIn(r.base) && x.key.user == y.key.user
    ensures x.key.Tag() > y.key.Tag()
  {
    BaseLevels(r);
    hide Ordered, GoodInputs, Newer, NoOverlap, Gapless, NoGap, Running.OldStays, Running.OthersAreNew;
    var m :| 0 <= m < |now| && x in Stored(now[m]);
    var f :| f in now[m] && x in f.entries;
    FlushedIsNew(r, now, m, f, x);
    AlreadyNew(r, now, m, f);
    NewerThan(Elements(f.entries), StoredIn(r.base), x, y);
  }

  lemma NotInputIsRest(j: Job, e: Entry)
    requires j.Placed() && e in StoredIn(j.levels) && e !in j.Inputs()
    ensures e in Rest(j.levels, j.l, j.in0, j.in1)
  {
    var m :| 0 <= m < kNumLevels && e in Stored(j.levels[m]);
    var f :| f in j.levels[m] && e in f.entries;
    assert f in j.in0 ==> e in Stored(j.in0);
    assert f in j.in1 ==> e in Stored(j.in1);
    assert InRest(j.levels, j.l, j.in0, j.in1, e);
  }

  // Installing the outputs leaves the rest and the outputs' entries.
  lemma InstalledEntries(j: Job, levels': seq<seq<File>>, outputs: seq<File>)
    requires j.Placed() && Installed(j.levels, levels', j.l, j.in0, j.in1, outputs)
    ensures StoredIn(levels') == Rest(j.levels, j.l, j.in0, j.in1) + Stored(outputs)
  {
    StoredSplit(j.levels[j.l], j.in0, [], levels'[j.l]);
    StoredSplit(j.levels[j.l + 1], j.in1, outputs, levels'[j.l + 1]);
    forall e | e in StoredIn(levels') ensures e in Rest(j.levels, j.l, j.in0, j.in1) + Stored(outputs) {
      NewIsRestOrOutput(j, levels', outputs, e);
    }
    forall e | e in Rest(j.levels, j.l, j.in0, j.in1) ensures e in StoredIn(levels') {
      var m, f := Located(j.levels, j.l, j.in0, j.in1, e);
      if m == j.l || m == j.l + 1 {
        assert e in Stored(levels'[m]);
      } else {
        assert levels'[m] == j.levels[m];
        assert e in Stored(levels'[m]);
      }
    }
    assert forall e :: e in Stored(outputs) ==> e in Stored(levels'[j.l + 1]);
  }

  lemma NewIsRestOrOutput(j: Job, levels': seq<seq<File>>, outputs: seq<File>, e: Entry)
    requires j.Placed() && Installed(j.levels, levels', j.l, j.in0, j.in1, outputs) && e in StoredIn(levels')
    ensures e in Rest(j.levels, j.l, j.in0, j.in1) + Stored(outputs)
  {
    var m :| 0 <= m < kNumLevels && e in Stored(levels'[m]);
    var f :| f in levels'[m] && e in f.entries;
    OldFileOrOutput(j.levels, levels', j.l, j.in0, j.in1, outputs, m, f);
    if m == j.l + 1 && f in outputs {
      assert e in Stored(outputs);
    } else {
      OldFileInRest(j.levels, j.l, j.in0, j.in1, m, f, e);
    }
  }

  lemma OldFileOrOutput(levels: seq<seq<File>>, levels': seq<seq<File>>, l: nat, in0: seq<File>, in1: seq<File>,
                        outputs: seq<File>, m: nat, f: File)
    requires |levels| == kNumLevels && l + 1 < kNumLevels && Installed(levels, levels', l, in0, in1, outputs)
    requires m < kNumLevels && f in levels'[m]
    ensures (m == l + 1 && f in outputs) || (f in levels[m] && !(m == l && f in in0) && !(m == l + 1 && f in in1))
  {
    assert f in B.FileSet(levels'[m]);
  }

  lemma OldFileInRest(levels: seq<seq<File>>, l: nat, in0: seq<File>, in1: seq<File>, m: nat, f: File, e: Entry)
    requires Ordered(levels) && l + 1 < kNumLevels && m < kNumLevels && f in levels[m] && e in f.entries
    requires !(m == l && f in in0) && !(m == l + 1 && f in in1)
    ensures e in Rest(levels, l, in0, in1)
  {
    assert e in Stored(levels[m]);
    assert InRest(levels, l, in0, in1, e);
  }

  // Whether a user key still reads like the history after a compaction is decided by its lost tombstones.
  lemma FaithfulAfter(j: Job, h: seq<Op>, user: UserKey)
    requires j.Valid() && AllRecorded(h, j.Before()) && AllRecorded(h, j.After())
    requires ReadsHistory(j.Before(), h, j.floor, user) && j.floor <= |h|
    ensures ReadsHistory(j.After(), h, j.floor, user) <==> !j.Loses(user)
  {
    if j.Loses(user) {
      var r: Entry :| r.key.user == user && j.LosesTombstone(r);
      LostTombstoneResurrects(j, r);
      ReadsAgree(j.Before(), j.After(), h, j.floor, user, j.floor);
    } else {
      forall s | j.floor <= s <= |h| ensures ReadsAs(j.After(), user, s, HistoryRead(h, user, s)) {
        ReadSurvives(j, user, s);
        SameReadTransfers(j.Before(), j.After(), h, j.floor, user, s);
      }
    }
  }

  lemma ReadsAgree(a: set<Entry>, b: set<Entry>, h: seq<Op>, floor: nat, user: UserKey, s: nat)
    requires ReadsHistory(a, h, floor, user) && floor <= s <= |h| && !SameRead(a, b, user, s)
    ensures !ReadsHistory(b, h, floor, user)
  {
    assert ReadsAs(a, user, s, HistoryRead(h, user, s));
    var r :| IsNewest(a, user, s, r) && Outcome(r) == HistoryRead(h, user, s);
  }

  lemma SameReadTransfers(a: set<Entry>, b: set<Entry>, h: seq<Op>, floor: nat, user: UserKey, s: nat)
    requires ReadsHistory(a, h, floor, user) && AllRecorded(h, a) && floor <= s <= |h| && SameRead(a, b, user, s)
    ensures ReadsAs(b, user, s, HistoryRead(h, user, s))
  {
    var r, r' :| IsNewest(a, user, s, r) && IsNewest(b, user, s, r') && Outcome(r) == Outcome(r');
    ReadIsHistory(a, h, floor, user, s, r);
  }

  // ----- what the structural operations keep -----

  lemma SoundFits(st: Store, h: seq<Op>)
    requires Sound(st, h)
    ensures SequencesFit(st.levels)
  {
    forall l, i | 0 <= l < kNumLevels && 0 <= i < |st.levels[l]|
      ensures st.levels[l][i].Largest().sequence <= kMaxSequenceNumber
    {
      var f := st.levels[l][i];
      var e := f.entries[|f.entries| - 1];
      assert f in st.levels[l] && e in f.entries;
      assert e in Stored(st.levels[l]);
      assert e in StoredIn(st.levels);
      assert Recorded(h, e);
    }
  }

  lemma DropEmptyImm(st: Store, h: seq<Op>)
    requires Sound(st, h) && st.Imm() == []
    ensures var st' := st.(imm := None); Sound(st', h) && st'.All() == st.All()
  {
    assert Elements(st.Imm()) == {};
  }

  lemma FlushSound(st: Store, h: seq<Op>, v: seq<seq<File>>, l: nat, f: File)
    requires Sound(st, h) && st.imm == Some(f.entries) && f.Valid() && l < kNumLevels
    requires Flushed(st.levels, v, l, f) && Numbering(st.levels, f.number)
    requires l > 0 ==> forall m :: 0 <= m <= l ==> NoOverlap(st.levels[m], f)
    ensures var st' := Store(st.mem, None, v); Sound(st', h) && st'.All() == st.All()
  {
    var st' := Store(st.mem, None, v);
    hide Ordered, Newer, NoOverlap, Numbering;
    NewerSubset(st.Above(), StoredIn(st.levels), Elements(f.entries), StoredIn(st.levels));
    NumberedBelow(st.levels, f);
    FlushKeepsOrder(st.levels, v, l, f);
    FlushedStored(st.levels[l], f, v[l]);
    FlushedEntries(st.levels, v, l, f);
    assert Elements(st'.Imm()) == {};
    FlushRanked(st, st', f);
    assert st'.All() == st.All();
  }

  lemma NumberedBelow(levels: seq<seq<File>>, f: File)
    requires Numbering(levels, f.number)
    ensures forall l, g :: 0 <= l < |levels| && g in levels[l] ==> g.number < f.number
  {
  }

  lemma FlushRanked(st: Store, st': Store, f: File)
    requires Newer(Elements(st.mem), Elements(st.Imm())) && Newer(st.Above(), StoredIn(st.levels))
    requires st.imm == Some(f.entries) && st'.mem == st.mem && Elements(st'.Imm()) == {}
    requires StoredIn(st'.levels) == StoredIn(st.levels) + Elements(f.entries)
    ensures Newer(Elements(st'.mem), Elements(st'.Imm())) && Newer(st'.Above(), StoredIn(st'.levels))
  {
  }

  lemma FlushedEntries(levels: seq<seq<File>>, v: seq<seq<File>>, l: nat, f: File)
    requires |levels| == kNumLevels && l < kNumLevels && Flushed(levels, v, l, f)
    requires Stored(v[l]) == Stored(levels[l]) + Elements(f.entries)
    ensures StoredIn(v) == StoredIn(levels) + Elements(f.entries)
  {
    forall e | e in StoredIn(v) ensures e in StoredIn(levels) + Elements(f.entries) {
      var m :| 0 <= m < kNumLevels && e in Stored(v[m]);
      assert e !in Elements(f.entries) ==> e in Stored(levels[m]);
    }
    forall e | e in StoredIn(levels) + Elements(f.entries) ensures e in StoredIn(v) {
      if e in Elements(f.entries) {
        assert e in Stored(v[l]);
      } else {
        var m :| 0 <= m < kNumLevels && e in Stored(levels[m]);
        assert e in Stored(v[m]);
      }
    }
  }

  lemma MovedIsFresh(levels: seq<seq<File>>, next: nat, l: nat, in0: seq<File>)
    requires |levels| == kNumLevels && Numbering(levels, next) && l + 1 < kNumLevels && |in0| == 1
    requires in0[0] in levels[l] && in0[0].entries != []
    ensures FreshOutputs(levels[l + 1], in0)
  {
  }

  // A version with no new entries, in search order again.
  lemma SoundWithLevels(st: Store, h: seq<Op>, v: seq<seq<File>>)
    requires Sound(st, h) && Ordered(v) && AllAscending(v) && StoredIn(v) <= StoredIn(st.levels)
    ensures Sound(st.(levels := v), h)
  {
    hide Ordered, Newer, AllAscending;
    NewerSubset(st.Above(), StoredIn(st.levels), st.Above(), StoredIn(v));
  }

  lemma MovedEntries(j: Job, v: seq<seq<File>>)
    requires j.Placed() && j.in1 == [] && Installed(j.levels, v, j.l, j.in0, [], j.in0)
    requires Rest(j.levels, j.l, j.in0, []) + j.Inputs() == StoredIn(j.levels)
    ensures StoredIn(v) == StoredIn(j.levels)
  {
    hide Job.Placed, Installed;
    InstalledEntries(j, v, j.in0);
    assert Stored([]) == {};
  }

  lemma MoveSound(st: Store, h: seq<Op>, v: seq<seq<File>>, l: nat, in0: seq<File>)
    requires Sound(st, h) && l + 1 < kNumLevels && GoodInputs(st.levels, l, in0, []) && |in0| == 1
    requires Installed(st.levels, v, l, in0, [], in0)
    ensures var st' := st.(levels := v); Sound(st', h) && st'.All() == st.All()
    ensures StoredIn(v) == StoredIn(st.levels)
  {
    var j := Job(st.levels, l, in0, [], [], st.Above(), 0, 0);
    hide Ordered, GoodInputs, Installed, Newer;
    RestAndInputs(j);
    MovedEntries(j, v);
    MoveKeepsOrder(st.levels, v, l, in0);
    InstalledAscending(st.levels, v, l, in0, [], in0);
    SoundWithLevels(st, h, v);
  }

  lemma InstalledAscending(levels: seq<seq<File>>, v: seq<seq<File>>, l: nat, in0: seq<File>, in1: seq<File>, outputs: seq<File>)
    requires |levels| == kNumLevels && l + 1 < kNumLevels && Installed(levels, v, l, in0, in1, outputs)
    ensures AllAscending(v)
  {
  }

  lemma MoveKeepsOrder(levels: seq<seq<File>>, v: seq<seq<File>>, l: nat, in0: seq<File>)
    requires Ordered(levels) && l + 1 < kNumLevels && GoodInputs(levels, l, in0, []) && |in0| == 1
    requires Installed(levels, v, l, in0, [], in0)
    ensures Ordered(v)
  {
    assert forall e :: e in in0[0].entries ==> e in Stored(in0);
    InstallKeepsOrder(levels, v, l, in0, [], in0);
  }

  lemma GrandparentsValid(levels: seq<seq<File>>, l: nat, grandparents: seq<File>)
    requires Ordered(levels) && l + 1 < kNumLevels
    requires l + 2 < kNumLevels ==> IsRun(levels[l + 2], grandparents)
    requires l + 2 == kNumLevels ==> grandparents == []
    ensures ValidFiles(grandparents)
  {
    if l + 2 < kNumLevels { RunIsSorted(levels[l + 2], grandparents); }
  }

  // The outputs are sorted tables made of the inputs' survivors.
  lemma OutputsFit(j: Job, outputs: seq<File>, first: nat)
    requires j.Valid() && Numbered(outputs, first)
    requires Flatten(outputs) == Kept(j.levels, j.l, j.input, |j.input|, j.smallest)
    ensures ValidFiles(outputs) && SortedLevel(outputs) && AllMadeOf(outputs, j.in0, j.in1)
    ensures Stored(outputs) == j.Survivors()
  {
    KeptSorted(j.levels, j.l, j.input, |j.input|, j.smallest);
    SplitOutputs(outputs);
    FlattenStored(outputs);
    SurvivorsAreInputs(j);
    forall i | 0 <= i < |outputs| ensures MadeOf(outputs[i], j.in0, j.in1) {
      assert outputs[i] in outputs;
      forall e | e in outputs[i].entries ensures e in Stored(j.in0) + Stored(j.in1) { assert e in Stored(outputs); }
    }
  }

  lemma OutputsFresh(levels: seq<seq<File>>, next: nat, l: nat, outputs: seq<File>)
    requires |levels| == kNumLevels && Numbering(levels, next) && l + 1 < kNumLevels && Numbered(outputs, next)
    ensures FreshOutputs(levels[l + 1], outputs)
    ensures forall f :: f in outputs ==> next <= f.number < next + |outputs|
  {
  }

  // The store once the outputs of a compaction are installed.
  lemma CompactionSound(st: Store, h: seq<Op>, r: Running, j: Job, v: seq<seq<File>>, outputs: seq<File>)
    requires Sound(st, h) && r.StillFits(st.levels) && j.Valid() && j.Before() == st.All()
    requires j.levels == r.base && j.l == r.l && j.in0 == r.in0 && j.in1 == r.in1 && j.above == st.Above() + FlushedSince(r.base, st.levels)
    requires Installed(st.levels, v, j.l, j.in0, j.in1, outputs)
    requires ValidFiles(outputs) && SortedLevel(outputs) && AllMadeOf(outputs, j.in0, j.in1)
    requires Stored(outputs) == j.Survivors() && r.Clear(st.levels, outputs)
    ensures var st' := st.(levels := v); Sound(st', h) && st'.All() == j.After()
    ensures AllRecorded(h, j.After()) && StoredIn(v) <= StoredIn(st.levels)
  {
    hide Ordered, GoodInputs, Installed, Newer, Gapless, NoGap, SortedLevel, ValidFiles, AllMadeOf, Running.OldStays, Running.OthersAreNew, Running.Clear,
         StoredIn, Rest, Job.Survivors, Job.Inputs, Job.Before, FlushedSince;
    OrderedNow(st, h);
    FitsExactlyWhenClear(r, st.levels, v, outputs);
    FinishedEntries(r, st.levels, v, outputs, j);
    InstalledAscending(st.levels, v, j.l, j.in0, j.in1, outputs);
    SurvivorsAreInputs(j);
    RestAndInputs(j);
    OldStored(r, st.levels);
    FlushedWithin(r.base, st.levels);
    SoundWithLevels(st, h, v);
  }

  lemma OrderedNow(st: Store, h: seq<Op>)
    requires Sound(st, h)
    ensures Ordered(st.levels) && |st.levels| == kNumLevels
  {
  }

  lemma FlushedWithin(base: seq<seq<File>>, now: seq<seq<File>>)
    ensures FlushedSince(base, now) <= StoredIn(now)
  {
  }

  // What the levels hold then: what was flushed meanwhile, what was left, and the outputs.
  lemma FinishedEntries(r: Running, now: seq<seq<File>>, v: seq<seq<File>>, outputs: seq<File>, j: Job)
    requires r.StillFits(now) && j.Placed() && j.levels == r.base && j.l == r.l && j.in0 == r.in0 && j.in1 == r.in1
    requires Installed(now, v, r.l, r.in0, r.in1, outputs)
    ensures StoredIn(v) == FlushedSince(r.base, now) + Rest(j.levels, j.l, j.in0, j.in1) + Stored(outputs)
  {
    BaseLevels(r);
    InputsStay(r, now);
    WhereFrom(r, now, v, outputs);
    var all := FlushedSince(r.base, now) + Rest(j.levels, j.l, j.in0, j.in1) + Stored(outputs);
    hide Ordered, GoodInputs, Gapless, NoGap, Running.OthersAreNew, Rest, FlushedSince;
    assert |v| == kNumLevels;
    hide Installed;
    forall e | e in StoredIn(v) ensures e in all {
      var m :| 0 <= m < |v| && e in Stored(v[m]);
      var f :| f in v[m] && e in f.entries;
      if !Output(r, outputs, m, f) { LeftIsKept(r, now, m, f, e); }
    }
    forall e | e in all ensures e in StoredIn(v) {
      var m, f := WhereItLies(r, now, outputs, e);
      assert e in Stored(v[m]);
    }
  }

  lemma LeftIsKept(r: Running, now: seq<seq<File>>, m: nat, f: File, e: Entry)
    requires r.StillFits(now) && m < kNumLevels && Left(r, now, m, f) && e in f.entries
    ensures e in FlushedSince(r.base, now) || e in Rest(r.base, r.l, r.in0, r.in1)
  {
    FlushedIsNew(r, now, m, f, e);
    BaseLevels(r);
    hide Ordered, GoodInputs, Gapless, NoGap, Running.OldStays, Running.OthersAreNew, FlushedSince;
    if f in r.base[m] { FileStays(r, m, f, e); }
  }

  lemma FileStays(r: Running, m: nat, f: File, e: Entry)
    requires r.Placed() && m < kNumLevels && |r.base| == kNumLevels && f in r.base[m] && e in f.entries
    requires !(m == r.l && f in r.in0) && !(m == r.l + 1 && f in r.in1)
    ensures e in Rest(r.base, r.l, r.in0, r.in1)
  {
    hide Ordered, GoodInputs;
    OldFileInRest(r.base, r.l, r.in0, r.in1, m, f, e);
  }

  // Where each of them lies.
  lemma WhereItLies(r: Running, now: seq<seq<File>>, outputs: seq<File>, e: Entry) returns (m: nat, f: File)
    requires r.StillFits(now)
    requires e in FlushedSince(r.base, now) + Rest(r.base, r.l, r.in0, r.in1) + Stored(outputs)
    ensures m < kNumLevels && (Output(r, outputs, m, f) || Left(r, now, m, f)) && e in f.entries
  {
    BaseLevels(r);
    InputsStay(r, now);
    hide Ordered, GoodInputs, Gapless, NoGap, Running.OthersAreNew, Rest;
    if e in Stored(outputs) {
      m := r.l + 1;
      f :| f in outputs && e in f.entries;
    } else if e in Rest(r.base, r.l, r.in0, r.in1) {
      m, f := Located(r.base, r.l, r.in0, r.in1, e);
    } else {
      m, f := FlushedFile(r, now, e);
    }
  }

  lemma FlushedFile(r: Running, now: seq<seq<File>>, e: Entry) returns (m: nat, f: File)
    requires |now| == |r.base| == kNumLevels && e in FlushedSince(r.base, now)
    ensures m < kNumLevels && f in now[m] && f !in r.base[m] && e in f.entries
  {
    m :| 0 <= m < |now| && e in Stored(now[m]);
    f :| f in now[m] && e in f.entries;
    StoredInFile(r.base, e);
  }

  lemma StoredInFile(levels: seq<seq<File>>, e: Entry)
    ensures forall m, f :: 0 <= m < |levels| && f in levels[m] && e in f.entries ==> e in StoredIn(levels)
  {
    forall m, f | 0 <= m < |levels| && f in levels[m] && e in f.entries ensures e in StoredIn(levels) {
      assert e in Stored(levels[m]);
    }
  }
}
