/** The writer queue of DBImpl::Write (db/db_impl.cc): writers line up, the one at the front commits a
    group for all, and everyone is told.

    A method of WriteQueue is what one thread does between taking the mutex and letting go of it, so a
    run is any sequence of calls. */
module GroupCommit {
  import opened Keys
  import opened Coding
  import opened WriteBatches

  datatype Outcome = Ok | Failed(code: nat)

  // A null batch asks only for the memtable to be switched.
  datatype Writer = Writer(id: nat, batch: Option<Bytes>, sync: bool)

  // The group being written while the mutex is free.
  datatype Group = Group(size: nat, rep: Bytes, shared: bool)

  // What became of a group: its number range starts at `first`, its log record is number `record`.
  datatype Commit = Commit(members: seq<Writer>, status: Outcome, first: Option<nat>, record: Option<nat>)

  function UpdatesOf(ws: seq<Writer>): seq<Update> {
    if ws == [] then []
    else UpdatesOf(ws[..|ws| - 1]) + OwnUpdates(ws[|ws| - 1])
  }

  function OwnUpdates(w: Writer): seq<Update> {
    match w.batch
    case None => []
    case Some(rep) => Iterated(rep).updates
  }

  function ByteSize(ws: seq<Writer>): nat {
    if ws == [] then 0
    else ByteSize(ws[..|ws| - 1]) + if ws[|ws| - 1].batch.Some? then |ws[|ws| - 1].batch.value| else 0
  }

  function MaxSize(first: nat): nat {
    if first <= 0x2_0000 then first + 0x2_0000 else 0x10_0000
  }

  ghost predicate AllWellFormed(ws: seq<Writer>) {
    forall i :: 0 <= i < |ws| && ws[i].batch.Some? ==> WellFormed(ws[i].batch.value)
  }

  // Writer i may not follow in the group of the writers before it.
  ghost predicate Barred(ws: seq<Writer>, i: nat)
    requires 0 < i < |ws| && ws[0].batch.Some?
  {
    || (ws[i].sync && !ws[0].sync)
    || (ws[i].batch.Some? && ByteSize(ws[..i + 1]) > MaxSize(|ws[0].batch.value|))
  }

  ghost predicate Admitted(ws: seq<Writer>, k: nat)
    requires 0 < k <= |ws| && ws[0].batch.Some?
  {
    forall i :: 0 < i < k ==> !Barred(ws, i)
  }

  lemma Last(ws: seq<Writer>, k: nat)
    requires k < |ws|
    ensures ws[..k + 1][..k] == ws[..k] && ws[..k + 1][k] == ws[k]
  {
  }

  // ----- size of a group -----

  lemma {:induction false} RecordsShort(s: Bytes)
    ensures |Records(s).updates| <= |s|
    decreases |s|
  {
    if s != [] {
      RecordsStep(s);
      hide Records, Parse;
      if Parse(s).Good? { RecordsShort(Parse(s).rest); }
    }
  }

  lemma {:induction false} FewUpdates(ws: seq<Writer>)
    requires AllWellFormed(ws)
    ensures |UpdatesOf(ws)| <= ByteSize(ws)
  {
    if ws != [] {
      var w := ws[|ws| - 1];
      FewUpdates(ws[..|ws| - 1]);
      if w.batch.Some? { RecordsShort(w.batch.value[kHeader..]); }
    }
  }

  // ----- what the log and the memtable hold -----

  function Given(c: Commit): seq<Added> {
    if c.first.Some? then Numbered(UpdatesOf(c.members), c.first.value) else []
  }

  // Everyone served, in the order they were.
  function Served(cs: seq<Commit>): seq<Writer> {
    if cs == [] then [] else Served(cs[..|cs| - 1]) + cs[|cs| - 1].members
  }

  function LastAfter(base: nat, cs: seq<Commit>): nat {
    if cs == [] then base else LastAfter(base, cs[..|cs| - 1]) + |Given(cs[|cs| - 1])|
  }

  function Inserted(cs: seq<Commit>): seq<Added> {
    if cs == [] then []
    else Inserted(cs[..|cs| - 1]) + if cs[|cs| - 1].status.Ok? then Given(cs[|cs| - 1]) else []
  }

  ghost predicate RecordHolds(log: seq<Bytes>, c: Commit)
    requires c.record.Some?
  {
    && c.record.value < |log| && c.first.Some? && WellFormed(log[c.record.value])
    && Iterated(log[c.record.value]).updates == UpdatesOf(c.members) && SequenceOf(log[c.record.value]) == c.first.value
  }

  // One group: numbered next, written before it is acknowledged, synced if any member asked for it.
  ghost predicate Proper(base: nat, log: seq<Bytes>, synced: nat, before: seq<Commit>, c: Commit) {
    && c.members != []
    && (c.first.Some? ==> c.first.value == LastAfter(base, before) + 1)
    && (c.first.Some? && c.status.Ok? ==> c.record.Some?)
    && (c.record.Some? ==> RecordHolds(log, c))
    && (c.record.Some? && c.status.Ok? ==> forall w :: w in c.members && w.sync ==> c.record.value < synced)
    && (c.first.None? ==> |c.members| == 1 && (c.members[0].batch.None? || c.status.Failed?))
    && (c.first.Some? ==> c.members[0].batch.Some?)
  }

  ghost predicate AllProper(base: nat, log: seq<Bytes>, synced: nat, cs: seq<Commit>) {
    forall i :: 0 <= i < |cs| ==> Proper(base, log, synced, cs[..i], cs[i])
  }

  // The groups' records, in order, are the log.
  function RecordCount(cs: seq<Commit>): nat {
    if cs == [] then 0 else RecordCount(cs[..|cs| - 1]) + if cs[|cs| - 1].record.Some? then 1 else 0
  }

  ghost predicate RecordsInOrder(cs: seq<Commit>) {
    forall i :: 0 <= i < |cs| && cs[i].record.Some? ==> cs[i].record.value == RecordCount(cs[..i])
  }

  function Answered(results: map<nat, Outcome>, ws: seq<Writer>, status: Outcome): map<nat, Outcome> {
    if ws == [] then results
    else Answered(results, ws[..|ws| - 1], status)[ws[|ws| - 1].id := status]
  }

  function ResultsOf(cs: seq<Commit>): map<nat, Outcome> {
    if cs == [] then map[]
    else Answered(ResultsOf(cs[..|cs| - 1]), cs[|cs| - 1].members, cs[|cs| - 1].status)
  }

  ghost predicate DistinctIds(ws: seq<Writer>) {
    forall i, j :: 0 <= i < j < |ws| ==> ws[i].id != ws[j].id
  }

  // Only writers behind the front are asleep.
  ghost predicate FrontAwake(ws: seq<Writer>, asleep: set<nat>) {
    forall n :: n in asleep ==> exists i :: 0 < i < |ws| && ws[i].id == n
  }

  // Everyone who arrived has been answered once, or is still in line, in the order of arrival.
  ghost predicate Lined(arrived: seq<Writer>, cs: seq<Commit>, ws: seq<Writer>, results: map<nat, Outcome>, asleep: set<nat>) {
    && arrived == Served(cs) + ws && DistinctIds(arrived) && AllWellFormed(ws)
    && results == ResultsOf(cs) && FrontAwake(ws, asleep)
  }

  // The number given last, the log and the memtable are what the groups made them.
  ghost predicate WrittenDown(base: nat, cs: seq<Commit>, last: nat, log: seq<Bytes>, synced: nat, mem: seq<Added>) {
    && last == LastAfter(base, cs) && mem == Inserted(cs) && synced <= |log| == RecordCount(cs)
    && AllProper(base, log, synced, cs) && RecordsInOrder(cs)
  }

  ghost predicate Built(g: Group, ws: seq<Writer>, last: nat) {
    && 0 < g.size <= |ws| && ws[0].batch.Some? && Admitted(ws, g.size)
    && WellFormed(g.rep) && Iterated(g.rep).updates == UpdatesOf(ws[..g.size]) && SequenceOf(g.rep) == last + 1
  }

  // ----- the queue -----

  lemma ArriveLined(arrived: seq<Writer>, cs: seq<Commit>, ws: seq<Writer>, results: map<nat, Outcome>, asleep: set<nat>, w: Writer)
    requires Lined(arrived, cs, ws, results, asleep) && (forall i :: 0 <= i < |arrived| ==> arrived[i].id != w.id)
    requires w.batch.Some? ==> WellFormed(w.batch.value)
    ensures Lined(arrived + [w], cs, ws + [w], results, if ws != [] then asleep + {w.id} else asleep)
  {
    hide WellFormed, ResultsOf, Served;
    assert Served(cs) + (ws + [w]) == (Served(cs) + ws) + [w];
    var asleep' := if ws != [] then asleep + {w.id} else asleep;
    forall n | n in asleep' ensures exists i :: 0 < i < |ws + [w]| && (ws + [w])[i].id == n {
      if n in asleep {
        var i :| 0 < i < |ws| && ws[i].id == n;
        assert (ws + [w])[i].id == n;
      } else {
        assert (ws + [w])[|ws|].id == n;
      }
    }
  }

  lemma ServedGrows(cs: seq<Commit>, c: Commit)
    ensures Served(cs + [c]) == Served(cs) + c.members && ResultsOf(cs + [c]) == Answered(ResultsOf(cs), c.members, c.status)
  {
    assert (cs + [c])[..|cs|] == cs;
  }

  function IdsOf(ws: seq<Writer>): set<nat> {
    set i | 0 <= i < |ws| :: ws[i].id
  }

  function Woken(asleep: set<nat>, ws: seq<Writer>, size: nat): set<nat>
    requires size <= |ws|
  {
    asleep - IdsOf(ws[..size]) - if size < |ws| then {ws[size].id} else {}
  }

  lemma FinishLined(arrived: seq<Writer>, cs: seq<Commit>, ws: seq<Writer>, results: map<nat, Outcome>, asleep: set<nat>, size: nat, c: Commit)
    requires Lined(arrived, cs, ws, results, asleep) && 0 < size <= |ws| && c.members == ws[..size]
    ensures Lined(arrived, cs + [c], ws[size..], Answered(results, ws[..size], c.status), Woken(asleep, ws, size))
  {
    hide WellFormed, ResultsOf, Served, Answered;
    ServedGrows(cs, c);
    assert ws == ws[..size] + ws[size..];
    assert Served(cs) + ws == (Served(cs) + ws[..size]) + ws[size..];
    FinishWakes(ws, asleep, size);
  }

  lemma FinishWakes(ws: seq<Writer>, asleep: set<nat>, size: nat)
    requires FrontAwake(ws, asleep) && 0 < size <= |ws|
    ensures FrontAwake(ws[size..], Woken(asleep, ws, size))
  {
    assert forall i :: 0 <= i < size ==> ws[..size][i].id in IdsOf(ws[..size]);
    forall n | n in Woken(asleep, ws, size) ensures exists i :: 0 < i < |ws[size..]| && ws[size..][i].id == n {
      var i :| 0 < i < |ws| && ws[i].id == n;
      assert ws[size..][i - size].id == n;
    }
  }

  lemma FrontNotAsleep(arrived: seq<Writer>, cs: seq<Commit>, ws: seq<Writer>, results: map<nat, Outcome>, asleep: set<nat>)
    requires Lined(arrived, cs, ws, results, asleep) && ws != []
    ensures ws[0].id !in asleep && AllWellFormed(ws)
  {
    hide WellFormed, ResultsOf, Served;
    forall i | 0 < i < |ws| ensures ws[i].id != ws[0].id {
      assert arrived[|Served(cs)| + i] == ws[i] && arrived[|Served(cs)|] == ws[0];
    }
  }

  // ----- log, memtable and numbers -----

  lemma WrittenGrows(base: nat, cs: seq<Commit>, c: Commit, last: nat, log: seq<Bytes>, log': seq<Bytes>, synced: nat, synced': nat, mem: seq<Added>)
    requires WrittenDown(base, cs, last, log, synced, mem) && Proper(base, log', synced', cs, c)
    requires log <= log' && synced <= synced' <= |log'|
    requires if c.record.None? then log' == log else |log'| == |log| + 1 && c.record == Some(|log|)
    ensures WrittenDown(base, cs + [c], last + |Given(c)|, log', synced', if c.status.Ok? then mem + Given(c) else mem)
  {
    hide RecordHolds, Given;
    var all := cs + [c];
    assert all[..|cs|] == cs;
    forall i | 0 <= i < |all| ensures Proper(base, log', synced', all[..i], all[i]) {
      if i < |cs| {
        assert all[..i] == cs[..i];
        ProperStays(base, cs[..i], cs[i], log, log', synced, synced');
      }
    }
    forall i | 0 <= i < |all| && all[i].record.Some? ensures all[i].record.value == RecordCount(all[..i]) {
      if i < |cs| { assert all[..i] == cs[..i]; }
    }
  }

  lemma ProperStays(base: nat, before: seq<Commit>, c: Commit, log: seq<Bytes>, log': seq<Bytes>, synced: nat, synced': nat)
    requires Proper(base, log, synced, before, c) && log <= log' && synced <= synced'
    ensures Proper(base, log', synced', before, c)
  {
    hide LastAfter, UpdatesOf, WellFormed, Iterated;
  }

  // ----- building a group -----

  lemma FirstAlone(ws: seq<Writer>)
    requires ws != [] && ws[0].batch.Some? && AllWellFormed(ws)
    ensures Gathered(ws, 1, |ws[0].batch.value|, false, [])
  {
    assert ws[..1][..0] == [];
    assert UpdatesOf([]) == [];
  }

  lemma Joins(ws: seq<Writer>, k: nat)
    requires 0 < k < |ws| && ws[0].batch.Some? && AllWellFormed(ws)
    ensures ByteSize(ws[..k + 1]) == ByteSize(ws[..k]) + (if ws[k].batch.Some? then |ws[k].batch.value| else 0)
    ensures UpdatesOf(ws[..k + 1]) == UpdatesOf(ws[..k]) + OwnUpdates(ws[k])
    ensures |UpdatesOf(ws[..k + 1])| <= ByteSize(ws[..k + 1])
    ensures Admitted(ws, k) && !Barred(ws, k) ==> Admitted(ws, k + 1)
  {
    Last(ws, k);
    FewUpdates(ws[..k + 1]);
  }

  // The first k writers are in the group; `tmp` is what the temporary batch holds.
  ghost predicate Gathered(ws: seq<Writer>, k: nat, size: nat, shared: bool, tmp: seq<Update>) {
    && 0 < k <= |ws| && ws[0].batch.Some? && AllWellFormed(ws) && Admitted(ws, k) && size == ByteSize(ws[..k])
    && if shared then tmp == UpdatesOf(ws[..k]) else tmp == [] && Iterated(ws[0].batch.value).updates == UpdatesOf(ws[..k])
  }

  // Taking in one more writer.
  lemma Gather(ws: seq<Writer>, k: nat, size: nat, shared: bool, tmp: seq<Update>)
    requires Gathered(ws, k, size, shared, tmp) && k < |ws|
    ensures WellFormed(ws[0].batch.value) && (ws[k].batch.Some? ==> WellFormed(ws[k].batch.value))
    ensures Barred(ws, k) <==> (ws[k].sync && !ws[0].sync) || (ws[k].batch.Some? && size + |ws[k].batch.value| > MaxSize(|ws[0].batch.value|))
    ensures !Barred(ws, k) && ws[k].batch.None? ==> Gathered(ws, k + 1, size, shared, tmp)
    ensures !Barred(ws, k) && ws[k].batch.Some? ==>
      var more := Iterated(ws[k].batch.value).updates;
      && |UpdatesOf(ws[..k])| + |more| < MAX_COUNT
      && Gathered(ws, k + 1, size + |ws[k].batch.value|, true, UpdatesOf(ws[..k]) + more)
  {
    Joins(ws, k);
    hide WellFormed, Iterated, UpdatesOf, ByteSize, Admitted;
  }

  lemma GatheredParts(ws: seq<Writer>, k: nat, size: nat, shared: bool, tmp: seq<Update>)
    requires Gathered(ws, k, size, shared, tmp)
    ensures Admitted(ws, k) && WellFormed(ws[0].batch.value)
    ensures if shared then tmp == UpdatesOf(ws[..k]) else tmp == [] && Iterated(ws[0].batch.value).updates == UpdatesOf(ws[..k])
  {
  }

  lemma NumberedGroup(rep: Bytes, n: nat)
    requires WellFormed(rep) && n < TWO_TO_64
    ensures |rep| >= kHeader && WellFormed(PutSequence(rep, n))
    ensures Iterated(PutSequence(rep, n)).updates == Iterated(rep).updates && SequenceOf(PutSequence(rep, n)) == n
  {
    hide Records, PutSequence, EncodeFixed, DecodeFixed;
    PutSequenceParts(rep, n);
  }

  lemma StillBuilt(g: Group, ws: seq<Writer>, w: Writer, last: nat)
    requires Built(g, ws, last)
    ensures Built(g, ws + [w], last)
  {
    hide WellFormed, Iterated, UpdatesOf, ByteSize;
    assert (ws + [w])[..g.size] == ws[..g.size];
    forall i | 0 < i < g.size ensures !Barred(ws + [w], i) {
      assert !Barred(ws, i);
      assert (ws + [w])[..i + 1] == ws[..i + 1];
    }
  }

  // What the leader has done is proper, whichever of its calls failed.
  lemma GroupProper(base: nat, cs: seq<Commit>, g: Group, ws: seq<Writer>, last: nat, log: seq<Bytes>, log': seq<Bytes>, synced': nat, c: Commit)
    requires Built(g, ws, last) && last == LastAfter(base, cs)
    requires c.members == ws[..g.size] && c.first == Some(last + 1)
    requires if c.record.None? then log' == log && c.status.Failed? else log' == log + [g.rep] && c.record == Some(|log|)
    requires c.record.Some? && c.status.Ok? && ws[0].sync ==> synced' == |log'|
    ensures Proper(base, log', synced', cs, c)
  {
    hide WellFormed, Iterated, UpdatesOf, ByteSize, LastAfter, SequenceOf;
    if c.record.Some? && c.status.Ok? { SyncersFollowSyncers(ws, g.size, c.record.value, synced'); }
  }

  lemma SyncersFollowSyncers(ws: seq<Writer>, k: nat, record: nat, synced: nat)
    requires 0 < k <= |ws| && ws[0].batch.Some? && Admitted(ws, k) && (ws[0].sync ==> record < synced)
    ensures forall w :: w in ws[..k] && w.sync ==> record < synced
  {
    hide ByteSize;
    forall w | w in ws[..k] && w.sync ensures record < synced {
      var i :| 0 <= i < k && ws[i] == w;
      assert i > 0 ==> !Barred(ws, i);
    }
  }

  lemma GroupGives(g: Group, ws: seq<Writer>, last: nat, c: Commit)
    requires Built(g, ws, last) && c.members == ws[..g.size] && c.first == Some(last + 1)
    ensures CountOf(g.rep) == |Given(c)| == |UpdatesOf(c.members)|
    ensures Given(c) == Numbered(UpdatesOf(c.members), last + 1) == Numbered(Iterated(g.rep).updates, SequenceOf(g.rep))
  {
    CountBound(g.rep);
    hide WellFormed, Iterated, UpdatesOf, CountOf, SequenceOf;
  }

  lemma IsBuilt(g: Group, ws: seq<Writer>, last: nat)
    requires 0 < g.size <= |ws| && ws[0].batch.Some? && Admitted(ws, g.size)
    requires WellFormed(g.rep) && Iterated(g.rep).updates == UpdatesOf(ws[..g.size]) && SequenceOf(g.rep) == last + 1
    ensures Built(g, ws, last)
  {
  }

  lemma BuiltParts(g: Group, ws: seq<Writer>, last: nat)
    requires Built(g, ws, last)
    ensures 0 < g.size <= |ws| && ws[0].batch.Some? && |g.rep| >= kHeader
  {
  }

  // A group that never was: its one member asked only for room, or there was none to be had.
  lemma AloneWritten(base: nat, cs: seq<Commit>, c: Commit, last: nat, log: seq<Bytes>, synced: nat, mem: seq<Added>)
    requires c.first.None? && c.record.None? && |c.members| == 1 && (c.members[0].batch.None? || c.status.Failed?)
    requires WrittenDown(base, cs, last, log, synced, mem)
    ensures WrittenDown(base, cs + [c], last, log, synced, mem)
  {
    hide Proper, Given, WrittenDown;
    AloneProper(base, log, synced, cs, c);
    SyncedFits(base, cs, last, log, synced, mem);
    WrittenGrows(base, cs, c, last, log, log, synced, synced, mem);
    assert mem + [] == mem;
  }

  lemma SyncedFits(base: nat, cs: seq<Commit>, last: nat, log: seq<Bytes>, synced: nat, mem: seq<Added>)
    requires WrittenDown(base, cs, last, log, synced, mem)
    ensures synced <= |log|
  {
  }

  lemma AloneProper(base: nat, log: seq<Bytes>, synced: nat, cs: seq<Commit>, c: Commit)
    requires c.first.None? && c.record.None? && |c.members| == 1 && (c.members[0].batch.None? || c.status.Failed?)
    ensures Proper(base, log, synced, cs, c) && Given(c) == []
  {
    hide LastAfter, RecordHolds, UpdatesOf;
  }

  class WriteQueue {
    var writers: seq<Writer>                  // writers_
    var asleep: set<nat>                      // writers waiting on their condition variable
    var leading: Option<Group>
    var results: map<nat, Outcome>            // status of the writers marked done
    var lastSequence: nat
    var log: seq<Bytes>
    var synced: nat                           // records known to be on stable storage
    var mem: seq<Added>
    var bgError: Outcome
    const tmpBatch: WriteBatch
    ghost const base: nat
    ghost var arrived: seq<Writer>
    ghost var commits: seq<Commit>

    ghost predicate Valid()
      reads this, tmpBatch
    {
      && Lined(arrived, commits, writers, results, asleep)
      && WrittenDown(base, commits, lastSequence, log, synced, mem)
      && (leading.Some? ==> Built(leading.value, writers, lastSequence))
      && tmpBatch.Valid() && (leading.None? || !leading.value.shared ==> tmpBatch.Updates() == [])
    }

    constructor (base: nat)
      ensures Valid() && lastSequence == base && arrived == [] && fresh(tmpBatch)
    {
      writers, asleep, leading, results := [], {}, None, map[];
      lastSequence, log, synced, mem, bgError := base, [], 0, [], Ok;
      tmpBatch := new WriteBatch();
      this.base, arrived, commits := base, [], [];
    }

    // Write's first half: line up, and wait unless at the front.
    method Arrive(w: Writer)
      requires Valid() && (forall i :: 0 <= i < |arrived| ==> arrived[i].id != w.id)
      requires w.batch.Some? ==> WellFormed(w.batch.value)
      modifies this`writers, this`asleep, this`arrived
      ensures Valid() && arrived == old(arrived) + [w] && writers == old(writers) + [w]
      ensures asleep == if old(writers) == [] then old(asleep) else old(asleep) + {w.id}
    {
      hide Lined, WrittenDown, Built;
      ArriveLined(arrived, commits, writers, results, asleep, w);
      if leading.Some? { StillBuilt(leading.value, writers, w, lastSequence); }
      arrived := arrived + [w];
      if writers != [] { asleep := asleep + {w.id}; }
      writers := writers + [w];
    }

    // BuildBatchGroup: as many of those waiting as may join, and one batch of all their updates.
    method BuildBatchGroup() returns (g: Group)
      requires AllWellFormed(writers) && writers != [] && writers[0].batch.Some? && tmpBatch.Valid() && tmpBatch.Updates() == []
      modifies tmpBatch
      ensures 0 < g.size <= |writers| && Admitted(writers, g.size) && (g.size < |writers| ==> Barred(writers, g.size))
      ensures WellFormed(g.rep) && Iterated(g.rep).updates == UpdatesOf(writers[..g.size])
      ensures tmpBatch.Valid() && (!g.shared ==> tmpBatch.Updates() == [])
    {
      hide WellFormed, Iterated, UpdatesOf, ByteSize, Barred, Gathered, AllWellFormed, Admitted;
      var first := writers[0].batch.value;
      var size: nat, shared, k: nat, joins := |first|, false, 1, true;
      FirstAlone(writers);
      while k < |writers| && joins
        invariant 0 < k <= |writers| && tmpBatch.Valid() && Gathered(writers, k, size, shared, tmpBatch.Updates())
        invariant !joins ==> k < |writers| && Barred(writers, k)
        decreases |writers| - k, joins
      {
        joins, size, shared := TryToJoin(k, size, shared);
        if joins { k := k + 1; }
      }
      GatheredParts(writers, k, size, shared, tmpBatch.Updates());
      g := Group(k, if shared then tmpBatch.rep else first, shared);
    }

    // One turn of its loop.
    method TryToJoin(k: nat, size: nat, shared: bool) returns (joins: bool, size': nat, shared': bool)
      requires Gathered(writers, k, size, shared, tmpBatch.Updates()) && tmpBatch.Valid() && k < |writers|
      modifies tmpBatch
      ensures tmpBatch.Valid()
      ensures joins ==> Gathered(writers, k + 1, size', shared', tmpBatch.Updates())
      ensures !joins ==> Barred(writers, k) && Gathered(writers, k, size', shared', tmpBatch.Updates())
    {
      Gather(writers, k, size, shared, tmpBatch.Updates());
      GatheredParts(writers, k, size, shared, tmpBatch.Updates());
      hide WellFormed, Iterated, UpdatesOf, ByteSize, Barred, Gathered, AllWellFormed, Admitted;
      var w, first := writers[k], writers[0].batch.value;
      joins, size', shared' := true, size, shared;
      if w.sync && !writers[0].sync {
        joins := false;                // not into a batch handled by a non-sync write
      } else if w.batch.Some? {
        if size + |w.batch.value| > MaxSize(|first|) {
          joins := false;              // do not make the batch too big
        } else {
          AddToGroup(first, w.batch.value, shared, UpdatesOf(writers[..k]));
          size', shared' := size + |w.batch.value|, true;
        }
      }
    }

    // A second batch moves the group to the temporary batch, so that the caller's own stays as it is.
    method AddToGroup(first: Bytes, next: Bytes, shared: bool, ghost before: seq<Update>)
      requires tmpBatch.Valid() && WellFormed(first) && WellFormed(next) && |before| + |Iterated(next).updates| < MAX_COUNT
      requires if shared then tmpBatch.Updates() == before else tmpBatch.Updates() == [] && Iterated(first).updates == before
      modifies tmpBatch
      ensures tmpBatch.Valid() && tmpBatch.Updates() == before + Iterated(next).updates
    {
      hide WellFormed, Iterated;
      if !shared { tmpBatch.Append(first); }
      tmpBatch.Append(next);
    }

    // Write, once at the front: MakeRoomForWrite ends with `room`; then a group is built, or the writer
    // is answered at once.
    method Lead(room: Outcome)
      requires Valid() && writers != [] && leading.None? && lastSequence + MAX_COUNT < TWO_TO_64
      modifies this, tmpBatch
      ensures Valid() && arrived == old(arrived) && log == old(log) && mem == old(mem) && bgError == old(bgError)
      ensures lastSequence == old(lastSequence) && synced == old(synced)
      // a group is led if and only if nothing failed and there is a batch; it is the longest one allowed
      ensures leading.Some? <==> old(bgError).Ok? && room.Ok? && old(writers)[0].batch.Some?
      ensures leading.Some? ==>
                && writers == old(writers) && results == old(results) && asleep == old(asleep) && commits == old(commits)
                && Built(leading.value, writers, lastSequence) && (leading.value.size < |writers| ==> Barred(writers, leading.value.size))
      // otherwise the front writer alone is answered, with the error if there is one
      ensures leading.None? ==>
                var status := if old(bgError).Failed? then old(bgError) else room;
                && Answers(old(results), results, old(writers)[..1], status) && writers == old(writers)[1..]
                && asleep == Woken(old(asleep), old(writers), 1) && commits == old(commits) + [Commit(old(writers)[..1], status, None, None)]
    {
      hide Lined, WrittenDown, Built, Proper, WellFormed, Iterated, UpdatesOf, ByteSize, Barred, Answers, Woken, Answered;
      FrontNotAsleep(arrived, commits, writers, results, asleep);
      var status := if bgError.Failed? then bgError else room;
      if status.Ok? && writers[0].batch.Some? {
        var g := BuildBatchGroup();
        NumberedGroup(g.rep, lastSequence + 1);
        leading := Some(g.(rep := PutSequence(g.rep, lastSequence + 1)));
        IsBuilt(leading.value, writers, lastSequence);
      } else {
        ghost var c := Commit(writers[..1], status, None, None);
        AloneWritten(base, commits, c, lastSequence, log, synced, mem);
        FinishLined(arrived, commits, writers, results, asleep, 1, c);
        AnswersAll(results, writers[..1], status);
        Finish(1, status);
        commits := commits + [c];
      }
    }

    // Write, after the log and memtable work done without the mutex.
    method Conclude(logged: Outcome, sync: Outcome)
      requires Valid() && leading.Some?
      modifies this, tmpBatch
      ensures Valid() && arrived == old(arrived) && leading.None?
      ensures var g, ws := old(leading).value, old(writers)[..old(leading).value.size];
              var status := GroupStatus(logged, old(writers)[0].sync, sync);
              // everyone in the group hears how it went
              && writers == old(writers)[g.size..] && Answers(old(results), results, ws, status) && asleep == Woken(old(asleep), old(writers), g.size)
              // the group is one log record if the append went well, and in the memtable if everything did
              && log == (if logged.Ok? then old(log) + [g.rep] else old(log))
              && mem == (if status.Ok? then old(mem) + Numbered(UpdatesOf(ws), old(lastSequence) + 1) else old(mem))
              && synced == (if status.Ok? && old(writers)[0].sync then |log| else old(synced))
              // its numbers are spent in either case, and a failed sync fails all writes to come
              && lastSequence == old(lastSequence) + |UpdatesOf(ws)|
              && bgError == (if old(bgError).Ok? && logged.Ok? && status.Failed? then status else old(bgError))
              && commits == old(commits) + [Commit(ws, status, Some(old(lastSequence) + 1), if logged.Ok? then Some(|old(log)|) else None)]
    {
      hide Lined, WrittenDown, Built, Proper, WellFormed, Iterated, UpdatesOf, ByteSize, Barred, RecordHolds, WriteBatch.Valid, WriteBatch.Updates, CountOf, Woken, Answered, Answers;
      var g := leading.value;
      BuiltParts(g, writers, lastSequence);
      FrontNotAsleep(arrived, commits, writers, results, asleep);
      var status, record := LogAndInsert(g.rep, writers[0].sync, logged, sync);
      if g.shared { tmpBatch.Clear(); }
      ghost var c := Commit(writers[..g.size], status, Some(lastSequence + 1), record);
      Concluded(old(log), old(synced), old(mem), g, c);
      AnswersAll(results, writers[..g.size], status);
      lastSequence := lastSequence + CountOf(g.rep);
      leading := None;
      Finish(g.size, status);
      commits := commits + [c];
    }

    // The part of Write outside the mutex.
    method LogAndInsert(rep: Bytes, syncing: bool, logged: Outcome, sync: Outcome) returns (status: Outcome, record: Option<nat>)
      requires |rep| >= kHeader
      modifies this`log, this`synced, this`mem, this`bgError
      ensures if logged.Ok? then record == Some(|old(log)|) && log == old(log) + [rep] else record == None && log == old(log) && status.Failed?
      ensures status == GroupStatus(logged, syncing, sync)
      ensures synced == if logged.Ok? && status.Ok? && syncing then |log| else old(synced)
      ensures mem == if status.Ok? then old(mem) + Numbered(Iterated(rep).updates, SequenceOf(rep)) else old(mem)
      ensures bgError == if old(bgError).Ok? && logged.Ok? && status.Failed? then status else old(bgError)
    {
      hide Iterated, SequenceOf;
      status, record := logged, None;
      if status.Ok? {
        record := Some(|log|);
        log := log + [rep];
        if syncing {
          status := sync;
          if status.Ok? {
            synced := |log|;
          } else if bgError.Ok? {                // RecordBackgroundError
            bgError := status;
          }
        }
      }
      if status.Ok? {
        var inserted;
        mem, inserted := InsertInto(rep, mem);
      }
    }

    lemma Concluded(log0: seq<Bytes>, synced0: nat, mem0: seq<Added>, g: Group, c: Commit)
      requires Lined(arrived, commits, writers, results, asleep) && Built(g, writers, lastSequence)
      requires WrittenDown(base, commits, lastSequence, log0, synced0, mem0)
      requires c.members == writers[..g.size] && c.first == Some(lastSequence + 1)
      requires if c.record.None? then log == log0 && c.status.Failed? else log == log0 + [g.rep] && c.record == Some(|log0|)
      requires synced == if c.record.Some? && c.status.Ok? && writers[0].sync then |log| else synced0
      requires mem == if c.status.Ok? then mem0 + Numbered(Iterated(g.rep).updates, SequenceOf(g.rep)) else mem0
      ensures Lined(arrived, commits + [c], writers[g.size..], Answered(results, writers[..g.size], c.status), Woken(asleep, writers, g.size))
      ensures CountOf(g.rep) == |UpdatesOf(c.members)| && Numbered(Iterated(g.rep).updates, SequenceOf(g.rep)) == Numbered(UpdatesOf(c.members), lastSequence + 1)
      ensures WrittenDown(base, commits + [c], lastSequence + CountOf(g.rep), log, synced, mem)
    {
      hide Lined, Proper, WellFormed, Iterated, UpdatesOf, ByteSize, Barred, RecordHolds, AllProper, RecordsInOrder;
      FinishLined(arrived, commits, writers, results, asleep, g.size, c);
      GroupProper(base, commits, g, writers, lastSequence, log0, log, synced, c);
      GroupGives(g, writers, lastSequence, c);
      WrittenGrows(base, commits, c, lastSequence, log0, log, synced0, synced, mem0);
    }

    // The loop that takes the group off the queue and wakes its members, then the new front.
    method Finish(size: nat, status: Outcome)
      requires 0 < size <= |writers| && writers[0].id !in asleep
      modifies this`writers, this`asleep, this`results
      ensures writers == old(writers)[size..] && asleep == Woken(old(asleep), old(writers), size)
      ensures results == Answered(old(results), old(writers)[..size], status)
    {
      ghost var ws := writers;
      hide IdsOf, Answered;
      NobodyYet(results, asleep, ws, status);
      var leader, k := writers[0].id, 0;
      while k < size
        invariant k <= size && writers == ws[k..] && results == Answered(old(results), ws[..k], status)
        invariant asleep == old(asleep) - IdsOf(ws[..k])
      {
        var ready := writers[0];
        OneMore(old(results), ws, k, status);
        writers := writers[1..];
        results := results[ready.id := status];
        if ready.id != leader { asleep := asleep - {ready.id}; }
        k := k + 1;
      }
      if writers != [] { asleep := asleep - {writers[0].id}; }
    }
  }

  // How a group of writers fares: not at all if it could not be logged; else as the sync, if its leader asked for one.
  function GroupStatus(logged: Outcome, syncing: bool, sync: Outcome): Outcome {
    if logged.Failed? then logged else if syncing then sync else Ok
  }

  // These writers now have this answer, and everyone else the one they had.
  ghost predicate Answers(before: map<nat, Outcome>, after: map<nat, Outcome>, ws: seq<Writer>, status: Outcome) {
    && after.Keys == before.Keys + IdsOf(ws)
    && (forall i :: 0 <= i < |ws| ==> ws[i].id in after && after[ws[i].id] == status)
    && (forall n :: n in before && n !in IdsOf(ws) ==> n in after && after[n] == before[n])
  }

  lemma AnswersAll(results: map<nat, Outcome>, ws: seq<Writer>, status: Outcome)
    ensures Answers(results, Answered(results, ws, status), ws, status)
  {
    AnsweredAt(results, ws, status);
    hide Answered;
    assert forall i :: 0 <= i < |ws| ==> ws[i].id in IdsOf(ws);
  }

  lemma NobodyYet(results: map<nat, Outcome>, asleep: set<nat>, ws: seq<Writer>, status: Outcome)
    ensures Answered(results, ws[..0], status) == results && asleep - IdsOf(ws[..0]) == asleep
  {
  }

  lemma OneMore(results: map<nat, Outcome>, ws: seq<Writer>, k: nat, status: Outcome)
    requires k < |ws|
    ensures Answered(results, ws[..k + 1], status) == Answered(results, ws[..k], status)[ws[k].id := status]
    ensures IdsOf(ws[..k + 1]) == IdsOf(ws[..k]) + {ws[k].id}
  {
    Last(ws, k);
    IdsSplit(ws[..k], ws[k]);
    assert ws[..k] + [ws[k]] == ws[..k + 1];
  }

  // ----- what every run of the queue keeps -----

  lemma ServedUpTo(cs: seq<Commit>, i: nat)
    requires i < |cs|
    ensures Served(cs[..i + 1]) == Served(cs[..i]) + cs[i].members && Served(cs[..i + 1]) <= Served(cs)
  {
    assert cs[..i + 1][..i] == cs[..i];
    ServedPrefix(cs, i + 1);
  }

  lemma {:induction false} ServedPrefix(cs: seq<Commit>, k: nat)
    requires k <= |cs|
    ensures Served(cs[..k]) <= Served(cs)
  {
    if k < |cs| {
      assert cs[..|cs| - 1][..k] == cs[..k];
      ServedPrefix(cs[..|cs| - 1], k);
    } else {
      assert cs[..k] == cs;
    }
  }

  lemma {:induction false} AnsweredAt(results: map<nat, Outcome>, ws: seq<Writer>, status: Outcome)
    ensures Answered(results, ws, status).Keys == results.Keys + IdsOf(ws)
    ensures forall i :: 0 <= i < |ws| ==> Answered(results, ws, status)[ws[i].id] == status
    ensures forall n :: n in results && n !in IdsOf(ws) ==> Answered(results, ws, status)[n] == results[n]
  {
    if ws != [] {
      var rest, w := ws[..|ws| - 1], ws[|ws| - 1];
      AnsweredAt(results, rest, status);
      IdsSplit(rest, w);
      assert ws == rest + [w];
      assert forall i :: 0 <= i < |rest| ==> ws[i].id == rest[i].id && rest[i].id in IdsOf(rest);
    }
  }

  lemma IdsSplit(ws: seq<Writer>, w: Writer)
    ensures IdsOf(ws + [w]) == IdsOf(ws) + {w.id}
  {
    assert forall i :: 0 <= i < |ws| ==> (ws + [w])[i] == ws[i];
    assert (ws + [w])[|ws|].id in IdsOf(ws + [w]);
    forall n | n in IdsOf(ws) ensures n in IdsOf(ws + [w]) {
      var i :| 0 <= i < |ws| && ws[i].id == n;
      assert (ws + [w])[i].id == n;
    }
  }

  lemma IdsJoin(a: seq<Writer>, b: seq<Writer>)
    ensures IdsOf(a + b) == IdsOf(a) + IdsOf(b)
  {
    forall n | n in IdsOf(a) + IdsOf(b) ensures n in IdsOf(a + b) {
      if n in IdsOf(a) {
        var i :| 0 <= i < |a| && a[i].id == n;
        assert (a + b)[i].id == n;
      } else {
        var i :| 0 <= i < |b| && b[i].id == n;
        assert (a + b)[|a| + i].id == n;
      }
    }
  }

  lemma {:induction false} ResultsKeys(cs: seq<Commit>)
    ensures ResultsOf(cs).Keys == IdsOf(Served(cs))
  {
    if cs != [] {
      var rest, c := cs[..|cs| - 1], cs[|cs| - 1];
      ResultsKeys(rest);
      AnsweredAt(ResultsOf(rest), c.members, c.status);
      IdsJoin(Served(rest), c.members);
    }
  }

  lemma {:induction false} ResultAt(cs: seq<Commit>, i: nat, w: Writer)
    requires i < |cs| && w in cs[i].members && DistinctIds(Served(cs))
    ensures w.id in ResultsOf(cs) && ResultsOf(cs)[w.id] == cs[i].status
  {
    var rest, c := cs[..|cs| - 1], cs[|cs| - 1];
    AnsweredAt(ResultsOf(rest), c.members, c.status);
    if i < |rest| {
      DistinctParts(Served(rest), c.members);
      ServedUpTo(rest, i);
      assert w in Served(rest[..i]) + rest[i].members;
      assert w in Served(rest);
      ResultAt(rest, i, w);
    } else {
      var b :| 0 <= b < |c.members| && c.members[b] == w;
    }
  }

  lemma DistinctParts(a: seq<Writer>, b: seq<Writer>)
    requires DistinctIds(a + b)
    ensures DistinctIds(a) && forall w :: w in a ==> w.id !in IdsOf(b)
  {
    forall i, j | 0 <= i < j < |a| ensures a[i].id != a[j].id {
      assert (a + b)[i] == a[i] && (a + b)[j] == a[j];
    }
    forall w, j | w in a && 0 <= j < |b| ensures w.id != b[j].id {
      var i :| 0 <= i < |a| && a[i] == w;
      assert (a + b)[i] == w && (a + b)[|a| + j] == b[j];
    }
  }

  // Everyone who arrived stands in line or has been answered, never both; groups are cut from the line
  // in order, and each member has the outcome of its group.
  lemma AnsweredOnce(arrived: seq<Writer>, cs: seq<Commit>, ws: seq<Writer>, results: map<nat, Outcome>, asleep: set<nat>, j: nat)
    requires Lined(arrived, cs, ws, results, asleep) && j < |arrived|
    ensures if j < |Served(cs)| then arrived[j].id in results else arrived[j].id !in results && ws[j - |Served(cs)|] == arrived[j]
    ensures forall i, w :: 0 <= i < |cs| && w in cs[i].members ==> w.id in results && results[w.id] == cs[i].status
  {
    hide AllWellFormed, FrontAwake, ResultsOf;
    var served := Served(cs);
    ResultsKeys(cs);
    DistinctParts(served, ws);
    forall i, w | 0 <= i < |cs| && w in cs[i].members ensures w.id in results && results[w.id] == cs[i].status {
      ResultAt(cs, i, w);
    }
    if j < |served| {
      assert served[j].id in IdsOf(served);
    } else {
      assert ws[j - |served|].id in IdsOf(ws);
      assert forall w :: w in served ==> w.id != arrived[j].id;
    }
  }

  // No wake-up is lost: whoever may run, the writer at the front or one answered, is not asleep.
  lemma FrontRuns(arrived: seq<Writer>, cs: seq<Commit>, ws: seq<Writer>, results: map<nat, Outcome>, asleep: set<nat>, n: nat)
    requires Lined(arrived, cs, ws, results, asleep) && n in asleep
    ensures n !in results && ws != [] && ws[0].id != n
  {
    hide AllWellFormed, ResultsOf;
    var i :| 0 < i < |ws| && ws[i].id == n;
    FrontNotAsleep(arrived, cs, ws, results, asleep);
    assert arrived[|Served(cs)| + i] == ws[i];
    AnsweredOnce(arrived, cs, ws, results, asleep, |Served(cs)| + i);
  }

  lemma {:induction false} LastGrows(base: nat, cs: seq<Commit>, k: nat)
    requires k <= |cs|
    ensures LastAfter(base, cs[..k]) <= LastAfter(base, cs)
  {
    if k < |cs| {
      assert cs[..|cs| - 1][..k] == cs[..k];
      LastGrows(base, cs[..|cs| - 1], k);
    } else {
      assert cs[..k] == cs;
    }
  }

  // The groups' number ranges are disjoint and ascend in queue order, all within the last number given;
  // a failed group keeps its range, and the next one starts right after it.
  lemma RangesAscend(base: nat, cs: seq<Commit>, last: nat, log: seq<Bytes>, synced: nat, mem: seq<Added>, i: nat, j: nat)
    requires WrittenDown(base, cs, last, log, synced, mem) && i < j < |cs| && cs[i].first.Some? && cs[j].first.Some?
    ensures cs[i].first.value + |UpdatesOf(cs[i].members)| <= cs[j].first.value
    ensures j == i + 1 ==> cs[i].first.value + |UpdatesOf(cs[i].members)| == cs[j].first.value
    ensures cs[j].first.value + |UpdatesOf(cs[j].members)| <= last + 1
  {
    hide UpdatesOf, LastBy, WrittenDown;
    RangeOf(base, cs, last, log, synced, mem, i);
    RangeOf(base, cs, last, log, synced, mem, j);
    LastMonotone(base, cs, i + 1, j);
    LastMonotone(base, cs, j + 1, |cs|);
  }

  function LastBy(base: nat, cs: seq<Commit>, k: nat): nat
    requires k <= |cs|
  {
    LastAfter(base, cs[..k])
  }

  lemma LastMonotone(base: nat, cs: seq<Commit>, a: nat, b: nat)
    requires a <= b <= |cs|
    ensures LastBy(base, cs, a) <= LastBy(base, cs, b)
  {
    assert cs[..b][..a] == cs[..a];
    LastGrows(base, cs[..b], a);
  }

  lemma RangeOf(base: nat, cs: seq<Commit>, last: nat, log: seq<Bytes>, synced: nat, mem: seq<Added>, i: nat)
    requires WrittenDown(base, cs, last, log, synced, mem) && i < |cs| && cs[i].first.Some?
    ensures cs[i].first.value == LastBy(base, cs, i) + 1 && last == LastBy(base, cs, |cs|)
    ensures LastBy(base, cs, i + 1) == LastBy(base, cs, i) + |UpdatesOf(cs[i].members)|
  {
    hide UpdatesOf, RecordHolds;
    assert Proper(base, log, synced, cs[..i], cs[i]);
    assert cs[..i + 1][..i] == cs[..i] && cs[..|cs|] == cs;
  }

  lemma {:induction false} UpdatesPrefix(ws: seq<Writer>, k: nat)
    requires k <= |ws|
    ensures UpdatesOf(ws[..k]) <= UpdatesOf(ws)
  {
    if k < |ws| {
      assert ws[..|ws| - 1][..k] == ws[..k];
      UpdatesPrefix(ws[..|ws| - 1], k);
    } else {
      assert ws[..k] == ws;
    }
  }

  lemma UpdatesWithin(ws: seq<Writer>, k: nat)
    requires k < |ws|
    ensures |UpdatesOf(ws[..k])| + |OwnUpdates(ws[k])| <= |UpdatesOf(ws)|
    ensures UpdatesOf(ws)[|UpdatesOf(ws[..k])|..|UpdatesOf(ws[..k])| + |OwnUpdates(ws[k])|] == OwnUpdates(ws[k])
  {
    UpdatesPrefix(ws, k + 1);
    Last(ws, k);
    assert UpdatesOf(ws[..k + 1]) == UpdatesOf(ws[..k]) + OwnUpdates(ws[k]);
    hide UpdatesOf, OwnUpdates;
    PartOfPrefix(UpdatesOf(ws[..k]), OwnUpdates(ws[k]), UpdatesOf(ws));
  }

  lemma PartOfPrefix(a: seq<Update>, b: seq<Update>, all: seq<Update>)
    requires a + b <= all
    ensures all[|a|..|a| + |b|] == b
  {
    assert all[..|a + b|] == a + b;
  }

  lemma {:induction false} InsertedHas(cs: seq<Commit>, i: nat, a: Added)
    requires i < |cs| && cs[i].status.Ok? && a in Given(cs[i])
    ensures a in Inserted(cs)
  {
    if i < |cs| - 1 { InsertedHas(cs[..|cs| - 1], i, a); }
  }

  // A write answered with success is whole in one log record and, number by number, in the memtable;
  // if it asked for a sync, that record has reached stable storage.
  lemma AcknowledgedIsWritten(base: nat, cs: seq<Commit>, last: nat, log: seq<Bytes>, synced: nat, mem: seq<Added>, i: nat, k: nat) returns (r: nat, at: nat)
    requires WrittenDown(base, cs, last, log, synced, mem) && i < |cs| && k < |cs[i].members|
    requires cs[i].status.Ok? && cs[i].members[k].batch.Some?
    ensures r < |log| && (cs[i].members[k].sync ==> r < synced) && Carries(log[r], at, OwnUpdates(cs[i].members[k]), mem)
  {
    hide UpdatesOf, OwnUpdates, SequenceOf, Iterated, WrittenDown, RecordHolds, Given, Carries;
    var c, w := cs[i], cs[i].members[k];
    WrittenGroup(base, cs, last, log, synced, mem, i, w);
    RecordGives(log, c);
    UpdatesWithin(c.members, k);
    r, at := c.record.value, |UpdatesOf(c.members[..k])|;
    SliceGiven(c, log[r], at, OwnUpdates(w), mem);
  }

  // The record holds these updates from its at-th on, and the memtable has each under its number.
  ghost predicate Carries(record: Bytes, at: nat, own: seq<Update>, mem: seq<Added>) {
    var us := Iterated(record).updates;
    && |record| >= kHeader && at + |own| <= |us| && us[at..at + |own|] == own
    && forall x :: 0 <= x < |own| ==> Added(SequenceOf(record) + at + x, own[x]) in mem
  }

  lemma WrittenGroup(base: nat, cs: seq<Commit>, last: nat, log: seq<Bytes>, synced: nat, mem: seq<Added>, i: nat, w: Writer)
    requires WrittenDown(base, cs, last, log, synced, mem) && i < |cs| && w in cs[i].members
    requires cs[i].status.Ok? && w.batch.Some?
    ensures var c := cs[i]; c.record.Some? && RecordHolds(log, c) && (w.sync ==> c.record.value < synced)
    ensures forall a :: a in Given(cs[i]) ==> a in mem
  {
    hide RecordHolds, Given, LastAfter;
    assert Proper(base, log, synced, cs[..i], cs[i]);
    forall a | a in Given(cs[i]) ensures a in mem { InsertedHas(cs, i, a); }
  }

  lemma RecordGives(log: seq<Bytes>, c: Commit)
    requires c.record.Some? && RecordHolds(log, c)
    ensures c.record.value < |log| && |log[c.record.value]| >= kHeader && c.first == Some(SequenceOf(log[c.record.value]))
    ensures Iterated(log[c.record.value]).updates == UpdatesOf(c.members)
  {
    hide Iterated, UpdatesOf, SequenceOf;
  }

  lemma SliceGiven(c: Commit, record: Bytes, at: nat, own: seq<Update>, mem: seq<Added>)
    requires |record| >= kHeader && c.first == Some(SequenceOf(record)) && Iterated(record).updates == UpdatesOf(c.members)
    requires at + |own| <= |UpdatesOf(c.members)| && UpdatesOf(c.members)[at..at + |own|] == own
    requires forall a :: a in Given(c) ==> a in mem
    ensures Carries(record, at, own, mem)
  {
    hide UpdatesOf, SequenceOf, Iterated;
    var us := UpdatesOf(c.members);
    forall x | 0 <= x < |own| ensures Added(c.first.value + at + x, own[x]) in mem {
      assert us[at..at + |own|][x] == us[at + x];
      assert Given(c)[at + x] == Added(c.first.value + at + x, own[x]);
    }
  }

  // ----- the log against the memtable -----

  function Replayed(log: seq<Bytes>): seq<Added> {
    if log == [] then []
    else Replayed(log[..|log| - 1]) + FromRecord(log[|log| - 1])
  }

  function FromRecord(rep: Bytes): seq<Added> {
    if |rep| < kHeader then [] else Numbered(Iterated(rep).updates, SequenceOf(rep))
  }

  lemma ReplayOneMore(log: seq<Bytes>, r: nat)
    requires r < |log|
    ensures Replayed(log[..r + 1]) == Replayed(log[..r]) + FromRecord(log[r])
  {
    assert log[..r + 1][..r] == log[..r] && log[..r + 1][r] == log[r];
  }

  // What a group puts into the log, whatever becomes of it, and what into the memtable.
  function LoggedPart(c: Commit): seq<Added> { if c.record.Some? then Given(c) else [] }
  function InsertedPart(c: Commit): seq<Added> { if c.status.Ok? then Given(c) else [] }

  function Logged(cs: seq<Commit>): seq<Added> {
    if cs == [] then [] else Logged(cs[..|cs| - 1]) + LoggedPart(cs[|cs| - 1])
  }

  // A group whose updates are in the log and not in the memtable: the sync after the append failed.
  predicate OnlyInLog(c: Commit) { c.record.Some? && !c.status.Ok? && UpdatesOf(c.members) != [] }

  predicate NoneOnlyInLog(cs: seq<Commit>) { forall i :: 0 <= i < |cs| ==> !OnlyInLog(cs[i]) }

  // Replaying the log rebuilds the memtable if and only if no group with updates failed after its append.
  lemma LogRebuildsMemtable(base: nat, cs: seq<Commit>, last: nat, log: seq<Bytes>, synced: nat, mem: seq<Added>)
    requires WrittenDown(base, cs, last, log, synced, mem)
    ensures Replayed(log) == mem <==> NoneOnlyInLog(cs)
  {
    hide Proper, NoneOnlyInLog;
    ReplayPrefix(base, log, synced, cs);
    assert log[..|log|] == log;
    LoggedAgainstInserted(base, log, synced, cs);
  }

  lemma {:induction false} LoggedAgainstInserted(base: nat, log: seq<Bytes>, synced: nat, cs: seq<Commit>)
    requires AllProper(base, log, synced, cs) && RecordsInOrder(cs)
    ensures if NoneOnlyInLog(cs) then Logged(cs) == Inserted(cs) else |Inserted(cs)| < |Logged(cs)|
  {
    if cs != [] {
      var rest, c := cs[..|cs| - 1], cs[|cs| - 1];
      InitProper(base, log, synced, cs);
      NoneOnlyInInit(cs);
      hide AllProper, RecordsInOrder, OnlyInLog, NoneOnlyInLog, Proper, LoggedPart;
      LoggedAgainstInserted(base, log, synced, rest);
      OneLogged(base, log, synced, rest, c);
      assert Inserted(cs) == Inserted(rest) + InsertedPart(c);
    }
  }

  lemma NoneOnlyInInit(cs: seq<Commit>)
    requires cs != []
    ensures NoneOnlyInLog(cs) <==> NoneOnlyInLog(cs[..|cs| - 1]) && !OnlyInLog(cs[|cs| - 1])
  {
    hide OnlyInLog;
  }

  lemma OneLogged(base: nat, log: seq<Bytes>, synced: nat, rest: seq<Commit>, c: Commit)
    requires Proper(base, log, synced, rest, c)
    ensures if OnlyInLog(c) then |InsertedPart(c)| < |LoggedPart(c)| else InsertedPart(c) == LoggedPart(c)
  {
    hide UpdatesOf, LastAfter, Iterated, SequenceOf, WellFormed;
  }

  lemma {:induction false} ReplayPrefix(base: nat, log: seq<Bytes>, synced: nat, cs: seq<Commit>)
    requires AllProper(base, log, synced, cs) && RecordsInOrder(cs) && RecordCount(cs) <= |log|
    ensures Replayed(log[..RecordCount(cs)]) == Logged(cs)
  {
    if cs != [] {
      var n := |cs| - 1;
      var rest, c := cs[..n], cs[n];
      InitProper(base, log, synced, cs);
      CountSteps(cs);
      hide AllProper, RecordsInOrder, LastAfter, UpdatesOf, Iterated, SequenceOf, WellFormed, Proper;
      ReplayPrefix(base, log, synced, rest);
      StepReplays(base, log, synced, rest, c);
    }
  }

  lemma CountSteps(cs: seq<Commit>)
    requires cs != []
    ensures var rest, c := cs[..|cs| - 1], cs[|cs| - 1];
            RecordCount(cs) == RecordCount(rest) + if c.record.Some? then 1 else 0
  {
  }

  lemma StepReplays(base: nat, log: seq<Bytes>, synced: nat, rest: seq<Commit>, c: Commit)
    requires Proper(base, log, synced, rest, c) && (c.record.Some? ==> c.record.value == RecordCount(rest))
    requires RecordCount(rest) + (if c.record.Some? then 1 else 0) <= |log|
    ensures Replayed(log[..RecordCount(rest) + if c.record.Some? then 1 else 0])
         == Replayed(log[..RecordCount(rest)]) + LoggedPart(c)
  {
    hide RecordCount, LastAfter, RecordHolds, Given, FromRecord, Replayed;
    if c.record.Some? {
      ReplayOneMore(log, c.record.value);
      RecordReplays(log, c);
    }
  }

  lemma RecordReplays(log: seq<Bytes>, c: Commit)
    requires c.record.Some? && RecordHolds(log, c)
    ensures c.record.value < |log| && Given(c) == FromRecord(log[c.record.value])
  {
    hide Iterated, UpdatesOf, SequenceOf;
  }

  lemma InitProper(base: nat, log: seq<Bytes>, synced: nat, cs: seq<Commit>)
    requires AllProper(base, log, synced, cs) && RecordsInOrder(cs) && cs != []
    ensures AllProper(base, log, synced, cs[..|cs| - 1]) && RecordsInOrder(cs[..|cs| - 1])
    ensures Proper(base, log, synced, cs[..|cs| - 1], cs[|cs| - 1])
    ensures cs[|cs| - 1].record.Some? ==> cs[|cs| - 1].record.value == RecordCount(cs[..|cs| - 1])
  {
    hide Proper;
    var rest := cs[..|cs| - 1];
    forall i | 0 <= i < |rest| ensures Proper(base, log, synced, rest[..i], rest[i]) && (rest[i].record.Some? ==> rest[i].record.value == RecordCount(rest[..i])) {
      assert rest[..i] == cs[..i];
    }
  }
}
