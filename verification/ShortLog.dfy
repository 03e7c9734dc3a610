/** Recovery from a log that lost more than the manifest's last sequence number counts: a compaction had
    recorded that number while the newest writes were in the log only, and not synced.

    The store goes on from the manifest's number, so the history from then on has a gap in its numbers:
    `ReadsAcrossGap` says what every read returns. */
module ShortLog {
  import opened Keys
  import opened Reads
  import opened Versions
  import opened Edits
  import opened Manifest
  import opened Disk
  import opened StoreState
  import opened Durability
  import opened Recovery
  import opened LogRecovery
  import opened Db
  import B = Builder

  // DBImpl::Recover and VersionSet::Recover on a log cut anywhere: the tables and logs give back the history up
  // to the cut, and the last sequence number is the manifest's or the logs', whichever is higher.
  method RecoverCut(options: Options, d': Files, ghost d: Files, ghost levels: seq<seq<File>>, ghost h: seq<Op>, ghost base: nat,
                    ghost order0: seq<nat>, ghost hi: nat, ghost bs: seq<Batch>)
    returns (v: seq<seq<File>>, lastSequence: nat)
    requires Durable(d, levels, h, base, order0) && CutShort(d, order0, base, d', hi, bs)
    ensures base <= hi <= |h| && Ordered(v) && AllRecorded(h[..hi], StoredIn(v)) && StoredIn(v) == OnDisk(levels, h[..hi], base)
    // with tables that read like the flushed part of the history, what is recovered reads like the history up to the cut
    ensures forall u :: ReadsHistory(StoredIn(levels), h[..base], base, u) ==> ReadsHistory(StoredIn(v), h[..hi], hi, u)
    ensures LastNumbers(d.manifest).Some?
    ensures lastSequence == if LastNumbers(d.manifest).value.lastSequence < hi then hi else LastNumbers(d.manifest).value.lastSequence
  {
    hide Ordered, AllAscending, Numbering, Replays, LiveOrder, Chain, Concat, TablesPresent, Rebuilt, Caught, TablesWritten, AllRecorded,
         UpTo, Applied, StoredIn, EntriesBetween, B.VersionEdit.Valid, End, ValidHistory, Increasing, ReadsHistory, OnDisk;
    CutLogs(d, levels, h, base, order0, d', hi, bs);
    EditsReplay(d.manifest, levels, LastNumbers(d.manifest).value.nextFile);
    var numbers, recovered, pointers := ReplayManifest(d'.manifest);
    RecoversVersion(d.manifest, levels, numbers.value.nextFile, recovered);
    var order := LogsToRecover(d'.logs, numbers.value.logNumber);
    SameOrder(d'.logs, numbers.value.logNumber, order, order0);
    NextFits(d.manifest, levels, h, base);
    var edit, next, tables, maxSequence;
    ghost var w;
    edit, next, tables, maxSequence, w :=
      RecoverLogs(d'.logs, order, options.memUsage, options.writeBufferSize, options.tableSize, numbers.value.nextFile + 1, d'.tables, levels, h[..hi], base);
    lastSequence := if numbers.value.lastSequence < maxSequence then maxSequence else numbers.value.lastSequence;
    v := Applied1(recovered, edit, w, numbers.value.nextFile + 1, next, h[..hi], base);
    assert h[..hi][..base] == h[..base];
    forall u | ReadsHistory(StoredIn(levels), h[..base], base, u) ensures ReadsHistory(StoredIn(v), h[..hi], hi, u) {
      RecoveredReads(levels, h[..hi], base, u);
    }
  }

  // LogAndApply of the recovered tables.
  method Applied1(levels: seq<seq<File>>, edit: B.VersionEdit, ghost w: seq<seq<File>>, ghost first: nat, ghost next: nat, ghost h: seq<Op>, ghost base: nat)
    returns (v: seq<seq<File>>)
    requires AllAscending(levels) && Numbering(levels, first) && Rebuilt(levels, edit, w, first, next) && Caught(levels, w, h, base, |h|)
    ensures v == w && Ordered(v) && AllRecorded(h, StoredIn(v)) && StoredIn(v) == OnDisk(levels, h, base)
  {
    hide Ordered, AllAscending, Applied, AllRecorded, StoredIn;
    FreshToAll(levels, edit, first, next);
    v := LogAndApply(levels, edit);
    AppliedOnce(levels, edit, v, w);
  }

  lemma FreshToAll(levels: seq<seq<File>>, edit: B.VersionEdit, first: nat, next: nat)
    requires |levels| == kNumLevels && Numbering(levels, first) && AddsNew(edit, first, next)
    ensures forall l :: 0 <= l < kNumLevels ==> B.FreshNumbers(B.FileSet(levels[l]), l, edit.added)
  {
  }

  lemma EditsReplay(manifest: seq<Record>, levels: seq<seq<File>>, next: nat)
    requires Replays(manifest, levels, next)
    ensures ValidEdits(EditsOf(manifest))
  {
  }

  // What the cut leaves of the disk.
  lemma CutLogs(d: Files, levels: seq<seq<File>>, h: seq<Op>, base: nat, order: seq<nat>, d': Files, hi: nat, bs: seq<Batch>)
    requires Durable(d, levels, h, base, order) && CutShort(d, order, base, d', hi, bs)
    ensures base <= hi <= |h| && d'.manifest == d.manifest && d'.tables == d.tables && ValidHistory(h[..hi])
    ensures LiveOrder(d'.logs, LastNumbers(d.manifest).value.logNumber, order) && Chain(Concat(d'.logs, order), h[..hi], base, hi)
    ensures AllRecorded(h[..hi], StoredIn(levels)) && AllRecorded(h[..base], StoredIn(levels))
  {
    hide Ordered, AllAscending, Replays, TablesPresent, Numbering;
    CutChain(d, h, base, order, d', hi, bs);
    assert order[|order| - 1] in order;
    forall e | e in StoredIn(levels) ensures Recorded(h[..hi], e) && Recorded(h[..base], e) { assert Recorded(h, e) && e.key.sequence <= base; }
  }

  // ----- a history with a gap -----

  // The operations `more` are numbered from |kept| + gap + 1 on.
  ghost function Late(kept: seq<Op>, gap: nat, more: seq<Op>): set<Entry> {
    set i | 0 <= i < |more| :: Entry(InternalKey(more[i].user, |kept| + gap + 1 + i, more[i].kind), more[i].value)
  }

  // What a read at s should see: the operations kept, and of the others those whose numbers have come.
  function GapRead(kept: seq<Op>, gap: nat, more: seq<Op>, user: UserKey, s: nat): Option<Bytes>
    requires |kept| <= s <= |kept| + gap + |more|
  {
    if s <= |kept| + gap then HistoryRead(kept, user, |kept|) else HistoryRead(kept + more, user, s - gap)
  }

  // The store that recovery leaves answers every read it will ever be asked like the history that skips what
  // was lost, whatever is written from then on.
  lemma ReadsAcrossGap(all: set<Entry>, kept: seq<Op>, gap: nat, more: seq<Op>, user: UserKey, s: nat)
    requires ReadsHistory(all, kept, |kept|, user) && AllRecorded(kept, all)
    requires (forall i :: 0 <= i < |more| ==> more[i].kind <= kTypeValue) && |kept| <= s <= |kept| + gap + |more|
    ensures ReadsAs(all + Late(kept, gap, more), user, s, GapRead(kept, gap, more, user, s))
  {
    hide IsNewest, AllRecorded, Late, LateEntry;
    assert ReadsAs(all, user, |kept|, HistoryRead(kept, user, |kept|));
    var r :| IsNewest(all, user, |kept|, r) && Outcome(r) == HistoryRead(kept, user, |kept|);
    if s <= |kept| + gap {
      KeptStillNewest(all, kept, gap, more, user, s, r);
    } else {
      ReadsBeyond(all, kept, gap, more, user, s, r);
    }
  }

  lemma ReadsBeyond(all: set<Entry>, kept: seq<Op>, gap: nat, more: seq<Op>, user: UserKey, s: nat, r: Option<Entry>)
    requires IsNewest(all, user, |kept|, r) && Outcome(r) == HistoryRead(kept, user, |kept|) && AllRecorded(kept, all)
    requires (forall i :: 0 <= i < |more| ==> more[i].kind <= kTypeValue) && |kept| + gap < s <= |kept| + gap + |more|
    ensures ReadsAs(all + Late(kept, gap, more), user, s, HistoryRead(kept + more, user, s - gap))
  {
    hide IsNewest, AllRecorded, Late;
    var h, at := kept + more, s - gap;
    var n := LastOp(h, user, at);
    if n > |kept| {
      LateIsNewest(all, kept, gap, more, user, s, n);
      assert Outcome(Some(LateEntry(kept, gap, more, n))) == Outcome(Some(EntryOf(h, n)));
    } else {
      SameLast(kept, more, user, at);
      KeptStillNewest(all, kept, gap, more, user, s, r);
    }
  }

  // The entry of operation n of kept + more, n beyond kept.
  function LateEntry(kept: seq<Op>, gap: nat, more: seq<Op>, n: nat): Entry
    requires |kept| < n <= |kept + more|
  {
    var op := more[n - |kept| - 1];
    Entry(InternalKey(op.user, n + gap, op.kind), op.value)
  }

  lemma KeptStillNewest(all: set<Entry>, kept: seq<Op>, gap: nat, more: seq<Op>, user: UserKey, s: nat, r: Option<Entry>)
    requires IsNewest(all, user, |kept|, r) && AllRecorded(kept, all) && |kept| <= s <= |kept| + gap + |more|
    requires forall i :: 0 <= i < |more| && |kept| + gap + 1 + i <= s ==> more[i].user != user
    ensures IsNewest(all + Late(kept, gap, more), user, s, r)
  {
    forall e | e in all ensures Candidate(e, user, s) <==> Candidate(e, user, |kept|) { assert Recorded(kept, e); }
  }

  lemma LateIsNewest(all: set<Entry>, kept: seq<Op>, gap: nat, more: seq<Op>, user: UserKey, s: nat, n: nat)
    requires AllRecorded(kept, all) && |kept| + gap < s <= |kept| + gap + |more| && |kept| < n <= s - gap
    requires (kept + more)[n - 1].user == user && (kept + more)[n - 1].kind <= kTypeValue
    requires forall i :: n <= i < s - gap ==> (kept + more)[i].user != user
    ensures IsNewest(all + Late(kept, gap, more), user, s, Some(LateEntry(kept, gap, more, n)))
  {
    var e := LateEntry(kept, gap, more, n);
    assert e in Late(kept, gap, more);
    forall x | x in all + Late(kept, gap, more) && Candidate(x, user, s) ensures x.key.Tag() <= e.key.Tag() {
      if x in all {
        assert Recorded(kept, x);
      } else {
        var i :| 0 <= i < |more| && x == Entry(InternalKey(more[i].user, |kept| + gap + 1 + i, more[i].kind), more[i].value);
        assert (kept + more)[|kept| + i] == more[i];
      }
    }
  }

  lemma SameLast(kept: seq<Op>, more: seq<Op>, user: UserKey, at: nat)
    requires |kept| <= at <= |kept + more| && LastOp(kept + more, user, at) <= |kept|
    ensures HistoryRead(kept + more, user, at) == HistoryRead(kept, user, |kept|)
    ensures forall i :: 0 <= i < |more| && |kept| + 1 + i <= at ==> more[i].user != user
  {
    forall i | 0 <= i < |more| && |kept| + 1 + i <= at ensures more[i].user != user {
      assert (kept + more)[|kept| + i] == more[i];
    }
    HistoryStable(kept, more, user, |kept|);
    SameRead(kept + more, user, |kept|, at);
  }

  lemma {:induction false} SameRead(h: seq<Op>, user: UserKey, lo: nat, at: nat)
    requires lo <= at <= |h| && forall i :: lo <= i < at ==> h[i].user != user
    ensures HistoryRead(h, user, at) == HistoryRead(h, user, lo)
  {
    if lo < at { SameRead(h, user, lo, at - 1); }
  }

  // Recovery and reads together: if the tables alone read like the flushed part of the history, the recovered
  // store reads across the gap.
  lemma RecoveredReads(levels: seq<seq<File>>, h: seq<Op>, base: nat, user: UserKey)
    requires base <= |h| && ValidHistory(h) && ReadsHistory(StoredIn(levels), h[..base], base, user) && AllRecorded(h[..base], StoredIn(levels))
    ensures ReadsHistory(OnDisk(levels, h, base), h, |h|, user)
  {
    hide StoredIn, ReadsHistory, AllRecorded, EntriesBetween;
    assert h[..base] + h[base..] == h;
    LoggedReads(StoredIn(levels), h[..base], h[base..], base, user);
    FloorRises(OnDisk(levels, h, base), h, base, |h|, user);
  }
}
