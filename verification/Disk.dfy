/** What is on disk and what it means: log files, the manifest and table files.

    `Durable` says that the manifest replays to a version in search order whose tables are present,
    and that the logs not older than the manifest's log number continue the history exactly from
    where the version stops. */
module Disk {
  import opened Keys
  import opened Reads
  import opened Versions
  import opened Edits
  import opened Manifest
  import B = Builder

  // A write batch as logged: the sequence number of its first operation, then the operations.
  datatype Batch = Batch(first: nat, ops: seq<Op>)

  datatype Numbers = Numbers(logNumber: nat, nextFile: nat, lastSequence: nat)

  // A manifest record: files, numbers and compaction pointers; the snapshot record that opens a manifest carries no numbers.
  datatype Record = Record(edit: B.VersionEdit, numbers: Option<Numbers>, pointers: seq<(nat, InternalKey)> := [])

  type Pointers = seq<Option<InternalKey>>

  datatype Files = Files(logs: map<nat, seq<Batch>>, manifest: seq<Record>, tables: map<nat, seq<Entry>>)

  // ----- logs -----

  ghost function EntriesBetween(h: seq<Op>, lo: nat, hi: nat): set<Entry>
    requires hi <= |h|
  {
    set i | lo < i <= hi :: EntryOf(h, i)
  }

  function BatchEntry(b: Batch, i: nat): Entry
    requires i < |b.ops|
  {
    Entry(InternalKey(b.ops[i].user, b.first + i, b.ops[i].kind), b.ops[i].value)
  }

  // The batches carry the operations number lo+1 .. hi of the history, in order.
  ghost predicate Chain(bs: seq<Batch>, h: seq<Op>, lo: nat, hi: nat)
    decreases |bs|
  {
    if bs == [] then lo == hi
    else
      && bs[0].first == lo + 1 && lo + |bs[0].ops| <= |h|
      && bs[0].ops == h[lo..lo + |bs[0].ops|]
      && Chain(bs[1..], h, lo + |bs[0].ops|, hi)
  }

  ghost function End(bs: seq<Batch>, lo: nat): (hi: nat)
    ensures hi >= lo
    decreases |bs|
  {
    if bs == [] then lo else End(bs[1..], lo + |bs[0].ops|)
  }

  lemma {:induction false} ChainEnds(bs: seq<Batch>, h: seq<Op>, lo: nat, hi: nat)
    requires Chain(bs, h, lo, hi)
    ensures hi == End(bs, lo) && lo <= hi && (lo <= |h| ==> hi <= |h|)
    decreases |bs|
  {
    if bs != [] { ChainEnds(bs[1..], h, lo + |bs[0].ops|, hi); }
  }

  lemma {:induction false} ChainSplit(a: seq<Batch>, b: seq<Batch>, h: seq<Op>, lo: nat, hi: nat)
    ensures Chain(a + b, h, lo, hi) <==> Chain(a, h, lo, End(a, lo)) && Chain(b, h, End(a, lo), hi)
    decreases |a|
  {
    if a == [] {
      assert a + b == b;
    } else {
      assert (a + b)[1..] == a[1..] + b;
      ChainSplit(a[1..], b, h, lo + |a[0].ops|, hi);
    }
  }

  // A longer history keeps the chain.
  lemma {:induction false} ChainStable(bs: seq<Batch>, h: seq<Op>, more: seq<Op>, lo: nat, hi: nat)
    requires Chain(bs, h, lo, hi)
    ensures Chain(bs, h + more, lo, hi)
    decreases |bs|
  {
    if bs != [] {
      assert (h + more)[lo..lo + |bs[0].ops|] == h[lo..lo + |bs[0].ops|];
      ChainStable(bs[1..], h, more, lo + |bs[0].ops|, hi);
    }
  }

  lemma ChainOfOne(ops: seq<Op>, h: seq<Op>)
    ensures Chain([Batch(|h| + 1, ops)], h + ops, |h|, |h| + |ops|)
  {
    assert (h + ops)[|h|..|h| + |ops|] == ops;
    assert [Batch(|h| + 1, ops)][1..] == [];
  }

  // Appending the next batch to a chain that reaches the end of the history.
  lemma ChainGrows(bs: seq<Batch>, h: seq<Op>, ops: seq<Op>, lo: nat)
    requires Chain(bs, h, lo, |h|)
    ensures Chain(bs + [Batch(|h| + 1, ops)], h + ops, lo, |h + ops|)
  {
    ChainStable(bs, h, ops, lo, |h|);
    ChainEnds(bs, h, lo, |h|);
    ChainOfOne(ops, h);
    ChainSplit(bs, [Batch(|h| + 1, ops)], h + ops, lo, |h + ops|);
  }

  // The log files, oldest first.
  ghost function Concat(logs: map<nat, seq<Batch>>, order: seq<nat>): seq<Batch>
    requires forall n :: n in order ==> n in logs
  {
    if order == [] then [] else logs[order[0]] + Concat(logs, order[1..])
  }

  ghost predicate Increasing(ns: seq<nat>) {
    forall i, j :: 0 <= i < j < |ns| ==> ns[i] < ns[j]
  }

  // The log numbers recovery reads, in the order it reads them.
  ghost predicate LiveOrder(logs: map<nat, seq<Batch>>, from: nat, order: seq<nat>) {
    Increasing(order) && forall n :: n in order <==> n in logs && n >= from
  }

  ghost predicate AllBelow(logs: map<nat, seq<Batch>>, next: nat) {
    forall n :: n in logs ==> n < next
  }

  lemma {:induction false} IncreasingUnique(a: seq<nat>, b: seq<nat>)
    requires Increasing(a) && Increasing(b) && forall n :: n in a <==> n in b
    ensures a == b
  {
    if a == [] || b == [] {
      SameEmpty(a, b);
    } else {
      assert a[0] in b && b[0] in a;
      assert a[0] == b[0];
      RestSame(a, b);
      IncreasingUnique(a[1..], b[1..]);
      assert a == [a[0]] + a[1..] && b == [b[0]] + b[1..];
    }
  }

  lemma SameEmpty(a: seq<nat>, b: seq<nat>)
    requires forall n :: n in a <==> n in b
    ensures a == [] <==> b == []
  {
    if a != [] { assert a[0] in b; }
    if b != [] { assert b[0] in a; }
  }

  lemma RestSame(a: seq<nat>, b: seq<nat>)
    requires a != [] && b != [] && Increasing(a) && Increasing(b) && a[0] == b[0] && forall n :: n in a <==> n in b
    ensures forall n :: n in a[1..] <==> n in b[1..]
  {
    forall n ensures n in a[1..] ==> n in b[1..] && n in a { if n in a[1..] { InRest(a, b, n); } }
    forall n ensures n in b[1..] ==> n in a[1..] { if n in b[1..] { InRest(b, a, n); } }
  }

  lemma InRest(a: seq<nat>, b: seq<nat>, n: nat)
    requires a != [] && b != [] && Increasing(a) && Increasing(b) && a[0] == b[0] && (forall n :: n in a ==> n in b)
    requires n in a[1..]
    ensures n in b[1..] && n in a
  {
    var i :| 0 <= i < |a[1..]| && a[1..][i] == n;
    assert a[i + 1] == n && n > a[0] && a[i + 1] in a;
    var j :| 0 <= j < |b| && b[j] == n;
    assert b[1..][j - 1] == n;
  }

  lemma {:induction false} ConcatSplit(logs: map<nat, seq<Batch>>, a: seq<nat>, b: seq<nat>)
    requires forall n :: n in a + b ==> n in logs
    ensures (forall n :: n in a ==> n in logs) && (forall n :: n in b ==> n in logs)
    ensures Concat(logs, a + b) == Concat(logs, a) + Concat(logs, b)
  {
    assert forall n :: n in a ==> n in a + b;
    assert forall n :: n in b ==> n in a + b;
    if a == [] {
      assert a + b == b;
    } else {
      assert (a + b)[1..] == a[1..] + b;
      ConcatSplit(logs, a[1..], b);
    }
  }

  // Only the logs read matter.
  lemma {:induction false} ConcatSame(logs: map<nat, seq<Batch>>, logs': map<nat, seq<Batch>>, order: seq<nat>)
    requires forall n :: n in order ==> n in logs && n in logs' && logs'[n] == logs[n]
    ensures Concat(logs', order) == Concat(logs, order)
  {
    if order != [] {
      assert order[0] in order;
      ConcatSame(logs, logs', order[1..]);
    }
  }

  // ----- the manifest -----

  ghost function EditsOf(manifest: seq<Record>): (r: seq<B.VersionEdit>)
    ensures |r| == |manifest| && forall i :: 0 <= i < |r| ==> r[i] == manifest[i].edit
  {
    seq(|manifest|, i requires 0 <= i < |manifest| => manifest[i].edit)
  }

  function NoPointers(): (r: Pointers)
    ensures |r| == kNumLevels
  {
    seq(kNumLevels, _ => None)
  }

  // The pointers of some levels are set.
  function WithPointers(now: Pointers, given: seq<(nat, InternalKey)>): (r: Pointers)
    ensures |r| == |now|
  {
    if given == [] then now
    else
      var n, r := |given| - 1, WithPointers(now, given[..|given| - 1]);
      if given[n].0 < |r| then r[given[n].0 := Some(given[n].1)] else r
  }

  // The compaction pointers that the manifest records.
  function PointersOf(manifest: seq<Record>): (r: Pointers)
    ensures |r| == kNumLevels
  {
    if manifest == [] then NoPointers() else WithPointers(PointersOf(manifest[..|manifest| - 1]), manifest[|manifest| - 1].pointers)
  }

  lemma PointersAppended(manifest: seq<Record>, r: Record)
    ensures PointersOf(manifest + [r]) == WithPointers(PointersOf(manifest), r.pointers)
  {
    assert (manifest + [r])[..|manifest|] == manifest;
  }

  // The pointers of the levels that have one.
  function PointersSet(now: Pointers): seq<(nat, InternalKey)> {
    if now == [] then []
    else
      var n := |now| - 1;
      PointersSet(now[..n]) + if now[n].Some? then [(n, now[n].value)] else []
  }

  // Set where there are none, they are the same pointers.
  lemma {:induction false} PointersRecorded(now: Pointers, blank: Pointers)
    requires |now| <= |blank| && forall l :: 0 <= l < |now| ==> blank[l] == None
    ensures WithPointers(blank, PointersSet(now)) == now + blank[|now|..]
    decreases |now|
  {
    if now != [] {
      var n := |now| - 1;
      PointersRecorded(now[..n], blank);
      var few := PointersSet(now[..n]);
      if now[n].Some? {
        assert (few + [(n, now[n].value)])[..|few|] == few;
      } else {
        assert few + [] == few && blank[n] == None;
      }
    }
  }

  // The last numbers recorded.
  function LastNumbers(manifest: seq<Record>): Option<Numbers> {
    if manifest == [] then None
    else if manifest[|manifest| - 1].numbers.Some? then manifest[|manifest| - 1].numbers
    else LastNumbers(manifest[..|manifest| - 1])
  }

  // Every file ever added to level l by the manifest.
  ghost function EverAdded(manifest: seq<Record>, l: nat): set<File>
    requires ValidEdits(EditsOf(manifest))
  {
    B.FileSet(Replay(EMPTY, l, EditsOf(manifest)).added)
  }

  // f's number is not among those of `ever`.
  ghost predicate NumberNotIn(f: File, ever: set<File>) { forall g :: g in ever ==> f.number != g.number }

  // The manifest replays to these files; file numbers were never reused on a level, and a live
  // file's number was never used below its level.
  ghost predicate Replays(manifest: seq<Record>, levels: seq<seq<File>>, next: nat) {
    && |levels| == kNumLevels
    && ValidEdits(EditsOf(manifest))
    && (forall l :: 0 <= l < kNumLevels ==> B.FileSet(levels[l]) == B.Live({}, Replay(EMPTY, l, EditsOf(manifest))))
    && (forall l, g :: 0 <= l < kNumLevels && g in EverAdded(manifest, l) ==> g.number < next)
    && (forall m, l, f :: 0 <= m < l < kNumLevels && f in levels[m] ==> NumberNotIn(f, EverAdded(manifest, l)))
  }

  lemma {:induction false} ReplayAppend(st: B.LevelState, l: nat, edits: seq<B.VersionEdit>, e: B.VersionEdit)
    requires st.Valid() && ValidEdits(edits) && e.Valid() && ValidEdits(edits + [e])
    ensures Replay(st, l, edits + [e]) == B.ApplyLevel(Replay(st, l, edits), l, e)
    decreases |edits|
  {
    if edits == [] {
      assert [] + [e] == [e] && [e][1..] == [];
    } else {
      assert (edits + [e])[1..] == edits[1..] + [e];
      ReplayAppend(B.ApplyLevel(st, l, edits[0]), l, edits[1..], e);
    }
  }

  lemma RecordAppended(manifest: seq<Record>, r: Record, l: nat)
    requires ValidEdits(EditsOf(manifest)) && r.edit.Valid()
    ensures ValidEdits(EditsOf(manifest + [r]))
    ensures Replay(EMPTY, l, EditsOf(manifest + [r])) == B.ApplyLevel(Replay(EMPTY, l, EditsOf(manifest)), l, r.edit)
  {
    assert EditsOf(manifest + [r]) == EditsOf(manifest) + [r.edit];
    ReplayAppend(EMPTY, l, EditsOf(manifest), r.edit);
  }

  // One more record on one level.
  lemma LevelAppended(manifest: seq<Record>, r: Record, l: nat, files: set<File>)
    requires ValidEdits(EditsOf(manifest)) && r.edit.Valid() && files == B.Live({}, Replay(EMPTY, l, EditsOf(manifest)))
    requires B.FreshNumbers(EverAdded(manifest, l), l, r.edit.added)
    ensures ValidEdits(EditsOf(manifest + [r]))
    ensures B.Live({}, Replay(EMPTY, l, EditsOf(manifest + [r])))
         == (set f | f in files && f.number !in r.edit.DeletedAt(l)) + r.edit.AddedAt(l)
    ensures EverAdded(manifest + [r], l) == EverAdded(manifest, l) + r.edit.AddedAt(l)
  {
    RecordAppended(manifest, r, l);
    var st := Replay(EMPTY, l, EditsOf(manifest));
    var none: set<File> := {};
    assert none + B.FileSet(st.added) == B.FileSet(st.added);
    B.ApplyEffect({}, st, l, r.edit);
    var mid := B.LevelState(st.deleted + r.edit.DeletedAt(l), st.added);
    B.AddAllEffect(B.FileSet(st.added), mid, l, r.edit.added);
    assert B.VersionEdit({}, r.edit.added).AddedAt(l) == r.edit.AddedAt(l);
  }

  // Files added by the edit carry new numbers.
  ghost predicate AddsNew(edit: B.VersionEdit, next: nat, next': nat) {
    && (forall i :: 0 <= i < |edit.added| ==> next <= edit.added[i].1.number < next')
    && (forall i, j :: 0 <= i < j < |edit.added| ==> edit.added[i].1.number != edit.added[j].1.number)
  }

  lemma NewIsFresh(manifest: seq<Record>, levels: seq<seq<File>>, edit: B.VersionEdit, next: nat, next': nat, l: nat)
    requires Replays(manifest, levels, next) && AddsNew(edit, next, next') && l < kNumLevels
    ensures B.FreshNumbers(EverAdded(manifest, l), l, edit.added)
  {
  }

  lemma AddedNumber(edit: B.VersionEdit, l: nat, g: File)
    requires g in edit.AddedAt(l)
    ensures exists i :: 0 <= i < |edit.added| && edit.added[i] == (l, g)
  {
  }

  // One level after one more record.
  lemma LevelRecorded(manifest: seq<Record>, levels: seq<seq<File>>, r: Record, v: seq<seq<File>>, next: nat, l: nat)
    requires Replays(manifest, levels, next) && r.edit.Valid() && Applied(levels, r.edit, v) && l < kNumLevels
    requires B.FreshNumbers(EverAdded(manifest, l), l, r.edit.added)
    ensures ValidEdits(EditsOf(manifest + [r]))
    ensures B.FileSet(v[l]) == B.Live({}, Replay(EMPTY, l, EditsOf(manifest + [r])))
    ensures EverAdded(manifest + [r], l) == EverAdded(manifest, l) + r.edit.AddedAt(l)
  {
    LevelAppended(manifest, r, l, B.FileSet(levels[l]));
  }

  // A live file on a level above l, and everything ever added to level l, after adding new files.
  lemma NewStayApart(levels: seq<seq<File>>, edit: B.VersionEdit, v: seq<seq<File>>, ever: set<File>,
                     next: nat, next': nat, m: nat, l: nat, f: File)
    requires |levels| == kNumLevels && Applied(levels, edit, v) && AddsNew(edit, next, next') && m < l < kNumLevels
    requires (forall g :: g in ever ==> g.number < next) && (forall x :: x in levels[m] ==> x.number < next)
    requires forall x :: x in levels[m] ==> NumberNotIn(x, ever)
    requires f in v[m]
    ensures NumberNotIn(f, ever + edit.AddedAt(l))
  {
    assert f in B.FileSet(v[m]);
    forall g | g in ever + edit.AddedAt(l) ensures f.number != g.number {
      if f in edit.AddedAt(m) { AddedNumber(edit, m, f); }
      if g in edit.AddedAt(l) { AddedNumber(edit, l, g); }
    }
  }

  // Recording an edit that adds only new files: flush, compaction, recovery.
  lemma NewFilesRecorded(manifest: seq<Record>, levels: seq<seq<File>>, r: Record, v: seq<seq<File>>, next: nat, next': nat)
    requires Replays(manifest, levels, next) && Numbering(levels, next) && next <= next'
    requires r.edit.Valid() && AddsNew(r.edit, next, next') && Applied(levels, r.edit, v)
    ensures Replays(manifest + [r], v, next')
  {
    hide B.Live, Replay, EverAdded, B.FreshNumbers, AddsNew, Applied, B.FileSet;
    AppliedLength(levels, r.edit, v);
    RecordAppended(manifest, r, 0);
    forall l | 0 <= l < kNumLevels
      ensures B.FileSet(v[l]) == B.Live({}, Replay(EMPTY, l, EditsOf(manifest + [r])))
      ensures EverAdded(manifest + [r], l) == EverAdded(manifest, l) + r.edit.AddedAt(l)
      ensures forall g :: g in EverAdded(manifest + [r], l) ==> g.number < next'
    {
      NewIsFresh(manifest, levels, r.edit, next, next', l);
      LevelRecorded(manifest, levels, r, v, next, l);
      AddedBelow(r.edit, next, next', l);
    }
    forall m, l, f | 0 <= m < l < kNumLevels && f in v[m] ensures NumberNotIn(f, EverAdded(manifest + [r], l)) {
      NewStayApart(levels, r.edit, v, EverAdded(manifest, l), next, next', m, l, f);
    }
  }

  lemma AddedBelow(edit: B.VersionEdit, next: nat, next': nat, l: nat)
    requires AddsNew(edit, next, next')
    ensures forall g :: g in edit.AddedAt(l) ==> g.number < next'
  {
    forall g | g in edit.AddedAt(l) ensures g.number < next' { AddedNumber(edit, l, g); }
  }

  lemma AppliedLength(levels: seq<seq<File>>, edit: B.VersionEdit, v: seq<seq<File>>)
    requires |levels| == kNumLevels && Applied(levels, edit, v)
    ensures |v| == kNumLevels
  {
  }

  // The edit of a trivial move of f from level l to the next.
  ghost predicate Moves(levels: seq<seq<File>>, edit: B.VersionEdit, l: nat, f: File) {
    && l + 1 < kNumLevels && l < |levels| && f in levels[l] && f.entries != []
    && edit == B.VersionEdit({(l, f.number)}, [(l + 1, f)])
  }

  lemma MoveParts(l: nat, f: File, k: nat)
    ensures var e := B.VersionEdit({(l, f.number)}, [(l + 1, f)]);
            && e.AddedAt(k) == (if k == l + 1 then {f} else {})
            && e.DeletedAt(k) == (if k == l then {f.number} else {})
  {
    var e := B.VersionEdit({(l, f.number)}, [(l + 1, f)]);
    assert (l + 1, f) in e.added && (l, f.number) in e.deleted;
  }

  lemma MoveStaysApart(levels: seq<seq<File>>, edit: B.VersionEdit, v: seq<seq<File>>, ever: set<File>,
                       next: nat, l: nat, f: File, m: nat, k: nat, x: File)
    requires |levels| == kNumLevels && Applied(levels, edit, v) && Numbering(levels, next) && m < k < kNumLevels
    requires Moves(levels, edit, l, f)
    requires (forall y :: y in levels[m] ==> NumberNotIn(y, ever)) && (l < k ==> NumberNotIn(f, ever))
    requires x in v[m]
    ensures NumberNotIn(x, ever + edit.AddedAt(k))
  {
    MoveParts(l, f, m);
    MoveParts(l, f, k);
    assert x in B.FileSet(v[m]);
    assert x != f ==> x in levels[m] && (m == l ==> x.number != f.number);
  }

  // Recording a trivial move of f from level l to the next.
  lemma MoveRecorded(manifest: seq<Record>, levels: seq<seq<File>>, r: Record, v: seq<seq<File>>, next: nat, l: nat, f: File)
    requires Replays(manifest, levels, next) && Numbering(levels, next) && Moves(levels, r.edit, l, f) && Applied(levels, r.edit, v)
    requires |v| == kNumLevels && r.edit.Valid()
    ensures Replays(manifest + [r], v, next)
  {
    RecordAppended(manifest, r, 0);
    hide B.Live, Replay, EverAdded, Applied, B.FileSet, Numbering, B.VersionEdit.Valid, B.VersionEdit.AddedAt, Moves, NumberNotIn, Replays;
    forall k | 0 <= k < kNumLevels
      ensures B.FileSet(v[k]) == B.Live({}, Replay(EMPTY, k, EditsOf(manifest + [r])))
      ensures forall g :: g in EverAdded(manifest + [r], k) ==> g.number < next
    {
      MovedLevel(manifest, levels, r, v, next, l, f, k);
    }
    forall m, k, x | 0 <= m < k < kNumLevels && x in v[m] ensures NumberNotIn(x, EverAdded(manifest + [r], k)) {
      MovedApart(manifest, levels, r, v, next, l, f, m, k, x);
    }
    ReplaysWhen(manifest + [r], v, next);
  }

  lemma ReplaysWhen(manifest: seq<Record>, levels: seq<seq<File>>, next: nat)
    requires |levels| == kNumLevels && ValidEdits(EditsOf(manifest))
    requires forall l :: 0 <= l < kNumLevels ==> B.FileSet(levels[l]) == B.Live({}, Replay(EMPTY, l, EditsOf(manifest)))
    requires forall l, g :: 0 <= l < kNumLevels && g in EverAdded(manifest, l) ==> g.number < next
    requires forall m, l, f :: 0 <= m < l < kNumLevels && f in levels[m] ==> NumberNotIn(f, EverAdded(manifest, l))
    ensures Replays(manifest, levels, next)
  {
  }

  lemma MovedApart(manifest: seq<Record>, levels: seq<seq<File>>, r: Record, v: seq<seq<File>>, next: nat, l: nat, f: File,
                   m: nat, k: nat, x: File)
    requires Replays(manifest, levels, next) && Numbering(levels, next) && Moves(levels, r.edit, l, f) && Applied(levels, r.edit, v)
    requires m < k < kNumLevels && |v| == kNumLevels && x in v[m] && ValidEdits(EditsOf(manifest + [r]))
    ensures NumberNotIn(x, EverAdded(manifest + [r], k))
  {
    MovedLevel(manifest, levels, r, v, next, l, f, k);
    hide Applied, Numbering, EverAdded;
    MoveStaysApart(levels, r.edit, v, EverAdded(manifest, k), next, l, f, m, k, x);
  }

  lemma MovedLevel(manifest: seq<Record>, levels: seq<seq<File>>, r: Record, v: seq<seq<File>>, next: nat, l: nat, f: File, k: nat)
    requires Replays(manifest, levels, next) && Numbering(levels, next) && Moves(levels, r.edit, l, f) && Applied(levels, r.edit, v)
    requires k < kNumLevels && ValidEdits(EditsOf(manifest + [r])) && |v| == kNumLevels
    ensures B.FileSet(v[k]) == B.Live({}, Replay(EMPTY, k, EditsOf(manifest + [r])))
    ensures EverAdded(manifest + [r], k) == EverAdded(manifest, k) + r.edit.AddedAt(k)
    ensures forall g :: g in EverAdded(manifest + [r], k) ==> g.number < next
  {
    hide B.Live, Replay, EverAdded, Applied, B.FileSet, Numbering;
    MoveFresh(levels, EverAdded(manifest, k), next, l, f, k);
    LevelRecorded(manifest, levels, r, v, next, k);
    MoveParts(l, f, k);
    NumberBelow(levels, next, l, f);
  }

  lemma NumberBelow(levels: seq<seq<File>>, next: nat, l: nat, f: File)
    requires Numbering(levels, next) && l < |levels| && f in levels[l]
    ensures f.number < next
  {
  }

  lemma MoveFresh(levels: seq<seq<File>>, ever: set<File>, next: nat, l: nat, f: File, k: nat)
    requires l < k ==> NumberNotIn(f, ever)
    ensures B.FreshNumbers(ever, k, [(l + 1, f)])
  {
  }
}
