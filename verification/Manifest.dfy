/** Replaying a manifest: VersionSet::Recover against VersionSet::LogAndApply (db/version_set.cc).

    Recovery pours every edit of the manifest into one Builder; the running store used a new
    Builder for each edit.  Both reach the same files, level by level. */
module Manifest {
  import opened Keys
  import opened Versions
  import opened Builder

  const EMPTY := LevelState({}, [])

  ghost predicate ValidEdits(edits: seq<VersionEdit>) {
    forall i :: 0 <= i < |edits| ==> edits[i].Valid()
  }

  // One Builder, all edits.
  ghost function Replay(st: LevelState, l: nat, edits: seq<VersionEdit>): (r: LevelState)
    requires st.Valid() && ValidEdits(edits)
    ensures r.Valid()
    decreases |edits|
  {
    if edits == [] then st else Replay(ApplyLevel(st, l, edits[0]), l, edits[1..])
  }

  // One Builder per edit.
  ghost function InstallEach(files: set<File>, l: nat, edits: seq<VersionEdit>): set<File>
    requires ValidEdits(edits)
    decreases |edits|
  {
    if edits == [] then files
    else InstallEach(Live(files, ApplyLevel(EMPTY, l, edits[0])), l, edits[1..])
  }

  // No file number is given twice to a file of level l.
  ghost predicate NeverReused(seen: set<File>, l: nat, edits: seq<VersionEdit>)
    requires ValidEdits(edits)
    decreases |edits|
  {
    edits == [] || (FreshNumbers(seen, l, edits[0].added) && NeverReused(seen + edits[0].AddedAt(l), l, edits[1..]))
  }

  lemma FewerSeen(seen: set<File>, fewer: set<File>, l: nat, adds: seq<(nat, File)>)
    requires FreshNumbers(seen, l, adds) && fewer <= seen
    ensures FreshNumbers(fewer, l, adds)
  {
  }

  lemma {:induction false} ReplayFrom(base: set<File>, st: LevelState, l: nat, edits: seq<VersionEdit>)
    requires st.Valid() && ValidEdits(edits) && NeverReused(base + FileSet(st.added), l, edits)
    ensures Live(base, Replay(st, l, edits)) == InstallEach(Live(base, st), l, edits)
    decreases |edits|
  {
    if edits != [] {
      var e := edits[0];
      var st' := ApplyLevel(st, l, e);
      var files := Live(base, st);
      ApplyEffect(base, st, l, e);
      FewerSeen(base + FileSet(st.added), files + FileSet(EMPTY.added), l, e.added);
      ApplyEffect(files, EMPTY, l, e);
      assert Live(files, EMPTY) == files;
      AddAllEffect(base + FileSet(st.added), LevelState(st.deleted + e.DeletedAt(l), st.added), l, e.added);
      assert VersionEdit({}, e.added).AddedAt(l) == e.AddedAt(l);
      assert base + FileSet(st'.added) == base + FileSet(st.added) + e.AddedAt(l);
      ReplayFrom(base, st', l, edits[1..]);
    }
  }

  // Recovery from a manifest that was written edit by edit.
  lemma ReplayIsInstallation(base: set<File>, l: nat, edits: seq<VersionEdit>)
    requires ValidEdits(edits) && NeverReused(base, l, edits)
    ensures Live(base, Replay(EMPTY, l, edits)) == InstallEach(base, l, edits)
  {
    assert base + FileSet(EMPTY.added) == base;
    assert Live(base, EMPTY) == base;
    ReplayFrom(base, EMPTY, l, edits);
  }

  function LevelAdds(l: nat, files: seq<File>): seq<(nat, File)> {
    seq(|files|, i requires 0 <= i < |files| => (l, files[i]))
  }

  // VersionSet::WriteSnapshot: one edit that adds every file of the version.
  function SnapshotAdds(levels: seq<seq<File>>, n: nat): seq<(nat, File)>
    requires n <= |levels|
  {
    if n == 0 then [] else SnapshotAdds(levels, n - 1) + LevelAdds(n - 1, levels[n - 1])
  }

  ghost predicate AddsFrom(levels: seq<seq<File>>, n: nat, adds: seq<(nat, File)>)
    requires n <= |levels|
  {
    forall i :: 0 <= i < |adds| ==> adds[i].0 < n && adds[i].1 in levels[adds[i].0] && adds[i].1.entries != []
  }

  lemma {:induction false} SnapshotAddsFrom(levels: seq<seq<File>>, n: nat)
    requires n <= |levels| && forall m :: 0 <= m < |levels| ==> Ascending(levels[m])
    ensures AddsFrom(levels, n, SnapshotAdds(levels, n))
  {
    if n > 0 { SnapshotAddsFrom(levels, n - 1); }
  }

  lemma LevelAddsAt(l: nat, files: seq<File>, m: nat)
    ensures VersionEdit({}, LevelAdds(l, files)).AddedAt(m) == if m == l then FileSet(files) else {}
  {
    var adds := LevelAdds(l, files);
    forall f | f in files ensures f in VersionEdit({}, adds).AddedAt(l) {
      var i :| 0 <= i < |files| && files[i] == f;
      assert adds[i] == (l, f);
    }
  }

  lemma {:induction false} SnapshotAddsAll(levels: seq<seq<File>>, n: nat, l: nat)
    requires n <= |levels| && l < |levels|
    ensures VersionEdit({}, SnapshotAdds(levels, n)).AddedAt(l) == if l < n then FileSet(levels[l]) else {}
  {
    if n > 0 {
      SnapshotAddsAll(levels, n - 1, l);
      LevelAddsAt(n - 1, levels[n - 1], l);
      SplitAdded(SnapshotAdds(levels, n - 1), LevelAdds(n - 1, levels[n - 1]), l);
    }
  }

  lemma {:induction false} SnapshotAddsFresh(levels: seq<seq<File>>, n: nat, l: nat)
    requires n <= |levels| && l < |levels| && forall m :: 0 <= m < |levels| ==> Ascending(levels[m])
    requires forall i, j :: 0 <= i < j < |levels[l]| ==> levels[l][i].number != levels[l][j].number
    ensures FreshNumbers({}, l, SnapshotAdds(levels, n))
  {
    if n > 0 {
      SnapshotAddsFresh(levels, n - 1, l);
      SnapshotAddsFrom(levels, n - 1);
    }
  }

  lemma SplitAdded(a: seq<(nat, File)>, b: seq<(nat, File)>, l: nat)
    ensures VersionEdit({}, a + b).AddedAt(l) == VersionEdit({}, a).AddedAt(l) + VersionEdit({}, b).AddedAt(l)
  {
  }

  // A snapshot record followed by the later edits recovers the version those edits produced, as
  // the very same list of files.
  lemma SnapshotThenEdits(levels: seq<seq<File>>, edits: seq<VersionEdit>, l: nat, recovered: seq<File>, running: seq<File>)
    requires |levels| == kNumLevels && l < kNumLevels && forall m :: 0 <= m < kNumLevels ==> Ascending(levels[m])
    requires forall i, j :: 0 <= i < j < |levels[l]| ==> levels[l][i].number != levels[l][j].number
    requires ValidEdits(edits) && NeverReused(FileSet(levels[l]), l, edits)
    requires var snapshot := VersionEdit({}, SnapshotAdds(levels, kNumLevels));
             snapshot.Valid() && ValidEdits([snapshot] + edits)
             && Ascending(recovered) && FileSet(recovered) == Live({}, Replay(EMPTY, l, [snapshot] + edits))
    requires Ascending(running) && FileSet(running) == InstallEach(FileSet(levels[l]), l, edits)
    ensures recovered == running
  {
    assert EMPTY.Valid();
    hide Ascending, ApplyLevel, Replay, SnapshotAdds;
    var snapshot := VersionEdit({}, SnapshotAdds(levels, kNumLevels));
    SnapshotAddsAll(levels, kNumLevels, l);
    SnapshotAddsFresh(levels, kNumLevels, l);
    assert ([snapshot] + edits)[1..] == edits;
    assert {} + snapshot.AddedAt(l) == FileSet(levels[l]);
    ReplayIsInstallation({}, l, [snapshot] + edits);
    assert {} + FileSet(EMPTY.added) == {};
    ApplyEffect({}, EMPTY, l, snapshot);
    assert Live({}, ApplyLevel(EMPTY, l, snapshot)) == FileSet(levels[l]);
    AscendingUnique(recovered, running);
  }

  // Why the numbers must not be reused: deleting file 5 and later adding another file 5 on the
  // same level brings the old one back in replay, because adding clears the deletion mark.
  lemma {:induction false} ReuseDiverges(f: File, g: File)
    requires f.entries != [] && g.entries != [] && f.number == g.number && f != g
    ensures var edits := [VersionEdit({(1, f.number)}, []), VersionEdit({}, [(1, g)])];
            && ValidEdits(edits)
            && f in Live({f}, Replay(EMPTY, 1, edits))
            && f !in InstallEach({f}, 1, edits)
  {
    var e1, e2 := VersionEdit({(1, f.number)}, []), VersionEdit({}, [(1, g)]);
    var edits := [e1, e2];
    var s1 := ApplyLevel(EMPTY, 1, e1);
    DeleteThenAdd(f, g);
    var s2 := ApplyLevel(s1, 1, e2);
    hide ApplyLevel, AddAll;
    assert edits[1..] == [e2] && [e2][1..] == [];
    assert Replay(EMPTY, 1, edits) == Replay(s1, 1, [e2]) == Replay(s2, 1, []) == s2;
    assert f.number !in s2.deleted;
    var after := Live({f}, s1);
    assert after == {};
    FreshForEmpty(g);
    ApplyEffect(after, EMPTY, 1, e2);
    assert e2.AddedAt(1) == {g};
    assert InstallEach({f}, 1, edits) == InstallEach(after, 1, [e2]) == InstallEach(Live(after, ApplyLevel(EMPTY, 1, e2)), 1, []);
  }

  lemma DeleteThenAdd(f: File, g: File)
    requires f.number == g.number && g.entries != []
    ensures var e1, e2 := VersionEdit({(1, f.number)}, []), VersionEdit({}, [(1, g)]);
            && e2.AddedAt(1) == {g} && ApplyLevel(EMPTY, 1, e1) == LevelState({f.number}, [])
            && ApplyLevel(LevelState({f.number}, []), 1, e2) == LevelState({}, [g])
  {
    var e1, e2 := VersionEdit({(1, f.number)}, []), VersionEdit({}, [(1, g)]);
    assert e1.DeletedAt(1) == {f.number} by { assert (1, f.number) in e1.deleted; }
    assert e2.DeletedAt(1) == {};
    assert e2.added[..0] == [];
    var deleted := LevelState({f.number}, []);
    assert e1.added == [] && ApplyLevel(EMPTY, 1, e1).deleted == {f.number};
    assert AddAll(deleted, 1, e2.added) == AddAll(deleted, 1, []).Add(g) == deleted.Add(g);
    assert deleted.Add(g).deleted == {} && deleted.Add(g).added == [g];
    assert deleted.deleted + e2.DeletedAt(1) == deleted.deleted;
  }

  lemma FreshForEmpty(g: File)
    ensures FreshNumbers({} + FileSet(EMPTY.added), 1, [(1, g)])
  {
  }
}
