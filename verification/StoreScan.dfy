/** Iterating over a store: DBImpl::NewInternalIterator, Version::AddIterators (db/db_impl.cc,
    db/version_set.cc) and a DBIter run from the first to the last key.

    The memtables, the files of level 0 one by one and each deeper level as a whole are merged into the
    sorted sequence of all entries; the user sees each key with a value at the snapshot once, in order. */
module StoreScan {
  import opened Keys
  import opened Reads
  import opened Versions
  import opened CompactionMerge
  import opened Iterators
  import opened DbIter
  import opened StoreState

  // ----- the runs -----

  ghost predicate Unshared(a: set<Entry>, b: set<Entry>) {
    forall x, y :: x in a && y in b ==> x.key.user != y.key.user || x.key.Tag() != y.key.Tag()
  }

  lemma NewerIsUnshared(a: set<Entry>, b: set<Entry>)
    requires Newer(a, b)
    ensures Unshared(a, b)
  {
  }

  // Runs of the entries `all`, with no key twice.
  ghost predicate RunsOf(runs: seq<seq<Entry>>, all: set<Entry>) {
    InputRuns(runs, all) && KeysDistinct(all)
  }

  lemma OneMoreRun(runs: seq<seq<Entry>>, all: set<Entry>, es: seq<Entry>)
    requires RunsOf(runs, all) && Sorted(es) && Unshared(all, Elements(es))
    ensures RunsOf(runs + [es], all + Elements(es))
  {
    var more := runs + [es];
    forall i, e | 0 <= i < |runs| && e in runs[i] ensures e in all { assert e in Elements(runs[i]); }
    forall e | e in all + Elements(es) ensures exists i :: 0 <= i < |more| && e in more[i] {
      if e in all {
        var i :| 0 <= i < |runs| && e in runs[i];
        assert e in more[i];
      } else {
        assert e in more[|runs|];
      }
    }
    forall e | e in es ensures e !in all { assert e in Elements(es); }
    SortedDistinct(es);
  }

  lemma SortedDistinct(es: seq<Entry>)
    requires Sorted(es)
    ensures KeysDistinct(Elements(es))
  {
    forall x, y | x in Elements(es) && y in Elements(es) && x.key.user == y.key.user && x.key.Tag() == y.key.Tag() ensures x == y {
      var i :| 0 <= i < |es| && es[i] == x;
      var j :| 0 <= j < |es| && es[j] == y;
      SortedAt(es, i, j);
      SortedAt(es, j, i);
    }
  }

  // The files of level 0, each on its own.
  method Level0Runs(runs0: seq<seq<Entry>>, ghost above: set<Entry>, files: seq<File>) returns (runs: seq<seq<Entry>>)
    requires RunsOf(runs0, above) && ValidFiles(files) && NewestByNumber(files) && Newer(above, Stored(files))
    ensures RunsOf(runs, above + Stored(files))
  {
    hide RunsOf, Unshared, NewestByNumber;
    runs := runs0;
    assert Stored(files[..0]) == {} && above + {} == above;
    for i := 0 to |files|
      invariant RunsOf(runs, above + Stored(files[..i]))
    {
      FileUnshared(above, files, i);
      OneMoreRun(runs, above + Stored(files[..i]), files[i].entries);
      runs := runs + [files[i].entries];
      OneMoreFile(files, i);
      assert above + Stored(files[..i]) + Elements(files[i].entries) == above + Stored(files[..i + 1]);
    }
    assert files[..|files|] == files;
  }

  lemma OneMoreFile(files: seq<File>, i: nat)
    requires i < |files|
    ensures Stored(files[..i + 1]) == Stored(files[..i]) + Elements(files[i].entries)
  {
    assert files[..i + 1] == files[..i] + [files[i]];
  }

  lemma FileUnshared(above: set<Entry>, files: seq<File>, i: nat)
    requires ValidFiles(files) && NewestByNumber(files) && Newer(above, Stored(files)) && i < |files|
    ensures Unshared(above + Stored(files[..i]), Elements(files[i].entries)) && Sorted(files[i].entries)
  {
    assert files[i].Valid();
    forall x, y | x in above + Stored(files[..i]) && y in Elements(files[i].entries)
      ensures x.key.user != y.key.user || x.key.Tag() != y.key.Tag()
    {
      assert y in Stored(files);
      if x !in above {
        var f :| f in files[..i] && x in f.entries;
        var k :| 0 <= k < i && files[k] == f;
        DifferentNumbersDiffer(files, k, i, x, y);
      }
    }
  }

  // The levels below, each as one run.
  method DeeperRuns(runs0: seq<seq<Entry>>, ghost above: set<Entry>, levels: seq<seq<File>>) returns (runs: seq<seq<Entry>>)
    requires Ordered(levels) && RunsOf(runs0, above + Stored(levels[0])) && Newer(above, StoredIn(levels))
    ensures RunsOf(runs, above + StoredIn(levels))
  {
    hide RunsOf, Ordered, Newer, Unshared;
    LevelsThere(levels);
    runs := runs0;
    FirstLevel(levels);
    for l := 1 to kNumLevels
      invariant RunsOf(runs, above + StoredIn(levels[..l]))
    {
      OneMoreLevel(levels, l);
      assert above + StoredIn(levels[..l]) + Stored(levels[l]) == above + StoredIn(levels[..l + 1]);
      if levels[l] != [] {
        LevelUnshared(above, levels, l);
        var es := Concatenated(levels[l]);
        OneMoreRun(runs, above + StoredIn(levels[..l]), es);
        runs := runs + [es];
      } else {
        NothingStored();
        assert above + StoredIn(levels[..l]) + {} == above + StoredIn(levels[..l]);
      }
    }
    assert levels[..kNumLevels] == levels;
  }

  lemma LevelsThere(levels: seq<seq<File>>)
    requires Ordered(levels)
    ensures |levels| == kNumLevels
  {
  }

  lemma FirstLevel(levels: seq<seq<File>>)
    requires levels != []
    ensures StoredIn(levels[..1]) == Stored(levels[0])
  {
  }

  lemma OneMoreLevel(levels: seq<seq<File>>, l: nat)
    requires l < |levels|
    ensures StoredIn(levels[..l + 1]) == StoredIn(levels[..l]) + Stored(levels[l])
  {
    var more := levels[..l + 1];
    forall e | e in StoredIn(more) ensures e in StoredIn(levels[..l]) + Stored(levels[l]) {
      var m :| 0 <= m < |more| && e in Stored(more[m]);
      assert m < l ==> levels[..l][m] == more[m];
    }
    forall e | e in StoredIn(levels[..l]) + Stored(levels[l]) ensures e in StoredIn(more) {
      if e in Stored(levels[l]) {
        assert e in Stored(more[l]);
      } else {
        var m :| 0 <= m < l && e in Stored(levels[..l][m]);
        assert e in Stored(more[m]);
      }
    }
  }

  lemma LevelUnshared(above: set<Entry>, levels: seq<seq<File>>, l: nat)
    requires Ordered(levels) && Newer(above, StoredIn(levels)) && 1 <= l < kNumLevels
    ensures ValidFiles(levels[l]) && SortedLevel(levels[l])
    ensures Unshared(above + StoredIn(levels[..l]), Stored(levels[l]))
  {
    hide ValidFiles, SortedLevel, NewestByNumber;
    forall x, y | x in above + StoredIn(levels[..l]) && y in Stored(levels[l]) ensures x.key.user != y.key.user || x.key.Tag() != y.key.Tag() {
      assert y in StoredIn(levels);
      if x !in above {
        var m :| 0 <= m < l && x in Stored(levels[..l][m]);
        assert Newer(Stored(levels[m]), Stored(levels[l]));
      }
    }
  }

  // DBImpl::NewInternalIterator, run from its first to its last entry.
  method AllEntries(st: Store) returns (es: seq<Entry>)
    requires st.Ranked()
    ensures Sorted(es) && Elements(es) == st.All()
  {
    hide Ordered, Newer, Sorted, RunsOf, Unshared, AllParse, InputRuns, KeysDistinct;
    var runs := [st.mem];
    FirstRun(st.mem);
    if st.imm.Some? {
      NewerIsUnshared(Elements(st.mem), Elements(st.Imm()));
      OneMoreRun(runs, Elements(st.mem), st.imm.value);
      runs := runs + [st.imm.value];
    } else {
      NoEntries();
      assert Elements(st.mem) + Elements(st.Imm()) == Elements(st.mem);
    }
    Level0There(st);
    runs := Level0Runs(runs, st.Above(), st.levels[0]);
    runs := DeeperRuns(runs, st.Above(), st.levels);
    AreRuns(runs, st.All());
    es := MergeRuns(runs, st.All());
  }

  lemma FirstRun(es: seq<Entry>)
    requires Sorted(es)
    ensures RunsOf([es], Elements(es))
  {
    SortedDistinct(es);
    assert [es][0] == es;
  }

  lemma NoEntries()
    ensures Elements([]) == {}
  {
  }

  lemma Level0There(st: Store)
    requires st.Ranked()
    ensures |st.levels| == kNumLevels && ValidFiles(st.levels[0]) && NewestByNumber(st.levels[0]) && Newer(st.Above(), Stored(st.levels[0]))
  {
    assert forall e :: e in Stored(st.levels[0]) ==> e in StoredIn(st.levels);
  }

  lemma AreRuns(runs: seq<seq<Entry>>, all: set<Entry>)
    requires RunsOf(runs, all)
    ensures InputRuns(runs, all) && KeysDistinct(all)
  {
  }

  // ----- what the user sees -----

  ghost predicate KeysAscend(pairs: seq<(UserKey, Bytes)>) {
    forall i, j :: 0 <= i < j < |pairs| ==> pairs[i].0 < pairs[j].0
  }

  // An entry before position p is shown with this key and value.
  ghost predicate ShownBefore(es: seq<Entry>, s: nat, p: nat, user: UserKey, v: Bytes) {
    exists i :: 0 <= i < p && Yields(es, s, i) && es[i].key.user == user && es[i].value == v
  }

  ghost predicate ListsUpTo(pairs: seq<(UserKey, Bytes)>, es: seq<Entry>, s: nat, p: nat) {
    && KeysAscend(pairs)
    && (forall k :: 0 <= k < |pairs| ==> ShownBefore(es, s, p, pairs[k].0, pairs[k].1))
    && (forall i :: 0 <= i < p && Yields(es, s, i) ==> (es[i].key.user, es[i].value) in pairs)
  }

  // for (it->SeekToFirst(); it->Valid(); it->Next())
  method ListAll(es: seq<Entry>, s: nat) returns (pairs: seq<(UserKey, Bytes)>)
    requires Sorted(es)
    ensures ListsUpTo(pairs, es, s, |es|)
  {
    var cursor := new Cursor(es);
    var it := new DBIter(cursor, s);
    it.SeekToFirst();
    hide DBIter.Valid, Yields, ListsUpTo;
    pairs := [];
    ghost var p := NextYield(es, s, 0);
    NoneShown(es, s, p);
    while it.valid
      invariant it.Valid() && it.Es() == es && it.sequence == s && p <= |es| && it.StandsAt(p) && fresh(it) && fresh(it.iter)
      invariant p == |es| || Yields(es, s, p)
      invariant ListsUpTo(pairs, es, s, p)
      decreases |es| - p
    {
      var k, v := it.Key(), it.Value();
      ghost var next := NextYield(es, s, p + 1);
      OneMoreShown(pairs, es, s, p, next);
      pairs := pairs + [(k, v)];
      it.Next();
      p := next;
    }
  }

  lemma NoneShown(es: seq<Entry>, s: nat, p: nat)
    requires p == NextYield(es, s, 0)
    ensures ListsUpTo([], es, s, p)
  {
  }

  lemma OneMoreShown(pairs: seq<(UserKey, Bytes)>, es: seq<Entry>, s: nat, p: nat, next: nat)
    requires Sorted(es) && p < |es| && Yields(es, s, p) && ListsUpTo(pairs, es, s, p) && next == NextYield(es, s, p + 1)
    ensures ListsUpTo(pairs + [(es[p].key.user, es[p].value)], es, s, next)
  {
    hide Yields, NextYield, Sorted;
    var more := pairs + [(es[p].key.user, es[p].value)];
    forall k | 0 <= k < |pairs| ensures pairs[k].0 < es[p].key.user && ShownBefore(es, s, next, pairs[k].0, pairs[k].1) {
      var i :| 0 <= i < p && Yields(es, s, i) && es[i].key.user == pairs[k].0 && es[i].value == pairs[k].1;
      YieldedKeysAscend(es, s, i, p);
    }
    assert ShownBefore(es, s, next, es[p].key.user, es[p].value);
    forall k | 0 <= k < |more| ensures ShownBefore(es, s, next, more[k].0, more[k].1) {
      if k < |pairs| { assert more[k] == pairs[k]; }
    }
    forall i | 0 <= i < next && Yields(es, s, i) ensures (es[i].key.user, es[i].value) in more {
      if i < p { assert (es[i].key.user, es[i].value) in pairs; } else { assert more[|pairs|] == (es[p].key.user, es[p].value); }
    }
  }

  // The listing shows a key with a value exactly when a read gets that value.
  lemma ListedIsRead(pairs: seq<(UserKey, Bytes)>, es: seq<Entry>, s: nat, user: UserKey, v: Bytes)
    requires Sorted(es) && ListsUpTo(pairs, es, s, |es|)
    ensures (user, v) in pairs <==> ReadsAs(Elements(es), user, s, Some(v))
  {
    YieldedIsRead(es, s, user, v);
    hide ReadsAs, Sorted;
    if (user, v) in pairs {
      var k :| 0 <= k < |pairs| && pairs[k] == (user, v);
      assert ShownBefore(es, s, |es|, pairs[k].0, pairs[k].1);
    }
    if i :| Yields(es, s, i) && es[i].key.user == user && es[i].value == v {
      assert (es[i].key.user, es[i].value) in pairs;
    }
  }

  lemma ListedAscend(pairs: seq<(UserKey, Bytes)>, es: seq<Entry>, s: nat)
    requires ListsUpTo(pairs, es, s, |es|)
    ensures KeysAscend(pairs)
  {
  }
}
