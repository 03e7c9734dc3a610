/** MakeInputIterator (db/version_set.cc): one child per level-0 input, one concatenating child for
    each sorted level, run through a merging iterator. */
module CompactionMerge {
  import opened Keys
  import opened Versions
  import opened CompactionInputs
  import opened CompactionPick
  import opened CompactionReads
  import opened Iterators
  import opened Merger

  // e's key differs from every key of es.
  ghost predicate NewKey(es: seq<Entry>, e: Entry) {
    forall i :: 0 <= i < |es| ==> es[i].key.user != e.key.user || es[i].key.Tag() != e.key.Tag()
  }

  // The sorted sequence with one more entry (the skip list insertion of a memtable).
  function Inserted(es: seq<Entry>, e: Entry): (r: seq<Entry>)
    requires Sorted(es) && NewKey(es, e)
    ensures Sorted(r) && Elements(r) == Elements(es) + {e}
  {
    if es == [] then [e]
    else if e.key.Before(es[0].key) then
      SortedCons(e, es);
      [e] + es
    else
      var t := Inserted(es[1..], e);
      BeforeInserted(es, e, t);
      SortedCons(es[0], t);
      [es[0]] + t
  }

  lemma SortedCons(e: Entry, es: seq<Entry>)
    requires Sorted(es) && (es != [] ==> e.key.Before(es[0].key))
    ensures Sorted([e] + es) && Elements([e] + es) == {e} + Elements(es)
  {
    var r := [e] + es;
    forall i, j | 0 <= i < j < |r| ensures r[i].key.Before(r[j].key) {
      SortedAt(es, 0, j - 1);
      SortedAt(es, i - 1, j - 1);
    }
  }

  lemma BeforeInserted(es: seq<Entry>, e: Entry, t: seq<Entry>)
    requires Sorted(es) && es != [] && NewKey(es, e) && !e.key.Before(es[0].key)
    requires Elements(t) == Elements(es[1..]) + {e}
    ensures t != [] ==> es[0].key.Before(t[0].key)
    ensures Elements(es) == Elements(es[1..]) + {es[0]}
  {
    if t != [] {
      assert t[0] in Elements(t);
      if t[0] != e {
        var k :| 0 <= k < |es| - 1 && es[1..][k] == t[0];
        SortedAt(es, 0, k + 1);
      }
    }
  }

  ghost predicate KeysDistinct(all: set<Entry>) {
    forall x, y :: x in all && y in all && x.key.user == y.key.user && x.key.Tag() == y.key.Tag() ==> x == y
  }

  ghost function SortedOf(all: set<Entry>): (r: seq<Entry>)
    requires KeysDistinct(all)
    ensures Sorted(r) && Elements(r) == all
  {
    if all == {} then []
    else
      var e :| e in all;
      var rest := SortedOf(all - {e});
      forall i | 0 <= i < |rest| ensures rest[i].key.user != e.key.user || rest[i].key.Tag() != e.key.Tag() {
        assert rest[i] in Elements(rest);
      }
      assert all == all - {e} + {e};
      Inserted(rest, e)
  }

  // Two entries with the same user key and tag are the same entry of the same file.
  lemma SameFileSameEntry(files: seq<File>, sorted: bool, f: File, g: File, x: Entry, y: Entry)
    requires ValidFiles(files) && (if sorted then SortedLevel(files) else NewestByNumber(files))
    requires f in files && g in files && x in f.entries && y in g.entries
    requires x.key.user == y.key.user && x.key.Tag() == y.key.Tag()
    ensures f == g && x == y
  {
    var i :| 0 <= i < |files| && files[i] == f;
    var j :| 0 <= j < |files| && files[j] == g;
    if i == j {
      var p :| 0 <= p < |f.entries| && f.entries[p] == x;
      var q :| 0 <= q < |f.entries| && f.entries[q] == y;
      SortedAt(f.entries, p, q);
      SortedAt(f.entries, q, p);
    } else if sorted {
      DifferentFilesDiffer(files, i, j, x, y);
    } else {
      DifferentNumbersDiffer(files, i, j, x, y);
    }
  }

  lemma DifferentFilesDiffer(files: seq<File>, i: nat, j: nat, x: Entry, y: Entry)
    requires ValidFiles(files) && SortedLevel(files) && i < |files| && j < |files| && i != j
    requires x in files[i].entries && y in files[j].entries
    ensures x.key.user != y.key.user || x.key.Tag() != y.key.Tag()
  {
    EntryInRange(files[i], x);
    EntryInRange(files[j], y);
    FilesInOrder(files, if i < j then i else j, if i < j then j else i);
  }

  lemma DifferentNumbersDiffer(files: seq<File>, i: nat, j: nat, x: Entry, y: Entry)
    requires NewestByNumber(files) && i < |files| && j < |files| && i != j
    requires x in files[i].entries && y in files[j].entries
    ensures x.key.user != y.key.user || x.key.Tag() != y.key.Tag()
  {
    assert x in Elements(files[i].entries) && y in Elements(files[j].entries);
  }

  lemma InputsDistinct(levels: seq<seq<File>>, l: nat, in0: seq<File>, in1: seq<File>)
    requires Ordered(levels) && l + 1 < kNumLevels && GoodInputs(levels, l, in0, in1)
    ensures KeysDistinct(Stored(in0) + Stored(in1))
  {
    InputsStored(levels, l, in0, in1);
    LevelsNewer(levels, l);
    hide Ordered, GoodInputs, Stored;
    forall x, y | x in Stored(in0) + Stored(in1) && y in Stored(in0) + Stored(in1)
                  && x.key.user == y.key.user && x.key.Tag() == y.key.Tag()
      ensures x == y
    {
      if x in Stored(levels[l]) && y in Stored(levels[l]) {
        SameLevelSame(levels, l, x, y);
      } else if x in Stored(levels[l + 1]) && y in Stored(levels[l + 1]) {
        SameLevelSame(levels, l + 1, x, y);
      }
    }
  }

  lemma LevelsNewer(levels: seq<seq<File>>, l: nat)
    requires Ordered(levels) && l + 1 < kNumLevels
    ensures |levels| == kNumLevels && Newer(Stored(levels[l]), Stored(levels[l + 1]))
  {
  }

  lemma SameLevelSame(levels: seq<seq<File>>, m: nat, x: Entry, y: Entry)
    requires Ordered(levels) && m < kNumLevels && x in Stored(levels[m]) && y in Stored(levels[m])
    requires x.key.user == y.key.user && x.key.Tag() == y.key.Tag()
    ensures x == y
  {
    var f :| f in levels[m] && x in f.entries;
    var g :| g in levels[m] && y in g.entries;
    SameFileSameEntry(levels[m], m > 0, f, g, x, y);
  }

  // The runs handed to the merging iterator.
  ghost predicate InputRuns(runs: seq<seq<Entry>>, all: set<Entry>) {
    && (forall i :: 0 <= i < |runs| ==> Sorted(runs[i]) && Elements(runs[i]) <= all)
    && (forall e :: e in all ==> exists i :: 0 <= i < |runs| && e in runs[i])
    && (forall i, j, e :: 0 <= i < |runs| && 0 <= j < |runs| && i != j && e in runs[i] ==> e !in runs[j])
  }

  method MakeChildren(runs: seq<seq<Entry>>) returns (children: seq<Cursor>)
    ensures |children| == |runs| && fresh(children)
    ensures forall j :: 0 <= j < |runs| ==> children[j].entries == runs[j]
    ensures forall j, k :: 0 <= j < k < |runs| ==> children[j] != children[k]
  {
    children := [];
    for i := 0 to |runs|
      invariant |children| == i && fresh(children)
      invariant forall j :: 0 <= j < i ==> children[j].entries == runs[j]
      invariant forall j, k :: 0 <= j < k < i ==> children[j] != children[k]
    {
      var c := new Cursor(runs[i]);
      children := children + [c];
    }
  }

  method Take(it: MergingIterator) returns (e: Entry)
    requires it.Valid() && it.current >= 0
    modifies it, it.children
    ensures it.Valid() && old(it.Pos()) < |it.merged| && it.Pos() == old(it.Pos()) + 1
    ensures e == it.merged[old(it.Pos())]
  {
    e := it.Current();
    it.Next();
  }

  lemma CurrentInRange(it: MergingIterator)
    requires it.Valid()
    ensures it.current >= -1
  {
  }

  // for (it->SeekToFirst(); it->Valid(); it->Next())
  method Drain(it: MergingIterator) returns (input: seq<Entry>)
    requires it.Valid()
    modifies it, it.children
    ensures input == it.merged
  {
    hide MergingIterator.Valid;
    it.SeekToFirst();
    input := [];
    while it.current != -1
      invariant it.Valid() && input == it.merged[..it.Pos()]
      decreases |it.merged| - it.Pos()
    {
      CurrentInRange(it);
      var e := Take(it);
      input := input + [e];
    }
  }

  // A run through the merging iterator of the given runs.
  method MergeRuns(runs: seq<seq<Entry>>, ghost all: set<Entry>) returns (input: seq<Entry>)
    requires KeysDistinct(all) && InputRuns(runs, all)
    ensures Sorted(input) && Elements(input) == all
  {
    ghost var merged := SortedOf(all);
    RunsWithin(runs, all, merged);
    var children := MakeChildren(runs);
    ChildrenOfRuns(children, runs, all, merged);
    var it := new MergingIterator(children, merged);
    input := Drain(it);
  }

  lemma ChildrenOfRuns(children: seq<Cursor>, runs: seq<seq<Entry>>, all: set<Entry>, merged: seq<Entry>)
    requires InputRuns(runs, all) && IsUnion(merged, runs) && |children| == |runs|
    requires forall i :: 0 <= i < |runs| ==> Iterators.Within(runs[i], merged)
    requires forall j :: 0 <= j < |runs| ==> children[j].entries == runs[j]
    requires forall j, k :: 0 <= j < k < |runs| ==> children[j] != children[k]
    ensures Children(children, merged)
  {
    assert Runs(children) == runs;
  }

  lemma RunsWithin(runs: seq<seq<Entry>>, all: set<Entry>, merged: seq<Entry>)
    requires InputRuns(runs, all) && Sorted(merged) && Elements(merged) == all
    ensures IsUnion(merged, runs)
    ensures forall i :: 0 <= i < |runs| ==> Iterators.Within(runs[i], merged)
  {
    forall i, e | 0 <= i < |runs| && e in runs[i] ensures e in merged {
      assert e in Elements(runs[i]) && e in Elements(merged);
    }
    forall e | e in merged ensures exists i :: 0 <= i < |runs| && e in runs[i] {
      assert e in Elements(merged);
    }
  }

  // The concatenation of a sorted level's files.
  method Concatenated(files: seq<File>) returns (es: seq<Entry>)
    requires ValidFiles(files) && SortedLevel(files)
    ensures Sorted(es) && Elements(es) == Stored(files)
  {
    es := [];
    for n := 0 to |files|
      invariant Sorted(es) && Elements(es) == Stored(files[..n])
      invariant forall e :: e in es && n < |files| ==> e.key.Before(files[n].Smallest())
    {
      ConcatStep(files, n, es);
      es := es + files[n].entries;
    }
    assert files[..|files|] == files;
  }

  lemma ConcatStep(files: seq<File>, n: nat, es: seq<Entry>)
    requires ValidFiles(files) && SortedLevel(files) && n < |files|
    requires Sorted(es) && Elements(es) == Stored(files[..n])
    requires forall e :: e in es ==> e.key.Before(files[n].Smallest())
    ensures var r := es + files[n].entries;
            && Sorted(r) && Elements(r) == Stored(files[..n + 1])
            && forall e :: e in r && n + 1 < |files| ==> e.key.Before(files[n + 1].Smallest())
  {
    var f := files[n];
    var r := es + f.entries;
    forall i, j | 0 <= i < j < |r| ensures r[i].key.Before(r[j].key) {
      if i < |es| && j >= |es| {
        assert r[i] in es;
        EntryInRange(f, r[j]);
      }
    }
    assert files[..n + 1] == files[..n] + [f];
    assert Elements(r) == Elements(es) + Elements(f.entries);
    assert Stored(files[..n + 1]) == Stored(files[..n]) + Elements(f.entries);
    if n + 1 < |files| {
      forall e | e in r ensures e.key.Before(files[n + 1].Smallest()) {
        FilesInOrder(files, n, n + 1);
        if e in f.entries { EntryInRange(f, e); } else { EntryInRange(f, f.entries[0]); }
      }
    }
  }

  // The runs of the input level: its files one by one on level 0, else their concatenation.
  method LevelRuns(levels: seq<seq<File>>, l: nat, in0: seq<File>, in1: seq<File>) returns (runs: seq<seq<Entry>>)
    requires Ordered(levels) && l + 1 < kNumLevels && GoodInputs(levels, l, in0, in1)
    ensures InputRuns(runs, Stored(in0))
  {
    if l == 0 {
      runs := seq(|in0|, i requires 0 <= i < |in0| => in0[i].entries);
      forall i, j, e | 0 <= i < |runs| && 0 <= j < |runs| && i != j && e in runs[i] ensures e !in runs[j] {
        NotShared(levels[0], in0, i, j, e);
      }
      forall e | e in Stored(in0) ensures exists i :: 0 <= i < |runs| && e in runs[i] {
        var i :| 0 <= i < |in0| && e in in0[i].entries;
        assert e in runs[i];
      }
    } else {
      RunIsSorted(levels[l], in0);
      var es := Concatenated(in0);
      runs := [es];
      forall e | e in Stored(in0) ensures e in runs[0] { assert e in Elements(es); }
    }
  }

  lemma NotShared(files: seq<File>, chosen: seq<File>, i: nat, j: nat, e: Entry)
    requires ValidFiles(files) && NewestByNumber(files) && NoRepeats(chosen)
    requires forall f :: f in chosen ==> f in files
    requires i < |chosen| && j < |chosen| && i != j && e in chosen[i].entries
    ensures e !in chosen[j].entries
  {
    if e in chosen[j].entries { SameFileSameEntry(files, false, chosen[i], chosen[j], e, e); }
    assert chosen[i] != chosen[j];
  }

  lemma RunIsSorted(files: seq<File>, part: seq<File>)
    requires ValidFiles(files) && SortedLevel(files) && IsRun(files, part)
    ensures ValidFiles(part) && SortedLevel(part)
  {
    var lo: nat :| RunAt(files, lo, part);
    assert forall i :: 0 <= i < |part| ==> part[i] == files[lo + i];
  }

  // MakeInputIterator, run from its first to its last entry.
  method CompactionInput(levels: seq<seq<File>>, l: nat, in0: seq<File>, in1: seq<File>) returns (input: seq<Entry>)
    requires Ordered(levels) && l + 1 < kNumLevels && GoodInputs(levels, l, in0, in1)
    ensures Sorted(input) && AllParse(input) && Elements(input) == Stored(in0) + Stored(in1)
  {
    var runs := LevelRuns(levels, l, in0, in1);
    InputsDistinct(levels, l, in0, in1);
    ghost var all := Stored(in0) + Stored(in1);
    if in1 == [] {
      assert Stored(in1) == {};
      assert all == Stored(in0);
    } else {
      OneDown(levels, l);
      RunIsSorted(levels[l + 1], in1);
      var es := Concatenated(in1);
      AddRun(levels, l, in0, in1, runs, es);
      runs := runs + [es];
    }
    input := MergeRuns(runs, all);
    StoredParse(in0);
    StoredParse(in1);
    assert forall i :: 0 <= i < |input| ==> input[i] in Elements(input);
  }

  lemma StoredParse(files: seq<File>)
    requires ValidFiles(files)
    ensures forall e :: e in Stored(files) ==> e.Parses()
  {
    forall e | e in Stored(files) ensures e.Parses() {
      var i :| 0 <= i < |files| && e in files[i].entries;
    }
  }

  lemma AddRun(levels: seq<seq<File>>, l: nat, in0: seq<File>, in1: seq<File>, runs: seq<seq<Entry>>, es: seq<Entry>)
    requires Ordered(levels) && l + 1 < kNumLevels && GoodInputs(levels, l, in0, in1)
    requires InputRuns(runs, Stored(in0)) && Sorted(es) && Elements(es) == Stored(in1)
    ensures InputRuns(runs + [es], Stored(in0) + Stored(in1))
  {
    var all := runs + [es];
    InputsStored(levels, l, in0, in1);
    assert Newer(Stored(levels[l]), Stored(levels[l + 1]));
    assert forall e :: e in Stored(in0) ==> e !in Stored(in1);
    assert forall e :: e in es <==> e in Elements(es);
    forall i, e | 0 <= i < |runs| && e in runs[i] ensures e in Stored(in0) { assert e in Elements(runs[i]); }
    forall e | e in Stored(in0) + Stored(in1) ensures exists i :: 0 <= i < |all| && e in all[i] {
      if e in Stored(in0) {
        var i :| 0 <= i < |runs| && e in runs[i];
        assert e in all[i];
      } else {
        assert e in all[|runs|];
      }
    }
  }
}
