/** The merge loop of a compaction: DBImpl::DoCompactionWork (db/db_impl.cc) with
    Compaction::IsBaseLevelForKey and ShouldStopBefore (db/version_set.cc). */
module CompactionWork {
  import opened Keys
  import opened Versions

  ghost predicate Covers(f: File, user: UserKey)
    requires f.Valid()
  {
    f.Smallest().user <= user <= f.Largest().user
  }

  // No file two or more levels down has `user` in its range.
  ghost predicate BaseLevel(levels: seq<seq<File>>, l: nat, user: UserKey)
    requires Ordered(levels)
  {
    forall m, i :: l + 2 <= m < kNumLevels && 0 <= i < |levels[m]| ==> !Covers(levels[m][i], user)
  }

  // Rule (A): the entry before it has the same user key and is itself visible to every snapshot.
  predicate Hidden(input: seq<Entry>, i: nat, smallest: nat)
    requires i < |input|
  {
    && i > 0 && input[i].Parses() && input[i - 1].Parses()
    && input[i - 1].key.user == input[i].key.user
    && input[i - 1].key.sequence <= smallest
  }

  // The deletion marker rule.
  ghost predicate ObsoleteMarker(levels: seq<seq<File>>, l: nat, e: Entry, smallest: nat)
    requires Ordered(levels)
  {
    e.key.kind == kTypeDeletion && e.key.sequence <= smallest && BaseLevel(levels, l, e.key.user)
  }

  ghost predicate Drops(levels: seq<seq<File>>, l: nat, input: seq<Entry>, i: nat, smallest: nat)
    requires Ordered(levels) && i < |input|
  {
    Hidden(input, i, smallest) || ObsoleteMarker(levels, l, input[i], smallest)
  }

  // The entries among the first n of the input that survive, in order.
  ghost function Kept(levels: seq<seq<File>>, l: nat, input: seq<Entry>, n: nat, smallest: nat): seq<Entry>
    requires Ordered(levels) && n <= |input|
  {
    if n == 0 then []
    else Kept(levels, l, input, n - 1, smallest)
         + if Drops(levels, l, input, n - 1, smallest) then [] else [input[n - 1]]
  }

  ghost function Flatten(files: seq<File>): seq<Entry> {
    if files == [] then [] else Flatten(files[..|files| - 1]) + files[|files| - 1].entries
  }

  class Compaction {
    const level: nat
    const levels: seq<seq<File>>                 // files of input_version_
    const grandparents: seq<File>
    const maxGrandparentOverlap: nat
    const maxOutputFileSize: nat
    const tableSize: seq<Entry> -> nat           // bytes written for a table of these entries
    const levelPtrs: array<nat>
    var grandparentIndex: nat
    var seenKey: bool
    var overlappedBytes: nat

    constructor (level: nat, levels: seq<seq<File>>, grandparents: seq<File>,
                 maxGrandparentOverlap: nat, maxOutputFileSize: nat, tableSize: seq<Entry> -> nat)
      requires Ordered(levels) && level + 1 < kNumLevels && ValidFiles(grandparents)
      ensures Valid() && fresh(levelPtrs)
      ensures this.level == level && this.levels == levels && this.maxOutputFileSize == maxOutputFileSize
      ensures this.tableSize == tableSize && this.grandparents == grandparents && this.maxGrandparentOverlap == maxGrandparentOverlap
      ensures grandparentIndex == overlappedBytes == 0 && !seenKey
      ensures forall m :: 0 <= m < kNumLevels ==> levelPtrs[m] == 0
    {
      this.level, this.levels, this.grandparents := level, levels, grandparents;
      this.maxGrandparentOverlap, this.maxOutputFileSize := maxGrandparentOverlap, maxOutputFileSize;
      this.tableSize := tableSize;
      levelPtrs := new nat[kNumLevels](_ => 0);
      grandparentIndex, seenKey, overlappedBytes := 0, false, 0;
    }

    ghost predicate Valid()
      reads this, levelPtrs
    {
      && Ordered(levels) && level + 1 < kNumLevels && ValidFiles(grandparents)
      && levelPtrs.Length == kNumLevels
      && (forall m :: 0 <= m < kNumLevels ==> levelPtrs[m] <= |levels[m]|)
      && grandparentIndex <= |grandparents|
    }

    // Everything the level pointers have skipped ends before `user`.
    ghost predicate PtrsBehind(user: UserKey)
      reads this, levelPtrs
    {
      Valid() && forall m, i :: level + 2 <= m < kNumLevels && 0 <= i < levelPtrs[m] ==>
                   levels[m][i].Largest().user < user
    }

    // The pointers only move forward: the calls come in user key order.
    method IsBaseLevelForKey(user: UserKey) returns (base: bool)
      requires PtrsBehind(user)
      modifies levelPtrs
      ensures PtrsBehind(user)
      ensures base == BaseLevel(levels, level, user)
    {
      for lvl := level + 2 to kNumLevels
        invariant PtrsBehind(user)
        invariant forall m, i :: level + 2 <= m < lvl && 0 <= i < |levels[m]| ==> !Covers(levels[m][i], user)
      {
        base := AdvanceLevel(user, lvl);
        if !base { return; }
      }
      base := true;
    }

    // One level of IsBaseLevelForKey: false when the key falls in the range of some file.
    method AdvanceLevel(user: UserKey, lvl: nat) returns (clear: bool)
      requires PtrsBehind(user) && level + 2 <= lvl < kNumLevels
      modifies levelPtrs
      ensures PtrsBehind(user)
      ensures clear == forall i :: 0 <= i < |levels[lvl]| ==> !Covers(levels[lvl][i], user)
    {
      var files := levels[lvl];
      while levelPtrs[lvl] < |files|
        invariant PtrsBehind(user)
        decreases |files| - levelPtrs[lvl]
      {
        var f := files[levelPtrs[lvl]];
        if user <= f.Largest().user {
          if user >= f.Smallest().user {
            assert Covers(levels[lvl][levelPtrs[lvl]], user);
            return false;
          }
          RestIsPast(files, levelPtrs[lvl], user);
          return true;
        }
        levelPtrs[lvl] := levelPtrs[lvl] + 1;
      }
      clear := true;
    }

    // ShouldStopBefore: close the output file when it overlaps too much of level + 2.
    method ShouldStopBefore(key: InternalKey) returns (stop: bool)
      requires Valid()
      modifies this`grandparentIndex, this`seenKey, this`overlappedBytes
      ensures Valid() && seenKey && grandparentIndex == Passed(grandparents, key, old(grandparentIndex))
      ensures var total := old(overlappedBytes) + if old(seenKey) then BytesOf(grandparents, old(grandparentIndex), grandparentIndex) else 0;
              stop == (total > maxGrandparentOverlap) && overlappedBytes == if stop then 0 else total
    {
      while grandparentIndex < |grandparents| && grandparents[grandparentIndex].Largest().Before(key)
        invariant old(grandparentIndex) <= grandparentIndex <= |grandparents| && seenKey == old(seenKey)
        invariant Passed(grandparents, key, grandparentIndex) == Passed(grandparents, key, old(grandparentIndex))
        invariant overlappedBytes == old(overlappedBytes) + if seenKey then BytesOf(grandparents, old(grandparentIndex), grandparentIndex) else 0
        decreases |grandparents| - grandparentIndex
      {
        if seenKey { overlappedBytes := overlappedBytes + grandparents[grandparentIndex].size; }
        grandparentIndex := grandparentIndex + 1;
      }
      seenKey := true;
      stop := overlappedBytes > maxGrandparentOverlap;
      if stop { overlappedBytes := 0; }
    }
  }

  // From file `from` on, the first that does not end before the key.
  ghost function Passed(files: seq<File>, key: InternalKey, from: nat): (i: nat)
    requires ValidFiles(files) && from <= |files|
    ensures from <= i <= |files| && (forall k :: from <= k < i ==> files[k].Largest().Before(key))
    ensures i < |files| ==> !files[i].Largest().Before(key)
    decreases |files| - from
  {
    if from < |files| && files[from].Largest().Before(key) then Passed(files, key, from + 1) else from
  }

  // The bytes of files lo .. hi - 1.
  ghost function BytesOf(files: seq<File>, lo: nat, hi: nat): nat
    requires lo <= hi <= |files|
  {
    if lo == hi then 0 else BytesOf(files, lo, hi - 1) + files[hi - 1].size
  }

  lemma {:induction false} BytesJoin(files: seq<File>, lo: nat, mid: nat, hi: nat)
    requires lo <= mid <= hi <= |files|
    ensures BytesOf(files, lo, mid) + BytesOf(files, mid, hi) == BytesOf(files, lo, hi)
  {
    if mid < hi { BytesJoin(files, lo, mid, hi - 1); }
  }

  lemma RestIsPast(files: seq<File>, p: nat, user: UserKey)
    requires ValidFiles(files) && SortedLevel(files) && p < |files|
    requires user < files[p].Smallest().user
    requires forall i :: 0 <= i < p ==> files[i].Largest().user < user
    ensures forall i :: 0 <= i < |files| ==> !Covers(files[i], user)
  {
    forall i | 0 <= i < |files| ensures !Covers(files[i], user) {
      if i > p { LargestsAscend(files, p, i); }
    }
  }

  // current_user_key and last_sequence_for_key after the first n entries.
  datatype KeyState = KeyState(user: Option<UserKey>, lastSequence: nat)

  function StateAfter(input: seq<Entry>, n: nat): KeyState
    requires n <= |input|
  {
    if n > 0 && input[n - 1].Parses()
    then KeyState(Some(input[n - 1].key.user), input[n - 1].key.sequence)
    else KeyState(None, kMaxSequenceNumber)
  }

  // The drop decision for one entry.
  method DecideDrop(c: Compaction, input: seq<Entry>, n: nat, smallest: nat, st: KeyState)
    returns (drop: bool, st': KeyState)
    requires n < |input| && c.PtrsBehind(input[n].key.user) && smallest < kMaxSequenceNumber
    requires st == StateAfter(input, n)
    modifies c.levelPtrs
    ensures c.PtrsBehind(input[n].key.user)
    ensures drop == Drops(c.levels, c.level, input, n, smallest)
    ensures st' == StateAfter(input, n + 1)
  {
    var e := input[n];
    drop := false;
    if !e.Parses() { return false, KeyState(None, kMaxSequenceNumber); }   // do not hide error keys
    var last := if st.user != Some(e.key.user) then kMaxSequenceNumber else st.lastSequence;
    if last <= smallest {
      drop := true;                               // hidden by a newer entry for the same user key
    } else if e.key.kind == kTypeDeletion && e.key.sequence <= smallest {
      drop := c.IsBaseLevelForKey(e.key.user);
    }
    st' := KeyState(Some(e.key.user), e.key.sequence);
  }

  ghost predicate Numbered(outputs: seq<File>, firstNumber: nat) {
    forall i :: 0 <= i < |outputs| ==> outputs[i].entries != [] && outputs[i].number == firstNumber + i
  }

  // An output file holds what its table takes, and was below the size limit until its last entry.
  ghost predicate Sized(f: File, tableSize: seq<Entry> -> nat, maxSize: nat) {
    f.size == tableSize(f.entries) && BelowUntilLast(f.entries, tableSize, maxSize)
  }

  ghost predicate BelowUntilLast(es: seq<Entry>, tableSize: seq<Entry> -> nat, maxSize: nat) {
    forall n :: 0 < n < |es| ==> tableSize(es[..n]) < maxSize
  }

  lemma BelowOneMore(es: seq<Entry>, e: Entry, tableSize: seq<Entry> -> nat, maxSize: nat)
    requires BelowUntilLast(es, tableSize, maxSize) && (es == [] || tableSize(es) < maxSize)
    ensures BelowUntilLast(es + [e], tableSize, maxSize)
  {
    forall n | 0 < n < |es + [e]| ensures tableSize((es + [e])[..n]) < maxSize {
      assert (es + [e])[..n] == es[..n] && es[..|es|] == es;
    }
  }

  // The finished output files and the entries of the open one.
  datatype Outputs = Outputs(files: seq<File>, building: seq<Entry>) {
    ghost function Written(): seq<Entry> { Flatten(files) + building }

    ghost predicate Filling(tableSize: seq<Entry> -> nat, maxSize: nat) {
      (forall i :: 0 <= i < |files| ==> Sized(files[i], tableSize, maxSize)) && BelowUntilLast(building, tableSize, maxSize)
    }

    // ... and the open file has room.
    ghost predicate Fits(tableSize: seq<Entry> -> nat, maxSize: nat) {
      Filling(tableSize, maxSize) && (building != [] ==> tableSize(building) < maxSize)
    }

    // FinishCompactionOutputFile, when a file is open.
    function Finish(firstNumber: nat, tableSize: seq<Entry> -> nat): (r: Outputs)
      ensures r.building == [] && r.Written() == Written()
      ensures Numbered(files, firstNumber) ==> Numbered(r.files, firstNumber)
      ensures forall maxSize :: Filling(tableSize, maxSize) ==> r.Fits(tableSize, maxSize)
      ensures building == [] ==> r == this
      ensures building != [] ==> |r.files| == |files| + 1 && r.files[..|files|] == files && r.files[|files|] == File(firstNumber + |files|, tableSize(building), building)
    {
      if building == [] then this
      else
        var r := FinishOutput(files, building, firstNumber, tableSize(building));
        assert forall i :: 0 <= i < |files| ==> r[i] == r[..|files|][i];
        Outputs(r, [])
    }

    // TableBuilder::Add, then close the file if it is big enough.
    function Add(e: Entry, firstNumber: nat, tableSize: seq<Entry> -> nat, maxSize: nat): (r: Outputs)
      ensures r.Written() == Written() + [e]
      ensures Numbered(files, firstNumber) ==> Numbered(r.files, firstNumber)
      ensures Fits(tableSize, maxSize) ==> r.Fits(tableSize, maxSize)
    {
      var r := Outputs(files, building + [e]);
      assert r.Written() == Written() + [e];
      assert Fits(tableSize, maxSize) ==> BelowUntilLast(r.building, tableSize, maxSize) by {
        if Fits(tableSize, maxSize) { BelowOneMore(building, e, tableSize, maxSize); }
      }
      if tableSize(r.building) >= maxSize then r.Finish(firstNumber, tableSize) else r
    }
  }

  // What the merge loop is given.
  datatype Work = Work(levels: seq<seq<File>>, l: nat, input: seq<Entry>, smallest: nat, grandparents: seq<File>, maxOverlap: nat,
                       tableSize: seq<Entry> -> nat, maxSize: nat)
  {
    ghost predicate Valid() { Ordered(levels) && ValidFiles(grandparents) }

    // The grandparents that end before one of the first n entries.
    ghost function EndedBy(n: nat): (i: nat)
      requires Valid() && n <= |input|
      ensures i <= |grandparents|
    {
      if n == 0 then 0 else Passed(grandparents, input[n - 1].key, EndedBy(n - 1))
    }

    // Their bytes are counted from here on: from the first entry, and again from every stop.
    ghost function CountedFrom(n: nat): (i: nat)
      requires Valid() && n <= |input|
      ensures i <= EndedBy(n)
      decreases n, 0
    {
      if n == 0 then 0 else if n == 1 || Stops(n - 1) then EndedBy(n) else CountedFrom(n - 1)
    }

    // An output open before the n-th entry is closed there: the bytes are too many.
    ghost predicate Stops(n: nat)
      requires Valid() && n < |input|
      decreases n, 1
    {
      n > 0 && BytesOf(grandparents, CountedFrom(n), EndedBy(n + 1)) > maxOverlap
    }

    lemma CountStep(n: nat)
      requires Valid() && n < |input|
      ensures EndedBy(n) <= EndedBy(n + 1) == Passed(grandparents, input[n].key, EndedBy(n))
      ensures var total := BytesOf(grandparents, CountedFrom(n), EndedBy(n)) + if n > 0 then BytesOf(grandparents, EndedBy(n), EndedBy(n + 1)) else 0;
              Stops(n) == (total > maxOverlap) && BytesOf(grandparents, CountedFrom(n + 1), EndedBy(n + 1)) == if Stops(n) then 0 else total
    {
      BytesJoin(grandparents, CountedFrom(n), EndedBy(n), EndedBy(n + 1));
    }

    // The survivors of the entries lo .. hi - 1.
    ghost function KeptFrom(lo: nat, hi: nat): seq<Entry>
      requires Valid() && hi <= |input|
    {
      if hi <= lo then [] else KeptFrom(lo, hi - 1) + if Drops(levels, l, input, hi - 1, smallest) then [] else [input[hi - 1]]
    }

    // No stop once there is a survivor.
    ghost predicate Unstopped(lo: nat, hi: nat)
      requires Valid() && hi <= |input|
    {
      forall n :: lo < n < hi && KeptFrom(lo, n) != [] ==> !Stops(n)
    }

    ghost predicate IsOutput(lo: nat, hi: nat, f: File)
      requires Valid()
    {
      lo <= hi <= |input| && f.entries == KeptFrom(lo, hi) && Unstopped(lo, hi)
    }

    // An output is closed when it is full or at a stop.
    ghost predicate ClosedAt(hi: nat, f: File)
      requires Valid()
    {
      f.size >= maxSize || (hi < |input| && Stops(hi))
    }

    // Output i holds the survivors from ends[i] to ends[i + 1].
    ghost predicate Cut(files: seq<File>, ends: seq<nat>)
      requires Valid()
    {
      && |ends| == |files| + 1 && ends[0] == 0 && ends[|files|] <= |input|
      && forall i :: 0 <= i < |files| ==> IsOutput(ends[i], ends[i + 1], files[i]) && ClosedAt(ends[i + 1], files[i])
    }

    // ... and the last one is closed at the end of the input.
    ghost predicate Outputs(files: seq<File>)
      requires Valid()
    {
      exists ends :: OutputsAt(files, ends)
    }

    ghost predicate OutputsAt(files: seq<File>, ends: seq<nat>)
      requires Valid()
    {
      && |ends| == |files| + 1 && ends[0] == 0
      && forall i :: 0 <= i < |files| ==> IsOutput(ends[i], ends[i + 1], files[i]) && (ClosedAt(ends[i + 1], files[i]) || i + 1 == |files|)
    }

    // The first n entries are through: `building` is in the open output.
    ghost predicate Through(n: nat, files: seq<File>, building: seq<Entry>, ends: seq<nat>)
      requires Valid()
    {
      && n <= |input| && Cut(files, ends) && ends[|files|] <= n
      && building == KeptFrom(ends[|files|], n) && Unstopped(ends[|files|], n)
    }

    lemma OneMoreOutput(files: seq<File>, ends: seq<nat>, hi: nat, f: File)
      requires Valid() && Cut(files, ends) && IsOutput(ends[|files|], hi, f) && ClosedAt(hi, f)
      ensures Cut(files + [f], ends + [hi])
    {
      hide IsOutput, ClosedAt;
      var files', ends' := files + [f], ends + [hi];
      forall i | 0 <= i < |files'| ensures IsOutput(ends'[i], ends'[i + 1], files'[i]) && ClosedAt(ends'[i + 1], files'[i]) {}
      assert hi <= |input| by { InInput(ends[|files|], hi, f); }
    }

    lemma InInput(lo: nat, hi: nat, f: File)
      requires Valid() && IsOutput(lo, hi, f)
      ensures hi <= |input|
    {
    }

    // At the n-th entry the open output is closed if there is one and the loop stops; what is then open takes part of
    // the entries up to and with the n-th.
    lemma PastStop(n: nat, files: seq<File>, building: seq<Entry>, ends: seq<nat>, f: File)
      requires Valid() && n < |input| && Through(n, files, building, ends) && f.entries == building
      ensures Stops(n) && building != [] ==> Through(n, files + [f], [], ends + [n]) && Unstopped(n, n + 1)
      ensures !(Stops(n) && building != []) ==> Unstopped(ends[|files|], n + 1)
      ensures |ends| == |files| + 1
    {
      hide Cut, Stops, EndedBy, CountedFrom;
      CutEnds(files, ends);
      if Stops(n) && building != [] { OneMoreOutput(files, ends, n, f); CutEnds(files + [f], ends + [n]); }
    }

    lemma CutEnds(files: seq<File>, ends: seq<nat>)
      requires Valid() && Cut(files, ends)
      ensures |ends| == |files| + 1 && ends[|files|] <= |input|
    {
    }

    // The n-th entry is dropped or added to the open output, which is then closed if it is full.
    lemma PastEntry(n: nat, files: seq<File>, building: seq<Entry>, ends: seq<nat>, f: File)
      requires Valid() && n < |input| && Through(n, files, building, ends) && Unstopped(ends[|files|], n + 1)
      requires f.entries == building + [input[n]]
      ensures Drops(levels, l, input, n, smallest) ==> Through(n + 1, files, building, ends)
      ensures !Drops(levels, l, input, n, smallest) ==> Through(n + 1, files, f.entries, ends)
      ensures !Drops(levels, l, input, n, smallest) && f.size >= maxSize ==> Through(n + 1, files + [f], [], ends + [n + 1])
    {
      hide Cut, Stops, Drops, EndedBy, CountedFrom;
      CutEnds(files, ends);
      if !Drops(levels, l, input, n, smallest) && f.size >= maxSize {
        OneMoreOutput(files, ends, n + 1, f);
        CutEnds(files + [f], ends + [n + 1]);
      }
    }

    lemma Starts()
      requires Valid()
      ensures Through(0, [], [], [0])
    {
    }

    lemma Ends(files: seq<File>, building: seq<Entry>, ends: seq<nat>, outputs: seq<File>)
      requires Valid() && Through(|input|, files, building, ends)
      requires if building == [] then outputs == files else |outputs| == |files| + 1 && outputs[..|files|] == files && outputs[|files|].entries == building
      ensures Outputs(outputs)
    {
      hide IsOutput, ClosedAt;
      if building == [] {
        assert OutputsAt(outputs, ends);
      } else {
        var ends' := ends + [|input|];
        assert IsOutput(ends[|files|], |input|, outputs[|files|]) by { LastOutput(files, building, ends, outputs[|files|]); }
        forall i | 0 <= i < |outputs| ensures IsOutput(ends'[i], ends'[i + 1], outputs[i]) && (ClosedAt(ends'[i + 1], outputs[i]) || i + 1 == |outputs|) {
          if i < |files| { assert outputs[i] == outputs[..|files|][i]; }
        }
        assert OutputsAt(outputs, ends');
      }
    }

    lemma LastOutput(files: seq<File>, building: seq<Entry>, ends: seq<nat>, f: File)
      requires Valid() && Through(|input|, files, building, ends) && f.entries == building
      ensures IsOutput(ends[|files|], |input|, f)
    {
      hide Cut;
    }
  }

  // ----- the cuts leave no choice -----

  lemma {:induction false} KeptSplit(w: Work, lo: nat, hi: nat)
    requires w.Valid() && lo <= hi <= |w.input|
    ensures w.KeptFrom(0, hi) == w.KeptFrom(0, lo) + w.KeptFrom(lo, hi)
    decreases hi - lo
  {
    hide Drops;
    if lo < hi {
      KeptSplit(w, lo, hi - 1);
      var e := if Drops(w.levels, w.l, w.input, hi - 1, w.smallest) then [] else [w.input[hi - 1]];
      assert w.KeptFrom(0, lo) + w.KeptFrom(lo, hi - 1) + e == w.KeptFrom(0, lo) + (w.KeptFrom(lo, hi - 1) + e);
    }
  }

  lemma {:induction false} OutputsHold(w: Work, files: seq<File>, ends: seq<nat>, k: nat)
    requires w.Valid() && w.OutputsAt(files, ends) && k <= |files|
    ensures ends[k] <= |w.input| && Flatten(files[..k]) == w.KeptFrom(0, ends[k])
  {
    hide Work.Unstopped, Work.ClosedAt, Work.KeptFrom;
    if k > 0 {
      OutputsHold(w, files, ends, k - 1);
      assert w.IsOutput(ends[k - 1], ends[k], files[k - 1]);
      KeptSplit(w, ends[k - 1], ends[k]);
      assert files[..k][..k - 1] == files[..k - 1] && files[..k][k - 1] == files[k - 1];
    } else {
      NothingKept(w);
    }
  }

  lemma NothingKept(w: Work)
    requires w.Valid()
    ensures w.KeptFrom(0, 0) == []
  {
  }

  // Output x ends inside output y, which goes on with more entries: it was not closed there.
  lemma NotClosedInside(w: Work, x: File, hi: nat, y: File, lo': nat, hi': nat)
    requires w.Valid() && w.IsOutput(lo', hi', y) && hi <= |w.input| && w.KeptFrom(0, hi) == w.KeptFrom(0, lo') + x.entries
    requires 0 < |x.entries| < |y.entries| && x.entries == y.entries[..|x.entries|]
    requires Sized(x, w.tableSize, w.maxSize) && Sized(y, w.tableSize, w.maxSize)
    ensures !w.ClosedAt(hi, x)
  {
    hide Work.Stops, Work.KeptFrom;
    KeptSplit(w, lo', hi');
    if hi <= lo' { KeptSplit(w, hi, lo'); } else { KeptSplit(w, lo', hi); }
    if hi' <= hi { KeptSplit(w, hi', hi); }
  }

  // Of two ways to cut, neither has the shorter next output.
  lemma NotShorter(w: Work, a: seq<File>, ends: seq<nat>, b: seq<File>, ends': seq<nat>, k: nat)
    requires w.Valid() && w.OutputsAt(a, ends) && w.OutputsAt(b, ends') && k < |a| && k < |b| && Flatten(a[..k]) == Flatten(b[..k])
    requires a[k].entries != [] && Sized(a[k], w.tableSize, w.maxSize) && Sized(b[k], w.tableSize, w.maxSize) && Flatten(a) == Flatten(b)
    ensures |a[k].entries| >= |b[k].entries|
  {
    hide Sized, Work.KeptFrom, Work.ClosedAt, Flatten, Work.Unstopped;
    OutputsHold(w, a, ends, k + 1);
    OutputsHold(w, b, ends', k);
    FlatPrefix(a, k);
    FlatPrefix(b, k);
    assert k + 1 == |a| ==> a[..k + 1] == a;
    if |a[k].entries| < |b[k].entries| {
      SamePrefix(Flatten(a[..k]), a[k].entries, b[k].entries, Flatten(a));
      NotClosedInside(w, a[k], ends[k + 1], b[k], ends'[k], ends'[k + 1]);
    }
  }

  lemma SamePrefix(p: seq<Entry>, x: seq<Entry>, y: seq<Entry>, all: seq<Entry>)
    requires p + x <= all && p + y <= all && |x| <= |y|
    ensures x == y[..|x|]
  {
    assert x == all[|p|..|p| + |x|] && y == all[|p|..|p| + |y|];
  }

  lemma {:induction false} FlatPrefix(files: seq<File>, k: nat)
    requires k < |files|
    ensures Flatten(files[..k + 1]) == Flatten(files[..k]) + files[k].entries <= Flatten(files)
    decreases |files| - k
  {
    assert files[..k + 1][..k] == files[..k];
    if k + 1 < |files| { FlatPrefix(files, k + 1); } else { assert files[..k + 1] == files; }
  }

  // The entries decide the outputs.
  lemma {:induction false} OutputsFrom(w: Work, a: seq<File>, ends: seq<nat>, b: seq<File>, ends': seq<nat>, first: nat, k: nat)
    requires w.Valid() && w.OutputsAt(a, ends) && w.OutputsAt(b, ends') && Flatten(a) == Flatten(b) && Numbered(a, first) && Numbered(b, first)
    requires forall i :: 0 <= i < |a| ==> Sized(a[i], w.tableSize, w.maxSize)
    requires forall i :: 0 <= i < |b| ==> Sized(b[i], w.tableSize, w.maxSize)
    requires k <= |a| && k <= |b| && a[..k] == b[..k]
    ensures a == b
    decreases |a| - k
  {
    hide Flatten, Work.OutputsAt;
    if k < |a| && k < |b| {
      NotShorter(w, a, ends, b, ends', k);
      NotShorter(w, b, ends', a, ends, k);
      FlatPrefix(a, k);
      FlatPrefix(b, k);
      SamePrefix(Flatten(a[..k]), a[k].entries, b[k].entries, Flatten(a));
      assert a[k].entries == b[k].entries && a[k] == b[k];
      assert a[..k + 1] == a[..k] + [a[k]] && b[..k + 1] == b[..k] + [b[k]];
      OutputsFrom(w, a, ends, b, ends', first, k + 1);
    } else {
      assert a[..|a|] == a && b[..|b|] == b;
      if k < |a| { FlatPrefix(a, k); }
      if k < |b| { FlatPrefix(b, k); }
    }
  }

  lemma OutputsOnce(w: Work, a: seq<File>, b: seq<File>, first: nat)
    requires w.Valid() && w.Outputs(a) && w.Outputs(b) && Flatten(a) == Flatten(b) && Numbered(a, first) && Numbered(b, first)
    requires forall i :: 0 <= i < |a| ==> Sized(a[i], w.tableSize, w.maxSize)
    requires forall i :: 0 <= i < |b| ==> Sized(b[i], w.tableSize, w.maxSize)
    ensures a == b
  {
    var ends :| w.OutputsAt(a, ends);
    var ends' :| w.OutputsAt(b, ends');
    hide Work.OutputsAt, Flatten, Sized;
    OutputsFrom(w, a, ends, b, ends', first, 0);
  }

  // What the loop's Compaction was made for.
  ghost function WorkOf(c: Compaction, input: seq<Entry>, smallest: nat): Work {
    Work(c.levels, c.level, input, smallest, c.grandparents, c.maxGrandparentOverlap, c.tableSize, c.maxOutputFileSize)
  }

  // The keys still to come are at or after the keys the level pointers have skipped, and the grandparents are
  // counted up to the n-th entry.
  ghost predicate Behind(c: Compaction, input: seq<Entry>, n: nat)
    reads c, c.levelPtrs
  {
    c.Valid() && (n < |input| ==> c.PtrsBehind(input[n].key.user))
  }

  ghost predicate Counted(c: Compaction, w: Work, n: nat)
    reads c
  {
    && w.Valid() && n <= |w.input| && c.grandparents == w.grandparents && c.maxGrandparentOverlap == w.maxOverlap
    && c.grandparentIndex == w.EndedBy(n) && (c.seenKey <==> n > 0)
    && c.overlappedBytes == BytesOf(w.grandparents, w.CountedFrom(n), w.EndedBy(n))
  }

  // The body of the merge loop.
  method MergeOne(c: Compaction, input: seq<Entry>, n: nat, smallest: nat, firstNumber: nat, out: Outputs, st: KeyState, ghost ends: seq<nat>)
    returns (out': Outputs, st': KeyState, ghost ends': seq<nat>)
    requires Sorted(input) && n < |input| && Behind(c, input, n) && smallest < kMaxSequenceNumber
    requires st == StateAfter(input, n) && Numbered(out.files, firstNumber) && out.Fits(c.tableSize, c.maxOutputFileSize)
    requires Counted(c, WorkOf(c, input, smallest), n) && WorkOf(c, input, smallest).Through(n, out.files, out.building, ends)
    modifies c, c.levelPtrs
    ensures Counted(c, WorkOf(c, input, smallest), n + 1) && WorkOf(c, input, smallest).Through(n + 1, out'.files, out'.building, ends')
    ensures Behind(c, input, n + 1) && st' == StateAfter(input, n + 1) && Numbered(out'.files, firstNumber)
    ensures out'.Fits(c.tableSize, c.maxOutputFileSize)
    ensures out'.Written() == out.Written() + if Drops(c.levels, c.level, input, n, smallest) then [] else [input[n]]
  {
    hide Drops, Compaction.PtrsBehind, Numbered, Outputs.Fits, Outputs.Written, StateAfter, Work.Through, Counted, Work.Unstopped;
    ghost var w := WorkOf(c, input, smallest);
    out', ends' := CloseIfStopped(c, input[n].key, w, n, firstNumber, out, ends);
    var drop;
    drop, st' := DecideDrop(c, input, n, smallest, st);
    w.PastEntry(n, out'.files, out'.building, ends', File(firstNumber + |out'.files|, c.tableSize(out'.building + [input[n]]), out'.building + [input[n]]));
    if !drop && c.tableSize(out'.building + [input[n]]) >= c.maxOutputFileSize { ends' := ends' + [n + 1]; }
    out' := if drop then out' else out'.Add(input[n], firstNumber, c.tableSize, c.maxOutputFileSize);
    if n + 1 < |input| { StillBehind(c, input[n].key.user, input[n + 1].key.user); }
  }

  // DoCompactionWork: `input` is the sequence the merging iterator runs through.
  method DoCompactionWork(c: Compaction, input: seq<Entry>, smallestSnapshot: nat, firstNumber: nat)
    returns (outputs: seq<File>)
    requires c.Valid() && Sorted(input)
    requires forall m :: 0 <= m < kNumLevels ==> c.levelPtrs[m] == 0
    requires smallestSnapshot < kMaxSequenceNumber && c.grandparentIndex == c.overlappedBytes == 0 && !c.seenKey
    modifies c, c.levelPtrs
    ensures Flatten(outputs) == Kept(c.levels, c.level, input, |input|, smallestSnapshot)
    ensures Numbered(outputs, firstNumber) && forall i :: 0 <= i < |outputs| ==> Sized(outputs[i], c.tableSize, c.maxOutputFileSize)
    ensures WorkOf(c, input, smallestSnapshot).Outputs(outputs)
  {
    ghost var w := WorkOf(c, input, smallestSnapshot);
    hide Work.Through, Drops, Work.Outputs;
    var out := Outputs([], []);
    var st := KeyState(None, kMaxSequenceNumber);
    var n := 0;
    ghost var ends := [0];
    w.Starts();
    while n < |input|
      invariant n <= |input| && Behind(c, input, n) && Counted(c, w, n)
      invariant out.Written() == Kept(c.levels, c.level, input, n, smallestSnapshot)
      invariant Numbered(out.files, firstNumber) && out.Fits(c.tableSize, c.maxOutputFileSize)
      invariant st == StateAfter(input, n) && w.Through(n, out.files, out.building, ends)
    {
      out, st, ends := MergeOne(c, input, n, smallestSnapshot, firstNumber, out, st, ends);
      n := n + 1;
    }
    outputs := out.Finish(firstNumber, c.tableSize).files;
    w.Ends(out.files, out.building, ends, outputs);
  }

  // The open file is closed when it overlaps too much of the grandparents.
  method CloseIfStopped(c: Compaction, key: InternalKey, ghost w: Work, ghost n: nat, firstNumber: nat, out: Outputs, ghost ends: seq<nat>)
    returns (out': Outputs, ghost ends': seq<nat>)
    requires n < |w.input| && key == w.input[n].key && c.tableSize == w.tableSize
    requires c.PtrsBehind(key.user) && Numbered(out.files, firstNumber) && out.Fits(c.tableSize, c.maxOutputFileSize)
    requires Counted(c, w, n) && w.Through(n, out.files, out.building, ends)
    modifies c
    ensures c.PtrsBehind(key.user) && Numbered(out'.files, firstNumber) && out'.Fits(c.tableSize, c.maxOutputFileSize)
    ensures Counted(c, w, n + 1) && w.Through(n, out'.files, out'.building, ends') && |ends'| == |out'.files| + 1 && w.Unstopped(ends'[|out'.files|], n + 1)
    ensures out'.Written() == out.Written()
  {
    hide Outputs.Written, Numbered, BelowUntilLast, Sized, Work.Through, Work.Unstopped, Work.Stops, Work.CountedFrom, Work.EndedBy;
    w.CountStep(n);
    w.PastStop(n, out.files, out.building, ends, File(firstNumber + |out.files|, c.tableSize(out.building), out.building));
    var stop := c.ShouldStopBefore(key);
    out' := if stop then out.Finish(firstNumber, c.tableSize) else out;
    ends' := if stop && out.building != [] then ends + [n] else ends;
  }

  lemma StillBehind(c: Compaction, user: UserKey, next: UserKey)
    requires c.PtrsBehind(user) && user <= next
    ensures c.PtrsBehind(next)
  {
  }

  // FinishCompactionOutputFile
  function FinishOutput(outputs: seq<File>, building: seq<Entry>, firstNumber: nat, size: nat): (r: seq<File>)
    ensures |r| == |outputs| + 1 && r[..|outputs|] == outputs
    ensures Flatten(r) == Flatten(outputs) + building
    ensures r[|outputs|] == File(firstNumber + |outputs|, size, building)
  {
    outputs + [File(firstNumber + |outputs|, size, building)]
  }
}
