/** From a picked file to the full input set of a compaction: PickCompaction, CompactRange and
    SetupOtherInputs of db/version_set.cc. */
module CompactionPick {
  import opened Keys
  import opened Versions
  import opened CompactionInputs

  ghost predicate IsRun(files: seq<File>, chosen: seq<File>) {
    exists lo: nat :: RunAt(files, lo, chosen)
  }

  // f lies wholly before or wholly after all inputs, and shares no user key with those of `in0`.
  ghost predicate ClearOf(f: File, in0: seq<File>, in1: seq<File>)
    requires f.entries != [] && ValidFiles(in0) && ValidFiles(in1)
  {
    || (BeforeAll(f, in0) && forall j :: 0 <= j < |in1| ==> f.Largest().Before(in1[j].Smallest()))
    || (AfterAll(f, in0) && forall j :: 0 <= j < |in1| ==> in1[j].Largest().Before(f.Smallest()))
  }

  // The files of the output level outside in1 are clear of the compaction.
  ghost predicate Apart(files: seq<File>, in0: seq<File>, in1: seq<File>)
    requires ValidFiles(files) && ValidFiles(in0) && ValidFiles(in1)
  {
    forall i :: 0 <= i < |files| && files[i] !in in1 ==> ClearOf(files[i], in0, in1)
  }

  // Nothing older than a chosen entry of the same user key stays behind.
  ghost predicate NewerStays(files: seq<File>, chosen: seq<File>) {
    forall f :: f in files && f !in chosen ==> Newer(Elements(f.entries), Stored(chosen))
  }

  lemma {:induction false} OverlappingNoRepeats(files: seq<File>, begin: Bound, end: Bound)
    requires ValidFiles(files) && NoRepeats(files)
    ensures NoRepeats(Overlapping(files, begin, end))
  {
    if files != [] {
      var init := files[..|files| - 1];
      OverlappingNoRepeats(init, begin, end);
      OverlappingIff(init, begin, end);
      forall i | 0 <= i < |Overlapping(init, begin, end)|
        ensures Overlapping(init, begin, end)[i] != files[|files| - 1]
      {
        assert Overlapping(init, begin, end)[i] in init;
      }
    }
  }

  lemma Level0NoRepeats(levels: seq<seq<File>>)
    requires Ordered(levels)
    ensures NoRepeats(levels[0])
  {
    forall i, j | 0 <= i < j < |levels[0]| ensures levels[0][i] != levels[0][j] {
      assert levels[0][i].number != levels[0][j].number;
    }
  }

  // What PickCompaction and CompactRange hand to SetupOtherInputs.
  ghost predicate Picked(levels: seq<seq<File>>, l: nat, chosen: seq<File>)
    requires Ordered(levels) && l + 1 < kNumLevels
  {
    && chosen != [] && ValidFiles(chosen)
    && (forall f :: f in chosen ==> f in levels[l])
    && (l == 0 ==> Separated(levels[0], chosen) && NoRepeats(chosen))
    && (l > 0 ==> IsRun(levels[l], chosen))
  }

  // The inputs of a compaction: nothing older than an input stays behind on the input level, and
  // no file left on the output level shares a user key with the inputs moved down to it.
  ghost predicate GoodInputs(levels: seq<seq<File>>, l: nat, in0: seq<File>, in1: seq<File>)
    requires Ordered(levels) && l + 1 < kNumLevels
  {
    && in0 != [] && ValidFiles(in0) && ValidFiles(in1)
    && (forall f :: f in in0 ==> f in levels[l])
    && IsRun(levels[l + 1], in1)
    && (l == 0 ==> Separated(levels[0], in0) && NoRepeats(in0))
    && (l > 0 ==> IsRun(levels[l], in0))
    && NewerStays(levels[l], in0)
    && Apart(levels[l + 1], in0, in1)
  }

  // The inputs one level down are all files there that meet the range of the inputs above.
  ghost predicate MeetsRange(levels: seq<seq<File>>, l: nat, in0: seq<File>, in1: seq<File>)
    requires Ordered(levels) && l + 1 < kNumLevels && ValidFiles(in0)
  {
    exists a, b :: IsSmallestKey(in0, a) && IsLargestKey(in0, b) && in1 == Overlapping(levels[l + 1], Some(a.user), Some(b.user))
  }

  lemma ClosedIsSeparated(files: seq<File>, b: Bound, e: Bound)
    requires ValidFiles(files) && Closed(files, b, e)
    ensures Separated(files, Overlapping(files, b, e))
  {
    var chosen := Overlapping(files, b, e);
    OverlappingIff(files, b, e);
    forall i | 0 <= i < |files| && files[i] !in chosen
      ensures BeforeAll(files[i], chosen) || AfterAll(files[i], chosen)
    {
      forall j | 0 <= j < |chosen| ensures Within(chosen[j], b, e) {
        assert chosen[j] in chosen;
        var q :| 0 <= q < |files| && files[q] == chosen[j];
      }
    }
  }

  // On a sorted level the files overlapping a range are consecutive: once a file past the range
  // is met, all later ones are past it too.
  ghost predicate PastRange(files: seq<File>, h: nat, e: Bound)
    requires ValidFiles(files)
  {
    h < |files| ==> e.Some? && files[h].Smallest().user > e.value
  }

  lemma NoRun(files: seq<File>) returns (lo: nat)
    ensures RunAt(files, lo, [])
  {
    lo := 0;
  }

  lemma InitSorted(files: seq<File>, init: seq<File>)
    requires ValidFiles(files) && SortedLevel(files) && files != [] && init == files[..|files| - 1]
    ensures ValidFiles(init) && SortedLevel(init)
  {
  }

  lemma {:induction false} OverlappingIsRun(files: seq<File>, b: Bound, e: Bound) returns (lo: nat)
    requires ValidFiles(files) && SortedLevel(files)
    ensures RunAt(files, lo, Overlapping(files, b, e))
    ensures Overlapping(files, b, e) != [] ==> PastRange(files, lo + |Overlapping(files, b, e)|, e)
  {
    hide PastRange, Overlaps, RunAt, SortedLevel, ValidFiles;
    if |files| > 0 { InitSorted(files, files[..|files| - 1]); }
    if files == [] { lo := NoRun(files); return; }
    var init := files[..|files| - 1];
    lo := OverlappingIsRun(init, b, e);
    OverlappingIff(init, b, e);
    lo := RunGrows(files, init, lo, Overlapping(init, b, e), b, e);
  }

  lemma {:induction false} RunGrows(files: seq<File>, init: seq<File>, lo: nat, part: seq<File>, b: Bound, e: Bound)
    returns (lo': nat)
    requires ValidFiles(files) && SortedLevel(files) && files != [] && init == files[..|files| - 1]
    requires RunAt(init, lo, part) && (part != [] ==> PastRange(init, lo + |part|, e))
    requires forall f :: f in part ==> f.Valid() && Overlaps(f, b, e)
    ensures var r := part + if Overlaps(files[|files| - 1], b, e) then [files[|files| - 1]] else [];
            RunAt(files, lo', r) && (r != [] ==> PastRange(files, lo' + |r|, e))
  {
    var n := |files| - 1;
    var h := lo + |part|;
    lo' := lo;
    hide SortedLevel, Overlaps;
    assert files[lo..h] == files[..n][lo..h];
    if part == [] {
      if Overlaps(files[n], b, e) { lo' := n; }
    } else {
      assert part[|part| - 1] in part;
      RunStep(files, h, b, e);
      if h < n {
        assert files[..n][h] == files[h];
      } else {
        assert files[lo..h + 1] == files[lo..h] + [files[n]];
      }
    }
  }

  // After an overlapping file, the next files overlap until one lies past the range.
  lemma RunStep(files: seq<File>, h: nat, b: Bound, e: Bound)
    requires ValidFiles(files) && SortedLevel(files) && 0 < h < |files| && Overlaps(files[h - 1], b, e)
    ensures Overlaps(files[h], b, e) || PastRange(files, h, e)
    ensures PastRange(files, h, e) ==> !Overlaps(files[|files| - 1], b, e)
  {
    SmallestAtMostLargest(files[h]);
    assert files[h - 1].Largest().Before(files[h].Smallest());
    if h < |files| - 1 { LargestsAscend(files, h, |files| - 1); }
  }

  lemma OutsideRangeOf(files: seq<File>, in0: seq<File>, smallest: InternalKey, largest: InternalKey)
    requires ValidFiles(files) && SortedLevel(files) && ValidFiles(in0)
    requires IsSmallestKey(in0, smallest) && IsLargestKey(in0, largest)
    ensures Apart(files, in0, Overlapping(files, Some(smallest.user), Some(largest.user)))
  {
    var b, e := Some(smallest.user), Some(largest.user);
    var in1 := Overlapping(files, b, e);
    OverlappingIff(files, b, e);
    forall i | 0 <= i < |files| && files[i] !in in1 ensures ClearOf(files[i], in0, in1) {
      hide SortedLevel, Overlapping, IsSmallestKey, IsLargestKey, ClearOf;
      OutsideFile(files, in0, in1, smallest, largest, i);
    }
  }

  lemma OutsideFile(files: seq<File>, in0: seq<File>, in1: seq<File>, smallest: InternalKey, largest: InternalKey, i: nat)
    requires ValidFiles(files) && SortedLevel(files) && ValidFiles(in0) && ValidFiles(in1) && i < |files|
    requires IsSmallestKey(in0, smallest) && IsLargestKey(in0, largest)
    requires forall g :: g in in1 ==> g in files && Overlaps(g, Some(smallest.user), Some(largest.user))
    requires files[i].Valid() && !Overlaps(files[i], Some(smallest.user), Some(largest.user))
    ensures ClearOf(files[i], in0, in1)
  {
    hide SortedLevel;
    forall j | 0 <= j < |in1|
      ensures files[i].Largest().user < smallest.user ==> files[i].Largest().Before(in1[j].Smallest())
      ensures files[i].Smallest().user > largest.user ==> in1[j].Largest().Before(files[i].Smallest())
    {
      assert in1[j] in in1;
      var q :| 0 <= q < |files| && files[q] == in1[j];
      OutsideAndOverlapping(files, i, q, smallest.user, largest.user);
    }
  }

  // A file ending before a range, or starting after it, is on that side of each file meeting it.
  lemma OutsideAndOverlapping(files: seq<File>, i: nat, q: nat, lo: UserKey, hi: UserKey)
    requires ValidFiles(files) && SortedLevel(files) && i < |files| && q < |files|
    requires files[q].Largest().user >= lo && files[q].Smallest().user <= hi
    ensures files[i].Largest().user < lo ==> files[i].Largest().Before(files[q].Smallest())
    ensures files[i].Smallest().user > hi ==> files[q].Largest().Before(files[i].Smallest())
  {
    EntryInRange(files[i], files[i].entries[0]);
    EntryInRange(files[q], files[q].entries[0]);
    FilesInOrder(files, if i < q then i else q, if i < q then q else i);
  }

  // Closing the chosen files under continuation leaves nothing older behind.
  lemma NothingOlderStays(files: seq<File>, chosen: seq<File>, largest: InternalKey, f: File)
    requires ValidFiles(files) && ValidFiles(chosen) && IsLargestKey(chosen, largest)
    requires Separated(files, chosen) || (SortedLevel(files) && IsRun(files, chosen))
    requires forall i :: 0 <= i < |files| ==> !Continues(files[i], largest)
    requires f in files && f !in chosen
    ensures Newer(Elements(f.entries), Stored(chosen))
  {
    var q :| 0 <= q < |files| && files[q] == f;
    forall x, y | x in Elements(f.entries) && y in Stored(chosen) && x.key.user == y.key.user
      ensures x.key.Tag() > y.key.Tag()
    {
      if Separated(files, chosen) {
        SeparatedShareNothing(f, chosen, x, y);
      } else {
        var lo: nat :| RunAt(files, lo, chosen);
        assert forall j :: lo <= j < lo + |chosen| ==> files[j] == chosen[j - lo];
        if q < lo {
          BeforeRun(files, lo, chosen, q, x, y);
        } else {
          StartsPast(files, lo, chosen, largest, q, x, y);
        }
      }
    }
  }

  lemma SeparatedShareNothing(f: File, chosen: seq<File>, x: Entry, y: Entry)
    requires f.Valid() && ValidFiles(chosen) && (BeforeAll(f, chosen) || AfterAll(f, chosen))
    requires x in f.entries && y in Stored(chosen)
    ensures x.key.user != y.key.user
  {
    var i :| 0 <= i < |chosen| && y in chosen[i].entries;
    SmallestAtMostLargest(f);
    SmallestAtMostLargest(chosen[i]);
  }

  lemma BeforeRun(files: seq<File>, lo: nat, chosen: seq<File>, q: nat, x: Entry, y: Entry)
    requires ValidFiles(files) && SortedLevel(files) && RunAt(files, lo, chosen) && q < lo
    requires x in files[q].entries && y in Stored(chosen)
    ensures x.key.Before(y.key)
  {
    var i :| 0 <= i < |chosen| && y in chosen[i].entries;
    assert chosen[i] == files[lo + i];
    SmallestAtMostLargest(files[q]);
    SmallestAtMostLargest(files[lo + i]);
    assert files[q].Largest().Before(files[lo + i].Smallest());
  }

  // A file after the run that does not continue its largest key shares no user key with it.
  lemma StartsPast(files: seq<File>, lo: nat, chosen: seq<File>, largest: InternalKey, q: nat, x: Entry, y: Entry)
    requires ValidFiles(files) && SortedLevel(files) && chosen != [] && RunAt(files, lo, chosen)
    requires ValidFiles(chosen) && IsLargestKey(chosen, largest)
    requires lo + |chosen| <= q < |files| && !Continues(files[q], largest)
    requires x in files[q].entries && y in Stored(chosen)
    ensures x.key.user > y.key.user
  {
    var i :| 0 <= i < |chosen| && y in chosen[i].entries;
    SmallestAtMostLargest(chosen[i]);
    SmallestAtMostLargest(files[q]);
    LargestOfRun(files, lo, chosen, largest);
    assert files[lo + |chosen| - 1].Largest().Before(files[q].Smallest());
  }

  function TotalFileSize(files: seq<File>): nat {
    if files == [] then 0 else TotalFileSize(files[..|files| - 1]) + files[|files| - 1].size
  }

  ghost function RunStart(files: seq<File>, chosen: seq<File>): (lo: nat)
    ensures IsRun(files, chosen) ==> RunAt(files, lo, chosen)
  {
    if IsRun(files, chosen) then var lo: nat :| RunAt(files, lo, chosen); lo else 0
  }

  // AddBoundaryInputs keeps a picked set picked and makes it closed.
  method CloseLevelInputs(levels: seq<seq<File>>, l: nat, chosen: seq<File>, ghost beside: seq<File>) returns (r: seq<File>)
    requires Ordered(levels) && l + 1 < kNumLevels && Picked(levels, l, chosen) && ValidFiles(beside)
    ensures Picked(levels, l, r) && |chosen| <= |r| && r[..|chosen|] == chosen
    ensures NewerStays(levels[l], r)
    ensures NoGap(beside, chosen) ==> NoGap(beside, r)
    ensures BoundaryClosure(levels[l], chosen, r)
  {
    ghost var lo := RunStart(levels[l], chosen);
    ghost var largest;
    r, largest := AddBoundaryInputs(levels[l], chosen, lo, beside);
    forall f | f in levels[l] && f !in r ensures Newer(Elements(f.entries), Stored(r)) {
      NothingOlderStays(levels[l], r, largest, f);
    }
  }

  // GetOverlappingInputs on a range met by some file of the level yields a picked set.
  // Around a gapless core it has no gaps either.
  method PickOverlapping(levels: seq<seq<File>>, l: nat, begin: Bound, end: Bound, ghost core: seq<File>) returns (r: seq<File>)
    requires Ordered(levels) && l + 1 < kNumLevels && ValidFiles(core)
    ensures r == [] || Picked(levels, l, r)
    ensures forall f :: f in levels[l] && f.Valid() && Overlaps(f, begin, end) ==> f in r
    ensures l > 0 ==> r == Overlapping(levels[l], begin, end)
    ensures ValidFiles(r) && AllMeeting(levels[l], l, begin, end, r)
    ensures begin.Some? && end.Some? && HullIs(core, begin.value, end.value) && Gapless(core) ==> NoGap(core, r)
  {
    ghost var b, e;
    r, b, e := GetOverlappingInputs(levels[l], l, begin, end);
    if begin.Some? && end.Some? && HullIs(core, begin.value, end.value) && Gapless(core) {
      OverlapsLeaveNoGap(levels[l], l, core, begin.value, end.value, b, e);
    }
    OverlappingIff(levels[l], b, e);
    if l == 0 {
      ClosedIsSeparated(levels[0], b, e);
      Level0NoRepeats(levels);
      OverlappingNoRepeats(levels[0], b, e);
    } else {
      ghost var lo := OverlappingIsRun(levels[l], b, e);
    }
  }

  lemma OverlapsLeaveNoGap(files: seq<File>, l: nat, core: seq<File>, begin: UserKey, end: UserKey, b: Bound, e: Bound)
    requires ValidFiles(files) && ValidFiles(core) && Gapless(core) && HullIs(core, begin, end)
    requires l > 0 ==> b == Some(begin) && e == Some(end)
    requires l == 0 ==> Closed(files, b, e) && Forced(files, Some(begin), Some(end), b, e)
    ensures NoGap(core, Overlapping(files, b, e))
  {
    if l == 0 {
      ClosureIsGapless(files, core, begin, end, b, e);
    } else {
      hide Gapless;
      var r := Overlapping(files, b, e);
      OverlappingIff(files, b, e);
      forall k | 0 <= k < |r| ensures MeetsHull(core, r[k]) { assert r[k] in r; }
      GaplessGrows(core, r);
    }
  }

  // All files of the next level overlapping the chosen ones.
  method NextLevelInputs(levels: seq<seq<File>>, l: nat, in0: seq<File>, smallest: InternalKey, largest: InternalKey)
    returns (in1: seq<File>)
    requires Ordered(levels) && l + 1 < kNumLevels && Picked(levels, l, in0)
    requires IsSmallestKey(in0, smallest) && IsLargestKey(in0, largest)
    requires NewerStays(levels[l], in0)
    ensures GoodInputs(levels, l, in0, in1)
    ensures in1 == Overlapping(levels[l + 1], Some(smallest.user), Some(largest.user)) && MeetsRange(levels, l, in0, in1)
    ensures Gapless(in0) ==> NoGap(in0, in1)
  {
    ghost var b, e;
    in1, b, e := GetOverlappingInputs(levels[l + 1], l + 1, Some(smallest.user), Some(largest.user));
    if Gapless(in0) {
      HullOfKeys(in0, smallest, largest);
      OverlapsLeaveNoGap(levels[l + 1], l + 1, in0, smallest.user, largest.user, b, e);
    }
    ghost var lo := OverlappingIsRun(levels[l + 1], b, e);
    OverlappingIff(levels[l + 1], b, e);
    OutsideRangeOf(levels[l + 1], in0, smallest, largest);
  }

  lemma HullOfKeys(files: seq<File>, smallest: InternalKey, largest: InternalKey)
    requires ValidFiles(files) && IsSmallestKey(files, smallest) && IsLargestKey(files, largest)
    ensures HullIs(files, smallest.user, largest.user)
  {
  }

  // e0 is every file of level l that meets the whole range of the inputs, closed at the boundary.
  ghost predicate GrownTo(levels: seq<seq<File>>, l: nat, c0: seq<File>, c1: seq<File>, e0: seq<File>)
    requires Ordered(levels) && l + 1 < kNumLevels
  {
    exists a, b, met :: GrownFrom(levels[l], l, c0 + c1, a, b, met, e0)
  }

  ghost predicate GrownFrom(files: seq<File>, l: nat, inputs: seq<File>, a: InternalKey, b: InternalKey, met: seq<File>, e0: seq<File>)
    requires ValidFiles(files)
  {
    && ValidFiles(inputs) && IsSmallestKey(inputs, a) && IsLargestKey(inputs, b)
    && AllMeeting(files, l, Some(a.user), Some(b.user), met) && BoundaryClosure(files, met, e0)
  }

  // The inputs c0 and c1 are replaced by the grown ones if and only if these are more files of level l, stay below
  // the limit in bytes and take no more files of the next level.
  ghost predicate ExpandedTo(levels: seq<seq<File>>, l: nat, c0: seq<File>, c1: seq<File>, limit: nat, in0: seq<File>, in1: seq<File>)
    requires Ordered(levels) && l + 1 < kNumLevels
  {
    exists e0, e1 ::
      && GrownTo(levels, l, c0, c1, e0) && RangeIs(levels, l, e0, e1)
      && if Worth(c0, c1, e0, e1, limit) then in0 == e0 && in1 == e1 else in0 == c0 && in1 == c1
  }

  predicate Worth(c0: seq<File>, c1: seq<File>, e0: seq<File>, e1: seq<File>, limit: nat) {
    |e0| > |c0| && TotalFileSize(c1) + TotalFileSize(e0) < limit && |e1| == |c1|
  }

  ghost predicate RangeIs(levels: seq<seq<File>>, l: nat, in0: seq<File>, in1: seq<File>)
    requires Ordered(levels) && l + 1 < kNumLevels
  {
    ValidFiles(in0) && MeetsRange(levels, l, in0, in1)
  }

  // What SetupOtherInputs makes of the picked files: their boundary closure c0 and all files c1 of the next level
  // that meet its range, expanded when there are such files.
  ghost predicate SetUp(levels: seq<seq<File>>, l: nat, picked: seq<File>, limit: nat, in0: seq<File>, in1: seq<File>)
    requires Ordered(levels) && l + 1 < kNumLevels
  {
    exists c0, c1 :: SetUpFrom(levels, l, picked, limit, c0, c1, in0, in1)
  }

  ghost predicate SetUpFrom(levels: seq<seq<File>>, l: nat, picked: seq<File>, limit: nat, c0: seq<File>, c1: seq<File>,
                            in0: seq<File>, in1: seq<File>)
    requires Ordered(levels) && l + 1 < kNumLevels
  {
    && BoundaryClosure(levels[l], picked, c0) && RangeIs(levels, l, c0, c1)
    && if c1 == [] then in0 == c0 && in1 == [] else ExpandedTo(levels, l, c0, c1, limit, in0, in1)
  }

  lemma SomeRangeMet(levels: seq<seq<File>>, l: nat, in0: seq<File>, smallest: InternalKey, largest: InternalKey) returns (in1: seq<File>)
    requires Ordered(levels) && l + 1 < kNumLevels && ValidFiles(in0) && IsSmallestKey(in0, smallest) && IsLargestKey(in0, largest)
    ensures RangeIs(levels, l, in0, in1)
    ensures |levels| == kNumLevels && ValidFiles(levels[l + 1]) && in1 == Overlapping(levels[l + 1], Some(smallest.user), Some(largest.user))
  {
    in1 := Overlapping(levels[l + 1], Some(smallest.user), Some(largest.user));
  }

  lemma IsGrown(levels: seq<seq<File>>, l: nat, c0: seq<File>, c1: seq<File>, a: InternalKey, b: InternalKey, met: seq<File>, e0: seq<File>)
    requires Ordered(levels) && l + 1 < kNumLevels && ValidFiles(c0 + c1) && IsSmallestKey(c0 + c1, a) && IsLargestKey(c0 + c1, b)
    requires AllMeeting(levels[l], l, Some(a.user), Some(b.user), met) && BoundaryClosure(levels[l], met, e0)
    ensures GrownTo(levels, l, c0, c1, e0)
  {
    IsGrownFrom(levels[l], l, c0 + c1, a, b, met, e0);
    hide Ordered, GrownFrom;
  }

  lemma IsGrownFrom(files: seq<File>, l: nat, inputs: seq<File>, a: InternalKey, b: InternalKey, met: seq<File>, e0: seq<File>)
    requires ValidFiles(files) && ValidFiles(inputs) && IsSmallestKey(inputs, a) && IsLargestKey(inputs, b)
    requires AllMeeting(files, l, Some(a.user), Some(b.user), met) && BoundaryClosure(files, met, e0)
    ensures GrownFrom(files, l, inputs, a, b, met, e0)
  {
  }

  lemma IsExpanded(levels: seq<seq<File>>, l: nat, c0: seq<File>, c1: seq<File>, limit: nat, e0: seq<File>, e1: seq<File>,
                   in0: seq<File>, in1: seq<File>)
    requires Ordered(levels) && l + 1 < kNumLevels && GrownTo(levels, l, c0, c1, e0) && RangeIs(levels, l, e0, e1)
    requires if Worth(c0, c1, e0, e1, limit) then in0 == e0 && in1 == e1 else in0 == c0 && in1 == c1
    ensures ExpandedTo(levels, l, c0, c1, limit, in0, in1)
  {
    hide Ordered, GrownTo, RangeIs, Worth;
  }

  lemma IsSetUp(levels: seq<seq<File>>, l: nat, picked: seq<File>, limit: nat, c0: seq<File>, c1: seq<File>, in0: seq<File>, in1: seq<File>)
    requires Ordered(levels) && l + 1 < kNumLevels && BoundaryClosure(levels[l], picked, c0) && RangeIs(levels, l, c0, c1)
    requires if c1 == [] then in0 == c0 && in1 == [] else ExpandedTo(levels, l, c0, c1, limit, in0, in1)
    ensures SetUp(levels, l, picked, limit, in0, in1)
  {
    hide Ordered, BoundaryClosure, RangeIs, ExpandedTo;
    assert SetUpFrom(levels, l, picked, limit, c0, c1, in0, in1);
  }

  // The second half of SetupOtherInputs: grow the inputs of the level when that takes no more
  // files of the next one.
  method ExpandInputs(levels: seq<seq<File>>, l: nat, picked: seq<File>, c0: seq<File>, c1: seq<File>, limit: nat)
    returns (in0: seq<File>, in1: seq<File>)
    requires Ordered(levels) && l + 1 < kNumLevels && GoodInputs(levels, l, c0, c1) && MeetsRange(levels, l, c0, c1)
    requires forall f :: f in picked ==> f in c0
    ensures GoodInputs(levels, l, in0, in1) && MeetsRange(levels, l, in0, in1)
    ensures forall f :: f in picked ==> f in in0
    ensures |in0| >= |c0| && |in1| == |c1|
    ensures NoGap(c0, c1) ==> NoGap(in0, in1)
    ensures ExpandedTo(levels, l, c0, c1, limit, in0, in1)
  {
    hide Gapless, Ordered, GoodInputs, MeetsRange, Picked, NewerStays, Overlaps, IsSmallestKey, IsLargestKey, HullIs, TotalFileSize,
         AllMeeting, BoundaryClosure, GrownTo, ExpandedTo, NoGap;
    in0, in1 := c0, c1;
    InputsValid(levels, l, c0, c1);
    var allStart, allLimit := GetRange(c0 + c1);
    HullOfKeys(c0 + c1, allStart, allLimit);
    GaplessTogether(c0, c1);
    var met := PickOverlapping(levels, l, Some(allStart.user), Some(allLimit.user), c0 + c1);
    RangeCovers(levels[l], c0, c1, allStart, allLimit);
    assert c0[0] in met;
    var expanded0 := CloseExpanded(levels, l, c0, met, c0 + c1);
    IsGrown(levels, l, c0, c1, allStart, allLimit, met, expanded0);
    PickedValid(levels, l, expanded0);
    ghost var a, b := KeysOf(expanded0);
    ghost var e1 := SomeRangeMet(levels, l, expanded0, a, b);
    if |expanded0| > |c0| && TotalFileSize(c1) + TotalFileSize(expanded0) < limit {
      var newStart, newLimit := GetRange(expanded0);
      var expanded1 := NextLevelInputs(levels, l, expanded0, newStart, newLimit);
      e1 := expanded1;
      if |expanded1| == |c1| {
        InputsValid(levels, l, expanded0, expanded1);
        a, b := RangeMet(levels, l, c0, c1);
        ExpandedLeavesNoGap(levels[l + 1], c0, c1, expanded0, expanded1, a, b, newStart, newLimit);
        in0, in1 := expanded0, expanded1;
      }
    }
    IsExpanded(levels, l, c0, c1, limit, expanded0, e1, in0, in1);
  }

  lemma GaplessTogether(c0: seq<File>, c1: seq<File>)
    requires ValidFiles(c0 + c1)
    ensures NoGap(c0, c1) <==> Gapless(c0 + c1)
  {
  }

  lemma {:induction false} KeysOf(files: seq<File>) returns (a: InternalKey, b: InternalKey)
    requires ValidFiles(files) && files != []
    ensures IsSmallestKey(files, a) && IsLargestKey(files, b)
  {
    var n := |files| - 1;
    var init, f := files[..n], files[n];
    a, b := f.Smallest(), f.Largest();
    if n > 0 {
      var a', b' := KeysOf(init);
      KeysOfMore(files, a', b');
      if a'.Before(a) { a := a'; }
      if b.Before(b') { b := b'; }
    } else {
      assert files[0] == f;
    }
  }

  lemma KeysOfMore(files: seq<File>, a: InternalKey, b: InternalKey)
    requires ValidFiles(files) && |files| > 1 && IsSmallestKey(files[..|files| - 1], a) && IsLargestKey(files[..|files| - 1], b)
    ensures var f := files[|files| - 1];
            && IsSmallestKey(files, if a.Before(f.Smallest()) then a else f.Smallest())
            && IsLargestKey(files, if f.Largest().Before(b) then b else f.Largest())
  {
    hide Sorted, AllParse;
    SmallestOfMore(files, a);
    LargestOfMore(files, b);
  }

  lemma SmallestOfMore(files: seq<File>, a: InternalKey)
    requires ValidFiles(files) && |files| > 1 && IsSmallestKey(files[..|files| - 1], a)
    ensures IsSmallestKey(files, if a.Before(files[|files| - 1].Smallest()) then a else files[|files| - 1].Smallest())
  {
    hide Sorted, AllParse;
    var n := |files| - 1;
    var i :| 0 <= i < n && files[..n][i].Smallest() == a;
    assert files[i].Smallest() == a;
    assert forall k :: 0 <= k < n ==> files[k] == files[..n][k];
  }

  lemma LargestOfMore(files: seq<File>, b: InternalKey)
    requires ValidFiles(files) && |files| > 1 && IsLargestKey(files[..|files| - 1], b)
    ensures IsLargestKey(files, if files[|files| - 1].Largest().Before(b) then b else files[|files| - 1].Largest())
  {
    hide Sorted, AllParse;
    var n := |files| - 1;
    var j :| 0 <= j < n && files[..n][j].Largest() == b;
    assert files[j].Largest() == b;
    assert forall k :: 0 <= k < n ==> files[k] == files[..n][k];
  }

  // ----- SetUp leaves no choice -----

  ghost predicate DistinctStarts(files: seq<File>)
    requires ValidFiles(files)
  {
    forall i, j :: 0 <= i < j < |files| ==> files[i].Smallest() != files[j].Smallest()
  }

  lemma LevelsStartDistinct(levels: seq<seq<File>>, l: nat)
    requires Ordered(levels) && l < kNumLevels
    ensures ValidFiles(levels[l]) && DistinctStarts(levels[l])
  {
    var files := levels[l];
    forall i, j | 0 <= i < j < |files| ensures files[i].Smallest() != files[j].Smallest() {
      if l > 0 {
        FilesInOrder(files, i, j);
        SmallestAtMostLargest(files[i]);
      } else {
        var x, y := files[i].entries[0], files[j].entries[0];
        assert x in Elements(files[i].entries) && y in Elements(files[j].entries);
        assert files[i].number != files[j].number;
      }
    }
  }

  lemma LargestOnce(files: seq<File>, k: InternalKey, k': InternalKey)
    requires ValidFiles(files) && IsLargestKey(files, k) && IsLargestKey(files, k')
    ensures k == k'
  {
  }

  lemma SmallestOnce(files: seq<File>, k: InternalKey, k': InternalKey)
    requires ValidFiles(files) && IsSmallestKey(files, k) && IsSmallestKey(files, k')
    ensures k == k'
  {
  }

  lemma NextBoundaryOnce(files: seq<File>, part: seq<File>, f: File, g: File)
    requires ValidFiles(files) && DistinctStarts(files) && NextBoundary(files, part, f) && NextBoundary(files, part, g)
    ensures f == g
  {
    var k :| IsLargestKey(part, k) && Continues(f, k)
             && forall i :: 0 <= i < |files| && Continues(files[i], k) ==> f.Smallest().AtMost(files[i].Smallest());
    var k' :| IsLargestKey(part, k') && Continues(g, k')
              && forall i :: 0 <= i < |files| && Continues(files[i], k') ==> g.Smallest().AtMost(files[i].Smallest());
    LargestOnce(part, k, k');
    var p :| 0 <= p < |files| && files[p] == f;
    var q :| 0 <= q < |files| && files[q] == g;
    StartsOnce(files, p, q);
  }

  lemma StartsOnce(files: seq<File>, p: nat, q: nat)
    requires ValidFiles(files) && DistinctStarts(files) && p < |files| && q < |files| && files[p].Smallest() == files[q].Smallest()
    ensures p == q
  {
  }

  lemma {:induction false} ClosureOnce(files: seq<File>, chosen: seq<File>, r: seq<File>, r': seq<File>, n: nat)
    requires ValidFiles(files) && DistinctStarts(files) && chosen != [] && BoundaryClosure(files, chosen, r) && BoundaryClosure(files, chosen, r')
    requires |chosen| <= n <= |r| && n <= |r'| && r[..n] == r'[..n]
    ensures r == r'
    decreases |r| - n
  {
    hide DistinctStarts, NextBoundary;
    if n < |r| && n < |r'| {
      NextBoundaryOnce(files, r[..n], r[n], r'[n]);
      assert r[..n + 1] == r[..n] + [r[n]] && r'[..n + 1] == r'[..n] + [r'[n]];
      ClosureOnce(files, chosen, r, r', n + 1);
    } else {
      assert r[..|r|] == r && r'[..|r'|] == r';
      if n < |r| { ClosedHasNoNext(files, r', r[n]); }
      if n < |r'| { ClosedHasNoNext(files, r, r'[n]); }
    }
  }

  lemma ClosedHasNoNext(files: seq<File>, r: seq<File>, f: File)
    requires ValidFiles(files) && ValidFiles(r) && exists k :: IsLargestKey(r, k) && forall i :: 0 <= i < |files| ==> !Continues(files[i], k)
    ensures !NextBoundary(files, r, f)
  {
    var k :| IsLargestKey(r, k) && forall i :: 0 <= i < |files| ==> !Continues(files[i], k);
    if f in files && f.Valid() {
      var p :| 0 <= p < |files| && files[p] == f;
      forall k' | IsLargestKey(r, k') ensures !Continues(f, k') { LargestOnce(r, k, k'); }
    }
  }

  lemma AllMeetingOnce(files: seq<File>, l: nat, begin: Bound, end: Bound, r: seq<File>, r': seq<File>)
    requires ValidFiles(files) && AllMeeting(files, l, begin, end, r) && AllMeeting(files, l, begin, end, r')
    ensures r == r'
  {
    hide Closed, Overlapping;
    if l == 0 {
      var b, e :| Closed(files, b, e) && Forced(files, begin, end, b, e) && r == Overlapping(files, b, e);
      var b', e' :| Closed(files, b', e') && Forced(files, begin, end, b', e') && r' == Overlapping(files, b', e');
      assert Wider(b, e, b', e') && Wider(b', e', b, e);
    }
  }

  lemma RangeOnce(levels: seq<seq<File>>, l: nat, in0: seq<File>, in1: seq<File>, in1': seq<File>)
    requires Ordered(levels) && l + 1 < kNumLevels && RangeIs(levels, l, in0, in1) && RangeIs(levels, l, in0, in1')
    ensures in1 == in1'
  {
    var a, b := RangeMet(levels, l, in0, in1);
    var a', b' := RangeMet(levels, l, in0, in1');
    SmallestOnce(in0, a, a');
    LargestOnce(in0, b, b');
  }

  lemma GrownOnce(levels: seq<seq<File>>, l: nat, c0: seq<File>, c1: seq<File>, e0: seq<File>, e0': seq<File>)
    requires Ordered(levels) && l + 1 < kNumLevels && GrownTo(levels, l, c0, c1, e0) && GrownTo(levels, l, c0, c1, e0')
    ensures e0 == e0'
  {
    LevelsStartDistinct(levels, l);
    hide Ordered, GrownFrom, DistinctStarts;
    var a, b, met :| GrownFrom(levels[l], l, c0 + c1, a, b, met, e0);
    var a', b', met' :| GrownFrom(levels[l], l, c0 + c1, a', b', met', e0');
    GrownFromOnce(levels[l], l, c0 + c1, a, b, met, e0, a', b', met', e0');
  }

  lemma GrownFromOnce(files: seq<File>, l: nat, inputs: seq<File>, a: InternalKey, b: InternalKey, met: seq<File>, e0: seq<File>,
                      a': InternalKey, b': InternalKey, met': seq<File>, e0': seq<File>)
    requires ValidFiles(files) && DistinctStarts(files)
    requires GrownFrom(files, l, inputs, a, b, met, e0) && GrownFrom(files, l, inputs, a', b', met', e0')
    ensures e0 == e0'
  {
    hide IsSmallestKey, IsLargestKey, AllMeeting, BoundaryClosure, DistinctStarts, ValidFiles;
    SmallestOnce(inputs, a, a');
    LargestOnce(inputs, b, b');
    AllMeetingOnce(files, l, Some(a.user), Some(b.user), met, met');
    ClosuresAgree(files, met, e0, e0');
  }

  lemma ExpandedOnce(levels: seq<seq<File>>, l: nat, c0: seq<File>, c1: seq<File>, limit: nat,
                     in0: seq<File>, in1: seq<File>, in0': seq<File>, in1': seq<File>)
    requires Ordered(levels) && l + 1 < kNumLevels
    requires ExpandedTo(levels, l, c0, c1, limit, in0, in1) && ExpandedTo(levels, l, c0, c1, limit, in0', in1')
    ensures in0 == in0' && in1 == in1'
  {
    hide Ordered, GrownTo, RangeIs, Worth;
    var e0, e1 :| GrownTo(levels, l, c0, c1, e0) && RangeIs(levels, l, e0, e1)
                  && if Worth(c0, c1, e0, e1, limit) then in0 == e0 && in1 == e1 else in0 == c0 && in1 == c1;
    var f0, f1 :| GrownTo(levels, l, c0, c1, f0) && RangeIs(levels, l, f0, f1)
                  && if Worth(c0, c1, f0, f1, limit) then in0' == f0 && in1' == f1 else in0' == c0 && in1' == c1;
    GrownOnce(levels, l, c0, c1, e0, f0);
    RangeOnce(levels, l, e0, e1, f1);
  }

  // The picked files decide the inputs.
  lemma SetUpOnce(levels: seq<seq<File>>, l: nat, picked: seq<File>, limit: nat, in0: seq<File>, in1: seq<File>, in0': seq<File>, in1': seq<File>)
    requires Ordered(levels) && l + 1 < kNumLevels
    requires SetUp(levels, l, picked, limit, in0, in1) && SetUp(levels, l, picked, limit, in0', in1')
    ensures in0 == in0' && in1 == in1'
  {
    hide Ordered, SetUpFrom;
    var c0, c1 :| SetUpFrom(levels, l, picked, limit, c0, c1, in0, in1);
    var d0, d1 :| SetUpFrom(levels, l, picked, limit, d0, d1, in0', in1');
    SetUpFromOnce(levels, l, picked, limit, c0, c1, in0, in1, d0, d1, in0', in1');
  }

  lemma SetUpFromOnce(levels: seq<seq<File>>, l: nat, picked: seq<File>, limit: nat, c0: seq<File>, c1: seq<File>, in0: seq<File>, in1: seq<File>,
                      d0: seq<File>, d1: seq<File>, in0': seq<File>, in1': seq<File>)
    requires Ordered(levels) && l + 1 < kNumLevels
    requires SetUpFrom(levels, l, picked, limit, c0, c1, in0, in1) && SetUpFrom(levels, l, picked, limit, d0, d1, in0', in1')
    ensures in0 == in0' && in1 == in1'
  {
    hide BoundaryClosure, RangeIs, ExpandedTo, DistinctStarts;
    LevelsStartDistinct(levels, l);
    hide Ordered;
    ClosuresAgree(levels[l], picked, c0, d0);
    RangeOnce(levels, l, c0, c1, d1);
    if c1 != [] { ExpandedOnce(levels, l, c0, c1, limit, in0, in1, in0', in1'); }
  }

  lemma ClosuresAgree(files: seq<File>, met: seq<File>, e: seq<File>, e': seq<File>)
    requires ValidFiles(files) && DistinctStarts(files) && BoundaryClosure(files, met, e) && BoundaryClosure(files, met, e')
    ensures e == e'
  {
    if met != [] {
      hide DistinctStarts, NextBoundary;
      ClosureOnce(files, met, e, e', |met|);
    } else {
      NothingCloses(files, e);
      NothingCloses(files, e');
    }
  }

  lemma NothingCloses(files: seq<File>, e: seq<File>)
    requires ValidFiles(files) && BoundaryClosure(files, [], e)
    ensures e == []
  {
    if e != [] {
      assert NextBoundary(files, e[..0], e[0]);
      NothingNext(files, e[..0], e[0]);
    }
  }

  lemma NothingNext(files: seq<File>, part: seq<File>, f: File)
    requires ValidFiles(files) && part == []
    ensures !NextBoundary(files, part, f)
  {
  }

  lemma InputsValid(levels: seq<seq<File>>, l: nat, in0: seq<File>, in1: seq<File>)
    requires Ordered(levels) && l + 1 < kNumLevels && GoodInputs(levels, l, in0, in1)
    ensures |levels| == kNumLevels && ValidFiles(levels[l]) && ValidFiles(in0) && ValidFiles(in1) && in0 != []
    ensures forall f :: f in in0 ==> f in levels[l]
  {
  }

  lemma PickedValid(levels: seq<seq<File>>, l: nat, chosen: seq<File>)
    requires Ordered(levels) && l + 1 < kNumLevels && Picked(levels, l, chosen)
    ensures |levels| == kNumLevels && ValidFiles(chosen) && chosen != []
  {
  }

  // A wider range takes more files; the same number of files are the same files.
  lemma {:induction false} WiderTakesMore(files: seq<File>, b: Bound, e: Bound, b': Bound, e': Bound)
    requires ValidFiles(files) && Wider(b', e', b, e)
    ensures |Overlapping(files, b, e)| <= |Overlapping(files, b', e')|
    ensures |Overlapping(files, b, e)| == |Overlapping(files, b', e')| ==> Overlapping(files, b, e) == Overlapping(files, b', e')
  {
    if files != [] { WiderTakesMore(files[..|files| - 1], b, e, b', e'); }
  }

  lemma ExpandedLeavesNoGap(files: seq<File>, c0: seq<File>, c1: seq<File>, in0: seq<File>, in1: seq<File>,
                            a: InternalKey, b: InternalKey, smallest: InternalKey, largest: InternalKey)
    requires ValidFiles(files) && ValidFiles(c0) && ValidFiles(c1) && ValidFiles(in0) && ValidFiles(in1)
    requires IsSmallestKey(c0, a) && IsLargestKey(c0, b) && c1 == Overlapping(files, Some(a.user), Some(b.user))
    requires IsSmallestKey(in0, smallest) && IsLargestKey(in0, largest) && forall f :: f in c0 ==> f in in0
    requires in1 == Overlapping(files, Some(smallest.user), Some(largest.user)) && |in1| == |c1|
    ensures NoGap(c0 + c1, in0) ==> NoGap(in0, in1)
  {
    WithinHull(c0, in0, a, b, smallest, largest);
    hide Gapless, Overlapping, IsSmallestKey, IsLargestKey;
    WiderTakesMore(files, Some(a.user), Some(b.user), Some(smallest.user), Some(largest.user));
    if NoGap(c0 + c1, in0) { GaplessSameFiles(c0 + c1 + in0, in0 + in1); }
  }

  lemma RangeMet(levels: seq<seq<File>>, l: nat, in0: seq<File>, in1: seq<File>) returns (a: InternalKey, b: InternalKey)
    requires Ordered(levels) && l + 1 < kNumLevels && ValidFiles(in0) && MeetsRange(levels, l, in0, in1)
    ensures |levels| == kNumLevels && ValidFiles(levels[l + 1])
    ensures IsSmallestKey(in0, a) && IsLargestKey(in0, b) && in1 == Overlapping(levels[l + 1], Some(a.user), Some(b.user))
  {
    a, b :| IsSmallestKey(in0, a) && IsLargestKey(in0, b) && in1 == Overlapping(levels[l + 1], Some(a.user), Some(b.user));
  }

  lemma WithinHull(few: seq<File>, many: seq<File>, a: InternalKey, b: InternalKey, smallest: InternalKey, largest: InternalKey)
    requires ValidFiles(few) && ValidFiles(many) && forall f :: f in few ==> f in many
    requires IsSmallestKey(few, a) && IsLargestKey(few, b) && IsSmallestKey(many, smallest) && IsLargestKey(many, largest)
    ensures smallest.user <= a.user && b.user <= largest.user
  {
    var i :| 0 <= i < |few| && few[i].Smallest() == a;
    var j :| 0 <= j < |few| && few[j].Largest() == b;
    assert few[i] in many && few[j] in many;
  }

  // VersionSet::SetupOtherInputs.  `limit` is ExpandedCompactionByteSizeLimit.
  method SetupOtherInputs(levels: seq<seq<File>>, l: nat, picked: seq<File>, limit: nat)
    returns (in0: seq<File>, in1: seq<File>, pointer: InternalKey)
    requires Ordered(levels) && l + 1 < kNumLevels && Picked(levels, l, picked)
    ensures GoodInputs(levels, l, in0, in1) && MeetsRange(levels, l, in0, in1)
    ensures forall f :: f in picked ==> f in in0
    ensures IsLargestKey(in0, pointer)
    ensures Gapless(picked) ==> NoGap(in0, in1)
    ensures SetUp(levels, l, picked, limit, in0, in1)
  {
    hide Gapless, Ordered, GoodInputs, MeetsRange, Picked, NewerStays, IsSmallestKey, IsLargestKey, BoundaryClosure, ExpandedTo, SetUp;
    PickedValid(levels, l, picked);
    in0 := CloseLevelInputs(levels, l, picked, []);
    PickedValid(levels, l, in0);
    assert forall f :: f in picked ==> f in in0[..|picked|];
    assert [] + picked == picked && [] + in0 == in0;
    var smallest, largest := GetRange(in0);
    in1 := NextLevelInputs(levels, l, in0, smallest, largest);
    InputsValid(levels, l, in0, in1);
    ghost var c0, c1 := in0, in1;
    if in1 != [] { in0, in1 := ExpandInputs(levels, l, picked, in0, in1, limit); }
    IsSetUp(levels, l, picked, limit, c0, c1, in0, in1);
    InputsValid(levels, l, in0, in1);
    smallest, pointer := GetRange(in0);
  }

  // All files of level l+2 that meet the range of all inputs.
  ghost predicate GrandparentsAre(levels: seq<seq<File>>, l: nat, in0: seq<File>, in1: seq<File>, g: seq<File>)
    requires Ordered(levels) && l + 1 < kNumLevels
  {
    if l + 2 == kNumLevels then g == [] else RangeIs(levels, l + 1, in0 + in1, g)
  }

  // The files of level l+2 overlapping the whole compaction.
  method Grandparents(levels: seq<seq<File>>, l: nat, in0: seq<File>, in1: seq<File>) returns (g: seq<File>)
    requires Ordered(levels) && l + 1 < kNumLevels && GoodInputs(levels, l, in0, in1)
    ensures GrandparentsAre(levels, l, in0, in1, g)
    ensures l + 2 < kNumLevels ==> IsRun(levels[l + 2], g)
  {
    g := [];
    if l + 2 < kNumLevels {
      var allStart, allLimit := GetRange(in0 + in1);
      ghost var b, e;
      g, b, e := GetOverlappingInputs(levels[l + 2], l + 2, Some(allStart.user), Some(allLimit.user));
      ghost var lo := OverlappingIsRun(levels[l + 2], b, e);
    }
  }

  method CloseExpanded(levels: seq<seq<File>>, l: nat, picked: seq<File>, expanded: seq<File>, ghost beside: seq<File>) returns (r: seq<File>)
    requires Ordered(levels) && l + 1 < kNumLevels && Picked(levels, l, expanded) && ValidFiles(beside)
    requires forall f :: f in picked ==> f in expanded
    ensures Picked(levels, l, r)
    ensures forall f :: f in picked ==> f in r
    ensures NewerStays(levels[l], r)
    ensures NoGap(beside, expanded) ==> NoGap(beside, r)
    ensures BoundaryClosure(levels[l], expanded, r)
  {
    r := CloseLevelInputs(levels, l, expanded, beside);
    assert forall f :: f in expanded ==> f in r[..|expanded|];
  }

  // Every input lies in the range of all inputs.
  lemma RangeCovers(files: seq<File>, in0: seq<File>, in1: seq<File>, start: InternalKey, limit: InternalKey)
    requires ValidFiles(in0) && ValidFiles(in1)
    requires IsSmallestKey(in0 + in1, start) && IsLargestKey(in0 + in1, limit)
    ensures forall f :: f in in0 ==> f.Valid() && Overlaps(f, Some(start.user), Some(limit.user))
  {
    forall f | f in in0 ensures f.Valid() && Overlaps(f, Some(start.user), Some(limit.user)) {
      var i :| 0 <= i < |in0| && in0[i] == f;
      assert (in0 + in1)[i] == f;
      SmallestAtMostLargest(f);
    }
  }

  // File i is the first that ends past the pointer, or the first of all when none does.
  ghost predicate StartsAt(files: seq<File>, pointer: Option<InternalKey>, i: nat)
    requires ValidFiles(files)
  {
    && i < |files|
    && match pointer
       case None => i == 0
       case Some(p) =>
         || (p.Before(files[i].Largest()) && forall j :: 0 <= j < i ==> !p.Before(files[j].Largest()))
         || (i == 0 && forall j :: 0 <= j < |files| ==> !p.Before(files[j].Largest()))
  }

  // The file, and on level 0 everything that it meets, that these meet, and so on.
  ghost predicate FilePicked(levels: seq<seq<File>>, l: nat, i: nat, picked: seq<File>)
    requires Ordered(levels) && l < kNumLevels && i < |levels[l]|
  {
    var f := levels[l][i];
    f in picked && if l > 0 then picked == [f] else AllMeeting(levels[0], 0, Some(f.Smallest().user), Some(f.Largest().user), picked)
  }

  // VersionSet::PickCompaction by size, once the level is decided by the scores: the first file past the
  // compaction pointer, or the first file of all.
  method PickCompaction(levels: seq<seq<File>>, l: nat, pointer: Option<InternalKey>) returns (picked: seq<File>)
    requires Ordered(levels) && l + 1 < kNumLevels && levels[l] != []
    ensures Picked(levels, l, picked)
    ensures exists i: nat :: StartsAt(levels[l], pointer, i) && FilePicked(levels, l, i, picked)
    ensures Gapless(picked)
  {
    var i := 0;
    while i < |levels[l]| && pointer.Some? && !pointer.value.Before(levels[l][i].Largest())
      invariant i <= |levels[l]|
      invariant pointer.None? ==> i == 0
      invariant forall j :: 0 <= j < i ==> pointer.Some? && !pointer.value.Before(levels[l][j].Largest())
    {
      i := i + 1;
    }
    if i == |levels[l]| { i := 0; }
    assert StartsAt(levels[l], pointer, i);
    picked := PickFile(levels, l, i);
  }

  // PickCompaction of a given file, which seeks may have decided (file_to_compact_): on level 0 with all files
  // it overlaps, and those these overlap, and so on.
  method PickFile(levels: seq<seq<File>>, l: nat, i: nat) returns (picked: seq<File>)
    requires Ordered(levels) && l + 1 < kNumLevels && i < |levels[l]|
    ensures Picked(levels, l, picked) && Gapless(picked)
    ensures FilePicked(levels, l, i, picked)
  {
    hide Gapless, HullIs, Separated;
    picked := [levels[l][i]];
    assert RunAt(levels[l], i, picked);
    OneIsGapless(levels[l][i]);
    if l == 0 {
      var f := levels[0][i];
      SmallestAtMostLargest(f);
      HullOfOne(f);
      picked := PickOverlapping(levels, 0, Some(f.Smallest().user), Some(f.Largest().user), [f]);
      assert f in levels[0] && Overlaps(f, Some(f.Smallest().user), Some(f.Largest().user));
      CoreIsIn(f, picked);
    }
  }

  lemma HullOfOne(f: File)
    requires f.Valid()
    ensures HullIs([f], f.Smallest().user, f.Largest().user)
  {
    assert [f][0] == f;
  }

  lemma CoreIsIn(f: File, picked: seq<File>)
    requires f.Valid() && ValidFiles(picked) && NoGap([f], picked) && f in picked
    ensures Gapless(picked)
  {
    hide Gapless;
    GaplessSameFiles([f] + picked, picked);
  }

  // All files of level 0 that meet the range, and of a deeper level as many from the front as reach the limit.
  ghost predicate RangePicked(levels: seq<seq<File>>, l: nat, begin: Bound, end: Bound, limit: nat, picked: seq<File>)
    requires Ordered(levels) && l + 1 < kNumLevels
  {
    && (picked == [] ==> forall f :: f in levels[l] && f.Valid() ==> !Overlaps(f, begin, end))
    && (l == 0 ==> AllMeeting(levels[0], 0, begin, end, picked))
    && (l > 0 ==> picked <= Overlapping(levels[l], begin, end))
    && (l > 0 && picked != Overlapping(levels[l], begin, end) ==> TotalFileSize(picked) >= limit)
    && (l > 0 && |picked| > 1 ==> TotalFileSize(picked[..|picked| - 1]) < limit)
  }

  // VersionSet::CompactRange: above level 0 only a prefix of the overlapping files is taken.
  method CompactRange(levels: seq<seq<File>>, l: nat, begin: Bound, end: Bound, limit: nat) returns (picked: seq<File>)
    requires Ordered(levels) && l + 1 < kNumLevels
    ensures picked == [] || Picked(levels, l, picked)
    ensures RangePicked(levels, l, begin, end, limit, picked)
  {
    hide Ordered, Picked, Overlapping, TotalFileSize, Overlaps, Gapless, NoGap, Closed, Forced;
    picked := PickOverlapping(levels, l, begin, end, []);
    if l > 0 && picked != [] {
      ghost var all := picked;
      var n := UpToLimit(picked, limit);
      PrefixPicked(levels, l, picked, n);
      picked := picked[..n];
      PrefixOfRange(levels, l, begin, end, limit, all, n);
    } else {
      AllOfRange(levels, l, begin, end, limit, picked);
    }
  }

  lemma PrefixOfRange(levels: seq<seq<File>>, l: nat, begin: Bound, end: Bound, limit: nat, all: seq<File>, n: nat)
    requires Ordered(levels) && l + 1 < kNumLevels && l > 0 && all == Overlapping(levels[l], begin, end) && 0 < n <= |all|
    requires (n < |all| ==> TotalFileSize(all[..n]) >= limit) && (n > 1 ==> TotalFileSize(all[..n][..n - 1]) < limit)
    ensures RangePicked(levels, l, begin, end, limit, all[..n])
  {
    hide Ordered, Overlapping, TotalFileSize, Overlaps;
  }

  lemma AllOfRange(levels: seq<seq<File>>, l: nat, begin: Bound, end: Bound, limit: nat, picked: seq<File>)
    requires Ordered(levels) && l + 1 < kNumLevels && (l == 0 || picked == [])
    requires forall f :: f in levels[l] && f.Valid() && Overlaps(f, begin, end) ==> f in picked
    requires l > 0 ==> picked == Overlapping(levels[l], begin, end)
    requires l == 0 ==> AllMeeting(levels[0], 0, begin, end, picked)
    ensures RangePicked(levels, l, begin, end, limit, picked)
  {
    hide Ordered, Overlapping, TotalFileSize, Overlaps;
  }

  // How many files it takes to reach the limit, or all of them.
  method UpToLimit(all: seq<File>, limit: nat) returns (n: nat)
    requires all != []
    ensures 0 < n <= |all| && (n < |all| ==> TotalFileSize(all[..n]) >= limit)
    ensures n > 1 ==> TotalFileSize(all[..n][..n - 1]) < limit
  {
    var total := 0;
    n := 0;
    while n < |all|
      invariant n <= |all| && total == TotalFileSize(all[..n]) && (n > 0 ==> total < limit)
    {
      assert all[..n + 1][..n] == all[..n];
      total := total + all[n].size;
      n := n + 1;
      if total >= limit { return; }
    }
    assert all[..n][..n - 1] == all[..n - 1];
    assert TotalFileSize(all[..n]) == TotalFileSize(all[..n - 1]) + all[n - 1].size;
  }

  lemma PrefixPicked(levels: seq<seq<File>>, l: nat, all: seq<File>, n: nat)
    requires Ordered(levels) && 0 < l && l + 1 < kNumLevels && Picked(levels, l, all) && 0 < n <= |all|
    ensures Picked(levels, l, all[..n])
  {
    var lo: nat :| RunAt(levels[l], lo, all);
    assert all[..n] == levels[l][lo..lo + n];
    assert RunAt(levels[l], lo, all[..n]);
  }
}
