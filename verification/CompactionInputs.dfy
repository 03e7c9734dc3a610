/** Choosing the files of a compaction: db/version_set.cc (GetOverlappingInputs, AddBoundaryInputs,
    SetupOtherInputs, PickCompaction, CompactRange). */
module CompactionInputs {
  import opened Keys
  import opened Versions

  // A null bound of a key range is None.
  type Bound = Option<UserKey>

  predicate Overlaps(f: File, begin: Bound, end: Bound)
    requires f.entries != []
  {
    && !(begin.Some? && f.Largest().user < begin.value)
    && !(end.Some? && f.Smallest().user > end.value)
  }

  ghost predicate Within(f: File, begin: Bound, end: Bound)
    requires f.entries != []
  {
    && (begin.Some? ==> begin.value <= f.Smallest().user)
    && (end.Some? ==> f.Largest().user <= end.value)
  }

  // [b, e] contains [begin, end]
  ghost predicate Wider(b: Bound, e: Bound, begin: Bound, end: Bound) {
    && (b.Some? ==> begin.Some? && b.value <= begin.value)
    && (e.Some? ==> end.Some? && end.value <= e.value)
  }

  // No file sticks out of the range it overlaps.
  ghost predicate Closed(files: seq<File>, begin: Bound, end: Bound)
    requires ValidFiles(files)
  {
    forall i :: 0 <= i < |files| && Overlaps(files[i], begin, end) ==> Within(files[i], begin, end)
  }

  ghost function Overlapping(files: seq<File>, begin: Bound, end: Bound): (r: seq<File>)
    requires ValidFiles(files)
    ensures ValidFiles(r)
  {
    if files == [] then []
    else
      var n := |files| - 1;
      Overlapping(files[..n], begin, end) + if Overlaps(files[n], begin, end) then [files[n]] else []
  }

  lemma {:induction false} OverlappingIff(files: seq<File>, begin: Bound, end: Bound)
    requires ValidFiles(files)
    ensures forall f :: f in Overlapping(files, begin, end) <==> f in files && f.Valid() && Overlaps(f, begin, end)
  {
    if files != [] {
      OverlappingIff(files[..|files| - 1], begin, end);
      assert files == files[..|files| - 1] + [files[|files| - 1]];
    }
  }

  ghost function StartingBelow(files: seq<File>, b: Bound): set<File>
    requires ValidFiles(files)
  {
    set f | f in files && f.Valid() && b.Some? && f.Smallest().user < b.value
  }

  ghost function EndingAbove(files: seq<File>, e: Bound): set<File>
    requires ValidFiles(files)
  {
    set f | f in files && f.Valid() && e.Some? && f.Largest().user > e.value
  }

  // Every closed range around the request contains [b, e].
  ghost predicate Forced(files: seq<File>, begin: Bound, end: Bound, b: Bound, e: Bound)
    requires ValidFiles(files)
  {
    && Wider(b, e, begin, end)
    && forall b', e' :: Wider(b', e', begin, end) && Closed(files, b', e') ==> Wider(b', e', b, e)
  }

  lemma ForcedGrowsDown(files: seq<File>, begin: Bound, end: Bound, b: Bound, e: Bound, f: File)
    requires ValidFiles(files) && Forced(files, begin, end, b, e)
    requires f in files && f.Valid() && Overlaps(f, b, e) && b.Some? && f.Smallest().user < b.value
    ensures Forced(files, begin, end, Some(f.Smallest().user), e)
    ensures StartingBelow(files, Some(f.Smallest().user)) < StartingBelow(files, b)
  {
    assert f in StartingBelow(files, b) && f !in StartingBelow(files, Some(f.Smallest().user));
    forall b', e' | Wider(b', e', begin, end) && Closed(files, b', e')
      ensures Wider(b', e', Some(f.Smallest().user), e)
    {
      assert Overlaps(f, b', e');
    }
  }

  lemma ForcedGrowsUp(files: seq<File>, begin: Bound, end: Bound, b: Bound, e: Bound, f: File)
    requires ValidFiles(files) && Forced(files, begin, end, b, e)
    requires f in files && f.Valid() && Overlaps(f, b, e) && e.Some? && f.Largest().user > e.value
    ensures Forced(files, begin, end, b, Some(f.Largest().user))
    ensures EndingAbove(files, Some(f.Largest().user)) < EndingAbove(files, e)
  {
    assert f in EndingAbove(files, e) && f !in EndingAbove(files, Some(f.Largest().user));
    forall b', e' | Wider(b', e', begin, end) && Closed(files, b', e')
      ensures Wider(b', e', b, Some(f.Largest().user))
    {
      assert Overlaps(f, b', e');
    }
  }

  lemma OverlappingStep(files: seq<File>, i: nat, b: Bound, e: Bound)
    requires ValidFiles(files) && i < |files|
    ensures Overlapping(files[..i + 1], b, e)
         == Overlapping(files[..i], b, e) + if Overlaps(files[i], b, e) then [files[i]] else []
    ensures Closed(files[..i + 1], b, e)
       <==> Closed(files[..i], b, e) && (Overlaps(files[i], b, e) ==> Within(files[i], b, e))
  {
    assert files[..i + 1][..i] == files[..i];
    if Closed(files[..i + 1], b, e) {
      assert files[..i + 1][i] == files[i];
      forall j | 0 <= j < i && Overlaps(files[..i][j], b, e) ensures Within(files[..i][j], b, e) {
        assert files[..i + 1][j] == files[..i][j];
      }
    } else {
      var j :| 0 <= j <= i && Overlaps(files[..i + 1][j], b, e) && !Within(files[..i + 1][j], b, e);
      if j < i { assert files[..i][j] == files[..i + 1][j]; }
    }
  }

  // Version::GetOverlappingInputs.  On level 0 the range grows to the bounds of every file it
  // meets and the scan restarts; [b, e] is the range it ends with.
  method GetOverlappingInputs(files: seq<File>, level: nat, begin: Bound, end: Bound)
    returns (inputs: seq<File>, ghost b: Bound, ghost e: Bound)
    requires ValidFiles(files)
    ensures inputs == Overlapping(files, b, e)
    ensures level > 0 ==> b == begin && e == end
    ensures level == 0 ==> Closed(files, b, e) && Forced(files, begin, end, b, e)
  {
    inputs := [];
    var userBegin, userEnd := begin, end;
    var i := 0;
    while i < |files|
      invariant i <= |files|
      invariant inputs == Overlapping(files[..i], userBegin, userEnd)
      invariant level > 0 ==> userBegin == begin && userEnd == end
      invariant level == 0 ==> Closed(files[..i], userBegin, userEnd)
      invariant Forced(files, begin, end, userBegin, userEnd)
      decreases StartingBelow(files, userBegin), EndingAbove(files, userEnd), |files| - i
    {
      OverlappingStep(files, i, userBegin, userEnd);
      var f := files[i];
      i := i + 1;
      if Overlaps(f, userBegin, userEnd) {
        inputs := inputs + [f];
        if level == 0 {
          if userBegin.Some? && f.Smallest().user < userBegin.value {
            ForcedGrowsDown(files, begin, end, userBegin, userEnd, f);
            userBegin, inputs, i := Some(f.Smallest().user), [], 0;
          } else if userEnd.Some? && f.Largest().user > userEnd.value {
            ForcedGrowsUp(files, begin, end, userBegin, userEnd, f);
            userEnd, inputs, i := Some(f.Largest().user), [], 0;
          }
        }
      }
    }
    assert files[..i] == files;
    b, e := userBegin, userEnd;
  }

  // ----- inputs without gaps -----

  // f lies beside the user keys lo .. hi.
  ghost predicate Misses(f: File, lo: UserKey, hi: UserKey)
    requires f.entries != []
  {
    hi < f.Smallest().user || f.Largest().user < lo
  }

  ghost predicate AllMiss(files: seq<File>, lo: UserKey, hi: UserKey)
    requires ValidFiles(files)
  {
    forall i :: 0 <= i < |files| ==> Misses(files[i], lo, hi)
  }

  // All files on one side of lo .. hi.
  ghost predicate OneSide(files: seq<File>, lo: UserKey, hi: UserKey)
    requires ValidFiles(files)
  {
    || (forall i :: 0 <= i < |files| ==> hi < files[i].Smallest().user)
    || (forall i :: 0 <= i < |files| ==> files[i].Largest().user < lo)
  }

  // A range of user keys that meets none of the files lies before all of them or after all of them.
  ghost predicate Gapless(files: seq<File>)
    requires ValidFiles(files)
  {
    forall lo, hi :: lo <= hi && AllMiss(files, lo, hi) ==> OneSide(files, lo, hi)
  }

  ghost predicate NoGap(some: seq<File>, others: seq<File>) { ValidFiles(some + others) && Gapless(some + others) }

  // f meets the range from the smallest to the largest of the files.
  ghost predicate MeetsHull(files: seq<File>, f: File)
    requires ValidFiles(files) && f.entries != []
  {
    && (exists i :: 0 <= i < |files| && files[i].Smallest().user <= f.Largest().user)
    && (exists j :: 0 <= j < |files| && f.Smallest().user <= files[j].Largest().user)
  }

  lemma OneIsGapless(f: File)
    requires f.Valid()
    ensures Gapless([f])
  {
  }

  lemma GaplessGrows(files: seq<File>, more: seq<File>)
    requires ValidFiles(files) && ValidFiles(more) && Gapless(files)
    requires forall k :: 0 <= k < |more| ==> MeetsHull(files, more[k])
    ensures NoGap(files, more)
  {
    var all := files + more;
    forall lo, hi | lo <= hi && AllMiss(all, lo, hi) ensures OneSide(all, lo, hi) {
      assert forall i :: 0 <= i < |files| ==> files[i] == all[i];
      assert AllMiss(files, lo, hi) && OneSide(files, lo, hi);
      forall k | 0 <= k < |more|
        ensures (forall i :: 0 <= i < |files| ==> hi < files[i].Smallest().user) ==> hi < more[k].Smallest().user
        ensures (forall i :: 0 <= i < |files| ==> files[i].Largest().user < lo) ==> more[k].Largest().user < lo
      {
        assert Misses(all[|files| + k], lo, hi) && MeetsHull(files, more[k]);
      }
    }
  }

  lemma GaplessSameFiles(files: seq<File>, files': seq<File>)
    requires ValidFiles(files) && ValidFiles(files') && Gapless(files) && forall f :: f in files <==> f in files'
    ensures Gapless(files')
  {
    forall lo, hi | lo <= hi && AllMiss(files', lo, hi) ensures OneSide(files', lo, hi) {
      forall i | 0 <= i < |files| ensures Misses(files[i], lo, hi) { assert files[i] in files'; }
      assert AllMiss(files, lo, hi) && OneSide(files, lo, hi);
      forall i | 0 <= i < |files'| ensures files'[i] in files { }
    }
  }

  // Growing a range from a gapless core until it is closed leaves no gap.
  lemma ClosureIsGapless(files: seq<File>, core: seq<File>, begin: UserKey, end: UserKey, b: Bound, e: Bound)
    requires ValidFiles(files) && ValidFiles(core) && Gapless(core) && HullIs(core, begin, end)
    requires Closed(files, b, e) && Forced(files, Some(begin), Some(end), b, e)
    ensures NoGap(core, Overlapping(files, b, e))
  {
    var grown := Overlapping(files, b, e);
    var all := core + grown;
    forall lo, hi | lo <= hi && AllMiss(all, lo, hi) ensures OneSide(all, lo, hi) {
      assert forall i :: 0 <= i < |core| ==> core[i] == all[i];
      assert AllMiss(core, lo, hi) && OneSide(core, lo, hi);
      assert forall i :: 0 <= i < |grown| ==> all[|core| + i] == grown[i];
      assert AllMiss(grown, lo, hi);
      hide Gapless, Forced, Closed, Overlapping;
      if forall i :: 0 <= i < |core| ==> core[i].Largest().user < lo {
        NothingAfter(files, core, begin, end, b, e, lo, hi);
      } else {
        NothingBefore(files, core, begin, end, b, e, lo, hi);
      }
    }
  }

  // begin and end are the smallest and the largest user key of the files.
  ghost predicate HullIs(files: seq<File>, begin: UserKey, end: UserKey)
    requires ValidFiles(files)
  {
    && (exists i :: 0 <= i < |files| && files[i].Smallest().user == begin)
    && (exists i :: 0 <= i < |files| && files[i].Largest().user == end)
    && (forall i :: 0 <= i < |files| ==> begin <= files[i].Smallest().user && files[i].Largest().user <= end)
  }

  lemma NothingAfter(files: seq<File>, core: seq<File>, begin: UserKey, end: UserKey, b: Bound, e: Bound, lo: UserKey, hi: UserKey)
    requires ValidFiles(files) && ValidFiles(core) && HullIs(core, begin, end)
    requires Closed(files, b, e) && Forced(files, Some(begin), Some(end), b, e)
    requires lo <= hi && AllMiss(Overlapping(files, b, e), lo, hi) && forall i :: 0 <= i < |core| ==> core[i].Largest().user < lo
    ensures forall i :: 0 <= i < |Overlapping(files, b, e)| ==> Overlapping(files, b, e)[i].Largest().user < lo
  {
    var grown := Overlapping(files, b, e);
    OverlappingIff(files, b, e);
    if k :| 0 <= k < |grown| && !(grown[k].Largest().user < lo) {
      var h := grown[k];
      assert h in grown && Misses(h, lo, hi);
      InClosed(files, b, e, h);
      SmallestAtMostLargest(h);
      forall i | 0 <= i < |files| && Overlaps(files[i], b, Some(hi)) ensures Within(files[i], b, Some(hi)) {
        assert files[i] in files && files[i].Valid() && Overlaps(files[i], b, e);
        assert files[i] in grown;
        var p :| 0 <= p < |grown| && grown[p] == files[i];
        assert Misses(grown[p], lo, hi);
      }
      assert end < lo;
      assert Wider(b, Some(hi), Some(begin), Some(end)) && Closed(files, b, Some(hi));
      assert false;
    }
  }

  lemma NothingBefore(files: seq<File>, core: seq<File>, begin: UserKey, end: UserKey, b: Bound, e: Bound, lo: UserKey, hi: UserKey)
    requires ValidFiles(files) && ValidFiles(core) && HullIs(core, begin, end)
    requires Closed(files, b, e) && Forced(files, Some(begin), Some(end), b, e)
    requires lo <= hi && AllMiss(Overlapping(files, b, e), lo, hi) && forall i :: 0 <= i < |core| ==> hi < core[i].Smallest().user
    ensures forall i :: 0 <= i < |Overlapping(files, b, e)| ==> hi < Overlapping(files, b, e)[i].Smallest().user
  {
    var grown := Overlapping(files, b, e);
    OverlappingIff(files, b, e);
    if k :| 0 <= k < |grown| && !(hi < grown[k].Smallest().user) {
      var h := grown[k];
      assert h in grown && Misses(h, lo, hi);
      InClosed(files, b, e, h);
      SmallestAtMostLargest(h);
      forall i | 0 <= i < |files| && Overlaps(files[i], Some(lo), e) ensures Within(files[i], Some(lo), e) {
        assert files[i] in files && files[i].Valid() && Overlaps(files[i], b, e);
        assert files[i] in grown;
        var p :| 0 <= p < |grown| && grown[p] == files[i];
        assert Misses(grown[p], lo, hi);
      }
      assert hi < begin;
      assert Wider(Some(lo), e, Some(begin), Some(end)) && Closed(files, Some(lo), e);
      assert false;
    }
  }

  lemma InClosed(files: seq<File>, b: Bound, e: Bound, h: File)
    requires ValidFiles(files) && Closed(files, b, e) && h in files && h.Valid() && Overlaps(h, b, e)
    ensures Within(h, b, e)
  {
    var q :| 0 <= q < |files| && files[q] == h;
  }

  // All files of level `level` that meet the range; of level 0 also those that these meet, and so on.
  ghost predicate AllMeeting(files: seq<File>, level: nat, begin: Bound, end: Bound, r: seq<File>)
    requires ValidFiles(files)
  {
    if level > 0 then r == Overlapping(files, begin, end)
    else exists b, e :: Closed(files, b, e) && Forced(files, begin, end, b, e) && r == Overlapping(files, b, e)
  }

  // ----- boundary files -----

  ghost predicate IsLargestKey(files: seq<File>, k: InternalKey)
    requires ValidFiles(files)
  {
    && (exists i :: 0 <= i < |files| && files[i].Largest() == k)
    && (forall i :: 0 <= i < |files| ==> files[i].Largest().AtMost(k))
  }

  ghost predicate IsSmallestKey(files: seq<File>, k: InternalKey)
    requires ValidFiles(files)
  {
    && (exists i :: 0 <= i < |files| && files[i].Smallest() == k)
    && (forall i :: 0 <= i < |files| ==> k.AtMost(files[i].Smallest()))
  }

  method FindLargestKey(files: seq<File>) returns (r: Option<InternalKey>)
    requires ValidFiles(files)
    ensures r.None? <==> files == []
    ensures r.Some? ==> IsLargestKey(files, r.value)
  {
    if files == [] { return None; }
    var k := files[0].Largest();
    for i := 1 to |files|
      invariant exists j :: 0 <= j < i && files[j].Largest() == k
      invariant forall j :: 0 <= j < i ==> files[j].Largest().AtMost(k)
    {
      if k.Before(files[i].Largest()) { k := files[i].Largest(); }
    }
    r := Some(k);
  }

  method GetRange(files: seq<File>) returns (smallest: InternalKey, largest: InternalKey)
    requires ValidFiles(files) && files != []
    ensures IsSmallestKey(files, smallest) && IsLargestKey(files, largest)
  {
    smallest, largest := files[0].Smallest(), files[0].Largest();
    ghost var low: nat, high: nat := 0, 0;
    for i := 1 to |files|
      invariant low < i && high < i && files[low].Smallest() == smallest && files[high].Largest() == largest
      invariant forall j :: 0 <= j < i ==> files[j].Largest().AtMost(largest)
      invariant forall j :: 0 <= j < i ==> smallest.AtMost(files[j].Smallest())
    {
      if files[i].Smallest().Before(smallest) { low := i; }
      if largest.Before(files[i].Largest()) { high := i; }
      if files[i].Smallest().Before(smallest) { smallest := files[i].Smallest(); }
      if largest.Before(files[i].Largest()) { largest := files[i].Largest(); }
    }
  }

  // f starts after k but with k's user key: it continues that user key's entries.
  predicate Continues(f: File, k: InternalKey)
    requires f.entries != []
  {
    k.Before(f.Smallest()) && f.Smallest().user == k.user
  }

  method FindSmallestBoundaryFile(levelFiles: seq<File>, k: InternalKey) returns (r: Option<File>)
    requires ValidFiles(levelFiles)
    ensures r.None? ==> forall i :: 0 <= i < |levelFiles| ==> !Continues(levelFiles[i], k)
    ensures r.Some? ==> r.value in levelFiles && r.value.Valid() && Continues(r.value, k)
    ensures r.Some? ==> forall i :: 0 <= i < |levelFiles| && Continues(levelFiles[i], k) ==>
              r.value.Smallest().AtMost(levelFiles[i].Smallest())
  {
    r := None;
    for n := 0 to |levelFiles|
      invariant r.None? ==> forall i :: 0 <= i < n ==> !Continues(levelFiles[i], k)
      invariant r.Some? ==> r.value in levelFiles && r.value.Valid() && Continues(r.value, k)
      invariant r.Some? ==> forall i :: 0 <= i < n && Continues(levelFiles[i], k) ==>
                  r.value.Smallest().AtMost(levelFiles[i].Smallest())
    {
      var f := levelFiles[n];
      if Continues(f, k) && (r.None? || f.Smallest().Before(r.value.Smallest())) {
        r := Some(f);
      }
    }
  }

  // part is the run of files starting at position lo.
  ghost predicate RunAt(files: seq<File>, lo: nat, part: seq<File>) {
    lo + |part| <= |files| && part == files[lo..lo + |part|]
  }

  // Every file of the level outside `chosen` lies wholly before or wholly after all of `chosen`.
  ghost predicate BeforeAll(f: File, chosen: seq<File>)
    requires f.entries != [] && ValidFiles(chosen)
  {
    forall i :: 0 <= i < |chosen| ==> f.Largest().user < chosen[i].Smallest().user
  }

  ghost predicate AfterAll(f: File, chosen: seq<File>)
    requires f.entries != [] && ValidFiles(chosen)
  {
    forall i :: 0 <= i < |chosen| ==> chosen[i].Largest().user < f.Smallest().user
  }

  ghost predicate Separated(files: seq<File>, chosen: seq<File>)
    requires ValidFiles(files) && ValidFiles(chosen)
  {
    forall i :: 0 <= i < |files| && files[i] !in chosen ==>
      BeforeAll(files[i], chosen) || AfterAll(files[i], chosen)
  }

  ghost function StartingAfter(files: seq<File>, k: InternalKey): set<File>
    requires ValidFiles(files)
  {
    set f | f in files && f.Valid() && k.Before(f.Smallest())
  }

  // On a sorted level the smallest boundary file of a run is the file right after it.
  lemma BoundaryExtendsRun(files: seq<File>, lo: nat, part: seq<File>, k: InternalKey, f: File)
    requires ValidFiles(files) && SortedLevel(files) && part != [] && RunAt(files, lo, part)
    requires IsLargestKey(part, k)
    requires f in files && f.Valid() && Continues(f, k)
    requires forall i :: 0 <= i < |files| && Continues(files[i], k) ==> f.Smallest().AtMost(files[i].Smallest())
    ensures RunAt(files, lo, part + [f])
  {
    var hi := lo + |part|;
    var q :| 0 <= q < |files| && files[q] == f;
    LargestOfRun(files, lo, part, k);
    SmallestAtMostLargest(f);
    if q < hi { assert false; }
    if q > hi {
      LargestsAscend(files, hi, q);
      assert false;
    }
    assert files[lo..hi + 1] == files[lo..hi] + [files[hi]];
  }

  lemma LargestOfRun(files: seq<File>, lo: nat, part: seq<File>, k: InternalKey)
    requires ValidFiles(files) && SortedLevel(files) && part != [] && RunAt(files, lo, part)
    requires IsLargestKey(part, k)
    ensures k == files[lo + |part| - 1].Largest()
  {
    var i :| 0 <= i < |part| && part[i].Largest() == k;
    var last := |part| - 1;
    assert files[lo + last] == part[last];
    assert i < last ==> files[lo + i].Largest().Before(files[lo + last].Smallest());
    SmallestAtMostLargest(files[lo + last]);
  }

  lemma SeparatedHasNoBoundary(files: seq<File>, chosen: seq<File>, k: InternalKey, f: File)
    requires ValidFiles(files) && ValidFiles(chosen) && Separated(files, chosen)
    requires IsLargestKey(chosen, k) && f in files && f.Valid()
    ensures !Continues(f, k)
  {
    var i :| 0 <= i < |chosen| && chosen[i].Largest() == k;
    SmallestAtMostLargest(f);
    SmallestAtMostLargest(chosen[i]);
    if f in chosen {
      var j :| 0 <= j < |chosen| && chosen[j] == f;
      assert chosen[j].Largest().AtMost(k);
    } else {
      var j :| 0 <= j < |files| && files[j] == f;
    }
  }

  // f is where the user key of the largest key of the files goes on.
  ghost predicate NextBoundary(levelFiles: seq<File>, part: seq<File>, f: File)
    requires ValidFiles(levelFiles)
  {
    && ValidFiles(part) && f.Valid() && f in levelFiles
    && exists k :: IsLargestKey(part, k) && Continues(f, k)
                   && forall i :: 0 <= i < |levelFiles| && Continues(levelFiles[i], k) ==> f.Smallest().AtMost(levelFiles[i].Smallest())
  }

  // The chosen files and, one after the other, the files on which the user key of the largest key goes on.
  ghost predicate BoundaryClosure(levelFiles: seq<File>, chosen: seq<File>, r: seq<File>)
    requires ValidFiles(levelFiles)
  {
    && ValidFiles(r) && |chosen| <= |r| && r[..|chosen|] == chosen
    && (forall j :: |chosen| <= j < |r| ==> NextBoundary(levelFiles, r[..j], r[j]))
    && (chosen != [] ==> exists k :: IsLargestKey(r, k) && forall i :: 0 <= i < |levelFiles| ==> !Continues(levelFiles[i], k))
  }

  lemma IsNextBoundary(levelFiles: seq<File>, part: seq<File>, k: InternalKey, f: File)
    requires ValidFiles(levelFiles) && ValidFiles(part) && f.Valid() && f in levelFiles && IsLargestKey(part, k) && Continues(f, k)
    requires forall i :: 0 <= i < |levelFiles| && Continues(levelFiles[i], k) ==> f.Smallest().AtMost(levelFiles[i].Smallest())
    ensures NextBoundary(levelFiles, part, f)
  {
    hide IsLargestKey, Continues;
  }

  lemma OneMoreBoundary(levelFiles: seq<File>, chosen: seq<File>, r: seq<File>, f: File)
    requires ValidFiles(levelFiles) && |chosen| <= |r|
    requires (forall j :: |chosen| <= j < |r| ==> NextBoundary(levelFiles, r[..j], r[j])) && NextBoundary(levelFiles, r, f)
    ensures forall j :: |chosen| <= j < |r + [f]| ==> NextBoundary(levelFiles, (r + [f])[..j], (r + [f])[j])
  {
    hide NextBoundary;
    var s := r + [f];
    forall j | |chosen| <= j < |s| ensures NextBoundary(levelFiles, s[..j], s[j]) {
      if j < |r| { assert s[..j] == r[..j] && s[j] == r[j]; } else { assert s[..j] == r; }
    }
  }

  // AddBoundaryInputs: extend the chosen files until no file of the level continues the user key
  // of the largest chosen key.
  method AddBoundaryInputs(levelFiles: seq<File>, chosen: seq<File>, ghost lo: nat, ghost beside: seq<File>)
    returns (r: seq<File>, ghost largest: InternalKey)
    requires ValidFiles(levelFiles) && ValidFiles(chosen) && ValidFiles(beside)
    ensures ValidFiles(r) && |chosen| <= |r| && r[..|chosen|] == chosen
    ensures forall f :: f in r ==> f in chosen || f in levelFiles
    ensures chosen != [] ==>
              IsLargestKey(r, largest) && forall i :: 0 <= i < |levelFiles| ==> !Continues(levelFiles[i], largest)
    ensures SortedLevel(levelFiles) && RunAt(levelFiles, lo, chosen) ==> RunAt(levelFiles, lo, r)
    ensures Separated(levelFiles, chosen) ==> r == chosen
    ensures NoGap(beside, chosen) ==> NoGap(beside, r)
    ensures BoundaryClosure(levelFiles, chosen, r)
  {
    hide Gapless, Separated, RunAt, SortedLevel, NextBoundary;
    r, largest := chosen, InternalKey(0.0, 0, 0);
    var largestKey := FindLargestKey(chosen);
    if largestKey.None? { return; }
    var k := largestKey.value;
    var searching := true;
    while searching
      invariant ValidFiles(r) && |chosen| <= |r| && r[..|chosen|] == chosen
      invariant forall f :: f in r ==> f in chosen || f in levelFiles
      invariant IsLargestKey(r, k)
      invariant !searching ==> forall i :: 0 <= i < |levelFiles| ==> !Continues(levelFiles[i], k)
      invariant SortedLevel(levelFiles) && RunAt(levelFiles, lo, chosen) ==> RunAt(levelFiles, lo, r)
      invariant Separated(levelFiles, chosen) ==> r == chosen
      invariant NoGap(beside, chosen) ==> NoGap(beside, r)
      invariant forall j :: |chosen| <= j < |r| ==> NextBoundary(levelFiles, r[..j], r[j])
      decreases StartingAfter(levelFiles, k), searching
    {
      var b := FindSmallestBoundaryFile(levelFiles, k);
      if b.Some? {
        var f := b.value;
        SmallestAtMostLargest(f);
        if SortedLevel(levelFiles) && RunAt(levelFiles, lo, r) { BoundaryExtendsRun(levelFiles, lo, r, k, f); }
        if Separated(levelFiles, chosen) { SeparatedHasNoBoundary(levelFiles, chosen, k, f); }
        assert f in StartingAfter(levelFiles, k) && f !in StartingAfter(levelFiles, f.Largest());
        LargestAfterAppend(r, k, f);
        IsNextBoundary(levelFiles, r, k, f);
        OneMoreBoundary(levelFiles, chosen, r, f);
        if NoGap(beside, r) { BoundaryLeavesNoGap(beside, r, k, f); }
        r, k := r + [f], f.Largest();
      } else {
        searching := false;
      }
    }
    largest := k;
  }

  // A file that continues the largest key starts where the files end.
  lemma BoundaryLeavesNoGap(beside: seq<File>, r: seq<File>, k: InternalKey, f: File)
    requires ValidFiles(beside) && ValidFiles(r) && IsLargestKey(r, k) && f.Valid() && Continues(f, k) && NoGap(beside, r)
    ensures NoGap(beside, r + [f])
  {
    var all := beside + r;
    var j :| 0 <= j < |r| && r[j].Largest() == k;
    assert all[|beside| + j] == r[j];
    SmallestAtMostLargest(r[j]);
    SmallestAtMostLargest(f);
    GaplessGrows(all, [f]);
    assert all + [f] == beside + (r + [f]);
  }

  lemma LargestAfterAppend(r: seq<File>, k: InternalKey, f: File)
    requires ValidFiles(r) && IsLargestKey(r, k) && f.Valid() && k.Before(f.Largest())
    ensures ValidFiles(r + [f]) && IsLargestKey(r + [f], f.Largest())
  {
    var s := r + [f];
    assert s[|r|] == f;
    forall i | 0 <= i < |s| ensures s[i].Largest().AtMost(f.Largest()) {
      if i < |r| { assert s[i] == r[i]; }
    }
  }
}
