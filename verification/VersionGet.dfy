/** Version::Get: newest-first search through level 0 and then one file per deeper level. */
module VersionGet {
  import opened Keys
  import opened Reads
  import opened Versions

  ghost predicate DescendingNumbers(files: seq<File>) {
    forall i, j :: 0 <= i < j < |files| ==> files[i].number > files[j].number
  }

  ghost predicate DistinctNumbers(files: seq<File>) {
    forall i, j :: 0 <= i < j < |files| ==> files[i].number != files[j].number
  }

  // std::sort(tmp.begin(), tmp.end(), NewestFirst)
  method SortNewestFirst(files: seq<File>) returns (sorted: seq<File>)
    requires DistinctNumbers(files)
    ensures DescendingNumbers(sorted)
    ensures |sorted| == |files|
    ensures forall f :: f in sorted <==> f in files
  {
    sorted := [];
    for n := 0 to |files|
      invariant DescendingNumbers(sorted)
      invariant |sorted| == n
      invariant forall f :: f in sorted <==> f in files[..n]
    {
      var p := 0;
      while p < |sorted| && sorted[p].number > files[n].number
        invariant p <= |sorted|
        invariant forall q :: 0 <= q < p ==> sorted[q].number > files[n].number
      {
        p := p + 1;
      }
      forall q | p <= q < |sorted| ensures sorted[q].number < files[n].number {
        assert sorted[q] in files[..n];
      }
      assert files[..n + 1] == files[..n] + [files[n]];
      var next := sorted[..p] + [files[n]] + sorted[p..];
      assert forall f :: f in next <==> f in sorted || f == files[n];
      sorted := next;
    }
    assert files[..|files|] == files;
  }

  // The level-0 files whose user-key range covers `user`.
  method CoveringFiles(files: seq<File>, user: UserKey) returns (tmp: seq<File>)
    requires ValidFiles(files) && DistinctNumbers(files)
    ensures DistinctNumbers(tmp)
    ensures forall f :: f in tmp <==> f in files && f.Valid() && f.Smallest().user <= user <= f.Largest().user
  {
    tmp := [];
    for n := 0 to |files|
      invariant DistinctNumbers(tmp)
      invariant forall f :: f in tmp <==> f in files[..n] && f.Valid() && f.Smallest().user <= user <= f.Largest().user
    {
      var f := files[n];
      assert files[..n + 1] == files[..n] + [f];
      if f.Smallest().user <= user && user <= f.Largest().user {
        forall j | 0 <= j < |tmp| ensures tmp[j].number != f.number {
          assert tmp[j] in files[..n];
        }
        tmp := tmp + [f];
      }
    }
    assert files[..|files|] == files;
  }

  lemma OutsideRange(f: File, user: UserKey, s: nat)
    requires f.Valid() && !(f.Smallest().user <= user <= f.Largest().user)
    ensures forall e :: e in f.entries ==> !Candidate(e, user, s)
  {
    SmallestAtMostLargest(f);
  }

  lemma NewerFile(files: seq<File>, f: File, g: File)
    requires NewestByNumber(files) && f in files && g in files && f.number > g.number
    ensures Newer(Elements(f.entries), Elements(g.entries))
  {
    var i :| 0 <= i < |files| && files[i] == f;
    var j :| 0 <= j < |files| && files[j] == g;
    assert i != j;
  }

  // Level 0: the first hit among the covering files, newest first, is the newest entry of all.
  method SearchLevel0(files: seq<File>, user: UserKey, s: nat) returns (r: Option<Entry>)
    requires ValidFiles(files) && NewestByNumber(files)
    ensures IsNewest(Stored(files), user, s, r)
  {
    var tmp := CoveringFiles(files, user);
    tmp := SortNewestFirst(tmp);
    var i := 0;
    while i < |tmp|
      invariant i <= |tmp|
      invariant forall j, e :: 0 <= j < i && e in tmp[j].entries ==> !Candidate(e, user, s)
    {
      var f := tmp[i];
      assert f in tmp;
      var p := TableSeek(f.entries, SeekKey(user, s));
      SeekFindsNewest(f.entries, user, s, p);
      if p < |f.entries| && f.entries[p].key.user == user {
        r := Some(f.entries[p]);
        FirstHitIsNewest(files, tmp, user, s, i, f.entries[p]);
        return;
      }
      assert forall e :: e in f.entries ==> e in Elements(f.entries);
      i := i + 1;
    }
    r := None;
    forall e | e in Stored(files) ensures !Candidate(e, user, s) {
      var f :| f in files && e in f.entries;
      if f in tmp {
        var j :| 0 <= j < |tmp| && tmp[j] == f;
      } else {
        OutsideRange(f, user, s);
      }
    }
  }

  lemma FirstHitIsNewest(files: seq<File>, tmp: seq<File>, user: UserKey, s: nat, i: nat, hit: Entry)
    requires ValidFiles(files) && NewestByNumber(files) && DescendingNumbers(tmp) && i < |tmp|
    requires forall f :: f in tmp <==> f in files && f.Valid() && f.Smallest().user <= user <= f.Largest().user
    requires forall j, e :: 0 <= j < i && e in tmp[j].entries ==> !Candidate(e, user, s)
    requires IsNewest(Elements(tmp[i].entries), user, s, Some(hit))
    ensures IsNewest(Stored(files), user, s, Some(hit))
  {
    assert tmp[i] in tmp && hit in tmp[i].entries;
    forall e | e in Stored(files) && Candidate(e, user, s)
      ensures e.key.Tag() <= hit.key.Tag()
    {
      var f :| f in files && e in f.entries;
      if f in tmp {
        var j :| 0 <= j < |tmp| && tmp[j] == f;
        if j > i {
          NewerFile(files, tmp[i], f);
          assert e in Elements(f.entries);
        } else {
          assert e in Elements(f.entries);
        }
      } else {
        OutsideRange(f, user, s);
      }
    }
  }

  // A hit in a shallower level hides everything below it.
  lemma ShallowestWins(levels: seq<seq<File>>, user: UserKey, s: nat, l: nat, hit: Entry)
    requires Ordered(levels) && l < kNumLevels
    requires forall m, e :: 0 <= m < l && e in Stored(levels[m]) ==> !Candidate(e, user, s)
    requires IsNewest(Stored(levels[l]), user, s, Some(hit))
    ensures IsNewest(StoredIn(levels), user, s, Some(hit))
  {
    forall e | e in StoredIn(levels) && Candidate(e, user, s)
      ensures e.key.Tag() <= hit.key.Tag()
    {
      var m :| 0 <= m < |levels| && e in Stored(levels[m]);
      if m > l { assert Newer(Stored(levels[l]), Stored(levels[m])); }
    }
  }

  // Version::Get.  The result is the entry that decides the read: a value, a deletion, or none.
  method Get(levels: seq<seq<File>>, user: UserKey, s: nat) returns (r: Option<Entry>)
    requires Ordered(levels)
    ensures IsNewest(StoredIn(levels), user, s, r)
  {
    r := SearchLevel0(levels[0], user, s);
    if r.Some? {
      ShallowestWins(levels, user, s, 0, r.value);
      return;
    }
    for l := 1 to kNumLevels
      invariant forall m, e :: 0 <= m < l && e in Stored(levels[m]) ==> !Candidate(e, user, s)
    {
      if levels[l] != [] {
        r := SearchLevel(levels[l], user, s);
        if r.Some? {
          ShallowestWins(levels, user, s, l, r.value);
          return;
        }
      }
    }
    r := None;
  }
}
