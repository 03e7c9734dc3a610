/** Table files, levels and point lookups: db/version_set.cc (FindFile .. PickLevelForMemTableOutput).

    A File is a FileMetaData record together with the entries of the table it names.
*/
module Versions {
  import opened Keys
  import opened Reads

  const kMaxMemCompactLevel: nat := 2

  datatype File = File(number: nat, size: nat, entries: seq<Entry>) {
    ghost predicate Valid() { entries != [] && Sorted(entries) && AllParse(entries) }

    function Smallest(): InternalKey
      requires entries != []
    { entries[0].key }

    function Largest(): InternalKey
      requires entries != []
    { entries[|entries| - 1].key }
  }

  // The entries stored in a list of files.
  ghost function Stored(files: seq<File>): set<Entry> {
    set f, e | f in files && e in f.entries :: e
  }

  ghost predicate ValidFiles(files: seq<File>) {
    forall i :: 0 <= i < |files| ==> files[i].Valid()
  }

  // Levels above 0: files in key order with disjoint ranges.
  ghost predicate SortedLevel(files: seq<File>)
    requires ValidFiles(files)
  {
    forall i, j :: 0 <= i < j < |files| ==> files[i].Largest().Before(files[j].Smallest())
  }

  // Every entry of `a` is newer than every entry of `b` for the same user key.
  ghost predicate Newer(a: set<Entry>, b: set<Entry>) {
    forall x, y :: x in a && y in b && x.key.user == y.key.user ==> x.key.Tag() > y.key.Tag()
  }

  // Level 0: files may overlap, and a larger file number means newer data.
  ghost predicate NewestByNumber(files: seq<File>) {
    forall i, j :: 0 <= i < |files| && 0 <= j < |files| && i != j ==>
      files[i].number != files[j].number &&
      (files[i].number > files[j].number ==> Newer(Elements(files[i].entries), Elements(files[j].entries)))
  }

  ghost function Elements(es: seq<Entry>): set<Entry> { set e | e in es }

  // The search-order invariant of a version.
  ghost predicate Ordered(levels: seq<seq<File>>) {
    && |levels| == kNumLevels
    && (forall l :: 0 <= l < kNumLevels ==> ValidFiles(levels[l]))
    && (forall l :: 1 <= l < kNumLevels ==> SortedLevel(levels[l]))
    && NewestByNumber(levels[0])
    && (forall l, m :: 0 <= l < m < kNumLevels ==> Newer(Stored(levels[l]), Stored(levels[m])))
  }

  ghost function StoredIn(levels: seq<seq<File>>): set<Entry> {
    set l, e | 0 <= l < |levels| && e in Stored(levels[l]) :: e
  }

  // Position of the first entry at or after k.
  ghost predicate IsLowerBound(es: seq<Entry>, k: InternalKey, i: nat) {
    && i <= |es|
    && (forall j :: 0 <= j < i ==> es[j].key.Before(k))
    && (forall j :: i <= j < |es| ==> !es[j].key.Before(k))
  }

  ghost function LowerBoundOf(es: seq<Entry>, k: InternalKey): (i: nat)
    requires Sorted(es)
    ensures IsLowerBound(es, k, i)
  {
    if es == [] || !es[0].key.Before(k) then 0
    else
      var r := LowerBoundOf(es[1..], k);
      assert forall j :: 1 <= j < |es| ==> es[j] == es[1..][j - 1];
      r + 1
  }

  // The entry that SaveValue accepts: the one sought to, if it is for the sought user key.
  function Matching(es: seq<Entry>, i: nat, user: UserKey): Option<Entry>
    requires i <= |es|
  {
    if i < |es| && es[i].key.user == user then Some(es[i]) else None
  }

  lemma SeekFindsNewest(es: seq<Entry>, user: UserKey, s: nat, i: nat)
    requires Sorted(es) && AllParse(es)
    requires IsLowerBound(es, SeekKey(user, s), i)
    ensures IsNewest(Elements(es), user, s, Matching(es, i, user))
  {
    var r := Matching(es, i, user);
    forall e | e in Elements(es) && Candidate(e, user, s)
      ensures r.Some? && e.key.Tag() <= r.value.key.Tag()
    {
      var j :| 0 <= j < |es| && es[j] == e;
      assert j >= i;
      if j > i { assert es[i].key.Before(es[j].key); }
    }
    if r.Some? {
      assert es[i].Parses();
      assert !es[i].key.Before(SeekKey(user, s));
    }
  }

  // The place of a key in one table, found by walking; TwoLevel.TwoLevelIterator.Seek finds the same place
  // through the index and one data block.
  method TableSeek(es: seq<Entry>, k: InternalKey) returns (i: nat)
    requires Sorted(es)
    ensures IsLowerBound(es, k, i)
  {
    i := 0;
    while i < |es| && es[i].key.Before(k)
      invariant i <= |es|
      invariant forall j :: 0 <= j < i ==> es[j].key.Before(k)
    {
      i := i + 1;
    }
    forall j | i <= j < |es| ensures !es[j].key.Before(k) {
      if i < j { assert es[i].key.Before(es[j].key); }
    }
  }

  // Where the binary search over largest keys ends, sorted or not.
  function Bisected(files: seq<File>, k: InternalKey, left: nat, right: nat): (r: nat)
    requires left <= right <= |files| && forall f :: f in files ==> f.entries != []
    ensures left <= r <= right
    decreases right - left
  {
    if left == right then right
    else
      var mid := (left + right) / 2;
      if files[mid].Largest().Before(k) then Bisected(files, k, mid + 1, right) else Bisected(files, k, left, mid)
  }

  // FindFile: binary search for the first file whose largest key is at or after k.
  method FindFile(files: seq<File>, k: InternalKey) returns (r: nat)
    requires ValidFiles(files)
    ensures r <= |files| && (forall f :: f in files ==> f.entries != []) && r == Bisected(files, k, 0, |files|)
    ensures SortedLevel(files) ==> forall i :: 0 <= i < r ==> files[i].Largest().Before(k)
    ensures SortedLevel(files) ==> forall i :: r <= i < |files| ==> !files[i].Largest().Before(k)
  {
    var left, right := 0, |files|;
    while left < right
      invariant 0 <= left <= right <= |files|
      invariant Bisected(files, k, left, right) == Bisected(files, k, 0, |files|)
    {
      var mid := (left + right) / 2;
      if files[mid].Largest().Before(k) { left := mid + 1; } else { right := mid; }
    }
    r := right;
    if SortedLevel(files) { BisectedIsFirst(files, k, 0, |files|); }
  }

  lemma {:induction false} BisectedIsFirst(files: seq<File>, k: InternalKey, left: nat, right: nat)
    requires left <= right <= |files| && ValidFiles(files) && SortedLevel(files)
    requires forall i :: 0 <= i < left ==> files[i].Largest().Before(k)
    requires forall i :: right <= i < |files| ==> !files[i].Largest().Before(k)
    ensures forall f :: f in files ==> f.entries != []
    ensures var r := Bisected(files, k, left, right);
            (forall i :: 0 <= i < r ==> files[i].Largest().Before(k)) && (forall i :: r <= i < |files| ==> !files[i].Largest().Before(k))
    decreases right - left
  {
    if left < right {
      var mid := (left + right) / 2;
      if files[mid].Largest().Before(k) {
        forall i | 0 <= i <= mid ensures files[i].Largest().Before(k) {
          if i < mid { LargestsAscend(files, i, mid); }
        }
        BisectedIsFirst(files, k, mid + 1, right);
      } else {
        forall i | mid <= i < |files| ensures !files[i].Largest().Before(k) {
          if mid < i { LargestsAscend(files, mid, i); }
        }
        BisectedIsFirst(files, k, left, mid);
      }
    }
  }

  lemma SmallestAtMostLargest(f: File)
    requires f.Valid()
    ensures f.Smallest().AtMost(f.Largest())
    ensures forall e :: e in f.entries ==> f.Smallest().AtMost(e.key) && e.key.AtMost(f.Largest())
  {
  }

  lemma EntryInRange(f: File, e: Entry)
    requires f.Valid() && e in f.entries
    ensures f.Smallest().AtMost(e.key) && e.key.AtMost(f.Largest())
  {
  }

  // Files of a sorted level, weakly in order.
  lemma FilesInOrder(files: seq<File>, i: nat, j: nat)
    requires ValidFiles(files) && SortedLevel(files) && i <= j < |files|
    ensures files[i].Largest().AtMost(files[j].Largest())
    ensures files[i].Smallest().AtMost(files[j].Smallest())
    ensures i < j ==> files[i].Largest().Before(files[j].Smallest())
  {
    if i < j { LargestsAscend(files, i, j); }
  }

  lemma LargestsAscend(files: seq<File>, i: nat, j: nat)
    requires ValidFiles(files) && SortedLevel(files) && i < j < |files|
    ensures files[i].Largest().Before(files[j].Largest())
    ensures files[i].Smallest().Before(files[j].Smallest())
  {
    SmallestAtMostLargest(files[i]);
    SmallestAtMostLargest(files[j]);
  }

  // In a sorted level only the file found by FindFile can hold the newest entry at a snapshot:
  // earlier files end before the seek key, and later ones hold older entries.
  lemma OneFileDecides(files: seq<File>, user: UserKey, s: nat, idx: nat, i: nat)
    requires ValidFiles(files) && SortedLevel(files) && idx < |files|
    requires forall j :: 0 <= j < idx ==> files[j].Largest().Before(SeekKey(user, s))
    requires !files[idx].Largest().Before(SeekKey(user, s))
    requires IsLowerBound(files[idx].entries, SeekKey(user, s), i)
    ensures i < |files[idx].entries|
    ensures IsNewest(Stored(files), user, s, Matching(files[idx].entries, i, user))
  {
    var f := files[idx];
    var k := SeekKey(user, s);
    var r := Matching(f.entries, i, user);
    SeekFindsNewest(f.entries, user, s, i);
    SmallestAtMostLargest(f);
    forall e | e in Stored(files) && Candidate(e, user, s)
      ensures r.Some? && e.key.Tag() <= r.value.key.Tag()
    {
      var j :| 0 <= j < |files| && e in files[j].entries;
      SmallestAtMostLargest(files[j]);
      assert !e.key.Before(k);
      assert j >= idx;
      if j > idx {
        assert f.Largest().Before(files[j].Smallest());
        assert f.entries[i].key.AtMost(f.Largest());
      } else {
        assert e in Elements(f.entries);
      }
    }
    if r.Some? { assert r.value in f.entries && r.value in Stored(files); }
  }

  lemma NoFileDecides(files: seq<File>, user: UserKey, s: nat)
    requires ValidFiles(files) && SortedLevel(files)
    requires forall j :: 0 <= j < |files| ==> files[j].Largest().Before(SeekKey(user, s))
    ensures IsNewest(Stored(files), user, s, None)
  {
    forall e | e in Stored(files) ensures !Candidate(e, user, s) {
      var j :| 0 <= j < |files| && e in files[j].entries;
      SmallestAtMostLargest(files[j]);
    }
  }

  // One level above 0 (the loop body of Version::ForEachOverlapping).
  method SearchLevel(files: seq<File>, user: UserKey, s: nat) returns (r: Option<Entry>)
    requires ValidFiles(files) && SortedLevel(files)
    ensures IsNewest(Stored(files), user, s, r)
  {
    var idx := FindFile(files, SeekKey(user, s));
    if idx == |files| {
      NoFileDecides(files, user, s);
      return None;
    }
    var f := files[idx];
    var i := TableSeek(f.entries, SeekKey(user, s));
    OneFileDecides(files, user, s, idx, i);
    if user < f.Smallest().user {
      // all of f is past any data for user
      SmallestAtMostLargest(f);
      assert f.entries[i].key.user != user;
      return None;
    }
    return Matching(f.entries, i, user);
  }

  // Sorted sequences of the same entries are the same sequence.
  lemma {:induction false} SortedUnique(a: seq<Entry>, b: seq<Entry>)
    requires Sorted(a) && Sorted(b) && Elements(a) == Elements(b)
    ensures a == b
  {
    if a == [] || b == [] {
      NoElements(a);
      NoElements(b);
    } else {
      assert a[0] in Elements(b) && b[0] in Elements(a);
      assert a[0] == b[0];
      SortedTail(a);
      SortedTail(b);
      SortedUnique(a[1..], b[1..]);
      assert a == [a[0]] + a[1..] && b == [b[0]] + b[1..];
    }
  }

  lemma NoElements(a: seq<Entry>)
    ensures a == [] <==> Elements(a) == {}
  {
    if a != [] { assert a[0] in Elements(a); }
  }

  lemma SortedTail(a: seq<Entry>)
    requires Sorted(a) && a != []
    ensures Sorted(a[1..]) && Elements(a[1..]) == Elements(a) - {a[0]}
  {
    forall e | e in Elements(a) - {a[0]} ensures e in Elements(a[1..]) {
      var i :| 0 <= i < |a| && a[i] == e;
      assert a[1..][i - 1] == e;
    }
    forall e | e in Elements(a[1..]) ensures e in Elements(a) - {a[0]} {
      var i :| 0 <= i < |a| - 1 && a[1..][i] == e;
      assert a[i + 1] == e;
    }
  }
}
