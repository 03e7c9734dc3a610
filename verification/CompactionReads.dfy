/** What a compaction does to reads.

    `ExactlyWhenNoTombstoneIsLost`: after the merge loop and the installation of its outputs, every
    read at a snapshot that may still be asked for is what it was, if and only if no deletion marker is
    dropped while the next file of the output level still holds an older value for its user key. */
module CompactionReads {
  import opened Keys
  import opened Reads
  import opened Versions
  import opened CompactionInputs
  import opened CompactionPick
  import opened CompactionWork

  // ----- the merged input against the survivors -----

  lemma {:induction false} KeptIff(levels: seq<seq<File>>, l: nat, input: seq<Entry>, n: nat, smallest: nat)
    requires Ordered(levels) && n <= |input|
    ensures forall e :: e in Kept(levels, l, input, n, smallest) <==>
              exists i :: 0 <= i < n && input[i] == e && !Drops(levels, l, input, i, smallest)
  {
    if n > 0 { KeptIff(levels, l, input, n - 1, smallest); }
  }

  lemma {:induction false} KeptSorted(levels: seq<seq<File>>, l: nat, input: seq<Entry>, n: nat, smallest: nat)
    requires Ordered(levels) && n <= |input| && Sorted(input) && AllParse(input)
    ensures var k := Kept(levels, l, input, n, smallest); Sorted(k) && AllParse(k)
  {
    if n > 0 {
      KeptSorted(levels, l, input, n - 1, smallest);
      KeptIff(levels, l, input, n - 1, smallest);
      var k := Kept(levels, l, input, n - 1, smallest);
      forall i | 0 <= i < |k| ensures k[i].key.Before(input[n - 1].key) {
        assert k[i] in k;
      }
    }
  }

  lemma {:induction false} FlattenStored(files: seq<File>)
    ensures Stored(files) == Elements(Flatten(files))
  {
    if files != [] {
      var n := |files| - 1;
      FlattenStored(files[..n]);
      assert files == files[..n] + [files[n]];
      assert Stored(files) == Stored(files[..n]) + Elements(files[n].entries);
    }
  }

  // Cutting a sorted sequence into non-empty files gives a sorted level.
  lemma {:induction false} SplitOutputs(outputs: seq<File>)
    requires Sorted(Flatten(outputs)) && AllParse(Flatten(outputs))
    requires forall i :: 0 <= i < |outputs| ==> outputs[i].entries != []
    ensures ValidFiles(outputs) && SortedLevel(outputs)
  {
    if outputs != [] {
      var n := |outputs| - 1;
      var front, last := outputs[..n], outputs[n];
      SortedParts(Flatten(front), last.entries);
      SplitOutputs(front);
      FlattenStored(front);
      forall i | 0 <= i < n ensures outputs[i].Valid() && outputs[i].Largest().Before(last.Smallest()) {
        assert outputs[i] == front[i] && front[i] in front;
        LastStored(front, front[i]);
      }
      assert forall i, k :: 0 <= i < k < n ==> front[i].Largest().Before(front[k].Smallest());
    }
  }

  lemma LastStored(files: seq<File>, f: File)
    requires f in files && f.entries != []
    ensures f.entries[|f.entries| - 1] in Stored(files)
  {
    assert f.entries[|f.entries| - 1] in f.entries;
  }

  // The newest entry of a read is never hidden by rule (A).
  lemma NewestIsNotHidden(input: seq<Entry>, i: nat, user: UserKey, s: nat, smallest: nat)
    requires Sorted(input) && smallest <= s && i < |input|
    requires IsNewest(Elements(input), user, s, Some(input[i]))
    ensures !Hidden(input, i, smallest)
  {
    assert i > 0 ==> input[i - 1].key.Before(input[i].key) && input[i - 1] in Elements(input);
  }

  // Everything older than a version at or below smallest_snapshot is hidden.
  lemma OlderIsHidden(input: seq<Entry>, i: nat, j: nat, smallest: nat)
    requires Sorted(input) && AllParse(input) && i < j < |input|
    requires input[i].key.user == input[j].key.user && input[i].key.sequence <= smallest
    ensures Hidden(input, j, smallest)
  {
    assert input[j - 1].Parses() && input[j].Parses();
    if i < j - 1 {
      assert input[i].key.Before(input[j - 1].key);
      assert input[j - 1].key.Before(input[j].key);
    }
  }

  // A read decided by the merged input is decided by the survivors, or by a dropped marker with
  // nothing surviving underneath it.
  lemma MergeRead(levels: seq<seq<File>>, l: nat, input: seq<Entry>, smallest: nat, user: UserKey, s: nat, r: Entry)
    requires Ordered(levels) && Sorted(input) && AllParse(input) && smallest <= s
    requires IsNewest(Elements(input), user, s, Some(r))
    ensures !ObsoleteMarker(levels, l, r, smallest) ==> r in Kept(levels, l, input, |input|, smallest)
    ensures ObsoleteMarker(levels, l, r, smallest) ==>
              forall e :: e in Kept(levels, l, input, |input|, smallest) ==> !Candidate(e, user, s)
  {
    var i :| 0 <= i < |input| && input[i] == r;
    NewestIsNotHidden(input, i, user, s, smallest);
    KeptIff(levels, l, input, |input|, smallest);
    if ObsoleteMarker(levels, l, r, smallest) {
      forall e | e in Kept(levels, l, input, |input|, smallest) ensures !Candidate(e, user, s) {
        var j :| 0 <= j < |input| && input[j] == e && !Drops(levels, l, input, j, smallest);
        assert e in Elements(input);
        assert j < i ==> input[j].key.Before(input[i].key);
        if j > i && e.key.user == user { OlderIsHidden(input, i, j, smallest); }
      }
    }
  }

  // ----- the rest of the store -----

  // Entries of the version that are not compaction inputs.
  ghost predicate InRest(levels: seq<seq<File>>, l: nat, in0: seq<File>, in1: seq<File>, e: Entry)
    requires Ordered(levels) && l + 1 < kNumLevels
  {
    exists m, f :: 0 <= m < kNumLevels && f in levels[m] && e in f.entries
                   && !(m == l && f in in0) && !(m == l + 1 && f in in1)
  }

  // The first entry of the file right after the inputs of the output level, when that file
  // continues their largest user key.
  ghost function Continuation(files: seq<File>, in1: seq<File>): Option<Entry>
    requires ValidFiles(files) && ValidFiles(in1) && IsRun(files, in1)
  {
    var h := RunStart(files, in1) + |in1|;
    if in1 != [] && h < |files| && Continues(files[h], in1[|in1| - 1].Largest())
    then Some(files[h].entries[0]) else None
  }

  lemma ShallowerIsNewer(levels: seq<seq<File>>, m1: nat, m2: nat, x: Entry, y: Entry)
    requires Ordered(levels) && m1 < kNumLevels && m2 < kNumLevels
    requires x in Stored(levels[m1]) && y in Stored(levels[m2]) && x.key.user == y.key.user
    ensures m1 < m2 ==> x.key.Tag() > y.key.Tag()
  {
    assert m1 < m2 ==> Newer(Stored(levels[m1]), Stored(levels[m2]));
  }

  lemma InputsStored(levels: seq<seq<File>>, l: nat, in0: seq<File>, in1: seq<File>)
    requires Ordered(levels) && l + 1 < kNumLevels && GoodInputs(levels, l, in0, in1)
    ensures forall f :: f in in1 ==> f in levels[l + 1]
    ensures forall e :: e in Stored(in0) ==> e in Stored(levels[l])
    ensures forall e :: e in Stored(in1) ==> e in Stored(levels[l + 1])
  {
  }

  lemma ClearSharesNothing(files: seq<File>, in0: seq<File>, in1: seq<File>, f: File, x: Entry, y: Entry)
    requires ValidFiles(files) && ValidFiles(in0) && ValidFiles(in1) && Apart(files, in0, in1)
    requires f in files && f !in in1 && x in f.entries && y in Stored(in0)
    ensures x.key.user != y.key.user
  {
    var i :| 0 <= i < |files| && files[i] == f;
    assert ClearOf(files[i], in0, in1);
    SeparatedShareNothing(f, in0, x, y);
  }

  // An entry outside the inputs that is older than an input of the same user key lies two levels
  // down, or in a file continuing the inputs of the output level.
  lemma OlderInRest(levels: seq<seq<File>>, l: nat, in0: seq<File>, in1: seq<File>, m: nat, f: File, x: Entry, y: Entry)
    requires Ordered(levels) && l + 1 < kNumLevels && GoodInputs(levels, l, in0, in1)
    requires m < kNumLevels && f in levels[m] && x in f.entries
    requires !(m == l && f in in0) && !(m == l + 1 && f in in1)
    requires y in Stored(in0) + Stored(in1) && x.key.user == y.key.user && x.key.Tag() <= y.key.Tag()
    ensures m >= l + 2 || (m == l + 1 && y in Stored(in1) && y !in Stored(in0))
  {
    hide IsRun, Separated, NoRepeats, SortedLevel, NewestByNumber;
    assert x in Stored(levels[m]) && x in Elements(f.entries);
    InputsStored(levels, l, in0, in1);
    if y in Stored(in0) {
      ShallowerIsNewer(levels, m, l, x, y);
      assert f in levels[l] && f !in in0 ==> Newer(Elements(f.entries), Stored(in0));
      if m == l + 1 { ClearSharesNothing(levels[l + 1], in0, in1, f, x, y); }
    } else {
      ShallowerIsNewer(levels, m, l + 1, x, y);
    }
  }

  // ... and then the file right after them continues their largest user key.
  lemma ContinuationExists(files: seq<File>, in1: seq<File>, f: File, x: Entry, y: Entry)
    requires ValidFiles(files) && SortedLevel(files) && ValidFiles(in1) && IsRun(files, in1)
    requires f in files && f !in in1 && x in f.entries && y in Stored(in1)
    requires x.key.user == y.key.user && x.key.Tag() <= y.key.Tag()
    ensures var c := Continuation(files, in1);
            c.Some? && c.value.key.user == x.key.user && x.key.Tag() <= c.value.key.Tag() < y.key.Tag()
  {
    hide SortedLevel, ValidFiles;
    var lo := RunStart(files, in1);
    var p, q := RunIndices(files, lo, in1, f, x, y);
    RunPosition(files, lo, in1, q, p, x, y);
    ContinuesInto(files, lo, in1, p, q, x, y);
  }

  lemma RunIndices(files: seq<File>, lo: nat, in1: seq<File>, f: File, x: Entry, y: Entry) returns (p: nat, q: nat)
    requires RunAt(files, lo, in1) && f in files && f !in in1 && x in f.entries && y in Stored(in1)
    ensures lo <= p < lo + |in1| && q < |files| && files[q] == f && y in files[p].entries
  {
    q :| 0 <= q < |files| && files[q] == f;
    var i :| 0 <= i < |in1| && y in in1[i].entries;
    p := lo + i;
  }

  lemma ContinuesInto(files: seq<File>, lo: nat, in1: seq<File>, p: nat, q: nat, x: Entry, y: Entry)
    requires ValidFiles(files) && SortedLevel(files) && ValidFiles(in1) && RunAt(files, lo, in1)
    requires lo <= p < lo + |in1| <= q < |files|
    requires x in files[q].entries && y in files[p].entries && x.key.user == y.key.user
    ensures var h := lo + |in1|;
            Continues(files[h], in1[|in1| - 1].Largest()) && files[h].entries[0].key.user == x.key.user
            && x.key.Tag() <= files[h].entries[0].key.Tag() < y.key.Tag()
  {
    SqueezedKeys(files, p, lo + |in1|, q, x, y);
  }

  // The continuation lies outside the inputs and is older than each of them.
  lemma ContinuationOutside(files: seq<File>, in1: seq<File>)
    requires ValidFiles(files) && SortedLevel(files) && ValidFiles(in1) && IsRun(files, in1)
    requires Continuation(files, in1).Some?
    ensures var c, h := Continuation(files, in1).value, RunStart(files, in1) + |in1|;
            h < |files| && files[h] !in in1 && c == files[h].entries[0] && c.Parses()
    ensures forall y :: y in Stored(in1) && y.key.user == Continuation(files, in1).value.key.user ==>
              Continuation(files, in1).value.key.Tag() < y.key.Tag()
  {
    var lo := RunStart(files, in1);
    var h := lo + |in1|;
    NotInRun(files, lo, in1, h);
    assert files[h].Valid();
    forall y | y in Stored(in1) && y.key.user == files[h].entries[0].key.user
      ensures files[h].entries[0].key.Tag() < y.key.Tag()
    {
      var i :| 0 <= i < |in1| && y in in1[i].entries;
      assert in1[i] == files[lo + i];
      EntryInRange(files[lo + i], y);
      FilesInOrder(files, lo + i, h);
    }
  }

  // Between two files sharing a user key all file bounds have that user key.
  lemma SqueezedKeys(files: seq<File>, p: nat, h: nat, q: nat, x: Entry, y: Entry)
    requires ValidFiles(files) && SortedLevel(files) && p < h <= q < |files|
    requires x in files[q].entries && y in files[p].entries
    requires x.key.user == y.key.user
    ensures files[h - 1].Largest().user == files[h].Smallest().user == x.key.user
    ensures files[h - 1].Largest().Before(files[h].Smallest())
    ensures x.key.Tag() <= files[h].Smallest().Tag() < y.key.Tag()
  {
    EntryInRange(files[q], x);
    EntryInRange(files[p], y);
    FilesInOrder(files, p, h - 1);
    FilesInOrder(files, h - 1, h);
    FilesInOrder(files, h, q);
  }

  lemma RunPosition(files: seq<File>, lo: nat, in1: seq<File>, q: nat, p: nat, x: Entry, y: Entry)
    requires ValidFiles(files) && SortedLevel(files) && RunAt(files, lo, in1)
    requires q < |files| && files[q] !in in1 && lo <= p < lo + |in1|
    requires x in files[q].entries && y in files[p].entries
    requires x.key.user == y.key.user && x.key.Tag() <= y.key.Tag()
    ensures q >= lo + |in1|
  {
    EntryInRange(files[q], x);
    EntryInRange(files[p], y);
    assert forall j :: lo <= j < lo + |in1| ==> files[j] == in1[j - lo];
  }

  lemma NotInRun(files: seq<File>, lo: nat, in1: seq<File>, h: nat)
    requires ValidFiles(files) && SortedLevel(files) && RunAt(files, lo, in1) && lo + |in1| <= h < |files|
    ensures files[h] !in in1
  {
    forall j | 0 <= j < |in1| ensures in1[j] != files[h] {
      assert in1[j] == files[lo + j];
      EntryInRange(files[lo + j], files[lo + j].entries[0]);
      FilesInOrder(files, lo + j, h);
    }
  }

  // ----- one read, on sets of entries -----

  // `next` is the newest entry of `rest` older than r for r's user key, if there is one.
  ghost predicate NextOlder(rest: set<Entry>, r: Entry, next: Option<Entry>) {
    match next
    case None => forall x :: x in rest && x.key.user == r.key.user ==> x.key.Tag() > r.key.Tag()
    case Some(n) =>
      && n in rest && n.Parses() && n.key.user == r.key.user && n.key.Tag() < r.key.Tag()
      && forall x :: x in rest && x.key.user == r.key.user && x.key.Tag() <= r.key.Tag() ==>
           x.key.Tag() <= n.key.Tag()
  }

  // A read decided outside the dropped entries is unchanged.
  lemma UndroppedRead(above: set<Entry>, rest: set<Entry>, ins: set<Entry>, kept: set<Entry>, user: UserKey, s: nat, r: Option<Entry>)
    requires kept <= ins && IsNewest(above + (rest + ins), user, s, r)
    requires r.None? || r.value in above + rest || r.value in kept
    ensures IsNewest(above + (rest + kept), user, s, r)
  {
  }

  // A read decided by a dropped marker is decided by the next older entry of the rest.
  lemma DroppedMarkerRead(above: set<Entry>, rest: set<Entry>, ins: set<Entry>, kept: set<Entry>, user: UserKey, s: nat, r: Entry, next: Option<Entry>)
    requires IsNewest(above + (rest + ins), user, s, Some(r))
    requires forall x :: x in above && x.key.user == user ==> x.key.Tag() > r.key.Tag()
    requires forall e :: e in kept ==> !Candidate(e, user, s)
    requires NextOlder(rest, r, next)
    ensures IsNewest(above + (rest + kept), user, s, next)
  {
    var all := above + (rest + ins);
    forall x | x in above + (rest + kept) && Candidate(x, user, s)
      ensures next.Some? && x.key.Tag() <= next.value.key.Tag()
    {
      assert x in above + rest && x in all;
    }
  }

  ghost predicate SameRead(a: set<Entry>, b: set<Entry>, user: UserKey, s: nat) {
    exists r, r' :: IsNewest(a, user, s, r) && IsNewest(b, user, s, r') && Outcome(r) == Outcome(r')
  }

  lemma NewestAtLower(all: set<Entry>, user: UserKey, s: nat, s0: nat, r: Entry)
    requires IsNewest(all, user, s, Some(r)) && r.key.sequence <= s0 <= s
    ensures IsNewest(all, user, s0, Some(r))
  {
  }

  lemma SameReadIntro(a: set<Entry>, b: set<Entry>, user: UserKey, s: nat, r: Option<Entry>, r': Option<Entry>)
    requires IsNewest(a, user, s, r) && IsNewest(b, user, s, r') && Outcome(r) == Outcome(r')
    ensures SameRead(a, b, user, s)
  {
  }

  lemma {:induction false} NewestExists(all: set<Entry>, user: UserKey, s: nat) returns (r: Option<Entry>)
    ensures IsNewest(all, user, s, r)
  {
    if all == {} { return None; }
    var e :| e in all;
    var rest := all - {e};
    r := NewestExists(rest, user, s);
    assert all == rest + {e};
    if Candidate(e, user, s) && (r.None? || r.value.key.Tag() < e.key.Tag()) { r := Some(e); }
  }

  // Two newest entries have the same tag, hence the same type.
  lemma NewestAgree(all: set<Entry>, user: UserKey, s: nat, a: Option<Entry>, b: Option<Entry>)
    requires IsNewest(all, user, s, a) && IsNewest(all, user, s, b)
    ensures a.Some? == b.Some?
    ensures a.Some? ==> a.value.key == b.value.key
  {
  }

  // ----- what the files of the version say about the rest -----

  // The entries of the version outside the inputs.
  ghost function Rest(levels: seq<seq<File>>, l: nat, in0: seq<File>, in1: seq<File>): set<Entry>
    requires Ordered(levels) && l + 1 < kNumLevels
  {
    set e | e in StoredIn(levels) && InRest(levels, l, in0, in1, e)
  }

  lemma OlderIsOneDown(levels: seq<seq<File>>, l: nat, in0: seq<File>, in1: seq<File>, m: nat, f: File, x: Entry, r: Entry)
    requires Ordered(levels) && l + 1 < kNumLevels && GoodInputs(levels, l, in0, in1)
    requires m < kNumLevels && f in levels[m] && x in f.entries
    requires !(m == l && f in in0) && !(m == l + 1 && f in in1)
    requires r in Stored(in0) + Stored(in1) && x.key.user == r.key.user && x.key.Tag() <= r.key.Tag()
    requires BaseLevel(levels, l, r.key.user)
    ensures m == l + 1 && r in Stored(in1)
  {
    OlderInRest(levels, l, in0, in1, m, f, x, r);
    var i :| 0 <= i < |levels[m]| && levels[m][i] == f;
    EntryInRange(f, x);
    assert Covers(levels[m][i], r.key.user);
  }

  // Under a dropped marker the next older entry of the rest is the continuation, if it is for the
  // marker's user key at all.
  lemma NextUnderMarker(levels: seq<seq<File>>, l: nat, in0: seq<File>, in1: seq<File>, r: Entry)
    requires Ordered(levels) && l + 1 < kNumLevels && GoodInputs(levels, l, in0, in1)
    requires r in Stored(in0) + Stored(in1) && BaseLevel(levels, l, r.key.user)
    ensures NextOlder(Rest(levels, l, in0, in1), r, ContinuationFor(levels[l + 1], in1, r))
  {
    var files := levels[l + 1];
    var next := ContinuationFor(files, in1, r);
    if next.Some? {
      ContinuationOutside(files, in1);
      var f := files[RunStart(files, in1) + |in1|];
      FileInRest(levels, l, in0, in1, f);
    }
    forall x | x in Rest(levels, l, in0, in1) && x.key.user == r.key.user && x.key.Tag() <= r.key.Tag()
      ensures next.Some? && x.key.Tag() <= next.value.key.Tag()
    {
      OlderIsContinuation(levels, l, in0, in1, x, r);
    }
  }

  ghost function ContinuationFor(files: seq<File>, in1: seq<File>, r: Entry): Option<Entry>
    requires ValidFiles(files) && ValidFiles(in1) && IsRun(files, in1)
  {
    var c := Continuation(files, in1);
    if r in Stored(in1) && c.Some? && c.value.key.user == r.key.user then c else None
  }

  lemma FileInRest(levels: seq<seq<File>>, l: nat, in0: seq<File>, in1: seq<File>, f: File)
    requires Ordered(levels) && l + 1 < kNumLevels && f in levels[l + 1] && f !in in1
    ensures forall e :: e in f.entries ==> e in Rest(levels, l, in0, in1)
  {
    forall e | e in f.entries ensures e in Rest(levels, l, in0, in1) {
      assert e in Stored(levels[l + 1]);
      assert InRest(levels, l, in0, in1, e);
    }
  }

  lemma OlderIsContinuation(levels: seq<seq<File>>, l: nat, in0: seq<File>, in1: seq<File>, x: Entry, r: Entry)
    requires Ordered(levels) && l + 1 < kNumLevels && GoodInputs(levels, l, in0, in1)
    requires x in Rest(levels, l, in0, in1) && r in Stored(in0) + Stored(in1) && BaseLevel(levels, l, r.key.user)
    requires x.key.user == r.key.user && x.key.Tag() <= r.key.Tag()
    ensures var next := ContinuationFor(levels[l + 1], in1, r);
            next.Some? && x.key.Tag() <= next.value.key.Tag()
  {
    var m, f := Located(levels, l, in0, in1, x);
    OlderIsOneDown(levels, l, in0, in1, m, f, x, r);
    OneDown(levels, l);
    ContinuationForOlder(levels[l + 1], in1, f, x, r);
  }

  lemma ContinuationForOlder(files: seq<File>, in1: seq<File>, f: File, x: Entry, r: Entry)
    requires ValidFiles(files) && SortedLevel(files) && ValidFiles(in1) && IsRun(files, in1)
    requires f in files && f !in in1 && x in f.entries && r in Stored(in1)
    requires x.key.user == r.key.user && x.key.Tag() <= r.key.Tag()
    ensures var next := ContinuationFor(files, in1, r); next.Some? && x.key.Tag() <= next.value.key.Tag()
  {
    ContinuationExists(files, in1, f, x, r);
  }

  lemma Located(levels: seq<seq<File>>, l: nat, in0: seq<File>, in1: seq<File>, x: Entry) returns (m: nat, f: File)
    requires Ordered(levels) && l + 1 < kNumLevels && x in Rest(levels, l, in0, in1)
    ensures m < kNumLevels && f in levels[m] && x in f.entries
    ensures !(m == l && f in in0) && !(m == l + 1 && f in in1)
  {
    hide Rest, ValidFiles, SortedLevel, NewestByNumber, Newer;
    UnpackRest(levels, l, in0, in1, x);
    m, f :| 0 <= m < kNumLevels && f in levels[m] && x in f.entries
            && !(m == l && f in in0) && !(m == l + 1 && f in in1);
  }

  lemma UnpackRest(levels: seq<seq<File>>, l: nat, in0: seq<File>, in1: seq<File>, x: Entry)
    requires Ordered(levels) && l + 1 < kNumLevels && x in Rest(levels, l, in0, in1)
    ensures InRest(levels, l, in0, in1, x)
  {
  }

  lemma OneDown(levels: seq<seq<File>>, l: nat)
    requires Ordered(levels) && l + 1 < kNumLevels
    ensures ValidFiles(levels[l + 1]) && SortedLevel(levels[l + 1])
  {
  }

  // ----- the theorem -----

  // A compaction of level l: its inputs, their merge, the entries above it (memtables, and tables flushed while
  // it went on), smallest_snapshot, taken when it began, and the oldest snapshot to serve when it ends.
  datatype Job = Job(levels: seq<seq<File>>, l: nat, in0: seq<File>, in1: seq<File>,
                     input: seq<Entry>, above: set<Entry>, smallest: nat, floor: nat) {
    ghost predicate Placed() {
      Ordered(levels) && l + 1 < kNumLevels && GoodInputs(levels, l, in0, in1)
    }

    ghost predicate Valid() {
      && Placed()
      && Sorted(input) && AllParse(input) && Elements(input) == Inputs()
      && Newer(above, Inputs()) && smallest <= floor
    }

    ghost function Inputs(): set<Entry> { Stored(in0) + Stored(in1) }

    ghost function Survivors(): set<Entry>
      requires Ordered(levels)
    { Elements(Kept(levels, l, input, |input|, smallest)) }

    // All entries of the store before and after the compaction.
    ghost function Before(): set<Entry>
      requires Ordered(levels) && l + 1 < kNumLevels
    { above + (Rest(levels, l, in0, in1) + Inputs()) }

    ghost function After(): set<Entry>
      requires Ordered(levels) && l + 1 < kNumLevels
    { above + (Rest(levels, l, in0, in1) + Survivors()) }

    // The version of r's user key that remains on the output level once r is dropped.
    ghost function Under(r: Entry): Option<Entry>
      requires Placed()
    { ContinuationFor(levels[l + 1], in1, r) }

    // r is a deletion marker of the output level's inputs, the newest version at the oldest snapshot
    // to serve and about to be dropped, while the next file of that level begins with an
    // older value for the same user key.
    ghost predicate LosesTombstone(r: Entry)
      requires Placed()
    {
      && r in Stored(in1) && ObsoleteMarker(levels, l, r, smallest)
      && Under(r).Some? && Under(r).value.key.kind == kTypeValue
      && IsNewest(Before(), r.key.user, floor, Some(r))
    }

    ghost predicate Loses(user: UserKey)
      requires Placed()
    {
      exists r: Entry :: r.key.user == user && LosesTombstone(r)
    }
  }

  lemma ValidIsPlaced(j: Job)
    requires j.Valid()
    ensures j.Placed() && Ordered(j.levels) && j.l + 1 < kNumLevels && GoodInputs(j.levels, j.l, j.in0, j.in1)
  {
  }

  lemma SurvivorsAreInputs(j: Job)
    requires j.Valid()
    ensures j.Survivors() <= j.Inputs()
  {
    KeptIff(j.levels, j.l, j.input, |j.input|, j.smallest);
    forall e | e in j.Survivors() ensures e in Elements(j.input) {}
  }

  // A read decided by a dropped marker falls through to what remains under it.
  lemma MarkerRead(j: Job, user: UserKey, s: nat, r: Entry)
    requires j.Valid() && j.smallest <= s && IsNewest(j.Before(), user, s, Some(r))
    requires r in j.Inputs() && ObsoleteMarker(j.levels, j.l, r, j.smallest)
    ensures IsNewest(j.After(), user, s, j.Under(r))
  {
    assert IsNewest(Elements(j.input), user, s, Some(r));
    MergeRead(j.levels, j.l, j.input, j.smallest, user, s, r);
    NextUnderMarker(j.levels, j.l, j.in0, j.in1, r);
    DroppedMarkerRead(j.above, Rest(j.levels, j.l, j.in0, j.in1), j.Inputs(), j.Survivors(), user, s, r, j.Under(r));
  }

  // Every other read is decided by the same entry as before.
  lemma OtherRead(j: Job, user: UserKey, s: nat, r: Option<Entry>)
    requires j.Valid() && j.smallest <= s && IsNewest(j.Before(), user, s, r)
    requires r.Some? && r.value in j.Inputs() ==> !ObsoleteMarker(j.levels, j.l, r.value, j.smallest)
    ensures IsNewest(j.After(), user, s, r)
  {
    SurvivorsAreInputs(j);
    if r.Some? && r.value in j.Inputs() {
      assert IsNewest(Elements(j.input), user, s, r);
      MergeRead(j.levels, j.l, j.input, j.smallest, user, s, r.value);
    }
    UndroppedRead(j.above, Rest(j.levels, j.l, j.in0, j.in1), j.Inputs(), j.Survivors(), user, s, r);
  }

  lemma MarkerReadSurvives(j: Job, user: UserKey, s: nat, r: Entry)
    requires j.Valid() && j.floor <= s && IsNewest(j.Before(), user, s, Some(r)) && !j.LosesTombstone(r)
    requires r in j.Inputs() && ObsoleteMarker(j.levels, j.l, r, j.smallest)
    ensures SameRead(j.Before(), j.After(), user, s)
  {
    MarkerRead(j, user, s, r);
    NewestAtLower(j.Before(), user, s, j.floor, r);
    assert !j.LosesTombstone(r);
    SameReadIntro(j.Before(), j.After(), user, s, Some(r), j.Under(r));
  }

  lemma ReadSurvives(j: Job, user: UserKey, s: nat)
    requires j.Valid() && j.floor <= s && !j.Loses(user)
    ensures SameRead(j.Before(), j.After(), user, s)
  {
    var r := NewestExists(j.Before(), user, s);
    if DecidedByMarker(j, r) {
      MarkerReadSurvives(j, user, s, r.value);
    } else {
      OtherReadSurvives(j, user, s, r);
    }
  }

  ghost predicate DecidedByMarker(j: Job, r: Option<Entry>)
    requires j.Placed()
  {
    r.Some? && r.value in j.Inputs() && ObsoleteMarker(j.levels, j.l, r.value, j.smallest)
  }

  lemma OtherReadSurvives(j: Job, user: UserKey, s: nat, r: Option<Entry>)
    requires j.Valid() && j.smallest <= s && IsNewest(j.Before(), user, s, r) && !DecidedByMarker(j, r)
    ensures SameRead(j.Before(), j.After(), user, s)
  {
    OtherRead(j, user, s, r);
    SameReadIntro(j.Before(), j.After(), user, s, r, r);
  }

  // A lost tombstone makes a deleted key reappear at the oldest snapshot.
  lemma LostTombstoneResurrects(j: Job, r: Entry)
    requires j.Valid() && j.LosesTombstone(r)
    ensures !SameRead(j.Before(), j.After(), r.key.user, j.floor)
  {
    var user, s := r.key.user, j.floor;
    MarkerRead(j, user, s, r);
    forall a, b | IsNewest(j.Before(), user, s, a) && IsNewest(j.After(), user, s, b) ensures Outcome(a) != Outcome(b) {
      NewestAgree(j.Before(), user, s, a, Some(r));
      NewestAgree(j.After(), user, s, b, j.Under(r));
    }
  }

  // The reads of a user key survive exactly when none of its tombstones is lost.
  lemma ExactlyWhenNoTombstoneIsLost(j: Job, user: UserKey)
    requires j.Valid()
    ensures (forall s :: s >= j.floor ==> SameRead(j.Before(), j.After(), user, s))
       <==> !j.Loses(user)
  {
    if j.Loses(user) {
      var r: Entry :| r.key.user == user && j.LosesTombstone(r);
      LostTombstoneResurrects(j, r);
    } else {
      forall s | s >= j.floor ensures SameRead(j.Before(), j.After(), user, s) {
        ReadSurvives(j, user, s);
      }
    }
  }

  // With the inputs of the output level closed under continuation nothing can be lost.
  lemma ClosedInputsLoseNothing(j: Job, r: Entry)
    requires j.Valid() && Continuation(j.levels[j.l + 1], j.in1).None?
    ensures !j.LosesTombstone(r)
  {
    hide ObsoleteMarker, IsNewest, Stored, Job.Before, Job.Inputs, Newer, IsRun, Continuation, ContinuationFor, SortedLevel, Apart, NewerStays;
    NoContinuationFor(j.levels[j.l + 1], j.in1, r);
  }

  lemma NoContinuationFor(files: seq<File>, in1: seq<File>, r: Entry)
    requires ValidFiles(files) && ValidFiles(in1) && IsRun(files, in1) && Continuation(files, in1).None?
    ensures ContinuationFor(files, in1, r).None?
  {
  }
}
