/** A log file as any sequence of intact fragments, as several writers, some of them cut short, may leave it: which records
    are read and what is reported. */
module LogFragments {
  import opened Keys
  import opened Coding
  import opened LogFormat
  import opened LogReader
  import opened LogRoundTrip

  datatype Fragment = Fragment(t: byte, payload: Bytes)

  // Fragments one after the other from a block offset on, none across the edge of a block.
  ghost predicate Fit(fs: seq<Fragment>, off: nat)
    requires off <= kBlockSize
    decreases |fs|
  {
    fs != [] ==>
      && fs[0].t != kZeroType && Start(off) + kHeaderSize + |fs[0].payload| <= kBlockSize
      && Fit(fs[1..], Start(off) + kHeaderSize + |fs[0].payload|)
  }

  function Laid(fs: seq<Fragment>, off: nat): Bytes
    requires off <= kBlockSize && Fit(fs, off)
    decreases |fs|
  {
    if fs == [] then []
    else
      Zeros(Padding(off)) + Physical(fs[0].t, fs[0].payload) + Laid(fs[1..], Start(off) + kHeaderSize + |fs[0].payload|)
  }

  // The reader's own codes for the end of the file and a bad fragment are the next two numbers.
  predicate Told(t: byte) { t != 5 && t != 6 }

  // A record begins with fragment i, and those after it up to n go on with it.
  ghost predicate Open(fs: seq<Fragment>, i: nat, n: nat) {
    i < n <= |fs| && fs[i].t == kFirstType && forall k :: i < k < n ==> fs[k].t == kMiddleType
  }

  // The fragments i .. n - 1 are a record.
  ghost predicate Whole(fs: seq<Fragment>, i: nat, n: nat) {
    && i < n <= |fs|
    && ((i + 1 == n && fs[i].t == kFullType) || (i + 1 < n && Open(fs, i, n - 1) && fs[n - 1].t == kLastType))
  }

  function TextOf(fs: seq<Fragment>, i: nat, n: nat): Bytes
    requires n <= |fs|
  {
    if n <= i then [] else TextOf(fs, i, n - 1) + fs[n - 1].payload
  }

  // The record that ends with fragment n - 1.
  ghost function RecordTo(fs: seq<Fragment>, n: nat): Option<Bytes> {
    if k: nat :| Whole(fs, k, n) then Some(TextOf(fs, k, n)) else None
  }

  // The records that end with fragment i or after it, in order.
  ghost function RecordsFrom(fs: seq<Fragment>, i: nat): seq<Bytes>
    requires i <= |fs|
    decreases |fs| - i
  {
    if i == |fs| then []
    else
      var r := RecordTo(fs, i + 1);
      (if r.Some? then [r.value] else []) + RecordsFrom(fs, i + 1)
  }

  // A record has begun and goes on with fragment n - 1; this is its text so far.
  ghost function OpenText(fs: seq<Fragment>, n: nat): Option<Bytes> {
    if k: nat :| Open(fs, k, n) then Some(TextOf(fs, k, n)) else None
  }

  // A fragment that goes on with a record when none is open, one that begins a record while another that has text is open,
  // or one of an unknown type.
  ghost predicate Reported(fs: seq<Fragment>, i: nat)
    requires i < |fs|
  {
    if fs[i].t == kMiddleType || fs[i].t == kLastType then OpenText(fs, i).None?
    else if fs[i].t == kFullType || fs[i].t == kFirstType then OpenText(fs, i).Some? && OpenText(fs, i).value != []
    else true
  }

  ghost function ReportsFrom(fs: seq<Fragment>, i: nat): nat
    requires i <= |fs|
    decreases |fs| - i
  {
    if i == |fs| then 0 else (if Reported(fs, i) then 1 else 0) + ReportsFrom(fs, i + 1)
  }

  // ----- the reader's state -----

  lemma OpenIs(fs: seq<Fragment>, k: nat, n: nat)
    requires Open(fs, k, n)
    ensures OpenText(fs, n) == Some(TextOf(fs, k, n))
  {
    var j: nat :| Open(fs, j, n) && OpenText(fs, n) == Some(TextOf(fs, j, n));
  }

  lemma WholeIs(fs: seq<Fragment>, k: nat, n: nat)
    requires Whole(fs, k, n)
    ensures RecordTo(fs, n) == Some(TextOf(fs, k, n))
  {
    var j: nat :| Whole(fs, j, n) && RecordTo(fs, n) == Some(TextOf(fs, j, n));
  }

  // What is open after one more fragment, and what record it ends.
  lemma OneMore(fs: seq<Fragment>, i: nat)
    requires i < |fs|
    ensures var t, x, text := fs[i].t, fs[i].payload, OpenText(fs, i);
            && OpenText(fs, i + 1) == (if t == kFirstType then Some(x) else if t == kMiddleType && text.Some? then Some(text.value + x) else None)
            && RecordTo(fs, i + 1) == (if t == kFullType then Some(x) else if t == kLastType && text.Some? then Some(text.value + x) else None)
  {
    var t, x, n := fs[i].t, fs[i].payload, i + 1;
    assert TextOf(fs, i, n) == [] + x == x;
    if t == kFirstType { OpenIs(fs, i, n); }
    if t == kFullType { WholeIs(fs, i, n); }
    if OpenText(fs, i).Some? {
      var k: nat :| Open(fs, k, i) && OpenText(fs, i) == Some(TextOf(fs, k, i));
      if t == kMiddleType { OpenIs(fs, k, n); }
      if t == kLastType { WholeIs(fs, k, n); }
    }
    forall k: nat | Open(fs, k, n) && k != i ensures Open(fs, k, i) {}
    forall k: nat | Whole(fs, k, n) && t != kFullType ensures Open(fs, k, i) {}
  }

  // One turn of the reader's loop.
  lemma OneFragment(fs: seq<Fragment>, i: nat)
    requires i < |fs| && fs[i].t != kZeroType && Told(fs[i].t)
    ensures var turn := OneTurn(ValueOf(fs[i].t), fs[i].payload, OpenText(fs, i));
            && turn.drops == (if Reported(fs, i) then 1 else 0)
            && if RecordTo(fs, i + 1).Some? then turn.Stop? && turn.record == RecordTo(fs, i + 1) && OpenText(fs, i + 1).None?
               else turn.Go? && turn.scratch == OpenText(fs, i + 1)
  {
    OneMore(fs, i);
    hide OpenText, RecordTo;
  }

  // What is read from a position on with this scratch.
  ghost function AllFrom(file: Bytes, p: nat, scratch: Option<Bytes>): Outcome
    requires p <= |file|
  {
    var r := ReadLogical(file, p, scratch);
    if r.record.None? then Outcome([], r.drops)
    else
      var rest := ReadAllFrom(file, r.next);
      Outcome([r.record.value] + rest.records, r.drops + rest.drops)
  }

  lemma NothingLaid(off: nat)
    requires off <= kBlockSize
    ensures Fit([], off) && Laid([], off) == []
  {
  }

  lemma FirstFound(file: Bytes, p: nat, off: nat, fs: seq<Fragment>)
    requires off <= kBlockSize && fs != [] && Fit(fs, off) && Found(file, p, Laid(fs, off))
    ensures var t, x, next := fs[0].t, fs[0].payload, Start(off) + kHeaderSize + |fs[0].payload|;
            && t != kZeroType && next <= kBlockSize && Fit(fs[1..], next) && Found(file, p, Zeros(Padding(off)) + Physical(t, x))
            && Found(file, p + Padding(off) + kHeaderSize + |x|, Laid(fs[1..], next))
            && |Laid(fs, off)| == Padding(off) + kHeaderSize + |x| + |Laid(fs[1..], next)|
  {
    hide Zeros, Physical, Found;
    FoundParts(file, p, Zeros(Padding(off)) + Physical(fs[0].t, fs[0].payload), Laid(fs[1..], Start(off) + kHeaderSize + |fs[0].payload|));
  }

  lemma {:induction false} FragmentsRead(file: Bytes, p: nat, off: nat, fs: seq<Fragment>, i: nat)
    requires off <= kBlockSize && p % kBlockSize == off % kBlockSize && i <= |fs| && Fit(fs[i..], off)
    requires Found(file, p, Laid(fs[i..], off)) && p + |Laid(fs[i..], off)| == |file|
    requires forall k :: i <= k < |fs| ==> Told(fs[k].t)
    ensures AllFrom(file, p, OpenText(fs, i)) == Outcome(RecordsFrom(fs, i), ReportsFrom(fs, i))
    decreases |fs| - i
  {
    hide ReadLogical, ReadPhysical, Found, Zeros, Physical, OneTurn, ValueOf, OpenText, RecordTo, Reported, Laid;
    if i == |fs| {
      NothingLaid(off);
      EndOfFile(file);
      ReadLogicalTurn(file, p, OpenText(fs, i));
      EndTurns(ReadPhysical(file, p), OpenText(fs, i));
    } else {
      var t, x, end := fs[i].t, fs[i].payload, p + Padding(off) + kHeaderSize + |fs[i].payload|;
      assert fs[i..][0] == fs[i] && fs[i..][1..] == fs[i + 1..];
      FirstFound(file, p, off, fs[i..]);
      PieceReadsWhole(file, p, off, t, x);
      ReadLogicalTurn(file, p, OpenText(fs, i));
      OneFragment(fs, i);
      OffsetMoves(p, off, kHeaderSize + |x|);
      FragmentsRead(file, end, Start(off) + kHeaderSize + |x|, fs, i + 1);
    }
  }

  // Whatever fragments a file is made of: the groups of a first, middle ones and a last, and the full ones, are the records
  // that are read, and each fragment out of place is reported once.
  lemma AnyFragments(fs: seq<Fragment>)
    requires Fit(fs, 0) && forall k :: 0 <= k < |fs| ==> Told(fs[k].t)
    ensures ReadAllFrom(Laid(fs, 0), 0) == Outcome(RecordsFrom(fs, 0), ReportsFrom(fs, 0))
  {
    assert fs[0..] == fs;
    assert OpenText(fs, 0).None?;
    FragmentsRead(Laid(fs, 0), 0, 0, fs, 0);
    hide ReadLogical, Laid;
  }

  // A fragment whose type is the reader's own code for the end of the file ends it.
  lemma TypeFiveEnds(x: Bytes, more: seq<Fragment>)
    requires Fit([Fragment(5, x)] + more, 0)
    ensures ReadAllFrom(Laid([Fragment(5, x)] + more, 0), 0) == Outcome([], 0)
  {
    var fs := [Fragment(5, x)] + more;
    var file := Laid(fs, 0);
    assert file[0..|file|] == file;
    FirstFound(file, 0, 0, fs);
    EndsAt(file, x);
  }

  lemma EndsAt(file: Bytes, x: Bytes)
    requires kHeaderSize + |x| <= kBlockSize && Found(file, 0, Zeros(Padding(0)) + Physical(5, x))
    ensures ReadAllFrom(file, 0) == Outcome([], 0)
  {
    hide ReadPhysical, ReadLogical, Physical, Zeros, Found, OneTurn;
    PieceReadsWhole(file, 0, 0, 5, x);
    ReadLogicalTurn(file, 0, None);
    EndTurns(ReadPhysical(file, 0), None);
  }
}
