/** A written log with one byte changed, other than the length of a fragment: what the reader still returns. */
module LogCorruption {
  import opened Keys
  import opened Coding
  import opened Crc32c
  import opened LogFormat
  import opened LogReader
  import opened LogRoundTrip

  // Among the fragments written at p for `left` is one of type t with payload x, its header at `at`.
  ghost predicate InFragments(p: nat, off: nat, left: Bytes, begin: bool, at: nat, t: byte, x: Bytes)
    requires off <= kBlockSize
    decreases |left|, kBlockSize - off
  {
    var n := FragmentLength(off, |left|);
    || (at == p + Padding(off) && t == TypeOf(begin, n == |left|) && x == left[..n])
    || (n < |left| && InFragments(p + Padding(off) + kHeaderSize + n, Start(off) + kHeaderSize + n, left[n..], false, at, t, x))
  }

  // A fragment of record k of the log.
  ghost predicate FragmentOf(records: seq<Bytes>, k: nat, at: nat, t: byte, x: Bytes)
    requires k < |records|
  {
    InFragments(EndOf(records, k), EndOf(records, k) % kBlockSize, records[k], true, at, t, x)
  }

  // c is a byte of the checksum, the type or the payload.
  predicate Covered(at: nat, x: Bytes, c: nat) {
    at <= c < at + 4 || at + 6 <= c < at + kHeaderSize + |x|
  }

  // The change makes it look like space that was only set aside.
  predicate Blank(at: nat, x: Bytes, c: nat, b: byte) {
    c == at + 6 && x == [] && b == kZeroType
  }

  // Where the header of record k is.
  ghost function HeaderOf(records: seq<Bytes>, k: nat): nat
    requires k <= |records|
  {
    EndOf(records, k) + Padding(EndOf(records, k) % kBlockSize)
  }

  // The first record, from k on, whose header is not before `edge`.
  ghost function Resumes(records: seq<Bytes>, edge: nat, k: nat): (m: nat)
    requires k <= |records|
    ensures k <= m <= |records|
    decreases |records| - k
  {
    if k < |records| && HeaderOf(records, k) < edge then Resumes(records, edge, k + 1) else k
  }

  // How many of the fragments written at p for `left` have their headers at `edge` or after it.
  function FragmentsPast(p: nat, off: nat, left: nat, edge: nat): nat
    requires off <= kBlockSize
    decreases left, kBlockSize - off
  {
    var n := FragmentLength(off, left);
    (if p + Padding(off) >= edge then 1 else 0)
    + if n == left then 0 else FragmentsPast(p + Padding(off) + kHeaderSize + n, Start(off) + kHeaderSize + n, left - n, edge)
  }

  // ... for the record before the one where reading resumes: its fragments there lack their beginning.
  ghost function Orphans(records: seq<Bytes>, edge: nat, m: nat): nat
    requires m <= |records|
  {
    if m == 0 then 0 else FragmentsPast(EndOf(records, m - 1), EndOf(records, m - 1) % kBlockSize, |records[m - 1]|, edge)
  }

  // ----- the damaged fragment -----

  lemma Words(b0: byte, b1: byte, b2: byte, b3: byte)
    ensures var w := Wide(b0) | (Wide(b1) << 8) | (Wide(b2) << 16) | (Wide(b3) << 24);
            LowByte(w) == b0 && LowByte(Down(w)) == b1 && LowByte(Down(Down(w))) == b2 && LowByte(Down(Down(Down(w)))) == b3
  {
  }

  lemma ReadBytes(file: Bytes, p: nat)
    requires p + 4 <= |file|
    ensures var w := ReadUint32LE(file, p);
            && LowByte(w) == file[p] && LowByte(Down(w)) == file[p + 1]
            && LowByte(Down(Down(w))) == file[p + 2] && LowByte(Down(Down(Down(w)))) == file[p + 3]
  {
    Words(file[p], file[p + 1], file[p + 2], file[p + 3]);
    hide Wide, LowByte, Down;
  }

  lemma ChecksumChanges(file: Bytes, g: Bytes, at: nat, x: Bytes, c: nat)
    requires |g| == |file| && at + kHeaderSize + |x| <= |file| && at <= c < at + 4 && g[c] != file[c]
    requires g[at + 6..at + 7 + |x|] == file[at + 6..at + 7 + |x|] && ChecksumFits(file[at + 6..at + 7 + |x|], ReadUint32LE(file, at))
    ensures !ChecksumFits(g[at + 6..at + 7 + |x|], ReadUint32LE(g, at))
  {
    hide Value, Mask, Unmask, ReadUint32LE, LowByte, Down;
    ReadBytes(file, at);
    ReadBytes(g, at);
    MaskUnmask(ReadUint32LE(file, at));
    MaskUnmask(ReadUint32LE(g, at));
  }

  lemma DataChanges(file: Bytes, g: Bytes, at: nat, x: Bytes, c: nat)
    requires |g| == |file| && at + kHeaderSize + |x| <= |file| && at + 6 <= c < at + kHeaderSize + |x| && g[c] != file[c]
    requires forall i :: 0 <= i < |file| && i != c ==> g[i] == file[i]
    requires ReadUint32LE(g, at) == ReadUint32LE(file, at) && ChecksumFits(file[at + 6..at + 7 + |x|], ReadUint32LE(file, at))
    ensures !ChecksumFits(g[at + 6..at + 7 + |x|], ReadUint32LE(g, at))
  {
    hide Value, Unmask, ReadUint32LE;
    var data, data' := file[at + 6..at + 7 + |x|], g[at + 6..at + 7 + |x|];
    var i := c - (at + 6);
    assert data == data[..i] + [file[c]] + data[i + 1..];
    assert data' == data[..i] + [g[c]] + data[i + 1..];
    CorruptByteShows(data[..i], file[c], g[c], data[i + 1..]);
  }

  // file with byte c changed
  ghost predicate Changed(file: Bytes, g: Bytes, c: nat) {
    c < |file| && |g| == |file| && g[c] != file[c] && forall i :: 0 <= i < |file| && i != c ==> g[i] == file[i]
  }

  lemma FieldsStay(file: Bytes, g: Bytes, at: nat, x: Bytes, c: nat)
    requires Changed(file, g, c) && Covered(at, x, c) && at + kHeaderSize + |x| <= |file|
    ensures LengthAt(g, at) == LengthAt(file, at) && (c != at + 6 ==> g[at + 6] == file[at + 6])
    ensures if c < at + 4 then g[at + 6..at + 7 + |x|] == file[at + 6..at + 7 + |x|] else ReadUint32LE(g, at) == ReadUint32LE(file, at)
  {
  }

  lemma Damaged(file: Bytes, g: Bytes, at: nat, t: byte, x: Bytes, c: nat)
    requires t != kZeroType && at % kBlockSize + kHeaderSize + |x| <= kBlockSize && Found(file, at, Physical(t, x))
    requires Changed(file, g, c) && Covered(at, x, c)
    ensures at + kHeaderSize + |x| <= |g|
    ensures ReadPhysical(g, at) == Piece(kBadRecord, [], Least(BlockEnd(at), |g|), if Blank(at, x, c, g[c]) then 0 else 1)
  {
    HeaderFields(file, at, t, x);
    hide ChecksumFits, LengthAt, ReadUint32LE, Found, Physical, ParseHeader;
    assert at + kHeaderSize + |x| <= |file| by { InFile(file, at, t, x); }
    FieldsStay(file, g, at, x, c);
    if c < at + 4 { ChecksumChanges(file, g, at, x, c); } else { DataChanges(file, g, at, x, c); }
    Parses(g, at, Least(BlockEnd(at), |g|));
  }

  lemma InFile(file: Bytes, at: nat, t: byte, x: Bytes)
    requires |x| < 65536 && Found(file, at, Physical(t, x))
    ensures at + kHeaderSize + |x| <= |file|
  {
  }

  // ----- up to the damaged fragment -----

  lemma {:induction false} InFragmentsFacts(file: Bytes, p: nat, off: nat, left: Bytes, begin: bool, at: nat, t: byte, x: Bytes)
    requires off <= kBlockSize && p % kBlockSize == off % kBlockSize
    requires InFragments(p, off, left, begin, at, t, x) && Found(file, p, Fragments(off, left, begin))
    requires !begin ==> off == kBlockSize && left != []
    ensures at >= p + Padding(off) && at + kHeaderSize + |x| <= p + |Fragments(off, left, begin)|
    ensures t != kZeroType && at % kBlockSize + kHeaderSize + |x| <= kBlockSize && Found(file, at, Physical(t, x))
    ensures at == p + Padding(off) ==> t == TypeOf(begin, FragmentLength(off, |left|) == |left|) && x == left[..FragmentLength(off, |left|)]
    ensures at > p + Padding(off) ==> x != [] && at >= p + Padding(off) + kHeaderSize + FragmentLength(off, |left|)
    decreases |left|, kBlockSize - off
  {
    hide Fragments, Found, Physical, Zeros, TypeOf;
    var n := FragmentLength(off, |left|);
    WrittenTypes(begin, n == |left|);
    FirstFragment(file, p, off, left, begin);
    FoundParts(file, p, Zeros(Padding(off)), Physical(TypeOf(begin, n == |left|), left[..n]));
    StartsInBlock(p, off);
    if at != p + Padding(off) || t != TypeOf(begin, n == |left|) || x != left[..n] {
      OffsetMoves(p, off, kHeaderSize + n);
      InFragmentsFacts(file, p + Padding(off) + kHeaderSize + n, Start(off) + kHeaderSize + n, left[n..], false, at, t, x);
      FullBlockHolds(|left[n..]|);
    }
  }

  lemma StartsInBlock(p: nat, off: nat)
    requires off <= kBlockSize && p % kBlockSize == off % kBlockSize
    ensures (p + Padding(off)) % kBlockSize == Start(off)
  {
    OffsetMoves(p, off, 0);
  }

  lemma FullBlockHolds(left: nat)
    requires left > 0
    ensures FragmentLength(kBlockSize, left) > 0
  {
  }

  // The damaged fragment is reported unless it looks blank, and once more when it breaks a record already begun.
  function Cost(silent: bool, inside: bool): nat { (if silent then 0 else 1) + (if inside then 1 else 0) }

  // Reading the damaged fragment, before its padding, drops the rest of its block.
  lemma DamagedTurn(file: Bytes, g: Bytes, p: nat, off: nat, at: nat, t: byte, x: Bytes, c: nat, scratch: Option<Bytes>)
    requires off <= kBlockSize && p % kBlockSize == off % kBlockSize && at == p + Padding(off)
    requires t != kZeroType && at % kBlockSize + kHeaderSize + |x| <= kBlockSize && Found(file, at, Physical(t, x))
    requires Changed(file, g, c) && Covered(at, x, c)
    ensures p <= |g| && ReadLogical(g, p, scratch)
         == After(Cost(Blank(at, x, c, g[c]), scratch.Some?), ReadLogical(g, Least(BlockEnd(at), |g|), None))
  {
    hide ReadLogical, ReadPhysical, Found, Physical, Blank, Changed, Covered, Least, BlockEnd;
    Damaged(file, g, at, t, x, c);
    PaddingSkipped(g, p, off);
    ReadLogicalTurn(g, p, scratch);
  }

  lemma PaddingSkipped(g: Bytes, p: nat, off: nat)
    requires off <= kBlockSize && p % kBlockSize == off % kBlockSize && p + Padding(off) < |g|
    ensures ReadPhysical(g, p) == ReadPhysical(g, p + Padding(off))
  {
    if Padding(off) > 0 { assert p + Padding(off) == BlockEnd(p); }
  }

  // From the first fragment of a record to the damaged one.
  lemma {:induction false} ReachesDamage(file: Bytes, g: Bytes, p: nat, off: nat, left: Bytes, begin: bool, scratch: Option<Bytes>,
                                         at: nat, t: byte, x: Bytes, c: nat)
    requires off <= kBlockSize && p % kBlockSize == off % kBlockSize && Scratch(scratch, begin)
    requires InFragments(p, off, left, begin, at, t, x) && Found(file, p, Fragments(off, left, begin))
    requires !begin ==> off == kBlockSize && left != []
    requires Changed(file, g, c) && Covered(at, x, c)
    ensures p <= |g| && ReadLogical(g, p, scratch)
         == After(Cost(Blank(at, x, c, g[c]), !begin || at > p + Padding(off)), ReadLogical(g, Least(BlockEnd(at), |g|), None))
    decreases |left|, kBlockSize - off
  {
    hide Fragments, Found, Physical, ReadLogical, ReadPhysical, Zeros, TypeOf, Least, Blank, OneTurn, ValueOf;
    InFragmentsFacts(file, p, off, left, begin, at, t, x);
    if at == p + Padding(off) {
      DamagedTurn(file, g, p, off, at, t, x, c, scratch);
    } else {
      var n := FragmentLength(off, |left|);
      var end := p + Padding(off) + kHeaderSize + n;
      var t0 := TypeOf(begin, false);
      WrittenTypes(begin, false);
      FirstFragment(file, p, off, left, begin);
      assert SameUpTo(file, g, c);
      FoundUpTo(file, g, c, p, Zeros(Padding(off)) + Physical(t0, left[..n]));
      PieceReadsWhole(g, p, off, t0, left[..n]);
      ReadLogicalTurn(g, p, scratch);
      TypeTurns(begin, false, left[..n], scratch);
      OffsetMoves(p, off, kHeaderSize + n);
      ReachesDamage(file, g, end, Start(off) + kHeaderSize + n, left[n..], false, Some(Text(scratch) + left[..n]), at, t, x, c);
    }
  }

  // The files agree on the first n bytes.
  ghost predicate SameUpTo(file: Bytes, g: Bytes, n: nat) {
    n <= |file| && n <= |g| && forall i :: 0 <= i < n ==> g[i] == file[i]
  }

  lemma FoundUpTo(file: Bytes, g: Bytes, n: nat, p: nat, s: Bytes)
    requires SameUpTo(file, g, n) && Found(file, p, s) && p + |s| <= n
    ensures Found(g, p, s)
  {
    assert g[p..p + |s|] == file[p..p + |s|];
  }

  // ----- after the damaged block -----

  // The files agree from the edge of a block on.
  ghost predicate SameFrom(file: Bytes, g: Bytes, edge: nat) {
    |g| == |file| && edge % kBlockSize == 0 && forall i :: edge <= i < |file| ==> g[i] == file[i]
  }

  lemma FoundFrom(file: Bytes, g: Bytes, edge: nat, p: nat, s: Bytes)
    requires SameFrom(file, g, edge) && Found(file, p, s) && edge <= p
    ensures Found(g, p, s)
  {
    assert g[p..p + |s|] == file[p..p + |s|];
  }

  // Fragments whose next header is at or past the edge go on right there.
  lemma AtEdge(file: Bytes, p: nat, off: nat, left: Bytes, begin: bool, edge: nat)
    requires off <= kBlockSize && p % kBlockSize == off % kBlockSize && edge % kBlockSize == 0
    requires p <= edge <= p + Padding(off) && Found(file, p, Fragments(off, left, begin))
    ensures Found(file, edge, Fragments(0, left, begin))
    ensures edge + |Fragments(0, left, begin)| == p + |Fragments(off, left, begin)|
  {
    PaddingFirst(off, left, begin);
    EdgeIsNext(p, off, edge);
    BlockEdge(left, begin);
    hide Fragments, Zeros;
    FoundParts(file, p, Zeros(Padding(off)), Fragments(Start(off), left, begin));
  }

  lemma EdgeIsNext(p: nat, off: nat, edge: nat)
    requires off <= kBlockSize && p % kBlockSize == off % kBlockSize && edge % kBlockSize == 0 && p <= edge <= p + Padding(off)
    ensures edge == p + Padding(off) && Start(off) == 0
  {
    StartsInBlock(p, off);
  }

  // The padding comes first.
  lemma PaddingFirst(off: nat, left: Bytes, begin: bool)
    requires off <= kBlockSize
    ensures Fragments(off, left, begin) == Zeros(Padding(off)) + Fragments(Start(off), left, begin)
  {
    hide Physical;
    assert Zeros(0) == [] && Padding(Start(off)) == 0 && Start(Start(off)) == Start(off);
  }

  // The fragments of a record whose first is missing are reported one by one.
  lemma {:induction false} OrphansSkipped(g: Bytes, p: nat, off: nat, left: Bytes, edge: nat)
    requires off <= kBlockSize && p % kBlockSize == off % kBlockSize && Found(g, p, Fragments(off, left, false)) && edge <= p
    ensures FragmentsPast(p, off, |left|, edge) > 0 && p + |Fragments(off, left, false)| <= |g|
    ensures ReadLogical(g, p, None) == After(FragmentsPast(p, off, |left|, edge), ReadLogical(g, p + |Fragments(off, left, false)|, None))
    decreases |left|, kBlockSize - off
  {
    hide Fragments, Found, Physical, ReadLogical, ReadPhysical, Zeros, TypeOf, OneTurn, ValueOf;
    var n := FragmentLength(off, |left|);
    var t, x := TypeOf(false, n == |left|), left[..n];
    WrittenTypes(false, n == |left|);
    FirstFragment(g, p, off, left, false);
    PieceReadsWhole(g, p, off, t, x);
    ReadLogicalTurn(g, p, None);
    OrphanTurn(n == |left|, x);
    if n < |left| {
      OffsetMoves(p, off, kHeaderSize + n);
      OrphansSkipped(g, p + Padding(off) + kHeaderSize + n, Start(off) + kHeaderSize + n, left[n..], edge);
    }
  }

  lemma OrphanTurn(end: bool, x: Bytes)
    ensures OneTurn(ValueOf(TypeOf(false, end)), x, None) == Go(None, 1)
  {
  }

  // Past the edge the same fragments remain, wherever they were begun.
  lemma PastEdge(p: nat, off: nat, left: nat, edge: nat)
    requires off <= kBlockSize && p % kBlockSize == off % kBlockSize && edge % kBlockSize == 0 && p <= edge <= p + Padding(off)
    ensures FragmentsPast(p, off, left, edge) == FragmentsPast(edge, 0, left, edge)
  {
    EdgeIsNext(p, off, edge);
  }

  // A record that ends before the edge has none.
  lemma {:induction false} NonePast(p: nat, off: nat, left: Bytes, begin: bool, edge: nat)
    requires off <= kBlockSize && p + |Fragments(off, left, begin)| <= edge
    ensures FragmentsPast(p, off, |left|, edge) == 0
    decreases |left|, kBlockSize - off
  {
    hide Physical, Zeros;
    var n := FragmentLength(off, |left|);
    if n < |left| { NonePast(p + Padding(off) + kHeaderSize + n, Start(off) + kHeaderSize + n, left[n..], false, edge); }
  }

  // A record begun before the edge that ends past it.
  lemma {:induction false} Straddles(file: Bytes, g: Bytes, p: nat, off: nat, left: Bytes, begin: bool, edge: nat)
    requires off <= kBlockSize && p % kBlockSize == off % kBlockSize && Found(file, p, Fragments(off, left, begin)) && SameFrom(file, g, edge)
    requires p <= edge < p + |Fragments(off, left, begin)| && (begin ==> p + Padding(off) < edge)
    ensures FragmentsPast(p, off, |left|, edge) > 0 && p + |Fragments(off, left, begin)| <= |g|
    ensures ReadLogical(g, edge, None) == After(FragmentsPast(p, off, |left|, edge), ReadLogical(g, p + |Fragments(off, left, begin)|, None))
    decreases |left|, kBlockSize - off
  {
    hide Fragments, Found, Physical, ReadLogical, ReadPhysical, Zeros, TypeOf;
    if p + Padding(off) >= edge {
      AtEdge(file, p, off, left, begin, edge);
      FoundFrom(file, g, edge, edge, Fragments(0, left, false));
      PastEdge(p, off, |left|, edge);
      OrphansSkipped(g, edge, 0, left, edge);
    } else {
      var n := FragmentLength(off, |left|);
      FirstFragment(file, p, off, left, begin);
      OffsetMoves(p, off, kHeaderSize + n);
      WithinBlock(p, off, kHeaderSize + n, edge);
      Straddles(file, g, p + Padding(off) + kHeaderSize + n, Start(off) + kHeaderSize + n, left[n..], false, edge);
    }
  }

  lemma WithinBlock(p: nat, off: nat, n: nat, edge: nat)
    requires off <= kBlockSize && p % kBlockSize == off % kBlockSize && edge % kBlockSize == 0
    requires p + Padding(off) < edge && Start(off) + n <= kBlockSize
    ensures p + Padding(off) + n <= edge
  {
    StartsInBlock(p, off);
  }

  // ----- whole records -----

  lemma WholeRecordReads(g: Bytes, p: nat, off: nat, record: Bytes)
    requires off <= kBlockSize && p % kBlockSize == off % kBlockSize && Found(g, p, Fragments(off, record, true))
    ensures p + |Fragments(off, record, true)| <= |g|
    ensures ReadLogical(g, p, None) == Logical(Some(record), p + |Fragments(off, record, true)|, 0)
  {
    hide Fragments, ReadLogical;
    assert g[..|g|] == g && [] + record == record;
    FragmentsRead(g, |g|, p, off, record, true, None);
  }

  lemma {:induction false} TailReads(records: seq<Bytes>, g: Bytes, edge: nat, k: nat)
    requires k <= |records| && SameFrom(LogOf(records), g, edge) && edge <= EndOf(records, k)
    ensures EndOf(records, k) <= |g| && ReadAllFrom(g, EndOf(records, k)) == Outcome(records[k..], 0)
    decreases |records| - k
  {
    hide ReadLogical, LogOf, EndOf, Fragments, Found;
    AllEnds(records);
    if k == |records| {
      NothingLeft(g);
    } else {
      LastEnd(records, k);
      RecordIn(records, k);
      var p := EndOf(records, k);
      FoundFrom(LogOf(records), g, edge, p, Fragments(p % kBlockSize, records[k], true));
      WholeRecordReads(g, p, p % kBlockSize, records[k]);
      TailReads(records, g, edge, k + 1);
      assert records[k..] == [records[k]] + records[k + 1..];
    }
  }

  lemma RecordIn(records: seq<Bytes>, k: nat)
    requires k < |records|
    ensures var p := EndOf(records, k);
            && Found(LogOf(records), p, Fragments(p % kBlockSize, records[k], true))
            && EndOf(records, k + 1) == p + |Fragments(p % kBlockSize, records[k], true)|
  {
    RecordFound(records, k);
  }

  ghost function Prepend(records: seq<Bytes>, drops: nat, o: Outcome): Outcome { Outcome(records + o.records, drops + o.drops) }

  lemma {:induction false} HeadReads(records: seq<Bytes>, g: Bytes, n: nat, i: nat, k: nat)
    requires i <= k <= |records| && SameUpTo(LogOf(records), g, n) && EndOf(records, k) <= n
    ensures EndOf(records, i) <= EndOf(records, k) <= |g|
    ensures ReadAllFrom(g, EndOf(records, i)) == Prepend(records[i..k], 0, ReadAllFrom(g, EndOf(records, k)))
    decreases k - i
  {
    hide ReadLogical, LogOf, EndOf, Fragments, Found;
    if i == k {
      assert records[i..k] == [];
    } else {
      EndsAscend(records, i, i + 1);
      EndsAscend(records, i + 1, k);
      RecordIn(records, i);
      var p := EndOf(records, i);
      FoundUpTo(LogOf(records), g, n, p, Fragments(p % kBlockSize, records[i], true));
      WholeRecordReads(g, p, p % kBlockSize, records[i]);
      HeadReads(records, g, n, i + 1, k);
      var rest := ReadAllFrom(g, EndOf(records, k));
      assert [records[i]] + (records[i + 1..k] + rest.records) == records[i..k] + rest.records;
    }
  }

  lemma DropsAdd(g: Bytes, p: nat, q: nat, d: nat)
    requires p <= |g| && q <= |g| && ReadLogical(g, p, None) == After(d, ReadLogical(g, q, None))
    ensures ReadAllFrom(g, p) == Prepend([], d, ReadAllFrom(g, q))
  {
    hide ReadLogical;
    var rest := ReadAllFrom(g, q).records;
    assert [] + rest == rest;
  }

  // Reading on from the edge of a block, record i being one that begins before it.
  lemma {:induction false} Resync(records: seq<Bytes>, g: Bytes, edge: nat, i: nat)
    requires i < |records| && SameFrom(LogOf(records), g, edge) && HeaderOf(records, i) < edge < |g|
    ensures var r, m := ReadAllFrom(g, edge), Resumes(records, edge, i + 1);
            r == Outcome(records[m..], Orphans(records, edge, m)) && (r.drops == 0 <==> EndOf(records, m) <= edge)
    decreases |records| - i
  {
    hide ReadLogical, LogOf, EndOf, Fragments, Found, FragmentsPast;
    AllEnds(records);
    LastEnd(records, i);
    RecordIn(records, i);
    var p, next := EndOf(records, i), EndOf(records, i + 1);
    if next > edge {
      Straddles(LogOf(records), g, p, p % kBlockSize, records[i], true, edge);
      DropsAdd(g, edge, next, FragmentsPast(p, p % kBlockSize, |records[i]|, edge));
      TailReads(records, g, edge, i + 1);
      assert [] + records[i + 1..] == records[i + 1..];
    } else {
      LastEnd(records, i + 1);
      RecordIn(records, i + 1);
      if HeaderOf(records, i + 1) >= edge {
        NonePast(p, p % kBlockSize, records[i], true, edge);
        AtEdge(LogOf(records), next, next % kBlockSize, records[i + 1], true, edge);
        FoundFrom(LogOf(records), g, edge, edge, Fragments(0, records[i + 1], true));
        WholeRecordReads(g, edge, 0, records[i + 1]);
        TailReads(records, g, edge, i + 2);
        assert records[i + 1..] == [records[i + 1]] + records[i + 2..];
      } else {
        Resync(records, g, edge, i + 1);
      }
    }
  }

  // The damaged block is the last one.
  lemma {:induction false} NothingResumes(records: seq<Bytes>, edge: nat, i: nat)
    requires 0 < i <= |records| && |LogOf(records)| <= edge
    ensures Resumes(records, edge, i) == |records| && EndOf(records, |records|) <= edge && Orphans(records, edge, |records|) == 0
    decreases |records| - i
  {
    hide LogOf, EndOf, Fragments;
    AllEnds(records);
    if i < |records| {
      LastEnd(records, i);
      HeaderBeforeEnd(records, i);
      NothingResumes(records, edge, i + 1);
    } else {
      RecordIn(records, i - 1);
      var p := EndOf(records, i - 1);
      NonePast(p, p % kBlockSize, records[i - 1], true, edge);
    }
  }

  lemma HeaderBeforeEnd(records: seq<Bytes>, i: nat)
    requires i < |records|
    ensures HeaderOf(records, i) < EndOf(records, i + 1)
  {
    var off := EndOf(records, i) % kBlockSize;
    RecordIn(records, i);
    FirstFragment(LogOf(records), EndOf(records, i), off, records[i], true);
  }

  // ----- the theorem -----

  // One byte of a fragment is changed, in its checksum, type or payload: the records before this one come back, and those
  // whose headers are not before the end of the damaged block; no others.  A drop is reported unless the change makes an
  // empty record look blank and no record goes on into the next block.
  lemma CorruptByte(records: seq<Bytes>, k: nat, at: nat, t: byte, x: Bytes, c: nat, b: byte)
    requires k < |records| && FragmentOf(records, k, at, t, x) && Covered(at, x, c)
    requires c < |LogOf(records)| && b != LogOf(records)[c]
    ensures var r, m := ReadAllFrom(LogOf(records)[c := b], 0), Resumes(records, BlockEnd(at), k + 1);
            && r.records == records[..k] + records[m..]
            && r.drops == Cost(Blank(at, x, c, b), at > HeaderOf(records, k)) + Orphans(records, BlockEnd(at), m)
            && (r.drops == 0 <==> Blank(at, x, c, b) && EndOf(records, m) <= BlockEnd(at))
  {
    var g := LogOf(records)[c := b];
    hide LogOf, EndOf, ReadAllFrom, BlockEnd, Resumes, FragmentOf, Covered, Blank, Orphans;
    assert g[c] == b && Changed(LogOf(records), g, c) && SameUpTo(LogOf(records), g, c);
    FromDamaged(records, g, k, at, t, x, c);
    HeadReads(records, g, c, 0, k);
    NoRecords(records);
    assert records[0..k] == records[..k];
  }

  // From the beginning of the damaged record on.
  lemma FromDamaged(records: seq<Bytes>, g: Bytes, k: nat, at: nat, t: byte, x: Bytes, c: nat)
    requires k < |records| && FragmentOf(records, k, at, t, x) && Covered(at, x, c) && Changed(LogOf(records), g, c)
    ensures EndOf(records, k) <= c && EndOf(records, k) <= |g|
    ensures var r, m := ReadAllFrom(g, EndOf(records, k)), Resumes(records, BlockEnd(at), k + 1);
            && r.records == records[m..]
            && r.drops == Cost(Blank(at, x, c, g[c]), at > HeaderOf(records, k)) + Orphans(records, BlockEnd(at), m)
            && (r.drops == 0 <==> Blank(at, x, c, g[c]) && EndOf(records, m) <= BlockEnd(at))
  {
    hide LogOf, EndOf, Fragments, Found, ReadAllFrom, ReadLogical, BlockEnd, Orphans;
    var file, edge, p := LogOf(records), BlockEnd(at), EndOf(records, k);
    RecordIn(records, k);
    InFragmentsFacts(file, p, p % kBlockSize, records[k], true, at, t, x);
    InBlock(at, x, c);
    ReachesDamage(file, g, p, p % kBlockSize, records[k], true, None, at, t, x, c);
    DropsAdd(g, p, Least(edge, |g|), Cost(Blank(at, x, c, g[c]), at > HeaderOf(records, k)));
    AfterDamage(records, g, k, at, c);
    var rest := ReadAllFrom(g, Least(edge, |g|)).records;
    assert [] + rest == rest;
  }

  lemma AfterDamage(records: seq<Bytes>, g: Bytes, k: nat, at: nat, c: nat)
    requires k < |records| && HeaderOf(records, k) <= at < BlockEnd(at) && c < BlockEnd(at) && Changed(LogOf(records), g, c)
    ensures var r, m := ReadAllFrom(g, Least(BlockEnd(at), |g|)), Resumes(records, BlockEnd(at), k + 1);
            r == Outcome(records[m..], Orphans(records, BlockEnd(at), m)) && (r.drops == 0 <==> EndOf(records, m) <= BlockEnd(at))
  {
    hide LogOf, EndOf, ReadAllFrom, Orphans;
    if BlockEnd(at) < |g| {
      Resync(records, g, BlockEnd(at), k);
    } else {
      NothingResumes(records, BlockEnd(at), k + 1);
      NothingLeft(g);
    }
  }

  // Whatever follows them, the records at the beginning of a file come back first.
  lemma BeginningReads(records: seq<Bytes>, g: Bytes, k: nat)
    requires k <= |records| && SameUpTo(LogOf(records), g, EndOf(records, k))
    ensures records[..k] <= ReadAllFrom(g, 0).records
  {
    hide LogOf, EndOf, ReadAllFrom;
    NoRecords(records);
    HeadReads(records, g, EndOf(records, k), 0, k);
    assert records[0..k] == records[..k];
  }

  lemma NoRecords(records: seq<Bytes>)
    ensures EndOf(records, 0) == 0
  {
    assert records[..0] == [];
  }

  lemma InBlock(at: nat, x: Bytes, c: nat)
    requires at % kBlockSize + kHeaderSize + |x| <= kBlockSize && Covered(at, x, c)
    ensures at <= c < BlockEnd(at) && BlockEnd(at) % kBlockSize == 0
  {
  }

  // An empty record and one after it in the same block: with its type byte cleared, both are lost and nothing is reported.
  lemma LostQuietly(last: byte)
    ensures |LogOf([[], [last]])| == 15 && ReadAllFrom(LogOf([[], [last]])[6 := kZeroType], 0) == Outcome([], 0)
  {
    var records: seq<Bytes> := [[], [last]];
    TwoRecords(last);
    hide LogOf, ReadAllFrom, Header;
    CorruptByte(records, 0, 0, kFullType, [], 6, kZeroType);
    assert records[..0] + records[2..] == [];
  }

  lemma TwoRecords(last: byte)
    ensures var records, file := [[], [last]], LogOf([[], [last]]);
            && |file| == 15 && file[6] == kFullType && FragmentOf(records, 0, 0, kFullType, [])
            && EndOf(records, 0) == 0 && EndOf(records, 1) == 7 && EndOf(records, 2) == 15 && Resumes(records, BlockEnd(0), 1) == 2
  {
    var records: seq<Bytes> := [[], [last]];
    hide Header;
    var empty: Bytes := [];
    assert records[..0] == [] && records[..1] == [[]] && records[..2] == records && records[..1][..0] == [];
    assert empty[..0] == empty && [last][..1] == [last];
    assert Fragments(0, empty, true) == Zeros(0) + Physical(kFullType, empty) == Physical(kFullType, empty);
    assert LogOf(records[..1]) == Physical(kFullType, empty);
    assert Fragments(7, [last], true) == Zeros(0) + Physical(kFullType, [last]);
    assert LogOf(records)[6] == Physical(kFullType, empty)[6] == Header(kFullType, empty)[6];
    TypeByte(empty);
    assert HeaderOf(records, 1) == 7 < BlockEnd(0);
  }

  lemma TypeByte(x: Bytes)
    requires |x| < 65536
    ensures Header(kFullType, x)[6] == kFullType
  {
    hide WordBytes, Mask, Value, ByteOf;
  }
}
