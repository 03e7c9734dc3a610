/** Round trip of the log: reading any prefix of a written file gives the records that lie wholly in
    the prefix, in order, and reports nothing. */
module LogRoundTrip {
  import opened Keys
  import opened Coding
  import opened Crc32c
  import opened LogFormat
  import opened LogReader
  import opened LogWriter

  // The bytes s are found at position p.
  ghost predicate Found(file: Bytes, p: nat, s: Bytes) {
    p + |s| <= |file| && file[p..p + |s|] == s
  }

  lemma FoundParts(file: Bytes, p: nat, a: Bytes, b: Bytes)
    requires Found(file, p, a + b)
    ensures Found(file, p, a) && Found(file, p + |a|, b)
  {
    var s := file[p..p + |a + b|];
    assert s[..|a|] == a && s[|a|..] == b;
    assert file[p..p + |a|] == s[..|a|] && file[p + |a|..p + |a| + |b|] == s[|a|..];
  }

  // Reading at the header of a fragment, in a file cut off at n.
  lemma HeaderReads(file: Bytes, n: nat, p: nat, t: byte, x: Bytes)
    requires n <= |file| && p <= n && t != kZeroType && p % kBlockSize + kHeaderSize + |x| <= kBlockSize
    requires Found(file, p, Physical(t, x))
    ensures var r := ReadPhysical(file[..n], p);
            if p + kHeaderSize + |x| <= n then r == Piece(ValueOf(t), x, p + kHeaderSize + |x|, 0)
            else r.code == kEof && r.drops == 0
  {
    var cut := file[..n];
    if n - p >= kHeaderSize {
      HeaderFields(file, p, t, x);
      CutFields(file, n, p, |x|);
      Parses(cut, p, Least(BlockEnd(p), n));
      hide ParseHeader, LengthAt, ChecksumFits;
    }
  }

  lemma CutFields(file: Bytes, n: nat, p: nat, length: nat)
    requires p + kHeaderSize <= n <= |file|
    ensures LengthAt(file[..n], p) == LengthAt(file, p) && file[..n][p + 6] == file[p + 6]
    ensures ReadUint32LE(file[..n], p) == ReadUint32LE(file, p)
    ensures p + 7 + length <= n ==>
              file[..n][p + 6..p + 7 + length] == file[p + 6..p + 7 + length] && file[..n][p + 7..p + 7 + length] == file[p + 7..p + 7 + length]
  {
  }

  lemma HeaderFields(file: Bytes, p: nat, t: byte, x: Bytes)
    requires |x| < 65536 && Found(file, p, Physical(t, x))
    ensures LengthAt(file, p) == |x| && file[p + 6] == t && file[p + 7..p + 7 + |x|] == x
    ensures ChecksumFits(file[p + 6..p + 7 + |x|], ReadUint32LE(file, p))
  {
    var crc := Mask(Value([t] + x));
    FoundParts(file, p, Header(t, x), x);
    hide Value, Mask, Unmask, WordBytes, ByteOf, ValueOf, ReadUint32LE, LengthAt, Header;
    HeaderFound(file, p, t, x, crc);
    TypedPayload(file, p + 6, t, x);
    WordRead(file, p, crc);
    UnmaskMask(Value([t] + x));
  }

  lemma TypedPayload(file: Bytes, q: nat, t: byte, x: Bytes)
    requires q + 1 + |x| <= |file| && file[q] == t && file[q + 1..q + 1 + |x|] == x
    ensures file[q..q + 1 + |x|] == [t] + x
  {
    assert file[q..q + 1 + |x|] == [file[q]] + file[q + 1..q + 1 + |x|];
  }

  lemma HeaderFound(file: Bytes, p: nat, t: byte, x: Bytes, crc: Word)
    requires |x| < 65536 && Found(file, p, Header(t, x)) && crc == Mask(Value([t] + x))
    ensures LengthAt(file, p) == |x| && file[p + 6] == t && Found(file, p, WordBytes(crc))
  {
    hide Value, Mask, WordBytes, ByteOf;
    var low, high := ByteOf(|x| % 256), ByteOf(|x| / 256);
    var tail := [low, high, t];
    FoundParts(file, p, WordBytes(crc), tail);
    assert file[p + 4..p + 7] == tail;
    assert file[p + 4] == tail[0] && file[p + 5] == tail[1] && file[p + 6] == tail[2];
  }

  lemma WordRead(file: Bytes, p: nat, w: Word)
    requires Found(file, p, WordBytes(w))
    ensures ReadUint32LE(file, p) == w
  {
    hide Wide, LowByte, Down;
    var s := WordBytes(w);
    assert file[p..p + 4] == s;
    assert file[p] == s[0] && file[p + 1] == s[1] && file[p + 2] == s[2] && file[p + 3] == s[3];
    FourBytes(w);
  }

  // Reading a fragment and the padding before it, in a file cut off at n.
  lemma PieceReads(file: Bytes, n: nat, p: nat, off: nat, t: byte, x: Bytes)
    requires n <= |file| && p <= n && off <= kBlockSize && p % kBlockSize == off % kBlockSize
    requires t != kZeroType && Start(off) + kHeaderSize + |x| <= kBlockSize
    requires Found(file, p, Zeros(Padding(off)) + Physical(t, x))
    ensures var r, end := ReadPhysical(file[..n], p), p + Padding(off) + kHeaderSize + |x|;
            if end <= n then r == Piece(ValueOf(t), x, end, 0) else r.code == kEof && r.drops == 0
  {
    hide Physical;
    FoundParts(file, p, Zeros(Padding(off)), Physical(t, x));
    if Padding(off) == 0 {
      HeaderReads(file, n, p, t, x);
    } else {
      var q := p + Padding(off);
      assert q == BlockEnd(p) && q % kBlockSize == 0;
      if q < n {
        assert ReadPhysical(file[..n], p) == ReadPhysical(file[..n], q);
        HeaderReads(file, n, q, t, x);
      }
    }
  }

  // ... in a whole file.
  lemma PieceReadsWhole(g: Bytes, p: nat, off: nat, t: byte, x: Bytes)
    requires off <= kBlockSize && p % kBlockSize == off % kBlockSize && t != kZeroType && Start(off) + kHeaderSize + |x| <= kBlockSize
    requires Found(g, p, Zeros(Padding(off)) + Physical(t, x))
    ensures var end := p + Padding(off) + kHeaderSize + |x|; end <= |g| && ReadPhysical(g, p) == Piece(ValueOf(t), x, end, 0)
  {
    assert g[..|g|] == g;
    PieceReads(g, |g|, p, off, t, x);
  }

  // The scratch of the reader where the writer is in the middle of a record.
  ghost predicate Scratch(scratch: Option<Bytes>, begin: bool) { scratch.None? <==> begin }

  ghost function Text(scratch: Option<Bytes>): Bytes { if scratch.Some? then scratch.value else [] }

  // Reading from the start of some fragments of one record: the whole record if it is all there,
  // the end of the file otherwise.
  lemma {:induction false} FragmentsRead(file: Bytes, n: nat, p: nat, off: nat, left: Bytes, begin: bool, scratch: Option<Bytes>)
    requires n <= |file| && p <= n && off <= kBlockSize && p % kBlockSize == off % kBlockSize
    requires Scratch(scratch, begin) && Found(file, p, Fragments(off, left, begin))
    ensures var r, end := ReadLogical(file[..n], p, scratch), p + |Fragments(off, left, begin)|;
            if end <= n then r == Logical(Some(Text(scratch) + left), end, 0)
            else r.record == None && r.drops == 0
    decreases |left|, kBlockSize - off
  {
    hide ReadLogical, ReadPhysical, Fragments, Found, Zeros, Physical, OneTurn, ValueOf, TypeOf;
    var m := FragmentLength(off, |left|);
    var t, x := TypeOf(begin, m == |left|), left[..m];
    WrittenTypes(begin, m == |left|);
    var end := p + Padding(off) + kHeaderSize + m;
    FirstFragment(file, p, off, left, begin);
    PieceReads(file, n, p, off, t, x);
    ReadLogicalTurn(file[..n], p, scratch);
    if end <= n {
      TypeTurns(begin, m == |left|, x, scratch);
      if m < |left| {
        OffsetMoves(p, off, kHeaderSize + m);
        FragmentsRead(file, n, end, Start(off) + kHeaderSize + m, left[m..], false, Some(Text(scratch) + x));
        assert Text(scratch) + x + left[m..] == Text(scratch) + left;
      } else {
        assert x == left;
      }
    } else {
      EndTurns(ReadPhysical(file[..n], p), scratch);
    }
  }

  lemma OffsetMoves(p: nat, off: nat, k: nat)
    requires off <= kBlockSize && p % kBlockSize == off % kBlockSize
    ensures (p + Padding(off) + k) % kBlockSize == (Start(off) + k) % kBlockSize
  {
    AddsToFile(p, off, Padding(off) + k);
    AddsBlocks(off + Padding(off), Start(off), k);
  }

  lemma FirstFragment(file: Bytes, p: nat, off: nat, left: Bytes, begin: bool)
    requires off <= kBlockSize && Found(file, p, Fragments(off, left, begin))
    ensures var m := FragmentLength(off, |left|);
            && Found(file, p, Zeros(Padding(off)) + Physical(TypeOf(begin, m == |left|), left[..m]))
            && |Fragments(off, left, begin)|
               == Padding(off) + kHeaderSize + m + (if m == |left| then 0 else |Fragments(Start(off) + kHeaderSize + m, left[m..], false)|)
            && (m < |left| ==>
                 Found(file, p + Padding(off) + kHeaderSize + m, Fragments(Start(off) + kHeaderSize + m, left[m..], false)))
  {
    hide Physical, Zeros;
    var m := FragmentLength(off, |left|);
    var first := Zeros(Padding(off)) + Physical(TypeOf(begin, m == |left|), left[..m]);
    if m < |left| {
      FoundParts(file, p, first, Fragments(Start(off) + kHeaderSize + m, left[m..], false));
    }
  }

  // The type written tells the reader what to do.
  lemma TypeTurns(begin: bool, end: bool, x: Bytes, scratch: Option<Bytes>)
    requires Scratch(scratch, begin)
    ensures var text := Text(scratch) + x;
            OneTurn(ValueOf(TypeOf(begin, end)), x, scratch) == if end then Stop(Some(text), 0) else Go(Some(text), 0)
  {
    assert [] + x == x;
  }

  lemma WrittenTypes(begin: bool, end: bool)
    ensures TypeOf(begin, end) != kZeroType
  {
  }

  lemma EndTurns(piece: Piece, scratch: Option<Bytes>)
    requires piece.code == kEof
    ensures OneTurn(piece.code, piece.payload, scratch) == Stop(None, 0)
  {
  }

  // The first k records of a log lie in its first |LogOf(records[..k])| bytes.
  lemma {:induction false} LogGrows(records: seq<Bytes>, k: nat)
    requires k <= |records|
    ensures |LogOf(records[..k])| <= |LogOf(records)| && LogOf(records)[..|LogOf(records[..k])|] == LogOf(records[..k])
    decreases |records| - k
  {
    hide Fragments;
    if k == |records| {
      assert records[..k] == records;
    } else {
      var init := records[..|records| - 1];
      LogGrows(init, k);
      assert init[..k] == records[..k];
      var head, all := LogOf(init), LogOf(records);
      assert all[..|head|] == head;
      assert all[..|LogOf(records[..k])|] == head[..|LogOf(records[..k])|];
    }
  }

  lemma RecordFound(records: seq<Bytes>, k: nat)
    requires k < |records|
    ensures var p := |LogOf(records[..k])|;
            && Found(LogOf(records), p, Fragments(p % kBlockSize, records[k], true))
            && |LogOf(records[..k + 1])| == p + |Fragments(p % kBlockSize, records[k], true)|
  {
    hide Fragments;
    var p, next := |LogOf(records[..k])|, LogOf(records[..k + 1]);
    assert records[..k + 1][..k] == records[..k];
    LogGrows(records, k + 1);
    var file := LogOf(records);
    assert file[p..|next|] == file[..|next|][p..] == next[p..];
  }

  // Where record number k (from 0) begins to be written; the previous one ends there.
  ghost function EndOf(records: seq<Bytes>, k: nat): nat
    requires k <= |records|
  {
    |LogOf(records[..k])|
  }

  // The number of the first record, from k on, that does not lie wholly in the first n bytes.
  ghost function WholeRecords(records: seq<Bytes>, n: nat, k: nat): (m: nat)
    requires k <= |records|
    ensures k <= m <= |records|
    decreases |records| - k
  {
    if k < |records| && EndOf(records, k + 1) <= n then WholeRecords(records, n, k + 1) else k
  }

  lemma {:induction false} WholeBounds(records: seq<Bytes>, n: nat, k: nat)
    requires k <= |records|
    ensures var m := WholeRecords(records, n, k);
            (m > k ==> EndOf(records, m) <= n) && (m < |records| ==> EndOf(records, m + 1) > n)
    decreases |records| - k
  {
    hide EndOf;
    if k < |records| && EndOf(records, k + 1) <= n { WholeBounds(records, n, k + 1); }
  }

  lemma {:induction false} ReadsFrom(records: seq<Bytes>, n: nat, k: nat)
    requires n <= |LogOf(records)| && k <= |records| && EndOf(records, k) <= n
    ensures ReadAllFrom(LogOf(records)[..n], EndOf(records, k)) == Outcome(records[k..WholeRecords(records, n, k)], 0)
    decreases |records| - k
  {
    hide ReadLogical, LogOf, EndOf;
    if k == |records| {
      AllEnds(records);
      NothingLeft(LogOf(records)[..n]);
    } else {
      RecordReads(records, n, k);
      LastEnd(records, k);
      if EndOf(records, k + 1) <= n {
        ReadsFrom(records, n, k + 1);
        var m := WholeRecords(records, n, k + 1);
        assert records[k..m] == [records[k]] + records[k + 1..m];
      } else {
        assert records[k..k] == [];
      }
    }
  }

  lemma AllEnds(records: seq<Bytes>)
    ensures EndOf(records, |records|) == |LogOf(records)|
  {
    assert records[..|records|] == records;
  }

  lemma LastEnd(records: seq<Bytes>, k: nat)
    requires k < |records|
    ensures EndOf(records, k) <= EndOf(records, k + 1) <= |LogOf(records)|
  {
    EndsAscend(records, k, k + 1);
    EndsAscend(records, k + 1, |records|);
    AllEnds(records);
  }

  lemma RecordReads(records: seq<Bytes>, n: nat, k: nat)
    requires n <= |LogOf(records)| && k < |records| && EndOf(records, k) <= n
    ensures var r := ReadLogical(LogOf(records)[..n], EndOf(records, k), None);
            if EndOf(records, k + 1) <= n then r == Logical(Some(records[k]), EndOf(records, k + 1), 0)
            else r.record == None && r.drops == 0
  {
    hide ReadLogical, LogOf, Fragments, Found;
    var p := EndOf(records, k);
    RecordFound(records, k);
    FragmentsRead(LogOf(records), n, p, p % kBlockSize, records[k], true, None);
    assert [] + records[k] == records[k];
  }

  lemma NothingLeft(cut: Bytes)
    ensures ReadAllFrom(cut, |cut|) == Outcome([], 0)
  {
    EndOfFile(cut);
    ReadLogicalTurn(cut, |cut|, None);
  }

  // The theorem: whatever prefix of the file survives, the reader returns exactly the records that
  // lie wholly in it and reports no corruption.
  lemma TornTail(records: seq<Bytes>, n: nat)
    requires n <= |LogOf(records)|
    ensures ReadAllFrom(LogOf(records)[..n], 0) == Outcome(records[..WholeRecords(records, n, 0)], 0)
  {
    assert records[..0] == [] && EndOf(records, 0) == 0;
    ReadsFrom(records, n, 0);
    hide LogOf, ReadAllFrom;
    assert records[0..WholeRecords(records, n, 0)] == records[..WholeRecords(records, n, 0)];
  }

  // Those are the records whose ends lie in the prefix: no other record does.
  lemma WholeExactly(records: seq<Bytes>, n: nat, k: nat)
    requires n <= |LogOf(records)| && 0 < k <= |records|
    ensures k <= WholeRecords(records, n, 0) <==> EndOf(records, k) <= n
  {
    hide EndOf;
    var m := WholeRecords(records, n, 0);
    WholeBounds(records, n, 0);
    EndsAscend(records, if k <= m then k else m + 1, if k <= m then m else k);
  }

  lemma EndsAscend(records: seq<Bytes>, i: nat, j: nat)
    requires i <= j <= |records|
    ensures EndOf(records, i) <= EndOf(records, j)
  {
    LogGrows(records[..j], i);
    assert records[..j][..i] == records[..i];
  }

  // The whole file gives back every record.
  lemma RoundTrip(records: seq<Bytes>)
    ensures ReadAllFrom(LogOf(records), 0) == Outcome(records, 0)
  {
    hide LogOf, ReadAllFrom, EndOf;
    var n := |LogOf(records)|;
    if records != [] {
      AllEnds(records);
      WholeExactly(records, n, |records|);
    }
    TornTail(records, n);
    assert LogOf(records)[..n] == LogOf(records);
  }

  // Write the records, lose the end of the file, read what is left.
  method WriteCrashRead(records: seq<Bytes>, n: nat) returns (back: seq<Bytes>, drops: nat)
    requires n <= |LogOf(records)|
    ensures back == records[..WholeRecords(records, n, 0)] && drops == 0
  {
    hide LogOf, ReadAllFrom;
    var writer := new Writer();
    for i := 0 to |records|
      invariant writer.Valid() && fresh(writer) && writer.records == records[..i]
    {
      assert records[..i + 1] == records[..i] + [records[i]];
      writer.AddRecord(records[i]);
    }
    assert records[..|records|] == records;
    TornTail(records, n);
    back, drops := ReadAll(writer.dest[..n]);
  }
}
