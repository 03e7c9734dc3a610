/** log::Reader (db/log_reader.cc): the reassembly state machine, as a function of the file and a
    position and as the imperative reader that computes it block by block. */
module LogReader {
  import opened Keys
  import opened Coding
  import opened Crc32c
  import opened LogFormat

  const kEof: nat := 5                           // kMaxRecordType + 1
  const kBadRecord: nat := 6                     // kMaxRecordType + 2

  // What ReadPhysicalRecord returns, where the reader stands then, and how many drops it reported.
  datatype Piece = Piece(code: nat, payload: Bytes, next: nat, drops: nat)

  function BlockEnd(p: nat): (r: nat)
    ensures p < r <= p + kBlockSize
  {
    p - p % kBlockSize + kBlockSize
  }

  function Least(a: nat, b: nat): nat { if a < b then a else b }

  function LengthAt(file: Bytes, p: nat): nat
    requires p + kHeaderSize <= |file|
  {
    ValueOf(file[p + 4]) + 256 * ValueOf(file[p + 5])
  }

  function ReadPhysical(file: Bytes, p: nat): (r: Piece)
    requires p <= |file|
    ensures p <= r.next <= |file|
    ensures r.code != kEof ==> p < r.next
    decreases |file| - p
  {
    var stop := Least(BlockEnd(p), |file|);
    if stop - p < kHeaderSize then
      if BlockEnd(p) < |file| then ReadPhysical(file, BlockEnd(p)) else Piece(kEof, [], |file|, 0)
    else ParseHeader(file, p, stop)
  }

  // The stored checksum covers the type byte and the payload.
  predicate ChecksumFits(data: Bytes, stored: Word) { Value(data) == Unmask(stored) }

  // The header at p, in a buffer ending at `stop`.
  function ParseHeader(file: Bytes, p: nat, stop: nat): (r: Piece)
    requires p + kHeaderSize <= stop <= |file|
    ensures p < r.next <= stop
  {
    var length, t := LengthAt(file, p), file[p + 6];
    if kHeaderSize + length > stop - p then
      if stop == BlockEnd(p) then Piece(kBadRecord, [], stop, 1) else Piece(kEof, [], stop, 0)
    else if t == kZeroType && length == 0 then Piece(kBadRecord, [], stop, 0)
    else if !ChecksumFits(file[p + 6..p + 7 + length], ReadUint32LE(file, p)) then Piece(kBadRecord, [], stop, 1)
    else Piece(ValueOf(t), file[p + 7..p + 7 + length], p + 7 + length, 0)
  }

  // What ReadRecord returns: a record or the end, and how many drops were reported on the way.
  datatype Logical = Logical(record: Option<Bytes>, next: nat, drops: nat)

  // One turn of ReadRecord's loop: done, or the next fragment state (the scratch, when in a record).
  datatype Turn = Stop(record: Option<Bytes>, drops: nat) | Go(scratch: Option<Bytes>, drops: nat)

  function Lost(scratch: Option<Bytes>): nat {
    if scratch.Some? && scratch.value != [] then 1 else 0
  }

  function OneTurn(code: nat, payload: Bytes, scratch: Option<Bytes>): Turn {
    if code == 1 then Stop(Some(payload), Lost(scratch))
    else if code == 2 then Go(Some(payload), Lost(scratch))
    else if code == 3 then
      if scratch.None? then Go(None, 1) else Go(Some(scratch.value + payload), 0)
    else if code == 4 then
      if scratch.None? then Go(None, 1) else Stop(Some(scratch.value + payload), 0)
    else if code == kEof then Stop(None, 0)
    else if code == kBadRecord then Go(None, if scratch.Some? then 1 else 0)
    else Go(None, 1)
  }

  function ReadLogical(file: Bytes, p: nat, scratch: Option<Bytes>): (r: Logical)
    requires p <= |file|
    ensures p <= r.next <= |file|
    ensures r.record.Some? ==> p < r.next
    decreases |file| - p
  {
    var piece := ReadPhysical(file, p);
    var turn := OneTurn(piece.code, piece.payload, scratch);
    if turn.Stop? then Logical(turn.record, piece.next, piece.drops + turn.drops)
    else
      var r := ReadLogical(file, piece.next, turn.scratch);
      Logical(r.record, r.next, piece.drops + turn.drops + r.drops)
  }

  // All records until ReadRecord returns false, and the drops reported.
  datatype Outcome = Outcome(records: seq<Bytes>, drops: nat)

  function ReadAllFrom(file: Bytes, p: nat): Outcome
    requires p <= |file|
    decreases |file| - p
  {
    var r := ReadLogical(file, p, None);
    if r.record.None? then Outcome([], r.drops)
    else
      var rest := ReadAllFrom(file, r.next);
      Outcome([r.record.value] + rest.records, r.drops + rest.drops)
  }

  // ----- the imperative reader -----

  class Reader {
    const file: Bytes
    var fileOffset: nat                          // what file_->Read has delivered
    var buffer: Bytes                            // buffer_
    var eof: bool                                // eof_: the last read was short
    var drops: nat                               // calls of reporter_->Corruption

    constructor (file: Bytes)
      ensures Valid() && this.file == file && Pos() == 0 && drops == 0
    {
      this.file, fileOffset, buffer, eof, drops := file, 0, [], false, 0;
    }

    ghost predicate Valid()
      reads this`fileOffset, this`buffer, this`eof
    {
      && fileOffset <= |file| && |buffer| <= kBlockSize && |buffer| <= fileOffset
      && buffer == file[fileOffset - |buffer|..fileOffset]
      && (if eof then fileOffset == |file| && BlockEnd(Pos()) > fileOffset else fileOffset % kBlockSize == 0)
      && (buffer != [] && !eof ==> fileOffset == BlockEnd(Pos()))
    }

    ghost function Pos(): nat
      reads this`fileOffset, this`buffer
    {
      if |buffer| <= fileOffset then fileOffset - |buffer| else 0
    }

    ghost predicate Returned(r: Piece, code: nat, payload: Bytes, before: nat)
      reads this
    {
      code == r.code && payload == r.payload && Pos() == r.next && drops == before + r.drops
    }

    // file_->Read of one block, dropping what is left in the buffer.
    method ReadBlock()
      requires Valid() && !eof
      modifies this`fileOffset, this`buffer, this`eof
      ensures Valid() && Pos() == old(fileOffset)
      ensures fileOffset == Least(old(fileOffset) + kBlockSize, |file|) && eof == (fileOffset < old(fileOffset) + kBlockSize)
    {
      var to := Least(fileOffset + kBlockSize, |file|);
      buffer := file[fileOffset..to];
      eof := |buffer| < kBlockSize;
      fileOffset := to;
    }

    method ReadPhysicalRecord() returns (code: nat, payload: Bytes)
      requires Valid()
      modifies this`fileOffset, this`buffer, this`eof, this`drops
      ensures Valid()
      ensures Returned(ReadPhysical(file, old(Pos())), code, payload, old(drops))
    {
      hide ReadPhysical, ParseHeader, Least;
      while |buffer| < kHeaderSize
        invariant Valid() && drops == old(drops) && ReadPhysical(file, Pos()) == ReadPhysical(file, old(Pos()))
        decreases if eof then 0 else 1, |file| - fileOffset
      {
        if eof {
          if Pos() < fileOffset { BufferEnds(file, Pos(), fileOffset, eof); } else { EndOfFile(file); }
          buffer := [];                          // a truncated header: the writer died writing it
          return kEof, [];
        }
        SkipTrailer(file, Pos(), fileOffset);
        ReadBlock();
      }
      BufferEnds(file, Pos(), fileOffset, eof);
      code, payload := ParseBuffer();
    }

    // The rest of ReadPhysicalRecord: the header at the front of the buffer.
    method ParseBuffer() returns (code: nat, payload: Bytes)
      requires Valid() && |buffer| >= kHeaderSize
      modifies this`buffer, this`drops
      ensures Valid()
      ensures Returned(ParseHeader(file, old(Pos()), fileOffset), code, payload, old(drops))
    {
      InBuffer();
      hide ParseHeader, BlockEnd, Valid;
      var used, dropped;
      code, payload, used, dropped := ParseFront(buffer, !eof, file, Pos(), fileOffset);
      Consume(used);
      drops := drops + dropped;
    }

    lemma InBuffer()
      requires Valid() && buffer != []
      ensures Pos() + |buffer| == fileOffset <= |file| && buffer == file[Pos()..fileOffset]
      ensures fileOffset == BlockEnd(Pos()) <==> !eof
    {
    }

    // buffer_.remove_prefix, or buffer_.clear
    method Consume(n: nat)
      requires Valid() && 0 < n <= |buffer|
      modifies this`buffer
      ensures Valid() && Pos() == old(Pos()) + n
    {
      SliceAt(file, Pos(), buffer, fileOffset, n, |buffer|);
      SameBlock(Pos(), Pos() + n);
      buffer := buffer[n..];
    }

    method ReadRecord() returns (record: Option<Bytes>)
      requires Valid()
      modifies this
      ensures Valid()
      ensures var r := ReadLogical(file, old(Pos()), None); record == r.record && Pos() == r.next && drops == old(drops) + r.drops
    {
      hide Valid, ReadPhysical, ReadLogical, OneTurn;
      PosInFile();
      var scratch: Option<Bytes> := None;
      while true
        invariant Valid() && Pos() <= |file| && drops >= old(drops)
        invariant ReadLogical(file, old(Pos()), None) == After(drops - old(drops), ReadLogical(file, Pos(), scratch))
        decreases |file| - Pos()
      {
        ReadLogicalTurn(file, Pos(), scratch);
        var code, payload := ReadPhysicalRecord();
        PosInFile();
        var turn := OneTurn(code, payload, scratch);
        drops := drops + turn.drops;
        if turn.Stop? { return turn.record; }
        scratch := turn.scratch;
      }
    }

    lemma PosInFile()
      requires Valid()
      ensures Pos() <= |file|
    {
    }
  }

  ghost function After(drops: int, r: Logical): Logical {
    if drops >= 0 then Logical(r.record, r.next, drops + r.drops) else r
  }

  lemma ReadLogicalTurn(file: Bytes, p: nat, scratch: Option<Bytes>)
    requires p <= |file|
    ensures var piece := ReadPhysical(file, p);
            var turn := OneTurn(piece.code, piece.payload, scratch);
            && (!turn.Stop? ==> p < piece.next)
            && ReadLogical(file, p, scratch)
               == if turn.Stop? then Logical(turn.record, piece.next, piece.drops + turn.drops)
                  else After(piece.drops + turn.drops, ReadLogical(file, piece.next, turn.scratch))
  {
    hide ReadPhysical;
  }

  lemma BufferAt(file: Bytes, p: nat, buffer: Bytes, end: nat)
    requires p + |buffer| == end <= |file| && buffer == file[p..end] && |buffer| >= kHeaderSize
    ensures LengthAt(file, p) == ValueOf(buffer[4]) + 256 * ValueOf(buffer[5]) && file[p + 6] == buffer[6]
    ensures ReadUint32LE(file, p) == ReadUint32LE(buffer, 0)
  {
  }

  lemma SliceAt(file: Bytes, p: nat, buffer: Bytes, end: nat, i: nat, j: nat)
    requires p + |buffer| == end <= |file| && buffer == file[p..end] && i <= j <= |buffer|
    ensures buffer[i..j] == file[p + i..p + j]
  {
    forall k | 0 <= k < j - i ensures buffer[i..j][k] == file[p + i..p + j][k] {
      assert buffer[i + k] == file[p..end][i + k] == file[p + i + k];
    }
  }

  // The header at the front of the buffer; `full` when the buffer came from a full read.
  method ParseFront(buffer: Bytes, full: bool, ghost file: Bytes, ghost p: nat, ghost end: nat)
    returns (code: nat, payload: Bytes, used: nat, drops: nat)
    requires p + |buffer| == end <= |file| && buffer == file[p..end] && |buffer| >= kHeaderSize
    requires full <==> end == BlockEnd(p)
    ensures Piece(code, payload, p + used, drops) == ParseHeader(file, p, end) && 0 < used <= |buffer|
  {
    hide ChecksumFits, ReadUint32LE, LengthAt, BlockEnd, ParseHeader, ValueOf;
    BufferAt(file, p, buffer, end);
    Parses(file, p, end);
    var length, t := ValueOf(buffer[4]) + 256 * ValueOf(buffer[5]), buffer[6];
    if kHeaderSize + length > |buffer| {
      if full { return kBadRecord, [], |buffer|, 1; }         // bad record length
      return kEof, [], |buffer|, 0;                // the writer died in the middle of the payload
    }
    if t == kZeroType && length == 0 { return kBadRecord, [], |buffer|, 0; }
    SliceAt(file, p, buffer, end, 6, 7 + length);
    SliceAt(file, p, buffer, end, 7, 7 + length);
    if !ChecksumFits(buffer[6..7 + length], ReadUint32LE(buffer, 0)) {
      return kBadRecord, [], |buffer|, 1;          // checksum mismatch
    }
    return ValueOf(t), buffer[7..7 + length], kHeaderSize + length, 0;
  }

  // The four branches of ParseHeader.
  lemma Parses(file: Bytes, p: nat, stop: nat)
    requires p + kHeaderSize <= stop <= |file|
    ensures var length := LengthAt(file, p);
            && (kHeaderSize + length > stop - p ==>
                 ParseHeader(file, p, stop) == if stop == BlockEnd(p) then Piece(kBadRecord, [], stop, 1) else Piece(kEof, [], stop, 0))
            && (kHeaderSize + length <= stop - p && file[p + 6] == kZeroType && length == 0 ==>
                 ParseHeader(file, p, stop) == Piece(kBadRecord, [], stop, 0))
            && (kHeaderSize + length <= stop - p && !(file[p + 6] == kZeroType && length == 0) ==>
                 ParseHeader(file, p, stop) ==
                   if !ChecksumFits(file[p + 6..p + 7 + length], ReadUint32LE(file, p)) then Piece(kBadRecord, [], stop, 1)
                   else Piece(ValueOf(file[p + 6]), file[p + 7..p + 7 + length], p + 7 + length, 0))
  {
    hide ChecksumFits, LengthAt, ReadUint32LE;
  }

  lemma SameBlock(p: nat, q: nat)
    requires p <= q
    ensures q < BlockEnd(p) ==> BlockEnd(q) == BlockEnd(p)
  {
  }

  // A buffer of at least a header ends where the specification says.
  lemma BufferEnds(file: Bytes, p: nat, end: nat, eof: bool)
    requires p < end <= |file| && if eof then end == |file| && BlockEnd(p) > end else end == BlockEnd(p)
    ensures end == Least(BlockEnd(p), |file|)
    ensures end - p >= kHeaderSize ==> ReadPhysical(file, p) == ParseHeader(file, p, end)
    ensures end - p < kHeaderSize && eof ==> ReadPhysical(file, p) == Piece(kEof, [], |file|, 0)
  {
  }

  lemma EndOfFile(file: Bytes)
    ensures ReadPhysical(file, |file|) == Piece(kEof, [], |file|, 0)
  {
  }

  // Fewer than seven bytes before the edge of a block that was read in full are a trailer.
  lemma SkipTrailer(file: Bytes, p: nat, end: nat)
    requires p <= end <= |file| && end - p < kHeaderSize && end % kBlockSize == 0
    requires p == end || end == BlockEnd(p)
    ensures ReadPhysical(file, p) == ReadPhysical(file, end)
  {
    if p < end && end == |file| {
      assert ReadPhysical(file, end) == Piece(kEof, [], |file|, 0);
    }
  }

  // Reading a whole file, as recovery does.
  method ReadAll(file: Bytes) returns (records: seq<Bytes>, drops: nat)
    ensures Outcome(records, drops) == ReadAllFrom(file, 0)
  {
    hide ReadLogical;
    var reader := new Reader(file);
    var record := reader.ReadRecord();
    records := [];
    while record.Some?
      invariant reader.Valid() && reader.file == file && fresh(reader) && 0 <= reader.Pos() <= |file|
      invariant ReadAllFrom(file, 0) == Resumed(records, reader.drops, record, reader.Pos(), file)
      decreases |file| - reader.Pos(), if record.Some? then 1 else 0
    {
      records := records + [record.value];
      ghost var p, before := reader.Pos(), reader.drops;
      record := reader.ReadRecord();
      ResumedNext(records, before, file, p);
    }
    drops := reader.drops;
  }

  // The whole outcome, when `records` are read and `record` was just read, ending at p.
  ghost function Resumed(records: seq<Bytes>, drops: nat, record: Option<Bytes>, p: nat, file: Bytes): Outcome
    requires p <= |file|
  {
    if record.None? then Outcome(records, drops)
    else
      var rest := ReadAllFrom(file, p);
      Outcome(records + [record.value] + rest.records, drops + rest.drops)
  }

  lemma ResumedNext(records: seq<Bytes>, drops: nat, file: Bytes, p: nat)
    requires p <= |file|
    ensures var rest, r := ReadAllFrom(file, p), ReadLogical(file, p, None);
            Outcome(records + rest.records, drops + rest.drops) == Resumed(records, drops + r.drops, r.record, r.next, file)
  {
    hide ReadLogical;
    var r := ReadLogical(file, p, None);
    if r.record.Some? {
      var rest := ReadAllFrom(file, r.next);
      assert records + ([r.record.value] + rest.records) == records + [r.record.value] + rest.records;
    }
  }
}
