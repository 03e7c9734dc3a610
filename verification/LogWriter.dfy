/** log::Writer (db/log_writer.cc): AddRecord appends exactly the fragments of the format. */
module LogWriter {
  import opened Keys
  import opened Coding
  import opened Crc32c
  import opened LogFormat

  class Writer {
    var dest: Bytes                              // everything appended to dest_
    var blockOffset: nat                         // block_offset_
    ghost var records: seq<Bytes>

    // An empty file; a reopened one starts at its length modulo the block size.
    constructor ()
      ensures Valid() && records == [] && dest == []
    {
      dest, blockOffset, records := [], 0, [];
    }

    ghost predicate Valid()
      reads this
    {
      dest == LogOf(records) && blockOffset <= kBlockSize && |dest| % kBlockSize == blockOffset % kBlockSize
    }

    method EmitPhysicalRecord(t: byte, fragment: Bytes)
      requires blockOffset + kHeaderSize + |fragment| <= kBlockSize
      modifies this`dest, this`blockOffset
      ensures dest == old(dest) + Physical(t, fragment) && blockOffset == old(blockOffset) + kHeaderSize + |fragment|
    {
      hide WordBytes, Mask, Reference, ByteOf;
      var typeCrc := Value([t]);
      ExtendConcat(0, [t], fragment);
      var crc := Mask(Reference(typeCrc, fragment));
      var header := WordBytes(crc) + [ByteOf(|fragment| % 256), ByteOf(|fragment| / 256), t];
      assert header == Header(t, fragment);
      hide Header;
      dest := dest + header;
      dest := dest + fragment;
      blockOffset := blockOffset + kHeaderSize + |fragment|;
    }

    method AddRecord(slice: Bytes)
      requires Valid()
      modifies this
      ensures Valid() && records == old(records) + [slice]
    {
      RecordAdded(records, slice, blockOffset);
      hide LogOf, Fragments, OffsetAfter;
      AppendFragments(slice);
      records := records + [slice];
    }

    // The loop of AddRecord.
    method AppendFragments(slice: Bytes)
      requires blockOffset <= kBlockSize
      modifies this`dest, this`blockOffset
      ensures dest == old(dest) + Fragments(old(blockOffset), slice, true)
      ensures blockOffset == OffsetAfter(old(blockOffset), |slice|)
    {
      hide Physical, Fragments, Zeros, TypeOf;
      var left, begin, more := slice, true, true;
      while more
        invariant blockOffset <= kBlockSize
        invariant old(dest) + Fragments(old(blockOffset), slice, true) == if more then dest + Fragments(blockOffset, left, begin) else dest
        invariant OffsetAfter(old(blockOffset), |slice|) == if more then OffsetAfter(blockOffset, |left|) else blockOffset
        decreases more, |left|, kBlockSize - blockOffset
      {
        Appends(dest, blockOffset, left, begin);
        NoPadding(dest, blockOffset);
        var leftover := kBlockSize - blockOffset;
        if leftover < kHeaderSize {
          if leftover > 0 { dest := dest + Zeros(leftover); }
          blockOffset := 0;
        }
        var avail := kBlockSize - blockOffset - kHeaderSize;
        var n := if |left| < avail then |left| else avail;
        var end := |left| == n;
        EmitPhysicalRecord(TypeOf(begin, end), left[..n]);
        left, begin, more := left[n..], false, !end;
      }
    }
  }

  lemma NoPadding(start: Bytes, off: nat)
    requires off <= kBlockSize
    ensures Padding(off) == 0 ==> start + Zeros(Padding(off)) == start
  {
  }

  // The file after one fragment.
  ghost function OneMore(start: Bytes, off: nat, left: Bytes, begin: bool): Bytes
    requires off <= kBlockSize
  {
    var n := FragmentLength(off, |left|);
    start + Zeros(Padding(off)) + Physical(TypeOf(begin, |left| == n), left[..n])
  }

  // One turn of the loop against the specification.
  lemma Appends(start: Bytes, off: nat, left: Bytes, begin: bool)
    requires off <= kBlockSize
    ensures var n := FragmentLength(off, |left|);
            start + Fragments(off, left, begin)
            == OneMore(start, off, left, begin) + if n == |left| then [] else Fragments(Start(off) + kHeaderSize + n, left[n..], false)
  {
    hide Physical, Zeros;
  }

  // Adding one record to a log.
  lemma RecordAdded(records: seq<Bytes>, slice: Bytes, off: nat)
    requires off <= kBlockSize && |LogOf(records)| % kBlockSize == off % kBlockSize
    ensures LogOf(records + [slice]) == LogOf(records) + Fragments(off, slice, true)
    ensures |LogOf(records + [slice])| % kBlockSize == OffsetAfter(off, |slice|) % kBlockSize
  {
    hide Fragments, OffsetAfter;
    var file := LogOf(records);
    assert (records + [slice])[..|records|] == records;
    if off == kBlockSize { BlockEdge(slice, true); }
    OffsetIsLength(off, slice, true);
    AddsToFile(|file|, off, |Fragments(off, slice, true)|);
  }

  lemma AddsToFile(a: nat, b: nat, c: nat)
    requires a % kBlockSize == b % kBlockSize
    ensures (a + c) % kBlockSize == (b + c) % kBlockSize
  {
  }
}
