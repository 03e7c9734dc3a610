/** The log format (db/log_format.h, doc/log_format.md): records cut into fragments that never cross
    a 32 KiB block, each with a seven byte header. */
module LogFormat {
  import opened Keys
  import opened Coding
  import opened Crc32c

  const kBlockSize: nat := 32768
  const kHeaderSize: nat := 7

  const kZeroType: byte := 0
  const kFullType: byte := 1
  const kFirstType: byte := 2
  const kMiddleType: byte := 3
  const kLastType: byte := 4

  // EncodeFixed32 of a checksum.
  function WordBytes(w: Word): (r: Bytes)
    ensures |r| == 4
  {
    [LowByte(w), LowByte(Down(w)), LowByte(Down(Down(w))), LowByte(Down(Down(Down(w))))]
  }

  lemma FourBytes(w: Word)
    ensures Wide(LowByte(w)) | (Wide(LowByte(Down(w))) << 8) | (Wide(LowByte(Down(Down(w)))) << 16)
          | (Wide(LowByte(Down(Down(Down(w))))) << 24) == w
  {
  }

  // EmitPhysicalRecord
  function Header(t: byte, payload: Bytes): (r: Bytes)
    requires |payload| < 65536
    ensures |r| == kHeaderSize
  {
    WordBytes(Mask(Value([t] + payload))) + [ByteOf(|payload| % 256), ByteOf(|payload| / 256), t]
  }

  function Physical(t: byte, payload: Bytes): (r: Bytes)
    requires |payload| < 65536
    ensures |r| == kHeaderSize + |payload|
  {
    Header(t, payload) + payload
  }

  function TypeOf(begin: bool, end: bool): byte {
    if begin && end then kFullType else if begin then kFirstType else if end then kLastType else kMiddleType
  }

  function Zeros(n: nat): (r: Bytes)
    ensures |r| == n
  {
    seq(n, _ => 0)
  }

  // Zero bytes before the next header, when fewer than seven are left in the block.
  function Padding(off: nat): nat
    requires off <= kBlockSize
  {
    if kBlockSize - off < kHeaderSize then kBlockSize - off else 0
  }

  // The block offset of the next header.
  function Start(off: nat): (r: nat)
    requires off <= kBlockSize
    ensures r + kHeaderSize <= kBlockSize
  {
    if kBlockSize - off < kHeaderSize then 0 else off
  }

  function FragmentLength(off: nat, left: nat): (r: nat)
    requires off <= kBlockSize
    ensures r <= left && Start(off) + kHeaderSize + r <= kBlockSize
  {
    if left < kBlockSize - Start(off) - kHeaderSize then left else kBlockSize - Start(off) - kHeaderSize
  }

  // What AddRecord appends at block offset `off` for the bytes still to be written.
  function Fragments(off: nat, left: Bytes, begin: bool): Bytes
    requires off <= kBlockSize
    decreases |left|, kBlockSize - off
  {
    var n := FragmentLength(off, |left|);
    var fragment := Zeros(Padding(off)) + Physical(TypeOf(begin, n == |left|), left[..n]);
    if n == |left| then fragment
    else fragment + Fragments(Start(off) + kHeaderSize + n, left[n..], false)
  }

  // The block offset afterwards.
  function OffsetAfter(off: nat, left: nat): (r: nat)
    requires off <= kBlockSize
    ensures r <= kBlockSize
    decreases left, kBlockSize - off
  {
    var n := FragmentLength(off, left);
    if n == left then Start(off) + kHeaderSize + n else OffsetAfter(Start(off) + kHeaderSize + n, left - n)
  }

  // A whole log file.
  function LogOf(records: seq<Bytes>): Bytes {
    if records == [] then []
    else
      var file := LogOf(records[..|records| - 1]);
      file + Fragments(|file| % kBlockSize, records[|records| - 1], true)
  }

  // A full block and an empty one continue alike.
  lemma BlockEdge(left: Bytes, begin: bool)
    ensures Fragments(kBlockSize, left, begin) == Fragments(0, left, begin)
    ensures OffsetAfter(kBlockSize, |left|) == OffsetAfter(0, |left|)
  {
    assert Zeros(0) == [];
  }

  // A fragment never crosses a block edge.
  lemma {:induction false} OffsetIsLength(off: nat, left: Bytes, begin: bool)
    requires off <= kBlockSize
    ensures (off + |Fragments(off, left, begin)|) % kBlockSize == OffsetAfter(off, |left|) % kBlockSize
    decreases |left|, kBlockSize - off
  {
    hide Physical, Zeros;
    var n := FragmentLength(off, |left|);
    var off' := Start(off) + kHeaderSize + n;
    assert (off + Padding(off)) % kBlockSize == Start(off) % kBlockSize;
    if n < |left| {
      OffsetIsLength(off', left[n..], false);
      AddsBlocks(off + Padding(off), Start(off), kHeaderSize + n + |Fragments(off', left[n..], false)|);
    } else {
      AddsBlocks(off + Padding(off), Start(off), kHeaderSize + n);
    }
  }

  lemma AddsBlocks(a: nat, b: nat, c: nat)
    requires a == b || a == b + kBlockSize
    ensures (a + c) % kBlockSize == (b + c) % kBlockSize
  {
  }
}
