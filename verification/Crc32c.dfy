/** util/crc32c.{h,cc}: CRC-32C in four interleaved strides against the bit-serial definition
    (polynomial of section 12.1 of RFC 3720, reflected).

    The register is a vector over GF(2) and feeding zeros is a linear map.  The striped form is
    right because the bytes of four strides can be fed separately, each stride advanced past the
    sixteen bytes between its words, and the four results combined at the end. */
module Crc32c {
  import opened Keys

  type Word = bv32

  const POLYNOMIAL: Word := 0x82f6_3b78
  const kCRC32Xor: Word := 0xffff_ffff

  function Xor(a: Word, b: Word): Word { a ^ b }
  function Half(x: Word): Word { x >> 1 }
  function Up(x: Word): Word { x << 8 }            // one byte towards the end of the register
  function Down(x: Word): Word { x >> 8 }
  predicate Odd(x: Word) { x & 1 == 1 }
  predicate Small(x: Word) { x >> 24 == 0 }        // the highest byte is clear
  function LowByte(x: Word): byte { (x & 0xff) as byte }
  function Wide(b: byte): Word { b as Word }

  // ----- the reference -----

  // Feed one zero bit.
  function ZeroBit(x: Word): Word { if Odd(x) then Xor(Half(x), POLYNOMIAL) else Half(x) }

  function Zero4(x: Word): Word { ZeroBit(ZeroBit(ZeroBit(ZeroBit(x)))) }

  // Feed one zero byte.
  function ZeroByte(x: Word): Word { Zero4(Zero4(x)) }

  // Feed n zero bytes.
  function Advance(x: Word, n: nat): Word {
    if n == 0 then x else ZeroByte(Advance(x, n - 1))
  }

  // Feed the bytes of data, each least significant bit first.
  function Feed(l: Word, data: Bytes): Word {
    if data == [] then l
    else ZeroByte(Xor(Feed(l, data[..|data| - 1]), Wide(data[|data| - 1])))
  }

  // The CRC of a message from that of its beginning.
  function Reference(crc: Word, data: Bytes): Word { Xor(Feed(Xor(crc, kCRC32Xor), data), kCRC32Xor) }

  // ----- linearity -----

  lemma XorBits(a: Word, b: Word)
    ensures Half(Xor(a, b)) == Xor(Half(a), Half(b)) && Xor(a, b) & 1 == (a & 1) ^ (b & 1)
    ensures (a & 1 == 0 || a & 1 == 1) && (b & 1 == 0 || b & 1 == 1)
  {
  }

  lemma XorMoves(x: Word, y: Word)
    ensures Xor(x, y) == Xor(y, x)
  {
  }

  lemma XorNests(x: Word, y: Word, z: Word)
    ensures Xor(Xor(x, y), z) == Xor(x, Xor(y, z))
  {
  }

  lemma XorTwice(x: Word, p: Word)
    ensures Xor(Xor(x, p), p) == x
  {
  }

  lemma XorCancels(x: Word, y: Word, p: Word)
    ensures Xor(x, y) == Xor(Xor(x, p), Xor(y, p)) && Xor(Xor(x, y), p) == Xor(x, Xor(y, p)) == Xor(Xor(x, p), y)
  {
    hide Xor;
    XorNests(x, y, p);
    XorMoves(y, p);
    XorNests(x, p, y);
    XorNests(Xor(x, p), y, p);
    XorTwice(Xor(x, y), p);
  }

  lemma ZeroBitLinear(a: Word, b: Word)
    ensures ZeroBit(Xor(a, b)) == Xor(ZeroBit(a), ZeroBit(b))
  {
    XorBits(a, b);
    XorCancels(Half(a), Half(b), POLYNOMIAL);
    hide Xor, Half;
  }

  lemma Zero4Linear(a: Word, b: Word)
    ensures Zero4(Xor(a, b)) == Xor(Zero4(a), Zero4(b))
  {
    hide ZeroBit, Xor;
    ZeroBitLinear(a, b);
    ZeroBitLinear(ZeroBit(a), ZeroBit(b));
    ZeroBitLinear(ZeroBit(ZeroBit(a)), ZeroBit(ZeroBit(b)));
    ZeroBitLinear(ZeroBit(ZeroBit(ZeroBit(a))), ZeroBit(ZeroBit(ZeroBit(b))));
  }

  lemma ZeroByteLinear(a: Word, b: Word)
    ensures ZeroByte(Xor(a, b)) == Xor(ZeroByte(a), ZeroByte(b))
  {
    hide Zero4, Xor;
    Zero4Linear(a, b);
    Zero4Linear(Zero4(a), Zero4(b));
  }

  lemma {:induction false} AdvanceLinear(a: Word, b: Word, n: nat)
    ensures Advance(Xor(a, b), n) == Xor(Advance(a, n), Advance(b, n))
  {
    hide ZeroByte, Xor;
    if n > 0 {
      AdvanceLinear(a, b, n - 1);
      ZeroByteLinear(Advance(a, n - 1), Advance(b, n - 1));
    }
  }

  lemma {:induction false} AdvanceAdds(x: Word, m: nat, n: nat)
    ensures Advance(Advance(x, m), n) == Advance(x, m + n)
  {
    hide ZeroByte;
    if n > 0 { AdvanceAdds(x, m, n - 1); }
  }

  // ----- bytes that only move -----

  predicate LowClear(y: Word) { y & 15 == 0 }
  function Nibble(y: Word): Word { y >> 4 }

  lemma Even0(y: Word)
    requires LowClear(y)
    ensures !Odd(y)
  {
  }

  lemma Even1(y: Word)
    requires LowClear(y)
    ensures !Odd(Half(y))
  {
  }

  lemma Even2(y: Word)
    requires LowClear(y)
    ensures !Odd(Half(Half(y)))
  {
  }

  lemma Even3(y: Word)
    requires LowClear(y)
    ensures !Odd(Half(Half(Half(y))))
  {
  }

  lemma FourHalves(y: Word)
    ensures Half(Half(Half(Half(y)))) == Nibble(y)
  {
  }

  lemma FourMove(y: Word)
    requires LowClear(y)
    ensures Zero4(y) == Nibble(y)
  {
    hide Half, Odd, LowClear, Nibble;
    Even0(y);
    Even1(y);
    Even2(y);
    Even3(y);
    FourHalves(y);
  }

  lemma UpMoves(y: Word)
    ensures LowClear(Up(y)) && LowClear(Nibble(Up(y)))
    ensures Small(y) ==> Nibble(Nibble(Up(y))) == y
  {
  }

  // Bytes above the lowest one only move down.
  lemma HighBytesMove(y: Word)
    requires Small(y)
    ensures ZeroByte(Up(y)) == y
  {
    hide Zero4, Up, Nibble, LowClear, Small;
    UpMoves(y);
    FourMove(Up(y));
    FourMove(Nibble(Up(y)));
  }

  // Feeding the byte b with r waiting above it.
  lemma PushByte(l: Word, b: Word, r: Word)
    requires Small(r)
    ensures ZeroByte(Xor(l, Xor(b, Up(r)))) == Xor(ZeroByte(Xor(l, b)), r)
  {
    hide ZeroByte, Xor, Up, Small;
    XorCancels(l, b, Up(r));
    ZeroByteLinear(Xor(l, b), Up(r));
    HighBytesMove(r);
  }

  // ----- tables -----

  // kByteExtensionTable[c]
  function ByteExtension(c: byte): Word { ZeroByte(Wide(c)) }

  // kStrideExtensionTable3, 2, 1 and 0 at c: sixteen zero bytes after c in lane 0, 1, 2 or 3.
  function Lane(c: byte, lane: nat): Word
    requires lane < 4
  {
    if lane == 0 then Wide(c) else Up(Lane(c, lane - 1))
  }

  function StrideExtension(lane: nat, c: byte): Word
    requires lane < 4
  {
    Advance(Lane(c, lane), 16)
  }

  function Xor8(a: byte, b: byte): byte { a ^ b }

  lemma SplitLow(l: Word, p: byte)
    ensures Xor(l, Wide(p)) == Xor(0, Xor(Wide(Xor8(LowByte(l), p)), Up(Down(l)))) && Small(Down(l))
    ensures Xor(0, Wide(Xor8(LowByte(l), p))) == Wide(Xor8(LowByte(l), p))
  {
  }

  // STEP1 feeds one byte.
  lemma TableStep(l: Word, p: byte)
    ensures Xor(ByteExtension(Xor8(LowByte(l), p)), Down(l)) == ZeroByte(Xor(l, Wide(p)))
  {
    SplitLow(l, p);
    hide Xor, Wide, LowByte, Xor8, Up, Down, Small, ZeroByte;
    PushByte(0, Wide(Xor8(LowByte(l), p)), Down(l));
  }

  // The four bytes of a word, lowest first.
  function ByteAt(x: Word, k: nat): byte
    requires k < 4
  {
    if k == 0 then LowByte(x) else ByteAt(Down(x), k - 1)
  }

  lemma FourLanes(x: Word)
    ensures x == Xor(Xor(Xor(Wide(LowByte(x)), Up(Wide(LowByte(Down(x))))), Up(Up(Wide(LowByte(Down(Down(x))))))),
                     Up(Up(Up(Wide(LowByte(Down(Down(Down(x)))))))))
  {
  }

  // The four table look-ups of STEP4.
  function StrideLookup(x: Word): Word {
    Xor(Xor(Xor(StrideExtension(0, ByteAt(x, 0)), StrideExtension(1, ByteAt(x, 1))), StrideExtension(2, ByteAt(x, 2))),
        StrideExtension(3, ByteAt(x, 3)))
  }

  lemma StrideStep(x: Word)
    ensures StrideLookup(x) == Advance(x, 16)
  {
    FourLanes(x);
    hide Xor, Wide, LowByte, Up, Down, Advance;
    LanesAre(x);
    var a, b, c, d := Lane(ByteAt(x, 0), 0), Lane(ByteAt(x, 1), 1), Lane(ByteAt(x, 2), 2), Lane(ByteAt(x, 3), 3);
    AdvanceLinear(Xor(Xor(a, b), c), d, 16);
    AdvanceLinear(Xor(a, b), c, 16);
    AdvanceLinear(a, b, 16);
  }

  lemma LanesAre(x: Word)
    ensures Lane(ByteAt(x, 0), 0) == Wide(LowByte(x)) && Lane(ByteAt(x, 1), 1) == Up(Wide(LowByte(Down(x))))
    ensures Lane(ByteAt(x, 2), 2) == Up(Up(Wide(LowByte(Down(Down(x))))))
    ensures Lane(ByteAt(x, 3), 3) == Up(Up(Up(Wide(LowByte(Down(Down(Down(x))))))))
  {
    hide Wide, LowByte, Up, Down;
    assert ByteAt(x, 1) == ByteAt(Down(x), 0);
    assert ByteAt(x, 2) == ByteAt(Down(x), 1) == ByteAt(Down(Down(x)), 0);
    assert ByteAt(x, 3) == ByteAt(Down(x), 2) == ByteAt(Down(Down(x)), 1) == ByteAt(Down(Down(Down(x))), 0);
    var c := ByteAt(x, 3);
    assert Lane(c, 3) == Up(Lane(c, 2)) == Up(Up(Lane(c, 1))) == Up(Up(Up(Lane(c, 0))));
    var d := ByteAt(x, 2);
    assert Lane(d, 2) == Up(Lane(d, 1)) == Up(Up(Lane(d, 0)));
  }

  // ----- words -----

  // ReadUint32LE
  function ReadUint32LE(data: Bytes, p: nat): Word
    requires p + 4 <= |data|
  {
    Wide(data[p]) | (Wide(data[p + 1]) << 8) | (Wide(data[p + 2]) << 16) | (Wide(data[p + 3]) << 24)
  }

  // Feed a word of four bytes.
  function FeedWord(l: Word, w: Word): Word { Advance(Xor(l, w), 4) }

  function Stack(b0: Word, b1: Word, b2: Word, b3: Word): Word { Xor(b0, Up(Xor(b1, Up(Xor(b2, Up(b3)))))) }

  lemma StackIsWord(b0: byte, b1: byte, b2: byte, b3: byte)
    ensures Wide(b0) | (Wide(b1) << 8) | (Wide(b2) << 16) | (Wide(b3) << 24) == Stack(Wide(b0), Wide(b1), Wide(b2), Wide(b3))
  {
  }

  lemma StackIsSmall(b1: byte, b2: byte, b3: byte)
    ensures Small(Xor(Wide(b1), Up(Xor(Wide(b2), Up(Wide(b3))))))
  {
  }

  lemma PairIsSmall(b2: byte, b3: byte)
    ensures Small(Xor(Wide(b2), Up(Wide(b3)))) && Small(Wide(b3))
  {
  }

  lemma StackFeeds(l: Word, b0: Word, b1: Word, b2: Word, b3: Word)
    requires Small(Xor(b1, Up(Xor(b2, Up(b3))))) && Small(Xor(b2, Up(b3))) && Small(b3)
    ensures Advance(Xor(l, Stack(b0, b1, b2, b3)), 4)
         == ZeroByte(Xor(ZeroByte(Xor(ZeroByte(Xor(ZeroByte(Xor(l, b0)), b1)), b2)), b3))
  {
    hide ZeroByte, Xor, Up, Small;
    var x := Xor(l, Stack(b0, b1, b2, b3));
    assert Advance(x, 4) == ZeroByte(Advance(x, 3)) == ZeroByte(ZeroByte(Advance(x, 2))) == ZeroByte(ZeroByte(ZeroByte(Advance(x, 1))));
    assert Advance(x, 1) == ZeroByte(Advance(x, 0)) == ZeroByte(x);
    PushByte(l, b0, Xor(b1, Up(Xor(b2, Up(b3)))));
    PushByte(ZeroByte(Xor(l, b0)), b1, Xor(b2, Up(b3)));
    PushByte(ZeroByte(Xor(ZeroByte(Xor(l, b0)), b1)), b2, b3);
  }

  lemma FeedsWord(l: Word, data: Bytes, p: nat)
    requires p + 4 <= |data|
    ensures Feed(l, data[..p + 4]) == FeedWord(Feed(l, data[..p]), ReadUint32LE(data, p))
  {
    StackIsWord(data[p], data[p + 1], data[p + 2], data[p + 3]);
    StackIsSmall(data[p + 1], data[p + 2], data[p + 3]);
    PairIsSmall(data[p + 2], data[p + 3]);
    hide ZeroByte, Xor, Up, Small, Wide;
    forall k | p <= k < p + 4 ensures Feed(l, data[..k + 1]) == ZeroByte(Xor(Feed(l, data[..k]), Wide(data[k]))) {
      FeedsByte(l, data, k);
    }
    StackFeeds(Feed(l, data[..p]), Wide(data[p]), Wide(data[p + 1]), Wide(data[p + 2]), Wide(data[p + 3]));
  }

  lemma FeedsByte(l: Word, data: Bytes, p: nat)
    requires p < |data|
    ensures Feed(l, data[..p + 1]) == ZeroByte(Xor(Feed(l, data[..p]), Wide(data[p])))
  {
    hide ZeroByte, Xor, Wide;
    assert data[..p + 1][..p] == data[..p];
  }

  // ----- strides -----

  // The register after all words, from the four partial results.
  function Combine(c0: Word, c1: Word, c2: Word, c3: Word): Word {
    FeedWord(FeedWord(FeedWord(FeedWord(0, c0), c1), c2), c3)
  }

  lemma XorZero(x: Word)
    ensures Xor(0, x) == x
  {
  }

  lemma CombineForm(c0: Word, c1: Word, c2: Word, c3: Word)
    ensures Combine(c0, c1, c2, c3) == Xor(Xor(Xor(Advance(c0, 16), Advance(c1, 12)), Advance(c2, 8)), Advance(c3, 4))
  {
    XorZero(c0);
    hide Xor, Advance;
    AdvanceLinear(Advance(c0, 4), c1, 4);
    AdvanceAdds(c0, 4, 4);
    AdvanceLinear(Xor(Advance(c0, 8), Advance(c1, 4)), c2, 4);
    AdvanceLinear(Advance(c0, 8), Advance(c1, 4), 4);
    AdvanceAdds(c0, 8, 4);
    AdvanceAdds(c1, 4, 4);
    Spread(Advance(c0, 12), Advance(c1, 8), Advance(c2, 4), c3);
    AdvanceAdds(c0, 12, 4);
    AdvanceAdds(c1, 8, 4);
    AdvanceAdds(c2, 4, 4);
  }

  lemma Spread(a: Word, b: Word, c: Word, d: Word)
    ensures Advance(Xor(Xor(Xor(a, b), c), d), 4) == Xor(Xor(Xor(Advance(a, 4), Advance(b, 4)), Advance(c, 4)), Advance(d, 4))
  {
    hide Xor, Advance;
    AdvanceLinear(Xor(Xor(a, b), c), d, 4);
    AdvanceLinear(Xor(a, b), c, 4);
    AdvanceLinear(a, b, 4);
  }

  lemma Rotate(a: Word, b: Word, c: Word, d: Word, e: Word)
    ensures Xor(Xor(Xor(b, c), d), Xor(e, a)) == Xor(Xor(Xor(Xor(a, b), c), d), e)
  {
    hide Xor;
    var bcd := Xor(Xor(b, c), d);
    XorMoves(e, a);
    XorNests(bcd, a, e);
    XorMoves(bcd, a);
    XorNests(a, Xor(b, c), d);
    XorNests(a, b, c);
  }

  // STEP4 on the oldest stride feeds one more word to the combined register.
  lemma StrideAdds(c0: Word, c1: Word, c2: Word, c3: Word, w: Word)
    ensures Combine(c1, c2, c3, Xor(w, Advance(c0, 16))) == FeedWord(Combine(c0, c1, c2, c3), w)
  {
    hide Xor, Advance;
    CombineForm(c0, c1, c2, c3);
    CombineForm(c1, c2, c3, Xor(w, Advance(c0, 16)));
    AdvanceLinear(w, Advance(c0, 16), 4);
    AdvanceLinear(Xor(Xor(Xor(Advance(c0, 16), Advance(c1, 12)), Advance(c2, 8)), Advance(c3, 4)), w, 4);
    Spread(Advance(c0, 16), Advance(c1, 12), Advance(c2, 8), Advance(c3, 4));
    AdvanceAdds(c0, 16, 4);
    AdvanceAdds(c1, 12, 4);
    AdvanceAdds(c2, 8, 4);
    AdvanceAdds(c3, 4, 4);
    Rotate(Advance(c0, 20), Advance(c1, 16), Advance(c2, 12), Advance(c3, 8), Advance(w, 4));
  }

  // ----- Extend -----

  // The loaded words of a swath, before any stride step.
  lemma FirstSwath(l: Word, w0: Word, w1: Word, w2: Word, w3: Word)
    ensures Combine(Xor(w0, l), w1, w2, w3) == FeedWord(FeedWord(FeedWord(FeedWord(l, w0), w1), w2), w3)
  {
    XorZero(Xor(w0, l));
    XorMoves(w0, l);
  }

  // STEP4W
  method Step4W(l: Word, w: Word) returns (r: Word)
    ensures r == FeedWord(l, w)
  {
    hide Xor, LowByte, Down, ByteExtension, Wide, ZeroByte;
    XorMoves(w, l);
    r := Xor(w, l);
    for i := 0 to 4
      invariant r == Advance(Xor(l, w), i)
    {
      TableStep(r, 0);
      NoByte(r);
      r := Xor(Down(r), ByteExtension(LowByte(r)));
    }
  }

  lemma NoByte(x: Word)
    ensures Xor(x, Wide(0)) == x && Xor8(LowByte(x), 0) == LowByte(x)
    ensures Xor(ByteExtension(LowByte(x)), Down(x)) == Xor(Down(x), ByteExtension(LowByte(x)))
  {
    XorMoves(ByteExtension(LowByte(x)), Down(x));
  }

  // STEP4: the next word of one stride.
  function Step4(crc: Word, w: Word): Word { Xor(w, StrideLookup(crc)) }

  // STEP16: the next word of each stride.
  lemma Step16Feeds(c0: Word, c1: Word, c2: Word, c3: Word, w0: Word, w1: Word, w2: Word, w3: Word)
    ensures Combine(Step4(c0, w0), Step4(c1, w1), Step4(c2, w2), Step4(c3, w3))
         == FeedWord(FeedWord(FeedWord(FeedWord(Combine(c0, c1, c2, c3), w0), w1), w2), w3)
  {
    hide Xor, Advance, StrideLookup, Combine, FeedWord;
    StrideStep(c0);
    StrideStep(c1);
    StrideStep(c2);
    StrideStep(c3);
    StrideAdds(c0, c1, c2, c3, w0);
    StrideAdds(c1, c2, c3, Step4(c0, w0), w1);
    StrideAdds(c2, c3, Step4(c0, w0), Step4(c1, w1), w2);
    StrideAdds(c3, Step4(c0, w0), Step4(c1, w1), Step4(c2, w2), w3);
  }

  lemma FeedsSwath(l: Word, data: Bytes, p: nat)
    requires p + 16 <= |data|
    ensures Feed(l, data[..p + 16])
         == FeedWord(FeedWord(FeedWord(FeedWord(Feed(l, data[..p]), ReadUint32LE(data, p)), ReadUint32LE(data, p + 4)),
                              ReadUint32LE(data, p + 8)), ReadUint32LE(data, p + 12))
  {
    hide FeedWord, ReadUint32LE, Feed;
    FeedsWord(l, data, p);
    FeedsWord(l, data, p + 4);
    FeedsWord(l, data, p + 8);
    FeedsWord(l, data, p + 12);
  }

  // Feed data[p..stop] byte by byte.
  method FeedBytes(start: Word, l: Word, data: Bytes, p: nat, stop: nat) returns (r: Word)
    requires p <= stop <= |data| && l == Feed(start, data[..p])
    ensures r == Feed(start, data[..stop])
  {
    hide Xor, LowByte, Down, ByteExtension, Wide, ZeroByte, Feed;
    r := l;
    for i := p to stop
      invariant r == Feed(start, data[..i])
    {
      TableStep(r, data[i]);
      FeedsByte(start, data, i);
      r := Xor(ByteExtension(Xor8(LowByte(r), data[i])), Down(r));
    }
  }

  // The striped part: as many words from p on as possible, at least four.
  method FeedStrides(start: Word, l: Word, data: Bytes, p: nat) returns (r: Word, q: nat)
    requires p + 16 <= |data| && l == Feed(start, data[..p])
    ensures p <= q <= |data| < q + 4 && r == Feed(start, data[..q])
  {
    hide Xor, Feed, FeedWord, ReadUint32LE, Combine, Step4;
    var crc0, crc1 := Xor(ReadUint32LE(data, p), l), ReadUint32LE(data, p + 4);
    var crc2, crc3 := ReadUint32LE(data, p + 8), ReadUint32LE(data, p + 12);
    FirstSwath(l, ReadUint32LE(data, p), crc1, crc2, crc3);
    FeedsSwath(start, data, p);
    q := p + 16;
    while |data| - q >= 16
      invariant p <= q <= |data| && Combine(crc0, crc1, crc2, crc3) == Feed(start, data[..q])
    {
      Step16Feeds(crc0, crc1, crc2, crc3, ReadUint32LE(data, q), ReadUint32LE(data, q + 4), ReadUint32LE(data, q + 8), ReadUint32LE(data, q + 12));
      FeedsSwath(start, data, q);
      crc0 := Step4(crc0, ReadUint32LE(data, q));
      crc1 := Step4(crc1, ReadUint32LE(data, q + 4));
      crc2 := Step4(crc2, ReadUint32LE(data, q + 8));
      crc3 := Step4(crc3, ReadUint32LE(data, q + 12));
      q := q + 16;
    }
    while |data| - q >= 4
      invariant p <= q <= |data| && Combine(crc0, crc1, crc2, crc3) == Feed(start, data[..q])
    {
      OneStride(crc0, crc1, crc2, crc3, ReadUint32LE(data, q));
      FeedsWord(start, data, q);
      var tmp := Step4(crc0, ReadUint32LE(data, q));
      crc0, crc1, crc2, crc3 := crc1, crc2, crc3, tmp;
      q := q + 4;
    }
    CombineIs(crc0, crc1, crc2, crc3);
    r := Step4W(0, crc0);
    r := Step4W(r, crc1);
    r := Step4W(r, crc2);
    r := Step4W(r, crc3);
  }

  lemma OneStride(c0: Word, c1: Word, c2: Word, c3: Word, w: Word)
    ensures Combine(c1, c2, c3, Step4(c0, w)) == FeedWord(Combine(c0, c1, c2, c3), w)
  {
    StrideStep(c0);
    StrideAdds(c0, c1, c2, c3, w);
  }

  lemma CombineIs(c0: Word, c1: Word, c2: Word, c3: Word)
    ensures Combine(c0, c1, c2, c3) == FeedWord(FeedWord(FeedWord(FeedWord(0, c0), c1), c2), c3)
  {
  }

  // Extend, for a buffer starting at any address.
  method Extend(crc: Word, data: Bytes, address: nat) returns (r: Word)
    ensures r == Reference(crc, data)
  {
    hide Xor, Feed;
    var e := |data|;
    var start := Xor(crc, kCRC32Xor);
    var l, p := start, 0;
    FeedNothing(start, data);
    var x := (4 - address % 4) % 4;                // RoundUp<4>(p) - p
    if x <= e {
      l := FeedBytes(start, l, data, p, x);
      p := x;
    }
    if e - p >= 16 { l, p := FeedStrides(start, l, data, p); }
    l := FeedBytes(start, l, data, p, e);
    assert data[..e] == data;
    r := Xor(l, kCRC32Xor);
  }

  lemma FeedNothing(start: Word, data: Bytes)
    ensures Feed(start, data[..0]) == start
  {
  }

  // ----- what callers rely on -----

  lemma {:induction false} FeedConcat(l: Word, a: Bytes, b: Bytes)
    ensures Feed(l, a + b) == Feed(Feed(l, a), b)
    decreases |b|
  {
    hide Xor, ZeroByte, Wide;
    if b == [] {
      assert a + b == a;
    } else {
      var n := |b| - 1;
      assert (a + b)[..|a + b| - 1] == a + b[..n];
      FeedConcat(l, a, b[..n]);
    }
  }

  // Extending the CRC of a by b gives the CRC of a followed by b.
  lemma ExtendConcat(crc: Word, a: Bytes, b: Bytes)
    ensures Reference(Reference(crc, a), b) == Reference(crc, a + b)
  {
    hide Xor, Feed;
    XorTwice(Feed(Xor(crc, kCRC32Xor), a), kCRC32Xor);
    FeedConcat(Xor(crc, kCRC32Xor), a, b);
  }

  function Value(data: Bytes): Word { Reference(0, data) }

  const kMaskDelta: Word := 0xa282_ead8

  function Mask(crc: Word): Word { ((crc >> 15) | (crc << 17)) + kMaskDelta }

  function Unmask(maskedCrc: Word): Word {
    var rot := maskedCrc - kMaskDelta;
    (rot >> 17) | (rot << 15)
  }

  lemma UnmaskMask(crc: Word)
    ensures Unmask(Mask(crc)) == crc
  {
  }

  lemma MaskUnmask(masked: Word)
    ensures Mask(Unmask(masked)) == masked
  {
  }

  // Two registers stay different whatever is fed to both.
  lemma {:induction false} FeedInjective(x: Word, y: Word, data: Bytes)
    requires x != y
    ensures Feed(x, data) != Feed(y, data)
    decreases |data|
  {
    hide ZeroByte, Xor, Wide;
    if data != [] {
      var init, b := data[..|data| - 1], Wide(data[|data| - 1]);
      FeedInjective(x, y, init);
      XorTwice(Feed(x, init), b);
      XorTwice(Feed(y, init), b);
      if Feed(x, data) == Feed(y, data) { ZeroByteInjective(Xor(Feed(x, init), b), Xor(Feed(y, init), b)); }
    }
  }

  // Changing one byte of a message changes its CRC.
  lemma CorruptByteShows(a: Bytes, b: byte, b': byte, c: Bytes)
    requires b != b'
    ensures Value(a + [b] + c) != Value(a + [b'] + c)
  {
    hide ZeroByte, Xor, Feed, Wide;
    var start := Xor(0, kCRC32Xor);
    FeedConcat(start, a + [b], c);
    FeedConcat(start, a + [b'], c);
    LastByteShows(Feed(start, a), start, a, b, b');
    FeedInjective(Feed(start, a + [b]), Feed(start, a + [b']), c);
    XorTwice(Feed(start, a + [b] + c), kCRC32Xor);
    XorTwice(Feed(start, a + [b'] + c), kCRC32Xor);
  }

  lemma LastByteShows(l: Word, start: Word, a: Bytes, b: byte, b': byte)
    requires b != b' && l == Feed(start, a)
    ensures Feed(start, a + [b]) != Feed(start, a + [b'])
  {
    hide ZeroByte, Xor, Wide;
    assert (a + [b])[..|a|] == a && (a + [b'])[..|a|] == a;
    XorTwice(Wide(b), l);
    XorTwice(Wide(b'), l);
    XorMoves(Wide(b), l);
    XorMoves(Wide(b'), l);
    WideInjective(b, b');
    if Feed(start, a + [b]) == Feed(start, a + [b']) { ZeroByteInjective(Xor(l, Wide(b)), Xor(l, Wide(b'))); }
  }

  lemma WideInjective(b: byte, b': byte)
    requires b != b'
    ensures Wide(b) != Wide(b')
  {
  }

  lemma ZeroBitInjective(x: Word, y: Word)
    requires ZeroBit(x) == ZeroBit(y)
    ensures x == y
  {
  }

  lemma ZeroByteInjective(x: Word, y: Word)
    requires ZeroByte(x) == ZeroByte(y)
    ensures x == y
  {
    hide ZeroBit;
    Zero4Injective(Zero4(x), Zero4(y));
    Zero4Injective(x, y);
  }

  lemma Zero4Injective(x: Word, y: Word)
    requires Zero4(x) == Zero4(y)
    ensures x == y
  {
    hide ZeroBit;
    ZeroBitInjective(ZeroBit(ZeroBit(ZeroBit(x))), ZeroBit(ZeroBit(ZeroBit(y))));
    ZeroBitInjective(ZeroBit(ZeroBit(x)), ZeroBit(ZeroBit(y)));
    ZeroBitInjective(ZeroBit(x), ZeroBit(y));
    ZeroBitInjective(x, y);
  }
}
