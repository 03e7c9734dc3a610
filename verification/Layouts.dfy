/** The formats byte by byte: what is on disk or on the wire must not change, so encoder and decoder may not drift
    together. */
module Layouts {
  import opened Keys
  import opened Coding
  import C = Crc32c
  import L = LogFormat
  import W = WriteBatches
  import V = EditCodec
  import F = BlockFormat
  import N = NanopbFormat
  import M = Filters

  // ----- integers -----

  // Little-endian: byte i is digit i of the number in base 256.
  lemma {:induction false} FixedDigits(n: nat, k: nat, i: nat)
    requires i < k
    ensures EncodeFixed(n, k)[i] as int == n / Pow256(i) % 256
    decreases k
  {
    if i > 0 {
      FixedDigits(n / 256, k - 1, i - 1);
      DivideTwice(n, 256, Pow256(i - 1));
    }
  }

  lemma DivideTwice(n: nat, a: nat, b: nat)
    requires a > 0 && b > 0
    ensures n / a / b == n / (a * b)
  {
    var m := n / a;
    Place(n, a, b, m / b, m % b, n % a);
  }

  lemma Place(n: nat, a: nat, b: nat, q: nat, r: nat, s: nat)
    requires n == a * (b * q + r) + s && r < b && s < a
    ensures n / (a * b) == q
  {
    Multiplied(a, b, q, r);
    ProductGrows(a, r, b - 1);
    ProductStep(a, b - 1);
    Quotient(n, a * b, q, a * r + s);
  }

  lemma Multiplied(a: nat, b: nat, q: nat, r: nat)
    ensures a * (b * q + r) == a * b * q + a * r
  {
  }

  // Byte i is digit i of the number in base 128, with the high bit set on all bytes but the last.
  lemma {:induction false} VarintDigits(v: nat, i: nat)
    requires i < |EncodeVarint(v)|
    ensures EncodeVarint(v)[i] as int == v / Pow128(i) % 128 + if i + 1 < |EncodeVarint(v)| then 128 else 0
    decreases i
  {
    hide EncodeVarint, Pow128;
    Groups(v, i);
    if i > 0 {
      VarintDigits(v / 128, i - 1);
      DivideTwice(v, 128, Pow128(i - 1));
    }
  }

  lemma Groups(v: nat, i: nat)
    requires i < |EncodeVarint(v)|
    ensures i > 0 ==> v >= 128 && Pow128(i) == 128 * Pow128(i - 1) && EncodeVarint(v)[i] == EncodeVarint(v / 128)[i - 1]
    ensures |EncodeVarint(v)| == if v < 128 then 1 else 1 + |EncodeVarint(v / 128)|
    ensures i == 0 ==> EncodeVarint(v)[i] as int == v / Pow128(0) % 128 + if v >= 128 then 128 else 0
  {
  }

  lemma Below128(v: nat)
    requires v < 128
    ensures EncodeVarint(v) == [v as byte]
  {
    SameByte(ByteOf(v), v as byte);
  }

  // A short string and the byte that counts it.
  function Counted(s: Bytes): Bytes
    requires |s| < 128
  {
    [|s| as byte] + s
  }

  lemma ShortSlice(s: Bytes)
    requires |s| < 128
    ensures EncodeSlice(s) == Counted(s)
  {
    Below128(|s|);
    hide EncodeVarint;
  }

  // ----- the checksum -----

  // "TestCRCBuffer"
  const TEST_BUFFER: Bytes := [84, 101, 115, 116, 67, 82, 67, 66, 117, 102, 102, 101, 114]

  // The register after one more byte.
  lemma FedByte(n: nat, before: C.Word, after: C.Word)
    requires n < |TEST_BUFFER| && C.Feed(C.kCRC32Xor, TEST_BUFFER[..n]) == before
    requires C.ZeroByte(C.Xor(before, C.Wide(TEST_BUFFER[n]))) == after
    ensures C.Feed(C.kCRC32Xor, TEST_BUFFER[..n + 1]) == after
  {
    hide C.ZeroByte, C.Xor, C.Wide, TEST_BUFFER;
    assert TEST_BUFFER[..n + 1][..n] == TEST_BUFFER[..n];
  }

  // The value the source keeps to try an accelerated implementation with.
  lemma TestValue()
    ensures C.Value(TEST_BUFFER) == 0xdcbc_59fa
  {
    hide C.ZeroByte, C.Wide;
    Fed4();
    Fed8();
    Fed11();
    Fed13();
    assert TEST_BUFFER[..|TEST_BUFFER|] == TEST_BUFFER;
  }

  lemma Fed4()
    requires C.Feed(C.kCRC32Xor, TEST_BUFFER[..0]) == 0xffff_ffff
    ensures C.Feed(C.kCRC32Xor, TEST_BUFFER[..4]) == 0xae7a_99b4
  {
    hide C.Feed;
    FedByte(0, 0xffff_ffff, 0x3b3d_e162);
    FedByte(1, 0x3b3d_e162, 0xd4f1_590a);
    FedByte(2, 0xd4f1_590a, 0x09fe_7e98);
    FedByte(3, 0x09fe_7e98, 0xae7a_99b4);
  }

  lemma Fed8()
    requires C.Feed(C.kCRC32Xor, TEST_BUFFER[..4]) == 0xae7a_99b4
    ensures C.Feed(C.kCRC32Xor, TEST_BUFFER[..8]) == 0x20f1_ac0e
  {
    hide C.Feed;
    FedByte(4, 0xae7a_99b4, 0x270a_7107);
    FedByte(5, 0x270a_7107, 0x64f3_c4be);
    FedByte(6, 0x64f3_c4be, 0x4c22_d062);
    FedByte(7, 0x4c22_d062, 0x20f1_ac0e);
  }

  lemma Fed11()
    requires C.Feed(C.kCRC32Xor, TEST_BUFFER[..8]) == 0x20f1_ac0e
    ensures C.Feed(C.kCRC32Xor, TEST_BUFFER[..11]) == 0x7c1b_af86
  {
    hide C.Feed;
    FedByte(8, 0x20f1_ac0e, 0xe831_0e9a);
    FedByte(9, 0xe831_0e9a, 0xbec5_91ab);
    FedByte(10, 0xbec5_91ab, 0x7c1b_af86);
  }

  lemma Fed13()
    requires C.Feed(C.kCRC32Xor, TEST_BUFFER[..11]) == 0x7c1b_af86
    ensures C.Feed(C.kCRC32Xor, TEST_BUFFER[..13]) == 0x2343_a605
  {
    hide C.Feed;
    FedByte(11, 0x7c1b_af86, 0xf01c_4041);
    FedByte(12, 0xf01c_4041, 0x2343_a605);
  }

  // ----- the log -----

  // Checksum, length and type before the payload, the first two little-endian.
  lemma LogHeader(t: byte, x: Bytes)
    requires |x| < 65536
    ensures var h, crc := L.Header(t, x), C.Mask(C.Value([t] + x));
            && h[0] == C.LowByte(crc) && h[3] == C.LowByte(C.Down(C.Down(C.Down(crc))))
            && h[4] as int == |x| % 256 && h[5] as int == |x| / 256 && h[6] == t
  {
    hide C.Mask, C.Value, C.LowByte, C.Down;
  }

  lemma LogTypes(n: nat, i: nat)
    requires i < n
    ensures L.Zeros(n)[i] == 0
    ensures L.TypeOf(true, true) == 1 && L.TypeOf(true, false) == 2 && L.TypeOf(false, false) == 3 && L.TypeOf(false, true) == 4
  {
  }

  // ----- write batches -----

  // A tag, 1 for a value and 0 for a deletion, and counted strings.
  lemma BatchRecords(k: Bytes, v: Bytes)
    requires |k| < 128 && |v| < 128
    ensures W.Encode(W.Put(k, v)) == [1] + Counted(k) + Counted(v)
    ensures W.Encode(W.Delete(k)) == [0] + Counted(k)
  {
    hide EncodeSlice, Counted;
    ShortSlice(k);
    ShortSlice(v);
  }

  // The sequence number in eight bytes, then the count in four, little-endian.
  lemma BatchHeader(rep: Bytes, n: nat, i: nat)
    requires |rep| >= 12 && n < W.MAX_COUNT && i < 12
    ensures W.PutSequence(W.PutCount(rep, n), n)[i] as int == n / Pow256(if i < 8 then i else i - 8) % 256
  {
    assert n % TWO_TO_32 == n && n % TWO_TO_64 == n;
    if i < 8 { FixedDigits(n, 8, i); } else { FixedDigits(n, 4, i - 8); }
    hide EncodeFixed, Pow256;
  }

  // ----- version edits -----

  lemma EditNumbers(n: nat)
    requires n < 128
    ensures V.EncodeField(V.Number(V.Log, n)) == [2, n as byte] && V.EncodeField(V.Number(V.NextFile, n)) == [3, n as byte]
    ensures V.EncodeField(V.Number(V.LastSequence, n)) == [4, n as byte] && V.EncodeField(V.Number(V.PrevLog, n)) == [9, n as byte]
  {
    hide EncodeVarint;
    SmallTags();
    Below128(n);
  }

  lemma EditStrings(level: nat, name: Bytes)
    requires level < 128 && |name| < 128
    ensures V.EncodeField(V.Comparator(name)) == [1] + Counted(name)
    ensures V.EncodeField(V.CompactPointer(level, name)) == [5] + [level as byte] + Counted(name)
  {
    hide EncodeVarint, EncodeSlice, Counted;
    SmallTags();
    Below128(level);
    ShortSlice(name);
  }

  lemma EditFiles(level: nat, n: nat, size: nat, smallest: Bytes, largest: Bytes)
    requires level < 128 && n < 128 && size < 128 && |smallest| < 128 && |largest| < 128
    ensures V.EncodeField(V.DeletedFile(level, n)) == [6] + [level as byte] + [n as byte]
    ensures V.EncodeField(V.AddedFile(V.NewFile(level, n, size, smallest, largest)))
         == [7] + [level as byte] + [n as byte] + [size as byte] + Counted(smallest) + Counted(largest)
  {
    hide EncodeVarint, EncodeSlice, Counted;
    SmallTags();
    Below128(level);
    Below128(n);
    Below128(size);
    ShortSlice(smallest);
    ShortSlice(largest);
  }

  lemma SmallTags()
    ensures EncodeVarint(1) == [1] && EncodeVarint(2) == [2] && EncodeVarint(3) == [3] && EncodeVarint(4) == [4]
    ensures EncodeVarint(5) == [5] && EncodeVarint(6) == [6] && EncodeVarint(7) == [7] && EncodeVarint(9) == [9]
  {
    Below128(1);
    Below128(2);
    Below128(3);
    Below128(4);
    Below128(5);
    Below128(6);
    Below128(7);
    Below128(9);
    hide EncodeVarint;
  }

  // ----- blocks -----

  // Shared bytes, other bytes of the key, bytes of the value; then those bytes.
  lemma BlockEntry(shared: nat, e: F.Pair)
    requires shared <= |e.key| < 128 && |e.value| < 128
    ensures F.EncodeEntry(shared, e) == [shared as byte] + [(|e.key| - shared) as byte] + [|e.value| as byte] + (e.key[shared..] + e.value)
  {
    hide EncodeVarint;
    Below128(shared);
    Below128(|e.key| - shared);
    Below128(|e.value|);
  }

  // ----- filters -----

  // Bit i of a byte is worth twice bit i - 1.
  lemma FilterBits(i: nat)
    requires i < 7
    ensures M.Mask(0) == 1 && M.Mask(i + 1) as int == 2 * M.Mask(i) as int
  {
  }

  // ----- nanopb -----

  lemma TagByte(wireType: nat, tag: nat)
    requires wireType < 8 && 1 <= tag < 16
    ensures N.TagBytes(wireType, tag) == [(tag * 8 + wireType) as byte]
  {
    Below128(tag * 8 + wireType);
    hide EncodeVarint;
  }

  // Half of the numbers of so many bytes; with a sign they go from minus that on.
  lemma IntegerWidths(w: nat)
    requires w == 1 || w == 2 || w == 4 || w == 8
    ensures N.Width(w) && 2 * N.Half(w) == Pow256(w)
  {
    FixedWidths();
    assert Pow256(1) == 256 * Pow256(0) && Pow256(2) == 256 * Pow256(1);
  }

  // Wire types, zigzag and two's complement.
  lemma NanopbValues(n: int, b: Bytes)
    requires 0 <= n < 64 && |b| < 128
    ensures N.WireType(N.UVarInt(4)) == 0 && N.WireType(N.Fixed64) == 1 && N.WireType(N.Text(1)) == 2 && N.WireType(N.Fixed32) == 5
    ensures N.EncValue(N.SVarInt(4), N.Num(n)) == [(2 * n) as byte] && N.EncValue(N.SVarInt(4), N.Num(-n - 1)) == [(2 * n + 1) as byte]
    ensures N.EncValue(N.VarInt(4), N.Num(n)) == N.EncValue(N.UVarInt(4), N.Num(n)) == [n as byte]
    ensures N.EncValue(N.VarInt(4), N.Num(-n - 1)) == EncodeVarint(0xffff_ffff_ffff_ffff - n)
    ensures N.EncValue(N.Text(100), N.Data(b)) == Counted(b)
  {
    hide EncodeVarint, EncodeSlice, Counted;
    Below128(n);
    Below128(2 * n);
    Below128(2 * n + 1);
    ShortSlice(b);
  }
}
