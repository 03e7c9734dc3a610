/** Little-endian integers and varints: util/coding.{h,cc}. */
module Coding {
  import opened Keys

  // The byte with value n.
  function ByteOf(n: nat): (b: byte)
    requires n < 256
    ensures b as int == n
  {
    if n == 0 then 0 else ByteOf(n - 1) + 1
  }

  function ValueOf(b: byte): (n: nat)
    ensures n < 256
  {
    b as int
  }

  lemma ByteOfValue(b: byte)
    ensures ByteOf(b as int) == b
  {
    SameByte(ByteOf(b as int), b);
  }

  lemma SameByte(a: byte, b: byte)
    requires a as int == b as int
    ensures a == b
  {
  }

  // EncodeFixed32 (k == 4) and EncodeFixed64 (k == 8).
  function EncodeFixed(n: nat, k: nat): (r: Bytes)
    ensures |r| == k
  {
    if k == 0 then [] else [ByteOf(n % 256)] + EncodeFixed(n / 256, k - 1)
  }

  // DecodeFixed32, DecodeFixed64.
  function DecodeFixed(s: Bytes): nat {
    if s == [] then 0 else s[0] as int + 256 * DecodeFixed(s[1..])
  }

  function Pow256(k: nat): (r: nat)
    ensures r >= 1
  {
    if k == 0 then 1 else 256 * Pow256(k - 1)
  }

  lemma {:induction false} FixedRoundTrip(n: nat, k: nat)
    requires n < Pow256(k)
    ensures DecodeFixed(EncodeFixed(n, k)) == n
  {
    if k > 0 {
      FixedRoundTrip(n / 256, k - 1);
      assert EncodeFixed(n, k)[1..] == EncodeFixed(n / 256, k - 1);
    }
  }

  lemma FixedWidths()
    ensures Pow256(4) == TWO_TO_32 && Pow256(8) == TWO_TO_64
  {
    assert Pow256(1) == 256 * Pow256(0) && Pow256(2) == 256 * Pow256(1) && Pow256(3) == 256 * Pow256(2) && Pow256(4) == 256 * Pow256(3);
    assert Pow256(5) == 256 * Pow256(4) && Pow256(6) == 256 * Pow256(5) && Pow256(7) == 256 * Pow256(6) && Pow256(8) == 256 * Pow256(7);
  }

  lemma Fixed32RoundTrip(n: nat)
    requires n < TWO_TO_32
    ensures DecodeFixed(EncodeFixed(n, 4)) == n
  {
    FixedWidths();
    hide EncodeFixed, DecodeFixed, Pow256;
    FixedRoundTrip(n, 4);
  }

  lemma Fixed64RoundTrip(n: nat)
    requires n < TWO_TO_64
    ensures DecodeFixed(EncodeFixed(n, 8)) == n
  {
    FixedWidths();
    hide EncodeFixed, DecodeFixed, Pow256;
    FixedRoundTrip(n, 8);
  }

  lemma {:induction false} FixedDecodes(s: Bytes)
    ensures DecodeFixed(s) < Pow256(|s|) && EncodeFixed(DecodeFixed(s), |s|) == s
  {
    if s != [] {
      var high, k := DecodeFixed(s[1..]), |s| - 1;
      assert DecodeFixed(s) == s[0] as int + 256 * high && Pow256(k + 1) == 256 * Pow256(k);
      hide DecodeFixed, EncodeFixed, Pow256;
      FixedDecodes(s[1..]);
      FirstByteDecodes(s[0], high, k);
      assert s == [s[0]] + s[1..];
    }
  }

  lemma FirstByteDecodes(b: byte, high: nat, k: nat)
    ensures EncodeFixed(b as int + 256 * high, k + 1) == [b] + EncodeFixed(high, k)
    ensures forall p: nat :: high < p ==> b as int + 256 * high < 256 * p
  {
    ByteOfValue(b);
    DivideBack(b as int, high);
  }

  lemma DivideBack(low: nat, high: nat)
    requires low < 256
    ensures (low + 256 * high) % 256 == low && (low + 256 * high) / 256 == high
  {
  }

  lemma ProductGrows(a: nat, r: nat, b: nat)
    requires r <= b
    ensures a * r <= a * b
  {
  }

  lemma Quotient(n: nat, m: nat, q: nat, low: nat)
    requires n == m * q + low && low < m
    ensures n / m == q
  {
    var d := n / m;
    assert n == m * d + n % m;
    ProductStep(m, d);
    ProductStep(m, q);
    if d < q { ProductGrows(m, d + 1, q); }
    if d > q { ProductGrows(m, q + 1, d); }
  }

  lemma ProductStep(m: nat, d: nat)
    ensures m * (d + 1) == m * d + m
  {
  }

  // EncodeVarint32, EncodeVarint64.
  function EncodeVarint(v: nat): (r: Bytes)
    ensures |r| >= 1
  {
    if v < 128 then [ByteOf(v)] else [ByteOf(v % 128 + 128)] + EncodeVarint(v / 128)
  }

  // A decoded value and the rest of the input.
  datatype Decoded<+T> = Decoded(value: T, rest: Bytes)

  // The value of a varint of at most `groups` bytes at the start of s, and what follows it.
  function DecodeGroups(s: Bytes, groups: nat): Option<Decoded<nat>> {
    if groups == 0 || s == [] then None
    else if s[0] as int < 128 then Some(Decoded(s[0] as int, s[1..]))
    else
      match DecodeGroups(s[1..], groups - 1)
      case None => None
      case Some(d) => Some(Decoded(s[0] as int - 128 + 128 * d.value, d.rest))
  }

  const TWO_TO_32: nat := 0x1_0000_0000
  const TWO_TO_64: nat := 0x1_0000_0000_0000_0000

  // Bits shifted out at the top are lost.
  function Truncated(d: Option<Decoded<nat>>, modulus: nat): Option<Decoded<nat>>
    requires modulus > 0
  {
    match d
    case None => None
    case Some(x) => Some(Decoded(x.value % modulus, x.rest))
  }

  function GetVarint32Of(s: Bytes): Option<Decoded<nat>> { Truncated(DecodeGroups(s, 5), TWO_TO_32) }
  function GetVarint64Of(s: Bytes): Option<Decoded<nat>> { Truncated(DecodeGroups(s, 10), TWO_TO_64) }

  function Pow128(k: nat): (r: nat)
    ensures r >= 1
  {
    if k == 0 then 1 else 128 * Pow128(k - 1)
  }

  lemma {:induction false} GroupsRoundTrip(v: nat, groups: nat, rest: Bytes)
    requires groups > 0 && v < Pow128(groups)
    ensures DecodeGroups(EncodeVarint(v) + rest, groups) == Some(Decoded(v, rest))
  {
    var s := EncodeVarint(v) + rest;
    if v < 128 {
      assert s[1..] == rest;
    } else {
      assert Pow128(1) == 128 * Pow128(0) == 128;
      GroupsRoundTrip(v / 128, groups - 1, rest);
      assert s[1..] == EncodeVarint(v / 128) + rest;
    }
  }

  lemma Powers()
    ensures Pow128(5) >= TWO_TO_32 && Pow128(10) >= TWO_TO_64
  {
    assert Pow128(1) == 128 * Pow128(0) && Pow128(2) == 128 * Pow128(1) && Pow128(3) == 128 * Pow128(2);
    assert Pow128(4) == 128 * Pow128(3) && Pow128(5) == 128 * Pow128(4) && Pow128(6) == 128 * Pow128(5);
    assert Pow128(7) == 128 * Pow128(6) && Pow128(8) == 128 * Pow128(7) && Pow128(9) == 128 * Pow128(8);
    assert Pow128(10) == 128 * Pow128(9);
  }

  lemma Varint32RoundTrip(v: nat, rest: Bytes)
    requires v < TWO_TO_32
    ensures GetVarint32Of(EncodeVarint(v) + rest) == Some(Decoded(v, rest))
  {
    Powers();
    hide Pow128, DecodeGroups, EncodeVarint;
    GroupsRoundTrip(v, 5, rest);
  }

  lemma Varint64RoundTrip(v: nat, rest: Bytes)
    requires v < TWO_TO_64
    ensures GetVarint64Of(EncodeVarint(v) + rest) == Some(Decoded(v, rest))
  {
    Powers();
    hide Pow128, DecodeGroups, EncodeVarint;
    GroupsRoundTrip(v, 10, rest);
  }

  // GetVarint32Ptr / GetVarint64Ptr: one group of seven bits per byte.
  method GetVarint(s: Bytes, groups: nat, modulus: nat) returns (r: Option<Decoded<nat>>)
    requires modulus > 0
    ensures r == Truncated(DecodeGroups(s, groups), modulus)
  {
    hide DecodeGroups, Scaled, Truncated;
    var result: nat, scale: nat, i: nat := 0, 1, 0;
    assert s[0..] == s;
    Unscaled(DecodeGroups(s, groups));
    TruncatedIs(modulus);
    while i < groups && i < |s|
      invariant i <= groups && i <= |s|
      invariant DecodeGroups(s, groups) == Scaled(DecodeGroups(s[i..], groups - i), result, scale)
    {
      assert s[i..][1..] == s[i + 1..] && s[i..][0] == s[i];
      if s[i] as int < 128 {
        LastGroup(s[i..], groups - i, result, scale);
        return Some(Decoded((result + s[i] as int * scale) % modulus, s[i + 1..]));
      }
      var group: nat := s[i] as int - 128;
      MoreGroups(s[i..], groups - i);
      ScaledTwice(DecodeGroups(s[i + 1..], groups - i - 1), group, result, scale);
      result, scale, i := result + group * scale, scale * 128, i + 1;
    }
    NoGroups(s[i..], groups - i, result, scale);
    r := None;
  }

  method GetVarint32(s: Bytes) returns (r: Option<Decoded<nat>>)
    ensures r == GetVarint32Of(s)
  {
    hide DecodeGroups;
    r := GetVarint(s, 5, TWO_TO_32);
  }

  lemma TruncatedIs(modulus: nat)
    requires modulus > 0
    ensures Truncated(None, modulus) == None
    ensures forall v: nat, rest: Bytes :: Truncated(Some(Decoded(v, rest)), modulus) == Some(Decoded(v % modulus, rest))
  {
  }

  lemma Unscaled(d: Option<Decoded<nat>>)
    ensures Scaled(d, 0, 1) == d
  {
  }

  lemma LastGroup(s: Bytes, groups: nat, low: nat, scale: nat)
    requires groups > 0 && s != [] && s[0] as int < 128
    ensures Scaled(DecodeGroups(s, groups), low, scale) == Some(Decoded(low + s[0] as int * scale, s[1..]))
  {
  }

  lemma MoreGroups(s: Bytes, groups: nat)
    requires groups > 0 && s != [] && s[0] as int >= 128
    ensures DecodeGroups(s, groups) == Scaled(DecodeGroups(s[1..], groups - 1), s[0] as int - 128, 128)
  {
  }

  lemma NoGroups(s: Bytes, groups: nat, low: nat, scale: nat)
    requires groups == 0 || s == []
    ensures Scaled(DecodeGroups(s, groups), low, scale) == None
  {
  }

  ghost function Scaled(d: Option<Decoded<nat>>, low: nat, scale: nat): Option<Decoded<nat>> {
    match d
    case None => None
    case Some(x) => Some(Decoded(low + x.value * scale, x.rest))
  }

  lemma ScaledTwice(d: Option<Decoded<nat>>, group: nat, low: nat, scale: nat)
    ensures Scaled(Scaled(d, group, 128), low, scale) == Scaled(d, low + group * scale, scale * 128)
  {
    if d.Some? {
      var v := d.value.value;
      assert (group + v * 128) * scale == group * scale + v * (scale * 128);
    }
  }

  lemma {:induction false} GroupsShrink(s: Bytes, groups: nat)
    ensures DecodeGroups(s, groups).Some? ==> |DecodeGroups(s, groups).value.rest| < |s|
    decreases groups
  {
    if groups > 0 && s != [] { GroupsShrink(s[1..], groups - 1); }
  }

  lemma VarintShrinks(s: Bytes)
    ensures GetVarint32Of(s).Some? ==> |GetVarint32Of(s).value.rest| < |s|
    ensures GetVarint64Of(s).Some? ==> |GetVarint64Of(s).value.rest| < |s|
  {
    GroupsShrink(s, 5);
    GroupsShrink(s, 10);
  }

  // PutLengthPrefixedSlice
  function EncodeSlice(s: Bytes): Bytes { EncodeVarint(|s|) + s }

  // GetLengthPrefixedSlice
  function DecodeSlice(s: Bytes): Option<Decoded<Bytes>> {
    match GetVarint32Of(s)
    case None => None
    case Some(d) =>
      if d.value <= |d.rest| then Some(Decoded(d.rest[..d.value], d.rest[d.value..])) else None
  }

  lemma SliceShrinks(s: Bytes)
    ensures DecodeSlice(s).Some? ==> |DecodeSlice(s).value.rest| < |s|
  {
    VarintShrinks(s);
  }

  lemma SliceRoundTrip(s: Bytes, rest: Bytes)
    requires |s| < TWO_TO_32
    ensures DecodeSlice(EncodeSlice(s) + rest) == Some(Decoded(s, rest))
  {
    assert EncodeSlice(s) + rest == EncodeVarint(|s|) + (s + rest);
    Varint32RoundTrip(|s|, s + rest);
  }

  lemma SliceOfSlice(s: Bytes, p: nat, q: nat, a: nat, b: nat)
    requires p <= q <= |s| && a <= b <= q - p
    ensures s[p..q][a..b] == s[p + a..p + b]
  {
    forall k | 0 <= k < b - a ensures s[p..q][a..b][k] == s[p + a..p + b][k] {
      assert s[p..q][a + k] == s[p + a + k];
    }
  }

  // The length of the longest common prefix.
  function CommonLength(a: Bytes, b: Bytes): (n: nat)
    ensures n <= |a| && n <= |b|
  {
    if a == [] || b == [] || a[0] != b[0] then 0 else 1 + CommonLength(a[1..], b[1..])
  }

  lemma {:induction false} CommonLengthIs(a: Bytes, b: Bytes, n: nat)
    requires n <= |a| && n <= |b| && a[..n] == b[..n] && (n < |a| && n < |b| ==> a[n] != b[n])
    ensures CommonLength(a, b) == n
    decreases n
  {
    if n > 0 {
      assert a[..n][0] == a[0] && b[..n][0] == b[0];
      assert a[1..][..n - 1] == a[..n][1..] && b[1..][..n - 1] == b[..n][1..];
      CommonLengthIs(a[1..], b[1..], n - 1);
    }
  }

  method CommonPrefix(a: Bytes, b: Bytes) returns (n: nat)
    ensures n == CommonLength(a, b) && n <= |a| && n <= |b| && a[..n] == b[..n]
    ensures n < |a| && n < |b| ==> a[n] != b[n]
  {
    n := 0;
    while n < |a| && n < |b| && a[n] == b[n]
      invariant n <= |a| && n <= |b| && a[..n] == b[..n]
    {
      n := n + 1;
    }
    CommonLengthIs(a, b, n);
  }
}
