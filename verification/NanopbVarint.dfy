/** pb_decode_varint32 (ios/Pods/nanopb/pb_decode.c) in closed form: which varints it takes, and for which number. */
module NanopbVarint {
  import opened Keys
  import opened Coding
  import opened NanopbFormat
  import opened NanopbRoundTrip

  // The seven bits of each of the first n bytes, the first the lowest.
  function GroupSum(s: Bytes, n: nat): nat
    requires n <= |s|
  {
    if n == 0 then 0 else GroupSum(s, n - 1) + s[n - 1] as int % 128 * Pow128(n - 1)
  }

  // The varint at the beginning of s takes n bytes.
  ghost predicate EndsAfter(s: Bytes, n: nat) {
    0 < n <= |s| && s[n - 1] as int < 128 && forall i :: 0 <= i < n - 1 ==> s[i] as int >= 128
  }

  // The 32 bits that are kept.
  function Low(s: Bytes, n: nat): (r: nat)
    requires n <= |s|
    ensures r < TWO_TO_32
  {
    GroupSum(s, if n < 5 then n else 5) % TWO_TO_32
  }

  // Bits past the 32 are zero, or as in a negative number of ten bytes; those of the fifth byte are looked at if it is the last.
  ghost predicate Taken(s: Bytes, n: nat)
    requires n <= |s|
  {
    && (n == 5 ==> s[4] as int < 16)
    && forall i :: 5 <= i < n ==> s[i] as int % 128 == 0 || (Low(s, 5) >= 0x8000_0000 && s[i] as int == if i < 9 then 255 else 1)
  }

  lemma {:induction false} SumBelow(s: Bytes, n: nat)
    requires n <= |s|
    ensures GroupSum(s, n) < Pow128(n)
  {
    if n > 0 {
      SumBelow(s, n - 1);
      Step(GroupSum(s, n - 1), s[n - 1] as int % 128, Pow128(n - 1));
    }
  }

  lemma Step(sum: nat, low: nat, p: nat)
    requires sum < p && low < 128
    ensures sum + low * p < 128 * p
  {
  }

  // What is kept after one more byte.
  lemma Kept(s: Bytes, k: nat)
    requires 1 <= k < |s|
    ensures Low(s, k + 1) == Grown(s[k] as int, Low(s, k), k)
  {
    hide Pow128, GroupSum;
    if k < 5 {
      SumBelow(s, k);
      Powers128();
      Added(s, k);
      Fits32(GroupSum(s, k), s[k] as int % 128, Pow128(k), k);
    }
  }

  lemma Added(s: Bytes, k: nat)
    requires k < |s|
    ensures GroupSum(s, k + 1) == GroupSum(s, k) + s[k] as int % 128 * Pow128(k)
  {
  }

  lemma Fits32(sum: nat, low: nat, p: nat, k: nat)
    requires 1 <= k <= 4 && sum < p && low < 128
    requires p == if k == 1 then 0x80 else if k == 2 then 0x4000 else if k == 3 then 0x20_0000 else 0x1000_0000
    ensures sum % TWO_TO_32 == sum && (sum + low * p) % TWO_TO_32 == sum + low * p % TWO_TO_32
  {
  }

  // From byte k on.
  lemma {:induction false} MoreIs(s: Bytes, n: nat, k: nat)
    requires EndsAfter(s, n) && 1 <= k < n
    ensures Varint32More(s[k..], Low(s, k), k)
         == if Passes(s, n, k) then Some(Decoded(Low(s, n), s[n..])) else None
    decreases n - k
  {
    hide Low, Grown;
    var b := s[k] as int;
    assert s[k..][0] == s[k] && s[k..][1..] == s[k + 1..];
    Kept(s, k);
    SameLow(s, k);
    if k + 1 < n { MoreIs(s, n, k + 1); }
  }

  // The bytes from k on are taken.
  ghost predicate Passes(s: Bytes, n: nat, k: nat)
    requires n <= |s|
  {
    && (n == 5 && k <= 4 ==> s[4] as int < 16)
    && forall i :: 5 <= i < n && k <= i ==> s[i] as int % 128 == 0 || (Low(s, 5) >= 0x8000_0000 && s[i] as int == if i < 9 then 255 else 1)
  }

  lemma SameLow(s: Bytes, k: nat)
    requires k <= |s|
    ensures k >= 5 ==> Low(s, k) == Low(s, 5)
  {
  }

  // The decoder in closed form.
  lemma Varint32Is(s: Bytes, n: nat)
    requires EndsAfter(s, n)
    ensures Varint32(s) == if Taken(s, n) then Some(Decoded(Low(s, n), s[n..])) else None
  {
    hide Low, Varint32, Varint32More, Taken, Passes, EndsAfter;
    FirstTells(s, n);
    Begins(s);
    FirstLow(s);
    if n > 1 {
      MoreIs(s, n, 1);
      AllPass(s, n);
    }
  }

  lemma Begins(s: Bytes)
    requires s != []
    ensures Varint32(s) == if s[0] as int < 128 then Some(Decoded(s[0] as int, s[1..])) else Varint32More(s[1..], s[0] as int % 128, 1)
  {
    hide Varint32More;
  }

  lemma FirstTells(s: Bytes, n: nat)
    requires EndsAfter(s, n)
    ensures 0 < n <= |s| && (n == 1 <==> s[0] as int < 128) && Taken(s, 1)
  {
  }

  lemma AllPass(s: Bytes, n: nat)
    requires n <= |s|
    ensures Passes(s, n, 1) <==> Taken(s, n)
  {
    hide Low;
  }

  lemma FirstLow(s: Bytes)
    requires s != []
    ensures Low(s, 1) == s[0] as int % 128 && (s[0] as int < 128 ==> Low(s, 1) == s[0] as int)
  {
    assert Pow128(0) == 1 && GroupSum(s, 0) == 0;
  }

  // A varint without an end is refused.
  lemma {:induction false} NeverEnds(s: Bytes)
    requires forall i :: 0 <= i < |s| ==> s[i] as int >= 128
    ensures Varint32(s) == None
  {
    if s != [] { MoreNeverEnds(s[1..], s[0] as int - 128, 1); }
  }

  lemma {:induction false} MoreNeverEnds(s: Bytes, result: nat, k: nat)
    requires forall i :: 0 <= i < |s| ==> s[i] as int >= 128
    ensures Varint32More(s, result, k) == None
    decreases |s|
  {
    if s != [] { MoreNeverEnds(s[1..], Grown(s[0] as int, result, k), k + 1); }
  }

  // A number over 32 bits is taken for its lower 32 when a byte without bits follows.
  lemma OverflowUnseen()
    ensures Varint32([0x80, 0x80, 0x80, 0x80, 0xf0, 0]) == Some(Decoded(0, []))
    ensures GroupSum([0x80, 0x80, 0x80, 0x80, 0xf0, 0], 6) == 0x7_0000_0000
  {
    var s: Bytes := [0x80, 0x80, 0x80, 0x80, 0xf0, 0];
    Powers128();
    Sums(s);
    assert EndsAfter(s, 6) && Taken(s, 6) && s[6..] == [];
    Varint32Is(s, 6);
  }

  lemma Sums(s: Bytes)
    requires s == [0x80, 0x80, 0x80, 0x80, 0xf0, 0] && Pow128(4) == 0x1000_0000
    ensures GroupSum(s, 6) == GroupSum(s, 5) == 0x70 * 0x1000_0000 && Low(s, 6) == 0
  {
    hide Pow128;
    assert GroupSum(s, 1) == GroupSum(s, 0) == 0;
    assert GroupSum(s, 2) == GroupSum(s, 1);
    assert GroupSum(s, 3) == GroupSum(s, 2);
    assert GroupSum(s, 4) == GroupSum(s, 3);
  }
}
