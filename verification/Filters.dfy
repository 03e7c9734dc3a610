/** Bloom filters and filter blocks (util/bloom.cc, table/filter_block.cc): a key is never denied at the
    block it was added under. */
module Filters {
  import opened Keys
  import opened Coding

  // ----- bits -----

  function Mask(i: nat): (m: byte)
    requires i < 8
    ensures m != 0
  {
    if i == 0 then 1 else if i == 1 then 2 else if i == 2 then 4 else if i == 3 then 8
    else if i == 4 then 16 else if i == 5 then 32 else if i == 6 then 64 else 128
  }

  lemma MasksDiffer(i: nat, j: nat)
    requires i < 8 && j < 8
    ensures Mask(i) & Mask(j) != 0 <==> i == j
  {
  }

  lemma OrAnd(x: byte, a: byte, b: byte)
    ensures (x | a) & b != 0 <==> x & b != 0 || a & b != 0
  {
  }

  predicate BitSet(a: Bytes, p: nat)
    requires p < 8 * |a|
  {
    a[p / 8] & Mask(p % 8) != 0
  }

  function SetBit(a: Bytes, p: nat): (r: Bytes)
    requires p < 8 * |a|
    ensures |r| == |a|
  {
    a[p / 8 := a[p / 8] | Mask(p % 8)]
  }

  lemma SetBitSets(a: Bytes, p: nat, q: nat)
    requires p < 8 * |a| && q < 8 * |a|
    ensures BitSet(SetBit(a, p), q) <==> q == p || BitSet(a, q)
  {
    MasksDiffer(p % 8, q % 8);
    OrAnd(a[p / 8], Mask(p % 8), Mask(q % 8));
  }

  lemma NoBitSet(a: Bytes, p: nat)
    requires p < 8 * |a| && forall i :: 0 <= i < |a| ==> a[i] == 0
    ensures !BitSet(a, p)
  {
    ZeroAnd(Mask(p % 8));
  }

  lemma ZeroAnd(m: byte)
    ensures 0 & m == 0
  {
  }

  // ----- Bloom filters -----

  // Rotate right by 17 bits.
  function Delta(h: nat): nat
    requires h < TWO_TO_32
  {
    h / 0x2_0000 + (h % 0x2_0000) * 0x8000
  }

  // The j-th value of h.
  function Probe(h: nat, j: nat): (r: nat)
    requires h < TWO_TO_32
    ensures r < TWO_TO_32
  {
    if j == 0 then h else (Probe(h, j - 1) + Delta(h)) % TWO_TO_32
  }

  // The upper 15 bits become the lower ones, and the lower 17 the upper ones.
  lemma DeltaRotates(h: nat)
    requires h < TWO_TO_32
    ensures Delta(h) < TWO_TO_32 && Delta(h) % 0x8000 == h / 0x2_0000 && Delta(h) / 0x8000 == h % 0x2_0000
  {
  }

  // Double hashing in 32 bits.
  lemma {:induction false} ProbeAt(h: nat, j: nat)
    requires h < TWO_TO_32
    ensures Probe(h, j) == (h + j * Delta(h)) % TWO_TO_32
  {
    hide Delta;
    if j > 0 {
      ProbeAt(h, j - 1);
      AddsModulo(h + (j - 1) * Delta(h), Delta(h));
      assert h + (j - 1) * Delta(h) + Delta(h) == h + j * Delta(h);
    }
  }

  lemma AddsModulo(a: nat, b: nat)
    ensures (a % TWO_TO_32 + b) % TWO_TO_32 == (a + b) % TWO_TO_32
  {
  }

  // Any hash does: BloomHash is one.
  datatype BloomPolicy = BloomPolicy(bitsPerKey: nat, k: nat, hash: Bytes -> nat) {
    ghost predicate Valid() {
      1 <= k <= 30 && forall key :: hash(key) < TWO_TO_32
    }

    function BitOf(key: Bytes, j: nat, bits: nat): (p: nat)
      requires Valid() && bits > 0
      ensures p < bits
    {
      Probe(hash(key), j) % bits
    }

    ghost predicate Hit(key: Bytes, n: nat, bits: nat, p: nat)
      requires Valid() && bits > 0
    {
      exists j :: 0 <= j < n && BitOf(key, j, bits) == p
    }

    ghost predicate AnyHit(keys: seq<Bytes>, bits: nat, p: nat)
      requires Valid() && bits > 0
    {
      exists i :: 0 <= i < |keys| && Hit(keys[i], k, bits, p)
    }

    // What KeyMayMatch answers.
    predicate Matches(key: Bytes, filter: Bytes)
      requires Valid()
    {
      var len := |filter|;
      len >= 2 && (filter[len - 1] as nat > 30 || AllSet(filter[..len - 1], 8 * (len - 1), key, filter[len - 1] as nat))
    }

    predicate AllSet(table: Bytes, bits: nat, key: Bytes, n: nat)
      requires Valid() && 0 < bits == 8 * |table|
    {
      forall j :: 0 <= j < n ==> BitSet(table, BitOf(key, j, bits))
    }

    ghost predicate BitsOf(table: Bytes, bits: nat, keys: seq<Bytes>)
      requires Valid() && 0 < bits == 8 * |table|
    {
      forall p :: 0 <= p < bits ==> (BitSet(table, p) <==> AnyHit(keys, bits, p))
    }

    ghost predicate AllHit(keys: seq<Bytes>, bits: nat, key: Bytes)
      requires Valid() && bits > 0
    {
      forall j :: 0 <= j < k ==> AnyHit(keys, bits, BitOf(key, j, bits))
    }

    // The bits of these keys' probes, no others, then the number of probes.
    ghost predicate FilterOf(filter: Bytes, keys: seq<Bytes>)
      requires Valid()
    {
      && |filter| >= 9 && filter[|filter| - 1] == ByteOf(k)
      && BitsOf(filter[..|filter| - 1], 8 * (|filter| - 1), keys)
    }

    // Matching is exactly this: every probe of the key falls on a probe of some key of the filter.
    lemma MatchesExactly(filter: Bytes, keys: seq<Bytes>, key: Bytes)
      requires Valid() && FilterOf(filter, keys)
      ensures Matches(key, filter) <==> AllHit(keys, 8 * (|filter| - 1), key)
    {
    }

    lemma NoFalseNegative(filter: Bytes, keys: seq<Bytes>, key: Bytes)
      requires Valid() && FilterOf(filter, keys) && key in keys
      ensures Matches(key, filter)
    {
      var bits := 8 * (|filter| - 1);
      var i :| 0 <= i < |keys| && keys[i] == key;
      forall j | 0 <= j < k ensures AnyHit(keys, bits, BitOf(key, j, bits)) {
        assert Hit(keys[i], k, bits, BitOf(key, j, bits));
      }
      MatchesExactly(filter, keys, key);
    }

    // At least 64 bits, whole bytes, and one for the number of probes.
    function FilterSize(n: nat): nat {
      ((if n * bitsPerKey < 64 then 64 else n * bitsPerKey) + 7) / 8 + 1
    }

    method CreateFilter(keys: seq<Bytes>, dst: Bytes) returns (r: Bytes)
      requires Valid()
      ensures |r| >= |dst| && r[..|dst|] == dst && FilterOf(r[|dst|..], keys)
      ensures |r| == |dst| + FilterSize(|keys|)
    {
      var bits := |keys| * bitsPerKey;
      if bits < 64 { bits := 64; }
      var bytes := (bits + 7) / 8;
      var table := FillBits(keys, bytes);
      r := dst + (table + [ByteOf(k)]);
      assert r[|dst|..] == table + [ByteOf(k)] && (table + [ByteOf(k)])[..bytes] == table;
    }

    method FillBits(keys: seq<Bytes>, bytes: nat) returns (table: Bytes)
      requires Valid() && bytes > 0
      ensures |table| == bytes && BitsOf(table, 8 * bytes, keys)
    {
      var bits := 8 * bytes;
      table := seq(bytes, i => 0);
      forall p | 0 <= p < bits ensures !BitSet(table, p) { NoBitSet(table, p); }
      for i := 0 to |keys|
        invariant |table| == bytes && forall p :: 0 <= p < bits ==> (BitSet(table, p) <==> AnyHit(keys[..i], bits, p))
      {
        ghost var before := table;
        table := AddKey(keys[i], table);
        forall p | 0 <= p < bits ensures BitSet(table, p) <==> AnyHit(keys[..i + 1], bits, p) {
          assert keys[..i + 1] == keys[..i] + [keys[i]];
          OneMoreKey(keys[..i], keys[i], bits, p);
        }
      }
      assert keys[..|keys|] == keys;
    }

    lemma OneMoreKey(keys: seq<Bytes>, key: Bytes, bits: nat, p: nat)
      requires Valid() && bits > 0
      ensures AnyHit(keys + [key], bits, p) <==> AnyHit(keys, bits, p) || Hit(key, k, bits, p)
    {
      if AnyHit(keys, bits, p) {
        var i :| 0 <= i < |keys| && Hit(keys[i], k, bits, p);
        assert (keys + [key])[i] == keys[i];
      }
      if Hit(key, k, bits, p) { assert (keys + [key])[|keys|] == key; }
    }

    // The probes of one key.
    method AddKey(key: Bytes, before: Bytes) returns (table: Bytes)
      requires Valid() && |before| > 0
      ensures |table| == |before|
      ensures forall p :: 0 <= p < 8 * |before| ==> (BitSet(table, p) <==> BitSet(before, p) || Hit(key, k, 8 * |before|, p))
    {
      hide BitSet, SetBit, Probe;
      table := before;
      var bits := 8 * |before|;
      var h := hash(key);
      var delta := Delta(h);
      FirstProbe(h);
      for j := 0 to k
        invariant |table| == |before| && h == Probe(hash(key), j)
        invariant forall p :: 0 <= p < bits ==> (BitSet(table, p) <==> BitSet(before, p) || Hit(key, j, bits, p))
      {
        var bitpos := h % bits;
        assert BitOf(key, j, bits) == bitpos;
        ghost var was := table;
        SetLength(table, bitpos);
        table := SetBit(table, bitpos);
        forall p | 0 <= p < bits ensures BitSet(table, p) <==> BitSet(before, p) || Hit(key, j + 1, bits, p) {
          SetBitSets(was, bitpos, p);
          OneMoreProbe(key, j, bits, p);
        }
        NextProbe(hash(key), j);
        h := (h + delta) % TWO_TO_32;
      }
    }

    lemma SetLength(a: Bytes, p: nat)
      requires p < 8 * |a|
      ensures |SetBit(a, p)| == |a|
    {
    }

    lemma OneMoreProbe(key: Bytes, j: nat, bits: nat, p: nat)
      requires Valid() && bits > 0
      ensures Hit(key, j + 1, bits, p) <==> Hit(key, j, bits, p) || BitOf(key, j, bits) == p
    {
    }

    method KeyMayMatch(key: Bytes, filter: Bytes) returns (r: bool)
      requires Valid()
      ensures r == Matches(key, filter)
    {
      hide BitSet, Probe;
      var len := |filter|;
      if len < 2 { return false; }
      var bits, n := 8 * (len - 1), filter[len - 1] as nat;
      if n > 30 { return true; }
      var h := hash(key);
      var delta := Delta(h);
      FirstProbe(h);
      for j := 0 to n
        invariant h == Probe(hash(key), j)
        invariant forall i :: 0 <= i < j ==> BitSet(filter[..len - 1], BitOf(key, i, bits))
      {
        var bitpos := h % bits;
        assert BitOf(key, j, bits) == bitpos;
        if !BitSet(filter[..len - 1], bitpos) { return false; }
        NextProbe(hash(key), j);
        h := (h + delta) % TWO_TO_32;
      }
      r := true;
    }
  }

  lemma FirstProbe(h: nat)
    requires h < TWO_TO_32
    ensures Probe(h, 0) == h
  {
  }

  lemma NextProbe(h: nat, j: nat)
    requires h < TWO_TO_32
    ensures Probe(h, j + 1) == (Probe(h, j) + Delta(h)) % TWO_TO_32
  {
  }
}
