/** Filter blocks (table/filter_block.cc): one filter for every 2 KiB of file offsets. */
module FilterBlock {
  import opened Keys
  import opened Coding
  import opened Filters

  const kFilterBaseLg: nat := 11
  const kFilterBase: nat := 2048

  // A key and the offset of the data block it was added under.
  datatype Added = Added(block: nat, key: Bytes)

  // The keys whose blocks start in the i-th 2 KiB.
  ghost function KeysAt(added: seq<Added>, i: nat): seq<Bytes> {
    if added == [] then []
    else
      var a := added[|added| - 1];
      KeysAt(added[..|added| - 1], i) + if a.block / kFilterBase == i then [a.key] else []
  }

  lemma KeysAtGrows(added: seq<Added>, a: Added, i: nat)
    ensures KeysAt(added + [a], i) == if a.block / kFilterBase == i then KeysAt(added, i) + [a.key] else KeysAt(added, i)
  {
    assert (added + [a])[..|added|] == added;
  }

  lemma {:induction false} KeysAtHas(added: seq<Added>, a: Added)
    requires a in added
    ensures a.key in KeysAt(added, a.block / kFilterBase)
  {
    if added[|added| - 1] != a { KeysAtHas(added[..|added| - 1], a); }
  }

  lemma {:induction false} NoKeysYet(added: seq<Added>, i: nat)
    requires forall a :: a in added ==> a.block / kFilterBase < i
    ensures KeysAt(added, i) == []
  {
    if added != [] { NoKeysYet(added[..|added| - 1], i); }
  }

  // ----- keys flattened into one string -----

  ghost function Flatten(keys: seq<Bytes>): Bytes {
    if keys == [] then [] else Flatten(keys[..|keys| - 1]) + keys[|keys| - 1]
  }

  ghost predicate Flattened(flat: Bytes, start: seq<nat>, keys: seq<Bytes>) {
    && flat == Flatten(keys) && |start| == |keys|
    && forall i :: 0 <= i < |keys| ==> start[i] == |Flatten(keys[..i])|
  }

  lemma FlattenOneMore(flat: Bytes, start: seq<nat>, keys: seq<Bytes>, key: Bytes)
    requires Flattened(flat, start, keys)
    ensures Flattened(flat + key, start + [|flat|], keys + [key])
  {
    assert (keys + [key])[..|keys|] == keys;
    forall i | 0 <= i < |keys + [key]| ensures (start + [|flat|])[i] == |Flatten((keys + [key])[..i])| {
      assert i <= |keys|;
      assert (keys + [key])[..i] == keys[..i];
      assert keys[..|keys|] == keys;
    }
  }

  lemma {:induction false} FlattenPrefix(keys: seq<Bytes>, k: nat)
    requires k <= |keys|
    ensures Flatten(keys[..k]) <= Flatten(keys)
  {
    if k < |keys| {
      assert keys[..|keys| - 1][..k] == keys[..k];
      FlattenPrefix(keys[..|keys| - 1], k);
    } else {
      assert keys[..k] == keys;
    }
  }

  lemma KeyAt(flat: Bytes, start: seq<nat>, keys: seq<Bytes>, i: nat)
    requires Flattened(flat, start, keys) && i < |keys|
    ensures var limit := if i + 1 < |keys| then start[i + 1] else |flat|;
            start[i] <= limit <= |flat| && flat[start[i]..limit] == keys[i]
  {
    var limit := if i + 1 < |keys| then start[i + 1] else |flat|;
    assert keys[..i + 1][..i] == keys[..i] && keys[..|keys|] == keys;
    FlattenPrefix(keys, i + 1);
    assert limit == |Flatten(keys[..i + 1])| && flat[..limit] == Flatten(keys[..i]) + keys[i];
    assert flat[start[i]..limit] == flat[..limit][start[i]..];
  }

  // ----- filters one after another -----

  // The bytes of the first n filters.
  ghost function FilterBytes(policy: BloomPolicy, added: seq<Added>, n: nat): nat {
    if n == 0 then 0
    else FilterBytes(policy, added, n - 1) + (var keys := KeysAt(added, n - 1); if keys == [] then 0 else policy.FilterSize(|keys|))
  }

  lemma {:induction false} FilterBytesStay(policy: BloomPolicy, added: seq<Added>, a: Added, n: nat)
    requires a.block / kFilterBase >= n
    ensures FilterBytes(policy, added + [a], n) == FilterBytes(policy, added, n)
  {
    hide KeysAt;
    if n > 0 {
      KeysAtGrows(added, a, n - 1);
      FilterBytesStay(policy, added, a, n - 1);
    }
  }

  // Filters up to the last block's, their offsets, the array's offset and one byte.
  ghost function BlockBytes(policy: BloomPolicy, added: seq<Added>, block: nat): nat {
    var last := block / kFilterBase;
    var n := if KeysAt(added, last) == [] then last else last + 1;
    FilterBytes(policy, added, n) + 4 * n + 5
  }

  function EndOf(result: Bytes, offsets: seq<nat>, i: nat): nat
    requires i < |offsets|
  {
    if i + 1 < |offsets| then offsets[i + 1] else |result|
  }

  // Where the i-th filter lies, and whose it is.
  ghost predicate Slot(policy: BloomPolicy, result: Bytes, offsets: seq<nat>, i: nat, keys: seq<Bytes>)
    requires policy.Valid() && i < |offsets|
  {
    && offsets[i] <= EndOf(result, offsets, i) <= |result|
    && if keys == [] then offsets[i] == EndOf(result, offsets, i)
       else policy.FilterOf(result[offsets[i]..EndOf(result, offsets, i)], keys)
  }

  ghost predicate Slots(policy: BloomPolicy, result: Bytes, offsets: seq<nat>, added: seq<Added>)
    requires policy.Valid()
  {
    forall i :: 0 <= i < |offsets| ==> Slot(policy, result, offsets, i, KeysAt(added, i))
  }

  // One more filter: what is appended belongs to it, the earlier ones stay as they were.
  lemma SlotsGrow(policy: BloomPolicy, result: Bytes, offsets: seq<nat>, added: seq<Added>, more: Bytes)
    requires policy.Valid() && Slots(policy, result, offsets, added)
    requires var keys := KeysAt(added, |offsets|); if keys == [] then more == [] else policy.FilterOf(more, keys)
    ensures Slots(policy, result + more, offsets + [|result|], added)
  {
    var result', offsets' := result + more, offsets + [|result|];
    hide KeysAt, BloomPolicy.FilterOf;
    forall i | 0 <= i < |offsets'| ensures Slot(policy, result', offsets', i, KeysAt(added, i)) {
      if i < |offsets| {
        assert Slot(policy, result, offsets, i, KeysAt(added, i));
        assert EndOf(result', offsets', i) == EndOf(result, offsets, i);
        assert result'[offsets[i]..EndOf(result, offsets, i)] == result[offsets[i]..EndOf(result, offsets, i)];
      } else {
        assert result'[|result|..] == more && result'[|result|..|result'|] == more;
      }
    }
  }

  // A key of the bucket being filled leaves the finished filters alone.
  lemma SlotsStay(policy: BloomPolicy, result: Bytes, offsets: seq<nat>, added: seq<Added>, a: Added)
    requires policy.Valid() && Slots(policy, result, offsets, added) && a.block / kFilterBase >= |offsets|
    ensures Slots(policy, result, offsets, added + [a])
  {
    hide KeysAt, BloomPolicy.FilterOf, Slot;
    forall i | 0 <= i < |offsets| ensures Slot(policy, result, offsets, i, KeysAt(added + [a], i)) {
      KeysAtGrows(added, a, i);
    }
  }

  // ----- the block -----

  function Words(ns: seq<nat>): (r: Bytes)
    ensures |r| == 4 * |ns|
  {
    if ns == [] then [] else Words(ns[..|ns| - 1]) + EncodeFixed(ns[|ns| - 1], 4)
  }

  lemma {:induction false} WordAt(ns: seq<nat>, i: nat)
    requires i < |ns|
    ensures Words(ns)[4 * i..4 * i + 4] == EncodeFixed(ns[i], 4)
  {
    hide EncodeFixed;
    if i < |ns| - 1 {
      WordAt(ns[..|ns| - 1], i);
      assert Words(ns)[4 * i..4 * i + 4] == Words(ns[..|ns| - 1])[4 * i..4 * i + 4];
    }
  }

  class FilterBlockBuilder {
    const policy: BloomPolicy
    var keys: Bytes                 // the keys of the filter being gathered, end to end
    var start: seq<nat>             // where each begins
    var result: Bytes
    var filterOffsets: seq<nat>
    ghost var block: nat            // the offset last given to StartBlock
    ghost var added: seq<Added>

    ghost predicate Gathering()
      reads this
    {
      && policy.Valid() && Slots(policy, result, filterOffsets, added)
      && Flattened(keys, start, KeysAt(added, |filterOffsets|))
      && |result| == FilterBytes(policy, added, |filterOffsets|)
      && forall a :: a in added ==> a.block / kFilterBase <= |filterOffsets|
    }

    ghost predicate Valid()
      reads this
    {
      Gathering() && block / kFilterBase == |filterOffsets|
    }

    constructor (policy: BloomPolicy)
      requires policy.Valid()
      ensures Valid() && added == [] && block == 0 && this.policy == policy
    {
      this.policy := policy;
      keys, start, result, filterOffsets := [], [], [], [];
      block, added := 0, [];
    }

    method StartBlock(offset: nat)
      requires Valid() && offset >= block
      modifies this
      ensures Valid() && block == offset && added == old(added)
    {
      hide Slots, Flattened, KeysAt, FilterBytes;
      block := offset;
      while offset / kFilterBase > |filterOffsets|
        invariant Gathering() && added == old(added) && block == offset && offset / kFilterBase >= |filterOffsets|
        decreases offset / kFilterBase - |filterOffsets|
      {
        GenerateFilter();
      }
    }

    method AddKey(key: Bytes)
      requires Valid()
      modifies this
      ensures Valid() && added == old(added) + [Added(block, key)] && block == old(block)
    {
      hide Slots, Flattened, KeysAt, FilterBytes;
      FilterBytesStay(policy, added, Added(block, key), |filterOffsets|);
      SlotsStay(policy, result, filterOffsets, added, Added(block, key));
      KeysAtGrows(added, Added(block, key), |filterOffsets|);
      FlattenOneMore(keys, start, KeysAt(added, |filterOffsets|), key);
      start := start + [|keys|];
      keys := keys + key;
      added := added + [Added(block, key)];
    }

    method GenerateFilter()
      requires Gathering()
      modifies this
      ensures Gathering() && start == [] && |filterOffsets| == old(|filterOffsets|) + 1 && added == old(added) && block == old(block)
    {
      hide Slots, KeysAt, BloomPolicy.FilterSize, BloomPolicy.FilterOf;
      ghost var bucket := KeysAt(added, |filterOffsets|);
      NoKeysYet(added, |filterOffsets| + 1);
      if |start| == 0 {
        SlotsGrow(policy, result, filterOffsets, added, []);
        assert result + [] == result;
        filterOffsets := filterOffsets + [|result|];
        return;
      }
      var tmpKeys := TmpKeys(bucket);
      filterOffsets := filterOffsets + [|result|];
      var grown := policy.CreateFilter(tmpKeys, result);
      assert grown == result + grown[|result|..];
      SlotsGrow(policy, result, old(filterOffsets), added, grown[|result|..]);
      result := grown;
      keys, start := [], [];
    }

    // The list of keys, cut from the flattened string.
    method TmpKeys(ghost bucket: seq<Bytes>) returns (r: seq<Bytes>)
      requires Flattened(keys, start, bucket)
      ensures r == bucket
    {
      r := [];
      for i := 0 to |start|
        invariant r == bucket[..i]
      {
        KeyAt(keys, start, bucket, i);
        var limit := if i + 1 < |start| then start[i + 1] else |keys|;
        r := r + [keys[start[i]..limit]];
      }
    }

    // Every key answers at the offset of its block; a range of offsets without keys denies all.
    method Finish() returns (contents: Bytes)
      requires Valid()
      modifies this
      ensures |contents| == BlockBytes(policy, old(added), old(block))
      ensures |contents| < TWO_TO_32 ==>
        var reader := Open(contents);
        && (forall a :: a in added ==> reader.KeyMayMatch(policy, a.block, a.key))
        && (forall b: nat, key :: b / kFilterBase < reader.num && KeysAt(added, b / kFilterBase) == [] ==> !reader.KeyMayMatch(policy, b, key))
      ensures added == old(added)
    {
      PendingKeys();
      hide Slots, KeysAt, Flattened, Words, EncodeFixed, Open, FilterBlockReader.KeyMayMatch, FilterBytes;
      if start != [] { GenerateFilter(); }
      Settled();
      contents := result + Words(filterOffsets) + EncodeFixed(|result|, 4) + [ByteOf(kFilterBaseLg)];
      if |contents| < TWO_TO_32 { Readable(contents, policy, result, filterOffsets, added); }
    }

    lemma PendingKeys()
      requires Gathering()
      ensures start == [] <==> KeysAt(added, |filterOffsets|) == []
    {
    }

    lemma Settled()
      requires Gathering() && start == []
      ensures forall a :: a in added ==> a.block / kFilterBase < |filterOffsets|
    {
      forall a | a in added ensures a.block / kFilterBase < |filterOffsets| {
        KeysAtHas(added, a);
      }
    }
  }

  // ----- reading it back -----

  // n >> k
  function ShiftRight(n: nat, k: nat): nat {
    if k == 0 then n else ShiftRight(n / 2, k - 1)
  }

  datatype FilterBlockReader = FilterBlockReader(contents: Bytes, offset: nat, num: nat, baseLg: nat) {
    ghost predicate Valid() {
      num > 0 ==> offset + 4 * num + 5 <= |contents|
    }

    // The i-th word of the offset array, or the one after its last.
    function Word(i: nat): nat
      requires Valid() && i <= num && num > 0
    {
      DecodeFixed(contents[offset + 4 * i..offset + 4 * i + 4])
    }

    predicate KeyMayMatch(policy: BloomPolicy, block: nat, key: Bytes)
      requires Valid() && policy.Valid()
    {
      var index := ShiftRight(block, baseLg);
      if index < num then
        var start, limit := Word(index), Word(index + 1);
        if start <= limit && limit <= offset then policy.Matches(key, contents[start..limit])
        else start != limit
      else true
    }
  }

  // FilterBlockReader::KeyMayMatch, on any block.
  method KeyMayMatch(reader: FilterBlockReader, policy: BloomPolicy, block: nat, key: Bytes) returns (r: bool)
    requires reader.Valid() && policy.Valid()
    ensures r == reader.KeyMayMatch(policy, block, key)
  {
    var index := ShiftRight(block, reader.baseLg);
    if index < reader.num {
      var start, limit := reader.Word(index), reader.Word(index + 1);
      if start <= limit && limit <= reader.offset {
        r := policy.KeyMayMatch(key, reader.contents[start..limit]);
        return;
      } else if start == limit {
        return false;
      }
    }
    r := true;
  }

  // FilterBlockReader's constructor, on any bytes.
  function Open(contents: Bytes): (r: FilterBlockReader)
    ensures r.Valid()
  {
    var n := |contents|;
    if n < 5 then FilterBlockReader(contents, 0, 0, 0)
    else
      var lastWord := DecodeFixed(contents[n - 5..n - 1]);
      if lastWord > n - 5 then FilterBlockReader(contents, 0, 0, contents[n - 1] as nat)
      else FilterBlockReader(contents, lastWord, (n - 5 - lastWord) / 4, contents[n - 1] as nat)
  }

  ghost predicate BlockOf(contents: Bytes, result: Bytes, offsets: seq<nat>) {
    contents == result + Words(offsets) + EncodeFixed(|result|, 4) + [ByteOf(kFilterBaseLg)]
  }

  // The offset array with the end of the last filter as one more element.
  lemma Layout(contents: Bytes, result: Bytes, offsets: seq<nat>)
    requires BlockOf(contents, result, offsets)
    ensures contents == result + Words(offsets + [|result|]) + [ByteOf(kFilterBaseLg)]
    ensures |contents| == |result| + 4 * |offsets| + 5
  {
    assert (offsets + [|result|])[..|offsets|] == offsets;
    assert Words(offsets + [|result|]) == Words(offsets) + EncodeFixed(|result|, 4);
    hide EncodeFixed, Words;
    Regroup(result, Words(offsets), EncodeFixed(|result|, 4), [ByteOf(kFilterBaseLg)]);
  }

  lemma Regroup(a: Bytes, b: Bytes, c: Bytes, d: Bytes)
    ensures a + b + c + d == a + (b + c) + d
  {
  }

  lemma Opened(contents: Bytes, result: Bytes, offsets: seq<nat>)
    requires BlockOf(contents, result, offsets) && |contents| < TWO_TO_32
    ensures Open(contents) == FilterBlockReader(contents, |result|, |offsets|, kFilterBaseLg)
  {
    var n := |contents|;
    Fixed32RoundTrip(|result|);
    Layout(contents, result, offsets);
    hide EncodeFixed, DecodeFixed, Words;
    assert contents[n - 5..n - 1] == EncodeFixed(|result|, 4);
    assert contents[n - 1] == ByteOf(kFilterBaseLg);
  }

  lemma OffsetRead(contents: Bytes, result: Bytes, offsets: seq<nat>, i: nat)
    requires BlockOf(contents, result, offsets) && i <= |offsets|
    requires (offsets + [|result|])[i] < TWO_TO_32
    ensures |result| + 4 * i + 4 <= |contents| && DecodeFixed(contents[|result| + 4 * i..|result| + 4 * i + 4]) == (offsets + [|result|])[i]
  {
    var all := offsets + [|result|];
    Layout(contents, result, offsets);
    WordAt(all, i);
    Fixed32RoundTrip(all[i]);
    hide EncodeFixed, DecodeFixed, Words, BlockOf;
    var words := Words(all);
    assert contents[|result| + 4 * i..|result| + 4 * i + 4] == words[4 * i..4 * i + 4];
  }

  // What the reader answers about a finished block.
  lemma Answers(contents: Bytes, policy: BloomPolicy, result: Bytes, offsets: seq<nat>, block: nat, keys: seq<Bytes>, key: Bytes)
    requires policy.Valid() && BlockOf(contents, result, offsets) && |contents| < TWO_TO_32
    requires block / kFilterBase < |offsets| && Slot(policy, result, offsets, block / kFilterBase, keys)
    ensures key in keys ==> Open(contents).KeyMayMatch(policy, block, key)
    ensures keys == [] ==> !Open(contents).KeyMayMatch(policy, block, key)
  {
    var i := block / kFilterBase;
    Opened(contents, result, offsets);
    Layout(contents, result, offsets);
    ShiftByBase(block);
    WordsRead(contents, result, offsets, i);
    hide EncodeFixed, DecodeFixed, Words, BlockOf, Open, ShiftRight, BloomPolicy.FilterOf, BloomPolicy.Matches, FilterBlockReader.Word;
    var start, limit := offsets[i], EndOf(result, offsets, i);
    Unchanged(contents, result, offsets, start, limit);
    if key in keys { policy.NoFalseNegative(result[start..limit], keys, key); }
    ShortDenies(policy, result[start..limit], key);
  }

  lemma WordsRead(contents: Bytes, result: Bytes, offsets: seq<nat>, i: nat)
    requires BlockOf(contents, result, offsets) && |contents| < TWO_TO_32 && i < |offsets|
    requires offsets[i] <= EndOf(result, offsets, i) <= |result|
    ensures |contents| == |result| + 4 * |offsets| + 5
    ensures var reader := FilterBlockReader(contents, |result|, |offsets|, kFilterBaseLg);
            reader.Word(i) == offsets[i] && reader.Word(i + 1) == EndOf(result, offsets, i)
  {
    Layout(contents, result, offsets);
    hide EncodeFixed, DecodeFixed, Words, BlockOf;
    OffsetRead(contents, result, offsets, i);
    OffsetRead(contents, result, offsets, i + 1);
  }

  lemma ShortDenies(policy: BloomPolicy, filter: Bytes, key: Bytes)
    requires policy.Valid()
    ensures filter == [] ==> !policy.Matches(key, filter)
  {
  }

  lemma Unchanged(contents: Bytes, result: Bytes, offsets: seq<nat>, start: nat, limit: nat)
    requires BlockOf(contents, result, offsets) && start <= limit <= |result|
    ensures limit <= |contents| && contents[start..limit] == result[start..limit]
  {
    hide Words, EncodeFixed;
    assert contents[..|result|] == result;
    SliceOfSlice(contents, 0, |result|, start, limit);
  }

  lemma ShiftOnce(n: nat, k: nat)
    ensures ShiftRight(n, k + 1) == ShiftRight(n / 2, k)
  {
  }

  lemma ShiftFour(n: nat, k: nat)
    ensures ShiftRight(n, k + 4) == ShiftRight(n / 16, k)
  {
    hide ShiftRight;
    ShiftOnce(n, k + 3);
    ShiftOnce(n / 2, k + 2);
    ShiftOnce(n / 4, k + 1);
    ShiftOnce(n / 8, k);
    assert n / 2 / 2 == n / 4 && n / 4 / 2 == n / 8 && n / 8 / 2 == n / 16;
  }

  lemma ShiftByBase(n: nat)
    ensures ShiftRight(n, kFilterBaseLg) == n / kFilterBase
  {
    assert ShiftRight(n / 256 / 2 / 2 / 2, 0) == n / 256 / 2 / 2 / 2;
    hide ShiftRight;
    ShiftFour(n, 7);
    ShiftFour(n / 16, 3);
    ShiftOnce(n / 256, 2);
    ShiftOnce(n / 256 / 2, 1);
    ShiftOnce(n / 256 / 2 / 2, 0);
    assert n / 16 / 16 == n / 256 && n / 256 / 2 / 2 / 2 == n / 2048;
  }

  lemma Readable(contents: Bytes, policy: BloomPolicy, result: Bytes, offsets: seq<nat>, added: seq<Added>)
    requires policy.Valid() && BlockOf(contents, result, offsets) && |contents| < TWO_TO_32 && Slots(policy, result, offsets, added)
    requires forall a :: a in added ==> a.block / kFilterBase < |offsets|
    ensures forall a :: a in added ==> Open(contents).KeyMayMatch(policy, a.block, a.key)
    ensures forall b: nat, key :: b / kFilterBase < Open(contents).num && KeysAt(added, b / kFilterBase) == [] ==> !Open(contents).KeyMayMatch(policy, b, key)
  {
    Opened(contents, result, offsets);
    hide BlockOf, Slot, KeysAt, Open, FilterBlockReader.KeyMayMatch;
    forall a | a in added ensures Open(contents).KeyMayMatch(policy, a.block, a.key) {
      KeysAtHas(added, a);
      Answers(contents, policy, result, offsets, a.block, KeysAt(added, a.block / kFilterBase), a.key);
    }
    forall b: nat, key | b / kFilterBase < Open(contents).num && KeysAt(added, b / kFilterBase) == []
      ensures !Open(contents).KeyMayMatch(policy, b, key)
    {
      Answers(contents, policy, result, offsets, b, [], key);
    }
  }
}
