/** Block::Iter (table/block.cc): a cursor over the entries of a block, found in its bytes. */
module BlockIter {
  import opened Keys
  import opened Coding
  import opened BlockFormat
  import opened BlockBuilder

  // Keys ascend in the comparator's strict order.
  ghost predicate Ascending(es: seq<Pair>, less: (Bytes, Bytes) -> bool) {
    forall i, j :: 0 <= i < j < |es| ==> less(es[i].key, es[j].key)
  }

  ghost predicate Transitive(less: (Bytes, Bytes) -> bool) {
    forall a, b, c :: less(a, b) && less(b, c) ==> less(a, c)
  }

  // The first entry whose key is not before the target.
  ghost predicate FirstAtOrAfter(es: seq<Pair>, less: (Bytes, Bytes) -> bool, target: Bytes, n: nat) {
    && n <= |es|
    && (forall i :: 0 <= i < n ==> less(es[i].key, target))
    && (n < |es| ==> !less(es[n].key, target))
  }

  class Iter {
    const data: Bytes
    const limit: nat                             // restarts_: where the restart array begins
    const numRestarts: nat
    const less: (Bytes, Bytes) -> bool
    ghost const layout: Layout
    var current: nat                             // offset of the current entry
    var restartIndex: nat
    var key: Bytes
    var valueStart: nat                          // value_
    var valueLength: nat
    var corrupt: bool                            // status_
    ghost var pos: nat                           // number of the current entry, |es| when not valid

    // Block::NewIterator
    constructor (data: Bytes, less: (Bytes, Bytes) -> bool, ghost layout: Layout)
      requires IsBlock(data, layout)
      ensures Ready() && pos == |layout.es| && !corrupt && this.layout == layout && this.less == less && this.data == data
    {
      TrailerFacts(data, layout);
      this.data, this.less, this.layout := data, less, layout;
      var n := DecodeFixed(data[|data| - 4..]);
      numRestarts := n;
      limit := |data| - (1 + n) * 4;
      current := |data| - (1 + n) * 4;
      restartIndex := n;
      key, valueStart, valueLength, corrupt, pos := [], 0, 0, false, |layout.es|;
    }

    ghost predicate Opened() {
      && IsBlock(data, layout) && limit == layout.offs[|layout.es|] && numRestarts == |layout.marks|
    }

    // The iterator stands at entry pos, or past the end.
    ghost predicate Ready()
      reads this
    {
      && Opened() && pos <= |layout.es| && current == layout.offs[pos]
      && (pos < |layout.es| ==>
            && key == layout.es[pos].key && restartIndex < numRestarts
            && valueStart + valueLength == layout.offs[pos + 1] <= |data| && data[valueStart..valueStart + valueLength] == layout.es[pos].value
            && layout.marks[restartIndex] <= pos && (restartIndex + 1 < numRestarts ==> pos <= layout.marks[restartIndex + 1]))
    }

    // Before parsing entry n: the end of value_ is where it starts, and key_ holds its predecessor's
    // key, or nothing at a restart point.
    ghost predicate Before(n: nat)
      reads this
    {
      && Opened() && n <= |layout.es| && valueStart + valueLength == layout.offs[n] && restartIndex < numRestarts
      && (n < |layout.es| ==> layout.Prefix(n) && |key| >= layout.shared[n] && key[..layout.shared[n]] == layout.es[n].key[..layout.shared[n]])
      && layout.marks[restartIndex] <= n
    }

    predicate Valid()
      reads this
    {
      current < limit
    }

    // Valid() tells whether an entry is current, and key() and value() are that entry's.
    lemma Standing()
      requires Ready()
      ensures Valid() <==> pos < |layout.es|
      ensures Valid() ==> valueStart + valueLength <= |data|
                          && layout.es[pos] == Pair(key, data[valueStart..valueStart + valueLength])
    {
      OffsetOrder(data, layout, pos, |layout.es|);
    }

    method GetRestartPoint(index: nat) returns (offset: nat)
      requires Opened() && index < numRestarts
      ensures layout.Shape() && layout.marks[index] < |layout.offs| && offset == layout.offs[layout.marks[index]]
    {
      RestartFacts(data, layout, index);
      offset := DecodeFixed(data[limit + 4 * index..limit + 4 * index + 4]);
    }

    method CorruptionError()
      modifies this`current, this`restartIndex, this`corrupt, this`key, this`valueStart, this`valueLength
      ensures corrupt && current == limit
    {
      current, restartIndex, corrupt := limit, numRestarts, true;
      key, valueStart, valueLength := [], 0, 0;
    }

    method ParseNextKey(ghost n: nat) returns (ok: bool)
      requires Before(n)
      modifies this
      ensures Ready() && pos == n && ok == (n < |layout.es|) && corrupt == old(corrupt)
    {
      hide IsBlock, Layout.Shape, Layout.Entry, Layout.Laid, Layout.Prefix, DecodeLengths, Decodes;
      ParseFacts(n);
      var p := valueStart + valueLength;
      current, pos := p, n;
      if p >= limit {
        current, restartIndex := limit, numRestarts;
        return false;
      }
      TakeNext(p, n);
      FindRestart(n);
      ok := true;
    }

    // The entry that starts at p is entry n.
    method TakeNext(p: nat, ghost n: nat)
      requires layout.Shape() && n < |layout.es| && layout.offs[n] == p <= layout.offs[n + 1] <= limit <= |data|
      requires Decodes(data, p, layout.offs[n + 1], limit, layout.shared[n], layout.es[n])
      requires layout.shared[n] <= |layout.es[n].key| && |key| >= layout.shared[n] && key[..layout.shared[n]] == layout.es[n].key[..layout.shared[n]]
      modifies this`current, this`restartIndex, this`corrupt, this`key, this`valueStart, this`valueLength
      ensures key == layout.es[n].key && valueStart + valueLength == layout.offs[n + 1]
      ensures data[valueStart..valueStart + valueLength] == layout.es[n].value
      ensures corrupt == old(corrupt) && current == old(current) && restartIndex == old(restartIndex)
    {
      hide DecodeLengths, Decodes;
      Taken(data, p, layout.offs[n + 1], limit, layout.shared[n], layout.es[n], key);
      var ok := TakeEntry(p);
    }

    lemma ParseFacts(n: nat)
      requires Before(n)
      ensures layout.Shape() && n < |layout.offs| == |layout.es| + 1 && |layout.shared| == |layout.es|
      ensures layout.offs[n] <= limit == layout.offs[|layout.es|] <= |data| && (n < |layout.es| <==> layout.offs[n] < limit)
      ensures n < |layout.es| ==>
                && layout.Prefix(n) && layout.offs[n] <= layout.offs[n + 1] <= limit
                && Decodes(data, layout.offs[n], layout.offs[n + 1], limit, layout.shared[n], layout.es[n])
    {
      OffsetsFit(data, layout, n, |layout.es|);
      OffsetOrder(data, layout, n, |layout.es|);
      if n < |layout.es| { EntryDecodes(data, layout, n); }
    }

    // Decode the entry at p onto the key before it.
    method TakeEntry(p: nat) returns (ok: bool)
      requires p <= limit <= |data| && LengthsFit(data[p..limit])
      modifies this`current, this`restartIndex, this`corrupt, this`key, this`valueStart, this`valueLength
      ensures var r := DecodeLengths(data[p..limit]);
              && (ok <==> r.Some? && r.value.shared <= |old(key)|)
              && (ok ==> && p + r.value.header + r.value.nonShared + r.value.valueLength <= limit
                         && key == old(key)[..r.value.shared] + data[p + r.value.header..p + r.value.header + r.value.nonShared]
                         && valueStart == p + r.value.header + r.value.nonShared && valueLength == r.value.valueLength
                         && corrupt == old(corrupt) && current == old(current) && restartIndex == old(restartIndex))
      ensures !ok ==> corrupt && current == limit
    {
      var r := DecodeEntry(data[p..limit]);
      hide DecodeLengths;
      if r.None? || |key| < r.value.shared {
        CorruptionError();
        return false;
      }
      var e := r.value;
      key := key[..e.shared] + data[p + e.header..p + e.header + e.nonShared];
      valueStart, valueLength := p + e.header + e.nonShared, e.valueLength;
      ok := true;
    }

    // The last restart point not after the current entry, as far as the scan has come.
    method FindRestart(ghost n: nat)
      requires Opened() && n < |layout.es| && current == layout.offs[n] && restartIndex < numRestarts && layout.marks[restartIndex] <= n
      modifies this`restartIndex
      ensures restartIndex < numRestarts && layout.marks[restartIndex] <= n
      ensures restartIndex + 1 < numRestarts ==> n <= layout.marks[restartIndex + 1]
    {
      while restartIndex + 1 < numRestarts
        invariant restartIndex < numRestarts && layout.marks[restartIndex] <= n
        decreases numRestarts - restartIndex
      {
        var offset := GetRestartPoint(restartIndex + 1);
        OffsetOrder(data, layout, layout.marks[restartIndex + 1], n);
        if offset >= current { return; }
        restartIndex := restartIndex + 1;
      }
    }

    method SeekToRestartPoint(index: nat)
      requires Opened() && index < numRestarts
      modifies this`key, this`restartIndex, this`valueStart, this`valueLength
      ensures Before(layout.marks[index]) && restartIndex == index
    {
      var offset := GetRestartPoint(index);
      MarkStarts(data, layout, index);
      key, restartIndex := [], index;
      valueStart, valueLength := offset, 0;
    }

    method SeekToFirst()
      requires Opened()
      modifies this
      ensures Ready() && pos == 0 && corrupt == old(corrupt)
    {
      SeekToRestartPoint(0);
      var ok := ParseNextKey(0);
    }

    method SeekToLast()
      requires Opened()
      modifies this
      ensures Ready() && corrupt == old(corrupt) && pos == if layout.es == [] then 0 else |layout.es| - 1
    {
      ShapeFacts();
      hide IsBlock, Before;
      SeekToRestartPoint(numRestarts - 1);
      ghost var n := layout.marks[numRestarts - 1];
      var ok := ParseNextKey(n);
      while ok && valueStart + valueLength < limit
        invariant Ready() && corrupt == old(corrupt) && ok == (pos < |layout.es|) && (pos == |layout.es| ==> layout.es == [])
        decreases |layout.es| - pos
      {
        NextFacts();
        ok := ParseNextKey(pos + 1);
      }
      if ok { NextFacts(); }
    }

    lemma ShapeFacts()
      requires Opened()
      ensures layout.Shape() && numRestarts == |layout.marks| > 0 && |layout.offs| == |layout.es| + 1
      ensures forall j :: 0 <= j < numRestarts ==> layout.marks[j] < |layout.es| || (j == 0 && layout.es == [])
    {
    }

    // The next entry can be parsed, if there is one; where the current one ends says so.
    lemma NextFacts()
      requires Ready() && pos < |layout.es|
      ensures Before(pos + 1) && (valueStart + valueLength < limit <==> pos + 1 < |layout.es|)
    {
      SharesWith(data, layout, pos + 1);
      OffsetOrder(data, layout, pos + 1, |layout.es|);
    }

    method Prev()
      requires Ready() && pos < |layout.es|
      modifies this
      ensures Ready() && corrupt == old(corrupt) && pos == if old(pos) == 0 then |layout.es| else old(pos) - 1
    {
      ghost var p := pos;
      var found := RestartBefore(p);
      if found {
        ScanTo(p);
      } else {
        current, restartIndex, pos := limit, numRestarts, |layout.es|;   // no more entries
      }
    }

    // Back to a restart point before the current entry, if there is one.
    method RestartBefore(ghost p: nat) returns (found: bool)
      requires Opened() && p < |layout.es| && restartIndex < numRestarts && current == layout.offs[p]
      modifies this`restartIndex
      ensures found ==> restartIndex < numRestarts && layout.marks[restartIndex] < p
      ensures !found ==> p == 0
    {
      ShapeFacts();
      while true
        invariant restartIndex < numRestarts
        decreases restartIndex
      {
        var offset := GetRestartPoint(restartIndex);
        OffsetOrder(data, layout, layout.marks[restartIndex], p);
        if offset < current { return true; }
        if restartIndex == 0 { return false; }
        restartIndex := restartIndex - 1;
      }
    }

    // From the restart point before entry p, up to the entry that ends where p begins.
    method ScanTo(ghost p: nat)
      requires Opened() && restartIndex < numRestarts && p <= |layout.es| && layout.Shape() && layout.marks[restartIndex] < p
      requires current == layout.offs[p]
      modifies this
      ensures Ready() && corrupt == old(corrupt) && pos == p - 1
    {
      ShapeFacts();
      hide IsBlock, Before;
      var original := current;
      ghost var n := layout.marks[restartIndex];
      SeekToRestartPoint(restartIndex);
      var ok := ParseNextKey(n);
      EndOf(p);
      while ok && valueStart + valueLength < original
        invariant Ready() && corrupt == old(corrupt) && ok && pos < p
        invariant valueStart + valueLength < original <==> pos + 1 < p
        decreases p - pos
      {
        NextFacts();
        ok := ParseNextKey(pos + 1);
        EndOf(p);
      }
    }

    lemma EndOf(p: nat)
      requires Ready() && pos < |layout.es| && p <= |layout.es|
      ensures valueStart + valueLength < layout.offs[p] <==> pos + 1 < p
    {
      OffsetOrder(data, layout, pos + 1, p);
    }

    // The key at a restart point, if the entry there decodes and shares nothing.
    ghost function WholeKey(offset: nat): Option<Bytes>
      requires offset <= limit <= |data|
    {
      var r := DecodeLengths(data[offset..limit]);
      if r.Some? && r.value.shared == 0 && r.value.header + r.value.nonShared <= limit - offset
      then Some(data[offset + r.value.header..offset + r.value.header + r.value.nonShared]) else None
    }

    method KeyAt(offset: nat) returns (k: Option<Bytes>)
      requires offset <= limit <= |data| && LengthsFit(data[offset..limit])
      ensures k == WholeKey(offset)
    {
      var r := DecodeEntry(data[offset..limit]);
      if r.None? || r.value.shared != 0 { return None; }
      k := Some(data[offset + r.value.header..offset + r.value.header + r.value.nonShared]);
    }

    lemma MarkKey(index: nat)
      requires Opened() && index < numRestarts && layout.es != []
      ensures layout.marks[index] < |layout.es| && layout.offs[layout.marks[index]] <= limit <= |data|
      ensures WholeKey(layout.offs[layout.marks[index]]) == Some(layout.es[layout.marks[index]].key)
      ensures LengthsFit(data[layout.offs[layout.marks[index]]..limit])
    {
      hide IsBlock, DecodeLengths, Layout.Laid, Layout.Restarts, EncodeRestarts;
      ShapeFacts();
      var m := layout.marks[index];
      MarkStarts(data, layout, index);
      EntryDecodes(data, layout, m);
      assert layout.es[m].key[0..] == layout.es[m].key;
    }

    // Binary search in the restart array for the last restart point with a key < target.
    method SearchRestarts(target: Bytes) returns (left: nat, ok: bool)
      requires Opened() && layout.es != []
      modifies this`current, this`restartIndex, this`corrupt, this`key, this`valueStart, this`valueLength
      ensures ok ==> left < numRestarts && corrupt == old(corrupt)
      ensures ok && left > 0 ==> layout.marks[left] < |layout.es| && less(layout.es[layout.marks[left]].key, target)
      ensures !ok ==> exists m :: 0 <= m < numRestarts && BadMark(m)
    {
      ShapeFacts();
      hide IsBlock, Layout.Laid, BadMark;
      var right := numRestarts - 1;
      left := 0;
      while left < right
        invariant 0 <= left <= right < numRestarts && corrupt == old(corrupt)
        invariant left > 0 ==> layout.marks[left] < |layout.es| && less(layout.es[layout.marks[left]].key, target)
      {
        var mid := (left + right + 1) / 2;
        var offset := GetRestartPoint(mid);
        MarkFits(mid);
        var midKey := KeyAt(offset);
        MarkIs(mid, offset);
        if midKey.None? {
          CorruptionError();
          return 0, false;
        }
        if less(midKey.value, target) { left := mid; } else { right := mid - 1; }
      }
      ok := true;
    }

    ghost predicate BadMark(m: nat)
      requires Opened() && m < numRestarts
    {
      layout.es != [] && layout.marks[m] < |layout.offs| && layout.offs[layout.marks[m]] <= limit <= |data|
      && WholeKey(layout.offs[layout.marks[m]]) == None
    }

    lemma MarkFits(m: nat)
      requires Opened() && m < numRestarts && layout.es != []
      ensures layout.marks[m] < |layout.es| && layout.offs[layout.marks[m]] <= limit <= |data|
      ensures LengthsFit(data[layout.offs[layout.marks[m]]..limit])
    {
      MarkKey(m);
    }

    // A key read at a restart point is that entry's key; only a bad entry has none.
    lemma MarkIs(m: nat, offset: nat)
      requires Opened() && m < numRestarts && layout.es != [] && layout.marks[m] < |layout.es| && offset == layout.offs[layout.marks[m]]
      requires offset <= limit <= |data|
      ensures WholeKey(offset) == None ==> BadMark(m)
      ensures WholeKey(offset).Some? ==> WholeKey(offset).value == layout.es[layout.marks[m]].key
    {
      MarkKey(m);
    }

    lemma NoBadMark()
      requires Opened()
      ensures forall m :: 0 <= m < numRestarts ==> !BadMark(m)
    {
      forall m | 0 <= m < numRestarts ensures !BadMark(m) {
        if layout.es != [] { MarkKey(m); }
      }
    }

    method Seek(target: Bytes)
      requires Opened() && Ascending(layout.es, less) && Transitive(less)
      modifies this
      ensures Ready() && corrupt == old(corrupt) && FirstAtOrAfter(layout.es, less, target, pos)
    {
      ShapeFacts();
      NoBadMark();
      hide IsBlock, Ascending, Transitive, Before, FirstAtOrAfter, BadMark;
      var left := 0;
      if numRestarts > 1 {
        var ok;
        left, ok := SearchRestarts(target);        // fails on a bad entry only, and there is none
      }
      SeekToRestartPoint(left);
      ghost var n := layout.marks[left];
      SmallerBefore(n, target);
      ScanForward(n, target);
    }

    // Linear search for the first key >= target.
    method ScanForward(ghost start: nat, target: Bytes)
      requires Before(start) && forall i :: 0 <= i < start ==> less(layout.es[i].key, target)
      modifies this
      ensures Ready() && corrupt == old(corrupt) && FirstAtOrAfter(layout.es, less, target, pos)
    {
      hide IsBlock, FirstAtOrAfter;
      ghost var n := start;
      while true
        invariant Before(n) && corrupt == old(corrupt)
        invariant forall i :: 0 <= i < n ==> less(layout.es[i].key, target)
        decreases |layout.es| - n
      {
        var ok := ParseNextKey(n);
        if !ok || !less(key, target) {
          FoundHere(n, target);
          return;
        }
        NextFacts();
        n := n + 1;
      }
    }

    lemma SmallerBefore(n: nat, target: Bytes)
      requires Ascending(layout.es, less) && Transitive(less) && n <= |layout.es|
      requires n > 0 ==> n < |layout.es| && less(layout.es[n].key, target)
      ensures forall i :: 0 <= i < n ==> less(layout.es[i].key, target)
    {
      forall i | 0 <= i < n ensures less(layout.es[i].key, target) {
        assert less(layout.es[i].key, layout.es[n].key) && less(layout.es[n].key, target);
      }
    }

    lemma FoundHere(n: nat, target: Bytes)
      requires n <= |layout.es| && (forall i :: 0 <= i < n ==> less(layout.es[i].key, target))
      requires n < |layout.es| ==> !less(layout.es[n].key, target)
      ensures FirstAtOrAfter(layout.es, less, target, n)
    {
    }

    method Next()
      requires Ready() && pos < |layout.es|
      modifies this
      ensures Ready() && pos == old(pos) + 1 && corrupt == old(corrupt)
    {
      SharesWith(data, layout, pos + 1);
      var ok := ParseNextKey(pos + 1);
    }
  }

  // A restart entry stores its whole key.
  lemma MarkStarts(data: Bytes, l: Layout, j: nat)
    requires IsBlock(data, l) && j < |l.marks|
    ensures l.marks[j] < |l.es| ==> l.Prefix(l.marks[j]) && l.shared[l.marks[j]] == 0
  {
    if l.marks[j] < |l.es| { assert l.Entry(data, l.marks[j]); }
  }

  lemma SharesWith(data: Bytes, l: Layout, n: nat)
    requires IsBlock(data, l) && n > 0
    ensures n < |l.es| ==> l.Prefix(n)
  {
    if n < |l.es| { assert l.Entry(data, n); }
  }

  lemma Reassembled(key: Bytes, shared: nat)
    requires shared <= |key|
    ensures key[..shared] + key[shared..] == key
  {
  }

  lemma OffsetOrder(data: Bytes, l: Layout, i: nat, j: nat)
    requires IsBlock(data, l) && i <= |l.es| && j <= |l.es|
    ensures l.offs[i] < l.offs[j] <==> i < j
  {
    if i <= j { OffsetsFit(data, l, i, j); } else { OffsetsFit(data, l, j, i); }
  }

  // The key and value TakeEntry leaves.
  lemma Taken(data: Bytes, p: nat, q: nat, end: nat, shared: nat, e: Pair, was: Bytes)
    requires p <= q <= end <= |data| && Decodes(data, p, q, end, shared, e)
    requires shared <= |was| && was[..shared] == e.key[..shared]
    ensures var r := DecodeLengths(data[p..end]);
            && r.Some? && r.value.shared == shared
            && var at := p + r.value.header;
               && at + r.value.nonShared + r.value.valueLength == q
               && was[..shared] + data[at..at + r.value.nonShared] == e.key && data[at + r.value.nonShared..q] == e.value
  {
    Reassembled(e.key, shared);
  }

  // The entry decoded ends before the limit.
  ghost predicate LengthsFit(s: Bytes) {
    var r := DecodeLengths(s);
    r.Some? ==> r.value.header + r.value.nonShared + r.value.valueLength <= |s|
  }

  // What DecodeEntry returns at the start of an entry that ends at q.
  ghost predicate Decodes(data: Bytes, p: nat, q: nat, end: nat, shared: nat, e: Pair)
    requires p <= q <= end <= |data|
  {
    && shared <= |e.key|
    && var r := DecodeLengths(data[p..end]);
       && r.Some? && r.value.shared == shared && r.value.nonShared == |e.key| - shared && r.value.valueLength == |e.value|
       && var at := p + r.value.header;
          && at + r.value.nonShared + r.value.valueLength == q
          && data[at..at + r.value.nonShared] == e.key[shared..] && data[at + r.value.nonShared..q] == e.value
  }

  lemma EntryDecodes(data: Bytes, l: Layout, n: nat)
    requires IsBlock(data, l) && n < |l.es|
    ensures l.Prefix(n) && l.offs[n] < l.offs[n + 1] <= l.offs[|l.es|] <= |data|
    ensures Decodes(data, l.offs[n], l.offs[n + 1], l.offs[|l.es|], l.shared[n], l.es[n])
  {
    assert l.Entry(data, n);
    OffsetsFit(data, l, n + 1, |l.es|);
    hide Decodes, EncodeEntry;
    DecodesAt(data, l.offs[n], l.offs[n + 1], l.offs[|l.es|], l.shared[n], l.es[n]);
  }

  lemma EntryParts(shared: nat, e: Pair)
    requires shared <= |e.key|
    ensures EncodeEntry(shared, e) == EntryHeader(shared, |e.key| - shared, |e.value|) + (e.key[shared..] + e.value)
  {
    hide EntryHeader;
  }

  lemma DecodesAt(data: Bytes, p: nat, q: nat, end: nat, shared: nat, e: Pair)
    requires p <= q <= end <= |data| < TWO_TO_32 && shared <= |e.key| < TWO_TO_32 && |e.value| < TWO_TO_32 && data[p..q] == EncodeEntry(shared, e)
    ensures Decodes(data, p, q, end, shared, e)
  {
    hide EntryHeader, DecodeLengths, EncodeEntry;
    var h, delta := EntryHeader(shared, |e.key| - shared, |e.value|), e.key[shared..];
    EntryParts(shared, e);
    HeaderDecodes(data, p, q, end, shared, e);
    PartsAt(data, p, q, h, delta, e.value);
  }

  lemma HeaderDecodes(data: Bytes, p: nat, q: nat, end: nat, shared: nat, e: Pair)
    requires p <= q <= end <= |data| < TWO_TO_32 && shared <= |e.key| < TWO_TO_32 && |e.value| < TWO_TO_32
    requires data[p..q] == EntryHeader(shared, |e.key| - shared, |e.value|) + (e.key[shared..] + e.value)
    ensures DecodeLengths(data[p..end])
         == Some(Lengths(shared, |e.key| - shared, |e.value|, |EntryHeader(shared, |e.key| - shared, |e.value|)|))
  {
    var h, delta, rest := EntryHeader(shared, |e.key| - shared, |e.value|), e.key[shared..], data[q..end];
    hide EntryHeader, DecodeLengths, TakesAtMost;
    WithoutWrap(|delta|, |e.value|, |delta + e.value + rest|);
    Rejoined(data, p, q, end, h, delta, e.value);
    LengthsRoundTrip(shared, |e.key| - shared, |e.value|, delta + e.value + rest);
  }

  lemma Rejoined(data: Bytes, p: nat, q: nat, end: nat, h: Bytes, delta: Bytes, value: Bytes)
    requires p <= q <= end <= |data| && data[p..q] == h + (delta + value)
    ensures data[p..end] == h + (delta + value + data[q..end])
  {
    assert data[p..end] == data[p..q] + data[q..end];
  }

  lemma PartsAt(data: Bytes, p: nat, q: nat, h: Bytes, delta: Bytes, value: Bytes)
    requires p <= q <= |data| && data[p..q] == h + (delta + value)
    ensures p + |h| + |delta| + |value| == q
    ensures data[p + |h|..p + |h| + |delta|] == delta && data[p + |h| + |delta|..q] == value
  {
    var s := data[p..q];
    assert |s| == |h| + |delta| + |value|;
    assert s[|h|..|h| + |delta|] == delta && s[|h| + |delta|..|s|] == value;
    SliceOfSlice(data, p, q, |h|, |h| + |delta|);
    SliceOfSlice(data, p, q, |h| + |delta|, |s|);
  }

  lemma TrailerFacts(data: Bytes, l: Layout)
    requires IsBlock(data, l)
    ensures |data| >= 8 && DecodeFixed(data[|data| - 4..]) == |l.marks| && |data| - (1 + |l.marks|) * 4 == l.offs[|l.es|]
  {
    var end := l.offs[|l.es|];
    var tail := EncodeRestarts(l.Restarts());
    assert data[|data| - 4..] == data[end..][|tail|..];
    Fixed32RoundTrip(|l.marks|);
  }

  lemma RestartFacts(data: Bytes, l: Layout, j: nat)
    requires IsBlock(data, l) && j < |l.marks|
    ensures l.marks[j] < |l.offs| && l.offs[|l.es|] + 4 * j + 4 <= |data|
    ensures DecodeFixed(data[l.offs[|l.es|] + 4 * j..l.offs[|l.es|] + 4 * j + 4]) == l.offs[l.marks[j]]
  {
    hide EncodeFixed, DecodeFixed, EncodeRestarts, Layout.Laid;
    var end := l.offs[|l.es|];
    assert l.marks[j] < |l.offs|;
    RestartAt(l.Restarts(), j, EncodeFixed(|l.marks|, 4));
    assert data[end + 4 * j..end + 4 * j + 4] == data[end..][4 * j..4 * j + 4];
    OffsetsFit(data, l, l.marks[j], |l.es|);
    Fixed32RoundTrip(l.offs[l.marks[j]]);
  }

  lemma {:induction false} OffsetsFit(data: Bytes, l: Layout, i: nat, j: nat)
    requires l.Shape() && l.Laid(data) && i <= j <= |l.es|
    ensures l.offs[i] <= l.offs[j] <= |data| && (i < j ==> l.offs[i] < l.offs[j])
    decreases j - i
  {
    if i == j {
      if i < |l.es| { assert l.Entry(data, i); }
    } else {
      assert l.Entry(data, j - 1);
      OffsetsFit(data, l, i, j - 1);
    }
  }

  ghost predicate Fit(es: seq<Pair>) {
    forall i :: 0 <= i < |es| ==> |es[i].key| < TWO_TO_32 && |es[i].value| < TWO_TO_32
  }

  // Build a block of some entries: there is one exactly when its size fits the format's 32 bits.
  method Build(es: seq<Pair>, interval: nat) returns (bytes: Option<Bytes>, ghost layout: Layout)
    requires Fit(es) && interval >= 1
    ensures bytes.Some? <==> BlockSize(es, interval) < TWO_TO_32
    ensures bytes.Some? ==> IsBlock(bytes.value, layout) && layout.es == es && |bytes.value| == BlockSize(es, interval)
  {
    hide EntriesOf, RestartCount, IsBlock, Layout.Laid, SinceRestart, Layout.Restarts, EncodeRestarts;
    var b := new BlockBuilder(interval);
    for i := 0 to |es|
      invariant b.Valid() && fresh(b) && b.layout.es == es[..i] && b.interval == interval
    {
      assert es[..i + 1] == es[..i] + [es[i]];
      b.Add(es[i].key, es[i].value);
    }
    assert es[..|es|] == es;
    layout := b.layout;
    if |b.buffer| + 4 * |b.restarts| + 4 >= TWO_TO_32 { return None, layout; }   // sizes are 32 bits
    var r := b.Finish();
    bytes := Some(r);
  }

  // Iterating a finished block gives back the entries, whatever the restart interval.
  method RoundTrip(es: seq<Pair>, interval: nat, less: (Bytes, Bytes) -> bool) returns (back: Option<seq<Pair>>)
    requires Fit(es) && interval >= 1
    ensures back == if BlockSize(es, interval) < TWO_TO_32 then Some(es) else None
  {
    var bytes;
    ghost var layout;
    bytes, layout := Build(es, interval);
    if bytes.None? { return None; }
    var it := new Iter(bytes.value, less, layout);
    it.SeekToFirst();
    var out := [];
    hide IsBlock;
    while it.Valid()
      invariant it.Ready() && fresh(it) && it.layout == layout && it.pos <= |es| && out == es[..it.pos]
      decreases |es| - it.pos
    {
      it.Standing();
      out := out + [Pair(it.key, it.data[it.valueStart..it.valueStart + it.valueLength])];
      it.Next();
    }
    it.Standing();
    assert es[..|es|] == es;
    back := Some(out);
  }
}
