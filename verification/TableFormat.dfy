/** Tables (table/table_builder.cc, table/table.cc): data blocks and an index of keys that separate them,
    and the point lookup that reads one block only. */
module TableFormat {
  import opened Keys
  import opened Bytewise

  // What a table asks of the user comparator.
  datatype UserComparator = UserComparator(
    separator: (UserKey, UserKey) -> UserKey,    // FindShortestSeparator
    successor: UserKey -> UserKey,               // FindShortSuccessor
    shorter: (UserKey, UserKey) -> bool)         // fewer bytes
  {
    ghost predicate Valid() {
      && (forall a, b :: a < b ==> a <= separator(a, b) < b)
      && (forall a :: separator(a, a) == a)
      && (forall a :: a <= successor(a))
    }

    // InternalKeyComparator::FindShortestSeparator
    function Separator(start: InternalKey, limit: InternalKey): (r: InternalKey)
      requires Valid() && start.Before(limit) && start.sequence <= kMaxSequenceNumber
      ensures start.AtMost(r) && r.Before(limit)
      ensures r == start || start.user < r.user < limit.user
    {
      var tmp := separator(start.user, limit.user);
      if shorter(tmp, start.user) && start.user < tmp
      then InternalKey(tmp, kMaxSequenceNumber, kValueTypeForSeek) else start
    }

    // InternalKeyComparator::FindShortSuccessor
    function Successor(key: InternalKey): (r: InternalKey)
      requires Valid()
      ensures key.AtMost(r) && (r == key || key.user < r.user)
    {
      var tmp := successor(key.user);
      if shorter(tmp, key.user) && key.user < tmp
      then InternalKey(tmp, kMaxSequenceNumber, kValueTypeForSeek) else key
    }
  }

  // The default comparator, seen through the embedding of byte strings in the places, meets it.
  lemma DefaultIsValid(c: UserComparator)
    requires (forall a, b :: c.separator(a, b) == SeparatorOf(a, b)) && forall a :: c.successor(a) == SuccessorOf(a)
    ensures c.Valid()
  {
    hide SeparatorOf, SuccessorOf;
    forall a, b ensures a < b ==> a <= c.separator(a, b) < b { MeetsTables(a, b); }
    forall a ensures c.separator(a, a) == a && a <= c.successor(a) { MeetsTables(a, a); }
  }

  ghost function Flat(blocks: seq<seq<Entry>>): seq<Entry> {
    if blocks == [] then [] else Flat(blocks[..|blocks| - 1]) + blocks[|blocks| - 1]
  }

  // An index key is at or after every key of its block, and before every key of the later blocks.
  ghost predicate Separates(k: InternalKey, block: seq<Entry>, later: seq<Entry>) {
    (forall e :: e in block ==> e.key.AtMost(k)) && (forall e :: e in later ==> k.Before(e.key))
  }

  // ... and it is the last key of its block or lies strictly between the blocks' user keys.
  ghost predicate Tight(k: InternalKey, block: seq<Entry>, later: seq<Entry>) {
    || (block != [] && k == block[|block| - 1].key)
    || (forall e :: e in later ==> k.user < e.key.user)
  }

  ghost predicate KeyFits(k: InternalKey, block: seq<Entry>, later: seq<Entry>) {
    Separates(k, block, later) && Tight(k, block, later)
  }

  // The index keys of the first blocks; `data` comes after all of them.
  ghost predicate IndexFits(index: seq<InternalKey>, blocks: seq<seq<Entry>>, data: seq<Entry>) {
    |index| <= |blocks| && forall i :: 0 <= i < |index| ==> KeyFits(index[i], blocks[i], Flat(blocks[i + 1..]) + data)
  }

  ghost predicate Ascends(index: seq<InternalKey>) {
    forall i, j :: 0 <= i < j < |index| ==> index[i].Before(index[j])
  }

  datatype Table = Table(blocks: seq<seq<Entry>>, index: seq<InternalKey>) {
    ghost predicate Laid() {
      |index| == |blocks| && Sorted(Flat(blocks)) && AllParse(Flat(blocks)) && IndexFits(index, blocks, [])
    }

    // The index can be searched; blocks may be empty.
    ghost predicate Valid() {
      Laid() && Ascends(index)
    }
  }

  lemma {:induction false} FlatParts(a: seq<seq<Entry>>, b: seq<seq<Entry>>)
    ensures Flat(a + b) == Flat(a) + Flat(b)
    decreases |b|
  {
    if b == [] {
      assert a + b == a;
    } else {
      assert (a + b)[..|a + b| - 1] == a + b[..|b| - 1];
      FlatParts(a, b[..|b| - 1]);
    }
  }

  lemma FlatOne(block: seq<Entry>)
    ensures Flat([block]) == block
  {
    assert [block][..0] == [];
  }

  lemma Associates(a: seq<Entry>, b: seq<Entry>, c: seq<Entry>)
    ensures a + (b + c) == a + b + c
  {
  }

  lemma Around(blocks: seq<seq<Entry>>, i: nat)
    requires i < |blocks|
    ensures blocks[..i] + ([blocks[i]] + blocks[i + 1..]) == blocks
  {
  }

  // The blocks before i, block i, and the blocks after it.
  lemma FlatAround(blocks: seq<seq<Entry>>, i: nat)
    requires i < |blocks|
    ensures Flat(blocks) == Flat(blocks[..i]) + blocks[i] + Flat(blocks[i + 1..])
  {
    hide Flat;
    var a, b := blocks[..i], blocks[i + 1..];
    var rest := [blocks[i]] + b;
    Around(blocks, i);
    FlatParts(a, rest);
    FlatParts([blocks[i]], b);
    FlatOne(blocks[i]);
    Associates(Flat(a), blocks[i], Flat(b));
  }

  // ----- the index while the table grows -----

  lemma LaterGrows(k: InternalKey, block: seq<Entry>, later: seq<Entry>, e: Entry)
    requires KeyFits(k, block, later) && later != [] && Sorted(later + [e])
    ensures KeyFits(k, block, later + [e])
  {
    var last := later[|later| - 1];
    assert (later + [e])[|later| - 1] == last && (later + [e])[|later|] == e;
    assert last in later && last.key.Before(e.key);
  }

  lemma LastBlock(blocks: seq<seq<Entry>>)
    requires blocks != [] && blocks[|blocks| - 1] != []
    ensures Flat(blocks) != [] && Flat(blocks)[|Flat(blocks)| - 1] == blocks[|blocks| - 1][|blocks[|blocks| - 1]| - 1]
  {
  }

  lemma TailSorted(a: seq<Entry>, b: seq<Entry>)
    requires Sorted(a + b)
    ensures Sorted(b)
  {
    forall i, j | 0 <= i < j < |b| ensures b[i].key.Before(b[j].key) {
      assert (a + b)[|a| + i] == b[i] && (a + b)[|a| + j] == b[j];
    }
  }

  // Entries from block i on are sorted.
  lemma RestSorted(blocks: seq<seq<Entry>>, more: seq<Entry>, i: nat)
    requires Sorted(Flat(blocks) + more) && i <= |blocks|
    ensures Sorted(Flat(blocks[i..]) + more)
  {
    hide Flat;
    assert blocks == blocks[..i] + blocks[i..];
    FlatParts(blocks[..i], blocks[i..]);
    assert Flat(blocks) + more == Flat(blocks[..i]) + (Flat(blocks[i..]) + more);
    TailSorted(Flat(blocks[..i]), Flat(blocks[i..]) + more);
  }

  lemma SortedInit(a: seq<Entry>, e: Entry)
    requires Sorted(a + [e])
    ensures Sorted(a) && forall x :: x in a ==> x.key.Before(e.key)
  {
    var s := a + [e];
    forall i, j | 0 <= i < j < |a| ensures a[i].key.Before(a[j].key) { assert s[i] == a[i] && s[j] == a[j]; }
    forall x | x in a ensures x.key.Before(e.key) {
      var i :| 0 <= i < |a| && a[i] == x;
      assert s[i] == x && s[|a|] == e;
    }
  }

  // One more entry in the current block.
  lemma AppendFits(index: seq<InternalKey>, blocks: seq<seq<Entry>>, data: seq<Entry>, e: Entry)
    requires IndexFits(index, blocks, data) && data != [] && Sorted(Flat(blocks) + (data + [e]))
    ensures IndexFits(index, blocks, data + [e])
  {
    hide Flat, KeyFits, Sorted;
    forall i | 0 <= i < |index| ensures KeyFits(index[i], blocks[i], Flat(blocks[i + 1..]) + (data + [e])) {
      var later := Flat(blocks[i + 1..]) + data;
      RestSorted(blocks, data + [e], i + 1);
      assert later + [e] == Flat(blocks[i + 1..]) + (data + [e]);
      LaterGrows(index[i], blocks[i], later, e);
    }
  }

  lemma EarlierFits(index: seq<InternalKey>, blocks: seq<seq<Entry>>, e: Entry, i: nat)
    requires IndexFits(index, blocks, []) && i < |index| && i + 1 < |blocks| && blocks[|blocks| - 1] != [] && Sorted(Flat(blocks) + [e])
    ensures KeyFits(index[i], blocks[i], Flat(blocks[i + 1..]) + [e])
  {
    hide KeyFits, Sorted;
    var later := Flat(blocks[i + 1..]);
    assert later + [] == later && blocks[i + 1..][|blocks[i + 1..]| - 1] == blocks[|blocks| - 1];
    LastBlock(blocks[i + 1..]);
    hide Flat;
    RestSorted(blocks, [e], i + 1);
    LaterGrows(index[i], blocks[i], later, e);
  }

  // The first entry after a finished block: its index entry can be written now.
  lemma SeparatorFits(index: seq<InternalKey>, blocks: seq<seq<Entry>>, e: Entry, k: InternalKey, c: UserComparator)
    requires IndexFits(index, blocks, []) && |index| + 1 == |blocks| && c.Valid()
    requires blocks[|blocks| - 1] != [] && Sorted(Flat(blocks) + [e])
    requires k == Flat(blocks)[|Flat(blocks)| - 1].key && k.sequence <= kMaxSequenceNumber && k.Before(e.key)
    ensures IndexFits(index + [c.Separator(k, e.key)], blocks, [e])
  {
    hide KeyFits, Sorted, UserComparator.Separator, UserComparator.Valid;
    var n, all := |index|, index + [c.Separator(k, e.key)];
    LastBlock(blocks);
    assert blocks[n + 1..] == [] && Flat([]) + [e] == [e];
    forall i | 0 <= i < n ensures KeyFits(all[i], blocks[i], Flat(blocks[i + 1..]) + [e]) {
      EarlierFits(index, blocks, e, i);
    }
    RestSorted(blocks, [e], n);
    assert blocks[n..] == [blocks[n]];
    FlatOne(blocks[n]);
    LastFits(blocks[n], e, k, c);
  }

  lemma LastFits(block: seq<Entry>, e: Entry, k: InternalKey, c: UserComparator)
    requires c.Valid() && block != [] && Sorted(block + [e]) && k == block[|block| - 1].key && k.sequence <= kMaxSequenceNumber && k.Before(e.key)
    ensures KeyFits(c.Separator(k, e.key), block, [e])
  {
    KeysUpTo(block, e);
  }

  lemma KeysUpTo(block: seq<Entry>, e: Entry)
    requires block != [] && Sorted(block + [e])
    ensures forall x :: x in block ==> x.key.AtMost(block[|block| - 1].key)
  {
    SortedInit(block, e);
    forall x | x in block ensures x.key.AtMost(block[|block| - 1].key) {
      var i :| 0 <= i < |block| && block[i] == x;
      SortedAt(block, i, |block| - 1);
    }
  }

  lemma FlushFits(index: seq<InternalKey>, blocks: seq<seq<Entry>>, data: seq<Entry>)
    requires IndexFits(index, blocks, data)
    ensures IndexFits(index, blocks + [data], []) && Flat(blocks + [data]) == Flat(blocks) + data
  {
    FlatParts(blocks, [data]);
    FlatOne(data);
    hide Flat, KeyFits;
    var all := blocks + [data];
    forall i | 0 <= i < |index| ensures KeyFits(index[i], all[i], Flat(all[i + 1..]) + []) {
      assert all[i + 1..] == blocks[i + 1..] + [data];
      FlatParts(blocks[i + 1..], [data]);
      assert Flat(all[i + 1..]) + [] == Flat(blocks[i + 1..]) + data;
    }
  }

  // The last index entry, when nothing follows.
  lemma SuccessorFits(index: seq<InternalKey>, blocks: seq<seq<Entry>>, k: InternalKey, c: UserComparator)
    requires IndexFits(index, blocks, []) && |index| + 1 == |blocks| && c.Valid() && blocks[|blocks| - 1] != []
    requires Sorted(Flat(blocks)) && k == Flat(blocks)[|Flat(blocks)| - 1].key
    ensures IndexFits(index + [c.Successor(k)], blocks, [])
  {
    var n, all := |index|, index + [c.Successor(k)];
    LastBlock(blocks);
    BlockSorted(blocks);
    LastSucceeds(blocks[n], k, c);
    NothingAfter(blocks);
    hide KeyFits, Flat, Sorted, UserComparator.Successor, UserComparator.Valid;
    forall i | 0 <= i < |all| ensures KeyFits(all[i], blocks[i], Flat(blocks[i + 1..]) + []) {
      if i < n { assert all[i] == index[i]; }
    }
  }

  lemma NothingAfter(blocks: seq<seq<Entry>>)
    ensures Flat(blocks[|blocks|..]) == []
  {
  }

  lemma BlockSorted(blocks: seq<seq<Entry>>)
    requires blocks != [] && Sorted(Flat(blocks))
    ensures Sorted(blocks[|blocks| - 1])
  {
    TailSorted(Flat(blocks[..|blocks| - 1]), blocks[|blocks| - 1]);
  }

  lemma LastSucceeds(block: seq<Entry>, k: InternalKey, c: UserComparator)
    requires c.Valid() && block != [] && Sorted(block) && k == block[|block| - 1].key
    ensures KeyFits(c.Successor(k), block, [])
  {
    forall x | x in block ensures x.key.AtMost(c.Successor(k)) {
      var i :| 0 <= i < |block| && block[i] == x;
      SortedAt(block, i, |block| - 1);
    }
  }

  lemma BlockParts(t: Table, i: nat)
    requires t.Laid() && i < |t.blocks|
    ensures var later := Flat(t.blocks[i + 1..]);
            && Sorted(t.blocks[i]) && AllParse(t.blocks[i]) && KeyFits(t.index[i], t.blocks[i], later)
            && forall x, y :: x in t.blocks[i] && y in later ==> x.key.Before(y.key)
  {
    hide Flat, KeyFits, IndexFits;
    var block, later := t.blocks[i], Flat(t.blocks[i + 1..]);
    FlatAround(t.blocks, i);
    IndexFitsAt(t.index, t.blocks, i);
    var head, all := Flat(t.blocks[..i]), Flat(t.blocks);
    assert all == head + (block + later);
    SortedParts(head, block + later);
    SortedParts(block, later);
  }

  lemma IndexFitsAt(index: seq<InternalKey>, blocks: seq<seq<Entry>>, i: nat)
    requires IndexFits(index, blocks, []) && i < |index|
    ensures KeyFits(index[i], blocks[i], Flat(blocks[i + 1..]))
  {
    hide Flat, KeyFits;
    var later := Flat(blocks[i + 1..]);
    assert later + [] == later;
  }

  // Non-empty blocks have ascending index keys.
  lemma FullBlocksAscend(t: Table)
    requires t.Laid() && forall i :: 0 <= i < |t.blocks| ==> t.blocks[i] != []
    ensures t.Valid()
  {
    hide Flat, Sorted, AllParse, IndexFits;
    forall i, j | 0 <= i < j < |t.index| ensures t.index[i].Before(t.index[j]) { IndexAscends(t, i, j); }
  }

  lemma IndexAscends(t: Table, i: nat, j: nat)
    requires t.Laid() && i < j < |t.index| && t.blocks[j] != []
    ensures t.index[i].Before(t.index[j])
  {
    hide Flat, Sorted, AllParse, IndexFits;
    BlockParts(t, i);
    BlockParts(t, j);
    InLater(t.blocks, i, j, t.blocks[j][0]);
  }

  lemma InLater(blocks: seq<seq<Entry>>, i: nat, j: nat, e: Entry)
    requires i < j < |blocks| && e in blocks[j]
    ensures e in Flat(blocks[i + 1..])
  {
    FlatAround(blocks[i + 1..], j - i - 1);
    assert blocks[i + 1..][j - i - 1] == blocks[j];
  }

  // ----- TableBuilder -----

  class TableBuilder {
    const comparator: UserComparator
    const estimate: seq<Entry> -> nat            // data_block.CurrentSizeEstimate of these entries
    const blockSize: nat                         // options.block_size
    var blocks: seq<seq<Entry>>                  // blocks written
    var data: seq<Entry>                         // data_block
    var index: seq<InternalKey>                  // keys of index_block
    var pending: bool                            // pending_index_entry
    var lastKey: Option<InternalKey>             // last_key, once there is one

    constructor (comparator: UserComparator, estimate: seq<Entry> -> nat, blockSize: nat)
      requires comparator.Valid()
      ensures Valid() && Cut(blocks, data) && All() == []
    {
      this.comparator, this.estimate, this.blockSize := comparator, estimate, blockSize;
      blocks, data, index, pending, lastKey := [], [], [], false, None;
    }

    ghost function All(): seq<Entry>
      reads this
    {
      Flat(blocks) + data
    }

    ghost predicate Valid()
      reads this
    {
      && comparator.Valid() && Sorted(All()) && AllParse(All())
      && (forall e :: e in All() ==> e.key.sequence <= kMaxSequenceNumber)
      && |index| + (if pending then 1 else 0) == |blocks| && (pending ==> data == []) && (!pending && blocks != [] ==> data != [])
      && (forall i :: 0 <= i < |blocks| ==> blocks[i] != [])
      && lastKey == (if All() == [] then None else Some(All()[|All()| - 1].key))
      && IndexFits(index, blocks, data)
    }

    // No part of a block up to its last entry but one is full, and a block written is; the current one is not.
    ghost predicate Cut(blocks: seq<seq<Entry>>, data: seq<Entry>) {
      (forall i :: 0 <= i < |blocks| ==> FullAtLast(blocks[i])) && NotFull(data)
    }

    ghost predicate NotFull(block: seq<Entry>) { forall k :: 0 < k <= |block| ==> estimate(block[..k]) < blockSize }

    ghost predicate FullAtLast(block: seq<Entry>) { block != [] && NotFull(block[..|block| - 1]) && estimate(block) >= blockSize }

    lemma CutNext(blocks: seq<seq<Entry>>, data: seq<Entry>, e: Entry)
      requires Cut(blocks, data)
      ensures if estimate(data + [e]) >= blockSize then Cut(blocks + [data + [e]], []) else Cut(blocks, data + [e])
    {
      var next := data + [e];
      assert next[..|data|] == data && next[..|next|] == next;
      forall k | 0 < k <= |data| ensures estimate(next[..k]) < blockSize { assert next[..k] == data[..k]; }
    }

    method Add(e: Entry)
      requires Valid() && e.Parses() && e.key.sequence <= kMaxSequenceNumber
      requires lastKey.Some? ==> lastKey.value.Before(e.key)
      modifies this
      ensures Valid() && All() == old(All()) + [e]
      ensures if estimate(old(data) + [e]) >= blockSize then blocks == old(blocks) + [old(data) + [e]] && data == []
              else blocks == old(blocks) && data == old(data) + [e]
      ensures Cut(old(blocks), old(data)) ==> Cut(blocks, data)
    {
      hide Flat, Sorted, AllParse, IndexFits, Cut;
      if Cut(blocks, data) { CutNext(blocks, data, e); }
      Kept(e);
      PutPending(e);
      Took(e);
      if estimate(data) >= blockSize { Flush(); }
    }

    // The index entry held back since the last block was finished.
    method PutPending(e: Entry)
      requires Valid() && (lastKey.Some? ==> lastKey.value.Before(e.key)) && Sorted(All() + [e]) && Flat(blocks) + (data + [e]) == All() + [e]
      requires pending ==> data == [] && lastKey.Some? && Sorted(Flat(blocks) + [e])
      modifies this`index, this`pending
      ensures !pending && |index| == |blocks| && IndexFits(index, blocks, data + [e])
    {
      if data == [] && !pending { IfNoData(); }
      hide Sorted, AllParse, IndexFits, UserComparator.Separator, UserComparator.Valid;
      if pending {
        SeparatorFits(index, blocks, e, lastKey.value, comparator);
        index := index + [comparator.Separator(lastKey.value, e.key)];
        pending := false;
      } else if data != [] {
        AppendFits(index, blocks, data, e);
      }
    }

    // r->last_key and data_block take the entry.
    method Took(e: Entry)
      requires comparator.Valid() && e.Parses() && e.key.sequence <= kMaxSequenceNumber && !pending
      requires Flat(blocks) + (data + [e]) == All() + [e] && Sorted(All() + [e]) && AllParse(All() + [e])
      requires (forall x :: x in All() ==> x.key.sequence <= kMaxSequenceNumber) && (forall i :: 0 <= i < |blocks| ==> blocks[i] != [])
      requires |index| == |blocks| && IndexFits(index, blocks, data + [e])
      modifies this`lastKey, this`data
      ensures Valid() && All() == old(All()) + [e] && data == old(data) + [e]
    {
      hide Sorted, IndexFits, Flat;
      lastKey := Some(e.key);
      data := data + [e];
    }

    lemma IfNoData()
      requires Valid() && data == [] && !pending
      ensures forall e :: IndexFits(index, blocks, [e])
    {
    }

    // The entries stay sorted.
    lemma Kept(e: Entry)
      requires Valid() && e.Parses() && (lastKey.Some? ==> lastKey.value.Before(e.key))
      ensures Flat(blocks) + (data + [e]) == All() + [e] && Sorted(All() + [e]) && AllParse(All() + [e])
      ensures pending ==> data == [] && lastKey.Some? && Sorted(Flat(blocks) + [e])
    {
      var all := All();
      assert Flat(blocks) + (data + [e]) == all + [e];
      if pending { LastBlock(blocks); }
      forall i, j | 0 <= i < j < |all + [e]| ensures (all + [e])[i].key.Before((all + [e])[j].key) {
        SortedAt(all, i, |all| - 1);
      }
      if pending { assert Flat(blocks) + [] == Flat(blocks); }
    }

    method Flush()
      requires Valid()
      modifies this`blocks, this`data, this`pending
      ensures Valid() && All() == old(All()) && data == [] && blocks == old(blocks) + if old(data) == [] then [] else [old(data)]
    {
      if data == [] { return; }
      FlushFits(index, blocks, data);
      blocks, data, pending := blocks + [data], [], true;
      assert Flat(blocks) + [] == Flat(blocks);
    }

    // The index entry of the last block.
    method PutLast()
      requires Valid() && data == []
      modifies this`index, this`pending
      ensures Table(blocks, index).Laid() && forall i :: 0 <= i < |blocks| ==> blocks[i] != []
      ensures Flat(blocks) == old(All())
    {
      assert Flat(blocks) + [] == Flat(blocks);
      if pending {
        LastBlock(blocks);
        hide Flat, Sorted, AllParse, IndexFits, UserComparator.Successor, UserComparator.Valid;
        SuccessorFits(index, blocks, lastKey.value, comparator);
        index := index + [comparator.Successor(lastKey.value)];
        pending := false;
      }
    }

    method Finish() returns (t: Table)
      requires Valid()
      modifies this
      ensures t.Valid() && Flat(t.blocks) == old(All()) && t.blocks == old(blocks) + if old(data) == [] then [] else [old(data)]
      ensures Cut(old(blocks), old(data)) ==> forall i :: 0 <= i < |t.blocks| - 1 ==> FullAtLast(t.blocks[i])
    {
      hide Flat, Sorted, AllParse, IndexFits, Valid, FullAtLast;
      Flush();
      PutLast();
      t := Table(blocks, index);
      FullBlocksAscend(t);
    }
  }
}
