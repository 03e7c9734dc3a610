/** TwoLevelIterator (table/two_level_iterator.cc): an iterator over an index of blocks and an iterator
    over the current block make a cursor over all entries, empty blocks included. */
module TwoLevel {
  import opened Keys
  import opened Versions
  import opened Iterators
  import opened TableFormat
  import opened TableReader

  // The place of the first entry of block i.
  ghost function StartOf(blocks: seq<seq<Entry>>, i: nat): nat
    requires i <= |blocks|
  {
    |Flat(blocks[..i])|
  }

  lemma NextStart(blocks: seq<seq<Entry>>, i: nat)
    requires i < |blocks|
    ensures StartOf(blocks, i + 1) == StartOf(blocks, i) + |blocks[i]| <= |Flat(blocks)|
  {
    assert blocks[..i + 1][..i] == blocks[..i];
    FlatAround(blocks, i);
  }

  lemma AllStart(blocks: seq<seq<Entry>>)
    ensures StartOf(blocks, |blocks|) == |Flat(blocks)| && StartOf(blocks, 0) == 0
  {
    assert blocks[..|blocks|] == blocks && blocks[..0] == [];
  }

  lemma EntryAt(blocks: seq<seq<Entry>>, i: nat, j: nat)
    requires i < |blocks| && j < |blocks[i]|
    ensures StartOf(blocks, i) + j < |Flat(blocks)| && Flat(blocks)[StartOf(blocks, i) + j] == blocks[i][j]
  {
    FlatAround(blocks, i);
  }

  class TwoLevelIterator {
    ghost const table: Table
    const blockReader: nat -> seq<Entry>         // block_function_
    const index: Cursor                          // index_iter_
    var data: Cursor?                            // data_iter_
    var handle: Option<nat>                      // data_block_handle_

    constructor (ghost table: Table, entries: seq<Entry>, blockReader: nat -> seq<Entry>)
      requires table.Valid() && entries == IndexEntries(table)
      requires forall i :: 0 <= i < |table.blocks| ==> blockReader(i) == table.blocks[i]
      ensures Stands() && Pos() == |Flat(table.blocks)| && this.table == table && fresh(index)
    {
      this.table, this.blockReader := table, blockReader;
      index := new Cursor(entries);
      data, handle := null, None;
    }

    // The block iterator, if there is one, is over the block of `handle`.
    ghost predicate Loaded()
      reads this, data
    {
      && table.Valid() && |table.index| == |table.blocks| && index.entries == IndexEntries(table)
      && (forall i :: 0 <= i < |table.blocks| ==> blockReader(i) == table.blocks[i])
      && data != index
      && (data != null ==> handle.Some? && handle.value < |table.blocks| && data.entries == table.blocks[handle.value])
    }

    // Between calls: not valid, or at an entry of the block the index stands at.
    ghost predicate Stands()
      reads this, data, index
    {
      Loaded() && (data != null ==> handle == Some(index.pos) && data.Valid())
    }

    ghost function Pos(): (p: nat)
      reads this, data, index
      requires Stands()
      ensures p <= |Flat(table.blocks)|
    {
      if data == null then |Flat(table.blocks)|
      else
        EntryAt(table.blocks, index.pos, data.pos);
        StartOf(table.blocks, index.pos) + data.pos
    }

    function Current(): Entry
      reads this, data, index
      requires Stands() && data != null
    {
      data.entries[data.pos]
    }

    lemma CurrentIs()
      requires Stands() && data != null
      ensures Pos() < |Flat(table.blocks)| && Current() == Flat(table.blocks)[Pos()]
    {
      hide StartOf, Flat;
      EntryAt(table.blocks, index.pos, data.pos);
    }

    method InitDataBlock()
      requires Loaded()
      modifies this
      ensures Loaded() && (data == null <==> index.pos >= |table.blocks|)
      ensures data != null ==> handle == Some(index.pos) && (data == old(data) || fresh(data))
    {
      if !index.Valid() {
        data := null;
      } else if data != null && handle == Some(index.pos) {
        // the block is already loaded
      } else {
        var it := new Cursor(blockReader(index.pos));
        handle := Some(index.pos);
        data := it;
      }
    }

    // Heading forward to place p: the block iterator may have run off the end of its block.
    ghost predicate Ahead(p: nat)
      reads this, data, index
    {
      && Loaded() && index.pos <= |table.blocks| && (data == null <==> index.pos == |table.blocks|)
      && (data != null ==> handle == Some(index.pos) && data.pos <= |data.entries|)
      && p == StartOf(table.blocks, index.pos) + if data == null then 0 else data.pos
    }

    // Heading back to place p: off the front of its block, p is the place before that block.
    ghost predicate Behind(p: int)
      reads this, data, index
    {
      && Loaded() && index.pos <= |table.blocks| && (data == null <==> index.pos == |table.blocks|)
      && (data != null ==> handle == Some(index.pos) && data.pos <= |data.entries|)
      && (data != null ==> p == if data.pos < |data.entries| then StartOf(table.blocks, index.pos) + data.pos else StartOf(table.blocks, index.pos) - 1)
      && (data == null ==> p == -1)
    }

    method NextBlock(ghost p: nat)
      requires Ahead(p) && data != null && !data.Valid()
      modifies this, index, data
      ensures Ahead(p) && index.pos == old(index.pos) + 1 && (data == null || data == old(data) || fresh(data))
    {
      hide Table.Valid, IndexEntries, Sorted, StartOf, Flat;
      NextStart(table.blocks, index.pos);
      index.Next();
      InitDataBlock();
      if data != null { data.SeekToFirst(); }
    }

    method PreviousBlock(ghost p: int)
      requires Behind(p) && data != null && !data.Valid()
      modifies this, index, data
      ensures Behind(p) && (data == null || data == old(data) || fresh(data))
      ensures if old(index.pos) == 0 then data == null else data != null && index.pos == old(index.pos) - 1
    {
      hide Table.Valid, IndexEntries, Sorted, StartOf, Flat;
      AllStart(table.blocks);
      if index.pos > 0 { NextStart(table.blocks, index.pos - 1); }
      index.Prev();
      InitDataBlock();
      if data != null { data.SeekToLast(); }
    }

    method SkipEmptyDataBlocksForward(ghost p: nat)
      requires Ahead(p)
      modifies this, index, data
      ensures Stands() && Pos() == p && (data == null || data == old(data) || fresh(data))
    {
      while data == null || !data.Valid()
        invariant Ahead(p) && (data == null || data == old(data) || fresh(data))
        decreases |table.blocks| - index.pos
      {
        if !index.Valid() {
          AllStart(table.blocks);
          data := null;
          return;
        }
        NextBlock(p);
      }
    }

    method SkipEmptyDataBlocksBackward(ghost p: int)
      requires Behind(p)
      modifies this, index, data
      ensures Stands() && Pos() == (if p < 0 then |Flat(table.blocks)| else p) && (data == null || data == old(data) || fresh(data))
    {
      while data == null || !data.Valid()
        invariant Behind(p) && (data == null || data == old(data) || fresh(data))
        decreases if data == null then 0 else index.pos + 1
      {
        if !index.Valid() {
          data := null;
          return;
        }
        PreviousBlock(p);
      }
    }

    method SeekToFirst()
      requires Stands()
      modifies this, index, data
      ensures Stands() && Pos() == 0
    {
      index.SeekToFirst();
      InitDataBlock();
      if data != null { data.SeekToFirst(); }
      AllStart(table.blocks);
      SkipEmptyDataBlocksForward(0);
    }

    method SeekToLast()
      requires Stands()
      modifies this, index, data
      ensures Stands() && Pos() == if Flat(table.blocks) == [] then 0 else |Flat(table.blocks)| - 1
    {
      hide Flat, IndexFits, StartOf, Sorted, AllParse, KeyFits;
      var n := |index.entries|;
      index.SeekToLast();
      InitDataBlock();
      if data != null { data.SeekToLast(); }
      AllStart(table.blocks);
      if n > 0 { NextStart(table.blocks, n - 1); }
      SkipEmptyDataBlocksBackward(|Flat(table.blocks)| - 1);
    }

    method Next()
      requires Stands() && data != null
      modifies this, index, data
      ensures Stands() && Pos() == old(Pos()) + 1
    {
      ghost var p := Pos();
      data.Next();
      SkipEmptyDataBlocksForward(p + 1);
    }

    method Prev()
      requires Stands() && data != null
      modifies this, index, data
      ensures Stands() && Pos() == if old(Pos()) == 0 then |Flat(table.blocks)| else old(Pos()) - 1
    {
      ghost var p: int := Pos();
      data.Prev();
      SkipEmptyDataBlocksBackward(p - 1);
    }

    method Seek(k: InternalKey)
      requires Stands()
      modifies this, index, data
      ensures Stands() && IsLowerBound(Flat(table.blocks), k, Pos())
    {
      hide Flat, IndexFits, StartOf, Sorted, AllParse, KeyFits, IndexEntries;
      index.Seek(k);
      IndexBounds(table, k, index.pos);
      InitDataBlock();
      if data != null {
        BlockParts(table, index.pos);
        data.Seek(k);
      }
      AllStart(table.blocks);
      ghost var p := StartOf(table.blocks, index.pos) + if data == null then 0 else data.pos;
      SeekPlace(table, k, index.pos, if data == null then 0 else data.pos);
      SkipEmptyDataBlocksForward(p);
    }
  }

  // Where the two seeks lead in the concatenation.
  lemma SeekPlace(t: Table, k: InternalKey, i: nat, j: nat)
    requires t.Valid() && i <= |t.blocks| && (forall x :: 0 <= x < i ==> t.index[x].Before(k)) && (i < |t.blocks| ==> !t.index[i].Before(k))
    requires if i < |t.blocks| then IsLowerBound(t.blocks[i], k, j) else j == 0
    ensures IsLowerBound(Flat(t.blocks), k, StartOf(t.blocks, i) + j)
  {
    var head := Flat(t.blocks[..i]);
    forall x | 0 <= x < |head| ensures head[x].key.Before(k) {
      assert head[x] in head;
      EarlierBlocks(t, k, i, head[x]);
    }
    if i < |t.blocks| {
      FlatAround(t.blocks, i);
      BlockParts(t, i);
      PlaceInParts(head, t.blocks[i], Flat(t.blocks[i + 1..]), k, t.index[i], j);
    } else {
      assert t.blocks[..i] == t.blocks;
    }
  }

  lemma PlaceInParts(head: seq<Entry>, block: seq<Entry>, later: seq<Entry>, k: InternalKey, index: InternalKey, j: nat)
    requires (forall x :: 0 <= x < |head| ==> head[x].key.Before(k)) && IsLowerBound(block, k, j)
    requires !index.Before(k) && forall e :: e in later ==> index.Before(e.key)
    ensures IsLowerBound(head + block + later, k, |head| + j)
  {
    forall x | |head| + |block| <= x < |head + block + later| ensures !(head + block + later)[x].key.Before(k) {
      assert (head + block + later)[x] == later[x - |head| - |block|];
      assert later[x - |head| - |block|] in later;
    }
  }
}
