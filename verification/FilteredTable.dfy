/** A table with its filter block: what TableBuilder tells the filter (table/table_builder.cc) is what
    Table::InternalGet needs to hear from it (table/table.cc), so a lookup may trust a denial. */
module FilteredTable {
  import opened Keys
  import opened Coding
  import opened Reads
  import opened Versions
  import opened TableFormat
  import opened TableReader
  import opened Filters
  import FB = FilterBlock

  class FilteredTableBuilder {
    const table: TableBuilder
    const filter: FB.FilterBlockBuilder          // filter_block, through the policy that strips internal keys
    const nameOf: UserKey -> Bytes               // the user key's bytes
    const sizeOf: seq<Entry> -> nat              // bytes a block takes in the file
    var offset: nat                              // where the next block will start
    var offsets: seq<nat>                        // where the blocks start, the next one included

    constructor (comparator: UserComparator, estimate: seq<Entry> -> nat, blockSize: nat, policy: BloomPolicy,
                 nameOf: UserKey -> Bytes, sizeOf: seq<Entry> -> nat)
      requires comparator.Valid() && policy.Valid()
      ensures Valid() && table.All() == [] && fresh(table) && fresh(filter)
      ensures filter.policy == policy && this.nameOf == nameOf
    {
      table := new TableBuilder(comparator, estimate, blockSize);
      filter := new FB.FilterBlockBuilder(policy);
      this.nameOf, this.sizeOf := nameOf, sizeOf;
      offset, offsets := 0, [0];
    }

    // The filter was given e under the offset of its block.
    ghost predicate Given(e: Entry, block: nat)
      reads filter
    {
      FB.Added(block, nameOf(e.key.user)) in filter.added
    }

    ghost predicate Valid()
      reads this, table, filter
    {
      && table.Valid() && filter.Valid() && Follow(offsets, table.blocks) && offsets[|table.blocks|] == offset == filter.block
      && (forall i, e :: 0 <= i < |table.blocks| && e in table.blocks[i] ==> Given(e, offsets[i]))
      && (forall e :: e in table.data ==> Given(e, offset))
    }

    // Each block begins where the one before it ended.
    ghost predicate Follow(offsets: seq<nat>, blocks: seq<seq<Entry>>) {
      |offsets| == |blocks| + 1 && offsets[0] == 0 && forall i :: 0 <= i < |blocks| ==> offsets[i + 1] == offsets[i] + sizeOf(blocks[i])
    }

    method Add(e: Entry)
      requires Valid() && e.Parses() && e.key.sequence <= kMaxSequenceNumber
      requires table.lastKey.Some? ==> table.lastKey.value.Before(e.key)
      modifies this, table, filter
      ensures Valid() && table.All() == old(table.All()) + [e]
    {
      hide TableBuilder.Valid, TableBuilder.All, FB.FilterBlockBuilder.Valid;
      ghost var blocks, data := table.blocks, table.data;
      filter.AddKey(nameOf(e.key.user));
      table.Add(e);
      if table.data == [] {                        // the block was written
        offset := offset + sizeOf(table.blocks[|table.blocks| - 1]);
        offsets := offsets + [offset];
        filter.StartBlock(offset);
      }
    }

    // The index, the blocks and the filter block, with the offsets the block handles hold.
    method Finish() returns (t: Table, contents: Bytes, handles: seq<nat>)
      requires Valid()
      modifies this, table, filter
      ensures t.Valid() && Flat(t.blocks) == old(table.All()) && Follow(handles, t.blocks)
      ensures |contents| < TWO_TO_32 ==> FilterFits(t, contents, handles, filter.policy, nameOf)
    {
      hide TableBuilder.Valid, TableBuilder.All, FB.FilterBlockBuilder.Valid, Table.Valid, BloomPolicy.Valid, FB.FilterBlockReader.KeyMayMatch, FilterFits;
      PolicyValid(filter);
      LastBlockGiven();
      t := table.Finish();
      contents := filter.Finish();
      handles := offsets;
      if |contents| < TWO_TO_32 { AllAnswered(t, contents, handles); }
    }

    // The last Flush tells the filter where the block ended.
    method LastBlockGiven()
      requires Valid()
      modifies this, filter
      ensures filter.Valid()
      ensures var blocks := table.blocks + if table.data == [] then [] else [table.data];
              Follow(offsets, blocks) && filter.block == offsets[|blocks|] && forall i, e :: 0 <= i < |blocks| && e in blocks[i] ==> Given(e, offsets[i])
    {
      hide TableBuilder.Valid, TableBuilder.All, FB.FilterBlockBuilder.Valid;
      if table.data != [] {
        offset := offset + sizeOf(table.data);
        offsets := offsets + [offset];
        filter.StartBlock(offset);
      }
    }

    lemma AllAnswered(t: Table, contents: Bytes, handles: seq<nat>)
      requires filter.policy.Valid() && |handles| > |t.blocks|
      requires forall i, e :: 0 <= i < |t.blocks| && e in t.blocks[i] ==> Given(e, handles[i])
      requires forall a :: a in filter.added ==> FB.Open(contents).KeyMayMatch(filter.policy, a.block, a.key)
      ensures FilterFits(t, contents, handles, filter.policy, nameOf)
    {
      hide FB.FilterBlockReader.KeyMayMatch, FB.Open;
      forall i, e | 0 <= i < |t.blocks| && e in t.blocks[i]
        ensures FB.Open(contents).KeyMayMatch(filter.policy, handles[i], nameOf(e.key.user))
      {
        assert Given(e, handles[i]);
      }
    }
  }

  lemma PolicyValid(filter: FB.FilterBlockBuilder)
    requires filter.Valid()
    ensures filter.policy.Valid()
  {
  }

  // No entry of a block is denied at the block's offset.
  ghost predicate FilterFits(t: Table, contents: Bytes, handles: seq<nat>, policy: BloomPolicy, nameOf: UserKey -> Bytes) {
    && policy.Valid() && |handles| >= |t.blocks|
    && forall i, e :: 0 <= i < |t.blocks| && e in t.blocks[i] ==>
         FB.Open(contents).KeyMayMatch(policy, handles[i], nameOf(e.key.user))
  }

  // Table::InternalGet, asking the filter block before it reads a data block.
  method Get(t: Table, contents: Bytes, handles: seq<nat>, policy: BloomPolicy, nameOf: UserKey -> Bytes, user: UserKey, s: nat)
    returns (r: Option<Entry>)
    requires t.Valid() && FilterFits(t, contents, handles, policy, nameOf)
    ensures IsNewest(Elements(Flat(t.blocks)), user, s, r)
  {
    hide Table.Valid, FB.Open, FB.FilterBlockReader.KeyMayMatch, IsNewest, Flat;
    var reader := FB.Open(contents);
    var name := nameOf(user);
    r := InternalGet(t, user, s, (i: nat) => i < |handles| && reader.KeyMayMatch(policy, handles[i], name));
  }
}
