/** Table::InternalGet (table/table.cc) and the two-level iterator (table/two_level_iterator.cc): a
    cursor over the concatenated blocks. */
module TableReader {
  import opened Keys
  import opened Reads
  import opened Versions
  import opened TableFormat

  // ----- point lookup -----

  // Entries of the blocks before one whose index key is before k are before k.
  lemma EarlierBlocks(t: Table, k: InternalKey, i: nat, e: Entry)
    requires t.Valid() && i <= |t.index| && (forall j :: 0 <= j < i ==> t.index[j].Before(k)) && e in Flat(t.blocks[..i])
    ensures e.key.Before(k)
  {
    var j := BlockOf(t.blocks[..i], e);
    assert KeyFits(t.index[j], t.blocks[j], Flat(t.blocks[j + 1..]) + []);
  }

  lemma {:induction false} BlockOf(blocks: seq<seq<Entry>>, e: Entry) returns (j: nat)
    requires e in Flat(blocks)
    ensures j < |blocks| && e in blocks[j]
  {
    var n := |blocks| - 1;
    if e in blocks[n] { j := n; } else { j := BlockOf(blocks[..n], e); }
  }

  // Past the last index key there is nothing.
  lemma NothingFound(t: Table, user: UserKey, s: nat)
    requires t.Valid() && forall j :: 0 <= j < |t.index| ==> t.index[j].Before(SeekKey(user, s))
    ensures IsNewest(Elements(Flat(t.blocks)), user, s, None)
  {
    assert t.blocks[..|t.index|] == t.blocks;
    forall e | e in Elements(Flat(t.blocks)) ensures !Candidate(e, user, s) {
      EarlierBlocks(t, SeekKey(user, s), |t.index|, e);
    }
  }

  // One block decides: earlier blocks end before the key, later ones hold older entries for the user
  // key or none at all.
  lemma OneBlockDecides(t: Table, user: UserKey, s: nat, i: nat, j: nat)
    requires t.Valid() && i < |t.index| && (forall x :: 0 <= x < i ==> t.index[x].Before(SeekKey(user, s)))
    requires !t.index[i].Before(SeekKey(user, s)) && IsLowerBound(t.blocks[i], SeekKey(user, s), j)
    ensures IsNewest(Elements(Flat(t.blocks)), user, s, Matching(t.blocks[i], j, user))
  {
    var all, block, later := Flat(t.blocks), t.blocks[i], Flat(t.blocks[i + 1..]);
    var r := Matching(block, j, user);
    FlatAround(t.blocks, i);
    BlockParts(t, i);
    SeekFindsNewest(block, user, s, j);
    forall e | e in all && Candidate(e, user, s) ensures r.Some? && e.key.Tag() <= r.value.key.Tag() {
      if e in Flat(t.blocks[..i]) {
        EarlierBlocks(t, SeekKey(user, s), i, e);
      } else if e in block {
        assert e in Elements(block);
      } else {
        LaterIsOlder(t, user, s, i, j, e);
      }
    }
    if r.Some? { assert r.value in block; }
  }

  lemma LaterIsOlder(t: Table, user: UserKey, s: nat, i: nat, j: nat, e: Entry)
    requires t.Valid() && i < |t.index| && !t.index[i].Before(SeekKey(user, s)) && IsLowerBound(t.blocks[i], SeekKey(user, s), j)
    requires e in Flat(t.blocks[i + 1..]) && Candidate(e, user, s)
    ensures var r := Matching(t.blocks[i], j, user); r.Some? && e.key.Tag() <= r.value.key.Tag()
  {
    var block := t.blocks[i];
    BlockParts(t, i);
    if j < |block| {
      assert block[j] in block && block[j].key.Before(e.key) && !block[j].key.Before(SeekKey(user, s));
    }
  }

  // Index seek, filter, block seek.
  method InternalGet(t: Table, user: UserKey, s: nat, mayMatch: nat -> bool) returns (r: Option<Entry>)
    requires t.Valid()
    requires forall i, e :: 0 <= i < |t.blocks| && e in t.blocks[i] && e.key.user == user ==> mayMatch(i)
    ensures IsNewest(Elements(Flat(t.blocks)), user, s, r)
  {
    IndexSorted(t);
    var i := TableSeek(IndexEntries(t), SeekKey(user, s));
    IndexBounds(t, SeekKey(user, s), i);
    if i == |t.index| {
      NothingFound(t, user, s);
      return None;
    }
    BlockParts(t, i);
    if !mayMatch(i) {
      ghost var j := LowerBoundOf(t.blocks[i], SeekKey(user, s));
      OneBlockDecides(t, user, s, i, j);
      NotThere(t.blocks[i], j, user);
      return None;
    }
    var j := TableSeek(t.blocks[i], SeekKey(user, s));
    OneBlockDecides(t, user, s, i, j);
    r := Matching(t.blocks[i], j, user);
  }

  lemma NotThere(block: seq<Entry>, j: nat, user: UserKey)
    requires j <= |block|
    ensures (forall e :: e in block ==> e.key.user != user) ==> Matching(block, j, user) == None
  {
  }

  // The index block: one entry per data block.  Its value, the block's handle, is the block's number.
  function IndexEntries(t: Table): (r: seq<Entry>)
    ensures |r| == |t.index| && forall i :: 0 <= i < |r| ==> r[i].key == t.index[i]
  {
    seq(|t.index|, i requires 0 <= i < |t.index| => Entry(t.index[i], []))
  }

  lemma IndexBounds(t: Table, k: InternalKey, i: nat)
    requires IsLowerBound(IndexEntries(t), k, i)
    ensures i <= |t.index| && (forall j :: 0 <= j < i ==> t.index[j].Before(k)) && (i < |t.index| ==> !t.index[i].Before(k))
  {
    assert forall j :: 0 <= j < |t.index| ==> IndexEntries(t)[j].key == t.index[j];
  }

  lemma IndexSorted(t: Table)
    requires t.Valid()
    ensures Sorted(IndexEntries(t))
  {
  }
}
