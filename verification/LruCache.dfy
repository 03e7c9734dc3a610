/** One shard of the cache (LRUCache of util/cache.cc): reference counts, the LRU and in-use lists, the
    charge, eviction and deletion. */
module LruCache {
  import opened Keys
  import opened LruList
  import opened HandleTable

  ghost function Without(nodes: seq<Handle>, i: nat): seq<Handle>
    requires i < |nodes|
  {
    nodes[..i] + nodes[i + 1..]
  }

  lemma WithoutElements(nodes: seq<Handle>, i: nat)
    requires NoRepeats(nodes) && i < |nodes|
    ensures forall h :: h in Without(nodes, i) <==> h in nodes && h != nodes[i]
  {
    var r := Without(nodes, i);
    forall k | 0 <= k < |nodes| && k != i ensures nodes[k] in r { assert r[if k < i then k else k - 1] == nodes[k]; }
    forall h | h in r ensures h in nodes && h != nodes[i] {
      var k :| 0 <= k < |r| && r[k] == h;
      assert h == nodes[if k < i then k else k + 1];
    }
  }

  ghost predicate IsWithout(before: seq<Handle>, after: seq<Handle>, e: Handle) {
    exists i :: 0 <= i < |before| && before[i] == e && after == Without(before, i)
  }

  // The oldest entries of the LRU list went, in order, and were deleted in that order.
  ghost predicate Evicted(before: seq<Handle>, after: seq<Handle>, freedBefore: seq<Handle>, freed: seq<Handle>) {
    exists n :: 0 <= n <= |before| && after == before[n..] && freed == freedBefore + before[..n]
  }

  // At most one entry, an unused one with this key, left the LRU list and was deleted.
  ghost predicate Replaced(before: seq<Handle>, after: seq<Handle>, freedBefore: seq<Handle>, freed: seq<Handle>, key: Bytes, hash: nat) {
    || (after == before && freed == freedBefore)
    || exists i :: 0 <= i < |before| && Same(before[i], key, hash) && after == Without(before, i) && freed == freedBefore + [before[i]]
  }

  // Insertion: an unused entry with the key went first, if there was one, and then the oldest others in turn.
  ghost predicate MadeRoom(before: seq<Handle>, after: seq<Handle>, freedBefore: seq<Handle>, freed: seq<Handle>, key: Bytes, hash: nat) {
    || Evicted(before, after, freedBefore, freed)
    || exists i :: 0 <= i < |before| && Same(before[i], key, hash) && Evicted(Without(before, i), after, freedBefore + [before[i]], freed)
  }

  lemma RoomMade(before: seq<Handle>, rest: seq<Handle>, after: seq<Handle>, freedBefore: seq<Handle>, freedThen: seq<Handle>, freed: seq<Handle>,
                 key: Bytes, hash: nat)
    requires Replaced(before, rest, freedBefore, freedThen, key, hash) && Evicted(rest, after, freedThen, freed)
    ensures MadeRoom(before, after, freedBefore, freed, key, hash)
    ensures freedThen == freedBefore || (freedThen != [] && Same(freedThen[|freedThen| - 1], key, hash))
  {
    hide Evicted, Same;
  }

  lemma NoRoomMade(nodes: seq<Handle>, freed: seq<Handle>, key: Bytes, hash: nat)
    ensures MadeRoom(nodes, nodes, freed, freed, key, hash)
  {
    assert nodes == nodes[0..] && freed == freed + nodes[..0];
  }

  lemma WasReplaced(before: seq<Handle>, after: seq<Handle>, freedBefore: seq<Handle>, freed: seq<Handle>, was: Handle?, key: Bytes, hash: nat)
    requires was != null && was in before ==> Same(was, key, hash) && IsWithout(before, after, was) && freed == freedBefore + [was]
    requires was == null || was !in before ==> after == before && freed == freedBefore
    ensures Replaced(before, after, freedBefore, freed, key, hash)
  {
  }

  lemma OneEvicted(before: seq<Handle>, now: seq<Handle>, freedBefore: seq<Handle>, freed: seq<Handle>)
    requires Evicted(before, now, freedBefore, freed)
    ensures now != [] ==> Evicted(before, now[1..], freedBefore, freed + [now[0]])
    ensures forall h :: h in now ==> h in before
  {
    var n :| 0 <= n <= |before| && now == before[n..] && freed == freedBefore + before[..n];
    if now != [] {
      assert before[..n + 1] == before[..n] + [before[n]];
      assert now[1..] == before[n + 1..] && freed + [now[0]] == freedBefore + before[..n + 1];
    }
  }

  class LRUCache {
    const capacity: nat                          // capacity_
    const lru: Handle                            // dummy head of the LRU list
    const inUse: Handle                          // dummy head of the in-use list
    const table: HandleTable
    var usage: nat                               // usage_
    ghost var lruNodes: seq<Handle>              // oldest first
    ghost var useNodes: seq<Handle>
    ghost var live: set<Handle>                  // entries not yet deleted
    ghost var clients: map<Handle, nat>          // handles given out and not yet released
    ghost var freed: seq<Handle>                 // deleted entries, in order

    // Both lists are rings of live entries, and share none.
    ghost predicate Rings()
      reads this`live, this`lruNodes, this`useNodes, live`next, live`prev, lru`next, lru`prev, inUse`next, inUse`prev
    {
      && lru != inUse && lru !in live && inUse !in live
      && Ring(NextOf(live + {lru, inUse}), PrevOf(live + {lru, inUse}), lru, lruNodes)
      && Ring(NextOf(live + {lru, inUse}), PrevOf(live + {lru, inUse}), inUse, useNodes)
      && (forall h :: h in lruNodes ==> h in live && h !in useNodes)
      && (forall h :: h in useNodes ==> h in live)
    }

    // One entry: in-cache entries with one reference are on the LRU list, those with more on the
    // in-use list; the references are the clients' and the cache's own.
    ghost predicate Fits(h: Handle)
      reads this`clients, this`lruNodes, this`useNodes, h`refs, h`inCache
    {
      && h in clients && h.refs == clients[h] + (if h.inCache then 1 else 0) && h.refs > 0
      && (h in lruNodes <==> h.inCache && h.refs == 1)
      && (h in useNodes <==> h.inCache && h.refs >= 2)
    }

    // All but the hash table, which may just have let go of `gone`.
    ghost predicate Lists()
      reads this, live`next, live`prev, live`refs, live`inCache, lru`next, lru`prev, inUse`next, inUse`prev
    {
      && Rings() && clients.Keys == live && (forall h :: h in live ==> Fits(h))
      && usage == SumCharges(lruNodes) + SumCharges(useNodes)
      && (forall h :: h in freed ==> h !in live)
    }

    ghost predicate Tabled(gone: Handle?)
      reads this`live, table, table.members`nextHash, live`inCache
    {
      && table.Valid() && table.members <= live
      && forall h :: h in live ==> (h in table.members <==> h.inCache && h != gone)
    }

    ghost predicate Valid()
      reads this, table, table.members`nextHash, live, lru, inUse
    {
      Lists() && Tabled(null) && (capacity == 0 ==> table.members == {})
    }

    constructor (capacity: nat)
      ensures Valid() && this.capacity == capacity && live == {} && freed == [] && fresh(lru) && fresh(inUse) && fresh(table)
    {
      this.capacity, usage := capacity, 0;
      var head := new Handle([], 0, [], 0);
      var head2 := new Handle([], 0, [], 0);
      lru, inUse := head, head2;
      table := new HandleTable();
      lruNodes, useNodes, live, clients, freed := [], [], {}, map[], [];
      new;
      lru.next, lru.prev := lru, lru;
      inUse.next, inUse.prev := inUse, inUse;
    }

    // LRU_Remove: the neighbours point past e.
    method Unlink(e: Handle, ghost a: Handle, ghost b: Handle)
      requires e in live && a in live + {lru, inUse} && b in live + {lru, inUse}
      requires Link(NextOf(live + {lru, inUse}), PrevOf(live + {lru, inUse}), a, e)
      requires Link(NextOf(live + {lru, inUse}), PrevOf(live + {lru, inUse}), e, b)
      modifies a`next, b`prev
      ensures NextOf(live + {lru, inUse}) == old(NextOf(live + {lru, inUse}))[a := b]
      ensures PrevOf(live + {lru, inUse}) == old(PrevOf(live + {lru, inUse}))[b := a]
    {
      e.next.prev := e.prev;
      e.prev.next := e.next;
    }

    // Take e, number i of its list, off that list.
    method Detach(e: Handle, ghost fromLru: bool, ghost i: nat)
      requires Rings() && e in live
      requires if fromLru then i < |lruNodes| && lruNodes[i] == e else i < |useNodes| && useNodes[i] == e
      modifies this`lruNodes, this`useNodes, live`next, live`prev, lru`next, lru`prev, inUse`next, inUse`prev
      ensures Rings()
      ensures lruNodes == if fromLru then Without(old(lruNodes), i) else old(lruNodes)
      ensures useNodes == if fromLru then old(useNodes) else Without(old(useNodes), i)
    {
      hide Ring, NextOf, PrevOf, Link, LruList.At;
      ghost var next, prev := NextOf(live + {lru, inUse}), PrevOf(live + {lru, inUse});
      ghost var head: Handle, nodes := if fromLru then lru else inUse, if fromLru then lruNodes else useNodes;
      ghost var a: Handle, b: Handle := LruList.At(head, nodes, i), LruList.At(head, nodes, i + 2);
      RingRemoval(next, prev, head, nodes, i, if fromLru then inUse else lru, if fromLru then useNodes else lruNodes);
      RingOnce(next, prev, head, nodes);
      WithoutElements(nodes, i);
      ghost var rest := Without(nodes, i);
      Unlink(e, a, b);
      if fromLru {
        lruNodes := rest;
      } else {
        useNodes := rest;
      }
    }

    // LRU_Append: between the newest node and the head of the list.
    method Link4(list: Handle, e: Handle, ghost last: Handle)
      requires e in live && list in {lru, inUse} && last in live + {lru, inUse} && e != last && e != list
      requires Link(NextOf(live + {lru, inUse}), PrevOf(live + {lru, inUse}), last, list)
      modifies e`next, e`prev, last`next, list`prev
      ensures NextOf(live + {lru, inUse}) == old(NextOf(live + {lru, inUse}))[e := list][last := e]
      ensures PrevOf(live + {lru, inUse}) == old(PrevOf(live + {lru, inUse}))[e := last][list := e]
    {
      e.next := list;
      e.prev := list.prev;
      e.prev.next := e;
      e.next.prev := e;
    }

    // Make e the newest node of a list.
    method Append(e: Handle, toLru: bool)
      requires Rings() && e in live && e !in lruNodes && e !in useNodes
      modifies this`lruNodes, this`useNodes, live`next, live`prev, lru`next, lru`prev, inUse`next, inUse`prev
      ensures Rings()
      ensures lruNodes == if toLru then old(lruNodes) + [e] else old(lruNodes)
      ensures useNodes == if toLru then old(useNodes) else old(useNodes) + [e]
    {
      hide Ring, NextOf, PrevOf, Link, LruList.At;
      var list: Handle := if toLru then lru else inUse;
      ghost var next, prev := NextOf(live + {lru, inUse}), PrevOf(live + {lru, inUse});
      ghost var nodes := if toLru then lruNodes else useNodes;
      ghost var last: Handle := LruList.At(list, nodes, |nodes|);
      RingAppend(next, prev, list, nodes, e, if toLru then inUse else lru, if toLru then useNodes else lruNodes);
      Link4(list, e, last);
      if toLru { lruNodes := lruNodes + [e]; } else { useNodes := useNodes + [e]; }
    }

    // Where an entry stands on a list.
    lemma PlaceOf(nodes: seq<Handle>, e: Handle) returns (i: nat)
      requires e in nodes
      ensures i < |nodes| && nodes[i] == e
    {
      i :| 0 <= i < |nodes| && nodes[i] == e;
    }

    // Move e from one list to the newest end of the other.
    method Move(e: Handle, toLru: bool)
      requires Rings() && e in live && (if toLru then e in useNodes else e in lruNodes)
      modifies this`lruNodes, this`useNodes, live`next, live`prev, lru`next, lru`prev, inUse`next, inUse`prev
      ensures Rings() && SumCharges(lruNodes) + SumCharges(useNodes) == SumCharges(old(lruNodes)) + SumCharges(old(useNodes))
      ensures forall h :: h in lruNodes <==> if toLru then h in old(lruNodes) || h == e else h in old(lruNodes) && h != e
      ensures forall h :: h in useNodes <==> if toLru then h in old(useNodes) && h != e else h in old(useNodes) || h == e
      ensures toLru ==> lruNodes == old(lruNodes) + [e]
    {
      hide Rings, SumCharges;
      ghost var i := PlaceOf(if toLru then useNodes else lruNodes, e);
      MoveFacts(e, !toLru, i);
      Detach(e, !toLru, i);
      Append(e, toLru);
    }

    // Ref, for a handle about to be given to a client.
    method Ref(e: Handle)
      requires Lists() && e in live
      modifies this`lruNodes, this`useNodes, this`clients, e`refs, live`next, live`prev, lru`next, lru`prev, inUse`next, inUse`prev
      ensures Lists() && clients == old(clients)[e := old(clients)[e] + 1]
    {
      hide Rings, SumCharges;
      if e.refs == 1 && e.inCache { Move(e, false); }   // from the LRU list to the in-use list
      e.refs := e.refs + 1;
      clients := clients[e := clients[e] + 1];
    }

    method Deallocate(e: Handle)
      requires Rings() && e in live && e !in lruNodes && e !in useNodes
      modifies this`live, this`clients, this`freed
      ensures Rings() && live == old(live) - {e} && clients == old(clients) - {e} && freed == old(freed) + [e]
    {
      hide Ring;
      RingsWithout(e);
      live, clients, freed := live - {e}, clients - {e}, freed + [e];
    }

    // A list without some live entry stays as it is when that entry is deleted.
    lemma RingsWithout(e: Handle)
      requires Rings() && e in live && e !in lruNodes && e !in useNodes
      ensures Ring(NextOf(live - {e} + {lru, inUse}), PrevOf(live - {e} + {lru, inUse}), lru, lruNodes)
      ensures Ring(NextOf(live - {e} + {lru, inUse}), PrevOf(live - {e} + {lru, inUse}), inUse, useNodes)
    {
      RingSame(NextOf(live + {lru, inUse}), PrevOf(live + {lru, inUse}), NextOf(live - {e} + {lru, inUse}), PrevOf(live - {e} + {lru, inUse}), lru, lruNodes);
      RingSame(NextOf(live + {lru, inUse}), PrevOf(live + {lru, inUse}), NextOf(live - {e} + {lru, inUse}), PrevOf(live - {e} + {lru, inUse}), inUse, useNodes);
    }

    // All but the hash table, when e has lost a reference that `Fits` still counts.
    ghost predicate Dropping(e: Handle)
      reads this, live`next, live`prev, live`refs, live`inCache, lru`next, lru`prev, inUse`next, inUse`prev, e`refs, e`inCache
    {
      && Rings() && clients.Keys == live && e in live && (forall h :: h in live && h != e ==> Fits(h))
      && e.refs == clients[e] + (if e.inCache then 1 else 0) + 1
      && (e in lruNodes <==> e.inCache && e.refs == 1) && (e in useNodes <==> e.inCache && e.refs >= 2)
      && usage == SumCharges(lruNodes) + SumCharges(useNodes)
      && (forall h :: h in freed ==> h !in live)
    }

    // Unref: the entry is deleted with its last reference, and only then.
    method Unref(e: Handle)
      requires Dropping(e)
      modifies this`lruNodes, this`useNodes, this`live, this`clients, this`freed, e`refs, live`next, live`prev, lru`next, lru`prev, inUse`next, inUse`prev
      ensures Lists()
      ensures old(e.refs) == 1 ==> live == old(live) - {e} && freed == old(freed) + [e] && clients == old(clients) - {e}
      ensures old(e.refs) > 1 ==> live == old(live) && freed == old(freed) && clients == old(clients) && e.refs == old(e.refs) - 1
      ensures old(e.refs) == 2 && e.inCache ==> lruNodes == old(lruNodes) + [e]
      ensures !(old(e.refs) == 2 && e.inCache) ==> lruNodes == old(lruNodes) && useNodes == old(useNodes)
    {
      hide SumCharges, Rings;
      e.refs := e.refs - 1;
      if e.refs == 0 {
        Deallocate(e);
      } else if e.inCache && e.refs == 1 {         // no longer in use
        Move(e, true);
      }
    }

    // FinishErase: e has already left the hash table.
    method FinishErase(e: Handle?) returns (erased: bool)
      requires Lists() && Tabled(e) && (e != null ==> e in live && e.inCache && e !in table.members)
      modifies this`lruNodes, this`useNodes, this`live, this`clients, this`freed, this`usage, live`refs, live`inCache,
               live`next, live`prev, lru`next, lru`prev, inUse`next, inUse`prev
      ensures Lists() && Tabled(null) && table.members == old(table.members) && erased == (e != null)
      ensures e == null ==> lruNodes == old(lruNodes) && useNodes == old(useNodes) && usage == old(usage) && live == old(live)
                            && freed == old(freed) && clients == old(clients)
      ensures e != null ==> usage + e.charge == old(usage)
      ensures e != null && e in old(lruNodes) ==>
                && live == old(live) - {e} && clients == old(clients) - {e} && freed == old(freed) + [e]
                && IsWithout(old(lruNodes), lruNodes, e)
      ensures e != null && e !in old(lruNodes) ==> live == old(live) && clients == old(clients) && freed == old(freed) && lruNodes == old(lruNodes)
    {
      hide Lists, Dropping, IsWithout, HandleTable.Valid;
      erased := e != null;
      if e == null { return; }
      LeaveList(e);
      Unref(e);
    }

    // e leaves its list and the cache; its reference is still to be dropped.
    method LeaveList(e: Handle)
      requires Lists() && Tabled(e) && e in live && e.inCache && e !in table.members
      modifies this`lruNodes, this`useNodes, this`usage, e`inCache, live`next, live`prev, lru`next, lru`prev, inUse`next, inUse`prev
      ensures Dropping(e) && Tabled(null) && !e.inCache && usage + e.charge == old(usage) && e.refs == old(e.refs)
      ensures e.refs >= 1 && (e.refs == 1 <==> e in old(lruNodes))
      ensures e in old(lruNodes) ==> IsWithout(old(lruNodes), lruNodes, e)
      ensures e !in old(lruNodes) ==> lruNodes == old(lruNodes)
    {
      hide Rings, SumCharges, HandleTable.Valid;
      ghost var fromLru := e in lruNodes;
      assert Fits(e);
      ghost var i := PlaceOf(if fromLru then lruNodes else useNodes, e);
      LeaveFacts(e, fromLru, i);
      Detach(e, fromLru, i);
      e.inCache := false;
      usage := usage - e.charge;
    }

    lemma StillTabled()
      requires Lists()
      ensures clients.Keys == live
    {
    }

    lemma LeaveFacts(e: Handle, fromLru: bool, i: nat)
      requires Rings()
      requires if fromLru then i < |lruNodes| && lruNodes[i] == e else i < |useNodes| && useNodes[i] == e
      ensures fromLru ==> (forall h :: h in Without(lruNodes, i) <==> h in lruNodes && h != e) && e !in useNodes
      ensures !fromLru ==> (forall h :: h in Without(useNodes, i) <==> h in useNodes && h != e) && e !in lruNodes
      ensures fromLru ==> SumCharges(Without(lruNodes, i)) + e.charge == SumCharges(lruNodes)
      ensures !fromLru ==> SumCharges(Without(useNodes, i)) + e.charge == SumCharges(useNodes)
    {
      MoveFacts(e, fromLru, i);
    }

    method Lookup(key: Bytes, hash: nat) returns (e: Handle?)
      requires Valid()
      modifies this`lruNodes, this`useNodes, this`clients, live`refs, live`next, live`prev, lru`next, lru`prev, inUse`next, inUse`prev
      ensures Valid() && table.members == old(table.members)
      ensures e == null ==> clients == old(clients) && forall h :: h in table.members ==> !Same(h, key, hash)
      ensures e != null ==> e in table.members && Same(e, key, hash) && e in old(clients) && clients == old(clients)[e := old(clients)[e] + 1]
    {
      hide Lists, HandleTable.Valid;
      e := table.Lookup(key, hash);
      StillTabled();
      if e != null { Ref(e); }
    }

    // A client gives back a handle.
    method Release(e: Handle)
      requires Valid() && e in live && clients[e] > 0
      modifies this`lruNodes, this`useNodes, this`live, this`clients, this`freed, live`refs, live`next, live`prev, lru`next, lru`prev, inUse`next, inUse`prev
      ensures Valid() && table.members == old(table.members)
      ensures old(e.refs) == 1 ==> live == old(live) - {e} && freed == old(freed) + [e]
      ensures old(e.refs) > 1 ==> live == old(live) && freed == old(freed) && clients == old(clients)[e := old(clients)[e] - 1]
    {
      hide Rings, SumCharges, HandleTable.Valid;
      clients := clients[e := clients[e] - 1];
      Unref(e);
    }

    // lru_.next is the oldest unused entry, or lru_ itself.
    lemma OldestIs()
      requires Lists()
      ensures lru.next != null && (lru.next == lru <==> lruNodes == [])
      ensures lruNodes != [] ==> lru.next == lruNodes[0] && lruNodes[0] in live && lruNodes[0].inCache && lruNodes[0].refs == 1
    {
      assert Link(NextOf(live + {lru, inUse}), PrevOf(live + {lru, inUse}), LruList.At(lru, lruNodes, 0), LruList.At(lru, lruNodes, 1));
      if lruNodes != [] {
        assert lruNodes[0] in lruNodes;
        assert Fits(lruNodes[0]);
      }
    }

    // Remove the oldest unused entry; that deletes it.
    method EvictOldest()
      requires Valid() && lruNodes != []
      modifies this`lruNodes, this`useNodes, this`live, this`clients, this`freed, this`usage, table, live`refs, live`inCache, live`nextHash,
               live`next, live`prev, lru`next, lru`prev, inUse`next, inUse`prev
      ensures Valid() && lruNodes == old(lruNodes)[1..] && usage + old(lruNodes)[0].charge == old(usage)
      ensures freed == old(freed) + [old(lruNodes)[0]] && live == old(live) - {old(lruNodes)[0]} && clients == old(clients) - {old(lruNodes)[0]}
      ensures table.members == old(table.members) - {old(lruNodes)[0]}
    {
      OldestIs();
      NoneTwice();
      InTable();
      hide Lists, Tabled, HandleTable.Valid, IsWithout;
      ghost var before := lruNodes;
      var e := lru.next;
      var r := Forget(e);
      var erased := FinishErase(r);
      FirstGone(before, lruNodes);
    }

    // Evict unused entries, oldest first, until the charge fits or none is left.
    method EvictTo(limit: nat) returns (ghost gone: set<Handle>)
      requires Valid()
      modifies this`lruNodes, this`useNodes, this`live, this`clients, this`freed, this`usage, table, live`refs, live`inCache, live`nextHash,
               live`next, live`prev, lru`next, lru`prev, inUse`next, inUse`prev
      ensures Valid() && (usage <= limit || lruNodes == [])
      ensures Evicted(old(lruNodes), lruNodes, old(freed), freed) && gone <= set h | h in old(lruNodes)
      ensures live == old(live) - gone && clients == old(clients) - gone && table.members == old(table.members) - gone
      ensures freed == old(freed) || (freed != [] && usage + freed[|freed| - 1].charge > limit)    // no more than needed
    {
      gone := {};
      hide Valid, Lists, Evicted;
      NoneEvicted();
      while usage > limit && lru.next != lru
        invariant Valid() && Evicted(old(lruNodes), lruNodes, old(freed), freed) && gone <= set h | h in old(lruNodes)
        invariant live == old(live) - gone && clients == old(clients) - gone && table.members == old(table.members) - gone
        invariant freed == old(freed) || (freed != [] && usage + freed[|freed| - 1].charge > limit)
        decreases |lruNodes|
      {
        ListsNow();
        OldestIs();
        OneEvicted(old(lruNodes), lruNodes, old(freed), freed);
        LessAgain(old(live), old(clients), old(table.members), gone, lruNodes[0]);
        gone := gone + {lruNodes[0]};
        EvictOldest();
      }
      ListsNow();
      OldestIs();
    }

    lemma LessAgain(live: set<Handle>, clients: map<Handle, nat>, members: set<Handle>, gone: set<Handle>, e: Handle)
      ensures live - gone - {e} == live - (gone + {e}) && clients - gone - {e} == clients - (gone + {e})
      ensures members - gone - {e} == members - (gone + {e})
    {
    }

    lemma NoneEvicted()
      ensures Evicted(lruNodes, lruNodes, freed, freed)
    {
      assert lruNodes == lruNodes[0..] && freed == freed + lruNodes[..0];
    }

    lemma ListsNow()
      requires Valid()
      ensures Lists()
    {
    }

    method Prune()
      requires Valid()
      modifies this`lruNodes, this`useNodes, this`live, this`clients, this`freed, this`usage, table, live`refs, live`inCache, live`nextHash,
               live`next, live`prev, lru`next, lru`prev, inUse`next, inUse`prev
      ensures Valid() && lruNodes == [] && Evicted(old(lruNodes), [], old(freed), freed)
    {
      hide Valid, Lists, Evicted;
      NoneEvicted();
      while lru.next != lru
        invariant Valid() && Evicted(old(lruNodes), lruNodes, old(freed), freed) && live <= old(live)
        decreases |lruNodes|
      {
        ListsNow();
        OldestIs();
        OneEvicted(old(lruNodes), lruNodes, old(freed), freed);
        EvictOldest();
      }
      ListsNow();
      OldestIs();
    }

    method Erase(key: Bytes, hash: nat)
      requires Valid()
      modifies this`lruNodes, this`useNodes, this`live, this`clients, this`freed, this`usage, table, live`refs, live`inCache, live`nextHash,
               live`next, live`prev, lru`next, lru`prev, inUse`next, inUse`prev
      ensures Valid()
      ensures forall h :: h in table.members <==> h in old(table.members) && !Same(h, key, hash)
    {
      InTable();
      KeysUnique();
      hide Lists, Tabled, HandleTable.Valid, Same;
      var e := Drop(key, hash);
      var erased := FinishErase(e);
    }

    lemma KeysUnique()
      requires table.Valid()
      ensures forall h, g, key, hash :: h in table.members && g in table.members && Same(h, key, hash) && Same(g, key, hash) ==> h == g
    {
    }

    method Drop(key: Bytes, hash: nat) returns (e: Handle?)
      requires Lists() && Tabled(null)
      modifies table, table.members`nextHash
      ensures Lists() && Tabled(e)
      ensures e == null ==> table.members == old(table.members) && forall g :: g in table.members ==> !Same(g, key, hash)
      ensures e != null ==> e in old(table.members) && Same(e, key, hash) && table.members == old(table.members) - {e}
      ensures e != null ==> e in live && e.inCache
    {
      hide Lists, HandleTable.Valid, Same;
      e := table.Remove(key, hash);
    }

    method Insert(key: Bytes, hash: nat, value: Bytes, charge: nat) returns (e: Handle)
      requires Valid()
      modifies this, table, live, lru, inUse
      ensures Valid() && (usage <= capacity || lruNodes == [])
      ensures fresh(e) && e in live && e in clients && clients[e] == 1 && Same(e, key, hash) && e.value == value && e.charge == charge
      ensures e in table.members <==> capacity > 0
      // only the entry with this key and unused entries leave, and no more of those than needed
      ensures forall h :: h in old(table.members) && h !in table.members ==> Same(h, key, hash) || h in old(lruNodes)
      ensures freed == old(freed) || (freed != [] && (usage + freed[|freed| - 1].charge > capacity || Same(freed[|freed| - 1], key, hash)))
      ensures MadeRoom(old(lruNodes), lruNodes, old(freed), freed, key, hash)
    {
      hide Valid, Lists, Tabled, MadeRoom;
      InTable();
      NoRoomMade(lruNodes, freed, key, hash);
      e := new Handle(key, hash, value, charge);
      Enter(e);
      NowValid();
      if capacity > 0 { AdmitAndEvict(e); } else { NothingCached(); }
    }

    method AdmitAndEvict(e: Handle)
      requires Valid() && capacity > 0 && e in live && e.refs == 1 && !e.inCache && e in clients && clients[e] == 1
      modifies this`lruNodes, this`useNodes, this`live, this`clients, this`freed, this`usage, table, live`refs, live`inCache, live`nextHash,
               live`next, live`prev, lru`next, lru`prev, inUse`next, inUse`prev
      ensures Valid() && (usage <= capacity || lruNodes == [])
      ensures e in live && e in clients && clients[e] == 1 && e in table.members
      ensures forall h :: h in old(table.members) && h !in table.members ==> Same(h, e.key, e.hash) || h in old(lruNodes)
      ensures freed == old(freed) || (freed != [] && (usage + freed[|freed| - 1].charge > capacity || Same(freed[|freed| - 1], e.key, e.hash)))
      ensures MadeRoom(old(lruNodes), lruNodes, old(freed), freed, e.key, e.hash)
    {
      hide Valid, Same, Replaced, Evicted, MadeRoom;
      Admit(e);
      ghost var rest, freedThen := lruNodes, freed;
      ghost var gone := EvictTo(capacity);
      RoomMade(old(lruNodes), rest, lruNodes, old(freed), freedThen, freed, e.key, e.hash);
    }

    lemma NothingCached()
      requires Valid() && capacity == 0
      ensures lruNodes == [] && table.members == {}
    {
      if lruNodes != [] { OldestIs(); }
    }

    lemma NowValid()
      requires Lists() && Tabled(null) && (capacity == 0 ==> table.members == {})
      ensures Valid()
    {
    }

    // The new entry and the reference of the client it is returned to.
    method Enter(e: Handle)
      requires Lists() && Tabled(null) && e !in live && e != lru && e != inUse && e !in freed && e.refs == 1 && !e.inCache
      modifies this`live, this`clients
      ensures Lists() && Tabled(null) && live == old(live) + {e} && clients == old(clients)[e := 1]
    {
      hide Lists, HandleTable.Valid;
      EnterLists(e);
    }

    ghost method EnterLists(e: Handle)
      requires Lists() && e !in live && e != lru && e != inUse && e !in freed && e.refs == 1 && !e.inCache
      modifies this`live, this`clients
      ensures Lists() && live == old(live) + {e} && clients == old(clients)[e := 1]
    {
      hide Rings, SumCharges;
      EnterRings(e);
      clients := clients[e := 1];
    }

    ghost method EnterRings(e: Handle)
      requires Rings() && e !in live && e != lru && e != inUse
      modifies this`live
      ensures Rings() && live == old(live) + {e} && e !in lruNodes && e !in useNodes
    {
      RingsWith(e);
      hide Ring, NextOf, PrevOf;
      live := live + {e};
    }

    lemma RingsWith(e: Handle)
      requires Rings() && e !in live && e != lru && e != inUse
      ensures Ring(NextOf(live + {e} + {lru, inUse}), PrevOf(live + {e} + {lru, inUse}), lru, lruNodes)
      ensures Ring(NextOf(live + {e} + {lru, inUse}), PrevOf(live + {e} + {lru, inUse}), inUse, useNodes)
      ensures e !in lruNodes && e !in useNodes
    {
      RingSame(NextOf(live + {lru, inUse}), PrevOf(live + {lru, inUse}), NextOf(live + {e} + {lru, inUse}), PrevOf(live + {e} + {lru, inUse}), lru, lruNodes);
      RingSame(NextOf(live + {lru, inUse}), PrevOf(live + {lru, inUse}), NextOf(live + {e} + {lru, inUse}), PrevOf(live + {e} + {lru, inUse}), inUse, useNodes);
    }

    // A new entry joins the cache; an entry with its key leaves.
    method Admit(e: Handle)
      requires Valid() && capacity > 0 && e in live && e.refs == 1 && !e.inCache && e in clients && clients[e] == 1
      modifies this`lruNodes, this`useNodes, this`live, this`clients, this`freed, this`usage, table, live`refs, live`inCache, live`nextHash,
               live`next, live`prev, lru`next, lru`prev, inUse`next, inUse`prev
      ensures Valid() && e in live && e !in lruNodes && e in clients && clients[e] == 1 && e in table.members && live <= old(live)
      ensures forall h :: h in old(table.members) && !Same(h, e.key, e.hash) ==> h in table.members
      ensures forall h :: h in lruNodes ==> h in old(lruNodes)
      ensures Replaced(old(lruNodes), lruNodes, old(freed), freed, e.key, e.hash)
    {
      InTable();
      hide Lists, Tabled, Same, IsWithout, Replaced;
      PutInUse(e);
      var was := Enlist(e);
      ghost var before := lruNodes;
      var erased := FinishErase(was);
      FewerUnused(before, lruNodes, was);
      WasReplaced(before, lruNodes, old(freed), freed, was, e.key, e.hash);
      NowValid();
    }

    lemma FewerUnused(before: seq<Handle>, after: seq<Handle>, was: Handle?)
      requires after == before || (was != null && IsWithout(before, after, was))
      ensures forall h :: h in after ==> h in before
    {
      if after != before {
        var i :| 0 <= i < |before| && before[i] == was && after == Without(before, i);
      }
    }

    method PutInUse(e: Handle)
      requires Lists() && Tabled(null) && e in live && e.refs == 1 && !e.inCache
      modifies this`useNodes, this`lruNodes, this`usage, e`refs, e`inCache, live`next, live`prev, lru`next, lru`prev, inUse`next, inUse`prev
      ensures Lists() && Tabled(e) && e.inCache && e !in lruNodes && e !in table.members && lruNodes == old(lruNodes)
    {
      hide Rings, HandleTable.Valid;
      assert Fits(e);
      assert (useNodes + [e])[..|useNodes|] == useNodes;
      e.refs := e.refs + 1;
      e.inCache := true;
      Append(e, false);
      usage := usage + e.charge;
    }

    method Enlist(e: Handle) returns (was: Handle?)
      requires Lists() && Tabled(e) && e in live && e.inCache && e !in table.members
      modifies table, table.members`nextHash, e`nextHash
      ensures Lists() && Tabled(was) && e in table.members
      ensures was != null ==> was in live && was.inCache && was !in table.members && was != e && Same(was, e.key, e.hash)
      ensures forall h :: h in old(table.members) && !Same(h, e.key, e.hash) ==> h in table.members
    {
      hide Lists, HandleTable.Valid, Same;
      was := table.Insert(e);
    }

    // table_.Remove of an entry's own key and hash finds that entry.
    method Forget(e: Handle) returns (r: Handle)
      requires Lists() && Tabled(null) && e in table.members
      modifies table, table.members`nextHash
      ensures r == e && Lists() && Tabled(e) && table.members == old(table.members) - {e}
    {
      hide Lists;
      OnlyOne(e);
      hide HandleTable.Valid, Same;
      SameAsItself(e);
      var found := table.Remove(e.key, e.hash);
      r := found;
    }

    lemma InTable()
      requires Valid()
      ensures table.members <= live && Lists() && Tabled(null) && (lruNodes != [] ==> lruNodes[0] in table.members)
      ensures capacity == 0 ==> table.members == {}
    {
      if lruNodes != [] { OldestIs(); }
    }

    lemma SameAsItself(e: Handle)
      ensures Same(e, e.key, e.hash)
    {
    }

    lemma NoneTwice()
      requires Lists()
      ensures NoRepeats(lruNodes)
    {
      RingOnce(NextOf(live + {lru, inUse}), PrevOf(live + {lru, inUse}), lru, lruNodes);
    }

    // The table holds one entry for a key.
    lemma OnlyOne(e: Handle)
      requires table.Valid() && e in table.members
      ensures forall h :: h in table.members && Same(h, e.key, e.hash) ==> h == e
    {
    }

    // The lists and their charges when e moves from one to the other.
    lemma MoveFacts(e: Handle, fromLru: bool, i: nat)
      requires Rings()
      requires if fromLru then i < |lruNodes| && lruNodes[i] == e else i < |useNodes| && useNodes[i] == e
      ensures fromLru ==> (forall h :: h in Without(lruNodes, i) <==> h in lruNodes && h != e) && e !in useNodes
      ensures !fromLru ==> (forall h :: h in Without(useNodes, i) <==> h in useNodes && h != e) && e !in lruNodes
      ensures fromLru ==> SumCharges(Without(lruNodes, i)) + e.charge == SumCharges(lruNodes) && SumCharges(useNodes + [e]) == SumCharges(useNodes) + e.charge
      ensures !fromLru ==> SumCharges(Without(useNodes, i)) + e.charge == SumCharges(useNodes) && SumCharges(lruNodes + [e]) == SumCharges(lruNodes) + e.charge
    {
      if fromLru {
        WithoutElements(lruNodes, i);
        SumWithout(lruNodes, i);
        assert (useNodes + [e])[..|useNodes|] == useNodes;
      } else {
        WithoutElements(useNodes, i);
        SumWithout(useNodes, i);
        assert (lruNodes + [e])[..|lruNodes|] == lruNodes;
      }
    }
  }

  lemma FirstGone(before: seq<Handle>, after: seq<Handle>)
    requires before != [] && NoRepeats(before) && IsWithout(before, after, before[0])
    ensures after == before[1..]
  {
    var i :| 0 <= i < |before| && before[i] == before[0] && after == Without(before, i);
    assert i == 0;
  }

  // Both rings after a node leaves one of them.
  lemma RingRemoval(next: Pointers, prev: Pointers, head: Handle, nodes: seq<Handle>, i: nat, head2: Handle, nodes2: seq<Handle>)
    requires Ring(next, prev, head, nodes) && i < |nodes| && Ring(next, prev, head2, nodes2)
    requires head != head2 && head !in nodes2 && head2 !in nodes && forall h :: h in nodes ==> h !in nodes2
    ensures var a, b := LruList.At(head, nodes, i), LruList.At(head, nodes, i + 2);
            && (a == head || a in nodes) && (b == head || b in nodes)
            && Link(next, prev, a, nodes[i]) && Link(next, prev, nodes[i], b)
            && Ring(next[a := b], prev[b := a], head, Without(nodes, i)) && Ring(next[a := b], prev[b := a], head2, nodes2)
  {
    RemovedRing(next, prev, head, nodes, i);
    var a, b := LruList.At(head, nodes, i), LruList.At(head, nodes, i + 2);
    RingInMaps(next, prev, head2, nodes2);
    RingSame(next, prev, next[a := b], prev[b := a], head2, nodes2);
  }

  lemma RingOnce(next: Pointers, prev: Pointers, head: Handle, nodes: seq<Handle>)
    requires Ring(next, prev, head, nodes)
    ensures NoRepeats(nodes)
  {
  }

  lemma RingInMaps(next: Pointers, prev: Pointers, head: Handle, nodes: seq<Handle>)
    requires Ring(next, prev, head, nodes)
    ensures forall h :: h == head || h in nodes ==> h in next && h in prev
  {
    forall h | h == head || h in nodes ensures h in next && h in prev {
      var k := if h == head then 0 else var i :| 0 <= i < |nodes| && nodes[i] == h; i + 1;
      assert Link(next, prev, LruList.At(head, nodes, k), LruList.At(head, nodes, k + 1));
      var j := if h == head then |nodes| else k - 1;
      assert Link(next, prev, LruList.At(head, nodes, j), LruList.At(head, nodes, j + 1));
    }
  }

  // ... and after one joins.
  lemma RingAppend(next: Pointers, prev: Pointers, head: Handle, nodes: seq<Handle>, e: Handle, head2: Handle, nodes2: seq<Handle>)
    requires Ring(next, prev, head, nodes) && Ring(next, prev, head2, nodes2) && e !in nodes && e !in nodes2 && e != head && e != head2
    requires head != head2 && head !in nodes2 && head2 !in nodes && forall h :: h in nodes ==> h !in nodes2
    ensures var last := LruList.At(head, nodes, |nodes|);
            && (last == head || last in nodes) && Link(next, prev, last, head)
            && Ring(next[e := head][last := e], prev[e := last][head := e], head, nodes + [e])
            && Ring(next[e := head][last := e], prev[e := last][head := e], head2, nodes2)
  {
    AppendedRing(next, prev, head, nodes, e);
    var last := LruList.At(head, nodes, |nodes|);
    RingInMaps(next, prev, head2, nodes2);
    RingSame(next, prev, next[e := head][last := e], prev[e := last][head := e], head2, nodes2);
  }
}
