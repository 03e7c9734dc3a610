/** HandleTable (util/cache.cc): the cache's hash table, buckets of singly linked chains. */
module HandleTable {
  import opened Keys
  import Coding
  import opened LruList

  // What FindPointer compares.
  predicate Same(h: Handle, key: Bytes, hash: nat) { h.hash == hash && h.key == key }

  ghost function HashLinks(handles: set<Handle>): Pointers
    reads handles`nextHash
  {
    map h | h in handles :: h.nextHash
  }

  ghost function NodeAt(chain: seq<Handle>, k: nat): Handle? { if k < |chain| then chain[k] else null }

  // A chain from its first pointer to null.
  ghost predicate Chain(links: Pointers, first: Handle?, chain: seq<Handle>) {
    && first == NodeAt(chain, 0)
    && forall k :: 0 <= k < |chain| ==> chain[k] in links && links[chain[k]] == NodeAt(chain, k + 1)
  }

  // a & b, bit by bit.
  function And(a: nat, b: nat): (r: nat)
    ensures r <= a && r <= b
  {
    if a == 0 || b == 0 then 0 else 2 * And(a / 2, b / 2) + if a % 2 == 1 && b % 2 == 1 then 1 else 0
  }

  function Bucket(hash: nat, length: nat): (b: nat)
    requires length > 0
    ensures b < length
  {
    And(hash, length - 1)
  }

  function Pow2(k: nat): (r: nat)
    ensures r >= 1
  {
    if k == 0 then 1 else 2 * Pow2(k - 1)
  }

  // In a list whose length is a power of two, as Resize makes them, the bucket is the hash modulo the length.
  lemma BucketIsModulo(hash: nat, k: nat)
    ensures Bucket(hash, Pow2(k)) == hash % Pow2(k)
  {
    AndMask(hash, k);
  }

  lemma {:induction false} AndMask(hash: nat, k: nat)
    ensures And(hash, Pow2(k) - 1) == hash % Pow2(k)
  {
    if k > 0 {
      var p, q := Pow2(k - 1), hash / 2;
      AndMask(q, k - 1);
      MaskHalves(p);
      ModuloHalves(hash, p);
      ModuloHalves(0, p);
    }
  }

  lemma MaskHalves(p: nat)
    requires p >= 1
    ensures (2 * p - 1) / 2 == p - 1 && (2 * p - 1) % 2 == 1
  {
  }

  lemma TwiceSum(p: nat, q: nat, r: nat)
    ensures 2 * (p * q + r) == 2 * p * q + 2 * r
  {
  }

  lemma ModuloHalves(n: nat, p: nat)
    requires p >= 1
    ensures n % (2 * p) == 2 * (n / 2 % p) + n % 2
  {
    var q, r := n / 2 / p, n / 2 % p;
    assert n == 2 * (p * q + r) + n % 2;
    TwiceSum(p, q, r);
    Coding.Quotient(n, 2 * p, q, 2 * r + n % 2);
  }

  // Bucket b holds exactly the members whose hash leads there.
  ghost predicate Holds(links: Pointers, first: Handle?, chain: seq<Handle>, members: set<Handle>, b: nat, length: nat)
    requires length > 0
  {
    && Chain(links, first, chain) && NoRepeats(chain)
    && (forall h :: h in chain ==> h in members && Bucket(h.hash, length) == b)
    && (forall h :: h in members && Bucket(h.hash, length) == b ==> h in chain)
  }

  ghost predicate Table(links: Pointers, list: seq<Handle?>, chains: seq<seq<Handle>>, members: set<Handle>) {
    |list| == |chains| > 0 && forall b :: 0 <= b < |list| ==> Holds(links, list[b], chains[b], members, b, |list|)
  }

  // No two members have the same key and hash.
  ghost predicate KeysDiffer(members: set<Handle>) {
    forall h, g :: h in members && g in members && Same(h, g.key, g.hash) ==> h == g
  }

  class HandleTable {
    var list: seq<Handle?>                       // list_; its length is length_
    var elems: nat                               // elems_
    ghost var chains: seq<seq<Handle>>
    ghost var members: set<Handle>

    ghost predicate Valid()
      reads this, members`nextHash
    {
      Table(HashLinks(members), list, chains, members) && KeysDiffer(members) && elems == |members|
    }

    // Chains hold one entry on average at most.
    predicate Roomy()
      reads this
    {
      elems <= |list|
    }

    constructor ()
      ensures Valid() && Roomy() && members == {}
    {
      list, elems, chains, members := [null, null, null, null], 0, [[], [], [], []], {};
    }

    // FindPointer: the slot of the entry with this key, or the last slot of its chain.  The slot is
    // the bucket when `before` is null, and before.next_hash otherwise.
    method FindPointer(key: Bytes, hash: nat) returns (b: nat, before: Handle?, found: Handle?, ghost k: nat)
      requires Valid()
      ensures |list| == |chains| > 0 && b == Bucket(hash, |list|) && k <= |chains[b]|
      ensures before == if k == 0 then null else chains[b][k - 1]
      ensures found == NodeAt(chains[b], k)
      ensures found != null ==> found in members && Same(found, key, hash)
      ensures found == null ==> forall h :: h in members ==> !Same(h, key, hash)
    {
      Nonempty();
      hide Valid, Bucket, NodeAt;
      b, before, k := Bucket(hash, |list|), null, 0;
      InChain(b, 0);
      found := list[b];
      while found != null && !(found.hash == hash && found.key == key)
        invariant k <= |chains[b]| && found == NodeAt(chains[b], k)
        invariant before == if k == 0 then null else chains[b][k - 1]
        invariant forall j :: 0 <= j < k ==> !Same(chains[b][j], key, hash)
        decreases |chains[b]| - k
      {
        InChain(b, k);
        before, k := found, k + 1;
        found := found.nextHash;
      }
      InChain(b, k);
      if found == null { NotHere(key, hash, b); }
    }

    lemma Nonempty()
      requires Valid()
      ensures |list| == |chains| > 0
    {
    }

    // What stands at position k of a chain, and what the slot before it says.
    lemma InChain(b: nat, k: nat)
      requires Valid() && b < |list| == |chains| && k <= |chains[b]|
      ensures list[b] == NodeAt(chains[b], 0)
      ensures NodeAt(chains[b], k) != null <==> k < |chains[b]|
      ensures k < |chains[b]| ==> chains[b][k] == NodeAt(chains[b], k) && chains[b][k] in members && chains[b][k].nextHash == NodeAt(chains[b], k + 1)
    {
      assert Holds(HashLinks(members), list[b], chains[b], members, b, |list|);
      if k < |chains[b]| { assert chains[b][k] in chains[b]; }
    }

    lemma NotHere(key: Bytes, hash: nat, b: nat)
      requires Valid() && b < |list| == |chains| && b == Bucket(hash, |list|)
      requires forall j :: 0 <= j < |chains[b]| ==> !Same(chains[b][j], key, hash)
      ensures forall h :: h in members ==> !Same(h, key, hash)
    {
      assert Holds(HashLinks(members), list[b], chains[b], members, b, |list|);
    }

    method Lookup(key: Bytes, hash: nat) returns (h: Handle?)
      requires Valid()
      ensures h != null ==> h in members && Same(h, key, hash)
      ensures h == null ==> forall g :: g in members ==> !Same(g, key, hash)
    {
      var b, before;
      ghost var k;
      b, before, h, k := FindPointer(key, hash);
    }

    // A new entry takes the place of the one with its key, or joins the end of its chain.
    method Insert(h: Handle) returns (was: Handle?)
      requires Valid() && h !in members
      modifies this, members`nextHash, h`nextHash
      ensures Valid()
      ensures was != null ==> was in old(members) && Same(was, h.key, h.hash) && members == old(members) - {was} + {h}
      ensures was == null ==> members == old(members) + {h} && forall g :: g in old(members) ==> !Same(g, h.key, h.hash)
      ensures old(Roomy()) ==> Roomy()
      ensures |list| == if was == null && elems > old(|list|) then Doubled(4, elems) else old(|list|)
    {
      hide Valid, Table, KeysDiffer, HashLinks, PutMembers, PutLinks, PutChain, NodeAt, Same, Bucket;
      Nonempty();
      var b, before;
      ghost var k;
      b, before, was, k := FindPointer(h.key, h.hash);
      ghost var all, rest := PutMembers(chains[b], k, h, members), chains[b := PutChain(chains[b], k, h)];
      InChain(b, k);
      SlotFacts(b, k);
      MembersAfterPut(members, chains[b], k, h);
      ghost var links := PutLinks(HashLinks(members), chains[b], k, h);
      CanPut(b, k, h);
      Wire(h, was, before, b, k);
      chains, members, elems := rest, all, if was == null then elems + 1 else elems;
      Settled(links);
      Nonempty();
      if was == null && elems > |list| { Resize(); }
    }

    // Resize: move every entry to its bucket in a table at least as long as the number of entries.
    method Resize()
      requires Valid()
      modifies this, members`nextHash
      ensures Valid() && members == old(members) && elems == old(elems) && |list| == Doubled(4, elems)
    {
      hide Table, Bucket;
      var length := 4;
      while length < elems
        invariant length >= 4 && Doubled(length, elems) == Doubled(4, elems)
        decreases elems - length
      {
        length := length * 2;
      }
      var target: seq<Handle?> := seq(length, _ => null);
      ghost var moved: set<Handle>, built: seq<seq<Handle>> := {}, seq(length, _ => []);
      ghost var links := HashLinks(members);
      EmptyTable(links, target, built);
      Nonempty();
      AllBelow();
      for i := 0 to |list|
        invariant list == old(list) && chains == old(chains) && members == old(members) && elems == old(elems) && |list| == |chains|
        invariant |target| == |built| == length && Table(HashLinks(members), target, built, moved)
        invariant Table(links, list, chains, members) && moved == Below(i)
        invariant Untouched(links, moved)
      {
        target, built, moved := MoveChain(i, target, built, moved, links);
      }
      AllBelow();
      list, chains := target, built;
      assert forall x :: x in members ==> x in HashLinks(members) && HashLinks(members)[x] == x.nextHash;
    }

    lemma AllBelow()
      requires |list| > 0
      ensures Below(|list|) == members && Below(0) == {}
    {
    }

    // The other entries still point where they did.
    ghost predicate Untouched(links: Pointers, moved: set<Handle>)
      reads this, members
    {
      forall x :: x in members - moved ==> x in links && links[x] == x.nextHash
    }

    // The members in the first n buckets.
    ghost function Below(n: nat): set<Handle>
      reads this
    {
      set h | h in members && |list| > 0 && Bucket(h.hash, |list|) < n
    }

    // The chain of bucket i, entry by entry, each to the front of its new chain.
    method MoveChain(i: nat, target: seq<Handle?>, ghost built: seq<seq<Handle>>, ghost moved: set<Handle>, ghost links: Pointers)
      returns (target': seq<Handle?>, ghost built': seq<seq<Handle>>, ghost moved': set<Handle>)
      requires i < |list| == |chains| && |target| == |built| > 0
      requires Table(links, list, chains, members) && Table(HashLinks(members), target, built, moved)
      requires moved == Below(i) && Untouched(links, moved)
      modifies members`nextHash
      ensures |target'| == |built'| == |target| && Table(HashLinks(members), target', built', moved')
      ensures moved' == Below(i + 1) && Untouched(links, moved')
    {
      hide Table, HashLinks, Bucket;
      target', built', moved' := target, built, moved;
      var h := list[i];
      ghost var k: nat := 0;
      OnChain(links, list, chains, members, i, 0);
      BelowNext(links, i);
      while h != null
        invariant k <= |chains[i]| && h == NodeAt(chains[i], k)
        invariant |target'| == |built'| == |target| && Table(HashLinks(members), target', built', moved')
        invariant moved' == moved + FirstOf(chains[i], k) && moved' <= members
        invariant Untouched(links, moved')
        decreases |chains[i]| - k
      {
        OnChain(links, list, chains, members, i, k);
        NotMoved(links, list, chains, members, moved, i, k);
        var next := h.nextHash;
        var b := Bucket(h.hash, |target'|);
        TableFront(HashLinks(members), target', built', moved', h);
        target', built' := MoveOne(h, b, target', built', moved');
        moved' := moved' + {h};
        h, k := next, k + 1;
      }
    }

    method MoveOne(h: Handle, b: nat, target: seq<Handle?>, ghost built: seq<seq<Handle>>, ghost moved: set<Handle>)
      returns (target': seq<Handle?>, ghost built': seq<seq<Handle>>)
      requires h in members && b < |target| == |built|
      requires Table(HashLinks(members)[h := target[b]], target[b := h], built[b := [h] + built[b]], moved + {h})
      modifies h`nextHash
      ensures target' == target[b := h] && built' == built[b := [h] + built[b]]
      ensures Table(HashLinks(members), target', built', moved + {h})
    {
      ghost var links := HashLinks(members)[h := target[b]];
      h.nextHash := target[b];
      target' := target[b := h];
      built' := built[b := [h] + built[b]];
      assert HashLinks(members) == links;
    }

    lemma BelowNext(links: Pointers, i: nat)
      requires i < |list| && Table(links, list, chains, members)
      ensures Below(i + 1) == Below(i) + FirstOf(chains[i], |chains[i]|)
      ensures FirstOf(chains[i], |chains[i]|) <= members && Below(i) <= members
    {
      assert Holds(links, list[i], chains[i], members, i, |list|);
      forall x | x in chains[i] ensures x in FirstOf(chains[i], |chains[i]|) {
        var j :| 0 <= j < |chains[i]| && chains[i][j] == x;
      }
    }

    lemma NotMoved(links: Pointers, list: seq<Handle?>, chains: seq<seq<Handle>>, members: set<Handle>, moved: set<Handle>, i: nat, k: nat)
      requires Table(links, list, chains, members) && i < |list| && k < |chains[i]|
      requires moved == set h | h in members && |list| > 0 && Bucket(h.hash, |list|) < i
      ensures chains[i][k] !in moved + FirstOf(chains[i], k)
      ensures FirstOf(chains[i], k + 1) == FirstOf(chains[i], k) + {chains[i][k]}
    {
      assert Holds(links, list[i], chains[i], members, i, |list|);
      assert chains[i][k] in chains[i];
    }

    // The table after the stores of Insert, as a value.
    lemma CanPut(b: nat, k: nat, h: Handle)
      requires Valid() && h !in members && b < |list| == |chains| && b == Bucket(h.hash, |list|) && k <= |chains[b]|
      requires k < |chains[b]| ==> Same(chains[b][k], h.key, h.hash)
      requires k == |chains[b]| ==> forall g :: g in members ==> !Same(g, h.key, h.hash)
      ensures var all := PutMembers(chains[b], k, h, members);
              && Table(PutLinks(HashLinks(members), chains[b], k, h), if k == 0 then list[b := h] else list,
                       chains[b := PutChain(chains[b], k, h)], all)
              && KeysDiffer(all) && |all| == elems + (if k < |chains[b]| then 0 else 1) && all <= members + {h}
    {
      SlotFacts(b, k);
      TablePut(HashLinks(members), list, chains, members, b, k, h);
      KeysAfterPut(members, chains[b], k, h);
      CountAfterPut(members, chains[b], k, h);
    }

    // The pointers are as the value says.
    lemma Settled(links: Pointers)
      requires Table(links, list, chains, members) && KeysDiffer(members) && elems == |members|
      requires forall x :: x in members ==> x in links && links[x] == x.nextHash
      ensures Valid()
    {
      TableSame(links, HashLinks(members), list, chains, members);
    }

    // The two pointer stores of Insert.
    method Wire(h: Handle, was: Handle?, before: Handle?, b: nat, ghost k: nat)
      requires b < |list| == |chains| && k <= |chains[b]| && h !in members
      requires was == NodeAt(chains[b], k) && before == if k == 0 then null else chains[b][k - 1]
      requires forall x :: x in chains[b] ==> x in members
      requires was != null ==> was.nextHash == NodeAt(chains[b], k + 1)
      modifies this`list, members`nextHash, h`nextHash
      ensures list == if k == 0 then old(list)[b := h] else old(list)
      ensures var links := PutLinks(old(HashLinks(members)), chains[b], k, h);
              forall x :: x in members + {h} ==> x in links && links[x] == x.nextHash
    {
      assert k > 0 ==> chains[b][k - 1] in members;
      h.nextHash := if was == null then null else was.nextHash;
      if before == null { list := list[b := h]; } else { before.nextHash := h; }
    }

    method Remove(key: Bytes, hash: nat) returns (h: Handle?)
      requires Valid()
      modifies this, members`nextHash
      ensures Valid()
      ensures h != null ==> h in old(members) && Same(h, key, hash) && members == old(members) - {h}
      ensures h == null ==> members == old(members) && forall g :: g in members ==> !Same(g, key, hash)
      ensures old(Roomy()) ==> Roomy()
    {
      hide Table, Chain, KeysDiffer, Same, Bucket;
      var b, before;
      ghost var k;
      b, before, h, k := FindPointer(key, hash);
      if h != null {
        ghost var links := HashLinks(members);
        SlotFacts(b, k);
        TableDrop(links, list, chains, members, b, k);
        if before == null { list := list[b := h.nextHash]; } else { before.nextHash := h.nextHash; }
        elems := elems - 1;
        ghost var rest := chains[b := DropChain(chains[b], k)];
        TableSame(DropLinks(links, chains[b], k), HashLinks(members - {h}), list, rest, members - {h});
        FewerKeys(members, members - {h});
        chains, members := rest, members - {h};
      }
    }

    // What the slot found by FindPointer leads on to.
    lemma SlotFacts(b: nat, k: nat)
      requires Valid() && b < |list| && |list| == |chains| && k <= |chains[b]|
      ensures forall x :: x in chains[b] ==> x in members
      ensures k < |chains[b]| ==> chains[b][k].nextHash == NodeAt(chains[b], k + 1)
    {
    }
  }

  // ----- one slot changes -----

  // h at position k, instead of the node there if there is one.
  ghost function PutChain(chain: seq<Handle>, k: nat, h: Handle): seq<Handle>
    requires k <= |chain|
  {
    chain[..k] + [h] + if k < |chain| then chain[k + 1..] else []
  }

  ghost function PutLinks(links: Pointers, chain: seq<Handle>, k: nat, h: Handle): Pointers
    requires k <= |chain|
  {
    var onward := links[h := NodeAt(chain, k + 1)];
    if k == 0 then onward else onward[chain[k - 1] := h]
  }

  ghost function PutMembers(chain: seq<Handle>, k: nat, h: Handle, members: set<Handle>): set<Handle>
    requires k <= |chain|
  {
    (if k < |chain| then members - {chain[k]} else members) + {h}
  }

  ghost function DropChain(chain: seq<Handle>, k: nat): seq<Handle>
    requires k < |chain|
  {
    chain[..k] + chain[k + 1..]
  }

  ghost function DropLinks(links: Pointers, chain: seq<Handle>, k: nat): Pointers
    requires k < |chain|
  {
    if k == 0 then links else links[chain[k - 1] := NodeAt(chain, k + 1)]
  }

  lemma PutAt(chain: seq<Handle>, k: nat, h: Handle)
    requires k <= |chain|
    ensures var r := PutChain(chain, k, h);
            && |r| == (if k < |chain| then |chain| else k + 1)
            && forall i :: 0 <= i < |r| ==> r[i] == if i == k then h else chain[i]
  {
  }

  lemma PutElements(chain: seq<Handle>, k: nat, h: Handle)
    requires NoRepeats(chain) && h !in chain && k <= |chain|
    ensures NoRepeats(PutChain(chain, k, h))
    ensures forall x :: x in PutChain(chain, k, h) <==> x == h || (x in chain && (k < |chain| ==> x != chain[k]))
  {
    PutAt(chain, k, h);
    var r := PutChain(chain, k, h);
    hide PutChain;
    forall i | 0 <= i < |chain| && i != k ensures chain[i] in r { assert r[i] == chain[i]; }
    assert r[k] == h;
    forall x | x in r ensures x == h || (x in chain && (k < |chain| ==> x != chain[k])) {
      var i :| 0 <= i < |r| && r[i] == x;
    }
  }

  lemma ChainPut(links: Pointers, first: Handle?, chain: seq<Handle>, k: nat, h: Handle)
    requires Chain(links, first, chain) && NoRepeats(chain) && h !in chain && k <= |chain|
    ensures Chain(PutLinks(links, chain, k, h), if k == 0 then h else first, PutChain(chain, k, h))
  {
    PutAt(chain, k, h);
    var r, links' := PutChain(chain, k, h), PutLinks(links, chain, k, h);
    hide PutChain;
    forall i | 0 <= i < |r| ensures r[i] in links' && links'[r[i]] == NodeAt(r, i + 1) {
      if i != k { assert chain[i] in chain; }
    }
  }

  lemma DropAt(chain: seq<Handle>, k: nat)
    requires k < |chain|
    ensures var r := DropChain(chain, k);
            |r| == |chain| - 1 && forall i :: 0 <= i < |r| ==> r[i] == if i < k then chain[i] else chain[i + 1]
  {
  }

  lemma DropElements(chain: seq<Handle>, k: nat)
    requires NoRepeats(chain) && k < |chain|
    ensures NoRepeats(DropChain(chain, k))
    ensures forall x :: x in DropChain(chain, k) <==> x in chain && x != chain[k]
  {
    DropAt(chain, k);
    var r := DropChain(chain, k);
    hide DropChain;
    forall i | 0 <= i < |chain| && i != k ensures chain[i] in r { assert r[if i < k then i else i - 1] == chain[i]; }
    forall x | x in r ensures x in chain && x != chain[k] {
      var i :| 0 <= i < |r| && r[i] == x;
    }
  }

  lemma ChainDrop(links: Pointers, first: Handle?, chain: seq<Handle>, k: nat)
    requires Chain(links, first, chain) && NoRepeats(chain) && k < |chain|
    ensures Chain(DropLinks(links, chain, k), if k == 0 then NodeAt(chain, 1) else first, DropChain(chain, k))
  {
    DropAt(chain, k);
    var r, links' := DropChain(chain, k), DropLinks(links, chain, k);
    hide DropChain;
    forall i | 0 <= i < |r| ensures r[i] in links' && links'[r[i]] == NodeAt(r, i + 1) {
      assert chain[if i < k then i else i + 1] in links;
    }
  }

  lemma ChainSame(links: Pointers, links': Pointers, first: Handle?, chain: seq<Handle>)
    requires Chain(links, first, chain) && forall x :: x in chain ==> x in links' && (x in links ==> links'[x] == links[x])
    ensures Chain(links', first, chain)
  {
  }

  lemma TableSame(links: Pointers, links': Pointers, list: seq<Handle?>, chains: seq<seq<Handle>>, members: set<Handle>)
    requires Table(links, list, chains, members)
    requires forall x :: x in members ==> x in links' && (x in links ==> links'[x] == links[x])
    ensures Table(links', list, chains, members)
  {
    forall b | 0 <= b < |list| ensures Holds(links', list[b], chains[b], members, b, |list|) {
      ChainSame(links, links', list[b], chains[b]);
    }
  }

  // Another bucket, when pointers and membership change in bucket b only.
  lemma OtherBucket(links: Pointers, links': Pointers, first: Handle?, chain: seq<Handle>, members: set<Handle>, members': set<Handle>,
                    b: nat, c: nat, length: nat)
    requires length > 0 && b != c && Holds(links, first, chain, members, c, length)
    requires forall x :: x in links && Bucket(x.hash, length) != b ==> x in links' && links'[x] == links[x]
    requires forall x: Handle :: Bucket(x.hash, length) != b ==> (x in members' <==> x in members)
    ensures Holds(links', first, chain, members', c, length)
  {
    ChainSame(links, links', first, chain);
  }

  lemma TablePut(links: Pointers, list: seq<Handle?>, chains: seq<seq<Handle>>, members: set<Handle>, b: nat, k: nat, h: Handle)
    requires Table(links, list, chains, members) && h !in members && b < |list| && b == Bucket(h.hash, |list|) && k <= |chains[b]|
    ensures Table(PutLinks(links, chains[b], k, h), if k == 0 then list[b := h] else list, chains[b := PutChain(chains[b], k, h)],
                  PutMembers(chains[b], k, h, members))
  {
    hide Chain, PutChain, Bucket, PutLinks, NoRepeats;
    var chain := chains[b];
    var links', members' := PutLinks(links, chain, k, h), PutMembers(chain, k, h, members);
    BucketPut(links, list[b], chain, members, b, k, h, |list|);
    forall c | 0 <= c < |list| && c != b ensures Holds(links', list[c], chains[c], members', c, |list|) {
      OtherBucket(links, links', list[c], chains[c], members, members', b, c, |list|);
    }
  }

  lemma BucketPut(links: Pointers, first: Handle?, chain: seq<Handle>, members: set<Handle>, b: nat, k: nat, h: Handle, length: nat)
    requires length > 0 && Holds(links, first, chain, members, b, length) && h !in members && b == Bucket(h.hash, length) && k <= |chain|
    ensures Holds(PutLinks(links, chain, k, h), if k == 0 then h else first, PutChain(chain, k, h), PutMembers(chain, k, h, members), b, length)
    ensures forall x :: x in links && Bucket(x.hash, length) != b ==> x in PutLinks(links, chain, k, h) && PutLinks(links, chain, k, h)[x] == links[x]
    ensures forall x: Handle :: Bucket(x.hash, length) != b ==> (x in PutMembers(chain, k, h, members) <==> x in members)
  {
    hide Bucket, Chain, PutChain, NoRepeats, PutLinks;
    ChainPut(links, first, chain, k, h);
    PutElements(chain, k, h);
    PutElsewhere(links, chain, k, h);
    ReplacedHere(chain, k, members, b, length);
    var chain', members' := PutChain(chain, k, h), PutMembers(chain, k, h, members);
    forall x | x in members' && Bucket(x.hash, length) == b ensures x in chain' { PutHas(chain, k, h, x); }
    forall x | x in chain' ensures x in members' && Bucket(x.hash, length) == b { PutHas(chain, k, h, x); }
  }

  lemma PutHas(chain: seq<Handle>, k: nat, h: Handle, x: Handle)
    requires NoRepeats(chain) && h !in chain && k <= |chain|
    ensures x in PutChain(chain, k, h) <==> x == h || (x in chain && (k < |chain| ==> x != chain[k]))
  {
    PutElements(chain, k, h);
  }

  // Only the handles at k - 1 and k, which are of this bucket, are touched.
  lemma ReplacedHere(chain: seq<Handle>, k: nat, members: set<Handle>, b: nat, length: nat)
    requires length > 0 && k <= |chain| && forall x :: x in chain ==> x in members && Bucket(x.hash, length) == b
    ensures k > 0 ==> Bucket(chain[k - 1].hash, length) == b
    ensures k < |chain| ==> chain[k] in members && Bucket(chain[k].hash, length) == b
  {
    hide Bucket;
    assert k > 0 ==> chain[k - 1] in chain;
    assert k < |chain| ==> chain[k] in chain;
  }

  lemma PutElsewhere(links: Pointers, chain: seq<Handle>, k: nat, h: Handle)
    requires k <= |chain|
    ensures forall x :: x in links && x != h && (k > 0 ==> x != chain[k - 1]) ==> x in PutLinks(links, chain, k, h) && PutLinks(links, chain, k, h)[x] == links[x]
  {
  }

  lemma TableDrop(links: Pointers, list: seq<Handle?>, chains: seq<seq<Handle>>, members: set<Handle>, b: nat, k: nat)
    requires Table(links, list, chains, members) && b < |list| && k < |chains[b]|
    ensures Table(DropLinks(links, chains[b], k), if k == 0 then list[b := NodeAt(chains[b], 1)] else list,
                  chains[b := DropChain(chains[b], k)], members - {chains[b][k]})
  {
    var chain := chains[b];
    ChainDrop(links, list[b], chain, k);
    DropElements(chain, k);
    var links', members' := DropLinks(links, chain, k), members - {chain[k]};
    assert chain[k] in chain && (k > 0 ==> chain[k - 1] in chain);
    hide Chain, DropChain, Bucket;
    assert Holds(links', if k == 0 then NodeAt(chain, 1) else list[b], DropChain(chain, k), members', b, |list|);
    forall c | 0 <= c < |list| && c != b ensures Holds(links', list[c], chains[c], members', c, |list|) {
      OtherBucket(links, links', list[c], chains[c], members, members', b, c, |list|);
    }
  }

  lemma KeysAfterPut(members: set<Handle>, chain: seq<Handle>, k: nat, h: Handle)
    requires KeysDiffer(members) && k <= |chain| && h !in members
    requires if k < |chain| then chain[k] in members && Same(chain[k], h.key, h.hash) else forall g :: g in members ==> !Same(g, h.key, h.hash)
    ensures KeysDiffer(PutMembers(chain, k, h, members))
  {
  }

  lemma MembersAfterPut(members: set<Handle>, chain: seq<Handle>, k: nat, h: Handle)
    requires k <= |chain|
    ensures k < |chain| ==> PutMembers(chain, k, h, members) == members - {chain[k]} + {h}
    ensures k == |chain| ==> PutMembers(chain, k, h, members) == members + {h}
  {
  }

  lemma CountAfterPut(members: set<Handle>, chain: seq<Handle>, k: nat, h: Handle)
    requires k <= |chain| && h !in members && (k < |chain| ==> chain[k] in members)
    ensures |PutMembers(chain, k, h, members)| == |members| + if k < |chain| then 0 else 1
  {
  }

  ghost function FirstOf(chain: seq<Handle>, k: nat): set<Handle>
    requires k <= |chain|
  {
    set j | 0 <= j < k :: chain[j]
  }

  lemma OnChain(links: Pointers, list: seq<Handle?>, chains: seq<seq<Handle>>, members: set<Handle>, i: nat, k: nat)
    requires Table(links, list, chains, members) && i < |list| && k <= |chains[i]|
    ensures list[i] == NodeAt(chains[i], 0)
    ensures k < |chains[i]| ==> chains[i][k] in members && chains[i][k] in links && links[chains[i][k]] == NodeAt(chains[i], k + 1)
  {
    assert Holds(links, list[i], chains[i], members, i, |list|);
    if k < |chains[i]| { assert chains[i][k] in chains[i]; }
  }

  lemma ChainFront(links: Pointers, first: Handle?, chain: seq<Handle>, h: Handle)
    requires Chain(links, first, chain) && NoRepeats(chain) && h !in chain
    ensures Chain(links[h := first], h, [h] + chain) && NoRepeats([h] + chain)
  {
    var r := [h] + chain;
    forall k | 0 <= k < |r| ensures r[k] in links[h := first] && links[h := first][r[k]] == NodeAt(r, k + 1) {
      if k > 0 { assert chain[k - 1] in chain; }
    }
  }

  // An entry joins the front of its chain.
  lemma TableFront(links: Pointers, list: seq<Handle?>, chains: seq<seq<Handle>>, members: set<Handle>, h: Handle)
    requires Table(links, list, chains, members) && h !in members
    ensures var b := Bucket(h.hash, |list|);
            Table(links[h := list[b]], list[b := h], chains[b := [h] + chains[b]], members + {h})
  {
    var b := Bucket(h.hash, |list|);
    assert Holds(links, list[b], chains[b], members, b, |list|);
    ChainFront(links, list[b], chains[b], h);
    var links', members' := links[h := list[b]], members + {h};
    hide Chain, Bucket;
    assert Holds(links', h, [h] + chains[b], members', b, |list|);
    forall c | 0 <= c < |list| && c != b ensures Holds(links', list[c], chains[c], members', c, |list|) {
      OtherBucket(links, links', list[c], chains[c], members, members', b, c, |list|);
    }
  }

  // The first of length, 2 * length, ... that is large enough.
  function Doubled(length: nat, n: nat): (r: nat)
    requires length > 0
    ensures r >= n && r >= length && (r == length || r < 2 * n)
    decreases n - length
  {
    if length < n then Doubled(2 * length, n) else length
  }

  lemma {:induction false} DoubledIsPower(k: nat, n: nat) returns (j: nat)
    ensures Doubled(Pow2(k), n) == Pow2(j)
    decreases n - Pow2(k)
  {
    j := k;
    if Pow2(k) < n { j := DoubledIsPower(k + 1, n); }
  }

  lemma EmptyTable(links: Pointers, list: seq<Handle?>, chains: seq<seq<Handle>>)
    requires |list| == |chains| > 0 && forall b :: 0 <= b < |list| ==> list[b] == null && chains[b] == []
    ensures Table(links, list, chains, {})
  {
  }

  lemma FewerKeys(members: set<Handle>, fewer: set<Handle>)
    requires KeysDiffer(members) && fewer <= members
    ensures KeysDiffer(fewer)
  {
  }
}
