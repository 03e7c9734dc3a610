/** The memtable's skip list (db/skiplist.h), with its nodes and next pointers.

    Readers run beside one writer, so `Valid` is not only kept by Insert as a whole: it holds after
    every single pointer store inside Insert. */
module SkipList {
  import opened Keys
  import opened Reads
  import opened Versions
  import opened CompactionMerge

  const kMaxHeight: nat := 12

  class Node {
    const entry: Entry
    var next: seq<Node?>                         // next_[0] is the lowest level

    constructor (entry: Entry, height: nat)
      ensures this.entry == entry && next == seq(height, _ => null)
    {
      this.entry := entry;
      next := seq(height, _ => null);
    }
  }

  // The nodes of one level are in key order.
  ghost predicate Ascending(nodes: seq<Node>) {
    forall i, j :: 0 <= i < j < |nodes| ==> nodes[i].entry.key.Before(nodes[j].entry.key)
  }

  ghost function EntriesOf(nodes: seq<Node>): (es: seq<Entry>)
    ensures |es| == |nodes| && forall i :: 0 <= i < |es| ==> es[i] == nodes[i].entry
  {
    seq(|nodes|, i requires 0 <= i < |nodes| => nodes[i].entry)
  }

  // The next pointers of some nodes.
  type Links = map<Node, seq<Node?>>

  ghost function LinksOf(nodes: set<Node>): Links
    reads nodes
  {
    map n | n in nodes :: n.next
  }

  ghost predicate PointsTo(links: Links, from: Node, level: nat, to: Node?) {
    from in links && level < |links[from]| && links[from][level] == to
  }

  ghost function NodeAt(nodes: seq<Node>, k: nat): Node? { if k < |nodes| then nodes[k] else null }

  // The pointers of one level run through its nodes.
  ghost predicate Linked(links: Links, head: Node, nodes: seq<Node>, level: nat) {
    && PointsTo(links, head, level, NodeAt(nodes, 0))
    && forall k :: 0 <= k < |nodes| ==> PointsTo(links, nodes[k], level, NodeAt(nodes, k + 1))
  }

  ghost predicate Among(nodes: seq<Node>, all: set<Node>) { forall n :: n in nodes ==> n in all }

  ghost predicate Sublist(upper: seq<Node>, lower: seq<Node>) { forall n :: n in upper ==> n in lower }

  // How many nodes come before the key.
  ghost predicate Splits(nodes: seq<Node>, key: InternalKey, n: nat) {
    && n <= |nodes|
    && (forall i :: 0 <= i < n ==> nodes[i].entry.key.Before(key))
    && (forall i :: n <= i < |nodes| ==> !nodes[i].entry.key.Before(key))
  }

  // The node before position n of a level: the head, or a node of the level.
  ghost function NodeBefore(head: Node, nodes: seq<Node>, n: nat): Node
    requires n <= |nodes|
  {
    if n == 0 then head else nodes[n - 1]
  }

  lemma NextOf(links: Links, head: Node, nodes: seq<Node>, level: nat, n: nat)
    requires Linked(links, head, nodes, level) && n <= |nodes|
    ensures PointsTo(links, NodeBefore(head, nodes, n), level, NodeAt(nodes, n))
  {
  }

  // Where a node of a level stands.
  lemma Position(nodes: seq<Node>, x: Node) returns (n: nat)
    requires x in nodes
    ensures 0 < n <= |nodes| && nodes[n - 1] == x
  {
    var i :| 0 <= i < |nodes| && nodes[i] == x;
    n := i + 1;
  }

  lemma SplitsHere(nodes: seq<Node>, key: InternalKey, n: nat)
    requires Ascending(nodes) && n <= |nodes|
    requires n > 0 ==> nodes[n - 1].entry.key.Before(key)
    requires n < |nodes| ==> !nodes[n].entry.key.Before(key)
    ensures Splits(nodes, key, n)
  {
    forall i | 0 <= i < n ensures nodes[i].entry.key.Before(key) {
      if i < n - 1 { assert nodes[i].entry.key.Before(nodes[n - 1].entry.key); }
    }
    forall i | n <= i < |nodes| ensures !nodes[i].entry.key.Before(key) {
      if n < i { assert nodes[n].entry.key.Before(nodes[i].entry.key); }
    }
  }

  lemma OnlyAt(nodes: seq<Node>, key: InternalKey, n: nat)
    requires Ascending(nodes) && Splits(nodes, key, n)
    ensures forall i :: 0 <= i < |nodes| && nodes[i].entry.key == key ==> i == n
  {
    forall i | 0 <= i < |nodes| && nodes[i].entry.key == key ensures i <= n {
      InOrder(nodes, n, i);
    }
  }

  lemma InOrder(nodes: seq<Node>, i: int, j: int)
    requires Ascending(nodes)
    ensures 0 <= i < j < |nodes| ==> nodes[i].entry.key.Before(nodes[j].entry.key)
  {
  }

  // The pointers after one store.
  ghost function AfterStore(links: Links, prev: Node, level: nat, x: Node): Links
    requires prev in links && level < |links[prev]|
  {
    links[prev := links[prev][level := x]]
  }

  // A store on one level leaves the other levels as they are.
  lemma OtherLinked(links: Links, head: Node, nodes: seq<Node>, l: nat, prev: Node, level: nat, x: Node)
    requires Linked(links, head, nodes, l) && l != level && prev in links && level < |links[prev]|
    ensures Linked(AfterStore(links, prev, level, x), head, nodes, l)
  {
  }

  // ... and that level now runs through x as well.
  lemma NowLinked(links: Links, head: Node, nodes: seq<Node>, level: nat, n: nat, prev: Node, x: Node)
    requires Linked(links, head, nodes, level) && n <= |nodes| && prev == NodeBefore(head, nodes, n)
    requires Ascending(nodes) && head !in nodes && x != head && x !in nodes
    requires PointsTo(links, x, level, NodeAt(nodes, n))
    ensures prev in links && level < |links[prev]|
    ensures Linked(AfterStore(links, prev, level, x), head, Put(nodes, n, x), level)
  {
    NextOf(links, head, nodes, level, n);
    var r, links' := Put(nodes, n, x), AfterStore(links, prev, level, x);
    assert n > 0 ==> nodes[n - 1] in nodes;
    forall k | 0 <= k < |r| ensures PointsTo(links', r[k], level, NodeAt(r, k + 1)) {
      if k < n {
        assert nodes[k] in nodes;
        InOrder(nodes, k, n - 1);
        assert PointsTo(links, nodes[k], level, NodeAt(nodes, k + 1));
      } else if k > n {
        assert nodes[k - 1] in nodes;
        if n > 0 { InOrder(nodes, n - 1, k - 1); }
        assert PointsTo(links, nodes[k - 1], level, NodeAt(nodes, k));
      }
    }
    assert PointsTo(links', head, level, NodeAt(r, 0));
  }

  // Pointers of nodes outside the level do not matter to it.
  lemma LinkedSame(links: Links, links': Links, head: Node, nodes: seq<Node>, level: nat)
    requires Linked(links, head, nodes, level)
    requires head in links' && links'[head] == links[head] && forall y :: y in nodes ==> y in links' && (y in links ==> links'[y] == links[y])
    ensures Linked(links', head, nodes, level)
  {
  }

  function Repeated<T>(x: T, n: nat): (r: seq<T>)
    ensures |r| == n && forall i :: 0 <= i < n ==> r[i] == x
  {
    seq(n, _ => x)
  }

  // From level `from` up, prev holds the last node before the key, which stands before position at.
  ghost predicate Predecessors(head: Node, levels: seq<seq<Node>>, key: InternalKey, prev: seq<Node>, at: seq<nat>, from: nat)
    requires |prev| == |at| <= |levels|
  {
    forall l :: from <= l < |prev| ==> Splits(levels[l], key, at[l]) && prev[l] == NodeBefore(head, levels[l], at[l])
  }

  lemma NoneYet(head: Node, levels: seq<seq<Node>>, key: InternalKey, prev: seq<Node>, at: seq<nat>)
    requires |prev| == |at| <= |levels|
    ensures Predecessors(head, levels, key, prev, at, |prev|)
  {
  }

  lemma OneMore(head: Node, levels: seq<seq<Node>>, key: InternalKey, prev: seq<Node>, at: seq<nat>, level: nat, n: nat, x: Node)
    requires |prev| == |at| <= |levels| && level < |prev| && Predecessors(head, levels, key, prev, at, level + 1)
    requires Splits(levels[level], key, n) && x == NodeBefore(head, levels[level], n)
    ensures Predecessors(head, levels, key, prev[level := x], at[level := n], level)
  {
  }

  lemma EmptyAbove(head: Node, levels: seq<seq<Node>>, key: InternalKey, prev: seq<Node>, at: seq<nat>, height: nat)
    requires |prev| == |at| <= height <= |levels| && Predecessors(head, levels, key, prev, at, 0)
    requires forall l :: |prev| <= l < height ==> levels[l] == []
    ensures Predecessors(head, levels, key, prev + Repeated(head, height - |prev|), at + Repeated(0, height - |prev|), 0)
  {
  }

  // Every level is in strict order and a sublist of the level below.
  ghost predicate Shape(head: Node, levels: seq<seq<Node>>, nodes: set<Node>, maxHeight: nat) {
    && |levels| == kMaxHeight && 1 <= maxHeight <= kMaxHeight
    && head !in nodes && nodes == (set n | n in levels[0])
    && (forall l :: 0 <= l < kMaxHeight ==> Among(levels[l], nodes) && Ascending(levels[l]))
    && (forall l :: 0 <= l < kMaxHeight - 1 ==> Sublist(levels[l + 1], levels[l]))
    && (forall l :: maxHeight <= l < kMaxHeight ==> levels[l] == [])
  }

  lemma ShapeGrows(head: Node, levels: seq<seq<Node>>, nodes: set<Node>, maxHeight: nat, level: nat, n: nat, x: Node)
    requires Shape(head, levels, nodes, maxHeight) && level < maxHeight && x != head
    requires if level == 0 then x !in nodes else x in levels[level - 1]
    requires Splits(levels[level], x.entry.key, n) && forall y :: y in levels[level] ==> y.entry.key != x.entry.key
    ensures Shape(head, levels[level := Put(levels[level], n, x)], nodes + {x}, maxHeight)
  {
    PutAscends(levels[level], n, x);
    hide Splits, Put, Ascending;
    var levels' := levels[level := Put(levels[level], n, x)];
    if level > 0 {
      assert Among(levels[level - 1], nodes) && Sublist(levels[level - 1 + 1], levels[level - 1]);
    }
    forall l | 0 <= l < kMaxHeight - 1 ensures Sublist(levels'[l + 1], levels'[l]) {
      assert Sublist(levels[l + 1], levels[l]);
    }
  }

  class SkipList {
    const head: Node
    var maxHeight: nat                           // max_height_
    ghost var levels: seq<seq<Node>>             // the nodes of each level, in pointer order
    ghost var nodes: set<Node>                   // all of them

    ghost predicate Valid()
      reads this, head, nodes
    {
      && Shape(head, levels, nodes, maxHeight)
      && forall l :: 0 <= l < kMaxHeight ==> Linked(LinksOf(nodes + {head}), head, levels[l], l)
    }

    // The entries in order.
    ghost function Contents(): (es: seq<Entry>)
      reads this, head, nodes
      requires Valid()
      ensures Sorted(es)
    {
      EntriesOf(levels[0])
    }

    lemma Heights()
      requires Valid()
      ensures 1 <= maxHeight <= kMaxHeight == |levels|
    {
    }

    // A search stands at x, before position n of a level, and x is before the bound.
    ghost predicate At(x: Node, level: nat, n: nat, bound: Option<InternalKey>)
      reads this
    {
      && level < maxHeight <= |levels| && n <= |levels[level]| && x == NodeBefore(head, levels[level], n)
      && (n > 0 && bound.Some? ==> x.entry.key.Before(bound.value))
    }

    // How far the search can still go on its level.
    ghost function Ahead(level: nat, n: nat): nat
      reads this
    {
      if level < |levels| && n <= |levels[level]| then |levels[level]| - n else 0
    }

    lemma AtHead(bound: Option<InternalKey>)
      requires Valid()
      ensures At(head, maxHeight - 1, 0, bound) && 1 <= maxHeight <= kMaxHeight == |levels|
    {
    }

    // x->Next(level)
    lemma Follow(x: Node, level: nat, n: nat, bound: Option<InternalKey>)
      requires Valid() && At(x, level, n, bound)
      ensures level < |x.next| && x.next[level] == NodeAt(levels[level], n)
    {
      NextOf(LinksOf(nodes + {head}), head, levels[level], level, n);
    }

    // One node to the right.
    lemma Right(x: Node, level: nat, n: nat, bound: Option<InternalKey>)
      requires Valid() && At(x, level, n, bound) && level < |x.next|
      requires x.next[level] != null && (bound.Some? ==> x.next[level].entry.key.Before(bound.value))
      ensures At(x.next[level], level, n + 1, bound) && Ahead(level, n + 1) < Ahead(level, n)
    {
      Follow(x, level, n, bound);
    }

    // The same node on the level below.
    lemma Down(x: Node, level: nat, n: nat, bound: Option<InternalKey>) returns (m: nat)
      requires Valid() && At(x, level, n, bound) && level > 0
      ensures At(x, level - 1, m, bound)
    {
      m := 0;
      if n > 0 {
        assert Sublist(levels[level - 1 + 1], levels[level - 1]);
        assert levels[level][n - 1] in levels[level];
        m := Position(levels[level - 1], levels[level][n - 1]);
      }
    }

    lemma AtEnd(x: Node, n: nat)
      requires Valid() && At(x, 0, n, None) && 0 < |x.next| && x.next[0] == null
      ensures x == NodeBefore(head, levels[0], |levels[0]|)
    {
      Follow(x, 0, n, None);
    }

    // The next node of the level is not before the key.
    lemma StopsHere(x: Node, level: nat, n: nat, key: InternalKey)
      requires Valid() && At(x, level, n, Some(key)) && level < |x.next|
      requires x.next[level] != null ==> !x.next[level].entry.key.Before(key)
      ensures Splits(levels[level], key, n) && x == NodeBefore(head, levels[level], n)
    {
      Follow(x, level, n, Some(key));
      SplitsHere(levels[level], key, n);
    }

    constructor ()
      ensures Valid() && Contents() == [] && fresh(head) && nodes == {}
    {
      head := new Node(Entry(InternalKey(0.0, 0, kTypeDeletion), []), kMaxHeight);
      maxHeight := 1;
      levels := seq(kMaxHeight, _ => []);
      nodes := {};
    }

    predicate KeyIsAfterNode(key: InternalKey, n: Node?) { n != null && n.entry.key.Before(key) }

    // FindGreaterOrEqual; prev[l] is the last node before the key on level l.
    method FindGreaterOrEqual(key: InternalKey) returns (r: Node?, prev: seq<Node>, ghost at: seq<nat>)
      requires Valid()
      ensures |prev| == |at| == maxHeight <= |levels| && Predecessors(head, levels, key, prev, at, 0)
      ensures r == NodeAt(levels[0], at[0])
    {
      hide Valid, At, Ahead, Predecessors, NodeBefore, NodeAt, Splits, Repeated;
      AtHead(Some(key));
      var x: Node, level := head, maxHeight - 1;
      prev, at := Repeated(head, maxHeight), Repeated(0, maxHeight);
      NoneYet(head, levels, key, prev, at);
      ghost var n: nat := 0;
      while true
        invariant 0 <= level < maxHeight && At(x, level, n, Some(key))
        invariant |prev| == |at| == maxHeight && Predecessors(head, levels, key, prev, at, level + 1)
        decreases level, Ahead(level, n)
      {
        Follow(x, level, n, Some(key));
        var next := x.next[level];
        if KeyIsAfterNode(key, next) {
          Right(x, level, n, Some(key));
          x, n := next, n + 1;                   // keep searching in this list
        } else {
          StopsHere(x, level, n, key);
          OneMore(head, levels, key, prev, at, level, n, x);
          prev, at := prev[level := x], at[level := n];
          if level == 0 { return next, prev, at; }
          n := Down(x, level, n, Some(key));
          level := level - 1;                    // switch to the next list
        }
      }
    }

    // FindLessThan: the last node before the key, or the head.
    method FindLessThan(key: InternalKey) returns (x: Node, ghost n: nat)
      requires Valid()
      ensures |levels| > 0 && Splits(levels[0], key, n) && x == NodeBefore(head, levels[0], n)
    {
      hide Valid, At, Ahead, NodeBefore, Splits;
      AtHead(Some(key));
      var level := maxHeight - 1;
      x, n := head, 0;
      while true
        invariant 0 <= level < maxHeight && At(x, level, n, Some(key))
        decreases level, Ahead(level, n)
      {
        Follow(x, level, n, Some(key));
        var next := x.next[level];
        if next == null || !next.entry.key.Before(key) {
          if level == 0 {
            StopsHere(x, 0, n, key);
            return;
          }
          n := Down(x, level, n, Some(key));
          level := level - 1;
        } else {
          Right(x, level, n, Some(key));
          x, n := next, n + 1;
        }
      }
    }

    // FindLast: the last node, or the head.
    method FindLast() returns (x: Node)
      requires Valid()
      ensures |levels| > 0 && x == NodeBefore(head, levels[0], |levels[0]|)
    {
      hide Valid, At, Ahead, NodeBefore, NodeAt;
      AtHead(None);
      var level := maxHeight - 1;
      x := head;
      ghost var n: nat := 0;
      while true
        invariant 0 <= level < maxHeight && At(x, level, n, None)
        decreases level, Ahead(level, n)
      {
        Follow(x, level, n, None);
        var next := x.next[level];
        if next == null {
          if level == 0 {
            AtEnd(x, n);
            return;
          }
          n := Down(x, level, n, None);
          level := level - 1;
        } else {
          Right(x, level, n, None);
          x, n := next, n + 1;
        }
      }
    }

    method Contains(key: InternalKey) returns (found: bool)
      requires Valid()
      ensures found <==> exists i :: 0 <= i < |Contents()| && Contents()[i].key == key
    {
      var x, prev;
      ghost var at;
      x, prev, at := FindGreaterOrEqual(key);
      found := x != null && x.entry.key == key;
      if found { assert Contents()[at[0]].key == key; }
      OnlyAt(levels[0], key, at[0]);
    }

    // Iterator::Prev: there are no backward links, so search for the last node before this one.
    method Prev(x: Node, ghost i: nat) returns (r: Node?)
      requires Valid() && |levels| > 0 && i < |levels[0]| && levels[0][i] == x
      ensures r == if i == 0 then null else levels[0][i - 1]
    {
      ghost var n;
      var p: Node;
      p, n := FindLessThan(x.entry.key);
      PlaceOf(i, n);
      r := if p == head then null else p;
    }

    lemma PlaceOf(i: nat, n: nat)
      requires Valid() && |levels| > 0 && i < |levels[0]| && Splits(levels[0], levels[0][i].entry.key, n)
      ensures n == i && (i > 0 ==> levels[0][i - 1] != head)
    {
      InOrder(levels[0], n, i);
      InOrder(levels[0], i, n - 1);
      if i > 0 { assert levels[0][i - 1] in levels[0]; }
    }

    // MemTable::Get: seek to the lookup key and compare user keys.
    method Get(user: UserKey, s: nat) returns (r: Option<Entry>)
      requires Valid() && AllParse(Contents())
      ensures IsNewest(Elements(Contents()), user, s, r)
    {
      var x, prev;
      ghost var at;
      x, prev, at := FindGreaterOrEqual(SeekKey(user, s));
      r := if x != null && x.entry.key.user == user then Some(x.entry) else None;
      SeekFindsNewest(Contents(), user, s, at[0]);
      assert r == Matching(Contents(), at[0], user);
    }

    // Insert, with the height RandomHeight chose.
    method Insert(entry: Entry, height: nat)
      requires Valid() && 1 <= height <= kMaxHeight && NewKey(Contents(), entry)
      modifies this, head, nodes
      ensures Valid() && Contents() == Inserted(old(Contents()), entry)
      ensures fresh(nodes - old(nodes))
    {
      hide Valid, Predecessors, Put, Inserted, NewKey, Inserting, Splits, Sorted, Ascending;
      Distinct(entry);
      Heights();
      ghost var all, before := nodes, levels;
      var prev;
      ghost var at;
      prev, at := FindPrev(entry.key, height);
      var x := new Node(entry, height);
      assert x !in all && x != head;
      NoneInserted(before, at, x);
      for i := 0 to height
        invariant Valid() && height <= maxHeight <= kMaxHeight && |x.next| == height && x != head
        invariant height <= |prev| == |at| <= kMaxHeight == |before| == |levels| && Inserting(before, levels, at, x, i)
        invariant nodes == if i == 0 then all else all + {x}
      {
        InsertAt(head, before, levels, entry.key, prev, at, i, x);
        assert Among(before[i], all);
        LevelFacts(i, entry.key, at[i]);
        PointForward(i, x, prev[i], at[i]);
        ghost var was := levels;
        Publish(i, x, prev[i], at[i]);
        OneInserted(before, was, at, i, x);
      }
      LastInserted(head, before, levels, entry.key, prev, at, height, x);
    }

    // The search of Insert, and the head for the levels the list did not have yet.
    method FindPrev(key: InternalKey, height: nat) returns (prev: seq<Node>, ghost at: seq<nat>)
      requires Valid() && 1 <= height <= kMaxHeight
      modifies this`maxHeight
      ensures Valid() && height <= maxHeight == |prev| == |at| <= kMaxHeight == |levels|
      ensures Predecessors(head, levels, key, prev, at, 0)
    {
      hide Predecessors, Linked, Ascending, Among, Sublist;
      Heights();
      var r;
      r, prev, at := FindGreaterOrEqual(key);
      if height > maxHeight {
        NothingAbove(height);
        EmptyAbove(head, levels, key, prev, at, height);
        prev, at := prev + Repeated(head, height - maxHeight), at + Repeated(0, height - maxHeight);
        maxHeight := height;
      }
    }

    lemma NothingAbove(height: nat)
      requires Valid() && height <= kMaxHeight
      ensures forall l :: maxHeight <= l < height ==> levels[l] == []
    {
    }

    // The new key is nowhere in the list.
    lemma Distinct(entry: Entry)
      requires Valid() && NewKey(Contents(), entry)
      ensures Sorted(EntriesOf(levels[0])) && Ascending(levels[0])
      ensures forall l :: 0 <= l < kMaxHeight ==> Among(levels[l], nodes)
      ensures forall y :: y in nodes ==> y.entry.key != entry.key
    {
      assert Sorted(Contents());
      forall y | y in nodes ensures y.entry.key != entry.key {
        var k :| 0 <= k < |levels[0]| && levels[0][k] == y;
        assert Contents()[k] == y.entry;
      }
    }

    // x->NoBarrier_SetNext: the new node points onward; nothing points to it on this level yet.
    method PointForward(level: nat, x: Node, prev: Node, ghost n: nat)
      requires Valid() && level < |x.next| && level < kMaxHeight && x != head && x !in levels[level]
      requires n <= |levels[level]| && prev == NodeBefore(head, levels[level], n)
      modifies x`next
      ensures Valid() && |x.next| == |old(x.next)|
      ensures x.next[level] == NodeAt(levels[level], n)
    {
      ghost var links := LinksOf(nodes + {head});
      NextOf(links, head, levels[level], level, n);
      x.next := x.next[level := prev.next[level]];
      forall l | 0 <= l < kMaxHeight ensures Linked(LinksOf(nodes + {head}), head, levels[l], l) {
        ForwardStore(links, LinksOf(nodes + {head}), l, x, level);
      }
    }

    lemma ForwardStore(links: Links, links': Links, l: nat, x: Node, level: nat)
      requires l < |levels| && Linked(links, head, levels[l], l) && x != head && (l == level ==> x !in levels[l])
      requires links'.Keys == links.Keys && forall y :: y in links && y != x ==> links'[y] == links[y]
      requires x in links ==> |links'[x]| == |links[x]| && forall k :: 0 <= k < |links[x]| && k != level ==> links'[x][k] == links[x][k]
      ensures Linked(links', head, levels[l], l)
    {
    }

    // prev[i]->SetNext: the new node joins one more level.
    method Publish(level: nat, x: Node, prev: Node, ghost n: nat)
      requires Valid() && level < |x.next| && level < maxHeight && x != head && x !in levels[level]
      requires if level == 0 then x !in nodes else x in levels[level - 1]
      requires Splits(levels[level], x.entry.key, n) && prev == NodeBefore(head, levels[level], n)
      requires x.next[level] == NodeAt(levels[level], n)
      requires forall y :: y in levels[level] ==> y.entry.key != x.entry.key
      modifies this`levels, this`nodes, prev`next
      ensures Valid() && nodes == old(nodes) + {x} && |x.next| == |old(x.next)|
      ensures levels == old(levels)[level := Put(old(levels)[level], n, x)]
    {
      hide Splits, Linked, Shape, Put;
      assert nodes + {x} + {head} == nodes + {head, x};
      ghost var links := LinksOf(nodes + {head, x});
      WithNewNode(links, x);
      LevelFacts(level, x.entry.key, n);
      NowLinked(links, head, levels[level], level, n, prev, x);
      prev.next := prev.next[level := x];
      assert LinksOf(nodes + {x} + {head}) == AfterStore(links, prev, level, x);
      forall l | 0 <= l < kMaxHeight && l != level ensures Linked(AfterStore(links, prev, level, x), head, levels[l], l) {
        OtherLinked(links, head, levels[l], l, prev, level, x);
      }
      ShapeGrows(head, levels, nodes, maxHeight, level, n, x);
      levels := levels[level := Put(levels[level], n, x)];
      nodes := nodes + {x};
    }

    lemma WithNewNode(links: Links, x: Node)
      requires Valid() && links == LinksOf(nodes + {head, x})
      ensures forall l :: 0 <= l < kMaxHeight ==> Linked(links, head, levels[l], l)
    {
      forall l | 0 <= l < kMaxHeight ensures Linked(links, head, levels[l], l) {
        LinkedSame(LinksOf(nodes + {head}), links, head, levels[l], l);
      }
    }

    lemma LevelFacts(level: nat, key: InternalKey, n: nat)
      requires Valid() && level < maxHeight && Splits(levels[level], key, n)
      ensures level < kMaxHeight == |levels| && n <= |levels[level]| && Ascending(levels[level]) && head !in levels[level]
      ensures NodeBefore(head, levels[level], n) in nodes + {head}
    {
    }
  }

  function Put(nodes: seq<Node>, n: nat, x: Node): (r: seq<Node>)
    requires n <= |nodes|
    ensures |r| == |nodes| + 1 && r[n] == x
    ensures forall i :: 0 <= i < n ==> r[i] == nodes[i]
    ensures forall i :: n < i < |r| ==> r[i] == nodes[i - 1]
  {
    nodes[..n] + [x] + nodes[n..]
  }

  // The new node has joined the levels below i.
  ghost predicate Inserting(before: seq<seq<Node>>, levels: seq<seq<Node>>, at: seq<nat>, x: Node, i: nat)
    requires i <= |at| <= |before|
  {
    && |levels| == |before|
    && (forall l :: 0 <= l < i ==> at[l] <= |before[l]| && levels[l] == Put(before[l], at[l], x))
    && (forall l :: i <= l < |before| ==> levels[l] == before[l])
  }

  lemma NoneInserted(before: seq<seq<Node>>, at: seq<nat>, x: Node)
    requires |at| <= |before|
    ensures Inserting(before, before, at, x, 0)
  {
  }

  lemma InsertAt(head: Node, before: seq<seq<Node>>, levels: seq<seq<Node>>, key: InternalKey, prev: seq<Node>, at: seq<nat>, i: nat, x: Node)
    requires i < |prev| == |at| <= |before| && Predecessors(head, before, key, prev, at, 0) && Inserting(before, levels, at, x, i)
    ensures |levels| == |before| && levels[i] == before[i]
    ensures Splits(levels[i], key, at[i]) && at[i] <= |levels[i]| && prev[i] == NodeBefore(head, levels[i], at[i])
    ensures i > 0 ==> x in levels[i - 1]
  {
    if i > 0 { assert levels[i - 1][at[i - 1]] == x; }
  }

  lemma OneInserted(before: seq<seq<Node>>, levels: seq<seq<Node>>, at: seq<nat>, i: nat, x: Node)
    requires i < |at| <= |before| && Inserting(before, levels, at, x, i) && at[i] <= |levels[i]|
    ensures Inserting(before, levels[i := Put(levels[i], at[i], x)], at, x, i + 1)
  {
  }

  lemma LastInserted(head: Node, before: seq<seq<Node>>, levels: seq<seq<Node>>, key: InternalKey, prev: seq<Node>, at: seq<nat>, height: nat, x: Node)
    requires 1 <= height <= |prev| == |at| <= |before| && Inserting(before, levels, at, x, height) && key == x.entry.key
    requires Predecessors(head, before, key, prev, at, 0) && Ascending(before[0])
    requires Sorted(EntriesOf(before[0])) && NewKey(EntriesOf(before[0]), x.entry)
    ensures |levels| > 0 && EntriesOf(levels[0]) == Inserted(EntriesOf(before[0]), x.entry)
  {
    PutIsInserted(before[0], at[0], x);
  }

  lemma {:induction false} InsertedAt(es: seq<Entry>, e: Entry, n: nat)
    requires Sorted(es) && NewKey(es, e) && n <= |es|
    requires forall i :: 0 <= i < n ==> es[i].key.Before(e.key)
    requires forall i :: n <= i < |es| ==> !es[i].key.Before(e.key)
    ensures Inserted(es, e) == es[..n] + [e] + es[n..]
    decreases |es|
  {
    if es == [] {
    } else if n == 0 {
      TotalOrder(e.key, es[0].key);
    } else {
      InsertedAt(es[1..], e, n - 1);
      assert Inserted(es, e) == [es[0]] + Inserted(es[1..], e);
      hide Inserted, NewKey, Sorted;
      assert es[1..][..n - 1] == es[..n][1..] && es[1..][n - 1..] == es[n..];
      assert es[..n] == [es[0]] + es[..n][1..];
    }
  }

  lemma PutIsInserted(nodes: seq<Node>, n: nat, x: Node)
    requires Splits(nodes, x.entry.key, n) && Sorted(EntriesOf(nodes)) && NewKey(EntriesOf(nodes), x.entry)
    ensures EntriesOf(Put(nodes, n, x)) == Inserted(EntriesOf(nodes), x.entry)
  {
    hide Inserted, NewKey, Sorted;
    var es := EntriesOf(nodes);
    InsertedAt(es, x.entry, n);
    assert EntriesOf(Put(nodes, n, x)) == es[..n] + [x.entry] + es[n..];
  }

  lemma PutAscends(nodes: seq<Node>, n: nat, x: Node)
    requires Ascending(nodes) && Splits(nodes, x.entry.key, n)
    requires forall y :: y in nodes ==> y.entry.key != x.entry.key
    ensures Ascending(Put(nodes, n, x))
    ensures forall y :: y in Put(nodes, n, x) <==> y in nodes || y == x
  {
    var r := Put(nodes, n, x);
    forall i, j | 0 <= i < j < |r| ensures r[i].entry.key.Before(r[j].entry.key) {
      if i == n {
        assert nodes[j - 1] in nodes;
        TotalOrder(x.entry.key, nodes[j - 1].entry.key);
      }
    }
    assert nodes == nodes[..n] + nodes[n..];
  }

  lemma TotalOrder(a: InternalKey, b: InternalKey)
    ensures a.Before(b) || b.Before(a) || a == b
  {
  }
}
