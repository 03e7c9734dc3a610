/** Cache entries and the circular doubly linked lists they are threaded on (util/cache.cc). */
module LruList {
  import opened Keys

  // LRUHandle
  class Handle {
    const key: Bytes
    const hash: nat
    const value: Bytes
    const charge: nat
    var inCache: bool
    var refs: nat
    var next: Handle?
    var prev: Handle?
    var nextHash: Handle?

    constructor (key: Bytes, hash: nat, value: Bytes, charge: nat)
      ensures this.key == key && this.hash == hash && this.value == value && this.charge == charge
      ensures !inCache && refs == 1
    {
      this.key, this.hash, this.value, this.charge := key, hash, value, charge;
      inCache, refs := false, 1;
      next, prev, nextHash := null, null, null;
    }
  }

  // The pointers of some handles.
  type Pointers = map<Handle, Handle?>

  ghost function NextOf(handles: set<Handle>): Pointers
    reads handles`next
  {
    map h | h in handles :: h.next
  }

  ghost function PrevOf(handles: set<Handle>): Pointers
    reads handles`prev
  {
    map h | h in handles :: h.prev
  }

  // The ring: the head at 0, the nodes, and the head again.
  ghost function At(head: Handle, nodes: seq<Handle>, k: nat): Handle
    requires k <= |nodes| + 1
  {
    if k == 0 || k == |nodes| + 1 then head else nodes[k - 1]
  }

  ghost predicate Link(next: Pointers, prev: Pointers, a: Handle, b: Handle) {
    a in next && b in prev && next[a] == b && prev[b] == a
  }

  // head.next is the oldest node, head.prev the newest.
  ghost predicate Ring(next: Pointers, prev: Pointers, head: Handle, nodes: seq<Handle>) {
    && NoRepeats(nodes) && head !in nodes
    && forall k :: 0 <= k <= |nodes| ==> Link(next, prev, At(head, nodes, k), At(head, nodes, k + 1))
  }

  lemma OneNode(head: Handle, nodes: seq<Handle>, j: nat, k: nat)
    requires NoRepeats(nodes) && head !in nodes && j <= |nodes| + 1 && k <= |nodes| + 1
    ensures At(head, nodes, j) == At(head, nodes, k) ==>
              j == k || (j == 0 && k == |nodes| + 1) || (k == 0 && j == |nodes| + 1)
  {
    if 0 < j <= |nodes| { assert nodes[j - 1] in nodes; }
    if 0 < k <= |nodes| { assert nodes[k - 1] in nodes; }
  }

  // LRU_Remove of node number i.
  lemma RemovedRing(next: Pointers, prev: Pointers, head: Handle, nodes: seq<Handle>, i: nat)
    requires Ring(next, prev, head, nodes) && i < |nodes|
    ensures var a, b := At(head, nodes, i), At(head, nodes, i + 2);
            Link(next, prev, a, nodes[i]) && Link(next, prev, nodes[i], b)
            && Ring(next[a := b], prev[b := a], head, nodes[..i] + nodes[i + 1..])
  {
    var a, b := At(head, nodes, i), At(head, nodes, i + 2);
    var rest := nodes[..i] + nodes[i + 1..];
    assert Link(next, prev, At(head, nodes, i), At(head, nodes, i + 1));
    assert Link(next, prev, At(head, nodes, i + 1), At(head, nodes, i + 2));
    assert forall x :: x in rest ==> x in nodes;
    forall k | 0 <= k <= |rest| ensures Link(next[a := b], prev[b := a], At(head, rest, k), At(head, rest, k + 1)) {
      var j := if k < i then k else k + 1;
      assert At(head, rest, k) == if k <= i then At(head, nodes, k) else At(head, nodes, k + 1);
      assert At(head, rest, k + 1) == if k < i then At(head, nodes, k + 1) else At(head, nodes, k + 2);
      if k != i {
        assert Link(next, prev, At(head, nodes, j), At(head, nodes, j + 1));
        OneNode(head, nodes, j, i);
        OneNode(head, nodes, j + 1, i + 2);
      }
    }
  }

  // LRU_Append: e becomes the newest node.
  lemma AppendedRing(next: Pointers, prev: Pointers, head: Handle, nodes: seq<Handle>, e: Handle)
    requires Ring(next, prev, head, nodes) && e !in nodes && e != head
    ensures var last := At(head, nodes, |nodes|);
            Link(next, prev, last, head) && Ring(next[e := head][last := e], prev[e := last][head := e], head, nodes + [e])
  {
    var last, all := At(head, nodes, |nodes|), nodes + [e];
    assert Link(next, prev, At(head, nodes, |nodes|), At(head, nodes, |nodes| + 1));
    forall k | 0 <= k <= |all|
      ensures Link(next[e := head][last := e], prev[e := last][head := e], At(head, all, k), At(head, all, k + 1))
    {
      if k < |nodes| {
        assert Link(next, prev, At(head, nodes, k), At(head, nodes, k + 1));
        assert At(head, all, k) == At(head, nodes, k) && At(head, all, k + 1) == At(head, nodes, k + 1);
        OneNode(head, nodes, k, |nodes|);
      }
    }
  }

  // Pointers of other handles do not matter.
  lemma RingSame(next: Pointers, prev: Pointers, next': Pointers, prev': Pointers, head: Handle, nodes: seq<Handle>)
    requires Ring(next, prev, head, nodes)
    requires forall h :: h == head || h in nodes ==> h in next' && h in prev' && (h in next ==> next'[h] == next[h]) && (h in prev ==> prev'[h] == prev[h])
    ensures Ring(next', prev', head, nodes)
  {
    forall k | 0 <= k <= |nodes| ensures Link(next', prev', At(head, nodes, k), At(head, nodes, k + 1)) {
      assert Link(next, prev, At(head, nodes, k), At(head, nodes, k + 1));
    }
  }

  function SumCharges(nodes: seq<Handle>): nat {
    if nodes == [] then 0 else SumCharges(nodes[..|nodes| - 1]) + nodes[|nodes| - 1].charge
  }

  lemma {:induction false} SumParts(a: seq<Handle>, b: seq<Handle>)
    ensures SumCharges(a + b) == SumCharges(a) + SumCharges(b)
    decreases |b|
  {
    if b == [] {
      assert a + b == a;
    } else {
      assert (a + b)[..|a + b| - 1] == a + b[..|b| - 1];
      SumParts(a, b[..|b| - 1]);
    }
  }

  lemma SumOne(x: Handle)
    ensures SumCharges([x]) == x.charge
  {
    assert [x][..0] == [];
  }

  lemma {:induction false} SumWithout(nodes: seq<Handle>, i: nat)
    requires i < |nodes|
    ensures SumCharges(nodes[..i] + nodes[i + 1..]) + nodes[i].charge == SumCharges(nodes)
  {
    hide *;
    var before, after := nodes[..i], nodes[i + 1..];
    assert nodes == (before + [nodes[i]]) + after;
    SumParts(before + [nodes[i]], after);
    SumParts(before, [nodes[i]]);
    SumOne(nodes[i]);
    SumParts(before, after);
  }
}
