/** MergingIterator (table/merger.cc) refines a cursor over the sorted union of its children.

    Moving forward, every child stands at its first entry at or after the current place of the
    union; moving in reverse, at its last entry at or before it. */
module Merger {
  import opened Keys
  import opened Versions
  import opened Iterators

  datatype Direction = Forward | Reverse

  // Distinct child cursors over sorted runs sharing no entry; merged is their sorted union.
  ghost predicate Children(children: seq<Cursor>, merged: seq<Entry>) {
    && (forall i, j :: 0 <= i < j < |children| ==> children[i] != children[j])
    && (forall i :: 0 <= i < |children| ==> Within(children[i].entries, merged))
    && (forall i, j :: 0 <= i < |children| && 0 <= j < |children| && i != j ==>
          forall e :: e in children[i].entries ==> e !in children[j].entries)
    && IsUnion(merged, Runs(children))
  }

  ghost function Runs(children: seq<Cursor>): seq<seq<Entry>> {
    seq(|children|, i requires 0 <= i < |children| => children[i].entries)
  }

  ghost predicate Placed(child: Cursor, merged: seq<Entry>, p: int, d: Direction)
    reads child
    requires Within(child.entries, merged)
  {
    match d
    case Forward => AtOrAfter(child.entries, child.pos, merged, p)
    case Reverse => AtOrBefore(child.entries, child.pos, merged, p)
  }

  ghost predicate AllPlaced(children: seq<Cursor>, merged: seq<Entry>, p: int, d: Direction)
    reads children
    requires Children(children, merged)
  {
    forall i :: 0 <= i < |children| ==> Placed(children[i], merged, p, d)
  }

  // The child that holds the entry at place p.
  lemma Holder(children: seq<Cursor>, merged: seq<Entry>, p: nat) returns (i: nat)
    requires Children(children, merged) && p < |merged|
    ensures i < |children| && merged[p] in children[i].entries
    ensures forall j :: 0 <= j < |children| && j != i ==> merged[p] !in children[j].entries
  {
    assert merged[p] in merged;
    i :| 0 <= i < |children| && merged[p] in Runs(children)[i];
  }

  ghost predicate IsSmallest(children: seq<Cursor>, c: int)
    reads children
    requires -1 <= c < |children|
  {
    && (c == -1 ==> forall i :: 0 <= i < |children| ==> !children[i].Valid())
    && (c >= 0 ==> children[c].Valid() && forall i :: 0 <= i < |children| && children[i].Valid() ==>
                     children[c].Key().AtMost(children[i].Key()))
  }

  ghost predicate IsLargest(children: seq<Cursor>, c: int)
    reads children
    requires -1 <= c < |children|
  {
    && (c == -1 ==> forall i :: 0 <= i < |children| ==> !children[i].Valid())
    && (c >= 0 ==> children[c].Valid() && forall i :: 0 <= i < |children| && children[i].Valid() ==>
                     children[i].Key().AtMost(children[c].Key()))
  }

  // With every child at or after place p, the smallest child shows the entry at p.
  lemma SmallestShows(children: seq<Cursor>, merged: seq<Entry>, p: nat, c: int)
    requires Children(children, merged) && p <= |merged| && AllPlaced(children, merged, p, Forward)
    requires -1 <= c < |children| && IsSmallest(children, c)
    ensures c == -1 <==> p == |merged|
    ensures c >= 0 ==> p < |merged| && children[c].entries[children[c].pos] == merged[p]
  {
    if p < |merged| {
      var h := Holder(children, merged, p);
      ShowsForward(children[h].entries, children[h].pos, merged, p);
      if c >= 0 { ShownInOrder(children, merged, p, c); }
    } else if c >= 0 {
      ShownInOrder(children, merged, p, c);
    }
  }

  lemma ShownInOrder(children: seq<Cursor>, merged: seq<Entry>, p: nat, c: nat)
    requires Children(children, merged) && p <= |merged| && c < |children| && children[c].Valid()
    requires Placed(children[c], merged, p, Forward)
    ensures p < |merged| && merged[p].key.AtMost(children[c].Key())
    ensures children[c].Key().AtMost(merged[p].key) ==> children[c].entries[children[c].pos] == merged[p]
  {
    var e := children[c].entries[children[c].pos];
    SortedAt(merged, p, IndexOf(merged, e));
  }

  lemma LargestShows(children: seq<Cursor>, merged: seq<Entry>, p: int, c: int)
    requires Children(children, merged) && -1 <= p < |merged| && AllPlaced(children, merged, p, Reverse)
    requires -1 <= c < |children| && IsLargest(children, c)
    ensures c == -1 <==> p == -1
    ensures c >= 0 ==> p >= 0 && children[c].entries[children[c].pos] == merged[p]
  {
    if p >= 0 {
      var h := Holder(children, merged, p);
      ShowsBackward(children[h].entries, children[h].pos, merged, p);
      if c >= 0 { ShownInReverse(children, merged, p, c); }
    } else if c >= 0 {
      ShownInReverse(children, merged, p, c);
    }
  }

  lemma ShownInReverse(children: seq<Cursor>, merged: seq<Entry>, p: int, c: nat)
    requires Children(children, merged) && -1 <= p < |merged| && c < |children| && children[c].Valid()
    requires Placed(children[c], merged, p, Reverse)
    ensures p >= 0 && children[c].Key().AtMost(merged[p].key)
    ensures merged[p].key.AtMost(children[c].Key()) ==> children[c].entries[children[c].pos] == merged[p]
  {
    var e := children[c].entries[children[c].pos];
    SortedAt(merged, IndexOf(merged, e), p);
  }

  // child->Seek(k), then step past an entry equal to k.
  method SeekPast(child: Cursor, k: InternalKey)
    requires Sorted(child.entries)
    modifies child
    ensures IsUpperBound(child.entries, k, child.pos)
  {
    child.Seek(k);
    if child.Valid() {
      SortedAfter(child.entries, child.pos);
      if child.Key() == k { child.Next(); }
    }
  }

  lemma SortedAfter(es: seq<Entry>, i: nat)
    requires Sorted(es) && i < |es|
    ensures forall j :: i < j < |es| ==> es[i].key.Before(es[j].key)
  {
  }

  // child->Seek(k), then step back to the entry before k.
  method SeekBefore(child: Cursor, k: InternalKey, ghost merged: seq<Entry>, ghost p: nat)
    requires Within(child.entries, merged) && Sorted(merged) && p < |merged| && merged[p].key == k
    modifies child
    ensures AtOrBefore(child.entries, child.pos, merged, p - 1)
  {
    child.Seek(k);
    ghost var lb := child.pos;
    if child.Valid() { child.Prev(); } else { child.SeekToLast(); }
    SteppedBackPlace(child.entries, lb, child.pos, merged, p);
  }

  class MergingIterator {
    const children: seq<Cursor>
    ghost const merged: seq<Entry>
    var current: int                             // index of current_, -1 when it is null
    var direction: Direction
    ghost var place: int                         // index in merged of the current entry

    constructor (children: seq<Cursor>, ghost merged: seq<Entry>)
      requires Children(children, merged)
      ensures Valid() && this.children == children && this.merged == merged && Pos() == |merged|
    {
      this.children, this.merged := children, merged;
      current, direction, place := -1, Forward, 0;
    }

    ghost predicate Valid()
      reads this, children
    {
      && Children(children, merged)
      && -1 <= current < |children|
      && (current >= 0 ==>
            && 0 <= place < |merged| && AllPlaced(children, merged, place, direction)
            && children[current].Valid() && children[current].entries[children[current].pos] == merged[place])
    }

    // The abstract position: an index into merged, |merged| when not valid.
    ghost function Pos(): (p: nat)
      reads this, children
      requires Valid()
      ensures p <= |merged| && (current == -1 <==> p == |merged|)
    {
      if current == -1 then |merged| else place
    }

    function Current(): (e: Entry)
      reads this, children
      requires Valid() && current >= 0
      ensures e == merged[Pos()]
    {
      children[current].entries[children[current].pos]
    }

    method FindSmallest()
      modifies this`current
      ensures -1 <= current < |children| && IsSmallest(children, current)
    {
      var smallest := -1;
      for i := 0 to |children|
        invariant -1 <= smallest < i
        invariant smallest == -1 ==> forall j :: 0 <= j < i ==> !children[j].Valid()
        invariant smallest >= 0 ==>
                    && children[smallest].Valid()
                    && forall j :: 0 <= j < i && children[j].Valid() ==> children[smallest].Key().AtMost(children[j].Key())
      {
        if children[i].Valid() && (smallest == -1 || children[i].Key().Before(children[smallest].Key())) {
          smallest := i;
        }
      }
      current := smallest;
    }

    method FindLargest()
      modifies this`current
      ensures -1 <= current < |children| && IsLargest(children, current)
    {
      var largest := -1;
      for i := |children| downto 0
        invariant largest == -1 || i <= largest < |children|
        invariant largest == -1 ==> forall j :: i <= j < |children| ==> !children[j].Valid()
        invariant largest >= 0 ==>
                    && children[largest].Valid()
                    && forall j :: i <= j < |children| && children[j].Valid() ==> children[j].Key().AtMost(children[largest].Key())
      {
        if children[i].Valid() && (largest == -1 || children[largest].Key().Before(children[i].Key())) {
          largest := i;
        }
      }
      current := largest;
    }

    // FindSmallest with every child at or after place p.
    method SettleForward(ghost p: nat)
      requires Children(children, merged) && p <= |merged| && AllPlaced(children, merged, p, Forward)
      modifies this
      ensures Valid() && Pos() == p
    {
      FindSmallest();
      SmallestShows(children, merged, p, current);
      direction, place := Forward, p;
    }

    // FindLargest with every child at or before place p.
    method SettleReverse(ghost p: int)
      requires Children(children, merged) && -1 <= p < |merged| && AllPlaced(children, merged, p, Reverse)
      modifies this
      ensures Valid() && Pos() == if p == -1 then |merged| else p
    {
      FindLargest();
      LargestShows(children, merged, p, current);
      direction, place := Reverse, p;
    }

    method SeekToFirst()
      requires Valid()
      modifies this, children
      ensures Valid() && Pos() == 0
    {
      for i := 0 to |children|
        invariant forall j :: 0 <= j < i ==> Placed(children[j], merged, 0, Forward)
      {
        children[i].SeekToFirst();
      }
      SettleForward(0);
    }

    method SeekToLast()
      requires Valid()
      modifies this, children
      ensures Valid() && Pos() == if merged == [] then 0 else |merged| - 1
    {
      for i := 0 to |children|
        invariant forall j :: 0 <= j < i ==> Placed(children[j], merged, |merged| - 1, Reverse)
      {
        children[i].SeekToLast();
      }
      SettleReverse(|merged| - 1);
    }

    method Seek(k: InternalKey)
      requires Valid()
      modifies this, children
      ensures Valid() && IsLowerBound(merged, k, Pos())
    {
      ghost var p := LowerBoundOf(merged, k);
      for i := 0 to |children|
        invariant forall j :: 0 <= j < i ==> Placed(children[j], merged, p, Forward)
      {
        children[i].Seek(k);
        LowerBoundPlace(children[i].entries, children[i].pos, merged, p, k);
      }
      SettleForward(p);
    }

    method Next()
      requires Valid() && current >= 0
      modifies this, children
      ensures Valid() && Pos() == old(Pos()) + 1
    {
      ghost var p := place;
      if direction != Forward { RepositionAfter(); }
      AllButCurrent(children, merged, p, current);
      AdvanceCurrent(p);
      SettleForward(p + 1);
    }

    method Prev()
      requires Valid() && current >= 0
      modifies this, children
      ensures Valid() && Pos() == if old(Pos()) == 0 then |merged| else old(Pos()) - 1
    {
      ghost var p := place;
      if direction != Reverse { RepositionBefore(); }
      AllButCurrent(children, merged, p, current);
      RetreatCurrent(p);
      SettleReverse(p - 1);
    }

    method AdvanceCurrent(ghost p: nat)
      requires Children(children, merged) && 0 <= current < |children| && p < |merged|
      requires children[current].Valid() && children[current].entries[children[current].pos] == merged[p]
      requires forall j :: 0 <= j < |children| && j != current ==> Placed(children[j], merged, p + 1, Forward)
      modifies children
      ensures AllPlaced(children, merged, p + 1, Forward)
    {
      StepForward(children[current].entries, children[current].pos, merged, p);
      children[current].Next();
    }

    method RetreatCurrent(ghost p: nat)
      requires Children(children, merged) && 0 <= current < |children| && p < |merged|
      requires children[current].Valid() && children[current].entries[children[current].pos] == merged[p]
      requires forall j :: 0 <= j < |children| && j != current ==> Placed(children[j], merged, p - 1, Reverse)
      modifies children
      ensures AllPlaced(children, merged, p - 1, Reverse)
    {
      StepBack(children[current].entries, children[current].pos, merged, p);
      children[current].Prev();
    }

    // Direction switch in Next: put every other child at its first entry after the current key.
    method RepositionAfter()
      requires Valid() && current >= 0
      modifies this`direction, children
      ensures Children(children, merged) && current >= 0 && direction == Forward
      ensures children[current].pos == old(children[current].pos)
      ensures forall j :: 0 <= j < |children| && j != current ==> Placed(children[j], merged, place + 1, Forward)
    {
      for i := 0 to |children|
        invariant children[current].pos == old(children[current].pos)
        invariant forall j :: 0 <= j < i && j != current ==> Placed(children[j], merged, place + 1, Forward)
      {
        if i != current {
          SeekPast(children[i], children[current].Key());
          UpperBoundPlace(children[i].entries, children[i].pos, merged, place);
        }
      }
      direction := Forward;
    }

    // Direction switch in Prev: put every other child at its last entry before the current key.
    method RepositionBefore()
      requires Valid() && current >= 0
      modifies this`direction, children
      ensures Children(children, merged) && current >= 0 && direction == Reverse
      ensures children[current].pos == old(children[current].pos)
      ensures forall j :: 0 <= j < |children| && j != current ==> Placed(children[j], merged, place - 1, Reverse)
    {
      for i := 0 to |children|
        invariant children[current].pos == old(children[current].pos)
        invariant forall j :: 0 <= j < i && j != current ==> Placed(children[j], merged, place - 1, Reverse)
      {
        if i != current { SeekBefore(children[i], children[current].Key(), merged, place); }
      }
      direction := Reverse;
    }
  }

  // For the children not holding place p, standing for p, p + 1 and p - 1 is the same.
  lemma AllButCurrent(children: seq<Cursor>, merged: seq<Entry>, p: nat, c: nat)
    requires Children(children, merged) && p < |merged| && c < |children|
    requires children[c].Valid() && children[c].entries[children[c].pos] == merged[p]
    ensures forall j :: 0 <= j < |children| && j != c ==>
              && (Placed(children[j], merged, p, Forward) <==> Placed(children[j], merged, p + 1, Forward))
              && (Placed(children[j], merged, p, Reverse) <==> Placed(children[j], merged, p - 1, Reverse))
  {
    assert merged[p] in children[c].entries;
    forall j | 0 <= j < |children| && j != c
      ensures Placed(children[j], merged, p, Forward) <==> Placed(children[j], merged, p + 1, Forward)
      ensures Placed(children[j], merged, p, Reverse) <==> Placed(children[j], merged, p - 1, Reverse)
    {
      SkipPlace(children[j].entries, children[j].pos, merged, p);
    }
  }
}
