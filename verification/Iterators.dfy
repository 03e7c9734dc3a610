/** The Iterator contract of leveldb, as a cursor over a sorted sequence of entries, and the
    merging iterator (table/merger.cc) as a cursor over the sorted union of its children. */
module Iterators {
  import opened Keys
  import opened Versions

  // An iterator over a sorted run.  Position |entries| means "not valid".
  class Cursor {
    const entries: seq<Entry>
    var pos: nat

    constructor (entries: seq<Entry>)
      ensures this.entries == entries && pos == |entries|
    {
      this.entries := entries;
      pos := |entries|;
    }

    predicate Valid()
      reads this
    {
      pos < |entries|
    }

    function Key(): InternalKey
      reads this
      requires Valid()
    {
      entries[pos].key
    }

    method Seek(k: InternalKey)
      requires Sorted(entries)
      modifies this
      ensures IsLowerBound(entries, k, pos)
    {
      pos := TableSeek(entries, k);
    }

    method SeekToFirst()
      modifies this
      ensures pos == 0
    {
      pos := 0;
    }

    method SeekToLast()
      modifies this
      ensures pos == if entries == [] then 0 else |entries| - 1
    {
      pos := if entries == [] then 0 else |entries| - 1;
    }

    method Next()
      requires Valid()
      modifies this
      ensures pos == old(pos) + 1
    {
      pos := pos + 1;
    }

    method Prev()
      requires Valid()
      modifies this
      ensures pos == if old(pos) == 0 then |entries| else old(pos) - 1
    {
      pos := if pos == 0 then |entries| else pos - 1;
    }
  }

  // ----- positions in a sorted union -----

  ghost predicate IsUnion(merged: seq<Entry>, runs: seq<seq<Entry>>) {
    && Sorted(merged)
    && (forall e :: e in merged ==> exists i :: 0 <= i < |runs| && e in runs[i])
    && (forall i, e :: 0 <= i < |runs| && e in runs[i] ==> e in merged)
  }

  ghost function IndexOf(merged: seq<Entry>, e: Entry): (p: nat)
    requires e in merged
    ensures p < |merged| && merged[p] == e
  {
    var p :| 0 <= p < |merged| && merged[p] == e;
    p
  }

  lemma IndexUnique(merged: seq<Entry>, e: Entry, p: nat)
    requires Sorted(merged) && p < |merged| && merged[p] == e
    ensures IndexOf(merged, e) == p
  {
    SortedAt(merged, IndexOf(merged, e), p);
    SortedAt(merged, p, IndexOf(merged, e));
  }

  lemma IndexOrder(merged: seq<Entry>, a: Entry, b: Entry)
    requires Sorted(merged) && a in merged && b in merged
    ensures a.key.Before(b.key) <==> IndexOf(merged, a) < IndexOf(merged, b)
  {
    SortedAt(merged, IndexOf(merged, a), IndexOf(merged, b));
    SortedAt(merged, IndexOf(merged, b), IndexOf(merged, a));
  }

  ghost predicate Within(es: seq<Entry>, merged: seq<Entry>) {
    Sorted(es) && forall j :: 0 <= j < |es| ==> es[j] in merged
  }

  // A run standing at its first entry at or after place p of merged.
  ghost predicate AtOrAfter(es: seq<Entry>, pos: nat, merged: seq<Entry>, p: int)
    requires Within(es, merged)
  {
    pos <= |es| && forall j :: 0 <= j < |es| ==> (j < pos <==> IndexOf(merged, es[j]) < p)
  }

  // A run standing at its last entry at or before place p; not valid when there is none.
  ghost predicate AtOrBefore(es: seq<Entry>, pos: nat, merged: seq<Entry>, p: int)
    requires Within(es, merged)
  {
    pos <= |es| && forall j :: 0 <= j < |es| ==> (pos < |es| && j <= pos <==> IndexOf(merged, es[j]) <= p)
  }

  lemma LowerBoundPlace(es: seq<Entry>, pos: nat, merged: seq<Entry>, p: nat, k: InternalKey)
    requires Within(es, merged) && Sorted(merged)
    requires IsLowerBound(es, k, pos) && IsLowerBound(merged, k, p)
    ensures AtOrAfter(es, pos, merged, p)
  {
  }

  ghost predicate IsUpperBound(es: seq<Entry>, k: InternalKey, i: nat) {
    && i <= |es|
    && (forall j :: 0 <= j < i ==> !k.Before(es[j].key))
    && (forall j :: i <= j < |es| ==> k.Before(es[j].key))
  }

  lemma UpperBoundPlace(es: seq<Entry>, pos: nat, merged: seq<Entry>, p: nat)
    requires Within(es, merged) && Sorted(merged) && p < |merged|
    requires IsUpperBound(es, merged[p].key, pos)
    ensures AtOrAfter(es, pos, merged, p + 1)
  {
    IndexUnique(merged, merged[p], p);
    forall j | 0 <= j < |es| ensures j < pos <==> IndexOf(merged, es[j]) < p + 1 {
      IndexOrder(merged, merged[p], es[j]);
    }
  }

  // Standing at or before the place just before k's.
  lemma SteppedBackPlace(es: seq<Entry>, lb: nat, pos: nat, merged: seq<Entry>, p: nat)
    requires Within(es, merged) && Sorted(merged) && p < |merged|
    requires IsLowerBound(es, merged[p].key, lb)
    requires pos == if lb < |es| then (if lb == 0 then |es| else lb - 1) else (if es == [] then 0 else |es| - 1)
    ensures AtOrBefore(es, pos, merged, p - 1)
  {
    IndexUnique(merged, merged[p], p);
    forall j | 0 <= j < |es| ensures pos < |es| && j <= pos <==> IndexOf(merged, es[j]) <= p - 1 {
      IndexOrder(merged, es[j], merged[p]);
    }
  }

  // The run holding place p moves on to p + 1, or back to p - 1.
  lemma StepForward(es: seq<Entry>, pos: nat, merged: seq<Entry>, p: nat)
    requires Within(es, merged) && Sorted(merged) && p < |merged| && pos < |es| && es[pos] == merged[p]
    ensures AtOrAfter(es, pos + 1, merged, p + 1)
  {
    IndexUnique(merged, merged[p], p);
    forall j | 0 <= j < |es| ensures j < pos + 1 <==> IndexOf(merged, es[j]) < p + 1 {
      SortedAt(es, j, pos);
      SortedAt(es, pos, j);
      IndexOrder(merged, es[j], es[pos]);
      IndexOrder(merged, es[pos], es[j]);
    }
  }

  lemma StepBack(es: seq<Entry>, pos: nat, merged: seq<Entry>, p: nat)
    requires Within(es, merged) && Sorted(merged) && p < |merged| && pos < |es| && es[pos] == merged[p]
    ensures AtOrBefore(es, if pos == 0 then |es| else pos - 1, merged, p - 1)
  {
    IndexUnique(merged, merged[p], p);
    var pos' := if pos == 0 then |es| else pos - 1;
    forall j | 0 <= j < |es| ensures pos' < |es| && j <= pos' <==> IndexOf(merged, es[j]) <= p - 1 {
      SortedAt(es, j, pos);
      SortedAt(es, pos, j);
      IndexOrder(merged, es[j], es[pos]);
      IndexOrder(merged, es[pos], es[j]);
    }
  }

  // A run without the entry at place p stands the same for p and p + 1, and for p and p - 1.
  lemma SkipPlace(es: seq<Entry>, pos: nat, merged: seq<Entry>, p: nat)
    requires Within(es, merged) && Sorted(merged) && p < |merged| && merged[p] !in es
    ensures AtOrAfter(es, pos, merged, p) <==> AtOrAfter(es, pos, merged, p + 1)
    ensures AtOrBefore(es, pos, merged, p) <==> AtOrBefore(es, pos, merged, p - 1)
  {
    forall j | 0 <= j < |es| ensures IndexOf(merged, es[j]) != p { assert es[j] in es; }
  }

  // The run that holds the entry at place p shows it, whichever way it was reached.
  lemma ShowsForward(es: seq<Entry>, pos: nat, merged: seq<Entry>, p: nat)
    requires Within(es, merged) && Sorted(merged) && p < |merged| && merged[p] in es && AtOrAfter(es, pos, merged, p)
    ensures pos < |es| && es[pos] == merged[p]
  {
    var j :| 0 <= j < |es| && es[j] == merged[p];
    IndexUnique(merged, merged[p], p);
    IndexOrder(merged, es[pos], es[j]);
    SortedAt(es, pos, j);
  }

  lemma ShowsBackward(es: seq<Entry>, pos: nat, merged: seq<Entry>, p: nat)
    requires Within(es, merged) && Sorted(merged) && p < |merged| && merged[p] in es && AtOrBefore(es, pos, merged, p)
    ensures pos < |es| && es[pos] == merged[p]
  {
    var j :| 0 <= j < |es| && es[j] == merged[p];
    IndexUnique(merged, merged[p], p);
    IndexOrder(merged, es[j], es[pos]);
    SortedAt(es, j, pos);
  }
}
