/** BlockBuilder (table/block_builder.cc). */
module BlockBuilder {
  import opened Keys
  import opened Coding
  import opened BlockFormat

  class BlockBuilder {
    const interval: nat                          // options_->block_restart_interval
    var buffer: Bytes                            // buffer_
    var restarts: seq<nat>                       // restarts_
    var counter: nat                             // entries since the last restart
    var lastKey: Bytes                           // last_key_
    ghost var layout: Layout

    constructor (interval: nat)
      requires interval >= 1
      ensures Valid() && layout.es == [] && this.interval == interval
    {
      this.interval := interval;
      buffer, restarts, counter, lastKey := [], [0], 0, [];
      layout := Layout([], [0], [], [0]);
    }

    ghost predicate Valid()
      reads this
    {
      && interval >= 1 && layout.Laid(buffer) && layout.offs[|layout.es|] == |buffer| && restarts == layout.Restarts()
      && lastKey == (if layout.es == [] then [] else layout.es[|layout.es| - 1].key)
      && buffer == EntriesOf(layout.es, interval) && |restarts| == RestartCount(|layout.es|, interval)
      && counter == SinceRestart(|layout.es|, interval) <= interval && counter == |layout.es| - layout.marks[|layout.marks| - 1]
    }

    method Add(key: Bytes, value: Bytes)
      requires Valid() && |key| < TWO_TO_32 && |value| < TWO_TO_32
      modifies this
      ensures Valid() && layout.es == old(layout).es + [Pair(key, value)]
    {
      hide Layout.Laid, Layout.Restarts, EncodeEntry, EntriesOf, SinceRestart, RestartCount, CommonLength;
      NextEntry(layout.es, Pair(key, value), interval);
      ghost var n := |layout.es|;
      Counts();
      var shared := 0;
      ghost var marks := layout.marks;
      if counter < interval {
        shared := CommonPrefix(lastKey, key);
      } else {                                     // restart compression
        restarts := restarts + [|buffer|];
        counter := 0;
        marks := marks + [n];
      }
      AddKeeps(layout, buffer, Pair(key, value), shared, marks);
      layout := Appended(layout, Pair(key, value), shared, marks, |buffer|);
      buffer := buffer + EncodeEntry(shared, Pair(key, value));
      SamePrefix(lastKey, key, shared);
      lastKey := lastKey[..shared] + key[shared..];
      counter := counter + 1;
    }

    lemma Counts()
      requires Valid()
      ensures layout.Shape() && |restarts| == |layout.marks| > 0 && counter == |layout.es| - layout.marks[|layout.marks| - 1] >= 0
    {
    }

    method Finish() returns (bytes: Bytes)
      requires Valid() && |buffer| + 4 * |restarts| + 4 < TWO_TO_32
      ensures IsBlock(bytes, layout) && |bytes| == BlockSize(layout.es, interval)
    {
      hide Layout.Laid, EncodeFixed, EntriesOf, SinceRestart, RestartCount;
      bytes := buffer;
      for i := 0 to |restarts|
        invariant bytes == buffer + EncodeRestarts(restarts[..i])
      {
        assert restarts[..i + 1][..i] == restarts[..i];
        bytes := bytes + EncodeFixed(restarts[i], 4);
      }
      assert restarts[..|restarts|] == restarts;
      bytes := bytes + EncodeFixed(|restarts|, 4);
      LongerData(layout, buffer, bytes);
    }
  }

  lemma SamePrefix(a: Bytes, b: Bytes, n: nat)
    requires n <= |a| && n <= |b| && a[..n] == b[..n]
    ensures a[..n] + b[n..] == b
  {
  }

  lemma AddKeeps(l: Layout, data: Bytes, e: Pair, shared: nat, marks: seq<nat>)
    requires l.Laid(data) && l.offs[|l.es|] == |data| && |e.key| < TWO_TO_32 && |e.value| < TWO_TO_32 && shared <= |e.key|
    requires if l.es == [] then shared == 0 else shared <= |l.es[|l.es| - 1].key| && l.es[|l.es| - 1].key[..shared] == e.key[..shared]
    requires marks == l.marks || (marks == l.marks + [|l.es|] && l.marks[|l.marks| - 1] < |l.es| && shared == 0)
    ensures var l' := Appended(l, e, shared, marks, |data|);
            && l'.Laid(data + EncodeEntry(shared, e)) && l'.offs[|l'.es|] == |data + EncodeEntry(shared, e)|
            && l'.Restarts() == (if marks == l.marks then l.Restarts() else l.Restarts() + [|data|])
  {
    hide EncodeEntry;
    var l' := Appended(l, e, shared, marks, |data|);
    MarkZero(l, data);
    StillLaid(l, data, e, shared, marks);
    RestartsGrow(l, l');
  }

  lemma MarkZero(l: Layout, data: Bytes)
    requires l.Laid(data)
    ensures l.marks[|l.marks| - 1] == |l.es| ==> l.es == []
  {
  }

  lemma SliceOfPrefix(s: Bytes, n: nat, a: nat, b: nat)
    requires a <= b <= n <= |s|
    ensures s[..n][a..b] == s[a..b]
  {
  }

  ghost function Appended(l: Layout, e: Pair, shared: nat, marks: seq<nat>, end: nat): Layout
    requires shared <= |e.key|
  {
    Layout(l.es + [e], l.offs + [end + |EncodeEntry(shared, e)|], l.shared + [shared], marks)
  }

  // More data behind the entries changes nothing.
  lemma LongerData(l: Layout, data: Bytes, longer: Bytes)
    requires l.Laid(data) && |data| <= |longer| && longer[..|data|] == data
    ensures l.Laid(longer)
  {
    forall i | 0 <= i < |l.es| ensures l.Entry(longer, i) {
      assert l.Entry(data, i);
      SliceOfPrefix(longer, |data|, l.offs[i], l.offs[i + 1]);
    }
  }

  lemma StillLaid(l: Layout, data: Bytes, e: Pair, shared: nat, marks: seq<nat>)
    requires l.Laid(data) && l.offs[|l.es|] == |data| && |e.key| < TWO_TO_32 && |e.value| < TWO_TO_32 && shared <= |e.key|
    requires if l.es == [] then shared == 0 else shared <= |l.es[|l.es| - 1].key| && l.es[|l.es| - 1].key[..shared] == e.key[..shared]
    requires marks == l.marks || (marks == l.marks + [|l.es|] && l.marks[|l.marks| - 1] < |l.es|)
    requires marks[|marks| - 1] == |l.es| ==> shared == 0
    ensures Appended(l, e, shared, marks, |data|).Laid(data + EncodeEntry(shared, e))
  {
    var n, entry, l' := |l.es|, EncodeEntry(shared, e), Appended(l, e, shared, marks, |data|);
    assert |entry| > 0;
    hide EntryHeader, EncodeEntry, Layout.Entry;
    LongerData(l, data, data + entry);
    forall i | 0 <= i <= n ensures l'.Entry(data + entry, i) {
      if i < n { OldEntry(l, l', data + entry, i); } else { NewEntry(l, e, shared, marks, data); }
    }
  }

  lemma OldEntry(l: Layout, l': Layout, data: Bytes, i: nat)
    requires l.Shape() && l'.Shape() && i < |l.es| && l.Entry(data, i)
    requires l.es <= l'.es && l.offs <= l'.offs && l.shared <= l'.shared
    ensures l'.Entry(data, i)
  {
    hide EncodeEntry;
  }

  lemma NewEntry(l: Layout, e: Pair, shared: nat, marks: seq<nat>, data: Bytes)
    requires l.Shape() && l.offs[|l.es|] == |data| && |e.key| < TWO_TO_32 && |e.value| < TWO_TO_32 && shared <= |e.key|
    requires if l.es == [] then shared == 0 else shared <= |l.es[|l.es| - 1].key| && l.es[|l.es| - 1].key[..shared] == e.key[..shared]
    requires Appended(l, e, shared, marks, |data|).Shape() && |EncodeEntry(shared, e)| > 0
    ensures Appended(l, e, shared, marks, |data|).Entry(data + EncodeEntry(shared, e), |l.es|)
  {
    hide EncodeEntry;
    assert (data + EncodeEntry(shared, e))[|data|..] == EncodeEntry(shared, e);
  }

  lemma RestartsGrow(l: Layout, l': Layout)
    requires l.Shape() && l'.Shape() && |l'.es| == |l.es| + 1 && l'.offs[..|l.offs|] == l.offs
    requires l'.marks == l.marks || l'.marks == l.marks + [|l.es|]
    ensures l'.Restarts() == if l'.marks == l.marks then l.Restarts() else l.Restarts() + [l.offs[|l.es|]]
  {
    forall j | 0 <= j < |l.marks| ensures l'.Restarts()[j] == l.Restarts()[j] {
      assert l.marks[j] <= |l.es|;
      assert l'.offs[..|l.offs|][l.marks[j]] == l.offs[l.marks[j]];
    }
  }
}
