/** From the bytes of a log file to the history: the reader (db/log_reader.cc), the batches it returns
    (db/write_batch.cc) and the recovery that replays them (db/db_impl.cc), put together.  A log cut
    at any byte gives a prefix of the history with every write whose record was whole by then. */
module LogRecovery {
  import opened Keys
  import opened Reads
  import opened Versions
  import opened Bytewise
  import opened LogFormat
  import opened LogReader
  import opened LogRoundTrip
  import opened Edits
  import opened Disk
  import opened Durability
  import W = WriteBatches

  // An update of a batch as an operation of the history: a key stands at its place in bytewise order.
  function OpOf(u: W.Update): Op {
    match u
    case Put(key, value) => Op(Rank(key), kTypeValue, value)
    case Delete(key) => Op(Rank(key), kTypeDeletion, [])
  }

  function BatchOf(rep: Bytes): Batch
    requires |rep| >= W.kHeader
  {
    var us := W.Iterated(rep).updates;
    Batch(W.SequenceOf(rep), seq(|us|, i requires 0 <= i < |us| => OpOf(us[i])))
  }

  ghost predicate AllWellFormed(records: seq<Bytes>) {
    forall i :: 0 <= i < |records| ==> W.WellFormed(records[i])
  }

  ghost function Batches(records: seq<Bytes>): (r: seq<Batch>)
    requires AllWellFormed(records)
    ensures |r| == |records| && forall i :: 0 <= i < |r| ==> r[i] == BatchOf(records[i])
  {
    seq(|records|, i requires 0 <= i < |records| => BatchOf(records[i]))
  }

  // RecoverLogFile's loop: read a record, skip it if it is too small, take its updates.
  method ReadBatches(file: Bytes, ghost records: seq<Bytes>, n: nat) returns (bs: seq<Batch>)
    requires AllWellFormed(records) && n <= |LogOf(records)| && file == LogOf(records)[..n]
    ensures AllWellFormed(records[..WholeRecords(records, n, 0)]) && bs == Batches(records[..WholeRecords(records, n, 0)])
  {
    hide LogOf, ReadAllFrom, BatchOf, W.WellFormed;
    TornTail(records, n);
    var found, drops := ReadAll(file);
    ghost var whole := records[..WholeRecords(records, n, 0)];
    bs := [];
    for i := 0 to |found|
      invariant bs == Batches(whole)[..i]
    {
      LongEnough(whole[i]);
      if |found[i]| >= W.kHeader { bs := bs + [BatchOf(found[i])]; }
    }
  }

  lemma LongEnough(rep: Bytes)
    requires W.WellFormed(rep)
    ensures |rep| >= W.kHeader
  {
  }

  // ----- a prefix of the history -----

  lemma {:induction false} ChainOfPrefix(bs: seq<Batch>, h: seq<Op>, lo: nat, hi: nat, end: nat)
    requires Chain(bs, h, lo, hi) && hi <= end <= |h|
    ensures Chain(bs, h[..end], lo, hi)
    decreases |bs|
  {
    if bs != [] {
      var next := lo + |bs[0].ops|;
      ChainEnds(bs[1..], h, next, hi);
      assert h[..end][lo..next] == h[lo..next];
      ChainOfPrefix(bs[1..], h, next, hi, end);
    }
  }

  lemma {:induction false} EndOfMore(a: seq<Batch>, b: seq<Batch>, lo: nat)
    ensures End(a, lo) <= End(a + b, lo)
    decreases |a|
  {
    if a == [] {
      assert a + b == b;
    } else {
      assert (a + b)[1..] == a[1..] + b;
      EndOfMore(a[1..], b, lo + |a[0].ops|);
    }
  }

  lemma BatchesPrefix(records: seq<Bytes>, k: nat, m: nat)
    requires AllWellFormed(records) && k <= m <= |records|
    ensures AllWellFormed(records[..k]) && AllWellFormed(records[..m]) && Batches(records[..m]) == Batches(records)[..m]
    ensures Batches(records[..k]) == Batches(records[..m])[..k]
  {
    hide BatchOf, W.WellFormed;
  }

  // The first m batches of a chain reach some point of the history, and make a chain of it up to there.
  lemma PrefixChain(bs: seq<Batch>, h: seq<Op>, lo: nat, m: nat) returns (hi: nat)
    requires Chain(bs, h, lo, |h|) && m <= |bs| && lo <= |h|
    ensures lo <= hi <= |h| && hi == End(bs[..m], lo) && Chain(bs[..m], h[..hi], lo, hi)
  {
    hi := End(bs[..m], lo);
    assert bs == bs[..m] + bs[m..];
    ChainSplit(bs[..m], bs[m..], h, lo, |h|);
    ChainEnds(bs[m..], h, hi, |h|);
    ChainOfPrefix(bs[..m], h, lo, hi, hi);
  }

  // A log cut at byte n: what is read is the history from lo up to some hi, and every batch whose record
  // ended at or before n is in it; in particular the first k, once a Sync had covered them.
  method TornLogRecovers(file: Bytes, ghost records: seq<Bytes>, n: nat, ghost h: seq<Op>, ghost lo: nat, ghost k: nat)
    returns (bs: seq<Batch>, ghost hi: nat)
    requires AllWellFormed(records) && Chain(Batches(records), h, lo, |h|) && lo <= |h|
    requires n <= |LogOf(records)| && file == LogOf(records)[..n]
    requires 0 < k <= |records| && EndOf(records, k) <= n
    ensures lo <= hi <= |h| && Chain(bs, h[..hi], lo, hi)
    ensures k <= |bs| && bs[..k] == Batches(records)[..k] && hi >= End(Batches(records)[..k], lo)
  {
    hide LogOf, ReadAllFrom, EndOf, Chain, End, BatchOf, W.WellFormed;
    bs := ReadBatches(file, records, n);
    WholeExactly(records, n, k);
    ghost var m := WholeRecords(records, n, 0);
    BatchesPrefix(records, k, m);
    hi := PrefixChain(Batches(records), h, lo, m);
    assert bs == bs[..k] + bs[k..];
    EndOfMore(bs[..k], bs[k..], lo);
  }

  // ----- the disk after such a cut -----

  // The newest log lost its end, ...
  ghost predicate CutShort(d: Files, order: seq<nat>, base: nat, d': Files, hi: nat, bs: seq<Batch>) {
    && order != [] && (forall n :: n in order ==> n in d.logs)
    && var last := order[|order| - 1];
       && bs <= d.logs[last] && d' == d.(logs := d.logs[last := bs])
       && hi == End(Concat(d.logs, order[..|order| - 1]) + bs, base)
  }

  // ... after everything the manifest counts.
  ghost predicate CutAt(d: Files, order: seq<nat>, base: nat, d': Files, hi: nat, bs: seq<Batch>) {
    CutShort(d, order, base, d', hi, bs) && LastNumbers(d.manifest).Some? && LastNumbers(d.manifest).value.lastSequence <= hi
  }

  // Such a disk is as durable as before, for the history up to the cut.
  lemma CutIsDurable(d: Files, levels: seq<seq<File>>, h: seq<Op>, base: nat, order: seq<nat>, d': Files, hi: nat, bs: seq<Batch>)
    requires Durable(d, levels, h, base, order) && CutAt(d, order, base, d', hi, bs)
    ensures hi <= |h| && Durable(d', levels, h[..hi], base, order)
  {
    hide Ordered, AllAscending, Replays, TablesPresent, Numbering;
    CutChain(d, h, base, order, d', hi, bs);
    forall e | e in StoredIn(levels) ensures Recorded(h[..hi], e) { assert Recorded(h, e) && e.key.sequence <= base; }
  }

  lemma CutChain(d: Files, h: seq<Op>, base: nat, order: seq<nat>, d': Files, hi: nat, bs: seq<Batch>)
    requires (forall n :: n in order ==> n in d.logs) && Chain(Concat(d.logs, order), h, base, |h|) && base <= |h|
    requires Increasing(order) && CutShort(d, order, base, d', hi, bs)
    ensures base <= hi <= |h| && (forall n :: n in order ==> n in d'.logs) && Chain(Concat(d'.logs, order), h[..hi], base, hi)
  {
    var init, last := order[..|order| - 1], order[|order| - 1];
    assert order == init + [last];
    ConcatSplit(d.logs, init, [last]);
    ConcatSplit(d'.logs, init, [last]);
    forall n | n in init ensures n in d.logs && n in d'.logs && d'.logs[n] == d.logs[n] {
      var i :| 0 <= i < |init| && init[i] == n;
      assert order[i] < last;
    }
    ConcatSame(d.logs, d'.logs, init);
    hide Chain, Concat, End;
    OneLog(d.logs, last);
    OneLog(d'.logs, last);
    var front, log := Concat(d.logs, init), d.logs[last];
    var all := front + log;
    assert front + bs == all[..|front| + |bs|];
    var reached := PrefixChain(all, h, base, |front| + |bs|);
  }

  lemma OneLog(logs: map<nat, seq<Batch>>, n: nat)
    requires n in logs
    ensures Concat(logs, [n]) == logs[n]
  {
    assert [n][1..] == [] && Concat(logs, []) == [] && logs[n] + [] == logs[n];
  }
}
