/** Write batches as bytes (db/write_batch.cc): a sequence number, a count and the updates, appended and
    patched in place, walked by Iterate and inserted in a memtable. */
module WriteBatches {
  import opened Keys
  import opened Coding

  datatype Update = Put(key: Bytes, value: Bytes) | Delete(key: Bytes)

  datatype Status = OK | TooSmall | BadPut | BadDelete | UnknownTag | WrongCount

  const kHeader: nat := 12
  const MAX_COUNT: nat := 0x8000_0000

  // ----- one record -----

  lemma {:induction false} GroupsExtend(s: Bytes, groups: nat, more: Bytes)
    requires DecodeGroups(s, groups).Some?
    ensures DecodeGroups(s + more, groups) == Some(Decoded(DecodeGroups(s, groups).value.value, DecodeGroups(s, groups).value.rest + more))
  {
    assert (s + more)[0] == s[0] && (s + more)[1..] == s[1..] + more;
    if s[0] as int >= 128 { GroupsExtend(s[1..], groups - 1, more); }
  }

  lemma SliceExtends(s: Bytes, more: Bytes)
    requires DecodeSlice(s).Some?
    ensures DecodeSlice(s + more) == Some(Decoded(DecodeSlice(s).value.value, DecodeSlice(s).value.rest + more))
  {
    GroupsExtend(s, 5, more);
    var d := GetVarint32Of(s).value;
    assert (d.rest + more)[..d.value] == d.rest[..d.value];
    assert (d.rest + more)[d.value..] == d.rest[d.value..] + more;
  }

  function Encode(u: Update): Bytes {
    match u
    case Put(k, v) => [1] + EncodeSlice(k) + EncodeSlice(v)
    case Delete(k) => [0] + EncodeSlice(k)
  }

  ghost predicate Fits(u: Update) {
    |u.key| < TWO_TO_32 && (u.Put? ==> |u.value| < TWO_TO_32)
  }

  datatype Parsed = Good(update: Update, rest: Bytes) | Bad(status: Status)

  // One turn of Iterate's loop.
  function Parse(s: Bytes): (r: Parsed)
    requires s != []
    ensures r.Good? ==> |r.rest| < |s|
    ensures r.Bad? ==> r.status != OK
  {
    var input := s[1..];
    SliceShrinks(input);
    if s[0] == 1 then
      match DecodeSlice(input)
      case None => Bad(BadPut)
      case Some(key) =>
        SliceShrinks(key.rest);
        match DecodeSlice(key.rest) {
          case None => Bad(BadPut)
          case Some(value) => Good(Put(key.value, value.value), value.rest)
        }
    else if s[0] == 0 then
      match DecodeSlice(input)
      case None => Bad(BadDelete)
      case Some(key) => Good(Delete(key.value), key.rest)
    else Bad(UnknownTag)
  }

  lemma ParseEncoded(u: Update, rest: Bytes)
    requires Fits(u)
    ensures Encode(u) != [] && Parse(Encode(u) + rest) == Good(u, rest)
  {
    hide DecodeSlice, EncodeSlice;
    match u {
      case Put(k, v) =>
        assert (Encode(u) + rest)[1..] == EncodeSlice(k) + (EncodeSlice(v) + rest);
        SliceRoundTrip(k, EncodeSlice(v) + rest);
        SliceRoundTrip(v, rest);
      case Delete(k) =>
        assert (Encode(u) + rest)[1..] == EncodeSlice(k) + rest;
        SliceRoundTrip(k, rest);
    }
  }

  lemma ParseExtends(s: Bytes, more: Bytes)
    requires s != [] && Parse(s).Good?
    ensures Parse(s + more) == Good(Parse(s).update, Parse(s).rest + more)
  {
    hide DecodeSlice;
    assert (s + more)[0] == s[0] && (s + more)[1..] == s[1..] + more;
    SliceExtends(s[1..], more);
    if s[0] == 1 { SliceExtends(DecodeSlice(s[1..]).value.rest, more); }
  }

  // ----- all records -----

  // What the handler is given, and how the walk ends.
  datatype Walk = Walk(updates: seq<Update>, status: Status)

  function Records(s: Bytes): Walk
    decreases |s|
  {
    if s == [] then Walk([], OK)
    else
      match Parse(s)
      case Bad(status) => Walk([], status)
      case Good(u, rest) => var w := Records(rest); Walk([u] + w.updates, w.status)
  }

  function CountOf(rep: Bytes): int
    requires |rep| >= kHeader
  {
    var n := DecodeFixed(rep[8..12]);
    if n < MAX_COUNT then n else n - TWO_TO_32
  }

  function SequenceOf(rep: Bytes): nat
    requires |rep| >= kHeader
  {
    DecodeFixed(rep[..8])
  }

  // What Iterate does on any bytes.
  function Iterated(rep: Bytes): Walk {
    if |rep| < kHeader then Walk([], TooSmall)
    else
      var w := Records(rep[kHeader..]);
      if w.status == OK && |w.updates| != CountOf(rep) then w.(status := WrongCount) else w
  }

  lemma RecordsStep(s: Bytes)
    requires s != []
    ensures Parse(s).Bad? ==> Records(s) == Walk([], Parse(s).status)
    ensures Parse(s).Good? ==> Records(s) == Walk([Parse(s).update] + Records(Parse(s).rest).updates, Records(Parse(s).rest).status)
  {
  }

  lemma InTurn(u: Update, us: seq<Update>, more: seq<Update>)
    ensures [u] + (us + more) == ([u] + us) + more
  {
  }

  // A walk over well-formed records goes on with whatever follows them.
  lemma {:induction false} RecordsExtend(a: Bytes, b: Bytes)
    requires Records(a).status == OK
    ensures Records(a + b) == Walk(Records(a).updates + Records(b).updates, Records(b).status)
    decreases |a|
  {
    assert Records([]) == Walk([], OK);
    if a == [] {
      assert a + b == b;
    } else {
      hide Parse, Records;
      RecordsStep(a);
      ParseExtends(a, b);
      var u, rest := Parse(a).update, Parse(a).rest;
      RecordsExtend(rest, b);
      RecordsStep(a + b);
      InTurn(u, Records(rest).updates, Records(b).updates);
    }
  }

  lemma RecordsOfOne(u: Update)
    requires Fits(u)
    ensures Records(Encode(u)) == Walk([u], OK)
  {
    ParseEncoded(u, []);
    assert Encode(u) + [] == Encode(u);
    assert Records([]) == Walk([], OK);
  }

  // A batch cut short anywhere is reported as corrupt, however its remains parse.
  lemma TornBatchIsCorrupt(rep: Bytes, k: nat)
    requires Iterated(rep).status == OK && k < |rep|
    ensures Iterated(rep[..k]).status != OK
  {
    var torn := rep[..k];
    if k >= kHeader {
      var body, tail := torn[kHeader..], rep[k..];
      assert body + tail == rep[kHeader..] && torn[8..12] == rep[8..12];
      if Records(body).status == OK {
        RecordsExtend(body, tail);
        assert Records(tail).updates != [];
      }
    }
  }

  // ----- the batch -----

  // A memtable entry as MemTableInserter adds it.
  datatype Added = Added(sequence: nat, update: Update)

  function Numbered(us: seq<Update>, first: nat): (r: seq<Added>)
    ensures |r| == |us| && forall i :: 0 <= i < |r| ==> r[i] == Added(first + i, us[i])
  {
    seq(|us|, i requires 0 <= i < |us| => Added(first + i, us[i]))
  }

  function PutCount(rep: Bytes, n: nat): Bytes
    requires |rep| >= kHeader
  {
    rep[..8] + EncodeFixed(n % TWO_TO_32, 4) + rep[12..]
  }

  function PutSequence(rep: Bytes, n: nat): Bytes
    requires |rep| >= kHeader
  {
    EncodeFixed(n % TWO_TO_64, 8) + rep[8..]
  }

  lemma Patched(rep: Bytes, a: nat, patch: Bytes)
    requires a + |patch| <= |rep|
    ensures var r := rep[..a] + patch + rep[a + |patch|..];
            |r| == |rep| && r[..a] == rep[..a] && r[a..a + |patch|] == patch && r[a + |patch|..] == rep[a + |patch|..]
  {
  }

  lemma PutCountParts(rep: Bytes, n: nat)
    requires |rep| >= kHeader && n < MAX_COUNT
    ensures var r := PutCount(rep, n); |r| == |rep| && CountOf(r) == n && SequenceOf(r) == SequenceOf(rep) && r[kHeader..] == rep[kHeader..]
  {
    hide EncodeFixed, DecodeFixed;
    Fixed32RoundTrip(n);
    Patched(rep, 8, EncodeFixed(n % TWO_TO_32, 4));
  }

  lemma PutSequenceParts(rep: Bytes, n: nat)
    requires |rep| >= kHeader && n < TWO_TO_64
    ensures var r := PutSequence(rep, n); |r| == |rep| && CountOf(r) == CountOf(rep) && SequenceOf(r) == n && r[kHeader..] == rep[kHeader..]
  {
    hide EncodeFixed, DecodeFixed;
    Fixed64RoundTrip(n);
    var patch := EncodeFixed(n % TWO_TO_64, 8);
    assert (patch + rep[8..])[8..12] == rep[8..12] && (patch + rep[8..])[..8] == patch && (patch + rep[8..])[12..] == rep[12..];
  }

  // A batch made through the interface below, or read back from a log unharmed.
  ghost predicate WellFormed(rep: Bytes) {
    |rep| >= kHeader && Iterated(rep).status == OK
  }

  function Extended(rep: Bytes, count: nat, more: Bytes): Bytes
    requires |rep| >= kHeader
  {
    PutCount(rep, count) + more
  }

  // With the count raised and the records added, a batch holds the updates in turn.
  lemma AppendedRecords(rep: Bytes, count: nat, more: Bytes)
    requires WellFormed(rep) && Records(more).status == OK && count == |Iterated(rep).updates| + |Records(more).updates| < MAX_COUNT
    ensures WellFormed(Extended(rep, count, more)) && SequenceOf(Extended(rep, count, more)) == SequenceOf(rep)
    ensures Iterated(Extended(rep, count, more)).updates == Iterated(rep).updates + Records(more).updates
  {
    hide Records, PutCount, EncodeFixed, DecodeFixed;
    var counted := PutCount(rep, count);
    PutCountParts(rep, count);
    RecordsExtend(rep[kHeader..], more);
    var r := Extended(rep, count, more);
    assert r[kHeader..] == rep[kHeader..] + more && r[8..12] == counted[8..12] && r[..8] == counted[..8];
  }

  class WriteBatch {
    var rep: Bytes

    ghost predicate Valid()
      reads this
    {
      WellFormed(rep)
    }

    ghost function Updates(): seq<Update>
      reads this
    {
      Iterated(rep).updates
    }

    function Sequence(): nat
      reads this
      requires Valid()
    {
      SequenceOf(rep)
    }

    function Count(): (n: nat)
      reads this
      requires Valid()
      ensures n == |Updates()| < MAX_COUNT
    {
      CountBound(rep);
      CountOf(rep)
    }

    constructor ()
      ensures Valid() && Updates() == []
    {
      rep := seq(kHeader, i => 0);
      new;
      EmptyBatch(rep);
    }

    method Clear()
      modifies this
      ensures Valid() && Updates() == []
    {
      rep := seq(kHeader, i => 0);
      EmptyBatch(rep);
    }

    method Put(key: Bytes, value: Bytes)
      requires Valid() && Count() + 1 < MAX_COUNT && Fits(Update.Put(key, value))
      modifies this
      ensures Valid() && Updates() == old(Updates()) + [Update.Put(key, value)] && Sequence() == old(Sequence())
    {
      hide Iterated, Records, WellFormed, PutCount, Encode;
      CountBound(rep);
      RecordsOfOne(Update.Put(key, value));
      AppendedRecords(rep, Count() + 1, Encode(Update.Put(key, value)));
      rep := PutCount(rep, Count() + 1);
      rep := rep + Encode(Update.Put(key, value));
    }

    method Delete(key: Bytes)
      requires Valid() && Count() + 1 < MAX_COUNT && Fits(Update.Delete(key))
      modifies this
      ensures Valid() && Updates() == old(Updates()) + [Update.Delete(key)] && Sequence() == old(Sequence())
    {
      hide Iterated, Records, WellFormed, PutCount, Encode;
      CountBound(rep);
      RecordsOfOne(Update.Delete(key));
      AppendedRecords(rep, Count() + 1, Encode(Update.Delete(key)));
      rep := PutCount(rep, Count() + 1);
      rep := rep + Encode(Update.Delete(key));
    }

    method SetSequence(n: nat)
      requires Valid() && n < TWO_TO_64
      modifies this
      ensures Valid() && Updates() == old(Updates()) && Sequence() == n
    {
      hide Records, PutSequence, EncodeFixed, DecodeFixed;
      PutSequenceParts(rep, n);
      rep := PutSequence(rep, n);
    }

    // WriteBatchInternal::Append, of another batch's bytes.
    method Append(source: Bytes)
      requires Valid() && WellFormed(source) && |Updates()| + |Iterated(source).updates| < MAX_COUNT
      modifies this
      ensures Valid() && Updates() == old(Updates()) + Iterated(source).updates && Sequence() == old(Sequence())
    {
      hide Iterated, Records, WellFormed, PutCount, CountOf, Extended, SequenceOf, DecodeFixed, EncodeFixed;
      AppendedBatch(rep, source, |Iterated(rep).updates| + |Iterated(source).updates|);
      rep := Extended(rep, CountOf(rep) + CountOf(source), source[kHeader..]);
    }
  }

  lemma AppendedBatch(rep: Bytes, source: Bytes, count: nat)
    requires WellFormed(rep) && WellFormed(source) && count == |Iterated(rep).updates| + |Iterated(source).updates| < MAX_COUNT
    ensures |rep| >= kHeader && |source| >= kHeader && CountOf(rep) + CountOf(source) == count
    ensures WellFormed(Extended(rep, count, source[kHeader..])) && SequenceOf(Extended(rep, count, source[kHeader..])) == SequenceOf(rep)
    ensures Iterated(Extended(rep, count, source[kHeader..])).updates == Iterated(rep).updates + Iterated(source).updates
  {
    CountBound(rep);
    CountBound(source);
    RecordsOf(source);
    hide Iterated, Records, WellFormed, PutCount, CountOf, Extended;
    AppendedRecords(rep, count, source[kHeader..]);
  }

  lemma EmptyBatch(rep: Bytes)
    requires rep == seq(kHeader, i => 0)
    ensures WellFormed(rep) && Iterated(rep).updates == []
  {
    assert rep[8..12] == [0, 0, 0, 0];
    assert DecodeFixed([0]) == 0 && DecodeFixed([0, 0]) == 0 && DecodeFixed([0, 0, 0]) == 0;
  }

  lemma CountBound(rep: Bytes)
    requires WellFormed(rep)
    ensures |rep| >= kHeader && CountOf(rep) == |Iterated(rep).updates| < MAX_COUNT
  {
    FixedDecodes(rep[8..12]);
    FixedWidths();
  }

  lemma RecordsOf(rep: Bytes)
    requires WellFormed(rep)
    ensures Records(rep[kHeader..]) == Walk(Iterated(rep).updates, OK)
  {
  }

  // ----- walking a batch -----

  // WriteBatch::Iterate with the updates handed to the handler, on any bytes.
  method Iterate(rep: Bytes) returns (given: seq<Update>, status: Status)
    ensures Walk(given, status) == Iterated(rep)
  {
    hide Parse;
    if |rep| < kHeader { return [], TooSmall; }
    var input := rep[kHeader..];
    given := [];
    while input != []
      invariant Records(rep[kHeader..]) == Walk(given + Records(input).updates, Records(input).status)
      decreases |input|
    {
      match Parse(input)
      case Bad(s) => return given, s;
      case Good(u, rest) =>
        assert given + ([u] + Records(rest).updates) == (given + [u]) + Records(rest).updates;
        given, input := given + [u], rest;
    }
    status := if |given| != CountOf(rep) then WrongCount else OK;
  }

  // WriteBatchInternal::InsertInto: what a corrupt batch holds before the fault is inserted too.
  method InsertInto(rep: Bytes, mem: seq<Added>) returns (r: seq<Added>, status: Status)
    requires |rep| >= kHeader
    ensures r == mem + Numbered(Iterated(rep).updates, SequenceOf(rep)) && status == Iterated(rep).status
  {
    var given: seq<Update>;
    given, status := Iterate(rep);
    var sequence := SequenceOf(rep);
    r := mem;
    for i := 0 to |given|
      invariant r == mem + Numbered(given, SequenceOf(rep))[..i] && sequence == SequenceOf(rep) + i
    {
      r := r + [Added(sequence, given[i])];
      sequence := sequence + 1;
    }
  }
}
