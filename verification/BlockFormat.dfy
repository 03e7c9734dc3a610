/** The block format (table/block_builder.cc): entries that share key prefixes with their predecessors,
    restart points with full keys, and the restart array. */
module BlockFormat {
  import opened Keys
  import opened Coding

  datatype Pair = Pair(key: Bytes, value: Bytes)

  // The three varints before an entry's key delta and value.
  function EntryHeader(shared: nat, nonShared: nat, valueLength: nat): Bytes {
    EncodeVarint(shared) + EncodeVarint(nonShared) + EncodeVarint(valueLength)
  }

  function EncodeEntry(shared: nat, e: Pair): Bytes
    requires shared <= |e.key|
  {
    EntryHeader(shared, |e.key| - shared, |e.value|) + (e.key[shared..] + e.value)
  }

  // What DecodeEntry finds: the three lengths and the bytes they took.
  datatype Lengths = Lengths(shared: nat, nonShared: nat, valueLength: nat, header: nat)

  // DecodeEntry without its fast path; s reaches to the limit.
  function DecodeLengths(s: Bytes): Option<Lengths> {
    match GetVarint32Of(s)
    case None => None
    case Some(a) =>
      match GetVarint32Of(a.rest)
      case None => None
      case Some(b) =>
        match GetVarint32Of(b.rest)
        case None => None
        case Some(c) =>
          if |c.rest| <= |s| && TakesAtMost(b.value, c.value, |c.rest|) && |s| >= 3
          then Some(Lengths(a.value, b.value, c.value, |s| - |c.rest|)) else None
  }

  // The comparison with the bytes left, in 32-bit words on both sides.
  predicate TakesAtMost(nonShared: nat, valueLength: nat, left: nat) {
    (nonShared + valueLength) % TWO_TO_32 <= left % TWO_TO_32
  }

  lemma WithoutWrap(nonShared: nat, valueLength: nat, left: nat)
    requires nonShared + valueLength <= left < TWO_TO_32
    ensures TakesAtMost(nonShared, valueLength, left)
  {
  }

  // What it is worth: an entry that is accepted ends before the limit if and only if its two lengths add
  // up without wrapping around.
  lemma AcceptedFits(s: Bytes)
    requires |s| < TWO_TO_32 && DecodeLengths(s).Some?
    ensures var r := DecodeLengths(s).value;
            r.header <= |s| && (r.header + r.nonShared + r.valueLength <= |s| <==> r.nonShared + r.valueLength < TWO_TO_32)
  {
    hide GetVarint32Of, TakesAtMost;
    var r := DecodeLengths(s).value;
    FitsWithoutWrap(r.nonShared, r.valueLength, |s| - r.header);
  }

  lemma FitsWithoutWrap(nonShared: nat, valueLength: nat, left: nat)
    requires left < TWO_TO_32 && TakesAtMost(nonShared, valueLength, left)
    ensures nonShared + valueLength <= left <==> nonShared + valueLength < TWO_TO_32
  {
  }

  // Lengths that wrap around are accepted whatever follows.
  lemma WrappedIsAccepted(rest: Bytes)
    ensures DecodeLengths(EntryHeader(0, 0xFFFF_FFFF, 1) + rest) == Some(Lengths(0, 0xFFFF_FFFF, 1, |EntryHeader(0, 0xFFFF_FFFF, 1)|))
  {
    LengthsRoundTrip(0, 0xFFFF_FFFF, 1, rest);
  }

  lemma LengthsRoundTrip(shared: nat, nonShared: nat, valueLength: nat, rest: Bytes)
    requires shared < TWO_TO_32 && nonShared < TWO_TO_32 && valueLength < TWO_TO_32
    requires TakesAtMost(nonShared, valueLength, |rest|)
    ensures DecodeLengths(EntryHeader(shared, nonShared, valueLength) + rest)
         == Some(Lengths(shared, nonShared, valueLength, |EntryHeader(shared, nonShared, valueLength)|))
    ensures |EntryHeader(shared, nonShared, valueLength)| >= 3
  {
    hide GetVarint32Of, EncodeVarint;
    var a, b, c := EncodeVarint(shared), EncodeVarint(nonShared), EncodeVarint(valueLength);
    Varint32RoundTrip(shared, b + c + rest);
    Varint32RoundTrip(nonShared, c + rest);
    Varint32RoundTrip(valueLength, rest);
    assert a + b + c + rest == a + (b + c + rest);
    assert b + c + rest == b + (c + rest);
  }

  // The fast path agrees: three bytes below 128 are three one-byte varints.
  lemma OneByteVarint(s: Bytes)
    requires s != [] && s[0] as int < 128
    ensures GetVarint32Of(s) == Some(Decoded(s[0] as int, s[1..]))
  {
    hide DecodeGroups;
    OneGroup(s, s[0] as int);
  }

  lemma OneGroup(s: Bytes, x: nat)
    requires s != [] && x == s[0] as int && x < 128
    ensures DecodeGroups(s, 5) == Some(Decoded(x, s[1..]))
  {
  }

  // DecodeEntry
  method DecodeEntry(s: Bytes) returns (r: Option<Lengths>)
    ensures r == DecodeLengths(s)
  {
    hide TakesAtMost;
    if |s| < 3 {
      ShortInput(s);
      return None;
    }
    if s[0] as int < 128 && s[1] as int < 128 && s[2] as int < 128 {
      var nonShared, valueLength := s[1] as int, s[2] as int;
      FastPath(s, s[0] as int, nonShared, valueLength);
      if !TakesAtMost(nonShared, valueLength, |s| - 3) { return None; }
      return Some(Lengths(s[0] as int, nonShared, valueLength, 3));
    }
    hide GetVarint32Of;
    var a := GetVarint32(s);
    if a.None? { return None; }
    var b := GetVarint32(a.value.rest);
    if b.None? { return None; }
    var c := GetVarint32(b.value.rest);
    if c.None? { return None; }
    VarintShrinks(s);
    VarintShrinks(a.value.rest);
    VarintShrinks(b.value.rest);
    if !TakesAtMost(b.value.value, c.value.value, |c.value.rest|) { return None; }
    r := Some(Lengths(a.value.value, b.value.value, c.value.value, |s| - |c.value.rest|));
  }

  lemma FastPath(s: Bytes, x: nat, y: nat, z: nat)
    requires |s| >= 3 && x == s[0] as int && y == s[1] as int && z == s[2] as int && x < 128 && y < 128 && z < 128
    ensures DecodeLengths(s) == if !TakesAtMost(y, z, |s| - 3) then None else Some(Lengths(x, y, z, 3))
  {
    hide DecodeLengths, GetVarint32Of, TakesAtMost;
    var t, u, v := s[1..], s[2..], s[3..];
    assert t[1..] == u && u[1..] == v;
    SmallVarint(s, x);
    SmallVarint(t, y);
    SmallVarint(u, z);
    InThree(s, Decoded(x, t), Decoded(y, u), Decoded(z, v));
  }

  lemma SmallVarint(s: Bytes, x: nat)
    requires s != [] && x == s[0] as int && x < 128
    ensures GetVarint32Of(s) == Some(Decoded(x, s[1..]))
  {
    OneByteVarint(s);
  }

  lemma InThree(s: Bytes, a: Decoded<nat>, b: Decoded<nat>, c: Decoded<nat>)
    requires GetVarint32Of(s) == Some(a) && GetVarint32Of(a.rest) == Some(b) && GetVarint32Of(b.rest) == Some(c)
    requires |c.rest| <= |s| && |s| >= 3
    ensures DecodeLengths(s)
         == if !TakesAtMost(b.value, c.value, |c.rest|) then None else Some(Lengths(a.value, b.value, c.value, |s| - |c.rest|))
  {
    hide GetVarint32Of, TakesAtMost;
  }

  lemma ShortInput(s: Bytes)
    requires |s| < 3
    ensures DecodeLengths(s) == None
  {
  }

  // ----- the layout of a block -----

  // Entry i starts at offs[i] and shares shared[i] bytes with its predecessor's key; marks are the
  // numbers of the entries at the restart points.
  datatype Layout = Layout(es: seq<Pair>, offs: seq<nat>, shared: seq<nat>, marks: seq<nat>) {
    ghost predicate Shape() {
      && |offs| == |es| + 1 && |shared| == |es| && offs[0] == 0 && |marks| > 0 && marks[0] == 0
      && (forall j :: 0 < j < |marks| ==> marks[j - 1] < marks[j] < |es|)
    }

    ghost predicate Prefix(i: nat)
      requires Shape() && i < |es|
    {
      && shared[i] <= |es[i].key| && |es[i].key| < TWO_TO_32 && |es[i].value| < TWO_TO_32
      && (if i == 0 then shared[i] == 0
          else shared[i] <= |es[i - 1].key| && es[i - 1].key[..shared[i]] == es[i].key[..shared[i]])
    }

    ghost predicate Entry(data: Bytes, i: nat)
      requires Shape() && i < |es|
    {
      Prefix(i) && offs[i] < offs[i + 1] <= |data| && data[offs[i]..offs[i + 1]] == EncodeEntry(shared[i], es[i])
    }

    // The entries lie one after the other in data, the restart entries with full keys.
    ghost predicate Laid(data: Bytes) {
      && Shape() && offs[|es|] <= |data|
      && (forall i :: 0 <= i < |es| ==> Entry(data, i))
      && (forall j :: 0 <= j < |marks| && marks[j] < |es| ==> shared[marks[j]] == 0)
    }

    // The restart array.
    ghost function Restarts(): seq<nat>
      requires Shape()
    {
      seq(|marks|, j requires 0 <= j < |marks| => if marks[j] < |offs| then offs[marks[j]] else 0)
    }
  }

  function EncodeRestarts(restarts: seq<nat>): (r: Bytes)
    ensures |r| == 4 * |restarts|
  {
    if restarts == [] then [] else EncodeRestarts(restarts[..|restarts| - 1]) + EncodeFixed(restarts[|restarts| - 1], 4)
  }

  // Finish(): the entries, the restart array and its length.
  ghost predicate IsBlock(bytes: Bytes, l: Layout) {
    && l.Shape() && l.Laid(bytes) && l.offs[|l.es|] + 4 * |l.marks| + 4 == |bytes| < TWO_TO_32
    && bytes[l.offs[|l.es|]..] == EncodeRestarts(l.Restarts()) + EncodeFixed(|l.marks|, 4)
  }

  lemma {:induction false} RestartAt(restarts: seq<nat>, j: nat, rest: Bytes)
    requires j < |restarts|
    ensures (EncodeRestarts(restarts) + rest)[4 * j..4 * j + 4] == EncodeFixed(restarts[j], 4)
  {
    var n := |restarts| - 1;
    var init, last := EncodeRestarts(restarts[..n]), EncodeFixed(restarts[n], 4);
    assert EncodeRestarts(restarts) + rest == init + (last + rest);
    if j < n {
      RestartAt(restarts[..n], j, last + rest);
    } else {
      assert (init + (last + rest))[4 * n..4 * n + 4] == last;
    }
  }

  // ----- how long a block gets -----

  // The builder's counter after n entries, and the restart points by then.
  function SinceRestart(n: nat, interval: nat): nat {
    if n == 0 then 0 else if SinceRestart(n - 1, interval) < interval then SinceRestart(n - 1, interval) + 1 else 1
  }

  function RestartCount(n: nat, interval: nat): nat {
    if n == 0 then 1 else RestartCount(n - 1, interval) + if SinceRestart(n - 1, interval) < interval then 0 else 1
  }

  // How much of its key the i-th entry shares with its predecessor: all it can, or nothing at a restart.
  function SharedAt(es: seq<Pair>, i: nat, interval: nat): (n: nat)
    requires i < |es|
    ensures n <= |es[i].key|
  {
    if i == 0 || SinceRestart(i, interval) >= interval then 0 else CommonLength(es[i - 1].key, es[i].key)
  }

  function EntriesOf(es: seq<Pair>, interval: nat): Bytes {
    if es == [] then []
    else EntriesOf(es[..|es| - 1], interval) + EncodeEntry(SharedAt(es, |es| - 1, interval), es[|es| - 1])
  }

  // Entries, restart array and its length.
  function BlockSize(es: seq<Pair>, interval: nat): nat {
    |EntriesOf(es, interval)| + 4 * RestartCount(|es|, interval) + 4
  }

  lemma NextEntry(es: seq<Pair>, e: Pair, interval: nat)
    requires interval >= 1
    ensures var shared := if es == [] || SinceRestart(|es|, interval) >= interval then 0 else CommonLength(es[|es| - 1].key, e.key);
            shared <= |e.key| && EntriesOf(es + [e], interval) == EntriesOf(es, interval) + EncodeEntry(shared, e)
    ensures SinceRestart(|es| + 1, interval) == (if SinceRestart(|es|, interval) < interval then SinceRestart(|es|, interval) + 1 else 1)
    ensures RestartCount(|es| + 1, interval) == RestartCount(|es|, interval) + (if SinceRestart(|es|, interval) < interval then 0 else 1)
    ensures CommonLength([], e.key) == 0
  {
    hide EncodeEntry;
    assert (es + [e])[..|es|] == es;
  }
}
