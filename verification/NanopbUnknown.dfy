/** Fields a schema does not know: entries of other tags between the fields of an encoding are passed over. */
module NanopbUnknown {
  import opened Keys
  import opened Coding
  import opened NanopbFormat
  import opened NanopbRoundTrip

  // One field of a message, as the encoder writes it for each wire type.
  datatype Entry =
    | Varint(tag: nat, value: nat)
    | Eight(tag: nat, value: nat)
    | Four(tag: nat, value: nat)
    | Counted(tag: nat, bytes: Bytes)
  {
    function Encoded(): Bytes {
      match this
      case Varint(tag, value) => TagBytes(0, tag) + EncodeVarint(value)
      case Eight(tag, value) => TagBytes(1, tag) + EncodeFixed(value, 8)
      case Counted(tag, bytes) => TagBytes(2, tag) + EncodeSlice(bytes)
      case Four(tag, value) => TagBytes(5, tag) + EncodeFixed(value, 4)
    }

    predicate UnknownTo(t: LType)
      requires t.Submessage?
    {
      && 1 <= tag < 0x2000_0000 && (forall i :: 0 <= i < |t.fields| ==> t.fields[i].tag != tag)
      && (Counted? ==> |bytes| < TWO_TO_32)
    }
  }

  function Together(es: seq<Entry>): Bytes {
    if es == [] then [] else es[0].Encoded() + Together(es[1..])
  }

  // The fields from the n-th on, with the entries between[n] before each and those at the end after all.
  function EncWith(t: LType, slots: Slots, between: seq<seq<Entry>>, n: nat): Bytes
    requires t.Submessage? && |slots| == |t.fields| && |between| == |t.fields| + 1 && n <= |slots|
    decreases |slots| - n
  {
    Together(between[n]) + if n == |slots| then [] else EncField(t.fields[n], slots[n]) + EncWith(t, slots, between, n + 1)
  }

  ghost predicate AllUnknown(t: LType, between: seq<seq<Entry>>)
    requires t.Submessage?
  {
    forall n, i :: 0 <= n < |between| && 0 <= i < |between[n]| ==> between[n][i].UnknownTo(t)
  }

  lemma {:induction false} VarintSkipped(v: nat, rest: Bytes)
    ensures SkipVarint(EncodeVarint(v) + rest) == Some(rest)
  {
    FirstByte(v, rest);
    hide EncodeVarint;
    if v >= 128 { VarintSkipped(v / 128, rest); }
  }

  lemma ContentSkipped(e: Entry, rest: Bytes)
    requires e.Counted? ==> |e.bytes| < TWO_TO_32
    ensures match e
            case Varint(_, value) => Skip(0, EncodeVarint(value) + rest) == Some(rest)
            case Eight(_, value) => Skip(1, EncodeFixed(value, 8) + rest) == Some(rest)
            case Counted(_, bytes) => Skip(2, EncodeSlice(bytes) + rest) == Some(rest)
            case Four(_, value) => Skip(5, EncodeFixed(value, 4) + rest) == Some(rest)
  {
    hide SkipVarint, EncodeVarint, Substream, EncodeSlice;
    match e {
      case Varint(_, value) => VarintSkipped(value, rest);
      case Eight(_, value) => assert (EncodeFixed(value, 8) + rest)[8..] == rest;
      case Counted(_, bytes) => SubstreamBack(bytes, rest);
      case Four(_, value) => assert (EncodeFixed(value, 4) + rest)[4..] == rest;
    }
  }

  // What the loop does with a tag that is not in the schema.
  lemma UnknownTag(t: LType, st: State, wireType: nat, tag: nat, more: Bytes)
    requires t.Submessage? && |st.slots| == |t.fields| && wireType < 8 && 1 <= tag < 0x2000_0000
    requires forall i :: 0 <= i < |t.fields| ==> t.fields[i].tag != tag
    ensures DecLoop(t, st, TagBytes(wireType, tag) + more)
         == if Skip(wireType, more).Some? then DecLoop(t, st, Skip(wireType, more).value) else None
  {
    TagBack(wireType, tag, more);
    hide TagBytes, Skip, DecTag;
  }

  // Wherever it stands, an entry of an unknown tag changes nothing.
  lemma EntrySkipped(t: LType, st: State, e: Entry, rest: Bytes)
    requires t.Submessage? && |st.slots| == |t.fields| && e.UnknownTo(t)
    ensures DecLoop(t, st, e.Encoded() + rest) == DecLoop(t, st, rest)
  {
    hide DecLoop, Skip, TagBytes, EncodeVarint, EncodeFixed, EncodeSlice;
    ContentSkipped(e, rest);
    match e {
      case Varint(tag, value) =>
        Regroup(TagBytes(0, tag), EncodeVarint(value), rest);
        UnknownTag(t, st, 0, tag, EncodeVarint(value) + rest);
      case Eight(tag, value) =>
        Regroup(TagBytes(1, tag), EncodeFixed(value, 8), rest);
        UnknownTag(t, st, 1, tag, EncodeFixed(value, 8) + rest);
      case Counted(tag, bytes) =>
        Regroup(TagBytes(2, tag), EncodeSlice(bytes), rest);
        UnknownTag(t, st, 2, tag, EncodeSlice(bytes) + rest);
      case Four(tag, value) =>
        Regroup(TagBytes(5, tag), EncodeFixed(value, 4), rest);
        UnknownTag(t, st, 5, tag, EncodeFixed(value, 4) + rest);
    }
  }

  // Of the wire types that are left none can be passed over: the message is refused.
  lemma OtherWireTypeFails(t: LType, st: State, wireType: nat, tag: nat, more: Bytes)
    requires t.Submessage? && |st.slots| == |t.fields| && wireType < 8 && 1 <= tag < 0x2000_0000
    requires forall i :: 0 <= i < |t.fields| ==> t.fields[i].tag != tag
    requires wireType != 0 && wireType != 1 && wireType != 2 && wireType != 5
    ensures DecLoop(t, st, TagBytes(wireType, tag) + more) == None
  {
    hide DecLoop;
    UnknownTag(t, st, wireType, tag, more);
  }

  lemma {:induction false} EntriesSkipped(t: LType, st: State, es: seq<Entry>, rest: Bytes)
    requires t.Submessage? && |st.slots| == |t.fields| && forall i :: 0 <= i < |es| ==> es[i].UnknownTo(t)
    ensures DecLoop(t, st, Together(es) + rest) == DecLoop(t, st, rest)
    decreases |es|
  {
    hide DecLoop, Entry.Encoded, Entry.UnknownTo;
    if es == [] {
      assert [] + rest == rest;
    } else {
      Regroup(es[0].Encoded(), Together(es[1..]), rest);
      EntrySkipped(t, st, es[0], Together(es[1..]) + rest);
      EntriesSkipped(t, st, es[1..], rest);
    }
  }

  lemma {:induction false} FieldsAndEntriesBack(t: LType, base: Slots, slots: Slots, between: seq<seq<Entry>>, n: nat)
    requires t.Submessage? && Schema(t) && |base| == |t.fields| && Fits(t, Message(slots)) && RoomForBoth(t, base, slots)
    requires |between| == |t.fields| + 1 && AllUnknown(t, between) && n <= |t.fields| && |EncFrom(t, slots, n)| < TWO_TO_32
    ensures DecLoop(t, Partial(t, base, {}, slots, n), EncWith(t, slots, between, n)) == Some(Partial(t, base, {}, slots, |t.fields|))
    decreases |t.fields| - n
  {
    hide Fits, Schema, Partial, RoomForBoth, EncField, Entry.UnknownTo;
    SlotCount(t, slots);
    var st := Partial(t, base, {}, slots, n);
    if n < |t.fields| {
      var more := EncWith(t, slots, between, n + 1);
      EntriesSkipped(t, st, between[n], EncField(t.fields[n], slots[n]) + more);
      hide DecLoop;
      FieldBack(t, base, {}, slots, n, more);
      FieldsAndEntriesBack(t, base, slots, between, n + 1);
    } else {
      EntriesSkipped(t, st, between[n], []);
    }
  }

  // The fields are read into the struct whatever unknown entries stand between them.
  lemma UnknownFieldsIgnored(t: LType, base: Slots, slots: Slots, between: seq<seq<Entry>>)
    requires t.Submessage? && Schema(t) && |base| == |t.fields| && Fits(t, Message(slots)) && RoomForBoth(t, base, slots)
    requires |between| == |t.fields| + 1 && AllUnknown(t, between) && |EncFrom(t, slots, 0)| < TWO_TO_32
    ensures DecMessage(t, base, EncWith(t, slots, between, 0)) == DecMessage(t, base, EncFrom(t, slots, 0)) == Some(Merged(t, base, slots))
  {
    hide EncWith, EncFrom, Fits, Schema, RoomForBoth, DecLoop;
    MergeBack(t, base, slots);
    PartialEnds(t, base, {}, slots);
    FieldsAndEntriesBack(t, base, slots, between, 0);
  }
}
