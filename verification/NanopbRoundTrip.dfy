/** Decoding what was encoded gives the message back, for every schema and every message that fits it. */
module NanopbRoundTrip {
  import opened Keys
  import opened Coding
  import opened NanopbFormat

  // ----- varints -----

  lemma Powers128()
    ensures Pow128(1) == 0x80 && Pow128(2) == 0x4000 && Pow128(3) == 0x20_0000 && Pow128(4) == 0x1000_0000
  {
    assert Pow128(1) == 128 * Pow128(0) && Pow128(2) == 128 * Pow128(1) && Pow128(3) == 128 * Pow128(2) && Pow128(4) == 128 * Pow128(3);
  }

  // One byte of a canonical varint.
  lemma FirstByte(v: nat, rest: Bytes)
    ensures var s := EncodeVarint(v) + rest;
            && s != [] && s[0] as int == (if v < 128 then v else v % 128 + 128)
            && s[1..] == if v < 128 then rest else EncodeVarint(v / 128) + rest
  {
    hide ByteOf;
    if v < 128 {
      AfterByte(ByteOf(v), [], rest);
      assert [] + rest == rest;
    } else {
      AfterByte(ByteOf(v % 128 + 128), EncodeVarint(v / 128), rest);
    }
  }

  lemma AfterByte(b: byte, more: Bytes, rest: Bytes)
    ensures [b] + more == [b] + more && ([b] + more + rest)[0] == b && ([b] + more + rest)[1..] == more + rest && [b] + [] == [b]
  {
  }

  lemma {:induction false} MoreRoundTrip(v: nat, result: nat, k: nat, rest: Bytes)
    requires 1 <= k <= 4 && result < Pow128(k) && result + v * Pow128(k) < TWO_TO_32
    ensures Varint32More(EncodeVarint(v) + rest, result, k) == Some(Decoded(result + v * Pow128(k), rest))
    decreases 5 - k
  {
    hide EncodeVarint, Pow128, Varint32More;
    FirstByte(v, rest);
    if v < 128 {
      LastBounds(v, result, k);
      LastOfMore(EncodeVarint(v) + rest, v, result, k);
    } else {
      NextBounds(v, result, k);
      NextOfMore(EncodeVarint(v) + rest, v % 128, result, k);
      MoreRoundTrip(v / 128, result + v % 128 * Pow128(k), k + 1, rest);
    }
  }

  lemma LastBounds(v: nat, result: nat, k: nat)
    requires 1 <= k <= 4 && result + v * Pow128(k) < TWO_TO_32
    ensures v * Pow128(k) < TWO_TO_32 && (k == 4 ==> v < 16)
  {
    Powers128();
    hide Pow128;
  }

  lemma NextBounds(v: nat, result: nat, k: nat)
    requires 1 <= k <= 4 && result < Pow128(k) && result + v * Pow128(k) < TWO_TO_32 && v >= 128
    ensures k < 4 && v % 128 * Pow128(k) < TWO_TO_32 && result + v % 128 * Pow128(k) < Pow128(k + 1)
    ensures v % 128 * Pow128(k) + v / 128 * Pow128(k + 1) == v * Pow128(k)
  {
    Powers128();
    Shorter(v, Pow128(k));
    assert Pow128(k + 1) == 128 * Pow128(k);
    hide Pow128;
  }

  lemma LastOfMore(s: Bytes, v: nat, result: nat, k: nat)
    requires s != [] && s[0] as int == v < 128 && 1 <= k <= 4 && v * Pow128(k) < TWO_TO_32 && (k == 4 ==> v < 16)
    ensures Varint32More(s, result, k) == Some(Decoded(result + v * Pow128(k), s[1..]))
  {
    hide Pow128, Varint32More;
    var p := v * Pow128(k);
    assert v % 128 == v && p % TWO_TO_32 == p;
    LastTurn(s, result, k);
  }

  lemma LastTurn(s: Bytes, result: nat, k: nat)
    requires s != [] && k < 5 && s[0] as int < if k == 4 then 16 else 128
    ensures Varint32More(s, result, k) == Some(Decoded(result + s[0] as int % 128 * Pow128(k) % TWO_TO_32, s[1..]))
  {
    hide Pow128;
  }

  lemma NextOfMore(s: Bytes, low: nat, result: nat, k: nat)
    requires s != [] && low < 128 && s[0] as int == low + 128 && 1 <= k <= 4 && low * Pow128(k) < TWO_TO_32
    ensures Varint32More(s, result, k) == Varint32More(s[1..], result + low * Pow128(k), k + 1)
  {
    hide Pow128, Varint32More;
    var b, p := s[0] as int, low * Pow128(k);
    assert b % 128 == low && b >= 128;
    assert p % TWO_TO_32 == p;
    MoreTurn(s, result, k);
  }

  lemma MoreTurn(s: Bytes, result: nat, k: nat)
    requires s != [] && s[0] as int >= 128 && k < 5
    ensures Varint32More(s, result, k) == Varint32More(s[1..], result + s[0] as int % 128 * Pow128(k) % TWO_TO_32, k + 1)
  {
    hide Pow128;
  }

  lemma Shorter(v: nat, p: nat)
    requires v >= 128 && p > 0
    ensures v % 128 * p + v / 128 * (128 * p) == v * p && v * p >= 128 * p && v % 128 * p <= 127 * p
  {
    Distributes(v / 128, v % 128, p);
  }

  lemma Distributes(q: nat, r: nat, p: nat)
    requires q >= 1 && r < 128 && p > 0
    ensures r * p + q * (128 * p) == (128 * q + r) * p && (128 * q + r) * p >= 128 * p && r * p <= 127 * p
  {
    var qp := q * p;
    assert q * (128 * p) == 128 * qp && (128 * q + r) * p == 128 * qp + r * p;
    assert qp >= p;
  }

  lemma Varint32Back(v: nat, rest: Bytes)
    requires v < TWO_TO_32
    ensures Varint32(EncodeVarint(v) + rest) == Some(Decoded(v, rest))
  {
    FirstByte(v, rest);
    Powers128();
    hide EncodeVarint, Pow128, Varint32More;
    if v >= 128 { MoreRoundTrip(v / 128, v % 128, 1, rest); }
  }

  lemma SubstreamBack(s: Bytes, rest: Bytes)
    requires |s| < TWO_TO_32
    ensures Substream(EncodeSlice(s) + rest) == Some(Decoded(s, rest))
  {
    hide EncodeVarint, Varint32;
    assert EncodeSlice(s) + rest == EncodeVarint(|s|) + (s + rest);
    Varint32Back(|s|, s + rest);
  }

  lemma TagBack(wireType: nat, tag: nat, rest: Bytes)
    requires wireType < 8 && 1 <= tag < 0x2000_0000
    ensures TagBytes(wireType, tag) + rest != [] && DecTag(TagBytes(wireType, tag) + rest) == TagRead(tag, wireType, rest)
  {
    Varint32Back(tag * 8 + wireType, rest);
    hide EncodeVarint, Varint32;
  }

  // ----- integers -----

  lemma NumberBack(t: LType, v: Value, rest: Bytes)
    requires Packable(t) && Schema(t) && Fits(t, v)
    ensures EncValue(t, v) != [] && DecNumber(t, EncValue(t, v) + rest) == Some(Decoded(v, rest))
  {
    var n := v.n;
    if t.Bool? {
      Varint32Back(n, rest);
    } else if t.Fixed32? {
      Fixed32RoundTrip(n);
      assert (EncodeFixed(n, 4) + rest)[..4] == EncodeFixed(n, 4) && (EncodeFixed(n, 4) + rest)[4..] == rest;
    } else if t.Fixed64? {
      Fixed64RoundTrip(n);
      assert (EncodeFixed(n, 8) + rest)[..8] == EncodeFixed(n, 8) && (EncodeFixed(n, 8) + rest)[8..] == rest;
    } else {
      VarNumberBack(t, n, rest);
    }
  }

  lemma VarNumberBack(t: LType, n: int, rest: Bytes)
    requires (t.VarInt? || t.UVarInt? || t.SVarInt?) && Schema(t) && Fits(t, Num(n))
    ensures EncValue(t, Num(n)) != [] && DecNumber(t, EncValue(t, Num(n)) + rest) == Some(Decoded(Num(n), rest))
  {
    hide EncodeVarint, GetVarint64Of;
    var coded: nat := if t.VarInt? then Unsigned(n) else if t.UVarInt? then n else ZigZag(n);
    assert EncValue(t, Num(n)) == EncodeVarint(coded);
    Varint64RoundTrip(coded, rest);
    if t.VarInt? && t.width != 8 { Low32Back(n); }
  }

  lemma Low32Back(n: int)
    requires -0x8000_0000 <= n < 0x8000_0000
    ensures Unsigned(n) >= 0 && Low32(Unsigned(n)) == n
  {
  }

  // ----- one message read into another -----

  // What a field holds after a value, or the values of an array, are read over those that are there.
  ghost function MergedField(f: Field, there: seq<Value>, vs: seq<Value>): seq<Value>
    decreases f.ltype, 2
  {
    if vs == [] then there else if f.rule.Repeated? then there + vs else [MergedValue(f.ltype, there, vs[0])]
  }

  ghost function MergedValue(t: LType, there: seq<Value>, v: Value): Value
    decreases t, 1
  {
    if IsThere(t, there) && v.Message? && |v.slots| == |t.fields| then Message(Merged(t, there[0].slots, v.slots)) else v
  }

  // Another member of the union is set.
  ghost predicate Ousted(fields: seq<Field>, slots: Slots, i: nat)
    requires |slots| == |fields| && i < |fields|
  {
    exists j :: 0 <= j < |slots| && j != i && slots[j] != [] && SameUnion(fields[j], fields[i])
  }

  // The fields that exist in the new message are updated, the others stay: arrays grow, submessages are merged, a member
  // of a union takes the others out.
  ghost function Merged(t: LType, base: Slots, slots: Slots): (r: Slots)
    requires t.Submessage? && |base| == |slots| == |t.fields|
    ensures |r| == |t.fields|
    decreases t, 0
  {
    seq(|slots|, i requires 0 <= i < |slots| =>
      if slots[i] == [] && Ousted(t.fields, slots, i) then [] else MergedField(t.fields[i], base[i], slots[i]))
  }

  // The arrays are large enough for both.
  ghost predicate RoomForBoth(t: LType, base: Slots, slots: Slots)
    requires t.Submessage? && |base| == |slots| == |t.fields|
    decreases t, 0
  {
    forall i :: 0 <= i < |slots| && slots[i] != [] ==> RoomInField(t.fields[i], base[i], slots[i])
  }

  ghost predicate RoomInField(f: Field, there: seq<Value>, vs: seq<Value>)
    requires vs != []
    decreases f.ltype, 2
  {
    if f.rule.Repeated? then |there| + |vs| <= f.rule.max else RoomInValue(f.ltype, there, vs[0])
  }

  ghost predicate RoomInValue(t: LType, there: seq<Value>, v: Value)
    decreases t, 1
  {
    IsThere(t, there) && v.Message? && |v.slots| == |t.fields| ==> RoomForBoth(t, there[0].slots, v.slots)
  }

  // ----- values and fields -----

  lemma {:induction false} ValueBack(t: LType, there: seq<Value>, v: Value, rest: Bytes)
    requires Schema(t) && Fits(t, v) && |EncValue(t, v)| < TWO_TO_32 && RoomInValue(t, there, v)
    ensures EncValue(t, v) != [] && DecValue(t, BaseOf(t, there), EncValue(t, v) + rest) == Some(Decoded(MergedValue(t, there, v), rest))
    decreases t, 4
  {
    if Packable(t) {
      NumberBack(t, v, rest);
    } else if t.Submessage? {
      var inner, base := EncFrom(t, v.slots, 0), BaseOf(t, there);
      SubstreamBack(inner, rest);
      if !IsThere(t, there) { OverDefaults(t, v.slots); }
      MergeBack(t, base, v.slots);
    } else {
      SubstreamBack(v.bytes, rest);
    }
  }

  // With nothing there the new message is the whole.
  lemma OverDefaults(t: LType, slots: Slots)
    requires t.Submessage? && Fits(t, Message(slots))
    ensures RoomForBoth(t, Defaults(t), slots) && Merged(t, Defaults(t), slots) == slots
  {
    var r := Merged(t, Defaults(t), slots);
    forall i | 0 <= i < |slots| ensures r[i] == slots[i] {
      FieldCount(t, slots, i);
      FieldOverNothing(t.fields[i], slots[i]);
    }
  }

  lemma FieldOverNothing(f: Field, vs: seq<Value>)
    requires RightMany(f.rule, |vs|)
    ensures MergedField(f, [], vs) == vs
  {
    assert [] + vs == vs;
    if !f.rule.Repeated? && vs != [] { assert vs == [vs[0]] && MergedValue(f.ltype, [], vs[0]) == vs[0]; }
  }

  lemma FieldCount(t: LType, slots: Slots, i: nat)
    requires t.Submessage? && Fits(t, Message(slots)) && i < |t.fields|
    ensures |slots| == |t.fields| && RightMany(t.fields[i].rule, |slots[i]|)
  {
  }

  // The first n fields of a message.
  function First(slots: Slots, n: nat): (r: Slots)
    ensures |r| == |slots| && forall i :: 0 <= i < |r| ==> r[i] == if i < n then slots[i] else []
  {
    seq(|slots|, i requires 0 <= i < |slots| => if i < n then slots[i] else [])
  }

  function RequiredUpTo(fields: seq<Field>, n: nat): set<nat> { set i | 0 <= i < n && i < |fields| && fields[i].rule.Required? }

  // The struct and the required fields seen once the first n fields are read into it.
  ghost function Partial(t: LType, base: Slots, seen: set<nat>, slots: Slots, n: nat): (st: State)
    requires t.Submessage? && |base| == |slots| == |t.fields|
    ensures |st.slots| == |t.fields|
  {
    State(Merged(t, base, First(slots, n)), seen + RequiredUpTo(t.fields, n))
  }

  lemma PartialEnds(t: LType, base: Slots, seen: set<nat>, slots: Slots)
    requires t.Submessage? && |base| == |slots| == |t.fields|
    ensures Partial(t, base, seen, slots, 0) == State(base, seen)
    ensures Partial(t, base, seen, slots, |t.fields|) == State(Merged(t, base, slots), seen + RequiredUpTo(t.fields, |t.fields|))
  {
    assert First(slots, |t.fields|) == slots;
    assert Merged(t, base, First(slots, 0)) == base;
    assert RequiredUpTo(t.fields, 0) == {};
  }

  // Reading a message's fields into a struct updates the fields that exist in it.
  lemma MergeBack(t: LType, base: Slots, slots: Slots)
    requires t.Submessage? && Schema(t) && |base| == |t.fields| && Fits(t, Message(slots)) && RoomForBoth(t, base, slots)
    requires |EncFrom(t, slots, 0)| < TWO_TO_32
    ensures DecMessage(t, base, EncFrom(t, slots, 0)) == Some(Merged(t, base, slots))
    decreases t, 3
  {
    PartialEnds(t, base, {}, slots);
    FieldsBack(t, base, {}, slots, 0, []);
    assert EncFrom(t, slots, 0) + [] == EncFrom(t, slots, 0);
  }

  lemma {:induction false} FieldsBack(t: LType, base: Slots, seen: set<nat>, slots: Slots, n: nat, rest: Bytes)
    requires t.Submessage? && Schema(t) && |base| == |t.fields| && Fits(t, Message(slots)) && RoomForBoth(t, base, slots)
    requires n <= |t.fields| && |EncFrom(t, slots, n)| < TWO_TO_32
    ensures DecLoop(t, Partial(t, base, seen, slots, n), EncFrom(t, slots, n) + rest) == DecLoop(t, Partial(t, base, seen, slots, |t.fields|), rest)
    decreases t, 2, |t.fields| - n
  {
    if n < |t.fields| {
      hide DecLoop, EncField, Fits, Schema, RoomForBoth, Partial;
      SlotCount(t, slots);
      var more := EncFrom(t, slots, n + 1);
      FieldBack(t, base, seen, slots, n, more + rest);
      Regroup(EncField(t.fields[n], slots[n]), more, rest);
      FieldsBack(t, base, seen, slots, n + 1, rest);
    } else {
      assert [] + rest == rest;
    }
  }

  lemma SlotCount(t: LType, slots: Slots)
    requires t.Submessage? && Fits(t, Message(slots))
    ensures |slots| == |t.fields|
  {
  }

  // What is known of field n of a message that is read.
  ghost predicate Reads(t: LType, base: Slots, slots: Slots, n: nat) {
    && t.Submessage? && Schema(t) && |base| == |slots| == |t.fields| && n < |t.fields|
    && Schema(t.fields[n].ltype) && RightMany(t.fields[n].rule, |slots[n]|)
    && (forall k :: 0 <= k < |slots[n]| ==> Fits(t.fields[n].ltype, slots[n][k]))
    && (forall i, j :: 0 <= i < j < |slots| && SameUnion(t.fields[i], t.fields[j]) ==> slots[i] == [] || slots[j] == [])
    && (slots[n] != [] ==> RoomInField(t.fields[n], base[n], slots[n]))
  }

  lemma ReadsField(t: LType, base: Slots, slots: Slots, n: nat)
    requires t.Submessage? && Schema(t) && |base| == |t.fields| && Fits(t, Message(slots)) && RoomForBoth(t, base, slots) && n < |t.fields|
    ensures Reads(t, base, slots, n)
  {
    hide RoomInField;
  }

  // One field: the loop reads all of it and nothing more.
  lemma FieldBack(t: LType, base: Slots, seen: set<nat>, slots: Slots, n: nat, rest: Bytes)
    requires t.Submessage? && Schema(t) && |base| == |t.fields| && Fits(t, Message(slots)) && RoomForBoth(t, base, slots)
    requires n < |t.fields| && |EncField(t.fields[n], slots[n])| < TWO_TO_32
    ensures DecLoop(t, Partial(t, base, seen, slots, n), EncField(t.fields[n], slots[n]) + rest) == DecLoop(t, Partial(t, base, seen, slots, n + 1), rest)
    decreases t, 1, 0
  {
    ReadsField(t, base, slots, n);
    hide DecLoop, DecField, EncField, EncTagged, EncValue, Claimed, Fits, Schema, RoomForBoth, RoomInField, Partial;
    var f, vs := t.fields[n], slots[n];
    if vs == [] {
      NothingToRead(t, base, seen, slots, n, rest);
    } else if f.rule.Repeated? {
      if Packable(f.ltype) {
        PackedBack(t, base, seen, slots, n, rest);
      } else {
        EachTagged(f, vs);
        OneByOneBack(t, base, seen, slots, n, rest);
      }
    } else {
      SingleBack(t, base, seen, slots, n, rest);
    }
  }

  lemma EachTagged(f: Field, vs: seq<Value>)
    requires f.rule.Repeated? && !Packable(f.ltype)
    ensures EncField(f, vs) == EncTagged(f.ltype, f.tag, vs)
  {
  }

  lemma NothingToRead(t: LType, base: Slots, seen: set<nat>, slots: Slots, n: nat, rest: Bytes)
    requires t.Submessage? && |base| == |slots| == |t.fields| && n < |slots| && slots[n] == [] && RightMany(t.fields[n].rule, 0)
    ensures Partial(t, base, seen, slots, n) == Partial(t, base, seen, slots, n + 1) && EncField(t.fields[n], slots[n]) + rest == rest
  {
    assert First(slots, n) == First(slots, n + 1);
    assert RequiredUpTo(t.fields, n) == RequiredUpTo(t.fields, n + 1);
    assert EncField(t.fields[n], slots[n]) == [];
  }

  // What is in field n before it is read: nothing the new message has to do with.
  lemma BeforeField(t: LType, base: Slots, slots: Slots, n: nat)
    requires Reads(t, base, slots, n) && slots[n] != []
    ensures Merged(t, base, First(slots, n))[n] == base[n]
  {
    hide Schema, Fits, RoomInField, MergedValue;
    var part := First(slots, n);
    forall j | 0 <= j < |part| && j != n && SameUnion(t.fields[j], t.fields[n]) ensures part[j] == [] {}
  }

  // Field n read: it is merged, and members of its union are taken out.
  lemma AfterField(t: LType, base: Slots, seen: set<nat>, slots: Slots, n: nat)
    requires Reads(t, base, slots, n) && slots[n] != []
    ensures var st := Partial(t, base, seen, slots, n);
            Partial(t, base, seen, slots, n + 1) ==
            State(Claimed(t.fields, st.slots, n)[n := MergedField(t.fields[n], base[n], slots[n])],
                  if t.fields[n].rule.Required? then st.seen + {n} else st.seen)
  {
    hide Schema, Fits, RoomInField, MergedField;
    var st, st' := Partial(t, base, seen, slots, n), Partial(t, base, seen, slots, n + 1);
    var next := Claimed(t.fields, st.slots, n)[n := MergedField(t.fields[n], base[n], slots[n])];
    forall i | 0 <= i < |next| ensures st'.slots[i] == next[i] { MergedAt(t, base, slots, n, i); }
    assert st'.slots == next;
    assert RequiredUpTo(t.fields, n + 1) == RequiredUpTo(t.fields, n) + if t.fields[n].rule.Required? then {n} else {};
  }

  lemma MergedAt(t: LType, base: Slots, slots: Slots, n: nat, i: nat)
    requires Reads(t, base, slots, n) && slots[n] != [] && i < |slots|
    ensures Merged(t, base, First(slots, n + 1))[i]
         == if i == n then MergedField(t.fields[n], base[n], slots[n])
            else if SameUnion(t.fields[n], t.fields[i]) then []
            else Merged(t, base, First(slots, n))[i]
  {
    hide Schema, Fits, RoomInField, MergedField;
    var part, part' := First(slots, n), First(slots, n + 1);
    if i != n {
      assert part[i] == part'[i];
      if SameUnion(t.fields[n], t.fields[i]) {
        assert slots[i] == [] by { OnlyOne(t, base, slots, n, i); }
        assert part'[n] != [] && Ousted(t.fields, part', i);
      } else {
        SameOusted(t.fields, part, part', n, i);
      }
    }
  }

  lemma OnlyOne(t: LType, base: Slots, slots: Slots, n: nat, i: nat)
    requires Reads(t, base, slots, n) && slots[n] != [] && i < |slots| && i != n && SameUnion(t.fields[n], t.fields[i])
    ensures slots[i] == []
  {
    hide Schema, Fits, RoomInField;
    if i < n { assert SameUnion(t.fields[i], t.fields[n]); }
  }

  lemma SameOusted(fields: seq<Field>, part: Slots, part': Slots, n: nat, i: nat)
    requires |part| == |part'| == |fields| && n < |fields| && i < |fields| && i != n && !SameUnion(fields[n], fields[i])
    requires forall j :: 0 <= j < |part| && j != n ==> part'[j] == part[j]
    ensures Ousted(fields, part', i) == Ousted(fields, part, i)
  {
  }

  lemma {:induction false} FindSelf(fields: seq<Field>, n: nat, k: nat)
    requires k <= n < |fields| && forall i, j :: 0 <= i < j < |fields| ==> fields[i].tag != fields[j].tag
    ensures FindUpFrom(fields, fields[n].tag, k) == n
    decreases n - k
  {
    if k < n { FindSelf(fields, n, k + 1); }
  }

  // One entry of the wire whose tag is field n's.
  lemma EntryRead(t: LType, st: State, n: nat, wireType: nat, body: Bytes, slots': Slots, rest: Bytes)
    requires t.Submessage? && Schema(t) && |st.slots| == |t.fields| && n < |t.fields| && wireType < 8
    requires DecField(t, n, wireType, st.slots, body + rest) == Some(Decoded(slots', rest))
    ensures |slots'| == |t.fields|
    ensures DecLoop(t, st, TagBytes(wireType, t.fields[n].tag) + body + rest)
         == DecLoop(t, State(slots', if t.fields[n].rule.Required? then st.seen + {n} else st.seen), rest)
  {
    var s := TagBytes(wireType, t.fields[n].tag) + body + rest;
    assert s == TagBytes(wireType, t.fields[n].tag) + (body + rest);
    TagBack(wireType, t.fields[n].tag, body + rest);
    FindSelf(t.fields, n, 0);
    hide TagBytes, DecField, DecTag;
  }

  lemma SingleBack(t: LType, base: Slots, seen: set<nat>, slots: Slots, n: nat, rest: Bytes)
    requires Reads(t, base, slots, n) && !t.fields[n].rule.Repeated? && slots[n] != [] && |EncField(t.fields[n], slots[n])| < TWO_TO_32
    ensures DecLoop(t, Partial(t, base, seen, slots, n), EncField(t.fields[n], slots[n]) + rest) == DecLoop(t, Partial(t, base, seen, slots, n + 1), rest)
    decreases t, 0, 0
  {
    hide EncField, EncValue, TagBytes, Fits, DecLoop, Schema, DecValue, MergedValue, Merged, RoomInValue, DecField;
    var f, v, st := t.fields[n], slots[n][0], Partial(t, base, seen, slots, n);
    var body := EncValue(f.ltype, v);
    assert slots[n] == [v];
    OneTagged(f, v);
    ValueBack(f.ltype, base[n], v, rest);
    BeforeField(t, base, slots, n);
    SingleField(t, n, WireType(f.ltype), st.slots, MergedValue(f.ltype, base[n], v), body + rest, rest);
    EntryRead(t, st, n, WireType(f.ltype), body, Claimed(t.fields, st.slots, n)[n := [MergedValue(f.ltype, base[n], v)]], rest);
    AfterField(t, base, seen, slots, n);
  }

  lemma SingleField(t: LType, n: nat, wireType: nat, slots: Slots, v: Value, s: Bytes, rest: Bytes)
    requires t.Submessage? && |slots| == |t.fields| && n < |slots| && !t.fields[n].rule.Repeated?
    requires DecValue(t.fields[n].ltype, BaseOf(t.fields[n].ltype, slots[n]), s) == Some(Decoded(v, rest))
    ensures DecField(t, n, wireType, slots, s) == Some(Decoded(Claimed(t.fields, slots, n)[n := [v]], rest))
  {
    hide DecValue, Claimed;
  }

  lemma OneTagged(f: Field, v: Value)
    requires !f.rule.Repeated?
    ensures EncField(f, [v]) == TagBytes(WireType(f.ltype), f.tag) + EncValue(f.ltype, v)
  {
    hide EncValue, TagBytes;
    assert [v][1..] == [] && EncTagged(f.ltype, f.tag, []) == [];
    assert TagBytes(WireType(f.ltype), f.tag) + EncValue(f.ltype, v) + [] == TagBytes(WireType(f.ltype), f.tag) + EncValue(f.ltype, v);
  }

  // An array claims nothing.
  lemma ArrayClaims(fields: seq<Field>, slots: Slots, n: nat)
    requires |slots| == |fields| && n < |fields| && fields[n].rule.Repeated?
    ensures Claimed(fields, slots, n) == slots
  {
  }

  lemma {:induction false} PackedValuesBack(t: LType, vs: seq<Value>, room: nat)
    requires Packable(t) && Schema(t) && |vs| <= room && forall k :: 0 <= k < |vs| ==> Fits(t, vs[k])
    ensures DecPacked(t, room, EncPacked(t, vs)) == Some(vs)
    decreases |vs|
  {
    hide EncValue, DecNumber, Fits, Schema;
    if vs != [] {
      NumberBack(t, vs[0], EncPacked(t, vs[1..]));
      PackedValuesBack(t, vs[1..], room - 1);
      assert [vs[0]] + vs[1..] == vs;
    }
  }

  lemma PackedBack(t: LType, base: Slots, seen: set<nat>, slots: Slots, n: nat, rest: Bytes)
    requires Reads(t, base, slots, n) && t.fields[n].rule.Repeated? && slots[n] != []
    requires Packable(t.fields[n].ltype) && |EncField(t.fields[n], slots[n])| < TWO_TO_32
    ensures DecLoop(t, Partial(t, base, seen, slots, n), EncField(t.fields[n], slots[n]) + rest) == DecLoop(t, Partial(t, base, seen, slots, n + 1), rest)
  {
    hide Fits, Schema, EncPacked, EncodeSlice, Substream, DecPacked, TagBytes, DecLoop, EncValue, EncTagged, DecField, EncField, Merged, Claimed;
    var f, vs, st := t.fields[n], slots[n], Partial(t, base, seen, slots, n);
    var packed := EncPacked(f.ltype, vs);
    IsPacked(f, vs);
    PackedValuesBack(f.ltype, vs, f.rule.max - |base[n]|);
    SubstreamBack(packed, rest);
    BeforeField(t, base, slots, n);
    PackedField(t, n, st.slots, vs, packed, EncodeSlice(packed) + rest, rest);
    EntryRead(t, st, n, WT_STRING, EncodeSlice(packed), st.slots[n := base[n] + vs], rest);
    ArrayClaims(t.fields, st.slots, n);
    AfterField(t, base, seen, slots, n);
  }

  lemma IsPacked(f: Field, vs: seq<Value>)
    requires f.rule.Repeated? && Packable(f.ltype) && vs != []
    ensures EncField(f, vs) == TagBytes(WT_STRING, f.tag) + EncodeSlice(EncPacked(f.ltype, vs))
    ensures |EncPacked(f.ltype, vs)| <= |EncField(f, vs)|
  {
    hide EncPacked, TagBytes, EncodeVarint;
  }

  lemma PackedField(t: LType, n: nat, slots: Slots, vs: seq<Value>, packed: Bytes, s: Bytes, rest: Bytes)
    requires t.Submessage? && |slots| == |t.fields| && n < |slots| && t.fields[n].rule.Repeated? && Packable(t.fields[n].ltype)
    requires |slots[n]| <= t.fields[n].rule.max && Substream(s) == Some(Decoded(packed, rest))
    requires DecPacked(t.fields[n].ltype, t.fields[n].rule.max - |slots[n]|, packed) == Some(vs)
    ensures DecField(t, n, WT_STRING, slots, s) == Some(Decoded(slots[n := slots[n] + vs], rest))
  {
    hide Substream, DecPacked;
  }

  lemma RepeatedField(t: LType, n: nat, wireType: nat, slots: Slots, v: Value, s: Bytes, rest: Bytes)
    requires t.Submessage? && |slots| == |t.fields| && n < |slots| && t.fields[n].rule.Repeated? && (Packable(t.fields[n].ltype) ==> wireType != WT_STRING)
    requires |slots[n]| < t.fields[n].rule.max && DecValue(t.fields[n].ltype, Blank(t.fields[n].ltype), s) == Some(Decoded(v, rest))
    ensures DecField(t, n, wireType, slots, s) == Some(Decoded(slots[n := slots[n] + [v]], rest))
  {
    hide Substream, DecValue;
  }

  // An array written value by value, each with its tag, which the decoder takes for any type.
  lemma OneByOneBack(t: LType, base: Slots, seen: set<nat>, slots: Slots, n: nat, rest: Bytes)
    requires Reads(t, base, slots, n) && t.fields[n].rule.Repeated? && slots[n] != []
    requires |EncTagged(t.fields[n].ltype, t.fields[n].tag, slots[n])| < TWO_TO_32
    ensures DecLoop(t, Partial(t, base, seen, slots, n), EncTagged(t.fields[n].ltype, t.fields[n].tag, slots[n]) + rest)
         == DecLoop(t, Partial(t, base, seen, slots, n + 1), rest)
    decreases t, 0, |slots[n]| + 1
  {
    hide EncTagged, DecLoop, Schema, Merged, Claimed, Fits;
    var vs, st := slots[n], Partial(t, base, seen, slots, n);
    BeforeField(t, base, slots, n);
    assert vs[0..] == vs && base[n] + vs[..0] == base[n] && st.slots[n := st.slots[n]] == st.slots && vs[..|vs|] == vs;
    FromValue(t, st, base[n], vs, n, 0, rest);
    ArrayClaims(t.fields, st.slots, n);
    AfterField(t, base, seen, slots, n);
  }

  // From the k-th value on.
  lemma {:induction false} FromValue(t: LType, st: State, there: seq<Value>, vs: seq<Value>, n: nat, k: nat, rest: Bytes)
    requires t.Submessage? && Schema(t) && |st.slots| == |t.fields| && n < |t.fields| && t.fields[n].rule.Repeated? && Schema(t.fields[n].ltype)
    requires k <= |vs| && |there| + |vs| <= t.fields[n].rule.max && forall i :: 0 <= i < |vs| ==> Fits(t.fields[n].ltype, vs[i])
    requires |EncTagged(t.fields[n].ltype, t.fields[n].tag, vs[k..])| < TWO_TO_32
    ensures DecLoop(t, st.(slots := st.slots[n := there + vs[..k]]), EncTagged(t.fields[n].ltype, t.fields[n].tag, vs[k..]) + rest)
         == DecLoop(t, st.(slots := st.slots[n := there + vs[..|vs|]]), rest)
    decreases t, 0, |vs| - k
  {
    hide EncValue, TagBytes, Fits, DecLoop, Schema, DecValue, DecField, EncTagged;
    var f := t.fields[n];
    if k == |vs| {
      NoneTagged(f, vs[k..], rest);
    } else {
      var v, more, now := vs[k], EncTagged(f.ltype, f.tag, vs[k + 1..]), st.(slots := st.slots[n := there + vs[..k]]);
      var body := EncValue(f.ltype, v);
      FirstTagged(f, vs, k);
      ValueBack(f.ltype, [], v, more + rest);
      assert there + vs[..k] + [v] == there + vs[..k + 1];
      RepeatedField(t, n, WireType(f.ltype), now.slots, v, body + (more + rest), more + rest);
      EntryRead(t, now, n, WireType(f.ltype), body, now.slots[n := there + vs[..k + 1]], more + rest);
      Regroup(TagBytes(WireType(f.ltype), f.tag) + body, more, rest);
      assert now.slots[n := there + vs[..k + 1]] == st.slots[n := there + vs[..k + 1]];
      FromValue(t, st, there, vs, n, k + 1, rest);
    }
  }

  lemma NoneTagged(f: Field, vs: seq<Value>, rest: Bytes)
    requires vs == []
    ensures EncTagged(f.ltype, f.tag, vs) + rest == rest
  {
    assert [] + rest == rest;
  }

  lemma FirstTagged(f: Field, vs: seq<Value>, k: nat)
    requires k < |vs|
    ensures EncTagged(f.ltype, f.tag, vs[k..])
         == TagBytes(WireType(f.ltype), f.tag) + EncValue(f.ltype, vs[k]) + EncTagged(f.ltype, f.tag, vs[k + 1..])
    ensures |EncValue(f.ltype, vs[k])| <= |EncTagged(f.ltype, f.tag, vs[k..])|
    ensures |EncTagged(f.ltype, f.tag, vs[k + 1..])| <= |EncTagged(f.ltype, f.tag, vs[k..])|
  {
    hide EncValue, TagBytes;
    assert vs[k..][0] == vs[k] && vs[k..][1..] == vs[k + 1..];
  }

  lemma Regroup(a: Bytes, b: Bytes, c: Bytes)
    ensures a + b + c == a + (b + c)
  {
  }

  // ----- whole messages -----

  lemma MessageBack(t: LType, slots: Slots)
    requires t.Submessage? && Schema(t) && Fits(t, Message(slots)) && |EncFrom(t, slots, 0)| < TWO_TO_32
    ensures DecMessage(t, Defaults(t), EncFrom(t, slots, 0)) == Some(slots)
  {
    OverDefaults(t, slots);
    hide DecMessage, EncFrom, Fits, Schema, Merged, RoomForBoth;
    MergeBack(t, Defaults(t), slots);
  }

  // Two encodings one after the other decode to the second message merged into the first.
  lemma ConcatenationMerges(t: LType, a: Slots, b: Slots)
    requires t.Submessage? && Schema(t) && Fits(t, Message(a)) && Fits(t, Message(b)) && |a| == |b| == |t.fields| && RoomForBoth(t, a, b)
    requires |EncFrom(t, a, 0)| < TWO_TO_32 && |EncFrom(t, b, 0)| < TWO_TO_32
    ensures DecMessage(t, Defaults(t), EncFrom(t, a, 0) + EncFrom(t, b, 0)) == Some(Merged(t, a, b))
  {
    OverDefaults(t, a);
    hide EncFrom, Fits, Schema, Merged, RoomForBoth, Partial, DecLoop, AllSeen;
    var first, second, seen := EncFrom(t, a, 0), EncFrom(t, b, 0), {} + RequiredUpTo(t.fields, |t.fields|);
    PartialEnds(t, Defaults(t), {}, a);
    FieldsBack(t, Defaults(t), {}, a, 0, second);
    PartialEnds(t, a, seen, b);
    FieldsBack(t, a, seen, b, 0, []);
    assert second + [] == second;
    AllMet(t, first + second, Merged(t, a, b), seen);
  }

  lemma AllMet(t: LType, s: Bytes, slots: Slots, seen: set<nat>)
    requires t.Submessage? && |slots| == |t.fields| && seen == {} + RequiredUpTo(t.fields, |t.fields|)
    requires DecLoop(t, State(Defaults(t), {}), s) == DecLoop(t, State(slots, seen + RequiredUpTo(t.fields, |t.fields|)), [])
    ensures DecMessage(t, Defaults(t), s) == Some(slots)
  {
  }
}
