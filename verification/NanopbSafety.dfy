/** What decoding any bytes leaves in the struct: no integer outside its field, no array, string or bytes field over its
    size, no two members of a union, and the first required fields present. */
module NanopbSafety {
  import opened Keys
  import opened Coding
  import opened NanopbFormat

  ghost predicate Holds(t: LType, v: Value)
    decreases t, 1
  {
    match t
    case Blob(max) => v.Data? && |v.bytes| <= max
    case Text(max) => v.Data? && |v.bytes| < max
    case Submessage(fields) => v.Message? && SlotsHold(t, v.slots) && Present(fields, v.slots)
    case _ => Fits(t, v)
  }

  ghost predicate SlotsHold(t: LType, slots: Slots)
    requires t.Submessage?
    decreases t, 0
  {
    && |slots| == |t.fields|
    && (forall i, k :: 0 <= i < |slots| && 0 <= k < |slots[i]| ==> Holds(t.fields[i].ltype, slots[i][k]))
    && (forall i :: 0 <= i < |slots| ==> HasRoom(t.fields[i].rule, |slots[i]|))
    && (forall i, j :: 0 <= i < j < |slots| && SameUnion(t.fields[i], t.fields[j]) ==> slots[i] == [] || slots[j] == [])
  }

  predicate HasRoom(rule: Rule, n: nat) { if rule.Repeated? then n <= rule.max else n <= 1 }

  // The required fields that the bits cover have values.
  ghost predicate Present(fields: seq<Field>, slots: Slots) {
    && |slots| == |fields|
    && forall i :: 0 <= i < |fields| && fields[i].rule.Required? && RequiredBefore(fields, i) < PB_MAX_REQUIRED_FIELDS ==> slots[i] != []
  }

  lemma NumberHolds(t: LType, s: Bytes)
    requires Packable(t) && Schema(t) && DecNumber(t, s).Some?
    ensures Fits(t, DecNumber(t, s).value.value)
  {
    hide Varint32, GetVarint64Of;
    FixedWidths();
    if t.Fixed32? { FixedDecodes(s[..4]); }
    if t.Fixed64? { FixedDecodes(s[..8]); }
    hide DecodeFixed, EncodeFixed, Pow256;
  }

  lemma {:induction false} ValueHolds(t: LType, base: Slots, s: Bytes)
    requires Schema(t) && (t.Submessage? ==> SlotsHold(t, base)) && DecValue(t, base, s).Some?
    ensures Holds(t, DecValue(t, base, s).value.value)
    decreases |s|, 0
  {
    if Packable(t) {
      NumberHolds(t, s);
    } else {
      SubstreamShrinks(s);
      if t.Submessage? { MessageHolds(t, base, Substream(s).value.value); }
      hide Substream, DecMessage, SlotsHold, Present;
    }
  }

  lemma {:induction false} PackedHolds(t: LType, room: nat, s: Bytes)
    requires Packable(t) && Schema(t) && DecPacked(t, room, s).Some?
    ensures |DecPacked(t, room, s).value| <= room && forall k :: 0 <= k < |DecPacked(t, room, s).value| ==> Fits(t, DecPacked(t, room, s).value[k])
    decreases |s|
  {
    hide DecNumber, Fits, Schema;
    if s != [] {
      NumberShrinks(t, s);
      NumberHolds(t, s);
      PackedHolds(t, room - 1, DecNumber(t, s).value.rest);
    }
  }

  // Field i of the struct is set to vs, and other members of its union are taken out.
  ghost predicate Sets(t: LType, slots: Slots, i: nat, vs: seq<Value>, slots': Slots)
    requires t.Submessage? && |slots| == |t.fields| && i < |slots|
  {
    && |slots'| == |slots| && slots'[i] == vs
    && forall j :: 0 <= j < |slots| && j != i ==> slots'[j] == if SameUnion(t.fields[i], t.fields[j]) then [] else slots[j]
  }

  lemma SetHolds(t: LType, slots: Slots, i: nat, vs: seq<Value>, slots': Slots)
    requires t.Submessage? && SlotsHold(t, slots) && i < |slots| && Sets(t, slots, i, vs, slots')
    requires HasRoom(t.fields[i].rule, |vs|) && forall k :: 0 <= k < |vs| ==> Holds(t.fields[i].ltype, vs[k])
    ensures SlotsHold(t, slots')
  {
    hide Holds;
    forall a, b | 0 <= a < b < |slots'| && SameUnion(t.fields[a], t.fields[b]) ensures slots'[a] == [] || slots'[b] == [] {
      assert SameUnion(t.fields[b], t.fields[a]);
    }
  }

  lemma DefaultsHold(t: LType)
    requires t.Submessage?
    ensures SlotsHold(t, Defaults(t))
  {
    hide Holds;
  }

  // What field i holds and the others do once it is read.
  ghost predicate FieldHeld(t: LType, slots: Slots, i: nat, slots': Slots)
    requires t.Submessage? && |slots| == |t.fields| && i < |slots|
  {
    |slots'| == |slots| && SlotsHold(t, slots') && Sets(t, slots, i, slots'[i], slots') && (t.fields[i].rule.Required? ==> slots'[i] != [])
  }

  lemma FieldHolds(t: LType, i: nat, wireType: nat, slots: Slots, s: Bytes)
    requires t.Submessage? && Schema(t) && SlotsHold(t, slots) && i < |slots| && DecField(t, i, wireType, slots, s).Some?
    ensures FieldHeld(t, slots, i, DecField(t, i, wireType, slots, s).value.value)
    decreases |s|, 2
  {
    assert Schema(t.fields[i].ltype);
    hide Schema, Holds, SlotsHold, DecValue, DecPacked, Substream;
    OneFieldHolds(t, slots, i);
    if t.fields[i].rule.Repeated? {
      if wireType == WT_STRING && Packable(t.fields[i].ltype) { PackedFieldHolds(t, i, slots, s); } else { RepeatedFieldHolds(t, i, slots, s); }
    } else {
      SingleFieldHolds(t, i, slots, s);
    }
  }

  lemma PackedFieldHolds(t: LType, i: nat, slots: Slots, s: Bytes)
    requires t.Submessage? && SlotsHold(t, slots) && i < |slots| && t.fields[i].rule.Repeated? && Packable(t.fields[i].ltype) && Schema(t.fields[i].ltype)
    requires DecField(t, i, WT_STRING, slots, s).Some?
    ensures FieldHeld(t, slots, i, DecField(t, i, WT_STRING, slots, s).value.value)
  {
    hide Schema, Holds, SlotsHold, DecValue, DecPacked, Substream;
    var f, slots' := t.fields[i], DecField(t, i, WT_STRING, slots, s).value.value;
    OneFieldHolds(t, slots, i);
    PackedHolds(f.ltype, f.rule.max - |slots[i]|, Substream(s).value.value);
    PackableHolds(f.ltype);
    SetHolds(t, slots, i, slots'[i], slots');
  }

  lemma RepeatedFieldHolds(t: LType, i: nat, slots: Slots, s: Bytes)
    requires t.Submessage? && SlotsHold(t, slots) && i < |slots| && t.fields[i].rule.Repeated? && Schema(t.fields[i].ltype)
    requires |slots[i]| < t.fields[i].rule.max && DecValue(t.fields[i].ltype, Blank(t.fields[i].ltype), s).Some?
    ensures FieldHeld(t, slots, i, slots[i := slots[i] + [DecValue(t.fields[i].ltype, Blank(t.fields[i].ltype), s).value.value]])
    decreases |s|, 1
  {
    hide Schema, Holds, SlotsHold, DecValue;
    OneFieldHolds(t, slots, i);
    var f := t.fields[i];
    if f.ltype.Submessage? { DefaultsHold(f.ltype); }
    ValueHolds(f.ltype, Blank(f.ltype), s);
    var vs := slots[i] + [DecValue(f.ltype, Blank(f.ltype), s).value.value];
    SetHolds(t, slots, i, vs, slots[i := vs]);
  }

  lemma SingleFieldHolds(t: LType, i: nat, slots: Slots, s: Bytes)
    requires t.Submessage? && SlotsHold(t, slots) && i < |slots| && !t.fields[i].rule.Repeated? && Schema(t.fields[i].ltype)
    requires DecValue(t.fields[i].ltype, BaseOf(t.fields[i].ltype, slots[i]), s).Some?
    ensures FieldHeld(t, slots, i, Claimed(t.fields, slots, i)[i := [DecValue(t.fields[i].ltype, BaseOf(t.fields[i].ltype, slots[i]), s).value.value]])
    decreases |s|, 1
  {
    hide Schema, Holds, SlotsHold, DecValue;
    OneFieldHolds(t, slots, i);
    var f := t.fields[i];
    if f.ltype.Submessage? {
      DefaultsHold(f.ltype);
      if slots[i] != [] { InnerHolds(f.ltype, slots[i][0]); }
    }
    ValueHolds(f.ltype, BaseOf(f.ltype, slots[i]), s);
    var vs := [DecValue(f.ltype, BaseOf(f.ltype, slots[i]), s).value.value];
    SetHolds(t, slots, i, vs, Claimed(t.fields, slots, i)[i := vs]);
  }

  lemma OneFieldHolds(t: LType, slots: Slots, i: nat)
    requires t.Submessage? && SlotsHold(t, slots) && i < |slots|
    ensures |slots| == |t.fields| && HasRoom(t.fields[i].rule, |slots[i]|) && forall k :: 0 <= k < |slots[i]| ==> Holds(t.fields[i].ltype, slots[i][k])
  {
    hide Holds;
  }

  lemma PackableHolds(t: LType)
    requires Packable(t)
    ensures forall v :: Fits(t, v) ==> Holds(t, v)
  {
  }

  lemma InnerHolds(t: LType, v: Value)
    requires t.Submessage? && Holds(t, v)
    ensures v.Message? && SlotsHold(t, v.slots)
  {
  }

  ghost predicate SeenPresent(t: LType, st: State)
    requires t.Submessage? && |st.slots| == |t.fields|
  {
    forall i :: i in st.seen ==> i < |t.fields| && t.fields[i].rule.Required? && st.slots[i] != []
  }

  lemma {:induction false} LoopHolds(t: LType, st: State, s: Bytes)
    requires t.Submessage? && Schema(t) && SlotsHold(t, st.slots) && SeenPresent(t, st) && DecLoop(t, st, s).Some?
    ensures SlotsHold(t, DecLoop(t, st, s).value.slots) && SeenPresent(t, DecLoop(t, st, s).value)
    decreases |s|, 3
  {
    hide Schema, SlotsHold, DecField, Unknown, FindField, Varint32;
    SlotCountHeld(t, st.slots);
    if s != [] {
      Varint32Shrinks(s);
      var r := DecTag(s);
      if r.TagRead? {
        var i := FindField(t.fields, r.tag);
        if i == |t.fields| {
          UnknownShrinks(t, r.tag, r.wireType, r.rest);
          LoopHolds(t, st, Unknown(t, r.tag, r.wireType, r.rest).value);
        } else {
          var d := DecField(t, i, r.wireType, st.slots, r.rest).value;
          FieldHolds(t, i, r.wireType, st.slots, r.rest);
          LoopHolds(t, State(d.value, if t.fields[i].rule.Required? then st.seen + {i} else st.seen), d.rest);
        }
      }
    }
  }

  lemma SlotCountHeld(t: LType, slots: Slots)
    requires t.Submessage? && SlotsHold(t, slots)
    ensures |slots| == |t.fields|
  {
  }

  // Whatever the bytes, decoding them into a struct that holds nothing too large leaves nothing too large there.
  lemma MessageHolds(t: LType, base: Slots, s: Bytes)
    requires t.Submessage? && Schema(t) && SlotsHold(t, base) && DecMessage(t, base, s).Some?
    ensures SlotsHold(t, DecMessage(t, base, s).value) && Present(t.fields, DecMessage(t, base, s).value)
    decreases |s|, 4
  {
    hide SlotsHold, Schema, DecLoop;
    SlotCountHeld(t, base);
    LoopHolds(t, State(base, {}), s);
  }

  lemma DecodedHolds(t: LType, s: Bytes)
    requires t.Submessage? && Schema(t) && DecMessage(t, Defaults(t), s).Some?
    ensures Holds(t, Message(DecMessage(t, Defaults(t), s).value))
  {
    DefaultsHold(t);
    MessageHolds(t, Defaults(t), s);
    hide DecMessage, SlotsHold, Present;
  }
}
