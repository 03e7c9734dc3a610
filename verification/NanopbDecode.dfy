/** pb_decode (ios/Pods/nanopb/pb_decode.c) over an input stream, with the cyclic field iterator of
    pb_common.c: from wherever the iterator stands it finds the field of a tag. */
module NanopbDecode {
  import opened Keys
  import opened Coding
  import opened NanopbFormat
  import opened NanopbRoundTrip
  import E = NanopbEncode

  // ----- the field iterator -----

  lemma {:induction false} FindAnywhere(fields: seq<Field>, tag: nat, i: nat, n: nat)
    requires n <= |fields| && i < |fields| && fields[i].tag == tag && (forall j :: 0 <= j < n ==> fields[j].tag != tag)
    requires forall a, b :: 0 <= a < b < |fields| ==> fields[a].tag != fields[b].tag
    ensures FindUpFrom(fields, tag, n) == i
    decreases |fields| - n
  {
    if n < |fields| && fields[n].tag != tag { FindAnywhere(fields, tag, i, n + 1); }
  }

  lemma {:induction false} FindNone(fields: seq<Field>, tag: nat, n: nat)
    requires n <= |fields| && forall j :: 0 <= j < |fields| ==> fields[j].tag != tag
    ensures FindUpFrom(fields, tag, n) == |fields|
    decreases |fields| - n
  {
    if n < |fields| { FindNone(fields, tag, n + 1); }
  }

  // pb_field_iter_t
  class FieldIter {
    const fields: seq<Field>
    var pos: nat                                 // at the terminator only when there are no fields
    var requiredIndex: nat                       // required_field_index

    ghost predicate Valid()
      reads this
    {
      (if fields == [] then pos == 0 else pos < |fields|) && requiredIndex == RequiredBefore(fields, pos)
    }

    // pb_field_iter_begin
    constructor (fields: seq<Field>)
      ensures Valid() && this.fields == fields && pos == 0
    {
      this.fields := fields;
      pos, requiredIndex := 0, 0;
    }

    // pb_field_iter_next: false on wrapping back to the beginning.
    method Next() returns (more: bool)
      requires Valid()
      modifies this
      ensures Valid() && (more <==> old(pos) + 1 < |fields|) && pos == if more then old(pos) + 1 else 0
    {
      if fields == [] { return false; }
      var required := fields[pos].rule.Required?;
      pos := pos + 1;
      if pos == |fields| {
        pos, requiredIndex := 0, 0;
        return false;
      }
      if required { requiredIndex := requiredIndex + 1; }
      more := true;
    }

    // pb_field_iter_find; the terminator of an empty field list has tag 0.
    method Find(tag: nat) returns (found: bool)
      requires Valid() && forall i, j :: 0 <= i < j < |fields| ==> fields[i].tag != fields[j].tag
      modifies this
      ensures Valid() && (found <==> (fields == [] && tag == 0) || FindField(fields, tag) < |fields|)
      ensures found && fields != [] ==> pos == FindField(fields, tag)
    {
      if fields == [] { return tag == 0; }
      var start := pos;
      ghost var n: nat := 0;
      while true
        invariant Valid() && n < |fields| && pos == Around(start, n)
        invariant forall k :: 0 <= k < n ==> fields[Around(start, k)].tag != tag
        decreases |fields| - n
      {
        if fields[pos].tag == tag {
          FindAnywhere(fields, tag, pos, 0);
          return true;
        }
        var more := Next();
        n := n + 1;
        if pos == start {
          AllVisited(start, n, tag);
          FindNone(fields, tag, 0);
          return false;
        }
      }
    }

    // k steps on from start.
    ghost function Around(start: nat, k: nat): (p: nat)
      requires start < |fields| && k <= |fields|
      ensures p < |fields|
    {
      if start + k < |fields| then start + k else start + k - |fields|
    }

    lemma AllVisited(start: nat, n: nat, tag: nat)
      requires start < |fields| && n <= |fields| && n > 0 && Around(start, n) == start
      requires forall k :: 0 <= k < n ==> fields[Around(start, k)].tag != tag
      ensures forall j :: 0 <= j < |fields| ==> fields[j].tag != tag
    {
      forall j | 0 <= j < |fields| ensures fields[j].tag != tag {
        var k := if j >= start then j - start else j + |fields| - start;
        assert Around(start, k) == j;
      }
    }
  }

  // ----- the stream -----

  class IStream {
    var rest: Bytes                              // bytes_left is its length

    constructor (rest: Bytes)
      ensures this.rest == rest
    {
      this.rest := rest;
    }

    // pb_read
    method Read(n: nat) returns (data: Option<Bytes>)
      modifies this
      ensures data == if n <= |old(rest)| then Some(old(rest)[..n]) else None
      ensures data.Some? ==> rest == old(rest)[n..]
    {
      if |rest| < n { return None; }             // "end-of-stream"
      data := Some(rest[..n]);
      rest := rest[n..];
    }
  }

  // A stream function's answer, and where it leaves the stream when there is one.
  ghost predicate Answer<T(!new)>(s: IStream, r: Option<T>, d: Option<Decoded<T>>)
    reads s
  {
    r.Some? == d.Some? && (d.Some? ==> r.value == d.value.value && s.rest == d.value.rest)
  }

  // pb_decode_varint32
  method DecodeVarint32(s: IStream) returns (r: Option<nat>)
    modifies s
    ensures Answer(s, r, Varint32(old(s.rest)))
  {
    hide Overflows, Grown;
    ghost var all := s.rest;
    if s.rest == [] { return None; }
    var b: nat := s.rest[0] as int;
    s.rest := s.rest[1..];
    if b < 128 { return Some(b); }
    var result: nat, k: nat := b - 128, 1;
    while true
      invariant Varint32(all) == Varint32More(s.rest, result, k)
      decreases |s.rest|
    {
      if s.rest == [] { return None; }
      b := s.rest[0] as int;
      s.rest := s.rest[1..];
      if Overflows(b, result, k) { return None; }  // "varint overflow"
      result, k := Grown(b, result, k), k + 1;
      if b < 128 { return Some(result); }
    }
  }

  method DecodeVarint64(s: IStream) returns (r: Option<nat>)
    modifies s
    ensures Answer(s, r, GetVarint64Of(old(s.rest)))
  {
    hide DecodeGroups;
    var d := GetVarint(s.rest, 10, TWO_TO_64);
    if d.None? { return None; }
    s.rest := d.value.rest;
    r := Some(d.value.value);
  }

  // pb_make_string_substream and, once the caller is done with it, pb_close_string_substream.
  method TakeSubstream(s: IStream) returns (r: Option<Bytes>)
    modifies s
    ensures Answer(s, r, Substream(old(s.rest)))
  {
    hide Varint32;
    var size := DecodeVarint32(s);
    if size.None? { return None; }
    r := s.Read(size.value);                     // "parent stream too short"
  }

  // pb_skip_field
  method SkipField(s: IStream, wireType: nat) returns (ok: bool)
    modifies s
    ensures ok == Skip(wireType, old(s.rest)).Some? && (ok ==> s.rest == Skip(wireType, old(s.rest)).value)
  {
    hide Substream;
    if wireType == WT_VARINT {
      ghost var all := s.rest;
      while s.rest != [] && s.rest[0] as int >= 128
        invariant SkipVarint(s.rest) == SkipVarint(all)
        decreases |s.rest|
      {
        s.rest := s.rest[1..];
      }
      if s.rest == [] { return false; }
      s.rest := s.rest[1..];
      return true;
    }
    var data;
    if wireType == WT_64BIT { data := s.Read(8); }
    else if wireType == WT_32BIT { data := s.Read(4); }
    else if wireType == WT_STRING { data := TakeSubstream(s); }
    else { return false; }                       // "invalid wire_type"
    ok := data.Some?;
  }

  // The integer decoders of PB_DECODERS.
  method DecodeNumber(s: IStream, t: LType) returns (r: Option<Value>)
    requires Packable(t)
    modifies s
    ensures Answer(s, r, DecNumber(t, old(s.rest)))
  {
    hide Varint32, GetVarint64Of, DecodeFixed;
    if t.Bool? {
      var v := DecodeVarint32(s);
      r := if v.None? then None else Some(Num(if v.value != 0 then 1 else 0));
    } else if t.Fixed32? {
      var data := s.Read(4);
      r := if data.None? then None else Some(Num(DecodeFixed(data.value)));
    } else if t.Fixed64? {
      var data := s.Read(8);
      r := if data.None? then None else Some(Num(DecodeFixed(data.value)));
    } else {
      r := DecodeVarNumber(s, t);
    }
  }

  // pb_dec_varint, pb_dec_uvarint, pb_dec_svarint
  method DecodeVarNumber(s: IStream, t: LType) returns (r: Option<Value>)
    requires t.VarInt? || t.UVarInt? || t.SVarInt?
    modifies s
    ensures Answer(s, r, DecNumber(t, old(s.rest)))
  {
    hide GetVarint64Of;
    var v := DecodeVarint64(s);
    if v.None? { return None; }
    var n, low, high: int := v.value, -Half(t.width), Half(t.width);
    match t {
      case VarInt(w) => n := if w == 8 then Signed(v.value) else Low32(v.value);
      case SVarInt(_) => n := UnZigZag(v.value);
      case UVarInt(_) => low, high := 0, 2 * high;
    }
    if n < low || n >= high { return None; }     // "integer too large"
    r := Some(Num(n));
  }

  method DecodeValue(s: IStream, t: LType, base: Slots) returns (r: Option<Value>)
    requires Schema(t) && (t.Submessage? ==> |base| == |t.fields|)
    modifies s
    ensures Answer(s, r, DecValue(t, base, old(s.rest)))
    decreases |s.rest|, 0
  {
    if Packable(t) {
      r := DecodeNumber(s, t);
      return;
    }
    SubstreamShrinks(s.rest);
    hide Substream, DecMessage;
    var data := TakeSubstream(s);
    if data.None? { return None; }
    match t {
      case Blob(max) => r := if |data.value| <= max then Some(Data(data.value)) else None;   // "bytes overflow"
      case Text(max) => r := if |data.value| < max then Some(Data(data.value)) else None;    // "string overflow"
      case Submessage(_) =>
        var substream := new IStream(data.value);
        var slots := Decode(substream, t, base);
        r := if slots.None? then None else Some(Message(slots.value));
    }
  }

  // The packed branch of decode_static_field.
  method DecodePacked(data: Bytes, t: LType, room: nat) returns (r: Option<seq<Value>>)
    requires Packable(t)
    ensures r == DecPacked(t, room, data)
  {
    hide DecNumber;
    var substream := new IStream(data);
    var vs: seq<Value> := [];
    var left: nat := room;
    ExtendsNothing(DecPacked(t, room, data));
    while substream.rest != [] && left > 0
      invariant left <= room && Extends(DecPacked(t, room, data), vs, DecPacked(t, left, substream.rest))
      decreases left
    {
      var before := substream.rest;
      var v := DecodeNumber(substream, t);
      if v.None? { return None; }
      ExtendsMore(DecPacked(t, room, data), vs, v.value, DecPacked(t, left - 1, substream.rest));
      vs, left := vs + [v.value], left - 1;
    }
    if substream.rest != [] { return None; }     // "array overflow"
    assert vs + [] == vs;
    r := Some(vs);
  }

  ghost predicate Extends(all: Option<seq<Value>>, vs: seq<Value>, more: Option<seq<Value>>) {
    all == if more.Some? then Some(vs + more.value) else None
  }

  lemma ExtendsNothing(all: Option<seq<Value>>)
    ensures Extends(all, [], all)
  {
    if all.Some? { assert [] + all.value == all.value; }
  }

  lemma ExtendsMore(all: Option<seq<Value>>, vs: seq<Value>, v: Value, more: Option<seq<Value>>)
    requires Extends(all, vs, if more.Some? then Some([v] + more.value) else None)
    ensures Extends(all, vs + [v], more)
  {
    if more.Some? { assert vs + ([v] + more.value) == vs + [v] + more.value; }
  }

  // decode_static_field
  method DecodeField(s: IStream, t: LType, i: nat, wireType: nat, slots: Slots) returns (r: Option<Slots>)
    requires t.Submessage? && Schema(t) && |slots| == |t.fields| && i < |slots|
    modifies s
    ensures Answer(s, r, DecField(t, i, wireType, slots, old(s.rest)))
    decreases |s.rest|, 1
  {
    hide DecValue, DecPacked, Substream, Claimed;
    var f := t.fields[i];
    assert Schema(f.ltype);
    if f.rule.Repeated? {
      if wireType == WT_STRING && Packable(f.ltype) {
        var data := TakeSubstream(s);
        if data.None? { return None; }
        var vs := DecodePacked(data.value, f.ltype, if |slots[i]| <= f.rule.max then f.rule.max - |slots[i]| else 0);
        r := if vs.None? then None else Some(slots[i := slots[i] + vs.value]);
      } else {
        if |slots[i]| >= f.rule.max { return None; }   // "array overflow"
        var v := DecodeValue(s, f.ltype, Blank(f.ltype));
        r := if v.None? then None else Some(slots[i := slots[i] + [v.value]]);
      }
    } else {
      var v := DecodeValue(s, f.ltype, BaseOf(f.ltype, slots[i]));
      r := if v.None? then None else Some(Claimed(t.fields, slots, i)[i := [v.value]]);
    }
  }

  // ----- the required fields -----

  // fields_seen: a bit for each required field met, by its index.
  ghost function Bits(fields: seq<Field>, seen: set<nat>): set<nat> {
    set i | i in seen && i < |fields| && RequiredBefore(fields, i) < PB_MAX_REQUIRED_FIELDS :: RequiredBefore(fields, i)
  }

  lemma {:induction false} RequiredGrows(fields: seq<Field>, i: nat, j: nat)
    requires i <= j <= |fields|
    ensures RequiredBefore(fields, i) <= RequiredBefore(fields, j)
    ensures i < j && fields[i].rule.Required? ==> RequiredBefore(fields, i) < RequiredBefore(fields, j)
    decreases j - i
  {
    if i < j { RequiredGrows(fields, i, j - 1); }
  }

  lemma {:induction false} RequiredAt(fields: seq<Field>, n: nat, r: nat) returns (i: nat)
    requires n <= |fields| && r < RequiredBefore(fields, n)
    ensures i < n && fields[i].rule.Required? && RequiredBefore(fields, i) == r
  {
    if r < RequiredBefore(fields, n - 1) { i := RequiredAt(fields, n - 1, r); } else { i := n - 1; }
  }

  // All bits up to the count are set exactly when all required fields were met.
  lemma BitsAreFields(fields: seq<Field>, seen: set<nat>, count: nat)
    requires forall i :: i in seen ==> i < |fields| && fields[i].rule.Required?
    requires count == (if RequiredBefore(fields, |fields|) > PB_MAX_REQUIRED_FIELDS then PB_MAX_REQUIRED_FIELDS else RequiredBefore(fields, |fields|))
    ensures (forall r :: 0 <= r < count ==> r in Bits(fields, seen)) <==> AllSeen(fields, seen)
  {
    if forall r :: 0 <= r < count ==> r in Bits(fields, seen) {
      forall i | 0 <= i < |fields| && fields[i].rule.Required? && RequiredBefore(fields, i) < PB_MAX_REQUIRED_FIELDS ensures i in seen {
        RequiredGrows(fields, i, |fields|);
        assert RequiredBefore(fields, i) in Bits(fields, seen);
        var j :| j in seen && j < |fields| && RequiredBefore(fields, j) == RequiredBefore(fields, i);
        if i < j { RequiredGrows(fields, i, j); } else if j < i { RequiredGrows(fields, j, i); }
      }
    }
    if AllSeen(fields, seen) {
      forall r | 0 <= r < count ensures r in Bits(fields, seen) {
        var i := RequiredAt(fields, |fields|, r);
      }
    }
  }

  // The end of pb_decode_noinit: count the required fields by walking to the end of the list, then look at the bits.
  method CheckRequired(iter: FieldIter, fieldsSeen: set<nat>, ghost seen: set<nat>) returns (ok: bool)
    requires iter.Valid() && fieldsSeen >= Bits(iter.fields, seen) && (iter.fields != [] ==> fieldsSeen == Bits(iter.fields, seen))
    requires forall i :: i in seen ==> i < |iter.fields| && iter.fields[i].rule.Required?
    modifies iter
    ensures ok <==> AllSeen(iter.fields, seen)
  {
    var count, lastRequired := iter.requiredIndex, iter.fields != [] && iter.fields[iter.pos].rule.Required?;
    var more := iter.Next();
    while more
      invariant iter.Valid() && (more ==> iter.pos > 0)
      invariant iter.fields != [] ==> count == RequiredBefore(iter.fields, if more then iter.pos - 1 else |iter.fields| - 1)
      invariant iter.fields != [] ==> lastRequired == iter.fields[if more then iter.pos - 1 else |iter.fields| - 1].rule.Required?
      invariant iter.fields == [] ==> count == 0 && !lastRequired && !more
      decreases if more then |iter.fields| - iter.pos else 0
    {
      count, lastRequired := iter.requiredIndex, iter.fields[iter.pos].rule.Required?;
      more := iter.Next();
    }
    if lastRequired { count := count + 1; }      // the last field was also required
    if count > PB_MAX_REQUIRED_FIELDS { count := PB_MAX_REQUIRED_FIELDS; }
    if iter.fields != [] { BitsAreFields(iter.fields, seen, count); }
    ok := forall r :: 0 <= r < count ==> r in fieldsSeen;      // "missing required field"
  }

  // pb_decode_noinit
  method Decode(s: IStream, t: LType, slots: Slots) returns (r: Option<Slots>)
    requires t.Submessage? && Schema(t) && |slots| == |t.fields|
    modifies s
    ensures r == DecMessage(t, slots, old(s.rest))
    decreases |s.rest|, 3
  {
    hide DecField, Skip, FindField, Varint32, DecNumber, AllSeen, Schema, Bits, RequiredBefore;
    SchemaParts(t);
    NoBits(t.fields);
    var iter := new FieldIter(t.fields);
    var now := slots;
    var fieldsSeen: set<nat> := {};
    ghost var seen: set<nat> := {};
    ghost var all := s.rest;
    while s.rest != []
      invariant iter.Valid() && fresh(iter) && iter.fields == t.fields && |now| == |t.fields| && |s.rest| <= |all|
      invariant DecLoop(t, State(now, seen), s.rest) == DecLoop(t, State(slots, {}), all)
      invariant fieldsSeen >= Bits(t.fields, seen) && (t.fields != [] ==> fieldsSeen == Bits(t.fields, seen))
      invariant forall i :: i in seen ==> i < |t.fields| && t.fields[i].rule.Required?
      decreases |s.rest|
    {
      Varint32Shrinks(s.rest);
      var temp := DecodeVarint32(s);
      if temp.None? { return None; }
      if temp.value == 0 { break; }              // 0-terminated
      var tag, wireType := temp.value / 8, temp.value % 8;
      var found := iter.Find(tag);
      if !found {
        SkipShrinks(wireType, s.rest);
        var ok := SkipField(s, wireType);
        if !ok { return None; }
        continue;
      }
      if t.fields == [] {                        // the terminator, taken for a required bool
        fieldsSeen := fieldsSeen + {0};
        NumberShrinks(Bool, s.rest);
        var v := DecodeNumber(s, Bool);
        if v.None? { return None; }
        continue;
      }
      var i := iter.pos;
      ghost var entry := s.rest;
      var d := DecodeField(s, t, i, wireType, now);
      if d.None? { return None; }
      now := d.value;
      if t.fields[i].rule.Required? {
        OneMoreBit(t.fields, seen, i);
        if iter.requiredIndex < PB_MAX_REQUIRED_FIELDS { fieldsSeen := fieldsSeen + {iter.requiredIndex}; }
        seen := seen + {i};
      }
    }
    var ok := CheckRequired(iter, fieldsSeen, seen);
    r := if ok then Some(now) else None;
  }

  lemma SchemaParts(t: LType)
    requires t.Submessage? && Schema(t)
    ensures forall i, j :: 0 <= i < j < |t.fields| ==> t.fields[i].tag != t.fields[j].tag
  {
  }

  lemma NoBits(fields: seq<Field>)
    ensures Bits(fields, {}) == {}
  {
  }

  lemma OneMoreBit(fields: seq<Field>, seen: set<nat>, i: nat)
    requires i < |fields|
    ensures Bits(fields, seen + {i})
         == if RequiredBefore(fields, i) < PB_MAX_REQUIRED_FIELDS then Bits(fields, seen) + {RequiredBefore(fields, i)} else Bits(fields, seen)
  {
  }

  // ----- there and back -----

  // Encoding a message into a buffer that is large enough and decoding the bytes gives the message.
  method RoundTrip(t: LType, slots: Slots, maxSize: nat) returns (bytes: Bytes, back: Option<Slots>)
    requires t.Submessage? && Schema(t) && Fits(t, Message(slots)) && |EncFrom(t, slots, 0)| < TWO_TO_32
    ensures if |EncFrom(t, slots, 0)| <= maxSize then bytes == EncFrom(t, slots, 0) && back == Some(slots) else back == None
  {
    FitsIsShaped(t, Message(slots));
    hide EncFrom, DecMessage, E.Shaped, E.Encodable;
    var stream := new E.OStream(false, maxSize, []);
    var ok := E.Encode(stream, t, slots);
    if !ok { return [], None; }
    bytes := stream.state;
    assert [] + EncFrom(t, slots, 0) == EncFrom(t, slots, 0);
    MessageBack(t, slots);
    var input := new IStream(bytes);
    back := Decode(input, t, Defaults(t));
  }

  lemma {:induction false} FitsIsShaped(t: LType, v: Value)
    requires Schema(t) && Fits(t, v)
    ensures E.Shaped(t, v) && E.Encodable(t, v)
    decreases t
  {
    if t.Submessage? {
      forall i, k | 0 <= i < |t.fields| && 0 <= k < |v.slots[i]| ensures E.Shaped(t.fields[i].ltype, v.slots[i][k]) && E.Encodable(t.fields[i].ltype, v.slots[i][k]) {
        FitsIsShaped(t.fields[i].ltype, v.slots[i][k]);
      }
    }
  }
}
