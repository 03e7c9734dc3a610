/** pb_encode (ios/Pods/nanopb/pb_encode.c) over output streams: submessages and packed arrays are encoded
    twice, once to size them and once to write them, and both passes count the same bytes. */
module NanopbEncode {
  import opened Keys
  import opened Coding
  import opened NanopbFormat

  // What the C struct can hold: its integers are in range, its strings end within the array; array counts
  // and byte counts may still be too large.
  ghost predicate Shaped(t: LType, v: Value)
    decreases t
  {
    match t
    case Blob(_) => v.Data?
    case Text(max) => v.Data? && |v.bytes| <= max && 0 !in v.bytes
    case Submessage(fields) =>
      && v.Message? && |v.slots| == |fields|
      && (forall i, k :: 0 <= i < |fields| && 0 <= k < |v.slots[i]| ==> Shaped(fields[i].ltype, v.slots[i][k]))
      && (forall i :: 0 <= i < |fields| ==> fields[i].rule.Repeated? || RightMany(fields[i].rule, |v.slots[i]|))
    case _ => Schema(t) && Fits(t, v)
  }

  // No array and no bytes field holds more than it has room for.
  ghost predicate Encodable(t: LType, v: Value)
    requires Shaped(t, v)
    decreases t, 0
  {
    match t
    case Blob(max) => |v.bytes| <= max
    case Submessage(fields) => forall i :: 0 <= i < |fields| ==> FieldEncodable(fields[i], v.slots[i])
    case _ => true
  }

  ghost predicate FieldShaped(f: Field, vs: seq<Value>) {
    (forall k :: 0 <= k < |vs| ==> Shaped(f.ltype, vs[k])) && (f.rule.Repeated? || RightMany(f.rule, |vs|))
  }

  ghost predicate FieldEncodable(f: Field, vs: seq<Value>)
    requires forall k :: 0 <= k < |vs| ==> Shaped(f.ltype, vs[k])
    decreases f.ltype, 1
  {
    (f.rule.Repeated? ==> |vs| <= f.rule.max) && forall k :: 0 <= k < |vs| ==> Encodable(f.ltype, vs[k])
  }

  class OStream {
    const sizing: bool                           // no callback: only count
    const maxSize: nat
    var written: nat
    var state: Bytes                             // what the callback was given

    constructor (sizing: bool, maxSize: nat, state: Bytes)
      ensures this.sizing == sizing && this.maxSize == maxSize && written == 0 && this.state == state
    {
      this.sizing, this.maxSize, this.state := sizing, maxSize, state;
      written := 0;
    }

    ghost predicate Valid()
      reads this
    {
      sizing || written <= maxSize
    }

    // Room for n more bytes.
    ghost predicate Room(n: nat)
      reads this
    {
      sizing || written + n <= maxSize
    }

    // pb_write
    method Write(buf: Bytes) returns (ok: bool)
      requires Valid()
      modifies this
      ensures Valid() && ok == old(Room(|buf|))
      ensures ok ==> written == old(written) + |buf| && state == old(state) + if sizing then [] else buf
    {
      if |buf| > 0 && !sizing {
        if written + |buf| > maxSize { return false; }
        state := state + buf;
      }
      written := written + |buf|;
      ok := true;
      if !sizing && buf == [] { assert state + buf == state; }
    }

    // pb_write of nothing, just sizing
    method Count(n: nat)
      requires Valid() && sizing
      modifies this
      ensures Valid() && written == old(written) + n && state == old(state)
    {
      written := written + n;
    }
  }

  // How a call that started at w and st ended: it succeeds if and only if the value can be encoded and
  // there is room, and then it has written, or counted, exactly these bytes.
  ghost predicate Result(s: OStream, w: nat, st: Bytes, ok: bool, encodable: bool, bytes: Bytes)
    reads s
  {
    && s.Valid() && (ok <==> encodable && (s.sizing || w + |bytes| <= s.maxSize))
    && (ok ==> s.written == w + |bytes| && s.state == st + if s.sizing then [] else bytes)
  }

  // One call after another.
  lemma Then(s: OStream, w: nat, st: Bytes, first: Bytes, ok: bool, encodable: bool, second: Bytes)
    requires s.sizing || w + |first| <= s.maxSize
    requires Result(s, w + |first|, st + if s.sizing then [] else first, ok, encodable, second)
    ensures Result(s, w, st, ok, encodable, first + second)
  {
    assert (st + first) + second == st + (first + second) && st + [] + [] == st;
  }

  lemma Stopped(s: OStream, w: nat, st: Bytes, encodable: bool, first: Bytes, all: bool, second: Bytes)
    requires Result(s, w, st, false, encodable, first) && (all ==> encodable)
    ensures Result(s, w, st, false, all, first + second)
  {
  }

  lemma DoneSoFar(s: OStream, w: nat, st: Bytes, encodable: bool, bytes: Bytes)
    requires Result(s, w, st, true, encodable, bytes)
    ensures encodable && (s.sizing || w + |bytes| <= s.maxSize) && s.written == w + |bytes| && s.state == st + if s.sizing then [] else bytes
  {
  }

  method WriteTwo(s: OStream, a: Bytes, b: Bytes) returns (ok: bool)
    requires s.Valid()
    modifies s
    ensures Result(s, old(s.written), old(s.state), ok, true, a + b)
  {
    ghost var w, st := s.written, s.state;
    ok := s.Write(a);
    if !ok {
      Stopped(s, w, st, true, a, true, b);
      return;
    }
    ok := s.Write(b);
    Then(s, w, st, a, ok, true, b);
  }

  // pb_encode_string
  method EncodeString(s: OStream, data: Bytes) returns (ok: bool)
    requires s.Valid()
    modifies s
    ensures Result(s, old(s.written), old(s.state), ok, true, EncodeSlice(data))
  {
    ok := WriteTwo(s, EncodeVarint(|data|), data);
  }

  // pb_encode_submessage: size it, write the size, then write it through a substream of exactly that size.
  method EncodeSubmessage(s: OStream, t: LType, slots: Slots) returns (ok: bool)
    requires s.Valid() && t.Submessage? && Shaped(t, Message(slots))
    modifies s
    ensures Result(s, old(s.written), old(s.state), ok, Encodable(t, Message(slots)), EncodeSlice(EncFrom(t, slots, 0)))
    decreases t, 3
  {
    hide EncFrom, Encodable, EncodeVarint;
    ghost var w, st := s.written, s.state;
    ghost var body, encodable := EncFrom(t, slots, 0), Encodable(t, Message(slots));
    var substream := new OStream(true, 0, []);
    ok := Encode(substream, t, slots);
    if !ok { return; }
    var size := substream.written;
    ok := s.Write(EncodeVarint(size));
    if !ok {
      Stopped(s, w, st, true, EncodeVarint(size), encodable, body);
      return;
    }
    if s.sizing {
      s.Count(size);
      return;
    }
    if s.written + size > s.maxSize { return false; }
    ok := WriteBody(s, t, slots, size);
    Then(s, w, st, EncodeVarint(size), ok, encodable, body);
  }

  // The second pass.
  method WriteBody(s: OStream, t: LType, slots: Slots, size: nat) returns (ok: bool)
    requires s.Valid() && !s.sizing && t.Submessage? && Shaped(t, Message(slots)) && Encodable(t, Message(slots))
    requires size == |EncFrom(t, slots, 0)| && s.written + size <= s.maxSize
    modifies s
    ensures Result(s, old(s.written), old(s.state), ok, true, EncFrom(t, slots, 0))
    decreases t, 2
  {
    hide EncFrom, Encodable;
    var substream := new OStream(false, size, s.state);
    var status := Encode(substream, t, slots);
    s.written := s.written + substream.written;
    s.state := substream.state;
    ok := substream.written == size && status;   // "submsg size changed" never happens
  }

  // The encoder functions of PB_ENCODERS.
  method EncodeValue(s: OStream, t: LType, v: Value) returns (ok: bool)
    requires s.Valid() && Shaped(t, v)
    modifies s
    ensures Result(s, old(s.written), old(s.state), ok, Encodable(t, v), EncValue(t, v))
    decreases t, 4
  {
    hide EncFrom, EncodeVarint;
    match t {
      case Bool => ok := s.Write(EncodeVarint(if v.n != 0 then 1 else 0));
      case VarInt(_) => ok := s.Write(EncodeVarint(Unsigned(v.n)));
      case UVarInt(_) => ok := s.Write(EncodeVarint(v.n));
      case SVarInt(_) => ok := s.Write(EncodeVarint(ZigZag(v.n)));
      case Fixed32 => ok := s.Write(EncodeFixed(v.n, 4));
      case Fixed64 => ok := s.Write(EncodeFixed(v.n, 8));
      case Blob(max) =>
        if |v.bytes| > max { return false; }      // "bytes size exceeded"
        ok := EncodeString(s, v.bytes);
      case Text(_) => ok := EncodeString(s, v.bytes);
      case Submessage(_) =>
        assert v == Message(v.slots);
        ok := EncodeSubmessage(s, t, v.slots);
    }
  }

  // encode_array
  method EncodeArray(s: OStream, f: Field, vs: seq<Value>) returns (ok: bool)
    requires s.Valid() && f.rule.Repeated? && FieldShaped(f, vs)
    modifies s
    ensures Result(s, old(s.written), old(s.state), ok, FieldEncodable(f, vs), EncField(f, vs))
    decreases f.ltype, 7
  {
    if vs == [] { return true; }
    if |vs| > f.rule.max { return false; }        // "array max size exceeded"
    if Packable(f.ltype) { ok := EncodePacked(s, f, vs); } else { ok := EncodeEach(s, f, vs); }
  }

  method EncodePacked(s: OStream, f: Field, vs: seq<Value>) returns (ok: bool)
    requires s.Valid() && f.rule.Repeated? && FieldShaped(f, vs) && Packable(f.ltype) && 0 < |vs| <= f.rule.max
    modifies s
    ensures Result(s, old(s.written), old(s.state), ok, FieldEncodable(f, vs), EncField(f, vs))
    decreases f.ltype, 6
  {
    hide EncPacked, EncodeVarint, TagBytes;
    ghost var w, st, packed := s.written, s.state, EncPacked(f.ltype, vs);
    var size;
    if f.ltype.Fixed32? {
      size := 4 * |vs|;
      FixedSize(f.ltype, vs, 4);
    } else if f.ltype.Fixed64? {
      size := 8 * |vs|;
      FixedSize(f.ltype, vs, 8);
    } else {
      var sizestream := new OStream(true, 0, []);
      ok := EncodeItems(sizestream, f.ltype, vs);
      size := sizestream.written;
    }
    ghost var head := TagBytes(WT_STRING, f.tag) + EncodeVarint(size);
    assert EncField(f, vs) == TagBytes(WT_STRING, f.tag) + (EncodeVarint(size) + packed) == head + packed;
    ok := WriteTwo(s, TagBytes(WT_STRING, f.tag), EncodeVarint(size));
    if !ok {
      Stopped(s, w, st, true, head, true, packed);
      return;
    }
    if s.sizing {
      s.Count(size);
      return;
    }
    ok := EncodeItems(s, f.ltype, vs);
    Then(s, w, st, head, ok, true, packed);
  }

  lemma {:induction false} FixedSize(t: LType, vs: seq<Value>, size: nat)
    requires (t == Fixed32 && size == 4) || (t == Fixed64 && size == 8)
    requires forall k :: 0 <= k < |vs| ==> Shaped(t, vs[k])
    ensures |EncPacked(t, vs)| == size * |vs|
    decreases |vs|
  {
    if vs != [] {
      assert Shaped(t, vs[0]);
      FixedSize(t, vs[1..], size);
    }
  }

  lemma Started(s: OStream)
    requires s.Valid()
    ensures Result(s, s.written, s.state, true, true, [])
  {
    assert s.state + [] == s.state;
  }

  lemma Encodes(t: LType, v: Value)
    requires Packable(t) && Shaped(t, v)
    ensures Encodable(t, v)
  {
  }

  method EncodeItems(s: OStream, t: LType, vs: seq<Value>) returns (ok: bool)
    requires s.Valid() && Packable(t) && forall k :: 0 <= k < |vs| ==> Shaped(t, vs[k])
    modifies s
    ensures Result(s, old(s.written), old(s.state), ok, true, EncPacked(t, vs))
    decreases t, 5
  {
    hide EncValue, Shaped, Result, Fits;
    Started(s);
    ghost var w, st := s.written, s.state;
    ghost var done: Bytes := [];
    for i := 0 to |vs|
      invariant Result(s, w, st, true, true, done) && EncPacked(t, vs) == done + EncPacked(t, vs[i..])
    {
      ghost var e := EncValue(t, vs[i]);
      assert vs[i..][0] == vs[i] && vs[i..][1..] == vs[i + 1..];
      assert done + (e + EncPacked(t, vs[i + 1..])) == done + e + EncPacked(t, vs[i + 1..]);
      Encodes(t, vs[i]);
      DoneSoFar(s, w, st, true, done);
      ok := EncodeValue(s, t, vs[i]);
      Then(s, w, st, done, ok, true, e);
      if !ok {
        Stopped(s, w, st, true, done + e, true, EncPacked(t, vs[i + 1..]));
        return;
      }
      done := done + e;
    }
    assert vs[|vs|..] == [] && done + [] == done;
    ok := true;
  }

  // Each value with its tag.
  method EncodeEach(s: OStream, f: Field, vs: seq<Value>) returns (ok: bool)
    requires s.Valid() && forall k :: 0 <= k < |vs| ==> Shaped(f.ltype, vs[k])
    modifies s
    ensures Result(s, old(s.written), old(s.state), ok, forall k :: 0 <= k < |vs| ==> Encodable(f.ltype, vs[k]), EncTagged(f.ltype, f.tag, vs))
    decreases f.ltype, 6
  {
    hide EncValue, TagBytes, Encodable;
    ghost var w, st, t := s.written, s.state, f.ltype;
    ghost var done: Bytes := [];
    for i := 0 to |vs|
      invariant Result(s, w, st, true, true, done) && EncTagged(t, f.tag, vs) == done + EncTagged(t, f.tag, vs[i..])
      invariant forall k :: 0 <= k < i ==> Encodable(t, vs[k])
    {
      ghost var e, rest := TagBytes(WireType(t), f.tag) + EncValue(t, vs[i]), EncTagged(t, f.tag, vs[i + 1..]);
      assert vs[i..][0] == vs[i] && vs[i..][1..] == vs[i + 1..];
      assert done + (e + rest) == done + e + rest;
      ok := EncodeOne(s, f, vs[i]);
      Then(s, w, st, done, ok, Encodable(t, vs[i]), e);
      if !ok {
        Stopped(s, w, st, Encodable(t, vs[i]), done + e, forall k :: 0 <= k < |vs| ==> Encodable(t, vs[k]), rest);
        return;
      }
      done := done + e;
    }
    assert vs[|vs|..] == [] && done + [] == done;
    ok := true;
  }

  method EncodeOne(s: OStream, f: Field, v: Value) returns (ok: bool)
    requires s.Valid() && Shaped(f.ltype, v)
    modifies s
    ensures Result(s, old(s.written), old(s.state), ok, Encodable(f.ltype, v), TagBytes(WireType(f.ltype), f.tag) + EncValue(f.ltype, v))
    decreases f.ltype, 5
  {
    hide EncValue, Encodable, TagBytes;
    ghost var w, st, tag := s.written, s.state, TagBytes(WireType(f.ltype), f.tag);
    ok := s.Write(TagBytes(WireType(f.ltype), f.tag));
    if !ok {
      Stopped(s, w, st, true, tag, Encodable(f.ltype, v), EncValue(f.ltype, v));
      return;
    }
    ok := EncodeValue(s, f.ltype, v);
    Then(s, w, st, tag, ok, Encodable(f.ltype, v), EncValue(f.ltype, v));
  }

  // encode_basic_field
  method EncodeField(s: OStream, f: Field, vs: seq<Value>) returns (ok: bool)
    requires s.Valid() && FieldShaped(f, vs)
    modifies s
    ensures Result(s, old(s.written), old(s.state), ok, FieldEncodable(f, vs), EncField(f, vs))
    decreases f.ltype, 8
  {
    if f.rule.Repeated? { ok := EncodeArray(s, f, vs); } else { ok := EncodeEach(s, f, vs); }
  }

  // pb_encode: the fields in the order of the schema.
  method Encode(s: OStream, t: LType, slots: Slots) returns (ok: bool)
    requires s.Valid() && t.Submessage? && Shaped(t, Message(slots))
    modifies s
    ensures Result(s, old(s.written), old(s.state), ok, Encodable(t, Message(slots)), EncFrom(t, slots, 0))
    decreases t, 1
  {
    hide EncField, FieldEncodable;
    ghost var w, st := s.written, s.state;
    ghost var done: Bytes := [];
    for i := 0 to |t.fields|
      invariant Result(s, w, st, true, true, done) && EncFrom(t, slots, 0) == done + EncFrom(t, slots, i)
      invariant forall k :: 0 <= k < i ==> FieldShaped(t.fields[k], slots[k]) && FieldEncodable(t.fields[k], slots[k])
    {
      FieldIsShaped(t, slots, i);
      ghost var e, rest := EncField(t.fields[i], slots[i]), EncFrom(t, slots, i + 1);
      assert done + (e + rest) == done + e + rest;
      ok := EncodeField(s, t.fields[i], slots[i]);
      Then(s, w, st, done, ok, FieldEncodable(t.fields[i], slots[i]), e);
      if !ok {
        Stopped(s, w, st, FieldEncodable(t.fields[i], slots[i]), done + e, Encodable(t, Message(slots)), rest);
        return;
      }
      done := done + e;
    }
    assert done + [] == done;
    ok := true;
  }

  lemma FieldIsShaped(t: LType, slots: Slots, i: nat)
    requires t.Submessage? && Shaped(t, Message(slots)) && i < |t.fields|
    ensures |slots| == |t.fields| && FieldShaped(t.fields[i], slots[i])
  {
  }
}
