/** What nanopb puts on the wire (ios/Pods/nanopb): an abstract schema and message, the bytes pb_encode
    writes for it, and what pb_decode makes of any bytes.

    A message is one list of values per field of its schema: exactly one for a required field, at most
    one for an optional or oneof field (and for one member of a union at most), up to the array size for
    a repeated one. */
module NanopbFormat {
  import opened Keys
  import opened Coding

  // PB_LTYPE with the size the struct reserves: bytes of an integer, of a bytes field, of a string with its terminator.
  datatype LType =
    | Bool
    | VarInt(width: nat)
    | UVarInt(width: nat)
    | SVarInt(width: nat)
    | Fixed32
    | Fixed64
    | Blob(max: nat)
    | Text(max: nat)
    | Submessage(fields: seq<Field>)

  // PB_HTYPE
  datatype Rule = Required | Optional | Repeated(max: nat) | Oneof(union: nat)

  datatype Field = Field(tag: nat, rule: Rule, ltype: LType)

  datatype Value = Num(n: int) | Data(bytes: Bytes) | Message(slots: seq<seq<Value>>)

  type Slots = seq<seq<Value>>

  const WT_VARINT: nat := 0
  const WT_64BIT: nat := 1
  const WT_STRING: nat := 2
  const WT_32BIT: nat := 5
  const PB_MAX_REQUIRED_FIELDS: nat := 64

  predicate Packable(t: LType) { !t.Blob? && !t.Text? && !t.Submessage? }

  function WireType(t: LType): (w: nat)
    ensures w < 8
  {
    match t
    case Bool | VarInt(_) | UVarInt(_) | SVarInt(_) => WT_VARINT
    case Fixed32 => WT_32BIT
    case Fixed64 => WT_64BIT
    case Blob(_) | Text(_) | Submessage(_) => WT_STRING
  }

  // ----- integers -----

  function Unsigned(n: int): int { if n < 0 then n + TWO_TO_64 else n }

  function Signed(n: nat): int { if n < TWO_TO_64 / 2 then n else n - TWO_TO_64 }

  // ~(value << 1) for a negative value.
  function ZigZag(n: int): (z: nat) { if n < 0 then -2 * n - 1 else 2 * n }

  function UnZigZag(z: nat): int { if z % 2 == 1 then -(z / 2) - 1 else z / 2 }

  // Half the range of an integer of some bytes.
  function Half(width: nat): (h: int)
    ensures h > 0
  {
    if width == 1 then 0x80 else if width == 2 then 0x8000 else if width == 4 then 0x8000_0000 else TWO_TO_64 / 2
  }

  predicate Width(w: nat) { w == 1 || w == 2 || w == 4 || w == 8 }

  // (int32_t)value
  function Low32(v: nat): int {
    var low := v % TWO_TO_32;
    if low < 0x8000_0000 then low else low - TWO_TO_32
  }

  // ----- messages that fit their schema -----

  ghost predicate Schema(t: LType) {
    match t
    case VarInt(w) => Width(w)
    case UVarInt(w) => Width(w)
    case SVarInt(w) => Width(w)
    case Blob(max) => max < TWO_TO_32
    case Text(max) => max < TWO_TO_32
    case Submessage(fields) =>
      && (forall i :: 0 <= i < |fields| ==> 1 <= fields[i].tag < 0x2000_0000 && Schema(fields[i].ltype))
      && (forall i, j :: 0 <= i < j < |fields| ==> fields[i].tag != fields[j].tag)
    case _ => true
  }

  ghost predicate Fits(t: LType, v: Value)
    decreases t
  {
    match t
    case Bool => v.Num? && 0 <= v.n <= 1
    case VarInt(w) => v.Num? && -Half(w) <= v.n < Half(w)
    case SVarInt(w) => v.Num? && -Half(w) <= v.n < Half(w)
    case UVarInt(w) => v.Num? && 0 <= v.n < 2 * Half(w)
    case Fixed32 => v.Num? && 0 <= v.n < TWO_TO_32
    case Fixed64 => v.Num? && 0 <= v.n < TWO_TO_64
    case Blob(max) => v.Data? && |v.bytes| <= max
    case Text(max) => v.Data? && |v.bytes| < max && forall i :: 0 <= i < |v.bytes| ==> v.bytes[i] != 0
    case Submessage(fields) =>
      && v.Message? && |v.slots| == |fields|
      && (forall i, k :: 0 <= i < |fields| && 0 <= k < |v.slots[i]| ==> Fits(fields[i].ltype, v.slots[i][k]))
      && (forall i :: 0 <= i < |fields| ==> RightMany(fields[i].rule, |v.slots[i]|))
      && (forall i, j :: 0 <= i < j < |fields| && SameUnion(fields[i], fields[j]) ==> v.slots[i] == [] || v.slots[j] == [])
  }

  predicate RightMany(rule: Rule, n: nat) {
    match rule
    case Required => n == 1
    case Optional => n <= 1
    case Oneof(_) => n <= 1
    case Repeated(max) => n <= max
  }

  predicate SameUnion(f: Field, g: Field) { f.rule.Oneof? && g.rule == f.rule }

  // ----- encoding -----

  function TagBytes(wireType: nat, tag: nat): Bytes { EncodeVarint(tag * 8 + wireType) }

  function EncValue(t: LType, v: Value): Bytes
    decreases t, 0
  {
    match t
    case Bool => EncodeVarint(if v.Num? && v.n != 0 then 1 else 0)
    case VarInt(_) => if v.Num? && Unsigned(v.n) >= 0 then EncodeVarint(Unsigned(v.n)) else []
    case UVarInt(_) => if v.Num? && v.n >= 0 then EncodeVarint(v.n) else []
    case SVarInt(_) => if v.Num? then EncodeVarint(ZigZag(v.n)) else []
    case Fixed32 => if v.Num? && v.n >= 0 then EncodeFixed(v.n, 4) else []
    case Fixed64 => if v.Num? && v.n >= 0 then EncodeFixed(v.n, 8) else []
    case Blob(_) => if v.Data? then EncodeSlice(v.bytes) else []
    case Text(_) => if v.Data? then EncodeSlice(v.bytes) else []
    case Submessage(fields) => if v.Message? && |v.slots| == |fields| then EncodeSlice(EncFrom(t, v.slots, 0)) else []
  }

  // Values without tags, one after the other.
  function EncPacked(t: LType, vs: seq<Value>): Bytes
    decreases t, 1, |vs|
  {
    if vs == [] then [] else EncValue(t, vs[0]) + EncPacked(t, vs[1..])
  }

  // Each value with its tag.
  function EncTagged(t: LType, tag: nat, vs: seq<Value>): Bytes
    decreases t, 1, |vs|
  {
    if vs == [] then [] else TagBytes(WireType(t), tag) + EncValue(t, vs[0]) + EncTagged(t, tag, vs[1..])
  }

  function EncField(f: Field, vs: seq<Value>): Bytes
    decreases f.ltype, 2
  {
    if f.rule.Repeated? && Packable(f.ltype) && vs != []
    then TagBytes(WT_STRING, f.tag) + EncodeSlice(EncPacked(f.ltype, vs))
    else EncTagged(f.ltype, f.tag, vs)
  }

  // The fields from the n-th on.
  function EncFrom(t: LType, slots: Slots, n: nat): Bytes
    requires t.Submessage? && |slots| == |t.fields| && n <= |slots|
    decreases t, -1, |slots| - n
  {
    if n == |slots| then [] else EncField(t.fields[n], slots[n]) + EncFrom(t, slots, n + 1)
  }

  // ----- decoding -----

  // pb_decode_varint32: bits beyond the low 32 must be zero or repeat the sign.
  function Varint32(s: Bytes): Option<Decoded<nat>> {
    if s == [] then None
    else if s[0] as int < 128 then Some(Decoded(s[0] as int, s[1..]))
    else Varint32More(s[1..], s[0] as int - 128, 1)
  }

  // After `k` bytes, which gave `result`.
  function Varint32More(s: Bytes, result: nat, k: nat): Option<Decoded<nat>>
    decreases |s|
  {
    if s == [] then None
    else
      var b: nat := s[0] as int;
      if Overflows(b, result, k) then None
      else if b >= 128 then Varint32More(s[1..], Grown(b, result, k), k + 1)
      else Some(Decoded(Grown(b, result, k), s[1..]))
  }

  // Beyond the fifth byte only zeros or the sign's bits may follow; of the fifth, if it is the last, four bits fit.
  predicate Overflows(b: nat, result: nat, k: nat) {
    || (k >= 5 && b % 128 != 0 && (result < 0x8000_0000 || b != if k < 9 then 255 else 1))
    || (k == 4 && b < 128 && b >= 16)
  }

  // The byte's seven bits above those of the k bytes before.
  function Grown(b: nat, result: nat, k: nat): nat {
    if k >= 5 then result else result + b % 128 * Pow128(k) % TWO_TO_32
  }

  lemma {:induction false} Varint32MoreShrinks(s: Bytes, result: nat, k: nat)
    ensures var r := Varint32More(s, result, k); r.Some? ==> |r.value.rest| < |s|
    decreases |s|
  {
    if s != [] {
      Varint32MoreShrinks(s[1..], Grown(s[0] as int, result, k), k + 1);
    }
  }

  lemma Varint32Shrinks(s: Bytes)
    ensures Varint32(s).Some? ==> |Varint32(s).value.rest| < |s|
  {
    if s != [] && s[0] as int >= 128 { Varint32MoreShrinks(s[1..], s[0] as int - 128, 1); }
  }

  function InRange(low: int, n: int, high: int, rest: Bytes): Option<Decoded<Value>> {
    if low <= n < high then Some(Decoded(Num(n), rest)) else None
  }

  // The integer decoders; an integer too large for its field is an error.
  function DecNumber(t: LType, s: Bytes): Option<Decoded<Value>>
    requires Packable(t)
  {
    match t
    case Bool =>
      (match Varint32(s)
       case None => None
       case Some(d) => Some(Decoded(Num(if d.value != 0 then 1 else 0), d.rest)))
    case VarInt(w) =>
      (match GetVarint64Of(s)
       case None => None
       case Some(d) => InRange(-Half(w), if w == 8 then Signed(d.value) else Low32(d.value), Half(w), d.rest))
    case UVarInt(w) =>
      (match GetVarint64Of(s)
       case None => None
       case Some(d) => InRange(0, d.value, 2 * Half(w), d.rest))
    case SVarInt(w) =>
      (match GetVarint64Of(s)
       case None => None
       case Some(d) => InRange(-Half(w), UnZigZag(d.value), Half(w), d.rest))
    case Fixed32 => if |s| < 4 then None else Some(Decoded(Num(DecodeFixed(s[..4])), s[4..]))
    case Fixed64 => if |s| < 8 then None else Some(Decoded(Num(DecodeFixed(s[..8])), s[8..]))
  }

  lemma NumberShrinks(t: LType, s: Bytes)
    requires Packable(t)
    ensures DecNumber(t, s).Some? ==> |DecNumber(t, s).value.rest| < |s|
  {
    Varint32Shrinks(s);
    VarintShrinks(s);
  }

  // A length and that many bytes: pb_make_string_substream.
  function Substream(s: Bytes): Option<Decoded<Bytes>> {
    match Varint32(s)
    case None => None
    case Some(d) => if d.value <= |d.rest| then Some(Decoded(d.rest[..d.value], d.rest[d.value..])) else None
  }

  lemma SubstreamShrinks(s: Bytes)
    ensures var r := Substream(s); r.Some? ==> |r.value.rest| < |s| && |r.value.value| < |s|
  {
    Varint32Shrinks(s);
  }

  // pb_decode_tag; Stop is the zero byte that ends a message early.
  datatype TagRead = Fails | Stop | TagRead(tag: nat, wireType: nat, rest: Bytes)

  function DecTag(s: Bytes): TagRead {
    match Varint32(s)
    case None => Fails
    case Some(d) => if d.value == 0 then Stop else TagRead(d.value / 8, d.value % 8, d.rest)
  }

  function SkipVarint(s: Bytes): Option<Bytes> {
    if s == [] then None else if s[0] as int < 128 then Some(s[1..]) else SkipVarint(s[1..])
  }

  function Skip(wireType: nat, s: Bytes): Option<Bytes> {
    if wireType == WT_VARINT then SkipVarint(s)
    else if wireType == WT_64BIT then (if |s| < 8 then None else Some(s[8..]))
    else if wireType == WT_32BIT then (if |s| < 4 then None else Some(s[4..]))
    else if wireType == WT_STRING then (match Substream(s) case None => None case Some(d) => Some(d.rest))
    else None
  }

  lemma {:induction false} SkipVarintShrinks(s: Bytes)
    ensures SkipVarint(s).Some? ==> |SkipVarint(s).value| < |s|
  {
    if s != [] { SkipVarintShrinks(s[1..]); }
  }

  lemma SkipShrinks(wireType: nat, s: Bytes)
    ensures Skip(wireType, s).Some? ==> |Skip(wireType, s).value| <= |s|
  {
    SkipVarintShrinks(s);
    SubstreamShrinks(s);
  }

  // The field with this tag.
  function FindField(fields: seq<Field>, tag: nat): (i: nat)
    ensures i <= |fields| && (i < |fields| ==> fields[i].tag == tag)
  {
    FindUpFrom(fields, tag, 0)
  }

  function FindUpFrom(fields: seq<Field>, tag: nat, n: nat): (i: nat)
    requires n <= |fields|
    ensures n <= i <= |fields| && (i < |fields| ==> fields[i].tag == tag) && forall j :: n <= j < i ==> fields[j].tag != tag
    decreases |fields| - n
  {
    if n == |fields| || fields[n].tag == tag then n else FindUpFrom(fields, tag, n + 1)
  }

  // The struct while it is filled, and the required fields met in this call.
  datatype State = State(slots: Slots, seen: set<nat>)

  function Defaults(t: LType): (r: Slots)
    requires t.Submessage?
    ensures |r| == |t.fields| && forall i :: 0 <= i < |r| ==> r[i] == []
  {
    seq(|t.fields|, i => [])
  }

  // What a new value is read into.
  function Blank(t: LType): (r: Slots)
    ensures t.Submessage? ==> |r| == |t.fields|
  {
    if t.Submessage? then Defaults(t) else []
  }

  // What a singular value is read into: a submessage goes into the one that is there.
  function BaseOf(t: LType, there: seq<Value>): (r: Slots)
    ensures t.Submessage? ==> |r| == |t.fields|
  {
    if IsThere(t, there) then there[0].slots else Blank(t)
  }

  predicate IsThere(t: LType, there: seq<Value>) {
    t.Submessage? && there != [] && there[0].Message? && |there[0].slots| == |t.fields|
  }

  // Setting a member of a union takes the others out.
  function Claimed(fields: seq<Field>, slots: Slots, i: nat): (r: Slots)
    requires |slots| == |fields| && i < |fields|
    ensures |r| == |fields| && r[i] == slots[i]
    ensures forall j :: 0 <= j < |r| ==> r[j] == if j != i && SameUnion(fields[i], fields[j]) then [] else slots[j]
  {
    seq(|slots|, j requires 0 <= j < |slots| => if j != i && SameUnion(fields[i], fields[j]) then [] else slots[j])
  }

  // One value; a singular submessage is read into what is there.
  function DecValue(t: LType, base: Slots, s: Bytes): (r: Option<Decoded<Value>>)
    requires t.Submessage? ==> |base| == |t.fields|
    ensures r.Some? ==> |r.value.rest| < |s|
    ensures r.Some? && t.Submessage? ==> r.value.value.Message? && |r.value.value.slots| == |t.fields|
    decreases |s|, 0
  {
    SubstreamShrinks(s);
    if Packable(t) then NumberShrinks(t, s); DecNumber(t, s)
    else
      match Substream(s)
      case None => None
      case Some(d) =>
        if t.Blob? then (if |d.value| <= t.max then Some(Decoded(Data(d.value), d.rest)) else None)
        else if t.Text? then (if |d.value| < t.max then Some(Decoded(Data(d.value), d.rest)) else None)
        else
          match DecMessage(t, base, d.value)
          case None => None
          case Some(slots) => Some(Decoded(Message(slots), d.rest))
  }

  // A packed array: at most `room` values and nothing left over.
  function DecPacked(t: LType, room: nat, s: Bytes): Option<seq<Value>>
    requires Packable(t)
    decreases |s|
  {
    if s == [] then Some([])
    else if room == 0 then None
    else
      NumberShrinks(t, s);
      match DecNumber(t, s)
      case None => None
      case Some(d) =>
        match DecPacked(t, room - 1, d.rest)
        case None => None
        case Some(vs) => Some([d.value] + vs)
  }

  // decode_static_field
  function DecField(t: LType, i: nat, wireType: nat, slots: Slots, s: Bytes): (r: Option<Decoded<Slots>>)
    requires t.Submessage? && |slots| == |t.fields| && i < |slots|
    ensures r.Some? ==> |r.value.rest| < |s| && |r.value.value| == |t.fields|
    decreases |s|, 1
  {
    SubstreamShrinks(s);
    var f := t.fields[i];
    if f.rule.Repeated? then
      if wireType == WT_STRING && Packable(f.ltype) then
        match Substream(s)
        case None => None
        case Some(d) =>
          match DecPacked(f.ltype, if |slots[i]| <= f.rule.max then f.rule.max - |slots[i]| else 0, d.value)
          case None => None
          case Some(vs) => Some(Decoded(slots[i := slots[i] + vs], d.rest))
      else if |slots[i]| >= f.rule.max then None
      else
        match DecValue(f.ltype, Blank(f.ltype), s)
        case None => None
        case Some(d) => Some(Decoded(slots[i := slots[i] + [d.value]], d.rest))
    else
      var claimed := Claimed(t.fields, slots, i);
      match DecValue(f.ltype, BaseOf(f.ltype, slots[i]), s)
      case None => None
      case Some(d) => Some(Decoded(claimed[i := [d.value]], d.rest))
  }

  // No field has the tag: skip it.  In a message without fields the terminator of the field list is taken
  // for a field with tag 0, a required bool.
  function Unknown(t: LType, tag: nat, wireType: nat, s: Bytes): Option<Bytes>
    requires t.Submessage?
  {
    if t.fields == [] && tag == 0
    then match DecNumber(Bool, s) case None => None case Some(d) => Some(d.rest)
    else Skip(wireType, s)
  }

  lemma UnknownShrinks(t: LType, tag: nat, wireType: nat, s: Bytes)
    requires t.Submessage?
    ensures Unknown(t, tag, wireType, s).Some? ==> |Unknown(t, tag, wireType, s).value| <= |s|
  {
    NumberShrinks(Bool, s);
    SkipShrinks(wireType, s);
  }

  // The loop of pb_decode_noinit.
  function DecLoop(t: LType, st: State, s: Bytes): (r: Option<State>)
    requires t.Submessage? && |st.slots| == |t.fields|
    ensures r.Some? ==> |r.value.slots| == |t.fields|
    decreases |s|, 2
  {
    if s == [] then Some(st)
    else
      Varint32Shrinks(s);
      match DecTag(s)
      case Fails => None
      case Stop => Some(st)
      case TagRead(tag, wireType, rest) =>
        var i := FindField(t.fields, tag);
        if i == |t.fields| then
          UnknownShrinks(t, tag, wireType, rest);
          match Unknown(t, tag, wireType, rest) {
            case None => None
            case Some(rest') => DecLoop(t, st, rest')
          }
        else
          match DecField(t, i, wireType, st.slots, rest) {
            case None => None
            case Some(d) =>
              DecLoop(t, State(d.value, if t.fields[i].rule.Required? then st.seen + {i} else st.seen), d.rest)
          }
  }

  // How many required fields come before the n-th.
  function RequiredBefore(fields: seq<Field>, n: nat): nat
    requires n <= |fields|
  {
    if n == 0 then 0 else RequiredBefore(fields, n - 1) + if fields[n - 1].rule.Required? then 1 else 0
  }

  // The bits checked at the end cover the first 64 required fields.
  predicate AllSeen(fields: seq<Field>, seen: set<nat>) {
    forall i :: 0 <= i < |fields| && fields[i].rule.Required? && RequiredBefore(fields, i) < PB_MAX_REQUIRED_FIELDS ==> i in seen
  }

  // pb_decode_noinit
  function DecMessage(t: LType, slots: Slots, s: Bytes): (r: Option<Slots>)
    requires t.Submessage? && |slots| == |t.fields|
    ensures r.Some? ==> |r.value| == |t.fields|
    decreases |s|, 3
  {
    match DecLoop(t, State(slots, {}), s)
    case None => None
    case Some(st) => if AllSeen(t.fields, st.seen) then Some(st.slots) else None
  }
}
