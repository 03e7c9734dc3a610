/** Manifest records as bytes (db/version_edit.cc): EncodeTo and DecodeFrom. */
module EditCodec {
  import opened Keys
  import opened Coding

  datatype NewFile = NewFile(level: nat, number: nat, size: nat, smallest: Bytes, largest: Bytes)

  // deleted_files_ is an ordered set: here its elements, ascending.
  datatype Edit = Edit(comparator: Option<Bytes>, logNumber: Option<nat>, prevLogNumber: Option<nat>, nextFile: Option<nat>,
                       lastSequence: Option<nat>, pointers: seq<(nat, Bytes)>, deleted: seq<(nat, nat)>, added: seq<NewFile>)
  {
    // Clear forgets everything but the compaction pointers.
    function Cleared(): Edit { Edit(None, None, None, None, None, pointers, [], []) }
  }

  datatype Which = Log | PrevLog | NextFile | LastSequence

  datatype Field =
    | Comparator(name: Bytes)
    | Number(which: Which, n: nat)
    | CompactPointer(level: nat, key: Bytes)
    | DeletedFile(level: nat, n: nat)
    | AddedFile(file: NewFile)

  // ----- one field -----

  function EncodeField(f: Field): Bytes {
    match f
    case Comparator(name) => EncodeVarint(1) + EncodeSlice(name)
    case Number(which, n) => EncodeVarint(TagOf(f)) + EncodeVarint(n)
    case CompactPointer(level, key) => EncodeVarint(5) + EncodeVarint(level) + EncodeSlice(key)
    case DeletedFile(level, n) => EncodeVarint(6) + EncodeVarint(level) + EncodeVarint(n)
    case AddedFile(file) =>
      EncodeVarint(7) + EncodeVarint(file.level) + EncodeVarint(file.number) + EncodeVarint(file.size)
      + EncodeSlice(file.smallest) + EncodeSlice(file.largest)
  }

  function GetLevel(s: Bytes): Option<Decoded<nat>> {
    match GetVarint32Of(s)
    case None => None
    case Some(d) => if d.value < kNumLevels then Some(d) else None
  }

  // InternalKey::DecodeFrom takes anything but the empty string.
  function GetInternalKey(s: Bytes): Option<Decoded<Bytes>> {
    match DecodeSlice(s)
    case None => None
    case Some(d) => if d.value != [] then Some(d) else None
  }

  function GetNumber(s: Bytes, which: Which): Option<Decoded<Field>> {
    match GetVarint64Of(s)
    case None => None
    case Some(d) => Some(Decoded(Number(which, d.value), d.rest))
  }

  function GetName(s: Bytes): Option<Decoded<Field>> {
    match DecodeSlice(s)
    case None => None
    case Some(d) => Some(Decoded(Comparator(d.value), d.rest))
  }

  function GetPointer(s: Bytes): Option<Decoded<Field>> {
    match GetLevel(s)
    case None => None
    case Some(level) =>
      match GetInternalKey(level.rest)
      case None => None
      case Some(key) => Some(Decoded(CompactPointer(level.value, key.value), key.rest))
  }

  function GetDeleted(s: Bytes): Option<Decoded<Field>> {
    match GetLevel(s)
    case None => None
    case Some(level) =>
      match GetVarint64Of(level.rest)
      case None => None
      case Some(number) => Some(Decoded(DeletedFile(level.value, number.value), number.rest))
  }

  function GetAdded(s: Bytes): Option<Decoded<Field>> {
    match GetLevel(s)
    case None => None
    case Some(level) =>
      match GetVarint64Of(level.rest)
      case None => None
      case Some(number) =>
        match GetVarint64Of(number.rest)
        case None => None
        case Some(size) =>
          match GetInternalKey(size.rest)
          case None => None
          case Some(smallest) =>
            match GetInternalKey(smallest.rest)
            case None => None
            case Some(largest) =>
              Some(Decoded(AddedFile(NewFile(level.value, number.value, size.value, smallest.value, largest.value)), largest.rest))
  }

  // The case for the tag just read.
  function GetField(tag: nat, s: Bytes): Option<Decoded<Field>> {
    if tag == 1 then GetName(s)
    else if tag == 2 then GetNumber(s, Log)
    else if tag == 3 then GetNumber(s, NextFile)
    else if tag == 4 then GetNumber(s, LastSequence)
    else if tag == 5 then GetPointer(s)
    else if tag == 6 then GetDeleted(s)
    else if tag == 7 then GetAdded(s)
    else if tag == 9 then GetNumber(s, PrevLog)
    else None
  }

  // ----- widths and limits -----

  // What fits the C++ types.
  ghost predicate Fits(f: Field) {
    match f
    case Comparator(name) => |name| < TWO_TO_32
    case CompactPointer(level, key) => level < TWO_TO_32 && |key| < TWO_TO_32
    case DeletedFile(level, n) => level < TWO_TO_32 && n < TWO_TO_64
    case AddedFile(file) =>
      file.level < TWO_TO_32 && file.number < TWO_TO_64 && file.size < TWO_TO_64 && |file.smallest| < TWO_TO_32 && |file.largest| < TWO_TO_32
    case _ => f.n < TWO_TO_64
  }

  // What the decoder takes back: a level that exists and keys that are not empty.
  predicate Readable(f: Field) {
    match f
    case CompactPointer(level, key) => level < kNumLevels && key != []
    case DeletedFile(level, n) => level < kNumLevels
    case AddedFile(file) => file.level < kNumLevels && file.smallest != [] && file.largest != []
    case _ => true
  }

  function TagOf(f: Field): nat {
    match f
    case Comparator(_) => 1
    case Number(which, _) =>
      (match which
       case Log => 2
       case NextFile => 3
       case LastSequence => 4
       case PrevLog => 9)
    case CompactPointer(_, _) => 5
    case DeletedFile(_, _) => 6
    case AddedFile(_) => 7
  }

  // What follows the tag.
  function Body(f: Field): Bytes {
    match f
    case Comparator(name) => EncodeSlice(name)
    case CompactPointer(level, key) => EncodeVarint(level) + EncodeSlice(key)
    case DeletedFile(level, n) => EncodeVarint(level) + EncodeVarint(n)
    case AddedFile(file) =>
      EncodeVarint(file.level) + (EncodeVarint(file.number) + (EncodeVarint(file.size) + (EncodeSlice(file.smallest) + EncodeSlice(file.largest))))
    case _ => EncodeVarint(f.n)
  }

  lemma TagThenBody(f: Field)
    ensures EncodeField(f) == EncodeVarint(TagOf(f)) + Body(f)
  {
    hide EncodeVarint, EncodeSlice;
  }

  lemma LevelRoundTrip(level: nat, rest: Bytes)
    requires level < TWO_TO_32
    ensures GetLevel(EncodeVarint(level) + rest) == if level < kNumLevels then Some(Decoded(level, rest)) else None
  {
    hide EncodeVarint, GetVarint32Of;
    Varint32RoundTrip(level, rest);
  }

  lemma KeyRoundTrip(key: Bytes, rest: Bytes)
    requires |key| < TWO_TO_32
    ensures GetInternalKey(EncodeSlice(key) + rest) == if key != [] then Some(Decoded(key, rest)) else None
  {
    hide EncodeSlice, DecodeSlice;
    SliceRoundTrip(key, rest);
  }

  lemma NumberRoundTrip(n: nat, rest: Bytes, which: Which)
    requires n < TWO_TO_64
    ensures GetNumber(EncodeVarint(n) + rest, which) == Some(Decoded(Number(which, n), rest))
  {
    hide EncodeVarint, GetVarint64Of;
    Varint64RoundTrip(n, rest);
  }

  lemma AddedRoundTrip(file: NewFile, rest: Bytes)
    requires Fits(AddedFile(file))
    ensures GetAdded(Body(AddedFile(file)) + rest) == if Readable(AddedFile(file)) then Some(Decoded(AddedFile(file), rest)) else None
  {
    hide EncodeVarint, EncodeSlice, GetVarint64Of, GetLevel, GetInternalKey;
    var r4 := EncodeSlice(file.largest) + rest;
    var r3 := EncodeSlice(file.smallest) + r4;
    var r2 := EncodeVarint(file.size) + r3;
    var r1 := EncodeVarint(file.number) + r2;
    assert Body(AddedFile(file)) + rest == EncodeVarint(file.level) + r1;
    LevelRoundTrip(file.level, r1);
    Varint64RoundTrip(file.number, r2);
    Varint64RoundTrip(file.size, r3);
    KeyRoundTrip(file.smallest, r4);
    KeyRoundTrip(file.largest, rest);
  }

  lemma BodyRoundTrip(f: Field, rest: Bytes)
    requires Fits(f)
    ensures GetField(TagOf(f), Body(f) + rest) == if Readable(f) then Some(Decoded(f, rest)) else None
  {
    hide EncodeVarint, EncodeSlice, GetVarint64Of, GetLevel, GetInternalKey, GetAdded, DecodeSlice, GetNumber;
    match f {
      case Comparator(name) => SliceRoundTrip(name, rest);
      case Number(which, n) => NumberRoundTrip(n, rest, which);
      case CompactPointer(level, key) => PointerRoundTrip(level, key, rest);
      case DeletedFile(level, n) => DeletedRoundTrip(level, n, rest);
      case AddedFile(file) => AddedRoundTrip(file, rest);
    }
  }

  lemma PointerRoundTrip(level: nat, key: Bytes, rest: Bytes)
    requires level < TWO_TO_32 && |key| < TWO_TO_32
    ensures GetPointer(EncodeVarint(level) + EncodeSlice(key) + rest) == if level < kNumLevels && key != [] then Some(Decoded(CompactPointer(level, key), rest)) else None
  {
    hide EncodeVarint, EncodeSlice, GetLevel, GetInternalKey;
    assert EncodeVarint(level) + EncodeSlice(key) + rest == EncodeVarint(level) + (EncodeSlice(key) + rest);
    LevelRoundTrip(level, EncodeSlice(key) + rest);
    KeyRoundTrip(key, rest);
  }

  lemma DeletedRoundTrip(level: nat, n: nat, rest: Bytes)
    requires level < TWO_TO_32 && n < TWO_TO_64
    ensures GetDeleted(EncodeVarint(level) + EncodeVarint(n) + rest) == if level < kNumLevels then Some(Decoded(DeletedFile(level, n), rest)) else None
  {
    hide EncodeVarint, GetLevel, GetVarint64Of;
    assert EncodeVarint(level) + EncodeVarint(n) + rest == EncodeVarint(level) + (EncodeVarint(n) + rest);
    LevelRoundTrip(level, EncodeVarint(n) + rest);
    Varint64RoundTrip(n, rest);
  }

  // ----- all fields -----

  predicate Before(a: (nat, nat), b: (nat, nat)) {
    a.0 < b.0 || (a.0 == b.0 && a.1 < b.1)
  }

  // std::set::insert
  function Insert(s: seq<(nat, nat)>, x: (nat, nat)): seq<(nat, nat)> {
    if s == [] then [x]
    else if Before(s[|s| - 1], x) then s + [x]
    else if s[|s| - 1] == x then s
    else Insert(s[..|s| - 1], x) + [s[|s| - 1]]
  }

  // Pairs are ordered by level, then by number.
  lemma PairsOrdered(a: (nat, nat), b: (nat, nat), c: (nat, nat))
    ensures (a.0 < b.0 ==> Before(a, b)) && (a.0 == b.0 && a.1 < b.1 ==> Before(a, b))
    ensures !Before(a, a) && (Before(a, b) || a == b || Before(b, a)) && (Before(a, b) && Before(b, c) ==> Before(a, c))
  {
  }

  // The set with one more element, its elements in order.
  lemma {:induction false} InsertKeeps(s: seq<(nat, nat)>, x: (nat, nat))
    requires Ascending(s)
    ensures Ascending(Insert(s, x)) && forall y :: y in Insert(s, x) <==> y in s || y == x
  {
    if s != [] && !Before(s[|s| - 1], x) && s[|s| - 1] != x {
      var n := |s| - 1;
      InsertKeeps(s[..n], x);
      assert s == s[..n] + [s[n]];
      forall y | y in Insert(s[..n], x) ensures Before(y, s[n]) {
        if y in s[..n] { var i :| 0 <= i < n && s[i] == y; }
      }
    } else if s != [] && s[|s| - 1] != x {
      forall i | 0 <= i < |s| ensures Before(s[i], x) {}
    }
  }

  function Apply(e: Edit, f: Field): Edit {
    match f
    case Comparator(name) => e.(comparator := Some(name))
    case Number(which, n) =>
      (match which
       case Log => e.(logNumber := Some(n))
       case PrevLog => e.(prevLogNumber := Some(n))
       case NextFile => e.(nextFile := Some(n))
       case LastSequence => e.(lastSequence := Some(n)))
    case CompactPointer(level, key) => e.(pointers := e.pointers + [(level, key)])
    case DeletedFile(level, n) => e.(deleted := Insert(e.deleted, (level, n)))
    case AddedFile(file) => e.(added := e.added + [file])
  }

  function ApplyAll(e: Edit, fs: seq<Field>): Edit
    decreases |fs|
  {
    if fs == [] then e else ApplyAll(Apply(e, fs[0]), fs[1..])
  }

  function EncodeAll(fs: seq<Field>): Bytes {
    if fs == [] then [] else EncodeAll(fs[..|fs| - 1]) + EncodeField(fs[|fs| - 1])
  }

  datatype Outcome = Decode(edit: Edit, ok: bool)

  lemma LevelShrinks(s: Bytes)
    ensures GetLevel(s).Some? ==> |GetLevel(s).value.rest| < |s|
  {
    VarintShrinks(s);
  }

  lemma KeyShrinks(s: Bytes)
    ensures GetInternalKey(s).Some? ==> |GetInternalKey(s).value.rest| < |s|
  {
    SliceShrinks(s);
  }

  lemma AddedShrinks(s: Bytes)
    ensures GetAdded(s).Some? ==> |GetAdded(s).value.rest| < |s|
  {
    hide GetLevel, GetInternalKey, GetVarint64Of;
    LevelShrinks(s);
    if GetAdded(s).Some? {
      var s1 := GetLevel(s).value.rest;
      VarintShrinks(s1);
      var s2 := GetVarint64Of(s1).value.rest;
      VarintShrinks(s2);
      var s3 := GetVarint64Of(s2).value.rest;
      KeyShrinks(s3);
      KeyShrinks(GetInternalKey(s3).value.rest);
    }
  }

  lemma FieldShrinks(tag: nat, s: Bytes)
    ensures GetField(tag, s).Some? ==> |GetField(tag, s).value.rest| < |s|
  {
    hide GetLevel, GetInternalKey, GetVarint64Of, GetAdded, DecodeSlice;
    SliceShrinks(s);
    VarintShrinks(s);
    LevelShrinks(s);
    AddedShrinks(s);
    if GetLevel(s).Some? {
      KeyShrinks(GetLevel(s).value.rest);
      VarintShrinks(GetLevel(s).value.rest);
    }
  }

  // The loop of DecodeFrom, from the fields found so far.
  function DecodeFields(e: Edit, s: Bytes): Outcome
    decreases |s|
  {
    match GetVarint32Of(s)
    case None => Decode(e, s == [])
    case Some(tag) =>
      match GetField(tag.value, tag.rest)
      case None => Decode(e, false)
      case Some(d) =>
        VarintShrinks(s);
        FieldShrinks(tag.value, tag.rest);
        DecodeFields(Apply(e, d.value), d.rest)
  }

  lemma DecodesFirst(e: Edit, f: Field, rest: Bytes)
    requires Fits(f)
    ensures DecodeFields(e, EncodeField(f) + rest) == if Readable(f) then DecodeFields(Apply(e, f), rest) else Decode(e, false)
  {
    hide EncodeVarint, EncodeField, Body, GetVarint32Of, GetField, Apply;
    TagThenBody(f);
    assert EncodeField(f) + rest == EncodeVarint(TagOf(f)) + (Body(f) + rest);
    Varint32RoundTrip(TagOf(f), Body(f) + rest);
    BodyRoundTrip(f, rest);
  }

  lemma DecodesEnd(e: Edit)
    ensures DecodeFields(e, []) == Decode(e, true)
  {
  }

  lemma {:induction false} EncodeSplit(f: Field, fs: seq<Field>)
    ensures EncodeAll([f] + fs) == EncodeField(f) + EncodeAll(fs)
    decreases |fs|
  {
    hide EncodeField;
    if fs == [] {
      assert [f] + fs == [f] && [f][..0] == [];
    } else {
      var n := |fs| - 1;
      EncodeSplit(f, fs[..n]);
      assert ([f] + fs)[..|fs|] == [f] + fs[..n];
    }
  }

  // Decoding what was encoded applies the fields in order, and fails exactly when one is not readable.
  lemma {:induction false} FieldsRoundTrip(e: Edit, fs: seq<Field>)
    requires forall i :: 0 <= i < |fs| ==> Fits(fs[i])
    ensures var d := DecodeFields(e, EncodeAll(fs));
            && (d.ok <==> forall i :: 0 <= i < |fs| ==> Readable(fs[i]))
            && (d.ok ==> d.edit == ApplyAll(e, fs))
    decreases |fs|
  {
    hide EncodeField, Apply, DecodeFields, Fits, Readable;
    if fs == [] {
      DecodesEnd(e);
    } else {
      assert fs == [fs[0]] + fs[1..];
      EncodeSplit(fs[0], fs[1..]);
      DecodesFirst(e, fs[0], EncodeAll(fs[1..]));
      FieldsRoundTrip(Apply(e, fs[0]), fs[1..]);
    }
  }

  // ----- an edit and its fields -----

  function Opt(o: Option<nat>, which: Which): seq<Field> {
    if o.Some? then [Number(which, o.value)] else []
  }

  function Scalars(e: Edit): seq<Field> {
    (if e.comparator.Some? then [Comparator(e.comparator.value)] else [])
    + Opt(e.logNumber, Log) + Opt(e.prevLogNumber, PrevLog)
    + Opt(e.nextFile, NextFile) + Opt(e.lastSequence, LastSequence)
  }

  function Pointers(ps: seq<(nat, Bytes)>): seq<Field> {
    seq(|ps|, i requires 0 <= i < |ps| => CompactPointer(ps[i].0, ps[i].1))
  }

  function Deletions(ds: seq<(nat, nat)>): seq<Field> {
    seq(|ds|, i requires 0 <= i < |ds| => DeletedFile(ds[i].0, ds[i].1))
  }

  function Additions(fs: seq<NewFile>): seq<Field> {
    seq(|fs|, i requires 0 <= i < |fs| => AddedFile(fs[i]))
  }

  function FieldsOf(e: Edit): seq<Field> {
    Scalars(e) + Pointers(e.pointers) + Deletions(e.deleted) + Additions(e.added)
  }

  ghost predicate Ascending(ds: seq<(nat, nat)>) {
    forall i, j :: 0 <= i < j < |ds| ==> Before(ds[i], ds[j])
  }

  ghost predicate Encodable(e: Edit) {
    Ascending(e.deleted) && forall i :: 0 <= i < |FieldsOf(e)| ==> Fits(FieldsOf(e)[i])
  }

  lemma {:induction false} ApplyConcat(e: Edit, a: seq<Field>, b: seq<Field>)
    ensures ApplyAll(e, a + b) == ApplyAll(ApplyAll(e, a), b)
    decreases |a|
  {
    if a == [] {
      assert a + b == b;
    } else {
      assert (a + b)[1..] == a[1..] + b;
      ApplyConcat(Apply(e, a[0]), a[1..], b);
    }
  }

  lemma {:induction false} PointersApply(e: Edit, ps: seq<(nat, Bytes)>)
    ensures ApplyAll(e, Pointers(ps)) == e.(pointers := e.pointers + ps)
    decreases |ps|
  {
    if ps != [] {
      assert Pointers(ps)[1..] == Pointers(ps[1..]);
      PointersApply(Apply(e, Pointers(ps)[0]), ps[1..]);
      assert e.pointers + [ps[0]] + ps[1..] == e.pointers + ps;
    } else {
      assert e.pointers + ps == e.pointers;
    }
  }

  lemma {:induction false} AdditionsApply(e: Edit, fs: seq<NewFile>)
    ensures ApplyAll(e, Additions(fs)) == e.(added := e.added + fs)
    decreases |fs|
  {
    if fs != [] {
      assert Additions(fs)[1..] == Additions(fs[1..]);
      AdditionsApply(Apply(e, Additions(fs)[0]), fs[1..]);
      assert e.added + [fs[0]] + fs[1..] == e.added + fs;
    } else {
      assert e.added + fs == e.added;
    }
  }

  lemma {:induction false} DeletionsApply(e: Edit, ds: seq<(nat, nat)>)
    requires Ascending(e.deleted + ds)
    ensures ApplyAll(e, Deletions(ds)) == e.(deleted := e.deleted + ds)
    decreases |ds|
  {
    if ds != [] {
      assert Deletions(ds)[1..] == Deletions(ds[1..]);
      assert e.deleted != [] ==> Before((e.deleted + ds)[|e.deleted| - 1], (e.deleted + ds)[|e.deleted|]);
      assert e.deleted + [ds[0]] + ds[1..] == e.deleted + ds;
      assert Insert(e.deleted, ds[0]) == e.deleted + [ds[0]];
      DeletionsApply(Apply(e, Deletions(ds)[0]), ds[1..]);
    } else {
      assert e.deleted + ds == e.deleted;
    }
  }

  lemma ScalarsApply(e: Edit, blank: Edit)
    requires blank == blank.Cleared()
    ensures ApplyAll(blank, Scalars(e)) == e.(pointers := blank.pointers, deleted := [], added := [])
  {
    var a := if e.comparator.Some? then [Comparator(e.comparator.value)] else [];
    var b, c := Opt(e.logNumber, Log), Opt(e.prevLogNumber, PrevLog);
    var d, f := Opt(e.nextFile, NextFile), Opt(e.lastSequence, LastSequence);
    ApplyConcat(blank, a + b + c + d, f);
    ApplyConcat(blank, a + b + c, d);
    ApplyConcat(blank, a + b, c);
    ApplyConcat(blank, a, b);
    OneApplies(blank, a);
    OneApplies(ApplyAll(blank, a), b);
    OneApplies(ApplyAll(blank, a + b), c);
    OneApplies(ApplyAll(blank, a + b + c), d);
    OneApplies(ApplyAll(blank, a + b + c + d), f);
  }

  lemma OneApplies(e: Edit, fs: seq<Field>)
    requires |fs| <= 1
    ensures ApplyAll(e, fs) == if fs == [] then e else Apply(e, fs[0])
  {
    if fs != [] { assert ApplyAll(Apply(e, fs[0]), fs[1..]) == Apply(e, fs[0]); }
  }

  lemma FieldsApply(e: Edit, blank: Edit)
    requires blank == blank.Cleared() && Ascending(e.deleted)
    ensures ApplyAll(blank, FieldsOf(e)) == e.(pointers := blank.pointers + e.pointers)
  {
    var s, p, d, a := Scalars(e), Pointers(e.pointers), Deletions(e.deleted), Additions(e.added);
    ApplyConcat(blank, s + p + d, a);
    ApplyConcat(blank, s + p, d);
    ApplyConcat(blank, s, p);
    ScalarsApply(e, blank);
    var e1 := ApplyAll(blank, s);
    PointersApply(e1, e.pointers);
    var e2 := ApplyAll(e1, p);
    assert e2.deleted + e.deleted == e.deleted;
    DeletionsApply(e2, e.deleted);
    AdditionsApply(ApplyAll(e2, d), e.added);
    assert [] + e.added == e.added;
  }

  // The exact round trip: an edit is taken back if and only if its levels exist and its keys are not
  // empty; compaction pointers the reading object already had stay in front.
  lemma RoundTrip(e: Edit, target: Edit)
    requires Encodable(e)
    ensures var d := DecodeFields(target.Cleared(), EncodeAll(FieldsOf(e)));
            && (d.ok <==> forall i :: 0 <= i < |FieldsOf(e)| ==> Readable(FieldsOf(e)[i]))
            && (d.ok ==> d.edit == e.(pointers := target.pointers + e.pointers))
            && (d.ok ==> (d.edit == e <==> target.pointers == []))
  {
    hide FieldsOf, EncodeAll, DecodeFields, Readable;
    FieldsRoundTrip(target.Cleared(), FieldsOf(e));
    FieldsApply(e, target.Cleared());
    if target.pointers != [] {
      assert |target.pointers + e.pointers| > |e.pointers|;
    }
  }

  class VersionEdit {
    var edit: Edit

    constructor ()
      ensures edit == Edit(None, None, None, None, None, [], [], [])
    {
      edit := Edit(None, None, None, None, None, [], [], []);
    }

    method EncodeTo(dst: Bytes) returns (r: Bytes)
      ensures r == dst + EncodeAll(FieldsOf(edit))
    {
      hide EncodeField;
      r := dst;
      var fields := FieldsOf(edit);
      for i := 0 to |fields|
        invariant r == dst + EncodeAll(fields[..i])
      {
        assert fields[..i + 1][..i] == fields[..i];
        r := r + EncodeField(fields[i]);
      }
      assert fields[..|fields|] == fields;
    }

    method DecodeFrom(src: Bytes) returns (ok: bool)
      modifies this
      ensures Decode(edit, ok) == DecodeFields(old(edit).Cleared(), src)
    {
      hide GetField, GetVarint32Of, Apply;
      edit := edit.Cleared();
      var input := src;
      var tag := GetVarint32Of(input);
      while tag.Some?
        invariant tag == GetVarint32Of(input)
        invariant DecodeFields(edit, input) == DecodeFields(old(edit).Cleared(), src)
        decreases |input|
      {
        var field := GetField(tag.value.value, tag.value.rest);
        if field.None? { return false; }
        VarintShrinks(input);
        FieldShrinks(tag.value.value, tag.value.rest);
        edit, input := Apply(edit, field.value.value), field.value.rest;
        tag := GetVarint32Of(input);
      }
      ok := input == [];
    }
  }
}
