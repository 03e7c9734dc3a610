/** The default user comparator (util/comparator.cc), and its order embedded in the reals. */
module Bytewise {
  import opened Keys
  import opened Coding

  // Slice::compare < 0: the first differing byte decides; a proper prefix comes first.
  predicate Less(a: Bytes, b: Bytes) {
    if b == [] then false
    else if a == [] then true
    else if a[0] == b[0] then Less(a[1..], b[1..])
    else ValueOf(a[0]) < ValueOf(b[0])
  }

  // ----- the embedding -----

  // A string as a fraction in base 257, so that "no byte" is smaller than every byte.
  function Rank(s: Bytes): (r: UserKey)
    ensures 0.0 <= r < 1.0
  {
    if s == [] then 0.0 else (ValueOf(s[0]) as real + 1.0 + Rank(s[1..])) / 257.0
  }

  lemma {:induction false} RankOrder(a: Bytes, b: Bytes)
    ensures Less(a, b) <==> Rank(a) < Rank(b)
    ensures Rank(a) == Rank(b) ==> a == b
    decreases |a|
  {
    if a != [] && b != [] {
      if a[0] == b[0] {
        RankOrder(a[1..], b[1..]);
        assert a == [a[0]] + a[1..] && b == [b[0]] + b[1..];
      } else {
        DifferentFirst(a[0], b[0], Rank(a[1..]), Rank(b[1..]));
      }
    }
  }

  lemma DifferentFirst(a: byte, b: byte, x: real, y: real)
    requires a != b && 0.0 <= x < 1.0 && 0.0 <= y < 1.0
    ensures ValueOf(a) != ValueOf(b)
    ensures ValueOf(a) < ValueOf(b) <==> (ValueOf(a) as real + 1.0 + x) / 257.0 < (ValueOf(b) as real + 1.0 + y) / 257.0
    ensures (ValueOf(a) as real + 1.0 + x) / 257.0 != (ValueOf(b) as real + 1.0 + y) / 257.0
  {
    if ValueOf(a) == ValueOf(b) { SameByte(a, b); }
  }

  // So the order of byte strings is strict and total.
  lemma TotalOrder(a: Bytes, b: Bytes, c: Bytes)
    ensures !Less(a, a) && (Less(a, b) || Less(b, a) || a == b) && (Less(a, b) && Less(b, c) ==> Less(a, c))
  {
    RankOrder(a, a);
    RankOrder(a, b);
    RankOrder(b, a);
    RankOrder(b, c);
    RankOrder(a, c);
  }

  // ----- shortening -----

  lemma {:induction false} SamePrefix(a: Bytes, b: Bytes, n: nat)
    requires n <= |a| && n <= |b| && a[..n] == b[..n]
    ensures Less(a, b) <==> Less(a[n..], b[n..])
    decreases n
  {
    if n == 0 {
      assert a[0..] == a && b[0..] == b;
    } else {
      assert a[..n][0] == b[..n][0];
      assert a[1..][..n - 1] == a[..n][1..] && b[1..][..n - 1] == b[..n][1..];
      SamePrefix(a[1..], b[1..], n - 1);
      assert a[1..][n - 1..] == a[n..] && b[1..][n - 1..] == b[n..];
    }
  }

  // The common prefix and its next byte raised by one, where that stays below the limit.
  function ShortestSeparator(start: Bytes, limit: Bytes): Bytes {
    var n := CommonLength(start, limit);
    if CanRaise(start, limit, n) then Raised(start, n) else start
  }

  predicate CanRaise(start: Bytes, limit: Bytes, n: nat) {
    n < |start| && n < |limit| && ValueOf(start[n]) < 255 && ValueOf(start[n]) + 1 < ValueOf(limit[n])
  }

  // The string up to byte n, and that byte plus one.
  function Raised(s: Bytes, n: nat): Bytes
    requires n < |s| && ValueOf(s[n]) != 255
  {
    s[..n] + [ByteOf(ValueOf(s[n]) + 1)]
  }

  // Up to the first byte that can be raised by one, and that byte raised.
  function ShortSuccessor(key: Bytes): (r: Bytes)
    ensures |r| <= |key|
  {
    if key == [] then []
    else if ValueOf(key[0]) != 255 then Raised(key, 0)
    else [key[0]] + ShortSuccessor(key[1..])
  }

  // A short string in [start, limit) when start < limit; start itself otherwise.
  lemma SeparatorBetween(start: Bytes, limit: Bytes)
    ensures var r := ShortestSeparator(start, limit);
            && |r| <= |start| && (r == start || Less(start, r))
            && (Less(start, limit) ==> Less(r, limit)) && (!Less(start, limit) ==> r == start)
  {
    var n := CommonLength(start, limit);
    CommonLengthParts(start, limit);
    if CanRaise(start, limit, n) {
      BumpedBetween(start, limit, n, ShortestSeparator(start, limit));
    }
  }

  ghost predicate IsPrefix(a: Bytes, b: Bytes) { |a| <= |b| && a == b[..|a|] }

  // Unless start is a prefix of the limit: a string between them that is no prefix of the limit and no longer than their
  // common prefix and one byte is at or after the separator; so when there is one, the separator is the least.
  lemma {:induction false} SeparatorIsLeast(start: Bytes, limit: Bytes, x: Bytes)
    requires !IsPrefix(start, limit) && !IsPrefix(x, limit) && Less(start, x) && Less(x, limit) && |x| <= CommonLength(start, limit) + 1
    ensures var n := CommonLength(start, limit);
            CanRaise(start, limit, n) && (Raised(start, n) == x || Less(Raised(start, n), x)) && |x| == n + 1
    decreases |start|
  {
    if start[0] == limit[0] {
      assert x[0] == start[0];
      TailsNoPrefix(start, limit);
      TailsNoPrefix(x, limit);
      SeparatorIsLeast(start[1..], limit[1..], x[1..]);
      RaisedTail(start, limit, CommonLength(start[1..], limit[1..]));
    } else {
      OneByteBetween(start, limit, x);
    }
  }

  lemma RaisedTail(start: Bytes, limit: Bytes, n: nat)
    requires start != [] && limit != [] && CanRaise(start[1..], limit[1..], n)
    ensures CanRaise(start, limit, n + 1) && Raised(start, n + 1) == [start[0]] + Raised(start[1..], n)
  {
  }

  lemma TailsNoPrefix(a: Bytes, b: Bytes)
    requires a != [] && b != [] && a[0] == b[0] && !IsPrefix(a, b)
    ensures !IsPrefix(a[1..], b[1..])
  {
    if IsPrefix(a[1..], b[1..]) { PrefixGrows(a, b); }
  }

  lemma PrefixGrows(a: Bytes, b: Bytes)
    requires a != [] && b != [] && a[0] == b[0] && IsPrefix(a[1..], b[1..])
    ensures IsPrefix(a, b)
  {
    assert a == [a[0]] + a[1..] && b[..|a|] == [b[0]] + b[1..][..|a| - 1];
  }

  lemma OneByteBetween(start: Bytes, limit: Bytes, x: Bytes)
    requires start != [] && limit != [] && start[0] != limit[0] && |x| <= 1 && !IsPrefix(x, limit) && Less(start, x) && Less(x, limit)
    ensures |x| == 1 && CanRaise(start, limit, 0) && (Raised(start, 0) == x || Less(Raised(start, 0), x))
  {
    assert x[..1] == x && limit[..1] == [limit[0]];
    var r := Raised(start, 0);
    assert r[0] == ByteOf(ValueOf(start[0]) + 1) && |r| == 1 && x[1..] == [];
    if ValueOf(x[0]) == ValueOf(start[0]) + 1 { SameByte(x[0], r[0]); }
  }

  lemma {:induction false} CommonLengthParts(a: Bytes, b: Bytes)
    ensures var n := CommonLength(a, b); a[..n] == b[..n]
  {
    if a != [] && b != [] && a[0] == b[0] {
      CommonLengthParts(a[1..], b[1..]);
      var n := CommonLength(a[1..], b[1..]);
      assert a[..n + 1] == [a[0]] + a[1..][..n] && b[..n + 1] == [b[0]] + b[1..][..n];
    }
  }

  lemma {:induction false} SuccessorAfter(key: Bytes)
    ensures ShortSuccessor(key) == key || Less(key, ShortSuccessor(key))
  {
    if key != [] {
      if ValueOf(key[0]) != 255 {
        assert ValueOf(ByteOf(ValueOf(key[0]) + 1)) == ValueOf(key[0]) + 1;
      } else {
        SuccessorAfter(key[1..]);
        assert ShortSuccessor(key)[1..] == ShortSuccessor(key[1..]) && key == [key[0]] + key[1..];
      }
    }
  }

  method FindShortestSeparator(start: Bytes, limit: Bytes) returns (r: Bytes)
    ensures r == ShortestSeparator(start, limit)
  {
    hide CommonLength, Raised;
    var diff := CommonPrefix(start, limit);
    r := if CanRaise(start, limit, diff) then Raised(start, diff) else start;
  }

  lemma BumpedBetween(start: Bytes, limit: Bytes, n: nat, r: Bytes)
    requires n < |start| && n < |limit| && start[..n] == limit[..n] && ValueOf(start[n]) + 1 < ValueOf(limit[n])
    requires r == start[..n] + [ByteOf(ValueOf(start[n]) + 1)]
    ensures Less(start, r) && Less(r, limit) && Less(start, limit)
  {
    var bumped := ByteOf(ValueOf(start[n]) + 1);
    assert r[..n] == start[..n] && r[n..] == [bumped];
    SamePrefix(start, r, n);
    SamePrefix(r, limit, n);
    SamePrefix(start, limit, n);
    assert start[n..][0] == start[n] && limit[n..][0] == limit[n];
    assert ValueOf(bumped) == ValueOf(start[n]) + 1;
  }

  method FindShortSuccessor(key: Bytes) returns (r: Bytes)
    ensures r == ShortSuccessor(key)
  {
    hide ValueOf, ByteOf, Raised, ShortSuccessor;
    assert key[..0] + ShortSuccessor(key[0..]) == ShortSuccessor(key);
    for i := 0 to |key|
      invariant ShortSuccessor(key) == key[..i] + ShortSuccessor(key[i..])
    {
      SuccessorStep(key, i);
      if ValueOf(key[i]) != 255 { return Raised(key, i); }
    }
    SuccessorOfNone();
    assert key[..|key|] == key && key[|key|..] == [] && key + [] == key;
    r := key;
  }

  lemma SuccessorStep(key: Bytes, i: nat)
    requires i < |key|
    ensures ValueOf(key[i]) != 255 ==> key[..i] + ShortSuccessor(key[i..]) == Raised(key, i)
    ensures ValueOf(key[i]) == 255 ==> key[..i] + ShortSuccessor(key[i..]) == key[..i + 1] + ShortSuccessor(key[i + 1..])
  {
    hide ValueOf, ByteOf;
    assert key[i..][0] == key[i] && key[i..][1..] == key[i + 1..] && key[..i + 1] == key[..i] + [key[i]];
  }

  lemma SuccessorOfNone()
    ensures ShortSuccessor([]) == []
  {
  }

  // ----- the comparator, on places -----

  ghost predicate IsPlace(u: UserKey) { exists s :: Rank(s) == u }

  // The string at a place.
  ghost function StringAt(u: UserKey): (s: Bytes)
    requires IsPlace(u)
    ensures Rank(s) == u
  {
    var s :| Rank(s) == u;
    s
  }

  lemma StringAtRank(s: Bytes)
    ensures IsPlace(Rank(s)) && StringAt(Rank(s)) == s
  {
    RankOrder(StringAt(Rank(s)), s);
  }

  ghost function SeparatorOf(a: UserKey, b: UserKey): UserKey {
    if IsPlace(a) && IsPlace(b) then Rank(ShortestSeparator(StringAt(a), StringAt(b))) else a
  }

  ghost function SuccessorOf(a: UserKey): UserKey {
    if IsPlace(a) then Rank(ShortSuccessor(StringAt(a))) else a
  }

  // On byte strings these are the two methods, seen through Rank.
  lemma SameOnStrings(a: Bytes, b: Bytes)
    ensures SeparatorOf(Rank(a), Rank(b)) == Rank(ShortestSeparator(a, b)) && SuccessorOf(Rank(a)) == Rank(ShortSuccessor(a))
  {
    StringAtRank(a);
    StringAtRank(b);
  }

  // What tables ask of a comparator (TableFormat.UserComparator.Valid), for the default one.
  lemma MeetsTables(a: UserKey, b: UserKey)
    ensures a < b ==> a <= SeparatorOf(a, b) < b
    ensures SeparatorOf(a, a) == a && a <= SuccessorOf(a)
  {
    if IsPlace(a) {
      var s := StringAt(a);
      SuccessorAfter(s);
      SeparatorBetween(s, s);
      TotalOrder(s, s, s);
      RankOrder(s, ShortSuccessor(s));
      if IsPlace(b) {
        var t := StringAt(b);
        SeparatorBetween(s, t);
        RankOrder(s, t);
        RankOrder(s, ShortestSeparator(s, t));
        RankOrder(ShortestSeparator(s, t), t);
      }
    }
  }
}
