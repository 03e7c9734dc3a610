/** Internal keys and entries: db/dbformat.{h,cc}.

    Everything above the byte formats looks at a user key only through the user comparator, so a
    user key is represented by its place in that comparator's order.  Any total order on the
    countable set of byte strings embeds in the rationals, hence `real` loses no comparator;
    module Bytewise constructs the embedding for the default one.
*/
module Keys {
  type UserKey = real

  type byte = bv8
  type Bytes = seq<byte>

  const kNumLevels: nat := 7

  // The value type is stored in the low eight bits of the packed tag.
  type ValueType = t: nat | t < 256
  const kTypeDeletion: ValueType := 0
  const kTypeValue: ValueType := 1
  const kValueTypeForSeek: ValueType := kTypeValue
  const kMaxSequenceNumber: nat := 0xFF_FFFF_FFFF_FFFF

  datatype Option<+T> = None | Some(value: T)

  datatype InternalKey = InternalKey(user: UserKey, sequence: nat, kind: ValueType) {
    function Tag(): nat { sequence * 256 + kind }

    // InternalKeyComparator::Compare(this, k) < 0
    predicate Before(k: InternalKey) {
      user < k.user || (user == k.user && Tag() > k.Tag())
    }

    predicate AtMost(k: InternalKey) {
      this == k || Before(k)
    }
  }

  // One record of a memtable or table.
  datatype Entry = Entry(key: InternalKey, value: Bytes) {
    // ParseInternalKey accepts only the two defined value types.
    predicate Parses() { key.kind <= kTypeValue }
  }

  // The key a lookup of `user` at snapshot `s` seeks to.
  function SeekKey(user: UserKey, s: nat): InternalKey {
    InternalKey(user, s, kValueTypeForSeek)
  }

  ghost predicate Sorted(es: seq<Entry>) {
    forall i, j :: 0 <= i < j < |es| ==> es[i].key.Before(es[j].key)
  }

  lemma SortedAt(es: seq<Entry>, i: int, j: int)
    requires Sorted(es)
    ensures 0 <= i < j < |es| ==> es[i].key.Before(es[j].key)
  {
  }

  ghost predicate AllParse(es: seq<Entry>) {
    forall i :: 0 <= i < |es| ==> es[i].Parses()
  }

  ghost predicate NoRepeats<T>(s: seq<T>) {
    forall i, j :: 0 <= i < j < |s| ==> s[i] != s[j]
  }

  // Both halves of a sorted sequence are sorted, and the first comes before the second.
  lemma SortedParts(a: seq<Entry>, b: seq<Entry>)
    requires Sorted(a + b) && AllParse(a + b)
    ensures Sorted(a) && AllParse(a) && Sorted(b) && AllParse(b)
    ensures forall x, y :: x in a && y in b ==> x.key.Before(y.key)
  {
    var c := a + b;
    assert forall i :: 0 <= i < |a| ==> c[i] == a[i];
    assert forall i :: 0 <= i < |b| ==> c[|a| + i] == b[i];
    forall x, y | x in a && y in b ensures x.key.Before(y.key) {
      var i :| 0 <= i < |a| && a[i] == x;
      var k :| 0 <= k < |b| && b[k] == y;
      SortedAt(c, i, |a| + k);
    }
  }
}
