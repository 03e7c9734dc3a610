/** DBIter (db/db_iter.cc): the user's view of a merged run at a sequence number.

    An entry is yielded when it is the newest version of its user key at the sequence number and
    is a value.  Any mix of Seek, SeekToFirst, SeekToLast, Next and Prev moves along the yielded
    entries exactly, whatever lies between them. */
module DbIter {
  import opened Keys
  import opened Reads
  import opened Versions
  import opened Iterators

  ghost predicate Visible(e: Entry, s: nat) {
    e.Parses() && e.key.sequence <= s
  }

  ghost predicate Yields(es: seq<Entry>, s: nat, i: int) {
    && 0 <= i < |es| && Visible(es[i], s) && es[i].key.kind == kTypeValue
    && forall j :: 0 <= j < i && es[j].key.user == es[i].key.user ==> !Visible(es[j], s)
  }

  // The first yielded entry at or after i; |es| when there is none.
  ghost function NextYield(es: seq<Entry>, s: nat, i: nat): (r: nat)
    requires i <= |es|
    ensures i <= r <= |es| && (r < |es| ==> Yields(es, s, r))
    ensures forall j :: i <= j < r ==> !Yields(es, s, j)
    decreases |es| - i
  {
    if i == |es| || Yields(es, s, i) then i else NextYield(es, s, i + 1)
  }

  // The last yielded entry before i; -1 when there is none.
  ghost function PrevYield(es: seq<Entry>, s: nat, i: nat): (r: int)
    requires i <= |es|
    ensures -1 <= r < i && (r >= 0 ==> Yields(es, s, r))
    ensures forall j :: r < j < i ==> !Yields(es, s, j)
  {
    if i == 0 then -1 else if Yields(es, s, i - 1) then i - 1 else PrevYield(es, s, i - 1)
  }

  lemma NextYieldIs(es: seq<Entry>, s: nat, i: nat, r: nat)
    requires i <= r <= |es| && (r < |es| ==> Yields(es, s, r))
    requires forall j :: i <= j < r ==> !Yields(es, s, j)
    ensures NextYield(es, s, i) == r
  {
  }

  lemma PrevYieldIs(es: seq<Entry>, s: nat, i: nat, r: int)
    requires i <= |es| && -1 <= r < i && (r >= 0 ==> Yields(es, s, r))
    requires forall j :: r < j < i ==> !Yields(es, s, j)
    ensures PrevYield(es, s, i) == r
  {
    var q := PrevYield(es, s, i);
    assert q > r ==> !Yields(es, s, q);
  }

  // ----- the yielded entries are the sorted map visible at the sequence number -----

  lemma UsersAscend(es: seq<Entry>, i: int, j: int)
    requires Sorted(es) && 0 <= i <= j < |es|
    ensures es[i].key.user <= es[j].key.user
  {
    SortedAt(es, i, j);
  }

  lemma YieldedKeysAscend(es: seq<Entry>, s: nat, i: nat, j: nat)
    requires Sorted(es) && i < j && Yields(es, s, i) && Yields(es, s, j)
    ensures es[i].key.user < es[j].key.user
  {
    UsersAscend(es, i, j);
  }

  lemma YieldedIsRead(es: seq<Entry>, s: nat, user: UserKey, v: Bytes)
    requires Sorted(es)
    ensures (exists i :: Yields(es, s, i) && es[i].key.user == user && es[i].value == v)
       <==> ReadsAs(Elements(es), user, s, Some(v))
  {
    if i :| Yields(es, s, i) && es[i].key.user == user && es[i].value == v {
      forall e | e in Elements(es) && Candidate(e, user, s) ensures e.key.Tag() <= es[i].key.Tag() {
        var j :| 0 <= j < |es| && es[j] == e;
        SortedAt(es, i, j);
      }
      assert IsNewest(Elements(es), user, s, Some(es[i]));
    }
    if ReadsAs(Elements(es), user, s, Some(v)) {
      var r :| IsNewest(Elements(es), user, s, r) && Outcome(r) == Some(v);
      var i :| 0 <= i < |es| && es[i] == r.value;
      forall j | 0 <= j < i && es[j].key.user == user ensures !Visible(es[j], s) {
        SortedAt(es, j, i);
        assert es[j] in Elements(es);
      }
      assert Yields(es, s, i);
    }
  }

  // ----- scanning forward -----

  // Entries before p are dealt with: a visible one has a user key at or below the skip key, or
  // below every key still to come.
  ghost predicate SeenBefore(es: seq<Entry>, s: nat, p: nat, skip: Option<UserKey>) {
    forall j :: 0 <= j < p <= |es| && Visible(es[j], s) ==>
      (skip.Some? && es[j].key.user <= skip.value) || forall i :: p <= i < |es| ==> es[j].key.user < es[i].key.user
  }

  // Nothing past `lo` that the skip key hides would have been yielded.
  ghost predicate SkipsRightly(es: seq<Entry>, s: nat, p: nat, lo: int, skip: Option<UserKey>) {
    skip.Some? ==> forall i :: p <= i < |es| && lo < i && es[i].key.user <= skip.value ==> !Yields(es, s, i)
  }

  // The place may still be short of entry `lo`, with nothing visible in between.
  ghost predicate CatchingUp(es: seq<Entry>, s: nat, p: nat, lo: int, skip: Option<UserKey>)
    requires lo < |es|
  {
    p <= lo ==>
      && skip.Some? && es[lo].key.user <= skip.value && es[lo].key.kind == kTypeValue
      && forall j :: p <= j < lo ==> !Visible(es[j], s)
  }

  lemma ScanYields(es: seq<Entry>, s: nat, p: nat, skip: Option<UserKey>)
    requires Sorted(es) && p < |es| && SeenBefore(es, s, p, skip)
    requires Visible(es[p], s) && es[p].key.kind == kTypeValue && !(skip.Some? && es[p].key.user <= skip.value)
    ensures Yields(es, s, p)
  {
  }

  lemma ScanDeletion(es: seq<Entry>, s: nat, p: nat, lo: int)
    requires Sorted(es) && p < |es| && Visible(es[p], s)
    ensures SeenBefore(es, s, p + 1, Some(es[p].key.user))
    ensures SkipsRightly(es, s, p + 1, lo, Some(es[p].key.user))
  {
    forall j | 0 <= j < p + 1 ensures es[j].key.user <= es[p].key.user { UsersAscend(es, j, p); }
    forall i | p + 1 <= i < |es| && es[i].key.user <= es[p].key.user ensures !Yields(es, s, i) { UsersAscend(es, p, i); }
  }

  lemma ScanPast(es: seq<Entry>, s: nat, p: nat, skip: Option<UserKey>)
    requires p < |es| && SeenBefore(es, s, p, skip)
    requires Visible(es[p], s) ==> skip.Some? && es[p].key.user <= skip.value
    ensures SeenBefore(es, s, p + 1, skip)
  {
  }

  // ----- scanning backward -----

  // t is the last visible entry met on the way down from `top`, the scan now standing at p.
  ghost predicate ScannedDown(es: seq<Entry>, s: nat, p: int, t: Option<nat>, top: nat) {
    && -1 <= p < top <= |es|
    && match t
       case None => forall j :: p < j < top ==> !Visible(es[j], s)
       case Some(i) =>
         && p < i < top && Visible(es[i], s)
         && (forall j :: p < j < i ==> !Visible(es[j], s))
         && (forall j :: i < j < top ==> !Yields(es, s, j))
  }

  lemma ScanMeets(es: seq<Entry>, s: nat, p: nat, t: Option<nat>, top: nat)
    requires Sorted(es) && ScannedDown(es, s, p, t, top) && Visible(es[p], s)
    requires t.Some? && es[t.value].key.kind != kTypeDeletion ==> !(es[p].key.user < es[t.value].key.user)
    ensures ScannedDown(es, s, p - 1, Some(p), top)
  {
    if t.Some? {
      UsersAscend(es, p, t.value);
      assert !Yields(es, s, t.value);
    }
  }

  // The value met last is the previous yielded entry once a smaller user key shows up.
  lemma ScanEnds(es: seq<Entry>, s: nat, p: int, t: Option<nat>, top: nat)
    requires Sorted(es) && ScannedDown(es, s, p, t, top)
    requires p == -1 || (t.Some? && es[p].key.user < es[t.value].key.user)
    ensures t.Some? && es[t.value].key.kind == kTypeValue ==> PrevYield(es, s, top) == t.value
    ensures p == -1 && (t.None? || es[t.value].key.kind == kTypeDeletion) ==> PrevYield(es, s, top) == -1
  {
    if t.Some? {
      var i := t.value;
      forall j | 0 <= j < i && es[j].key.user == es[i].key.user ensures !Visible(es[j], s) {
        if j <= p { UsersAscend(es, j, p); }
      }
      if es[i].key.kind == kTypeValue {
        PrevYieldIs(es, s, top, i);
      } else if p == -1 && es[i].key.kind == kTypeDeletion {
        PrevYieldIs(es, s, top, -1);
      }
    } else if p == -1 {
      PrevYieldIs(es, s, top, -1);
    }
  }

  datatype Direction = Forward | Reverse

  class DBIter {
    const iter: Cursor                           // iter_, standing for any leveldb Iterator
    const sequence: nat
    var direction: Direction
    var valid: bool
    var savedKey: UserKey                        // current key when direction is Reverse
    var savedValue: Bytes                        // current value when direction is Reverse
    var corrupt: bool                            // status_ has seen a key that does not parse
    ghost var at: int                            // index of the yielded entry

    constructor (iter: Cursor, sequence: nat)
      requires Sorted(iter.entries) && iter.pos <= |iter.entries|
      ensures Valid() && !valid && !corrupt && this.iter == iter && this.sequence == sequence
    {
      this.iter, this.sequence := iter, sequence;
      direction, valid, corrupt, savedKey, savedValue := Forward, false, false, 0.0, [];
      at := -1;
    }

    ghost function Es(): seq<Entry> { iter.entries }

    ghost predicate Valid()
      reads this, iter
    {
      && Sorted(Es()) && iter.pos <= |Es()|
      && (valid ==> Yields(Es(), sequence, at))
      && (valid && direction == Forward ==> iter.pos == at)
      && (valid && direction == Reverse ==>
            && savedKey == Es()[at].key.user && savedValue == Es()[at].value
            && BackedOff(Es(), sequence, iter.pos, at))
    }

    function Key(): (k: UserKey)
      reads this, iter
      requires Valid() && valid
      ensures k == Es()[at].key.user
    {
      if direction == Forward then iter.Key().user else savedKey
    }

    function Value(): (v: Bytes)
      reads this, iter
      requires Valid() && valid
      ensures v == Es()[at].value
    {
      if direction == Forward then iter.entries[iter.pos].value else savedValue
    }

    // Every movement ends with the iterator at entry r of the run, or invalid when r is no entry.
    ghost predicate StandsAt(r: int)
      reads this
    {
      if 0 <= r < |Es()| then valid && at == r else !valid
    }

    // An entry of lo .. hi does not parse.
    ghost predicate Garbage(lo: int, hi: int) { exists j :: 0 <= j < |Es()| && lo <= j <= hi && !Es()[j].Parses() }

    // There is nothing beyond either end.
    lemma GarbageEnds(k: int)
      ensures Garbage(k, |Es()|) <==> Garbage(k, |Es()| - 1)
      ensures Garbage(-1, k) <==> Garbage(0, k)
    {
    }

    lemma NoGarbage(lo: int, hi: int)
      requires hi < lo
      ensures !Garbage(lo, hi)
    {
    }

    lemma GarbageSteps(lo: int, hi: int, p: int)
      requires 0 <= p < |Es()|
      ensures p == hi && lo <= p ==> (Garbage(lo, hi) <==> Garbage(lo, hi - 1) || !Es()[p].Parses())
      ensures p == lo && p <= hi ==> (Garbage(lo, hi) <==> Garbage(lo + 1, hi) || !Es()[p].Parses())
    {
    }

    // The status is an error from then on, and only because of such an entry.
    ghost predicate Reports(before: bool)
      reads this
    {
      (before ==> corrupt) && (corrupt ==> before || Garbage(0, |Es()|))
    }

    // FindNextUserEntry: from the current place, to the next yielded entry past `lo`.
    method FindNextUserEntry(skipping: bool, skip: UserKey, ghost lo: int)
      requires iter.Valid() && Sorted(Es()) && -1 <= lo < |Es()|
      requires var sk := if skipping then Some(skip) else None;
               SeenBefore(Es(), sequence, iter.pos, sk) && SkipsRightly(Es(), sequence, iter.pos, lo, sk)
               && CatchingUp(Es(), sequence, iter.pos, lo, sk)
      requires forall j :: lo < j < iter.pos ==> !Yields(Es(), sequence, j)
      requires direction == Forward
      modifies this, iter
      ensures Valid() && StandsAt(NextYield(Es(), sequence, lo + 1)) && direction == Forward
      ensures corrupt <==> old(corrupt) || Garbage(old(iter.pos), iter.pos)
    {
      hide NextYield, SeenBefore, Garbage;
      ghost var es, s, from := Es(), sequence, iter.pos;
      NoGarbage(from, from - 1);
      GarbageEnds(from);
      var hiding: Option<UserKey> := if skipping then Some(skip) else None;
      while iter.Valid()
        invariant iter.pos <= |es| && direction == Forward
        invariant SeenBefore(es, s, iter.pos, hiding) && SkipsRightly(es, s, iter.pos, lo, hiding)
        invariant CatchingUp(es, s, iter.pos, lo, hiding)
        invariant forall j :: lo < j < iter.pos ==> !Yields(es, s, j)
        invariant from <= iter.pos && (corrupt <==> old(corrupt) || Garbage(from, iter.pos - 1))
        decreases |es| - iter.pos
      {
        ghost var p := iter.pos;
        var e := iter.entries[iter.pos];
        GarbageSteps(from, p, p);
        if !e.Parses() { corrupt := true; }
        if e.Parses() && e.key.sequence <= sequence {
          if e.key.kind == kTypeDeletion {
            ScanDeletion(es, s, p, lo);
            hiding := Some(e.key.user);
          } else if hiding.Some? && e.key.user <= hiding.value {
            ScanPast(es, s, p, hiding);
          } else {
            ScanYields(es, s, p, hiding);
            NextYieldIs(es, s, lo + 1, p);
            valid, at := true, p;
            return;
          }
        } else {
          ScanPast(es, s, p, hiding);
        }
        iter.Next();
      }
      NextYieldIs(es, s, lo + 1, |es|);
      valid := false;
    }

    // The loop of FindPrevUserEntry: down to a visible entry of an earlier user key than the last
    // value met, or off the front.
    method ScanBack(ghost top: nat) returns (valueType: ValueType, ghost p: int, ghost t: Option<nat>)
      requires Sorted(Es()) && top <= |Es()| && Below(Es(), sequence, iter.pos, top)
      modifies this`savedKey, this`savedValue, this`corrupt, iter
      ensures iter.pos <= |Es()| && p == (if iter.Valid() then iter.pos else -1)
      ensures ScannedDown(Es(), sequence, p, t, top)
      ensures valueType == if t.Some? then Es()[t.value].key.kind else kTypeDeletion
      ensures valueType != kTypeDeletion ==> savedKey == Es()[t.value].key.user && savedValue == Es()[t.value].value
      ensures iter.Valid() ==> valueType != kTypeDeletion && Es()[p].key.user < savedKey
      ensures corrupt <==> old(corrupt) || Garbage(p, if old(iter.Valid()) then old(iter.pos) else -1)
    {
      hide Garbage;
      ghost var es, s, from := Es(), sequence, if iter.Valid() then iter.pos else -1;
      NoGarbage(from + 1, from);
      GarbageEnds(from);
      p := if iter.Valid() then iter.pos else -1;
      t := None;
      valueType := kTypeDeletion;
      while iter.Valid()
        invariant iter.pos <= |es| && p == if iter.Valid() then iter.pos else -1
        invariant ScannedDown(es, s, p, t, top)
        invariant valueType == if t.Some? then es[t.value].key.kind else kTypeDeletion
        invariant valueType != kTypeDeletion ==> savedKey == es[t.value].key.user && savedValue == es[t.value].value
        invariant p <= from && (corrupt <==> old(corrupt) || Garbage(p + 1, from))
        decreases p
      {
        var e := iter.entries[iter.pos];
        GarbageSteps(p, from, p);
        if !e.Parses() { corrupt := true; }
        if e.Parses() && e.key.sequence <= sequence {
          if valueType != kTypeDeletion && e.key.user < savedKey { return; }
          ScanMeets(es, s, p, t, top);
          t := Some(p);
          valueType := e.key.kind;
          if valueType != kTypeDeletion { savedKey, savedValue := e.key.user, e.value; }
        }
        iter.Prev();
        p := p - 1;
      }
    }

    // FindPrevUserEntry: to the last yielded entry before `top`, everything between the current
    // place and `top` being invisible.
    method FindPrevUserEntry(ghost top: nat)
      requires Sorted(Es()) && direction == Reverse && top <= |Es()| && Below(Es(), sequence, iter.pos, top)
      modifies this, iter
      ensures Valid() && StandsAt(PrevYield(Es(), sequence, top)) && Reports(old(corrupt))
    {
      var valueType;
      ghost var p, t;
      valueType, p, t := ScanBack(top);
      ScanEnds(Es(), sequence, p, t, top);
      if valueType == kTypeDeletion {
        valid, direction := false, Forward;
      } else {
        valid, at := true, t.value;
      }
    }

    method Seek(target: UserKey)
      requires Valid()
      modifies this, iter
      ensures Valid() && StandsAt(SeekYield(Es(), sequence, target)) && Reports(old(corrupt))
    {
      direction := Forward;
      iter.Seek(SeekKey(target, sequence));
      ghost var p := iter.pos;
      SoughtRightly(Es(), sequence, target, p);
      if iter.Valid() {
        FindNextUserEntry(false, target, p - 1 as int);
      } else {
        valid := false;
      }
    }

    method SeekToFirst()
      requires Valid()
      modifies this, iter
      ensures Valid() && StandsAt(NextYield(Es(), sequence, 0)) && Reports(old(corrupt))
    {
      direction := Forward;
      iter.SeekToFirst();
      if iter.Valid() {
        FindNextUserEntry(false, 0.0, -1);
      } else {
        valid := false;
      }
    }

    method SeekToLast()
      requires Valid()
      modifies this, iter
      ensures Valid() && StandsAt(PrevYield(Es(), sequence, |Es()|)) && Reports(old(corrupt))
    {
      direction := Reverse;
      iter.SeekToLast();
      FindPrevUserEntry(|Es()|);
    }

    method Next()
      requires Valid() && valid
      modifies this, iter
      ensures Valid() && StandsAt(NextYield(Es(), sequence, old(at) + 1)) && Reports(old(corrupt))
    {
      ghost var es, s, lo := Es(), sequence, at;
      if direction == Reverse {
        direction := Forward;
        // iter is before the entries for savedKey: advance into them and skip past them
        ghost var q := iter.pos;
        if !iter.Valid() { iter.SeekToFirst(); } else { iter.Next(); }
        ResumeSkips(es, s, q, iter.pos, lo);
      } else {
        savedKey := iter.Key().user;
        iter.Next();
        ScanDeletion(es, s, lo, lo);
      }
      if !iter.Valid() {
        NextYieldIs(es, s, lo + 1, |es|);
        valid := false;
        return;
      }
      FindNextUserEntry(true, savedKey, lo);
    }

    method Prev()
      requires Valid() && valid
      modifies this, iter
      ensures Valid() && StandsAt(PrevYield(Es(), sequence, old(at))) && Reports(old(corrupt))
    {
      ghost var es, s, hi := Es(), sequence, at;
      if direction == Forward {
        savedKey := iter.Key().user;
        while true
          invariant direction == Forward && iter.pos <= hi && savedKey == es[hi].key.user && corrupt == old(corrupt)
          invariant forall j :: iter.pos <= j <= hi ==> es[j].key.user == es[hi].key.user
          decreases iter.pos
        {
          ghost var p := iter.pos;
          UsersAscend(es, p, hi);
          iter.Prev();
          if !iter.Valid() {
            PrevYieldIs(es, s, hi, -1);
            valid := false;
            return;
          }
          UsersAscend(es, p - 1, hi);
          if iter.Key().user < savedKey { break; }
        }
        PrevYieldSkips(es, s, iter.pos + 1, hi);
        direction := Reverse;
        FindPrevUserEntry(iter.pos + 1);
      } else {
        PrevYieldSkips(es, s, GroupStart(es, hi), hi);
        FindPrevUserEntry(GroupStart(es, hi));
      }
    }
  }

  // In reverse the inner iterator has passed the group of the current key, and no visible entry
  // lies between the two.
  ghost predicate BackedOff(es: seq<Entry>, s: nat, p: nat, at: nat)
    requires at < |es|
  {
    && p <= |es|
    && (p < |es| ==> es[p].key.user < es[at].key.user)
    && forall j :: 0 <= j < |es| && (p == |es| || p < j) && es[j].key.user < es[at].key.user ==> !Visible(es[j], s)
  }

  ghost predicate Below(es: seq<Entry>, s: nat, p: nat, top: nat)
    requires top <= |es|
  {
    && p <= |es|
    && (p < |es| ==> p < top)
    && forall j :: 0 <= j < top && (p == |es| || p < j) ==> !Visible(es[j], s)
  }

  // First index holding the user key of entry `at`.
  ghost function GroupStart(es: seq<Entry>, at: nat): (g: nat)
    requires Sorted(es) && at < |es|
    ensures g <= at && es[g].key.user == es[at].key.user
    ensures forall j :: 0 <= j < g ==> es[j].key.user < es[at].key.user
  {
    if at > 0 && es[at - 1].key.user == es[at].key.user then GroupStart(es, at - 1)
    else
      assert forall j :: 0 <= j < at ==> es[j].key.user < es[at].key.user by {
        forall j | 0 <= j < at ensures es[j].key.user < es[at].key.user {
          UsersAscend(es, j, at - 1);
          SortedAt(es, at - 1, at);
        }
      }
      at
  }

  // The group of a yielded entry holds no other yielded entry before it.
  lemma PrevYieldSkips(es: seq<Entry>, s: nat, g: nat, hi: nat)
    requires Sorted(es) && g <= hi && Yields(es, s, hi)
    requires forall j :: g <= j <= hi ==> es[j].key.user == es[hi].key.user
    ensures PrevYield(es, s, g) == PrevYield(es, s, hi)
  {
    PrevYieldIs(es, s, hi, PrevYield(es, s, g));
  }

  // Coming out of reverse, everything before the new place has a smaller user key.
  lemma ResumeSkips(es: seq<Entry>, s: nat, q: nat, p: nat, at: nat)
    requires Sorted(es) && Yields(es, s, at) && BackedOff(es, s, q, at)
    requires p == if q == |es| then 0 else q + 1
    ensures p <= at
    ensures SeenBefore(es, s, p, Some(es[at].key.user)) && SkipsRightly(es, s, p, at, Some(es[at].key.user))
    ensures CatchingUp(es, s, p, at, Some(es[at].key.user))
  {
    if q < |es| && at <= q { UsersAscend(es, at, q); }
    forall j | p <= j < at ensures !Visible(es[j], s) { UsersAscend(es, j, at); }
    forall j | 0 <= j < p ensures es[j].key.user <= es[at].key.user { UsersAscend(es, j, at); }
    forall i | at < i < |es| && es[i].key.user <= es[at].key.user ensures !Yields(es, s, i) { UsersAscend(es, at, i); }
  }

  lemma LowerBoundUnique(es: seq<Entry>, k: InternalKey, p: nat, q: nat)
    requires IsLowerBound(es, k, p) && IsLowerBound(es, k, q)
    ensures p == q
  {
    var i := if p < q then p else q;
    var before := i < |es| && es[i].key.Before(k);
  }

  lemma SoughtRightly(es: seq<Entry>, s: nat, target: UserKey, p: nat)
    requires Sorted(es) && IsLowerBound(es, SeekKey(target, s), p)
    ensures SeenBefore(es, s, p, None)
    ensures SeekYield(es, s, target) == NextYield(es, s, p)
  {
    var q := LowerBoundOf(es, SeekKey(target, s));
    LowerBoundUnique(es, SeekKey(target, s), p, q);
  }

  // SeekYield is the first yielded entry with a user key at or after the target.
  lemma SeekYieldMeaning(es: seq<Entry>, s: nat, target: UserKey, i: nat)
    requires Sorted(es) && Yields(es, s, i)
    ensures es[i].key.user < target <==> i < SeekYield(es, s, target)
  {
    var p := LowerBoundOf(es, SeekKey(target, s));
    var r := SeekYield(es, s, target);
  }

  // Seek yields the first entry whose user key is at or after the target.
  ghost function SeekYield(es: seq<Entry>, s: nat, target: UserKey): nat
    requires Sorted(es)
  {
    NextYield(es, s, LowerBoundOf(es, SeekKey(target, s)))
  }
}
