/** What a read means, independently of how the entries are stored.

    `IsNewest` says which entry a set of entries holds for a user key at a snapshot; `HistoryRead`
    is the reference: the plain list of every operation ever written, numbered from 1.
*/
module Reads {
  import opened Keys

  ghost predicate Candidate(e: Entry, user: UserKey, s: nat) {
    e.Parses() && e.key.user == user && e.key.sequence <= s
  }

  // r is the newest entry of `user` at or below snapshot `s` among `all`, if there is one.
  ghost predicate IsNewest(all: set<Entry>, user: UserKey, s: nat, r: Option<Entry>) {
    match r
    case None => forall e :: e in all ==> !Candidate(e, user, s)
    case Some(n) =>
      && n in all
      && Candidate(n, user, s)
      && forall e :: e in all && Candidate(e, user, s) ==> e.key.Tag() <= n.key.Tag()
  }

  // What the caller of a read sees: deletion and absence both mean "not found".
  function Outcome(r: Option<Entry>): Option<Bytes> {
    if r.Some? && r.value.key.kind == kTypeValue then Some(r.value.value) else None
  }

  ghost predicate ReadsAs(all: set<Entry>, user: UserKey, s: nat, v: Option<Bytes>) {
    exists r :: IsNewest(all, user, s, r) && Outcome(r) == v
  }

  // One user operation; operation number i (from 1) carries sequence number i.
  datatype Op = Op(user: UserKey, kind: ValueType, value: Bytes)

  function HistoryRead(h: seq<Op>, user: UserKey, s: nat): Option<Bytes>
    requires s <= |h|
  {
    if s == 0 then None
    else if h[s - 1].user == user then
      (if h[s - 1].kind == kTypeValue then Some(h[s - 1].value) else None)
    else HistoryRead(h, user, s - 1)
  }

  // e is operation number e.key.sequence of the history.
  ghost predicate Recorded(h: seq<Op>, e: Entry) {
    && 1 <= e.key.sequence <= |h|
    && h[e.key.sequence - 1] == Op(e.key.user, e.key.kind, e.value)
  }

  ghost predicate AllRecorded(h: seq<Op>, all: set<Entry>) {
    forall e :: e in all ==> Recorded(h, e)
  }

  function EntryOf(h: seq<Op>, s: nat): Entry
    requires 1 <= s <= |h|
  {
    Entry(InternalKey(h[s - 1].user, s, h[s - 1].kind), h[s - 1].value)
  }

  // Sequence number of the last operation on `user` at or below s; 0 when there is none.
  function LastOp(h: seq<Op>, user: UserKey, s: nat): (n: nat)
    requires s <= |h|
    ensures n <= s
    ensures n > 0 ==> h[n - 1].user == user
    ensures forall i :: n <= i < s ==> h[i].user != user
    ensures HistoryRead(h, user, s) == if n == 0 then None else Outcome(Some(EntryOf(h, n)))
  {
    if s == 0 then 0
    else if h[s - 1].user == user then s
    else LastOp(h, user, s - 1)
  }
}
