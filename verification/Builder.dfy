/** VersionSet::Builder (db/version_set.cc): accumulating version edits and saving the result. */
module Builder {
  import opened Keys
  import opened Versions

  datatype VersionEdit = VersionEdit(deleted: set<(nat, nat)>, added: seq<(nat, File)>) {
    ghost predicate Valid() {
      && (forall d :: d in deleted ==> d.0 < kNumLevels)
      && (forall i :: 0 <= i < |added| ==> added[i].0 < kNumLevels && added[i].1.entries != [])
    }

    ghost function AddedAt(l: nat): set<File> { set a | a in added && a.0 == l :: a.1 }
    ghost function DeletedAt(l: nat): set<nat> { set d | d in deleted && d.0 == l :: d.1 }
  }

  // BySmallestKey
  predicate Less(f: File, g: File)
    requires f.entries != [] && g.entries != []
  {
    f.Smallest().Before(g.Smallest()) || (f.Smallest() == g.Smallest() && f.number < g.number)
  }

  ghost predicate NonEmptyFiles(files: seq<File>) {
    forall i :: 0 <= i < |files| ==> files[i].entries != []
  }

  ghost predicate Ascending(files: seq<File>) {
    NonEmptyFiles(files) && forall i, j :: 0 <= i < j < |files| ==> Less(files[i], files[j])
  }

  ghost function FileSet(files: seq<File>): set<File> { set f | f in files }
  ghost function Numbers(files: set<File>): set<nat> { set f | f in files :: f.number }

  // Two ascending lists of the same files are the same list.
  lemma {:induction false} AscendingUnique(a: seq<File>, b: seq<File>)
    requires Ascending(a) && Ascending(b) && FileSet(a) == FileSet(b)
    ensures a == b
  {
    if a == [] || b == [] {
      EmptyList(a);
      EmptyList(b);
    } else {
      assert a[0] in FileSet(b) && b[0] in FileSet(a);
      var i :| 0 <= i < |b| && b[i] == a[0];
      var j :| 0 <= j < |a| && a[j] == b[0];
      assert a[0] == b[0];
      TailSet(a);
      TailSet(b);
      AscendingUnique(a[1..], b[1..]);
      assert a == [a[0]] + a[1..] && b == [b[0]] + b[1..];
    }
  }

  lemma EmptyList(a: seq<File>)
    ensures a == [] <==> FileSet(a) == {}
  {
    if a != [] { assert a[0] in FileSet(a); }
  }

  lemma TailSet(a: seq<File>)
    requires Ascending(a) && a != []
    ensures FileSet(a[1..]) == FileSet(a) - {a[0]}
  {
    forall f | f in FileSet(a) - {a[0]} ensures f in FileSet(a[1..]) {
      var i :| 0 <= i < |a| && a[i] == f;
      assert a[1..][i - 1] == f;
    }
    forall f | f in FileSet(a[1..]) ensures f in FileSet(a) - {a[0]} {
      var i :| 0 <= i < |a| - 1 && a[1..][i] == f;
      assert a[i + 1] == f;
    }
  }

  // std::set insertion into the added files of a level.
  function Insert(files: seq<File>, f: File): (r: seq<File>)
    requires Ascending(files) && f.entries != []
    ensures Ascending(r)
    ensures FileSet(files) <= FileSet(r) <= FileSet(files) + {f}
    ensures (forall g :: g in files ==> g.number != f.number) ==> FileSet(r) == FileSet(files) + {f}
  {
    InsertAt(files, f, |files|)
  }

  // Insert f into the first p files; the rest is known to come after it.
  function InsertAt(files: seq<File>, f: File, p: nat): (r: seq<File>)
    requires Ascending(files) && f.entries != [] && p <= |files|
    requires forall i :: p <= i < |files| ==> Less(f, files[i])
    ensures Ascending(r)
    ensures FileSet(files) <= FileSet(r) <= FileSet(files) + {f}
    ensures (forall g :: g in files ==> g.number != f.number) ==> FileSet(r) == FileSet(files) + {f}
  {
    if p > 0 && Less(f, files[p - 1]) then InsertAt(files, f, p - 1)
    else if p > 0 && !Less(files[p - 1], f) then
      assert files[p - 1] in files && files[p - 1].number == f.number;
      files
    else
      SpliceAscends(files, f, p);
      files[..p] + [f] + files[p..]
  }

  lemma SpliceAscends(files: seq<File>, f: File, p: nat)
    requires Ascending(files) && f.entries != [] && p <= |files|
    requires forall i :: p <= i < |files| ==> Less(f, files[i])
    requires p > 0 ==> Less(files[p - 1], f)
    ensures var r := files[..p] + [f] + files[p..]; Ascending(r) && FileSet(r) == FileSet(files) + {f}
  {
    var r := files[..p] + [f] + files[p..];
    hide Less;
    forall i | 0 <= i < p ensures Less(files[i], f) {
      if i < p - 1 { LessTransitive(files[i], files[p - 1], f); }
    }
    SpliceSet(files, f, p);
  }

  lemma SpliceSet(files: seq<File>, f: File, p: nat)
    requires p <= |files|
    ensures FileSet(files[..p] + [f] + files[p..]) == FileSet(files) + {f}
  {
    assert files == files[..p] + files[p..];
  }

  lemma LessTransitive(f: File, g: File, h: File)
    requires f.entries != [] && g.entries != [] && h.entries != [] && Less(f, g) && Less(g, h)
    ensures Less(f, h)
  {
  }

  // levels_[l]: the deleted numbers and the added files of one level.
  datatype LevelState = LevelState(deleted: set<nat>, added: seq<File>) {
    ghost predicate Valid() { Ascending(added) }

    function Add(f: File): (r: LevelState)
      requires Valid() && f.entries != []
      ensures r.Valid()
    {
      LevelState(deleted - {f.number}, Insert(added, f))
    }
  }

  // The files a level would be saved with.
  ghost function Live(base: set<File>, st: LevelState): set<File> {
    set f | f in base + FileSet(st.added) && f.number !in st.deleted
  }

  ghost function AddAll(st: LevelState, l: nat, adds: seq<(nat, File)>): (r: LevelState)
    requires st.Valid() && forall i :: 0 <= i < |adds| ==> adds[i].1.entries != []
    ensures r.Valid()
  {
    if adds == [] then st
    else
      var a := adds[|adds| - 1];
      var r := AddAll(st, l, adds[..|adds| - 1]);
      if a.0 == l then r.Add(a.1) else r
  }

  ghost function ApplyLevel(st: LevelState, l: nat, edit: VersionEdit): (r: LevelState)
    requires st.Valid() && edit.Valid()
    ensures r.Valid()
  {
    AddAll(LevelState(st.deleted + edit.DeletedAt(l), st.added), l, edit.added)
  }

  // No file number is used twice at level l, by the files met so far and by these additions.
  ghost predicate FreshNumbers(seen: set<File>, l: nat, adds: seq<(nat, File)>) {
    && (forall i, f :: 0 <= i < |adds| && adds[i].0 == l && f in seen ==> adds[i].1.number != f.number)
    && (forall i, j :: 0 <= i < j < |adds| && adds[i].0 == l && adds[j].0 == l ==>
          adds[i].1.number != adds[j].1.number)
  }

  lemma {:induction false} AddAllEffect(seen: set<File>, st: LevelState, l: nat, adds: seq<(nat, File)>)
    requires st.Valid() && forall i :: 0 <= i < |adds| ==> adds[i].1.entries != []
    requires FileSet(st.added) <= seen && FreshNumbers(seen, l, adds)
    ensures var r, a := AddAll(st, l, adds), VersionEdit({}, adds).AddedAt(l);
            FileSet(r.added) == FileSet(st.added) + a && r.deleted == st.deleted - Numbers(a)
  {
    hide Less, Ascending, LevelState.Add, FreshNumbers, FileSet;
    if adds != [] {
      var init, last := adds[..|adds| - 1], adds[|adds| - 1];
      assert adds == init + [last];
      FreshInit(seen, l, init, last);
      AddedGrows(l, init, last);
      AddAllEffect(seen, st, l, init);
      if last.0 == l { AddEffect(AddAll(st, l, init), last.1); }
    }
  }

  lemma FreshInit(seen: set<File>, l: nat, init: seq<(nat, File)>, last: (nat, File))
    requires FreshNumbers(seen, l, init + [last])
    ensures FreshNumbers(seen, l, init)
    ensures last.0 == l ==> forall f :: f in seen + VersionEdit({}, init).AddedAt(l) ==> f.number != last.1.number
  {
    var adds := init + [last];
    assert forall i :: 0 <= i < |init| ==> adds[i] == init[i];
    assert adds[|init|] == last;
    if last.0 == l {
      forall f | f in VersionEdit({}, init).AddedAt(l) ensures f.number != last.1.number {
        var i :| 0 <= i < |init| && init[i].0 == l && init[i].1 == f;
        assert adds[i] == init[i];
      }
    }
  }

  lemma AddEffect(st: LevelState, f: File)
    requires st.Valid() && f.entries != [] && forall g :: g in FileSet(st.added) ==> g.number != f.number
    ensures FileSet(st.Add(f).added) == FileSet(st.added) + {f} && st.Add(f).deleted == st.deleted - {f.number}
  {
    assert forall g :: g in st.added ==> g in FileSet(st.added);
  }

  lemma AddedGrows(l: nat, init: seq<(nat, File)>, last: (nat, File))
    ensures var a, b := VersionEdit({}, init + [last]).AddedAt(l), VersionEdit({}, init).AddedAt(l);
            a == (if last.0 == l then b + {last.1} else b)
            && Numbers(a) == (if last.0 == l then Numbers(b) + {last.1.number} else Numbers(b))
  {
    assert last in init + [last];
    var a, b := VersionEdit({}, init + [last]).AddedAt(l), VersionEdit({}, init).AddedAt(l);
    assert a == if last.0 == l then b + {last.1} else b;
  }

  // What one edit does to the files of a level: remove the deleted numbers, add the new files.
  lemma ApplyEffect(base: set<File>, st: LevelState, l: nat, edit: VersionEdit)
    requires st.Valid() && edit.Valid()
    requires FreshNumbers(base + FileSet(st.added), l, edit.added)
    ensures Live(base, ApplyLevel(st, l, edit))
         == (set f | f in Live(base, st) && f.number !in edit.DeletedAt(l)) + edit.AddedAt(l)
  {
    var mid := LevelState(st.deleted + edit.DeletedAt(l), st.added);
    AddAllEffect(base + FileSet(st.added), mid, l, edit.added);
    assert VersionEdit({}, edit.added).AddedAt(l) == edit.AddedAt(l);
  }

  class Builder {
    const base: seq<seq<File>>                   // files of base_
    var levels: seq<LevelState>

    constructor (base: seq<seq<File>>)
      requires |base| == kNumLevels && forall l :: 0 <= l < kNumLevels ==> Ascending(base[l])
      ensures Valid() && this.base == base
      ensures levels == seq(kNumLevels, _ => LevelState({}, []))
    {
      this.base := base;
      levels := seq(kNumLevels, _ => LevelState({}, []));
    }

    ghost predicate Valid()
      reads this
    {
      && |base| == kNumLevels && |levels| == kNumLevels
      && forall l :: 0 <= l < kNumLevels ==> Ascending(base[l]) && levels[l].Valid()
    }

    method Apply(edit: VersionEdit)
      requires Valid() && edit.Valid()
      modifies this
      ensures Valid()
      ensures forall l :: 0 <= l < kNumLevels ==> levels[l] == ApplyLevel(old(levels[l]), l, edit)
    {
      ghost var start := levels;
      var l := 0;
      while l < kNumLevels
        invariant l <= kNumLevels && Valid()
        invariant forall m :: 0 <= m < kNumLevels ==>
                    levels[m] == if m < l then LevelState(start[m].deleted + edit.DeletedAt(m), start[m].added) else start[m]
      {
        levels := levels[l := LevelState(levels[l].deleted + set d | d in edit.deleted && d.0 == l :: d.1, levels[l].added)];
        l := l + 1;
      }
      ghost var mid := levels;
      for i := 0 to |edit.added|
        invariant Valid()
        invariant forall m :: 0 <= m < kNumLevels ==> levels[m] == AddAll(mid[m], m, edit.added[..i])
      {
        var (lvl, f) := edit.added[i];
        assert edit.added[..i + 1][..i] == edit.added[..i];
        levels := levels[lvl := levels[lvl].Add(f)];
      }
      assert edit.added[..|edit.added|] == edit.added;
    }

    // Builder::SaveTo
    method SaveTo() returns (v: seq<seq<File>>)
      requires Valid()
      requires forall l :: 0 <= l < kNumLevels ==> DisjointNumbers(base[l], levels[l].added)
      ensures |v| == kNumLevels
      ensures forall l :: 0 <= l < kNumLevels ==> Ascending(v[l]) && FileSet(v[l]) == Live(FileSet(base[l]), levels[l])
    {
      v := [];
      for l := 0 to kNumLevels
        invariant |v| == l
        invariant forall m :: 0 <= m < l ==> Ascending(v[m]) && FileSet(v[m]) == Live(FileSet(base[m]), levels[m])
      {
        var files := MergeLevel(base[l], levels[l].added, levels[l].deleted);
        v := v + [files];
      }
    }
  }

  ghost predicate DisjointNumbers(a: seq<File>, b: seq<File>) {
    forall i, j :: 0 <= i < |a| && 0 <= j < |b| ==> a[i].number != b[j].number
  }

  // MaybeAddFile
  function MaybeAdd(files: seq<File>, f: File, deleted: set<nat>): (r: seq<File>)
    ensures FileSet(r) == FileSet(files) + if f.number in deleted then {} else {f}
    ensures forall g :: g in r ==> g in files || g == f
  {
    assert forall g :: g in files + [f] <==> g in files || g == f;
    if f.number in deleted then files else files + [f]
  }

  lemma MaybeAddAscends(files: seq<File>, f: File, deleted: set<nat>)
    requires Ascending(files) && f.entries != [] && forall g :: g in files ==> g.entries != [] && Less(g, f)
    ensures Ascending(MaybeAdd(files, f, deleted))
    ensures forall g: File, h: File :: h.entries != [] && Less(f, h) && g in MaybeAdd(files, f, deleted) ==> g.entries != [] && Less(g, h)
  {
    forall i | 0 <= i < |files| ensures Less(files[i], f) { assert files[i] in files; }
  }

  // The live files among the first i of base and the first j of added.
  ghost function LiveOf(base: seq<File>, i: nat, added: seq<File>, j: nat, deleted: set<nat>): set<File>
    requires i <= |base| && j <= |added|
  {
    set f | f in FileSet(base[..i]) + FileSet(added[..j]) && f.number !in deleted
  }

  // One level of SaveTo: merge the added files into the base files, dropping deleted ones.
  method MergeLevel(base: seq<File>, added: seq<File>, deleted: set<nat>) returns (files: seq<File>)
    requires Ascending(base) && Ascending(added) && DisjointNumbers(base, added)
    ensures Ascending(files) && FileSet(files) == Live(FileSet(base), LevelState(deleted, added))
  {
    hide LiveOf, MaybeAdd, Less;
    files := [];
    var b := 0;
    LiveNone(base, added, deleted);
    assert Ascending([]);
    for a := 0 to |added|
      invariant b <= |base| && Ascending(files) && FileSet(files) == LiveOf(base, b, added, a, deleted)
      invariant forall g :: g in files && a < |added| ==> Less(g, added[a])
      invariant forall g :: g in files && b < |base| ==> Less(g, base[b])
    {
      while b < |base| && !Less(added[a], base[b])   // up to std::upper_bound
        invariant b <= |base| && Ascending(files) && FileSet(files) == LiveOf(base, b, added, a, deleted)
        invariant forall g :: g in files ==> Less(g, added[a])
        invariant forall g :: g in files && b < |base| ==> Less(g, base[b])
      {
        MaybeAddAscends(files, base[b], deleted);
        LiveStep(base, b, added, a, deleted);
        LessOrder(added[a], base[b]);
        assert b + 1 < |base| ==> Less(base[b], base[b + 1]);
        files := MaybeAdd(files, base[b], deleted);
        b := b + 1;
      }
      if b < |base| { LessOrder(base[b], added[a]); }
      assert a + 1 < |added| ==> Less(added[a], added[a + 1]);
      MaybeAddAscends(files, added[a], deleted);
      LiveStep(base, b, added, a, deleted);
      files := MaybeAdd(files, added[a], deleted);
    }
    while b < |base|
      invariant b <= |base| && Ascending(files) && FileSet(files) == LiveOf(base, b, added, |added|, deleted)
      invariant forall g :: g in files && b < |base| ==> Less(g, base[b])
    {
      assert b + 1 < |base| ==> Less(base[b], base[b + 1]);
      MaybeAddAscends(files, base[b], deleted);
      LiveStep(base, b, added, |added|, deleted);
      files := MaybeAdd(files, base[b], deleted);
      b := b + 1;
    }
    LiveAll(base, added, deleted);
  }

  lemma LessOrder(f: File, g: File)
    requires f.entries != [] && g.entries != [] && f.number != g.number
    ensures Less(f, g) <==> !Less(g, f)
  {
  }

  lemma LiveNone(base: seq<File>, added: seq<File>, deleted: set<nat>)
    ensures LiveOf(base, 0, added, 0, deleted) == {} == FileSet([])
  {
  }

  lemma LiveAll(base: seq<File>, added: seq<File>, deleted: set<nat>)
    ensures LiveOf(base, |base|, added, |added|, deleted) == Live(FileSet(base), LevelState(deleted, added))
  {
    assert base[..|base|] == base && added[..|added|] == added;
  }

  lemma LiveStep(base: seq<File>, i: nat, added: seq<File>, j: nat, deleted: set<nat>)
    requires i <= |base| && j <= |added|
    ensures i < |base| ==>
              LiveOf(base, i + 1, added, j, deleted)
              == LiveOf(base, i, added, j, deleted) + if base[i].number in deleted then {} else {base[i]}
    ensures j < |added| ==>
              LiveOf(base, i, added, j + 1, deleted)
              == LiveOf(base, i, added, j, deleted) + if added[j].number in deleted then {} else {added[j]}
  {
    if i < |base| { assert base[..i + 1] == base[..i] + [base[i]]; }
    if j < |added| { assert added[..j + 1] == added[..j] + [added[j]]; }
  }
}
