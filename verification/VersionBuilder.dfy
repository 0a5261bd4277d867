// Building a version from edits (VersionSet::Builder in db/version_set.cc).
module VersionBuilder {
  import opened DbFormat
  import opened Coding
  import opened VersionEdit

  // The place of an encoded internal key in the comparator's order.
  type Order = Bytes -> real

  // BySmallestKey.
  predicate Smaller(order: Order, f: Meta, g: Meta) {
    order(f.smallest) < order(g.smallest) || (order(f.smallest) == order(g.smallest) && f.number < g.number)
  }

  predicate Sorted(order: Order, fs: seq<Meta>) {
    forall i, j :: 0 <= i < j < |fs| ==> Smaller(order, fs[i], fs[j])
  }

  // Insertion into a set sorted by smallest key; an equal file is already there.
  function InsertMeta(order: Order, fs: seq<Meta>, f: Meta): (r: seq<Meta>)
    ensures forall g :: g in r ==> g in fs || g == f
  {
    if fs == [] then [f]
    else if Smaller(order, f, fs[0]) then [f] + fs
    else if Smaller(order, fs[0], f) then [fs[0]] + InsertMeta(order, fs[1..], f)
    else fs
  }

  // ---------- One level ----------

  // What the builder has collected for a level.
  datatype LevelState = LevelState(deleted: set<Word64>, added: seq<Meta>)

  const NO_CHANGE: LevelState := LevelState({}, [])

  function DeleteNumbers(s: LevelState, numbers: seq<Word64>): LevelState {
    if numbers == [] then s
    else
      var before := DeleteNumbers(s, numbers[..|numbers| - 1]);
      before.(deleted := before.deleted + {numbers[|numbers| - 1]})
  }

  function AddMeta(order: Order, s: LevelState, f: Meta): LevelState {
    LevelState(s.deleted - {f.number}, InsertMeta(order, s.added, f))
  }

  function AddMetas(order: Order, s: LevelState, fs: seq<Meta>): LevelState {
    if fs == [] then s else AddMeta(order, AddMetas(order, s, fs[..|fs| - 1]), fs[|fs| - 1])
  }

  function ApplyToLevel(order: Order, s: LevelState, numbers: seq<Word64>, fs: seq<Meta>): LevelState {
    AddMetas(order, DeleteNumbers(s, numbers), fs)
  }

  // The base files and the added files in one order.
  function Merged(order: Order, base: seq<Meta>, added: seq<Meta>): seq<Meta>
    decreases |base| + |added|
  {
    if added == [] then base
    else if base != [] && !Smaller(order, added[0], base[0]) then [base[0]] + Merged(order, base[1..], added)
    else [added[0]] + Merged(order, base, added[1..])
  }

  function Kept(fs: seq<Meta>, deleted: set<Word64>): (r: seq<Meta>)
    ensures forall f :: f in r <==> f in fs && f.number !in deleted
  {
    if fs == [] then []
    else
      assert fs == [fs[0]] + fs[1..];
      (if fs[0].number in deleted then [] else [fs[0]]) + Kept(fs[1..], deleted)
  }

  // What SaveTo writes for a level.
  function Saved(order: Order, base: seq<Meta>, s: LevelState): seq<Meta> {
    Kept(Merged(order, base, s.added), s.deleted)
  }

  method UpperBound(order: Order, fs: seq<Meta>, from: nat, f: Meta) returns (pos: nat)
    requires from <= |fs| && Sorted(order, fs)
    ensures from <= pos <= |fs|
    ensures forall i :: from <= i < pos ==> !Smaller(order, f, fs[i])
    ensures pos < |fs| ==> Smaller(order, f, fs[pos])
  {
    var left := from;
    pos := |fs|;
    while left < pos
      invariant from <= left <= pos <= |fs|
      invariant forall i :: from <= i < left ==> !Smaller(order, f, fs[i])
      invariant pos < |fs| ==> Smaller(order, f, fs[pos])
    {
      var mid := (left + pos) / 2;
      if Smaller(order, f, fs[mid]) {
        pos := mid;
      } else {
        forall i | from <= i < mid + 1 ensures !Smaller(order, f, fs[i]) {
          if i < mid { assert Smaller(order, fs[i], fs[mid]); }
        }
        left := mid + 1;
      }
    }
  }

  // The files written so far and those that the merge has still to bring make up the level.
  ghost predicate Pending(order: Order, base: seq<Meta>, b: nat, s: LevelState, i: nat, files: seq<Meta>)
    requires b <= |base| && i <= |s.added|
  {
    files + Kept(Merged(order, base[b..], s.added[i..]), s.deleted) == Saved(order, base, s)
  }

  // One level of SaveTo: the base files before each added one, the added one, and the
  // base files that remain, all without the deleted ones.
  method SaveLevel(order: Order, base: seq<Meta>, s: LevelState) returns (files: seq<Meta>)
    requires Sorted(order, base)
    ensures files == Saved(order, base, s)
  {
    hide Pending, Saved, Smaller, Sorted;
    files := [];
    var b := 0;
    AllPending(order, base, s);
    for i := 0 to |s.added|
      invariant b <= |base| && Pending(order, base, b, s, i, files)
    {
      var pos := UpperBound(order, base, b, s.added[i]);
      while b < pos
        invariant b <= pos && Pending(order, base, b, s, i, files)
      {
        MergeTakesBase(order, base, b, s, i, files);
        files := MaybeAddFile(files, base[b], s.deleted);
        b := b + 1;
      }
      MergeTakesAdded(order, base, b, s, i, files);
      files := MaybeAddFile(files, s.added[i], s.deleted);
    }
    while b < |base|
      invariant b <= |base| && Pending(order, base, b, s, |s.added|, files)
    {
      MergeTakesRest(order, base, b, s, files);
      files := MaybeAddFile(files, base[b], s.deleted);
      b := b + 1;
    }
    NothingPending(order, base, s, files);
  }

  lemma AllPending(order: Order, base: seq<Meta>, s: LevelState)
    ensures Pending(order, base, 0, s, 0, [])
  {
    assert base[0..] == base && s.added[0..] == s.added;
  }

  lemma NothingPending(order: Order, base: seq<Meta>, s: LevelState, files: seq<Meta>)
    requires Pending(order, base, |base|, s, |s.added|, files)
    ensures files == Saved(order, base, s)
  {
    assert files + [] == files;
  }

  method MaybeAddFile(files: seq<Meta>, f: Meta, deleted: set<Word64>) returns (r: seq<Meta>)
    ensures r == files + Unless(deleted, f)
  {
    r := files;
    if f.number !in deleted {
      r := r + [f];
    }
  }

  function Unless(deleted: set<Word64>, f: Meta): seq<Meta> {
    if f.number in deleted then [] else [f]
  }

  lemma KeptFirst(f: Meta, rest: seq<Meta>, deleted: set<Word64>, files: seq<Meta>)
    ensures files + Kept([f] + rest, deleted) == (files + Unless(deleted, f)) + Kept(rest, deleted)
  {
    assert ([f] + rest)[1..] == rest;
  }

  lemma MergeTakesBase(order: Order, base: seq<Meta>, b: nat, s: LevelState, i: nat, files: seq<Meta>)
    requires b < |base| && i < |s.added| && Pending(order, base, b, s, i, files)
    requires !Smaller(order, s.added[i], base[b])
    ensures Pending(order, base, b + 1, s, i, files + Unless(s.deleted, base[b]))
  {
    assert base[b..][1..] == base[b + 1..];
    KeptFirst(base[b], Merged(order, base[b + 1..], s.added[i..]), s.deleted, files);
  }

  lemma MergeTakesAdded(order: Order, base: seq<Meta>, b: nat, s: LevelState, i: nat, files: seq<Meta>)
    requires b <= |base| && i < |s.added| && Pending(order, base, b, s, i, files)
    requires b < |base| ==> Smaller(order, s.added[i], base[b])
    ensures Pending(order, base, b, s, i + 1, files + Unless(s.deleted, s.added[i]))
  {
    assert s.added[i..][1..] == s.added[i + 1..];
    KeptFirst(s.added[i], Merged(order, base[b..], s.added[i + 1..]), s.deleted, files);
  }

  lemma MergeTakesRest(order: Order, base: seq<Meta>, b: nat, s: LevelState, files: seq<Meta>)
    requires b < |base| && Pending(order, base, b, s, |s.added|, files)
    ensures Pending(order, base, b + 1, s, |s.added|, files + Unless(s.deleted, base[b]))
  {
    assert base[b..] == [base[b]] + base[b + 1..];
    KeptFirst(base[b], base[b + 1..], s.deleted, files);
  }

  // ---------- One builder for many edits ----------

  predicate HasNumber(fs: seq<Meta>, n: Word64) {
    exists f :: f in fs && f.number == n
  }

  // Different files have different numbers.
  predicate Numbered(fs: seq<Meta>) {
    forall f, g :: f in fs && g in fs && f.number == g.number ==> f == g
  }

  // The files of the base and the added ones can be told apart by number.
  ghost predicate Distinct(order: Order, base: seq<Meta>, s: LevelState) {
    && Sorted(order, base) && Sorted(order, s.added) && Numbered(base) && Numbered(s.added)
    && (forall f :: f in s.added ==> !HasNumber(base, f.number))
  }

  lemma SmallerIsTotal(order: Order, f: Meta, g: Meta, h: Meta)
    ensures !Smaller(order, f, f)
    ensures f.number != g.number ==> Smaller(order, f, g) || Smaller(order, g, f)
    ensures Smaller(order, f, g) && Smaller(order, g, h) ==> Smaller(order, f, h)
  {
  }

  lemma {:induction false} InsertMembers(order: Order, fs: seq<Meta>, f: Meta)
    requires Sorted(order, fs) && !HasNumber(fs, f.number)
    ensures Sorted(order, InsertMeta(order, fs, f))
    ensures forall g :: g in InsertMeta(order, fs, f) <==> g in fs || g == f
  {
    if fs != [] {
      assert fs == [fs[0]] + fs[1..] && fs[0] in fs;
      SmallerIsTotal(order, f, fs[0], f);
      if Smaller(order, f, fs[0]) {
        forall g | g in fs ensures Smaller(order, f, g) {
          var i :| 0 <= i < |fs| && fs[i] == g;
          if i > 0 { assert Smaller(order, fs[0], fs[i]); }
        }
      } else {
        assert forall g :: g in fs[1..] ==> g in fs;
        InsertMembers(order, fs[1..], f);
        var rest := InsertMeta(order, fs[1..], f);
        forall g | g in rest ensures Smaller(order, fs[0], g) {
          if g != f {
            var i :| 0 <= i < |fs[1..]| && fs[1..][i] == g;
            assert Smaller(order, fs[0], fs[i + 1]);
          }
        }
      }
    }
  }

  lemma {:induction false} MergedIsSorted(order: Order, base: seq<Meta>, added: seq<Meta>)
    requires Sorted(order, base) && Sorted(order, added)
    requires forall f, g :: f in base && g in added ==> f.number != g.number
    ensures Sorted(order, Merged(order, base, added))
    ensures forall f :: f in Merged(order, base, added) <==> f in base || f in added
    decreases |base| + |added|
  {
    if added != [] {
      assert added == [added[0]] + added[1..];
      if base != [] && !Smaller(order, added[0], base[0]) {
        assert base == [base[0]] + base[1..];
        MergedIsSorted(order, base[1..], added);
        SmallerIsTotal(order, base[0], added[0], base[0]);
        FirstIsLeast(order, base);
        FirstIsLeast(order, added);
        FirstIsBefore(order, base[0], base, added, Merged(order, base[1..], added));
      } else {
        MergedIsSorted(order, base, added[1..]);
        FirstIsLeast(order, base);
        FirstIsLeast(order, added);
        FirstIsBefore(order, added[0], added, base, Merged(order, base, added[1..]));
      }
    }
  }

  lemma FirstIsLeast(order: Order, fs: seq<Meta>)
    requires Sorted(order, fs)
    ensures fs != [] ==> forall f :: f in fs[1..] ==> Smaller(order, fs[0], f)
  {
    if fs != [] {
      forall f | f in fs[1..] ensures Smaller(order, fs[0], f) {
        var i :| 0 <= i < |fs[1..]| && fs[1..][i] == f;
        assert fs[i + 1] == f;
      }
    }
  }

  // The least of two sorted lists goes in front of the merge of the rest.
  lemma FirstIsBefore(order: Order, first: Meta, own: seq<Meta>, other: seq<Meta>, rest: seq<Meta>)
    requires own != [] && first == own[0] && Sorted(order, rest)
    requires forall f :: f in own[1..] ==> Smaller(order, own[0], f)
    requires other != [] ==> Smaller(order, first, other[0]) && forall f :: f in other[1..] ==> Smaller(order, other[0], f)
    requires forall f :: f in rest ==> f in own[1..] || f in other
    ensures Sorted(order, [first] + rest)
  {
    forall f | f in rest ensures Smaller(order, first, f) {
      if f in other {
        assert other == [other[0]] + other[1..];
        SmallerIsTotal(order, first, other[0], f);
      }
    }
    assert forall i :: 0 <= i < |rest| ==> rest[i] in rest;
  }

  lemma {:induction false} KeptIsSorted(order: Order, fs: seq<Meta>, deleted: set<Word64>)
    requires Sorted(order, fs)
    ensures Sorted(order, Kept(fs, deleted))
  {
    if fs != [] {
      KeptIsSorted(order, fs[1..], deleted);
      FirstIsLeast(order, fs);
      var rest := Kept(fs[1..], deleted);
      assert forall i :: 0 <= i < |rest| ==> rest[i] in rest;
    }
  }

  // A level is its set of files, in order.
  lemma SavedMembers(order: Order, base: seq<Meta>, s: LevelState)
    requires Distinct(order, base, s)
    ensures Sorted(order, Saved(order, base, s)) && Numbered(Saved(order, base, s))
    ensures forall f :: f in Saved(order, base, s) <==> (f in base || f in s.added) && f.number !in s.deleted
    ensures var fs := Saved(order, base, s);
            forall i, j :: 0 <= i < j < |fs| ==>
              order(fs[i].smallest) < order(fs[j].smallest)
              || (order(fs[i].smallest) == order(fs[j].smallest) && fs[i].number < fs[j].number)
  {
    MergedIsSorted(order, base, s.added);
    KeptIsSorted(order, Merged(order, base, s.added), s.deleted);
  }

  lemma NoMembers(fs: seq<Meta>)
    ensures (forall f :: f !in fs) ==> fs == []
  {
    if fs != [] { assert fs[0] in fs; }
  }

  lemma {:induction false} SortedIsUnique(order: Order, a: seq<Meta>, b: seq<Meta>)
    requires Sorted(order, a) && Sorted(order, b)
    requires forall f :: f in a <==> f in b
    ensures a == b
  {
    if a == [] {
      NoMembers(b);
    } else {
      assert a[0] in b;
      assert b[0] in a;
      FirstIsLeast(order, a);
      FirstIsLeast(order, b);
      assert a == [a[0]] + a[1..] && b == [b[0]] + b[1..];
      SmallerIsTotal(order, a[0], b[0], a[0]);
      assert a[0] == b[0];
      forall f ensures f in a[1..] <==> f in b[1..] {
        SmallerIsTotal(order, f, f, f);
        assert f in a <==> f == a[0] || f in a[1..];
        assert f in b <==> f == b[0] || f in b[1..];
      }
      SortedIsUnique(order, a[1..], b[1..]);
    }
  }

  // ---------- Many edits are one edit after the other ----------

  // The edit adds only files whose numbers the level has not held, each once.
  ghost predicate Fresh(base: seq<Meta>, s: LevelState, fs: seq<Meta>) {
    && (forall f :: f in fs ==> !HasNumber(base, f.number) && !HasNumber(s.added, f.number))
    && (forall i, j :: 0 <= i < j < |fs| ==> fs[i].number != fs[j].number)
  }

  lemma {:induction false} DeletedMembers(s: LevelState, numbers: seq<Word64>)
    ensures DeleteNumbers(s, numbers).added == s.added
    ensures forall n :: n in DeleteNumbers(s, numbers).deleted <==> n in s.deleted || n in numbers
  {
    if numbers != [] {
      DeletedMembers(s, numbers[..|numbers| - 1]);
      assert numbers == numbers[..|numbers| - 1] + [numbers[|numbers| - 1]];
    }
  }

  lemma AddOneMeta(order: Order, base: seq<Meta>, s: LevelState, f: Meta)
    requires Distinct(order, base, s) && !HasNumber(base, f.number) && !HasNumber(s.added, f.number)
    ensures var t := AddMeta(order, s, f);
            && Distinct(order, base, t) && t.deleted == s.deleted - {f.number}
            && (forall g :: g in t.added <==> g in s.added || g == f)
  {
    hide InsertMeta, Smaller;
    InsertMembers(order, s.added, f);
  }

  lemma FreshFront(base: seq<Meta>, s: LevelState, fs: seq<Meta>)
    requires fs != [] && Fresh(base, s, fs)
    ensures Fresh(base, s, fs[..|fs| - 1])
    ensures var f := fs[|fs| - 1];
            && !HasNumber(base, f.number) && !HasNumber(s.added, f.number)
            && (forall g :: g in fs[..|fs| - 1] ==> g.number != f.number)
            && (forall g :: g in fs <==> g in fs[..|fs| - 1] || g == f)
  {
    var front, f := fs[..|fs| - 1], fs[|fs| - 1];
    assert fs == front + [f] && f in fs;
    assert forall g :: g in front ==> g in fs;
  }

  lemma {:induction false} AddedMembers(order: Order, base: seq<Meta>, s: LevelState, fs: seq<Meta>)
    requires Distinct(order, base, s) && Fresh(base, s, fs)
    ensures var t := AddMetas(order, s, fs);
            && Distinct(order, base, t)
            && (forall f :: f in t.added <==> f in s.added || f in fs)
            && (forall n :: n in t.deleted <==> n in s.deleted && forall f :: f in fs ==> f.number != n)
  {
    hide Distinct, Fresh, AddMeta;
    if fs != [] {
      var front, f := fs[..|fs| - 1], fs[|fs| - 1];
      FreshFront(base, s, fs);
      AddedMembers(order, base, s, front);
      var before := AddMetas(order, s, front);
      NumberOfPart(s.added, front, before.added, f.number);
      AddOneMeta(order, base, before, f);
    }
  }

  lemma AppliedMembers(order: Order, base: seq<Meta>, s: LevelState, numbers: seq<Word64>, fs: seq<Meta>)
    requires Distinct(order, base, s) && Fresh(base, s, fs)
    ensures var t := ApplyToLevel(order, s, numbers, fs);
            && Distinct(order, base, t)
            && (forall f :: f in Saved(order, base, t) <==>
                  f in fs || ((f in base || f in s.added) && f.number !in s.deleted && f.number !in numbers))
  {
    hide Sorted, Merged, Smaller;
    DeletedMembers(s, numbers);
    var d, t := DeleteNumbers(s, numbers), ApplyToLevel(order, s, numbers, fs);
    AddedMembers(order, base, d, fs);
    SavedMembers(order, base, t);
    forall f | f in base || f in s.added ensures f !in fs && forall g :: g in fs ==> g.number != f.number {
      assert forall g :: g in fs ==> !HasNumber(base, g.number) && !HasNumber(s.added, g.number);
    }
  }

  // Feeding the next edit to the builder gives the same level as applying it to the level
  // that the builder would save now.
  lemma OneMoreEdit(order: Order, base: seq<Meta>, s: LevelState, numbers: seq<Word64>, fs: seq<Meta>)
    requires Distinct(order, base, s) && Fresh(base, s, fs)
    ensures Distinct(order, base, ApplyToLevel(order, s, numbers, fs))
    ensures Saved(order, base, ApplyToLevel(order, s, numbers, fs))
         == Saved(order, Saved(order, base, s), ApplyToLevel(order, NO_CHANGE, numbers, fs))
  {
    hide ApplyToLevel, Saved, Sorted;
    var now := Saved(order, base, s);
    SavedMembers(order, base, s);
    NothingAddedIsGood(order, now);
    FreshStaysFresh(order, base, s, now, fs);
    AppliedMembers(order, base, s, numbers, fs);
    AppliedMembers(order, now, NO_CHANGE, numbers, fs);
    SavedMembers(order, base, ApplyToLevel(order, s, numbers, fs));
    SavedMembers(order, now, ApplyToLevel(order, NO_CHANGE, numbers, fs));
    SortedIsUnique(order, Saved(order, base, ApplyToLevel(order, s, numbers, fs)),
                   Saved(order, now, ApplyToLevel(order, NO_CHANGE, numbers, fs)));
  }

  lemma NothingAddedIsGood(order: Order, base: seq<Meta>)
    requires Sorted(order, base) && Numbered(base)
    ensures Distinct(order, base, NO_CHANGE)
  {
  }

  lemma FreshStaysFresh(order: Order, base: seq<Meta>, s: LevelState, now: seq<Meta>, fs: seq<Meta>)
    requires Fresh(base, s, fs) && forall f :: f in now ==> f in base || f in s.added
    ensures Fresh(now, NO_CHANGE, fs)
  {
    forall f | f in fs ensures !HasNumber(now, f.number) {
      NumberOfPart(base, s.added, now, f.number);
    }
  }

  lemma NumberOfPart(base: seq<Meta>, added: seq<Meta>, now: seq<Meta>, n: Word64)
    requires forall f :: f in now ==> f in base || f in added
    ensures HasNumber(now, n) ==> HasNumber(base, n) || HasNumber(added, n)
  {
    if HasNumber(now, n) {
      var g :| g in now && g.number == n;
    }
  }

  // The added files are a set: a file that is there already is not added again.
  lemma {:induction false} AddedOnce(order: Order, fs: seq<Meta>, i: nat)
    requires Sorted(order, fs) && i < |fs|
    ensures InsertMeta(order, fs, fs[i]) == fs
  {
    if i > 0 {
      assert Smaller(order, fs[0], fs[i]) && fs[i] == fs[1..][i - 1];
      AddedOnce(order, fs[1..], i - 1);
    }
  }
}
