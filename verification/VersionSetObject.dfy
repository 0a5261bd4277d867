// The version set as an object: logging and applying edits, writing the snapshot that
// begins a manifest, and recovering (VersionSet in db/version_set.cc).
module VersionSetObject {
  import opened DbFormat
  import opened Coding
  import opened VersionEdit
  import opened VersionBuilder
  import opened LogFormat
  import opened LogReader
  import opened LogReplay
  import opened LogWriter
  import opened Manifest

  // ---------- The builder ----------

  class Builder {
    const order: Order
    const base: Version
    var levels: seq<LevelState>

    ghost predicate Ok()
      reads this
    {
      |levels| == NUM_LEVELS
    }

    constructor (o: Order, v: Version)
      ensures Ok() && order == o && base == v && levels == NoChanges()
    {
      order, base, levels := o, v, seq(NUM_LEVELS, _ => NO_CHANGE);
    }

    // Deletions first, then additions; a file that is added is no longer deleted.
    method Apply(edit: Edit, pointers: seq<Bytes>) returns (newPointers: seq<Bytes>)
      requires Ok() && LevelsOk(edit) && |pointers| == NUM_LEVELS
      modifies this
      ensures Ok() && levels == ApplyEdit(order, old(levels), edit)
      ensures newPointers == PointersAfter(pointers, edit.compactPointers)
    {
      hide ApplyToLevel, AddMetas, DeleteNumbers, NumbersAt, MetasAt, PointersAfter;
      newPointers := pointers;
      NothingDone(order, levels, pointers);
      for i := 0 to |edit.compactPointers|
        invariant Ok() && levels == old(levels) && |newPointers| == NUM_LEVELS
        invariant newPointers == PointersAfter(pointers, edit.compactPointers[..i])
      {
        NextPointer(pointers, edit.compactPointers, i);
        var (level, key) := edit.compactPointers[i];
        newPointers := newPointers[level := key];
      }
      for i := 0 to |edit.deleted|
        invariant Ok() && levels == Deleting(old(levels), edit.deleted[..i])
      {
        NextDeletion(old(levels), edit.deleted, i);
        var (level, number) := edit.deleted[i];
        levels := levels[level := levels[level].(deleted := levels[level].deleted + {number})];
      }
      ghost var deleted := levels;
      assert edit.deleted[..|edit.deleted|] == edit.deleted;
      NothingDone(order, deleted, pointers);
      for i := 0 to |edit.newFiles|
        invariant Ok() && levels == Adding(order, deleted, edit.newFiles[..i])
      {
        NextAddition(order, deleted, edit.newFiles, i);
        var (level, f) := edit.newFiles[i];
        levels := levels[level := AddMeta(order, levels[level], f)];
      }
      assert edit.newFiles[..|edit.newFiles|] == edit.newFiles;
      assert edit.compactPointers[..|edit.compactPointers|] == edit.compactPointers;
      AppliedLevels(order, old(levels), edit);
    }

    method SaveTo() returns (files: Version)
      requires Ok() && forall l :: 0 <= l < NUM_LEVELS ==> Sorted(order, base[l])
      ensures files == Save(order, base, levels)
    {
      hide Saved;
      files := EmptyVersion();
      for l := 0 to NUM_LEVELS
        invariant forall m :: 0 <= m < l ==> files[m] == Saved(order, base[m], levels[m])
      {
        var level := SaveLevel(order, base[l], levels[l]);
        files := files[l := level];
      }
    }
  }

  predicate LevelsOk(e: Edit) {
    && (forall i :: 0 <= i < |e.compactPointers| ==> e.compactPointers[i].0 < NUM_LEVELS)
    && (forall i :: 0 <= i < |e.deleted| ==> e.deleted[i].0 < NUM_LEVELS)
    && (forall i :: 0 <= i < |e.newFiles| ==> e.newFiles[i].0 < NUM_LEVELS)
  }

  function Deleting(c: Changes, deleted: seq<(nat, Word64)>): Changes {
    seq(NUM_LEVELS, l requires 0 <= l < NUM_LEVELS => DeleteNumbers(c[l], NumbersAt(deleted, l)))
  }

  function Adding(order: Order, c: Changes, newFiles: seq<(nat, Meta)>): Changes {
    seq(NUM_LEVELS, l requires 0 <= l < NUM_LEVELS => AddMetas(order, c[l], MetasAt(newFiles, l)))
  }

  lemma NothingDone(order: Order, c: Changes, pointers: seq<Bytes>)
    ensures Deleting(c, []) == c && Adding(order, c, []) == c && PointersAfter(pointers, []) == pointers
  {
  }

  lemma NextPointer(pointers: seq<Bytes>, ps: seq<(nat, Bytes)>, i: nat)
    requires i < |ps| && ps[i].0 < |pointers|
    ensures PointersAfter(pointers, ps[..i + 1]) == PointersAfter(pointers, ps[..i])[ps[i].0 := ps[i].1]
  {
    assert ps[..i + 1][..i] == ps[..i];
  }

  lemma NextDeletion(c: Changes, deleted: seq<(nat, Word64)>, i: nat)
    requires i < |deleted| && deleted[i].0 < NUM_LEVELS
    ensures var before, level := Deleting(c, deleted[..i]), deleted[i].0;
            Deleting(c, deleted[..i + 1]) == before[level := before[level].(deleted := before[level].deleted + {deleted[i].1})]
  {
    var before, after, level := Deleting(c, deleted[..i]), Deleting(c, deleted[..i + 1]), deleted[i].0;
    assert deleted[..i + 1][..i] == deleted[..i];
    forall l | 0 <= l < NUM_LEVELS
      ensures after[l] == if l == level then before[l].(deleted := before[l].deleted + {deleted[i].1}) else before[l]
    {
      var numbers := NumbersAt(deleted[..i], l);
      if l == level { assert (numbers + [deleted[i].1])[..|numbers|] == numbers; } else { assert numbers + [] == numbers; }
    }
  }

  lemma NextAddition(order: Order, c: Changes, newFiles: seq<(nat, Meta)>, i: nat)
    requires i < |newFiles| && newFiles[i].0 < NUM_LEVELS
    ensures var before, level := Adding(order, c, newFiles[..i]), newFiles[i].0;
            Adding(order, c, newFiles[..i + 1]) == before[level := AddMeta(order, before[level], newFiles[i].1)]
  {
    hide AddMeta;
    var before, after, level := Adding(order, c, newFiles[..i]), Adding(order, c, newFiles[..i + 1]), newFiles[i].0;
    assert newFiles[..i + 1][..i] == newFiles[..i];
    forall l | 0 <= l < NUM_LEVELS
      ensures after[l] == if l == level then AddMeta(order, before[l], newFiles[i].1) else before[l]
    {
      var fs := MetasAt(newFiles[..i], l);
      if l == level { assert (fs + [newFiles[i].1])[..|fs|] == fs; } else { assert fs + [] == fs; }
    }
  }

  lemma AppliedLevels(order: Order, c: Changes, e: Edit)
    ensures Adding(order, Deleting(c, e.deleted), e.newFiles) == ApplyEdit(order, c, e)
  {
  }

  // ---------- The version set ----------

  // WriteSnapshot: the comparator, the pointers that are set, and every file.
  function SnapshotEdit(name: Bytes, pointers: seq<Bytes>, v: Version): Edit {
    EMPTY_EDIT.(comparator := Some(name), compactPointers := SetPointers(pointers), newFiles := AllFiles(v, NUM_LEVELS))
  }

  function SetPointers(pointers: seq<Bytes>): seq<(nat, Bytes)> {
    if pointers == [] then []
    else
      var n := |pointers| - 1;
      SetPointers(pointers[..n]) + (if pointers[n] == [] then [] else [(n, pointers[n])])
  }

  function FilesOfLevel(level: nat, fs: seq<Meta>): (r: seq<(nat, Meta)>)
    ensures |r| == |fs|
  {
    seq(|fs|, i requires 0 <= i < |fs| => (level, fs[i]))
  }

  function AllFiles(v: Version, upTo: nat): seq<(nat, Meta)>
    requires upTo <= NUM_LEVELS
  {
    if upTo == 0 then [] else AllFiles(v, upTo - 1) + FilesOfLevel(upTo - 1, v[upTo - 1])
  }

  // Keys are short enough to be written.
  predicate SmallMeta(f: Meta) {
    |f.smallest| < TWO_32 && |f.largest| < TWO_32
  }

  predicate SmallVersion(v: Version) {
    forall l, f :: 0 <= l < NUM_LEVELS && f in v[l] ==> SmallMeta(f)
  }

  predicate SmallPointers(pointers: seq<Bytes>) {
    forall l :: 0 <= l < |pointers| ==> |pointers[l]| < TWO_32
  }

  lemma {:induction false} SetPointersOk(pointers: seq<Bytes>)
    requires SmallPointers(pointers)
    ensures forall i :: 0 <= i < |SetPointers(pointers)| ==> SetPointers(pointers)[i].0 < |pointers| && |SetPointers(pointers)[i].1| < TWO_32
  {
    if pointers != [] { SetPointersOk(pointers[..|pointers| - 1]); }
  }

  // Setting the pointers that are set gives them back.
  lemma {:induction false} PointersAreRestored(pointers: seq<Bytes>, base: seq<Bytes>)
    requires |pointers| <= |base| && forall l :: 0 <= l < |base| ==> base[l] == []
    ensures var r := PointersAfter(base, SetPointers(pointers));
            forall l :: 0 <= l < |base| ==> r[l] == if l < |pointers| then pointers[l] else []
  {
    if pointers != [] {
      var n := |pointers| - 1;
      PointersAreRestored(pointers[..n], base);
      var front := SetPointers(pointers[..n]);
      if pointers[n] != [] {
        assert (front + [(n, pointers[n])])[..|front|] == front;
      } else {
        assert front + [] == front;
      }
    }
  }

  // The last pointer given for a level.
  function PointerFor(ps: seq<(nat, Bytes)>, level: nat): Option<Bytes> {
    if ps == [] then None
    else if ps[|ps| - 1].0 == level then Some(ps[|ps| - 1].1)
    else PointerFor(ps[..|ps| - 1], level)
  }

  lemma {:induction false} PointerAt(pointers: seq<Bytes>, ps: seq<(nat, Bytes)>, level: nat)
    requires level < |pointers|
    ensures PointersAfter(pointers, ps)[level] == if PointerFor(ps, level).Some? then PointerFor(ps, level).value else pointers[level]
  {
    if ps != [] { PointerAt(pointers, ps[..|ps| - 1], level); }
  }

  // Setting the same pointers twice changes nothing the second time.
  lemma PointersTwice(pointers: seq<Bytes>, ps: seq<(nat, Bytes)>)
    ensures PointersAfter(PointersAfter(pointers, ps), ps) == PointersAfter(pointers, ps)
  {
    hide PointersAfter;
    var once := PointersAfter(pointers, ps);
    forall l | 0 <= l < |pointers| ensures PointersAfter(once, ps)[l] == once[l] {
      PointerAt(pointers, ps, l);
      PointerAt(once, ps, l);
    }
    assert PointersAfter(once, ps) == once;
  }

  lemma {:induction false} MetasOfLevel(v: Version, upTo: nat, l: nat)
    requires upTo <= NUM_LEVELS && l < NUM_LEVELS
    ensures MetasAt(AllFiles(v, upTo), l) == if l < upTo then v[l] else []
  {
    if upTo > 0 {
      MetasOfLevel(v, upTo - 1, l);
      MetasAppend(AllFiles(v, upTo - 1), FilesOfLevel(upTo - 1, v[upTo - 1]), l);
      MetasOfOne(upTo - 1, v[upTo - 1], l);
      assert [] + v[upTo - 1] == v[upTo - 1] && MetasAt(AllFiles(v, upTo - 1), l) + [] == MetasAt(AllFiles(v, upTo - 1), l);
    }
  }

  lemma {:induction false} MetasAppend(a: seq<(nat, Meta)>, b: seq<(nat, Meta)>, l: nat)
    ensures MetasAt(a + b, l) == MetasAt(a, l) + MetasAt(b, l)
  {
    if b == [] {
      assert a + b == a && MetasAt(a, l) + [] == MetasAt(a, l);
    } else {
      MetasAppend(a, b[..|b| - 1], l);
      assert (a + b)[..|a + b| - 1] == a + b[..|b| - 1];
    }
  }

  lemma {:induction false} MetasOfOne(level: nat, fs: seq<Meta>, l: nat)
    ensures MetasAt(FilesOfLevel(level, fs), l) == if l == level then fs else []
  {
    if fs != [] {
      MetasOfOne(level, fs[..|fs| - 1], l);
      assert FilesOfLevel(level, fs)[..|fs| - 1] == FilesOfLevel(level, fs[..|fs| - 1]);
      assert fs == fs[..|fs| - 1] + [fs[|fs| - 1]];
    }
  }

  lemma {:induction false} AllFilesOk(v: Version, upTo: nat)
    requires SmallVersion(v) && upTo <= NUM_LEVELS
    ensures forall i :: 0 <= i < |AllFiles(v, upTo)| ==> AllFiles(v, upTo)[i].0 < NUM_LEVELS && SmallMeta(AllFiles(v, upTo)[i].1)
  {
    if upTo > 0 {
      AllFilesOk(v, upTo - 1);
      var fs := v[upTo - 1];
      assert forall i :: 0 <= i < |fs| ==> fs[i] in fs;
    }
  }

  // The files of a version can be added to an empty one.
  lemma DistinctNumbers(order: Order, fs: seq<Meta>)
    requires Sorted(order, fs) && Numbered(fs)
    ensures Fresh([], NO_CHANGE, fs)
  {
    forall i, j | 0 <= i < j < |fs| ensures fs[i].number != fs[j].number {
      SmallerIsTotal(order, fs[i], fs[j], fs[i]);
      assert fs[i] in fs && fs[j] in fs;
    }
  }

  lemma SnapshotLevel(order: Order, fs: seq<Meta>)
    requires Sorted(order, fs) && Numbered(fs)
    ensures Saved(order, [], ApplyToLevel(order, NO_CHANGE, [], fs)) == fs
  {
    hide ApplyToLevel, Saved;
    DistinctNumbers(order, fs);
    NothingAddedIsGood(order, []);
    AppliedMembers(order, [], NO_CHANGE, [], fs);
    SavedMembers(order, [], ApplyToLevel(order, NO_CHANGE, [], fs));
    SortedIsUnique(order, Saved(order, [], ApplyToLevel(order, NO_CHANGE, [], fs)), fs);
  }

  // A manifest that begins with a snapshot begins with that version.
  lemma SnapshotRestores(order: Order, name: Bytes, pointers: seq<Bytes>, v: Version)
    requires WellOrdered(order, v) && |pointers| == NUM_LEVELS
    ensures var e := SnapshotEdit(name, pointers, v);
            && FreshEdits(order, EmptyVersion(), [e])
            && OneByOne(order, EmptyVersion(), [e]) == v
            && ReplayEdits(order, StartReplay(), [e]).pointers == pointers
  {
    hide ApplyToLevel, Saved, Fresh;
    var e := SnapshotEdit(name, pointers, v);
    assert [e][..0] == [];
    forall l | 0 <= l < NUM_LEVELS
      ensures FreshAt(order, EmptyVersion(), [], e, l) && ApplyOne(order, EmptyVersion(), e)[l] == v[l]
    {
      MetasOfLevel(v, NUM_LEVELS, l);
      DistinctNumbers(order, v[l]);
      SnapshotLevel(order, v[l]);
    }
    assert FreshNext(order, EmptyVersion(), [], e);
    assert ApplyOne(order, EmptyVersion(), e) == v;
    assert OneByOne(order, EmptyVersion(), [e][..0]) == EmptyVersion();
    PointersAreRestored(pointers, StartReplay().pointers);
    assert PointersAfter(StartReplay().pointers, SetPointers(pointers)) == pointers;
    assert ReplayEdits(order, StartReplay(), [e][..0]) == StartReplay();
  }

  lemma SnapshotIsOk(name: Bytes, pointers: seq<Bytes>, v: Version)
    requires |name| < TWO_32 && SmallPointers(pointers) && |pointers| == NUM_LEVELS && SmallVersion(v)
    ensures Recorded(name, SnapshotEdit(name, pointers, v))
  {
    hide SetPointers, AllFiles;
    SetPointersOk(pointers);
    AllFilesOk(v, NUM_LEVELS);
    var e := SnapshotEdit(name, pointers, v);
    var fields := FieldsOf(e);
    forall i | 0 <= i < |fields| ensures FieldOk(fields[i]) {
      if 0 < i <= |e.compactPointers| {
        assert fields[i] == CompactPointer(e.compactPointers[i - 1].0, e.compactPointers[i - 1].1);
      } else if i > |e.compactPointers| {
        var j := i - 1 - |e.compactPointers|;
        assert fields[i] == NewFile(e.newFiles[j].0, e.newFiles[j].1);
      }
    }
  }

  // The manifest holds exactly these edits, and they lead to the version and the pointers.
  ghost predicate Holds(order: Order, crc: Checksum, name: Bytes, logged: seq<Edit>, dest: Bytes, v: Version, pointers: seq<Bytes>) {
    var written := dest == LogOf(crc, EncodeAll(logged)) && ManifestOk(name, logged) && logged != [];
    var replayable := FreshEdits(order, EmptyVersion(), logged) && OneByOne(order, EmptyVersion(), logged) == v;
    written && replayable && ReplayEdits(order, StartReplay(), logged).pointers == pointers
  }

  // The numbers in force are those of the last edit.
  predicate NumbersLogged(logged: seq<Edit>, logNumber: Word64, prevLogNumber: Word64, nextFile: Word64, lastSequence: Word64) {
    && |logged| >= 2
    && logged[|logged| - 1].logNumber == Some(logNumber) && logged[|logged| - 1].prevLogNumber == Some(prevLogNumber)
    && logged[|logged| - 1].nextFile == Some(nextFile) && logged[|logged| - 1].lastSequence == Some(lastSequence)
  }

  lemma SnapshotHolds(order: Order, crc: Checksum, name: Bytes, v: Version, pointers: seq<Bytes>, dest: Bytes)
    requires WellOrdered(order, v) && |pointers| == NUM_LEVELS
    requires |name| < TWO_32 && SmallPointers(pointers) && SmallVersion(v)
    requires dest == [] + Emit(crc, Encode(SnapshotEdit(name, pointers, v)), 0, true)
    ensures Holds(order, crc, name, [SnapshotEdit(name, pointers, v)], dest, v, pointers)
  {
    hide SnapshotEdit, Emit, Encode, OneByOne, FreshEdits, WellOrdered, Recorded, ReplayEdits;
    var e := SnapshotEdit(name, pointers, v);
    SnapshotRestores(order, name, pointers, v);
    SnapshotIsOk(name, pointers, v);
    LogOfOne(crc, Encode(e));
    assert EncodeAll([e]) == [Encode(e)];
  }

  lemma LogOfOne(crc: Checksum, record: Bytes)
    ensures LogOf(crc, [record]) == [] + Emit(crc, record, 0, true)
  {
    hide Emit;
    assert [record][..0] == [];
    assert LogOf(crc, [record][..0]) == [];
  }

  lemma LogGrows(crc: Checksum, edits: seq<Edit>, e: Edit)
    ensures LogOf(crc, EncodeAll(edits + [e]))
         == LogOf(crc, EncodeAll(edits)) + Emit(crc, Encode(e), |LogOf(crc, EncodeAll(edits))|, true)
  {
    hide Emit, Encode;
    assert EncodeAll(edits + [e])[..|edits|] == EncodeAll(edits);
  }

  // One more edit behind those that the manifest holds.
  lemma HoldsOneMore(order: Order, crc: Checksum, name: Bytes, logged: seq<Edit>, dest: Bytes, v: Version, pointers: seq<Bytes>, e: Edit)
    requires Holds(order, crc, name, logged, dest, v, pointers)
    requires Recorded(name, e) && Complete(e) && FreshNext(order, EmptyVersion(), logged, e)
    ensures Holds(order, crc, name, logged + [e], dest + Emit(crc, Encode(e), |dest|, true), ApplyOne(order, v, e),
                  PointersAfter(pointers, e.compactPointers))
  {
    hide Emit, Encode, ApplyOne, FreshNext, Recorded, LogOf, ApplyEdit, PointersAfter, Complete;
    assert (logged + [e])[..|logged|] == logged;
    LogGrows(crc, logged, e);
  }

  lemma FreshIgnoresNumbers(order: Order, base: Version, edits: seq<Edit>, e: Edit, other: Edit)
    requires FreshNext(order, base, edits, e) && other.newFiles == e.newFiles
    ensures FreshNext(order, base, edits, other)
  {
    forall l | 0 <= l < NUM_LEVELS ensures FreshAt(order, base, edits, other, l) {
      assert FreshAt(order, base, edits, e, l);
    }
  }

  lemma HeldVersionIsOrdered(order: Order, crc: Checksum, name: Bytes, logged: seq<Edit>, dest: Bytes, v: Version, pointers: seq<Bytes>)
    requires Holds(order, crc, name, logged, dest, v, pointers)
    ensures WellOrdered(order, v)
  {
    hide OneByOne, FreshEdits, Saved, Distinct, Sorted, Numbered;
    EmptyIsWellOrdered(order);
    ManyEditsAreOneByOne(order, EmptyVersion(), logged);
    forall l | 0 <= l < NUM_LEVELS ensures Sorted(order, v[l]) && Numbered(v[l]) {
      assert GoodAt(order, EmptyVersion(), Feed(order, logged), l);
      SavedMembers(order, EmptyVersion()[l], Feed(order, logged)[l]);
      assert v[l] == Save(order, EmptyVersion(), Feed(order, logged))[l];
    }
  }

  lemma {:induction false} EditsStaySmall(order: Order, name: Bytes, edits: seq<Edit>)
    requires forall i :: 0 <= i < |edits| ==> EditOk(edits[i])
    ensures SmallVersion(OneByOne(order, EmptyVersion(), edits))
    ensures SmallPointers(ReplayEdits(order, StartReplay(), edits).pointers)
    ensures |ReplayEdits(order, StartReplay(), edits).pointers| == NUM_LEVELS
  {
    hide ApplyOne, SmallVersion, SmallPointers, EditOk, ApplyEdit, PointersAfter;
    if edits == [] {
      NothingIsSmall();
    } else {
      var before, e := edits[..|edits| - 1], edits[|edits| - 1];
      EditsStaySmall(order, name, before);
      EditKeysAreSmall(e);
      StaysSmall(order, OneByOne(order, EmptyVersion(), before), e);
      PointersStaySmall(ReplayEdits(order, StartReplay(), before).pointers, e.compactPointers);
    }
  }

  lemma NothingIsSmall()
    ensures SmallVersion(EmptyVersion()) && SmallPointers(StartReplay().pointers)
  {
  }

  lemma HeldIsSmall(order: Order, crc: Checksum, name: Bytes, logged: seq<Edit>, dest: Bytes, v: Version, pointers: seq<Bytes>)
    requires Holds(order, crc, name, logged, dest, v, pointers)
    ensures SmallVersion(v) && SmallPointers(pointers) && |pointers| == NUM_LEVELS
  {
    hide SmallVersion, SmallPointers, EditOk, FreshEdits, LogOf, OneByOne, ReplayEdits;
    EditsStaySmall(order, name, logged);
  }

  lemma {:induction false} AddedFrom(order: Order, s: LevelState, fs: seq<Meta>)
    ensures forall f :: f in AddMetas(order, s, fs).added ==> f in s.added || f in fs
  {
    if fs != [] { AddedFrom(order, s, fs[..|fs| - 1]); }
  }

  lemma {:induction false} MergedFrom(order: Order, base: seq<Meta>, added: seq<Meta>)
    ensures forall f :: f in Merged(order, base, added) ==> f in base || f in added
    decreases |base| + |added|
  {
    if added != [] {
      if base != [] && !Smaller(order, added[0], base[0]) {
        MergedFrom(order, base[1..], added);
      } else {
        MergedFrom(order, base, added[1..]);
      }
    }
  }

  lemma {:induction false} SmallMetasAt(newFiles: seq<(nat, Meta)>, l: nat)
    requires forall i :: 0 <= i < |newFiles| ==> SmallMeta(newFiles[i].1)
    ensures forall f :: f in MetasAt(newFiles, l) ==> SmallMeta(f)
  {
    if newFiles != [] { SmallMetasAt(newFiles[..|newFiles| - 1], l); }
  }

  lemma StaysSmall(order: Order, v: Version, e: Edit)
    requires SmallVersion(v) && forall i :: 0 <= i < |e.newFiles| ==> SmallMeta(e.newFiles[i].1)
    ensures SmallVersion(ApplyOne(order, v, e))
  {
    forall l, f | 0 <= l < NUM_LEVELS && f in ApplyOne(order, v, e)[l] ensures SmallMeta(f) {
      var s := ApplyToLevel(order, NO_CHANGE, NumbersAt(e.deleted, l), MetasAt(e.newFiles, l));
      DeletedMembers(NO_CHANGE, NumbersAt(e.deleted, l));
      AddedFrom(order, DeleteNumbers(NO_CHANGE, NumbersAt(e.deleted, l)), MetasAt(e.newFiles, l));
      MergedFrom(order, v[l], s.added);
      SmallMetasAt(e.newFiles, l);
    }
  }

  lemma {:induction false} PointersStaySmall(pointers: seq<Bytes>, ps: seq<(nat, Bytes)>)
    requires SmallPointers(pointers) && forall i :: 0 <= i < |ps| ==> |ps[i].1| < TWO_32
    ensures SmallPointers(PointersAfter(pointers, ps))
  {
    if ps != [] { PointersStaySmall(pointers, ps[..|ps| - 1]); }
  }

  // The keys of an edit that can be written are short enough.
  lemma EditKeysAreSmall(e: Edit)
    requires EditOk(e)
    ensures forall i :: 0 <= i < |e.newFiles| ==> SmallMeta(e.newFiles[i].1)
    ensures forall i :: 0 <= i < |e.compactPointers| ==> |e.compactPointers[i].1| < TWO_32
    ensures LevelsOk(e)
  {
    var fields, n := FieldsOf(e), |Scalars(e)|;
    forall i | 0 <= i < |e.compactPointers| ensures e.compactPointers[i].0 < NUM_LEVELS && |e.compactPointers[i].1| < TWO_32 {
      assert fields[n + i] == CompactPointer(e.compactPointers[i].0, e.compactPointers[i].1);
    }
    forall i | 0 <= i < |e.deleted| ensures e.deleted[i].0 < NUM_LEVELS {
      assert fields[n + |e.compactPointers| + i] == DeletedFile(e.deleted[i].0, e.deleted[i].1);
    }
    forall i | 0 <= i < |e.newFiles| ensures e.newFiles[i].0 < NUM_LEVELS && SmallMeta(e.newFiles[i].1) {
      assert fields[n + |e.compactPointers| + |e.deleted| + i] == NewFile(e.newFiles[i].0, e.newFiles[i].1);
    }
  }

  lemma NextIsSmall(order: Order, v: Version, pointers: seq<Bytes>, w: Edit)
    requires EditOk(w) && SmallVersion(v) && SmallPointers(pointers)
    ensures SmallVersion(ApplyOne(order, v, w)) && SmallPointers(PointersAfter(pointers, w.compactPointers)) && LevelsOk(w)
  {
    hide SmallVersion, SmallPointers, EditOk, ApplyOne, PointersAfter, LevelsOk;
    EditKeysAreSmall(w);
    StaysSmall(order, v, w);
    PointersStaySmall(pointers, w.compactPointers);
  }

  lemma CompletedIsOk(e: Edit, w: Edit)
    requires EditOk(e)
    requires w == e.(logNumber := w.logNumber, prevLogNumber := w.prevLogNumber, nextFile := w.nextFile, lastSequence := w.lastSequence)
    ensures EditOk(w)
  {
    var fields, n, m := FieldsOf(w), |Scalars(w)|, |Scalars(e)|;
    forall i | 0 <= i < |fields| ensures FieldOk(fields[i]) {
      if i >= n {
        assert fields[i] == FieldsOf(e)[i - n + m];
      } else if i == 0 && e.comparator.Some? {
        assert fields[0] == FieldsOf(e)[0];
      }
    }
  }

  // Outside the levels, both have the same pointers.
  predicate SameBut(levels: set<nat>, a: seq<Bytes>, b: seq<Bytes>) {
    |a| == NUM_LEVELS && |b| == NUM_LEVELS && forall l :: 0 <= l < NUM_LEVELS && l !in levels ==> a[l] == b[l]
  }

  function LevelsSet(ps: seq<(nat, Bytes)>): set<nat> {
    set i | 0 <= i < |ps| :: ps[i].0
  }

  lemma NothingAhead(pointers: seq<Bytes>)
    requires |pointers| == NUM_LEVELS
    ensures SameBut({}, pointers, pointers)
  {
  }

  lemma {:induction false} PointerForSet(ps: seq<(nat, Bytes)>, l: nat)
    ensures PointerFor(ps, l).Some? <==> l in LevelsSet(ps)
  {
    if ps != [] {
      PointerForSet(ps[..|ps| - 1], l);
      assert ps[|ps| - 1].0 in LevelsSet(ps);
      assert forall m :: m in LevelsSet(ps[..|ps| - 1]) ==> m in LevelsSet(ps);
    }
  }

  // Setting pointers on both sides makes their levels the same.
  lemma SameAfter(levels: set<nat>, a: seq<Bytes>, b: seq<Bytes>, ps: seq<(nat, Bytes)>)
    requires SameBut(levels, a, b)
    ensures SameBut(levels - LevelsSet(ps), PointersAfter(a, ps), PointersAfter(b, ps))
  {
    hide PointersAfter, PointerFor, LevelsSet;
    forall l | 0 <= l < NUM_LEVELS && l !in levels - LevelsSet(ps) ensures PointersAfter(a, ps)[l] == PointersAfter(b, ps)[l] {
      PointerAt(a, ps, l);
      PointerAt(b, ps, l);
      PointerForSet(ps, l);
    }
  }

  // The edits that the manifest holds once the next edit has been written.
  function Begun(logged: seq<Edit>, name: Bytes, pointers: seq<Bytes>, v: Version): seq<Edit> {
    if logged == [] then [SnapshotEdit(name, pointers, v)] else logged
  }

  lemma HeldIsNotEmpty(order: Order, crc: Checksum, name: Bytes, logged: seq<Edit>, dest: Bytes, v: Version, pointers: seq<Bytes>)
    requires Holds(order, crc, name, logged, dest, v, pointers)
    ensures logged != []
  {
  }

  lemma NumbersOfLast(logged: seq<Edit>, name: Bytes, pointers: seq<Bytes>, v: Version, e: Edit)
    requires Complete(e)
    ensures NumbersLogged(Begun(logged, name, pointers, v) + [e], e.logNumber.value, e.prevLogNumber.value, e.nextFile.value, e.lastSequence.value)
  {
  }

  class VersionSet {
    const order: Order
    const crc: Checksum
    const name: Bytes
    var current: Version
    var nextFileNumber: Word64
    var lastSequence: Word64
    var logNumber: Word64
    var prevLogNumber: Word64
    var manifestFileNumber: Word64
    var compactPointer: seq<Bytes>
    var descriptorLog: Writer?
    // What the manifest holds, the pointers that it leads to, and the levels whose pointer
    // has been set ahead of any edit.
    ghost var logged: seq<Edit>
    ghost var loggedPointer: seq<Bytes>
    ghost var ahead: set<nat>
    // The next file and last sequence number as of the last edit.
    ghost var loggedNextFile: Word64
    ghost var loggedSequence: Word64

    ghost predicate Ok()
      reads this, descriptorLog
    {
      && WellOrdered(order, current) && SmallVersion(current) && |compactPointer| == NUM_LEVELS && SmallPointers(compactPointer)
      && |name| < TWO_32
      && (descriptorLog == null ==> logged == [])
      && (descriptorLog != null ==>
          && descriptorLog.Ok() && descriptorLog.crc == crc && NumbersLogged(logged, logNumber, prevLogNumber, loggedNextFile, loggedSequence)
          && Holds(order, crc, name, logged, descriptorLog.dest, current, loggedPointer)
          && SameBut(ahead, compactPointer, loggedPointer))
    }

    constructor (o: Order, c: Checksum, comparatorName: Bytes)
      requires |comparatorName| < TWO_32
      ensures Ok() && current == EmptyVersion() && descriptorLog == null && order == o && crc == c && name == comparatorName
      ensures compactPointer == StartReplay().pointers
    {
      order, crc, name := o, c, comparatorName;
      current, nextFileNumber, lastSequence, logNumber, prevLogNumber, manifestFileNumber := EmptyVersion(), 2, 0, 0, 0, 0;
      compactPointer, descriptorLog, logged, loggedPointer, ahead := seq(NUM_LEVELS, _ => []), null, [], [], {};
      loggedNextFile, loggedSequence := 0, 0;
      new;
      EmptyIsWellOrdered(order);
    }

    // The end of SetupOtherInputs: the pointer of the level is set at once, so that another
    // range is tried next if the compaction fails; the manifest learns of it with the edit
    // of the compaction.
    method SetCompactPointer(level: nat, largest: Bytes)
      requires Ok() && level < NUM_LEVELS && |largest| < TWO_32
      modifies this`compactPointer, this`ahead
      ensures Ok() && compactPointer == old(compactPointer)[level := largest] && ahead == old(ahead) + {level}
    {
      hide Holds, WellOrdered, SmallVersion;
      compactPointer := compactPointer[level := largest];
      ahead := ahead + {level};
    }

    // Writes the edit to the manifest, behind a snapshot of the current version if the
    // manifest is new, and applies it.  The snapshot takes all pointers along; otherwise
    // the manifest leads to the pointers that have been logged, and only the levels of
    // compactions that were picked and not yet logged can have others in memory.
    method LogAndApply(edit: Edit) returns (written: Edit)
      requires Ok() && EditOk(edit) && edit.comparator == None
      requires edit.logNumber.Some? ==> logNumber <= edit.logNumber.value < nextFileNumber
      requires FreshNext(order, EmptyVersion(), Begun(logged, name, PointersAfter(compactPointer, edit.compactPointers), current), edit)
      modifies this, descriptorLog
      ensures Ok() && descriptorLog != null
      ensures written.lastSequence == Some(lastSequence) && written.nextFile == Some(nextFileNumber)
      ensures written.logNumber == Some(if edit.logNumber.Some? then edit.logNumber.value else old(logNumber))
      ensures written.prevLogNumber == Some(if edit.prevLogNumber.Some? then edit.prevLogNumber.value else old(prevLogNumber))
      ensures written.comparator == edit.comparator && written.compactPointers == edit.compactPointers
      ensures written.deleted == edit.deleted && written.newFiles == edit.newFiles
      ensures current == ApplyOne(order, old(current), written)
      ensures logged == Begun(old(logged), name, compactPointer, old(current)) + [written]
      ensures Some(logNumber) == written.logNumber && Some(prevLogNumber) == written.prevLogNumber
      ensures compactPointer == PointersAfter(old(compactPointer), edit.compactPointers)
      ensures old(descriptorLog) == null ==> loggedPointer == compactPointer && ahead == {}
      ensures old(descriptorLog) != null ==>
        && loggedPointer == PointersAfter(old(loggedPointer), edit.compactPointers)
        && ahead == old(ahead) - LevelsSet(edit.compactPointers)
      ensures nextFileNumber == old(nextFileNumber) && lastSequence == old(lastSequence) && manifestFileNumber == old(manifestFileNumber)
      ensures loggedNextFile == nextFileNumber && loggedSequence == lastSequence
    {
      hide Holds, ApplyOne, SnapshotEdit, PointersAfter, EditOk, WellOrdered, FreshNext, Save, SmallVersion, ApplyEdit, SameBut, LevelsSet, SmallPointers, LevelsOk, SmallMeta, Begun, NumbersLogged;
      written := FillIn(edit);
      FreshIgnoresNumbers(order, EmptyVersion(), Begun(logged, name, PointersAfter(compactPointer, edit.compactPointers), current), edit, written);
      ApplyWritten(written);
    }

    // The rest of LogAndApply, once the edit has all its numbers.
    method ApplyWritten(written: Edit)
      requires Ok() && EditOk(written) && written.comparator == None && Complete(written)
      requires written.nextFile == Some(nextFileNumber) && written.lastSequence == Some(lastSequence)
      requires FreshNext(order, EmptyVersion(), Begun(logged, name, PointersAfter(compactPointer, written.compactPointers), current), written)
      modifies this, descriptorLog
      ensures Ok() && descriptorLog != null && current == ApplyOne(order, old(current), written)
      ensures logged == Begun(old(logged), name, compactPointer, old(current)) + [written]
      ensures Some(logNumber) == written.logNumber && Some(prevLogNumber) == written.prevLogNumber
      ensures compactPointer == PointersAfter(old(compactPointer), written.compactPointers)
      ensures if old(descriptorLog) == null then loggedPointer == compactPointer && ahead == {}
              else loggedPointer == PointersAfter(old(loggedPointer), written.compactPointers)
                   && ahead == old(ahead) - LevelsSet(written.compactPointers)
      ensures nextFileNumber == old(nextFileNumber) && lastSequence == old(lastSequence) && manifestFileNumber == old(manifestFileNumber)
      ensures loggedNextFile == nextFileNumber && loggedSequence == lastSequence
    {
      hide Holds, ApplyOne, SnapshotEdit, PointersAfter, EditOk, WellOrdered, FreshNext, Save, SmallVersion, ApplyEdit, SameBut, LevelsSet, SmallPointers, LevelsOk, SmallMeta, Begun, NumbersLogged;
      ghost var pointersBefore := compactPointer;
      NextIsSmall(order, current, pointersBefore, written);
      var v := BuildNext(written);
      LogEdit(written, pointersBefore);
      current := v;
      logNumber := written.logNumber.value;
      prevLogNumber := written.prevLogNumber.value;
      loggedNextFile, loggedSequence := nextFileNumber, lastSequence;
      NumbersOfLast(old(logged), name, compactPointer, old(current), written);
      HeldVersionIsOrdered(order, crc, name, logged, descriptorLog.dest, current, loggedPointer);
    }

    // The edit with the numbers in force, as far as it does not bring its own.
    method FillIn(edit: Edit) returns (written: Edit)
      requires EditOk(edit)
      ensures EditOk(written)
      ensures written.lastSequence == Some(lastSequence) && written.nextFile == Some(nextFileNumber)
      ensures written.logNumber == Some(if edit.logNumber.Some? then edit.logNumber.value else logNumber)
      ensures written.prevLogNumber == Some(if edit.prevLogNumber.Some? then edit.prevLogNumber.value else prevLogNumber)
      ensures written.comparator == edit.comparator && written.compactPointers == edit.compactPointers
      ensures written.deleted == edit.deleted && written.newFiles == edit.newFiles
    {
      hide EditOk;
      written := edit;
      if edit.logNumber.None? {
        written := written.(logNumber := Some(logNumber));
      }
      if edit.prevLogNumber.None? {
        written := written.(prevLogNumber := Some(prevLogNumber));
      }
      written := written.(nextFile := Some(nextFileNumber), lastSequence := Some(lastSequence));
      CompletedIsOk(edit, written);
    }

    // The next version, by a builder that is fed the one edit.
    method BuildNext(written: Edit) returns (v: Version)
      requires WellOrdered(order, current) && |compactPointer| == NUM_LEVELS && LevelsOk(written)
      modifies this`compactPointer
      ensures v == ApplyOne(order, current, written)
      ensures compactPointer == PointersAfter(old(compactPointer), written.compactPointers)
    {
      hide ApplyOne, PointersAfter, WellOrdered, Save, ApplyEdit, LevelsOk;
      var builder := new Builder(order, current);
      SortedLevels(order, current);
      compactPointer := builder.Apply(written, compactPointer);
      v := builder.SaveTo();
      AppliedOne(order, current, written);
    }

    // After a crash the pointers are the logged ones, which differ from those in memory at
    // most in the levels whose pointer was set ahead of an edit.
    lemma CrashKeepsLoggedPointers()
      requires Ok() && descriptorLog != null
      ensures var r := ReplayFrom(crc, order, name, descriptorLog.dest, 0, StartReplay());
              r.pointers == loggedPointer && forall l :: 0 <= l < NUM_LEVELS && l !in ahead ==> r.pointers[l] == compactPointer[l]
    {
      hide Holds, ReplayFrom, WellOrdered, SmallVersion, SmallPointers, Save;
      ManifestRebuilds(order, crc, name, logged, descriptorLog.dest, current, loggedPointer, logNumber, prevLogNumber, loggedNextFile, loggedSequence);
    }

    // The part of LogAndApply that writes to the manifest.
    method LogEdit(written: Edit, ghost pointersBefore: seq<Bytes>)
      requires WellOrdered(order, current) && SmallVersion(current) && |name| < TWO_32
      requires |compactPointer| == NUM_LEVELS && SmallPointers(compactPointer)
      requires compactPointer == PointersAfter(pointersBefore, written.compactPointers)
      requires descriptorLog == null ==> logged == []
      requires descriptorLog != null ==>
        && descriptorLog.Ok() && descriptorLog.crc == crc
        && Holds(order, crc, name, logged, descriptorLog.dest, current, loggedPointer)
        && SameBut(ahead, pointersBefore, loggedPointer)
      requires Recorded(name, written) && Complete(written)
      requires FreshNext(order, EmptyVersion(), Begun(logged, name, compactPointer, current), written)
      modifies this`descriptorLog, this`logged, this`loggedPointer, this`ahead, descriptorLog
      ensures descriptorLog != null && descriptorLog.Ok() && descriptorLog.crc == crc
      ensures old(descriptorLog) == null ==> fresh(descriptorLog)
      ensures old(descriptorLog) != null ==> descriptorLog == old(descriptorLog)
      ensures logged == Begun(old(logged), name, compactPointer, current) + [written]
      ensures loggedPointer == if old(descriptorLog) == null then compactPointer else PointersAfter(old(loggedPointer), written.compactPointers)
      ensures Holds(order, crc, name, logged, descriptorLog.dest, ApplyOne(order, current, written), loggedPointer)
      ensures SameBut(ahead, compactPointer, loggedPointer)
      ensures ahead == if old(descriptorLog) == null then {} else old(ahead) - LevelsSet(written.compactPointers)
    {
      hide Holds, ApplyOne, SnapshotEdit, PointersAfter, WellOrdered, FreshNext, Emit, SmallVersion, Encode, Recorded, Complete, SmallPointers, SameBut, LevelsSet;
      if descriptorLog == null {
        descriptorLog := new Writer(crc);
        WriteSnapshot();
        loggedPointer, ahead := compactPointer, {};
        PointersTwice(pointersBefore, written.compactPointers);
        NothingAhead(compactPointer);
      } else {
        HeldIsNotEmpty(order, crc, name, logged, descriptorLog.dest, current, loggedPointer);
        SameAfter(ahead, pointersBefore, loggedPointer, written.compactPointers);
        ahead := ahead - LevelsSet(written.compactPointers);
      }
      HoldsOneMore(order, crc, name, logged, descriptorLog.dest, current, loggedPointer, written);
      AddEdit(written);
      logged := logged + [written];
      loggedPointer := PointersAfter(loggedPointer, written.compactPointers);
    }

    method WriteSnapshot()
      requires descriptorLog != null && descriptorLog.Ok() && descriptorLog.dest == [] && descriptorLog.crc == crc
      requires WellOrdered(order, current) && SmallVersion(current) && |compactPointer| == NUM_LEVELS && SmallPointers(compactPointer)
      requires |name| < TWO_32
      modifies this`logged, descriptorLog
      ensures descriptorLog.Ok() && logged == [SnapshotEdit(name, compactPointer, current)]
      ensures Holds(order, crc, name, logged, descriptorLog.dest, current, compactPointer)
    {
      hide Holds, WellOrdered, SnapshotEdit, Emit, Encode;
      var edit := CollectSnapshot();
      AddEdit(edit);
      logged := [edit];
      SnapshotHolds(order, crc, name, current, compactPointer, descriptorLog.dest);
    }

    method CollectSnapshot() returns (edit: Edit)
      requires |compactPointer| == NUM_LEVELS
      ensures edit == SnapshotEdit(name, compactPointer, current)
    {
      hide FilesOfLevel;
      edit := EMPTY_EDIT.(comparator := Some(name));
      for level := 0 to NUM_LEVELS
        invariant edit == EMPTY_EDIT.(comparator := Some(name), compactPointers := SetPointers(compactPointer[..level]))
      {
        assert compactPointer[..level + 1][..level] == compactPointer[..level];
        if compactPointer[level] != [] {
          edit := edit.(compactPointers := edit.compactPointers + [(level, compactPointer[level])]);
        } else {
          assert edit.compactPointers + [] == edit.compactPointers;
        }
      }
      assert compactPointer[..NUM_LEVELS] == compactPointer;
      for level := 0 to NUM_LEVELS
        invariant edit == EMPTY_EDIT.(comparator := Some(name), compactPointers := SetPointers(compactPointer), newFiles := AllFiles(current, level))
      {
        edit := edit.(newFiles := edit.newFiles + FilesOfLevel(level, current[level]));
      }
    }

    // Rebuilds the state from the contents of the manifest.
    method Recover(contents: Bytes) returns (error: Option<string>)
      requires descriptorLog == null && current == EmptyVersion() && compactPointer == StartReplay().pointers
      modifies this
      ensures error == RecoverError(ReplayFrom(crc, order, name, contents, 0, StartReplay()))
      ensures descriptorLog == null && logged == old(logged) && loggedPointer == old(loggedPointer)
      ensures error.None? ==> Recovered(ReplayFrom(crc, order, name, contents, 0, StartReplay()))
    {
      hide ReplayFrom, Save;
      EmptyIsWellOrdered(order);
      var builder, r, status := ReplayManifest(contents);
      error := CheckNumbers(r, status);
      if error.None? {
        current := builder.SaveTo();
        manifestFileNumber := r.nextFile.value;
        nextFileNumber := (r.nextFile.value + 1) % TWO_64;
        lastSequence := r.lastSequence.value;
        logNumber := r.logNumber.value;
        prevLogNumber := if r.prevLogNumber.Some? then r.prevLogNumber.value else 0;
      }
    }

    // The loop of Recover.
    method ReplayManifest(contents: Bytes) returns (builder: Builder, r: Numbers, error: Option<string>)
      requires compactPointer == StartReplay().pointers
      modifies this`compactPointer
      ensures builder.Ok() && builder.order == order && builder.base == EmptyVersion()
      ensures ReplayOf(builder.levels, compactPointer, r, error) == ReplayFrom(crc, order, name, contents, 0, StartReplay())
    {
      hide ReadFrom, ApplyRecord;
      var reader := new Reader(contents, crc, true);
      builder := new Builder(order, EmptyVersion());
      r, error := Numbers(None, None, None, None), None;
      ghost var all := ReplayFrom(crc, order, name, contents, 0, StartReplay());
      while true
        invariant fresh(reader) && reader.Ok() && reader.file == contents && reader.crc == crc && reader.checksum
        invariant fresh(builder) && builder.Ok() && builder.order == order && builder.base == EmptyVersion() && |compactPointer| == NUM_LEVELS
        invariant ReplayFrom(crc, order, name, contents, reader.Pos(), ReplayOf(builder.levels, compactPointer, r, error)) == all
        decreases |contents| - reader.Pos()
      {
        var reported := |reader.reports|;
        var record := reader.ReadRecord();
        if error.None? && |reader.reports| > reported {
          error := Some(reader.reports[reported].reason);
        }
        if record.None? || error.Some? {
          break;
        }
        r, error := ApplyManifestRecord(builder, record.value, r);
      }
    }

    // The state that a successful recovery leaves.
    ghost predicate Recovered(r: Replay)
      reads this
    {
      && r.lastSequence.Some? && r.logNumber.Some? && r.nextFile.Some?
      && current == Save(order, EmptyVersion(), r.changes) && compactPointer == r.pointers
      && lastSequence == r.lastSequence.value && logNumber == r.logNumber.value
      && prevLogNumber == (if r.prevLogNumber.Some? then r.prevLogNumber.value else 0)
      && manifestFileNumber == r.nextFile.value && nextFileNumber == (r.nextFile.value + 1) % TWO_64
    }

    // After recovery from a manifest that LogAndApply wrote, the version set is ready for
    // the next edit: the same files in every level, and the logged pointers.
    lemma RecoveredIsOk(contents: Bytes, edits: seq<Edit>, v: Version, pointers: seq<Bytes>,
                        log: Word64, prevLog: Word64, nextFile: Word64, sequence: Word64)
      requires descriptorLog == null && logged == [] && |name| < TWO_32
      requires Recovered(ReplayFrom(crc, order, name, contents, 0, StartReplay()))
      requires Holds(order, crc, name, edits, contents, v, pointers) && NumbersLogged(edits, log, prevLog, nextFile, sequence)
      ensures Ok() && current == v && compactPointer == pointers && logNumber == log && prevLogNumber == prevLog
      ensures lastSequence == sequence && manifestFileNumber == nextFile && nextFileNumber == (nextFile + 1) % TWO_64
    {
      hide Holds, ReplayFrom, WellOrdered, SmallVersion, SmallPointers, Save, SameBut;
      ManifestRebuilds(order, crc, name, edits, contents, v, pointers, log, prevLog, nextFile, sequence);
      HeldVersionIsOrdered(order, crc, name, edits, contents, v, pointers);
      HeldIsSmall(order, crc, name, edits, contents, v, pointers);
    }

    // Opening the database again: a new version set recovers from the manifest as it is,
    // and has the files, the logged pointers and the numbers of the last edit.
    method Reopen() returns (again: VersionSet)
      requires Ok() && descriptorLog != null
      ensures fresh(again) && again.Ok() && again.descriptorLog == null
      ensures again.order == order && again.crc == crc && again.name == name
      ensures again.current == current && again.compactPointer == loggedPointer
      ensures again.logNumber == logNumber && again.prevLogNumber == prevLogNumber && again.lastSequence == loggedSequence
      ensures again.manifestFileNumber == loggedNextFile && again.nextFileNumber == (loggedNextFile + 1) % TWO_64
    {
      hide Holds, ReplayFrom, WellOrdered, SmallVersion, SmallPointers, Save, SameBut;
      again := new VersionSet(order, crc, name);
      ManifestRebuilds(order, crc, name, logged, descriptorLog.dest, current, loggedPointer, logNumber, prevLogNumber, loggedNextFile, loggedSequence);
      var error := again.Recover(descriptorLog.dest);
      assert error == None;
      again.RecoveredIsOk(descriptorLog.dest, logged, current, loggedPointer, logNumber, prevLogNumber, loggedNextFile, loggedSequence);
    }

    // The loop body of Recover once a record has been read.
    method ApplyManifestRecord(builder: Builder, record: Bytes, r: Numbers) returns (now: Numbers, error: Option<string>)
      requires builder.Ok() && builder.order == order && |compactPointer| == NUM_LEVELS
      modifies builder, this`compactPointer
      ensures builder.Ok() && |compactPointer| == NUM_LEVELS
      ensures ReplayOf(builder.levels, compactPointer, now, error)
           == ApplyRecord(order, name, ReplayOf(old(builder.levels), old(compactPointer), r, None), record)
    {
      hide DecodeInto, ApplyEdit, PointersAfter;
      var decoder := new VersionEdit();
      error := decoder.DecodeFrom(record);
      var edit := decoder.Value();
      DecodedLevels(EMPTY_EDIT, record);
      if error.None? && edit.comparator.Some? && edit.comparator.value != name {
        error := Some("does not match existing comparator");
      }
      if error.None? {
        compactPointer := builder.Apply(edit, compactPointer);
      }
      now := Numbers(Later(r.logNumber, edit.logNumber), Later(r.prevLogNumber, edit.prevLogNumber),
                     Later(r.nextFile, edit.nextFile), Later(r.lastSequence, edit.lastSequence));
    }

    // A manifest must have told the three numbers.
    method CheckNumbers(r: Numbers, status: Option<string>) returns (error: Option<string>)
      modifies this`nextFileNumber
      ensures error == NumbersError(r, status)
    {
      error := status;
      if error.None? {
        if r.nextFile.None? {
          error := Some("no meta-nextfile entry in descriptor");
        } else if r.logNumber.None? {
          error := Some("no meta-lognumber entry in descriptor");
        } else if r.lastSequence.None? {
          error := Some("no last-sequence-number entry in descriptor");
        }
        MarkFileNumberUsed(if r.prevLogNumber.Some? then r.prevLogNumber.value else 0);
        MarkFileNumberUsed(if r.logNumber.Some? then r.logNumber.value else 0);
      }
    }

    method MarkFileNumberUsed(number: Word64)
      modifies this`nextFileNumber
      ensures nextFileNumber == if old(nextFileNumber) <= number then (number + 1) % TWO_64 else old(nextFileNumber)
    {
      if nextFileNumber <= number {
        nextFileNumber := (number + 1) % TWO_64;
      }
    }

    // EncodeTo and AddRecord.
    method AddEdit(edit: Edit)
      requires descriptorLog != null && descriptorLog.Ok()
      modifies descriptorLog
      ensures descriptorLog.Ok()
      ensures descriptorLog.dest == old(descriptorLog.dest) + Emit(descriptorLog.crc, Encode(edit), |old(descriptorLog.dest)|, true)
    {
      descriptorLog.AddRecord(Encode(edit));
    }
  }

  // The numbers that Recover collects.
  datatype Numbers = Numbers(logNumber: Option<Word64>, prevLogNumber: Option<Word64>, nextFile: Option<Word64>, lastSequence: Option<Word64>)

  function ReplayOf(changes: Changes, pointers: seq<Bytes>, r: Numbers, error: Option<string>): Replay {
    Replay(changes, pointers, r.logNumber, r.prevLogNumber, r.nextFile, r.lastSequence, error)
  }

  function NumbersError(r: Numbers, status: Option<string>): Option<string> {
    if status.Some? then status
    else if r.nextFile.None? then Some("no meta-nextfile entry in descriptor")
    else if r.logNumber.None? then Some("no meta-lognumber entry in descriptor")
    else if r.lastSequence.None? then Some("no last-sequence-number entry in descriptor")
    else None
  }

  function RecoverError(r: Replay): Option<string> {
    NumbersError(Numbers(r.logNumber, r.prevLogNumber, r.nextFile, r.lastSequence), r.error)
  }

  // Decoding never yields a level that does not exist.
  lemma {:induction false} DecodedLevels(e: Edit, input: Bytes)
    requires LevelsOk(e)
    ensures LevelsOk(DecodeInto(e, input).edit)
    decreases |input|
  {
    hide GetVarint32, GetVarint64, GetLengthPrefixedSlice, GetLevel, GetMeta, LevelsOk;
    match ParseField(input)
    case NoTag =>
    case Bad(_) =>
    case Good(f, rest) =>
      AppliedFieldLevels(e, f, input);
      DecodedLevels(ApplyField(e, f), rest);
  }

  lemma AppliedFieldLevels(e: Edit, f: Field, input: Bytes)
    requires LevelsOk(e) && ParseField(input).Good? && ParseField(input).field == f
    ensures LevelsOk(ApplyField(e, f))
  {
    hide GetVarint32, GetVarint64, GetLengthPrefixedSlice, GetLevel, GetMeta, InsertDeleted;
    if f.DeletedFile? { InsertDeletedMembers(e.deleted, (f.level, f.number)); }
  }

  lemma {:induction false} InsertDeletedMembers(ds: seq<(nat, Word64)>, d: (nat, Word64))
    ensures forall i :: 0 <= i < |InsertDeleted(ds, d)| ==> InsertDeleted(ds, d)[i] == d || InsertDeleted(ds, d)[i] in ds
  {
    if ds != [] { InsertDeletedMembers(ds[..|ds| - 1], d); }
  }

  // What the manifest of a version set holds leads back to its state: the same files in
  // every level, the same pointers and log numbers, and the last sequence number and next
  // file number as of the last edit.
  lemma ManifestRebuilds(order: Order, crc: Checksum, name: Bytes, logged: seq<Edit>, dest: Bytes, v: Version, pointers: seq<Bytes>,
                         logNumber: Word64, prevLogNumber: Word64, nextFile: Word64, lastSequence: Word64)
    requires Holds(order, crc, name, logged, dest, v, pointers)
    requires NumbersLogged(logged, logNumber, prevLogNumber, nextFile, lastSequence)
    ensures var r := ReplayFrom(crc, order, name, dest, 0, StartReplay());
            && RecoverError(r) == None && Save(order, EmptyVersion(), r.changes) == v && r.pointers == pointers
            && r.logNumber == Some(logNumber) && r.prevLogNumber == Some(prevLogNumber)
            && r.nextFile == Some(nextFile) && r.lastSequence == Some(lastSequence)
  {
    hide LogOf, ReplayFrom, Recorded, Save, OneByOne, FreshEdits, ReplayEdits;
    PrefixIsRecovered(crc, order, name, logged, |dest|);
    WholeOfAll(crc, EncodeAll(logged));
    assert dest[..|dest|] == dest && logged[..|logged|] == logged;
  }

  lemma WholeOfAll(crc: Checksum, records: seq<Bytes>)
    ensures Whole(crc, records, |LogOf(crc, records)|) == |records|
  {
  }

  // After a crash in the middle of an edit, the state before that edit comes back.
  lemma CutManifestRebuilds(order: Order, crc: Checksum, name: Bytes, logged: seq<Edit>, dest: Bytes, v: Version, pointers: seq<Bytes>, n: nat)
    requires Holds(order, crc, name, logged, dest, v, pointers) && n <= |dest|
    ensures Recovers(crc, order, name, dest[..n], logged[..Whole(crc, EncodeAll(logged), n)])
  {
    hide LogOf, ReplayFrom, Recorded, Save, OneByOne, FreshEdits, ReplayEdits, Recovers;
    PrefixIsRecovered(crc, order, name, logged, n);
  }

  lemma SortedLevels(order: Order, v: Version)
    requires WellOrdered(order, v)
    ensures forall l :: 0 <= l < NUM_LEVELS ==> Sorted(order, v[l])
  {
  }

  lemma AppliedOne(order: Order, v: Version, e: Edit)
    ensures Save(order, v, ApplyEdit(order, NoChanges(), e)) == ApplyOne(order, v, e)
  {
  }

  // Recovery succeeds exactly if the manifest could be replayed and told the three numbers.
  lemma RecoverSucceedsIff(r: Replay)
    ensures RecoverError(r).None? <==> r.error.None? && r.nextFile.Some? && r.logNumber.Some? && r.lastSequence.Some?
  {
  }

  // A snapshot names the pointers that are set, and only those.
  lemma {:induction false} SetPointersAre(pointers: seq<Bytes>, level: nat, key: Bytes)
    ensures (level, key) in SetPointers(pointers) <==> level < |pointers| && key == pointers[level] && key != []
  {
    if pointers != [] { SetPointersAre(pointers[..|pointers| - 1], level, key); }
  }
}
