// Replaying edits, and the manifest (VersionSet::Builder and VersionSet::Recover in
// db/version_set.cc), as functions of edits and bytes.
module Manifest {
  import opened DbFormat
  import opened Coding
  import opened VersionEdit
  import opened VersionBuilder
  import opened LogFormat
  import opened LogReader
  import opened LogReplay

  type Version = v: seq<seq<Meta>> | |v| == NUM_LEVELS witness seq(NUM_LEVELS, _ => [])
  type Changes = c: seq<LevelState> | |c| == NUM_LEVELS witness seq(NUM_LEVELS, _ => LevelState({}, []))

  function EmptyVersion(): Version {
    seq(NUM_LEVELS, _ => [])
  }

  function NoChanges(): Changes {
    seq(NUM_LEVELS, _ => NO_CHANGE)
  }

  // What an edit says about one level.
  function NumbersAt(deleted: seq<(nat, Word64)>, level: nat): seq<Word64> {
    if deleted == [] then []
    else
      var d := deleted[|deleted| - 1];
      NumbersAt(deleted[..|deleted| - 1], level) + (if d.0 == level then [d.1] else [])
  }

  function MetasAt(newFiles: seq<(nat, Meta)>, level: nat): seq<Meta> {
    if newFiles == [] then []
    else
      var f := newFiles[|newFiles| - 1];
      MetasAt(newFiles[..|newFiles| - 1], level) + (if f.0 == level then [f.1] else [])
  }

  function LevelAfter(order: Order, c: Changes, e: Edit, level: nat): LevelState
    requires level < NUM_LEVELS
  {
    ApplyToLevel(order, c[level], NumbersAt(e.deleted, level), MetasAt(e.newFiles, level))
  }

  function ApplyEdit(order: Order, c: Changes, e: Edit): Changes {
    seq(NUM_LEVELS, l requires 0 <= l < NUM_LEVELS => LevelAfter(order, c, e, l))
  }

  function Save(order: Order, base: Version, c: Changes): Version {
    seq(NUM_LEVELS, l requires 0 <= l < NUM_LEVELS => Saved(order, base[l], c[l]))
  }

  // One builder for one edit, as LogAndApply uses it.
  function ApplyOne(order: Order, v: Version, e: Edit): Version {
    Save(order, v, ApplyEdit(order, NoChanges(), e))
  }

  function OneByOne(order: Order, v: Version, edits: seq<Edit>): Version {
    if edits == [] then v else ApplyOne(order, OneByOne(order, v, edits[..|edits| - 1]), edits[|edits| - 1])
  }

  // One builder for all edits, as Recover uses it.
  function Feed(order: Order, edits: seq<Edit>): Changes {
    if edits == [] then NoChanges() else ApplyEdit(order, Feed(order, edits[..|edits| - 1]), edits[|edits| - 1])
  }

  ghost predicate FreshAt(order: Order, base: Version, edits: seq<Edit>, e: Edit, level: nat)
    requires level < NUM_LEVELS
  {
    Fresh(base[level], Feed(order, edits)[level], MetasAt(e.newFiles, level))
  }

  ghost predicate FreshNext(order: Order, base: Version, edits: seq<Edit>, e: Edit) {
    forall l :: 0 <= l < NUM_LEVELS ==> FreshAt(order, base, edits, e, l)
  }

  // No edit adds a file to a level that has held its number before.
  ghost predicate FreshEdits(order: Order, base: Version, edits: seq<Edit>) {
    edits == [] ||
    (FreshEdits(order, base, edits[..|edits| - 1]) && FreshNext(order, base, edits[..|edits| - 1], edits[|edits| - 1]))
  }

  ghost predicate WellOrdered(order: Order, v: Version) {
    forall l :: 0 <= l < NUM_LEVELS ==> Sorted(order, v[l]) && Numbered(v[l])
  }

  lemma NothingSaved(order: Order, base: Version)
    ensures Save(order, base, NoChanges()) == base
  {
    forall l | 0 <= l < NUM_LEVELS ensures Saved(order, base[l], NO_CHANGE) == base[l] {
      KeptAll(base[l]);
    }
  }

  lemma {:induction false} KeptAll(fs: seq<Meta>)
    ensures Kept(fs, {}) == fs
  {
    if fs != [] {
      KeptAll(fs[1..]);
      assert fs == [fs[0]] + fs[1..];
    }
  }

  ghost predicate GoodAt(order: Order, base: Version, c: Changes, level: nat)
    requires level < NUM_LEVELS
  {
    Distinct(order, base[level], c[level])
  }

  lemma NextLevel(order: Order, base: Version, c: Changes, e: Edit, now: Version, l: nat)
    requires l < NUM_LEVELS && GoodAt(order, base, c, l) && Fresh(base[l], c[l], MetasAt(e.newFiles, l))
    requires now[l] == Save(order, base, c)[l]
    ensures GoodAt(order, base, ApplyEdit(order, c, e), l)
    ensures Save(order, base, ApplyEdit(order, c, e))[l] == ApplyOne(order, now, e)[l]
  {
    hide Distinct, Fresh, Saved, ApplyToLevel;
    OneMoreEdit(order, base[l], c[l], NumbersAt(e.deleted, l), MetasAt(e.newFiles, l));
  }

  // One builder fed many edits saves what applying the edits one at a time gives.
  lemma {:induction false} ManyEditsAreOneByOne(order: Order, base: Version, edits: seq<Edit>)
    requires WellOrdered(order, base) && FreshEdits(order, base, edits)
    ensures Save(order, base, Feed(order, edits)) == OneByOne(order, base, edits)
    ensures forall l :: 0 <= l < NUM_LEVELS ==> GoodAt(order, base, Feed(order, edits), l)
  {
    hide Save, ApplyEdit, ApplyOne, Distinct, Fresh;
    if edits == [] {
      NothingSaved(order, base);
      forall l | 0 <= l < NUM_LEVELS ensures GoodAt(order, base, NoChanges(), l) {
        NothingAddedIsGood(order, base[l]);
      }
    } else {
      var before, e := edits[..|edits| - 1], edits[|edits| - 1];
      ManyEditsAreOneByOne(order, base, before);
      var now := OneByOne(order, base, before);
      forall l | 0 <= l < NUM_LEVELS
        ensures GoodAt(order, base, Feed(order, edits), l)
             && Save(order, base, Feed(order, edits))[l] == ApplyOne(order, now, e)[l]
      {
        assert FreshAt(order, base, before, e, l);
        NextLevel(order, base, Feed(order, before), e, now, l);
      }
      assert Save(order, base, Feed(order, edits)) == ApplyOne(order, now, e);
    }
  }

  // ---------- Reading a manifest ----------

  function PointersAfter(pointers: seq<Bytes>, ps: seq<(nat, Bytes)>): (r: seq<Bytes>)
    ensures |r| == |pointers|
  {
    if ps == [] then pointers
    else
      var before, p := PointersAfter(pointers, ps[..|ps| - 1]), ps[|ps| - 1];
      if p.0 < |before| then before[p.0 := p.1] else before
  }

  function Later(a: Option<Word64>, b: Option<Word64>): Option<Word64> {
    if b.Some? then b else a
  }

  datatype Replay = Replay(changes: Changes, pointers: seq<Bytes>, logNumber: Option<Word64>, prevLogNumber: Option<Word64>,
                           nextFile: Option<Word64>, lastSequence: Option<Word64>, error: Option<string>)

  function StartReplay(): Replay {
    Replay(NoChanges(), seq(NUM_LEVELS, _ => []), None, None, None, None, None)
  }

  // The scalar fields of an edit are taken over even if the edit was rejected.
  function TakeFields(r: Replay, e: Edit): Replay {
    r.(logNumber := Later(r.logNumber, e.logNumber), prevLogNumber := Later(r.prevLogNumber, e.prevLogNumber),
       nextFile := Later(r.nextFile, e.nextFile), lastSequence := Later(r.lastSequence, e.lastSequence))
  }

  function ApplyDecoded(order: Order, r: Replay, e: Edit): Replay {
    r.(changes := ApplyEdit(order, r.changes, e), pointers := PointersAfter(r.pointers, e.compactPointers))
  }

  function ApplyRecord(order: Order, name: Bytes, r: Replay, record: Bytes): Replay {
    var d := DecodeInto(EMPTY_EDIT, record);
    if d.error.Some? then TakeFields(r.(error := d.error), d.edit)
    else if d.edit.comparator.Some? && d.edit.comparator.value != name then
      TakeFields(r.(error := Some("does not match existing comparator")), d.edit)
    else TakeFields(ApplyDecoded(order, r, d.edit), d.edit)
  }

  function ReplayFrom(crc: Checksum, order: Order, name: Bytes, file: Bytes, pos: nat, r: Replay): Replay
    requires pos <= |file|
    decreases |file| - pos
  {
    var read := ReadFrom(crc, true, file, pos, None);
    var error := if r.error.None? && read.reports != [] then Some(read.reports[0].reason) else r.error;
    if read.record.None? || error.Some? then r.(error := error)
    else ReplayFrom(crc, order, name, file, read.next, ApplyRecord(order, name, r, read.record.value))
  }

  // The edits of a manifest: a snapshot first, and then the edits of LogAndApply, which
  // always carry all four numbers.
  predicate Complete(e: Edit) {
    e.logNumber.Some? && e.prevLogNumber.Some? && e.nextFile.Some? && e.lastSequence.Some?
  }

  predicate Recorded(name: Bytes, e: Edit) {
    EditOk(e) && (e.comparator.Some? ==> e.comparator.value == name)
  }

  predicate ManifestOk(name: Bytes, edits: seq<Edit>) {
    && (forall i :: 0 <= i < |edits| ==> Recorded(name, edits[i]))
    && (forall i :: 1 <= i < |edits| ==> Complete(edits[i]))
  }

  function EncodeAll(edits: seq<Edit>): (r: seq<Bytes>)
    ensures |r| == |edits|
  {
    seq(|edits|, i requires 0 <= i < |edits| => Encode(edits[i]))
  }

  function ReplayEdits(order: Order, r: Replay, edits: seq<Edit>): Replay {
    if edits == [] then r
    else
      var before, e := ReplayEdits(order, r, edits[..|edits| - 1]), edits[|edits| - 1];
      TakeFields(ApplyDecoded(order, before, e), e)
  }

  lemma EditIsApplied(order: Order, name: Bytes, r: Replay, e: Edit)
    requires Recorded(name, e)
    ensures ApplyRecord(order, name, r, Encode(e)) == TakeFields(ApplyDecoded(order, r, e), e)
  {
    hide Encode, DecodeInto, ApplyDecoded, TakeFields, EditOk;
    DecodeUndoesEncode(e);
  }

  lemma {:induction false} ReplayTogether(order: Order, r: Replay, e: Edit, edits: seq<Edit>)
    ensures ReplayEdits(order, r, [e] + edits) == ReplayEdits(order, TakeFields(ApplyDecoded(order, r, e), e), edits)
  {
    hide TakeFields, ApplyDecoded;
    if edits == [] {
      assert [e] + edits == [e] && [e][..0] == [];
      assert ReplayEdits(order, r, [e][..0]) == r;
    } else {
      ReplayTogether(order, r, e, edits[..|edits| - 1]);
      assert ([e] + edits)[..|edits|] == [e] + edits[..|edits| - 1];
    }
  }

  lemma {:induction false} RecordsAreReplayed(crc: Checksum, order: Order, name: Bytes, file: Bytes, pos: nat, r: Replay, edits: seq<Edit>)
    requires pos <= |file| && r.error.None? && (forall i :: 0 <= i < |edits| ==> Recorded(name, edits[i]))
    requires ReadAll(crc, true, file, pos) == (EncodeAll(edits), [])
    ensures ReplayFrom(crc, order, name, file, pos, r) == ReplayEdits(order, r, edits)
    decreases |edits|
  {
    hide ReadFrom, Recorded, TakeFields, ApplyDecoded, ApplyRecord, Encode;
    var read := ReadFrom(crc, true, file, pos, None);
    assert read.reports == [];
    if edits != [] {
      var e, rest := edits[0], edits[1..];
      assert edits == [e] + rest;
      assert EncodeAll(edits)[0] == Encode(e) && EncodeAll(edits)[1..] == EncodeAll(rest);
      EditIsApplied(order, name, r, e);
      NoErrorYet(order, r, e);
      RecordsAreReplayed(crc, order, name, file, read.next, TakeFields(ApplyDecoded(order, r, e), e), rest);
      ReplayTogether(order, r, e, rest);
    }
  }

  lemma NoErrorYet(order: Order, r: Replay, e: Edit)
    ensures TakeFields(ApplyDecoded(order, r, e), e).error == r.error
  {
  }

  // What replaying edits gives: the builder is fed all of them, and the numbers are those
  // of the last one.
  lemma {:induction false} ReplayedEdits(order: Order, name: Bytes, edits: seq<Edit>)
    requires ManifestOk(name, edits)
    ensures var r := ReplayEdits(order, StartReplay(), edits);
            && r.changes == Feed(order, edits) && r.error.None?
            && (|edits| >= 2 ==>
                var last := edits[|edits| - 1];
                && r.logNumber == last.logNumber && r.prevLogNumber == last.prevLogNumber
                && r.nextFile == last.nextFile && r.lastSequence == last.lastSequence)
  {
    hide ApplyEdit, Recorded, PointersAfter;
    if edits != [] {
      ReplayedEdits(order, name, edits[..|edits| - 1]);
    }
  }

  // The theorem: from any prefix of the manifest, recovery rebuilds the files of the
  // edits that lie wholly in it, applied one at a time, and the numbers of the last one.
  lemma PrefixIsRecovered(crc: Checksum, order: Order, name: Bytes, edits: seq<Edit>, n: nat)
    requires ManifestOk(name, edits) && FreshEdits(order, EmptyVersion(), edits)
    requires n <= |LogOf(crc, EncodeAll(edits))|
    ensures Recovers(crc, order, name, LogOf(crc, EncodeAll(edits))[..n], edits[..Whole(crc, EncodeAll(edits), n)])
  {
    hide LogOf, ReadAll, ReplayFrom, Recorded, Complete, Fresh, Save, Feed, OneByOne, Encode;
    var k := Whole(crc, EncodeAll(edits), n);
    PrefixIsReplayed(crc, true, EncodeAll(edits), n);
    assert EncodeAll(edits)[..k] == EncodeAll(edits[..k]);
    RecordsAreReplayed(crc, order, name, LogOf(crc, EncodeAll(edits))[..n], 0, StartReplay(), edits[..k]);
    PrefixIsFresh(order, EmptyVersion(), edits, k);
    assert ManifestOk(name, edits[..k]);
    ReplayedEdits(order, name, edits[..k]);
    EmptyIsWellOrdered(order);
    ManyEditsAreOneByOne(order, EmptyVersion(), edits[..k]);
  }

  ghost predicate Recovers(crc: Checksum, order: Order, name: Bytes, file: Bytes, edits: seq<Edit>) {
    var r := ReplayFrom(crc, order, name, file, 0, StartReplay());
    && r.error.None? && Save(order, EmptyVersion(), r.changes) == OneByOne(order, EmptyVersion(), edits)
    && r.pointers == ReplayEdits(order, StartReplay(), edits).pointers
    && (|edits| >= 2 ==>
        && r.logNumber == edits[|edits| - 1].logNumber && r.prevLogNumber == edits[|edits| - 1].prevLogNumber
        && r.nextFile == edits[|edits| - 1].nextFile && r.lastSequence == edits[|edits| - 1].lastSequence)
  }

  lemma EmptyIsWellOrdered(order: Order)
    ensures WellOrdered(order, EmptyVersion())
  {
  }

  lemma {:induction false} PrefixIsFresh(order: Order, base: Version, edits: seq<Edit>, k: nat)
    requires FreshEdits(order, base, edits) && k <= |edits|
    ensures FreshEdits(order, base, edits[..k])
  {
    hide FreshNext;
    if k < |edits| {
      PrefixIsFresh(order, base, edits[..|edits| - 1], k);
      assert edits[..|edits| - 1][..k] == edits[..k];
    } else {
      assert edits[..k] == edits;
    }
  }

  // ---------- Any manifest at all ----------

  // The record is an edit, and not one for another comparator.
  predicate GoodEdit(name: Bytes, record: Bytes) {
    var d := DecodeInto(EMPTY_EDIT, record);
    d.error.None? && (d.edit.comparator.Some? ==> d.edit.comparator.value == name)
  }

  lemma AppliedError(order: Order, name: Bytes, r: Replay, record: Bytes)
    requires r.error.None?
    ensures ApplyRecord(order, name, r, record).error.None? <==> GoodEdit(name, record)
  {
    hide DecodeInto, ApplyEdit, PointersAfter;
  }

  lemma ErrorStays(crc: Checksum, order: Order, name: Bytes, file: Bytes, pos: nat, r: Replay)
    requires pos <= |file| && r.error.Some?
    ensures ReplayFrom(crc, order, name, file, pos, r).error == r.error
  {
    hide ReadFrom, ApplyRecord;
  }

  // Replaying fails exactly if something was reported or some record is not a good edit.
  lemma {:induction false} ReplayFailsIff(crc: Checksum, order: Order, name: Bytes, file: Bytes, pos: nat, r: Replay)
    requires pos <= |file| && r.error.None?
    ensures ReplayFrom(crc, order, name, file, pos, r).error.Some?
       <==> ReadAll(crc, true, file, pos).1 != [] || exists record :: record in ReadAll(crc, true, file, pos).0 && !GoodEdit(name, record)
    decreases |file| - pos
  {
    hide ReadFrom, ApplyRecord, GoodEdit;
    var read := ReadFrom(crc, true, file, pos, None);
    if read.record.Some? && read.reports == [] {
      var rest := ReadAll(crc, true, file, read.next).0;
      assert ReadAll(crc, true, file, pos).0 == [read.record.value] + rest;
      assert forall record :: record in [read.record.value] + rest <==> record == read.record.value || record in rest;
      var next := ApplyRecord(order, name, r, read.record.value);
      AppliedError(order, name, r, read.record.value);
      assert ReplayFrom(crc, order, name, file, pos, r) == ReplayFrom(crc, order, name, file, read.next, next);
      if next.error.None? {
        ReplayFailsIff(crc, order, name, file, read.next, next);
      } else {
        ErrorStays(crc, order, name, file, read.next, next);
      }
    }
  }
}
