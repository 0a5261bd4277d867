// Version edits and their encoding (db/version_edit.h, db/version_edit.cc).
module VersionEdit {
  import opened DbFormat
  import opened Coding

  const NUM_LEVELS := 7

  // FileMetaData without its counters; the keys are encoded internal keys.
  datatype Meta = Meta(number: Word64, size: Word64, smallest: Bytes, largest: Bytes)

  // Deleted files are kept in order, as in a sorted set.
  datatype Edit = Edit(comparator: Option<Bytes>, logNumber: Option<Word64>, prevLogNumber: Option<Word64>,
                       nextFile: Option<Word64>, lastSequence: Option<Word64>,
                       compactPointers: seq<(nat, Bytes)>, deleted: seq<(nat, Word64)>, newFiles: seq<(nat, Meta)>)

  const EMPTY_EDIT: Edit := Edit(None, None, None, None, None, [], [], [])

  datatype Field =
    | Comparator(name: Bytes)
    | LogNumber(number: Word64)
    | PrevLogNumber(number: Word64)
    | NextFileNumber(number: Word64)
    | LastSequence(sequence: Word64)
    | CompactPointer(level: nat, key: Bytes)
    | DeletedFile(level: nat, number: Word64)
    | NewFile(level: nat, meta: Meta)

  predicate FieldOk(f: Field) {
    match f
    case Comparator(name) => |name| < TWO_32
    case CompactPointer(level, key) => level < NUM_LEVELS && |key| < TWO_32
    case DeletedFile(level, _) => level < NUM_LEVELS
    case NewFile(level, m) => level < NUM_LEVELS && |m.smallest| < TWO_32 && |m.largest| < TWO_32
    case _ => true
  }

  function Tag(f: Field): Word32 {
    match f
    case Comparator(_) => 1
    case LogNumber(_) => 2
    case NextFileNumber(_) => 3
    case LastSequence(_) => 4
    case CompactPointer(_, _) => 5
    case DeletedFile(_, _) => 6
    case NewFile(_, _) => 7
    case PrevLogNumber(_) => 9
  }

  function Body(f: Field): Bytes {
    match f
    case Comparator(name) => LengthPrefixed(name)
    case LogNumber(n) => Varint(n)
    case NextFileNumber(n) => Varint(n)
    case LastSequence(n) => Varint(n)
    case CompactPointer(level, key) => Varint(level) + LengthPrefixed(key)
    case DeletedFile(level, n) => Varint(level) + Varint(n)
    case NewFile(level, m) =>
      Varint(level) + (Varint(m.number) + (Varint(m.size) + (LengthPrefixed(m.smallest) + LengthPrefixed(m.largest))))
    case PrevLogNumber(n) => Varint(n)
  }

  function EncodeField(f: Field): (s: Bytes)
    ensures |s| > 0
  {
    Varint(Tag(f)) + Body(f)
  }

  function EncodeFields(fields: seq<Field>): Bytes {
    if fields == [] then [] else EncodeFields(fields[..|fields| - 1]) + EncodeField(fields[|fields| - 1])
  }

  function OptionalField<T>(o: Option<T>, f: T -> Field): seq<Field> {
    if o.Some? then [f(o.value)] else []
  }

  // The fields of an edit, in the order in which they are written.
  function FieldsOf(e: Edit): seq<Field> {
    OptionalField(e.comparator, n => Comparator(n)) + OptionalField(e.logNumber, n => LogNumber(n))
    + OptionalField(e.prevLogNumber, n => PrevLogNumber(n)) + OptionalField(e.nextFile, n => NextFileNumber(n))
    + OptionalField(e.lastSequence, n => LastSequence(n))
    + Pointers(e.compactPointers) + Deletions(e.deleted) + Additions(e.newFiles)
  }

  function Pointers(ps: seq<(nat, Bytes)>): (r: seq<Field>)
    ensures |r| == |ps| && forall i :: 0 <= i < |ps| ==> r[i] == CompactPointer(ps[i].0, ps[i].1)
  {
    seq(|ps|, i requires 0 <= i < |ps| => CompactPointer(ps[i].0, ps[i].1))
  }

  function Deletions(ds: seq<(nat, Word64)>): (r: seq<Field>)
    ensures |r| == |ds| && forall i :: 0 <= i < |ds| ==> r[i] == DeletedFile(ds[i].0, ds[i].1)
  {
    seq(|ds|, i requires 0 <= i < |ds| => DeletedFile(ds[i].0, ds[i].1))
  }

  function Additions(fs: seq<(nat, Meta)>): (r: seq<Field>)
    ensures |r| == |fs| && forall i :: 0 <= i < |fs| ==> r[i] == NewFile(fs[i].0, fs[i].1)
  {
    seq(|fs|, i requires 0 <= i < |fs| => NewFile(fs[i].0, fs[i].1))
  }

  function Encode(e: Edit): Bytes {
    EncodeFields(FieldsOf(e))
  }

  // ---------- Decoding ----------

  datatype Parsed = Good(field: Field, rest: Bytes) | NoTag | Bad(msg: string)

  function GetLevel(input: Bytes): (r: Option<(nat, Bytes)>)
    ensures r.Some? ==> |r.value.1| < |input| && r.value.0 < NUM_LEVELS
  {
    var v := GetVarint32(input);
    if v.None? || v.value.0 >= NUM_LEVELS then None else Some(v.value)
  }

  function GetMeta(input: Bytes): (r: Option<(Meta, Bytes)>)
    ensures r.Some? ==> |r.value.1| < |input|
  {
    var number := GetVarint64(input);
    if number.None? then None
    else
      var size := GetVarint64(number.value.1);
      if size.None? then None
      else
        var smallest := GetLengthPrefixedSlice(size.value.1);
        if smallest.None? then None
        else
          var largest := GetLengthPrefixedSlice(smallest.value.1);
          if largest.None? then None
          else Some((Meta(number.value.0, size.value.0, smallest.value.0, largest.value.0), largest.value.1))
  }

  function ParseNumber(input: Bytes, f: Word64 -> Field, msg: string): (r: Parsed)
    ensures r.Good? ==> |r.rest| < |input|
  {
    var n := GetVarint64(input);
    if n.None? then Bad(msg) else Good(f(n.value.0), n.value.1)
  }

  // What follows a tag.
  function ParseBody(tag: Word32, input: Bytes): (r: Parsed)
    ensures r.Good? ==> |r.rest| < |input|
  {
    if tag == 1 then
      var s := GetLengthPrefixedSlice(input);
      if s.None? then Bad("comparator name") else Good(Comparator(s.value.0), s.value.1)
    else if tag == 2 then ParseNumber(input, (n: Word64) => LogNumber(n), "log number")
    else if tag == 3 then ParseNumber(input, (n: Word64) => NextFileNumber(n), "next file number")
    else if tag == 4 then ParseNumber(input, (n: Word64) => LastSequence(n), "last sequence number")
    else if tag == 5 then
      var level := GetLevel(input);
      if level.None? then Bad("compaction pointer")
      else
        var key := GetLengthPrefixedSlice(level.value.1);
        if key.None? then Bad("compaction pointer") else Good(CompactPointer(level.value.0, key.value.0), key.value.1)
    else if tag == 6 then
      var level := GetLevel(input);
      if level.None? then Bad("deleted file")
      else ParseNumber(level.value.1, (n: Word64) => DeletedFile(level.value.0, n), "deleted file")
    else if tag == 7 then
      var level := GetLevel(input);
      if level.None? then Bad("new-file entry")
      else
        var meta := GetMeta(level.value.1);
        if meta.None? then Bad("new-file entry") else Good(NewFile(level.value.0, meta.value.0), meta.value.1)
    else if tag == 9 then ParseNumber(input, (n: Word64) => PrevLogNumber(n), "previous log number")
    else Bad("unknown tag")
  }

  function ParseField(input: Bytes): (r: Parsed)
    ensures r.Good? ==> |r.rest| < |input|
  {
    var tag := GetVarint32(input);
    if tag.None? then NoTag else ParseBody(tag.value.0, tag.value.1)
  }

  // Deleted files go into a sorted set.
  predicate Precedes(a: (nat, Word64), b: (nat, Word64)) {
    a.0 < b.0 || (a.0 == b.0 && a.1 < b.1)
  }

  function InsertDeleted(ds: seq<(nat, Word64)>, d: (nat, Word64)): seq<(nat, Word64)> {
    if ds == [] then [d]
    else
      var last := ds[|ds| - 1];
      if Precedes(last, d) then ds + [d]
      else if d == last then ds
      else InsertDeleted(ds[..|ds| - 1], d) + [last]
  }

  predicate Ascending(ds: seq<(nat, Word64)>) {
    forall i, j :: 0 <= i < j < |ds| ==> Precedes(ds[i], ds[j])
  }

  function ApplyField(e: Edit, f: Field): Edit {
    match f
    case Comparator(name) => e.(comparator := Some(name))
    case LogNumber(n) => e.(logNumber := Some(n))
    case PrevLogNumber(n) => e.(prevLogNumber := Some(n))
    case NextFileNumber(n) => e.(nextFile := Some(n))
    case LastSequence(n) => e.(lastSequence := Some(n))
    case CompactPointer(level, key) => e.(compactPointers := e.compactPointers + [(level, key)])
    case DeletedFile(level, n) => e.(deleted := InsertDeleted(e.deleted, (level, n)))
    case NewFile(level, m) => e.(newFiles := e.newFiles + [(level, m)])
  }

  datatype Decoded = Decoded(edit: Edit, error: Option<string>)

  // The tag loop.
  function DecodeInto(e: Edit, input: Bytes): Decoded
    decreases |input|
  {
    match ParseField(input)
    case NoTag => Decoded(e, if input == [] then None else Some("invalid tag"))
    case Bad(msg) => Decoded(e, Some(msg))
    case Good(field, rest) => DecodeInto(ApplyField(e, field), rest)
  }

  function ApplyFields(e: Edit, fields: seq<Field>): Edit {
    if fields == [] then e else ApplyField(ApplyFields(e, fields[..|fields| - 1]), fields[|fields| - 1])
  }

  // ---------- The round trip ----------

  lemma LevelRoundTrip(level: nat, rest: Bytes)
    requires level < NUM_LEVELS
    ensures GetLevel(Varint(level) + rest) == Some((level, rest))
  {
    Varint32RoundTrip(level, rest);
  }

  lemma MetaRoundTrip(m: Meta, rest: Bytes)
    requires |m.smallest| < TWO_32 && |m.largest| < TWO_32
    ensures GetMeta(Varint(m.number) + (Varint(m.size) + (LengthPrefixed(m.smallest) + (LengthPrefixed(m.largest) + rest)))) == Some((m, rest))
  {
    hide Varint, LengthPrefixed, GetVarint64, GetLengthPrefixedSlice;
    Varint64RoundTrip(m.number, Varint(m.size) + (LengthPrefixed(m.smallest) + (LengthPrefixed(m.largest) + rest)));
    Varint64RoundTrip(m.size, LengthPrefixed(m.smallest) + (LengthPrefixed(m.largest) + rest));
    LengthPrefixedRoundTrip(m.smallest, LengthPrefixed(m.largest) + rest);
    LengthPrefixedRoundTrip(m.largest, rest);
  }

  lemma BodyRoundTrip(f: Field, rest: Bytes)
    requires FieldOk(f)
    ensures ParseBody(Tag(f), Body(f) + rest) == Good(f, rest)
  {
    hide Varint, LengthPrefixed, GetVarint64, GetVarint32, GetLengthPrefixedSlice, GetLevel, GetMeta;
    match f
    case Comparator(name) => LengthPrefixedRoundTrip(name, rest);
    case LogNumber(n) => Varint64RoundTrip(n, rest);
    case PrevLogNumber(n) => Varint64RoundTrip(n, rest);
    case NextFileNumber(n) => Varint64RoundTrip(n, rest);
    case LastSequence(n) => Varint64RoundTrip(n, rest);
    case CompactPointer(level, key) =>
      Associative(Varint(level), LengthPrefixed(key), rest);
      LevelRoundTrip(level, LengthPrefixed(key) + rest);
      LengthPrefixedRoundTrip(key, rest);
    case DeletedFile(level, n) =>
      Associative(Varint(level), Varint(n), rest);
      LevelRoundTrip(level, Varint(n) + rest);
      Varint64RoundTrip(n, rest);
    case NewFile(level, m) => NewFileRoundTrip(level, m, rest);
  }

  lemma NewFileRoundTrip(level: nat, m: Meta, rest: Bytes)
    requires FieldOk(NewFile(level, m))
    ensures ParseBody(7, Body(NewFile(level, m)) + rest) == Good(NewFile(level, m), rest)
  {
    hide Varint, LengthPrefixed, GetLevel, GetMeta;
    var last := LengthPrefixed(m.smallest) + LengthPrefixed(m.largest);
    Associative(LengthPrefixed(m.smallest), LengthPrefixed(m.largest), rest);
    Associative(Varint(m.size), last, rest);
    Associative(Varint(m.number), Varint(m.size) + last, rest);
    Associative(Varint(level), Varint(m.number) + (Varint(m.size) + last), rest);
    LevelRoundTrip(level, (Varint(m.number) + (Varint(m.size) + last)) + rest);
    MetaRoundTrip(m, rest);
  }

  lemma FieldRoundTrip(f: Field, rest: Bytes)
    requires FieldOk(f)
    ensures ParseField(EncodeField(f) + rest) == Good(f, rest)
  {
    hide Varint, Body, ParseBody, GetVarint32;
    Associative(Varint(Tag(f)), Body(f), rest);
    Varint32RoundTrip(Tag(f), Body(f) + rest);
    BodyRoundTrip(f, rest);
  }

  // Whatever follows, decoding first applies the fields that were written.
  lemma {:induction false} FieldsAreDecoded(e: Edit, fields: seq<Field>, rest: Bytes)
    requires forall i :: 0 <= i < |fields| ==> FieldOk(fields[i])
    ensures DecodeInto(e, EncodeFields(fields) + rest) == DecodeInto(ApplyFields(e, fields), rest)
  {
    hide EncodeField, ParseField, ApplyField, FieldOk;
    if fields == [] {
      assert [] + rest == rest;
    } else {
      var front, f := fields[..|fields| - 1], fields[|fields| - 1];
      Associative(EncodeFields(front), EncodeField(f), rest);
      FieldsAreDecoded(e, front, EncodeField(f) + rest);
      FieldRoundTrip(f, rest);
    }
  }

  lemma DecodeNothing(e: Edit)
    ensures DecodeInto(e, []) == Decoded(e, None)
  {
  }

  lemma {:induction false} ApplyTogether(e: Edit, a: seq<Field>, b: seq<Field>)
    ensures ApplyFields(e, a + b) == ApplyFields(ApplyFields(e, a), b)
  {
    hide ApplyField;
    if b == [] {
      assert a + b == a;
    } else {
      ApplyTogether(e, a, b[..|b| - 1]);
      assert (a + b)[..|a + b| - 1] == a + b[..|b| - 1];
    }
  }

  lemma ApplyOneField(e: Edit, f: Field)
    ensures ApplyFields(e, [f]) == ApplyField(e, f)
  {
    assert [f][..0] == [];
    assert ApplyFields(e, [f][..0]) == e;
  }

  lemma {:induction false} ApplyPointers(e: Edit, ps: seq<(nat, Bytes)>)
    ensures ApplyFields(e, Pointers(ps)) == e.(compactPointers := e.compactPointers + ps)
  {
    if ps != [] {
      var front := ps[..|ps| - 1];
      ApplyPointers(e, front);
      assert Pointers(ps)[..|front|] == Pointers(front);
      assert e.compactPointers + front + [ps[|front|]] == e.compactPointers + ps;
    } else {
      assert e.compactPointers + ps == e.compactPointers;
    }
  }

  lemma {:induction false} ApplyAdditions(e: Edit, fs: seq<(nat, Meta)>)
    ensures ApplyFields(e, Additions(fs)) == e.(newFiles := e.newFiles + fs)
  {
    if fs != [] {
      var front := fs[..|fs| - 1];
      ApplyAdditions(e, front);
      assert Additions(fs)[..|front|] == Additions(front);
      assert e.newFiles + front + [fs[|front|]] == e.newFiles + fs;
    } else {
      assert e.newFiles + fs == e.newFiles;
    }
  }

  lemma {:induction false} ApplyDeletions(e: Edit, ds: seq<(nat, Word64)>)
    requires e.deleted == [] && Ascending(ds)
    ensures ApplyFields(e, Deletions(ds)) == e.(deleted := ds)
  {
    if ds != [] {
      var front := ds[..|ds| - 1];
      ApplyDeletions(e, front);
      assert Deletions(ds)[..|front|] == Deletions(front);
      assert front + [ds[|front|]] == ds;
    }
  }

  lemma ApplyOptional<T>(e: Edit, o: Option<T>, f: T -> Field)
    ensures ApplyFields(e, OptionalField(o, f)) == if o.Some? then ApplyField(e, f(o.value)) else e
  {
    if o.Some? { ApplyOneField(e, f(o.value)); }
  }

  // The five scalar fields.
  function Scalars(e: Edit): seq<Field> {
    OptionalField(e.comparator, n => Comparator(n)) + OptionalField(e.logNumber, n => LogNumber(n))
    + OptionalField(e.prevLogNumber, n => PrevLogNumber(n)) + OptionalField(e.nextFile, n => NextFileNumber(n))
    + OptionalField(e.lastSequence, n => LastSequence(n))
  }

  // An edit that was cleared but keeps some compaction pointers.
  function Cleared(kept: seq<(nat, Bytes)>): Edit {
    EMPTY_EDIT.(compactPointers := kept)
  }

  lemma ApplyScalars(e: Edit, kept: seq<(nat, Bytes)>)
    ensures ApplyFields(Cleared(kept), Scalars(e)) == e.(compactPointers := kept, deleted := [], newFiles := [])
  {
    hide ApplyFields, OptionalField;
    var f1, f2 := OptionalField(e.comparator, n => Comparator(n)), OptionalField(e.logNumber, n => LogNumber(n));
    var f3, f4 := OptionalField(e.prevLogNumber, n => PrevLogNumber(n)), OptionalField(e.nextFile, n => NextFileNumber(n));
    var f5 := OptionalField(e.lastSequence, n => LastSequence(n));
    var e1 := Cleared(kept).(comparator := e.comparator);
    var e2 := e1.(logNumber := e.logNumber);
    var e3 := e2.(prevLogNumber := e.prevLogNumber);
    var e4 := e3.(nextFile := e.nextFile);
    ApplyOptional(Cleared(kept), e.comparator, n => Comparator(n));
    ApplyTogether(Cleared(kept), f1, f2);
    ApplyOptional(e1, e.logNumber, n => LogNumber(n));
    ApplyTogether(Cleared(kept), f1 + f2, f3);
    ApplyOptional(e2, e.prevLogNumber, n => PrevLogNumber(n));
    ApplyTogether(Cleared(kept), f1 + f2 + f3, f4);
    ApplyOptional(e3, e.nextFile, n => NextFileNumber(n));
    ApplyTogether(Cleared(kept), f1 + f2 + f3 + f4, f5);
    ApplyOptional(e4, e.lastSequence, n => LastSequence(n));
  }

  predicate EditOk(e: Edit) {
    Ascending(e.deleted) && forall i :: 0 <= i < |FieldsOf(e)| ==> FieldOk(FieldsOf(e)[i])
  }

  lemma FieldsRebuildEdit(e: Edit, kept: seq<(nat, Bytes)>)
    requires Ascending(e.deleted)
    ensures ApplyFields(Cleared(kept), FieldsOf(e)) == e.(compactPointers := kept + e.compactPointers)
  {
    hide ApplyFields, OptionalField, Pointers, Deletions, Additions, Ascending;
    var ps, ds, fs := Pointers(e.compactPointers), Deletions(e.deleted), Additions(e.newFiles);
    var e1 := e.(compactPointers := kept, deleted := [], newFiles := []);
    var e2 := e.(compactPointers := kept + e.compactPointers, deleted := [], newFiles := []);
    var e3 := e.(compactPointers := kept + e.compactPointers, newFiles := []);
    assert FieldsOf(e) == Scalars(e) + ps + ds + fs;
    ApplyScalars(e, kept);
    ApplyTogether(Cleared(kept), Scalars(e), ps);
    ApplyPointers(e1, e.compactPointers);
    assert [] + e.newFiles == e.newFiles;
    ApplyTogether(Cleared(kept), Scalars(e) + ps, ds);
    ApplyDeletions(e2, e.deleted);
    ApplyTogether(Cleared(kept), Scalars(e) + ps + ds, fs);
    ApplyAdditions(e3, e.newFiles);
  }

  lemma DecodeIntoUsed(e: Edit, kept: seq<(nat, Bytes)>)
    requires EditOk(e)
    ensures DecodeInto(Cleared(kept), Encode(e)) == Decoded(e.(compactPointers := kept + e.compactPointers), None)
  {
    hide EncodeFields, ApplyFields, FieldsOf, DecodeInto;
    FieldsAreDecoded(Cleared(kept), FieldsOf(e), []);
    assert Encode(e) + [] == Encode(e);
    FieldsRebuildEdit(e, kept);
    DecodeNothing(e.(compactPointers := kept + e.compactPointers));
  }

  // Decoding into a fresh edit undoes encoding, and the tag loop consumes everything.
  lemma DecodeUndoesEncode(e: Edit)
    requires EditOk(e)
    ensures DecodeInto(EMPTY_EDIT, Encode(e)) == Decoded(e, None)
  {
    hide DecodeInto, Encode;
    DecodeIntoUsed(e, []);
    assert [] + e.compactPointers == e.compactPointers;
  }

  // Clear leaves the compaction pointers, so an edit object that has been used gives back
  // what was encoded if and only if it had no pointers.
  lemma UsedEditRoundTripIff(e: Edit, kept: seq<(nat, Bytes)>)
    requires EditOk(e)
    ensures DecodeInto(Cleared(kept), Encode(e)).edit == e <==> kept == []
  {
    hide DecodeInto, Encode;
    DecodeIntoUsed(e, kept);
    assert |kept + e.compactPointers| == |kept| + |e.compactPointers|;
    assert [] + e.compactPointers == e.compactPointers;
  }

  // ---------- The edit object ----------

  class VersionEdit {
    var comparator: Bytes
    var logNumber: Word64
    var prevLogNumber: Word64
    var nextFileNumber: Word64
    var lastSequence: Word64
    var hasComparator: bool
    var hasLogNumber: bool
    var hasPrevLogNumber: bool
    var hasNextFileNumber: bool
    var hasLastSequence: bool
    var compactPointers: seq<(nat, Bytes)>
    var deletedFiles: seq<(nat, Word64)>
    var newFiles: seq<(nat, Meta)>

    function Value(): Edit
      reads this
    {
      Edit(if hasComparator then Some(comparator) else None, if hasLogNumber then Some(logNumber) else None,
           if hasPrevLogNumber then Some(prevLogNumber) else None, if hasNextFileNumber then Some(nextFileNumber) else None,
           if hasLastSequence then Some(lastSequence) else None, compactPointers, deletedFiles, newFiles)
    }

    constructor ()
      ensures Value() == EMPTY_EDIT
    {
      compactPointers := [];
      new;
      Clear();
    }

    // The compaction pointers stay.
    method Clear()
      modifies this
      ensures Value() == Cleared(old(compactPointers))
    {
      comparator, logNumber, prevLogNumber, lastSequence, nextFileNumber := [], 0, 0, 0, 0;
      hasComparator, hasLogNumber, hasPrevLogNumber, hasNextFileNumber, hasLastSequence := false, false, false, false, false;
      deletedFiles, newFiles := [], [];
    }

    method EncodeTo(dst: Bytes) returns (r: Bytes)
      ensures r == dst + Encode(Value())
    {
      hide EncodeFields, Varint, LengthPrefixed, OptionalField, Pointers, Deletions, Additions;
      r := EncodeScalars(dst);
      ghost var done := Scalars(Value());
      r := EncodePointers(r);
      EncodeTogether(done, Pointers(compactPointers));
      Associative(dst, EncodeFields(done), EncodeFields(Pointers(compactPointers)));
      done := done + Pointers(compactPointers);
      r := EncodeDeletions(r);
      EncodeTogether(done, Deletions(deletedFiles));
      Associative(dst, EncodeFields(done), EncodeFields(Deletions(deletedFiles)));
      done := done + Deletions(deletedFiles);
      r := EncodeAdditions(r);
      EncodeTogether(done, Additions(newFiles));
      Associative(dst, EncodeFields(done), EncodeFields(Additions(newFiles)));
    }

    method EncodeScalars(dst: Bytes) returns (r: Bytes)
      ensures r == dst + EncodeFields(Scalars(Value()))
    {
      hide Varint, LengthPrefixed, EncodeFields;
      r := dst;
      if hasComparator { r := r + Varint(1) + LengthPrefixed(comparator); }
      ghost var done := OptionalField(Value().comparator, n => Comparator(n));
      EncodeOne(Comparator(comparator));
      EncodeNone();
      assert r == dst + EncodeFields(done);
      if hasLogNumber { r := r + Varint(2) + Varint(logNumber); }
      done := OneMoreField(dst, done, Value().logNumber, n => LogNumber(n));
      if hasPrevLogNumber { r := r + Varint(9) + Varint(prevLogNumber); }
      done := OneMoreField(dst, done, Value().prevLogNumber, n => PrevLogNumber(n));
      if hasNextFileNumber { r := r + Varint(3) + Varint(nextFileNumber); }
      done := OneMoreField(dst, done, Value().nextFile, n => NextFileNumber(n));
      if hasLastSequence { r := r + Varint(4) + Varint(lastSequence); }
      done := OneMoreField(dst, done, Value().lastSequence, n => LastSequence(n));
    }

    method EncodePointers(dst: Bytes) returns (r: Bytes)
      ensures r == dst + EncodeFields(Pointers(compactPointers))
    {
      hide Varint, LengthPrefixed, EncodeField;
      r := dst;
      for i := 0 to |compactPointers|
        invariant r == dst + EncodeFields(Pointers(compactPointers)[..i])
      {
        EncodeNext(dst, Pointers(compactPointers), i);
        EncodedPointer(compactPointers[i].0, compactPointers[i].1);
        r := r + (Varint(5) + Varint(compactPointers[i].0) + LengthPrefixed(compactPointers[i].1));
      }
      assert Pointers(compactPointers)[..|compactPointers|] == Pointers(compactPointers);
    }

    method EncodeDeletions(dst: Bytes) returns (r: Bytes)
      ensures r == dst + EncodeFields(Deletions(deletedFiles))
    {
      hide Varint, LengthPrefixed, EncodeField;
      r := dst;
      for i := 0 to |deletedFiles|
        invariant r == dst + EncodeFields(Deletions(deletedFiles)[..i])
      {
        EncodeNext(dst, Deletions(deletedFiles), i);
        EncodedDeletion(deletedFiles[i].0, deletedFiles[i].1);
        r := r + (Varint(6) + Varint(deletedFiles[i].0) + Varint(deletedFiles[i].1));
      }
      assert Deletions(deletedFiles)[..|deletedFiles|] == Deletions(deletedFiles);
    }

    method EncodeAdditions(dst: Bytes) returns (r: Bytes)
      ensures r == dst + EncodeFields(Additions(newFiles))
    {
      hide Varint, LengthPrefixed, EncodeField;
      r := dst;
      for i := 0 to |newFiles|
        invariant r == dst + EncodeFields(Additions(newFiles)[..i])
      {
        EncodeNext(dst, Additions(newFiles), i);
        EncodedAddition(newFiles[i].0, newFiles[i].1);
        var m := newFiles[i].1;
        r := r + (Varint(7) + Varint(newFiles[i].0) + Varint(m.number) + Varint(m.size)
                  + LengthPrefixed(m.smallest) + LengthPrefixed(m.largest));
      }
      assert Additions(newFiles)[..|newFiles|] == Additions(newFiles);
    }

    // Decodes over what Clear leaves; on an error, the fields before it have been applied.
    method DecodeFrom(src: Bytes) returns (error: Option<string>)
      modifies this
      ensures var d := DecodeInto(Cleared(old(compactPointers)), src);
              Value() == d.edit && error == d.error
    {
      hide ParseBody, ApplyField, GetVarint32;
      Clear();
      var input := src;
      ghost var all := DecodeInto(Value(), src);
      var msg: Option<string> := None;
      var tag := GetVarint32(input);
      while tag.Some?
        invariant tag == GetVarint32(input) && DecodeInto(Value(), input) == all
        decreases |input|
      {
        msg, input := DecodeTagged(tag.value.0, tag.value.1);
        if msg.Some? {
          return msg;
        }
        tag := GetVarint32(input);
      }
      error := if input != [] then Some("invalid tag") else None;
    }

    // The switch of the tag loop.
    method DecodeTagged(tag: Word32, input: Bytes) returns (msg: Option<string>, rest: Bytes)
      modifies this
      ensures match ParseBody(tag, input)
              case Good(f, r) => msg == None && rest == r && Value() == ApplyField(old(Value()), f)
              case Bad(m) => msg == Some(m) && Value() == old(Value())
              case NoTag => false
    {
      hide GetVarint64, GetLengthPrefixedSlice, GetLevel, GetMeta, InsertDeleted;
      msg, rest := None, input;
      match tag {
        case 1 =>
          var s := GetLengthPrefixedSlice(input);
          if s.Some? {
            comparator, hasComparator, rest := s.value.0, true, s.value.1;
          } else {
            msg := Some("comparator name");
          }
        case 2 =>
          var n := GetVarint64(input);
          if n.Some? {
            logNumber, hasLogNumber, rest := n.value.0, true, n.value.1;
          } else {
            msg := Some("log number");
          }
        case 3 =>
          var n := GetVarint64(input);
          if n.Some? {
            nextFileNumber, hasNextFileNumber, rest := n.value.0, true, n.value.1;
          } else {
            msg := Some("next file number");
          }
        case 4 =>
          var n := GetVarint64(input);
          if n.Some? {
            lastSequence, hasLastSequence, rest := n.value.0, true, n.value.1;
          } else {
            msg := Some("last sequence number");
          }
        case 9 =>
          var n := GetVarint64(input);
          if n.Some? {
            prevLogNumber, hasPrevLogNumber, rest := n.value.0, true, n.value.1;
          } else {
            msg := Some("previous log number");
          }
        case _ =>
          msg, rest := DecodeLevelled(tag, input);
      }
    }

    // The tags that are followed by a level, and unknown ones.
    method DecodeLevelled(tag: Word32, input: Bytes) returns (msg: Option<string>, rest: Bytes)
      requires tag !in {1, 2, 3, 4, 9}
      modifies this`compactPointers, this`deletedFiles, this`newFiles
      ensures match ParseBody(tag, input)
              case Good(f, r) => msg == None && rest == r && Value() == ApplyField(old(Value()), f)
              case Bad(m) => msg == Some(m) && Value() == old(Value())
              case NoTag => false
    {
      hide GetVarint64, GetLengthPrefixedSlice, GetLevel, GetMeta, InsertDeleted;
      msg, rest := None, input;
      var level := GetLevel(input);
      match tag {
        case 5 =>
          var key := if level.Some? then GetLengthPrefixedSlice(level.value.1) else None;
          if key.Some? {
            compactPointers, rest := compactPointers + [(level.value.0, key.value.0)], key.value.1;
          } else {
            msg := Some("compaction pointer");
          }
        case 6 =>
          var n := if level.Some? then GetVarint64(level.value.1) else None;
          if n.Some? {
            deletedFiles, rest := InsertDeleted(deletedFiles, (level.value.0, n.value.0)), n.value.1;
          } else {
            msg := Some("deleted file");
          }
        case 7 =>
          var meta := if level.Some? then GetMeta(level.value.1) else None;
          if meta.Some? {
            newFiles, rest := newFiles + [(level.value.0, meta.value.0)], meta.value.1;
          } else {
            msg := Some("new-file entry");
          }
        case _ =>
          msg := Some("unknown tag");
      }
    }
  }

  lemma {:induction false} EncodeTogether(a: seq<Field>, b: seq<Field>)
    ensures EncodeFields(a + b) == EncodeFields(a) + EncodeFields(b)
  {
    hide EncodeField;
    if b == [] {
      assert a + b == a && EncodeFields(a) + [] == EncodeFields(a);
    } else {
      var front := b[..|b| - 1];
      EncodeTogether(a, front);
      assert (a + b)[..|a + b| - 1] == a + front;
      Associative(EncodeFields(a), EncodeFields(front), EncodeField(b[|front|]));
    }
  }

  lemma EncodeOne(f: Field)
    ensures EncodeFields([f]) == EncodeField(f)
  {
    hide EncodeField;
    assert [f][..0] == [];
    assert EncodeFields([f]) == EncodeFields([f][..0]) + EncodeField(f);
    assert [] + EncodeField(f) == EncodeField(f);
  }

  lemma EncodeNone()
    ensures EncodeFields([]) == [] && forall dst: Bytes :: dst + EncodeFields([]) == dst
  {
  }

  lemma EncodeNext(dst: Bytes, fields: seq<Field>, i: nat)
    requires i < |fields|
    ensures dst + EncodeFields(fields[..i + 1]) == dst + EncodeFields(fields[..i]) + EncodeField(fields[i])
  {
    hide EncodeField;
    assert fields[..i + 1][..i] == fields[..i];
    Associative(dst, EncodeFields(fields[..i]), EncodeField(fields[i]));
  }

  // What the encoding of an optional field adds.
  lemma OneMoreField<T>(dst: Bytes, done: seq<Field>, o: Option<T>, f: T -> Field) returns (now: seq<Field>)
    ensures now == done + OptionalField(o, f)
    ensures dst + EncodeFields(now)
         == if o.Some? then dst + EncodeFields(done) + Varint(Tag(f(o.value))) + Body(f(o.value)) else dst + EncodeFields(done)
  {
    hide Varint, Body, Tag, EncodeFields;
    now := done + OptionalField(o, f);
    if o.Some? {
      EncodeTogether(done, [f(o.value)]);
      EncodeOne(f(o.value));
      Associative(dst, EncodeFields(done), EncodeField(f(o.value)));
      Associative(dst + EncodeFields(done), Varint(Tag(f(o.value))), Body(f(o.value)));
    } else {
      assert done + [] == done;
    }
  }

  lemma EncodedPointer(level: nat, key: Bytes)
    ensures EncodeField(CompactPointer(level, key)) == Varint(5) + Varint(level) + LengthPrefixed(key)
  {
    hide Varint, LengthPrefixed;
    Associative(Varint(5), Varint(level), LengthPrefixed(key));
  }

  lemma EncodedDeletion(level: nat, n: Word64)
    ensures EncodeField(DeletedFile(level, n)) == Varint(6) + Varint(level) + Varint(n)
  {
    hide Varint, LengthPrefixed;
    Associative(Varint(6), Varint(level), Varint(n));
  }

  lemma EncodedAddition(level: nat, m: Meta)
    ensures EncodeField(NewFile(level, m))
         == Varint(7) + Varint(level) + Varint(m.number) + Varint(m.size) + LengthPrefixed(m.smallest) + LengthPrefixed(m.largest)
  {
    hide Varint, LengthPrefixed;
    var a, b, c, d, e, f := Varint(7), Varint(level), Varint(m.number), Varint(m.size), LengthPrefixed(m.smallest), LengthPrefixed(m.largest);
    Associative(a + b + c + d, e, f);
    Associative(a + b + c, d, e + f);
    Associative(a + b, c, d + (e + f));
    Associative(a, b, c + (d + (e + f)));
  }

  // The tag of a field comes first.
  lemma FieldLayout(f: Field)
    ensures EncodeField(f)[1..] == Body(f)
    ensures EncodeField(f)[0]
         == match f
            case Comparator(_) => 1
            case LogNumber(_) => 2
            case NextFileNumber(_) => 3
            case LastSequence(_) => 4
            case CompactPointer(_, _) => 5
            case DeletedFile(_, _) => 6
            case NewFile(_, _) => 7
            case PrevLogNumber(_) => 9
  {
    hide Body;
    assert Varint(Tag(f)) == [Tag(f)];
  }

  // The deleted files are a set, kept in order.
  lemma {:induction false} InsertDeletedIsSet(ds: seq<(nat, Word64)>, d: (nat, Word64))
    requires Ascending(ds)
    ensures Ascending(InsertDeleted(ds, d))
    ensures forall x :: x in InsertDeleted(ds, d) <==> x in ds || x == d
  {
    if ds != [] {
      var front, last := ds[..|ds| - 1], ds[|ds| - 1];
      assert ds == front + [last];
      if !Precedes(last, d) && d != last {
        InsertDeletedIsSet(front, d);
        var r := InsertDeleted(front, d);
        forall i | 0 <= i < |r| ensures Precedes(r[i], last) { assert r[i] in r; }
      }
    }
  }

  // The fields at the front of the input, as far as they can be parsed, and what is left.
  function ParsedFields(input: Bytes): (r: (seq<Field>, Bytes))
    decreases |input|
  {
    match ParseField(input)
    case Good(field, rest) =>
      var more := ParsedFields(rest);
      ([field] + more.0, more.1)
    case _ => ([], input)
  }

  lemma {:induction false} ApplyFieldFirst(e: Edit, f: Field, fields: seq<Field>)
    ensures ApplyFields(e, [f] + fields) == ApplyFields(ApplyField(e, f), fields)
  {
    hide ApplyField;
    if fields == [] {
      assert [f] + fields == [f] && [f][..0] == [];
      assert ApplyFields(e, [f][..0]) == e;
    } else {
      ApplyFieldFirst(e, f, fields[..|fields| - 1]);
      assert ([f] + fields)[..|fields|] == [f] + fields[..|fields| - 1];
    }
  }

  // Decoding any input applies the fields that parse, in order, and succeeds exactly if
  // nothing is left.
  lemma {:induction false} DecodeSucceedsIff(e: Edit, input: Bytes)
    ensures var d, parsed := DecodeInto(e, input), ParsedFields(input);
            && d.edit == ApplyFields(e, parsed.0)
            && (d.error.None? <==> parsed.1 == [])
    decreases |input|
  {
    hide ApplyField, ParseBody;
    match ParseField(input)
    case Good(field, rest) =>
      DecodeSucceedsIff(ApplyField(e, field), rest);
      ApplyFieldFirst(e, field, ParsedFields(rest).0);
    case NoTag =>
    case Bad(_) => EmptyHasNoTag();
  }

  lemma EmptyHasNoTag()
    ensures ParseField([]).NoTag?
  {
  }
}
