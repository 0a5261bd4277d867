// Searching the files of a version (db/version_set.cc).
module VersionSearch {
  import opened DbFormat
  import opened Tables

  type Levels = ls: seq<seq<File>> | |ls| == NUM_LEVELS witness seq(NUM_LEVELS, _ => [])

  // Level-0 files may overlap; a larger number means newer data.
  ghost predicate NumberedByAge(files: seq<File>) {
    && (forall f, g :: f in files && g in files && f.number > g.number ==> Newer(f.entries, g.entries))
    && (forall f, g :: f in files && g in files && f.number == g.number ==> f == g)
  }

  // Entries in a smaller level are newer.
  ghost predicate LayeredByAge(levels: Levels) {
    forall l, m, f, g :: 0 <= l < m < NUM_LEVELS && f in levels[l] && g in levels[m] ==> Newer(f.entries, g.entries)
  }

  ghost predicate AllWellFormed(levels: Levels) {
    forall l, f :: 0 <= l < NUM_LEVELS && f in levels[l] ==> WellFormed(f)
  }

  // What the search itself relies on.
  ghost predicate Searchable(levels: Levels) {
    && AllWellFormed(levels)
    && (forall l :: 1 <= l < NUM_LEVELS ==> Disjoint(levels[l]))
    && NumberedByAge(levels[0])
  }

  // What every version satisfies; the state machine keeps it.
  ghost predicate Layered(levels: Levels) {
    Searchable(levels) && LayeredByAge(levels)
  }

  ghost predicate InFiles(levels: Levels, e: Entry) {
    exists l, f :: 0 <= l < NUM_LEVELS && f in levels[l] && e in f.entries
  }

  // e is the newest entry in the files for the user key at or below the sequence number.
  ghost predicate NewestInFiles(levels: Levels, user: UserKey, sequence: SequenceNumber, e: Entry) {
    && InFiles(levels, e) && e.key.user == user && e.key.sequence <= sequence
    && forall o :: InFiles(levels, o) && o.key.user == user && o.key.sequence <= sequence ==> o.key.sequence <= e.key.sequence
  }

  // The index of the first file whose largest key is at or after the key.
  method FindFile(files: seq<File>, key: InternalKey) returns (right: nat)
    requires Disjoint(files)
    requires forall f :: f in files ==> WellFormed(f)
    ensures right <= |files|
    ensures forall i :: 0 <= i < right ==> Less(files[i].largest, key)
    ensures forall i :: right <= i < |files| ==> !Less(files[i].largest, key)
  {
    var left := 0;
    right := |files|;
    while left < right
      invariant left <= right <= |files|
      invariant forall i :: 0 <= i < left ==> Less(files[i].largest, key)
      invariant forall i :: right <= i < |files| ==> !Less(files[i].largest, key)
    {
      var mid := (left + right) / 2;
      LargestIncreasing(files, mid);
      if Less(files[mid].largest, key) {
        left := mid + 1;
      } else {
        right := mid;
      }
    }
  }

  lemma LargestIncreasing(files: seq<File>, mid: nat)
    requires mid < |files| && Disjoint(files)
    requires forall f :: f in files ==> WellFormed(f)
    ensures forall i :: 0 <= i < mid ==> Less(files[i].largest, files[mid].largest)
    ensures forall i :: mid < i < |files| ==> Less(files[mid].largest, files[i].largest)
  {
    forall i, j | 0 <= i < j < |files| ensures Less(files[i].largest, files[j].largest) {
      assert files[j] in files && Before(files[i], files[j]);
      FileRange(files[j], files[j].entries[0]);
    }
  }

  // A range of user keys; None stands for an absent (NULL) bound.
  datatype Range = Range(lo: Option<UserKey>, hi: Option<UserKey>)

  predicate Overlaps(f: File, r: Range) {
    && !(r.lo.Some? && f.largest.user < r.lo.value)
    && !(r.hi.Some? && r.hi.value < f.smallest.user)
  }

  predicate OverlapsAny(files: seq<File>, r: Range) {
    exists f :: f in files && Overlaps(f, r)
  }

  method SomeFileOverlapsRange(disjointSortedFiles: bool, files: seq<File>, r: Range) returns (overlap: bool)
    requires disjointSortedFiles ==> Disjoint(files)
    requires forall f :: f in files ==> WellFormed(f)
    ensures overlap <==> OverlapsAny(files, r)
  {
    if !disjointSortedFiles {
      for i := 0 to |files|
        invariant forall j :: 0 <= j < i ==> !Overlaps(files[j], r)
      {
        if Overlaps(files[i], r) {
          return true;
        }
      }
      return false;
    }
    var index := 0;
    if r.lo.Some? {
      index := FindFile(files, SeekKey(r.lo.value, MAX_SEQUENCE));
    }
    if index >= |files| {
      return false;
    }
    overlap := !(r.hi.Some? && r.hi.value < files[index].smallest.user);
    assert overlap ==> Overlaps(files[index], r);
    forall f | f in files && Overlaps(f, r) ensures overlap {
      var i :| 0 <= i < |files| && files[i] == f;
      if i > index {
        assert files[index] in files && Before(files[index], files[i]);
        FileRange(files[index], files[index].entries[0]);
      }
    }
  }

  // The files that overlap the range, in their order.
  function Overlapping(files: seq<File>, r: Range): (found: seq<File>)
    ensures forall f :: f in found <==> f in files && Overlaps(f, r)
    ensures |found| <= |files|
  {
    if files == [] then []
    else
      var last := |files| - 1;
      assert files == files[..last] + [files[last]];
      Overlapping(files[..last], r) + (if Overlaps(files[last], r) then [files[last]] else [])
  }

  // The file's user keys all lie in the range.
  predicate Within(f: File, r: Range) {
    (r.lo.Some? ==> r.lo.value <= f.smallest.user) && (r.hi.Some? ==> f.largest.user <= r.hi.value)
  }

  predicate Contains(outer: Range, inner: Range) {
    && (outer.lo.Some? ==> inner.lo.Some? && outer.lo.value <= inner.lo.value)
    && (outer.hi.Some? ==> inner.hi.Some? && inner.hi.value <= outer.hi.value)
    && (outer.lo.None? <==> inner.lo.None?) && (outer.hi.None? <==> inner.hi.None?)
  }

  // A range that contains the given one and that no file straddles.
  predicate Stable(files: seq<File>, r: Range, s: Range) {
    Contains(s, r) && forall f :: f in files && Overlaps(f, s) ==> Within(f, s)
  }

  // How often the range can still grow to a file boundary.
  function Growth(files: seq<File>, r: Range): nat {
    if files == [] then 0
    else
      (if r.lo.Some? && files[0].smallest.user < r.lo.value then 1 else 0)
      + (if r.hi.Some? && r.hi.value < files[0].largest.user then 1 else 0)
      + Growth(files[1..], r)
  }

  lemma {:induction false} GrowthShrinks(files: seq<File>, r: Range, s: Range)
    requires Contains(s, r)
    ensures Growth(files, s) <= Growth(files, r)
    ensures (exists f :: f in files && s.lo.Some? && f.smallest.user == s.lo.value < r.lo.value) ==> Growth(files, s) < Growth(files, r)
    ensures (exists f :: f in files && s.hi.Some? && f.largest.user == s.hi.value > r.hi.value) ==> Growth(files, s) < Growth(files, r)
  {
    if files != [] {
      assert files == [files[0]] + files[1..];
      GrowthShrinks(files[1..], r, s);
    }
  }

  // No stable range is smaller.
  ghost predicate Least(files: seq<File>, r: Range, cur: Range) {
    forall s :: Stable(files, r, s) ==> Contains(s, cur)
  }

  predicate InRange(x: UserKey, r: Range) {
    (r.lo.Some? ==> r.lo.value <= x) && (r.hi.Some? ==> x <= r.hi.value)
  }

  predicate RangeHas(f: File, user: UserKey) {
    f.smallest.user <= user <= f.largest.user
  }

  // Some file's range has the key.
  ghost predicate Covers(files: seq<File>, x: UserKey) {
    exists f :: f in files && RangeHas(f, x)
  }

  // A range grows only over keys that some file covers.
  ghost predicate GrownByFiles(files: seq<File>, r: Range, grown: Range) {
    forall x :: InRange(x, grown) && !InRange(x, r) ==> Covers(files, x)
  }

  // Growing to the bounds of a file that overlaps keeps inside every stable range.
  lemma GrowKeepsLeast(files: seq<File>, r: Range, cur: Range, f: File, next: Range)
    requires Contains(cur, r) && Least(files, r, cur) && GrownByFiles(files, r, cur)
    requires f in files && Overlaps(f, cur)
    requires || (next == cur.(lo := Some(f.smallest.user)) && cur.lo.Some? && f.smallest.user < cur.lo.value)
             || (next == cur.(hi := Some(f.largest.user)) && cur.hi.Some? && cur.hi.value < f.largest.user)
    ensures Contains(next, r) && Least(files, r, next) && GrownByFiles(files, r, next)
    ensures Growth(files, next) < Growth(files, cur)
  {
    GrowthShrinks(files, cur, next);
    forall s | Stable(files, r, s) ensures Contains(s, next) {
      assert Overlaps(f, s);
    }
    forall x | InRange(x, next) && !InRange(x, r) ensures Covers(files, x) {
      if !InRange(x, cur) { assert RangeHas(f, x); }
    }
  }

  // GetOverlappingInputs.  Above level 0 the result is exactly the files that overlap
  // the range.  At level 0 the range first grows to the least one no file straddles.
  method GetOverlappingInputs(level: nat, files: seq<File>, r: Range)
    returns (inputs: seq<File>, ghost grown: Range)
    ensures inputs == Overlapping(files, grown)
    ensures level > 0 ==> grown == r
    ensures level == 0 ==> Stable(files, r, grown) && Least(files, r, grown)
    ensures Contains(grown, r) && GrownByFiles(files, r, grown)
  {
    var cur := r;
    inputs := [];
    var i := 0;
    while i < |files|
      invariant i <= |files|
      invariant inputs == Overlapping(files[..i], cur)
      invariant level > 0 ==> cur == r
      invariant level == 0 ==> forall f :: f in inputs ==> Within(f, cur)
      invariant Contains(cur, r) && Least(files, r, cur) && GrownByFiles(files, r, cur)
      decreases Growth(files, cur), |files| - i
    {
      var f := files[i];
      i := i + 1;
      assert files[..i][..i - 1] == files[..i - 1];
      if Overlaps(f, cur) {
        inputs := inputs + [f];
        if level == 0 {
          if cur.lo.Some? && f.smallest.user < cur.lo.value {
            GrowKeepsLeast(files, r, cur, f, cur.(lo := Some(f.smallest.user)));
            cur := cur.(lo := Some(f.smallest.user));
            inputs, i := [], 0;
          } else if cur.hi.Some? && cur.hi.value < f.largest.user {
            GrowKeepsLeast(files, r, cur, f, cur.(hi := Some(f.largest.user)));
            cur := cur.(hi := Some(f.largest.user));
            inputs, i := [], 0;
          }
        }
      }
    }
    assert files[..i] == files;
    grown := cur;
  }

  const MAX_GRANDPARENT_OVERLAP_BYTES := 10 * (2 * 1048576)
  const MAX_MEM_COMPACT_LEVEL := 2

  function TotalFileSize(files: seq<File>): nat {
    if files == [] then 0 else files[0].size + TotalFileSize(files[1..])
  }

  // A table with this range of user keys may be pushed from the level to the next.
  predicate MayPushBelow(levels: Levels, level: nat, r: Range)
    requires level < MAX_MEM_COMPACT_LEVEL
  {
    !OverlapsAny(levels[level + 1], r) &&
    TotalFileSize(Overlapping(levels[level + 2], r)) <= MAX_GRANDPARENT_OVERLAP_BYTES
  }

  method CanPushBelow(levels: Levels, level: nat, r: Range) returns (ok: bool)
    requires level < MAX_MEM_COMPACT_LEVEL
    requires Disjoint(levels[level + 1]) && forall f :: f in levels[level + 1] ==> WellFormed(f)
    ensures ok <==> MayPushBelow(levels, level, r)
  {
    var overlap := SomeFileOverlapsRange(true, levels[level + 1], r);
    if overlap {
      return false;
    }
    var overlaps, _ := GetOverlappingInputs(level + 2, levels[level + 2], r);
    ok := TotalFileSize(overlaps) <= MAX_GRANDPARENT_OVERLAP_BYTES;
  }

  // The level where a flushed memtable goes: as deep as the pushes allow, at most 2,
  // and level 0 unless nothing there overlaps.
  ghost predicate FlushLevel(levels: Levels, r: Range, level: nat) {
    && level <= MAX_MEM_COMPACT_LEVEL
    && (level > 0 ==> !OverlapsAny(levels[0], r))
    && (forall l :: 0 <= l < level ==> MayPushBelow(levels, l, r))
    && (level < MAX_MEM_COMPACT_LEVEL ==> OverlapsAny(levels[0], r) || !MayPushBelow(levels, level, r))
  }

  method PickLevelForMemTableOutput(levels: Levels, r: Range) returns (level: nat)
    requires AllWellFormed(levels) && forall l :: 1 <= l < NUM_LEVELS ==> Disjoint(levels[l])
    ensures FlushLevel(levels, r, level)
    ensures level <= 2 && (level > 0 ==> forall l :: 0 <= l <= level ==> !OverlapsAny(levels[l], r))
    ensures forall l :: 2 <= l <= level + 1 ==> TotalFileSize(Overlapping(levels[l], r)) <= MAX_GRANDPARENT_OVERLAP_BYTES
    ensures level < 2 ==>
      || OverlapsAny(levels[0], r) || OverlapsAny(levels[level + 1], r)
      || TotalFileSize(Overlapping(levels[level + 2], r)) > MAX_GRANDPARENT_OVERLAP_BYTES
  {
    level := 0;
    var overlap := SomeFileOverlapsRange(false, levels[0], r);
    if !overlap {
      while level < MAX_MEM_COMPACT_LEVEL
        invariant level <= MAX_MEM_COMPACT_LEVEL
        invariant forall l :: 0 <= l < level ==> MayPushBelow(levels, l, r)
      {
        var push := CanPushBelow(levels, level, r);
        if !push {
          break;
        }
        level := level + 1;
      }
    }
    if level > 0 { FlushLevelIsClear(levels, r, level); }
    forall l | 2 <= l <= level + 1 ensures TotalFileSize(Overlapping(levels[l], r)) <= MAX_GRANDPARENT_OVERLAP_BYTES {
      assert MayPushBelow(levels, l - 2, r);
    }
  }

  // A table pushed below level 0 overlaps nothing at its level or above it.
  lemma FlushLevelIsClear(levels: Levels, r: Range, level: nat)
    requires FlushLevel(levels, r, level) && level > 0
    ensures forall l :: 0 <= l <= level ==> !OverlapsAny(levels[l], r)
  {
    forall l | 1 <= l <= level ensures !OverlapsAny(levels[l], r) {
      assert MayPushBelow(levels, l - 1, r);
    }
  }

  predicate NewestFirst(files: seq<File>) {
    forall i, j :: 0 <= i < j < |files| ==> files[i].number >= files[j].number
  }

  function InsertNewestFirst(files: seq<File>, f: File): (r: seq<File>)
    requires NewestFirst(files)
    ensures NewestFirst(r)
    ensures forall g :: g in r <==> g in files || g == f
  {
    if files == [] || f.number >= files[0].number then
      assert forall i :: 0 <= i < |files| ==> f.number >= files[i].number || files == [];
      [f] + files
    else
      assert files == [files[0]] + files[1..];
      var rest := InsertNewestFirst(files[1..], f);
      assert forall i :: 0 <= i < |rest| ==> rest[i] in rest;
      [files[0]] + rest
  }

  // found is the newest entry in these files for the key, or there is none.
  ghost predicate FoundNewest(files: seq<File>, user: UserKey, sequence: SequenceNumber, found: Option<Entry>) {
    match found
    case Some(e) =>
      && e.key.user == user && e.key.sequence <= sequence && (exists f :: f in files && e in f.entries)
      && (forall f, o :: f in files && o in f.entries && o.key.user == user && o.key.sequence <= sequence ==> o.key.sequence <= e.key.sequence)
    case None =>
      forall f, o :: f in files && o in f.entries && o.key.user == user ==> o.key.sequence > sequence
  }

  // The level-0 files whose range has the key, by descending number.
  method CollectNewestFirst(files: seq<File>, user: UserKey) returns (tmp: seq<File>)
    ensures NewestFirst(tmp)
    ensures forall f :: f in tmp <==> f in files && RangeHas(f, user)
  {
    tmp := [];
    for i := 0 to |files|
      invariant NewestFirst(tmp)
      invariant forall f :: f in tmp <==> f in files[..i] && RangeHas(f, user)
    {
      assert files[..i + 1] == files[..i] + [files[i]];
      if RangeHas(files[i], user) {
        tmp := InsertNewestFirst(tmp, files[i]);
      }
    }
    assert files[..|files|] == files;
  }

  // No entry of the file is visible for the key.
  predicate Misses(f: File, user: UserKey, sequence: SequenceNumber) {
    forall o :: o in f.entries && o.key.user == user ==> o.key.sequence > sequence
  }

  // The first file in the order with an entry for the key has the newest one.
  lemma FirstHitIsNewest(files: seq<File>, tmp: seq<File>, i: nat, user: UserKey, sequence: SequenceNumber, e: Entry)
    requires NumberedByAge(files) && NewestFirst(tmp) && i < |tmp|
    requires forall f :: f in files ==> WellFormed(f)
    requires forall f :: f in tmp <==> f in files && RangeHas(f, user)
    requires forall j :: 0 <= j < i ==> Misses(tmp[j], user, sequence)
    requires FoundNewest([tmp[i]], user, sequence, Some(e))
    ensures FoundNewest(files, user, sequence, Some(e))
  {
    var hit := tmp[i];
    assert hit in tmp && hit in [tmp[i]];
    forall f, o | f in files && o in f.entries && o.key.user == user && o.key.sequence <= sequence
      ensures o.key.sequence <= e.key.sequence
    {
      FileRange(f, o);
      var j :| 0 <= j < |tmp| && tmp[j] == f;
      if hit.number > f.number { assert Newer(hit.entries, f.entries); }
    }
  }

  // The level-0 part of Get: stop at the newest file that has an entry for the key.
  method SearchLevelZero(files: seq<File>, user: UserKey, sequence: SequenceNumber) returns (found: Option<Entry>)
    requires forall f :: f in files ==> WellFormed(f)
    requires NumberedByAge(files)
    ensures FoundNewest(files, user, sequence, found)
  {
    var tmp := CollectNewestFirst(files, user);
    for i := 0 to |tmp|
      invariant forall j :: 0 <= j < i ==> Misses(tmp[j], user, sequence)
    {
      assert tmp[i] in tmp;
      found := SeekEntry(tmp[i].entries, user, sequence);
      SeekEntryIsNewest(tmp[i].entries, user, sequence);
      if found.Some? {
        assert tmp[i] in [tmp[i]];
        FirstHitIsNewest(files, tmp, i, user, sequence, found.value);
        return;
      }
    }
    forall f, o | f in files && o in f.entries && o.key.user == user ensures o.key.sequence > sequence {
      FileRange(f, o);
      var j :| 0 <= j < |tmp| && tmp[j] == f;
      assert Misses(tmp[j], user, sequence);
    }
    found := None;
  }

  // A deeper level: binary search to the one file that can hold the entry.
  method SearchSortedLevel(files: seq<File>, user: UserKey, sequence: SequenceNumber) returns (found: Option<Entry>)
    requires Disjoint(files)
    requires forall f :: f in files ==> WellFormed(f)
    ensures FoundNewest(files, user, sequence, found)
  {
    var key := SeekKey(user, sequence);
    var index := FindFile(files, key);
    if index >= |files| || user < files[index].smallest.user {
      found := None;
    } else {
      found := SeekEntry(files[index].entries, user, sequence);
      assert files[index] in files;
      SeekEntryIsNewest(files[index].entries, user, sequence);
    }
    forall f, o | f in files && o in f.entries && o.key.user == user && o.key.sequence <= sequence
      ensures found.Some? && o.key.sequence <= found.value.key.sequence
    {
      FileRange(f, o);
      var i :| 0 <= i < |files| && files[i] == f;
      assert !Less(o.key, key);
      assert i >= index;
      if i > index {
        assert files[index] in files && Before(files[index], files[i]);
        var last := files[index].entries[|files[index].entries| - 1];
        assert last in files[index].entries;
      }
    }
  }

  lemma OtherLevelsOlder(levels: Levels, level: nat, user: UserKey, sequence: SequenceNumber, e: Entry, l: nat, f: File, o: Entry)
    requires LayeredByAge(levels) && level < NUM_LEVELS && l < NUM_LEVELS
    requires FoundNewest(levels[level], user, sequence, Some(e))
    requires l < level ==> FoundNewest(levels[l], user, sequence, None)
    requires f in levels[l] && o in f.entries && o.key.user == user && o.key.sequence <= sequence
    ensures o.key.sequence <= e.key.sequence
  {
    if level < l {
      var g :| g in levels[level] && e in g.entries;
      assert Newer(g.entries, f.entries);
    }
  }

  // An entry that is newest in its level, with none above, is newest of all.
  lemma FoundAtLevel(levels: Levels, level: nat, user: UserKey, sequence: SequenceNumber, e: Entry)
    requires LayeredByAge(levels) && level < NUM_LEVELS
    requires FoundNewest(levels[level], user, sequence, Some(e))
    requires forall l :: 0 <= l < level ==> FoundNewest(levels[l], user, sequence, None)
    ensures NewestInFiles(levels, user, sequence, e)
  {
    forall o | InFiles(levels, o) && o.key.user == user && o.key.sequence <= sequence
      ensures o.key.sequence <= e.key.sequence
    {
      var l, f :| 0 <= l < NUM_LEVELS && f in levels[l] && o in f.entries;
      OtherLevelsOlder(levels, level, user, sequence, e, l, f, o);
    }
  }

  // The search stops at the first level that has an entry for the key.
  ghost predicate SearchFinds(levels: Levels, user: UserKey, sequence: SequenceNumber, r: Lookup) {
    if r.Absent? then forall l :: 0 <= l < NUM_LEVELS ==> FoundNewest(levels[l], user, sequence, None)
    else exists level, e :: FirstHit(levels, level, user, sequence, e) && r == Outcome(e)
  }

  ghost predicate FirstHit(levels: Levels, level: nat, user: UserKey, sequence: SequenceNumber, e: Entry) {
    && level < NUM_LEVELS
    && FoundNewest(levels[level], user, sequence, Some(e))
    && forall l :: 0 <= l < level ==> FoundNewest(levels[l], user, sequence, None)
  }

  // Version::Get.
  method Get(levels: Levels, user: UserKey, sequence: SequenceNumber) returns (r: Lookup)
    requires Searchable(levels)
    ensures SearchFinds(levels, user, sequence, r)
  {
    for level := 0 to NUM_LEVELS
      invariant forall l :: 0 <= l < level ==> FoundNewest(levels[l], user, sequence, None)
    {
      var found;
      if level == 0 {
        found := SearchLevelZero(levels[0], user, sequence);
      } else {
        found := SearchSortedLevel(levels[level], user, sequence);
      }
      if found.Some? {
        assert FirstHit(levels, level, user, sequence, found.value);
        return Outcome(found.value);
      }
    }
    r := Absent;
  }

  // Stopping early is right when entries in a smaller level are newer.
  lemma SearchFindsNewest(levels: Levels, user: UserKey, sequence: SequenceNumber, r: Lookup)
    requires LayeredByAge(levels) && SearchFinds(levels, user, sequence, r)
    ensures r.Absent? ==> forall o :: InFiles(levels, o) && o.key.user == user ==> o.key.sequence > sequence
    ensures !r.Absent? ==> exists e :: NewestInFiles(levels, user, sequence, e) && r == Outcome(e)
  {
    if r.Absent? {
      forall o | InFiles(levels, o) && o.key.user == user ensures o.key.sequence > sequence {
        var l, f :| 0 <= l < NUM_LEVELS && f in levels[l] && o in f.entries;
        assert FoundNewest(levels[l], user, sequence, None);
      }
    } else {
      var level, e :| FirstHit(levels, level, user, sequence, e) && r == Outcome(e);
      FoundAtLevel(levels, level, user, sequence, e);
    }
  }
}
