// Choosing the input files of a compaction (VersionSet::PickCompaction, CompactRange,
// SetupOtherInputs and GetRange in db/version_set.cc).
module CompactionInputs {
  import opened DbFormat
  import opened Tables
  import opened VersionSearch

  // The least range of user keys that covers the files.
  predicate Spans(files: seq<File>, r: Range) {
    && r.lo.Some? && r.hi.Some?
    && (forall f :: f in files ==> Within(f, r))
    && (exists f :: f in files && f.smallest.user == r.lo.value)
    && (exists f :: f in files && f.largest.user == r.hi.value)
  }

  // GetRange: the smallest and the largest internal key of the files.
  method GetRange(files: seq<File>) returns (smallest: InternalKey, largest: InternalKey)
    requires files != []
    ensures forall f :: f in files ==> !Less(f.smallest, smallest) && !Less(largest, f.largest)
    ensures exists f :: f in files && f.smallest == smallest
    ensures exists f :: f in files && f.largest == largest
    ensures Spans(files, Range(Some(smallest.user), Some(largest.user)))
  {
    smallest, largest := files[0].smallest, files[0].largest;
    for i := 1 to |files|
      invariant forall j :: 0 <= j < i ==> !Less(files[j].smallest, smallest) && !Less(largest, files[j].largest)
      invariant exists f :: f in files && f.smallest == smallest
      invariant exists f :: f in files && f.largest == largest
    {
      if Less(files[i].smallest, smallest) {
        smallest := files[i].smallest;
      }
      if Less(largest, files[i].largest) {
        largest := files[i].largest;
      }
    }
  }

  // What the choice of inputs guarantees: in0 are files of the level, in1 are exactly the
  // files of the next level that overlap them, and at level 0 no file is left behind.
  ghost predicate Selected(levels: Levels, level: nat, in0: seq<File>, in1: seq<File>, hull: Range) {
    && level + 1 < NUM_LEVELS
    && in0 != [] && Spans(in0, hull)
    && (forall f :: f in in0 ==> f in levels[level])
    && in1 == Overlapping(levels[level + 1], hull)
    && (level == 0 ==> forall f :: f in levels[0] && Overlaps(f, hull) ==> f in in0)
  }

  // The inputs' ranges leave no gap between them.
  ghost predicate Gapless(files: seq<File>) {
    forall f, g, x :: f in files && g in files && f.smallest.user <= x <= g.largest.user ==> Covers(files, x)
  }

  lemma OneFileIsGapless(f: File)
    ensures Gapless([f])
  {
    forall g, h, x | g in [f] && h in [f] && g.smallest.user <= x <= h.largest.user ensures Covers([f], x) {
      assert RangeHas(f, x);
    }
  }

  lemma CoversMore(files: seq<File>, more: seq<File>, x: UserKey)
    requires forall f :: f in files ==> f in more
    requires Covers(files, x)
    ensures Covers(more, x)
  {
    var f :| f in files && RangeHas(f, x);
  }

  // Files that all touch a covered range extend it without a gap.
  lemma TouchingKeepsGapless(files: seq<File>, core: Range)
    requires core.lo.Some? && core.hi.Some? && core.lo.value <= core.hi.value
    requires forall x :: InRange(x, core) ==> Covers(files, x)
    requires forall f :: f in files ==> Overlaps(f, core) && f.smallest.user <= f.largest.user
    ensures Gapless(files)
  {
    forall f, g, x | f in files && g in files && f.smallest.user <= x <= g.largest.user ensures Covers(files, x) {
      if x < core.lo.value {
        assert RangeHas(f, x);
      } else if core.hi.value < x {
        assert RangeHas(g, x);
      } else {
        assert InRange(x, core);
      }
    }
  }

  predicate ValidRanges(files: seq<File>) {
    forall f :: f in files ==> f.smallest.user <= f.largest.user
  }

  lemma SpannedRangeIsCovered(files: seq<File>, r: Range, more: seq<File>, x: UserKey)
    requires Gapless(files) && Spans(files, r) && InRange(x, r)
    requires forall f :: f in files ==> f in more
    ensures Covers(more, x)
  {
    var f :| f in files && f.smallest.user == r.lo.value;
    var g :| g in files && g.largest.user == r.hi.value;
    assert Covers(files, x);
    CoversMore(files, more, x);
  }

  // Adding the files of the next level that overlap the inputs leaves no gap.
  lemma NextLevelIsGapless(in0: seq<File>, in1: seq<File>, hull: Range)
    requires Gapless(in0) && in0 != [] && Spans(in0, hull) && ValidRanges(in0) && ValidRanges(in1)
    requires forall f :: f in in1 ==> Overlaps(f, hull)
    ensures Gapless(in0 + in1)
  {
    forall x | InRange(x, hull) ensures Covers(in0 + in1, x) {
      SpannedRangeIsCovered(in0, hull, in0 + in1, x);
    }
    assert in0[0] in in0;
    TouchingKeepsGapless(in0 + in1, hull);
  }

  function Widest(a: Range, b: Range): Range
    requires a.lo.Some? && a.hi.Some? && b.lo.Some? && b.hi.Some?
  {
    Range(Some(if a.lo.value <= b.lo.value then a.lo.value else b.lo.value),
          Some(if a.hi.value <= b.hi.value then b.hi.value else a.hi.value))
  }

  lemma GrownIsCovered(files: seq<File>, inputs: seq<File>, all: Range, grown: Range, union: seq<File>, x: UserKey)
    requires Gapless(inputs) && Spans(inputs, all) && GrownByFiles(files, all, grown) && InRange(x, grown)
    requires (forall f :: f in inputs ==> f in union) && forall f :: f in files && Overlaps(f, grown) ==> f in union
    ensures Covers(union, x)
  {
    if InRange(x, all) {
      SpannedRangeIsCovered(inputs, all, union, x);
    } else {
      var f :| f in files && RangeHas(f, x);
      assert f in union;
    }
  }

  // Growing the inputs of the level to everything that overlaps the whole compaction,
  // and then taking the next level again, leaves no gap either.
  lemma ExpandedIsGapless(files: seq<File>, inputs: seq<File>, all: Range, grown: Range,
                          expanded0: seq<File>, hull: Range, expanded1: seq<File>)
    requires Gapless(inputs) && Spans(inputs, all) && ValidRanges(inputs)
    requires Contains(grown, all) && GrownByFiles(files, all, grown)
    requires expanded0 == Overlapping(files, grown) && ValidRanges(files)
    requires expanded0 != [] && Spans(expanded0, hull)
    requires (forall f :: f in expanded1 ==> Overlaps(f, hull)) && ValidRanges(expanded1)
    requires forall f :: f in inputs ==> f in expanded0 + expanded1
    requires grown == all || forall f :: f in expanded0 ==> Within(f, grown)
    ensures Gapless(expanded0 + expanded1)
  {
    var union := expanded0 + expanded1;
    var core := Widest(all, hull);
    forall x | InRange(x, grown) ensures Covers(union, x) {
      GrownIsCovered(files, inputs, all, grown, union, x);
    }
    var lowest :| lowest in expanded0 && lowest.smallest.user == hull.lo.value;
    var highest :| highest in expanded0 && highest.largest.user == hull.hi.value;
    forall x | InRange(x, core) ensures Covers(union, x) {
      if !InRange(x, grown) {
        assert grown == all;
        if x < all.lo.value { assert RangeHas(lowest, x); } else { assert RangeHas(highest, x); }
      }
    }
    var some :| some in inputs && some.smallest.user == all.lo.value;
    TouchingKeepsGapless(union, core);
  }

  // The chosen files are in the order of their level.
  predicate InLevelOrder(files: seq<File>, chosen: seq<File>) {
    (Disjoint(files) ==> Disjoint(chosen)) && (Ordered(files) ==> Ordered(chosen))
  }

  lemma OverlappingInLevelOrder(files: seq<File>, r: Range)
    ensures InLevelOrder(files, Overlapping(files, r))
  {
    if Disjoint(files) { OverlappingIsDisjoint(files, r); }
    if Ordered(files) { OverlappingIsOrdered(files, r); }
  }

  lemma {:induction false} OverlappingIsDisjoint(files: seq<File>, r: Range)
    requires Disjoint(files)
    ensures Disjoint(Overlapping(files, r))
  {
    if files != [] {
      var front := files[..|files| - 1];
      OverlappingIsDisjoint(front, r);
      var rest := Overlapping(front, r);
      assert forall i :: 0 <= i < |rest| ==> rest[i] in front;
    }
  }

  lemma {:induction false} OverlappingIsOrdered(files: seq<File>, r: Range)
    requires Ordered(files)
    ensures Ordered(Overlapping(files, r))
  {
    if files != [] {
      var front := files[..|files| - 1];
      OverlappingIsOrdered(front, r);
      var rest := Overlapping(front, r);
      assert forall i :: 0 <= i < |rest| ==> rest[i] in front;
    }
  }

  // MaxFileSizeForLevel: where an output file is closed and a manual compaction is cut.
  const TARGET_FILE_SIZE := 2 * 1048576
  const EXPANDED_COMPACTION_BYTE_SIZE_LIMIT := 25 * TARGET_FILE_SIZE

  // At level 0 no file outside overlaps the range of the chosen ones.
  ghost predicate ClosedAtZero(levels: Levels, level: nat, in0: seq<File>) {
    level == 0 ==> forall r, f :: Spans(in0, r) && f in levels[0] && Overlaps(f, r) ==> f in in0
  }

  lemma OverlappingIsClosed(levels: Levels, level: nat, r: Range, grown: Range, in0: seq<File>)
    requires level < NUM_LEVELS
    requires in0 == Overlapping(levels[level], grown)
    requires level == 0 ==> Stable(levels[0], r, grown)
    ensures ClosedAtZero(levels, level, in0)
  {
  }

  // What GetOverlappingInputs collects; at level 0 the range grows first.
  ghost predicate Collected(level: nat, files: seq<File>, r: Range, grown: Range, inputs: seq<File>) {
    && inputs == Overlapping(files, grown)
    && if level == 0 then Stable(files, r, grown) && Least(files, r, grown) else grown == r
  }

  // More files of the level can be taken in, within the size limit, without pulling in
  // more files of the next level.
  ghost predicate Grows(levels: Levels, level: nat, in0: seq<File>, in1: seq<File>, new0: seq<File>, new1: seq<File>)
    requires level + 1 < NUM_LEVELS
  {
    exists all, grown, r :: GrowsTo(levels, level, in0, in1, new0, new1, all, grown, r)
  }

  ghost predicate GrowsTo(levels: Levels, level: nat, in0: seq<File>, in1: seq<File>, new0: seq<File>, new1: seq<File>,
                          all: Range, grown: Range, r: Range)
    requires level + 1 < NUM_LEVELS
  {
    && Spans(in0 + in1, all) && Collected(level, levels[level], all, grown, new0)
    && |new0| > |in0| && TotalFileSize(in1) + TotalFileSize(new0) < EXPANDED_COMPACTION_BYTE_SIZE_LIMIT
    && Spans(new0, r) && new1 == Overlapping(levels[level + 1], r) && |new1| == |in1|
  }

  ghost predicate CanGrow(levels: Levels, level: nat, in0: seq<File>, in1: seq<File>)
    requires level + 1 < NUM_LEVELS
  {
    exists new0, new1 :: Grows(levels, level, in0, in1, new0, new1)
  }

  lemma SpansOnlyOne(files: seq<File>, r: Range, s: Range)
    requires Spans(files, r) && Spans(files, s)
    ensures r == s
  {
  }

  lemma CollectedOnlyOne(level: nat, files: seq<File>, r: Range, g: Range, h: Range, a: seq<File>, b: seq<File>)
    requires Collected(level, files, r, g, a) && Collected(level, files, r, h, b)
    ensures g == h && a == b
  {
  }

  // There is only one way to grow.
  lemma GrowsOneWay(levels: Levels, level: nat, in0: seq<File>, in1: seq<File>, all: Range, grown: Range, e0: seq<File>,
                    new0: seq<File>, new1: seq<File>)
    requires level + 1 < NUM_LEVELS
    requires Spans(in0 + in1, all) && Collected(level, levels[level], all, grown, e0)
    requires Grows(levels, level, in0, in1, new0, new1)
    ensures new0 == e0 && |e0| > |in0|
    ensures TotalFileSize(in1) + TotalFileSize(e0) < EXPANDED_COMPACTION_BYTE_SIZE_LIMIT
    ensures forall r :: Spans(e0, r) ==> |Overlapping(levels[level + 1], r)| == |in1|
  {
    var a, g, s :| GrowsTo(levels, level, in0, in1, new0, new1, a, g, s);
    SpansOnlyOne(in0 + in1, a, all);
    CollectedOnlyOne(level, levels[level], all, g, grown, new0, e0);
    forall r | Spans(e0, r) ensures r == s {
      SpansOnlyOne(e0, r, s);
    }
  }

  lemma OnlyGrowth(levels: Levels, level: nat, in0: seq<File>, in1: seq<File>, all: Range, grown: Range, e0: seq<File>)
    requires level + 1 < NUM_LEVELS && CanGrow(levels, level, in0, in1)
    requires Spans(in0 + in1, all) && Collected(level, levels[level], all, grown, e0)
    ensures |e0| > |in0| && TotalFileSize(in1) + TotalFileSize(e0) < EXPANDED_COMPACTION_BYTE_SIZE_LIMIT
    ensures forall r :: Spans(e0, r) ==> |Overlapping(levels[level + 1], r)| == |in1|
  {
    var new0, new1 :| Grows(levels, level, in0, in1, new0, new1);
    GrowsOneWay(levels, level, in0, in1, all, grown, e0, new0, new1);
  }

  // The inputs that SetupOtherInputs makes of the files chosen first.
  ghost predicate SetUp(levels: Levels, level: nat, chosen: seq<File>, in0: seq<File>, in1: seq<File>)
    requires level + 1 < NUM_LEVELS
  {
    exists r :: Spans(chosen, r) && SetUpFrom(levels, level, chosen, Overlapping(levels[level + 1], r), in0, in1)
  }

  ghost predicate SetUpFrom(levels: Levels, level: nat, chosen: seq<File>, next: seq<File>, in0: seq<File>, in1: seq<File>)
    requires level + 1 < NUM_LEVELS
  {
    if next != [] && CanGrow(levels, level, chosen, next) then Grows(levels, level, chosen, next, in0, in1)
    else in0 == chosen && in1 == next
  }

  // The largest key of the files, where the next compaction of their level will begin.
  predicate LargestOf(files: seq<File>, key: InternalKey) {
    (forall f :: f in files ==> !Less(key, f.largest)) && exists f :: f in files && f.largest == key
  }

  // The files two levels down that overlap the inputs.
  ghost predicate AreGrandparents(levels: Levels, level: nat, in0: seq<File>, in1: seq<File>, grandparents: seq<File>) {
    if level + 2 < NUM_LEVELS then exists all :: Spans(in0 + in1, all) && grandparents == Overlapping(levels[level + 2], all)
    else grandparents == []
  }

  method SetupOtherInputs(levels: Levels, level: nat, chosen: seq<File>)
    returns (in0: seq<File>, in1: seq<File>, grandparents: seq<File>, compactPointer: InternalKey, ghost hull: Range)
    requires level + 1 < NUM_LEVELS && forall l :: 0 <= l < NUM_LEVELS ==> ValidRanges(levels[l])
    requires chosen != [] && forall f :: f in chosen ==> f in levels[level]
    requires ClosedAtZero(levels, level, chosen) && InLevelOrder(levels[level], chosen)
    ensures Selected(levels, level, in0, in1, hull) && InLevelOrder(levels[level], in0)
    ensures SetUp(levels, level, chosen, in0, in1)
    ensures Gapless(chosen) ==> Gapless(in0 + in1)
    ensures forall f :: f in chosen ==> f in in0
    ensures AreGrandparents(levels, level, in0, in1, grandparents)
    ensures LargestOf(in0, compactPointer)
  {
    hide CanGrow, Grows, LargestOf;
    var smallest, largest := GetRange(chosen);
    LargestFound(chosen, largest);
    compactPointer := largest;
    hull := Range(Some(smallest.user), Some(largest.user));
    in0 := chosen;
    ghost var grown;
    in1, grown := GetOverlappingInputs(level + 1, levels[level + 1], Range(Some(smallest.user), Some(largest.user)));
    ghost var first1 := in1;
    assert Spans(chosen, hull) && first1 == Overlapping(levels[level + 1], hull);
    var allStart, allLimit := GetRange(in0 + in1);
    if Gapless(chosen) { NextLevelIsGapless(in0, in1, hull); }
    if in1 != [] {
      var e0, e1, limit, eh := TryExpand(levels, level, in0, in1, Range(Some(allStart.user), Some(allLimit.user)), largest, hull);
      in0, in1, compactPointer, hull := e0, e1, limit, eh;
      allStart, allLimit := GetRange(in0 + in1);
    }
    assert SetUpFrom(levels, level, chosen, first1, in0, in1);
    grandparents := [];
    if level + 2 < NUM_LEVELS {
      grandparents, grown := GetOverlappingInputs(level + 2, levels[level + 2], Range(Some(allStart.user), Some(allLimit.user)));
    }
  }

  lemma LargestFound(files: seq<File>, key: InternalKey)
    requires (forall f :: f in files ==> !Less(key, f.largest)) && exists f :: f in files && f.largest == key
    ensures LargestOf(files, key)
  {
  }

  // Everything that overlapped still overlaps the larger range.
  lemma ExpansionKeepsInputs(levels: Levels, level: nat, in0: seq<File>, in1: seq<File>, hull: Range, all: Range,
                             grown: Range, expanded0: seq<File>, r: Range, expanded1: seq<File>)
    requires level + 1 < NUM_LEVELS && ValidRanges(in0)
    requires forall f :: f in in0 ==> f in levels[level]
    requires Spans(in0, hull) && in1 == Overlapping(levels[level + 1], hull)
    requires Spans(in0 + in1, all) && Contains(grown, all)
    requires expanded0 == Overlapping(levels[level], grown) && Spans(expanded0, r)
    requires expanded1 == Overlapping(levels[level + 1], r)
    ensures forall f :: f in in0 ==> f in expanded0
    ensures forall f :: f in in1 ==> f in expanded1
  {
    forall f | f in in0 ensures f in expanded0 {
      assert f in in0 + in1;
      assert Within(f, all);
    }
  }

  // The middle part of SetupOtherInputs: take in more files of the level if that pulls
  // in no more files of the next one.
  method TryExpand(levels: Levels, level: nat, in0: seq<File>, in1: seq<File>, all: Range, largest: InternalKey, ghost hull: Range)
    returns (new0: seq<File>, new1: seq<File>, newLargest: InternalKey, ghost newHull: Range)
    requires forall l :: 0 <= l < NUM_LEVELS ==> ValidRanges(levels[l])
    requires Selected(levels, level, in0, in1, hull) && Spans(in0 + in1, all) && InLevelOrder(levels[level], in0)
    requires LargestOf(in0, largest)
    ensures Selected(levels, level, new0, new1, newHull) && InLevelOrder(levels[level], new0)
    ensures if CanGrow(levels, level, in0, in1) then Grows(levels, level, in0, in1, new0, new1) else new0 == in0 && new1 == in1
    ensures Gapless(in0 + in1) ==> Gapless(new0 + new1)
    ensures (forall f :: f in in0 ==> f in new0) && forall f :: f in in1 ==> f in new1
    ensures LargestOf(new0, newLargest)
  {
    hide Stable, Least, ClosedAtZero, Gapless, InLevelOrder, LargestOf, CanGrow, Grows, GrownByFiles, Contains, Overlapping, Spans, Collected, ValidRanges;
    var expanded0, grown := GetOverlappingInputs(level, levels[level], all);
    WasCollected(level, levels[level], all, grown, expanded0);
    if CanGrow(levels, level, in0, in1) { OnlyGrowth(levels, level, in0, in1, all, grown, expanded0); }
    if |expanded0| > |in0| && TotalFileSize(in1) + TotalFileSize(expanded0) < EXPANDED_COMPACTION_BYTE_SIZE_LIMIT {
      var newStart, newLimit := GetRange(expanded0);
      LargestFound(expanded0, newLimit);
      var r := Range(Some(newStart.user), Some(newLimit.user));
      ghost var same;
      new1, same := GetOverlappingInputs(level + 1, levels[level + 1], r);
      if |new1| == |in1| {
        GrownIsSelected(levels, level, in0, in1, hull, all, grown, expanded0, r, new1);
        return expanded0, new1, newLimit, r;
      }
    }
    return in0, in1, largest, hull;
  }

  lemma WasCollected(level: nat, files: seq<File>, r: Range, grown: Range, inputs: seq<File>)
    requires inputs == Overlapping(files, grown)
    requires if level == 0 then Stable(files, r, grown) && Least(files, r, grown) else grown == r
    ensures Collected(level, files, r, grown, inputs)
  {
  }

  lemma GrownIsSelected(levels: Levels, level: nat, in0: seq<File>, in1: seq<File>, hull: Range, all: Range,
                        grown: Range, expanded0: seq<File>, r: Range, expanded1: seq<File>)
    requires forall l :: 0 <= l < NUM_LEVELS ==> ValidRanges(levels[l])
    requires Selected(levels, level, in0, in1, hull) && GrowsTo(levels, level, in0, in1, expanded0, expanded1, all, grown, r)
    requires Contains(grown, all) && GrownByFiles(levels[level], all, grown)
    ensures Selected(levels, level, expanded0, expanded1, r) && InLevelOrder(levels[level], expanded0)
    ensures Grows(levels, level, in0, in1, expanded0, expanded1) && CanGrow(levels, level, in0, in1)
    ensures Gapless(in0 + in1) ==> Gapless(expanded0 + expanded1)
    ensures (forall f :: f in in0 ==> f in expanded0) && forall f :: f in in1 ==> f in expanded1
  {
    hide Least, Gapless, InLevelOrder, ClosedAtZero, GrownByFiles;
    ExpansionKeepsInputs(levels, level, in0, in1, hull, all, grown, expanded0, r, expanded1);
    OverlappingIsClosed(levels, level, all, grown, expanded0);
    OverlappingInLevelOrder(levels[level], grown);
    ClosedIsSelected(levels, level, expanded0, r);
    if Gapless(in0 + in1) {
      ExpandedIsGapless(levels[level], in0 + in1, all, grown, expanded0, r, expanded1);
    }
  }

  lemma ClosedIsSelected(levels: Levels, level: nat, in0: seq<File>, r: Range)
    requires level < NUM_LEVELS && ClosedAtZero(levels, level, in0) && Spans(in0, r)
    ensures level == 0 ==> forall f :: f in levels[0] && Overlaps(f, r) ==> f in in0
  {
  }

  // A compaction: the level, its inputs, the files two levels down that overlap them, and
  // where the next compaction of the level will begin.
  datatype Compaction = Compaction(level: nat, in0: seq<File>, in1: seq<File>, grandparents: seq<File>, compactPointer: InternalKey)

  ghost predicate WellSelected(levels: Levels, c: Compaction) {
    && (exists hull :: Selected(levels, c.level, c.in0, c.in1, hull)) && LargestOf(c.in0, c.compactPointer)
    && AreGrandparents(levels, c.level, c.in0, c.in1, c.grandparents)
  }

  // The first file past the compaction pointer, or the first file of all.
  ghost predicate NextToCompact(files: seq<File>, compactPointer: Option<InternalKey>, f: File) {
    if compactPointer.None? then files != [] && f == files[0]
    else
      || (exists i :: 0 <= i < |files| && f == files[i] && Less(compactPointer.value, f.largest)
                      && forall j :: 0 <= j < i ==> !Less(compactPointer.value, files[j].largest))
      || (files != [] && f == files[0] && forall j :: 0 <= j < |files| ==> !Less(compactPointer.value, files[j].largest))
  }

  // The file, and at level 0 all the files that its range grows to.
  ghost predicate ChosenWith(levels: Levels, level: nat, f: File, chosen: seq<File>)
    requires level < NUM_LEVELS
  {
    if level > 0 then chosen == [f]
    else exists grown :: Collected(0, levels[0], Range(Some(f.smallest.user), Some(f.largest.user)), grown, chosen)
  }

  method PickFile(files: seq<File>, compactPointer: Option<InternalKey>) returns (f: File)
    requires files != []
    ensures f in files && NextToCompact(files, compactPointer, f)
  {
    for i := 0 to |files|
      invariant compactPointer.None? ==> i == 0
      invariant compactPointer.Some? ==> forall j :: 0 <= j < i ==> !Less(compactPointer.value, files[j].largest)
    {
      if compactPointer.None? || Less(compactPointer.value, files[i].largest) {
        return files[i];
      }
    }
    return files[0];
  }

  // PickCompaction: the level with too much data comes first, then a file that was
  // sought too often.  The automatic choice leaves no gap.
  method PickCompaction(levels: Levels, sizeLevel: Option<nat>, compactPointer: Option<InternalKey>, seekFile: Option<(nat, File)>)
    returns (c: Option<Compaction>)
    requires forall l :: 0 <= l < NUM_LEVELS ==> ValidRanges(levels[l])
    requires sizeLevel.Some? ==> sizeLevel.value + 1 < NUM_LEVELS && levels[sizeLevel.value] != []
    requires seekFile.Some? ==> seekFile.value.0 + 1 < NUM_LEVELS && seekFile.value.1 in levels[seekFile.value.0]
    ensures c.None? <==> sizeLevel.None? && seekFile.None?
    ensures c.Some? ==> WellSelected(levels, c.value) && Gapless(c.value.in0 + c.value.in1)
    ensures c.Some? ==> InLevelOrder(levels[c.value.level], c.value.in0)
    ensures c.Some? ==> c.value.level == if sizeLevel.Some? then sizeLevel.value else seekFile.value.0
    ensures c.Some? ==> exists f, chosen ::
      && (if sizeLevel.Some? then NextToCompact(levels[c.value.level], compactPointer, f) else f == seekFile.value.1)
      && ChosenWith(levels, c.value.level, f, chosen) && SetUp(levels, c.value.level, chosen, c.value.in0, c.value.in1)
  {
    hide NextToCompact, SetUp, Gapless, InLevelOrder, LargestOf, Stable, Least;
    var level, f;
    if sizeLevel.Some? {
      level := sizeLevel.value;
      f := PickFile(levels[level], compactPointer);
    } else if seekFile.Some? {
      level, f := seekFile.value.0, seekFile.value.1;
    } else {
      return None;
    }
    var chosen := [f];
    OneFileIsGapless(f);
    OneFileInLevelOrder(levels[level], f);
    if level == 0 {
      chosen := CloseAtZero(levels, f);
    }
    assert ChosenWith(levels, level, f, chosen);
    var in0, in1, grandparents, pointer, hull := SetupOtherInputs(levels, level, chosen);
    c := Some(Compaction(level, in0, in1, grandparents, pointer));
  }

  lemma OneFileInLevelOrder(files: seq<File>, f: File)
    ensures InLevelOrder(files, [f])
  {
  }

  // Files of level 0 may overlap each other, so the picked one brings those along.
  method CloseAtZero(levels: Levels, f: File) returns (chosen: seq<File>)
    requires ValidRanges(levels[0]) && f in levels[0]
    ensures f in chosen && (forall g :: g in chosen ==> g in levels[0])
    ensures ClosedAtZero(levels, 0, chosen) && Gapless(chosen) && InLevelOrder(levels[0], chosen)
    ensures ChosenWith(levels, 0, f, chosen)
  {
    var smallest, largest := GetRange([f]);
    var r := Range(Some(smallest.user), Some(largest.user));
    ghost var grown;
    chosen, grown := GetOverlappingInputs(0, levels[0], r);
    OverlappingIsClosed(levels, 0, r, grown, chosen);
    OverlappingInLevelOrder(levels[0], grown);
    assert f in [f];
    assert Collected(0, levels[0], r, grown, chosen);
    forall x | InRange(x, grown) ensures Covers(chosen, x) {
      if InRange(x, r) {
        assert RangeHas(f, x);
      } else {
        var g :| g in levels[0] && RangeHas(g, x);
      }
    }
    TouchingKeepsGapless(chosen, grown);
  }

  // A range grows only if some file overlaps it to begin with.
  lemma NothingToCompact(files: seq<File>, r: Range, grown: Range)
    requires Contains(grown, r) && (grown == r || Least(files, r, grown))
    ensures Overlapping(files, grown) == [] <==> !OverlapsAny(files, r)
  {
    if OverlapsAny(files, r) {
      var f :| f in files && Overlaps(f, r);
      assert f in Overlapping(files, grown);
    } else {
      assert Stable(files, r, r);
      assert forall f :: f in Overlapping(files, grown) ==> Overlaps(f, r);
      if Overlapping(files, grown) != [] {
        assert Overlapping(files, grown)[0] in Overlapping(files, grown);
      }
    }
  }

  // The files up to the one with which their size reaches the limit.
  function FirstFiles(files: seq<File>, limit: nat): (r: seq<File>)
    ensures r <= files
    ensures files != [] ==> r != []
  {
    if files == [] then []
    else if files[0].size >= limit then files[..1]
    else [files[0]] + FirstFiles(files[1..], limit - files[0].size)
  }

  // Once a prefix reaches the limit and no shorter one does, it is what is cut off.
  lemma {:induction false} FirstFilesReach(files: seq<File>, limit: nat, n: nat)
    requires n < |files| && TotalFileSize(files[..n + 1]) >= limit
    requires forall m :: 0 < m <= n ==> TotalFileSize(files[..m]) < limit
    ensures FirstFiles(files, limit) == files[..n + 1]
  {
    assert TotalFileSize(files[..1]) == files[0].size;
    if n > 0 {
      var rest := files[1..];
      assert forall m :: 0 < m <= n + 1 ==> files[..m][1..] == rest[..m - 1];
      assert rest[..n] == files[..n + 1][1..];
      forall m | 0 < m <= n - 1 ensures TotalFileSize(rest[..m]) < limit - files[0].size {
        assert files[..m + 1][1..] == rest[..m];
      }
      assert TotalFileSize(files[..1]) < limit;
      FirstFilesReach(rest, limit - files[0].size, n - 1);
    }
  }

  lemma {:induction false} FirstFilesAreAll(files: seq<File>, limit: nat)
    requires forall m :: 0 < m <= |files| ==> TotalFileSize(files[..m]) < limit
    ensures FirstFiles(files, limit) == files
  {
    if files != [] {
      assert TotalFileSize(files[..1]) == files[0].size;
      assert TotalFileSize(files[..1]) < limit;
      forall m | 0 < m <= |files[1..]| ensures TotalFileSize(files[1..][..m]) < limit - files[0].size {
        assert files[..m + 1][1..] == files[1..][..m];
        assert TotalFileSize(files[..m + 1]) < limit;
      }
      FirstFilesAreAll(files[1..], limit - files[0].size);
    }
  }

  // The files that a manual compaction of a range begins with: above level 0 no more than
  // reach the size of one output file.
  ghost predicate ChosenInRange(levels: Levels, level: nat, r: Range, maxFileSize: nat, chosen: seq<File>)
    requires level < NUM_LEVELS
  {
    exists all, grown :: Collected(level, levels[level], r, grown, all)
                         && chosen == if level > 0 then FirstFiles(all, maxFileSize) else all
  }

  // CompactRange, for a manual compaction.
  method CompactRange(levels: Levels, level: nat, r: Range, maxFileSize: nat) returns (c: Option<Compaction>)
    requires level + 1 < NUM_LEVELS && forall l :: 0 <= l < NUM_LEVELS ==> ValidRanges(levels[l])
    ensures c.None? <==> !OverlapsAny(levels[level], r)
    ensures c.Some? ==> WellSelected(levels, c.value) && c.value.level == level
    ensures c.Some? ==> InLevelOrder(levels[level], c.value.in0)
    ensures c.Some? ==> exists chosen ::
      ChosenInRange(levels, level, r, maxFileSize, chosen) && SetUp(levels, level, chosen, c.value.in0, c.value.in1)
  {
    hide SetUp, LargestOf, Least, Stable, FirstFiles;
    var inputs, grown := GetOverlappingInputs(level, levels[level], r);
    assert Collected(level, levels[level], r, grown, inputs);
    OverlappingIsClosed(levels, level, r, grown, inputs);
    OverlappingInLevelOrder(levels[level], grown);
    NothingToCompact(levels[level], r, grown);
    if inputs == [] {
      return None;
    }
    if level > 0 {
      inputs := CutToSize(inputs, maxFileSize);
    }
    assert ChosenInRange(levels, level, r, maxFileSize, inputs);
    var in0, in1, grandparents, pointer, hull := SetupOtherInputs(levels, level, inputs);
    c := Some(Compaction(level, in0, in1, grandparents, pointer));
  }

  method CutToSize(inputs: seq<File>, limit: nat) returns (cut: seq<File>)
    requires inputs != []
    ensures cut == FirstFiles(inputs, limit)
  {
    var total := 0;
    for i := 0 to |inputs|
      invariant total == TotalFileSize(inputs[..i])
      invariant forall m :: 0 < m <= i ==> TotalFileSize(inputs[..m]) < limit
    {
      total := total + inputs[i].size;
      SizeOfPrefix(inputs, i);
      if total >= limit {
        FirstFilesReach(inputs, limit, i);
        return inputs[..i + 1];
      }
    }
    FirstFilesAreAll(inputs, limit);
    cut := inputs;
  }

  lemma {:induction false} SizeOfPrefix(files: seq<File>, i: nat)
    requires i < |files|
    ensures TotalFileSize(files[..i + 1]) == TotalFileSize(files[..i]) + files[i].size
  {
    if i > 0 {
      assert files[..i + 1][1..] == files[1..][..i] && files[..i][1..] == files[1..][..i - 1];
      SizeOfPrefix(files[1..], i - 1);
    }
  }

  // The whole compaction may become a move of its one input file.
  predicate IsTrivialMove(c: Compaction) {
    |c.in0| == 1 && |c.in1| == 0 && TotalFileSize(c.grandparents) <= MAX_GRANDPARENT_OVERLAP_BYTES
  }
}
