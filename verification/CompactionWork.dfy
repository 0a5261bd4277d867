// The compaction loop (DBImpl::DoCompactionWork), its level pointers
// (Compaction::IsBaseLevelForKey) and the overlap that it counts
// (Compaction::ShouldStopBefore).
module CompactionWork {
  import opened DbFormat
  import opened Tables
  import opened VersionSearch
  import opened DropRules
  import opened LsmBegin
  import opened Merger
  import opened CompactionInputs
  import opened OutputCuts

  class RunningCompaction {
    const levels: Levels
    const level: nat
    // For every level below the output level, how many files all keys asked about so far
    // have passed.
    var levelPtrs: seq<nat>
    ghost var lastKey: Option<UserKey>
    // The files two levels down that overlap the inputs, how many of them the keys seen so
    // far have passed, and how much data that was since an output was last closed for it.
    const grandparents: seq<File>
    var grandparentIndex: nat
    var seenKey: bool
    var overlappedBytes: nat
    // The merged input, and how many of its keys have been seen.
    ghost const es: seq<Entry>
    ghost var asked: nat

    ghost predicate Ok()
      reads `levelPtrs, `lastKey
    {
      && level + 1 < NUM_LEVELS && |levelPtrs| == NUM_LEVELS
      && AllWellFormed(levels) && (forall l :: 1 <= l < NUM_LEVELS ==> Disjoint(levels[l]))
      && (forall l :: 0 <= l < NUM_LEVELS ==> levelPtrs[l] <= |levels[l]|)
      && (forall l, i :: level + 2 <= l < NUM_LEVELS && 0 <= i < levelPtrs[l] ==> Passed(levels[l][i]))
    }

    ghost predicate Passed(f: File)
      reads `lastKey
    {
      lastKey.Some? && f.largest.user < lastKey.value
    }

    // The bytes counted are those between the key that the count started from and the last
    // key seen.
    ghost predicate OverlapOk()
      reads `grandparentIndex, `seenKey, `overlappedBytes, `asked
    {
      && Sorted(es) && Disjoint(grandparents) && (forall f :: f in grandparents ==> WellFormed(f))
      && asked <= |es| && grandparentIndex <= |grandparents| && seenKey == (asked > 0)
      && (if asked == 0 then grandparentIndex == overlappedBytes == 0
          else PassedUpTo(grandparents, grandparentIndex, es[asked - 1].key)
               && overlappedBytes == PassedBetween(grandparents, es[CountedFrom(grandparents, es, asked)].key, es[asked - 1].key))
    }

    constructor (inputVersion: Levels, from: nat, overlapped: seq<File>, ghost merged: seq<Entry>)
      requires from + 1 < NUM_LEVELS && AllWellFormed(inputVersion)
      requires forall l :: 1 <= l < NUM_LEVELS ==> Disjoint(inputVersion[l])
      requires Sorted(merged) && Disjoint(overlapped) && forall f :: f in overlapped ==> WellFormed(f)
      ensures Ok() && lastKey == None && levels == inputVersion && level == from
      ensures OverlapOk() && asked == 0 && grandparents == overlapped && es == merged
    {
      levels, level := inputVersion, from;
      levelPtrs := [0, 0, 0, 0, 0, 0, 0];
      lastKey := None;
      grandparents, grandparentIndex, seenKey, overlappedBytes := overlapped, 0, false, 0;
      es, asked := merged, 0;
    }

    // Asked about every input key in turn, the running count of passed bytes says whether
    // the open output has to be closed before the key.
    method ShouldStopBefore(key: InternalKey) returns (stop: bool)
      requires OverlapOk() && asked < |es| && es[asked].key == key
      modifies `grandparentIndex, `seenKey, `overlappedBytes, `asked
      ensures OverlapOk() && asked == old(asked) + 1
      ensures stop <==> StopsBefore(grandparents, es, old(asked))
    {
      hide Less, StopsBefore, CountedFrom, WellFormed, Sorted, Disjoint, PassedBetween;
      ghost var from := if asked == 0 then key else es[CountedFrom(grandparents, es, asked)].key;
      if asked > 0 { CountContinues(grandparents, es, asked, grandparentIndex); }
      while grandparentIndex < |grandparents| && Less(grandparents[grandparentIndex].largest, key)
        invariant grandparentIndex <= |grandparents| && seenKey == (asked > 0) && asked == old(asked)
        invariant forall i :: 0 <= i < grandparentIndex ==> Less(grandparents[i].largest, key)
        invariant asked > 0 ==> forall i :: grandparentIndex <= i < |grandparents| ==> !Less(grandparents[i].largest, from)
        invariant overlappedBytes == if seenKey then PassedBetween(grandparents[..grandparentIndex], from, key) else 0
      {
        if seenKey {
          OneMorePassed(grandparents, grandparentIndex, from, key);
          overlappedBytes := overlappedBytes + grandparents[grandparentIndex].size;
        }
        grandparentIndex := grandparentIndex + 1;
      }
      NothingFurtherPassed(grandparents, grandparentIndex, from, key);
      CountDecides(grandparents, es, asked, overlappedBytes);
      seenKey, asked := true, asked + 1;
      if overlappedBytes > MAX_GRANDPARENT_OVERLAP_BYTES {
        overlappedBytes := 0;
        return true;
      }
      return false;
    }

    // Asked about non-decreasing keys, the pointers give the same answer as looking at
    // every file below the output level.
    method IsBaseLevelForKey(user: UserKey) returns (base: bool)
      requires Ok() && (lastKey.Some? ==> lastKey.value <= user)
      modifies `levelPtrs, `lastKey
      ensures Ok() && lastKey == Some(user)
      ensures base <==> BaseLevel(levels, level, user)
    {
      lastKey := Some(user);
      for l := level + 2 to NUM_LEVELS
        invariant Ok() && lastKey == Some(user)
        invariant forall m, f :: level + 2 <= m < l && f in levels[m] ==> !RangeHas(f, user)
      {
        var hit := LevelHasKey(l, user);
        if hit {
          return false;
        }
      }
      base := true;
    }

    method LevelHasKey(l: nat, user: UserKey) returns (hit: bool)
      requires Ok() && lastKey == Some(user) && level + 2 <= l < NUM_LEVELS
      modifies this`levelPtrs
      ensures Ok()
      ensures hit <==> exists f :: f in levels[l] && RangeHas(f, user)
    {
      var files := levels[l];
      while levelPtrs[l] < |files|
        invariant Ok()
        decreases |files| - levelPtrs[l]
      {
        var f := files[levelPtrs[l]];
        assert f in levels[l];
        if user <= f.largest.user {
          if user >= f.smallest.user {
            assert RangeHas(f, user);
            return true;
          }
          NothingFurther(files, levelPtrs[l], user);
          return false;
        }
        levelPtrs := levelPtrs[l := levelPtrs[l] + 1];
      }
      assert forall i :: 0 <= i < |files| ==> Passed(files[i]);
      return false;
    }
  }

  // In a sorted level, files from here on begin after the key, and earlier ones end
  // before it.
  lemma NothingFurther(files: seq<File>, p: nat, user: UserKey)
    requires Disjoint(files) && p < |files| && (forall f :: f in files ==> WellFormed(f))
    requires user < files[p].smallest.user
    requires forall i :: 0 <= i < p ==> files[i].largest.user < user
    ensures forall f :: f in files ==> !RangeHas(f, user)
  {
    forall i | 0 <= i < |files| ensures !RangeHas(files[i], user) {
      assert files[p] in files;
      FileRange(files[p], files[p].entries[0]);
      if p < i { assert Before(files[p], files[i]); }
    }
  }

  lemma {:induction false} OutputFilesAppend(outputs: seq<File>, done: seq<Entry>, first: nat, size: nat, last: seq<Entry>)
    requires OutputFiles(outputs, done, first) && last != []
    ensures OutputFiles(outputs + [MakeFile(first + |outputs|, size, last)], done + last, first)
  {
    var file := MakeFile(first + |outputs|, size, last);
    if outputs == [] {
      assert last[|last|..] == [] && [file][1..] == [];
      assert done + last == last;
    } else {
      var n := |outputs[0].entries|;
      assert (done + last)[..n] == done[..n];
      OutputFilesAppend(outputs[1..], done[n..], first + 1, size, last);
      assert (outputs + [file])[1..] == outputs[1..] + [file];
      assert (done + last)[n..] == done[n..] + last;
    }
  }

  lemma NothingKept(es: seq<Entry>, p: SequenceNumber, levels: Levels, level: nat)
    ensures KeptEntries(es[..0], p, levels, level) == []
  {
    assert es[..0] == [];
  }

  lemma KeptStep(es: seq<Entry>, i: nat, p: SequenceNumber, levels: Levels, level: nat)
    requires i < |es|
    ensures KeptEntries(es[..i + 1], p, levels, level)
         == KeptEntries(es[..i], p, levels, level) + (if p < MAX_SEQUENCE && Kept(es, i, p, levels, level) then [es[i]] else [])
  {
    hide Survivors;
    SurvivorsStep(es, i, p, levels, level);
  }

  lemma SurvivorsStep(es: seq<Entry>, i: nat, p: SequenceNumber, levels: Levels, level: nat)
    requires i < |es|
    ensures Survivors(es[..i + 1], p, levels, level)
         == Survivors(es[..i], p, levels, level) + (if Kept(es, i, p, levels, level) then [es[i]] else [])
  {
    assert es[..i + 1][..i] == es[..i];
    KeptInPrefix(es, i + 1, i, p, levels, level);
  }

  // What the loop carries from one entry to the next.
  ghost predicate Carries(es: seq<Entry>, i: nat, currentUserKey: Option<UserKey>, lastSequenceForKey: SequenceNumber)
    requires i <= |es|
  {
    && currentUserKey == (if i == 0 then None else Some(es[i - 1].key.user))
    && (i > 0 ==> lastSequenceForKey == es[i - 1].key.sequence)
  }

  // The level pointers have only been asked about user keys up to the previous entry's.
  ghost predicate AskedBefore(lastKey: Option<UserKey>, es: seq<Entry>, i: nat)
    requires i <= |es|
  {
    lastKey.Some? ==> i > 0 && lastKey.value <= es[i - 1].key.user
  }

  // The drop decision for one entry, as the loop makes it from the user key and the
  // sequence number it carries along.  The number it carries for a new user key is the
  // largest of all, so once every sequence number has been used everything is dropped.
  method ShouldDrop(e: Entry, ghost i: nat, currentUserKey: Option<UserKey>, lastSequenceForKey: SequenceNumber,
                    smallestSnapshot: SequenceNumber, c: RunningCompaction)
    returns (drop: bool)
    requires i < |c.es| && c.es[i] == e && Sorted(c.es)
    requires c.Ok() && AskedBefore(c.lastKey, c.es, i)
    requires Carries(c.es, i, currentUserKey, lastSequenceForKey)
    modifies c`levelPtrs, c`lastKey
    ensures c.Ok() && AskedBefore(c.lastKey, c.es, i + 1)
    ensures drop <==> smallestSnapshot == MAX_SEQUENCE || !Kept(c.es, i, smallestSnapshot, c.levels, c.level)
  {
    if i > 0 { SortedAt(c.es, i - 1, i); }
    var last := if currentUserKey != Some(e.key.user) then MAX_SEQUENCE else lastSequenceForKey;
    if last <= smallestSnapshot {
      return true;
    }
    if e.key.kind.Deletion? && e.key.sequence <= smallestSnapshot {
      drop := c.IsBaseLevelForKey(e.key.user);
    } else {
      drop := false;
    }
  }

  // The files written so far and the one being written.  sizeSoFar is TableBuilder's
  // FileSize() while entries are added, fileSize the one after Finish().
  class CompactionState {
    const first: nat
    const sizeSoFar: seq<Entry> -> nat
    const fileSize: seq<Entry> -> nat
    var outputs: seq<File>
    var builder: seq<Entry>
    // What the finished files hold, and what they hold together with the open one.
    ghost var done: seq<Entry>
    ghost var kept: seq<Entry>
    // The merged input, how many stops have been decided, and what decides them.
    ghost const es: seq<Entry>
    ghost const grandparents: seq<File>
    ghost var asked: nat

    ghost predicate Ok()
      reads this
    {
      var finished := OutputFiles(outputs, done, first);
      finished && done + builder == kept
    }

    ghost predicate Cut()
      reads this
    {
      Cutting(outputs, builder, es, asked, grandparents, sizeSoFar, TARGET_FILE_SIZE, fileSize)
    }

    constructor (firstNumber: nat, soFar: seq<Entry> -> nat, size: seq<Entry> -> nat, ghost input: seq<Entry>, ghost overlapped: seq<File>)
      requires Sorted(input)
      ensures Ok() && Cut() && kept == [] && asked == 0
      ensures first == firstNumber && sizeSoFar == soFar && fileSize == size && es == input && grandparents == overlapped
    {
      first, sizeSoFar, fileSize, outputs, builder, done, kept := firstNumber, soFar, size, [], [], [], [];
      es, grandparents, asked := input, overlapped, 0;
    }

    // The open file, closed.
    ghost function Closed(): File
      requires builder != []
      reads this
    {
      MakeFile(first + |outputs|, fileSize(builder), builder)
    }

    method FinishCompactionOutputFile()
      requires Ok() && builder != []
      modifies `outputs, `builder, `done
      ensures Ok() && builder == [] && outputs == old(outputs) + [old(Closed())]
    {
      OutputFilesAppend(outputs, done, first, fileSize(builder), builder);
      outputs := outputs + [MakeFile(first + |outputs|, fileSize(builder), builder)];
      done, builder := kept, [];
      assert done + builder == kept;
    }

    method StopBefore(stop: bool)
      requires Ok() && Cut() && asked < |es| && (stop <==> StopsBefore(grandparents, es, asked))
      modifies `outputs, `builder, `done, `asked
      ensures Ok() && Cut() && asked == old(asked) + 1
    {
      hide Cutting, OutputFiles, StopsBefore;
      if stop && builder != [] {
        StopCloses(outputs, builder, es, asked, grandparents, sizeSoFar, TARGET_FILE_SIZE, fileSize, Closed());
        FinishCompactionOutputFile();
      } else {
        GoesOn(outputs, builder, es, asked, grandparents, sizeSoFar, TARGET_FILE_SIZE, fileSize);
      }
      asked := asked + 1;
    }

    method Add(e: Entry)
      requires Ok() && Cut() && 0 < asked <= |es| && es[asked - 1] == e
      modifies `outputs, `builder, `done, `kept
      ensures Ok() && Cut() && kept == old(kept) + [e]
    {
      hide Cutting, OutputFiles, StopsBefore;
      EntryAdded(outputs, builder, es, asked, grandparents, sizeSoFar, TARGET_FILE_SIZE, fileSize,
                 MakeFile(first + |outputs|, fileSize(builder + [e]), builder + [e]));
      kept := kept + [e];
      builder := builder + [e];
      assert done + builder == old(done + builder) + [e];
      if sizeSoFar(builder) >= TARGET_FILE_SIZE {
        FinishCompactionOutputFile();
      }
    }

    method Finish()
      requires Ok() && Cut()
      modifies `outputs, `builder, `done
      ensures OutputFiles(outputs, kept, first)
      ensures WellCut(outputs, es, grandparents, sizeSoFar, TARGET_FILE_SIZE, fileSize)
    {
      hide OutputFiles, StopsBefore, WellCut;
      if builder != [] {
        LastIsClosed(outputs, builder, es, asked, grandparents, sizeSoFar, TARGET_FILE_SIZE, fileSize, Closed());
        FinishCompactionOutputFile();
      }
      assert done + [] == done;
    }
  }

  // What the loop keeps.
  function KeptEntries(es: seq<Entry>, smallestSnapshot: SequenceNumber, levels: Levels, level: nat): seq<Entry> {
    if smallestSnapshot == MAX_SEQUENCE then [] else Survivors(es, smallestSnapshot, levels, level)
  }

  // What becomes of one input entry: it may close the open output, and then it is dropped
  // or written.
  method CompactEntry(e: Entry, ghost i: nat, currentUserKey: Option<UserKey>, lastSequenceForKey: SequenceNumber,
                      smallestSnapshot: SequenceNumber, c: RunningCompaction, compact: CompactionState)
    requires i < |c.es| && c.es[i] == e
    requires c.Ok() && AskedBefore(c.lastKey, c.es, i) && c.OverlapOk() && c.asked == i
    requires Carries(c.es, i, currentUserKey, lastSequenceForKey)
    requires compact.Ok() && compact.Cut() && compact.asked == i && compact.es == c.es && compact.grandparents == c.grandparents
    requires compact.kept == KeptEntries(c.es[..i], smallestSnapshot, c.levels, c.level)
    modifies c, compact
    ensures c.Ok() && AskedBefore(c.lastKey, c.es, i + 1) && c.OverlapOk() && c.asked == i + 1
    ensures compact.Ok() && compact.Cut() && compact.asked == i + 1
    ensures compact.kept == KeptEntries(c.es[..i + 1], smallestSnapshot, c.levels, c.level)
  {
    hide OutputFiles, Cutting, StopsBefore, CountedFrom, KeptEntries, Carries, Kept, Disjoint;
    KeptStep(c.es, i, smallestSnapshot, c.levels, c.level);
    var stop := c.ShouldStopBefore(e.key);
    compact.StopBefore(stop);
    var drop := ShouldDrop(e, i, currentUserKey, lastSequenceForKey, smallestSnapshot, c);
    if !drop {
      compact.Add(e);
    }
  }

  // The loop walks over the merged input and writes exactly the surviving entries, in
  // order, to files that are closed where they have to be and nowhere else: before a key
  // (too much overlap two levels down) or after one (the file is big enough).
  method DoCompactionWork(input: MergingIterator, smallestSnapshot: SequenceNumber, c: RunningCompaction,
                          first: nat, sizeSoFar: seq<Entry> -> nat, fileSize: seq<Entry> -> nat)
    returns (outputs: seq<File>)
    requires input.Ok() && c.es == input.merged
    requires c.Ok() && c.lastKey.None? && c.OverlapOk() && c.asked == 0
    modifies c, input
    ensures OutputFiles(outputs, KeptEntries(c.es, smallestSnapshot, c.levels, c.level), first)
    ensures WellCut(outputs, c.es, c.grandparents, sizeSoFar, TARGET_FILE_SIZE, fileSize)
  {
    hide OutputFiles, WellCut, Cutting, StopsBefore, CountedFrom, KeptEntries, Disjoint, Sorted;
    var compact := new CompactionState(first, sizeSoFar, fileSize, c.es, c.grandparents);
    var currentUserKey: Option<UserKey> := None;
    var lastSequenceForKey: SequenceNumber := MAX_SEQUENCE;
    input.SeekToFirst();
    NothingKept(c.es, smallestSnapshot, c.levels, c.level);
    while input.Valid()
      invariant input.Ok() && input.merged == c.es && input.at <= |c.es|
      invariant c.Ok() && AskedBefore(c.lastKey, c.es, input.at)
      invariant c.OverlapOk() && c.asked == input.at
      invariant Carries(c.es, input.at, currentUserKey, lastSequenceForKey)
      invariant compact.Ok() && fresh(compact) && compact.Cut() && compact.asked == input.at
      invariant compact.kept == KeptEntries(c.es[..input.at], smallestSnapshot, c.levels, c.level)
      decreases |c.es| - input.at
    {
      var e := input.Current();
      CompactEntry(e, input.at, currentUserKey, lastSequenceForKey, smallestSnapshot, c, compact);
      currentUserKey, lastSequenceForKey := Some(e.key.user), e.key.sequence;
      input.Next();
    }
    assert c.es[..|c.es|] == c.es;
    compact.Finish();
    outputs := compact.outputs;
  }

  // So no output passes more than the limit of data two levels down.
  lemma OutputsPassLittle(outputs: seq<File>, es: seq<Entry>, smallestSnapshot: SequenceNumber, levels: Levels, level: nat, first: nat,
                          grandparents: seq<File>, sizeSoFar: seq<Entry> -> nat, fileSize: seq<Entry> -> nat)
    requires Sorted(es) && OutputFiles(outputs, KeptEntries(es, smallestSnapshot, levels, level), first)
    requires WellCut(outputs, es, grandparents, sizeSoFar, TARGET_FILE_SIZE, fileSize)
    ensures forall o :: o in outputs ==> PassedBetween(grandparents, o.smallest, o.largest) <= MAX_GRANDPARENT_OVERLAP_BYTES
  {
    hide WellCut, OutputFiles, PassedBetween, Survivors, Sorted, WellFormed;
    var kept := KeptEntries(es, smallestSnapshot, levels, level);
    NothingSorted();
    SurvivorsSorted(es, smallestSnapshot, levels, level);
    OutputFilesAreGood(outputs, kept, first);
    OutputFilesHold(outputs, kept, first);
    forall o | o in outputs ensures PassedBetween(grandparents, o.smallest, o.largest) <= MAX_GRANDPARENT_OVERLAP_BYTES {
      forall e | e in o.entries ensures e in es { assert e in kept; }
      OverlapIsBounded(outputs, es, grandparents, sizeSoFar, TARGET_FILE_SIZE, fileSize, o);
    }
  }

  lemma NothingSorted()
    ensures Sorted([])
  {
  }
}
