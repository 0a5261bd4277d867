// A concrete run without snapshots in which a manual compaction and a flush collide.  The
// compaction merges two files of level 1, and two below them, with a gap between; while it
// runs, a memtable with a key in the gap is flushed to level 2, where the output goes too.
module LsmGapWitness {
  import opened DbFormat
  import opened Tables
  import opened VersionSearch
  import opened DropRules
  import opened CompactionInputs
  import opened LsmState
  import opened LsmInstall
  import opened LsmFinish
  import opened LsmSteps
  import opened LsmFlush
  import opened LsmBegin
  import opened LsmRuns
  import opened LsmWitness

  function Written(user: UserKey, sequence: SequenceNumber): Entry {
    Entry(InternalKey(user, sequence, Put), "v")
  }

  const A := Written(1.0, 1)
  const C := Written(3.0, 2)
  const B := Written(1.0, 3)
  const D := Written(3.0, 4)
  const F := Written(2.0, 5)
  const DEEP_LOW := Table(2, [A])
  const DEEP_HIGH := Table(3, [C])
  const LOW := Table(4, [B])
  const HIGH := Table(5, [D])
  const MERGED := Table(6, [B, D])
  const GAP_FILE := Table(7, [F])
  const MANUAL := Job(1, [LOW, HIGH], [DEEP_LOW, DEEP_HIGH], [MERGED], 4)

  // A state with nothing in memory, no snapshot and no compaction in progress.
  function Quiet(last: SequenceNumber, l1: seq<File>, l2: seq<File>, nextFile: nat): Db {
    Db(last, [], None, [[], l1, l2, [], [], [], []], nextFile, [], None)
  }

  const T1 := Quiet(1, [], [DEEP_LOW], 3)
  const T2 := Quiet(2, [], [DEEP_LOW, DEEP_HIGH], 4)
  const T3 := Quiet(3, [LOW], [DEEP_LOW, DEEP_HIGH], 5)
  const T4 := Quiet(4, [LOW, HIGH], [DEEP_LOW, DEEP_HIGH], 6)
  const T5 := T4.(job := Some(MANUAL), nextFile := 7)
  const T6 := Db(5, [], None, [[], [LOW, HIGH], [DEEP_LOW, GAP_FILE, DEEP_HIGH], [], [], [], []], 8, [], Some(MANUAL))
  const T7 := Quiet(5, [], [MERGED, GAP_FILE], 8)

  function At(user: UserKey): Range {
    Range(Some(user), Some(user))
  }

  lemma SmallSizes()
    ensures TableSize([A]) == 121 && TableSize([C]) == 121 && TableSize([B]) == 121 && TableSize([D]) == 121
    ensures TableSize([B, D]) == 142
  {
    assert [A][..0] == [] && [B][..0] == [] && [C][..0] == [] && [D][..0] == [];
    assert [B, D][..1] == [B] && "v" == [] + "v";
  }

  // With nothing in the way, tables go down two levels.
  lemma WriteDeep() returns (actions: seq<Action>)
    ensures Leads(actions, T2, [A, C]) && NoSnapshots(actions)
  {
    hide Leads, TableSize;
    StartOfRun();
    assert FlushLevel(NEW_DB.levels, At(1.0), 2);
    actions := WriteAndFlush([], NEW_DB, [], 1.0, "v", 2);
    assert InsertFile([], DEEP_LOW) == [DEEP_LOW] && [] + [A] == [A];
    assert AddFile(NEW_DB.levels, 2, DEEP_LOW) == T1.levels;
    assert FlushLevel(T1.levels, At(3.0), 2);
    actions := WriteAndFlush(actions, T1, [A], 3.0, "v", 2);
    assert [DEEP_LOW][1..] == [] && InsertFile([DEEP_LOW], DEEP_HIGH) == [DEEP_LOW, DEEP_HIGH];
    assert AddFile(T1.levels, 2, DEEP_HIGH) == T2.levels && [A] + [C] == [A, C];
  }

  // The next tables with these keys stop one level above.
  lemma StopsAbove(levels: Levels, user: UserKey, f: File)
    requires levels[0] == [] && levels[2] == [DEEP_LOW, DEEP_HIGH] && !OverlapsAny(levels[1], At(user))
    requires f in levels[2] && Overlaps(f, At(user))
    ensures FlushLevel(levels, At(user), 1)
  {
    SmallSizes();
    assert forall g :: g in levels[2] ==> g.size == 121;
    SmallTotal(Overlapping(levels[2], At(user)));
  }

  lemma SmallTotal(files: seq<File>)
    requires |files| <= 2 && forall g :: g in files ==> g.size == 121
    ensures TotalFileSize(files) <= 242
  {
    if files != [] { assert files[1..] == [] || files[1..][1..] == []; }
  }

  lemma FillLevelOne(before: seq<Action>) returns (actions: seq<Action>)
    requires Leads(before, T2, [A, C]) && NoSnapshots(before)
    ensures Leads(actions, T4, [A, C, B, D]) && NoSnapshots(actions)
  {
    hide Leads, TableSize, FlushLevel;
    StopsAbove(T2.levels, 1.0, DEEP_LOW);
    actions := WriteAndFlush(before, T2, [A, C], 1.0, "v", 1);
    assert InsertFile([], LOW) == [LOW] && [A, C] + [B] == [A, C, B];
    assert AddFile(T2.levels, 1, LOW) == T3.levels;
    StopsAbove(T3.levels, 3.0, DEEP_HIGH);
    actions := WriteAndFlush(actions, T3, [A, C, B], 3.0, "v", 1);
    assert [LOW][1..] == [] && InsertFile([LOW], HIGH) == [LOW, HIGH] && [A, C, B] + [D] == [A, C, B, D];
    assert AddFile(T3.levels, 1, HIGH) == T4.levels;
  }

  // ---------- The pass over level 1 ----------

  lemma ManualMerges()
    ensures Merges(MANUAL, [B, A, D, C])
  {
    hide TableSize;
    assert IsInput(MANUAL, LOW) && IsInput(MANUAL, HIGH) && IsInput(MANUAL, DEEP_LOW) && IsInput(MANUAL, DEEP_HIGH);
    assert forall f :: IsInput(MANUAL, f) ==> f == LOW || f == HIGH || f == DEEP_LOW || f == DEEP_HIGH;
    assert B in LOW.entries && D in HIGH.entries && A in DEEP_LOW.entries && C in DEEP_HIGH.entries;
    assert forall e :: InInputs(MANUAL, e) <==> e in [B, A, D, C];
  }

  // The older versions are dropped.
  lemma ManualKeepsNewest()
    ensures Survivors([B, A, D, C], 4, T4.levels, 1) == [B, D]
  {
    hide TableSize;
    var es := [B, A, D, C];
    assert es[..3] == [B, A, D] && es[..3][..2] == [B, A] && [B, A][..1] == [B] && [B][..0] == [];
    assert Kept([B], 0, 4, T4.levels, 1) && !Kept([B, A], 1, 4, T4.levels, 1);
    assert Kept([B, A, D], 2, 4, T4.levels, 1) && !Kept(es, 3, 4, T4.levels, 1);
    assert Survivors([B], 4, T4.levels, 1) == [B];
    assert Survivors([B, A], 4, T4.levels, 1) == [B] + [];
    assert Survivors([B, A, D], 4, T4.levels, 1) == [B] + [D];
  }

  lemma ManualIsSelected()
    ensures Selected(T4.levels, 1, [LOW, HIGH], [DEEP_LOW, DEEP_HIGH], Range(Some(1.0), Some(3.0)))
  {
    hide TableSize;
    var r, deep := Range(Some(1.0), Some(3.0)), [DEEP_LOW, DEEP_HIGH];
    assert LOW in [LOW, HIGH] && HIGH in [LOW, HIGH] && Spans([LOW, HIGH], r);
    assert deep[..1] == [DEEP_LOW] && [DEEP_LOW][..0] == [] && Overlapping([DEEP_LOW], r) == [DEEP_LOW];
    assert Overlapping(deep, r) == deep;
  }

  lemma ManualIsChosen()
    ensures ChosenInRange(T4.levels, 1, EVERYTHING, TARGET_FILE_SIZE, [LOW, HIGH])
    ensures ClosedWhenFull(MANUAL.outputs)
  {
    var all := [LOW, HIGH];
    SmallSizes();
    OverlapsEverything(all);
    assert Collected(1, T4.levels[1], EVERYTHING, EVERYTHING, all);
    assert all[1..] == [HIGH] && [HIGH][1..] == [];
    assert FirstFiles([HIGH], TARGET_FILE_SIZE - 121) == [HIGH] + [];
    assert FirstFiles(all, TARGET_FILE_SIZE) == all;
    assert [B, D][..1] == [B] && ClosedAt(MERGED, true);
  }

  lemma ManualIsPass()
    ensures ManualPass(T4.levels, MANUAL)
  {
    hide TableSize, CanGrow, ChosenInRange, ClosedWhenFull, Overlapping, Spans;
    ManualIsChosen();
    ManualIsSelected();
    NothingToGrow(T4.levels, 1, [LOW, HIGH], [DEEP_LOW, DEEP_HIGH]);
    assert SetUp(T4.levels, 1, [LOW, HIGH], [LOW, HIGH], [DEEP_LOW, DEEP_HIGH]);
  }

  lemma ManualIsPermitted()
    ensures Permitted(T4, StartCompaction(MANUAL)) && Real(T4, StartCompaction(MANUAL))
  {
    hide TableSize, Merges, Survivors, Selected, ManualPass;
    ManualMerges();
    ManualKeepsNewest();
    ManualIsSelected();
    ManualIsPass();
    assert [B, D][2..] == [] && [MERGED][1..] == [] && OutputFiles([MERGED], [B, D], 6);
    assert Compacts(T4, MANUAL, [B, A, D, C]);
  }

  lemma FlushIntoGap(before: seq<Action>) returns (actions: seq<Action>)
    requires Leads(before, T4, [A, C, B, D]) && NoSnapshots(before)
    ensures Leads(actions, T6, [A, C, B, D, F]) && NoSnapshots(actions)
  {
    hide Leads, TableSize, Permitted, Real, Big;
    ManualIsPermitted();
    Extend(before, T4, [A, C, B, D], StartCompaction(MANUAL));
    assert Begin(T4, MANUAL) == T5;
    actions := before + [StartCompaction(MANUAL)];
    GapIsFree();
    actions := WriteAndFlush(actions, T5, [A, C, B, D], 2.0, "v", 2);
    var deep := [DEEP_LOW, DEEP_HIGH];
    assert deep[1..] == [DEEP_HIGH] && InsertFile([DEEP_HIGH], GAP_FILE) == [GAP_FILE, DEEP_HIGH];
    assert InsertFile(deep, GAP_FILE) == [DEEP_LOW, GAP_FILE, DEEP_HIGH];
    assert AddFile(T5.levels, 2, GAP_FILE) == T6.levels && [A, C, B, D] + [F] == [A, C, B, D, F];
  }

  lemma GapIsFree()
    ensures FlushLevel(T5.levels, At(2.0), 2)
  {
    hide TableSize;
    assert !OverlapsAny(T5.levels[1], At(2.0)) && !OverlapsAny(T5.levels[2], At(2.0));
    NothingOverlaps(T5.levels[2], At(2.0));
    NothingOverlaps(T5.levels[3], At(2.0));
  }

  lemma NothingOverlaps(files: seq<File>, r: Range)
    requires !OverlapsAny(files, r)
    ensures Overlapping(files, r) == []
  {
    if Overlapping(files, r) != [] { assert Overlapping(files, r)[0] in Overlapping(files, r); }
  }

  lemma MergedInstalled()
    ensures Install(T6.levels, MANUAL) == T7.levels
  {
    hide TableSize;
    assert LOW.number in Numbers([LOW, HIGH]) && HIGH.number in Numbers([LOW, HIGH]);
    assert [LOW, HIGH][1..] == [HIGH] && [HIGH][1..] == [];
    assert Remaining([HIGH], Numbers([LOW, HIGH])) == [] && Remaining([LOW, HIGH], Numbers([LOW, HIGH])) == [];
    DeepRemoved();
    assert [GAP_FILE][1..] == [] && [MERGED][1..] == [] && InsertFile([GAP_FILE], MERGED) == [MERGED, GAP_FILE];
    assert AddFiles([GAP_FILE], [MERGED]) == [MERGED, GAP_FILE];
  }

  lemma DeepRemoved()
    ensures Remaining([DEEP_LOW, GAP_FILE, DEEP_HIGH], Numbers([DEEP_LOW, DEEP_HIGH])) == [GAP_FILE]
  {
    hide TableSize;
    var gone, all := Numbers([DEEP_LOW, DEEP_HIGH]), [DEEP_LOW, GAP_FILE, DEEP_HIGH];
    assert gone == {2, 3} by {
      assert DEEP_LOW in [DEEP_LOW, DEEP_HIGH] && DEEP_HIGH in [DEEP_LOW, DEEP_HIGH];
      assert DEEP_LOW.number == 2 && DEEP_HIGH.number == 3;
    }
    assert all[1..] == [GAP_FILE, DEEP_HIGH] && [GAP_FILE, DEEP_HIGH][1..] == [DEEP_HIGH] && [DEEP_HIGH][1..] == [];
    assert GAP_FILE.number == 7 && [GAP_FILE] + [] == [GAP_FILE];
    assert Remaining([DEEP_HIGH], gone) == [];
    assert Remaining([GAP_FILE, DEEP_HIGH], gone) == [GAP_FILE];
  }

  lemma FinishOverGap(before: seq<Action>) returns (actions: seq<Action>)
    requires Leads(before, T6, [A, C, B, D, F]) && NoSnapshots(before)
    ensures Leads(actions, T7, [A, C, B, D, F]) && NoSnapshots(actions)
  {
    hide Leads, TableSize, Permitted, Real, Next, NextHistory, Install, Big;
    MayFinish(T6, MANUAL);
    Extend(before, T6, [A, C, B, D, F], FinishCompaction);
    MergedInstalled();
    assert Finish(T6, MANUAL) == T7;
    actions := before + [FinishCompaction];
  }

  // Level 2 ends up with a file inside the range of another one, and the binary search for
  // the flushed key stops at the file that does not have it.
  lemma ManualCompactionCanOverlapAFlush() returns (actions: seq<Action>)
    ensures RealRun(actions) && NoSnapshots(actions)
    ensures !Disjoint(After(actions).levels[2])
    ensures var files, key := After(actions).levels[2], SeekKey(2.0, After(actions).lastSequence);
            && |files| == 2 && !Less(files[0].largest, key) && SeekEntry(files[0].entries, 2.0, After(actions).lastSequence).None?
            && After(actions).mem == [] && 2.0 in MapAfter(History(actions))
  {
    hide RealRun, TableSize, SeekIndex;
    actions := WriteDeep();
    actions := FillLevelOne(actions);
    actions := FlushIntoGap(actions);
    actions := FinishOverGap(actions);
    OverlapIsNotDisjoint();
    NotInMerged();
    assert [A, C, B, D, F][..4] == [A, C, B, D];
  }

  lemma OverlapIsNotDisjoint()
    ensures !Disjoint(T7.levels[2])
  {
    hide TableSize;
    assert !Before(T7.levels[2][0], T7.levels[2][1]);
  }

  lemma NotInMerged()
    ensures SeekEntry([B, D], 2.0, 5).None?
  {
    assert [B, D][1..] == [D];
  }
}
