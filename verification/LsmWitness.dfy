// A concrete run in which a user key is split and a read goes wrong.  Two versions of one
// key, each as large as an output file, are both kept because a snapshot lies between
// them.  Compacting everything merges them and closes the first output between the two;
// the pass over the next level is cut off after that file and takes it down alone.
module LsmWitness {
  import opened DbFormat
  import opened Tables
  import opened VersionSearch
  import opened DropRules
  import opened CompactionInputs
  import opened LsmState
  import opened LsmInstall
  import opened LsmFinish
  import opened LsmSteps
  import opened LsmFlush
  import opened LsmBegin
  import opened LsmRuns

  // The size of a table: its values, and something for every key and for the table.
  function TableSize(es: seq<Entry>): nat {
    if es == [] then 100 else TableSize(es[..|es| - 1]) + |es[|es| - 1].value| + 20
  }

  function Table(number: nat, es: seq<Entry>): File
    requires es != []
  {
    MakeFile(number, TableSize(es), es)
  }

  // An output is closed as soon as it has reached its size, and not before.
  predicate ClosedWhenFull(outputs: seq<File>) {
    forall i :: 0 <= i < |outputs| ==> ClosedAt(outputs[i], i == |outputs| - 1)
  }

  predicate ClosedAt(o: File, isLast: bool) {
    && o.entries != [] && o.size == TableSize(o.entries)
    && TableSize(o.entries[..|o.entries| - 1]) < TARGET_FILE_SIZE
    && (isLast || TableSize(o.entries) >= TARGET_FILE_SIZE)
  }

  const EVERYTHING := Range(None, None)

  // A pass of DBImpl::CompactRange over all keys.
  ghost predicate ManualPass(levels: Levels, job: Job) {
    && job.level + 1 < NUM_LEVELS && ClosedWhenFull(job.outputs)
    && exists chosen :: ChosenInRange(levels, job.level, EVERYTHING, TARGET_FILE_SIZE, chosen) && SetUp(levels, job.level, chosen, job.in0, job.in1)
  }

  // What the code does beyond what the state machine asks of a step: tables have their
  // size, and compactions are passes of a manual one.
  ghost predicate Real(db: Db, a: Action)
    requires Permitted(db, a)
  {
    match a
    case FlushMem(size, level) => db.imm.value != [] && size == TableSize(db.imm.value)
    case StartCompaction(job) => ManualPass(db.levels, job)
    case MoveFile(_, _) => false
    case _ => true
  }

  ghost predicate RealRun(actions: seq<Action>) {
    && Run(actions)
    && (actions == [] ||
        (RealRun(actions[..|actions| - 1]) && Real(After(actions[..|actions| - 1]), actions[|actions| - 1])))
  }

  // The run so far ends in this state with this history.
  ghost predicate Leads(actions: seq<Action>, db: Db, h: seq<Entry>) {
    RealRun(actions) && After(actions) == db && History(actions) == h
  }

  lemma Extend(actions: seq<Action>, db: Db, h: seq<Entry>, a: Action)
    requires Leads(actions, db, h) && Permitted(db, a) && Real(db, a)
    ensures Leads(actions + [a], Next(db, a), NextHistory(db, h, a))
  {
    hide Permitted, Real, Next, NextHistory, Run, After, History;
    var more := actions + [a];
    assert more[..|more| - 1] == actions && more[|more| - 1] == a;
    OneMoreStep(more);
  }

  lemma OneMoreStep(actions: seq<Action>)
    requires actions != [] && Run(actions[..|actions| - 1])
    requires Permitted(After(actions[..|actions| - 1]), actions[|actions| - 1])
    ensures Run(actions) && After(actions) == Next(After(actions[..|actions| - 1]), actions[|actions| - 1])
    ensures History(actions) == NextHistory(After(actions[..|actions| - 1]), History(actions[..|actions| - 1]), actions[|actions| - 1])
  {
    hide Permitted, Next, NextHistory;
  }

  lemma StartOfRun()
    ensures Leads([], NEW_DB, [])
  {
  }

  predicate NoSnapshots(actions: seq<Action>) {
    forall i :: 0 <= i < |actions| ==> !actions[i].GetSnapshot?
  }

  // Write one key, switch memtables and flush.
  lemma WriteAndFlush(before: seq<Action>, db: Db, h: seq<Entry>, user: UserKey, v: Value, level: nat) returns (actions: seq<Action>)
    requires Leads(before, db, h)
    requires db.mem == [] && db.imm.None? && db.lastSequence < MAX_SEQUENCE && level < NUM_LEVELS
    requires FlushLevel(db.levels, Range(Some(user), Some(user)), level)
    ensures var e := Entry(InternalKey(user, db.lastSequence + 1, Put), v);
            Leads(actions,
                  db.(lastSequence := db.lastSequence + 1, nextFile := db.nextFile + 1,
                      levels := AddFile(db.levels, level, Table(db.nextFile, [e]))),
                  h + [e])
    ensures NoSnapshots(before) ==> NoSnapshots(actions)
  {
    hide Leads, FlushLevel, TableSize;
    var e := Entry(InternalKey(user, db.lastSequence + 1, Put), v);
    Extend(before, db, h, WriteOp(PutOp(user, v)));
    var s1 := WriteOne(db, e);
    assert s1.mem == [e];
    actions := before + [WriteOp(PutOp(user, v))];
    Extend(actions, s1, h + [e], SwitchMem);
    var s2 := SwitchMemTable(s1);
    var size := TableSize([e]);
    assert FlushedFile(s2, size) == Table(db.nextFile, [e]);
    actions := actions + [SwitchMem];
    Extend(actions, s2, h + [e], FlushMem(size, level));
    actions := actions + [FlushMem(size, level)];
  }

  // ---------- The run ----------

  const KEY: UserKey := 0.0
  const LAST: UserKey := 1.0

  // A value that fills an output file by itself.
  function Big(c: char): Value {
    seq(TARGET_FILE_SIZE, _ => c)
  }

  const BASE := Entry(InternalKey(LAST, 1, Put), "base")
  const OLD := Entry(InternalKey(KEY, 2, Put), Big('a'))
  const NEXT := Entry(InternalKey(LAST, 3, Put), "next")
  const NEW := Entry(InternalKey(KEY, 4, Put), Big('b'))

  const DEEP := Table(2, [BASE])
  const MIDDLE := Table(3, [OLD, NEXT])
  const TOP := Table(4, [NEW])
  const NEW_HALF := Table(5, [NEW])
  const OLD_HALF := Table(6, [OLD])
  const REST := Table(7, [NEXT])
  const MOVED := Table(8, [NEW])

  const CUT := Job(0, [TOP], [MIDDLE], [NEW_HALF, OLD_HALF, REST], 3)
  const DOWN := Job(1, [NEW_HALF], [], [MOVED], 3)

  const S1 := Db(1, [], None, [[], [], [DEEP], [], [], [], []], 3, [], None)
  const S2 := Db(3, [OLD, NEXT], None, [[], [], [DEEP], [], [], [], []], 3, [], None)
  const S3 := Db(3, [], None, [[], [MIDDLE], [DEEP], [], [], [], []], 4, [], None)
  const S4 := S3.(snapshots := [3])
  const S5 := Db(4, [], None, [[TOP], [MIDDLE], [DEEP], [], [], [], []], 5, [3], None)
  const S6 := Db(4, [], None, [[], [NEW_HALF, OLD_HALF, REST], [DEEP], [], [], [], []], 8, [3], None)
  const S7 := Db(4, [], None, [[], [OLD_HALF, REST], [MOVED, DEEP], [], [], [], []], 9, [3], None)

  lemma Sizes()
    ensures TableSize([]) == 100 && TableSize([BASE]) == 124
    ensures TableSize([NEW]) == TARGET_FILE_SIZE + 120 && TableSize([OLD]) == TARGET_FILE_SIZE + 120
    ensures TableSize([NEXT]) == 124
  {
    assert [BASE][..0] == [] && [NEW][..0] == [] && [OLD][..0] == [] && [NEXT][..0] == [];
  }

  // The first table goes down two levels.
  lemma FlushBase() returns (actions: seq<Action>)
    ensures Leads(actions, S1, [BASE])
  {
    hide Leads, TableSize;
    StartOfRun();
    assert FlushLevel(NEW_DB.levels, Range(Some(LAST), Some(LAST)), 2);
    actions := WriteAndFlush([], NEW_DB, [], LAST, "base", 2);
    assert InsertFile([], DEEP) == [DEEP] && [] + [BASE] == [BASE];
    assert AddFile(NEW_DB.levels, 2, DEEP) == S1.levels;
  }

  // The second one stops above it.
  lemma MiddleStops(levels: Levels)
    requires levels == S2.levels
    ensures FlushLevel(levels, Hull(MIDDLE), 1)
  {
    hide TableSize, Big, Overlapping;
    Sizes();
    DeepIsFound();
    assert [DEEP][1..] == [] && TotalFileSize([DEEP]) == 124;
    assert DEEP in levels[2] && Overlaps(DEEP, Hull(MIDDLE));
  }

  lemma DeepIsFound()
    ensures Overlapping([DEEP], Hull(MIDDLE)) == [DEEP]
  {
    hide TableSize, Big;
    assert [DEEP][..0] == [];
  }

  lemma FlushMiddle(before: seq<Action>) returns (actions: seq<Action>)
    requires Leads(before, S1, [BASE])
    ensures Leads(actions, S4, [BASE, OLD, NEXT])
  {
    hide Leads, TableSize, FlushLevel, Big;
    Extend(before, S1, [BASE], WriteOp(PutOp(KEY, Big('a'))));
    var s1 := WriteOne(S1, OLD);
    assert s1.mem == [OLD];
    actions := before + [WriteOp(PutOp(KEY, Big('a')))];
    Extend(actions, s1, [BASE] + [OLD], WriteOp(PutOp(LAST, "next")));
    assert SeekIndex([OLD][1..], NEXT.key) == 0 && SeekIndex([OLD], NEXT.key) == 1;
    assert WriteOne(s1, NEXT) == S2;
    actions := actions + [WriteOp(PutOp(LAST, "next"))];
    assert [BASE] + [OLD] + [NEXT] == [BASE, OLD, NEXT];
    Extend(actions, S2, [BASE, OLD, NEXT], SwitchMem);
    var s2 := SwitchMemTable(S2);
    var size := TableSize([OLD, NEXT]);
    assert FlushedFile(s2, size) == MIDDLE;
    MiddleStops(s2.levels);
    actions := actions + [SwitchMem];
    Extend(actions, s2, [BASE, OLD, NEXT], FlushMem(size, 1));
    assert InsertFile([], MIDDLE) == [MIDDLE];
    assert Flush(s2, size, 1) == S3;
    actions := actions + [FlushMem(size, 1)];
    Extend(actions, S3, [BASE, OLD, NEXT], GetSnapshot);
    assert TakeSnapshot(S3) == S4;
    actions := actions + [GetSnapshot];
  }

  lemma FlushTop(before: seq<Action>) returns (actions: seq<Action>)
    requires Leads(before, S4, [BASE, OLD, NEXT])
    ensures Leads(actions, S5, [BASE, OLD, NEXT, NEW])
  {
    hide Leads, TableSize, Big;
    var r := Range(Some(KEY), Some(KEY));
    assert MIDDLE in S4.levels[1] && Overlaps(MIDDLE, r);
    assert FlushLevel(S4.levels, r, 0);
    actions := WriteAndFlush(before, S4, [BASE, OLD, NEXT], KEY, Big('b'), 0);
    assert InsertFile([], TOP) == [TOP] && [BASE, OLD, NEXT] + [NEW] == [BASE, OLD, NEXT, NEW];
    assert AddFile(S4.levels, 0, TOP) == S5.levels;
  }

  // ---------- The pass over level 0 ----------

  lemma CutKeepsAll()
    ensures Merges(CUT, [NEW, OLD, NEXT])
    ensures Survivors([NEW, OLD, NEXT], 3, S5.levels, 0) == [NEW, OLD, NEXT]
  {
    hide TableSize, Big;
    var es := [NEW, OLD, NEXT];
    assert IsInput(CUT, TOP) && IsInput(CUT, MIDDLE);
    assert forall f :: IsInput(CUT, f) ==> f == TOP || f == MIDDLE;
    assert NEW in TOP.entries && OLD in MIDDLE.entries && NEXT in MIDDLE.entries;
    assert forall e :: InInputs(CUT, e) <==> e in es;
    assert es[..2] == [NEW, OLD] && [NEW, OLD][..1] == [NEW] && [NEW][..0] == [];
    assert Kept(es, 2, 3, S5.levels, 0) && Kept([NEW, OLD], 1, 3, S5.levels, 0) && Kept([NEW], 0, 3, S5.levels, 0);
    assert Survivors([NEW], 3, S5.levels, 0) == [NEW];
    assert Survivors([NEW, OLD], 3, S5.levels, 0) == [NEW, OLD];
  }

  lemma CutOutputs()
    ensures OutputFiles(CUT.outputs, [NEW, OLD, NEXT], 5) && ClosedWhenFull(CUT.outputs)
  {
    hide Big;
    Sizes();
    var es := [NEW, OLD, NEXT];
    assert es[1..] == [OLD, NEXT] && [OLD, NEXT][1..] == [NEXT] && [NEXT][1..] == [];
    assert CUT.outputs[1..] == [OLD_HALF, REST] && [OLD_HALF, REST][1..] == [REST] && [REST][1..] == [];
    assert OutputFiles([REST], [NEXT], 7);
    assert OutputFiles([OLD_HALF, REST], [OLD, NEXT], 6);
    assert [NEW][..0] == [] && [OLD][..0] == [] && [NEXT][..0] == [];
    assert ClosedAt(NEW_HALF, false) && ClosedAt(OLD_HALF, false) && ClosedAt(REST, true);
  }

  // All files of a level have been taken already.
  lemma NothingToGrow(levels: Levels, level: nat, in0: seq<File>, in1: seq<File>)
    requires level + 1 < NUM_LEVELS && |in0| >= |levels[level]|
    ensures !CanGrow(levels, level, in0, in1)
  {
    forall new0, new1 ensures !Grows(levels, level, in0, in1, new0, new1) {
      forall all, grown, r ensures !GrowsTo(levels, level, in0, in1, new0, new1, all, grown, r) {
      }
    }
  }

  lemma OverlapsEverything(files: seq<File>)
    ensures Overlapping(files, EVERYTHING) == files
  {
    if files != [] {
      OverlapsEverything(files[..|files| - 1]);
      assert files == files[..|files| - 1] + [files[|files| - 1]];
    }
  }

  lemma CutIsSelected()
    ensures Selected(S5.levels, 0, [TOP], [MIDDLE], Range(Some(KEY), Some(KEY)))
    ensures ManualPass(S5.levels, CUT)
  {
    hide Big, TableSize, OutputFiles, ClosedWhenFull, CanGrow;
    var r := Range(Some(KEY), Some(KEY));
    assert TOP in [TOP] && Spans([TOP], r);
    assert [MIDDLE][..0] == [] && Overlapping([MIDDLE], r) == [MIDDLE];
    CutOutputs();
    OverlapsEverything([TOP]);
    assert Collected(0, S5.levels[0], EVERYTHING, EVERYTHING, [TOP]);
    assert ChosenInRange(S5.levels, 0, EVERYTHING, TARGET_FILE_SIZE, [TOP]);
    NothingToGrow(S5.levels, 0, [TOP], [MIDDLE]);
    assert SetUp(S5.levels, 0, [TOP], [TOP], [MIDDLE]);
  }

  lemma CutInstalled()
    ensures Install(S5.levels, CUT) == S6.levels
  {
    hide Big, TableSize;
    assert TOP.number in Numbers([TOP]) && MIDDLE.number in Numbers([MIDDLE]);
    assert [TOP][1..] == [] && [MIDDLE][1..] == [];
    assert Remaining([TOP], Numbers([TOP])) == [] && Remaining([MIDDLE], Numbers([MIDDLE])) == [];
    assert InsertFile([], NEW_HALF) == [NEW_HALF];
    assert InsertFile([NEW_HALF], OLD_HALF) == [NEW_HALF, OLD_HALF];
    assert [NEW_HALF, OLD_HALF][1..] == [OLD_HALF] && InsertFile([OLD_HALF], REST) == [OLD_HALF, REST];
    assert InsertFile([NEW_HALF, OLD_HALF], REST) == [NEW_HALF, OLD_HALF, REST];
    assert CUT.outputs[1..] == [OLD_HALF, REST] && [OLD_HALF, REST][1..] == [REST] && [REST][1..] == [];
    assert AddFiles([NEW_HALF, OLD_HALF], [REST]) == [NEW_HALF, OLD_HALF, REST];
    assert AddFiles([NEW_HALF], [OLD_HALF, REST]) == [NEW_HALF, OLD_HALF, REST];
  }

  lemma CompactTop(before: seq<Action>) returns (actions: seq<Action>)
    requires Leads(before, S5, [BASE, OLD, NEXT, NEW])
    ensures Leads(actions, S6, [BASE, OLD, NEXT, NEW])
  {
    hide Leads, Big, TableSize, Merges, Survivors, OutputFiles, Selected, ManualPass, Install;
    CutKeepsAll();
    CutOutputs();
    CutIsSelected();
    assert Compacts(S5, CUT, [NEW, OLD, NEXT]);
    Extend(before, S5, [BASE, OLD, NEXT, NEW], StartCompaction(CUT));
    var started := Begin(S5, CUT);
    actions := before + [StartCompaction(CUT)];
    Extend(actions, started, [BASE, OLD, NEXT, NEW], FinishCompaction);
    CutInstalled();
    assert Finish(started, CUT) == S6;
    actions := actions + [FinishCompaction];
  }

  // ---------- The pass over level 1 ----------

  lemma DownKeepsAll()
    ensures Compacts(S6, DOWN, [NEW]) && ClosedWhenFull(DOWN.outputs)
  {
    hide Big;
    Sizes();
    assert IsInput(DOWN, NEW_HALF) && NEW in NEW_HALF.entries;
    assert forall f :: IsInput(DOWN, f) ==> f == NEW_HALF;
    assert forall e :: InInputs(DOWN, e) <==> e in [NEW];
    assert Survivors([NEW], 3, S6.levels, 1) == [NEW] by { assert [NEW][..0] == [] && Kept([NEW], 0, 3, S6.levels, 1); }
    assert [NEW][1..] == [] && [MOVED][1..] == [] && OutputFiles([MOVED], [NEW], 8);
    assert [NEW][..0] == [] && ClosedAt(MOVED, true);
  }

  lemma DownIsSelected()
    ensures Selected(S6.levels, 1, [NEW_HALF], [], Range(Some(KEY), Some(KEY)))
    ensures exists chosen :: ChosenInRange(S6.levels, 1, EVERYTHING, TARGET_FILE_SIZE, chosen) && SetUp(S6.levels, 1, chosen, [NEW_HALF], [])
  {
    hide Big, CanGrow, TableSize;
    var r := Range(Some(KEY), Some(KEY));
    assert NEW_HALF in [NEW_HALF] && Spans([NEW_HALF], r);
    assert [DEEP][..0] == [] && Overlapping([DEEP], r) == [];
    var all := [NEW_HALF, OLD_HALF, REST];
    OverlapsEverything(all);
    assert Collected(1, S6.levels[1], EVERYTHING, EVERYTHING, all);
    Sizes();
    assert FirstFiles(all, TARGET_FILE_SIZE) == all[..1] == [NEW_HALF];
    assert ChosenInRange(S6.levels, 1, EVERYTHING, TARGET_FILE_SIZE, [NEW_HALF]);
    assert SetUp(S6.levels, 1, [NEW_HALF], [NEW_HALF], []);
  }

  lemma DownIsPermitted()
    ensures Permitted(S6, StartCompaction(DOWN)) && ManualPass(S6.levels, DOWN)
  {
    hide Compacts, Selected, ClosedWhenFull, ChosenInRange, SetUp;
    DownKeepsAll();
    DownIsSelected();
  }

  lemma DownRemoved()
    ensures Remaining([NEW_HALF, OLD_HALF, REST], Numbers([NEW_HALF])) == [OLD_HALF, REST]
  {
    hide Big, TableSize;
    var all, gone := [NEW_HALF, OLD_HALF, REST], Numbers([NEW_HALF]);
    assert gone == {5} by { assert NEW_HALF in [NEW_HALF] && NEW_HALF.number == 5; }
    assert all[1..] == [OLD_HALF, REST] && [OLD_HALF, REST][1..] == [REST] && [REST][1..] == [];
    assert Remaining([REST], gone) == [REST];
    assert Remaining([OLD_HALF, REST], gone) == [OLD_HALF, REST];
  }

  lemma DownInstalled()
    ensures Install(S6.levels, DOWN) == S7.levels
  {
    hide Big, TableSize;
    DownRemoved();
    assert Numbers([]) == {};
    assert [DEEP][1..] == [] && Remaining([DEEP], {}) == [DEEP];
    assert InsertFile([DEEP], MOVED) == [MOVED, DEEP] && [MOVED][1..] == [];
    assert AddFiles([DEEP], [MOVED]) == [MOVED, DEEP];
  }

  lemma CompactDown(before: seq<Action>) returns (actions: seq<Action>)
    requires Leads(before, S6, [BASE, OLD, NEXT, NEW])
    ensures Leads(actions, S7, [BASE, OLD, NEXT, NEW])
  {
    hide Leads, Big, TableSize, Permitted, ManualPass, Install;
    DownIsPermitted();
    Extend(before, S6, [BASE, OLD, NEXT, NEW], StartCompaction(DOWN));
    actions := before + [StartCompaction(DOWN)];
    var started := Begin(S6, DOWN);
    MayFinish(started, DOWN);
    Extend(actions, started, [BASE, OLD, NEXT, NEW], FinishCompaction);
    DownInstalled();
    assert Finish(started, DOWN) == S7;
    actions := actions + [FinishCompaction];
  }

  lemma MayFinish(db: Db, job: Job)
    requires db.job == Some(job) && job.level + 1 < NUM_LEVELS
    ensures Permitted(db, FinishCompaction) && Real(db, FinishCompaction)
    ensures Next(db, FinishCompaction) == Finish(db, job)
    ensures forall h :: NextHistory(db, h, FinishCompaction) == h
  {
  }

  // The search finds the old version although the map holds the new one.
  lemma SplitKeyReadsOldValue() returns (actions: seq<Action>)
    ensures RealRun(actions)
    ensures SearchFinds(After(actions).levels, KEY, After(actions).lastSequence, Found(Big('a')))
    ensures After(actions).mem == [] && After(actions).imm.None?
    ensures !Agrees(MapAfter(History(actions)), KEY, Found(Big('a')))
  {
    hide RealRun, TableSize;
    actions := FlushBase();
    actions := FlushMiddle(actions);
    actions := FlushTop(actions);
    actions := CompactTop(actions);
    actions := CompactDown(actions);
    assert OLD in OLD_HALF.entries && OLD_HALF in S7.levels[1];
    assert FirstHit(S7.levels, 1, KEY, 4, OLD);
    assert [BASE, OLD, NEXT, NEW][..3] == [BASE, OLD, NEXT];
    assert Big('a')[0] != Big('b')[0];
  }
}
