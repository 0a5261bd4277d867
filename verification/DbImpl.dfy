// The database object (DBImpl in db/db_impl.cc): every method makes the steps of the
// state machine that it should, and reads return what the plain map holds.
module DbImpl {
  import opened DbFormat
  import opened Tables
  import opened VersionSearch
  import opened DropRules
  import opened CompactionInputs
  import opened CompactionWork
  import opened OutputCuts
  import opened InputRuns
  import opened InputIterators
  import opened LsmState
  import opened LsmInstall
  import opened LsmFinish
  import opened LsmSteps
  import opened LsmFlush
  import opened LsmBegin
  import opened LsmRuns
  import opened LsmSnapshotFree
  import opened Merger
  import DbIter
  import Snapshots = SnapshotList
  import opened DbIterMeaning

  // ---------- What every state of the object satisfies ----------

  ghost predicate StateOk(db: Db, h: seq<Entry>) {
    var inv := Inv(db, h);
    inv && Ordered(db.levels[0])
  }

  // The step of the state machine that a method makes.
  ghost predicate Steps(before: Db, a: Action, after: Db) {
    Permitted(before, a) && after == Next(before, a)
  }

  lemma InstallKeepsOrder(db: Db, job: Job)
    requires Ordered(db.levels[0]) && job.level + 1 < NUM_LEVELS
    ensures Ordered(Install(db.levels, job)[0])
  {
    if job.level == 0 { RemainingKeepsOrder(db.levels[0], Numbers(job.in0)); }
  }

  lemma FlushKeepsOrder(db: Db, size: nat, level: nat)
    requires NumbersOk(db.levels, db.nextFile) && Ordered(db.levels[0])
    requires db.imm.Some? && level < NUM_LEVELS
    ensures Ordered(Flush(db, size, level).levels[0])
  {
    if level == 0 && db.imm.value != [] { InsertFileKeepsOrder(db.levels[0], FlushedFile(db, size)); }
  }

  lemma NextKeepsOrder(db: Db, h: seq<Entry>, a: Action)
    requires NumbersOk(db.levels, db.nextFile) && Ordered(db.levels[0]) && Permitted(db, a)
    ensures Ordered(Next(db, a).levels[0])
  {
    match a
    case FlushMem(size, level) => FlushKeepsOrder(db, size, level);
    case FinishCompaction => InstallKeepsOrder(db, db.job.value);
    case MoveFile(level, f) => InstallKeepsOrder(db, MoveJob(db, level, f));
    case _ =>
  }

  lemma StepIsOk(db: Db, h: seq<Entry>, a: Action)
    requires StateOk(db, h) && Permitted(db, a) && Guarded(db, a)
    ensures StateOk(Next(db, a), NextHistory(db, h, a))
    ensures ApartInv(db) && !a.GetSnapshot? ==> ApartInv(Next(db, a))
  {
    if ApartInv(db) && !a.GetSnapshot? { NextStaysApart(db, h, a); }
    NextKeepsInv(db, h, a);
    NextKeepsOrder(db, h, a);
  }

  lemma FlushStepIsOk(db: Db, h: seq<Entry>, size: nat, level: nat)
    requires StateOk(db, h) && Permitted(db, FlushMem(size, level))
    ensures Guarded(db, FlushMem(size, level)) ==> StateOk(Next(db, FlushMem(size, level)), h)
    ensures Guarded(db, FlushMem(size, level)) && ApartInv(db) ==> ApartInv(Next(db, FlushMem(size, level)))
    ensures GaplessJob(db) ==> Guarded(db, FlushMem(size, level)) && GaplessJob(Next(db, FlushMem(size, level)))
  {
    hide Inv, Ordered, ApartInv, Gapless, Guarded;
    if GaplessJob(db) { GaplessJobIsGuarded(db, h, size, level); }
    if Guarded(db, FlushMem(size, level)) { StepIsOk(db, h, FlushMem(size, level)); }
  }

  lemma SearchableLevels(db: Db, h: seq<Entry>)
    requires StateOk(db, h)
    ensures AllWellFormed(db.levels) && forall l :: 1 <= l < NUM_LEVELS ==> Disjoint(db.levels[l])
  {
  }

  // ---------- Lookups ----------

  lemma FoundInMem(db: Db, user: UserKey, sequence: SequenceNumber, e: Entry)
    requires MemtablesOk(db.mem, db.Imm(), db.levels)
    requires SeekEntry(db.mem, user, sequence) == Some(e)
    ensures NewestHeld(db, user, sequence, e)
  {
    SeekEntryIsNewest(db.mem, user, sequence);
    forall o | Holds(db, o) && o.key.user == user && o.key.sequence <= sequence ensures o.key.sequence <= e.key.sequence {
      if o !in db.mem && o !in db.Imm() {
        var l, f :| 0 <= l < NUM_LEVELS && f in db.levels[l] && o in f.entries;
        assert Newer(db.mem, f.entries);
      }
    }
  }

  lemma FoundInImm(db: Db, user: UserKey, sequence: SequenceNumber, e: Entry)
    requires MemtablesOk(db.mem, db.Imm(), db.levels)
    requires SeekEntry(db.mem, user, sequence).None? && SeekEntry(db.Imm(), user, sequence) == Some(e)
    ensures NewestHeld(db, user, sequence, e)
  {
    SeekEntryIsNewest(db.mem, user, sequence);
    SeekEntryIsNewest(db.Imm(), user, sequence);
    forall o | Holds(db, o) && o.key.user == user && o.key.sequence <= sequence ensures o.key.sequence <= e.key.sequence {
      if o !in db.mem && o !in db.Imm() {
        var l, f :| 0 <= l < NUM_LEVELS && f in db.levels[l] && o in f.entries;
        assert Newer(db.Imm(), f.entries);
      }
    }
  }

  // Neither memtable has a visible entry for the key.
  ghost predicate NotInMemtables(db: Db, user: UserKey, sequence: SequenceNumber) {
    forall o :: (o in db.mem || o in db.Imm()) && o.key.user == user ==> o.key.sequence > sequence
  }

  lemma NewestInFilesIsHeld(db: Db, user: UserKey, sequence: SequenceNumber, e: Entry)
    requires NotInMemtables(db, user, sequence) && NewestInFiles(db.levels, user, sequence, e)
    ensures NewestHeld(db, user, sequence, e)
  {
  }

  lemma FoundInFiles(db: Db, user: UserKey, sequence: SequenceNumber, r: Lookup)
    requires NotInMemtables(db, user, sequence) && LayeredByAge(db.levels)
    requires SearchFinds(db.levels, user, sequence, r)
    ensures Answer(db, user, sequence, r)
  {
    SearchFindsNewest(db.levels, user, sequence, r);
    if !r.Absent? {
      var e :| NewestInFiles(db.levels, user, sequence, e) && r == Outcome(e);
      NewestInFilesIsHeld(db, user, sequence, e);
    }
  }

  lemma SeeksMissed(db: Db, user: UserKey, sequence: SequenceNumber)
    requires Sorted(db.mem) && Sorted(db.Imm())
    requires SeekEntry(db.mem, user, sequence).None? && SeekEntry(db.Imm(), user, sequence).None?
    ensures NotInMemtables(db, user, sequence)
  {
    SeekEntryIsNewest(db.mem, user, sequence);
    SeekEntryIsNewest(db.Imm(), user, sequence);
  }

  lemma PartsOfStateOk(db: Db, h: seq<Entry>)
    requires StateOk(db, h)
    ensures Searchable(db.levels) && LayeredByAge(db.levels) && MemtablesOk(db.mem, db.Imm(), db.levels)
    ensures SnapshotsOk(db.snapshots, db.lastSequence)
    ensures forall l :: 0 <= l < NUM_LEVELS ==> ValidRanges(db.levels[l])
  {
    forall l, f | 0 <= l < NUM_LEVELS && f in db.levels[l] ensures f.smallest.user <= f.largest.user {
      RangeIsValid(f);
    }
  }

  lemma MergesWithoutOutputs(plan: Job, started: Job, es: seq<Entry>)
    requires Merges(plan, es) && started.in0 == plan.in0 && started.in1 == plan.in1
    ensures Merges(started, es)
  {
    forall e ensures InInputs(started, e) <==> InInputs(plan, e) {
      InputsAreInFiles(started, e);
      InputsAreInFiles(plan, e);
    }
  }

  // The job that a picked compaction stands for.
  function JobFor(db: Db, c: Compaction, outputs: seq<File>): Job {
    Job(c.level, c.in0, c.in1, outputs, db.OldestReadPoint())
  }

  lemma CompactionIsPermitted(db: Db, c: Compaction, outputs: seq<File>, es: seq<Entry>)
    requires db.job.None? && WellSelected(db.levels, c) && Merges(JobFor(db, c, []), es)
    requires OutputFiles(outputs, Survivors(es, db.OldestReadPoint(), db.levels, c.level), db.nextFile)
    ensures Permitted(db, StartCompaction(JobFor(db, c, outputs)))
  {
    hide OutputFiles, Merges, Survivors;
    var started := JobFor(db, c, outputs);
    MergesWithoutOutputs(JobFor(db, c, []), started, es);
    assert Compacts(db, started, es);
    assert Completed(db, started);
    var hull :| Selected(db.levels, c.level, c.in0, c.in1, hull);
    assert Choosable(db.levels, started.level, started.in0, started.in1);
  }

  // Without a split user key every step but a flush is guarded.
  lemma ApartLevelsAreGuarded(db: Db, h: seq<Entry>, a: Action)
    requires StateOk(db, h) && LevelsApart(db.levels) && Permitted(db, a) && (a.StartCompaction? || a.MoveFile?)
    ensures Guarded(db, a)
  {
    hide StateOk, LevelsApart, Selected, SplitsHarmlessly, NoSplit, Completed;
    StateOkParts(db, h);
    match a
    case StartCompaction(job) =>
      ApartInputsNotSplit(db.levels, job.level, job.in0, job.in1);
      NoSplitIsHarmless(db, job);
    case MoveFile(level, f) => ApartInputsNotSplit(db.levels, level, [f], []);
  }

  // The files that a compaction begins with, for the reason it is made.
  ghost predicate ChosenFor(levels: Levels, manual: Option<(nat, Range)>, sizeLevel: Option<nat>, compactPointer: Option<InternalKey>,
                            seekFile: Option<(nat, File)>, level: nat, chosen: seq<File>)
    requires level < NUM_LEVELS
  {
    if manual.Some? then level == manual.value.0 && ChosenInRange(levels, level, manual.value.1, TARGET_FILE_SIZE, chosen)
    else if sizeLevel.Some? then
      level == sizeLevel.value && exists f :: NextToCompact(levels[level], compactPointer, f) && ChosenWith(levels, level, f, chosen)
    else
      seekFile.Some? && level == seekFile.value.0 && ChosenWith(levels, level, seekFile.value.1, chosen)
  }

  ghost predicate RightInputs(levels: Levels, manual: Option<(nat, Range)>, sizeLevel: Option<nat>, compactPointer: Option<InternalKey>,
                              seekFile: Option<(nat, File)>, level: nat, in0: seq<File>, in1: seq<File>)
  {
    level + 1 < NUM_LEVELS && exists chosen ::
      ChosenFor(levels, manual, sizeLevel, compactPointer, seekFile, level, chosen) && SetUp(levels, level, chosen, in0, in1)
  }

  // The outputs of a compaction are closed where they have to be and nowhere else, and
  // none of them passes too much data two levels down.
  ghost predicate CutRightly(job: Job, grandparents: seq<File>, sizeSoFar: seq<Entry> -> nat, fileSize: seq<Entry> -> nat) {
    && (exists es :: Merges(job, es) && WellCut(job.outputs, es, grandparents, sizeSoFar, TARGET_FILE_SIZE, fileSize))
    && (forall o :: o in job.outputs ==> PassedBetween(grandparents, o.smallest, o.largest) <= MAX_GRANDPARENT_OVERLAP_BYTES)
  }

  // A compaction with one input file becomes a move of that file, unless it is a manual
  // one or the file overlaps too much data two levels down.
  predicate MovesAlone(levels: Levels, level: nat, in0: seq<File>, in1: seq<File>) {
    && |in0| == 1 && in1 == []
    && (level + 2 < NUM_LEVELS ==> TotalFileSize(Overlapping(levels[level + 2], Hull(in0[0]))) <= MAX_GRANDPARENT_OVERLAP_BYTES)
  }

  // The step that a background compaction without an immutable memtable makes.
  ghost predicate RightStep(levels: Levels, manual: Option<(nat, Range)>, sizeLevel: Option<nat>, compactPointer: Option<InternalKey>,
                            seekFile: Option<(nat, File)>, sizeSoFar: seq<Entry> -> nat, fileSize: seq<Entry> -> nat, step: Action)
  {
    match step
    case MoveFile(level, f) =>
      && manual.None? && MovesAlone(levels, level, [f], [])
      && RightInputs(levels, manual, sizeLevel, compactPointer, seekFile, level, [f], [])
    case StartCompaction(job) =>
      && (manual.Some? || !MovesAlone(levels, job.level, job.in0, job.in1))
      && RightInputs(levels, manual, sizeLevel, compactPointer, seekFile, job.level, job.in0, job.in1)
      && exists grandparents ::
           AreGrandparents(levels, job.level, job.in0, job.in1, grandparents) && CutRightly(job, grandparents, sizeSoFar, fileSize)
    case _ => false
  }

  // The step that a picked compaction becomes.
  ghost predicate StepFor(levels: Levels, c: Compaction, isManual: bool, sizeSoFar: seq<Entry> -> nat, fileSize: seq<Entry> -> nat, step: Action) {
    && AreGrandparents(levels, c.level, c.in0, c.in1, c.grandparents)
    && match step
       case MoveFile(level, f) =>
         !isManual && MovesAlone(levels, c.level, c.in0, c.in1) && level == c.level && c.in0 == [f]
       case StartCompaction(job) =>
         && (isManual || !MovesAlone(levels, c.level, c.in0, c.in1))
         && job.level == c.level && job.in0 == c.in0 && job.in1 == c.in1 && CutRightly(job, c.grandparents, sizeSoFar, fileSize)
       case _ => false
  }

  lemma RanRightly(levels: Levels, manual: Option<(nat, Range)>, sizeLevel: Option<nat>, compactPointer: Option<InternalKey>,
                   seekFile: Option<(nat, File)>, sizeSoFar: seq<Entry> -> nat, fileSize: seq<Entry> -> nat, c: Compaction, step: Action)
    requires RightInputs(levels, manual, sizeLevel, compactPointer, seekFile, c.level, c.in0, c.in1)
    requires StepFor(levels, c, manual.Some?, sizeSoFar, fileSize, step)
    ensures RightStep(levels, manual, sizeLevel, compactPointer, seekFile, sizeSoFar, fileSize, step)
  {
    hide RightInputs, AreGrandparents, CutRightly;
  }

  lemma TrivialMoveMovesAlone(levels: Levels, c: Compaction)
    requires WellSelected(levels, c)
    ensures IsTrivialMove(c) <==> MovesAlone(levels, c.level, c.in0, c.in1)
  {
    if |c.in0| == 1 && c.in1 == [] && c.level + 2 < NUM_LEVELS {
      var f := c.in0[0];
      var all :| Spans(c.in0 + c.in1, all) && c.grandparents == Overlapping(levels[c.level + 2], all);
      assert c.in0 + c.in1 == [f] && all == Hull(f);
    }
  }

  lemma SelectedLevel(levels: Levels, c: Compaction)
    requires WellSelected(levels, c)
    ensures Choosable(levels, c.level, c.in0, c.in1) && AreGrandparents(levels, c.level, c.in0, c.in1, c.grandparents)
  {
  }

  lemma StateOkParts(db: Db, h: seq<Entry>)
    requires StateOk(db, h)
    ensures AllWellFormed(db.levels)
  {
  }

  lemma AnswerToGet(db: Db, h: seq<Entry>, user: UserKey, sequence: SequenceNumber, r: Lookup)
    requires StateOk(db, h) && db.OldestReadPoint() <= sequence <= db.lastSequence
    requires Answer(db, user, sequence, r)
    ensures |h| == db.lastSequence && Agrees(MapAfter(h[..sequence]), user, r)
  {
    ReadsAreRight(db, h, user, sequence, r);
  }

  // A batch of operations, applied one by one.
  function WriteAll(db: Db, ops: seq<Op>): Db
    requires db.lastSequence + |ops| <= MAX_SEQUENCE
    ensures WriteAll(db, ops).lastSequence == db.lastSequence + |ops|
  {
    if ops == [] then db
    else
      var before := WriteAll(db, ops[..|ops| - 1]);
      Next(before, WriteOp(ops[|ops| - 1]))
  }

  lemma WriteAllAppend(db: Db, ops: seq<Op>, i: nat)
    requires i < |ops| && db.lastSequence + |ops| <= MAX_SEQUENCE
    ensures WriteAll(db, ops[..i + 1]) == Next(WriteAll(db, ops[..i]), WriteOp(ops[i]))
  {
    hide Next;
    assert ops[..i + 1][..i] == ops[..i];
  }

  lemma NothingWritten(db: Db, first: nat)
    requires first <= MAX_SEQUENCE + 1
    ensures EntriesFor([], first) == [] && WriteAll(db, []) == db
  {
  }

  lemma GrandparentsAreApart(levels: Levels, c: Compaction)
    requires Layered(levels) && WellSelected(levels, c)
    ensures Disjoint(c.grandparents) && forall f :: f in c.grandparents ==> WellFormed(f)
  {
    hide LayeredByAge, NumberedByAge, Selected, LargestOf, WellFormed;
    if c.level + 2 < NUM_LEVELS {
      var all :| Spans(c.in0 + c.in1, all) && c.grandparents == Overlapping(levels[c.level + 2], all);
      OverlappingIsDisjoint(levels[c.level + 2], all);
    }
  }

  // Merge the inputs, drop entries, write the rest.
  method WorkOut(levels: Levels, plan: Job, grandparents: seq<File>, first: nat, sizeSoFar: seq<Entry> -> nat, fileSize: seq<Entry> -> nat)
    returns (outputs: seq<File>, ghost es: seq<Entry>)
    requires Layered(levels) && Ordered(levels[0]) && Choosable(levels, plan.level, plan.in0, plan.in1)
    requires InLevelOrder(levels[plan.level], plan.in0) && plan.smallestSnapshot < MAX_SEQUENCE
    requires Disjoint(grandparents) && forall f :: f in grandparents ==> WellFormed(f)
    ensures Merges(plan, es)
    ensures OutputFiles(outputs, Survivors(es, plan.smallestSnapshot, levels, plan.level), first)
    ensures WellCut(outputs, es, grandparents, sizeSoFar, TARGET_FILE_SIZE, fileSize)
    ensures forall o :: o in outputs ==> PassedBetween(grandparents, o.smallest, o.largest) <= MAX_GRANDPARENT_OVERLAP_BYTES
  {
    hide Ordered, InLevelOrder, OutputFiles, Survivors, WellCut, PassedBetween;
    var input := MakeInputIterator(levels, plan);
    es := input.merged;
    var running := new RunningCompaction(levels, plan.level, grandparents, es);
    outputs := DoCompactionWork(input, plan.smallestSnapshot, running, first, sizeSoFar, fileSize);
    OutputsPassLittle(outputs, es, plan.smallestSnapshot, levels, plan.level, first, grandparents, sizeSoFar, fileSize);
  }

  // A manual compaction comes first.
  method ChooseCompaction(levels: Levels, manual: Option<(nat, Range)>, sizeLevel: Option<nat>, compactPointer: Option<InternalKey>,
                          seekFile: Option<(nat, File)>)
    returns (c: Option<Compaction>)
    requires forall l :: 0 <= l < NUM_LEVELS ==> ValidRanges(levels[l])
    requires manual.Some? ==> manual.value.0 + 1 < NUM_LEVELS
    requires sizeLevel.Some? ==> sizeLevel.value + 1 < NUM_LEVELS && levels[sizeLevel.value] != []
    requires seekFile.Some? ==> seekFile.value.0 + 1 < NUM_LEVELS && seekFile.value.1 in levels[seekFile.value.0]
    ensures c.None? <==> if manual.Some? then !OverlapsAny(levels[manual.value.0], manual.value.1) else sizeLevel.None? && seekFile.None?
    ensures c.Some? ==> WellSelected(levels, c.value) && InLevelOrder(levels[c.value.level], c.value.in0)
    ensures c.Some? && manual.None? ==> Gapless(c.value.in0 + c.value.in1)
    ensures c.Some? ==>
      RightInputs(levels, manual, sizeLevel, compactPointer, seekFile, c.value.level, c.value.in0, c.value.in1)
  {
    hide WellSelected, InLevelOrder, SetUp, ChosenInRange, ChosenWith, NextToCompact, Gapless;
    if manual.Some? {
      c := CompactRange(levels, manual.value.0, manual.value.1, TARGET_FILE_SIZE);
    } else {
      c := PickCompaction(levels, sizeLevel, compactPointer, seekFile);
    }
  }

  class DBImpl {
    var lastSequence: SequenceNumber
    var mem: seq<Entry>
    var imm: Option<seq<Entry>>
    var levels: Levels
    var nextFile: nat
    const snapshotList: Snapshots.SnapshotList
    var job: Option<Job>
    // Everything ever written, in order, and the sequence numbers of the snapshots.
    ghost var history: seq<Entry>
    ghost var snapshots: seq<SequenceNumber>

    ghost function State(): Db
      reads this
    {
      Db(lastSequence, mem, imm, levels, nextFile, snapshots, job)
    }

    ghost predicate Ok()
      reads this, snapshotList, snapshotList.list, snapshotList.nodes
    {
      var listed := snapshotList.Ok() && snapshotList.Numbers() == snapshots;
      listed && StateOk(State(), history)
    }

    // No snapshot is held, and no user key is split between two files of a level.
    ghost predicate Quiet()
      reads this
    {
      ApartInv(State())
    }

    // A compaction in progress has no gap between its inputs.
    ghost predicate OwnJob()
      reads this
    {
      GaplessJob(State())
    }

    constructor ()
      ensures Ok() && Quiet() && OwnJob() && State() == NEW_DB && history == [] && fresh(snapshotList) && fresh(snapshotList.list)
    {
      snapshotList := new Snapshots.SnapshotList();
      lastSequence, mem, imm, levels := 0, [], None, [[], [], [], [], [], [], []];
      nextFile, snapshots, job, history := 2, [], None, [];
      new;
      NewDbOk();
      NewDbApart();
    }

    // A read at the last sequence number or at a snapshot returns what a plain map,
    // updated in write order up to there, holds.
    method Get(user: UserKey, snapshot: Option<SequenceNumber>) returns (value: Option<Value>)
      requires Ok() && (snapshot.Some? ==> snapshot.value in snapshots)
      ensures |history| == lastSequence && (snapshot.Some? ==> snapshot.value <= lastSequence)
      ensures var m := MapAfter(history[..if snapshot.Some? then snapshot.value else lastSequence]);
              value == if user in m then Some(m[user]) else None
    {
      hide Inv, Ordered, SeekIndex;
      var sequence := if snapshot.Some? then snapshot.value else lastSequence;
      PartsOfStateOk(State(), history);
      ReadPointsAreUsable(State(), sequence);
      var r: Lookup;
      var found := SeekEntry(mem, user, sequence);
      if found.Some? {
        FoundInMem(State(), user, sequence, found.value);
        r := Outcome(found.value);
      } else {
        found := if imm.Some? then SeekEntry(imm.value, user, sequence) else None;
        if found.Some? {
          FoundInImm(State(), user, sequence, found.value);
          r := Outcome(found.value);
        } else {
          r := VersionSearch.Get(levels, user, sequence);
          SeeksMissed(State(), user, sequence);
          FoundInFiles(State(), user, sequence, r);
        }
      }
      AnswerToGet(State(), history, user, sequence, r);
      value := if r.Found? then Some(r.value) else None;
    }

    // An iterator over everything held, at the last sequence number or at a snapshot.
    method NewIterator(snapshot: Option<SequenceNumber>) returns (it: DbIter.DBIter)
      requires Ok() && (snapshot.Some? ==> snapshot.value in snapshots)
      ensures fresh(it) && fresh(it.iter) && it.Ok() && !it.valid
      ensures it.sequence == if snapshot.Some? then snapshot.value else lastSequence
      ensures Merged(State(), it.iter.merged)
    {
      var files := AddIterators(levels);
      MemtableRuns(State(), files);
      var internal := NewMergingIterator([mem, if imm.Some? then imm.value else []] + files);
      it := new DbIter.DBIter(internal, if snapshot.Some? then snapshot.value else lastSequence);
    }

    method GetSnapshot() returns (s: Snapshots.SnapshotImpl)
      requires Ok()
      modifies this, snapshotList, snapshotList.list, snapshotList.nodes
      ensures Ok() && history == old(history) && (old(OwnJob()) ==> OwnJob())
      ensures fresh(s) && s.number == lastSequence && snapshotList.nodes == old(snapshotList.nodes) + [s]
      ensures snapshots == old(snapshots) + [lastSequence] && State() == old(State()).(snapshots := snapshots)
      ensures Steps(old(State()), LsmRuns.GetSnapshot, State())
    {
      hide StateOk, Gapless;
      StepIsOk(State(), history, LsmRuns.GetSnapshot);
      s := snapshotList.New(lastSequence);
      snapshots := snapshots + [lastSequence];
    }

    // Any snapshot may be released, the i-th oldest for example.
    method ReleaseSnapshot(s: Snapshots.SnapshotImpl, ghost i: nat)
      requires Ok() && i < |snapshots| && snapshotList.nodes[i] == s
      modifies this, snapshotList, snapshotList.list, snapshotList.nodes
      ensures Ok() && history == old(history) && (old(Quiet()) ==> Quiet()) && (old(OwnJob()) ==> OwnJob())
      ensures snapshotList.nodes == old(snapshotList.nodes)[..i] + old(snapshotList.nodes)[i + 1..]
      ensures snapshots == old(snapshots)[..i] + old(snapshots)[i + 1..] && State() == old(State()).(snapshots := snapshots)
      ensures Steps(old(State()), DropSnapshot(i), State())
    {
      hide StateOk, Gapless, ApartInv;
      StepIsOk(State(), history, DropSnapshot(i));
      snapshotList.Delete(s, i);
      snapshots := snapshots[..i] + snapshots[i + 1..];
    }

    // The smallest sequence number that a reader can use.
    method SmallestSnapshot() returns (s: SequenceNumber)
      requires Ok()
      ensures s == State().OldestReadPoint()
    {
      var empty := snapshotList.Empty();
      if empty {
        return lastSequence;
      }
      var oldest := snapshotList.Oldest();
      s := oldest.number;
    }

    // WriteBatchInternal::InsertInto on the memtable, under consecutive sequence numbers.
    method Write(ops: seq<Op>)
      requires Ok() && lastSequence + |ops| <= MAX_SEQUENCE
      modifies this
      ensures Ok() && history == old(history) + EntriesFor(ops, old(lastSequence) + 1)
      ensures MapAfter(history) == ApplyAll(old(MapAfter(history)), ops)
      ensures (old(Quiet()) ==> Quiet()) && (old(OwnJob()) ==> OwnJob())
      ensures State() == WriteAll(old(State()), ops)
    {
      hide Inv, Ordered, StateOk, ApartInv, EntriesFor, WriteAll, EntryFor, MapAfter, ApplyAll;
      ghost var db, first := State(), lastSequence + 1;
      NothingWritten(db, first);
      assert ops[..0] == [] && history + [] == history;
      for i := 0 to |ops|
        invariant Ok() && lastSequence == old(lastSequence) + i && (old(Quiet()) ==> Quiet()) && (old(OwnJob()) ==> OwnJob())
        invariant history == old(history) + EntriesFor(ops[..i], first)
        invariant State() == WriteAll(db, ops[..i])
      {
        WriteAllAppend(db, ops, i);
        EntriesForAppend(ops, first, i);
        Add(ops[i]);
      }
      assert ops[..|ops|] == ops;
      WritingApplies(old(history), ops, first);
    }

    // MemTable::Add.
    method Add(op: Op)
      requires Ok() && lastSequence < MAX_SEQUENCE
      modifies this
      ensures Ok() && history == old(history) + [EntryFor(op, old(lastSequence) + 1)]
      ensures (old(Quiet()) ==> Quiet()) && (old(OwnJob()) ==> OwnJob())
      ensures Steps(old(State()), WriteOp(op), State())
    {
      hide Inv, SeekIndex, Ordered;
      StepIsOk(State(), history, WriteOp(op));
      var e := EntryFor(op, lastSequence + 1);
      mem := Insert(mem, e);
      lastSequence := lastSequence + 1;
      history := history + [e];
    }

    // MakeRoomForWrite, when the memtable is full and the previous one has been flushed.
    method SwitchMemTable()
      requires Ok() && imm.None?
      modifies this
      ensures Ok() && history == old(history) && (old(Quiet()) ==> Quiet()) && (old(OwnJob()) ==> OwnJob())
      ensures Steps(old(State()), SwitchMem, State())
    {
      hide StateOk, ApartInv;
      StepIsOk(State(), history, SwitchMem);
      mem, imm := [], Some(mem);
    }

    // Makes the flush step.  Nothing can go wrong while no compaction runs, or one whose
    // inputs leave no gap; otherwise the table must not fall among the outputs.
    method CompactMemTable(size: nat) returns (level: nat)
      requires Ok() && imm.Some?
      modifies this
      ensures Steps(old(State()), FlushMem(size, level), State()) && history == old(history)
      ensures imm == None && nextFile == old(nextFile) + 1
      ensures Guarded(old(State()), FlushMem(size, level)) ==> Ok() && (old(Quiet()) ==> Quiet())
      ensures old(OwnJob()) ==> Guarded(old(State()), FlushMem(size, level)) && OwnJob()
    {
      hide StateOk, ApartInv, GaplessJob, InsertFile, Guarded, FlushLevel, AllWellFormed, Searchable, LayeredByAge, MemtablesOk, WellFormed;
      level := LevelForTable(size);
      FlushStepIsOk(State(), history, size, level);
      if imm.value != [] {
        levels := levels[level := InsertFile(levels[level], MakeFile(nextFile, size, imm.value))];
      }
      imm, nextFile := None, nextFile + 1;
    }

    // Where the table of the immutable memtable will go.
    method LevelForTable(size: nat) returns (level: nat)
      requires Ok() && imm.Some?
      ensures level < NUM_LEVELS && (imm.value != [] ==> FlushLevel(levels, Hull(FlushedFile(State(), size)), level))
    {
      hide StateOk, FlushLevel, AllWellFormed, Searchable;
      level := 0;
      if imm.value != [] {
        SearchableLevels(State(), history);
        var f := MakeFile(nextFile, size, imm.value);
        level := PickLevelForMemTableOutput(levels, Hull(f));
        assert f == FlushedFile(State(), size);
      }
    }

    // Flushes the immutable memtable, if there is one; otherwise picks a compaction, a
    // manual one first.
    method BackgroundCompaction(manual: Option<(nat, Range)>, sizeLevel: Option<nat>, compactPointer: Option<InternalKey>,
                                seekFile: Option<(nat, File)>, tableSize: nat,
                                sizeSoFar: seq<Entry> -> nat, fileSize: seq<Entry> -> nat)
      returns (ghost step: Option<Action>)
      requires Ok() && job.None? && State().OldestReadPoint() < MAX_SEQUENCE
      requires manual.Some? ==> manual.value.0 + 1 < NUM_LEVELS
      requires sizeLevel.Some? ==> sizeLevel.value + 1 < NUM_LEVELS && levels[sizeLevel.value] != []
      requires seekFile.Some? ==> seekFile.value.0 + 1 < NUM_LEVELS && seekFile.value.1 in levels[seekFile.value.0]
      modifies this
      ensures history == old(history)
      ensures step.None? <==> old(imm).None? && if manual.Some? then !OverlapsAny(old(levels)[manual.value.0], manual.value.1)
                                                else sizeLevel.None? && seekFile.None?
      ensures step.None? ==> State() == old(State())
      ensures step.Some? ==> Steps(old(State()), step.value, State())
      ensures step.Some? && old(imm).Some? ==> step.value.FlushMem?
      ensures step.Some? && old(imm).None? ==>
        RightStep(old(levels), manual, sizeLevel, compactPointer, seekFile, sizeSoFar, fileSize, step.value)
      ensures step.None? || Guarded(old(State()), step.value) ==> Ok() && (old(Quiet()) ==> Quiet())
      ensures old(LevelsApart(levels)) ==> step.None? || Guarded(old(State()), step.value)
      ensures manual.None? ==> OwnJob()
    {
      hide Inv, Ordered, Gapless, Guarded, LevelsApart, ApartInv, RightInputs, WellSelected, InLevelOrder, LayeredByAge, MemtablesOk,
           StepFor, RightStep, Permitted, Next, OverlapsAny;
      assert OwnJob();
      if imm.Some? {
        var level := CompactMemTable(tableSize);
        return Some(FlushMem(tableSize, level));
      }
      PartsOfStateOk(State(), history);
      var c := ChooseCompaction(levels, manual, sizeLevel, compactPointer, seekFile);
      if c.None? {
        step := None;
        return;
      }
      step := RunCompaction(c.value, manual.Some?, sizeSoFar, fileSize);
      RanRightly(old(levels), manual, sizeLevel, compactPointer, seekFile, sizeSoFar, fileSize, c.value, step.value);
    }

    // A trivial move is done at once; any other compaction is worked out here and
    // installed later, with writes and flushes in between.
    method RunCompaction(c: Compaction, isManual: bool, sizeSoFar: seq<Entry> -> nat, fileSize: seq<Entry> -> nat)
      returns (ghost step: Option<Action>)
      requires Ok() && job.None? && State().OldestReadPoint() < MAX_SEQUENCE
      requires WellSelected(levels, c) && InLevelOrder(levels[c.level], c.in0)
      modifies this
      ensures step.Some? && Steps(old(State()), step.value, State()) && history == old(history)
      ensures StepFor(old(levels), c, isManual, sizeSoFar, fileSize, step.value)
      ensures Guarded(old(State()), step.value) ==> Ok() && (old(Quiet()) ==> Quiet())
      ensures old(LevelsApart(levels)) ==> Guarded(old(State()), step.value)
      ensures Gapless(c.in0 + c.in1) ==> OwnJob()
    {
      hide Inv, Ordered, Gapless, Guarded, LevelsApart, ApartInv, WellSelected, InLevelOrder, MovesAlone, AreGrandparents, CutRightly,
           Permitted, Next;
      SelectedLevel(levels, c);
      TrivialMoveMovesAlone(levels, c);
      if !isManual && IsTrivialMove(c) {
        assert c.in0 == [c.in0[0]] && c.in1 == [];
        step := Some(MoveFile(c.level, c.in0[0]));
        MoveToNextLevel(c.level, c.in0[0]);
      } else {
        var started := DoCompaction(c, sizeSoFar, fileSize);
        step := Some(StartCompaction(started));
      }
    }

    method MoveToNextLevel(level: nat, f: File)
      requires Ok() && job.None? && Choosable(levels, level, [f], [])
      modifies this
      ensures Steps(old(State()), MoveFile(level, f), State()) && history == old(history)
      ensures Guarded(old(State()), MoveFile(level, f)) ==> Ok() && (old(Quiet()) ==> Quiet())
      ensures old(LevelsApart(levels)) ==> Guarded(old(State()), MoveFile(level, f))
      ensures OwnJob()
    {
      hide StateOk, ApartInv, LevelsApart, Guarded, Remaining, AddFiles, Numbers;
      ghost var step := MoveFile(level, f);
      if LevelsApart(levels) { ApartLevelsAreGuarded(State(), history, step); }
      if Guarded(State(), step) { StepIsOk(State(), history, step); }
      levels := levels[level := Remaining(levels[level], Numbers([f]))]
                      [level + 1 := AddFiles(Remaining(levels[level + 1], Numbers([])), [f])];
    }

    method DoCompaction(c: Compaction, sizeSoFar: seq<Entry> -> nat, fileSize: seq<Entry> -> nat)
      returns (started: Job)
      requires Ok() && job.None? && State().OldestReadPoint() < MAX_SEQUENCE
      requires WellSelected(levels, c) && InLevelOrder(levels[c.level], c.in0)
      modifies this
      ensures Steps(old(State()), StartCompaction(started), State()) && history == old(history)
      ensures started.level == c.level && started.in0 == c.in0 && started.in1 == c.in1
      ensures CutRightly(started, c.grandparents, sizeSoFar, fileSize)
      ensures Guarded(old(State()), StartCompaction(started)) ==> Ok() && (old(Quiet()) ==> Quiet())
      ensures old(LevelsApart(levels)) ==> Guarded(old(State()), StartCompaction(started))
      ensures Gapless(c.in0 + c.in1) ==> OwnJob()
    {
      hide Inv, LevelsApart, ApartInv, Merges, OutputFiles, Survivors, Gapless, Guarded, Selected, WellCut, PassedBetween, AreGrandparents;
      PartsOfStateOk(State(), history);
      GrandparentsAreApart(levels, c);
      ghost var es;
      var outputs;
      var smallest := SmallestSnapshot();
      started := Job(c.level, c.in0, c.in1, [], smallest);
      assert started == JobFor(State(), c, []);
      SelectedLevel(levels, c);
      outputs, es := WorkOut(levels, started, c.grandparents, nextFile, sizeSoFar, fileSize);
      CompactionIsPermitted(State(), c, outputs, es);
      MergesWithoutOutputs(started, started.(outputs := outputs), es);
      started := started.(outputs := outputs);
      ghost var step := StartCompaction(started);
      if LevelsApart(levels) { ApartLevelsAreGuarded(State(), history, step); }
      if Guarded(State(), step) { StepIsOk(State(), history, step); }
      job, nextFile := Some(started), nextFile + |outputs|;
    }

    method InstallCompactionResults()
      requires Ok() && job.Some? && job.value.level + 1 < NUM_LEVELS
      modifies this
      ensures Ok() && history == old(history) && (old(Quiet()) ==> Quiet()) && OwnJob()
      ensures Steps(old(State()), FinishCompaction, State())
    {
      hide StateOk, ApartInv;
      StepIsOk(State(), history, FinishCompaction);
      var j := job.value;
      levels := levels[j.level := Remaining(levels[j.level], Numbers(j.in0))]
                      [j.level + 1 := AddFiles(Remaining(levels[j.level + 1], Numbers(j.in1)), j.outputs)];
      job := None;
    }
  }
}
