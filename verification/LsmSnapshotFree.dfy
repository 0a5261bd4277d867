// Without snapshots no user key is ever split, and only a flush into a gap can do harm;
// without manual compactions there is no gap either, and every read is right.
module LsmSnapshotFree {
  import opened DbFormat
  import opened Tables
  import opened VersionSearch
  import opened DropRules
  import opened CompactionInputs
  import opened LsmState
  import opened LsmInstall
  import opened LsmFinish
  import opened LsmSteps
  import opened LsmFlush
  import opened LsmBegin
  import opened LsmRuns

  // No user key lies in both ranges.
  predicate Apart(f: File, g: File) {
    f.largest.user < g.smallest.user || g.largest.user < f.smallest.user
  }

  ghost predicate AllApart(files: seq<File>) {
    forall f, g :: f in files && g in files && f != g ==> Apart(f, g)
  }

  ghost predicate LevelsApart(levels: Levels) {
    forall l :: 1 <= l < NUM_LEVELS ==> AllApart(levels[l])
  }

  ghost predicate OutputsApart(levels: Levels, job: Job)
    requires job.level + 1 < NUM_LEVELS
  {
    && AllApart(job.outputs)
    && (forall f, o :: f in levels[job.level + 1] && f.number !in Numbers(job.in1) && o in job.outputs ==> Apart(f, o))
  }

  ghost predicate JobApart(levels: Levels, job: Job) {
    job.level + 1 < NUM_LEVELS && OutputsApart(levels, job)
  }

  // What snapshot-free runs keep on top of the general invariant.
  ghost predicate ApartInv(db: Db) {
    var quiet := db.snapshots == [];
    var jobOk := db.job.Some? ==> JobApart(db.levels, db.job.value);
    quiet && LevelsApart(db.levels) && jobOk
  }

  // ---------- Snapshot-free steps are guarded ----------

  lemma ApartInputsNotSplit(levels: Levels, level: nat, in0: seq<File>, in1: seq<File>)
    requires LevelsApart(levels) && AllWellFormed(levels) && Choosable(levels, level, in0, in1)
    ensures NoSplit(levels, level, in0, in1)
  {
    var hull :| Selected(levels, level, in0, in1, hull);
    forall f ensures !ContinuesInput(levels, level, in0, f) {
      if level > 0 { NothingContinues(levels, level, in0, f); } else { ClosedLeavesNoHalf(levels, in0, in1, hull, f); }
    }
    var next := level + 1;
    forall f ensures !ContinuesInput(levels, next, in1, f) {
      NothingContinues(levels, next, in1, f);
    }
  }

  lemma NothingContinues(levels: Levels, l: nat, chosen: seq<File>, f: File)
    requires LevelsApart(levels) && AllWellFormed(levels) && 1 <= l < NUM_LEVELS
    requires forall g :: g in chosen ==> g in levels[l]
    ensures !ContinuesInput(levels, l, chosen, f)
  {
    MembersAreNumbered(chosen);
    if f in levels[l] {
      RangeIsValid(f);
      forall g | g in chosen && f.number !in Numbers(chosen) ensures !Continues(g, f) {
        assert Apart(f, g);
        RangeIsValid(g);
      }
    }
  }

  // At level 0 everything that overlaps the inputs is an input.
  lemma ClosedLeavesNoHalf(levels: Levels, in0: seq<File>, in1: seq<File>, hull: Range, f: File)
    requires AllWellFormed(levels) && Selected(levels, 0, in0, in1, hull)
    ensures !ContinuesInput(levels, 0, in0, f)
  {
    MembersAreNumbered(in0);
    if f in levels[0] && f.number !in Numbers(in0) {
      RangeIsValid(f);
      forall g | g in in0 ensures !Continues(g, f) {
        RangeIsValid(g);
      }
    }
  }

  lemma RangeIsValid(f: File)
    requires WellFormed(f)
    ensures f.smallest.user <= f.largest.user
  {
    FileRange(f, f.entries[0]);
  }

  // A file that is clear of the inputs and lies before or after an output has no user key
  // in common with it.
  lemma FittingFileIsApart(job: Job, f: File, o: File)
    requires ClearOfInputs(job, f) && WellFormed(f) && WellFormed(o) && (Before(f, o) || Before(o, f))
    requires forall e :: e in o.entries ==> InInputs(job, e)
    ensures Apart(f, o)
  {
    var first, last := o.entries[0], o.entries[|o.entries| - 1];
    assert first in o.entries && last in o.entries;
    InputAvoids(job, f, first);
    InputAvoids(job, f, last);
    RangeIsValid(f);
  }

  lemma FlushStaysApart(db: Db, size: nat, level: nat, job: Job)
    requires Layered(db.levels) && JobFits(db.levels, db.nextFile, job)
    requires db.imm.Some? && db.imm.value != [] && Placed(db.levels, level, FlushedFile(db, size))
    requires FlushFits(job, level, FlushedFile(db, size))
    ensures level == job.level + 1 ==> forall o :: o in job.outputs ==> Apart(FlushedFile(db, size), o)
  {
    var f := FlushedFile(db, size);
    if level == job.level + 1 {
      PlacedIsClear(db.levels, level, f, job);
      forall o | o in job.outputs ensures Apart(f, o) {
        assert forall e :: e in o.entries ==> InOutputs(job, e);
        FittingFileIsApart(job, f, o);
      }
    }
  }

  // While a gapless compaction runs, placement alone keeps a flushed file clear of its
  // outputs.
  lemma AutomaticFlushFits(db: Db, size: nat, level: nat, job: Job)
    requires Layered(db.levels) && JobFits(db.levels, db.nextFile, job) && Gapless(job.in0 + job.in1)
    requires db.imm.Some? && db.imm.value != [] && Placed(db.levels, level, FlushedFile(db, size))
    ensures FlushFits(job, level, FlushedFile(db, size))
  {
    var f := FlushedFile(db, size);
    if level == job.level + 1 {
      PlacedIsClear(db.levels, level, f, job);
      forall o | o in job.outputs ensures Before(f, o) || Before(o, f) {
        assert forall e :: e in o.entries ==> InOutputs(job, e);
        forall x, y | x in o.entries && y in o.entries && x.key.user < f.smallest.user ensures y.key.user <= f.largest.user {
          GaplessSurroundsNothing(job, f, x, y);
        }
        OutputOnOneSide(job, f, o);
      }
    }
  }

  lemma ApartParts(db: Db, h: seq<Entry>)
    requires Inv(db, h) && ApartInv(db)
    ensures LevelsApart(db.levels) && AllWellFormed(db.levels)
  {
  }

  lemma NoSplitIsHarmless(db: Db, job: Job)
    requires job.level + 1 < NUM_LEVELS && NoSplit(db.levels, job.level, job.in0, job.in1)
    ensures SplitsHarmlessly(db, job)
  {
  }

  lemma ApartIsGuarded(db: Db, h: seq<Entry>, a: Action)
    requires Inv(db, h) && ApartInv(db) && Permitted(db, a) && !a.FlushMem?
    ensures Guarded(db, a)
  {
    hide Inv, LevelsApart, Selected, Completed, SplitsHarmlessly, NoSplit, ContinuesInput, AllWellFormed;
    ApartParts(db, h);
    match a
    case StartCompaction(job) =>
      ApartInputsNotSplit(db.levels, job.level, job.in0, job.in1);
      NoSplitIsHarmless(db, job);
    case MoveFile(level, f) => ApartInputsNotSplit(db.levels, level, [f], []);
    case _ =>
  }

  // ---------- Snapshot-free steps keep levels apart ----------

  lemma InstallStaysApart(levels: Levels, job: Job)
    requires LevelsApart(levels) && job.level + 1 < NUM_LEVELS && OutputsApart(levels, job)
    ensures LevelsApart(Install(levels, job))
  {
    var after := Install(levels, job);
    forall l, f, g | 1 <= l < NUM_LEVELS && f in after[l] && g in after[l] && f != g ensures Apart(f, g) {
      InstallMember(levels, job, l, f);
      InstallMember(levels, job, l, g);
      if Stays(levels, job, l, f) && Stays(levels, job, l, g) {
        assert AllApart(levels[l]);
      }
    }
  }

  lemma AddFileStaysApart(levels: Levels, level: nat, f: File)
    requires LevelsApart(levels) && Placed(levels, level, f) && AllWellFormed(levels)
    ensures LevelsApart(AddFile(levels, level, f))
  {
    var after := AddFile(levels, level, f);
    forall l, g, k | 1 <= l < NUM_LEVELS && g in after[l] && k in after[l] && g != k ensures Apart(g, k) {
      AddFileMember(levels, level, f, l, g);
      AddFileMember(levels, level, f, l, k);
      if g in levels[l] && k in levels[l] {
        assert AllApart(levels[l]);
      } else {
        assert !Overlaps(if g in levels[l] then g else k, Hull(f));
      }
    }
  }

  lemma AddFileKeepsJobApart(levels: Levels, level: nat, f: File, job: Job)
    requires JobApart(levels, job) && level < NUM_LEVELS
    requires level == job.level + 1 ==> forall o :: o in job.outputs ==> Apart(f, o)
    ensures JobApart(AddFile(levels, level, f), job)
  {
    forall g, o | g in AddFile(levels, level, f)[job.level + 1] && g.number !in Numbers(job.in1) && o in job.outputs
      ensures Apart(g, o)
    {
      AddFileMember(levels, level, f, job.level + 1, g);
    }
  }

  // With the smallest snapshot at the last sequence number, one entry per user key
  // survives, so two outputs never share a user key.
  lemma OutputsOfOneKeyEach(db: Db, job: Job, es: seq<Entry>)
    requires Compacts(db, job, es) && forall e :: e in es ==> e.key.sequence <= job.smallestSnapshot
    requires Disjoint(job.outputs) && forall o :: o in job.outputs ==> WellFormed(o)
    requires forall o :: InOutputs(job, o) <==> o in Survivors(es, job.smallestSnapshot, db.levels, job.level)
    ensures AllApart(job.outputs)
  {
    forall f, g | f in job.outputs && g in job.outputs && f != g ensures Apart(f, g) {
      DisjointMembers(job.outputs, f, g);
      if Before(f, g) {
        OneKeyBetween(db, job, es, f, g);
      } else {
        OneKeyBetween(db, job, es, g, f);
      }
    }
  }

  lemma OneKeyBetween(db: Db, job: Job, es: seq<Entry>, f: File, g: File)
    requires Compacts(db, job, es) && forall e :: e in es ==> e.key.sequence <= job.smallestSnapshot
    requires f in job.outputs && g in job.outputs && WellFormed(f) && WellFormed(g) && Before(f, g)
    requires forall o :: InOutputs(job, o) <==> o in Survivors(es, job.smallestSnapshot, db.levels, job.level)
    ensures f.largest.user < g.smallest.user
  {
    var x, y := f.entries[|f.entries| - 1], g.entries[0];
    assert x in f.entries && y in g.entries;
    assert InOutputs(job, x) && InOutputs(job, y);
    if x.key.user == y.key.user {
      OneSurvivorPerKey(es, job.smallestSnapshot, db.levels, job.level, x, y);
    }
  }

  // Everything the compaction reads lies on one side of a file that stays, in user keys.
  lemma InputKeysOnOneSide(levels: Levels, job: Job, hull: Range, f: File, e: Entry)
    requires AllWellFormed(levels) && Selected(levels, job.level, job.in0, job.in1, hull)
    requires AllApart(levels[job.level + 1])
    requires f in levels[job.level + 1] && f.number !in Numbers(job.in1)
    requires InInputs(job, e)
    ensures if f.largest.user < hull.lo.value then f.largest.user < e.key.user else e.key.user < f.smallest.user
  {
    MembersAreNumbered(job.in1);
    var g :| IsInput(job, g) && e in g.entries;
    assert WellFormed(g) && WellFormed(f);
    FileRange(g, e);
    RangeIsValid(f);
    if g in job.in1 {
      assert Apart(f, g);
    } else {
      assert Within(g, hull);
    }
  }

  lemma StartedStaysApart(levels: Levels, job: Job, hull: Range)
    requires AllWellFormed(levels) && Selected(levels, job.level, job.in0, job.in1, hull)
    requires AllApart(levels[job.level + 1])
    requires forall o :: o in job.outputs ==> WellFormed(o)
    requires forall e :: InOutputs(job, e) ==> InInputs(job, e)
    ensures forall f, o :: f in levels[job.level + 1] && f.number !in Numbers(job.in1) && o in job.outputs ==> Apart(f, o)
  {
    forall f, o | f in levels[job.level + 1] && f.number !in Numbers(job.in1) && o in job.outputs ensures Apart(f, o) {
      var first, last := o.entries[0], o.entries[|o.entries| - 1];
      assert first in o.entries && last in o.entries;
      assert InOutputs(job, first) && InOutputs(job, last);
      InputKeysOnOneSide(levels, job, hull, f, first);
      InputKeysOnOneSide(levels, job, hull, f, last);
    }
  }

  lemma CompletedStaysApart(db: Db, h: seq<Entry>, job: Job, es: seq<Entry>, hull: Range)
    requires NumbersOk(db.levels, db.nextFile) && FromHistory(db, h) && db.snapshots == []
    requires Selected(db.levels, job.level, job.in0, job.in1, hull) && Compacts(db, job, es)
    ensures AllApart(job.outputs)
    ensures forall o :: o in job.outputs ==> WellFormed(o)
    ensures forall e :: InOutputs(job, e) ==> InInputs(job, e)
  {
    HeldSequencesDistinct(db, h, job, es);
    CompactionOutputsOk(db, job, es);
    OutputsOfOneKeyEach(db, job, es);
  }

  lemma StartMakesJobApart(db: Db, h: seq<Entry>, job: Job)
    requires AllWellFormed(db.levels) && NumbersOk(db.levels, db.nextFile) && FromHistory(db, h)
    requires LevelsApart(db.levels) && db.snapshots == []
    requires Choosable(db.levels, job.level, job.in0, job.in1) && Completed(db, job)
    ensures JobApart(db.levels, job)
  {
    var hull :| Selected(db.levels, job.level, job.in0, job.in1, hull);
    var es :| Compacts(db, job, es);
    CompletedStaysApart(db, h, job, es, hull);
    StartedStaysApart(db.levels, job, hull);
  }

  lemma MoveStaysApart(db: Db, level: nat, f: File)
    requires AllWellFormed(db.levels) && Choosable(db.levels, level, [f], [])
    ensures OutputsApart(db.levels, MoveJob(db, level, f))
  {
    var hull :| Selected(db.levels, level, [f], [], hull);
    assert f in [f];
    forall g | g in db.levels[level + 1] ensures Apart(g, f) {
      assert g !in Overlapping(db.levels[level + 1], hull);
    }
  }

  lemma FlushKeepsApart(db: Db, h: seq<Entry>, size: nat, level: nat)
    requires Inv(db, h) && ApartInv(db) && Permitted(db, FlushMem(size, level)) && Guarded(db, FlushMem(size, level))
    ensures ApartInv(Flush(db, size, level))
  {
    if db.imm.value != [] {
      FlushedFileIsPlaced(db, size, level);
      AddFileStaysApart(db.levels, level, FlushedFile(db, size));
      if db.job.Some? {
        FlushStaysApart(db, size, level, db.job.value);
        AddFileKeepsJobApart(db.levels, level, FlushedFile(db, size), db.job.value);
      }
    }
  }

  lemma NextStaysApart(db: Db, h: seq<Entry>, a: Action)
    requires Inv(db, h) && ApartInv(db) && Permitted(db, a) && Guarded(db, a) && !a.GetSnapshot?
    ensures ApartInv(Next(db, a))
  {
    match a
    case WriteOp(op) =>
    case SwitchMem =>
    case FlushMem(size, level) => FlushKeepsApart(db, h, size, level);
    case DropSnapshot(i) =>
    case StartCompaction(job) => StartMakesJobApart(db, h, job);
    case FinishCompaction => InstallStaysApart(db.levels, db.job.value);
    case MoveFile(level, f) =>
      MoveStaysApart(db, level, f);
      InstallStaysApart(db.levels, MoveJob(db, level, f));
  }

  // ---------- Whole runs ----------

  // A run in which no snapshot is taken and no flush falls into a gap of a compaction.
  ghost predicate SnapshotFreeRun(actions: seq<Action>) {
    && Run(actions)
    && (actions == [] ||
        (var before, last := actions[..|actions| - 1], actions[|actions| - 1];
         SnapshotFreeRun(before) && !last.GetSnapshot? && (last.FlushMem? ==> Guarded(After(before), last))))
  }

  lemma NewDbApart()
    ensures ApartInv(NEW_DB)
  {
    NewDbFiles();
  }

  // Every such run is safe: no compaction, manual or not, ever splits a user key.
  lemma {:induction false} SnapshotFreeRunsAreSafe(actions: seq<Action>)
    requires SnapshotFreeRun(actions)
    ensures SafeRun(actions) && ApartInv(After(actions))
  {
    hide Inv, ApartInv, Guarded;
    if actions == [] {
      NewDbApart();
    } else {
      var before, last := actions[..|actions| - 1], actions[|actions| - 1];
      SnapshotFreeRunsAreSafe(before);
      RunsKeepInv(before);
      if !last.FlushMem? { ApartIsGuarded(After(before), History(before), last); }
      NextStaysApart(After(before), History(before), last);
    }
  }

  // Reads at the last sequence number return what the plain map holds.
  lemma SnapshotFreeRunsReadRight(actions: seq<Action>, user: UserKey, r: Lookup)
    requires SnapshotFreeRun(actions)
    requires Answer(After(actions), user, After(actions).lastSequence, r)
    ensures Agrees(ApplyAll(map[], OpsOf(actions)), user, r)
  {
    hide Inv, Answer, Agrees, ApplyAll, OpsOf;
    SnapshotFreeRunsAreSafe(actions);
    RunsKeepInv(actions);
    SafeRunsReadRight(actions, user, After(actions).lastSequence, r);
    HistoryIsOps(actions);
    assert OpsOf(actions)[..|OpsOf(actions)|] == OpsOf(actions);
  }

  // ---------- Runs without manual compactions ----------

  // Steps of a database whose user takes no snapshot and asks for no compaction.
  ghost predicate Automatic(a: Action) {
    match a
    case GetSnapshot => false
    case StartCompaction(job) => Gapless(job.in0 + job.in1)
    case _ => true
  }

  ghost predicate AutomaticRun(actions: seq<Action>) {
    Run(actions) && forall i :: 0 <= i < |actions| ==> Automatic(actions[i])
  }

  ghost predicate GaplessJob(db: Db) {
    db.job.Some? ==> Gapless(db.job.value.in0 + db.job.value.in1)
  }

  lemma GaplessJobIsGuarded(db: Db, h: seq<Entry>, size: nat, level: nat)
    requires Inv(db, h) && GaplessJob(db) && Permitted(db, FlushMem(size, level))
    ensures Guarded(db, FlushMem(size, level))
  {
    if db.imm.value != [] && db.job.Some? {
      FlushedFileIsPlaced(db, size, level);
      AutomaticFlushFits(db, size, level, db.job.value);
    }
  }

  // The flush guard then holds by itself.
  lemma {:induction false} AutomaticRunsAreSafe(actions: seq<Action>)
    requires AutomaticRun(actions)
    ensures SnapshotFreeRun(actions) && SafeRun(actions) && GaplessJob(After(actions))
  {
    hide Inv, ApartInv, Gapless, Guarded;
    if actions != [] {
      var before, last := actions[..|actions| - 1], actions[|actions| - 1];
      assert AutomaticRun(before);
      AutomaticRunsAreSafe(before);
      RunsKeepInv(before);
      if last.FlushMem? { GaplessJobIsGuarded(After(before), History(before), last.size, last.level); }
      StaysGapless(After(before), last);
    }
    SnapshotFreeRunsAreSafe(actions);
  }

  lemma StaysGapless(db: Db, a: Action)
    requires GaplessJob(db) && Permitted(db, a) && Automatic(a)
    ensures GaplessJob(Next(db, a))
  {
    hide Gapless;
  }

  lemma AutomaticRunsReadRight(actions: seq<Action>, user: UserKey, r: Lookup)
    requires AutomaticRun(actions)
    requires Answer(After(actions), user, After(actions).lastSequence, r)
    ensures Agrees(ApplyAll(map[], OpsOf(actions)), user, r)
  {
    hide Answer, Agrees, ApplyAll, OpsOf;
    AutomaticRunsAreSafe(actions);
    SnapshotFreeRunsReadRight(actions, user, r);
  }
}
