// Runs of the storage engine: any interleaving of writes, memtable switches, flushes,
// snapshots, trivial moves, and compactions that start and finish at different times.
module LsmRuns {
  import opened DbFormat
  import opened Tables
  import opened VersionSearch
  import opened CompactionInputs
  import opened LsmState
  import opened LsmInstall
  import opened LsmFinish
  import opened LsmSteps
  import opened LsmFlush
  import opened LsmBegin

  datatype Action =
    | WriteOp(op: Op)
    | SwitchMem
    | FlushMem(size: nat, level: nat)
    | GetSnapshot
    | DropSnapshot(index: nat)
    | StartCompaction(started: Job)
    | FinishCompaction
    | MoveFile(from: nat, file: File)

  const NEW_DB: Db := Db(0, [], None, [[], [], [], [], [], [], []], 2, [], None)

  ghost predicate Choosable(levels: Levels, level: nat, in0: seq<File>, in1: seq<File>) {
    level + 1 < NUM_LEVELS && exists hull :: Selected(levels, level, in0, in1, hull)
  }

  ghost predicate Completed(db: Db, job: Job) {
    exists es :: Compacts(db, job, es)
  }

  // What the code may do in a state.
  ghost predicate Permitted(db: Db, a: Action) {
    match a
    case WriteOp(_) => db.lastSequence < MAX_SEQUENCE
    case SwitchMem => db.imm.None?
    case FlushMem(size, level) =>
      && db.imm.Some? && level < NUM_LEVELS
      && (db.imm.value != [] ==> FlushLevel(db.levels, Hull(FlushedFile(db, size)), level))
    case GetSnapshot => true
    case DropSnapshot(i) => i < |db.snapshots|
    case StartCompaction(job) =>
      db.job.None? && Choosable(db.levels, job.level, job.in0, job.in1) && Completed(db, job)
    case FinishCompaction => db.job.Some? && db.job.value.level + 1 < NUM_LEVELS
    case MoveFile(level, f) =>
      db.job.None? && Choosable(db.levels, level, [f], [])
  }

  // Two circumstances the code does not check for: a user key split between an input and
  // a file left behind in a way that readers notice, and a flush into a gap between the
  // outputs of a running compaction.
  ghost predicate Guarded(db: Db, a: Action)
    requires Permitted(db, a)
  {
    match a
    case StartCompaction(job) => SplitsHarmlessly(db, job)
    case MoveFile(level, f) => NoSplit(db.levels, level, [f], [])
    case FlushMem(size, level) =>
      db.imm.value != [] && db.job.Some? ==> FlushFits(db.job.value, level, FlushedFile(db, size))
    case _ => true
  }

  function Next(db: Db, a: Action): Db
    requires Permitted(db, a)
  {
    match a
    case WriteOp(op) => WriteOne(db, EntryFor(op, db.lastSequence + 1))
    case SwitchMem => SwitchMemTable(db)
    case FlushMem(size, level) => Flush(db, size, level)
    case GetSnapshot => TakeSnapshot(db)
    case DropSnapshot(i) => ReleaseSnapshot(db, i)
    case StartCompaction(job) => Begin(db, job)
    case FinishCompaction => Finish(db, db.job.value)
    case MoveFile(level, f) => Finish(db, MoveJob(db, level, f))
  }

  function NextHistory(db: Db, h: seq<Entry>, a: Action): seq<Entry>
    requires Permitted(db, a)
  {
    if a.WriteOp? then h + [EntryFor(a.op, db.lastSequence + 1)] else h
  }

  lemma BeginKeepsReads(db: Db, h: seq<Entry>, job: Job)
    requires FromHistory(db, h) && Retained(db, h)
    ensures FromHistory(Begin(db, job), h) && Retained(Begin(db, job), h)
  {
    assert forall o :: Holds(Begin(db, job), o) <==> Holds(db, o);
    SameHeldKeepsReads(db, Begin(db, job), h);
  }

  lemma BeginKeepsInv(db: Db, h: seq<Entry>, job: Job)
    requires Inv(db, h) && JobOk(Begin(db, job), job)
    ensures Inv(Begin(db, job), h)
  {
    BeginKeepsReads(db, h, job);
  }

  lemma StartedJobOk(db: Db, h: seq<Entry>, job: Job)
    requires Layered(db.levels) && NumbersOk(db.levels, db.nextFile) && FromHistory(db, h)
    requires Choosable(db.levels, job.level, job.in0, job.in1) && Completed(db, job)
    requires SplitsHarmlessly(db, job)
    ensures JobOk(Begin(db, job), job)
  {
    var hull :| Selected(db.levels, job.level, job.in0, job.in1, hull);
    var es :| Compacts(db, job, es);
    BeginMakesJobOk(db, h, job, es, hull);
  }

  lemma StartKeepsInv(db: Db, h: seq<Entry>, job: Job)
    requires Inv(db, h)
    requires Choosable(db.levels, job.level, job.in0, job.in1) && Completed(db, job)
    requires SplitsHarmlessly(db, job)
    ensures Inv(Begin(db, job), h)
  {
    StartedJobOk(db, h, job);
    BeginKeepsInv(db, h, job);
  }

  lemma MoveKeepsInv(db: Db, h: seq<Entry>, level: nat, f: File)
    requires Inv(db, h)
    requires Choosable(db.levels, level, [f], []) && NoSplit(db.levels, level, [f], [])
    ensures Inv(Finish(db, MoveJob(db, level, f)), h)
  {
    var hull :| Selected(db.levels, level, [f], [], hull);
    HistoryGivesOneWriteEach(db, h);
    MoveIsOk(db, level, f, hull);
    FinishKeepsInv(db, h, MoveJob(db, level, f));
  }

  lemma NextKeepsInv(db: Db, h: seq<Entry>, a: Action)
    requires Inv(db, h) && Permitted(db, a) && Guarded(db, a)
    ensures Inv(Next(db, a), NextHistory(db, h, a))
  {
    match a
    case WriteOp(op) => WriteOneKeepsInv(db, h, EntryFor(op, db.lastSequence + 1));
    case SwitchMem => SwitchKeepsInv(db, h);
    case FlushMem(size, level) => FlushKeepsInv(db, h, size, level);
    case GetSnapshot => TakeSnapshotKeepsInv(db, h);
    case DropSnapshot(i) => ReleaseSnapshotKeepsInv(db, h, i);
    case StartCompaction(job) => StartKeepsInv(db, h, job);
    case FinishCompaction => FinishKeepsInv(db, h, db.job.value);
    case MoveFile(level, f) => MoveKeepsInv(db, h, level, f);
  }

  // ---------- Whole runs ----------

  ghost predicate Run(actions: seq<Action>)
    decreases |actions|, 0
  {
    actions == [] ||
    (Run(actions[..|actions| - 1]) && Permitted(After(actions[..|actions| - 1]), actions[|actions| - 1]))
  }

  // The state after a run from a new database.
  ghost function After(actions: seq<Action>): Db
    requires Run(actions)
    decreases |actions|, 1
  {
    if actions == [] then NEW_DB
    else Next(After(actions[..|actions| - 1]), actions[|actions| - 1])
  }

  // Everything ever written, in order.
  ghost function History(actions: seq<Action>): seq<Entry>
    requires Run(actions)
  {
    if actions == [] then []
    else NextHistory(After(actions[..|actions| - 1]), History(actions[..|actions| - 1]), actions[|actions| - 1])
  }

  ghost predicate SafeRun(actions: seq<Action>) {
    && Run(actions)
    && (actions == [] ||
        (SafeRun(actions[..|actions| - 1]) && Guarded(After(actions[..|actions| - 1]), actions[|actions| - 1])))
  }

  lemma NewDbFiles()
    ensures forall l, f :: 0 <= l < NUM_LEVELS ==> f !in NEW_DB.levels[l]
    ensures forall e :: !Holds(NEW_DB, e)
  {
    assert forall l :: 0 <= l < NUM_LEVELS ==> NEW_DB.levels[l] == [];
  }

  lemma NewDbReads()
    ensures FromHistory(NEW_DB, []) && Retained(NEW_DB, [])
  {
    NewDbFiles();
  }

  lemma EmptyLevelsOk(levels: Levels, nextFile: nat)
    requires forall l, f :: 0 <= l < NUM_LEVELS ==> f !in levels[l]
    ensures Layered(levels) && NumbersOk(levels, nextFile) && MemtablesOk([], [], levels)
  {
    forall l | 1 <= l < NUM_LEVELS ensures Disjoint(levels[l]) {
      assert forall i :: 0 <= i < |levels[l]| ==> levels[l][i] !in levels[l];
    }
  }

  lemma NewDbOk()
    ensures Inv(NEW_DB, [])
  {
    NewDbFiles();
    NewDbReads();
    EmptyLevelsOk(NEW_DB.levels, NEW_DB.nextFile);
  }

  lemma {:induction false} RunsKeepInv(actions: seq<Action>)
    requires SafeRun(actions)
    ensures Inv(After(actions), History(actions))
  {
    if actions == [] {
      NewDbOk();
    } else {
      var before := actions[..|actions| - 1];
      RunsKeepInv(before);
      NextKeepsInv(After(before), History(before), actions[|actions| - 1]);
    }
  }

  // The operations of a run, in order.
  function OpsOf(actions: seq<Action>): seq<Op> {
    if actions == [] then []
    else
      var last := actions[|actions| - 1];
      OpsOf(actions[..|actions| - 1]) + (if last.WriteOp? then [last.op] else [])
  }

  // What has been written is the operations under consecutive sequence numbers.
  lemma {:induction false} HistoryIsOps(actions: seq<Action>)
    requires Run(actions)
    ensures After(actions).lastSequence == |OpsOf(actions)| && History(actions) == EntriesFor(OpsOf(actions), 1)
  {
    hide Permitted, EntryFor;
    if actions != [] {
      var before, last := actions[..|actions| - 1], actions[|actions| - 1];
      HistoryIsOps(before);
      NextCounts(After(before), last);
      var ops := OpsOf(actions);
      if last.WriteOp? {
        assert ops[..|ops| - 1] == OpsOf(before) && ops[..|ops|] == ops;
        EntriesForAppend(ops, 1, |ops| - 1);
      } else {
        assert OpsOf(before) + [] == OpsOf(before);
      }
    }
  }

  lemma NextCounts(db: Db, a: Action)
    requires Permitted(db, a)
    ensures Next(db, a).lastSequence == db.lastSequence + (if a.WriteOp? then 1 else 0)
  {
  }

  // So the map of the history is what the operations mean.
  lemma MapIsOps(actions: seq<Action>, n: nat)
    requires Run(actions) && n <= |OpsOf(actions)|
    ensures n <= |History(actions)| && MapAfter(History(actions)[..n]) == ApplyAll(map[], OpsOf(actions)[..n])
  {
    hide MapAfter, ApplyAll;
    HistoryIsOps(actions);
    var ops := OpsOf(actions)[..n];
    assert History(actions)[..n] == [] + EntriesFor(ops, 1);
    WritingApplies([], ops, 1);
    EmptyMap();
  }

  lemma EmptyMap()
    ensures MapAfter([]) == map[]
  {
  }

  // The main theorem: after every such run, at the last sequence number and at every live
  // snapshot, a read finds exactly what a plain map holds after the operations up to there.
  lemma SafeRunsReadRight(actions: seq<Action>, user: UserKey, sequence: SequenceNumber, r: Lookup)
    requires SafeRun(actions)
    requires sequence == After(actions).lastSequence || sequence in After(actions).snapshots
    requires Answer(After(actions), user, sequence, r)
    ensures sequence <= |History(actions)| && sequence <= |OpsOf(actions)|
    ensures Agrees(MapAfter(History(actions)[..sequence]), user, r)
    ensures Agrees(ApplyAll(map[], OpsOf(actions)[..sequence]), user, r)
  {
    hide Represented, Layered, NumbersOk, MemtablesOk, JobOk, Answer, Agrees, MapAfter, ApplyAll;
    RunsKeepInv(actions);
    HistoryIsOps(actions);
    ReadPointsAreUsable(After(actions), sequence);
    ReadsAreRight(After(actions), History(actions), user, sequence, r);
    MapIsOps(actions, sequence);
  }

  lemma ReadPointsAreUsable(db: Db, sequence: SequenceNumber)
    requires SnapshotsOk(db.snapshots, db.lastSequence)
    requires sequence == db.lastSequence || sequence in db.snapshots
    ensures db.OldestReadPoint() <= sequence <= db.lastSequence
  {
  }
}
