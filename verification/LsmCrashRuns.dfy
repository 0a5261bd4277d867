// Runs of the storage engine with crashes and recoveries anywhere in between.
module LsmCrashRuns {
  import opened DbFormat
  import opened Tables
  import opened VersionSearch
  import opened CompactionInputs
  import opened LsmState
  import opened LsmInstall
  import opened LsmFinish
  import opened LsmSteps
  import opened LsmFlush
  import opened LsmBegin
  import opened LsmRuns
  import opened LsmSnapshotFree
  import opened LsmExact
  import opened LsmCrash

  datatype Event = Act(action: Action) | CrashAndReopen(crash: Crash)

  ghost predicate MayHappen(w: World, e: Event) {
    match e
    case Act(a) => |w.h| <= MAX_SEQUENCE && Permitted(w.db, a) && DurablyGuarded(w, a)
    case CrashAndReopen(c) => |w.h| <= MAX_SEQUENCE && CrashOk(w, c)
  }

  function NextWorld(w: World, e: Event): World
    requires MayHappen(w, e)
  {
    match e
    case Act(a) => Step(w, a)
    case CrashAndReopen(c) => Reopen(w, c)
  }

  const NEW_WORLD: World := World(NEW_DB, [], 0, 0)

  ghost predicate CrashRun(events: seq<Event>)
    decreases |events|, 0
  {
    events == [] ||
    (CrashRun(events[..|events| - 1]) && MayHappen(WorldAfter(events[..|events| - 1]), events[|events| - 1]))
  }

  // The database, and everything written so far that no crash has taken away.
  ghost function WorldAfter(events: seq<Event>): World
    requires CrashRun(events)
    decreases |events|, 1
  {
    if events == [] then NEW_WORLD else NextWorld(WorldAfter(events[..|events| - 1]), events[|events| - 1])
  }

  lemma NewWorldIsOk()
    ensures WorldInv(NEW_WORLD)
  {
    hide Inv;
    NewDbFiles();
    NewDbOk();
    assert Shadow(NEW_DB, 0) == NEW_DB && NEW_WORLD.h[..0] == [];
    assert forall e :: !InFiles(NEW_DB.levels, e) by {
      forall e ensures !InFiles(NEW_DB.levels, e) { assert !Holds(NEW_DB, e); }
    }
  }

  lemma {:induction false} CrashRunsKeepWorld(events: seq<Event>)
    requires CrashRun(events)
    ensures WorldInv(WorldAfter(events))
  {
    hide WorldInv, Permitted, DurablyGuarded, CrashOk, Step, Reopen;
    if events == [] {
      NewWorldIsOk();
    } else {
      var before, last := events[..|events| - 1], events[|events| - 1];
      CrashRunsKeepWorld(before);
      match last
      case Act(a) => StepKeepsWorld(WorldAfter(before), a);
      case CrashAndReopen(c) => CrashKeepsWorld(WorldAfter(before), c);
    }
  }

  // After any such run a read at the last sequence number or at a live snapshot finds what
  // a plain map holds that was updated, in write order, by the writes that survived.
  lemma CrashRunsReadRight(events: seq<Event>, user: UserKey, sequence: SequenceNumber, r: Lookup)
    requires CrashRun(events)
    requires sequence == WorldAfter(events).db.lastSequence || sequence in WorldAfter(events).db.snapshots
    requires Answer(WorldAfter(events).db, user, sequence, r)
    ensures sequence <= |WorldAfter(events).h|
    ensures Agrees(MapAfter(WorldAfter(events).h[..sequence]), user, r)
  {
    hide Answer, Agrees, CrashRun, Represented;
    CrashRunsKeepWorld(events);
    var w := WorldAfter(events);
    LiveInv(w);
    ReadPointsAreUsable(w.db, sequence);
    ReadsAreRight(w.db, w.h, user, sequence, r);
  }

  lemma LiveInv(w: World)
    requires WorldInv(w)
    ensures Inv(w.db, w.h) && FromHistory(w.db, w.h) && Retained(w.db, w.h) && SnapshotsOk(w.db.snapshots, w.db.lastSequence)
    ensures |w.h| == w.db.lastSequence
  {
  }

  // ---------- What a compaction may rely on ----------

  // A compaction keeps the database recoverable if and only if it splits user keys
  // harmlessly as far as the files alone are concerned.
  lemma CompactionIsDurableIff(w: World, job: Job)
    requires WorldInv(w) && Permitted(w.db, StartCompaction(job)) && |w.h| <= MAX_SEQUENCE
    ensures WorldInv(Step(w, StartCompaction(job))) <==> SplitsHarmlessly(Shadow(w.db, w.flushed), ClipJob(job, w.flushed))
  {
    hide WorldInv, SplitsHarmlessly, Inv, Choosable, Completed;
    ChoosableInputs(w.db.levels, job);
    WorldParts(w);
    WorldShadow(w);
    var shadow, clipped := Shadow(w.db, w.flushed), ClipJob(job, w.flushed);
    ShadowMayStart(w, job);
    CompactionIsSafeIff(shadow, w.h[..w.flushed], clipped);
    if SplitsHarmlessly(shadow, clipped) {
      StepKeepsWorld(w, StartCompaction(job));
    }
    if WorldInv(Step(w, StartCompaction(job))) {
      WorldShadow(Step(w, StartCompaction(job)));
      assert Begin(shadow, clipped) == Shadow(Begin(w.db, job), w.flushed);
    }
  }

  // ---------- Without snapshots ----------

  // No snapshot is taken, and no flush falls into a gap of a compaction; crashes may
  // happen at any time.
  ghost predicate SnapshotFreeEvent(w: World, e: Event) {
    match e
    case Act(a) => |w.h| <= MAX_SEQUENCE && Permitted(w.db, a) && !a.GetSnapshot? && (a.FlushMem? ==> Guarded(w.db, a))
    case CrashAndReopen(c) => |w.h| <= MAX_SEQUENCE && CrashOk(w, c)
  }

  ghost predicate SnapshotFreeCrashRun(events: seq<Event>) {
    events == [] ||
    (SnapshotFreeCrashRun(events[..|events| - 1]) && CrashRun(events[..|events| - 1])
     && SnapshotFreeEvent(WorldAfter(events[..|events| - 1]), events[|events| - 1]))
  }

  lemma ApartIsDurablyGuarded(w: World, a: Action)
    requires WorldInv(w) && ApartInv(w.db) && Permitted(w.db, a) && (a.FlushMem? ==> Guarded(w.db, a))
    ensures DurablyGuarded(w, a)
  {
    hide Inv, Guarded, SplitsHarmlessly, NoSplit, LevelsApart, Choosable, Completed;
    LiveInv(w);
    ApartParts(w.db, w.h);
    match a
    case StartCompaction(job) =>
      ChoosableInputs(w.db.levels, job);
      ApartInputsNotSplit(w.db.levels, job.level, job.in0, job.in1);
      NoSplitIsHarmless(Shadow(w.db, w.flushed), ClipJob(job, w.flushed));
    case FlushMem(_, _) =>
    case _ => ApartIsGuarded(w.db, w.h, a);
  }

  lemma DurablyGuardedIsGuarded(w: World, a: Action)
    requires WorldInv(w) && Permitted(w.db, a) && DurablyGuarded(w, a)
    ensures Guarded(w.db, a)
  {
    hide Inv, SplitsHarmlessly, Choosable, Completed;
    WorldParts(w);
    if a.StartCompaction? {
      ChoosableInputs(w.db.levels, a.started);
      DurableIsHarmless(w, a.started);
    }
  }

  lemma {:induction false} ReplayedLevels(db: Db, tables: seq<Replayed>)
    requires db.lastSequence + |WritesOf(tables)| <= MAX_SEQUENCE
    ensures forall l :: 1 <= l < NUM_LEVELS ==> ReplayTables(db, tables).levels[l] == db.levels[l]
    ensures ReplayTables(db, tables).snapshots == db.snapshots && ReplayTables(db, tables).job == db.job
  {
    if tables != [] { ReplayedLevels(db, tables[..|tables| - 1]); }
  }

  // A crash adds files to level 0 only.
  lemma ReopenStaysApart(w: World, c: Crash)
    requires ApartInv(w.db) && w.flushed <= |w.h| <= MAX_SEQUENCE && |Survives(w, c)| <= c.last
    ensures ApartInv(Reopen(w, c).db)
  {
    hide ReplayTables;
    ReplayedLevels(Db(w.flushed, [], None, w.db.levels, c.nextFile, [], None), c.tables);
  }

  lemma {:induction false} SnapshotFreeCrashRunsAreSafe(events: seq<Event>)
    requires SnapshotFreeCrashRun(events)
    ensures CrashRun(events) && ApartInv(WorldAfter(events).db)
  {
    hide WorldInv, ApartInv, Permitted, Guarded, DurablyGuarded, CrashOk, Reopen, Inv, Next;
    if events == [] {
      NewDbApart();
    } else {
      var before, last := events[..|events| - 1], events[|events| - 1];
      SnapshotFreeCrashRunsAreSafe(before);
      CrashRunsKeepWorld(before);
      var w := WorldAfter(before);
      match last
      case Act(a) =>
        ApartIsDurablyGuarded(w, a);
        DurablyGuardedIsGuarded(w, a);
        LiveInv(w);
        NextStaysApart(w.db, w.h, a);
      case CrashAndReopen(c) =>
        CrashKeepsWorld(w, c);
        ReopenStaysApart(w, c);
    }
  }

  // Without snapshots every read is right, whatever crashes there have been.
  lemma SnapshotFreeCrashRunsReadRight(events: seq<Event>, user: UserKey)
    requires SnapshotFreeCrashRun(events)
    ensures CrashRun(events)
    ensures forall r :: Answer(WorldAfter(events).db, user, WorldAfter(events).db.lastSequence, r) ==>
      Agrees(MapAfter(WorldAfter(events).h), user, r)
  {
    hide Answer, Agrees, WorldInv, SnapshotFreeCrashRun, CrashRun;
    SnapshotFreeCrashRunsAreSafe(events);
    CrashRunsKeepWorld(events);
    var w := WorldAfter(events);
    LiveInv(w);
    assert w.h[..w.db.lastSequence] == w.h;
    forall r | Answer(w.db, user, w.db.lastSequence, r) ensures Agrees(MapAfter(w.h), user, r) {
      CrashRunsReadRight(events, user, w.db.lastSequence, r);
    }
  }
}
