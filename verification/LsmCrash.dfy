// Crashes and recovery.  Files survive a crash; of what was only in memory, recovery finds
// in the log the writes up to some point and puts them into level-0 tables (DB::Open,
// DBImpl::Recover and RecoverLogFile in db/db_impl.cc).
module LsmCrash {
  import opened DbFormat
  import opened Tables
  import opened VersionSearch
  import opened DropRules
  import opened CompactionInputs
  import opened LsmState
  import opened LsmInstall
  import opened LsmFinish
  import opened LsmSteps
  import opened LsmFlush
  import opened LsmBegin
  import opened LsmRuns

  // ---------- The database that the files alone make ----------

  function Clip(s: SequenceNumber, f: SequenceNumber): SequenceNumber {
    if s <= f then s else f
  }

  function ClipAll(snapshots: seq<SequenceNumber>, f: SequenceNumber): (r: seq<SequenceNumber>)
    ensures |r| == |snapshots| && forall i :: 0 <= i < |r| ==> r[i] == Clip(snapshots[i], f)
  {
    seq(|snapshots|, i requires 0 <= i < |snapshots| => Clip(snapshots[i], f))
  }

  function ClipJob(job: Job, f: SequenceNumber): Job {
    job.(smallestSnapshot := Clip(job.smallestSnapshot, f))
  }

  // Everything up to the last flushed write, and nothing in memory.
  function Shadow(db: Db, f: SequenceNumber): Db {
    Db(f, [], None, db.levels, db.nextFile, ClipAll(db.snapshots, f), if db.job.Some? then Some(ClipJob(db.job.value, f)) else None)
  }

  // ---------- A database with its history, and how far it has been flushed ----------

  datatype World = World(db: Db, h: seq<Entry>, flushed: SequenceNumber, switched: SequenceNumber)

  // What is in memory is the end of the history.
  ghost predicate TailInMemory(w: World) {
    && w.flushed <= w.switched <= |w.h| && (w.db.imm.None? ==> w.flushed == w.switched)
    && (forall i :: w.switched <= i < |w.h| ==> w.h[i] in w.db.mem)
    && (forall i :: w.flushed <= i < w.switched ==> w.h[i] in w.db.Imm())
    && (forall e :: e in w.db.mem ==> w.switched < e.key.sequence)
    && (forall e :: e in w.db.Imm() ==> w.flushed < e.key.sequence <= w.switched)
    && (forall e :: InFiles(w.db.levels, e) ==> e.key.sequence <= w.flushed)
  }

  ghost predicate WorldInv(w: World) {
    var tail := TailInMemory(w);
    var live := Inv(w.db, w.h);
    tail && live && Inv(Shadow(w.db, w.flushed), w.h[..w.flushed])
  }

  // A compaction may only rely on newer entries that a crash cannot take away.
  ghost predicate DurablyGuarded(w: World, a: Action)
    requires Permitted(w.db, a)
  {
    if a.StartCompaction? then SplitsHarmlessly(Shadow(w.db, w.flushed), ClipJob(a.started, w.flushed)) else Guarded(w.db, a)
  }

  function Step(w: World, a: Action): World
    requires Permitted(w.db, a) && |w.h| <= MAX_SEQUENCE
  {
    World(Next(w.db, a), NextHistory(w.db, w.h, a),
          if a.FlushMem? then w.switched else w.flushed,
          if a.SwitchMem? then |w.h| else w.switched)
  }

  // ---------- More writes on top of a database ----------

  lemma WroteLonger(h: seq<Entry>, all: seq<Entry>, e: Entry)
    requires h <= all && Wrote(h, e)
    ensures Wrote(all, e)
  {
    assert all[e.key.sequence - 1] == h[e.key.sequence - 1];
  }

  lemma WroteShorter(h: seq<Entry>, all: seq<Entry>, e: Entry)
    requires h <= all && Wrote(all, e) && e.key.sequence <= |h|
    ensures Wrote(h, e)
  {
    assert all[e.key.sequence - 1] == h[e.key.sequence - 1];
  }

  lemma NeededBefore(h: seq<Entry>, all: seq<Entry>, low: nat, high: nat, e: Entry)
    requires h <= all && Needed(all, high, e) && e.key.sequence <= |h| && low <= high
    ensures Needed(h, low, e)
  {
    WroteShorter(h, all, e);
    forall o | Wrote(h, o) && o.key.user == e.key.user && o.key.sequence > e.key.sequence ensures o.key.sequence > low {
      WroteLonger(h, all, o);
    }
  }

  // Holding in addition exactly the next writes keeps all that readers rely on.
  lemma TailKeepsReads(db: Db, after: Db, h: seq<Entry>, all: seq<Entry>)
    requires FromHistory(db, h) && Retained(db, h) && db.OldestReadPoint() <= |h|
    requires h <= all && Numbered(all) && |all| == after.lastSequence && db.OldestReadPoint() <= after.OldestReadPoint()
    requires forall e :: Holds(db, e) ==> Holds(after, e)
    requires forall e :: Holds(after, e) ==> Holds(db, e) || (Wrote(all, e) && e.key.sequence > |h|)
    requires forall i :: |h| <= i < |all| ==> Holds(after, all[i])
    ensures FromHistory(after, all) && Retained(after, all)
  {
    forall e | Holds(after, e) ensures Wrote(all, e) {
      if Holds(db, e) { WroteLonger(h, all, e); }
    }
    forall e | Needed(all, after.OldestReadPoint(), e) ensures Represented(after, e) {
      if e.key.sequence <= |h| {
        NeededBefore(h, all, db.OldestReadPoint(), after.OldestReadPoint(), e);
        assert Represented(db, e);
      } else {
        assert all[e.key.sequence - 1] == e;
      }
    }
  }

  // ---------- The shadow makes the steps that reach the files ----------

  lemma ClippedInputs(job: Job, f: SequenceNumber)
    ensures forall e :: InInputs(ClipJob(job, f), e) <==> InInputs(job, e)
    ensures forall e :: InOutputs(ClipJob(job, f), e) <==> InOutputs(job, e)
  {
    assert forall g :: IsInput(ClipJob(job, f), g) <==> IsInput(job, g);
  }

  lemma {:induction false} ClippedSurvivors(es: seq<Entry>, p: SequenceNumber, f: SequenceNumber, levels: Levels, level: nat)
    requires forall e :: e in es ==> e.key.sequence <= f
    ensures Survivors(es, Clip(p, f), levels, level) == Survivors(es, p, levels, level)
  {
    hide BaseLevel;
    if es != [] {
      var last := |es| - 1;
      ClippedSurvivors(es[..last], p, f, levels, level);
      ClippedKept(es, last, p, f, levels, level);
    }
  }

  lemma ClippedKept(es: seq<Entry>, i: nat, p: SequenceNumber, f: SequenceNumber, levels: Levels, level: nat)
    requires i < |es| && forall e :: e in es ==> e.key.sequence <= f
    ensures Kept(es, i, Clip(p, f), levels, level) == Kept(es, i, p, levels, level)
  {
    hide BaseLevel;
    assert es[i] in es && (i > 0 ==> es[i - 1] in es);
  }

  lemma ClippedCompacts(db: Db, f: SequenceNumber, job: Job, es: seq<Entry>)
    requires Compacts(db, job, es) && f <= db.lastSequence && forall e :: e in es ==> e.key.sequence <= f
    ensures Compacts(Shadow(db, f), ClipJob(job, f), es)
  {
    hide Survivors, OutputFiles, InInputs;
    ClippedInputs(job, f);
    ClippedSurvivors(es, job.smallestSnapshot, f, db.levels, job.level);
  }

  lemma InputsAreFlushed(w: World, job: Job, es: seq<Entry>)
    requires TailInMemory(w) && Merges(job, es) && InputsOk(w.db.levels, job)
    ensures forall e :: e in es ==> e.key.sequence <= w.flushed
  {
    forall e | e in es ensures InFiles(w.db.levels, e) {
      var g :| IsInput(job, g) && e in g.entries;
      assert g in w.db.levels[job.level] || g in w.db.levels[job.level + 1];
    }
  }

  lemma ShadowMayStart(w: World, job: Job)
    requires TailInMemory(w) && Permitted(w.db, StartCompaction(job)) && w.flushed <= w.db.lastSequence
    ensures Permitted(Shadow(w.db, w.flushed), StartCompaction(ClipJob(job, w.flushed)))
  {
    hide Compacts;
    var hull :| Selected(w.db.levels, job.level, job.in0, job.in1, hull);
    var es :| Compacts(w.db, job, es);
    CompactsMerges(w.db, job, es);
    InputsAreFlushed(w, job, es);
    ClippedCompacts(w.db, w.flushed, job, es);
  }

  lemma CompactsMerges(db: Db, job: Job, es: seq<Entry>)
    requires Compacts(db, job, es)
    ensures Merges(job, es)
  {
  }

  lemma ShadowHolds(db: Db, f: SequenceNumber)
    ensures forall e :: Holds(Shadow(db, f), e) <==> InFiles(db.levels, e)
  {
  }

  // What is durably harmless is harmless.
  lemma DurableIsHarmless(w: World, job: Job)
    requires TailInMemory(w) && InputsOk(w.db.levels, job)
    requires SplitsHarmlessly(Shadow(w.db, w.flushed), ClipJob(job, w.flushed))
    ensures SplitsHarmlessly(w.db, job)
  {
    hide BaseLevel, ContinuesInput;
    var shadow, clipped := Shadow(w.db, w.flushed), ClipJob(job, w.flushed);
    ClippedInputs(job, w.flushed);
    ShadowHolds(w.db, w.flushed);
    forall e | InInputs(job, e) ensures e.key.sequence <= w.flushed {
      var g :| IsInput(job, g) && e in g.entries;
      assert g in w.db.levels[job.level] || g in w.db.levels[job.level + 1];
      assert InFiles(w.db.levels, e);
    }
    assert forall e :: InInputs(job, e) ==> (DropsDeletion(shadow.levels, clipped, e) <==> DropsDeletion(w.db.levels, job, e));
    assert forall e :: Overwritten(shadow, clipped.smallestSnapshot, e) ==> Overwritten(w.db, job.smallestSnapshot, e);
    forall user, e ensures NewestInput(clipped, user, MAX_SEQUENCE, e) <==> NewestInput(job, user, MAX_SEQUENCE, e) {}
    forall user, e ensures NewestInput(clipped, user, clipped.smallestSnapshot, e) <==> NewestInput(job, user, job.smallestSnapshot, e) {}
  }

  // ---------- One step ----------

  lemma StartKeepsWorld(w: World, job: Job)
    requires WorldInv(w) && Permitted(w.db, StartCompaction(job)) && DurablyGuarded(w, StartCompaction(job))
    ensures WorldInv(Step(w, StartCompaction(job)))
  {
    hide Inv, SplitsHarmlessly, Choosable, Completed;
    var f := w.flushed;
    WorldParts(w);
    ChoosableInputs(w.db.levels, job);
    ShadowMayStart(w, job);
    DurableIsHarmless(w, job);
    StartKeepsInv(w.db, w.h, job);
    StartKeepsInv(Shadow(w.db, f), w.h[..f], ClipJob(job, f));
    assert Begin(Shadow(w.db, f), ClipJob(job, f)) == Shadow(Begin(w.db, job), f);
  }

  lemma ChoosableInputs(levels: Levels, job: Job)
    requires Choosable(levels, job.level, job.in0, job.in1)
    ensures InputsOk(levels, job)
  {
  }

  lemma WorldParts(w: World)
    requires WorldInv(w)
    ensures TailInMemory(w) && w.flushed <= w.db.lastSequence == |w.h| <= MAX_SEQUENCE
    ensures FromHistory(w.db, w.h) && MemtablesOk(w.db.mem, w.db.Imm(), w.db.levels)
    ensures SnapshotsOk(w.db.snapshots, w.db.lastSequence)
  {
  }

  lemma FinishKeepsFlushed(w: World, job: Job)
    requires TailInMemory(w) && InputsOk(w.db.levels, job)
    requires forall o :: InOutputs(job, o) ==> InInputs(job, o)
    ensures TailInMemory(w.(db := Finish(w.db, job)))
  {
    forall e | InFiles(Install(w.db.levels, job), e) ensures e.key.sequence <= w.flushed {
      InstallAddsNothing(w.db.levels, job, e);
    }
  }

  lemma FinishKeepsWorld(w: World)
    requires WorldInv(w) && Permitted(w.db, FinishCompaction)
    ensures WorldInv(Step(w, FinishCompaction))
  {
    hide Inv, JobOk;
    var job, f := w.db.job.value, w.flushed;
    JobsOfWorld(w);
    FinishKeepsInv(w.db, w.h, job);
    FinishKeepsInv(Shadow(w.db, f), w.h[..f], ClipJob(job, f));
    JobOkParts(w.db, job);
    FinishKeepsFlushed(w, job);
    assert Finish(Shadow(w.db, f), ClipJob(job, f)) == Shadow(Finish(w.db, job), f);
  }

  lemma JobsOfWorld(w: World)
    requires WorldInv(w) && w.db.job.Some?
    ensures TailInMemory(w) && JobOk(w.db, w.db.job.value)
    ensures JobOk(Shadow(w.db, w.flushed), ClipJob(w.db.job.value, w.flushed))
  {
  }

  lemma JobOkParts(db: Db, job: Job)
    requires JobOk(db, job)
    ensures InputsOk(db.levels, job) && forall o :: InOutputs(job, o) ==> InInputs(job, o)
  {
  }

  lemma MoveKeepsWorld(w: World, level: nat, f: File)
    requires WorldInv(w) && Permitted(w.db, MoveFile(level, f)) && Guarded(w.db, MoveFile(level, f))
    ensures WorldInv(Step(w, MoveFile(level, f)))
  {
    hide Inv, NoSplit, Choosable;
    var shadow := Shadow(w.db, w.flushed);
    WorldParts(w);
    MoveKeepsInv(w.db, w.h, level, f);
    MoveKeepsInv(shadow, w.h[..w.flushed], level, f);
    var job := MoveJob(w.db, level, f);
    ChoosableInputs(w.db.levels, job);
    MoveMovesAll(w.db, level, f);
    FinishKeepsFlushed(w, job);
    assert Finish(shadow, MoveJob(shadow, level, f)) == Shadow(Finish(w.db, job), w.flushed);
  }

  lemma SnapshotsKeepWorld(w: World, a: Action)
    requires WorldInv(w) && Permitted(w.db, a) && (a.GetSnapshot? || a.DropSnapshot?)
    ensures WorldInv(Step(w, a))
  {
    hide Inv;
    var shadow := Shadow(w.db, w.flushed);
    WorldParts(w);
    if a.GetSnapshot? {
      TakeSnapshotKeepsInv(w.db, w.h);
      TakeSnapshotKeepsInv(shadow, w.h[..w.flushed]);
      assert TakeSnapshot(shadow) == Shadow(TakeSnapshot(w.db), w.flushed);
    } else {
      ReleaseSnapshotKeepsInv(w.db, w.h, a.index);
      ReleaseSnapshotKeepsInv(shadow, w.h[..w.flushed], a.index);
      assert ReleaseSnapshot(shadow, a.index) == Shadow(ReleaseSnapshot(w.db, a.index), w.flushed);
    }
  }

  lemma WrittenIsTail(w: World, e: Entry)
    requires TailInMemory(w) && |w.h| == w.db.lastSequence < MAX_SEQUENCE && e.key.sequence == w.db.lastSequence + 1
    ensures TailInMemory(w.(db := WriteOne(w.db, e), h := w.h + [e]))
  {
    hide Insert;
    InsertMembers(w.db.mem, e);
  }

  lemma WriteKeepsWorld(w: World, op: Op)
    requires WorldInv(w) && Permitted(w.db, WriteOp(op))
    ensures WorldInv(Step(w, WriteOp(op)))
  {
    hide Inv, TailInMemory, Insert;
    var e := EntryFor(op, w.db.lastSequence + 1);
    WorldParts(w);
    WriteOneKeepsInv(w.db, w.h, e);
    WrittenIsTail(w, e);
    assert (w.h + [e])[..w.flushed] == w.h[..w.flushed];
    assert Shadow(WriteOne(w.db, e), w.flushed) == Shadow(w.db, w.flushed);
  }

  lemma SwitchKeepsWorld(w: World)
    requires WorldInv(w) && Permitted(w.db, SwitchMem)
    ensures WorldInv(Step(w, SwitchMem))
  {
    hide Inv;
    WorldParts(w);
    SwitchKeepsInv(w.db, w.h);
    assert Shadow(SwitchMemTable(w.db), w.flushed) == Shadow(w.db, w.flushed);
    forall e | e in w.db.mem ensures e.key.sequence <= |w.h| { assert Holds(w.db, e); }
  }

  // ---------- The flush ----------

  // The shadow with the immutable memtable that is about to be flushed.
  function ShadowWithImm(w: World): Db {
    Shadow(w.db, w.switched).(imm := w.db.imm)
  }

  lemma RaisedClipKeepsJob(w: World, job: Job)
    requires w.flushed <= w.switched <= w.db.lastSequence
    requires JobOk(w.db, job) && JobOk(Shadow(w.db, w.flushed), ClipJob(job, w.flushed))
    ensures JobOk(ShadowWithImm(w), ClipJob(job, w.switched))
  {
    hide JobFits, Bystander, BaseLevel;
    var low, high := ClipJob(job, w.flushed), ClipJob(job, w.switched);
    ClippedInputs(job, w.flushed);
    ClippedInputs(job, w.switched);
    SameFits(w.db.levels, w.db.nextFile, job, high);
    JobOkParts(w.db, job);
    forall e | InInputs(high, e) && !InOutputs(high, e)
      ensures Overwritten(ShadowWithImm(w), high.smallestSnapshot, e) || DroppedAsObsolete(w.db.levels, high, e)
    {
      if Overwritten(Shadow(w.db, w.flushed), low.smallestSnapshot, e) {
        OverwrittenBelow(w, e, low.smallestSnapshot, high.smallestSnapshot);
      } else {
        SameObsolete(w.db.levels, low, high, e);
      }
    }
  }

  lemma OverwrittenBelow(w: World, e: Entry, low: SequenceNumber, high: SequenceNumber)
    requires Overwritten(Shadow(w.db, w.flushed), low, e) && low <= high
    ensures Overwritten(ShadowWithImm(w), high, e)
  {
    ShadowHolds(w.db, w.flushed);
    assert forall o :: InFiles(w.db.levels, o) ==> Holds(ShadowWithImm(w), o);
  }

  lemma SameFits(levels: Levels, nextFile: nat, job: Job, other: Job)
    requires JobFits(levels, nextFile, job) && other == job.(smallestSnapshot := other.smallestSnapshot)
    requires forall e :: InInputs(other, e) <==> InInputs(job, e)
    requires forall e :: InOutputs(other, e) <==> InOutputs(job, e)
    ensures JobFits(levels, nextFile, other)
  {
  }

  lemma SameObsolete(levels: Levels, job: Job, other: Job, e: Entry)
    requires job.level + 1 < NUM_LEVELS && DroppedAsObsolete(levels, job, e)
    requires other == job.(smallestSnapshot := other.smallestSnapshot) && job.smallestSnapshot <= other.smallestSnapshot
    requires forall x :: InOutputs(other, x) <==> InOutputs(job, x)
    ensures DroppedAsObsolete(levels, other, e)
  {
    assert forall f :: Bystander(levels, other, f) <==> Bystander(levels, job, f);
  }

  lemma ShadowWithImmIsOk(w: World)
    requires WorldInv(w) && w.db.imm.Some?
    ensures Inv(ShadowWithImm(w), w.h[..w.switched])
  {
    hide JobOk, Layered, NumbersOk, Retained, Represented, NewerThanFiles;
    var shadow, g := Shadow(w.db, w.flushed), ShadowWithImm(w);
    ShadowHolds(w.db, w.flushed);
    WorldParts(w);
    var h, all := w.h[..w.flushed], w.h[..w.switched];
    assert forall e :: Holds(g, e) <==> e in w.db.Imm() || InFiles(w.db.levels, e);
    forall e | e in w.db.Imm() ensures Wrote(all, e) {
      assert Holds(w.db, e);
      WroteShorter(all, w.h, e);
    }
    forall i | w.flushed <= i < w.switched ensures Holds(g, all[i]) { assert all[i] == w.h[i]; }
    TailKeepsReads(shadow, g, h, all);
    if w.db.job.Some? {
      JobsOfWorld(w);
      RaisedClipKeepsJob(w, w.db.job.value);
    }
  }

  lemma FlushKeepsWorld(w: World, size: nat, level: nat)
    requires WorldInv(w) && Permitted(w.db, FlushMem(size, level)) && Guarded(w.db, FlushMem(size, level))
    ensures WorldInv(Step(w, FlushMem(size, level)))
  {
    hide Inv;
    WorldParts(w);
    ShadowWithImmIsOk(w);
    FlushKeepsInv(w.db, w.h, size, level);
    FlushKeepsInv(ShadowWithImm(w), w.h[..w.switched], size, level);
    assert Flush(ShadowWithImm(w), size, level) == Shadow(Flush(w.db, size, level), w.switched);
    FlushedIsTail(w, size, level);
  }

  lemma FlushedIsTail(w: World, size: nat, level: nat)
    requires TailInMemory(w) && w.db.imm.Some? && level < NUM_LEVELS
    ensures TailInMemory(World(Flush(w.db, size, level), w.h, w.switched, w.switched))
  {
    var after := Flush(w.db, size, level);
    forall e | InFiles(after.levels, e) ensures e.key.sequence <= w.switched {
      if w.db.imm.value != [] {
        var l, g :| 0 <= l < NUM_LEVELS && g in after.levels[l] && e in g.entries;
        AddFileMember(w.db.levels, level, FlushedFile(w.db, size), l, g);
        if g in w.db.levels[l] { assert InFiles(w.db.levels, e); }
      }
    }
  }

  lemma StepKeepsWorld(w: World, a: Action)
    requires WorldInv(w) && Permitted(w.db, a) && DurablyGuarded(w, a)
    ensures |w.h| <= MAX_SEQUENCE && WorldInv(Step(w, a))
  {
    hide WorldInv, Permitted, Guarded, Next, NextHistory;
    WorldParts(w);
    match a
    case WriteOp(op) => WriteKeepsWorld(w, op);
    case SwitchMem => SwitchKeepsWorld(w);
    case FlushMem(size, level) => FlushKeepsWorld(w, size, level);
    case StartCompaction(job) => StartKeepsWorld(w, job);
    case FinishCompaction => FinishKeepsWorld(w);
    case MoveFile(level, f) => MoveKeepsWorld(w, level, f);
    case _ => SnapshotsKeepWorld(w, a);
  }

  // ---------- The crash ----------

  // A memtable that recovery fills from the log and writes to a level-0 table.
  datatype Replayed = Replayed(writes: seq<Entry>, size: nat)

  function SortedOf(writes: seq<Entry>): seq<Entry> {
    if writes == [] then [] else Insert(SortedOf(writes[..|writes| - 1]), writes[|writes| - 1])
  }

  function WritesOf(tables: seq<Replayed>): seq<Entry> {
    if tables == [] then [] else WritesOf(tables[..|tables| - 1]) + tables[|tables| - 1].writes
  }

  // WriteLevel0Table without a version to place the table in.
  function ReplayTable(db: Db, t: Replayed): Db
    requires db.lastSequence + |t.writes| <= MAX_SEQUENCE
  {
    var es := SortedOf(t.writes);
    db.(lastSequence := db.lastSequence + |t.writes|, nextFile := db.nextFile + 1,
        levels := if es == [] then db.levels else AddFile(db.levels, 0, MakeFile(db.nextFile, t.size, es)))
  }

  function ReplayTables(db: Db, tables: seq<Replayed>): (r: Db)
    requires db.lastSequence + |WritesOf(tables)| <= MAX_SEQUENCE
    ensures r.lastSequence == db.lastSequence + |WritesOf(tables)|
  {
    if tables == [] then db else ReplayTable(ReplayTables(db, tables[..|tables| - 1]), tables[|tables| - 1])
  }

  // Sequence numbers that the manifest knows about but whose writes are lost are never
  // used again.  They count as deletions of a user key that nobody ever wrote.
  function Skipped(from: nat, to: nat, unused: UserKey): (r: seq<Entry>)
    requires from <= to <= MAX_SEQUENCE
    ensures |r| == to - from
  {
    seq(to - from, i requires 0 <= i < to - from => Entry(InternalKey(unused, from + 1 + i, Deletion), ""))
  }

  // What a crash leaves and how the log is replayed: how many writes survive, the tables
  // that they are put into, the last sequence number and the next file number.
  datatype Crash = Crash(tables: seq<Replayed>, last: SequenceNumber, nextFile: nat, unused: UserKey)

  ghost predicate CrashOk(w: World, c: Crash) {
    && w.flushed <= |w.h| && w.h[..w.flushed] + WritesOf(c.tables) <= w.h && w.flushed + |WritesOf(c.tables)| <= c.last
    && (forall l, f :: 0 <= l < NUM_LEVELS && f in w.db.levels[l] ==> f.number < c.nextFile)
    && (forall i :: 0 <= i < |w.h| ==> w.h[i].key.user != c.unused)
  }

  function Survives(w: World, c: Crash): seq<Entry>
    requires w.flushed <= |w.h|
  {
    w.h[..w.flushed] + WritesOf(c.tables)
  }

  function Reopen(w: World, c: Crash): World
    requires w.flushed <= |w.h| <= MAX_SEQUENCE && |Survives(w, c)| <= c.last
  {
    var base := Db(w.flushed, [], None, w.db.levels, c.nextFile, [], None);
    var db := ReplayTables(base, c.tables);
    World(db.(lastSequence := c.last), Survives(w, c) + Skipped(|Survives(w, c)|, c.last, c.unused), c.last, c.last)
  }

  // ---------- Recovery keeps everything ----------

  // Nothing in memory, no snapshot, no compaction.
  predicate Closed(db: Db) {
    db.mem == [] && db.imm.None? && db.snapshots == [] && db.job.None?
  }

  lemma ClosedHolds(db: Db)
    requires Closed(db)
    ensures forall e :: Holds(db, e) <==> InFiles(db.levels, e)
  {
  }

  lemma BaseIsOk(w: World, nextFile: nat)
    requires WorldInv(w)
    requires forall l, f :: 0 <= l < NUM_LEVELS && f in w.db.levels[l] ==> f.number < nextFile
    ensures Inv(Db(w.flushed, [], None, w.db.levels, nextFile, [], None), w.h[..w.flushed])
  {
    hide Layered, Represented, WorldInv;
    var shadow := Shadow(w.db, w.flushed);
    WorldShadow(w);
    ReadPointMayRise(shadow, w.h[..w.flushed], []);
    var base := Db(w.flushed, [], None, w.db.levels, nextFile, [], None);
    var raised := shadow.(snapshots := []);
    assert forall e :: Holds(base, e) <==> Holds(raised, e);
    SameHeldKeepsReads(raised, base, w.h[..w.flushed]);
  }

  lemma WorldShadow(w: World)
    requires WorldInv(w)
    ensures TailInMemory(w) && Inv(Shadow(w.db, w.flushed), w.h[..w.flushed])
  {
  }

  lemma NumberedPrefix(h: seq<Entry>, more: seq<Entry>)
    requires Numbered(h + more)
    ensures Numbered(h)
  {
    assert forall i :: 0 <= i < |h| ==> h[i] == (h + more)[i];
  }

  lemma LastIsNew(h: seq<Entry>, writes: seq<Entry>)
    requires Numbered(h + writes) && writes != []
    ensures forall e :: e in writes[..|writes| - 1] ==> e.key != writes[|writes| - 1].key
  {
    var n := |writes| - 1;
    forall e | e in writes[..n] ensures e.key != writes[n].key {
      var i :| 0 <= i < n && writes[i] == e;
      assert (h + writes)[|h| + i] == e && (h + writes)[|h| + n] == writes[n];
    }
  }

  lemma {:induction false} SortedOfIsSorted(h: seq<Entry>, writes: seq<Entry>)
    requires Numbered(h + writes)
    ensures Sorted(SortedOf(writes)) && forall e :: e in SortedOf(writes) <==> e in writes
    ensures SortedOf(writes) == [] <==> writes == []
  {
    hide Less, Insert, Numbered, SeekIndex;
    if writes != [] {
      var n := |writes| - 1;
      var front := SortedOf(writes[..n]);
      assert h + writes == (h + writes[..n]) + [writes[n]];
      NumberedPrefix(h + writes[..n], [writes[n]]);
      SortedOfIsSorted(h, writes[..n]);
      LastIsNew(h, writes);
      assert writes == writes[..n] + [writes[n]];
      InsertKeepsSorted(front, writes[n]);
      InsertMembers(front, writes[n]);
      assert writes[n] in SortedOf(writes);
    }
  }

  // A table of later writes may be added to level 0.
  lemma ReplayedIsPlaced(db: Db, h: seq<Entry>, t: Replayed)
    requires Inv(db, h) && Closed(db) && Numbered(h + t.writes) && t.writes != []
    ensures SortedOf(t.writes) != [] && Placed(db.levels, 0, MakeFile(db.nextFile, t.size, SortedOf(t.writes)))
  {
    hide Layered, Retained;
    ClosedHolds(db);
    SortedOfIsSorted(h, t.writes);
    var es := SortedOf(t.writes);
    forall l, g | 0 <= l < NUM_LEVELS && g in db.levels[l] ensures Newer(es, g.entries) {
      forall x, y | x in es && y in g.entries ensures x.key.sequence > y.key.sequence {
        var i :| 0 <= i < |t.writes| && t.writes[i] == x;
        assert (h + t.writes)[|h| + i] == x;
        assert InFiles(db.levels, y) && Wrote(h, y);
      }
    }
  }

  lemma ReplayTableKeepsInv(db: Db, h: seq<Entry>, t: Replayed)
    requires Inv(db, h) && Closed(db) && Numbered(h + t.writes) && db.lastSequence + |t.writes| <= MAX_SEQUENCE
    ensures Inv(ReplayTable(db, t), h + t.writes) && Closed(ReplayTable(db, t))
  {
    hide Layered, NumbersOk, Retained, Placed;
    var after, es := ReplayTable(db, t), SortedOf(t.writes);
    SortedOfIsSorted(h, t.writes);
    if t.writes == [] {
      assert h + t.writes == h;
      NextFileMayGrow(db, h);
    } else {
      var f := MakeFile(db.nextFile, t.size, es);
      ReplayedIsPlaced(db, h, t);
      AddFileKeepsLayered(db.levels, 0, f);
      AddFileKeepsNumbers(db.levels, db.nextFile, 0, f);
      ReplayedReads(db, h, t, f);
    }
  }

  lemma NextFileMayGrow(db: Db, h: seq<Entry>)
    requires Inv(db, h) && Closed(db)
    ensures Inv(db.(nextFile := db.nextFile + 1), h)
  {
    var after := db.(nextFile := db.nextFile + 1);
    assert forall e :: Holds(after, e) <==> Holds(db, e);
    SameHeldKeepsReads(db, after, h);
  }

  lemma ReplayedReads(db: Db, h: seq<Entry>, t: Replayed, f: File)
    requires FromHistory(db, h) && Retained(db, h) && Closed(db) && Numbered(h + t.writes)
    requires db.lastSequence + |t.writes| <= MAX_SEQUENCE
    requires SortedOf(t.writes) != [] && f == MakeFile(db.nextFile, t.size, SortedOf(t.writes))
    requires forall e :: e in SortedOf(t.writes) <==> e in t.writes
    ensures FromHistory(ReplayTable(db, t), h + t.writes) && Retained(ReplayTable(db, t), h + t.writes)
  {
    hide Retained, FromHistory;
    var after, all := ReplayTable(db, t), h + t.writes;
    HistoryLength(db, h);
    ClosedHolds(db);
    ClosedHolds(after);
    FilesWithOneMore(db.levels, 0, f);
    forall e | e in t.writes ensures Wrote(all, e) && e.key.sequence > |h| {
      var i :| 0 <= i < |t.writes| && t.writes[i] == e;
      assert all[|h| + i] == e;
    }
    TailKeepsReads(db, after, h, all);
  }

  lemma HistoryLength(db: Db, h: seq<Entry>)
    requires FromHistory(db, h)
    ensures |h| == db.lastSequence
  {
  }

  lemma FilesWithOneMore(levels: Levels, level: nat, f: File)
    requires level < NUM_LEVELS
    ensures forall e :: InFiles(AddFile(levels, level, f), e) <==> InFiles(levels, e) || e in f.entries
  {
    var after := AddFile(levels, level, f);
    forall e | InFiles(after, e) ensures InFiles(levels, e) || e in f.entries {
      var l, g :| 0 <= l < NUM_LEVELS && g in after[l] && e in g.entries;
      AddFileMember(levels, level, f, l, g);
    }
    forall e | InFiles(levels, e) || e in f.entries ensures InFiles(after, e) {
      if e in f.entries {
        AddFileMember(levels, level, f, level, f);
      } else {
        var l, g :| 0 <= l < NUM_LEVELS && g in levels[l] && e in g.entries;
        AddFileMember(levels, level, f, l, g);
      }
    }
  }

  lemma {:induction false} ReplayTablesKeepInv(db: Db, h: seq<Entry>, tables: seq<Replayed>)
    requires Inv(db, h) && Closed(db) && Numbered(h + WritesOf(tables)) && db.lastSequence + |WritesOf(tables)| <= MAX_SEQUENCE
    ensures Inv(ReplayTables(db, tables), h + WritesOf(tables)) && Closed(ReplayTables(db, tables))
  {
    hide Inv, ReplayTable;
    if tables == [] {
      assert h + [] == h;
    } else {
      var front, last := tables[..|tables| - 1], tables[|tables| - 1];
      assert h + WritesOf(tables) == (h + WritesOf(front)) + last.writes;
      NumberedPrefix(h + WritesOf(front), last.writes);
      ReplayTablesKeepInv(db, h, front);
      ReplayTableKeepsInv(ReplayTables(db, front), h + WritesOf(front), last);
    }
  }

  // ---------- Skipped numbers ----------

  lemma SkippingKeepsInv(db: Db, h: seq<Entry>, last: SequenceNumber, unused: UserKey)
    requires Inv(db, h) && Closed(db) && db.lastSequence <= last
    requires forall i :: 0 <= i < |h| ==> h[i].key.user != unused
    ensures |h| <= last && Inv(db.(lastSequence := last), h + Skipped(|h|, last, unused))
  {
    hide Layered, NumbersOk;
    var after, all := db.(lastSequence := last), h + Skipped(|h|, last, unused);
    ClosedHolds(db);
    ClosedHolds(after);
    forall e | Holds(db, e) ensures Wrote(all, e) && e.key.user != unused { WroteLonger(h, all, e); }
    forall e | Needed(all, last, e) ensures Represented(after, e) {
      if e.key.sequence <= |h| {
        NeededBefore(h, all, db.lastSequence, last, e);
        assert Represented(db, e);
      } else {
        assert all[e.key.sequence - 1] == e && e.key.user == unused;
      }
    }
  }

  // Nobody can tell that numbers were skipped.
  lemma {:induction false} SkippingChangesNothing(h: seq<Entry>, last: SequenceNumber, unused: UserKey)
    requires |h| <= last && forall i :: 0 <= i < |h| ==> h[i].key.user != unused
    ensures MapAfter(h + Skipped(|h|, last, unused)) == MapAfter(h) && unused !in MapAfter(h)
    decreases last
  {
    NeverWritten(h, unused);
    var all := h + Skipped(|h|, last, unused);
    if |h| == last {
      assert all == h;
    } else {
      SkippingChangesNothing(h, last - 1, unused);
      assert all[..|all| - 1] == h + Skipped(|h|, last - 1, unused);
      assert all[|all| - 1] == Entry(InternalKey(unused, last, Deletion), "");
    }
  }

  lemma {:induction false} NeverWritten(h: seq<Entry>, user: UserKey)
    requires forall i :: 0 <= i < |h| ==> h[i].key.user != user
    ensures user !in MapAfter(h)
  {
    if h != [] { NeverWritten(h[..|h| - 1], user); }
  }

  // After a crash and recovery the database satisfies the invariant again, for the writes
  // that survived: a prefix of the history.
  lemma CrashKeepsWorld(w: World, c: Crash)
    requires WorldInv(w) && CrashOk(w, c)
    ensures w.flushed <= |w.h| <= MAX_SEQUENCE && Survives(w, c) <= w.h && |Survives(w, c)| <= c.last
    ensures WorldInv(Reopen(w, c)) && Reopen(w, c).db.OldestReadPoint() == c.last
    ensures MapAfter(Reopen(w, c).h) == MapAfter(Survives(w, c))
  {
    hide Inv, WorldInv, MapAfter, ReplayTables;
    WorldParts(w);
    var base := Db(w.flushed, [], None, w.db.levels, c.nextFile, [], None);
    BaseIsOk(w, c.nextFile);
    var kept := Survives(w, c);
    assert w.h == kept + w.h[|kept|..];
    NumberedPrefix(kept, w.h[|kept|..]);
    ReplayTablesKeepInv(base, w.h[..w.flushed], c.tables);
    var db := ReplayTables(base, c.tables);
    assert forall i :: 0 <= i < |kept| ==> kept[i] == w.h[i];
    SkippingKeepsInv(db, kept, c.last, c.unused);
    SkippingChangesNothing(kept, c.last, c.unused);
    ClosedIsWorld(db.(lastSequence := c.last), Reopen(w, c).h);
  }

  lemma ClosedIsWorld(db: Db, h: seq<Entry>)
    requires Inv(db, h) && Closed(db)
    ensures WorldInv(World(db, h, db.lastSequence, db.lastSequence))
  {
    hide Layered, NumbersOk, Retained;
    var f := db.lastSequence;
    HistoryLength(db, h);
    assert h[..f] == h && ClipAll(db.snapshots, f) == [];
    ClosedHolds(db);
    assert Shadow(db, f) == db;
  }
}
