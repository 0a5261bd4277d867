// The circumstances that safe runs exclude are exactly the ones that do harm.
module LsmExact {
  import opened DbFormat
  import opened Tables
  import opened VersionSearch
  import opened DropRules
  import opened CompactionInputs
  import opened LsmState
  import opened LsmInstall
  import opened LsmFinish
  import opened LsmFlush
  import opened LsmBegin
  import opened LsmRuns

  lemma SplitMoveBreaksAges(db: Db, level: nat, f: File, g: File)
    requires level + 1 < NUM_LEVELS && WellFormed(f) && WellFormed(g)
    requires f in db.levels[level] && g in db.levels[level] && g.number != f.number && Continues(f, g)
    ensures !LayeredByAge(Install(db.levels, MoveJob(db, level, f)))
  {
    var job := MoveJob(db, level, f);
    var after := Install(db.levels, job);
    InstallMember(db.levels, job, level, g);
    InstallMember(db.levels, job, level + 1, f);
    assert f in after[level + 1] && g in after[level];
    var x, y := g.entries[0], f.entries[|f.entries| - 1];
    assert x in g.entries && y in f.entries && x.key.sequence <= y.key.sequence;
    assert !Newer(g.entries, f.entries);
  }

  lemma NothingChosen(levels: Levels, l: nat, f: File)
    requires l < NUM_LEVELS
    ensures !ContinuesInput(levels, l, [], f)
  {
  }

  lemma SplitMoveIsUnsafe(db: Db, level: nat, f: File, hull: Range)
    requires AllWellFormed(db.levels) && Selected(db.levels, level, [f], [], hull)
    requires !NoSplit(db.levels, level, [f], [])
    ensures !LayeredByAge(Finish(db, MoveJob(db, level, f)).levels)
  {
    assert f in [f];
    var g :| ContinuesInput(db.levels, level, [f], g) || ContinuesInput(db.levels, level + 1, [], g);
    NothingChosen(db.levels, level + 1, g);
    SplitMoveBreaksAges(db, level, f, g);
  }

  // A trivial move keeps the invariant if and only if no file left behind continues the
  // last user key of the one that moves.
  lemma MoveIsSafeIff(db: Db, h: seq<Entry>, level: nat, f: File)
    requires Inv(db, h) && Permitted(db, MoveFile(level, f))
    ensures Inv(Next(db, MoveFile(level, f)), h) <==> NoSplit(db.levels, level, [f], [])
  {
    if NoSplit(db.levels, level, [f], []) {
      MoveKeepsInv(db, h, level, f);
    } else {
      var hull :| Selected(db.levels, level, [f], [], hull);
      SplitMoveIsUnsafe(db, level, f, hull);
    }
  }

  // ---------- Splitting a user key by a compaction ----------

  // An entry that no reader sees overwritten is needed.
  lemma UnlessOverwrittenNeeded(db: Db, h: seq<Entry>, e: Entry)
    requires FromHistory(db, h) && Retained(db, h) && db.OldestReadPoint() <= db.lastSequence
    requires Holds(db, e) && e.key.sequence <= db.OldestReadPoint() && !Overwritten(db, db.OldestReadPoint(), e)
    ensures Needed(h, db.OldestReadPoint(), e)
  {
    var p, user := db.OldestReadPoint(), e.key.user;
    var n := LastWrite(h[..p], user);
    assert h[..p][e.key.sequence - 1] == e;
    LastWriteIsNeeded(h, user, p, n, p);
    assert Represented(db, h[n - 1]);
    assert h[n - 1] == e;
    assert forall o :: Wrote(h, o) && o.key.sequence <= p ==> h[..p][o.key.sequence - 1] == o;
  }

  // No file that stays holds an input entry.
  lemma StayingFileHasNoInput(levels: Levels, job: Job, l: nat, f: File, e: Entry)
    requires Layered(levels) && InputsOk(levels, job)
    requires Stays(levels, job, l, f) && InInputs(job, e)
    ensures e !in f.entries
  {
    var g :| IsInput(job, g) && e in g.entries;
    var m := if g in job.in0 then job.level else job.level + 1;
    assert g in levels[m];
    MembersAreNumbered(job.in0);
    MembersAreNumbered(job.in1);
    if l == m && l > 0 {
      DisjointMembers(levels[l], f, g);
      ApartHoldNothing(f, g, e);
    }
  }

  lemma ApartHoldNothing(f: File, g: File, e: Entry)
    requires WellFormed(f) && WellFormed(g) && (Before(f, g) || Before(g, f)) && e in g.entries
    ensures e !in f.entries
  {
    FileRange(g, e);
    if e in f.entries { FileRange(f, e); }
  }

  // If a deletion that some reader needs is dropped although something older stays, that
  // reader finds what was deleted.
  lemma LostDeletionBreaksReads(db: Db, h: seq<Entry>, job: Job, e: Entry, f: File, o: Entry)
    requires FromHistory(db, h) && Retained(db, h) && db.OldestReadPoint() <= db.lastSequence
    requires Layered(db.levels) && MemtablesOk(db.mem, db.Imm(), db.levels) && InputsOk(db.levels, job)
    requires forall x :: InOutputs(job, x) ==> InInputs(job, x)
    requires InInputs(job, e) && !InOutputs(job, e) && e.key.sequence <= db.OldestReadPoint()
    requires !Overwritten(db, db.OldestReadPoint(), e)
    requires Bystander(db.levels, job, f) && o in f.entries && o.key.user == e.key.user && o.key.sequence < e.key.sequence
    ensures !Retained(Finish(db, job), h)
  {
    hide Retained, Layered, MemtablesOk, Overwritten;
    var after := Finish(db, job);
    InputsAreHeld(db, job, e);
    UnlessOverwrittenNeeded(db, h, e);
    InputIsGone(db, job, e);
    StaysHeld(db, job, f, o);
    NotRepresented(after, h, e, o);
  }

  lemma NotRepresented(db: Db, h: seq<Entry>, e: Entry, o: Entry)
    requires Needed(h, db.OldestReadPoint(), e) && !Holds(db, e)
    requires Holds(db, o) && o.key.user == e.key.user && o.key.sequence < e.key.sequence
    ensures !Retained(db, h)
  {
  }

  lemma InputIsGone(db: Db, job: Job, e: Entry)
    requires Layered(db.levels) && MemtablesOk(db.mem, db.Imm(), db.levels) && InputsOk(db.levels, job)
    requires forall x :: InOutputs(job, x) ==> InInputs(job, x)
    requires InInputs(job, e) && !InOutputs(job, e)
    ensures !Holds(Finish(db, job), e)
  {
    hide Layered, Stays;
    if e in db.mem { MemtableNewerThanInput(db.mem, db.levels, job, e, e); }
    if e in db.Imm() { MemtableNewerThanInput(db.Imm(), db.levels, job, e, e); }
    if InFiles(Install(db.levels, job), e) {
      InstallAddsNothing(db.levels, job, e);
      var l, f :| Stays(db.levels, job, l, f) && e in f.entries;
      StayingFileHasNoInput(db.levels, job, l, f, e);
    }
  }

  lemma StaysHeld(db: Db, job: Job, f: File, o: Entry)
    requires job.level + 1 < NUM_LEVELS && Bystander(db.levels, job, f) && o in f.entries
    ensures Holds(Finish(db, job), o)
  {
    var l := if f in db.levels[job.level] && f.number !in Numbers(job.in0) then job.level else job.level + 1;
    InstallMember(db.levels, job, l, f);
  }

  // The newest input entry for a user key is the first one in the merged input.
  lemma NewestInputIndex(job: Job, es: seq<Entry>, y: Entry) returns (i: nat)
    requires Merges(job, es) && DistinctSequences(es) && InInputs(job, y)
    ensures i < |es| && NewestInput(job, y.key.user, MAX_SEQUENCE, es[i])
    ensures i > 0 ==> es[i - 1].key.user != y.key.user
  {
    i :| 0 <= i < |es| && es[i] == y;
    while i > 0 && es[i - 1].key.user == y.key.user
      invariant i < |es| && es[i].key.user == y.key.user
    {
      i := i - 1;
    }
    assert es[i] in es;
    forall o | InInputs(job, o) && o.key.user == y.key.user ensures o.key.sequence <= es[i].key.sequence {
      var j :| 0 <= j < |es| && es[j] == o;
      if i < j { EarlierIsNewer(es, i, j); }
      if j < i { KeyIsContiguous(es, j, i); }
    }
  }

  lemma KeyIsContiguous(es: seq<Entry>, j: nat, i: nat)
    requires Sorted(es) && j < i < |es| && es[j].key.user == es[i].key.user
    ensures es[i - 1].key.user == es[i].key.user
  {
    assert Less(es[i - 1].key, es[i].key);
    if j < i - 1 { assert Less(es[j].key, es[i - 1].key); }
  }

  // The continuing file begins with an older entry for the user key than the input has.
  lemma ContinuationIsOlder(levels: Levels, job: Job, l: nat, chosen: seq<File>, f: File)
    returns (y: Entry)
    requires AllWellFormed(levels) && OneWriteEach(levels) && l < NUM_LEVELS && ContinuesInput(levels, l, chosen, f)
    requires forall g :: g in chosen ==> g in levels[l] && IsInput(job, g)
    ensures f.entries != [] && f.entries[0].key.user == f.smallest.user
    ensures InInputs(job, y) && y.key.user == f.smallest.user && f.entries[0].key.sequence < y.key.sequence
  {
    var g :| g in chosen && Continues(g, f);
    assert WellFormed(f) && WellFormed(g);
    y := g.entries[|g.entries| - 1];
    assert y in g.entries && f.entries[0] in f.entries;
    assert InFiles(levels, y) && InFiles(levels, f.entries[0]);
  }

  lemma SplitAtLevelBreaksInv(db: Db, h: seq<Entry>, job: Job, es: seq<Entry>, f: File)
    requires Inv(db, h) && InputsOk(db.levels, job) && Compacts(db, job, es) && DistinctSequences(es)
    requires forall o :: InOutputs(job, o) <==> o in Survivors(es, job.smallestSnapshot, db.levels, job.level)
    requires ContinuesInput(db.levels, job.level, job.in0, f)
    requires forall e :: NewestInput(job, f.smallest.user, MAX_SEQUENCE, e) && DropsDeletion(db.levels, job, e) ==>
      !Overwritten(db, job.smallestSnapshot, e)
    ensures !Inv(Finish(Begin(db, job), job), h)
  {
    hide Inv, Survivors, NewestInput, Overwritten, OutputFiles, Install, ContinuesInput, Layered, AllWellFormed, OneWriteEach,
         FromHistory, Retained, MemtablesOk, NumbersOk, LayeredByAge, InInputs, InOutputs, Sorted, DistinctSequences, BaseLevel;
    PartsOfInv(db, h);
    var y := ContinuationIsOlder(db.levels, job, job.level, job.in0, f);
    StaysAtLevel(db.levels, job, f);
    var i := NewestInputIndex(job, es, y);
    var e := es[i];
    NewestIsNewer(job, y, e);
    SurvivorsAreKept(es, i, job.smallestSnapshot, db.levels, job.level);
    if Kept(es, i, job.smallestSnapshot, db.levels, job.level) {
      OlderAboveBreaksAges(db, job, f, e);
      BrokenAges(Finish(Begin(db, job), job), h);
    } else {
      assert DropsDeletion(db.levels, job, e);
      DroppedBreaksInv(db, h, job, es, e, f);
    }
  }

  lemma NewestIsNewer(job: Job, y: Entry, e: Entry)
    requires InInputs(job, y) && NewestInput(job, y.key.user, MAX_SEQUENCE, e)
    ensures InInputs(job, e) && e.key.user == y.key.user && y.key.sequence <= e.key.sequence
  {
  }

  lemma StaysAtLevel(levels: Levels, job: Job, f: File)
    requires job.level + 1 < NUM_LEVELS && ContinuesInput(levels, job.level, job.in0, f)
    ensures Bystander(levels, job, f) && Stays(levels, job, job.level, f)
  {
  }

  // What the arguments below use of the invariant.
  lemma PartsOfInv(db: Db, h: seq<Entry>)
    requires Inv(db, h)
    ensures Layered(db.levels) && AllWellFormed(db.levels) && OneWriteEach(db.levels)
    ensures FromHistory(db, h) && Retained(db, h) && db.OldestReadPoint() <= db.lastSequence
    ensures MemtablesOk(db.mem, db.Imm(), db.levels) && NumbersOk(db.levels, db.nextFile)
  {
    HistoryGivesOneWriteEach(db, h);
  }

  lemma OlderAboveBreaksAges(db: Db, job: Job, f: File, e: Entry)
    requires job.level + 1 < NUM_LEVELS && Stays(db.levels, job, job.level, f) && InOutputs(job, e)
    requires f.entries != [] && f.entries[0].key.user == e.key.user && f.entries[0].key.sequence < e.key.sequence
    ensures !LayeredByAge(Finish(Begin(db, job), job).levels)
  {
    var o :| o in job.outputs && e in o.entries;
    var after := Install(db.levels, job);
    InstallMember(db.levels, job, job.level, f);
    InstallMember(db.levels, job, job.level + 1, o);
    assert f.entries[0] in f.entries && !Newer(f.entries, o.entries);
    assert f in after[job.level] && o in after[job.level + 1];
  }

  lemma BrokenAges(db: Db, h: seq<Entry>)
    requires !LayeredByAge(db.levels)
    ensures !Inv(db, h)
  {
  }

  lemma DroppedBreaksInv(db: Db, h: seq<Entry>, job: Job, es: seq<Entry>, e: Entry, f: File)
    requires Inv(db, h) && InputsOk(db.levels, job) && Compacts(db, job, es)
    requires forall o :: InOutputs(job, o) <==> o in Survivors(es, job.smallestSnapshot, db.levels, job.level)
    requires InInputs(job, e) && !InOutputs(job, e) && DropsDeletion(db.levels, job, e)
    requires !Overwritten(db, job.smallestSnapshot, e)
    requires Bystander(db.levels, job, f) && f.entries != []
    requires f.entries[0].key.user == e.key.user && f.entries[0].key.sequence < e.key.sequence
    ensures !Inv(Finish(Begin(db, job), job), h)
  {
    hide Inv, Survivors, Overwritten, OutputFiles, Bystander, Install, FromHistory, Retained, Layered, MemtablesOk;
    PartsOfInv(db, h);
    InputsOfOutputs(db.levels, job, es);
    BeginKeepsReads(db, h, job);
    SameOverwritten(db, Begin(db, job), job.smallestSnapshot, e);
    assert f.entries[0] in f.entries;
    LostDeletionBreaksReads(Begin(db, job), h, job, e, f, f.entries[0]);
    LostWrites(Finish(Begin(db, job), job), h);
  }

  lemma LostWrites(db: Db, h: seq<Entry>)
    requires !Retained(db, h)
    ensures !Inv(db, h)
  {
  }

  // A file that stays at the output level lies outside the hull, so everything that the
  // inputs hold for the key it continues comes before it.
  lemma ContinuationComesLast(levels: Levels, job: Job, hull: Range, f: File, e: Entry)
    requires Layered(levels) && OneWriteEach(levels) && Selected(levels, job.level, job.in0, job.in1, hull)
    requires ContinuesInput(levels, job.level + 1, job.in1, f)
    requires InInputs(job, e) && e.key.user == f.smallest.user
    ensures Bystander(levels, job, f) && f.entries != [] && f.entries[0].key.user == e.key.user
    ensures f.entries[0].key.sequence < e.key.sequence
  {
    hide LayeredByAge, NumberedByAge, OneWriteEach, Less, Sorted, Overlapping, InInputs;
    var g :| g in job.in1 && Continues(g, f);
    var k := InputHolding(job, e);
    MembersAreNumbered(job.in1);
    assert WellFormed(f) && WellFormed(g) && !Overlaps(f, hull) && Overlaps(g, hull);
    assert k in job.in0 ==> Within(k, hull);
    FileRange(k, e);
    FileRange(f, f.entries[0]);
    FileRange(g, g.entries[0]);
    if k in job.in1 {
      DisjointMembers(levels[job.level + 1], f, k);
      FileRange(k, k.entries[0]);
      BeforeInUserKeys(f, k);
      assert Before(k, f);
      EarlierFileIsNewer(levels, k, f, e);
    }
  }

  lemma InputHolding(job: Job, e: Entry) returns (k: File)
    requires InInputs(job, e)
    ensures IsInput(job, k) && e in k.entries
  {
    k :| IsInput(job, k) && e in k.entries;
  }

  lemma BeforeInUserKeys(f: File, g: File)
    ensures Before(f, g) ==> f.largest.user <= g.smallest.user
  {
  }

  lemma EarlierFileIsNewer(levels: Levels, k: File, f: File, e: Entry)
    requires AllWellFormed(levels) && OneWriteEach(levels) && WellFormed(f) && WellFormed(k) && Before(k, f)
    requires e in k.entries && e.key.user == f.entries[0].key.user
    requires (exists l :: 0 <= l < NUM_LEVELS && f in levels[l] && k in levels[l])
    ensures f.entries[0].key.sequence < e.key.sequence
  {
    FileRange(k, e);
    assert f.entries[0] in f.entries;
    assert InFiles(levels, e) && InFiles(levels, f.entries[0]);
  }

  lemma SplitBelowBreaksInv(db: Db, h: seq<Entry>, job: Job, hull: Range, es: seq<Entry>, f: File, e: Entry)
    requires Inv(db, h) && Selected(db.levels, job.level, job.in0, job.in1, hull) && Compacts(db, job, es)
    requires forall o :: InOutputs(job, o) <==> o in Survivors(es, job.smallestSnapshot, db.levels, job.level)
    requires ContinuesInput(db.levels, job.level + 1, job.in1, f)
    requires NewestInput(job, f.smallest.user, job.smallestSnapshot, e) && DropsDeletion(db.levels, job, e)
    requires !Overwritten(db, job.smallestSnapshot, e)
    ensures !Inv(Finish(Begin(db, job), job), h)
  {
    hide Inv, Survivors, Overwritten, OutputFiles, Install, ContinuesInput, Layered, OneWriteEach, Bystander;
    PartsOfInv(db, h);
    ContinuationComesLast(db.levels, job, hull, f, e);
    var i :| 0 <= i < |es| && es[i] == e;
    SurvivorsAreKept(es, i, job.smallestSnapshot, db.levels, job.level);
    DroppedBreaksInv(db, h, job, es, e, f);
  }

  // A compaction keeps the invariant if and only if it splits user keys harmlessly.
  lemma CompactionIsSafeIff(db: Db, h: seq<Entry>, job: Job)
    requires Inv(db, h) && Permitted(db, StartCompaction(job))
    ensures Inv(Begin(db, job), h) <==> SplitsHarmlessly(db, job)
    ensures Inv(Finish(Begin(db, job), job), h) <==> SplitsHarmlessly(db, job)
  {
    hide Inv, JobOk;
    if Inv(Begin(db, job), h) { JobOfInv(Begin(db, job), h, job); }
    if JobOk(Begin(db, job), job) {
      BeginKeepsInv(db, h, job);
      FinishKeepsInv(Begin(db, job), h, job);
    }
    if SplitsHarmlessly(db, job) {
      StartKeepsInv(db, h, job);
      JobOfInv(Begin(db, job), h, job);
    } else {
      HarmfulSplitBreaksInv(db, h, job);
    }
  }

  lemma JobOfInv(db: Db, h: seq<Entry>, job: Job)
    requires Inv(db, h) && db.job == Some(job)
    ensures JobOk(db, job)
  {
  }

  lemma HarmfulSplitBreaksInv(db: Db, h: seq<Entry>, job: Job)
    requires Inv(db, h) && Permitted(db, StartCompaction(job)) && !SplitsHarmlessly(db, job)
    ensures !Inv(Finish(Begin(db, job), job), h)
  {
    hide Inv, Selected, Survivors, NewestInput, Overwritten, OutputFiles, Install, ContinuesInput, Layered, OutputsOk, FromHistory, NumbersOk;
    var hull :| Selected(db.levels, job.level, job.in0, job.in1, hull);
    var es :| Compacts(db, job, es);
    PartsOfInv(db, h);
    SelectedAreInputs(db.levels, job, hull);
    HeldSequencesDistinct(db, h, job, es);
    CompactionOutputsOk(db, job, es);
    if f, e :| ContinuesInput(db.levels, job.level + 1, job.in1, f)
               && NewestInput(job, f.smallest.user, job.smallestSnapshot, e) && DropsDeletion(db.levels, job, e)
               && !Overwritten(db, job.smallestSnapshot, e) {
      SplitBelowBreaksInv(db, h, job, hull, es, f, e);
    } else {
      var f :| ContinuesInput(db.levels, job.level, job.in0, f)
               && forall e :: NewestInput(job, f.smallest.user, MAX_SEQUENCE, e) && DropsDeletion(db.levels, job, e) ==>
                    !Overwritten(db, job.smallestSnapshot, e);
      SplitAtLevelBreaksInv(db, h, job, es, f);
    }
  }

  lemma SelectedAreInputs(levels: Levels, job: Job, hull: Range)
    requires Selected(levels, job.level, job.in0, job.in1, hull)
    ensures InputsOk(levels, job)
  {
  }

  // ---------- Flushing into a gap ----------

  // Wherever the entries are cut into files, the files can be installed.
  ghost predicate EveryCutInstalls(levels: Levels, job: Job, kept: seq<Entry>, first: nat)
    requires job.level + 1 < NUM_LEVELS
  {
    forall cut :: OutputFiles(cut, kept, first) ==> Layered(Install(levels, job.(outputs := cut)))
  }

  // A compaction begins with that freedom.
  lemma StartedCutsInstall(db: Db, h: seq<Entry>, job: Job, es: seq<Entry>, hull: Range)
    requires Inv(db, h) && Selected(db.levels, job.level, job.in0, job.in1, hull) && Compacts(db, job, es)
    requires SplitsHarmlessly(db, job)
    ensures EveryCutInstalls(db.levels, job, Survivors(es, job.smallestSnapshot, db.levels, job.level), db.nextFile)
  {
    hide Inv, Selected, Survivors, OutputFiles, SplitsHarmlessly, Layered, Install;
    PartsOfInv(db, h);
    SelectedAreInputs(db.levels, job, hull);
    var kept := Survivors(es, job.smallestSnapshot, db.levels, job.level);
    forall cut | OutputFiles(cut, kept, db.nextFile) ensures Layered(Install(db.levels, job.(outputs := cut))) {
      var other := job.(outputs := cut);
      RecutIsTheSame(db, job, other);
      BeginMakesJobOk(db, h, other, es, hull);
      BeginKeepsInv(db, h, other);
      FinishKeepsInv(Begin(db, other), h, other);
      PartsOfInv(Finish(Begin(db, other), other), h);
    }
  }

  // Where the outputs are cut matters neither for the merged input nor for the split keys.
  lemma RecutIsTheSame(db: Db, job: Job, other: Job)
    requires job.level + 1 < NUM_LEVELS && other == job.(outputs := other.outputs)
    ensures forall e :: InInputs(other, e) <==> InInputs(job, e)
    ensures SplitsHarmlessly(db, job) ==> SplitsHarmlessly(db, other)
  {
    hide Overwritten, ContinuesInput;
    forall e ensures InInputs(other, e) <==> InInputs(job, e) {
      assert forall g :: IsInput(job, g) <==> IsInput(other, g);
    }
    assert forall user, sequence, e :: NewestInput(job, user, sequence, e) <==> NewestInput(other, user, sequence, e);
    assert forall e :: DropsDeletion(db.levels, job, e) <==> DropsDeletion(db.levels, other, e);
  }

  lemma RecutHolds(job: Job, kept: seq<Entry>, first: nat, cut: seq<File>)
    requires Sorted(kept) && OutputFiles(job.outputs, kept, first) && OutputFiles(cut, kept, first)
    ensures Disjoint(cut) && forall o :: o in cut ==> WellFormed(o)
    ensures forall o, e :: o in cut && e in o.entries ==> e in kept
    ensures forall e :: e in kept <==> InOutputs(job, e)
  {
    OutputFilesAreGood(cut, kept, first);
    OutputFilesHold(cut, kept, first);
    OutputFilesHold(job.outputs, kept, first);
  }

  lemma RecutOutputsFit(levels: Levels, job: Job, kept: seq<Entry>, cut: seq<File>)
    requires Layered(levels) && InputsOk(levels, job) && Layered(Install(levels, job.(outputs := cut)))
    requires (forall o :: o in cut ==> WellFormed(o)) && forall o, e :: o in cut && e in o.entries ==> e in kept
    requires forall e :: e in kept ==> InInputs(job, e)
    ensures OutputsFit(levels, job.(outputs := cut))
  {
    hide LayeredByAge, NumberedByAge, Less, Sorted;
    var other := job.(outputs := cut);
    forall f, o | f in levels[job.level + 1] && f.number !in Numbers(job.in1) && o in cut ensures Before(f, o) || Before(o, f) {
      InstallMember(levels, other, job.level + 1, f);
      InstallMember(levels, other, job.level + 1, o);
      assert o.entries[0] in o.entries;
      StayingFileHasNoInput(levels, job, job.level + 1, f, o.entries[0]);
      DisjointMembers(Install(levels, other)[job.level + 1], f, o);
    }
  }

  lemma RecutOutputsOlder(levels: Levels, job: Job, kept: seq<Entry>, cut: seq<File>)
    requires job.level + 1 < NUM_LEVELS && OutputsAreOlder(levels, job)
    requires forall o, e :: o in cut && e in o.entries ==> e in kept
    requires forall e :: e in kept ==> InOutputs(job, e)
    ensures OutputsAreOlder(levels, job.(outputs := cut))
  {
    forall f, o | f in levels[job.level] && f.number !in Numbers(job.in0) && o in cut ensures Newer(f.entries, o.entries) {
      forall x, y | x in f.entries && y in o.entries && x.key.user == y.key.user ensures x.key.sequence > y.key.sequence {
        assert y in kept && InOutputs(job, y);
        var p :| p in job.outputs && y in p.entries;
        assert Newer(f.entries, p.entries);
      }
    }
  }

  lemma RecutFlushFits(levels: Levels, job: Job, kept: seq<Entry>, cut: seq<File>, level: nat, f: File)
    requires AllWellFormed(levels) && InputsOk(levels, job) && Placed(levels, level, f)
    requires (forall o :: o in cut ==> WellFormed(o)) && forall o, e :: o in cut && e in o.entries ==> e in kept
    requires forall e :: e in kept ==> InInputs(job, e)
    requires !(level == job.level + 1 && Surrounds(kept, f))
    ensures FlushFits(job.(outputs := cut), level, f)
  {
    if level == job.level + 1 {
      PlacedIsClear(levels, level, f, job);
      forall o | o in cut ensures Before(f, o) || Before(o, f) {
        OutputOnOneSide(job, f, o);
      }
    }
  }

  lemma FlushedCutInstalls(db: Db, h: seq<Entry>, size: nat, level: nat, job: Job, kept: seq<Entry>, first: nat, cut: seq<File>)
    requires Inv(db, h) && Permitted(db, FlushMem(size, level)) && db.imm.value != [] && db.job == Some(job)
    requires Sorted(kept) && OutputFiles(job.outputs, kept, first) && OutputFiles(cut, kept, first)
    requires Layered(Install(db.levels, job.(outputs := cut)))
    requires !(level == job.level + 1 && Surrounds(kept, FlushedFile(db, size)))
    ensures Layered(Install(Flush(db, size, level).levels, job.(outputs := cut)))
  {
    hide Inv, Layered, JobOk, OutputFiles, Install, Surrounds, OutputsFit, OutputsAreOlder, InInputs, InOutputs, FlushFits;
    var f, other := FlushedFile(db, size), job.(outputs := cut);
    var flushed := AddFile(db.levels, level, f);
    PartsOfInv(db, h);
    JobParts(db, h, job);
    FlushedFileIsPlaced(db, size, level);
    RecutHolds(job, kept, first, cut);
    RecutOutputsFit(db.levels, job, kept, cut);
    RecutOutputsOlder(db.levels, job, kept, cut);
    RecutFlushFits(db.levels, job, kept, cut, level, f);
    RecutInputs(job, kept, cut);
    AddFileKeepsFit(db.levels, level, f, other);
    AddFileKeepsInputs(db.levels, level, f, other);
    AddFileKeepsOlder(db.levels, level, f, other);
    AddFileKeepsLayered(db.levels, level, f);
    InstallsLayered(flushed, other);
  }

  lemma RecutInputs(job: Job, kept: seq<Entry>, cut: seq<File>)
    requires forall o, e :: o in cut && e in o.entries ==> e in kept
    requires forall e :: e in kept ==> InInputs(job, e)
    ensures forall e :: InOutputs(job.(outputs := cut), e) ==> InInputs(job.(outputs := cut), e)
  {
    forall e | InOutputs(job.(outputs := cut), e) ensures InInputs(job.(outputs := cut), e) {
      var o :| o in cut && e in o.entries;
      assert e in kept && InInputs(job, e);
      var g :| IsInput(job, g) && e in g.entries;
      assert IsInput(job.(outputs := cut), g);
    }
  }

  lemma JobParts(db: Db, h: seq<Entry>, job: Job)
    requires Inv(db, h) && db.job == Some(job)
    ensures InputsOk(db.levels, job) && OutputsAreOlder(db.levels, job)
    ensures forall e :: InOutputs(job, e) ==> InInputs(job, e)
  {
  }

  lemma InstallsLayered(levels: Levels, job: Job)
    requires Layered(levels) && InputsOk(levels, job) && OutputsFit(levels, job) && OutputsAreOlder(levels, job)
    requires Disjoint(job.outputs) && forall o :: o in job.outputs ==> WellFormed(o)
    requires forall e :: InOutputs(job, e) ==> InInputs(job, e)
    ensures Layered(Install(levels, job))
  {
    hide InInputs, InOutputs, OutputsFit, OutputsAreOlder, LayeredByAge, Install;
    InstallKeepsAges(levels, job);
    InstallKeepsDisjoint(levels, job);
    InstallKeepsWellFormed(levels, job);
  }

  // If the entries lie on both sides of the new file, writing them to one file makes that
  // file and the new one overlap.
  lemma OneFileOverlaps(db: Db, size: nat, level: nat, job: Job, kept: seq<Entry>, first: nat)
    requires NumbersOk(db.levels, db.nextFile) && InputsOk(db.levels, job) && Sorted(kept)
    requires db.imm.Some? && db.imm.value != [] && WellFormed(FlushedFile(db, size))
    requires level == job.level + 1 && Surrounds(kept, FlushedFile(db, size))
    ensures !EveryCutInstalls(Flush(db, size, level).levels, job, kept, first)
  {
    hide Layered, LayeredByAge, NumbersOk;
    var f := FlushedFile(db, size);
    var flushed := Flush(db, size, level).levels;
    var x, y :| x in kept && y in kept && x.key.user < f.smallest.user && f.largest.user < y.key.user;
    var o := MakeFile(first, 0, kept);
    var other := job.(outputs := [o]);
    assert kept[|kept|..] == [] && [o][1..] == [] && OutputFiles([o], kept, first);
    FileRange(o, x);
    FileRange(o, y);
    FileRange(f, f.entries[0]);
    NewNumberIsNoInput(db, job);
    AddFileMember(db.levels, level, f, level, f);
    InstallMember(flushed, other, level, f);
    InstallMember(flushed, other, level, o);
    if Layered(Install(flushed, other)) {
      NextLevelIsDisjoint(Install(flushed, other), level);
      DisjointMembers(Install(flushed, other)[level], f, o);
    }
  }

  lemma NewNumberIsNoInput(db: Db, job: Job)
    requires NumbersOk(db.levels, db.nextFile) && InputsOk(db.levels, job)
    ensures db.nextFile !in Numbers(job.in1)
  {
    forall g | g in job.in1 ensures g.number < db.nextFile { assert g in db.levels[job.level + 1]; }
  }

  // A flush in the middle of a compaction leaves every way of cutting the rest of the
  // outputs open if and only if the new file does not go to the output level between
  // entries that the compaction keeps.
  lemma FlushIsSafeIff(db: Db, h: seq<Entry>, size: nat, level: nat, job: Job, inputVersion: Levels, es: seq<Entry>, first: nat)
    requires Inv(db, h) && Permitted(db, FlushMem(size, level)) && db.imm.value != [] && db.job == Some(job)
    requires Merges(job, es) && OutputFiles(job.outputs, Survivors(es, job.smallestSnapshot, inputVersion, job.level), first)
    requires EveryCutInstalls(db.levels, job, Survivors(es, job.smallestSnapshot, inputVersion, job.level), first)
    ensures EveryCutInstalls(Flush(db, size, level).levels, job, Survivors(es, job.smallestSnapshot, inputVersion, job.level), first)
       <==> !(level == job.level + 1 && Surrounds(Survivors(es, job.smallestSnapshot, inputVersion, job.level), FlushedFile(db, size)))
  {
    hide Inv, OutputFiles, Survivors, Layered, Install, Surrounds;
    PartsOfInv(db, h);
    JobParts(db, h, job);
    var kept := Survivors(es, job.smallestSnapshot, inputVersion, job.level);
    SurvivorsSorted(es, job.smallestSnapshot, inputVersion, job.level);
    FlushedFileIsPlaced(db, size, level);
    if level == job.level + 1 && Surrounds(kept, FlushedFile(db, size)) {
      OneFileOverlaps(db, size, level, job, kept, first);
    } else {
      forall cut | OutputFiles(cut, kept, first) ensures Layered(Install(Flush(db, size, level).levels, job.(outputs := cut))) {
        FlushedCutInstalls(db, h, size, level, job, kept, first, cut);
      }
    }
  }

  // Inputs without a gap between them never surround a flushed file.
  lemma GaplessFlushIsSafe(db: Db, h: seq<Entry>, size: nat, level: nat, job: Job, inputVersion: Levels, es: seq<Entry>)
    requires Inv(db, h) && Permitted(db, FlushMem(size, level)) && db.imm.value != [] && db.job == Some(job)
    requires Merges(job, es) && Gapless(job.in0 + job.in1)
    ensures !(level == job.level + 1 && Surrounds(Survivors(es, job.smallestSnapshot, inputVersion, job.level), FlushedFile(db, size)))
  {
    hide Inv, Survivors, Gapless, InInputs;
    var f, kept := FlushedFile(db, size), Survivors(es, job.smallestSnapshot, inputVersion, job.level);
    PartsOfInv(db, h);
    JobParts(db, h, job);
    FlushedFileIsPlaced(db, size, level);
    if level == job.level + 1 {
      PlacedIsClear(db.levels, level, f, job);
      forall x, y | x in kept && y in kept && x.key.user < f.smallest.user ensures y.key.user <= f.largest.user {
        GaplessSurroundsNothing(job, f, x, y);
      }
    }
  }

  // The guard of a run holds for every cut when the file is not surrounded.
  lemma UnsurroundedFlushIsGuarded(db: Db, h: seq<Entry>, size: nat, level: nat, job: Job, kept: seq<Entry>, first: nat)
    requires Inv(db, h) && Permitted(db, FlushMem(size, level)) && db.imm.value != [] && db.job == Some(job)
    requires Sorted(kept) && OutputFiles(job.outputs, kept, first)
    requires !(level == job.level + 1 && Surrounds(kept, FlushedFile(db, size)))
    ensures Guarded(db, FlushMem(size, level))
  {
    hide Inv, OutputFiles, Surrounds;
    PartsOfInv(db, h);
    JobParts(db, h, job);
    FlushedFileIsPlaced(db, size, level);
    RecutHolds(job, kept, first, job.outputs);
    RecutFlushFits(db.levels, job, kept, job.outputs, level, FlushedFile(db, size));
  }
}
