// Flushing the immutable memtable (DBImpl::CompactMemTable, WriteLevel0Table).
module LsmFlush {
  import opened DbFormat
  import opened Tables
  import opened VersionSearch
  import opened CompactionInputs
  import opened LsmState

  function Hull(f: File): Range {
    Range(Some(f.smallest.user), Some(f.largest.user))
  }

  function AddFile(levels: Levels, level: nat, f: File): Levels
    requires level < NUM_LEVELS
  {
    levels[level := InsertFile(levels[level], f)]
  }

  function FlushedFile(db: Db, size: nat): File
    requires db.imm.Some? && db.imm.value != []
  {
    MakeFile(db.nextFile, size, db.imm.value)
  }

  // An empty memtable produces no file.
  function Flush(db: Db, size: nat, level: nat): Db
    requires db.imm.Some? && level < NUM_LEVELS
  {
    if db.imm.value == [] then db.(imm := None, nextFile := db.nextFile + 1)
    else db.(imm := None, nextFile := db.nextFile + 1, levels := AddFile(db.levels, level, FlushedFile(db, size)))
  }

  // A compaction was in progress when the level for the new file was picked; its outputs,
  // wherever they are cut, must leave room for the file at that level.
  ghost predicate FlushFits(job: Job, level: nat, f: File) {
    level == job.level + 1 ==> forall o :: o in job.outputs ==> Before(f, o) || Before(o, f)
  }

  lemma AddFileMember(levels: Levels, level: nat, f: File, l: nat, g: File)
    requires level < NUM_LEVELS && l < NUM_LEVELS
    ensures g in AddFile(levels, level, f)[l] <==> g in levels[l] || (l == level && g == f)
  {
  }

  // Files whose ranges do not overlap have no user key in common.
  lemma NoOverlapNoSharedKey(f: File, g: File, x: Entry, y: Entry)
    requires WellFormed(f) && WellFormed(g) && !Overlaps(g, Hull(f))
    requires x in f.entries && y in g.entries
    ensures x.key.user != y.key.user
    ensures Before(f, g) || Before(g, f)
  {
    FileRange(f, x);
    FileRange(g, y);
  }

  // The new file goes where nothing in the level, or above it, shares a key with it,
  // unless it goes to level 0.
  ghost predicate Placed(levels: Levels, level: nat, f: File) {
    && level < NUM_LEVELS && WellFormed(f)
    && NewerThanFiles(f.entries, levels)
    && (forall l, g :: 0 <= l < NUM_LEVELS && g in levels[l] ==> g.number < f.number)
    && (level > 0 ==> forall l, g :: 0 <= l <= level && g in levels[l] ==> !Overlaps(g, Hull(f)))
  }

  lemma NothingAboveSharesKeys(levels: Levels, level: nat, f: File, l: nat, g: File)
    requires AllWellFormed(levels) && Placed(levels, level, f)
    requires l < level && g in levels[l]
    ensures Newer(g.entries, f.entries)
  {
    forall x, y | x in g.entries && y in f.entries ensures x.key.user != y.key.user {
      NoOverlapNoSharedKey(f, g, y, x);
    }
  }

  lemma AddFileKeepsAges(levels: Levels, level: nat, f: File)
    requires AllWellFormed(levels) && LayeredByAge(levels) && Placed(levels, level, f)
    ensures LayeredByAge(AddFile(levels, level, f))
  {
    var after := AddFile(levels, level, f);
    forall l, m, g, k | 0 <= l < m < NUM_LEVELS && g in after[l] && k in after[m] ensures Newer(g.entries, k.entries) {
      AddFileMember(levels, level, f, l, g);
      AddFileMember(levels, level, f, m, k);
      if k !in levels[m] {
        NothingAboveSharesKeys(levels, level, f, l, g);
      }
    }
  }

  lemma AddFileKeepsDisjoint(levels: Levels, level: nat, f: File)
    requires AllWellFormed(levels) && Placed(levels, level, f)
    requires forall l :: 1 <= l < NUM_LEVELS ==> Disjoint(levels[l])
    ensures forall l :: 1 <= l < NUM_LEVELS ==> Disjoint(AddFile(levels, level, f)[l])
  {
    if level > 0 {
      forall g | g in levels[level] ensures Before(g, f) || Before(f, g) {
        assert WellFormed(g);
        NoOverlapNoSharedKey(f, g, f.entries[0], g.entries[0]);
      }
      InsertFileKeepsDisjoint(levels[level], f);
    }
  }

  lemma AddFileKeepsLayered(levels: Levels, level: nat, f: File)
    requires Layered(levels) && Placed(levels, level, f)
    ensures Layered(AddFile(levels, level, f))
  {
    AddFileKeepsAges(levels, level, f);
    AddFileKeepsDisjoint(levels, level, f);
  }

  lemma AddFileKeepsNumbers(levels: Levels, nextFile: nat, level: nat, f: File)
    requires NumbersOk(levels, nextFile) && level < NUM_LEVELS && f.number == nextFile
    ensures NumbersOk(AddFile(levels, level, f), nextFile + 1)
  {
    var after := AddFile(levels, level, f);
    forall l, m, g, k | 0 <= l < NUM_LEVELS && 0 <= m < NUM_LEVELS && g in after[l] && k in after[m] && g.number == k.number
      ensures l == m && g == k
    {
      AddFileMember(levels, level, f, l, g);
      AddFileMember(levels, level, f, m, k);
    }
  }

  // ---------- A flush while a compaction is in progress ----------

  lemma AddFileKeepsInputs(levels: Levels, level: nat, f: File, job: Job)
    requires InputsOk(levels, job) && level < NUM_LEVELS
    ensures InputsOk(AddFile(levels, level, f), job)
  {
  }

  // The new file is newer than every input, and so than every output.
  lemma AddFileKeepsOlder(levels: Levels, level: nat, f: File, job: Job)
    requires InputsOk(levels, job) && OutputsAreOlder(levels, job) && Placed(levels, level, f)
    requires forall e :: InOutputs(job, e) ==> InInputs(job, e)
    ensures OutputsAreOlder(AddFile(levels, level, f), job)
  {
    forall g, o | g in AddFile(levels, level, f)[job.level] && g.number !in Numbers(job.in0) && o in job.outputs
      ensures Newer(g.entries, o.entries)
    {
      AddFileMember(levels, level, f, job.level, g);
      if g !in levels[job.level] {
        forall x, y | x in g.entries && y in o.entries && x.key.user == y.key.user ensures x.key.sequence > y.key.sequence {
          assert InOutputs(job, y);
          var k :| IsInput(job, k) && y in k.entries;
          assert k in levels[job.level] || k in levels[job.level + 1];
        }
      }
    }
  }

  lemma AddFileKeepsOutputs(levels: Levels, nextFile: nat, level: nat, f: File, job: Job)
    requires job.level + 1 < NUM_LEVELS && OutputsOk(levels, nextFile, job)
    requires level < NUM_LEVELS && f.number == nextFile
    ensures OutputsOk(AddFile(levels, level, f), nextFile + 1, job)
  {
    var after := AddFile(levels, level, f);
    forall l, g, o | 0 <= l < NUM_LEVELS && g in after[l] && o in job.outputs && g.number == o.number
      ensures g == o && l == job.level && g in job.in0
    {
      AddFileMember(levels, level, f, l, g);
    }
  }

  lemma AddFileKeepsObsolete(levels: Levels, level: nat, f: File, job: Job, e: Entry)
    requires AllWellFormed(levels) && Placed(levels, level, f) && level <= MAX_MEM_COMPACT_LEVEL
    requires InputsOk(levels, job) && InInputs(job, e)
    requires DroppedAsObsolete(levels, job, e)
    ensures DroppedAsObsolete(AddFile(levels, level, f), job, e)
  {
    var k :| IsInput(job, k) && e in k.entries;
    assert k in levels[job.level] || k in levels[job.level + 1];
    var after := AddFile(levels, level, f);
    forall l, g, o | job.level + 2 <= l < NUM_LEVELS && g in after[l] && o in g.entries ensures o.key.user != e.key.user {
      AddFileMember(levels, level, f, l, g);
      if g !in levels[l] {
        NoOverlapNoSharedKey(f, k, o, e);
      }
    }
    forall g, o | Bystander(after, job, g) && o in g.entries && o.key.user == e.key.user ensures o.key.sequence > e.key.sequence {
      AddFileMember(levels, level, f, job.level, g);
      AddFileMember(levels, level, f, job.level + 1, g);
      if g != f { assert Bystander(levels, job, g); }
    }
  }

  lemma AddFileKeepsFit(levels: Levels, level: nat, f: File, job: Job)
    requires job.level + 1 < NUM_LEVELS && level < NUM_LEVELS
    requires OutputsFit(levels, job) && FlushFits(job, level, f)
    ensures OutputsFit(AddFile(levels, level, f), job)
  {
  }

  lemma AddFileKeepsJob(levels: Levels, nextFile: nat, level: nat, f: File, job: Job)
    requires AllWellFormed(levels) && Placed(levels, level, f) && level <= MAX_MEM_COMPACT_LEVEL
    requires JobFits(levels, nextFile, job) && FlushFits(job, level, f) && f.number == nextFile
    ensures JobFits(AddFile(levels, level, f), nextFile + 1, job)
  {
    AddFileKeepsInputs(levels, level, f, job);
    AddFileKeepsOutputs(levels, nextFile, level, f, job);
    AddFileKeepsOlder(levels, level, f, job);
    AddFileKeepsFit(levels, level, f, job);
  }

  // ---------- The gap that the file must not fall into ----------

  // The entries lie on both sides of the file's user keys.
  predicate Surrounds(es: seq<Entry>, f: File) {
    exists x, y :: x in es && y in es && x.key.user < f.smallest.user && f.largest.user < y.key.user
  }

  // Placement keeps the file clear of everything that the compaction reads.
  ghost predicate ClearOfInputs(job: Job, f: File) {
    forall g :: IsInput(job, g) ==> WellFormed(g) && !Overlaps(g, Hull(f))
  }

  lemma PlacedIsClear(levels: Levels, level: nat, f: File, job: Job)
    requires AllWellFormed(levels) && InputsOk(levels, job) && Placed(levels, level, f) && level == job.level + 1
    ensures ClearOfInputs(job, f)
  {
    forall g | IsInput(job, g) ensures WellFormed(g) && !Overlaps(g, Hull(f)) {
      assert g in levels[job.level] || g in levels[job.level + 1];
    }
  }

  lemma InputAvoids(job: Job, f: File, e: Entry)
    requires ClearOfInputs(job, f) && InInputs(job, e)
    ensures e.key.user < f.smallest.user || f.largest.user < e.key.user
  {
    var g :| IsInput(job, g) && e in g.entries;
    FileRange(g, e);
  }

  // Between gapless inputs there is no room for a file that overlaps none of them.
  lemma GaplessSurroundsNothing(job: Job, f: File, x: Entry, y: Entry)
    requires Gapless(job.in0 + job.in1) && ClearOfInputs(job, f) && WellFormed(f)
    requires InInputs(job, x) && InInputs(job, y) && x.key.user < f.smallest.user
    ensures y.key.user <= f.largest.user
  {
    var g :| IsInput(job, g) && x in g.entries;
    var k :| IsInput(job, k) && y in k.entries;
    FileRange(g, x);
    FileRange(k, y);
    FileRange(f, f.entries[0]);
    if f.largest.user < y.key.user {
      assert g in job.in0 + job.in1 && k in job.in0 + job.in1;
      assert Covers(job.in0 + job.in1, f.smallest.user);
      var m :| m in job.in0 + job.in1 && RangeHas(m, f.smallest.user);
      assert IsInput(job, m) && Overlaps(m, Hull(f));
    }
  }

  // An output that does not surround the file lies on one side of it.
  lemma OutputOnOneSide(job: Job, f: File, o: File)
    requires ClearOfInputs(job, f) && WellFormed(f) && WellFormed(o) && !Surrounds(o.entries, f)
    requires forall e :: e in o.entries ==> InInputs(job, e)
    ensures Before(f, o) || Before(o, f)
  {
    var first, last := o.entries[0], o.entries[|o.entries| - 1];
    assert first in o.entries && last in o.entries;
    InputAvoids(job, f, first);
    InputAvoids(job, f, last);
    FileRange(f, f.entries[0]);
  }

  // ---------- The flush step ----------

  lemma FlushedFileIsPlaced(db: Db, size: nat, level: nat)
    requires db.imm.Some? && db.imm.value != []
    requires MemtablesOk(db.mem, db.Imm(), db.levels) && NumbersOk(db.levels, db.nextFile)
    requires FlushLevel(db.levels, Hull(FlushedFile(db, size)), level)
    ensures Placed(db.levels, level, FlushedFile(db, size))
  {
    var f := FlushedFile(db, size);
    if level > 0 {
      FlushLevelIsClear(db.levels, Hull(f), level);
      assert forall l, g :: 0 <= l <= level && g in db.levels[l] ==> !Overlaps(g, Hull(f)) by {
        forall l, g | 0 <= l <= level && g in db.levels[l] ensures !Overlaps(g, Hull(f)) {
          assert !OverlapsAny(db.levels[l], Hull(f));
        }
      }
    }
  }

  lemma FlushHolds(db: Db, size: nat, level: nat)
    requires db.imm.Some? && level < NUM_LEVELS
    ensures forall e :: Holds(Flush(db, size, level), e) <==> Holds(db, e)
  {
    var after := Flush(db, size, level);
    if db.imm.value != [] {
      var f := FlushedFile(db, size);
      forall e | Holds(db, e) ensures Holds(after, e) {
        if e in db.Imm() {
          AddFileMember(db.levels, level, f, level, f);
          assert f in after.levels[level] && e in f.entries;
        } else if InFiles(db.levels, e) {
          var l, g :| 0 <= l < NUM_LEVELS && g in db.levels[l] && e in g.entries;
          AddFileMember(db.levels, level, f, l, g);
        }
      }
      forall e | Holds(after, e) ensures Holds(db, e) {
        if InFiles(after.levels, e) {
          var l, g :| 0 <= l < NUM_LEVELS && g in after.levels[l] && e in g.entries;
          AddFileMember(db.levels, level, f, l, g);
        }
      }
    }
  }

  lemma SameHeldKeepsReads(db: Db, after: Db, h: seq<Entry>)
    requires FromHistory(db, h) && Retained(db, h)
    requires after.lastSequence == db.lastSequence && after.snapshots == db.snapshots
    requires forall e :: Holds(after, e) <==> Holds(db, e)
    ensures FromHistory(after, h) && Retained(after, h)
  {
    forall e | Needed(h, after.OldestReadPoint(), e) ensures Represented(after, e) {
      assert Represented(db, e);
    }
  }

  lemma FlushKeepsReads(db: Db, h: seq<Entry>, size: nat, level: nat)
    requires FromHistory(db, h) && Retained(db, h)
    requires db.imm.Some? && level < NUM_LEVELS
    ensures FromHistory(Flush(db, size, level), h) && Retained(Flush(db, size, level), h)
  {
    FlushHolds(db, size, level);
    SameHeldKeepsReads(db, Flush(db, size, level), h);
  }

  lemma FlushKeepsMemtables(db: Db, size: nat, level: nat)
    requires db.imm.Some? && level < NUM_LEVELS
    requires MemtablesOk(db.mem, db.Imm(), db.levels)
    ensures MemtablesOk(db.mem, [], Flush(db, size, level).levels)
  {
    if db.imm.value != [] {
      var after := AddFile(db.levels, level, FlushedFile(db, size));
      forall l, g | 0 <= l < NUM_LEVELS && g in after[l] ensures Newer(db.mem, g.entries) {
        AddFileMember(db.levels, level, FlushedFile(db, size), l, g);
      }
    }
  }

  lemma FlushKeepsFiles(db: Db, size: nat, level: nat)
    requires db.imm.Some? && db.imm.value != []
    requires Layered(db.levels) && NumbersOk(db.levels, db.nextFile)
    requires Placed(db.levels, level, FlushedFile(db, size))
    ensures Layered(Flush(db, size, level).levels)
    ensures NumbersOk(Flush(db, size, level).levels, db.nextFile + 1)
  {
    AddFileKeepsLayered(db.levels, level, FlushedFile(db, size));
    AddFileKeepsNumbers(db.levels, db.nextFile, level, FlushedFile(db, size));
  }

  // The level chosen for a flush, and the room a compaction in progress must leave.
  ghost predicate FlushAllowed(db: Db, size: nat, level: nat) {
    && db.imm.Some? && level < NUM_LEVELS
    && (db.imm.value != [] ==> FlushLevel(db.levels, Hull(FlushedFile(db, size)), level))
    && (db.imm.value != [] && db.job.Some? ==> FlushFits(db.job.value, level, FlushedFile(db, size)))
  }

  lemma FlushKeepsDrops(db: Db, size: nat, level: nat, job: Job)
    requires FlushAllowed(db, size, level) && InputsOk(db.levels, job) && DropsOk(db, job)
    requires AllWellFormed(db.levels)
    requires db.imm.value != [] ==> Placed(db.levels, level, FlushedFile(db, size))
    ensures DropsOk(Flush(db, size, level), job)
  {
    var after := Flush(db, size, level);
    FlushHolds(db, size, level);
    forall e | InInputs(job, e) && !InOutputs(job, e)
      ensures Overwritten(after, job.smallestSnapshot, e) || DroppedAsObsolete(after.levels, job, e)
    {
      if !Overwritten(db, job.smallestSnapshot, e) && db.imm.value != [] {
        AddFileKeepsObsolete(db.levels, level, FlushedFile(db, size), job, e);
      }
    }
  }

  lemma FlushKeepsJob(db: Db, size: nat, level: nat, job: Job)
    requires FlushAllowed(db, size, level) && db.job == Some(job) && JobOk(db, job)
    requires AllWellFormed(db.levels)
    requires db.imm.value != [] ==> Placed(db.levels, level, FlushedFile(db, size))
    ensures JobOk(Flush(db, size, level), job)
  {
    hide DropsOk, AllWellFormed, Placed, Newer, OutputsAreOlder, OutputsFit, FlushFits;
    FlushKeepsDrops(db, size, level, job);
    if db.imm.value != [] {
      AddFileKeepsJob(db.levels, db.nextFile, level, FlushedFile(db, size), job);
    }
  }

  lemma FlushKeepsInv(db: Db, h: seq<Entry>, size: nat, level: nat)
    requires Inv(db, h) && FlushAllowed(db, size, level)
    ensures Inv(Flush(db, size, level), h)
  {
    FlushKeepsReads(db, h, size, level);
    FlushKeepsMemtables(db, size, level);
    if db.imm.value != [] {
      FlushedFileIsPlaced(db, size, level);
      FlushKeepsFiles(db, size, level);
    }
    if db.job.Some? {
      FlushKeepsJob(db, size, level, db.job.value);
    }
  }
}
