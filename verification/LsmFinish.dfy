// Finishing a compaction keeps the invariant: no reader can tell that it happened.
module LsmFinish {
  import opened DbFormat
  import opened Tables
  import opened VersionSearch
  import opened LsmState
  import opened LsmInstall

  function Finish(db: Db, job: Job): Db
    requires job.level + 1 < NUM_LEVELS
  {
    db.(levels := Install(db.levels, job), job := None)
  }

  lemma InstallKeepsMemtables(es: seq<Entry>, levels: Levels, job: Job)
    requires NewerThanFiles(es, levels) && InputsOk(levels, job)
    requires forall e :: InOutputs(job, e) ==> InInputs(job, e)
    ensures NewerThanFiles(es, Install(levels, job))
  {
    var after := Install(levels, job);
    forall l, f | 0 <= l < NUM_LEVELS && f in after[l] ensures Newer(es, f.entries) {
      InstallMember(levels, job, l, f);
      if !Stays(levels, job, l, f) {
        forall x, y | x in es && y in f.entries && x.key.user == y.key.user ensures x.key.sequence > y.key.sequence {
          assert InOutputs(job, y);
          var g :| IsInput(job, g) && y in g.entries;
          assert g in levels[job.level] || g in levels[job.level + 1];
        }
      }
    }
  }

  lemma FinishAddsNothing(db: Db, job: Job, e: Entry)
    requires InputsOk(db.levels, job)
    requires forall o :: InOutputs(job, o) ==> InInputs(job, o)
    requires Holds(Finish(db, job), e)
    ensures Holds(db, e)
  {
    if InFiles(Install(db.levels, job), e) {
      InstallAddsNothing(db.levels, job, e);
    }
  }

  // What is left for the user key once an obsolete deletion is gone is newer than it.
  lemma NothingOlderStays(db: Db, job: Job, l: nat, f: File, e: Entry, o: Entry)
    requires LayeredByAge(db.levels) && InputsOk(db.levels, job)
    requires InInputs(job, e) && DroppedAsObsolete(db.levels, job, e)
    requires Stays(db.levels, job, l, f) && o in f.entries && o.key.user == e.key.user
    ensures o.key.sequence > e.key.sequence
  {
    var g :| IsInput(job, g) && e in g.entries;
    if l < job.level {
      assert g in db.levels[job.level] || g in db.levels[job.level + 1];
      assert Newer(f.entries, g.entries);
    } else if l <= job.level + 1 {
      assert Bystander(db.levels, job, f);
    }
  }

  lemma InputsAreHeld(db: Db, job: Job, e: Entry)
    requires InputsOk(db.levels, job) && InInputs(job, e)
    ensures Holds(db, e)
  {
    var g :| IsInput(job, g) && e in g.entries;
    assert g in db.levels[job.level] || g in db.levels[job.level + 1];
  }

  lemma MemtableNewerThanInput(es: seq<Entry>, levels: Levels, job: Job, e: Entry, o: Entry)
    requires NewerThanFiles(es, levels) && InputsOk(levels, job)
    requires InInputs(job, e) && o in es && o.key.user == e.key.user
    ensures o.key.sequence > e.key.sequence
  {
    var g :| IsInput(job, g) && e in g.entries;
    assert g in levels[job.level] || g in levels[job.level + 1];
    assert Newer(es, g.entries);
  }

  lemma FilesNewerThanObsolete(db: Db, job: Job, e: Entry, o: Entry)
    requires LayeredByAge(db.levels) && InputsOk(db.levels, job)
    requires forall o :: InOutputs(job, o) ==> InInputs(job, o)
    requires InInputs(job, e) && DroppedAsObsolete(db.levels, job, e)
    requires InFiles(Install(db.levels, job), o) && o.key.user == e.key.user
    ensures o.key.sequence > e.key.sequence
  {
    InstallAddsNothing(db.levels, job, o);
    if !InOutputs(job, o) {
      var l, f :| Stays(db.levels, job, l, f) && o in f.entries;
      NothingOlderStays(db, job, l, f, e, o);
    }
  }

  lemma ObsoleteIsRepresented(db: Db, job: Job, e: Entry)
    requires LayeredByAge(db.levels) && InputsOk(db.levels, job)
    requires NewerThanFiles(db.mem, db.levels) && NewerThanFiles(db.Imm(), db.levels)
    requires forall o :: InOutputs(job, o) ==> InInputs(job, o)
    requires job.smallestSnapshot <= db.OldestReadPoint()
    requires InInputs(job, e) && DroppedAsObsolete(db.levels, job, e)
    ensures Represented(Finish(db, job), e)
  {
    var after := Finish(db, job);
    forall o | Holds(after, o) && o.key.user == e.key.user ensures o.key.sequence > e.key.sequence {
      if o in db.mem {
        MemtableNewerThanInput(db.mem, db.levels, job, e, o);
      } else if o in db.Imm() {
        MemtableNewerThanInput(db.Imm(), db.levels, job, e, o);
      } else {
        FilesNewerThanObsolete(db, job, e, o);
      }
    }
  }

  lemma NeededIsNotOverwritten(db: Db, h: seq<Entry>, readPoint: nat, e: Entry)
    requires FromHistory(db, h) && readPoint <= db.OldestReadPoint()
    requires Needed(h, db.OldestReadPoint(), e)
    ensures !Overwritten(db, readPoint, e)
  {
  }

  lemma DropIsRepresented(db: Db, h: seq<Entry>, job: Job, e: Entry)
    requires FromHistory(db, h) && LayeredByAge(db.levels) && NumbersOk(db.levels, db.nextFile)
    requires NewerThanFiles(db.mem, db.levels) && NewerThanFiles(db.Imm(), db.levels)
    requires InputsOk(db.levels, job) && DropsOk(db, job)
    requires forall o :: InOutputs(job, o) ==> InInputs(job, o)
    requires job.smallestSnapshot <= db.OldestReadPoint()
    requires Needed(h, db.OldestReadPoint(), e) && Holds(db, e) && !Holds(Finish(db, job), e)
    ensures Represented(Finish(db, job), e)
  {
    var l, f :| 0 <= l < NUM_LEVELS && f in db.levels[l] && e in f.entries;
    InstallLosesOnlyDrops(db.levels, db.nextFile, job, l, f, e);
    NeededIsNotOverwritten(db, h, job.smallestSnapshot, e);
    ObsoleteIsRepresented(db, job, e);
  }

  lemma FinishKeepsRetained(db: Db, h: seq<Entry>, job: Job)
    requires FromHistory(db, h) && Retained(db, h) && LayeredByAge(db.levels) && NumbersOk(db.levels, db.nextFile)
    requires MemtablesOk(db.mem, db.Imm(), db.levels)
    requires InputsOk(db.levels, job) && DropsOk(db, job)
    requires forall o :: InOutputs(job, o) ==> InInputs(job, o)
    requires job.smallestSnapshot <= db.OldestReadPoint()
    ensures Retained(Finish(db, job), h)
  {
    var after := Finish(db, job);
    forall e | Needed(h, after.OldestReadPoint(), e) ensures Represented(after, e) {
      assert Represented(db, e);
      if Holds(db, e) {
        if !Holds(after, e) { DropIsRepresented(db, h, job, e); }
      } else {
        forall o | Holds(after, o) && o.key.user == e.key.user ensures o.key.sequence > e.key.sequence {
          FinishAddsNothing(db, job, o);
        }
      }
    }
  }

  lemma FinishKeepsInv(db: Db, h: seq<Entry>, job: Job)
    requires Inv(db, h) && JobOk(db, job)
    ensures Inv(Finish(db, job), h)
  {
    var after := Finish(db, job);
    InstallKeepsAges(db.levels, job);
    InstallKeepsDisjoint(db.levels, job);
    InstallKeepsWellFormed(db.levels, job);
    InstallKeepsNumbers(db.levels, db.nextFile, job);
    InstallKeepsMemtables(db.mem, db.levels, job);
    InstallKeepsMemtables(db.Imm(), db.levels, job);
    FinishKeepsRetained(db, h, job);
    assert FromHistory(after, h) by {
      forall e | Holds(after, e) ensures Wrote(h, e) { FinishAddsNothing(db, job, e); }
    }
  }
}
