// The internal iterators over a whole database and over the inputs of a compaction.
module InputIterators {
  import opened DbFormat
  import opened Tables
  import opened VersionSearch
  import opened CompactionInputs
  import opened InputRuns
  import opened LsmState
  import opened LsmBegin
  import opened LsmRuns
  import opened Merger

  ghost predicate InLevels(levels: Levels, upTo: nat, e: Entry)
    requires upTo <= NUM_LEVELS
  {
    exists l :: 0 <= l < upTo && InSomeFile(levels[l], e)
  }

  lemma OneMoreLevel(levels: Levels, level: nat, e: Entry)
    requires level < NUM_LEVELS
    ensures InLevels(levels, level + 1, e) <==> InLevels(levels, level, e) || InSomeFile(levels[level], e)
  {
  }

  lemma LevelsShareNoKey(levels: Levels, level: nat, x: Entry, y: Entry)
    requires LayeredByAge(levels) && level < NUM_LEVELS
    requires InLevels(levels, level, x) && InSomeFile(levels[level], y)
    ensures x.key != y.key
  {
    var l :| 0 <= l < level && InSomeFile(levels[l], x);
    var f :| f in levels[l] && x in f.entries;
    var g :| g in levels[level] && y in g.entries;
    assert Newer(f.entries, g.entries);
  }

  // Version::AddIterators.
  method AddIterators(levels: Levels) returns (runs: seq<seq<Entry>>)
    requires Layered(levels) && Ordered(levels[0])
    ensures Tidy(runs) && forall e :: InSome(runs, e) <==> InLevels(levels, NUM_LEVELS, e)
  {
    runs := [];
    for level := 0 to NUM_LEVELS
      invariant Tidy(runs) && forall e :: InSome(runs, e) <==> InLevels(levels, level, e)
    {
      RunsAreTidy(level, levels[level]);
      forall e ensures InSome(RunsOf(level, levels[level]), e) <==> InSomeFile(levels[level], e) {
        RunsHold(level, levels[level], e);
      }
      forall x, y | InSome(runs, x) && InSome(RunsOf(level, levels[level]), y) ensures x.key != y.key {
        LevelsShareNoKey(levels, level, x, y);
      }
      TidyTogether(runs, RunsOf(level, levels[level]));
      forall e ensures InSome(runs + RunsOf(level, levels[level]), e) <==> InLevels(levels, level + 1, e) {
        InSomeOfBoth(runs, RunsOf(level, levels[level]), e);
        OneMoreLevel(levels, level, e);
      }
      runs := runs + RunsOf(level, levels[level]);
    }
  }

  // The runs of the memtables in front of those of the files.
  lemma MemtableRuns(db: Db, files: seq<seq<Entry>>)
    requires MemtablesOk(db.mem, db.Imm(), db.levels)
    requires Tidy(files) && forall e :: InSome(files, e) <==> InLevels(db.levels, NUM_LEVELS, e)
    ensures Tidy([db.mem, db.Imm()] + files)
    ensures forall e :: InSome([db.mem, db.Imm()] + files, e) <==> Holds(db, e)
  {
    var front := [db.mem, db.Imm()];
    forall x, y | InSome(front, x) && InSome(files, y) ensures x.key != y.key {
      var l :| 0 <= l < NUM_LEVELS && InSomeFile(db.levels[l], y);
      var f :| f in db.levels[l] && y in f.entries;
      assert Newer(db.mem, f.entries) && Newer(db.Imm(), f.entries);
    }
    TidyTogether(front, files);
    forall e ensures InSome(front + files, e) <==> Holds(db, e) {
      InSomeOfBoth(front, files, e);
      assert InSome(front, e) <==> e in front[0] || e in front[1];
      assert InLevels(db.levels, NUM_LEVELS, e) <==> InFiles(db.levels, e);
    }
  }

  function JobRuns(job: Job): seq<seq<Entry>> {
    RunsOf(job.level, job.in0) + RunsOf(job.level + 1, job.in1)
  }

  lemma InputRunsHold(job: Job, e: Entry)
    ensures InSome(JobRuns(job), e) <==> InInputs(job, e)
  {
    RunsHold(job.level, job.in0, e);
    RunsHold(job.level + 1, job.in1, e);
    InSomeOfBoth(RunsOf(job.level, job.in0), RunsOf(job.level + 1, job.in1), e);
    InputsAreInFiles(job, e);
  }

  lemma InputRunsAreTidy(levels: Levels, job: Job)
    requires LayeredByAge(levels) && job.level + 1 < NUM_LEVELS
    requires forall f :: f in job.in0 ==> f in levels[job.level]
    requires forall f :: f in job.in1 ==> f in levels[job.level + 1]
    requires Tidy(RunsOf(job.level, job.in0)) && Tidy(RunsOf(job.level + 1, job.in1))
    ensures Tidy(JobRuns(job))
  {
    InputsShareNoKey(levels, job);
    forall x, y | InSome(RunsOf(job.level, job.in0), x) && InSome(RunsOf(job.level + 1, job.in1), y) ensures x.key != y.key {
      RunsHold(job.level, job.in0, x);
      RunsHold(job.level + 1, job.in1, y);
    }
    TidyTogether(RunsOf(job.level, job.in0), RunsOf(job.level + 1, job.in1));
  }

  lemma ChosenRunsAreTidy(levels: Levels, level: nat, chosen: seq<File>)
    requires Searchable(levels) && Ordered(levels[0]) && level < NUM_LEVELS
    requires (forall f :: f in chosen ==> f in levels[level]) && InLevelOrder(levels[level], chosen)
    ensures Tidy(RunsOf(level, chosen))
  {
    RunsAreTidy(level, chosen);
  }

  lemma ChosenMembers(levels: Levels, job: Job)
    requires Choosable(levels, job.level, job.in0, job.in1)
    ensures job.level + 1 < NUM_LEVELS
    ensures forall f :: f in job.in0 ==> f in levels[job.level]
    ensures forall f :: f in job.in1 ==> f in levels[job.level + 1]
    ensures InLevelOrder(levels[job.level + 1], job.in1)
  {
    var hull :| Selected(levels, job.level, job.in0, job.in1, hull);
    OverlappingInLevelOrder(levels[job.level + 1], hull);
  }

  lemma JobRunsAreTidy(levels: Levels, job: Job)
    requires Searchable(levels) && LayeredByAge(levels) && Ordered(levels[0])
    requires Choosable(levels, job.level, job.in0, job.in1) && InLevelOrder(levels[job.level], job.in0)
    ensures Tidy(JobRuns(job))
  {
    hide Choosable, InLevelOrder, Ordered, LayeredByAge;
    ChosenMembers(levels, job);
    ChosenRunsAreTidy(levels, job.level, job.in0);
    ChosenRunsAreTidy(levels, job.level + 1, job.in1);
    InputRunsAreTidy(levels, job);
  }

  // VersionSet::MakeInputIterator.
  method MakeInputIterator(levels: Levels, job: Job) returns (it: MergingIterator)
    requires Layered(levels) && Ordered(levels[0]) && Choosable(levels, job.level, job.in0, job.in1)
    requires InLevelOrder(levels[job.level], job.in0)
    ensures fresh(it) && it.Ok() && Merges(job, it.merged)
  {
    JobRunsAreTidy(levels, job);
    forall e ensures InSome(JobRuns(job), e) <==> InInputs(job, e) { InputRunsHold(job, e); }
    it := NewMergingIterator(JobRuns(job));
  }

  lemma InputsAreInFiles(job: Job, e: Entry)
    ensures InInputs(job, e) <==> InSomeFile(job.in0, e) || InSomeFile(job.in1, e)
  {
    if InSomeFile(job.in0, e) {
      var f :| f in job.in0 && e in f.entries;
      assert IsInput(job, f);
    }
    if InSomeFile(job.in1, e) {
      var f :| f in job.in1 && e in f.entries;
      assert IsInput(job, f);
    }
  }

  lemma InputsShareNoKey(levels: Levels, job: Job)
    requires LayeredByAge(levels) && job.level + 1 < NUM_LEVELS
    requires forall f :: f in job.in0 ==> f in levels[job.level]
    requires forall f :: f in job.in1 ==> f in levels[job.level + 1]
    ensures forall x, y :: InSomeFile(job.in0, x) && InSomeFile(job.in1, y) ==> x.key != y.key
  {
    forall x, y | InSomeFile(job.in0, x) && InSomeFile(job.in1, y) ensures x.key != y.key {
      var f :| f in job.in0 && x in f.entries;
      var g :| g in job.in1 && y in g.entries;
      assert Newer(f.entries, g.entries);
    }
  }
}
