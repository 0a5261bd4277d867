// Installing a compaction (DBImpl::InstallCompactionResults and a trivial move in
// DBImpl::BackgroundCompaction): the inputs go, the outputs join the next level.
module LsmInstall {
  import opened DbFormat
  import opened Tables
  import opened VersionSearch
  import opened LsmState

  function Install(levels: Levels, job: Job): Levels
    requires job.level + 1 < NUM_LEVELS
  {
    levels[job.level := Remaining(levels[job.level], Numbers(job.in0))]
          [job.level + 1 := AddFiles(Remaining(levels[job.level + 1], Numbers(job.in1)), job.outputs)]
  }

  ghost predicate Stays(levels: Levels, job: Job, l: nat, f: File) {
    && l < NUM_LEVELS && f in levels[l]
    && (l == job.level ==> f.number !in Numbers(job.in0))
    && (l == job.level + 1 ==> f.number !in Numbers(job.in1))
  }

  lemma InstallMembers(levels: Levels, job: Job)
    requires job.level + 1 < NUM_LEVELS
    ensures forall l, f :: 0 <= l < NUM_LEVELS ==>
      (f in Install(levels, job)[l] <==> Stays(levels, job, l, f) || (l == job.level + 1 && f in job.outputs))
  {
  }

  lemma InstallMember(levels: Levels, job: Job, l: nat, f: File)
    requires job.level + 1 < NUM_LEVELS && l < NUM_LEVELS
    ensures f in Install(levels, job)[l] <==> Stays(levels, job, l, f) || (l == job.level + 1 && f in job.outputs)
  {
  }

  lemma OutputsNewerThan(job: Job, o: File, f: File)
    requires forall g :: IsInput(job, g) ==> Newer(g.entries, f.entries)
    requires forall e :: InOutputs(job, e) ==> InInputs(job, e)
    requires o in job.outputs
    ensures Newer(o.entries, f.entries)
  {
    forall x, y | x in o.entries && y in f.entries && x.key.user == y.key.user ensures x.key.sequence > y.key.sequence {
      assert InOutputs(job, x);
      var g :| IsInput(job, g) && x in g.entries;
    }
  }

  lemma NewerThanOutputs(job: Job, f: File, o: File)
    requires forall g :: IsInput(job, g) ==> Newer(f.entries, g.entries)
    requires forall e :: InOutputs(job, e) ==> InInputs(job, e)
    requires o in job.outputs
    ensures Newer(f.entries, o.entries)
  {
    forall x, y | x in f.entries && y in o.entries && x.key.user == y.key.user ensures x.key.sequence > y.key.sequence {
      assert InOutputs(job, y);
      var g :| IsInput(job, g) && y in g.entries;
    }
  }

  lemma StaysNewerThanOutputs(levels: Levels, job: Job, l: nat, f: File, o: File)
    requires LayeredByAge(levels) && InputsOk(levels, job) && OutputsAreOlder(levels, job)
    requires forall e :: InOutputs(job, e) ==> InInputs(job, e)
    requires Stays(levels, job, l, f) && l <= job.level && o in job.outputs
    ensures Newer(f.entries, o.entries)
  {
    if l < job.level {
      forall g | IsInput(job, g) ensures Newer(f.entries, g.entries) {
        assert g in levels[job.level] || g in levels[job.level + 1];
      }
      NewerThanOutputs(job, f, o);
    }
  }

  lemma OutputsNewerThanDeeper(levels: Levels, job: Job, m: nat, f: File, o: File)
    requires LayeredByAge(levels) && InputsOk(levels, job)
    requires forall e :: InOutputs(job, e) ==> InInputs(job, e)
    requires job.level + 1 < m < NUM_LEVELS && f in levels[m] && o in job.outputs
    ensures Newer(o.entries, f.entries)
  {
    forall g | IsInput(job, g) ensures Newer(g.entries, f.entries) {
      if g in job.in0 { assert g in levels[job.level]; }
      else { assert g in levels[job.level + 1]; }
    }
    OutputsNewerThan(job, o, f);
  }

  lemma InstallKeepsAges(levels: Levels, job: Job)
    requires LayeredByAge(levels) && InputsOk(levels, job) && OutputsAreOlder(levels, job)
    requires forall e :: InOutputs(job, e) ==> InInputs(job, e)
    ensures LayeredByAge(Install(levels, job))
  {
    InstallMembers(levels, job);
    var after := Install(levels, job);
    forall l, m, f, g | 0 <= l < m < NUM_LEVELS && f in after[l] && g in after[m]
      ensures Newer(f.entries, g.entries)
    {
      if !Stays(levels, job, l, f) {
        OutputsNewerThanDeeper(levels, job, m, g, f);
      } else if !Stays(levels, job, m, g) {
        StaysNewerThanOutputs(levels, job, l, f, g);
      }
    }
  }

  lemma InstallKeepsDisjoint(levels: Levels, job: Job)
    requires Layered(levels) && job.level + 1 < NUM_LEVELS
    requires Disjoint(job.outputs) && (forall o :: o in job.outputs ==> WellFormed(o)) && OutputsFit(levels, job)
    ensures forall l :: 1 <= l < NUM_LEVELS ==> Disjoint(Install(levels, job)[l])
  {
    var lower := Remaining(levels[job.level + 1], Numbers(job.in1));
    RemainingKeepsDisjoint(levels[job.level + 1], Numbers(job.in1));
    AddFilesKeepsDisjoint(lower, job.outputs);
    if job.level > 0 {
      RemainingKeepsDisjoint(levels[job.level], Numbers(job.in0));
    }
  }

  lemma InstallKeepsWellFormed(levels: Levels, job: Job)
    requires AllWellFormed(levels) && NumberedByAge(levels[0]) && job.level + 1 < NUM_LEVELS
    requires forall o :: o in job.outputs ==> WellFormed(o)
    ensures AllWellFormed(Install(levels, job)) && NumberedByAge(Install(levels, job)[0])
  {
    InstallMembers(levels, job);
  }

  lemma InstallKeepsNumbers(levels: Levels, nextFile: nat, job: Job)
    requires NumbersOk(levels, nextFile) && job.level + 1 < NUM_LEVELS
    requires OutputsOk(levels, nextFile, job)
    ensures NumbersOk(Install(levels, job), nextFile)
  {
    var after := Install(levels, job);
    forall l, f | 0 <= l < NUM_LEVELS && f in after[l] ensures f.number < nextFile {
      InstallMember(levels, job, l, f);
    }
    forall l, m, f, g | 0 <= l < NUM_LEVELS && 0 <= m < NUM_LEVELS && f in after[l] && g in after[m] && f.number == g.number
      ensures l == m && f == g
    {
      InstallMember(levels, job, l, f);
      InstallMember(levels, job, m, g);
      if Stays(levels, job, l, f) && !Stays(levels, job, m, g) {
        StaysIsNoOutput(levels, nextFile, job, l, f, g);
      } else if !Stays(levels, job, l, f) && Stays(levels, job, m, g) {
        StaysIsNoOutput(levels, nextFile, job, m, g, f);
      }
    }
  }

  lemma StaysIsNoOutput(levels: Levels, nextFile: nat, job: Job, l: nat, f: File, o: File)
    requires job.level + 1 < NUM_LEVELS && OutputsOk(levels, nextFile, job)
    requires Stays(levels, job, l, f) && o in job.outputs
    ensures f.number != o.number
  {
  }

  // Nothing appears in the files that was not there before.
  lemma InstallAddsNothing(levels: Levels, job: Job, e: Entry)
    requires InputsOk(levels, job)
    requires forall o :: InOutputs(job, o) ==> InInputs(job, o)
    requires InFiles(Install(levels, job), e)
    ensures InFiles(levels, e)
    ensures InOutputs(job, e) || exists l, f :: Stays(levels, job, l, f) && e in f.entries
  {
    InstallMembers(levels, job);
    var l, f :| 0 <= l < NUM_LEVELS && f in Install(levels, job)[l] && e in f.entries;
    if !Stays(levels, job, l, f) {
      assert InOutputs(job, e);
      var g :| IsInput(job, g) && e in g.entries;
      assert g in levels[job.level] || g in levels[job.level + 1];
    }
  }

  lemma OutputsAreInstalled(levels: Levels, job: Job, e: Entry)
    requires job.level + 1 < NUM_LEVELS && InOutputs(job, e)
    ensures InFiles(Install(levels, job), e)
  {
    var o :| o in job.outputs && e in o.entries;
    InstallMember(levels, job, job.level + 1, o);
  }

  // An entry disappears from the files only if it was an input and not an output.
  lemma InstallLosesOnlyDrops(levels: Levels, nextFile: nat, job: Job, l: nat, f: File, e: Entry)
    requires NumbersOk(levels, nextFile) && InputsOk(levels, job)
    requires l < NUM_LEVELS && f in levels[l] && e in f.entries
    requires !InFiles(Install(levels, job), e)
    ensures InInputs(job, e) && !InOutputs(job, e)
  {
    InstallMember(levels, job, l, f);
    if !Stays(levels, job, l, f) {
      GoneIsInput(levels, nextFile, job, l, f);
    }
    if InOutputs(job, e) {
      OutputsAreInstalled(levels, job, e);
    }
  }

  lemma GoneIsInput(levels: Levels, nextFile: nat, job: Job, l: nat, f: File)
    requires NumbersOk(levels, nextFile) && InputsOk(levels, job)
    requires l < NUM_LEVELS && f in levels[l] && !Stays(levels, job, l, f)
    ensures IsInput(job, f)
  {
    if l == job.level {
      var g :| g in job.in0 && g.number == f.number;
      assert g in levels[l];
    } else {
      var g :| g in job.in1 && g.number == f.number;
      assert g in levels[l];
    }
  }
}
